# song-library, modelled in Dafny

song-library is a small HTTP service that keeps a catalogue of songs in a
PostgreSQL table. A song has a group, a title, a release date, its text, a
link, and its verses. The verses are the text cut at every blank line, and
they are stored as a JSON array of strings. The service can:

- add a song;
- delete a song by group and title;
- search songs with a five-field filter, returning at most the ten latest matching songs;
- list the verses of the songs whose title matches a pattern;
- replace the text of the songs whose title matches a pattern.

This project models two layers of that service:

- **The repository.** `Repository.SongRepository` is a class holding the songs
  table as a sequence of rows. Its methods perform the INSERT, DELETE, SELECT
  and UPDATE statements of `repositories/song_repository.go`. Each method is
  proved against the functions of `SongSql`. These functions say what each SQL
  statement computes: the filter, the ordering, the LIMIT/OFFSET window, the
  verse collection, the delete and the update. Two pure modules make the SQL
  concrete:
  - `Ilike` is PostgreSQL's case-insensitive `ILIKE`, with `_`, `%` and `\`.
  - `JsonVerses` is the JSON encoding Go's `encoding/json` writes for a
    `[]string`, and the decoder that reads it back.
- **The HTTP handlers.** `Controller.SongController` holds the handlers of
  `controllers/song_controller.go`. They take their query values and their
  decoded body as parameters, and they return a `Response` that stands for the
  HTTP status and payload. The pure parts of request shaping have their own
  modules:
  - `VerseSplit` is Go's `strings.Split` on `"\n\n"`.
  - `DateLayout` is `time.Parse` with the layout `2006-01-02`.
  - `QueryParams` covers `strconv.Atoi` and the limit/offset defaults.

Two things the service does not control are inputs of the methods:
- A database failure is a `storeFails` flag.
- The driver's conversion of a selected row into `models.Song` is a
  `scanFails` predicate.

Three behaviours of the code shape the model:

- `GetSongVerses` and `UpdateSongText` use the caller's title as a raw
  `ILIKE` pattern (`repositories/song_repository.go:155`, `:204`). They do not
  do a substring test. Without wildcards the match is equality up to case
  (`Ilike.PlainPatternIsFoldedEquality`).
- `GetSongVerses` applies LIMIT and OFFSET to the matching rows. It does not
  apply them to the flattened verse list (`SongSql.OneRowPage`).
- `GetSongs` always asks for limit 10 and offset 0. The query string's limit
  and offset are never read (`controllers/song_controller.go:104-105`).

## Model

| member | source | states |
|---|---|---|
| Ilike.WrappedPatternIsValid | repositories/song_repository.go:106-110 | `'%' \|\| v \|\| '%'` is a well-formed pattern for every filter value `v`, so the GetSong filter never hits the trailing-escape error |
| Ilike.EndsWithoutEscapeIsValid | repositories/song_repository.go:155 | a non-empty pattern that does not end in a backslash is well formed |
| Ilike.ValidIffEvenEscapes | repositories/song_repository.go:155 | a pattern is well formed exactly when the run of backslashes that ends it has even length, so it is malformed exactly when it ends with a lone escape character |
| Ilike.MatchLits | repositories/song_repository.go:204 | a run of literal characters matches exactly a prefix equal to it up to case, and the rest must match the rest of the pattern |
| Ilike.PlainPatternIsFoldedEquality | repositories/song_repository.go:204 | a title without `%`, `_` or `\` matches exactly the titles equal to it up to case |
| Ilike.WrappedPlainIsSubstring | repositories/song_repository.go:106-110 | for a value without wildcards, `column ILIKE '%'\|\|v\|\|'%'` holds iff `v` occurs in the column up to case |
| JsonVerses.EscapeCharRoundTrip | repositories/song_repository.go:41 | every escape the encoder writes for one character is read back as that character |
| JsonVerses.EncodeCharsRoundTrip | repositories/song_repository.go:41 | the escaped body of a string literal decodes back to the string and stops at the closing quote |
| JsonVerses.EncodeItemsRoundTrip | repositories/song_repository.go:41 | the comma-separated literals written for a non-empty list parse back to that list |
| JsonVerses.DecodeEncode | repositories/song_repository.go:172-178 | decoding what AddSong stored at line 41 gives back the original verses: `null` for a nil list, the same strings in the same order otherwise |
| VerseSplit.FirstBreak | controllers/song_controller.go:48 | the result is the position of the first `"\n\n"`, or -1 exactly when there is none |
| VerseSplit.Split | controllers/song_controller.go:48 | the split always has at least one piece |
| VerseSplit.JoinSplit | controllers/song_controller.go:48 | joining the pieces with `"\n\n"` gives back the text exactly |
| VerseSplit.SplitPiecesHaveNoBreak | controllers/song_controller.go:48 | no piece contains `"\n\n"` |
| VerseSplit.SplitCount | controllers/song_controller.go:48 | the number of pieces is one more than the number of delimiters met left to right without overlap |
| VerseSplit.SplitJoin | controllers/song_controller.go:48 | a list of pieces that could have come from a split is recovered by splitting their join |
| DateLayout.ParseDate | controllers/song_controller.go:31 | every accepted date is a real calendar date: month 1..12, day within that month of that year, with the Gregorian leap rule |
| DateLayout.ParseFormat | controllers/song_controller.go:31 | every valid date written as YYYY-MM-DD is parsed back to itself |
| DateLayout.ParseIsCanonical | controllers/song_controller.go:95 | the parser accepts only the canonical spelling: the accepted text is the formatted date |
| QueryParams.AtoiItoa | controllers/song_controller.go:129 | a non-negative int64 value written in decimal is read back as itself |
| QueryParams.AtoiNegative | controllers/song_controller.go:129 | a negative int64 value written as a minus sign and its decimal magnitude is read back as itself |
| QueryParams.VersesLimit | controllers/song_controller.go:129-133 | the limit is at least 1: the parameter when it is a number of at least 1, else 10 |
| QueryParams.VersesOffset | controllers/song_controller.go:135-139 | the offset is at least 0: the parameter when it is a number of at least 0, else 0 |
| QueryParams.VersesLimitOfNumber | controllers/song_controller.go:129-133 | a limit written as a positive number is used as given |
| QueryParams.VersesOffsetOfNumber | controllers/song_controller.go:135-139 | an offset written as a non-negative number is used as given |
| QueryParams.VersesDefaults | controllers/song_controller.go:129-139 | a missing limit gives 10 and a missing offset gives 0; a negative number gives these defaults too |
| SongSql.Where | repositories/song_repository.go:106-110 | the selection holds exactly the rows that satisfy the condition, and no more rows than the table |
| SongSql.WhereCount | repositories/song_repository.go:106-110 | the selection holds each row that satisfies the condition exactly as often as the table does, and no other row |
| SongSql.WhereIdempotent | repositories/song_repository.go:73 | selecting twice with the same condition selects nothing more |
| SongSql.FieldMatchesMeaning | repositories/song_repository.go:106-110 | an empty filter value imposes no constraint; a value without wildcards is a substring test up to case |
| SongSql.InsertKeepsSorted | repositories/song_repository.go:111 | inserting a row into a list sorted latest first keeps it sorted |
| SongSql.SortByDateDesc | repositories/song_repository.go:111 | the ordering is a permutation of the matching rows, and it is sorted by release date with the latest first |
| SongSql.WindowShape | repositories/song_repository.go:112 | LIMIT/OFFSET returns at most `limit` consecutive rows starting at `offset`, and none when `offset` is past the end |
| SongSql.NextPage | repositories/song_repository.go:112 | the page at `offset + limit` continues the page at `offset` with no gap and no overlap |
| SongSql.QueryRowsSound | repositories/song_repository.go:106-112 | GetSong's page has at most `limit` rows and is sorted latest first; each row is a table row satisfying all five conditions, with a date exactly equal to the filter's, the zero date included; it is empty when `offset` is past the matches |
| SongSql.QueryRowsComplete | repositories/song_repository.go:103-111 | the ordered result is a permutation of the matching rows; a row is in it iff it is a table row satisfying the filter, and each such row occurs exactly as often as in the table |
| SongSql.CollectVersesFails | repositories/song_repository.go:174-177 | collecting verses fails iff some selected row's stored value does not decode |
| SongSql.OneRowPage | repositories/song_repository.go:155 | LIMIT and OFFSET count rows: a one-row page yields all the verses of that row |
| SongSql.EmptyPageNoVerses | repositories/song_repository.go:155 | LIMIT 0 yields no verses and no error |
| SongSql.CollectEncoded | repositories/song_repository.go:166-180 | rows holding what AddSong wrote give back the added verse lists concatenated in row order, a nil list contributing none |
| SongSql.DeleteEffect | repositories/song_repository.go:73-74 | delete removes exactly the rows whose group and title equal the arguments case-sensitively and keeps every other row; zero matches changes nothing; deleting twice is deleting once |
| SongSql.WhereKeepsUniqueIds | repositories/song_repository.go:73 | deleting rows never makes two rows share an id |
| SongSql.SetText | repositories/song_repository.go:204-206 | the update keeps the number of rows; a row's text becomes the new text iff its title matches the pattern; every other column, verses included, is unchanged |
| SongSql.UpdatePlainTitle | repositories/song_repository.go:204 | with a title free of wildcards, exactly the rows whose title equals it up to case get the new text, and their stored verses stay stale |
| Repository.NewRowVerses | repositories/song_repository.go:41-48 | the verses column of an inserted row always holds a value, and it reads back as the song's verses |
| Repository.ScanRows | repositories/song_repository.go:121-134 | the scan loop returns the whole page, in order, when every row converts; when any row fails to convert it returns an error and no partial list |
| Repository.CollectRows | repositories/song_repository.go:166-180 | the verse loop returns the decoded verses of the page concatenated in row order, skipping NULL values, exactly when every stored value decodes; otherwise it returns a decode error |
| Repository.SongRepository.constructor | repositories/song_repository.go:23-25 | a new repository works on the table as the database already holds it, rows and id sequence unchanged; nothing is created or emptied |
| Repository.SongRepository.AddSong | repositories/song_repository.go:38-57 | success appends one row carrying the song's fields and the JSON of its verses, under a fresh id, and keeps the old rows; a store failure leaves the rows unchanged and uses up one id exactly when the failure came after the id sequence was drawn |
| Repository.SongRepository.DeleteSong | repositories/song_repository.go:70-81 | success leaves exactly the rows that do not have the given group and title; a store failure changes nothing; ids stay unique |
| Repository.SongRepository.GetSong | repositories/song_repository.go:100-138 | the errors come in this order: store failure, negative OFFSET, negative LIMIT; a row that fails to scan gives an error and no partial list; otherwise the result is exactly the filtered, ordered page; the table is unchanged |
| Repository.SongRepository.GetSongVerses | repositories/song_repository.go:153-188 | after the error checks, the result is the concatenated decoded verses of the LIMIT/OFFSET window over the rows whose title matches, NULL values skipped; any value that does not decode gives an error |
| Repository.SongRepository.UpdateSongText | repositories/song_repository.go:202-214 | success sets the text where the title matches the pattern and changes nothing else; the new text is the first argument bound and the title the second (repository_test/repository_test.go:23-29); a failure changes nothing |
| Controller.DateParamAccepts | controllers/song_controller.go:28-38 | an absent release_date is the zero date; a present one is accepted exactly when it is a valid date spelled YYYY-MM-DD |
| Controller.VersesOf | controllers/song_controller.go:47-49 | a song with text gets the verse split of its text, which joins back to it, has one piece per delimiter plus one, and whose pieces contain no delimiter; with no text the body's verses are kept |
| Controller.SplitExample | controllers/song_controller.go:48 | `"a\n\n\n\nb"` splits into `"a"`, `""`, `"b"` |
| Controller.AbsentDateSelectsZeroDate | controllers/song_controller.go:93-113 | without release_date, GetSongs returns only songs dated 0001-01-01 |
| Controller.SwappedCallReturnsNoVerses | controllers/song_controller.go:141 | as written, a request without a positive offset gets a LIMIT 0 page and so an empty verse list |
| Controller.IntendedCallStartsAtFirstMatch | controllers/song_controller.go:141 | with the arguments in the repository's order, a request without limit and offset starts with the verses of the first matching song |
| Controller.SongController.constructor | controllers/song_controller.go:19-21 | the controller uses the given repository |
| Controller.SongController.AddSongs | controllers/song_controller.go:23-61 | a bad release_date or an undecodable body gives 400 and the table and id sequence are untouched; otherwise a store failure gives 500 with the table untouched and one id used up exactly when the failed INSERT had drawn it; success gives 201, stores the song with the parsed or zero date and with the verses of its text, and advances the id sequence by one; status 201 is answered exactly when the date and body are good and the store succeeds |
| Controller.SongController.DeleteSongs | controllers/song_controller.go:63-82 | an undecodable body gives 400 with the table untouched; a store failure gives 500; success gives 204 after the delete, exactly when the body decodes and the store succeeds; the id sequence never changes |
| Controller.SongController.GetSongs | controllers/song_controller.go:84-122 | a bad release_date gives 400, and only a bad release_date does; otherwise the answer is the page with limit 10 and offset 0 under the five query values and the parsed or zero date, or 500 on a repository error |
| Controller.SongController.GetSongsVerses | controllers/song_controller.go:124-155 | the defaulted limit and offset reach the repository swapped, so the SQL LIMIT is the request's offset and the SQL OFFSET its limit; the reported count equals the number of verses; a repository error gives 500 |
| Controller.SongController.GetSongsVersesIntended | controllers/song_controller.go:124-155 | the same handler with the request's limit as SQL LIMIT and its offset as SQL OFFSET |
| Controller.SongController.UpdateSongsText | controllers/song_controller.go:157-185 | an empty song_title gives 400 before the body is read; so does an undecodable body; in both cases the table is untouched; otherwise a repository error gives 500 and success gives 200 after the update; status 200 is answered exactly when the title is non-empty and a well-formed pattern, the body decodes and the store succeeds; the id sequence never changes |

## Left out

- Logging through `slog`, writing HTTP responses, and reading request bodies are left out. Handlers receive the decoded body, with None for a body that does not decode, and return a `Response` value.
- `main.go` and `routes/routes.go` are not part of this model. They cover configuration, the database connection, migrations, server start-up and route wiring.
- Database failures such as connectivity or constraint violations are a `storeFails` input. For the INSERT of AddSong an `idDrawn` input says whether the failure came after the id sequence was drawn, as it does for a constraint violation. The driver's conversion of a selected row into `models.Song` (`repositories/song_repository.go:124`) is a `scanFails` input, because the conversion rules belong to `database/sql` and `lib/pq`.
- Repository.SongRepository.GetSong: a returned song is the stored row. Its verses are the stored JSON text, not a decoded list, and the id is a number rather than a string.
- Repository.SongRepository.GetSongVerses: a title that ends in a lone backslash is reported as an error whenever the statement runs. PostgreSQL raises this error only when matching reaches the escape, so with no rows, or with rows that fail earlier in the pattern, the real call can succeed. This includes the LIMIT 0 page that the handler as written sends for a request without a positive offset: PostgreSQL then never evaluates the pattern and the service answers 200 with an empty list, while the model answers 500 for a title ending in a lone backslash.
- Repository.SongRepository.UpdateSongText: the same eager trailing-escape error as GetSongVerses.
- Controller.SongController.GetSongsVerses: inherits that eager error. With no positive offset in the request the SQL LIMIT is 0, and for a title ending in a lone backslash the model answers 500 where the service answers 200 with an empty list.
- Controller.SongController.GetSongsVersesIntended: inherits the eager trailing-escape error of GetSongVerses. For a title ending in a lone backslash that no stored title reaches in matching, an empty table included, the model answers 500 where the corrected service would answer 200 with an empty list.
- Controller.SongController.UpdateSongsText: inherits the eager trailing-escape error of UpdateSongText. For a title ending in a lone backslash that no stored title reaches in matching, an empty table included, the model answers 500 where the service answers 200 after an update of no rows.
- Ilike.Fold folds ASCII letters and the basic Cyrillic capitals U+0400..U+042F only. PostgreSQL's locale-dependent folding of other scripts is not modelled.
- Repository.SongRepository.AddSong: `json.Marshal` cannot fail for a `[]string`, so its error branch (`repositories/song_repository.go:42-45`) is not modelled. Invalid UTF-8 never occurs, because strings are sequences of Unicode characters.
- SongSql.SortByDateDesc: SQL leaves the order of rows with the same release date open. The model fixes one order, which is table order.
- SongSql.TitleMatching: the verses statement has no ORDER BY. The model takes table order as the scan order.
- Dates carry only year, month and day. Time of day and time zones never differ in this service, because every date is either parsed from YYYY-MM-DD or is the zero time.
- Controller.SongController.AddSongs: a `release_date` field inside the JSON body, which would override the query-string date when decoded, is not modelled.
- Controller.SongController.AddSongs: the id the store assigns is not echoed back, and neither is any id in the body. The response holds the song as the handler built it.
- Controller.SongController.GetSongsVerses: a nil verse list and an empty one are the same sequence. The JSON response would print them as `null` and `[]`.
- Controller.SongController.GetSongs: the same holds for the song list.
- Concurrent requests are not modelled. Each call runs alone against the table.

## Findings

| source | as written | input that shows it | evidently intended | confidence | as-written member | corrected member |
|---|---|---|---|---|---|---|
| controllers/song_controller.go:141 | the handler calls `GetSongVerses(songTitle, limit, offset)`, but the repository's parameters are `(songTitle, offset, limit)` (`repositories/song_repository.go:153`) | `GET /songs/verses?song_title=X` with no limit or offset: the statement runs with LIMIT 0 OFFSET 10, so the answer is an empty list even when songs titled X have verses | SQL LIMIT = the request's limit, SQL OFFSET = the request's offset | high, not executed | Controller.SwappedCallReturnsNoVerses | Controller.IntendedCallStartsAtFirstMatch |
