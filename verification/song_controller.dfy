/**
 * The HTTP handlers of controllers/song_controller.go. A handler's request
 * arrives as its query-string values (an absent key reads as "") and its
 * JSON body already decoded, None standing for a body that does not decode;
 * its answer is a Response.
 */
module Controller {
  import opened Wrappers
  import opened Models
  import opened Ilike
  import opened SongSql
  import opened VerseSplit
  import opened DateLayout
  import opened QueryParams
  import opened Repository

  /** What a handler writes back. */
  datatype Response =
    | BadRequest
    | InternalError
    | Created(song: Song)
    | NoContent
    | SongList(songs: seq<Row>)
    | VerseList(verses: seq<string>, count: int)
    | TextUpdated

  /** The HTTP status code of a response. */
  function Status(r: Response): int
  {
    match r
    case BadRequest => 400
    case InternalError => 500
    case Created(_) => 201
    case NoContent => 204
    case _ => 200
  }

  /** The JSON body AddSongs decodes into models.Song. */
  datatype AddBody = AddBody(groupName: string, songTitle: string, text: string, link: string, verses: Option<seq<string>>)

  /** The JSON body DeleteSongs decodes into models.Song; only these two fields are used. */
  datatype DeleteBody = DeleteBody(groupName: string, songTitle: string)

  /**
   * The release_date query value as a date: the zero time when the value is
   * absent, the parsed date when it has the layout, None when it does not.
   */
  function DateParam(param: string): Option<Date>
  {
    if param == "" then Some(ZERO_DATE) else ParseDate(param)
  }

  /** A present release_date is accepted exactly when it is a valid date in the layout. */
  lemma DateParamAccepts(param: string)
    ensures param == "" ==> DateParam(param) == Some(ZERO_DATE)
    ensures param != "" && DateParam(param).Some? ==>
      ValidDate(DateParam(param).value) && FormatDate(DateParam(param).value) == param
    ensures forall d :: ValidDate(d) ==> DateParam(FormatDate(d)) == Some(d)
  {
    if param != "" && DateParam(param).Some? {
      ParseIsCanonical(param);
    }
    forall d | ValidDate(d)
      ensures DateParam(FormatDate(d)) == Some(d)
    {
      ParseFormat(d);
    }
  }

  /** The verses AddSongs stores: the text split into verses when there is text, else the body's own. */
  function VersesOf(text: string, bodyVerses: Option<seq<string>>): (vs: Option<seq<string>>)
    ensures text != "" ==> vs.Some? && Join(vs.value) == text && |vs.value| == CountBreaks(text) + 1
    ensures text != "" ==> forall i :: 0 <= i < |vs.value| ==> !HasBreak(vs.value[i])
    ensures text == "" ==> vs == bodyVerses
  {
    if text != "" then
      JoinSplit(text);
      SplitCount(text);
      SplitPiecesHaveNoBreak(text);
      Some(Split(text))
    else bodyVerses
  }

  /** Two blank lines in a row give an empty verse between the two around them. */
  lemma SplitExample()
    ensures Split("a\n\n\n\nb") == ["a", "", "b"]
  {
    var s := "a\n\n\n\nb";
    assert BreakAt(s, 1) && !BreakAt(s, 0);
    assert FirstBreak(s) == 1;
    assert s[3..] == "\n\nb";
    assert BreakAt(s[3..], 0);
    assert FirstBreak(s[3..]) == 0;
    assert s[..1] == "a";
    var t := s[3..];
    assert t[..0] == "" && t[2..] == "b";
    assert FirstBreak("b") == -1;
    assert Split("b") == ["b"];
    assert Split(t) == [""] + ["b"];
  }

  /** With no release_date, GetSongs only ever returns songs dated 0001-01-01. */
  lemma AbsentDateSelectsZeroDate(rows: seq<Row>, groupName: string, songTitle: string, text: string, link: string)
    ensures var f := SongFilter(groupName, songTitle, DateParam("").value, text, link);
      forall r :: r in QueryRows(rows, f, DEFAULT_LIMIT, DEFAULT_OFFSET) ==> r.releaseDate == ZERO_DATE
  {
    QueryRowsSound(rows, SongFilter(groupName, songTitle, ZERO_DATE, text, link), DEFAULT_LIMIT, DEFAULT_OFFSET);
  }

  /**
   * GetSongsVerses as written hands its limit to the repository's offset
   * parameter and its offset to the limit parameter. Unless the request
   * carries a positive offset, the SQL LIMIT is 0 and the page is empty.
   */
  lemma SwappedCallReturnsNoVerses(rows: seq<Row>, songTitle: string, limitParam: string, offsetParam: string)
    requires ValidPattern(songTitle)
    requires VersesOffset(offsetParam) == DEFAULT_OFFSET
    ensures CollectVerses(Window(TitleMatching(rows, songTitle), VersesOffset(offsetParam), VersesLimit(limitParam))) == Ok([])
  {
    EmptyPageNoVerses(TitleMatching(rows, songTitle), VersesLimit(limitParam));
  }

  /**
   * With the arguments in the repository's order, a request without limit
   * and offset starts from the first matching row: its verses come first.
   */
  lemma IntendedCallStartsAtFirstMatch(rows: seq<Row>, songTitle: string)
    requires ValidPattern(songTitle)
    requires |TitleMatching(rows, songTitle)| > 0
    requires CollectVerses(Window(TitleMatching(rows, songTitle), VersesLimit(""), VersesOffset(""))).Ok?
    ensures RowVerses(TitleMatching(rows, songTitle)[0]).Ok?
    ensures RowVerses(TitleMatching(rows, songTitle)[0]).value
      <= CollectVerses(Window(TitleMatching(rows, songTitle), VersesLimit(""), VersesOffset(""))).value
  {
    var page := Window(TitleMatching(rows, songTitle), VersesLimit(""), VersesOffset(""));
    VersesDefaults(-1);
    assert page[0] == TitleMatching(rows, songTitle)[0];
  }

  class SongController {
    const repo: SongRepository

    constructor (repo: SongRepository)
      ensures this.repo == repo
    {
      this.repo := repo;
    }

    /**
     * POST /songs. A release_date that is present but not a date in the
     * layout, or a body that does not decode, is answered 400 before the
     * repository is called. Otherwise the song gets that date (the zero time
     * when absent) and, when it has text, the text's verses; a repository
     * error is 500 and success is 201 with the song.
     */
    method AddSongs(releaseDateParam: string, body: Option<AddBody>, storeFails: bool, idDrawn: bool)
      returns (resp: Response)
      requires repo.Valid()
      modifies repo
      ensures repo.Valid()
      ensures DateParam(releaseDateParam).None? || body.None? ==>
        resp == BadRequest && repo.rows == old(repo.rows) && repo.nextId == old(repo.nextId)
      ensures DateParam(releaseDateParam).Some? && body.Some? ==>
        var b := body.value;
        var song := Song(b.groupName, b.songTitle, DateParam(releaseDateParam).value, b.text, b.link, VersesOf(b.text, b.verses));
        if storeFails then
          && resp == InternalError
          && repo.rows == old(repo.rows)
          && repo.nextId == old(repo.nextId) + (if idDrawn then 1 else 0)
        else
          && resp == Created(song)
          && repo.rows == old(repo.rows) + [NewRow(old(repo.nextId), song)]
          && repo.nextId == old(repo.nextId) + 1
      ensures Status(resp) == 201 <==> DateParam(releaseDateParam).Some? && body.Some? && !storeFails
    {
      var releaseDate := ZERO_DATE;
      if releaseDateParam != "" {
        var parsed := ParseDate(releaseDateParam);
        if parsed.None? {
          return BadRequest;
        }
        releaseDate := parsed.value;
      }
      if body.None? {
        return BadRequest;
      }
      var song := Song(body.value.groupName, body.value.songTitle, releaseDate, body.value.text, body.value.link, body.value.verses);
      if song.text != "" {
        song := song.(verses := Some(Split(song.text)));
      }
      var err := repo.AddSong(song, storeFails, idDrawn);
      if err.Some? {
        return InternalError;
      }
      return Created(song);
    }

    /**
     * DELETE /songs. A body that does not decode is 400 with the table
     * untouched; otherwise the song with that group and title is deleted,
     * a repository error is 500 and success is 204.
     */
    method DeleteSongs(body: Option<DeleteBody>, storeFails: bool) returns (resp: Response)
      requires repo.Valid()
      modifies repo
      ensures repo.Valid()
      ensures repo.nextId == old(repo.nextId)
      ensures body.None? ==> resp == BadRequest && repo.rows == old(repo.rows)
      ensures body.Some? && storeFails ==> resp == InternalError && repo.rows == old(repo.rows)
      ensures body.Some? && !storeFails ==>
        resp == NoContent && repo.rows == WithoutSong(old(repo.rows), body.value.groupName, body.value.songTitle)
      ensures Status(resp) == 204 <==> body.Some? && !storeFails
    {
      if body.None? {
        return BadRequest;
      }
      var err := repo.DeleteSong(body.value.groupName, body.value.songTitle, storeFails);
      if err.Some? {
        return InternalError;
      }
      return NoContent;
    }

    /**
     * GET /songs. A release_date that is present but not a date is 400.
     * Otherwise the repository is asked for the first ten songs matching the
     * five query values, with the zero time as the date when none is given,
     * whatever limit or offset the query string holds; a repository error is
     * 500 and success is 200 with the songs.
     */
    method GetSongs(groupName: string, songTitle: string, releaseDateParam: string, text: string, link: string,
                    storeFails: bool, scanFails: Row -> bool)
      returns (resp: Response)
      ensures DateParam(releaseDateParam).None? ==> resp == BadRequest
      ensures Status(resp) == 400 <==> DateParam(releaseDateParam).None?
      ensures DateParam(releaseDateParam).Some? ==>
        var page := QueryRows(repo.rows, SongFilter(groupName, songTitle, DateParam(releaseDateParam).value, text, link),
                              DEFAULT_LIMIT, DEFAULT_OFFSET);
        resp == if storeFails || exists i :: 0 <= i < |page| && scanFails(page[i]) then InternalError else SongList(page)
    {
      var releaseDate := ZERO_DATE;
      if releaseDateParam != "" {
        var parsed := ParseDate(releaseDateParam);
        if parsed.None? {
          return BadRequest;
        }
        releaseDate := parsed.value;
      }
      var limit := DEFAULT_LIMIT;
      var offset := DEFAULT_OFFSET;
      var songs := repo.GetSong(SongFilter(groupName, songTitle, releaseDate, text, link), limit, offset, storeFails, scanFails);
      if songs.Err? {
        return InternalError;
      }
      return SongList(songs.value);
    }

    /**
     * GET /songs/verses, as written: limit and offset fall back to 10 and 0,
     * then go to the repository in swapped positions, so the SQL LIMIT is the
     * request's offset and the SQL OFFSET its limit. A repository error is
     * 500; success is 200 with the verses and their count.
     */
    method GetSongsVerses(songTitle: string, limitParam: string, offsetParam: string, storeFails: bool)
      returns (resp: Response)
      ensures resp.VerseList? ==> resp.count == |resp.verses|
      ensures storeFails || !ValidPattern(songTitle) ==> resp == InternalError
      ensures !storeFails && ValidPattern(songTitle) ==>
        var got := CollectVerses(Window(TitleMatching(repo.rows, songTitle), VersesOffset(offsetParam), VersesLimit(limitParam)));
        resp == if got.Ok? then VerseList(got.value, |got.value|) else InternalError
    {
      var limit := VersesLimit(limitParam);
      var offset := VersesOffset(offsetParam);
      var verses := repo.GetSongVerses(songTitle, limit, offset, storeFails);
      if verses.Err? {
        return InternalError;
      }
      return VerseList(verses.value, |verses.value|);
    }

    /**
     * GET /songs/verses with the arguments in the repository's order: the
     * SQL LIMIT is the request's limit and the SQL OFFSET its offset.
     */
    method GetSongsVersesIntended(songTitle: string, limitParam: string, offsetParam: string, storeFails: bool)
      returns (resp: Response)
      ensures resp.VerseList? ==> resp.count == |resp.verses|
      ensures storeFails || !ValidPattern(songTitle) ==> resp == InternalError
      ensures !storeFails && ValidPattern(songTitle) ==>
        var got := CollectVerses(Window(TitleMatching(repo.rows, songTitle), VersesLimit(limitParam), VersesOffset(offsetParam)));
        resp == if got.Ok? then VerseList(got.value, |got.value|) else InternalError
    {
      var limit := VersesLimit(limitParam);
      var offset := VersesOffset(offsetParam);
      var verses := repo.GetSongVerses(songTitle, offset, limit, storeFails);
      if verses.Err? {
        return InternalError;
      }
      return VerseList(verses.value, |verses.value|);
    }

    /**
     * PUT /update-text. An empty song_title is 400 before the body is read
     * or the repository called; so is a body that does not decode. Otherwise
     * the text of the songs whose title matches is replaced, a repository
     * error is 500 and success is 200.
     */
    method UpdateSongsText(songTitle: string, newText: Option<string>, storeFails: bool) returns (resp: Response)
      requires repo.Valid()
      modifies repo
      ensures repo.Valid()
      ensures repo.nextId == old(repo.nextId)
      ensures songTitle == "" || newText.None? ==> resp == BadRequest && repo.rows == old(repo.rows)
      ensures Status(resp) == 200 <==> songTitle != "" && newText.Some? && !storeFails && ValidPattern(songTitle)
      ensures songTitle != "" && newText.Some? ==>
        if storeFails || !ValidPattern(songTitle) then
          resp == InternalError && repo.rows == old(repo.rows)
        else
          resp == TextUpdated && repo.rows == SetText(old(repo.rows), songTitle, newText.value)
    {
      if songTitle == "" {
        return BadRequest;
      }
      if newText.None? {
        return BadRequest;
      }
      var err := repo.UpdateSongText(songTitle, newText.value, storeFails);
      if err.Some? {
        return InternalError;
      }
      return TextUpdated;
    }
  }
}
