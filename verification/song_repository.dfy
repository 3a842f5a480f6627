/**
 * The songs repository of repositories/song_repository.go: an in-memory songs
 * table whose methods perform the INSERT, DELETE, SELECT and UPDATE statements
 * the repository sends to PostgreSQL.
 */
module Repository {
  import opened Wrappers
  import opened Models
  import opened Ilike
  import opened JsonVerses
  import opened SongSql

  /** Why a repository call returns an error. */
  datatype RepoError =
    | StoreFailure     // the database could not run the statement at all
    | NegativeOffset   // PostgreSQL: OFFSET must not be negative
    | NegativeLimit    // PostgreSQL: LIMIT must not be negative
    | InvalidPattern   // PostgreSQL: LIKE pattern must not end with escape character
    | ScanFailure      // a selected row could not be scanned into models.Song
    | DecodeFailure    // a stored verses value is not a JSON array of strings

  /** The row the INSERT of AddSong stores under the id the store assigns. */
  function NewRow(id: nat, song: Song): Row
  {
    Row(id, song.groupName, song.songTitle, song.releaseDate, song.text, song.link,
        Some(Encode(song.verses)))
  }

  /**
   * The verses column of an added song reads back as the song's verses: the
   * list itself, or nothing for a nil list.
   */
  lemma NewRowVerses(id: nat, song: Song)
    ensures NewRow(id, song).verses.Some?
    ensures RowVerses(NewRow(id, song)) == Ok(Elements(song.verses))
  {
    DecodeEncode(song.verses);
  }

  /**
   * The rows.Next loop of GetSong: scans the selected rows in order into a
   * list; the first row that fails to scan ends the loop with an error and
   * no list.
   */
  method ScanRows(page: seq<Row>, scanFails: Row -> bool) returns (r: Result<seq<Row>, RepoError>)
    ensures r == if exists i :: 0 <= i < |page| && scanFails(page[i]) then Err(ScanFailure) else Ok(page)
  {
    var songs: seq<Row> := [];
    var i := 0;
    while i < |page|
      invariant 0 <= i <= |page|
      invariant songs == page[..i]
      invariant forall k :: 0 <= k < i ==> !scanFails(page[k])
    {
      if scanFails(page[i]) {
        return Err(ScanFailure);
      }
      songs := songs + [page[i]];
      i := i + 1;
    }
    assert songs == page;
    return Ok(songs);
  }

  /**
   * The rows.Next loop of GetSongVerses: appends the decoded verses of each
   * selected row in order, skipping SQL NULL; the first value that does not
   * decode ends the loop with an error and no verses.
   */
  method CollectRows(page: seq<Row>) returns (r: Result<seq<string>, RepoError>)
    ensures r == if CollectVerses(page).Ok? then Ok(CollectVerses(page).value) else Err(DecodeFailure)
  {
    var verses: seq<string> := [];
    var i := 0;
    assert page[i..] == page;
    if CollectVerses(page).Ok? {
      assert verses + CollectVerses(page).value == CollectVerses(page).value;
    }
    while i < |page|
      invariant 0 <= i <= |page|
      invariant CollectVerses(page) == AppendTo(verses, CollectVerses(page[i..]))
    {
      var stored := page[i].verses;
      var here: seq<string> := [];
      if stored.Some? {
        var decoded := Decode(stored.value);
        if decoded.Err? {
          CollectStop(page, i, verses);
          return Err(DecodeFailure);
        }
        here := Elements(decoded.value);
      }
      CollectStep(page, i, verses, here);
      verses := verses + here;
      i := i + 1;
    }
    assert page[i..] == [] && verses + [] == verses;
    return Ok(verses);
  }

  class SongRepository {
    /** The songs table, in storage order. */
    var rows: seq<Row>
    /** The next value of the id sequence. */
    var nextId: nat

    /** Ids are unique and below the next value of the sequence. */
    ghost predicate Valid()
      reads this
    {
      && UniqueIds(rows)
      && (forall i :: 0 <= i < |rows| ==> rows[i].id < nextId)
    }

    /**
     * A repository over the table as the database holds it: its rows and the
     * next value of its id sequence. Nothing is created or emptied.
     */
    constructor (initial: seq<Row>, next: nat)
      requires UniqueIds(initial)
      requires forall i :: 0 <= i < |initial| ==> initial[i].id < next
      ensures Valid()
      ensures rows == initial && nextId == next
    {
      rows := initial;
      nextId := next;
    }

    /**
     * Inserts one row holding the song's fields and the JSON encoding of its
     * verses, under a fresh id; the rows already there are kept as they are.
     * The id comes from the column's sequence default, which is drawn before
     * constraints are checked and never given back: `idDrawn` says whether a
     * failed INSERT got that far (a constraint violation) or not (a lost
     * connection).
     */
    method AddSong(song: Song, storeFails: bool, idDrawn: bool) returns (err: Option<RepoError>)
      requires Valid()
      modifies this
      ensures Valid()
      ensures storeFails ==>
        && err == Some(StoreFailure)
        && rows == old(rows)
        && nextId == old(nextId) + (if idDrawn then 1 else 0)
      ensures !storeFails ==>
        && err == None
        && rows == old(rows) + [NewRow(old(nextId), song)]
        && nextId == old(nextId) + 1
    {
      var versesJson := Encode(song.verses);
      if storeFails {
        if idDrawn {
          nextId := nextId + 1;
        }
        return Some(StoreFailure);
      }
      rows := rows + [Row(nextId, song.groupName, song.songTitle, song.releaseDate, song.text, song.link, Some(versesJson))];
      nextId := nextId + 1;
      return None;
    }

    /** Deletes every row whose group and title equal the arguments exactly. */
    method DeleteSong(groupName: string, songTitle: string, storeFails: bool) returns (err: Option<RepoError>)
      requires Valid()
      modifies this
      ensures Valid()
      ensures nextId == old(nextId)
      ensures storeFails ==> err == Some(StoreFailure) && rows == old(rows)
      ensures !storeFails ==> err == None && rows == WithoutSong(old(rows), groupName, songTitle)
    {
      if storeFails {
        return Some(StoreFailure);
      }
      var kept := WithoutSong(rows, groupName, songTitle);
      WhereKeepsUniqueIds(rows, (r: Row) => !IsSong(r, groupName, songTitle));
      forall i | 0 <= i < |kept|
        ensures kept[i].id < nextId
      {
        assert kept[i] in rows;
      }
      rows := kept;
      return None;
    }

    /**
     * Runs the filtered, ordered and paginated SELECT and scans the selected
     * rows one by one. A row that fails to scan aborts the call with an error
     * and no partial list; otherwise the result is exactly the page
     * QueryRows describes. The table is not changed.
     */
    method GetSong(filter: SongFilter, limit: int, offset: int, storeFails: bool, scanFails: Row -> bool)
      returns (r: Result<seq<Row>, RepoError>)
      ensures storeFails ==> r == Err(StoreFailure)
      ensures !storeFails && offset < 0 ==> r == Err(NegativeOffset)
      ensures !storeFails && offset >= 0 && limit < 0 ==> r == Err(NegativeLimit)
      ensures !storeFails && offset >= 0 && limit >= 0 ==>
        var page := QueryRows(rows, filter, limit, offset);
        r == if exists i :: 0 <= i < |page| && scanFails(page[i]) then Err(ScanFailure) else Ok(page)
    {
      if storeFails {
        return Err(StoreFailure);
      }
      if offset < 0 {
        return Err(NegativeOffset);
      }
      if limit < 0 {
        return Err(NegativeLimit);
      }
      r := ScanRows(QueryRows(rows, filter, limit, offset), scanFails);
    }

    /**
     * Selects the rows whose title matches the pattern, applies LIMIT and
     * OFFSET to those rows, and appends the decoded verses of each selected
     * row in row order, skipping SQL NULL. The first stored value that does
     * not decode aborts the call. The table is not changed.
     */
    method GetSongVerses(songTitle: string, offset: int, limit: int, storeFails: bool)
      returns (r: Result<seq<string>, RepoError>)
      ensures storeFails ==> r == Err(StoreFailure)
      ensures !storeFails && offset < 0 ==> r == Err(NegativeOffset)
      ensures !storeFails && offset >= 0 && limit < 0 ==> r == Err(NegativeLimit)
      ensures !storeFails && offset >= 0 && limit >= 0 && !ValidPattern(songTitle) ==> r == Err(InvalidPattern)
      ensures !storeFails && offset >= 0 && limit >= 0 && ValidPattern(songTitle) ==>
        var page := Window(TitleMatching(rows, songTitle), limit, offset);
        r == if CollectVerses(page).Ok? then Ok(CollectVerses(page).value) else Err(DecodeFailure)
    {
      if storeFails {
        return Err(StoreFailure);
      }
      if offset < 0 {
        return Err(NegativeOffset);
      }
      if limit < 0 {
        return Err(NegativeLimit);
      }
      if !ValidPattern(songTitle) {
        return Err(InvalidPattern);
      }
      r := CollectRows(Window(TitleMatching(rows, songTitle), limit, offset));
    }

    /**
     * Sets the text of every row whose title matches the pattern (used as
     * given, without added wildcards) to `newText`; the stored verses and
     * every other column stay as they were.
     */
    method UpdateSongText(songTitle: string, newText: string, storeFails: bool) returns (err: Option<RepoError>)
      requires Valid()
      modifies this
      ensures Valid()
      ensures nextId == old(nextId)
      ensures storeFails ==> err == Some(StoreFailure) && rows == old(rows)
      ensures !storeFails && !ValidPattern(songTitle) ==> err == Some(InvalidPattern) && rows == old(rows)
      ensures !storeFails && ValidPattern(songTitle) ==>
        err == None && rows == SetText(old(rows), songTitle, newText)
    {
      if storeFails {
        return Some(StoreFailure);
      }
      if !ValidPattern(songTitle) {
        return Some(InvalidPattern);
      }
      rows := SetText(rows, songTitle, newText);
      return None;
    }
  }
}
