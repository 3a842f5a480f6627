/**
 * What the SQL statements of repositories/song_repository.go compute over the
 * songs table, written as functions of the table's rows (in table order).
 */
module SongSql {
  import opened Wrappers
  import opened Models
  import opened Ilike
  import opened JsonVerses

  /** The elements of `s` that satisfy `keep`, in their order in `s`. */
  function Where<T(!new)>(s: seq<T>, keep: T -> bool): (r: seq<T>)
    ensures |r| <= |s|
    ensures forall x :: x in r <==> x in s && keep(x)
  {
    if s == [] then [] else (if keep(s[0]) then [s[0]] else []) + Where(s[1..], keep)
  }

  /** Selecting twice with the same condition selects nothing more. */
  lemma {:induction false} WhereIdempotent<T(!new)>(s: seq<T>, keep: T -> bool)
    ensures Where(Where(s, keep), keep) == Where(s, keep)
    decreases |s|
  {
    if s != [] {
      WhereIdempotent(s[1..], keep);
      var rest := Where(s[1..], keep);
      if keep(s[0]) {
        assert ([s[0]] + rest)[1..] == rest;
      } else {
        assert [] + rest == rest;
      }
    }
  }

  /** The selection holds each kept element exactly as often as `s` does, and no other. */
  lemma {:induction false} WhereCount<T(!new)>(s: seq<T>, keep: T -> bool, x: T)
    ensures multiset(Where(s, keep))[x] == if keep(x) then multiset(s)[x] else 0
    decreases |s|
  {
    if s != [] {
      WhereCount(s[1..], keep, x);
      assert s == [s[0]] + s[1..];
      assert multiset(s) == multiset([s[0]]) + multiset(s[1..]);
      var head: seq<T> := if keep(s[0]) then [s[0]] else [];
      assert Where(s, keep) == head + Where(s[1..], keep);
      assert multiset(Where(s, keep)) == multiset(head) + multiset(Where(s[1..], keep));
    }
  }

  /** A condition every element satisfies selects the whole sequence. */
  lemma {:induction false} WhereAll<T(!new)>(s: seq<T>, keep: T -> bool)
    requires forall x :: x in s ==> keep(x)
    ensures Where(s, keep) == s
    decreases |s|
  {
    if s != [] {
      assert forall x :: x in s[1..] ==> x in s;
      WhereAll(s[1..], keep);
    }
  }

  // ---------------------------------------------------------------------------
  // GetSong: all columns of the rows meeting the five filter conditions,
  // latest release date first, one LIMIT/OFFSET page of them

  /** One text condition: `COALESCE(v, '') = '' OR column ILIKE '%' || v || '%'`. */
  predicate FieldMatches(column: string, value: string)
  {
    if value == "" then true
    else WrappedPatternIsValid(value); Ilike.Ilike(column, "%" + value + "%")
  }

  /** The WHERE clause of GetSong: the four text conditions and date equality. */
  predicate RowMatches(r: Row, f: SongFilter)
  {
    && FieldMatches(r.groupName, f.groupName)
    && FieldMatches(r.songTitle, f.songTitle)
    && r.releaseDate == f.releaseDate
    && FieldMatches(r.text, f.text)
    && FieldMatches(r.link, f.link)
  }

  function Matching(rows: seq<Row>, f: SongFilter): seq<Row>
  {
    Where(rows, (r: Row) => RowMatches(r, f))
  }

  /** An empty filter value is no constraint; a plain one is a substring test up to case. */
  lemma FieldMatchesMeaning(column: string, value: string)
    ensures value == "" ==> FieldMatches(column, value)
    ensures value != "" && Plain(value) ==> (FieldMatches(column, value) <==> ContainsFolded(column, value))
  {
    if value != "" && Plain(value) {
      WrappedPlainIsSubstring(column, value);
    }
  }

  predicate SortedByDateDesc(s: seq<Row>)
  {
    forall i, j :: 0 <= i < j < |s| ==> !Before(s[i].releaseDate, s[j].releaseDate)
  }

  /** `!Before` is the order "not earlier than", which is transitive. */
  lemma NotBeforeTransitive(a: Date, b: Date, c: Date)
    requires !Before(a, b) && !Before(b, c)
    ensures !Before(a, c)
  {
  }

  /** Puts `x` before the first row that is not later than it. */
  function InsertByDate(x: Row, s: seq<Row>): (r: seq<Row>)
    ensures multiset(r) == multiset(s) + multiset{x}
    decreases |s|
  {
    if s == [] || !Before(x.releaseDate, s[0].releaseDate) then [x] + s
    else
      assert s == [s[0]] + s[1..];
      [s[0]] + InsertByDate(x, s[1..])
  }

  /** Inserting into a list sorted latest first keeps it sorted. */
  lemma {:induction false} InsertKeepsSorted(x: Row, s: seq<Row>)
    requires SortedByDateDesc(s)
    ensures SortedByDateDesc(InsertByDate(x, s))
    decreases |s|
  {
    var r := InsertByDate(x, s);
    if s == [] || !Before(x.releaseDate, s[0].releaseDate) {
      forall i, j | 0 <= i < j < |r|
        ensures !Before(r[i].releaseDate, r[j].releaseDate)
      {
        if i == 0 && j > 1 {
          NotBeforeTransitive(x.releaseDate, s[0].releaseDate, s[j - 1].releaseDate);
        }
      }
    } else {
      var t := InsertByDate(x, s[1..]);
      InsertKeepsSorted(x, s[1..]);
      assert r == [s[0]] + t;
      forall i, j | 0 <= i < j < |r|
        ensures !Before(r[i].releaseDate, r[j].releaseDate)
      {
        if i == 0 {
          var y := t[j - 1];
          assert y in multiset(t);
          if y != x {
            assert y in multiset(s[1..]);
            var k :| 0 <= k < |s[1..]| && s[1..][k] == y;
            assert s[k + 1] == y;
          }
        } else {
          assert r[i] == t[i - 1] && r[j] == t[j - 1];
        }
      }
    }
  }

  /**
   * ORDER BY release_date DESC. The order among rows with the same date is
   * left open by SQL; this model keeps their table order.
   */
  function SortByDateDesc(s: seq<Row>): (r: seq<Row>)
    ensures multiset(r) == multiset(s)
    ensures SortedByDateDesc(r)
  {
    if s == [] then []
    else
      assert s == [s[0]] + s[1..];
      var rest := SortByDateDesc(s[1..]);
      InsertKeepsSorted(s[0], rest);
      InsertByDate(s[0], rest)
  }

  /** LIMIT `limit` OFFSET `offset`. */
  function Window<T>(s: seq<T>, limit: nat, offset: nat): seq<T>
  {
    if offset >= |s| then []
    else if offset + limit <= |s| then s[offset..offset + limit]
    else s[offset..]
  }

  /** The rows GetSong's statement returns. */
  function QueryRows(rows: seq<Row>, f: SongFilter, limit: nat, offset: nat): seq<Row>
  {
    Window(SortByDateDesc(Matching(rows, f)), limit, offset)
  }

  /** A window is a run of consecutive elements starting at `offset`, at most `limit` long. */
  lemma WindowShape<T>(s: seq<T>, limit: nat, offset: nat)
    ensures |Window(s, limit, offset)| <= limit
    ensures offset >= |s| ==> Window(s, limit, offset) == []
    ensures offset < |s| ==> |Window(s, limit, offset)| == if offset + limit <= |s| then limit else |s| - offset
    ensures forall i :: 0 <= i < |Window(s, limit, offset)| ==> Window(s, limit, offset)[i] == s[offset + i]
  {
  }

  /** The next page starts exactly where this one ends: no gap and no overlap. */
  lemma NextPage<T>(s: seq<T>, limit: nat, offset: nat)
    ensures Window(s, limit, offset) + Window(s, limit, offset + limit) == Window(s, limit + limit, offset)
  {
    if offset + limit < |s| {
      if offset + limit + limit <= |s| {
        assert s[offset..offset + limit] + s[offset + limit..offset + limit + limit] == s[offset..offset + limit + limit];
      } else {
        assert s[offset..offset + limit] + s[offset + limit..] == s[offset..];
      }
    }
  }

  /**
   * Every row GetSong returns is in the table and satisfies all five
   * conditions; in particular its date equals the filter's date, the zero
   * date included. The page is sorted latest first and holds at most `limit`
   * rows; it is empty when `offset` is past the matches.
   */
  lemma QueryRowsSound(rows: seq<Row>, f: SongFilter, limit: nat, offset: nat)
    ensures |QueryRows(rows, f, limit, offset)| <= limit
    ensures SortedByDateDesc(QueryRows(rows, f, limit, offset))
    ensures forall r :: r in QueryRows(rows, f, limit, offset) ==> r in rows && RowMatches(r, f)
    ensures forall r :: r in QueryRows(rows, f, limit, offset) ==> r.releaseDate == f.releaseDate
    ensures offset >= |Matching(rows, f)| ==> QueryRows(rows, f, limit, offset) == []
  {
    var all := SortByDateDesc(Matching(rows, f));
    var page := QueryRows(rows, f, limit, offset);
    WindowShape(all, limit, offset);
    assert |all| == |Matching(rows, f)| by {
      assert |multiset(all)| == |multiset(Matching(rows, f))|;
    }
    forall r | r in page
      ensures r in rows && RowMatches(r, f)
    {
      var i :| 0 <= i < |page| && page[i] == r;
      assert r in all;
      assert r in multiset(Matching(rows, f));
    }
  }

  /**
   * The full ordered result is a permutation of the matching rows, so every
   * table row satisfying the filter appears in it, exactly as often as in the
   * table, and no other row does.
   */
  lemma QueryRowsComplete(rows: seq<Row>, f: SongFilter)
    ensures multiset(SortByDateDesc(Matching(rows, f))) == multiset(Matching(rows, f))
    ensures forall r :: r in SortByDateDesc(Matching(rows, f)) <==> r in rows && RowMatches(r, f)
    ensures forall r ::
      multiset(SortByDateDesc(Matching(rows, f)))[r] == (if RowMatches(r, f) then multiset(rows)[r] else 0)
  {
    var all := SortByDateDesc(Matching(rows, f));
    forall r
      ensures multiset(all)[r] == if RowMatches(r, f) then multiset(rows)[r] else 0
    {
      WhereCount(rows, (x: Row) => RowMatches(x, f), r);
    }
    forall r
      ensures r in all <==> r in rows && RowMatches(r, f)
    {
      assert r in all <==> r in multiset(all);
      assert r in Matching(rows, f) <==> r in multiset(Matching(rows, f));
    }
  }

  // ---------------------------------------------------------------------------
  // GetSongVerses: the verses column of one LIMIT/OFFSET page of the rows
  // whose title matches the caller's pattern

  function TitleMatching(rows: seq<Row>, pattern: string): seq<Row>
    requires ValidPattern(pattern)
  {
    Where(rows, (r: Row) => Ilike.Ilike(r.songTitle, pattern))
  }

  /** A decoded []string as the verses it contributes: a nil slice contributes none. */
  function Elements(v: Option<seq<string>>): seq<string>
  {
    match v
    case None => []
    case Some(vs) => vs
  }

  /** The verses one selected row contributes: none for SQL NULL, else its decoded array. */
  function RowVerses(r: Row): Result<seq<string>, JsonError>
  {
    match r.verses
    case None => Ok([])
    case Some(json) =>
      match Decode(json)
      case Err(e) => Err(e)
      case Ok(v) => Ok(Elements(v))
  }

  /** `acc` followed by the verses of a successful result; an error stays an error. */
  function AppendTo(acc: seq<string>, res: Result<seq<string>, JsonError>): Result<seq<string>, JsonError>
  {
    match res
    case Ok(rest) => Ok(acc + rest)
    case Err(e) => Err(e)
  }

  lemma AppendToAssociative(a: seq<string>, b: seq<string>, res: Result<seq<string>, JsonError>)
    ensures AppendTo(a, AppendTo(b, res)) == AppendTo(a + b, res)
  {
    if res.Ok? {
      assert a + (b + res.value) == (a + b) + res.value;
    }
  }

  /** The verses of the selected rows concatenated in row order; an error if any row fails to decode. */
  function CollectVerses(rows: seq<Row>): Result<seq<string>, JsonError>
  {
    if rows == [] then Ok([])
    else
      match RowVerses(rows[0])
      case Err(e) => Err(e)
      case Ok(here) => AppendTo(here, CollectVerses(rows[1..]))
  }

  /** Collecting from position `i` on takes row `i` first. */
  lemma CollectVersesFrom(rows: seq<Row>, i: nat)
    requires i < |rows|
    ensures CollectVerses(rows[i..]) ==
      match RowVerses(rows[i])
      case Err(e) => Err(e)
      case Ok(here) => AppendTo(here, CollectVerses(rows[i + 1..]))
  {
    assert rows[i..][1..] == rows[i + 1..];
  }

  /** One step of collecting: row `i` contributes `here`. */
  lemma CollectStep(rows: seq<Row>, i: nat, acc: seq<string>, here: seq<string>)
    requires i < |rows|
    requires RowVerses(rows[i]) == Ok(here)
    requires CollectVerses(rows) == AppendTo(acc, CollectVerses(rows[i..]))
    ensures CollectVerses(rows) == AppendTo(acc + here, CollectVerses(rows[i + 1..]))
  {
    CollectVersesFrom(rows, i);
    AppendToAssociative(acc, here, CollectVerses(rows[i + 1..]));
  }

  /** Collecting fails when row `i` does not decode. */
  lemma CollectStop(rows: seq<Row>, i: nat, acc: seq<string>)
    requires i < |rows|
    requires RowVerses(rows[i]).Err?
    requires CollectVerses(rows) == AppendTo(acc, CollectVerses(rows[i..]))
    ensures CollectVerses(rows).Err?
  {
    CollectVersesFrom(rows, i);
  }

  /** Collecting fails exactly when some selected row's stored value does not decode. */
  lemma {:induction false} CollectVersesFails(rows: seq<Row>)
    ensures CollectVerses(rows).Err? <==> exists i :: 0 <= i < |rows| && RowVerses(rows[i]).Err?
    decreases |rows|
  {
    if rows != [] {
      CollectVersesFails(rows[1..]);
      if exists i :: 0 <= i < |rows[1..]| && RowVerses(rows[1..][i]).Err? {
        var i :| 0 <= i < |rows[1..]| && RowVerses(rows[1..][i]).Err?;
        assert rows[1..][i] == rows[i + 1];
      }
      if exists i :: 0 <= i < |rows| && RowVerses(rows[i]).Err? {
        var i :| 0 <= i < |rows| && RowVerses(rows[i]).Err?;
        if i > 0 {
          assert rows[1..][i - 1] == rows[i];
        }
      }
    }
  }

  /**
   * LIMIT and OFFSET count rows, not verses: a page of one row yields all
   * the verses stored in that row, however many there are.
   */
  lemma OneRowPage(rows: seq<Row>, pattern: string, offset: nat)
    requires ValidPattern(pattern)
    requires offset < |TitleMatching(rows, pattern)|
    ensures CollectVerses(Window(TitleMatching(rows, pattern), 1, offset)) == RowVerses(TitleMatching(rows, pattern)[offset])
  {
    var page := Window(TitleMatching(rows, pattern), 1, offset);
    assert page == [TitleMatching(rows, pattern)[offset]];
    assert page[1..] == [];
    var here := RowVerses(page[0]);
    if here.Ok? {
      assert here.value + [] == here.value;
    }
  }

  /** An empty page yields no verses and no error. */
  lemma EmptyPageNoVerses(s: seq<Row>, offset: nat)
    ensures CollectVerses(Window(s, 0, offset)) == Ok([])
  {
  }

  /** The concatenation of the verse lists, nil lists contributing nothing. */
  function Concat(lists: seq<Option<seq<string>>>): seq<string>
  {
    if lists == [] then [] else Elements(lists[0]) + Concat(lists[1..])
  }

  /**
   * Rows whose verses column holds what AddSong wrote give back the lists
   * AddSong was given, concatenated in row order.
   */
  lemma {:induction false} CollectEncoded(rows: seq<Row>, lists: seq<Option<seq<string>>>)
    requires |rows| == |lists|
    requires forall i :: 0 <= i < |rows| ==> rows[i].verses == Some(Encode(lists[i]))
    ensures CollectVerses(rows) == Ok(Concat(lists))
    decreases |rows|
  {
    if rows != [] {
      DecodeEncode(lists[0]);
      CollectEncoded(rows[1..], lists[1..]);
    }
  }

  // ---------------------------------------------------------------------------
  // DeleteSong: removal of every row with exactly the given group and title

  predicate IsSong(r: Row, groupName: string, songTitle: string)
  {
    r.groupName == groupName && r.songTitle == songTitle
  }

  function WithoutSong(rows: seq<Row>, groupName: string, songTitle: string): seq<Row>
  {
    Where(rows, (r: Row) => !IsSong(r, groupName, songTitle))
  }

  /**
   * Deleting removes exactly the rows whose group and title equal the
   * arguments (case-sensitively), keeps every other row, changes nothing when
   * no row has that key, and a second delete removes nothing more.
   */
  lemma DeleteEffect(rows: seq<Row>, groupName: string, songTitle: string)
    ensures forall r :: r in WithoutSong(rows, groupName, songTitle) <==> r in rows && !IsSong(r, groupName, songTitle)
    ensures (forall r :: r in rows ==> !IsSong(r, groupName, songTitle)) ==> WithoutSong(rows, groupName, songTitle) == rows
    ensures WithoutSong(WithoutSong(rows, groupName, songTitle), groupName, songTitle) == WithoutSong(rows, groupName, songTitle)
  {
    var keep := (r: Row) => !IsSong(r, groupName, songTitle);
    if forall r :: r in rows ==> !IsSong(r, groupName, songTitle) {
      WhereAll(rows, keep);
    }
    WhereIdempotent(rows, keep);
  }

  /** No two rows share an id: the table's primary key. */
  predicate UniqueIds(rows: seq<Row>)
  {
    forall i, j :: 0 <= i < j < |rows| ==> rows[i].id != rows[j].id
  }

  /** Removing rows never makes two rows share an id. */
  lemma {:induction false} WhereKeepsUniqueIds(rows: seq<Row>, keep: Row -> bool)
    requires UniqueIds(rows)
    ensures UniqueIds(Where(rows, keep))
    decreases |rows|
  {
    if rows != [] {
      var tail := rows[1..];
      assert UniqueIds(tail) by {
        forall i, j | 0 <= i < j < |tail| ensures tail[i].id != tail[j].id {
          assert tail[i] == rows[i + 1] && tail[j] == rows[j + 1];
        }
      }
      WhereKeepsUniqueIds(tail, keep);
      var rest := Where(tail, keep);
      if keep(rows[0]) {
        var r := [rows[0]] + rest;
        forall i, j | 0 <= i < j < |r| ensures r[i].id != r[j].id {
          if i == 0 {
            assert r[j] in tail;
            var k :| 0 <= k < |tail| && tail[k] == r[j];
            assert rows[k + 1] == r[j];
          } else {
            assert r[i] == rest[i - 1] && r[j] == rest[j - 1];
          }
        }
      } else {
        assert Where(rows, keep) == rest;
      }
    }
  }

  // ---------------------------------------------------------------------------
  // UpdateSongText: the text column replaced in every row whose title
  // matches the caller's pattern

  /** Sets the text of every row whose title matches the pattern; nothing else changes. */
  function SetText(rows: seq<Row>, pattern: string, newText: string): (r: seq<Row>)
    requires ValidPattern(pattern)
    ensures |r| == |rows|
    ensures forall i :: 0 <= i < |rows| ==>
      && r[i].id == rows[i].id
      && r[i].groupName == rows[i].groupName
      && r[i].songTitle == rows[i].songTitle
      && r[i].releaseDate == rows[i].releaseDate
      && r[i].link == rows[i].link
      && r[i].verses == rows[i].verses
    ensures forall i :: 0 <= i < |rows| ==>
      r[i].text == if Ilike.Ilike(rows[i].songTitle, pattern) then newText else rows[i].text
  {
    seq(|rows|, i requires 0 <= i < |rows| =>
      if Ilike.Ilike(rows[i].songTitle, pattern) then rows[i].(text := newText) else rows[i])
  }

  /**
   * With a title free of wildcards the update is by title up to case: exactly
   * the rows whose title equals it ignoring case get the new text, and their
   * stored verses stay as they were.
   */
  lemma UpdatePlainTitle(rows: seq<Row>, title: string, newText: string, i: int)
    requires Plain(title) && 0 <= i < |rows|
    ensures ValidPattern(title)
    ensures SetText(rows, title, newText)[i].text == if FoldEq(rows[i].songTitle, title) then newText else rows[i].text
    ensures SetText(rows, title, newText)[i].verses == rows[i].verses
  {
    PlainPatternIsFoldedEquality(rows[i].songTitle, title);
  }
}
