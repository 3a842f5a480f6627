/**
 * The verse split of AddSongs: the song text cut at every occurrence of the
 * delimiter "\n\n" (Go's strings.Split), scanning left to right.
 */
module VerseSplit {

  /** A delimiter "\n\n" starts at index `k` of `s`. */
  predicate BreakAt(s: string, k: int)
  {
    0 <= k && k + 1 < |s| && s[k] == '\n' && s[k + 1] == '\n'
  }

  predicate HasBreak(s: string)
  {
    exists k :: 0 <= k < |s| && BreakAt(s, k)
  }

  /** The index of the first delimiter in `s`, or -1 when there is none. */
  function FirstBreak(s: string): (i: int)
    ensures -1 <= i
    ensures i >= 0 ==> BreakAt(s, i)
    ensures i == -1 ==> !HasBreak(s)
    ensures forall k :: 0 <= k < i ==> !BreakAt(s, k)
    decreases |s|
  {
    if |s| < 2 then -1
    else if s[0] == '\n' && s[1] == '\n' then 0
    else
      var j := FirstBreak(s[1..]);
      assert forall k :: 1 <= k < |s| ==> (BreakAt(s, k) <==> BreakAt(s[1..], k - 1));
      if j == -1 then -1 else j + 1
  }

  /** strings.Split(s, "\n\n"). */
  function Split(s: string): (vs: seq<string>)
    ensures |vs| >= 1
    decreases |s|
  {
    var i := FirstBreak(s);
    if i == -1 then [s] else [s[..i]] + Split(s[i + 2..])
  }

  /** strings.Join(vs, "\n\n"). */
  function Join(vs: seq<string>): string
  {
    if vs == [] then ""
    else if |vs| == 1 then vs[0]
    else vs[0] + "\n\n" + Join(vs[1..])
  }

  /** The number of delimiters met scanning left to right, never overlapping. */
  function CountBreaks(s: string): nat
    decreases |s|
  {
    if |s| < 2 then 0
    else if s[0] == '\n' && s[1] == '\n' then 1 + CountBreaks(s[2..])
    else CountBreaks(s[1..])
  }

  /** Around a delimiter the text is what precedes it, the delimiter and what follows. */
  lemma CutAtBreak(s: string, i: int)
    requires BreakAt(s, i)
    ensures s == s[..i] + "\n\n" + s[i + 2..]
  {
    assert s[i..i + 2] == "\n\n";
    assert s == s[..i] + s[i..i + 2] + s[i + 2..];
  }

  /** At the first delimiter the text is the first verse, the delimiter and the rest. */
  lemma SplitAtFirstBreak(s: string)
    requires FirstBreak(s) != -1
    ensures var i := FirstBreak(s);
      && s == s[..i] + "\n\n" + s[i + 2..]
      && Split(s) == [s[..i]] + Split(s[i + 2..])
  {
    CutAtBreak(s, FirstBreak(s));
  }

  lemma JoinCons(v: string, vs: seq<string>)
    requires vs != []
    ensures Join([v] + vs) == v + "\n\n" + Join(vs)
  {
    assert ([v] + vs)[1..] == vs;
  }

  /** Joining the verses with the delimiter gives back the text exactly. */
  lemma {:induction false} JoinSplit(s: string)
    ensures Join(Split(s)) == s
    decreases |s|
  {
    if FirstBreak(s) != -1 {
      var i := FirstBreak(s);
      var rest := s[i + 2..];
      SplitAtFirstBreak(s);
      JoinSplit(rest);
      JoinCons(s[..i], Split(rest));
    }
  }

  /** No verse contains the delimiter. */
  lemma {:induction false} SplitPiecesHaveNoBreak(s: string)
    ensures forall j :: 0 <= j < |Split(s)| ==> !HasBreak(Split(s)[j])
    decreases |s|
  {
    var i := FirstBreak(s);
    if i != -1 {
      var rest := s[i + 2..];
      SplitPiecesHaveNoBreak(rest);
      var piece := s[..i];
      forall k | 0 <= k < |piece|
        ensures !BreakAt(piece, k)
      {
        assert !BreakAt(s, k);
        if k + 1 < |piece| {
          assert piece[k] == s[k] && piece[k + 1] == s[k + 1];
        }
      }
    }
  }

  /** Skipping a prefix without delimiters does not change the count. */
  lemma {:induction false} CountBreaksSkip(s: string, i: nat)
    requires i <= |s|
    requires forall k :: 0 <= k < i ==> !BreakAt(s, k)
    ensures CountBreaks(s) == CountBreaks(s[i..])
    decreases i
  {
    if i > 0 {
      assert !BreakAt(s, 0);
      forall k | 0 <= k < i - 1
        ensures !BreakAt(s[1..], k)
      {
        assert !BreakAt(s, k + 1);
      }
      CountBreaksSkip(s[1..], i - 1);
      assert s[1..][i - 1..] == s[i..];
    }
  }

  /** The text splits into one more verse than it has delimiters. */
  lemma {:induction false} SplitCount(s: string)
    ensures |Split(s)| == CountBreaks(s) + 1
    decreases |s|
  {
    var i := FirstBreak(s);
    if i == -1 {
      CountBreaksSkip(s, |s|);
    } else {
      CountBreaksSkip(s, i);
      SplitCount(s[i + 2..]);
      assert s[i..][2..] == s[i + 2..];
    }
  }

  /** The first delimiter is the one at `i` when none starts before it. */
  lemma FirstBreakIs(s: string, i: int)
    requires BreakAt(s, i)
    requires forall k :: 0 <= k < i ==> !BreakAt(s, k)
    ensures FirstBreak(s) == i
  {
  }

  /**
   * Joining a verse free of delimiters, and not ending in a line break, to
   * more text puts the first delimiter right after the verse.
   */
  lemma JoinedVerseBreak(p: string, rest: string)
    requires !HasBreak(p)
    requires p == [] || p[|p| - 1] != '\n'
    ensures var s := p + "\n\n" + rest;
      && FirstBreak(s) == |p|
      && s[..|p|] == p
      && s[|p| + 2..] == rest
  {
    var s := p + "\n\n" + rest;
    assert BreakAt(s, |p|);
    forall k | 0 <= k < |p|
      ensures !BreakAt(s, k)
    {
      if k < |p| - 1 {
        assert !BreakAt(p, k);
        assert s[k] == p[k] && s[k + 1] == p[k + 1];
      } else {
        assert s[k] == p[k];
      }
    }
    FirstBreakIs(s, |p|);
    assert s[..|p|] == p;
    assert s[|p| + 2..] == rest;
  }

  /**
   * Verses without delimiters, none but the last ending in a line break, are
   * recovered by splitting their join.
   */
  lemma {:induction false} SplitJoin(vs: seq<string>)
    requires vs != []
    requires forall j :: 0 <= j < |vs| ==> !HasBreak(vs[j])
    requires forall j :: 0 <= j < |vs| - 1 ==> vs[j] == [] || vs[j][|vs[j]| - 1] != '\n'
    ensures Split(Join(vs)) == vs
    decreases |vs|
  {
    if |vs| == 1 {
      assert FirstBreak(vs[0]) == -1;
    } else {
      var tail := vs[1..];
      assert forall j :: 0 <= j < |tail| ==> tail[j] == vs[j + 1];
      SplitJoin(tail);
      JoinCons(vs[0], tail);
      assert [vs[0]] + tail == vs;
      JoinedVerseBreak(vs[0], Join(tail));
    }
  }
}
