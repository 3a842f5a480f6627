/**
 * PostgreSQL's ILIKE operator (section 9.7.1 of the PostgreSQL manual), as the
 * songs queries use it: `_` matches one character, `%` any run of characters,
 * `\` makes the next pattern character literal, and the whole value must match.
 * Both sides are compared after case folding.
 */
module Ilike {
  import opened Wrappers

  /**
   * Case folding of one character: ASCII A-Z and the basic Cyrillic capitals
   * U+0400..U+042F map to their lower-case forms; every other character is
   * left as it is.
   */
  function Fold(c: char): char
  {
    if 'A' <= c <= 'Z' then (c as int + 32) as char
    else if 0x0410 <= c as int <= 0x042F then (c as int + 32) as char
    else if 0x0400 <= c as int <= 0x040F then (c as int + 80) as char
    else c
  }

  /** `a` and `b` are equal up to case. */
  predicate FoldEq(a: string, b: string)
  {
    |a| == |b| && forall i :: 0 <= i < |a| ==> Fold(a[i]) == Fold(b[i])
  }

  /** `v` occurs in `t` at position `k`, up to case. */
  predicate OccursAt(t: string, v: string, k: int)
  {
    0 <= k <= |t| - |v| && FoldEq(t[k..k + |v|], v)
  }

  /** `v` occurs in `t`, up to case. */
  predicate ContainsFolded(t: string, v: string)
  {
    exists k :: 0 <= k <= |t| - |v| && OccursAt(t, v, k)
  }

  /** One element of a compiled pattern. */
  datatype Token = Lit(c: char) | One | Any

  /** A character with a meaning of its own in a pattern. */
  predicate IsSpecial(c: char)
  {
    c == '%' || c == '_' || c == '\\'
  }

  /** A pattern with no special characters: it can only match literally. */
  predicate Plain(v: string)
  {
    forall i :: 0 <= i < |v| ==> !IsSpecial(v[i])
  }

  function Prepend(t: Token, r: Option<seq<Token>>): Option<seq<Token>>
  {
    match r
    case None => None
    case Some(ts) => Some([t] + ts)
  }

  /**
   * Compiles a pattern into tokens. A pattern that ends with an escape
   * character that escapes nothing is malformed (None): PostgreSQL answers it
   * with the error "LIKE pattern must not end with escape character".
   */
  function Tokenize(p: string): Option<seq<Token>>
    decreases |p|
  {
    if p == [] then Some([])
    else if p[0] == '\\' then
      if |p| == 1 then None else Prepend(Lit(p[1]), Tokenize(p[2..]))
    else if p[0] == '%' then Prepend(Any, Tokenize(p[1..]))
    else if p[0] == '_' then Prepend(One, Tokenize(p[1..]))
    else Prepend(Lit(p[0]), Tokenize(p[1..]))
  }

  predicate ValidPattern(p: string)
  {
    Tokenize(p).Some?
  }

  /** The tokens of a pattern made of literal characters only. */
  function Lits(v: string): seq<Token>
  {
    seq(|v|, i requires 0 <= i < |v| => Lit(v[i]))
  }

  /** The whole of `t` matches the token sequence `ts`, case-insensitively. */
  predicate Matches(t: string, ts: seq<Token>)
    decreases |ts|, |t|
  {
    if ts == [] then t == []
    else match ts[0]
      case Lit(c) => t != [] && Fold(t[0]) == Fold(c) && Matches(t[1..], ts[1..])
      case One => t != [] && Matches(t[1..], ts[1..])
      case Any => Matches(t, ts[1..]) || (t != [] && Matches(t[1..], ts))
  }

  /** `t ILIKE p` for a well-formed pattern `p`. */
  predicate Ilike(t: string, p: string)
    requires ValidPattern(p)
  {
    Matches(t, Tokenize(p).value)
  }

  /** Every pattern whose last character is not a backslash is well formed. */
  lemma {:induction false} EndsWithoutEscapeIsValid(p: string)
    requires p != [] && p[|p| - 1] != '\\'
    ensures ValidPattern(p)
    decreases |p|
  {
    if p[0] == '\\' {
      if |p| > 2 {
        EndsWithoutEscapeIsValid(p[2..]);
      }
    } else if |p| > 1 {
      EndsWithoutEscapeIsValid(p[1..]);
    }
  }

  /** The number of backslashes that end `p`. */
  function TrailingEscapes(p: string): (n: nat)
    ensures n <= |p|
    decreases |p|
  {
    if p != [] && p[|p| - 1] == '\\' then 1 + TrailingEscapes(p[..|p| - 1]) else 0
  }

  /** The backslashes ending `a + b`: those of `b`, and those of `a` too when `b` is all backslashes. */
  lemma {:induction false} TrailingEscapesAppend(a: string, b: string)
    ensures TrailingEscapes(a + b) ==
      (if TrailingEscapes(b) == |b| then TrailingEscapes(a) + |b| else TrailingEscapes(b))
    decreases |b|
  {
    var ab := a + b;
    if b == [] {
      assert ab == a;
    } else {
      assert ab[|ab| - 1] == b[|b| - 1];
      assert ab[..|ab| - 1] == a + b[..|b| - 1];
      if b[|b| - 1] == '\\' {
        TrailingEscapesAppend(a, b[..|b| - 1]);
      }
    }
  }

  /** An escape pair ends in two backslashes when it escapes a backslash, else in none. */
  lemma EscapePairEscapes(p: string)
    requires |p| == 2 && p[0] == '\\'
    ensures TrailingEscapes(p) == (if p[1] == '\\' then 2 else 0)
  {
    assert p[..1] == ['\\'];
    assert p[..1][..0] == [];
  }

  /**
   * A pattern is malformed exactly when it ends in a lone escape character:
   * the backslashes that end it are odd in number.
   */
  lemma {:induction false} ValidIffEvenEscapes(p: string)
    ensures ValidPattern(p) <==> TrailingEscapes(p) % 2 == 0
    decreases |p|
  {
    if p == [] {
    } else if p[0] == '\\' {
      if |p| == 1 {
        assert p[..0] == [];
      } else {
        ValidIffEvenEscapes(p[2..]);
        assert p == p[..2] + p[2..];
        TrailingEscapesAppend(p[..2], p[2..]);
        EscapePairEscapes(p[..2]);
      }
    } else {
      ValidIffEvenEscapes(p[1..]);
      assert p == p[..1] + p[1..];
      TrailingEscapesAppend(p[..1], p[1..]);
    }
  }

  /**
   * The pattern `'%' || v || '%'` that GetSong builds is well formed for every
   * `v`, so a search filter never makes the query fail.
   */
  lemma WrappedPatternIsValid(v: string)
    ensures ValidPattern("%" + v + "%")
  {
    EndsWithoutEscapeIsValid("%" + v + "%");
  }

  /** A plain prefix compiles to literal tokens. */
  lemma {:induction false} TokenizePlain(v: string, rest: string)
    requires Plain(v)
    ensures Tokenize(rest).None? ==> Tokenize(v + rest).None?
    ensures Tokenize(rest).Some? ==> Tokenize(v + rest) == Some(Lits(v) + Tokenize(rest).value)
    decreases |v|
  {
    if v == [] {
      assert v + rest == rest;
      assert Lits(v) == [];
      if Tokenize(rest).Some? {
        assert Lits(v) + Tokenize(rest).value == Tokenize(rest).value;
      }
    } else {
      assert (v + rest)[0] == v[0];
      assert (v + rest)[1..] == v[1..] + rest;
      assert Lits(v) == [Lit(v[0])] + Lits(v[1..]);
      TokenizePlain(v[1..], rest);
      if Tokenize(rest).Some? {
        var ts := Tokenize(rest).value;
        assert Lits(v) + ts == [Lit(v[0])] + (Lits(v[1..]) + ts);
      }
    }
  }

  lemma FoldEqStep(a: string, b: string)
    requires a != [] && b != []
    ensures FoldEq(a, b) <==> Fold(a[0]) == Fold(b[0]) && FoldEq(a[1..], b[1..])
  {
    if Fold(a[0]) == Fold(b[0]) && FoldEq(a[1..], b[1..]) {
      forall i | 0 <= i < |a|
        ensures Fold(a[i]) == Fold(b[i])
      {
        if i > 0 {
          assert a[1..][i - 1] == a[i] && b[1..][i - 1] == b[i];
        }
      }
    }
  }

  /** Literal tokens consume exactly their own length, up to case. */
  lemma {:induction false} MatchLits(t: string, v: string, rest: seq<Token>)
    ensures Matches(t, Lits(v) + rest)
        <==> |v| <= |t| && FoldEq(t[..|v|], v) && Matches(t[|v|..], rest)
    decreases |v|
  {
    if v == [] {
      assert Lits(v) + rest == rest;
      assert t[0..] == t;
    } else {
      var ts := Lits(v) + rest;
      assert ts[0] == Lit(v[0]);
      assert ts[1..] == Lits(v[1..]) + rest;
      if t != [] {
        MatchLits(t[1..], v[1..], rest);
        if |v| <= |t| {
          FoldEqStep(t[..|v|], v);
          assert t[..|v|][1..] == t[1..][..|v| - 1];
          assert t[1..][|v| - 1..] == t[|v|..];
        }
      }
    }
  }

  /** A lone `%` matches every value. */
  lemma {:induction false} MatchAnyAll(t: string)
    ensures Matches(t, [Any])
    decreases |t|
  {
    var ts: seq<Token> := [Any];
    assert ts[1..] == [];
    if t != [] {
      MatchAnyAll(t[1..]);
    }
  }

  /** A leading `%` lets the rest of the pattern match any suffix. */
  lemma {:induction false} MatchAnyPrefix(t: string, rest: seq<Token>)
    ensures Matches(t, [Any] + rest) <==> exists k :: 0 <= k <= |t| && Matches(t[k..], rest)
    decreases |t|
  {
    var ts := [Any] + rest;
    assert ts[0] == Any && ts[1..] == rest;
    assert t[0..] == t;
    if t != [] {
      MatchAnyPrefix(t[1..], rest);
      if k :| 0 <= k <= |t| && Matches(t[k..], rest) {
        if k > 0 {
          assert t[1..][k - 1..] == t[k..];
        }
      }
      if k :| 0 <= k <= |t[1..]| && Matches(t[1..][k..], rest) {
        assert t[1..][k..] == t[k + 1..];
      }
    }
  }

  /**
   * A pattern without wildcards or escapes matches exactly the values equal to
   * it up to case: this is how UpdateSongText and GetSongVerses treat a plain
   * title.
   */
  lemma PlainPatternIsFoldedEquality(t: string, p: string)
    requires Plain(p)
    ensures ValidPattern(p)
    ensures Ilike(t, p) <==> FoldEq(t, p)
  {
    TokenizePlain(p, []);
    assert p + [] == p;
    assert Lits(p) + [] == Lits(p);
    MatchLits(t, p, []);
    if |p| <= |t| {
      assert t[..|p|] == t <==> |t| == |p|;
    }
  }

  /**
   * `t ILIKE '%' || v || '%'` with a plain `v` holds exactly when `v` occurs
   * in `t` up to case: the search filters of GetSong are substring tests.
   */
  lemma WrappedPlainIsSubstring(t: string, v: string)
    requires Plain(v)
    ensures ValidPattern("%" + v + "%")
    ensures Ilike(t, "%" + v + "%") <==> ContainsFolded(t, v)
  {
    var p := "%" + v + "%";
    var tail: seq<Token> := [Any];
    TokenizePlain(v, "%");
    assert "%"[0] == '%' && "%"[1..] == [];
    assert Tokenize("%"[1..]) == Some([]);
    assert tail == [Any] + [];
    assert Tokenize("%") == Some(tail);
    assert p[0] == '%' && p[1..] == v + "%";
    assert Tokenize(p) == Some([Any] + (Lits(v) + tail));
    MatchAnyPrefix(t, Lits(v) + tail);
    forall k | 0 <= k <= |t|
      ensures Matches(t[k..], Lits(v) + tail) <==> OccursAt(t, v, k)
    {
      MatchLits(t[k..], v, tail);
      if k <= |t| - |v| {
        MatchAnyAll(t[k..][|v|..]);
        assert t[k..][..|v|] == t[k..k + |v|];
      }
    }
  }
}
