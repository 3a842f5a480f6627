/**
 * The storage form of a song's verses: a JSON array of strings (sections 5 and
 * 7 of RFC 8259), as Go's encoding/json writes it for a []string in AddSong and
 * reads it back into a []string in GetSongVerses.
 */
module JsonVerses {
  import opened Wrappers

  /** Any input that json.Unmarshal rejects for a []string destination. */
  datatype JsonError = Invalid

  /** The lower-case hexadecimal digit for 0 <= n < 16. */
  function HexDigit(n: int): char
    requires 0 <= n < 16
  {
    if n < 10 then ('0' as int + n) as char else ('a' as int + n - 10) as char
  }

  /**
   * How encoding/json writes one character inside a string literal: quote and
   * backslash are escaped, the five short control escapes are used, other
   * control characters and the HTML-sensitive <, > and & become \u00XX, and
   * U+2028 and U+2029 become the escapes u2028 and u2029 after a backslash.
   * Everything else is written as is.
   */
  function EscapeChar(c: char): string
  {
    if c == '"' then ['\\', '"']
    else if c == '\\' then ['\\', '\\']
    else if c == '\n' then ['\\', 'n']
    else if c == '\r' then ['\\', 'r']
    else if c == '\t' then ['\\', 't']
    else if c as int == 0x08 then ['\\', 'b']
    else if c as int == 0x0C then ['\\', 'f']
    else if c as int < 0x20 || c == '<' || c == '>' || c == '&' then
      ['\\', 'u', '0', '0', HexDigit(c as int / 16), HexDigit(c as int % 16)]
    else if c as int == 0x2028 then ['\\', 'u', '2', '0', '2', '8']
    else if c as int == 0x2029 then ['\\', 'u', '2', '0', '2', '9']
    else [c]
  }

  /** The escaped body of a string literal. */
  function EncodeChars(s: string): string
  {
    if s == [] then [] else EscapeChar(s[0]) + EncodeChars(s[1..])
  }

  function Quote(s: string): string
  {
    "\"" + EncodeChars(s) + "\""
  }

  /** Comma-separated string literals, without spaces. */
  function EncodeItems(vs: seq<string>): string
    requires vs != []
  {
    if |vs| == 1 then Quote(vs[0]) else Quote(vs[0]) + "," + EncodeItems(vs[1..])
  }

  /** json.Marshal of a []string: `null` for a nil slice, an array otherwise. */
  function Encode(v: Option<seq<string>>): string
  {
    match v
    case None => "null"
    case Some(vs) => if vs == [] then "[]" else "[" + EncodeItems(vs) + "]"
  }

  predicate IsSpace(c: char)
  {
    c == ' ' || c == '\t' || c == '\n' || c == '\r'
  }

  /** Drops leading JSON white space; the result is a suffix of `s`. */
  function SkipSpace(s: string): (r: string)
    ensures |r| <= |s| && r == s[|s| - |r|..]
  {
    if s != [] && IsSpace(s[0]) then SkipSpace(s[1..]) else s
  }

  /** The value of a hexadecimal digit, or -1. */
  function HexValue(c: char): int
  {
    if '0' <= c <= '9' then c as int - '0' as int
    else if 'a' <= c <= 'f' then c as int - 'a' as int + 10
    else if 'A' <= c <= 'F' then c as int - 'A' as int + 10
    else -1
  }

  predicate IsHex(c: char)
  {
    HexValue(c) >= 0
  }

  /** `s` starts with an escape \uXXXX. */
  predicate IsUEscape(s: string)
  {
    |s| >= 6 && s[0] == '\\' && s[1] == 'u' && IsHex(s[2]) && IsHex(s[3]) && IsHex(s[4]) && IsHex(s[5])
  }

  /** The UTF-16 code unit written by the \uXXXX escape at the front of `s`. */
  function CodeUnit(s: string): (u: int)
    requires IsUEscape(s)
    ensures 0 <= u < 0x10000
  {
    HexValue(s[2]) * 4096 + HexValue(s[3]) * 256 + HexValue(s[4]) * 16 + HexValue(s[5])
  }

  function Cons(c: char, r: Result<(string, string), JsonError>): Result<(string, string), JsonError>
  {
    match r
    case Err(e) => Err(e)
    case Ok((t, rest)) => Ok(([c] + t, rest))
  }

  /**
   * Reads the body of a string literal, after its opening quote: the decoded
   * characters and what follows the closing quote. A surrogate pair written as
   * two escapes becomes one character; a lone surrogate becomes U+FFFD.
   */
  function StringBody(s: string): (r: Result<(string, string), JsonError>)
    ensures r.Ok? ==> |r.value.1| < |s|
    decreases |s|
  {
    if s == [] then Err(Invalid)
    else if s[0] == '"' then Ok(([], s[1..]))
    else if s[0] == '\\' then
      if |s| < 2 then Err(Invalid)
      else if s[1] == '"' || s[1] == '\\' || s[1] == '/' then Cons(s[1], StringBody(s[2..]))
      else if s[1] == 'b' then Cons(0x08 as char, StringBody(s[2..]))
      else if s[1] == 'f' then Cons(0x0C as char, StringBody(s[2..]))
      else if s[1] == 'n' then Cons('\n', StringBody(s[2..]))
      else if s[1] == 'r' then Cons('\r', StringBody(s[2..]))
      else if s[1] == 't' then Cons('\t', StringBody(s[2..]))
      else if s[1] == 'u' && IsUEscape(s) then
        var u := CodeUnit(s);
        if u < 0xD800 || 0xE000 <= u then Cons(u as char, StringBody(s[6..]))
        else if u < 0xDC00 && IsUEscape(s[6..]) && 0xDC00 <= CodeUnit(s[6..]) < 0xE000 then
          var pair := 0x10000 + (u - 0xD800) * 0x400 + (CodeUnit(s[6..]) - 0xDC00);
          Cons(pair as char, StringBody(s[12..]))
        else Cons(0xFFFD as char, StringBody(s[6..]))
      else Err(Invalid)
    else if s[0] as int < 0x20 then Err(Invalid)
    else Cons(s[0], StringBody(s[1..]))
  }

  /**
   * One array element for a string destination: a string literal, or `null`,
   * which leaves the new element as the empty string. Any other value is an
   * error.
   */
  function Item(s: string): (r: Result<(string, string), JsonError>)
    ensures r.Ok? ==> |r.value.1| < |s|
  {
    if s != [] && s[0] == '"' then StringBody(s[1..])
    else if |s| >= 4 && s[..4] == "null" then Ok(([], s[4..]))
    else Err(Invalid)
  }

  /** The elements of a non-empty array and what follows its closing bracket. */
  function Items(s: string): (r: Result<(seq<string>, string), JsonError>)
    ensures r.Ok? ==> |r.value.1| < |s|
    decreases |s|
  {
    match Item(s)
    case Err(e) => Err(e)
    case Ok((v, rest)) =>
      var after := SkipSpace(rest);
      if after != [] && after[0] == ']' then Ok(([v], after[1..]))
      else if after != [] && after[0] == ',' then
        match Items(SkipSpace(after[1..]))
        case Err(e) => Err(e)
        case Ok((vs, tail)) => Ok(([v] + vs, tail))
      else Err(Invalid)
  }

  /**
   * json.Unmarshal into a []string: `null` leaves the slice nil (None), an
   * array of strings gives the list, anything else is an error.
   */
  function Decode(s: string): Result<Option<seq<string>>, JsonError>
  {
    var t := SkipSpace(s);
    if |t| >= 4 && t[..4] == "null" then
      if SkipSpace(t[4..]) == [] then Ok(None) else Err(Invalid)
    else if t != [] && t[0] == '[' then
      var u := SkipSpace(t[1..]);
      var items: Result<(seq<string>, string), JsonError> :=
        if u != [] && u[0] == ']' then Ok(([], u[1..])) else Items(u);
      match items
      case Err(e) => Err(e)
      case Ok((vs, rest)) => if SkipSpace(rest) == [] then Ok(Some(vs)) else Err(Invalid)
    else Err(Invalid)
  }

  /** A two-character escape reads back as its character. */
  lemma ShortEscapeRoundTrip(c: char, rest: string)
    requires |EscapeChar(c)| == 2
    ensures StringBody(EscapeChar(c) + rest) == Cons(c, StringBody(rest))
  {
    var s := EscapeChar(c) + rest;
    assert s[0] == '\\' && s[2..] == rest;
    if c == '"' || c == '\\' {
      assert s[1] == c;
    } else if c == '\n' {
      assert s[1] == 'n';
    } else if c == '\r' {
      assert s[1] == 'r';
    } else if c == '\t' {
      assert s[1] == 't';
    } else if c as int == 0x08 {
      assert s[1] == 'b';
    } else {
      assert s[1] == 'f';
    }
  }

  /** A \uXXXX escape reads back as its character. */
  lemma UnicodeEscapeRoundTrip(c: char, rest: string)
    requires |EscapeChar(c)| == 6
    ensures StringBody(EscapeChar(c) + rest) == Cons(c, StringBody(rest))
  {
    var e := EscapeChar(c);
    var s := e + rest;
    assert s[..6] == e && s[6..] == rest;
    assert IsUEscape(s);
    assert CodeUnit(s) == c as int;
  }

  /** A character written as is reads back as itself. */
  lemma PlainCharRoundTrip(c: char, rest: string)
    requires |EscapeChar(c)| == 1
    ensures StringBody(EscapeChar(c) + rest) == Cons(c, StringBody(rest))
  {
    var s := EscapeChar(c) + rest;
    assert s[0] == c && s[1..] == rest;
  }

  /** Reading back one escaped character gives the character. */
  lemma EscapeCharRoundTrip(c: char, rest: string)
    ensures StringBody(EscapeChar(c) + rest) == Cons(c, StringBody(rest))
  {
    var n := |EscapeChar(c)|;
    if n == 2 {
      ShortEscapeRoundTrip(c, rest);
    } else if n == 6 {
      UnicodeEscapeRoundTrip(c, rest);
    } else {
      PlainCharRoundTrip(c, rest);
    }
  }

  /** Reading back an escaped body and its closing quote gives the string. */
  lemma {:induction false} EncodeCharsRoundTrip(s: string, rest: string)
    ensures StringBody(EncodeChars(s) + "\"" + rest) == Ok((s, rest))
    decreases |s|
  {
    if s == [] {
      assert EncodeChars(s) + "\"" + rest == "\"" + rest;
      assert ("\"" + rest)[1..] == rest;
    } else {
      var tail := EncodeChars(s[1..]) + "\"" + rest;
      assert EncodeChars(s) + "\"" + rest == EscapeChar(s[0]) + tail;
      EscapeCharRoundTrip(s[0], tail);
      EncodeCharsRoundTrip(s[1..], rest);
      assert [s[0]] + s[1..] == s;
    }
  }

  lemma SkipSpaceStops(s: string)
    requires s != [] && !IsSpace(s[0])
    ensures SkipSpace(s) == s
  {
  }

  /** A string literal at the front of an array element reads back as its string. */
  lemma ItemRoundTrip(v: string, after: string)
    ensures Item(Quote(v) + after) == Ok((v, after))
  {
    var s := Quote(v) + after;
    assert s[0] == '"';
    assert s[1..] == EncodeChars(v) + "\"" + after;
    EncodeCharsRoundTrip(v, after);
  }

  /** An element that reads back as `v`, then the closing bracket. */
  lemma ItemsClose(s: string, v: string, rest: string)
    requires Item(s) == Ok((v, "]" + rest))
    ensures Items(s) == Ok(([v], rest))
  {
    var after := "]" + rest;
    SkipSpaceStops(after);
    assert after[1..] == rest;
  }

  /** An element that reads back as `v`, then a comma and further elements that read back. */
  lemma ItemsComma(s: string, v: string, next: string, vs: seq<string>, tail: string)
    requires Item(s) == Ok((v, "," + next))
    requires next != [] && next[0] == '"'
    requires Items(next) == Ok((vs, tail))
    ensures Items(s) == Ok(([v] + vs, tail))
  {
    var after := "," + next;
    SkipSpaceStops(after);
    assert after[1..] == next;
    SkipSpaceStops(next);
    assert SkipSpace(after[1..]) == next;
    assert after[0] == ',';
  }

  /** A string literal, a separator and more text: the literal reads back as its string. */
  lemma ItemBeforeSeparator(e: string, v: string, sep: string, more: string)
    requires e == Quote(v) + sep + more
    ensures Item(e) == Ok((v, sep + more))
  {
    assert e == Quote(v) + (sep + more);
    ItemRoundTrip(v, sep + more);
  }

  /** The last element of an array, followed by the closing bracket. */
  lemma ItemsLast(e: string, v: string, rest: string)
    requires e == Quote(v) + "]" + rest
    ensures Items(e) == Ok(([v], rest))
  {
    ItemBeforeSeparator(e, v, "]", rest);
    ItemsClose(e, v, rest);
  }

  /** An element of an array followed by a comma and further elements. */
  lemma ItemsNext(e: string, v: string, next: string, vs: seq<string>, tail: string)
    requires e == Quote(v) + "," + next
    requires next != [] && next[0] == '"'
    requires Items(next) == Ok((vs, tail))
    ensures Items(e) == Ok(([v] + vs, tail))
  {
    ItemBeforeSeparator(e, v, ",", next);
    ItemsComma(e, v, next, vs, tail);
  }

  /** Encoded elements always start with a string literal's opening quote. */
  lemma EncodeItemsHead(vs: seq<string>)
    requires vs != []
    ensures EncodeItems(vs) != [] && EncodeItems(vs)[0] == '"'
  {
    assert Quote(vs[0])[0] == '"';
  }

  lemma AppendAfterComma(a: string, b: string, rest: string)
    ensures a + "," + b + "]" + rest == a + "," + (b + "]" + rest)
  {
  }

  /** Encoded elements of a longer list: the first string, a comma and the others. */
  lemma EncodeItemsCons(vs: seq<string>, rest: string)
    requires |vs| > 1
    ensures EncodeItems(vs) + "]" + rest == Quote(vs[0]) + "," + (EncodeItems(vs[1..]) + "]" + rest)
    ensures (EncodeItems(vs[1..]) + "]" + rest)[0] == '"'
  {
    EncodeItemsHead(vs[1..]);
    AppendAfterComma(Quote(vs[0]), EncodeItems(vs[1..]), rest);
  }

  /** Reading back the encoded elements and the closing bracket gives the list. */
  lemma {:induction false} EncodeItemsRoundTrip(vs: seq<string>, rest: string)
    requires vs != []
    ensures Items(EncodeItems(vs) + "]" + rest) == Ok((vs, rest))
    decreases |vs|
  {
    if |vs| == 1 {
      assert EncodeItems(vs) == Quote(vs[0]);
      ItemsLast(EncodeItems(vs) + "]" + rest, vs[0], rest);
      assert [vs[0]] == vs;
    } else {
      var next := EncodeItems(vs[1..]) + "]" + rest;
      EncodeItemsRoundTrip(vs[1..], rest);
      EncodeItemsCons(vs, rest);
      ItemsNext(EncodeItems(vs) + "]" + rest, vs[0], next, vs[1..], rest);
      assert [vs[0]] + vs[1..] == vs;
    }
  }

  /** An opening bracket followed by elements that read back to the end is that array. */
  lemma DecodeOfItems(s: string, vs: seq<string>)
    requires s != [] && s[0] == '['
    requires |s| > 1 && s[1] == '"'
    requires Items(s[1..]) == Ok((vs, []))
    ensures Decode(s) == Ok(Some(vs))
  {
    SkipSpaceStops(s);
    SkipSpaceStops(s[1..]);
    assert !(|s| >= 4 && s[..4] == "null") by {
      if |s| >= 4 { assert s[..4][0] == '['; }
    }
  }

  /** An array literal reads back as the elements it lists. */
  lemma DecodeArray(s: string, vs: seq<string>)
    requires s != [] && s[0] == '['
    requires vs == [] ==> s == "[]"
    requires vs != [] ==> s == "[" + EncodeItems(vs) + "]"
    ensures Decode(s) == Ok(Some(vs))
  {
    if vs == [] {
      SkipSpaceStops(s);
      assert |s| == 2;
      var u := s[1..];
      assert u == "]";
      SkipSpaceStops(u);
      assert u[1..] == [];
    } else {
      assert s[1..] == EncodeItems(vs) + "]" + [];
      EncodeItemsHead(vs);
      EncodeItemsRoundTrip(vs, []);
      DecodeOfItems(s, vs);
    }
  }

  /**
   * Decoding what AddSong stored gives back exactly the list it was given,
   * including the difference between a nil list (`null`) and an empty one.
   */
  lemma DecodeEncode(v: Option<seq<string>>)
    ensures Decode(Encode(v)) == Ok(v)
  {
    var s := Encode(v);
    match v
    case None =>
      SkipSpaceStops(s);
      assert s[..4] == "null" && s[4..] == [];
    case Some(vs) =>
      DecodeArray(s, vs);
  }
}
