/**
 * The numeric query parameters of GetSongsVerses: strconv.Atoi and the
 * defaults the handler falls back to.
 */
module QueryParams {
  import opened Wrappers

  const MIN_INT64 := -0x8000_0000_0000_0000
  const MAX_INT64 := 0x7FFF_FFFF_FFFF_FFFF

  /** The limit used when the parameter is missing, malformed or below 1. */
  const DEFAULT_LIMIT := 10
  /** The offset used when the parameter is missing, malformed or negative. */
  const DEFAULT_OFFSET := 0

  predicate AllDigits(s: string)
  {
    forall i :: 0 <= i < |s| ==> '0' <= s[i] <= '9'
  }

  /** The value of a string of decimal digits, most significant first. */
  function DigitsValue(s: string): nat
    requires AllDigits(s)
  {
    if s == [] then 0 else 10 * DigitsValue(s[..|s| - 1]) + (s[|s| - 1] as int - '0' as int)
  }

  /**
   * strconv.Atoi: an optional sign and at least one decimal digit, nothing
   * else, and a value that fits in 64 bits.
   */
  function Atoi(s: string): Option<int>
  {
    if s == [] then None
    else
      var digits := if s[0] == '-' || s[0] == '+' then s[1..] else s;
      if digits == [] || !AllDigits(digits) then None
      else
        var n: int := if s[0] == '-' then 0 - DigitsValue(digits) as int else DigitsValue(digits);
        if MIN_INT64 <= n <= MAX_INT64 then Some(n) else None
  }

  /** The decimal spelling of a natural number, without sign or leading zeros. */
  function Itoa(n: nat): string
  {
    if n < 10 then [('0' as int + n) as char] else Itoa(n / 10) + [('0' as int + n % 10) as char]
  }

  lemma {:induction false} ItoaDigits(n: nat)
    ensures Itoa(n) != [] && AllDigits(Itoa(n)) && DigitsValue(Itoa(n)) == n
    decreases n
  {
    if n >= 10 {
      ItoaDigits(n / 10);
      var s := Itoa(n);
      assert s[..|s| - 1] == Itoa(n / 10);
    }
  }

  /** Atoi reads back every non-negative 64-bit value from its decimal spelling. */
  lemma AtoiItoa(n: int)
    requires 0 <= n <= MAX_INT64
    ensures Atoi(Itoa(n)) == Some(n)
  {
    ItoaDigits(n);
  }

  /** Atoi reads back every negative 64-bit value written with a minus sign. */
  lemma AtoiNegative(n: int)
    requires MIN_INT64 <= n < 0
    ensures Atoi("-" + Itoa(-n)) == Some(n)
  {
    var s := "-" + Itoa(-n);
    ItoaDigits(-n);
    assert s[0] == '-' && s[1..] == Itoa(-n);
    assert 0 - DigitsValue(s[1..]) as int == n;
  }

  /** The limit of GetSongsVerses: the parameter when it is a number of at least 1, else 10. */
  function VersesLimit(param: string): (limit: int)
    ensures limit >= 1
    ensures Atoi(param).Some? && Atoi(param).value >= 1 ==> limit == Atoi(param).value
    ensures !(Atoi(param).Some? && Atoi(param).value >= 1) ==> limit == DEFAULT_LIMIT
  {
    match Atoi(param)
    case Some(n) => if n < 1 then DEFAULT_LIMIT else n
    case None => DEFAULT_LIMIT
  }

  /** The offset of GetSongsVerses: the parameter when it is a number of at least 0, else 0. */
  function VersesOffset(param: string): (offset: int)
    ensures offset >= 0
    ensures Atoi(param).Some? && Atoi(param).value >= 0 ==> offset == Atoi(param).value
    ensures !(Atoi(param).Some? && Atoi(param).value >= 0) ==> offset == DEFAULT_OFFSET
  {
    match Atoi(param)
    case Some(n) => if n < 0 then DEFAULT_OFFSET else n
    case None => DEFAULT_OFFSET
  }

  /** A limit written as a positive decimal number is used as given. */
  lemma VersesLimitOfNumber(n: int)
    requires 1 <= n <= MAX_INT64
    ensures VersesLimit(Itoa(n)) == n
  {
    AtoiItoa(n);
  }

  /** An offset written as a decimal number is used as given. */
  lemma VersesOffsetOfNumber(n: int)
    requires 0 <= n <= MAX_INT64
    ensures VersesOffset(Itoa(n)) == n
  {
    AtoiItoa(n);
  }

  /** Missing parameters give limit 10 and offset 0; a negative offset gives 0. */
  lemma VersesDefaults(n: int)
    requires MIN_INT64 <= n < 0
    ensures VersesLimit("") == DEFAULT_LIMIT && VersesOffset("") == DEFAULT_OFFSET
    ensures VersesLimit("-" + Itoa(-n)) == DEFAULT_LIMIT
    ensures VersesOffset("-" + Itoa(-n)) == DEFAULT_OFFSET
  {
    AtoiNegative(n);
  }
}
