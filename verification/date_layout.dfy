/**
 * time.Parse with the layout "2006-01-02", as the handlers use it for the
 * release_date query parameter: the full-date of section 5.6 of RFC 3339,
 * with the day range of section 5.7 (month length and Gregorian leap years).
 */
module DateLayout {
  import opened Wrappers
  import opened Models

  predicate IsDigit(c: char)
  {
    '0' <= c <= '9'
  }

  function DigitValue(c: char): int
    requires IsDigit(c)
  {
    c as int - '0' as int
  }

  function DigitChar(n: int): char
    requires 0 <= n < 10
  {
    ('0' as int + n) as char
  }

  predicate IsLeap(year: int)
  {
    year % 4 == 0 && (year % 100 != 0 || year % 400 == 0)
  }

  /** The number of days of a month in a year. */
  function DaysIn(month: int, year: int): int
    requires 1 <= month <= 12
  {
    if month == 2 then (if IsLeap(year) then 29 else 28)
    else if month == 4 || month == 6 || month == 9 || month == 11 then 30
    else 31
  }

  /** A date the layout can write: a four-digit year and a real calendar day. */
  predicate ValidDate(d: Date)
  {
    0 <= d.year <= 9999 && 1 <= d.month <= 12 && 1 <= d.day <= DaysIn(d.month, d.year)
  }

  /** The shape YYYY-MM-DD: ten characters, digits and two dashes. */
  predicate Shaped(s: string)
  {
    && |s| == 10
    && s[4] == '-' && s[7] == '-'
    && IsDigit(s[0]) && IsDigit(s[1]) && IsDigit(s[2]) && IsDigit(s[3])
    && IsDigit(s[5]) && IsDigit(s[6]) && IsDigit(s[8]) && IsDigit(s[9])
  }

  function TwoDigits(a: char, b: char): int
    requires IsDigit(a) && IsDigit(b)
  {
    10 * DigitValue(a) + DigitValue(b)
  }

  /**
   * Parses a date. The year is exactly four digits, month and day exactly two
   * each; the month must be 01..12 and the day must exist in that month of
   * that year; nothing may follow the day.
   */
  function ParseDate(s: string): (r: Option<Date>)
    ensures r.Some? ==> ValidDate(r.value)
  {
    if !Shaped(s) then None
    else
      var d := Date(100 * TwoDigits(s[0], s[1]) + TwoDigits(s[2], s[3]), TwoDigits(s[5], s[6]), TwoDigits(s[8], s[9]));
      if 1 <= d.month <= 12 && 1 <= d.day <= DaysIn(d.month, d.year) then Some(d) else None
  }

  /** A two-digit field, zero-padded. */
  function Pad2(n: int): string
    requires 0 <= n < 100
  {
    [DigitChar(n / 10), DigitChar(n % 10)]
  }

  /** Writes a date in the layout YYYY-MM-DD. */
  function FormatDate(d: Date): string
    requires ValidDate(d)
  {
    Pad2(d.year / 100) + Pad2(d.year % 100) + "-" + Pad2(d.month) + "-" + Pad2(d.day)
  }

  /** Every date the layout can write is parsed back to itself. */
  lemma ParseFormat(d: Date)
    requires ValidDate(d)
    ensures ParseDate(FormatDate(d)) == Some(d)
  {
    var s := FormatDate(d);
    assert s[0] == DigitChar(d.year / 100 / 10) && s[1] == DigitChar(d.year / 100 % 10);
    assert s[2] == DigitChar(d.year % 100 / 10) && s[3] == DigitChar(d.year % 100 % 10);
    assert s[5] == DigitChar(d.month / 10) && s[6] == DigitChar(d.month % 10);
    assert s[8] == DigitChar(d.day / 10) && s[9] == DigitChar(d.day % 10);
    assert Shaped(s);
  }

  /** A two-digit field is written back as its two digits. */
  lemma Pad2TwoDigits(a: char, b: char)
    requires IsDigit(a) && IsDigit(b)
    ensures 0 <= TwoDigits(a, b) < 100 && Pad2(TwoDigits(a, b)) == [a, b]
  {
    var n := TwoDigits(a, b);
    assert n / 10 == DigitValue(a) && n % 10 == DigitValue(b);
  }

  lemma CenturySplit(h: int, l: int)
    requires 0 <= h < 100 && 0 <= l < 100
    ensures (100 * h + l) / 100 == h && (100 * h + l) % 100 == l
  {
  }

  /**
   * Only the canonical spelling of a date is accepted: what ParseDate accepts
   * is exactly FormatDate of its result.
   */
  lemma ParseIsCanonical(s: string)
    requires ParseDate(s).Some?
    ensures FormatDate(ParseDate(s).value) == s
  {
    var d := ParseDate(s).value;
    Pad2TwoDigits(s[0], s[1]);
    Pad2TwoDigits(s[2], s[3]);
    Pad2TwoDigits(s[5], s[6]);
    Pad2TwoDigits(s[8], s[9]);
    CenturySplit(TwoDigits(s[0], s[1]), TwoDigits(s[2], s[3]));
    assert FormatDate(d) == [s[0], s[1]] + [s[2], s[3]] + "-" + [s[5], s[6]] + "-" + [s[8], s[9]];
    assert s == [s[0], s[1]] + [s[2], s[3]] + "-" + [s[5], s[6]] + "-" + [s[8], s[9]];
  }
}
