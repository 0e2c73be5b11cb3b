/**
 * Calendar dates as chrono's `NaiveDate` holds them (proleptic Gregorian), with the strict
 * `%Y-%m-%d` text form of ISO 8601 that `NaiveDate::to_string` writes for years 0 to 9999.
 */
module Dates {
  import opened Wrappers
  import opened Text

  datatype Date = Date(year: int, month: int, day: int)

  predicate IsLeapYear(y: int) { y % 4 == 0 && (y % 100 != 0 || y % 400 == 0) }

  function DaysInMonth(y: int, m: int): (n: int)
    requires 1 <= m <= 12
    ensures 28 <= n <= 31
  {
    if m == 2 then (if IsLeapYear(y) then 29 else 28)
    else if m == 4 || m == 6 || m == 9 || m == 11 then 30
    else 31
  }

  /** A day that exists on the calendar. */
  predicate IsValid(d: Date) { 1 <= d.month <= 12 && 1 <= d.day <= DaysInMonth(d.year, d.month) }

  /** Chronological order (what SQL's `<=` on a `date` column compares). */
  predicate Le(a: Date, b: Date) {
    a.year < b.year || (a.year == b.year && (a.month < b.month || (a.month == b.month && a.day <= b.day)))
  }

  /** 1900-01-01, the earliest admissible date of birth. */
  const Earliest: Date := Date(1900, 1, 1)

  /** Ten characters: four digits, '-', two digits, '-', two digits. */
  predicate HasDateShape(s: string) {
    |s| == 10 && s[4] == '-' && s[7] == '-' &&
    forall k :: 0 <= k < 10 && k != 4 && k != 7 ==> IsDigit(s[k])
  }

  function DigitValue(c: char): (n: int)
    requires IsDigit(c)
    ensures 0 <= n < 10
  {
    c as int - 48
  }

  function DigitChar(n: int): (c: char)
    requires 0 <= n < 10
    ensures IsDigit(c) && DigitValue(c) == n
  {
    (48 + n) as char
  }

  /** The year, month and day a date-shaped string spells, whether or not that day exists. */
  function FieldsOf(s: string): Date
    requires HasDateShape(s)
  {
    Date(1000 * DigitValue(s[0]) + 100 * DigitValue(s[1]) + 10 * DigitValue(s[2]) + DigitValue(s[3]),
         10 * DigitValue(s[5]) + DigitValue(s[6]),
         10 * DigitValue(s[8]) + DigitValue(s[9]))
  }

  /** `NaiveDate::parse_from_str(s, "%Y-%m-%d")` on strict input: the shape, then the calendar. */
  function Parse(s: string): (r: Option<Date>)
    ensures r.Some? <==> HasDateShape(s) && IsValid(FieldsOf(s))
    ensures r.Some? ==> r.value == FieldsOf(s) && IsValid(r.value) && 0 <= r.value.year <= 9999
  {
    if HasDateShape(s) && IsValid(FieldsOf(s)) then Some(FieldsOf(s)) else None
  }

  /** `NaiveDate::to_string` for a year between 0 and 9999: zero-padded `YYYY-MM-DD`. */
  function Format(d: Date): (s: string)
    requires IsValid(d) && 0 <= d.year <= 9999
    ensures HasDateShape(s)
  {
    [DigitChar(d.year / 1000), DigitChar(d.year / 100 % 10), DigitChar(d.year / 10 % 10), DigitChar(d.year % 10),
     '-', DigitChar(d.month / 10), DigitChar(d.month % 10),
     '-', DigitChar(d.day / 10), DigitChar(d.day % 10)]
  }

  /** Every date the service can render is read back unchanged. */
  lemma {:induction false} ParseFormat(d: Date)
    requires IsValid(d) && 0 <= d.year <= 9999
    ensures Parse(Format(d)) == Some(d)
  {
    var s := Format(d);
    var y := d.year;
    assert 1000 * (y / 1000) + 100 * (y / 100 % 10) + 10 * (y / 10 % 10) + y % 10 == y;
    assert FieldsOf(s) == d;
  }

  lemma DecimalDigits(a: int, b: int, c: int, e: int)
    requires 0 <= a < 10 && 0 <= b < 10 && 0 <= c < 10 && 0 <= e < 10
    ensures var y := 1000 * a + 100 * b + 10 * c + e;
      y / 1000 == a && y / 100 % 10 == b && y / 10 % 10 == c && y % 10 == e
  {
    var y := 1000 * a + 100 * b + 10 * c + e;
    assert y / 1000 == a;
    assert y / 100 == 10 * a + b;
    assert y / 10 == 100 * a + 10 * b + c;
  }

  lemma TwoDigits(a: int, b: int)
    requires 0 <= a < 10 && 0 <= b < 10
    ensures (10 * a + b) / 10 == a && (10 * a + b) % 10 == b
  {
  }

  /** A string that parses is exactly the rendering of the date it parses to. */
  lemma {:induction false} FormatParse(s: string)
    requires Parse(s).Some?
    ensures Format(Parse(s).value) == s
  {
    var d := Parse(s).value;
    var t := Format(d);
    DecimalDigits(DigitValue(s[0]), DigitValue(s[1]), DigitValue(s[2]), DigitValue(s[3]));
    TwoDigits(DigitValue(s[5]), DigitValue(s[6]));
    TwoDigits(DigitValue(s[8]), DigitValue(s[9]));
    forall k | 0 <= k < 10 ensures t[k] == s[k] {
      if k != 4 && k != 7 {
        assert DigitChar(DigitValue(s[k])) == s[k];
      }
    }
  }
}
