/**
 * Calendar dates as the record table stores them: text of the form
 * `YYYY-MM-DD`. The add form writes a date with `QDate.toString("yyyy-MM-dd")`
 * (main.py:111); the edit dialog checks the typed text with
 * `datetime.strptime(new_date, "%Y-%m-%d")` (main.py:148); the chart reads
 * dates back with `pd.to_datetime(..., errors="coerce")` (main.py:227).
 */
module Dates {
  import opened Results
  import opened Text

  /** A date of the proleptic Gregorian calendar. */
  datatype Date = Date(year: int, month: int, day: int)

  predicate IsLeapYear(y: int) {
    y % 4 == 0 && (y % 100 != 0 || y % 400 == 0)
  }

  function DaysInMonth(y: int, m: int): (n: int)
    requires 1 <= m <= 12
    ensures 28 <= n <= 31
  {
    if m == 2 then (if IsLeapYear(y) then 29 else 28)
    else if m == 4 || m == 6 || m == 9 || m == 11 then 30
    else 31
  }

  /** The dates a date widget can hold and `datetime` accepts: years 1 to 9999. */
  predicate ValidDate(d: Date) {
    && 1 <= d.year <= 9999
    && 1 <= d.month <= 12
    && 1 <= d.day <= DaysInMonth(d.year, d.month)
  }

  /** `yyyy-MM-dd`: four-digit year, two-digit month and day, zero-padded. */
  function FormatDate(d: Date): (s: string)
    requires ValidDate(d)
    ensures |s| == 10 && s[4] == '-' && s[7] == '-'
  {
    Pad(d.year, 4) + "-" + Pad(d.month, 2) + "-" + Pad(d.day, 2)
  }

  /** The date `YYYY-MM-DD` text names, or `None` when it is not such a date. */
  function ParseDate(s: string): (r: Option<Date>)
    ensures r.Some? ==> ValidDate(r.value)
  {
    if |s| == 10 && s[4] == '-' && s[7] == '-'
       && AllDigits(s[..4]) && AllDigits(s[5..7]) && AllDigits(s[8..])
    then
      var d := Date(DigitsValue(s[..4]), DigitsValue(s[5..7]), DigitsValue(s[8..]));
      if ValidDate(d) then Some(d) else None
    else
      None
  }

  /** A written date is read back as the same date. */
  lemma ParseFormatDate(d: Date)
    requires ValidDate(d)
    ensures ParseDate(FormatDate(d)) == Some(d)
  {
    var s := FormatDate(d);
    assert s[..4] == Pad(d.year, 4);
    assert s[5..7] == Pad(d.month, 2);
    assert s[8..] == Pad(d.day, 2);
    assert Pow10(2) == 100 && Pow10(4) == 10000;
    PadValue(d.year, 4);
    PadValue(d.month, 2);
    PadValue(d.day, 2);
  }

  /** Text accepted as a date is exactly that date's written form. */
  lemma FormatParseDate(s: string)
    requires ParseDate(s).Some?
    ensures FormatDate(ParseDate(s).value) == s
  {
    PadOfDigits(s[..4]);
    PadOfDigits(s[5..7]);
    PadOfDigits(s[8..]);
    assert s == s[..4] + "-" + s[5..7] + "-" + s[8..];
  }

  /** `ParseDate` accepts exactly the written forms of valid dates. */
  lemma ParseDateCharacterised(s: string, d: Date)
    ensures ParseDate(s) == Some(d) <==> ValidDate(d) && s == FormatDate(d)
  {
    if ParseDate(s) == Some(d) {
      FormatParseDate(s);
    }
    if ValidDate(d) && s == FormatDate(d) {
      ParseFormatDate(d);
    }
  }

  /**
   * The days a nanosecond timestamp can hold at midnight: 1677-09-22 to
   * 2262-04-11. `pd.to_datetime(..., errors="coerce")` turns a date outside
   * this range into a missing value.
   */
  predicate InTimestampRange(d: Date) {
    && (d.year > 1677 || (d.year == 1677 && (d.month > 9 || (d.month == 9 && d.day >= 22))))
    && (d.year < 2262 || (d.year == 2262 && (d.month < 4 || (d.month == 4 && d.day <= 11))))
  }

  /** A calendar month: the period a date falls in when grouped with `to_period("M")`. */
  datatype YearMonth = YearMonth(year: int, month: int)

  function MonthOfDate(d: Date): YearMonth {
    YearMonth(d.year, d.month)
  }

  /** Chronological order of months. */
  predicate Earlier(a: YearMonth, b: YearMonth) {
    a.year < b.year || (a.year == b.year && a.month < b.month)
  }

  /** `Earlier` is a strict total order. */
  lemma EarlierTotal(a: YearMonth, b: YearMonth)
    ensures !Earlier(a, a)
    ensures a != b ==> Earlier(a, b) || Earlier(b, a)
    ensures Earlier(a, b) ==> !Earlier(b, a)
  {
  }

  lemma EarlierTransitive(a: YearMonth, b: YearMonth, c: YearMonth)
    requires Earlier(a, b) && Earlier(b, c)
    ensures Earlier(a, c)
  {
  }
}
