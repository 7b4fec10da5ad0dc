/**
 * Calendar dates as a Django `DateField` holds them (Python's proleptic
 * Gregorian `datetime.date`, years 1 to 9999), the calendar month that
 * `TruncMonth` reduces a date to, and the `'%d.%m.%Y'` text that the
 * financial report prints for a payment date, together with its parser.
 */
module Calendar {
  import opened Wrappers

  datatype Date = Date(year: int, month: int, day: int)

  predicate IsLeapYear(y: int) {
    y % 4 == 0 && (y % 100 != 0 || y % 400 == 0)
  }

  function DaysInMonth(y: int, m: int): (n: int)
    requires 1 <= m <= 12
    ensures 28 <= n <= 31
    ensures m == 2 ==> (n == 29 <==> IsLeapYear(y))
  {
    if m == 2 then (if IsLeapYear(y) then 29 else 28)
    else if m == 4 || m == 6 || m == 9 || m == 11 then 30
    else 31
  }

  predicate ValidDate(d: Date) {
    1 <= d.year <= 9999 && 1 <= d.month <= 12 && 1 <= d.day <= DaysInMonth(d.year, d.month)
  }

  /** A date that Python's `datetime.date` accepts. */
  type CalendarDate = d: Date | ValidDate(d) witness Date(1, 1, 1)

  /** Chronological order of dates, as SQL compares DATE values. */
  predicate DateLe(a: Date, b: Date) {
    a.year < b.year
    || (a.year == b.year && (a.month < b.month || (a.month == b.month && a.day <= b.day)))
  }

  /** A calendar month: what `TruncMonth` keeps of a date. */
  datatype Month = Month(year: int, month: int)

  function MonthOf(d: Date): Month {
    Month(d.year, d.month)
  }

  /** Chronological (strict) order of months, the order of `order_by('month')`. */
  predicate MonthLt(a: Month, b: Month) {
    a.year < b.year || (a.year == b.year && a.month < b.month)
  }

  // ----- Decimal digits -----

  function DigitChar(n: int): (c: char)
    requires 0 <= n <= 9
    ensures IsDigit(c) && DigitValue(c) == n
  {
    ('0' as int + n) as char
  }

  predicate IsDigit(c: char) {
    '0' <= c <= '9'
  }

  function DigitValue(c: char): int {
    c as int - '0' as int
  }

  predicate AllDigits(s: string) {
    forall i :: 0 <= i < |s| ==> IsDigit(s[i])
  }

  /** The number a string of decimal digits denotes (most significant digit first). */
  function DigitsValue(s: string): nat
    requires AllDigits(s)
  {
    if s == [] then 0
    else DigitsValue(s[..|s| - 1]) * 10 + DigitValue(s[|s| - 1])
  }

  /** A number with exactly two digits, zero-padded: the `%d` and `%m` directives. */
  function Pad2(n: int): (s: string)
    requires 0 <= n < 100
    ensures |s| == 2 && AllDigits(s)
  {
    [DigitChar(n / 10), DigitChar(n % 10)]
  }

  /** A number with no leading zeros: glibc's `%Y` for the year. */
  function Decimal(n: nat): (s: string)
    ensures |s| >= 1 && AllDigits(s)
    ensures n < 10 ==> |s| == 1
    ensures 10 <= n < 100 ==> |s| == 2
    ensures 100 <= n < 1000 ==> |s| == 3
    ensures 1000 <= n < 10000 ==> |s| == 4
  {
    if n < 10 then [DigitChar(n)] else Decimal(n / 10) + [DigitChar(n % 10)]
  }

  /** `date.strftime('%d.%m.%Y')`. */
  function FormatDate(d: CalendarDate): (s: string)
    ensures |s| >= 7 && s[2] == '.' && s[5] == '.'
    ensures 1000 <= d.year ==> |s| == 10
  {
    Pad2(d.day) + "." + Pad2(d.month) + "." + Decimal(d.year)
  }

  /** Reads a non-empty string of decimal digits. */
  function ParseNumber(s: string): (r: Option<nat>)
    ensures r.Some? <==> |s| > 0 && AllDigits(s)
  {
    if |s| > 0 && AllDigits(s) then Some(DigitsValue(s)) else None
  }

  /** Reads back a `dd.mm.yyyy` date; `None` for text that is not a valid date. */
  function ParseDate(s: string): (r: Option<CalendarDate>)
    ensures r.Some? ==> |s| >= 7 && s[2] == '.' && s[5] == '.'
  {
    if |s| < 7 || s[2] != '.' || s[5] != '.' then None
    else
      match (ParseNumber(s[..2]), ParseNumber(s[3..5]), ParseNumber(s[6..]))
      case (Some(day), Some(month), Some(year)) =>
        var d := Date(year, month, day);
        if ValidDate(d) then Some(d) else None
      case _ => None
  }

  lemma {:induction false} Pad2Value(n: int)
    requires 0 <= n < 100
    ensures DigitsValue(Pad2(n)) == n
  {
    var s := Pad2(n);
    assert s[..1] == [DigitChar(n / 10)];
    assert s[..1][..0] == [];
    assert DigitsValue(s[..1]) == n / 10;
  }

  lemma {:induction false} DecimalValue(n: nat)
    ensures DigitsValue(Decimal(n)) == n
  {
    var s := Decimal(n);
    if n < 10 {
      assert s[..0] == [];
    } else {
      DecimalValue(n / 10);
      assert s[..|s| - 1] == Decimal(n / 10);
    }
  }

  /** The printed date reads back as the same date: formatting loses nothing. */
  lemma {:induction false} ParseFormatDate(d: CalendarDate)
    ensures ParseDate(FormatDate(d)) == Some(d)
  {
    var s := FormatDate(d);
    assert s[..2] == Pad2(d.day);
    assert s[3..5] == Pad2(d.month);
    assert s[6..] == Decimal(d.year);
    Pad2Value(d.day);
    Pad2Value(d.month);
    DecimalValue(d.year);
  }

  /** Two payment dates print alike only if they are the same date. */
  lemma FormatDateInjective(a: CalendarDate, b: CalendarDate)
    requires FormatDate(a) == FormatDate(b)
    ensures a == b
  {
    ParseFormatDate(a);
    ParseFormatDate(b);
  }
}
