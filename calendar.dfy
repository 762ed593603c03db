/** Local calendar dates and times, and the two custom formats the appender uses:
    "yyyyMMdd" and "HHmmss" (DateTime.ToString with the invariant digits). */
module Calendar {

  /** A DateTime reduced to the fields the appender reads. */
  datatype DateTime = DateTime(year: int, month: int, day: int, hour: int, minute: int, second: int)

  predicate IsLeapYear(y: int) {
    y % 4 == 0 && (y % 100 != 0 || y % 400 == 0)
  }

  function DaysInMonth(y: int, m: int): int
    requires 1 <= m <= 12
  {
    if m == 2 then (if IsLeapYear(y) then 29 else 28)
    else if m == 4 || m == 6 || m == 9 || m == 11 then 30
    else 31
  }

  /** The values DateTime can hold: years 1 through 9999. */
  predicate Valid(d: DateTime) {
    && 1 <= d.year <= 9999
    && 1 <= d.month <= 12
    && 1 <= d.day <= DaysInMonth(d.year, d.month)
    && 0 <= d.hour < 24
    && 0 <= d.minute < 60
    && 0 <= d.second < 60
  }

  /** The appender's rotation test compares day, month and year. */
  predicate SameDay(a: DateTime, b: DateTime) {
    a.day == b.day && a.month == b.month && a.year == b.year
  }

  predicate IsDigit(c: char) {
    '0' <= c <= '9'
  }

  predicate AllDigits(s: string) {
    forall c :: c in s ==> IsDigit(c)
  }

  function Digit(n: int): (c: char)
    requires 0 <= n < 10
    ensures IsDigit(c)
  {
    ('0' as int + n) as char
  }

  function DigitValue(c: char): int {
    c as int - '0' as int
  }

  /** The number a string of decimal digits denotes. */
  function DecimalValue(s: string): int {
    if s == [] then 0 else 10 * DecimalValue(s[..|s| - 1]) + DigitValue(s[|s| - 1])
  }

  /** `n` written with exactly two digits, zero-padded. */
  function Pad2(n: int): (r: string)
    requires 0 <= n < 100
    ensures |r| == 2 && AllDigits(r)
  {
    [Digit(n / 10), Digit(n % 10)]
  }

  /** `n` written with exactly four digits, zero-padded. */
  function Pad4(n: int): (r: string)
    requires 0 <= n < 10000
    ensures |r| == 4 && AllDigits(r)
  {
    Pad2(n / 100) + Pad2(n % 100)
  }

  /** DateTime.ToString("yyyyMMdd"). */
  function FormatDate(d: DateTime): (r: string)
    requires Valid(d)
    ensures |r| == 8 && AllDigits(r)
  {
    Pad4(d.year) + Pad2(d.month) + Pad2(d.day)
  }

  /** DateTime.ToString("HHmmss"). */
  function FormatTime(d: DateTime): (r: string)
    requires Valid(d)
    ensures |r| == 6 && AllDigits(r)
  {
    Pad2(d.hour) + Pad2(d.minute) + Pad2(d.second)
  }

  lemma Pad2Value(n: int)
    requires 0 <= n < 100
    ensures DecimalValue(Pad2(n)) == n
  {
    var s := Pad2(n);
    assert s[..1][..0] == [];
    assert DecimalValue(s[..1]) == n / 10;
  }

  lemma Pad4Value(n: int)
    requires 0 <= n < 10000
    ensures DecimalValue(Pad4(n)) == n
  {
    var s := Pad4(n);
    var hi, lo := Pad2(n / 100), Pad2(n % 100);
    Pad2Value(n / 100);
    assert s[..3] == hi + [lo[0]] && s[..3][..2] == hi;
    assert DecimalValue(s[..3]) == 10 * (n / 100) + n % 100 / 10;
  }

  /** Reading the four fields back out of "yyyyMMdd" gives the year, month and day. */
  lemma FormatDateRoundTrip(d: DateTime)
    requires Valid(d)
    ensures var s := FormatDate(d);
      DecimalValue(s[..4]) == d.year && DecimalValue(s[4..6]) == d.month && DecimalValue(s[6..]) == d.day
  {
    var s := FormatDate(d);
    assert s[..4] == Pad4(d.year) && s[4..6] == Pad2(d.month) && s[6..] == Pad2(d.day);
    Pad4Value(d.year);
    Pad2Value(d.month);
    Pad2Value(d.day);
  }

  /** Reading the three fields back out of "HHmmss" gives the hour, minute and second. */
  lemma FormatTimeRoundTrip(d: DateTime)
    requires Valid(d)
    ensures var s := FormatTime(d);
      DecimalValue(s[..2]) == d.hour && DecimalValue(s[2..4]) == d.minute && DecimalValue(s[4..]) == d.second
  {
    var s := FormatTime(d);
    assert s[..2] == Pad2(d.hour) && s[2..4] == Pad2(d.minute) && s[4..] == Pad2(d.second);
    Pad2Value(d.hour);
    Pad2Value(d.minute);
    Pad2Value(d.second);
  }

  /** Two moments print the same "yyyyMMdd" exactly when they fall on the same day. */
  lemma FormatDateSameDay(a: DateTime, b: DateTime)
    requires Valid(a) && Valid(b)
    ensures FormatDate(a) == FormatDate(b) <==> SameDay(a, b)
  {
    FormatDateRoundTrip(a);
    FormatDateRoundTrip(b);
  }
}
