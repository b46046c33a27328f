/**
 * Proleptic Gregorian calendar dates, the `DD-MM-YYYY` rendering used in
 * event titles, and the instant window of one calendar day.
 *
 * Instants are microseconds since 0001-01-01T00:00:00 in one fixed
 * reference zone, so a day's window is computed from the date's ordinal
 * (day 1 is 0001-01-01), the numbering Python's `date.toordinal` uses.
 */
module Calendar {
  import opened Wrappers

  datatype Date = Date(year: int, month: int, day: int)

  const MicrosPerDay: int := 86_400_000_000

  predicate IsLeapYear(y: int) {
    y % 4 == 0 && (y % 100 != 0 || y % 400 == 0)
  }

  function DaysInMonth(y: int, m: int): (n: int)
    requires 1 <= m <= 12
    ensures 28 <= n <= 31
  {
    if m == 2 then (if IsLeapYear(y) then 29 else 28)
    else if m == 4 || m == 6 || m == 9 || m == 11 then 30
    else 31
  }

  function DaysInYear(y: int): int {
    if IsLeapYear(y) then 366 else 365
  }

  /** The dates Python's `date` can represent. */
  predicate ValidDate(d: Date) {
    && 1 <= d.year <= 9999
    && 1 <= d.month <= 12
    && 1 <= d.day <= DaysInMonth(d.year, d.month)
  }

  // ---------------------------------------------------------------------------
  // Day ordinals and day windows
  // ---------------------------------------------------------------------------

  /** Days in the years before `y`. */
  function DaysBeforeYear(y: int): int
    requires y >= 1
  {
    var p := y - 1;
    365 * p + p / 4 - p / 100 + p / 400
  }

  /** Days of year `y` before the first of month `m`. */
  function DaysBeforeMonth(y: int, m: int): int
    requires 1 <= m <= 12
  {
    var common := [0, 31, 59, 90, 120, 151, 181, 212, 243, 273, 304, 334][m - 1];
    if m > 2 && IsLeapYear(y) then common + 1 else common
  }

  /** The ordinal of a date; 0001-01-01 has ordinal 1. */
  function Ordinal(d: Date): int
    requires ValidDate(d)
  {
    DaysBeforeYear(d.year) + DaysBeforeMonth(d.year, d.month) + d.day
  }

  /**
   * `datetime.combine(d, time.min)`: 00:00:00.000000 of `d`, the first instant
   * of day `d`; the instant before it belongs to the previous day.
   */
  function StartOfDay(d: Date): (t: int)
    requires ValidDate(d)
    ensures DayOrdinalOf(t) == Ordinal(d)
    ensures DayOrdinalOf(t - 1) == Ordinal(d) - 1
  {
    var t := (Ordinal(d) - 1) * MicrosPerDay;
    DivisionPins(t, Ordinal(d) - 1);
    DivisionPins(t - 1, Ordinal(d) - 2);
    t
  }

  /**
   * `datetime.combine(d, time.max)`: 23:59:59.999999 of `d`, the last instant
   * of day `d`; the instant after it belongs to the next day.
   */
  function EndOfDay(d: Date): (e: int)
    requires ValidDate(d)
    ensures DayOrdinalOf(e) == Ordinal(d)
    ensures DayOrdinalOf(e + 1) == Ordinal(d) + 1
  {
    var e := StartOfDay(d) + MicrosPerDay - 1;
    DivisionPins(e, Ordinal(d) - 1);
    DivisionPins(e + 1, Ordinal(d));
    e
  }

  /** The ordinal of the calendar day an instant falls on. */
  function DayOrdinalOf(t: int): int {
    t / MicrosPerDay + 1
  }

  /** An instant lies in the inclusive window of `d` exactly when it falls on day `d`. */
  lemma DayWindowIsCalendarDay(d: Date, t: int)
    requires ValidDate(d)
    ensures StartOfDay(d) <= t <= EndOfDay(d) <==> DayOrdinalOf(t) == Ordinal(d)
  {
    var o := Ordinal(d) - 1;
    if StartOfDay(d) <= t <= EndOfDay(d) {
      assert o * MicrosPerDay <= t < o * MicrosPerDay + MicrosPerDay;
      DivisionPins(t, o);
    }
    if DayOrdinalOf(t) == Ordinal(d) {
      assert t / MicrosPerDay == o;
      assert t == MicrosPerDay * (t / MicrosPerDay) + t % MicrosPerDay;
    }
  }

  lemma DivisionPins(t: int, q: int)
    requires q * MicrosPerDay <= t < q * MicrosPerDay + MicrosPerDay
    ensures t / MicrosPerDay == q
  {
    var r := t - q * MicrosPerDay;
    assert 0 <= r < MicrosPerDay;
    assert t == MicrosPerDay * q + r;
  }

  // ---------------------------------------------------------------------------
  // Ordinals grow with dates, so distinct days have disjoint windows
  // ---------------------------------------------------------------------------

  predicate Before(a: Date, b: Date) {
    a.year < b.year
    || (a.year == b.year && a.month < b.month)
    || (a.year == b.year && a.month == b.month && a.day < b.day)
  }

  /** Moving from year `y - 1` to `y` adds one leap-rule quotient exactly when its divisor divides `y`. */
  lemma LeapQuotientsStep(y: int)
    requires y >= 1
    ensures y / 4 == (y - 1) / 4 + (if y % 4 == 0 then 1 else 0)
    ensures y / 100 == (y - 1) / 100 + (if y % 100 == 0 then 1 else 0)
    ensures y / 400 == (y - 1) / 400 + (if y % 400 == 0 then 1 else 0)
    ensures y % 400 == 0 ==> y % 100 == 0
    ensures y % 100 == 0 ==> y % 4 == 0
  {
  }

  lemma NextYearOrdinalBase(y: int)
    requires y >= 1
    ensures DaysBeforeYear(y + 1) == DaysBeforeYear(y) + DaysInYear(y)
  {
    LeapQuotientsStep(y);
  }

  lemma MonthsFillYear(y: int, m: int)
    requires 1 <= m <= 12
    ensures DaysBeforeMonth(y, m) + DaysInMonth(y, m)
         == (if m == 12 then DaysInYear(y) else DaysBeforeMonth(y, m + 1))
  {
  }

  lemma {:induction false} LaterMonthStartsLater(y: int, m1: int, m2: int)
    requires 1 <= m1 < m2 <= 12
    ensures DaysBeforeMonth(y, m1) + DaysInMonth(y, m1) <= DaysBeforeMonth(y, m2)
    decreases m2 - m1
  {
    MonthsFillYear(y, m1);
    if m1 + 1 < m2 {
      LaterMonthStartsLater(y, m1 + 1, m2);
    }
  }

  lemma {:induction false} LaterYearStartsLater(y1: int, y2: int)
    requires 1 <= y1 < y2
    ensures DaysBeforeYear(y1) + DaysInYear(y1) <= DaysBeforeYear(y2)
    decreases y2 - y1
  {
    NextYearOrdinalBase(y1);
    if y1 + 1 < y2 {
      LaterYearStartsLater(y1 + 1, y2);
      NextYearOrdinalBase(y1 + 1);
    }
  }

  /** Ordinals are strictly increasing with the calendar order. */
  lemma OrdinalIncreasing(a: Date, b: Date)
    requires ValidDate(a) && ValidDate(b) && Before(a, b)
    ensures Ordinal(a) < Ordinal(b)
  {
    MonthsFillYear(a.year, a.month);
    if a.year < b.year {
      LaterYearStartsLater(a.year, b.year);
      if a.month < 12 {
        LaterMonthStartsLater(a.year, a.month, 12);
        MonthsFillYear(a.year, 12);
      }
    } else if a.month < b.month {
      LaterMonthStartsLater(a.year, a.month, b.month);
    }
  }

  /** No instant lies in the windows of two different days. */
  lemma DayWindowsDisjoint(a: Date, b: Date, t: int)
    requires ValidDate(a) && ValidDate(b) && a != b
    requires StartOfDay(a) <= t <= EndOfDay(a)
    ensures !(StartOfDay(b) <= t <= EndOfDay(b))
  {
    DayWindowIsCalendarDay(a, t);
    DayWindowIsCalendarDay(b, t);
    if Before(a, b) {
      OrdinalIncreasing(a, b);
    } else {
      assert Before(b, a);
      OrdinalIncreasing(b, a);
    }
  }

  // ---------------------------------------------------------------------------
  // DD-MM-YYYY rendering (`strftime('%d-%m-%Y')`) and its inverse
  // ---------------------------------------------------------------------------

  predicate IsDigit(c: char) {
    '0' <= c <= '9'
  }

  function DigitChar(n: int): (c: char)
    requires 0 <= n <= 9
    ensures IsDigit(c)
  {
    ('0' as int + n) as char
  }

  function DigitValue(c: char): (n: int)
    requires IsDigit(c)
    ensures 0 <= n <= 9
  {
    c as int - '0' as int
  }

  /** `n` written with exactly two digits, zero-padded. */
  function Pad2(n: int): (s: string)
    requires 0 <= n <= 99
    ensures |s| == 2
  {
    [DigitChar(n / 10), DigitChar(n % 10)]
  }

  /** `n` written with exactly four digits, zero-padded. */
  function Pad4(n: int): (s: string)
    requires 0 <= n <= 9999
    ensures |s| == 4
  {
    Pad2(n / 100) + Pad2(n % 100)
  }

  /** The `DD-MM-YYYY` form of a date, as in event titles. */
  function FormatDate(d: Date): (s: string)
    requires ValidDate(d)
    ensures |s| == 10
  {
    Pad2(d.day) + "-" + Pad2(d.month) + "-" + Pad4(d.year)
  }

  function DigitsValue(s: string): (n: int)
    requires forall i :: 0 <= i < |s| ==> IsDigit(s[i])
    ensures n >= 0
    decreases |s|
  {
    if |s| == 0 then 0 else DigitsValue(s[..|s| - 1]) * 10 + DigitValue(s[|s| - 1])
  }

  predicate WellFormedDateText(s: string) {
    && |s| == 10 && s[2] == '-' && s[5] == '-'
    && (forall i :: 0 <= i < 10 && i != 2 && i != 5 ==> IsDigit(s[i]))
  }

  /** Reads a `DD-MM-YYYY` text back into the date it denotes. */
  function ParseDate(s: string): (r: Option<Date>)
    ensures r.Some? ==> ValidDate(r.value)
  {
    if !WellFormedDateText(s) then None
    else
      var d := Date(DigitsValue(s[6..10]), DigitsValue(s[3..5]), DigitsValue(s[0..2]));
      if ValidDate(d) then Some(d) else None
  }

  lemma DigitRoundTrip(n: int)
    requires 0 <= n <= 9
    ensures DigitValue(DigitChar(n)) == n
  {
  }

  lemma Pad2Value(n: int)
    requires 0 <= n <= 99
    ensures DigitsValue(Pad2(n)) == n
  {
    var s := Pad2(n);
    assert s[..1] == [DigitChar(n / 10)];
    assert s[..1][..0] == [];
    DigitRoundTrip(n / 10);
    DigitRoundTrip(n % 10);
    assert DigitsValue(s[..1]) == n / 10;
    assert DigitsValue(s) == (n / 10) * 10 + n % 10;
  }

  lemma Pad4Value(n: int)
    requires 0 <= n <= 9999
    ensures DigitsValue(Pad4(n)) == n
  {
    var s := Pad4(n);
    var hi, lo := n / 100, n % 100;
    assert s[..3][..2] == Pad2(hi);
    assert s[..3] == Pad2(hi) + [DigitChar(lo / 10)];
    Pad2Value(hi);
    DigitRoundTrip(lo / 10);
    DigitRoundTrip(lo % 10);
    assert DigitsValue(s[..3]) == hi * 10 + lo / 10;
    assert DigitsValue(s) == (hi * 10 + lo / 10) * 10 + lo % 10;
  }

  /** Parsing recovers every valid date from its `DD-MM-YYYY` form. */
  lemma ParseFormatRoundTrip(d: Date)
    requires ValidDate(d)
    ensures WellFormedDateText(FormatDate(d))
    ensures ParseDate(FormatDate(d)) == Some(d)
  {
    var s := FormatDate(d);
    assert s[0..2] == Pad2(d.day);
    assert s[3..5] == Pad2(d.month);
    assert s[6..10] == Pad4(d.year);
    Pad2Value(d.day);
    Pad2Value(d.month);
    Pad4Value(d.year);
  }

  /** Different dates never share a title date. */
  lemma FormatDateInjective(a: Date, b: Date)
    requires ValidDate(a) && ValidDate(b)
    ensures FormatDate(a) == FormatDate(b) <==> a == b
  {
    ParseFormatRoundTrip(a);
    ParseFormatRoundTrip(b);
  }
}
