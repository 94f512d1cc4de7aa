/** Civil-calendar arithmetic on `YYYY-MM-DD` dates (the extended calendar
  date of ISO 8601:2004 section 4.1.2.2), in the proleptic Gregorian
  calendar that JavaScript's `Date` uses.

  A date is counted by `DayNumber`, the number of days since 0000-01-01;
  moving a date by one day moves its day number by one, and day numbers
  order dates the way the calendar does.
*/
module Calendar {
  import opened Wrappers
  import opened Text

  datatype Date = Date(year: int, month: int, day: int)

  predicate IsLeapYear(y: int)
  {
    y % 4 == 0 && (y % 100 != 0 || y % 400 == 0)
  }

  function DaysInMonth(y: int, m: int): (n: int)
    requires 1 <= m <= 12
    ensures 28 <= n <= 31
  {
    if m == 2 then (if IsLeapYear(y) then 29 else 28)
    else if m == 4 || m == 6 || m == 9 || m == 11 then 30
    else 31
  }

  function DaysInYear(y: int): int
  {
    if IsLeapYear(y) then 366 else 365
  }

  predicate ValidDate(d: Date)
  {
    1 <= d.month <= 12 && 1 <= d.day <= DaysInMonth(d.year, d.month)
  }

  /** Days in the months of year `y` before month `m`. */
  function DaysBeforeMonth(y: int, m: int): int
    requires 1 <= m <= 13
  {
    if m == 1 then 0 else DaysBeforeMonth(y, m - 1) + DaysInMonth(y, m - 1)
  }

  /** Days from 0000-01-01 to the first of January of year `y`. */
  function DaysBeforeYear(y: int): int
    decreases if y < 0 then -y else y
  {
    if y == 0 then 0
    else if y > 0 then DaysBeforeYear(y - 1) + DaysInYear(y - 1)
    else DaysBeforeYear(y + 1) - DaysInYear(y)
  }

  /** Days since 0000-01-01. */
  function DayNumber(d: Date): int
    requires ValidDate(d)
  {
    DaysBeforeYear(d.year) + DaysBeforeMonth(d.year, d.month) + d.day - 1
  }

  lemma YearLength(y: int)
    ensures DaysBeforeMonth(y, 13) == DaysInYear(y)
  {
    var feb := DaysInMonth(y, 2);
    assert DaysBeforeMonth(y, 2) == 31;
    assert DaysBeforeMonth(y, 3) == 31 + feb;
    assert DaysBeforeMonth(y, 4) == 62 + feb;
    assert DaysBeforeMonth(y, 5) == 92 + feb;
    assert DaysBeforeMonth(y, 6) == 123 + feb;
    assert DaysBeforeMonth(y, 7) == 153 + feb;
    assert DaysBeforeMonth(y, 8) == 184 + feb;
    assert DaysBeforeMonth(y, 9) == 215 + feb;
    assert DaysBeforeMonth(y, 10) == 245 + feb;
    assert DaysBeforeMonth(y, 11) == 276 + feb;
    assert DaysBeforeMonth(y, 12) == 306 + feb;
    assert DaysBeforeMonth(y, 13) == 337 + feb;
  }

  lemma DaysBeforeYearStep(y: int)
    ensures DaysBeforeYear(y + 1) == DaysBeforeYear(y) + DaysInYear(y)
  {
  }

  lemma {:induction false} DaysBeforeMonthMonotone(y: int, m1: int, m2: int)
    requires 1 <= m1 <= m2 <= 13
    ensures DaysBeforeMonth(y, m1) <= DaysBeforeMonth(y, m2)
    decreases m2 - m1
  {
    if m1 < m2 {
      DaysBeforeMonthMonotone(y, m1, m2 - 1);
    }
  }

  lemma {:induction false} DaysBeforeYearMonotone(y1: int, y2: int)
    requires y1 < y2
    ensures DaysBeforeYear(y1) + DaysInYear(y1) <= DaysBeforeYear(y2)
    decreases y2 - y1
  {
    DaysBeforeYearStep(y1);
    if y1 + 1 < y2 {
      DaysBeforeYearMonotone(y1 + 1, y2);
    }
  }

  /** A valid date's offset within its year is less than the year's length. */
  lemma DayOfYearBound(d: Date)
    requires ValidDate(d)
    ensures 0 <= DaysBeforeMonth(d.year, d.month) + d.day - 1 < DaysInYear(d.year)
  {
    DaysBeforeMonthMonotone(d.year, 1, d.month);
    DaysBeforeMonthMonotone(d.year, d.month + 1, 13);
    YearLength(d.year);
  }

  /** The calendar day after `d`, with month and year rollover. */
  function NextDay(d: Date): (r: Date)
    requires ValidDate(d)
    ensures ValidDate(r)
    ensures DayNumber(r) == DayNumber(d) + 1
  {
    if d.day < DaysInMonth(d.year, d.month) then Date(d.year, d.month, d.day + 1)
    else if d.month < 12 then Date(d.year, d.month + 1, 1)
    else
      YearLength(d.year);
      DaysBeforeYearStep(d.year);
      Date(d.year + 1, 1, 1)
  }

  /** The calendar day before `d`. */
  function PrevDay(d: Date): (r: Date)
    requires ValidDate(d)
    ensures ValidDate(r)
    ensures DayNumber(r) == DayNumber(d) - 1
  {
    if d.day > 1 then Date(d.year, d.month, d.day - 1)
    else if d.month > 1 then Date(d.year, d.month - 1, DaysInMonth(d.year, d.month - 1))
    else
      YearLength(d.year - 1);
      DaysBeforeYearStep(d.year - 1);
      Date(d.year - 1, 12, 31)
  }

  /** `d` moved by `n` days (backwards when `n` is negative), one calendar
      day at a time. */
  function Shift(d: Date, n: int): (r: Date)
    requires ValidDate(d)
    ensures ValidDate(r)
    ensures DayNumber(r) == DayNumber(d) + n
    decreases if n < 0 then -n else n
  {
    if n == 0 then d
    else if n > 0 then Shift(NextDay(d), n - 1)
    else Shift(PrevDay(d), n + 1)
  }

  /** Calendar order: by year, then month, then day. */
  predicate Before(a: Date, b: Date)
  {
    a.year < b.year
    || (a.year == b.year && a.month < b.month)
    || (a.year == b.year && a.month == b.month && a.day < b.day)
  }

  lemma BeforeDayNumber(a: Date, b: Date)
    requires ValidDate(a) && ValidDate(b) && Before(a, b)
    ensures DayNumber(a) < DayNumber(b)
  {
    DayOfYearBound(a);
    DayOfYearBound(b);
    if a.year < b.year {
      DaysBeforeYearMonotone(a.year, b.year);
    } else if a.month < b.month {
      DaysBeforeMonthMonotone(a.year, a.month + 1, b.month);
    }
  }

  /** Day numbers order valid dates exactly as the calendar does. */
  lemma DayNumberOrder(a: Date, b: Date)
    requires ValidDate(a) && ValidDate(b)
    ensures Before(a, b) <==> DayNumber(a) < DayNumber(b)
    ensures a == b <==> DayNumber(a) == DayNumber(b)
  {
    if Before(a, b) {
      BeforeDayNumber(a, b);
    } else if Before(b, a) {
      BeforeDayNumber(b, a);
    }
  }

  /** Shifting by `m` then by `n` is shifting by `m + n`. */
  lemma ShiftAdditive(d: Date, m: int, n: int)
    requires ValidDate(d)
    ensures Shift(Shift(d, m), n) == Shift(d, m + n)
  {
    DayNumberOrder(Shift(Shift(d, m), n), Shift(d, m + n));
  }

  // ---------------------------------------------------------------------
  // The `YYYY-MM-DD` text form

  predicate InTextRange(d: Date)
  {
    0 <= d.year <= 9999
  }

  /** `YYYY-MM-DD`, the date part of `toISOString()` for years 0000 to 9999. */
  function IsoText(d: Date): (s: string)
    requires ValidDate(d) && InTextRange(d)
    ensures |s| == 10
  {
    Pad(d.year, 4) + ("-" + (Pad(d.month, 2) + ("-" + Pad(d.day, 2))))
  }

  /** Reads `YYYY-MM-DD`: four digits, dash, two digits, dash, two digits,
      naming a real calendar date. */
  function ParseIsoDate(s: string): (r: Option<Date>)
    ensures r.Some? ==> ValidDate(r.value) && InTextRange(r.value)
  {
    if |s| == 10 && AllDigits(s[..4]) && s[4] == '-' && AllDigits(s[5..7]) && s[7] == '-' && AllDigits(s[8..])
    then
      var d := Date(DigitsValue(s[..4]), DigitsValue(s[5..7]), DigitsValue(s[8..]));
      if ValidDate(d) then Some(d) else None
    else None
  }

  lemma IsoTextParts(d: Date)
    requires ValidDate(d) && InTextRange(d)
    ensures var s := IsoText(d);
      s[..4] == Pad(d.year, 4) && s[4] == '-' && s[5..7] == Pad(d.month, 2)
      && s[7] == '-' && s[8..] == Pad(d.day, 2)
  {
  }

  /** Rendering then reading a date gives the date back. */
  lemma ParseIsoText(d: Date)
    requires ValidDate(d) && InTextRange(d)
    ensures ParseIsoDate(IsoText(d)) == Some(d)
  {
    IsoTextParts(d);
    PadRoundTrip(d.year, 4);
    PadRoundTrip(d.month, 2);
    PadRoundTrip(d.day, 2);
  }

  /** Reading then rendering gives the text back: the text form is canonical. */
  lemma IsoTextOfParse(s: string)
    requires ParseIsoDate(s).Some?
    ensures IsoText(ParseIsoDate(s).value) == s
  {
    PadOfDigits(s[..4]);
    PadOfDigits(s[5..7]);
    PadOfDigits(s[8..]);
    assert s == s[..4] + ("-" + (s[5..7] + ("-" + s[8..])));
  }

  /** On `YYYY-MM-DD` texts, string order is calendar order. */
  lemma IsoTextOrder(a: Date, b: Date)
    requires ValidDate(a) && InTextRange(a) && ValidDate(b) && InTextRange(b)
    ensures LexLess(IsoText(a), IsoText(b)) <==> DayNumber(a) < DayNumber(b)
  {
    DayNumberOrder(a, b);
    PadLexOrder(a.year, b.year, 4);
    PadLexOrder(a.month, b.month, 2);
    PadLexOrder(a.day, b.day, 2);
    PadRoundTrip(a.year, 4);
    PadRoundTrip(b.year, 4);
    PadRoundTrip(a.month, 2);
    PadRoundTrip(b.month, 2);
    var ra := "-" + (Pad(a.month, 2) + ("-" + Pad(a.day, 2)));
    var rb := "-" + (Pad(b.month, 2) + ("-" + Pad(b.day, 2)));
    LexLessConcat(Pad(a.year, 4), ra, Pad(b.year, 4), rb);
    LexLessConcat("-", Pad(a.month, 2) + ("-" + Pad(a.day, 2)), "-", Pad(b.month, 2) + ("-" + Pad(b.day, 2)));
    LexLessConcat(Pad(a.month, 2), "-" + Pad(a.day, 2), Pad(b.month, 2), "-" + Pad(b.day, 2));
    LexLessConcat("-", Pad(a.day, 2), "-", Pad(b.day, 2));
    assert !LexLess("-", "-");
  }
}
