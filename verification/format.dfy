/** The shared formatting helpers of `src/shared/utils/format.ts`:
  duration text, stop labels and day arithmetic on `YYYY-MM-DD` dates.

  `formatPrice`, `formatDate` and `formatTime` delegate to the locale
  machinery of `Intl`/`Date` and are not part of this model.
*/
module Format {
  import opened Wrappers
  import opened Text
  import opened Calendar
  import opened JsMath

  /** `formatDuration(minutes)`: `Math.floor(m / 60)` hours and `m % 60`
      minutes, written "Mm" without hours, "Hh" without minutes, else "Hh Mm". */
  function FormatDuration(minutes: int): (r: string)
    ensures 0 <= minutes < 60 ==> r == NatText(minutes) + "m"
    ensures minutes >= 60 && minutes % 60 == 0 ==> r == NatText(minutes / 60) + "h"
    ensures minutes >= 60 && minutes % 60 != 0 ==>
      r == NatText(minutes / 60) + "h " + NatText(minutes % 60) + "m" && 1 <= minutes % 60 <= 59
  {
    var hours := minutes / 60;
    var mins := JsRem(minutes, 60);
    if hours == 0 then IntText(mins) + "m"
    else if mins == 0 then IntText(hours) + "h"
    else IntText(hours) + "h " + IntText(mins) + "m"
  }

  /** Reads a duration text back: "Mm", "Hh" or "Hh Mm", where H and M are
      non-empty runs of decimal digits. */
  function ReadDuration(t: string): Option<int>
  {
    var k := DigitRun(t);
    if k == 0 || k == |t| then None
    else if k + 1 == |t| && t[k] == 'm' then Some(DigitsValue(t[..k]))
    else if k + 1 == |t| && t[k] == 'h' then Some(60 * DigitsValue(t[..k]))
    else if k + 3 < |t| && t[k] == 'h' && t[k + 1] == ' ' && t[|t| - 1] == 'm' && AllDigits(t[k + 2..|t| - 1]) then
      Some(60 * DigitsValue(t[..k]) + DigitsValue(t[k + 2..|t| - 1]))
    else None
  }

  /** Every non-negative duration can be read back from its text: the
      rendering loses nothing. */
  lemma ReadFormatDuration(minutes: nat)
    ensures ReadDuration(FormatDuration(minutes)) == Some(minutes)
  {
    var t := FormatDuration(minutes);
    var h, m := minutes / 60, minutes % 60;
    if minutes < 60 {
      ReadUnitText(minutes, 'm', t);
    } else if m == 0 {
      ReadUnitText(h, 'h', t);
    } else {
      ReadHoursMinutesText(h, m, t);
    }
  }

  // The read-back lemmas take the text as a parameter equal to its
  // concatenation, which keeps the solver from unfolding the reader on the
  // concatenation itself.

  lemma ReadUnitText(n: nat, unit: char, t: string)
    requires unit == 'm' || unit == 'h'
    requires t == NatText(n) + [unit]
    ensures ReadDuration(t) == Some(if unit == 'm' then n else 60 * n)
  {
    var k := |NatText(n)|;
    NatTextRoundTrip(n);
    DigitRunOf(NatText(n), [unit]);
    assert t[..k] == NatText(n) && t[k] == unit && k + 1 == |t|;
  }

  lemma ReadHoursMinutesText(h: nat, m: nat, t: string)
    requires t == NatText(h) + "h " + NatText(m) + "m"
    ensures ReadDuration(t) == Some(60 * h + m)
  {
    NatTextRoundTrip(h);
    NatTextRoundTrip(m);
    ReadDigitsText(NatText(h), NatText(m), t);
  }

  lemma ReadDigitsText(a: string, b: string, t: string)
    requires AllDigits(a) && AllDigits(b) && |a| > 0 && |b| > 0
    requires t == a + "h " + b + "m"
    ensures ReadDuration(t) == Some(60 * DigitsValue(a) + DigitsValue(b))
  {
    HoursMinutesPieces(a, b, t);
    DigitRunOf(a, t[|a|..]);
    ReadHoursMinutesAt(t, |a|);
  }

  lemma HoursMinutesPieces(a: string, b: string, t: string)
    requires t == a + "h " + b + "m"
    ensures |t| == |a| + |b| + 3
    ensures t == a + t[|a|..] && t[|a|..][0] == 'h'
    ensures t[..|a|] == a && t[|a|] == 'h' && t[|a| + 1] == ' ' && t[|t| - 1] == 'm'
    ensures t[|a| + 2..|t| - 1] == b
  {
  }

  /** The "Hh Mm" case of `ReadDuration`, once the digit runs are located. */
  lemma ReadHoursMinutesAt(t: string, k: nat)
    requires 0 < k && k + 3 < |t| && DigitRun(t) == k
    requires t[k] == 'h' && t[k + 1] == ' ' && t[|t| - 1] == 'm' && AllDigits(t[k + 2..|t| - 1])
    ensures ReadDuration(t) == Some(60 * DigitsValue(t[..k]) + DigitsValue(t[k + 2..|t| - 1]))
  {
  }

  /** `getStopsLabel(stops)`. */
  function StopsLabel(stops: int): string
  {
    if stops == 0 then "Nonstop"
    else if stops == 1 then "1 stop"
    else IntText(stops) + " stops"
  }

  lemma IntTextInjective(a: int, b: int)
    ensures IntText(a) == IntText(b) ==> a == b
  {
    if IntText(a) == IntText(b) {
      if a < 0 {
        assert IntText(a)[1..] == NatText(-a);
        assert IntText(b)[1..] == NatText(-b);
      }
      NatTextInjective(if a < 0 then -a else a, if b < 0 then -b else b);
    }
  }

  lemma StopsLabelLast(n: int)
    ensures var l := StopsLabel(n);
      |l| > 0 && l[|l| - 1] == (if n == 0 || n == 1 then 'p' else 's')
  {
  }

  /** Different stop counts get different labels. */
  lemma StopsLabelInjective(a: int, b: int)
    ensures StopsLabel(a) == StopsLabel(b) ==> a == b
  {
    StopsLabelLast(a);
    StopsLabelLast(b);
    if StopsLabel(a) == StopsLabel(b) && a != 0 && a != 1 && b != 0 && b != 1 {
      var sa, sb := IntText(a), IntText(b);
      assert (sa + " stops")[..|sa|] == sa;
      assert |sa| == |sb|;
      assert (sb + " stops")[..|sb|] == sb;
      IntTextInjective(a, b);
    }
  }

  /** `addDays(dateString, days)` on a `YYYY-MM-DD` date: the calendar date
      `days` days later (earlier when negative), in the same text form.
      `None` stands for the inputs this model leaves out: a text that is not
      a real `YYYY-MM-DD` date, and a result outside years 0000 to 9999. */
  function AddDays(dateString: string, days: int): (r: Option<string>)
    ensures r.Some? <==>
      ParseIsoDate(dateString).Some? && InTextRange(Shift(ParseIsoDate(dateString).value, days))
    ensures r.Some? ==>
      && ParseIsoDate(r.value).Some?
      && DayNumber(ParseIsoDate(r.value).value) == DayNumber(ParseIsoDate(dateString).value) + days
  {
    match ParseIsoDate(dateString)
    case None => None
    case Some(d) =>
      var moved := Shift(d, days);
      if InTextRange(moved) then
        ParseIsoText(moved);
        Some(IsoText(moved))
      else None
  }

  /** Adding no days gives the same date text back. */
  lemma AddDaysZero(dateString: string)
    requires ParseIsoDate(dateString).Some?
    ensures AddDays(dateString, 0) == Some(dateString)
  {
    IsoTextOfParse(dateString);
  }

  /** Adding `a` days then `b` days is adding `a + b` days. */
  lemma AddDaysAdditive(dateString: string, a: int, b: int)
    requires AddDays(dateString, a).Some?
    requires AddDays(dateString, a + b).Some?
    ensures AddDays(AddDays(dateString, a).value, b) == AddDays(dateString, a + b)
  {
    var d := ParseIsoDate(dateString).value;
    var mid := Shift(d, a);
    ParseIsoText(mid);
    ShiftAdditive(d, a, b);
  }

  /** The rollover cases the unit tests check (2024-01-15 + 7,
      2024-01-30 + 5 and 2024-12-30 + 5), for every date: within a month
      only the day moves, past the month's end the month moves, and past
      December the year moves. */
  lemma AddDaysSameMonth(d: Date, n: nat)
    requires ValidDate(d) && InTextRange(d) && d.day + n <= DaysInMonth(d.year, d.month)
    ensures AddDays(IsoText(d), n) == Some(IsoText(Date(d.year, d.month, d.day + n)))
  {
    var e := Date(d.year, d.month, d.day + n);
    ShiftTo(d, n, e);
    AddDaysOfDates(d, n, e);
  }

  lemma AddDaysNextMonth(d: Date, n: nat, day: int)
    requires ValidDate(d) && InTextRange(d) && d.month < 12
    requires 1 <= day <= DaysInMonth(d.year, d.month + 1)
    requires d.day + n == DaysInMonth(d.year, d.month) + day
    ensures AddDays(IsoText(d), n) == Some(IsoText(Date(d.year, d.month + 1, day)))
  {
    var e := Date(d.year, d.month + 1, day);
    ShiftTo(d, n, e);
    AddDaysOfDates(d, n, e);
  }

  lemma AddDaysNextYear(d: Date, n: nat, day: int)
    requires ValidDate(d) && d.month == 12 && 0 <= d.year < 9999
    requires 1 <= day <= 31 && d.day + n == 31 + day
    ensures AddDays(IsoText(d), n) == Some(IsoText(Date(d.year + 1, 1, day)))
  {
    var e := Date(d.year + 1, 1, day);
    DaysBeforeYearStep(d.year);
    YearLength(d.year);
    ShiftTo(d, n, e);
    AddDaysOfDates(d, n, e);
  }

  lemma AddDaysOfDates(d: Date, n: int, e: Date)
    requires ValidDate(d) && InTextRange(d) && ValidDate(e) && InTextRange(e)
    requires Shift(d, n) == e
    ensures AddDays(IsoText(d), n) == Some(IsoText(e))
  {
    ParseIsoText(d);
  }

  /** A shift is pinned down by the day number it reaches. */
  lemma ShiftTo(d: Date, n: int, e: Date)
    requires ValidDate(d) && ValidDate(e)
    requires DayNumber(e) == DayNumber(d) + n
    ensures Shift(d, n) == e
  {
    DayNumberOrder(Shift(d, n), e);
  }
}
