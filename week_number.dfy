/** The week number of the clock panel (script.js, `getWeekNumber`):
    `ceil((daysSinceJan1 + weekdayOfJan1 + 1) / 7)`, where the days since
    January 1 keep the fraction of the current day. This is not ISO 8601
    week numbering; it is modelled as written, on exact reals. */
module WeekNumber {
  import opened Civil

  /** `Math.ceil` on an exact real. */
  function Ceil(x: real): (c: int)
    ensures c as real - 1.0 < x <= c as real
  {
    -((-x).Floor)
  }

  /** The ceiling is the one integer `k` with `k - 1 < x <= k`. */
  lemma CeilUnique(x: real, k: int)
    requires k as real - 1.0 < x <= k as real
    ensures Ceil(x) == k
  {
  }

  lemma CeilMonotone(x: real, y: real)
    requires x <= y
    ensures Ceil(x) <= Ceil(y)
  {
  }

  /** `(date - firstDayOfYear) / 86400000`: whole and fractional days since
      local midnight of January 1. */
  function PastDaysOfYear(t: Instant): (d: real)
    ensures 0.0 <= d < DaysInYear(t.year) as real
  {
    InstantInRange(t);
    MsSinceYearStart(t) as real / MsPerDay as real
  }

  /** The week number as the source computes it. */
  function WeekNumber(t: Instant): int {
    Ceil((PastDaysOfYear(t) + Jan1Weekday(t.year) as real + 1.0) / 7.0)
  }

  /** The week number is at least 1 and, since a year has at most 366 days
      and January 1 is at most a Saturday, at most 54. */
  lemma WeekNumberRange(t: Instant)
    ensures 1 <= WeekNumber(t) <= 54
  {
    var x := (PastDaysOfYear(t) + Jan1Weekday(t.year) as real + 1.0) / 7.0;
    assert 0.0 < x < 54.0;
  }

  /** At January 1 midnight the formula gives week 1 whatever weekday the year starts on. */
  lemma WeekOneAtYearStart(w: int)
    requires 0 <= w < 7
    ensures Ceil((0.0 + w as real + 1.0) / 7.0) == 1
  {
    CeilUnique((0.0 + w as real + 1.0) / 7.0, 1);
  }

  lemma WeekNumberAtJan1Midnight(t: Instant)
    requires t.yearDay == 0 && MsOfDay(t) == 0
    ensures WeekNumber(t) == 1
  {
    assert PastDaysOfYear(t) == 0.0;
    WeekOneAtYearStart(Jan1Weekday(t.year));
  }

  /** Within one year the week number never decreases as time advances. */
  lemma WeekNumberMonotone(a: Instant, b: Instant)
    requires a.year == b.year && MsSinceYearStart(a) <= MsSinceYearStart(b)
    ensures WeekNumber(a) <= WeekNumber(b)
  {
    var w := Jan1Weekday(a.year) as real;
    assert PastDaysOfYear(a) <= PastDaysOfYear(b);
    CeilMonotone((PastDaysOfYear(a) + w + 1.0) / 7.0, (PastDaysOfYear(b) + w + 1.0) / 7.0);
  }

  /** An independent integer statement of the same formula: a ceiling
      division of milliseconds by the length of a week. */
  lemma WeekNumberByIntegers(t: Instant)
    ensures var n := MsSinceYearStart(t) + (Jan1Weekday(t.year) + 1) * MsPerDay;
      WeekNumber(t) == (n + MsPerWeek - 1) / MsPerWeek
  {
    var n := MsSinceYearStart(t) + (Jan1Weekday(t.year) + 1) * MsPerDay;
    var q := (n + MsPerWeek - 1) / MsPerWeek;
    var x := (PastDaysOfYear(t) + Jan1Weekday(t.year) as real + 1.0) / 7.0;
    assert x == n as real / MsPerWeek as real;
    assert (q - 1) * MsPerWeek < n <= q * MsPerWeek;
    assert (q - 1) as real * MsPerWeek as real < n as real <= q as real * MsPerWeek as real;
    CeilUnique(x, q);
  }

  // -------------------------------------------------- counted in whole days

  /** Week number counted in whole days: weeks run Sunday to Saturday and
      week 1 is the (possibly partial) week holding January 1. */
  function CalendarWeekNumber(t: Instant): int {
    (t.yearDay + Jan1Weekday(t.year)) / 7 + 1
  }

  lemma CalendarWeekNumberRange(t: Instant)
    ensures 1 <= CalendarWeekNumber(t) <= 54
    ensures t.yearDay == 0 ==> CalendarWeekNumber(t) == 1
  {
    InstantInRange(t);
  }

  /** From one day to the next in the same year, the whole-day week number
      steps up by one exactly when the new day is a Sunday, and stays
      otherwise. */
  lemma CalendarWeekNumberStepsOnSunday(a: Instant, b: Instant)
    requires a.year == b.year && b.yearDay == a.yearDay + 1
    ensures CalendarWeekNumber(b) == CalendarWeekNumber(a) + (if b.weekday == 0 then 1 else 0)
  {
    Jan1WeekdayFromInstant(a);
    Jan1WeekdayFromInstant(b);
    var n := a.yearDay + Jan1Weekday(a.year);
    assert n % 7 == a.weekday;
    assert b.weekday == (n + 1) % 7;
  }

  /** The source's fractional days make its week number run one ahead of
      the whole-day count on every Saturday after its first millisecond, and
      agree with it at every other instant. */
  lemma WeekNumberVersusCalendar(t: Instant)
    ensures WeekNumber(t) == CalendarWeekNumber(t) + (if t.weekday == 6 && MsOfDay(t) > 0 then 1 else 0)
  {
    Jan1WeekdayFromInstant(t);
    var n := t.yearDay + Jan1Weekday(t.year);
    var q := n / 7;
    assert n == 7 * q + t.weekday;
    var f := MsOfDay(t) as real / MsPerDay as real;
    assert 0.0 <= f < 1.0;
    var x := (PastDaysOfYear(t) + Jan1Weekday(t.year) as real + 1.0) / 7.0;
    assert x == (7 * q) as real / 7.0 + (t.weekday as real + 1.0 + f) / 7.0;
    if t.weekday == 6 && MsOfDay(t) > 0 {
      assert f > 0.0;
      CeilUnique(x, q + 2);
    } else {
      assert t.weekday as real + 1.0 + f <= 7.0;
      CeilUnique(x, q + 1);
    }
  }

  /** The whole-day count and the source's count around one Saturday: the
      source's number already steps up during the Saturday (after its first
      millisecond), one day before the whole-day count does. */
  lemma WeekNumberStepsOnSaturday(fri: Instant, sat: Instant, sun: Instant)
    requires fri.year == sat.year == sun.year
    requires sat.yearDay == fri.yearDay + 1 && sun.yearDay == sat.yearDay + 1
    requires sat.weekday == 6 && MsOfDay(sat) > 0
    ensures WeekNumber(sat) == WeekNumber(fri) + 1
    ensures WeekNumber(sun) == WeekNumber(sat)
    ensures CalendarWeekNumber(sat) == CalendarWeekNumber(fri)
  {
    NextDayWeekday(fri, sat);
    NextDayWeekday(sat, sun);
    CalendarWeekNumberStepsOnSunday(fri, sat);
    CalendarWeekNumberStepsOnSunday(sat, sun);
    WeekNumberVersusCalendar(fri);
    WeekNumberVersusCalendar(sat);
    WeekNumberVersusCalendar(sun);
  }

  /** Saturday, January 7, 2023 at noon: January 1, 2023 was a Sunday, so the
      whole-day count says week 1 while the source shows week 2. */
  lemma SaturdayShowsNextWeek(t: Instant)
    requires t.year == 2023 && t.month == 0 && t.day == 7
    requires t.hour == 12 && t.minute == 0 && t.second == 0 && t.millisecond == 0
    ensures t.weekday == 6
    ensures WeekNumber(t) == 2
    ensures CalendarWeekNumber(t) == 1
  {
    assert DaysBeforeYear(2023) == 738520;
    assert Jan1Weekday(2023) == 0;
    WeekNumberVersusCalendar(t);
  }
}
