/** The calendar fields that a JavaScript `Date` exposes for the local "now",
    and the proleptic Gregorian rules that tie them to one another. */
module Civil {

  const MsPerSecond := 1000
  const SecondsPerDay := 86400
  const MsPerDay := 86400000
  const MsPerWeek := 604800000

  predicate IsLeapYear(y: int) {
    y % 4 == 0 && (y % 100 != 0 || y % 400 == 0)
  }

  function DaysInYear(y: int): int {
    if IsLeapYear(y) then 366 else 365
  }

  /** Length of month `m` (0 = January), what `new Date(y, m + 1, 0).getDate()` yields. */
  function DaysInMonth(y: int, m: int): (n: int)
    requires 0 <= m < 12
    ensures 28 <= n <= 31
  {
    if m == 1 then (if IsLeapYear(y) then 29 else 28)
    else if m == 3 || m == 5 || m == 8 || m == 10 then 30
    else 31
  }

  /** Days of year `y` that lie before the first of month `m`. */
  function DaysBeforeMonth(y: int, m: int): int
    requires 0 <= m < 12
  {
    [0, 31, 59, 90, 120, 151, 181, 212, 243, 273, 304, 334][m]
      + (if m >= 2 && IsLeapYear(y) then 1 else 0)
  }

  /** Days from January 1 of year 1 to January 1 of year `y` (Dafny's `/` floors
      for a positive divisor, so this also holds for years before 1). */
  function DaysBeforeYear(y: int): int {
    365 * (y - 1) + (y - 1) / 4 - (y - 1) / 100 + (y - 1) / 400
  }

  /** Consecutive numbering of civil days; day 0 is January 1 of year 1. */
  function DayNumber(y: int, m: int, d: int): int
    requires 0 <= m < 12
  {
    DaysBeforeYear(y) + DaysBeforeMonth(y, m) + d - 1
  }

  /** `Date.prototype.getDay` of a day number: 0 = Sunday; day 0 was a Monday. */
  function WeekdayOf(n: int): int {
    (n + 1) % 7
  }

  /** The raw fields of one reading of the local clock. `yearDay` counts whole
      days since January 1 (0 on January 1). */
  datatype Fields = Fields(
    year: int, month: int, day: int, yearDay: int, weekday: int,
    hour: int, minute: int, second: int, millisecond: int)

  /** The fields of a real local date: each within its range, and the day of
      year and the weekday those of the civil date. */
  predicate Consistent(f: Fields) {
    && 0 <= f.month < 12
    && 1 <= f.day <= DaysInMonth(f.year, f.month)
    && f.yearDay == DaysBeforeMonth(f.year, f.month) + f.day - 1
    && f.weekday == WeekdayOf(DayNumber(f.year, f.month, f.day))
    && 0 <= f.hour < 24
    && 0 <= f.minute < 60
    && 0 <= f.second < 60
    && 0 <= f.millisecond < 1000
  }

  /** A supplied "now". The witness is 1970-01-01 00:00:00.000, a Thursday. */
  type Instant = f: Fields | Consistent(f)
    witness Fields(1970, 0, 1, 0, 4, 0, 0, 0, 0)

  /** Whole seconds since local midnight, as the progress bars count them. */
  function SecondOfDay(t: Instant): (s: int)
    ensures 0 <= s < SecondsPerDay
  {
    t.hour * 3600 + t.minute * 60 + t.second
  }

  /** Milliseconds since local midnight. */
  function MsOfDay(t: Instant): (ms: int)
    ensures 0 <= ms < MsPerDay
  {
    SecondOfDay(t) * MsPerSecond + t.millisecond
  }

  /** `date - new Date(date.getFullYear(), 0, 1)` in milliseconds. */
  function MsSinceYearStart(t: Instant): int {
    t.yearDay * MsPerDay + MsOfDay(t)
  }

  /** `new Date(y, 0, 1).getDay()`. */
  function Jan1Weekday(y: int): int {
    WeekdayOf(DayNumber(y, 0, 1))
  }

  /** The source's year length, `(new Date(y + 1, 0, 1) - new Date(y, 0, 1)) / 86400000`,
      is 366 days exactly in a Gregorian leap year and 365 days otherwise. */
  lemma YearLength(y: int)
    ensures DayNumber(y + 1, 0, 1) - DayNumber(y, 0, 1) == DaysInYear(y)
    ensures DaysInYear(y) == 366 <==> IsLeapYear(y)
  {
    var a := y - 1;
    assert DayNumber(y + 1, 0, 1) == DaysBeforeYear(y + 1);
    assert DayNumber(y, 0, 1) == DaysBeforeYear(y);
    assert DaysBeforeYear(y + 1) - DaysBeforeYear(y)
        == 365 + ((a + 1) / 4 - a / 4) - ((a + 1) / 100 - a / 100) + ((a + 1) / 400 - a / 400);
    DivStep(a, 4);
    DivStep(a, 100);
    DivStep(a, 400);
    CenturiesNest(y);
  }

  /** A multiple of 400 is a multiple of 100, and a multiple of 100 one of 4. */
  lemma CenturiesNest(y: int)
    ensures y % 400 == 0 ==> y % 100 == 0
    ensures y % 100 == 0 ==> y % 4 == 0
  {
    var q, c := y / 400, y / 100;
    assert y == 400 * q + y % 400;
    assert y == 100 * c + y % 100;
    if y % 400 == 0 {
      assert y == 100 * (4 * q) + 0;
    }
    if y % 100 == 0 {
      assert y == 4 * (25 * c) + 0;
    }
  }

  /** Moving one past `a` raises `a / d` by one exactly when it reaches a
      multiple of `d`, for the divisors of the leap-year rule. */
  lemma DivStep(a: int, d: int)
    requires d == 4 || d == 100 || d == 400
    ensures (a + 1) / d - a / d == if (a + 1) % d == 0 then 1 else 0
  {
    if d == 4 {
      assert (a + 1) / 4 - a / 4 == if (a + 1) % 4 == 0 then 1 else 0;
    } else if d == 100 {
      assert (a + 1) / 100 - a / 100 == if (a + 1) % 100 == 0 then 1 else 0;
    } else {
      assert (a + 1) / 400 - a / 400 == if (a + 1) % 400 == 0 then 1 else 0;
    }
  }

  /** The months of a year tile it: month `m` ends where month `m + 1` starts,
      and December ends on the last day of the year. */
  lemma MonthsTileYear(y: int, m: int)
    requires 0 <= m < 12
    ensures DaysBeforeMonth(y, m) + DaysInMonth(y, m)
         == if m == 11 then DaysInYear(y) else DaysBeforeMonth(y, m + 1)
  {
  }

  /** Every instant lies inside its year and its week. */
  lemma InstantInRange(t: Instant)
    ensures 0 <= t.weekday < 7
    ensures 0 <= t.yearDay < DaysInYear(t.year)
  {
    MonthsTileYear(t.year, t.month);
    if t.month < 11 {
      assert DaysBeforeMonth(t.year, t.month + 1) <= DaysBeforeMonth(t.year, 11);
      MonthsTileYear(t.year, 11);
    }
  }

  /** The weekday of January 1, which the source rebuilds with `new Date`, is
      determined by the instant's own weekday and day of year. */
  lemma Jan1WeekdayFromInstant(t: Instant)
    ensures Jan1Weekday(t.year) == (t.weekday - t.yearDay) % 7
    ensures (t.yearDay + Jan1Weekday(t.year)) % 7 == t.weekday
  {
    var n := DayNumber(t.year, 0, 1);
    assert DayNumber(t.year, t.month, t.day) == n + t.yearDay;
    ModSevenShift(n + 1, t.yearDay);
  }

  /** Shifting by `k` days and back leaves a weekday unchanged. */
  lemma ModSevenShift(a: int, k: int)
    ensures ((a + k) % 7 - k) % 7 == a % 7
    ensures (k + a % 7) % 7 == (a + k) % 7
  {
    var q := a / 7;
    var r := a % 7;
    assert a == 7 * q + r;
    var q2 := (a + k) / 7;
    assert (a + k) % 7 == a + k - 7 * q2;
    assert ((a + k) % 7 - k) == r + 7 * (q - q2);
  }

  /** Two instants of one year whose days of year are consecutive are on
      consecutive weekdays. */
  lemma NextDayWeekday(a: Instant, b: Instant)
    requires a.year == b.year && b.yearDay == a.yearDay + 1
    ensures b.weekday == (a.weekday + 1) % 7
  {
    Jan1WeekdayFromInstant(a);
    Jan1WeekdayFromInstant(b);
  }
}
