/** The four progress bars of the clock panel (script.js, `updateTime`):
    the completed share of the current day, week, month and year, in
    percent, as exact rationals. */
module Progress {
  import opened Civil

  /** Share of the day elapsed, from the whole seconds since midnight. */
  function DayProgress(t: Instant): real {
    (SecondOfDay(t) as real / SecondsPerDay as real) * 100.0
  }

  /** Share of the week elapsed; the week starts on Sunday (`getDay() == 0`). */
  function WeekProgress(t: Instant): real {
    ((t.weekday * MsPerDay + t.hour * 3600000 + t.minute * 60000 + t.second * 1000) as real
      / MsPerWeek as real) * 100.0
  }

  /** Share of the month elapsed: whole days before today plus the fraction of today. */
  function MonthProgress(t: Instant): real {
    (((t.day - 1) as real + SecondOfDay(t) as real / SecondsPerDay as real)
      / DaysInMonth(t.year, t.month) as real) * 100.0
  }

  /** The source's day of year: the floor of the days since January 1 plus the
      fraction of today kept in whole seconds. */
  function DayOfYear(t: Instant): real {
    (MsSinceYearStart(t) as real / MsPerDay as real).Floor as real
      + SecondOfDay(t) as real / SecondsPerDay as real
  }

  /** Share of the year elapsed, over the year's length measured as the source
      does, from January 1 of this year to January 1 of the next. */
  function YearProgress(t: Instant): real {
    YearLength(t.year);
    (DayOfYear(t) / (DayNumber(t.year + 1, 0, 1) - DayNumber(t.year, 0, 1)) as real) * 100.0
  }

  /** The floor in the day of year drops exactly the milliseconds of today. */
  lemma DayOfYearWhole(t: Instant)
    ensures DayOfYear(t) == t.yearDay as real + SecondOfDay(t) as real / SecondsPerDay as real
  {
    var x := MsSinceYearStart(t) as real / MsPerDay as real;
    var f := MsOfDay(t) as real / MsPerDay as real;
    assert x == t.yearDay as real + f;
    assert 0.0 <= f < 1.0;
    FloorUnique(x, t.yearDay);
  }

  lemma FloorUnique(x: real, k: int)
    requires k as real <= x < k as real + 1.0
    ensures x.Floor == k
  {
  }

  /** The day bar is zero exactly at midnight and below 100 at every instant. */
  lemma DayProgressBounds(t: Instant)
    ensures 0.0 <= DayProgress(t) < 100.0
    ensures DayProgress(t) == 0.0 <==> t.hour == 0 && t.minute == 0 && t.second == 0
  {
  }

  /** The week bar is the whole days of the week plus the day bar, over seven. */
  lemma WeekProgressFromDay(t: Instant)
    ensures WeekProgress(t) == (t.weekday as real * 100.0 + DayProgress(t)) / 7.0
    ensures 0.0 <= WeekProgress(t) < 100.0
  {
    InstantInRange(t);
  }

  /** `k` whole units and a fraction `f` of the next, out of `n`, in percent. */
  lemma PercentOfWhole(k: int, f: real, n: int)
    requires 0 <= k < n && 0.0 <= f < 1.0
    ensures ((k as real + f) / n as real) * 100.0 == (k as real * 100.0 + f * 100.0) / n as real
    ensures 0.0 <= ((k as real + f) / n as real) * 100.0 < 100.0
  {
    var x, m := k as real + f, n as real;
    var q := x / m;
    assert q * m == x;
    assert (1.0 - q) * m == m - x;
    assert 1.0 - q > 0.0;
    assert q * 100.0 == (x * 100.0) / m;
  }

  /** The month bar is the whole days of the month plus the day bar, over the
      month's length; it stays below 100 because today is at most the last day. */
  lemma MonthProgressFromDay(t: Instant)
    ensures MonthProgress(t) == ((t.day - 1) as real * 100.0 + DayProgress(t)) / DaysInMonth(t.year, t.month) as real
    ensures 0.0 <= MonthProgress(t) < 100.0
  {
    var f := SecondOfDay(t) as real / SecondsPerDay as real;
    assert DayProgress(t) == f * 100.0;
    PercentOfWhole(t.day - 1, f, DaysInMonth(t.year, t.month));
  }

  /** The year bar is the whole days of the year plus the day bar, over 365
      or 366; it stays below 100 because today lies inside the year. */
  lemma YearProgressFromDay(t: Instant)
    ensures YearProgress(t) == (t.yearDay as real * 100.0 + DayProgress(t)) / DaysInYear(t.year) as real
    ensures 0.0 <= YearProgress(t) < 100.0
  {
    InstantInRange(t);
    YearLength(t.year);
    DayOfYearWhole(t);
    var f := SecondOfDay(t) as real / SecondsPerDay as real;
    assert DayProgress(t) == f * 100.0;
    assert YearProgress(t) == ((t.yearDay as real + f) / DaysInYear(t.year) as real) * 100.0;
    PercentOfWhole(t.yearDay, f, DaysInYear(t.year));
  }

  /** Within one year the year bar never moves backwards. */
  lemma YearProgressMonotone(a: Instant, b: Instant)
    requires a.year == b.year
    requires a.yearDay < b.yearDay || (a.yearDay == b.yearDay && SecondOfDay(a) <= SecondOfDay(b))
    ensures YearProgress(a) <= YearProgress(b)
  {
    YearProgressFromDay(a);
    YearProgressFromDay(b);
    var fa := SecondOfDay(a) as real / SecondsPerDay as real;
    var fb := SecondOfDay(b) as real / SecondsPerDay as real;
    assert a.yearDay as real + fa <= b.yearDay as real + fb;
  }
}
