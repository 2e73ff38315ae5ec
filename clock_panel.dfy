/** Everything `updateTime` writes to the page for one supplied "now":
    the time and date texts, the `Week N` week label and the four progress values. */
module ClockPanel {
  import opened Wrappers
  import opened Civil
  import opened ClockFace
  import WeekNumber
  import Progress

  datatype Panel = Panel(
    time: string, date: string, weekLabel: string,
    dayProgress: real, weekProgress: real, monthProgress: real, yearProgress: real)

  /** One refresh of the clock panel. Each text reads back as the clock
      reading it came from, the week label carries a week number in 1..54, and
      every bar lies in [0, 100). */
  function UpdateTime(t: Instant): (p: Panel)
    ensures ParseTime(p.time) == Some(ClockReading(t.hour, t.minute, t.second))
    ensures ParseDate(p.date) == Some(DateReading(t.weekday, t.month, t.day, t.year))
    ensures |p.weekLabel| > 5 && p.weekLabel[..5] == "Week " && AllDigits(p.weekLabel[5..])
    ensures DigitsValue(p.weekLabel[5..]) == WeekNumber.WeekNumber(t)
    ensures 1 <= DigitsValue(p.weekLabel[5..]) <= 54
    ensures 0.0 <= p.dayProgress < 100.0 && 0.0 <= p.weekProgress < 100.0
    ensures 0.0 <= p.monthProgress < 100.0 && 0.0 <= p.yearProgress < 100.0
  {
    InstantInRange(t);
    TimeRoundTrip(t.hour, t.minute, t.second);
    DateRoundTrip(t.weekday, t.month, t.day, t.year);
    WeekNumber.WeekNumberRange(t);
    var weekNum := WeekNumber.WeekNumber(t);
    DecimalRoundTrip(weekNum);
    var weekText := "Week " + DecimalString(weekNum);
    assert weekText[5..] == DecimalString(weekNum);
    Progress.DayProgressBounds(t);
    Progress.WeekProgressFromDay(t);
    Progress.MonthProgressFromDay(t);
    Progress.YearProgressFromDay(t);
    Panel(TimeString(t.hour, t.minute, t.second), DateString(t.weekday, t.month, t.day, t.year), weekText,
          Progress.DayProgress(t), Progress.WeekProgress(t),
          Progress.MonthProgress(t), Progress.YearProgress(t))
  }

  /** January 1, 2024 was a Monday. */
  lemma NewYear2024IsMonday(t: Instant)
    requires t.year == 2024 && t.month == 0 && t.day == 1
    ensures t.weekday == 1
  {
    assert DaysBeforeYear(2024) == 738885;
    assert DayNumber(2024, 0, 1) == 738885;
  }

  /** January 1, 2024 at midnight is shown as `Monday, January 1, 2024` and
      `12:00:00 AM`. */
  lemma NewYear2024Texts(t: Instant)
    requires t.year == 2024 && t.month == 0 && t.day == 1
    requires t.hour == 0 && t.minute == 0 && t.second == 0
    ensures UpdateTime(t).date == "Monday, January 1, 2024"
    ensures UpdateTime(t).time == "12:00:00 AM"
  {
    NewYear2024IsMonday(t);
    NewYear2024Date();
    MidnightTime();
  }

  /** January 1, 2024 at midnight shows `Week 1`. */
  lemma NewYear2024Week(t: Instant)
    requires t.year == 2024 && t.month == 0 && t.day == 1
    requires t.hour == 0 && t.minute == 0 && t.second == 0 && t.millisecond == 0
    ensures UpdateTime(t).weekLabel == "Week 1"
  {
    WeekLabelOf(t);
    assert t.yearDay == 0 && MsOfDay(t) == 0;
    WeekNumber.WeekNumberAtJan1Midnight(t);
    WeekOneText();
  }

  lemma WeekOneText()
    ensures "Week " + DecimalString(1) == "Week 1"
  {
    DecimalString2024();
  }

  /** The label is `Week ` and the decimal digits of the source's week number. */
  lemma WeekLabelOf(t: Instant)
    ensures UpdateTime(t).weekLabel == "Week " + DecimalString(WeekNumber.WeekNumber(t))
  {
  }

  /** At midnight the day bar is empty. */
  lemma MidnightDayBar(t: Instant)
    requires t.hour == 0 && t.minute == 0 && t.second == 0
    ensures UpdateTime(t).dayProgress == 0.0
  {
    Progress.DayProgressBounds(t);
  }
}
