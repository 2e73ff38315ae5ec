# timeGO dashboard: a Dafny model of `script.js`

`script.js` drives a personal dashboard page: a live 12-hour clock with the
date, a week number and four progress bars (day, week, month, year), a
light/dark theme switch remembered in browser storage, and an inspirational
quote that is fetched from a quotes service and cached for one hour.

This project models the calculations and decisions of that script against a
supplied "now", away from the DOM and the timers:

- `Civil` (civil.dfy): the local clock reading as integer fields (year,
  month 0..11, day, day of year counted from 0, weekday 0..6 with 0 =
  Sunday, hour, minute, second, millisecond). The subset
  type `Instant` holds only real dates: the weekday and day of year are
  those of the proleptic Gregorian calendar.
- `ClockFace` (clock_face.dfy): the `HH:MM:SS AM` time text and the
  `Weekday, Month D, YYYY` date text, with parsers that read both back.
- `WeekNumber` (week_number.dfy): `ceil((daysSinceJan1 + weekdayOfJan1 + 1) / 7)`
  on exact reals, as written (it is not ISO 8601 week numbering).
- `Progress` (progress.dfy): the four progress values as exact rationals.
- `ClockPanel` (clock_panel.dfy): everything one `updateTime` call shows.
- `QuoteCache` (quote_cache.dfy): the cached-quote record, the freshness
  decision, and a class whose methods are `updateQuote` and the completion
  of `fetchQuote`. The request's outcome (a list of quotes, possibly empty,
  or a failure) is an input.
- `Theme` (theme.dfy): a class holding the stored `theme` entry, the page's
  class and the toggle icon, with the load step and the click handler.
- `Wrappers` (wrappers.dfy): the `Option` type.

The current time, the current minute used for the re-check delay, the
time at which a request completes and the request's outcome are all
parameters. Storage starts from a value given to each class's constructor.

## Model

| member | source | states |
|---|---|---|
| `Civil.DaysInMonth` | script.js:106 | a month has 28 to 31 days |
| `Civil.MsSinceYearStart` | script.js:17-18 | `date - new Date(year, 0, 1)` in milliseconds: whole days of the year times a day plus the milliseconds of today; `WeekNumber.PastDaysOfYear` bounds it by the year's length |
| `Civil.Jan1Weekday` | script.js:17-19 | `new Date(year, 0, 1).getDay()` on the proleptic Gregorian day numbering; `Civil.Jan1WeekdayFromInstant` recovers it from any instant of the year |
| `Civil.YearLength` | script.js:112-113 | the year length the source measures, from January 1 to the next January 1, is 366 days exactly in a Gregorian leap year and 365 days otherwise |
| `Civil.MonthsTileYear` | script.js:106 | each month ends where the next one starts, and December ends on the last day of the year |
| `Civil.InstantInRange` | script.js:100-114 | every instant has a weekday in 0..6 and a day of year inside its year |
| `Civil.Jan1WeekdayFromInstant` | script.js:17-19 | the weekday of January 1, rebuilt by the source with `new Date`, is the instant's weekday moved back by its day of year, modulo 7 |
| `Civil.NextDayWeekday` | script.js:100 | consecutive days of one year fall on consecutive weekdays |
| `Civil.SecondOfDay` | script.js:95 | the seconds since midnight lie in [0, 86400) |
| `ClockFace.DecimalString` | script.js:81 | `String(n)` is a non-empty run of digits, one digit exactly below 10, with no leading zero |
| `ClockFace.IntString` | script.js:87 | `String(year)`: a minus sign before the digits of a negative year; `ClockFace.IntRoundTrip` reads it back |
| `ClockFace.DecimalRoundTrip` | script.js:81 | reading the digits of `String(n)` gives back `n` |
| `ClockFace.IntRoundTrip` | script.js:87 | reading `String(year)` gives back the year, negative years too |
| `ClockFace.PadStart` | script.js:81 | `padStart` keeps the text at the end, fills only in front, and reaches the width unless the text is already longer |
| `ClockFace.Pad2` | script.js:81 | `String(n).padStart(2, '0')`; `ClockFace.Pad2Digits` gives its exact two digits below 100 |
| `ClockFace.Pad2Digits` | script.js:81 | below 100, `padStart(2, '0')` gives exactly the tens digit and the units digit, which read back as the number |
| `ClockFace.Hour12` | script.js:77-79 | the shown hour is in 1..12; it is 12 exactly for hours 0 and 12; hours 1..12 show as they are and 13..23 as hour minus 12; with the suffix it gives back the 24-hour value |
| `ClockFace.Meridiem` | script.js:77 | the suffix is `AM` exactly when the hour is below 12, and `PM` otherwise |
| `ClockFace.TimeString` | script.js:74-81 | the `HH:MM:SS AM` text of hour, minute and second; its layout is `ClockFace.TimeStringLayout` and its inverse `ClockFace.TimeRoundTrip` |
| `ClockFace.TimeStringLayout` | script.js:81 | the time text has 11 characters: the two digits of the 12-hour value, a colon, the two minute digits, a colon, the two second digits, a space, then `AM` exactly before noon and `PM` from noon on |
| `ClockFace.TimeRoundTrip` | script.js:74-81 | parsing the time text gives back the 24-hour hour, the minute and the second |
| `ClockFace.DateString` | script.js:85-87 | the `Weekday, Month D, YYYY` text from the two name tables; its inverse is `ClockFace.DateRoundTrip`, and `ClockFace.DateStringInjective` shows no two dates share a text |
| `ClockFace.NamesAreDistinct` | script.js:85-86 | the weekday names are pairwise different and contain no comma; the month names are pairwise different and contain no space |
| `ClockFace.DateRoundTrip` | script.js:85-87 | parsing the date text gives back the weekday, month, day and year |
| `ClockFace.DateStringInjective` | script.js:87 | two instants with the same date text are on the same civil date |
| `ClockFace.NewYear2024Date` | script.js:85-87 | weekday 1, month 0, day 1 of 2024 is printed `Monday, January 1, 2024` |
| `ClockFace.MidnightTime` | script.js:74-81 | hour 0, minute 0, second 0 is printed `12:00:00 AM` |
| `WeekNumber.Ceil` | script.js:19 | `Math.ceil(x)` is the integer `c` with `c - 1 < x <= c` |
| `WeekNumber.PastDaysOfYear` | script.js:17-18 | the days since January 1, fraction included, lie in [0, length of the year) |
| `WeekNumber.WeekNumber` | script.js:16-20 | `getWeekNumber`: `Math.ceil` of (fractional days since January 1 plus January 1's weekday plus 1) over 7; bounded by `WeekNumber.WeekNumberRange`, restated on integers by `WeekNumber.WeekNumberByIntegers`, compared with whole days by `WeekNumber.WeekNumberVersusCalendar` |
| `WeekNumber.WeekNumberRange` | script.js:16-20 | the week number lies in 1..54 |
| `WeekNumber.WeekOneAtYearStart` | script.js:19 | at January 1 midnight the formula gives 1 for every starting weekday 0..6 |
| `WeekNumber.WeekNumberAtJan1Midnight` | script.js:16-19 | any instant at January 1, 00:00:00.000 has week number 1 |
| `WeekNumber.WeekNumberMonotone` | script.js:16-19 | within one year the week number never decreases as time advances |
| `WeekNumber.WeekNumberByIntegers` | script.js:18-19 | the week number equals an integer ceiling division of the milliseconds since January 1, shifted by the weekday of January 1 plus one day, by the milliseconds of a week |
| `WeekNumber.WeekNumberVersusCalendar` | script.js:18-19 | the week number equals the whole-day count, plus one on a Saturday after its first millisecond |
| `WeekNumber.WeekNumberStepsOnSaturday` | script.js:18-19 | around a Saturday the week number steps up during the Saturday and stays the same into the Sunday |
| `WeekNumber.SaturdayShowsNextWeek` | script.js:18-19 | Saturday, January 7, 2023 at noon shows week 2 while the whole-day count is 1 |
| `WeekNumber.CalendarWeekNumber` | script.js:16-19 | the corrected week number, counted in whole days with weeks Sunday to Saturday; its range is `WeekNumber.CalendarWeekNumberRange` and its Sunday step `WeekNumber.CalendarWeekNumberStepsOnSunday` |
| `WeekNumber.CalendarWeekNumberRange` | script.js:16-19 | the whole-day week number lies in 1..54 and is 1 on January 1 |
| `WeekNumber.CalendarWeekNumberStepsOnSunday` | script.js:16-19 | from one day to the next the whole-day week number rises by one exactly when the new day is a Sunday |
| `Progress.DayProgress` | script.js:95 | `(h * 3600 + m * 60 + s) / 86400 * 100`; bounds and the midnight case in `Progress.DayProgressBounds` |
| `Progress.WeekProgress` | script.js:100-101 | the milliseconds since Sunday midnight, seconds only, over the milliseconds of a week, times 100; `Progress.WeekProgressFromDay` relates it to the day bar and bounds it |
| `Progress.MonthProgress` | script.js:106-107 | (days before today plus the fraction of today) over the month's length, times 100; `Progress.MonthProgressFromDay` relates it to the day bar and bounds it |
| `Progress.DayOfYear` | script.js:114 | the floor of the days since January 1 plus the fraction of today in whole seconds; `Progress.DayOfYearWhole` shows the floor is the whole day of year |
| `Progress.YearProgress` | script.js:112-115 | the day of year over the length from January 1 to the next January 1, times 100; `Progress.YearProgressFromDay` and `Progress.YearProgressMonotone` carry its properties |
| `Progress.DayOfYearWhole` | script.js:114 | the floor taken of the days since January 1 is the whole day of year, so the day of year is that plus the fraction of today in whole seconds |
| `Progress.DayProgressBounds` | script.js:95 | day progress lies in [0, 100) and is 0 exactly at 00:00:00 |
| `Progress.WeekProgressFromDay` | script.js:100-101 | week progress is (weekday times 100 plus day progress) over 7, and lies in [0, 100) |
| `Progress.MonthProgressFromDay` | script.js:106-107 | month progress is ((day - 1) times 100 plus day progress) over the month's length, and lies in [0, 100) |
| `Progress.YearProgressFromDay` | script.js:112-115 | year progress is (day of year times 100 plus day progress) over 365 or 366, and lies in [0, 100) |
| `Progress.YearProgressMonotone` | script.js:112-115 | within one year year progress never decreases as time advances |
| `ClockPanel.UpdateTime` | script.js:70-118 | one refresh: the time and date texts parse back to the clock reading, the label is `Week ` followed by the digits of the week number (in 1..54), and all four bars lie in [0, 100) |
| `ClockPanel.NewYear2024IsMonday` | script.js:87 | January 1, 2024 falls on weekday 1, a Monday |
| `ClockPanel.NewYear2024Texts` | script.js:74-87 | at January 1, 2024, 00:00:00 the panel shows `Monday, January 1, 2024` and `12:00:00 AM` |
| `ClockPanel.NewYear2024Week` | script.js:90-92 | at January 1, 2024, 00:00:00.000 the panel shows `Week 1` |
| `ClockPanel.MidnightDayBar` | script.js:94-95 | at 00:00:00 of any day the panel's day bar is 0 |
| `QuoteCache.HoursSinceCached` | script.js:52 | `(now - timestamp) / (1000 * 60 * 60)` as an exact rational; `QuoteCache.Decide` turns the comparison with 1 into a comparison of milliseconds |
| `QuoteCache.Shown` | script.js:29-30 | a quote in quotation marks and its author after an em dash; `QuoteCache.FetchedQuoteIsServed` shows a served record is shown as it was fetched |
| `QuoteCache.Decide` | script.js:50-55 | the cached quote is served exactly when a record is stored and `(now - timestamp) / 3600000 < 1`, that is `now - timestamp < 3600000`; without a record or with a stale one a request is made |
| `QuoteCache.RecheckAtTopOfHour` | script.js:60-61 | when the cache is served, the re-check delay `(60 - minutes) * 60000` lies between 60000 and 3600000 ms, and the current minute's start plus the delay is the next hour's start; the seconds are ignored, so the re-check fires during minute 0 of the next hour, as far past the top of the hour as now is past the start of its minute |
| `QuoteCache.CacheAfterFetch` | script.js:27-38 | the stored record after a request ends: the first quote and the completion time on a non-empty answer, otherwise unchanged; its properties are in `QuoteCache.FetchedQuoteIsServed`, `QuoteCache.EmptyAnswerChangesNothing`, `QuoteCache.FailureRetriesLater` and `QuoteCache.TimestampNonDecreasing` |
| `QuoteCache.DisplayAfterFetch` | script.js:27-43 | the texts after a request ends: the first quote on a non-empty answer, unchanged on an empty one, the William Penn fallback on a failure; see the same lemmas |
| `QuoteCache.FetchedQuoteIsServed` | script.js:27-37 | after a non-empty answer the stored record is served exactly while it is less than an hour old, and is shown exactly as the fetched quote was |
| `QuoteCache.EmptyAnswerChangesNothing` | script.js:27 | an empty answer changes neither the stored record nor the texts shown |
| `QuoteCache.FailureRetriesLater` | script.js:39-43 | a failed request shows the William Penn fallback, stores nothing, and a stale cache stays stale at every later time |
| `QuoteCache.TimestampNonDecreasing` | script.js:33-37 | the stored timestamp never decreases when the fetch time is not before it |
| `QuoteCache.QuoteWidget.constructor` | script.js:47 | the widget starts from the stored record and the texts on the page |
| `QuoteCache.QuoteWidget.UpdateQuote` | script.js:46-68 | returns the decision for the stored record, leaves storage alone, and shows the cached quote exactly when it serves it |
| `QuoteCache.QuoteWidget.FetchQuote` | script.js:22-44 | a non-empty answer overwrites the record with the first quote and the completion time and shows it; an empty answer does nothing; a failure shows the fallback and stores nothing |
| `QuoteCache.Scenarios` | script.js:46-68 | a record 30 minutes old is shown with a re-check in 30 minutes at minute 30; with nothing stored a request is made, and its failure shows the fallback and stores nothing |
| `Theme.SavedTheme` | script.js:5 | with nothing stored (or an empty entry) the theme is `light`; any other stored text is applied as it is |
| `Theme.IconFor` | script.js:7 | the icon is the moon exactly when the class is `light`, the sun otherwise |
| `Theme.HasClass` | script.js:10 | `classList.contains`: the token stands in the class text, delimited by whitespace or the ends; used by `Theme.ToggleFlips` |
| `Theme.Toggled` | script.js:10 | the class a click switches to; `Theme.ToggleFlips`, `Theme.ToggleTwice` and `Theme.ToggleSurvivesReload` carry its properties |
| `Theme.ToggleFlips` | script.js:10 | a click lands on `light` or `dark`, turning `light` into `dark` and `dark` into `light` |
| `Theme.ToggleTwice` | script.js:9-14 | two clicks restore the theme and the icon; by `Theme.ThemeToggle.Click` the entry then holds the original class, which equals the original entry only once a theme has been stored (from an empty entry two clicks leave `light` stored) |
| `Theme.ToggleSurvivesReload` | script.js:5-13 | the value a click stores is the theme the next page load applies |
| `Theme.ThemeToggle.Load` | script.js:4-7 | page load applies the stored theme (default `light`) and the matching icon |
| `Theme.ThemeToggle.Click` | script.js:9-14 | a click applies the toggled class, sets the matching icon and stores the new class |
| `Theme.Scenario` | script.js:4-14 | with nothing stored the page loads light with the moon; a click gives dark with the sun and stores `dark`; a second click gives light again; a reload applies the stored theme and icon |

## Left out

- DOM writes (`textContent`, `style.width`, `body.className`) are modelled as returned values or fields; `console.error` is left out, it only logs.
- `localStorage` is modelled as one field per key; `JSON.stringify` and `JSON.parse` are left out, and a stored record is assumed well formed.
- `fetch` and `response.json()` are network input: the outcome is a parameter. A `null` body behaves like an empty list (`data && data.length > 0` is false for both); a non-array body or a quote without `q`/`a` fields is not modelled.
- The async request runs on after `updateQuote` returns; the model makes its completion a separate call (`FetchQuote`) with its own time. Several requests in flight are possible in the source; the model lets their completions be applied in any order but does not track them.
- `setInterval` and `setTimeout` (script.js:61, 121-128) are timer plumbing; only the one-shot delay is computed.
- `toFixed(1)` texts and the `'%'` widths are floating-point formatting; the progress values are exact rationals instead.
- JavaScript `Date` construction, time zones and daylight saving time: the civil fields are given, and the milliseconds since January 1 in `getWeekNumber` (script.js:18), the year length and the day-of-year floor (script.js:113-114) are taken without a daylight-saving shift between January 1 and now; under summer time the source's differences are one hour short, so its Saturday step of the week number comes at 01:00:00.001 instead of 00:00:00.001.
- `new Date(y, 0, 1)` maps years 0..99 to 1900..1999; the model uses the year itself for January 1 and for month and year lengths.
- The minute of the re-check delay comes from a second `new Date()` at script.js:60; it is the parameter `minute` of `UpdateQuote`.

## Findings

| source | as written | input that shows it | evidently intended | confidence | as-written member | corrected member |
|---|---|---|---|---|---|---|
| script.js:18-19 | the days since January 1 keep the fraction of the current day, so the ceiling steps up at the first millisecond of every Saturday | Saturday, January 7, 2023 at 12:00 (January 1, 2023 was a Sunday) shows `Week 2`, one day before the week starting Sunday, January 8 | weeks counted in whole days, running Sunday to Saturday | medium, not executed | `WeekNumber.SaturdayShowsNextWeek` | `WeekNumber.CalendarWeekNumberStepsOnSunday` |

The panel (`ClockPanel.UpdateTime`) shows the week number as the source
computes it; `WeekNumber.CalendarWeekNumber` is the whole-day count, and
`WeekNumber.WeekNumberVersusCalendar` states exactly where the two differ.
