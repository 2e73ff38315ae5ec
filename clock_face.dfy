/** The time and date texts of the clock panel (script.js, `updateTime`): a
    zero-padded 12-hour `HH:MM:SS AM` string and `Weekday, Month D, YYYY`.
    Each text has a parser beside it, and the round-trip lemmas show the text
    determines the clock reading it was built from. */
module ClockFace {
  import opened Wrappers

  // ---------------------------------------------------------------- digits

  predicate IsDigit(c: char) {
    '0' <= c <= '9'
  }

  function Digit(d: int): (c: char)
    requires 0 <= d < 10
    ensures IsDigit(c) && DigitValue(c) == d
  {
    (('0' as int) + d) as char
  }

  function DigitValue(c: char): (d: int)
    requires IsDigit(c)
    ensures 0 <= d < 10
  {
    (c as int) - ('0' as int)
  }

  predicate AllDigits(s: string) {
    forall i :: 0 <= i < |s| ==> IsDigit(s[i])
  }

  /** `String(n)` for a non-negative integer: decimal, no leading zero. */
  function DecimalString(n: nat): (s: string)
    ensures 1 <= |s|
    ensures AllDigits(s)
    ensures |s| == 1 <==> n < 10
    ensures s[0] == '0' ==> n == 0
  {
    if n < 10 then [Digit(n)] else DecimalString(n / 10) + [Digit(n % 10)]
  }

  /** Reads a string of decimal digits back as a number. */
  function DigitsValue(s: string): (n: nat)
    requires AllDigits(s)
  {
    if s == [] then 0 else DigitsValue(s[..|s| - 1]) * 10 + DigitValue(s[|s| - 1])
  }

  lemma {:induction false} DecimalRoundTrip(n: nat)
    ensures DigitsValue(DecimalString(n)) == n
  {
    if n >= 10 {
      var s := DecimalString(n);
      assert s[..|s| - 1] == DecimalString(n / 10);
      DecimalRoundTrip(n / 10);
    }
  }

  /** `String(i)` for any integer: a minus sign before the digits of `-i`. */
  function IntString(i: int): string {
    if i < 0 then "-" + DecimalString(-i) else DecimalString(i)
  }

  /** Parses what `IntString` prints; `None` for anything else. */
  function ParseInt(s: string): Option<int> {
    if |s| > 0 && s[0] == '-' then
      (if |s| > 1 && AllDigits(s[1..]) then Some(0 - DigitsValue(s[1..]) as int) else None)
    else if |s| > 0 && AllDigits(s) then Some(DigitsValue(s))
    else None
  }

  lemma IntRoundTrip(i: int)
    ensures ParseInt(IntString(i)) == Some(i)
  {
    if i < 0 {
      var d := DecimalString(-i);
      var s := "-" + d;
      assert s[0] == '-' && s[1..] == d;
      DecimalRoundTrip(-i);
      assert ParseInt(s) == Some(0 - DigitsValue(d) as int);
    } else {
      var d := DecimalString(i);
      assert d[0] != '-' by { assert IsDigit(d[0]); }
      DecimalRoundTrip(i);
    }
  }

  /** `s.padStart(width, fill)` with a one-character fill. */
  function PadStart(s: string, width: nat, fill: char): (r: string)
    ensures |r| == if |s| >= width then |s| else width
    ensures r[|r| - |s|..] == s
    ensures forall i :: 0 <= i < |r| - |s| ==> r[i] == fill
  {
    if |s| >= width then s else seq(width - |s|, _ => fill) + s
  }

  /** `String(n).padStart(2, '0')`. */
  function Pad2(n: nat): string {
    PadStart(DecimalString(n), 2, '0')
  }

  lemma TwoDigitsValue(a: char, b: char)
    requires IsDigit(a) && IsDigit(b)
    ensures DigitsValue([a, b]) == DigitValue(a) * 10 + DigitValue(b)
  {
    assert [a, b][..1] == [a];
    assert [a][..0] == [];
    assert DigitsValue([a]) == DigitValue(a);
    assert DigitsValue([a, b]) == DigitsValue([a]) * 10 + DigitValue(b);
  }

  /** Below 100 the padded text is exactly the tens digit and the units digit. */
  lemma Pad2Digits(n: nat)
    requires n < 100
    ensures Pad2(n) == [Digit(n / 10), Digit(n % 10)]
    ensures DigitsValue(Pad2(n)) == n
  {
    var t, u := Digit(n / 10), Digit(n % 10);
    if n < 10 {
      assert DecimalString(n) == [u];
      assert t == '0';
      assert PadStart([u], 2, '0') == ['0'] + [u];
    } else {
      assert DecimalString(n / 10) == [t];
      assert DecimalString(n) == [t] + [u];
    }
    TwoDigitsValue(t, u);
  }

  // ---------------------------------------------------------------- time

  /** The displayed hour: `hours % 12`, with 0 shown as 12. It is always in
      1..12, and together with the AM/PM suffix it gives back the 24-hour value. */
  function Hour12(hour: int): (h: int)
    requires 0 <= hour < 24
    ensures 1 <= h <= 12
    ensures h == 12 <==> hour == 0 || hour == 12
    ensures 1 <= hour <= 12 ==> h == hour
    ensures 13 <= hour ==> h == hour - 12
    ensures To24(h, hour >= 12) == hour
  {
    var h := hour % 12;
    if h != 0 then h else 12
  }

  /** The suffix: `PM` from noon on. */
  function Meridiem(hour: int): (s: string)
    ensures s == "AM" <==> hour < 12
    ensures s == "AM" || s == "PM"
  {
    if hour >= 12 then "PM" else "AM"
  }

  /** The 24-hour value of a 12-hour reading: the inverse of `Hour12`. */
  function To24(h12: int, pm: bool): int {
    h12 % 12 + (if pm then 12 else 0)
  }

  /** `HH:MM:SS AM`, each field zero-padded to two digits. */
  function TimeString(hour: int, minute: int, second: int): string
    requires 0 <= hour < 24 && 0 <= minute < 60 && 0 <= second < 60
  {
    Pad2(Hour12(hour)) + ":" + Pad2(minute) + ":" + Pad2(second) + " " + Meridiem(hour)
  }

  /** A 24-hour clock reading recovered from a time text. */
  datatype ClockReading = ClockReading(hour: int, minute: int, second: int)

  function TwoDigitsAt(s: string, i: nat): int
    requires i + 2 <= |s| && IsDigit(s[i]) && IsDigit(s[i + 1])
  {
    DigitValue(s[i]) * 10 + DigitValue(s[i + 1])
  }

  /** Reads an `HH:MM:SS AM` text back as a 24-hour reading. */
  function ParseTime(s: string): Option<ClockReading> {
    if |s| == 11 && s[2] == ':' && s[5] == ':' && s[8] == ' '
       && IsDigit(s[0]) && IsDigit(s[1]) && IsDigit(s[3]) && IsDigit(s[4])
       && IsDigit(s[6]) && IsDigit(s[7]) && (s[9..] == "AM" || s[9..] == "PM")
    then Some(ClockReading(To24(TwoDigitsAt(s, 0), s[9..] == "PM"), TwoDigitsAt(s, 3), TwoDigitsAt(s, 6)))
    else None
  }

  /** The nine characters before the suffix. */
  function ClockDigits(h: int, minute: int, second: int): string
    requires 0 <= h < 100 && 0 <= minute < 60 && 0 <= second < 60
  {
    [Digit(h / 10), Digit(h % 10), ':', Digit(minute / 10), Digit(minute % 10), ':',
     Digit(second / 10), Digit(second % 10), ' ']
  }

  /** Three two-character fields joined by colons, a space and a suffix. */
  lemma JoinClockFields(a: string, b: string, c: string, m: string)
    requires |a| == 2 && |b| == 2 && |c| == 2
    ensures a + ":" + b + ":" + c + " " + m == [a[0], a[1], ':', b[0], b[1], ':', c[0], c[1], ' '] + m
  {
  }

  /** The time text is the nine characters of the padded fields and their
      separators, then the suffix. */
  lemma TimeStringShape(hour: int, minute: int, second: int)
    requires 0 <= hour < 24 && 0 <= minute < 60 && 0 <= second < 60
    ensures TimeString(hour, minute, second) == ClockDigits(Hour12(hour), minute, second) + Meridiem(hour)
  {
    var h := Hour12(hour);
    Pad2Digits(h);
    Pad2Digits(minute);
    Pad2Digits(second);
    JoinClockFields(Pad2(h), Pad2(minute), Pad2(second), Meridiem(hour));
  }

  /** The time text is eleven characters: two digits of the hour in 1..12,
      a colon, two digits of the minute, a colon, two of the second, a space
      and a suffix that is `AM` exactly when the 24-hour value is below 12. */
  lemma TimeStringLayout(hour: int, minute: int, second: int)
    requires 0 <= hour < 24 && 0 <= minute < 60 && 0 <= second < 60
    ensures var s := TimeString(hour, minute, second);
      && |s| == 11
      && s[..9] == ClockDigits(Hour12(hour), minute, second)
      && (s[9..] == "AM" <==> hour < 12)
      && (s[9..] == "PM" <==> hour >= 12)
  {
    TimeStringShape(hour, minute, second);
    var d := ClockDigits(Hour12(hour), minute, second);
    var m := Meridiem(hour);
    assert (d + m)[..9] == d && (d + m)[9..] == m;
  }

  /** A two-digit field reads back as the number it was printed from. */
  lemma TwoDigitsOf(s: string, i: nat, n: int)
    requires 0 <= n < 100 && i + 2 <= |s|
    requires s[i] == Digit(n / 10) && s[i + 1] == Digit(n % 10)
    ensures IsDigit(s[i]) && IsDigit(s[i + 1]) && TwoDigitsAt(s, i) == n
  {
  }

  /** Parsing the nine clock characters followed by a suffix. */
  lemma ParseClockDigits(h: int, minute: int, second: int, m: string)
    requires 0 <= h < 100 && 0 <= minute < 60 && 0 <= second < 60
    requires m == "AM" || m == "PM"
    ensures ParseTime(ClockDigits(h, minute, second) + m)
      == Some(ClockReading(To24(h, m == "PM"), minute, second))
  {
    var d := ClockDigits(h, minute, second);
    var s := d + m;
    assert s[..9] == d && s[9..] == m;
    assert s[2] == ':' && s[5] == ':' && s[8] == ' ';
    TwoDigitsOf(s, 0, h);
    TwoDigitsOf(s, 3, minute);
    TwoDigitsOf(s, 6, second);
  }

  /** The time text determines the 24-hour time it was printed from. */
  lemma TimeRoundTrip(hour: int, minute: int, second: int)
    requires 0 <= hour < 24 && 0 <= minute < 60 && 0 <= second < 60
    ensures ParseTime(TimeString(hour, minute, second)) == Some(ClockReading(hour, minute, second))
  {
    TimeStringShape(hour, minute, second);
    ParseClockDigits(Hour12(hour), minute, second, Meridiem(hour));
  }

  // ---------------------------------------------------------------- date

  const DayNames: seq<string> :=
    ["Sunday", "Monday", "Tuesday", "Wednesday", "Thursday", "Friday", "Saturday"]

  const MonthNames: seq<string> :=
    ["January", "February", "March", "April", "May", "June", "July",
     "August", "September", "October", "November", "December"]

  /** `days[getDay()], months[getMonth()] getDate(), getFullYear()`. */
  function DateString(weekday: int, month: int, day: nat, year: int): string
    requires 0 <= weekday < 7 && 0 <= month < 12
  {
    DayNames[weekday] + ", " + MonthNames[month] + " " + DecimalString(day) + ", " + IntString(year)
  }

  /** The first position of `c` in `s`, or `|s|` when there is none. */
  function IndexOf(s: string, c: char): (i: nat)
    ensures i <= |s|
    ensures i < |s| ==> s[i] == c
    ensures forall j :: 0 <= j < i ==> s[j] != c
  {
    if s == [] then 0 else if s[0] == c then 0 else 1 + IndexOf(s[1..], c)
  }

  /** The position of `name` in a table of names. */
  function IndexIn(table: seq<string>, name: string): (r: Option<nat>)
    ensures r.Some? ==> r.value < |table| && table[r.value] == name
    ensures r.None? ==> name !in table
  {
    if table == [] then None
    else if table[0] == name then Some(0)
    else match IndexIn(table[1..], name)
      case Some(i) => Some(i + 1)
      case None => None
  }

  /** A date recovered from a date text. */
  datatype DateReading = DateReading(weekday: int, month: int, day: int, year: int)

  /** The text before the first `c` and the text after it; `None` without a `c`. */
  function Cut(s: string, c: char): (r: Option<(string, string)>)
    ensures r.Some? ==> s == r.value.0 + [c] + r.value.1 && c !in r.value.0
    ensures r.None? ==> c !in s
  {
    var i := IndexOf(s, c);
    if i == |s| then None else
    assert s == s[..i] + [c] + s[i + 1..];
    Some((s[..i], s[i + 1..]))
  }

  /** Drops a leading space; `None` when the text does not start with one. */
  function AfterSpace(s: string): (r: Option<string>)
    ensures r.Some? ==> s == " " + r.value
  {
    if |s| > 0 && s[0] == ' ' then Some(s[1..]) else None
  }

  /** Reads a `Weekday, Month D, YYYY` text back: the weekday up to the first
      comma, the month name up to the next space, the day up to the next comma. */
  function ParseDate(s: string): Option<DateReading> {
    match Cut(s, ',')
    case None => None
    case Some((dn, r1)) =>
      match AfterSpace(r1)
      case None => None
      case Some(r2) =>
        match Cut(r2, ' ')
        case None => None
        case Some((mn, r3)) =>
          match Cut(r3, ',')
          case None => None
          case Some((dt, r4)) =>
            match AfterSpace(r4)
            case None => None
            case Some(yt) =>
              match (IndexIn(DayNames, dn), IndexIn(MonthNames, mn), ParseInt(yt))
              case (Some(w), Some(m), Some(y)) =>
                if |dt| > 0 && AllDigits(dt) then Some(DateReading(w, m, DigitsValue(dt), y)) else None
              case _ => None
  }

  lemma NamesAreDistinct()
    ensures forall i, j :: 0 <= i < j < |DayNames| ==> DayNames[i] != DayNames[j]
    ensures forall i, j :: 0 <= i < j < |MonthNames| ==> MonthNames[i] != MonthNames[j]
    ensures forall i :: 0 <= i < |DayNames| ==> ',' !in DayNames[i]
    ensures forall i :: 0 <= i < |MonthNames| ==> ' ' !in MonthNames[i]
  {
  }

  lemma IndexInDistinct(table: seq<string>, i: nat)
    requires i < |table|
    requires forall a, b :: 0 <= a < b < |table| ==> table[a] != table[b]
    ensures IndexIn(table, table[i]) == Some(i)
  {
    if i > 0 {
      IndexInDistinct(table[1..], i - 1);
    }
  }

  /** Cutting `a + [c] + b` at the first `c` gives back `a` and `b` when `c` is not in `a`. */
  lemma CutJoin(a: string, c: char, b: string)
    requires c !in a
    ensures Cut(a + [c] + b, c) == Some((a, b))
  {
    var s := a + [c] + b;
    assert s[|a|] == c;
    assert forall j :: 0 <= j < |a| ==> s[j] == a[j];
    assert IndexOf(s, c) == |a|;
    assert s[..|a|] == a;
    assert s[|a| + 1..] == b;
  }

  lemma NoCommaInDigits(s: string)
    requires AllDigits(s)
    ensures ',' !in s
  {
  }

  /** How a text made of four fields and their separators is built, in the
      order `ParseDate` takes it apart. */
  lemma DateStringNesting(dn: string, mn: string, dt: string, yt: string)
    ensures dn + ", " + mn + " " + dt + ", " + yt
      == dn + [','] + (" " + (mn + [' '] + (dt + [','] + (" " + yt))))
  {
  }

  /** The date text determines the weekday, month, day and year it was printed from. */
  lemma DateRoundTrip(weekday: int, month: int, day: nat, year: int)
    requires 0 <= weekday < 7 && 0 <= month < 12
    ensures ParseDate(DateString(weekday, month, day, year)) == Some(DateReading(weekday, month, day, year))
  {
    NamesAreDistinct();
    var dn, mn, dt, yt := DayNames[weekday], MonthNames[month], DecimalString(day), IntString(year);
    NoCommaInDigits(dt);
    DateStringNesting(dn, mn, dt, yt);
    var r4 := " " + yt;
    var r3 := dt + [','] + r4;
    var r2 := mn + [' '] + r3;
    var r1 := " " + r2;
    CutJoin(dn, ',', r1);
    assert AfterSpace(r1) == Some(r2);
    CutJoin(mn, ' ', r3);
    CutJoin(dt, ',', r4);
    assert AfterSpace(r4) == Some(yt);
    IndexInDistinct(DayNames, weekday);
    IndexInDistinct(MonthNames, month);
    IntRoundTrip(year);
    DecimalRoundTrip(day);
  }

  /** Two dates with the same text have the same weekday, month, day and year. */
  lemma DateStringInjective(w1: int, m1: int, d1: nat, y1: int, w2: int, m2: int, d2: nat, y2: int)
    requires 0 <= w1 < 7 && 0 <= m1 < 12 && 0 <= w2 < 7 && 0 <= m2 < 12
    requires DateString(w1, m1, d1, y1) == DateString(w2, m2, d2, y2)
    ensures w1 == w2 && m1 == m2 && d1 == d2 && y1 == y2
  {
    DateRoundTrip(w1, m1, d1, y1);
    DateRoundTrip(w2, m2, d2, y2);
  }

  lemma LiteralConcats()
    ensures "Monday" + ", " + "January" + " " + "1" + ", " + "2024" == "Monday, January 1, 2024"
  {
  }

  lemma DecimalString2024()
    ensures DecimalString(1) == "1"
    ensures IntString(2024) == "2024"
  {
    assert DecimalString(2) == "2";
    assert DecimalString(20) == "20";
    assert DecimalString(202) == "202";
    assert DecimalString(2024) == "2024";
  }

  /** The date text for Monday, January 1, 2024. */
  lemma NewYear2024Date()
    ensures DateString(1, 0, 1, 2024) == "Monday, January 1, 2024"
  {
    DecimalString2024();
    assert DayNames[1] == "Monday" && MonthNames[0] == "January";
    assert DateString(1, 0, 1, 2024) == "Monday" + ", " + "January" + " " + "1" + ", " + "2024";
    LiteralConcats();
  }

  /** The time text at midnight. */
  lemma MidnightTime()
    ensures TimeString(0, 0, 0) == "12:00:00 AM"
  {
    TimeStringShape(0, 0, 0);
    assert Hour12(0) == 12 && Meridiem(0) == "AM";
    assert Digit(0) == '0' && Digit(1) == '1' && Digit(2) == '2';
    assert ClockDigits(12, 0, 0) == "12:00:00 ";
  }
}
