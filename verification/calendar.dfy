/** The month calendar (components/CalendarView.tsx): the grid of a month
    built from the JavaScript Date constructor's arithmetic, month
    navigation, and the planned looks filed under each day's date key. */
module Calendar {
  import opened Types
  import opened Seqs
  import opened Strings

  /** The Date constructor reads a year argument from 0 to 99 as 1900 plus it. */
  function JsYear(y: int): int
  {
    if 0 <= y <= 99 then 1900 + y else y
  }

  /** A year of 366 days in the proleptic Gregorian calendar. Dafny's `%`
      agrees with the floor modulo of ECMAScript's date arithmetic here,
      because every divisor is positive. */
  predicate IsLeapYear(y: int)
  {
    y % 4 == 0 && (y % 100 != 0 || y % 400 == 0)
  }

  /** Days in month m (0 = January) of year y. */
  function MonthLength(y: int, m: int): (n: int)
    requires 0 <= m < 12
    ensures 28 <= n <= 31
  {
    if m == 1 then (if IsLeapYear(y) then 29 else 28)
    else if m == 3 || m == 5 || m == 8 || m == 10 then 30
    else 31
  }

  /** Days of year y before the first of month m. */
  function DaysBeforeMonth(y: int, m: int): int
    requires 0 <= m < 12
  {
    [0, 31, 59, 90, 120, 151, 181, 212, 243, 273, 304, 334][m]
      + (if m >= 2 && IsLeapYear(y) then 1 else 0)
  }

  /** Day number of 1 January of year y, counted from 1 January 1970. */
  function DayFromYear(y: int): int
  {
    365 * (y - 1970) + (y - 1969) / 4 - (y - 1901) / 100 + (y - 1601) / 400
  }

  /** A month index outside 0..11 rolls into neighbouring years. */
  function Normalize(y: int, m: int): (ym: (int, int))
    ensures 0 <= ym.1 < 12
    ensures ym.0 * 12 + ym.1 == y * 12 + m
  {
    (y + m / 12, m % 12)
  }

  /** Day number of the given date of a month; dates past the month's end
      (or before its start) run on into the neighbouring months. */
  function MakeDay(y: int, m: int, date: int): int
  {
    var ym := Normalize(y, m);
    DayFromYear(ym.0) + DaysBeforeMonth(ym.0, ym.1) + date - 1
  }

  /** Day of the week of a day number, 0 being Sunday: 1 January 1970 was a Thursday. */
  function WeekDay(day: int): (w: int)
    ensures 0 <= w < 7
  {
    (day + 4) % 7
  }

  /** `new Date(year, month + 1, 0).getDate()`: day 0 of the following
      month is the last day of the month before it. */
  function DaysInMonth(year: int, month: int): (n: int)
    ensures 28 <= n <= 31
    ensures n == MonthLength(Normalize(JsYear(year), month).0, Normalize(JsYear(year), month).1)
  {
    var next := Normalize(JsYear(year), month + 1);
    NormalizeSucc(JsYear(year), month);
    if next.1 == 0 then MonthLength(next.0 - 1, 11) else MonthLength(next.0, next.1 - 1)
  }

  /** `new Date(year, month, 1).getDay()` */
  function StartDayOfMonth(year: int, month: int): (d: int)
    ensures 0 <= d < 7
  {
    WeekDay(MakeDay(JsYear(year), month, 1))
  }

  /** The month after a normalised month. */
  lemma NormalizeSucc(y: int, m: int)
    ensures Normalize(y, m + 1) ==
      (if Normalize(y, m).1 == 11 then (Normalize(y, m).0 + 1, 0)
       else (Normalize(y, m).0, Normalize(y, m).1 + 1))
  {
  }

  lemma YearStep4(a: int)
    ensures a / 4 - (a - 1) / 4 == if a % 4 == 0 then 1 else 0
  {
  }

  lemma YearStep100(a: int)
    ensures a / 100 - (a - 1) / 100 == if a % 100 == 0 then 1 else 0
  {
  }

  lemma YearStep400(a: int)
    ensures a / 400 - (a - 1) / 400 == if a % 400 == 0 then 1 else 0
  {
  }

  /** Moving by a multiple of the modulus keeps the remainder. */
  lemma ShiftMod(y: int)
    ensures (y - 1968) % 4 == y % 4
    ensures (y - 1900) % 100 == y % 100
    ensures (y - 1600) % 400 == y % 400
  {
    assert y - 1968 == 4 * (y / 4 - 492) + y % 4;
    assert y - 1900 == 100 * (y / 100 - 19) + y % 100;
    assert y - 1600 == 400 * (y / 400 - 4) + y % 400;
  }

  /** A multiple of 400 is a multiple of 100, and a multiple of 100 one of 4. */
  lemma CenturyDivides(y: int)
    ensures y % 400 == 0 ==> y % 100 == 0
    ensures y % 100 == 0 ==> y % 4 == 0
  {
    if y % 400 == 0 {
      var q := y / 400;
      assert y == 100 * (4 * q);
      HundredsMod(4 * q);
    }
    if y % 100 == 0 {
      var q := y / 100;
      assert y == 4 * (25 * q);
      FoursMod(25 * q);
    }
  }

  lemma HundredsMod(n: int)
    ensures (100 * n) % 100 == 0
  {
  }

  lemma FoursMod(n: int)
    ensures (4 * n) % 4 == 0
  {
  }

  /** A year has 366 days exactly when it is a leap year. */
  lemma DaysInYear(y: int)
    ensures DayFromYear(y + 1) - DayFromYear(y) == if IsLeapYear(y) then 366 else 365
  {
    var a4 := (y - 1968) / 4 - (y - 1969) / 4;
    var a100 := (y - 1900) / 100 - (y - 1901) / 100;
    var a400 := (y - 1600) / 400 - (y - 1601) / 400;
    assert DayFromYear(y + 1) - DayFromYear(y) == 365 + a4 - a100 + a400;
    assert a4 == if y % 4 == 0 then 1 else 0 by {
      YearStep4(y - 1968);
      ShiftMod(y);
    }
    assert a100 == if y % 100 == 0 then 1 else 0 by {
      YearStep100(y - 1900);
      ShiftMod(y);
    }
    assert a400 == if y % 400 == 0 then 1 else 0 by {
      YearStep400(y - 1600);
      ShiftMod(y);
    }
    CenturyDivides(y);
  }

  /** The first of the next month comes exactly DaysInMonth days after the
      first of this one: day 0 of the next month is this month's last day. */
  lemma {:induction false} DaysInMonthSpan(year: int, month: int)
    ensures MakeDay(JsYear(year), month + 1, 1) - MakeDay(JsYear(year), month, 1) == DaysInMonth(year, month)
  {
    var ym := Normalize(JsYear(year), month);
    NormalizeSucc(JsYear(year), month);
    if ym.1 == 11 {
      DaysInYear(ym.0);
    }
  }

  /** February has 29 days exactly in leap years; the other months have
      their fixed lengths. */
  lemma FebruaryFollowsLeapRule(year: int)
    ensures DaysInMonth(year, 1) == 29 <==> IsLeapYear(JsYear(year))
    ensures DaysInMonth(year, 1) == 28 <==> !IsLeapYear(JsYear(year))
  {
  }

  /** Each month's grid starts where the previous month's left off. */
  lemma NextStartDay(year: int, month: int)
    ensures StartDayOfMonth(year, month + 1) == (StartDayOfMonth(year, month) + DaysInMonth(year, month)) % 7
  {
    var first := MakeDay(JsYear(year), month, 1);
    DaysInMonthSpan(year, month);
    ModAdd7(first + 4, DaysInMonth(year, month));
  }

  lemma ModAdd7(a: int, n: int)
    ensures (a % 7 + n) % 7 == (a + n) % 7
  {
  }

  /** `new Date(year, month - 1, 1)`, read back as (getFullYear, getMonth). */
  function PrevMonth(year: int, month: int): (ym: (int, int))
    ensures 0 <= ym.1 < 12
    ensures 0 < month < 12 ==> ym == (JsYear(year), month - 1)
    ensures month == 0 ==> ym == (JsYear(year) - 1, 11)
  {
    Normalize(JsYear(year), month - 1)
  }

  /** `new Date(year, month + 1, 1)`, read back as (getFullYear, getMonth). */
  function NextMonth(year: int, month: int): (ym: (int, int))
    ensures 0 <= ym.1 < 12
    ensures 0 <= month < 11 ==> ym == (JsYear(year), month + 1)
    ensures month == 11 ==> ym == (JsYear(year) + 1, 0)
  {
    Normalize(JsYear(year), month + 1)
  }

  /** Forward then back (or back then forward) returns to the same month,
      away from the years the Date constructor reinterprets. */
  lemma MonthNavigationRoundTrip(year: int, month: int)
    requires 0 <= month < 12
    requires year < -1 || year > 100
    ensures PrevMonth(NextMonth(year, month).0, NextMonth(year, month).1) == (year, month)
    ensures NextMonth(PrevMonth(year, month).0, PrevMonth(year, month).1) == (year, month)
  {
  }

  /** One cell of the month grid: a leading blank or a numbered day. */
  datatype Cell = Blank | Day(day: int)

  /** startDay blank cells, then the days 1..numDays. */
  function Grid(year: int, month: int): (cells: seq<Cell>)
    ensures |cells| == StartDayOfMonth(year, month) + DaysInMonth(year, month)
    ensures forall i :: 0 <= i < StartDayOfMonth(year, month) ==> cells[i] == Blank
    ensures forall i :: StartDayOfMonth(year, month) <= i < |cells| ==>
      cells[i] == Day(i - StartDayOfMonth(year, month) + 1)
  {
    seq(StartDayOfMonth(year, month), _ => Blank)
      + seq(DaysInMonth(year, month), i => Day(i + 1))
  }

  /** In the seven-column grid every day sits under its own weekday heading. */
  lemma GridColumnIsWeekDay(year: int, month: int, d: int)
    requires 1 <= d <= DaysInMonth(year, month)
    ensures Grid(year, month)[StartDayOfMonth(year, month) + d - 1] == Day(d)
    ensures (StartDayOfMonth(year, month) + d - 1) % 7 == WeekDay(MakeDay(JsYear(year), month, d))
  {
    var first := MakeDay(JsYear(year), month, 1);
    assert MakeDay(JsYear(year), month, d) == first + d - 1;
    ModAdd7(first + 4, d - 1);
  }

  /** Whether a grid day is today's local date (given as year, month, day). */
  predicate IsToday(today: (int, int, int), year: int, month: int, day: int)
  {
    today == (year, month, day)
  }

  /** The day's key: year, then the 1-based month and the day, each padded to two digits. */
  function DateKey(year: int, month: int, day: int): (key: string)
    ensures 0 <= month < 12 && 1 <= day < 100 ==>
      && |key| == |IntToString(year)| + 6
      && key[..|IntToString(year)|] == IntToString(year)
      && key[|key| - 6] == '-' && key[|key| - 3] == '-'
  {
    var y := IntToString(year);
    var mm := PadStart2(IntToString(month + 1));
    var dd := PadStart2(IntToString(day));
    assert 0 <= month < 12 && 1 <= day < 100 ==> |mm| == 2 && |dd| == 2 by {
      if 0 <= month < 12 && 1 <= day < 100 {
        TwoDigits(month + 1);
        TwoDigits(day);
      }
    }
    assert (y + "-" + mm + "-" + dd)[..|y|] == y;
    y + "-" + mm + "-" + dd
  }

  /** The padded two digits of a number from 1 to 99. */
  lemma DateKeyParts(year: int, month: int, day: int)
    requires 0 <= month < 12 && 1 <= day < 100
    ensures DateKey(year, month, day) ==
      IntToString(year) + "-" + [DigitChar((month + 1) / 10), DigitChar((month + 1) % 10)]
        + "-" + [DigitChar(day / 10), DigitChar(day % 10)]
  {
    TwoDigits(month + 1);
    TwoDigits(day);
  }

  /** Different days of the calendar never share a key. */
  lemma DateKeyInjective(y1: int, m1: int, d1: int, y2: int, m2: int, d2: int)
    requires 0 <= m1 < 12 && 1 <= d1 < 100
    requires 0 <= m2 < 12 && 1 <= d2 < 100
    requires DateKey(y1, m1, d1) == DateKey(y2, m2, d2)
    ensures y1 == y2 && m1 == m2 && d1 == d2
  {
    var k := DateKey(y1, m1, d1);
    DateKeyParts(y1, m1, d1);
    DateKeyParts(y2, m2, d2);
    var p1, q1 := [DigitChar((m1 + 1) / 10), DigitChar((m1 + 1) % 10)], [DigitChar(d1 / 10), DigitChar(d1 % 10)];
    var p2, q2 := [DigitChar((m2 + 1) / 10), DigitChar((m2 + 1) % 10)], [DigitChar(d2 / 10), DigitChar(d2 % 10)];
    KeyFields(IntToString(y1), p1, q1);
    KeyFields(IntToString(y2), p2, q2);
    IntToStringInjective(y1, y2);
    DigitCharInjective((m1 + 1) / 10, (m2 + 1) / 10);
    DigitCharInjective((m1 + 1) % 10, (m2 + 1) % 10);
    DigitCharInjective(d1 / 10, d2 / 10);
    DigitCharInjective(d1 % 10, d2 % 10);
  }

  /** The fields of a key can be read back from its fixed-width tail. */
  lemma KeyFields(y: string, p: string, q: string)
    requires |p| == 2 && |q| == 2
    ensures var k := y + "-" + p + "-" + q;
      |k| == |y| + 6 && k[..|y|] == y && k[|y| + 1..|y| + 3] == p && k[|y| + 4..] == q
  {
  }

  function DateIs(key: string): ScheduledOutfit -> bool
  {
    (s: ScheduledOutfit) => s.date == key
  }

  /** `scheduled.filter(s => s.date === dateStr)`: exactly the schedules
      filed under that day, in stored order. */
  function ScheduledForDate(scheduled: seq<ScheduledOutfit>, year: int, month: int, day: int): (r: seq<ScheduledOutfit>)
    ensures IsSubsequence(r, scheduled)
    ensures forall i :: 0 <= i < |r| ==> r[i].date == DateKey(year, month, day)
    ensures forall i :: 0 <= i < |scheduled| && scheduled[i].date == DateKey(year, month, day) ==> scheduled[i] in r
    ensures forall x :: x in r ==> multiset(r)[x] == multiset(scheduled)[x]
  {
    FilterIsSubsequence(scheduled, DateIs(DateKey(year, month, day)));
    FilterCounts(scheduled, DateIs(DateKey(year, month, day)));
    Filter(scheduled, DateIs(DateKey(year, month, day)))
  }

  /** The dot under a day: some schedule is filed under it. */
  function HasEvent(scheduled: seq<ScheduledOutfit>, year: int, month: int, day: int): (r: bool)
    ensures r <==> exists i :: 0 <= i < |scheduled| && scheduled[i].date == DateKey(year, month, day)
  {
    var found := ScheduledForDate(scheduled, year, month, day);
    assert |found| > 0 ==> found[0] in scheduled;
    |found| > 0
  }

  /** Two different days of the calendar list disjoint plans. */
  lemma DifferentDaysDisjoint(scheduled: seq<ScheduledOutfit>, year: int, month: int, d1: int, d2: int)
    requires 0 <= month < 12 && 1 <= d1 < 100 && 1 <= d2 < 100 && d1 != d2
    ensures forall i, j ::
      (0 <= i < |ScheduledForDate(scheduled, year, month, d1)| && 0 <= j < |ScheduledForDate(scheduled, year, month, d2)|) ==>
      ScheduledForDate(scheduled, year, month, d1)[i] != ScheduledForDate(scheduled, year, month, d2)[j]
  {
    if DateKey(year, month, d1) == DateKey(year, month, d2) {
      DateKeyInjective(year, month, d1, year, month, d2);
    }
  }

  /** The planned looks panel: the selected day's schedules; nothing when no day is selected. */
  function ActiveSchedules(scheduled: seq<ScheduledOutfit>, year: int, month: int, selectedDay: int): (r: seq<ScheduledOutfit>)
    ensures selectedDay == 0 ==> r == []
    ensures forall i :: 0 <= i < |r| ==> r[i] in scheduled && r[i].date == DateKey(year, month, selectedDay)
    ensures selectedDay != 0 ==>
      forall i :: 0 <= i < |scheduled| && scheduled[i].date == DateKey(year, month, selectedDay) ==> scheduled[i] in r
  {
    if selectedDay == 0 then [] else ScheduledForDate(scheduled, year, month, selectedDay)
  }
}
