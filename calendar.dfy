/** The month grid (src/components/Calendar.tsx): month length and weekday of
    the first through `new Date(...)` normalisation, the per-day event filter,
    the two loops that lay out the grid, and previous / next month navigation. */
module Calendar {
  import opened Wrappers
  import opened Dates
  import opened TimeUtils
  import opened Schedule

  /** Inside a month, `new Date(y, m - 1, k)` is just day `k` of that month of
      the constructor's year. */
  lemma NewDateInMonth(y: int, m: int, k: int)
    requires 1 <= m <= 12 && 1 <= k <= MonthLength(ConstructorYear(y), m)
    ensures NewDate(y, m - 1, k) == YMD(ConstructorYear(y), m, k)
  {
    assert (m - 1) / 12 == 0 && (m - 1) % 12 == m - 1;
  }

  /** `getDaysInMonth`: `new Date(year, month + 1, 0).getDate()`, day 0 of the
      next month being the last day of this one, in the constructor's year. */
  function DaysInMonth(d: CalendarDay): (n: int)
    ensures n == MonthLength(ConstructorYear(d.year), d.month)
  {
    var y := ConstructorYear(d.year);
    var next := NextMonthFirst(y, d.month);
    assert y + d.month / 12 == next.year && d.month % 12 + 1 == next.month;
    NormalizeBorrow(next.year, next.month, 0);
    assert PrevMonthFirst(next.year, next.month) == YMD(y, d.month, 1);
    NormalizeInRange(y, d.month, MonthLength(y, d.month));
    NewDate(d.year, d.month, 0).day
  }

  /** The month has 28 to 31 days, and 29 exactly for February of a leap year
      as the constructor reads the year. */
  lemma DaysInMonthRange(d: CalendarDay)
    ensures 28 <= DaysInMonth(d) <= 31
    ensures DaysInMonth(d) == 29 <==> d.month == 2 && IsLeapYear(ConstructorYear(d.year))
  {
  }

  /** Year 0 is a leap year, yet its February gets the 28 days of February 1900. */
  lemma DaysInFebruaryOfYearZero()
    ensures IsLeapYear(0) && !IsLeapYear(1900)
    ensures DaysInMonth(YMD(0, 2, 1)) == 28
  {
  }

  /** `getFirstDayOfMonth`: `new Date(year, month, 1).getDay()`. */
  function FirstDayOfMonth(d: CalendarDay): (w: int)
    ensures 0 <= w < 7
    ensures w == Weekday(YMD(ConstructorYear(d.year), d.month, 1))
  {
    NewDateInMonth(d.year, d.month, 1);
    Weekday(NewDate(d.year, d.month - 1, 1))
  }

  /** Each month starts on the weekday after the last day of the month before:
      its first falls `DaysInMonth` weekdays after the first of that month.
      This holds except where the constructor's year jumps, from December of
      year -1 to January of year 0 and from December of 99 to January of 100. */
  lemma FirstDayOfNextMonth(d: CalendarDay)
    ensures d.month < 12 || (d.year != -1 && d.year != 99) ==>
      FirstDayOfMonth(NextMonthFirst(d.year, d.month)) == (FirstDayOfMonth(d) + DaysInMonth(d)) % 7
  {
    var y := ConstructorYear(d.year);
    var next := NextMonthFirst(d.year, d.month);
    if d.month < 12 || (d.year != -1 && d.year != 99) {
      assert YMD(ConstructorYear(next.year), next.month, 1) == NextMonthFirst(y, d.month);
      WeekdayOfNextMonth(y, d.month);
    }
  }

  /** From December 99 to January 100 the grid jumps: 1 December 1999 is a
      Wednesday and the month has 31 days, yet 1 January 100 is a Friday. */
  lemma FirstDayOfNextMonthBreaksAtYear100()
    ensures NextMonthFirst(99, 12) == YMD(100, 1, 1)
    ensures FirstDayOfMonth(YMD(99, 12, 1)) == 3 && DaysInMonth(YMD(99, 12, 1)) == 31
    ensures FirstDayOfMonth(YMD(100, 1, 1)) == 5
  {
    assert ConstructorYear(99) == 1999 && ConstructorYear(100) == 100;
    assert LeapYearsThrough(1998) == 484 && LeapYearsThrough(99) == 24;
    assert DayNumber(YMD(1999, 12, 1)) == 10926;
    assert DayNumber(YMD(100, 1, 1)) == -683003;
  }

  /** `getEventsForDate(date)`: the page's events on that calendar day. */
  function EventsForDate(events: seq<Event>, date: CalendarDay): (r: seq<Event>)
    ensures forall e :: e in r <==> e in events && e.date.day == date
  {
    forall e ensures e in EventsOn(events, date) <==> e in events && e.date.day == date {
      EventsOnMembers(events, date, e);
    }
    EventsOn(events, date)
  }

  // ---------------------------------------------------------------------------
  // The grid

  /** A grid cell: a leading blank, or a day with its first two events, the
      "+k more" count when there are more, and its highlight flags. */
  datatype Cell =
    | Blank(index: int)
    | DayCell(day: int, date: CalendarDay, shown: seq<Event>, more: Option<int>,
              isSelected: bool, isToday: bool)

  /** The cell of one day: `dayEvents.slice(0, 2)` and `+{n - 2} more` when `n > 2`. */
  function DayCellFor(date: CalendarDay, events: seq<Event>, selectedDate: CalendarDay,
                      today: CalendarDay): Cell
  {
    var dayEvents := EventsForDate(events, date);
    DayCell(date.day, date, dayEvents[..if |dayEvents| < 2 then |dayEvents| else 2],
            if |dayEvents| > 2 then Some(|dayEvents| - 2) else None,
            selectedDate == date, today == date)
  }

  /** A day cell shows the first `min(2, n)` of the day's `n` events, says
      "+(n - 2) more" exactly when `n > 2`, and so accounts for all `n`. */
  lemma DayCellAccounts(date: CalendarDay, events: seq<Event>, selectedDate: CalendarDay,
                        today: CalendarDay)
    ensures var c := DayCellFor(date, events, selectedDate, today);
      var n := |EventsOn(events, date)|;
      && c.DayCell?
      && |c.shown| == (if n < 2 then n else 2)
      && c.shown <= EventsOn(events, date)
      && (c.more.Some? <==> n > 2)
      && |c.shown| + c.more.GetOr(0) == n
      && (forall e :: e in c.shown ==> e.date.day == date)
      && (c.isSelected <==> selectedDate == date)
  {
    var c := DayCellFor(date, events, selectedDate, today);
    forall e | e in c.shown ensures e.date.day == date {
      EventsOnMembers(events, date, e);
    }
  }

  /** `renderCalendarDays`: `firstDay` blanks, then one cell per day of the
      month in order, each for the date `new Date(year, month, day)` builds;
      `today` stands for `new Date()`. */
  method RenderCalendarDays(currentMonth: CalendarDay, events: seq<Event>,
                            selectedDate: CalendarDay, today: CalendarDay)
    returns (days: seq<Cell>)
    ensures |days| == FirstDayOfMonth(currentMonth) + DaysInMonth(currentMonth)
    ensures forall i :: 0 <= i < FirstDayOfMonth(currentMonth) ==> days[i] == Blank(i)
    ensures forall i :: FirstDayOfMonth(currentMonth) <= i < |days| ==>
      days[i] == MonthCell(currentMonth, i - FirstDayOfMonth(currentMonth) + 1, events, selectedDate, today)
  {
    var daysInMonth := DaysInMonth(currentMonth);
    var firstDay := FirstDayOfMonth(currentMonth);
    var blanks := LeadingBlanks(firstDay);
    days := AppendDayCells(blanks, currentMonth, daysInMonth, events, selectedDate, today);
    forall i | 0 <= i < firstDay ensures days[i] == Blank(i) {
      assert days[i] == days[..firstDay][i] == blanks[i];
    }
  }

  /** The first loop of `renderCalendarDays`: one blank per weekday before the first. */
  method LeadingBlanks(firstDay: nat) returns (days: seq<Cell>)
    ensures |days| == firstDay
    ensures forall i :: 0 <= i < firstDay ==> days[i] == Blank(i)
  {
    days := [];
    var i := 0;
    while i < firstDay
      invariant 0 <= i <= firstDay
      invariant |days| == i
      invariant forall j :: 0 <= j < i ==> days[j] == Blank(j)
    {
      days := days + [Blank(i)];
      i := i + 1;
    }
  }

  /** The second loop of `renderCalendarDays`: the cells of days 1..daysInMonth,
      appended in order after what is already there. */
  method AppendDayCells(prefix: seq<Cell>, currentMonth: CalendarDay, daysInMonth: int,
                        events: seq<Event>, selectedDate: CalendarDay, today: CalendarDay)
    returns (days: seq<Cell>)
    requires daysInMonth == DaysInMonth(currentMonth)
    ensures |days| == |prefix| + daysInMonth
    ensures days[..|prefix|] == prefix
    ensures forall i :: |prefix| <= i < |days| ==>
      days[i] == MonthCell(currentMonth, i - |prefix| + 1, events, selectedDate, today)
  {
    days := prefix;
    var day := 1;
    while day <= daysInMonth
      invariant 1 <= day <= daysInMonth + 1
      invariant |days| == |prefix| + day - 1
      invariant days[..|prefix|] == prefix
      invariant forall i :: |prefix| <= i < |days| ==>
        days[i] == MonthCell(currentMonth, i - |prefix| + 1, events, selectedDate, today)
    {
      var date := NewDate(currentMonth.year, currentMonth.month - 1, day);
      NewDateInMonth(currentMonth.year, currentMonth.month, day);
      days := days + [DayCellFor(date, events, selectedDate, today)];
      day := day + 1;
    }
  }

  /** Day `k` of the month on show as `new Date(year, month, k)` builds it:
      in the constructor's year, so a two-digit year shows 19yy days. */
  function CellDate(currentMonth: CalendarDay, k: int): CalendarDay
    requires 1 <= k <= DaysInMonth(currentMonth)
  {
    YMD(ConstructorYear(currentMonth.year), currentMonth.month, k)
  }

  /** The cell of day `k` of the month on show. */
  function MonthCell(currentMonth: CalendarDay, k: int, events: seq<Event>,
                     selectedDate: CalendarDay, today: CalendarDay): Cell
    requires 1 <= k <= DaysInMonth(currentMonth)
  {
    DayCellFor(CellDate(currentMonth, k), events, selectedDate, today)
  }

  /** The weekday header of the grid, fixed whatever the week-start setting. */
  const WeekHeader: seq<string> := ["Sun", "Mon", "Tue", "Wed", "Thu", "Fri", "Sat"]

  /** The header is `getWeekDays(0)`, and the column day `k` lands in under it,
      `(firstDay + k - 1) % 7`, is labelled with the weekday of that cell's date. */
  lemma HeaderMatchesColumns(currentMonth: CalendarDay, k: int)
    requires 1 <= k <= DaysInMonth(currentMonth)
    ensures WeekHeader == GetWeekDays(Sunday)
    ensures WeekHeader[(FirstDayOfMonth(currentMonth) + k - 1) % 7]
      == DayNames[Weekday(CellDate(currentMonth, k))]
  {
    WeekdayInMonth(CellDate(currentMonth, k));
  }

  // ---------------------------------------------------------------------------
  // Month navigation

  /** A month counted from year 0: `12 * year + getMonth()`. */
  function MonthIndex(d: CalendarDay): int {
    12 * d.year + d.month - 1
  }

  /** `navigateMonth` as written: copy the date and `setMonth(getMonth() ± 1)`,
      which keeps the day of the month and lets it overflow into the month after. */
  function StepMonthAsWritten(d: CalendarDay, forward: bool): CalendarDay {
    MakeDate(d.year, d.month - 1 + (if forward then 1 else -1), d.day)
  }

  /** `setMonth` lands in the month the corrected step goes to whenever that
      month has the day; the day of the month is then kept. */
  lemma StepMonthAsWrittenKeepsDay(d: CalendarDay, forward: bool)
    requires d.day <= MonthLength(StepMonth(d, forward).year, StepMonth(d, forward).month)
    ensures StepMonthAsWritten(d, forward)
      == YMD(StepMonth(d, forward).year, StepMonth(d, forward).month, d.day)
  {
    var mi := d.month - 1 + (if forward then 1 else -1);
    var r := StepMonth(d, forward);
    StepMonthIndex(d, forward);
    NormalizeInRange(r.year, r.month, d.day);
  }

  /** When the target month is shorter than the day, `setMonth` overflows past
      it: the result is day `d.day - length` of the month after the target. */
  lemma StepMonthAsWrittenOverflows(d: CalendarDay, forward: bool)
    requires d.day > MonthLength(StepMonth(d, forward).year, StepMonth(d, forward).month)
    ensures var r := StepMonth(d, forward);
      var n := NextMonthFirst(r.year, r.month);
      StepMonthAsWritten(d, forward) == YMD(n.year, n.month, d.day - MonthLength(r.year, r.month))
  {
    var r := StepMonth(d, forward);
    var n := NextMonthFirst(r.year, r.month);
    StepMonthIndex(d, forward);
    NormalizeCarry(r.year, r.month, d.day);
    NormalizeInRange(n.year, n.month, d.day - MonthLength(r.year, r.month));
  }

  /** From 31 January 2025 "next" lands on 3 March 2025: February is skipped. */
  lemma StepMonthAsWrittenSkipsFebruary()
    ensures StepMonthAsWritten(YMD(2025, 1, 31), true) == YMD(2025, 3, 3)
  {
    FebruaryOverflow();
  }

  /** From 31 March 2025 "prev" lands on 3 March 2025: the month does not change. */
  lemma StepMonthAsWrittenStaysInMarch()
    ensures StepMonthAsWritten(YMD(2025, 3, 31), false) == YMD(2025, 3, 3)
  {
    FebruaryOverflow();
  }

  /** `new Date(2025, 1, 31)` is 3 March 2025. */
  lemma FebruaryOverflow()
    ensures MakeDate(2025, 1, 31) == YMD(2025, 3, 3)
  {
    assert !IsLeapYear(2025);
    NormalizeCarry(2025, 2, 31);
    NormalizeInRange(2025, 3, 3);
  }

  /** The month navigation the buttons mean: the first of the previous or next month. */
  function StepMonth(d: CalendarDay, forward: bool): (r: CalendarDay)
    ensures r.day == 1
    ensures MonthIndex(r) == MonthIndex(d) + (if forward then 1 else -1)
  {
    var mi := d.month - 1 + (if forward then 1 else -1);
    StepMonthIndex(d, forward);
    NormalizeInRange(d.year + mi / 12, mi % 12 + 1, 1);
    MakeDate(d.year, mi, 1)
  }

  /** Where `setMonth(getMonth() ± 1)` carries the month index: into the
      adjacent month, across the year boundary at either end. */
  lemma StepMonthIndex(d: CalendarDay, forward: bool)
    ensures var mi := d.month - 1 + (if forward then 1 else -1);
      && 12 * (d.year + mi / 12) + mi % 12 == MonthIndex(d) + (if forward then 1 else -1)
      && 0 <= mi % 12 < 12
  {
    var mi := d.month - 1 + (if forward then 1 else -1);
    if mi == 12 {
      assert mi / 12 == 1 && mi % 12 == 0;
    } else if mi == -1 {
      assert mi / 12 == -1 && mi % 12 == 11;
    } else {
      assert mi / 12 == 0 && mi % 12 == mi;
    }
  }

  /** "next" then "prev" comes back to the first of the month shown before. */
  lemma StepMonthRoundTrip(d: CalendarDay, forward: bool)
    ensures StepMonth(StepMonth(d, forward), !forward) == YMD(d.year, d.month, 1)
  {
    var r := StepMonth(StepMonth(d, forward), !forward);
    assert MonthIndex(r) == MonthIndex(d);
    assert 12 * r.year + r.month == 12 * d.year + d.month;
  }

  /** The calendar's own state: the month on show. */
  class CalendarView {
    var currentMonth: CalendarDay

    /** `useState(new Date())`, with `today` standing for the clock. */
    constructor(today: CalendarDay)
      ensures currentMonth == today
    {
      currentMonth := today;
    }

    /** `navigateMonth('prev' | 'next')`, with the day-of-month overflow fixed. */
    method NavigateMonth(forward: bool)
      modifies this
      ensures currentMonth == StepMonth(old(currentMonth), forward)
    {
      var newMonth := StepMonth(currentMonth, forward);
      currentMonth := newMonth;
    }

    /** `goToToday`: show today's month and select today on the page. */
    method GoToToday(today: CalendarDay, board: Board)
      modifies this, board
      ensures currentMonth == today && board.selectedDate == today
      ensures board.events == old(board.events) && board.isEventFormOpen == old(board.isEventFormOpen)
    {
      currentMonth := today;
      board.selectedDate := today;
    }
  }
}
