/** The part of JavaScript's `Date` that the tracker relies on, over the
    proleptic Gregorian calendar: calendar days, day numbers counted from
    1 January 1970, `getTime()`, `getDay()`, and the normalisation that
    `new Date(year, monthIndex, date)` and `setMonth` apply to an out-of-range
    month or day. Every date is read in one fixed time zone. */
module Dates {

  /** A (year, month, day) triple; the month runs 1..12, i.e. `getMonth() + 1`. */
  datatype YMD = YMD(year: int, month: int, day: int)

  predicate IsLeapYear(y: int) {
    y % 4 == 0 && (y % 100 != 0 || y % 400 == 0)
  }

  /** The Gregorian length of month `m` of year `y`. */
  function MonthLength(y: int, m: int): int
    requires 1 <= m <= 12
  {
    if m == 2 then (if IsLeapYear(y) then 29 else 28)
    else if m == 4 || m == 6 || m == 9 || m == 11 then 30
    else 31
  }

  predicate ValidDay(d: YMD) {
    1 <= d.month <= 12 && 1 <= d.day <= MonthLength(d.year, d.month)
  }

  /** A day that exists in the calendar. */
  type CalendarDay = d: YMD | ValidDay(d) witness YMD(1970, 1, 1)

  /** The first day of the month after month `m` of year `y`. */
  function NextMonthFirst(y: int, m: int): CalendarDay
    requires 1 <= m <= 12
  {
    if m == 12 then YMD(y + 1, 1, 1) else YMD(y, m + 1, 1)
  }

  /** The first day of the month before month `m` of year `y`. */
  function PrevMonthFirst(y: int, m: int): CalendarDay
    requires 1 <= m <= 12
  {
    if m == 1 then YMD(y - 1, 12, 1) else YMD(y, m - 1, 1)
  }

  /** Days of year `y` before the first of month `m`. */
  function DaysBeforeMonth(y: int, m: int): int
    requires 1 <= m <= 12
  {
    [0, 31, 59, 90, 120, 151, 181, 212, 243, 273, 304, 334][m - 1]
      + (if m > 2 && IsLeapYear(y) then 1 else 0)
  }

  /** The number of leap years in 1..y; differences of it count leap years for every y. */
  function LeapYearsThrough(y: int): int {
    y / 4 - y / 100 + y / 400
  }

  /** Days from 1 January 1970 to the given day (negative before it). */
  function DayNumber(d: YMD): int
    requires 1 <= d.month <= 12
  {
    365 * d.year + LeapYearsThrough(d.year - 1) + DaysBeforeMonth(d.year, d.month) + d.day - 1 - 719527
  }

  lemma LeapYearsStep(y: int)
    ensures LeapYearsThrough(y) - LeapYearsThrough(y - 1) == if IsLeapYear(y) then 1 else 0
  {
    DivStep4(y);
    DivStep100(y);
    DivStep400(y);
  }

  lemma DivStep4(y: int)
    ensures y / 4 - (y - 1) / 4 == if y % 4 == 0 then 1 else 0
  {
  }

  lemma DivStep100(y: int)
    ensures y / 100 - (y - 1) / 100 == if y % 100 == 0 then 1 else 0
  {
  }

  lemma DivStep400(y: int)
    ensures y / 400 - (y - 1) / 400 == if y % 400 == 0 then 1 else 0
  {
  }

  /** The first of the next month comes exactly MonthLength days after the
      first of this month, across a year boundary too. */
  lemma NextMonthStart(y: int, m: int)
    requires 1 <= m <= 12
    ensures DayNumber(NextMonthFirst(y, m)) == DayNumber(YMD(y, m, 1)) + MonthLength(y, m)
  {
    if m == 12 { LeapYearsStep(y); }
  }

  /** `new Date(y, m - 1, date).getDate()` and friends, for a month already in
      range: a day before the first borrows from the previous month, a day past
      the end carries into the next, one month at a time. */
  function Normalize(y: int, m: int, date: int): CalendarDay
    requires 1 <= m <= 12
    decreases if date < 1 then 32 - date else date
  {
    if date < 1 then
      var p := PrevMonthFirst(y, m);
      Normalize(p.year, p.month, date + MonthLength(p.year, p.month))
    else if date > MonthLength(y, m) then
      var n := NextMonthFirst(y, m);
      Normalize(n.year, n.month, date - MonthLength(y, m))
    else
      YMD(y, m, date)
  }

  /** Normalising lands on the day `date - 1` days after the first of the month,
      whichever way it has to borrow or carry. */
  lemma {:induction false} NormalizeDayNumber(y: int, m: int, date: int)
    requires 1 <= m <= 12
    ensures DayNumber(Normalize(y, m, date)) == DayNumber(YMD(y, m, 1)) + date - 1
    decreases if date < 1 then 32 - date else date
  {
    if date < 1 {
      var p := PrevMonthFirst(y, m);
      var len := MonthLength(p.year, p.month);
      assert Normalize(y, m, date) == Normalize(p.year, p.month, date + len);
      NormalizeDayNumber(p.year, p.month, date + len);
      assert NextMonthFirst(p.year, p.month) == YMD(y, m, 1);
      NextMonthStart(p.year, p.month);
    } else if date > MonthLength(y, m) {
      var n := NextMonthFirst(y, m);
      var len := MonthLength(y, m);
      assert Normalize(y, m, date) == Normalize(n.year, n.month, date - len);
      NormalizeDayNumber(n.year, n.month, date - len);
      NextMonthStart(y, m);
    }
  }

  /** One step of Normalize at a time, for proofs about particular dates. */
  lemma NormalizeInRange(y: int, m: int, date: int)
    requires 1 <= m <= 12 && 1 <= date <= MonthLength(y, m)
    ensures Normalize(y, m, date) == YMD(y, m, date)
  {
  }

  lemma NormalizeCarry(y: int, m: int, date: int)
    requires 1 <= m <= 12 && date > MonthLength(y, m)
    ensures Normalize(y, m, date)
      == Normalize(NextMonthFirst(y, m).year, NextMonthFirst(y, m).month, date - MonthLength(y, m))
  {
  }

  lemma NormalizeBorrow(y: int, m: int, date: int)
    requires 1 <= m <= 12 && date < 1
    ensures Normalize(y, m, date)
      == Normalize(PrevMonthFirst(y, m).year, PrevMonthFirst(y, m).month,
                   date + MonthLength(PrevMonthFirst(y, m).year, PrevMonthFirst(y, m).month))
  {
  }

  /** ECMAScript's MakeDay on a full year, as `setMonth(monthIndex)` applies it
      with the date's own year and day: a 0-based month index that may lie
      outside 0..11 carries into the year (floor division), then the day, which
      may lie outside the month, is counted from the first of that month. */
  function MakeDate(year: int, monthIndex: int, date: int): CalendarDay {
    Normalize(year + monthIndex / 12, monthIndex % 12 + 1, date)
  }

  /** MakeDay lands `date - 1` days after the first of month `monthIndex`
      counted from January of `year`. */
  lemma MakeDateDayNumber(year: int, monthIndex: int, date: int)
    ensures DayNumber(MakeDate(year, monthIndex, date))
      == DayNumber(YMD(year + monthIndex / 12, monthIndex % 12 + 1, 1)) + date - 1
  {
    NormalizeDayNumber(year + monthIndex / 12, monthIndex % 12 + 1, date);
  }

  /** The year the `Date` constructor uses for a year argument: 0..99 stand
      for 1900..1999, every other year is taken as it is. */
  function ConstructorYear(year: int): int {
    if 0 <= year <= 99 then 1900 + year else year
  }

  /** `new Date(year, monthIndex, date)`: MakeDay on the constructor's year. */
  function NewDate(year: int, monthIndex: int, date: int): CalendarDay {
    MakeDate(ConstructorYear(year), monthIndex, date)
  }

  /** `new Date(year, monthIndex, date)` is `date - 1` days after the first of
      month `monthIndex` counted from January of the constructor's year, so a
      two-digit year lands in the twentieth century. */
  lemma NewDateDayNumber(year: int, monthIndex: int, date: int)
    ensures DayNumber(NewDate(year, monthIndex, date))
      == DayNumber(YMD(ConstructorYear(year) + monthIndex / 12, monthIndex % 12 + 1, 1)) + date - 1
  {
    MakeDateDayNumber(ConstructorYear(year), monthIndex, date);
  }

  /** `getDay()`: 0 is Sunday; 1 January 1970 was a Thursday. */
  function Weekday(d: CalendarDay): (w: int)
    ensures 0 <= w < 7
  {
    (DayNumber(d) + 4) % 7
  }

  /** Consecutive days of one month fall on consecutive weekdays. */
  lemma WeekdayInMonth(d: CalendarDay)
    ensures Weekday(d) == (Weekday(YMD(d.year, d.month, 1)) + d.day - 1) % 7
  {
    var n := DayNumber(YMD(d.year, d.month, 1)) + 4;
    assert DayNumber(d) + 4 == n + d.day - 1;
    ModAddLeft(n, d.day - 1);
  }

  /** A day `n` days after another falls `n` weekdays later. */
  lemma WeekdayAfter(a: CalendarDay, b: CalendarDay, n: int)
    requires DayNumber(b) == DayNumber(a) + n
    ensures Weekday(b) == (Weekday(a) + n) % 7
  {
    ModAddLeft(DayNumber(a) + 4, n);
  }

  /** The first of the next month falls MonthLength weekdays after the first of this one. */
  lemma WeekdayOfNextMonth(y: int, m: int)
    requires 1 <= m <= 12
    ensures Weekday(NextMonthFirst(y, m)) == (Weekday(YMD(y, m, 1)) + MonthLength(y, m)) % 7
  {
    NextMonthStart(y, m);
    WeekdayAfter(YMD(y, m, 1), NextMonthFirst(y, m), MonthLength(y, m));
  }

  lemma ModAddLeft(a: int, b: int)
    ensures (a + b) % 7 == (a % 7 + b) % 7
  {
  }

  /** The millisecond within a day. */
  type MsOfDay = x: int | 0 <= x < 86400000

  /** A `Date` value: a calendar day and a time of day. */
  datatype Instant = Instant(day: CalendarDay, ms: MsOfDay)

  /** `date.getTime()`: milliseconds since the start of 1 January 1970. */
  function GetTime(t: Instant): int {
    DayNumber(t.day) * 86400000 + t.ms
  }
}
