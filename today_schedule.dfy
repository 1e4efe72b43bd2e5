/** The "Today's Schedule" panel (src/components/TodaySchedule.tsx): it sorts
    the array it is handed in place by time string and renders the empty state
    or one entry per event. The page hands it freshly filtered arrays, so its
    sort never reorders the page's own collection. */
module TodaySchedule {
  import opened Text
  import opened Dates
  import opened TimeUtils
  import opened Schedule
  import Sorting

  /** `a.time.localeCompare(b.time) <= 0`. */
  function TimeNotAfter(a: Event, b: Event): bool {
    LocaleCompare(a.time, b.time) <= 0
  }

  lemma TimeNotAfterTotal()
    ensures Sorting.Total(TimeNotAfter)
  {
    forall a: Event, b: Event
      ensures TimeNotAfter(a, b) || TimeNotAfter(b, a)
    {
      LocaleCompareConsistent(a.time, b.time);
    }
  }

  lemma TimeNotAfterTransitive()
    ensures Sorting.Transitive(TimeNotAfter)
  {
    forall a: Event, b: Event, c: Event | TimeNotAfter(a, b) && TimeNotAfter(b, c)
      ensures TimeNotAfter(a, c)
    {
      if LexLess(a.time, b.time) && LexLess(b.time, c.time) {
        LexLessTransitive(a.time, b.time, c.time);
      }
    }
  }

  /** `const sortedEvents = events.sort((a, b) => a.time.localeCompare(b.time))`:
      the caller's array, reordered by time string, with the same events. */
  method SortByTime(events: array<Event>) returns (sortedEvents: array<Event>)
    modifies events
    ensures sortedEvents == events
    ensures Sorting.Sorted(sortedEvents[..], TimeNotAfter)
    ensures multiset(sortedEvents[..]) == old(multiset(events[..]))
  {
    TimeNotAfterTotal();
    Sorting.SortInPlace(events, TimeNotAfter);
    TimeNotAfterTransitive();
    Sorting.AdjacentSortedIsSorted(events[..], TimeNotAfter);
    sortedEvents := events;
  }

  /** On well-formed `HH:MM` times, string order is clock order: the sorted
      panel lists its events in non-decreasing minutes since midnight. */
  lemma SortedByClock(s: seq<Event>)
    requires Sorting.Sorted(s, TimeNotAfter)
    requires forall e :: e in s ==> WellFormedTime(e.time)
    ensures forall i, j :: 0 <= i < j < |s| ==>
      ParseTimeToMinutes(s[i].time) <= ParseTimeToMinutes(s[j].time)
  {
    forall i, j | 0 <= i < j < |s|
      ensures ParseTimeToMinutes(s[i].time) <= ParseTimeToMinutes(s[j].time)
    {
      assert s[i] in s && s[j] in s;
      assert TimeNotAfter(s[i], s[j]);
      ParseTimeToMinutesOrder(s[i].time, s[j].time);
    }
  }

  /** What the panel shows: "No events scheduled" or its entries in order. */
  datatype ScheduleView = NoEventsScheduled | Entries(entries: seq<Event>)

  /** One render of the panel over the array it is given. */
  method Render(events: array<Event>) returns (view: ScheduleView)
    modifies events
    ensures view.NoEventsScheduled? <==> events.Length == 0
    ensures view.Entries? ==> view.entries == events[..]
    ensures Sorting.Sorted(events[..], TimeNotAfter)
    ensures multiset(events[..]) == old(multiset(events[..]))
  {
    var sortedEvents := SortByTime(events);
    if events.Length == 0 {
      view := NoEventsScheduled;
    } else {
      view := Entries(sortedEvents[..]);
    }
  }

  /** The page's panel for one day (`todayEvents`, or `selectedDateEvents` for
      another selected day): the day's events sorted by time. The page's own
      list is left as it was. */
  method ShowDay(board: Board, day: CalendarDay) returns (view: ScheduleView)
    ensures view.NoEventsScheduled? <==> EventsOn(board.events[..], day) == []
    ensures view.Entries? ==>
      Sorting.Sorted(view.entries, TimeNotAfter)
      && multiset(view.entries) == multiset(EventsOn(board.events[..], day))
  {
    var dayEvents := Schedule.ToArray(EventsOn(board.events[..], day));
    view := Render(dayEvents);
  }

  /** `getCategoryColor` of the panel; `Other` is the switch's default branch. */
  function CategoryColor(c: Category): string {
    match c
    case Work => "border-blue-500 bg-blue-50 text-blue-700"
    case Personal => "border-green-500 bg-green-50 text-green-700"
    case Health => "border-purple-500 bg-purple-50 text-purple-700"
    case Other => "border-gray-500 bg-gray-50 text-gray-700"
  }

  /** Each category gets its own class string. */
  lemma CategoryColorInjective(c: Category, d: Category)
    ensures CategoryColor(c) == CategoryColor(d) <==> c == d
  {
    if c != d {
      // The sixth character from the end tells the four strings apart.
      var s, t := CategoryColor(c), CategoryColor(d);
      assert s[|s| - 6] != t[|t| - 6];
    }
  }
}
