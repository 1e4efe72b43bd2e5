/** The "All Events" list (src/components/EventList.tsx): it sorts the array it
    is handed in place (by instant, then by time string), renders the empty
    state or one entry per event, and drives the edit dialog. */
module EventList {
  import opened Wrappers
  import opened Text
  import opened Dates
  import opened Schedule
  import Sorting

  /** The comparator of the list's `events.sort`. */
  function Compare(a: Event, b: Event): int {
    var dateComparison := GetTime(a.date) - GetTime(b.date);
    if dateComparison != 0 then dateComparison else LocaleCompare(a.time, b.time)
  }

  /** `Compare(a, b) <= 0`: `a` may stand before `b`. */
  function NotAfter(a: Event, b: Event): bool {
    Compare(a, b) <= 0
  }

  /** The comparator orders by the key (timestamp, time string): the earlier
      instant first, and on the same instant the smaller time string first. */
  lemma NotAfterIsKeyOrder(a: Event, b: Event)
    ensures NotAfter(a, b) <==>
      GetTime(a.date) < GetTime(b.date)
      || (GetTime(a.date) == GetTime(b.date) && (LexLess(a.time, b.time) || a.time == b.time))
  {
    LocaleCompareConsistent(a.time, b.time);
  }

  /** Swapping the arguments flips the comparator's sign, and it is zero only on
      events with the same instant and the same time string. */
  lemma CompareAntisymmetric(a: Event, b: Event)
    ensures Compare(a, b) < 0 <==> Compare(b, a) > 0
    ensures Compare(a, b) == 0 <==> GetTime(a.date) == GetTime(b.date) && a.time == b.time
  {
    LocaleCompareConsistent(a.time, b.time);
  }

  lemma NotAfterTotal()
    ensures Sorting.Total(NotAfter)
  {
    forall a: Event, b: Event
      ensures NotAfter(a, b) || NotAfter(b, a)
    {
      CompareAntisymmetric(a, b);
    }
  }

  lemma NotAfterTransitive()
    ensures Sorting.Transitive(NotAfter)
  {
    forall a: Event, b: Event, c: Event | NotAfter(a, b) && NotAfter(b, c)
      ensures NotAfter(a, c)
    {
      NotAfterIsKeyOrder(a, b);
      NotAfterIsKeyOrder(b, c);
      NotAfterIsKeyOrder(a, c);
      if GetTime(a.date) == GetTime(b.date) == GetTime(c.date)
        && LexLess(a.time, b.time) && LexLess(b.time, c.time) {
        LexLessTransitive(a.time, b.time, c.time);
      }
    }
  }

  /** `const sortedEvents = events.sort(...)`: the caller's array is reordered
      and returned; it ends up ordered by the key and holds the same events. */
  method SortEvents(events: array<Event>) returns (sortedEvents: array<Event>)
    modifies events
    ensures sortedEvents == events
    ensures Sorting.Sorted(sortedEvents[..], NotAfter)
    ensures multiset(sortedEvents[..]) == old(multiset(events[..]))
  {
    NotAfterTotal();
    Sorting.SortInPlace(events, NotAfter);
    NotAfterTransitive();
    Sorting.AdjacentSortedIsSorted(events[..], NotAfter);
    sortedEvents := events;
  }

  /** What the list shows: the "No events yet" state or its entries in order. */
  datatype ListView = NoEventsYet | AllEvents(entries: seq<Event>)

  /** One render of the list over the array it is given. */
  method Render(events: array<Event>) returns (view: ListView)
    modifies events
    ensures view.NoEventsYet? <==> events.Length == 0
    ensures view.AllEvents? ==> view.entries == events[..]
    ensures Sorting.Sorted(events[..], NotAfter)
    ensures multiset(events[..]) == old(multiset(events[..]))
  {
    var sortedEvents := SortEvents(events);
    if events.Length == 0 {
      view := NoEventsYet;
    } else {
      view := AllEvents(sortedEvents[..]);
    }
  }

  /** The page hands the list its own `events` array, so rendering the list
      reorders the page's collection; every day view still holds the same
      events as before. */
  method RenderForBoard(board: Board) returns (view: ListView)
    modifies board.events
    ensures view.NoEventsYet? <==> board.events.Length == 0
    ensures view.AllEvents? ==> view.entries == board.events[..]
    ensures Sorting.Sorted(board.events[..], NotAfter)
    ensures forall d: CalendarDay {:trigger EventsOn(board.events[..], d)} ::
      multiset(EventsOn(board.events[..], d)) == multiset(EventsOn(old(board.events[..]), d))
  {
    view := Render(board.events);
    forall d: CalendarDay
      ensures multiset(EventsOn(board.events[..], d)) == multiset(EventsOn(old(board.events[..]), d))
    {
      EventsOnPermutation(board.events[..], old(board.events[..]), d);
    }
  }

  /** `getCategoryColor` of the list; `Other` is the switch's default branch. */
  function CategoryColor(c: Category): string {
    match c
    case Work => "bg-blue-100 text-blue-800 border-blue-200"
    case Personal => "bg-green-100 text-green-800 border-green-200"
    case Health => "bg-purple-100 text-purple-800 border-purple-200"
    case Other => "bg-gray-100 text-gray-800 border-gray-200"
  }

  /** Each category gets its own class string. */
  lemma CategoryColorInjective(c: Category, d: Category)
    ensures CategoryColor(c) == CategoryColor(d) <==> c == d
  {
    if c != d {
      // The sixth character from the end tells the four strings apart.
      var s, t := CategoryColor(c), CategoryColor(d);
      assert s[|s| - 6] != t[|t| - 6];
    }
  }

  /** The edit dialog's state. */
  class EventListView {
    var editingEvent: Option<Event>
    var isEditDialogOpen: bool

    constructor()
      ensures editingEvent == None && !isEditDialogOpen
    {
      editingEvent := None;
      isEditDialogOpen := false;
    }

    /** `handleEditEvent(event)`: remember the event and open the dialog. */
    method HandleEditEvent(e: Event)
      modifies this
      ensures editingEvent == Some(e) && isEditDialogOpen
    {
      editingEvent := Some(e);
      isEditDialogOpen := true;
    }

    /** `handleUpdateEvent(updatedEvent)`: with an event being edited, update the
        page's events with that event's id, then close the dialog; otherwise
        nothing happens. */
    method HandleUpdateEvent(updated: EventDraft, board: Board)
      modifies this, board
      ensures old(editingEvent).Some? ==>
        board.events[..] == Update(old(board.events[..]), old(editingEvent).value.id, updated.AsPatch())
        && editingEvent == None && !isEditDialogOpen
      ensures old(editingEvent).None? ==> unchanged(this) && board.events == old(board.events)
      ensures board.selectedDate == old(board.selectedDate)
      ensures board.isEventFormOpen == old(board.isEventFormOpen)
    {
      if editingEvent.Some? {
        board.UpdateEvent(editingEvent.value.id, updated.AsPatch());
        isEditDialogOpen := false;
        editingEvent := None;
      }
    }
  }
}
