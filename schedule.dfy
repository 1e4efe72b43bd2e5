/** The event collection of the main page (src/pages/Index.tsx): the Event
    record, the seed list, add / delete / update, and the per-day views that
    feed the "today" panel and the selected-date panel. */
module Schedule {
  import opened Wrappers
  import opened Dates

  datatype Category = Work | Personal | Health | Other

  /** An event as the page stores it; the description is optional. */
  datatype Event = Event(id: string, title: string, date: Instant, time: string,
                         description: Option<string>, category: Category)

  /** `Omit<Event, 'id'>`: what the event form submits. */
  datatype EventDraft = EventDraft(title: string, date: Instant, time: string,
                                   description: Option<string>, category: Category)
  {
    /** `{ ...event, id }` */
    function WithId(id: string): Event {
      Event(id, title, date, time, description, category)
    }

    /** The same fields as a `Partial<Event>` that supplies everything but the id. */
    function AsPatch(): EventPatch {
      EventPatch(None, Some(title), Some(date), Some(time), description, Some(category))
    }
  }

  /** `Partial<Event>`: each field is either supplied or absent. */
  datatype EventPatch = EventPatch(id: Option<string>, title: Option<string>, date: Option<Instant>,
                                   time: Option<string>, description: Option<string>,
                                   category: Option<Category>)

  /** `{ ...event, ...patch }`: a supplied field replaces the event's own. */
  function Merge(e: Event, p: EventPatch): (r: Event)
    ensures p.id.Some? ==> r.id == p.id.value
    ensures p.id.None? ==> r.id == e.id
    ensures p.title.Some? ==> r.title == p.title.value
    ensures p.title.None? ==> r.title == e.title
    ensures p.date.Some? ==> r.date == p.date.value
    ensures p.date.None? ==> r.date == e.date
    ensures p.time.Some? ==> r.time == p.time.value
    ensures p.time.None? ==> r.time == e.time
    ensures p.description.Some? ==> r.description == p.description
    ensures p.description.None? ==> r.description == e.description
    ensures p.category.Some? ==> r.category == p.category.value
    ensures p.category.None? ==> r.category == e.category
  {
    Event(p.id.GetOr(e.id), p.title.GetOr(e.title), p.date.GetOr(e.date), p.time.GetOr(e.time),
          if p.description.Some? then p.description else e.description,
          p.category.GetOr(e.category))
  }

  /** Merging the same patch twice is merging it once. */
  lemma MergeIdempotent(e: Event, p: EventPatch)
    ensures Merge(Merge(e, p), p) == Merge(e, p)
  {
  }

  // ---------------------------------------------------------------------------
  // Array.prototype.filter and map over the event list

  /** `events.filter(keep)`. */
  function Filter(s: seq<Event>, keep: Event -> bool): seq<Event> {
    if s == [] then [] else (if keep(s[0]) then [s[0]] else []) + Filter(s[1..], keep)
  }

  /** Filtering keeps every copy of each kept event and no copy of the others. */
  lemma {:induction false} FilterCount(s: seq<Event>, keep: Event -> bool)
    ensures forall e :: multiset(Filter(s, keep))[e] == if keep(e) then multiset(s)[e] else 0
  {
    if s != [] {
      FilterCount(s[1..], keep);
      assert s == [s[0]] + s[1..];
    }
  }

  /** Filtering keeps exactly the events it should. */
  lemma FilterMembers(s: seq<Event>, keep: Event -> bool, e: Event)
    ensures e in Filter(s, keep) <==> e in s && keep(e)
  {
    FilterCount(s, keep);
    assert e in Filter(s, keep) <==> multiset(Filter(s, keep))[e] > 0;
    assert e in s <==> multiset(s)[e] > 0;
  }

  /** Filtering keeps the relative order: it distributes over concatenation. */
  lemma {:induction false} FilterConcat(a: seq<Event>, b: seq<Event>, keep: Event -> bool)
    ensures Filter(a + b, keep) == Filter(a, keep) + Filter(b, keep)
  {
    if a == [] {
      assert a + b == b;
    } else {
      var h := if keep(a[0]) then [a[0]] else [];
      assert (a + b)[0] == a[0] && (a + b)[1..] == a[1..] + b;
      assert Filter(a + b, keep) == h + Filter(a[1..] + b, keep);
      FilterConcat(a[1..], b, keep);
    }
  }

  /** A filter that rejects nothing is the identity. */
  lemma {:induction false} FilterKeepsAll(s: seq<Event>, keep: Event -> bool)
    requires forall e :: e in s ==> keep(e)
    ensures Filter(s, keep) == s
  {
    if s != [] { FilterKeepsAll(s[1..], keep); }
  }

  // ---------------------------------------------------------------------------
  // The list transforms of the page

  /** `deleteEvent`: `events.filter(event => event.id !== eventId)`. */
  function Delete(events: seq<Event>, id: string): (r: seq<Event>)
    ensures forall e :: multiset(r)[e] == if e.id == id then 0 else multiset(events)[e]
  {
    FilterCount(events, (e: Event) => e.id != id);
    Filter(events, (e: Event) => e.id != id)
  }

  /** Deleting an id nobody has changes nothing. */
  lemma DeleteUnknownId(events: seq<Event>, id: string)
    requires forall e :: e in events ==> e.id != id
    ensures Delete(events, id) == events
  {
    FilterKeepsAll(events, (e: Event) => e.id != id);
  }

  /** `updateEvent`: `events.map(event => event.id === eventId ? { ...event, ...patch } : event)`. */
  function Update(events: seq<Event>, id: string, p: EventPatch): (r: seq<Event>)
    ensures |r| == |events|
    ensures forall i :: 0 <= i < |events| ==>
      r[i] == if events[i].id == id then Merge(events[i], p) else events[i]
  {
    if events == [] then []
    else [if events[0].id == id then Merge(events[0], p) else events[0]] + Update(events[1..], id, p)
  }

  /** Updating an id nobody has changes nothing. */
  lemma UpdateUnknownId(events: seq<Event>, id: string, p: EventPatch)
    requires forall e :: e in events ==> e.id != id
    ensures Update(events, id, p) == events
  {
    var r := Update(events, id, p);
    assert forall i :: 0 <= i < |events| ==> r[i] == events[i] by {
      forall i | 0 <= i < |events| ensures r[i] == events[i] {
        assert events[i] in events;
      }
    }
  }

  /** A patch made from a form submission never changes an id, so the edited
      events keep theirs and nothing else is affected. */
  lemma UpdateFromDraftKeepsIds(events: seq<Event>, id: string, d: EventDraft)
    ensures forall i :: 0 <= i < |events| ==> Update(events, id, d.AsPatch())[i].id == events[i].id
  {
  }

  /** The events on one calendar day, in collection order: the filters behind
      `todayEvents`, `selectedDateEvents` and the calendar's `getEventsForDate`
      (`toDateString` equality compares the calendar day only). */
  function EventsOn(events: seq<Event>, day: CalendarDay): seq<Event> {
    Filter(events, (e: Event) => e.date.day == day)
  }

  /** A day view holds every copy of each event of that day and nothing else. */
  lemma EventsOnCount(events: seq<Event>, day: CalendarDay)
    ensures forall e ::
      multiset(EventsOn(events, day))[e] == if e.date.day == day then multiset(events)[e] else 0
  {
    FilterCount(events, (e: Event) => e.date.day == day);
  }

  /** The day views list exactly the events of that day... */
  lemma EventsOnMembers(events: seq<Event>, day: CalendarDay, e: Event)
    ensures e in EventsOn(events, day) <==> e in events && e.date.day == day
  {
    FilterMembers(events, (x: Event) => x.date.day == day, e);
  }

  /** ...in the order of the collection. */
  lemma EventsOnConcat(a: seq<Event>, b: seq<Event>, day: CalendarDay)
    ensures EventsOn(a + b, day) == EventsOn(a, day) + EventsOn(b, day)
  {
    FilterConcat(a, b, (e: Event) => e.date.day == day);
  }

  /** Reordering the collection (as the list view's in-place sort does) does not
      change which events a day view holds, only their order. */
  lemma EventsOnPermutation(a: seq<Event>, b: seq<Event>, day: CalendarDay)
    requires multiset(a) == multiset(b)
    ensures multiset(EventsOn(a, day)) == multiset(EventsOn(b, day))
  {
    var ra, rb := EventsOn(a, day), EventsOn(b, day);
    EventsOnCount(a, day);
    EventsOnCount(b, day);
    assert forall e :: multiset(ra)[e] == multiset(rb)[e];
  }

  /** After a delete no day view shows an event with that id. */
  lemma DeletedNeverOnAnyDay(events: seq<Event>, id: string, day: CalendarDay, e: Event)
    requires e in EventsOn(Delete(events, id), day)
    ensures e.id != id
  {
    EventsOnMembers(Delete(events, id), day, e);
    assert multiset(Delete(events, id))[e] > 0;
  }

  // ---------------------------------------------------------------------------
  // Identifiers

  predicate UniqueIds(events: seq<Event>) {
    forall i, j :: 0 <= i < j < |events| ==> events[i].id != events[j].id
  }

  /** `addEvent` takes the id it is given (`Date.now()`) without checking it: the
      list keeps unique ids exactly when the new id is not already in use. */
  lemma AppendUniqueIds(events: seq<Event>, e: Event)
    requires UniqueIds(events)
    ensures UniqueIds(events + [e]) <==> forall x :: x in events ==> x.id != e.id
  {
    var s := events + [e];
    if !forall x :: x in events ==> x.id != e.id {
      var x :| x in events && x.id == e.id;
      var i :| 0 <= i < |events| && events[i] == x;
      assert s[i].id == s[|events|].id;
    }
  }

  /** The two events the page starts with, both dated "now". */
  function SeedEvents(now: Instant): seq<Event> {
    [ Event("1", "Team Meeting", now, "10:00", Some("Weekly team sync"), Work),
      Event("2", "Gym Session", now, "18:00", Some("Upper body workout"), Health) ]
  }

  /** A fresh array holding `s` (the new array each `setEvents` call installs). */
  method ToArray(s: seq<Event>) returns (a: array<Event>)
    ensures fresh(a) && a[..] == s
  {
    a := new Event[|s|](i requires 0 <= i < |s| => s[i]);
  }

  /** The page's state: the event list (an array that child components receive
      by reference), the selected date and whether the "add event" dialog is open. */
  class Board {
    var events: array<Event>
    var selectedDate: CalendarDay
    var isEventFormOpen: bool

    constructor(now: Instant)
      ensures fresh(events) && events[..] == SeedEvents(now)
      ensures selectedDate == now.day && !isEventFormOpen
    {
      var seed := ToArray(SeedEvents(now));
      events := seed;
      selectedDate := now.day;
      isEventFormOpen := false;
    }

    /** `addEvent(event)` with `id` standing for `Date.now().toString()`. */
    method AddEvent(draft: EventDraft, id: string)
      modifies this
      ensures fresh(events) && events[..] == old(events[..]) + [draft.WithId(id)]
      ensures !isEventFormOpen && selectedDate == old(selectedDate)
    {
      events := ToArray(events[..] + [draft.WithId(id)]);
      isEventFormOpen := false;
    }

    /** `deleteEvent(eventId)`. */
    method DeleteEvent(id: string)
      modifies this
      ensures fresh(events) && events[..] == Delete(old(events[..]), id)
      ensures isEventFormOpen == old(isEventFormOpen) && selectedDate == old(selectedDate)
    {
      events := ToArray(Delete(events[..], id));
    }

    /** `updateEvent(eventId, updatedEvent)`. */
    method UpdateEvent(id: string, p: EventPatch)
      modifies this
      ensures fresh(events) && events[..] == Update(old(events[..]), id, p)
      ensures isEventFormOpen == old(isEventFormOpen) && selectedDate == old(selectedDate)
    {
      events := ToArray(Update(events[..], id, p));
    }

    /** `todayEvents`, with `today` standing for `new Date()`: a new array. */
    method TodayEvents(today: CalendarDay) returns (view: array<Event>)
      ensures fresh(view) && view[..] == EventsOn(events[..], today)
    {
      view := ToArray(EventsOn(events[..], today));
    }

    /** `selectedDateEvents`: a new array. */
    method SelectedDateEvents() returns (view: array<Event>)
      ensures fresh(view) && view[..] == EventsOn(events[..], selectedDate)
    {
      view := ToArray(EventsOn(events[..], selectedDate));
    }
  }
}
