/** The create / edit dialog's form (src/components/EventForm.tsx): five
    fields initialised from the event being edited or from defaults, and a
    submit handler that rejects a blank title, hands over a trimmed payload
    and, after a create, resets the fields. */
module EventForm {
  import opened Wrappers
  import opened Text
  import opened Dates
  import opened Schedule

  /** The time a new event starts with. */
  const DefaultTime := "09:00"

  /** `value || fallback` for an optional string: a missing or empty value
      gives the fallback. */
  function OrElse(value: Option<string>, fallback: string): string {
    if value.Some? && value.value != "" then value.value else fallback
  }

  /** What `handleSubmit` hands to `onSubmit` for the given field values, or
      None when the trimmed title is empty. The date field holds a calendar
      day, which `new Date(date)` turns into that day's midnight. */
  function Submission(title: string, date: CalendarDay, time: string, description: string,
                      category: Category): Option<EventDraft>
  {
    var trimmed := Trim(title);
    if trimmed == [] then None
    else Some(EventDraft(trimmed, Instant(date, 0), time, Some(Trim(description)), category))
  }

  /** A blank title is refused and only a blank one; an accepted payload carries
      the entered title and description trimmed, the title non-empty with no
      whitespace at either end (so trimming again leaves both as they are), and
      the time, category and day exactly as entered, at midnight. */
  lemma SubmissionSpec(title: string, date: CalendarDay, time: string, description: string,
                       category: Category)
    ensures var r := Submission(title, date, time, description, category);
      && (r.None? <==> AllWhitespace(title))
      && (r.Some? ==>
        && r.value.title == Trim(title) && r.value.description == Some(Trim(description))
        && r.value.title != [] && !IsWhitespace(r.value.title[0])
        && !IsWhitespace(r.value.title[|r.value.title| - 1])
        && Trim(r.value.title) == r.value.title && r.value.description.Some?
        && Trim(r.value.description.value) == r.value.description.value
        && r.value.time == time && r.value.category == category
        && r.value.date == Instant(date, 0))
  {
    TrimIdempotent(title);
    TrimIdempotent(description);
  }

  /** The form's state. */
  class Form {
    var title: string
    var date: CalendarDay
    var time: string
    var description: string
    var category: Category
    const initialEvent: Option<Event>

    /** The initial `useState` values: from the edited event where it has
        them (`initialEvent?.field || default`), otherwise the defaults with
        `initialDate`. */
    constructor(initialDate: CalendarDay, initialEvent: Option<Event>)
      ensures this.initialEvent == initialEvent
      ensures initialEvent.None? ==>
        title == "" && date == initialDate && time == DefaultTime && description == ""
        && category == Personal
      ensures initialEvent.Some? ==>
        var e := initialEvent.value;
        title == e.title && date == e.date.day && time == (if e.time == "" then DefaultTime else e.time)
        && description == e.description.GetOr("") && category == e.category
    {
      this.initialEvent := initialEvent;
      if initialEvent.Some? {
        var e := initialEvent.value;
        title := OrElse(Some(e.title), "");
        date := e.date.day;
        time := OrElse(Some(e.time), DefaultTime);
        description := OrElse(e.description, "");
        category := e.category;
      } else {
        title := "";
        date := initialDate;
        time := DefaultTime;
        description := "";
        category := Personal;
      }
    }

    /** `handleSubmit`: a blank title returns early and changes nothing;
        otherwise the payload goes out, and a create form (no `initialEvent`)
        clears its fields except the date. */
    method HandleSubmit() returns (submitted: Option<EventDraft>)
      modifies this
      ensures submitted == Submission(old(title), old(date), old(time), old(description), old(category))
      ensures submitted.None? || initialEvent.Some? ==> unchanged(this)
      ensures submitted.Some? && initialEvent.None? ==>
        title == "" && description == "" && time == DefaultTime && category == Personal
        && date == old(date)
    {
      var payload := Submission(title, date, time, description, category);
      if payload.None? {
        return None;
      }
      submitted := payload;
      if initialEvent.None? {
        title := "";
        description := "";
        time := DefaultTime;
        category := Personal;
      }
    }
  }

  /** Saving an edit form without touching it gives back the same event, except
      that its date moves to midnight and a missing description becomes empty:
      the fields it starts from are already what submitting produces. */
  lemma UneditedSubmission(e: Event)
    requires e.title != [] && !IsWhitespace(e.title[0]) && !IsWhitespace(e.title[|e.title| - 1])
    requires e.time != ""
    requires var d := e.description.GetOr("");
      d == [] || (!IsWhitespace(d[0]) && !IsWhitespace(d[|d| - 1]))
    ensures var s := Submission(e.title, e.date.day, e.time, e.description.GetOr(""), e.category);
      && s.Some?
      && Merge(e, s.value.AsPatch())
        == Event(e.id, e.title, Instant(e.date.day, 0), e.time, Some(e.description.GetOr("")), e.category)
  {
    TrimNoOp(e.title);
    TrimNoOp(e.description.GetOr(""));
  }

  /** The page's "Add New Event" dialog: the form submits into `addEvent`,
      with `id` standing for `Date.now().toString()`. */
  method SubmitNewEvent(form: Form, board: Board, id: string) returns (added: bool)
    requires form.initialEvent.None?
    modifies form, board
    ensures var s := Submission(old(form.title), old(form.date), old(form.time),
                                old(form.description), old(form.category));
      && (added <==> s.Some?)
      && (added ==> board.events[..] == old(board.events[..]) + [s.value.WithId(id)] && !board.isEventFormOpen)
      && (!added ==> board.events == old(board.events) && board.isEventFormOpen == old(board.isEventFormOpen))
    ensures board.selectedDate == old(board.selectedDate)
    ensures !added ==> unchanged(form)
    ensures added ==>
      form.title == "" && form.description == "" && form.time == DefaultTime
      && form.category == Personal && form.date == old(form.date)
  {
    var submitted := form.HandleSubmit();
    added := submitted.Some?;
    if added {
      board.AddEvent(submitted.value, id);
    }
  }
}
