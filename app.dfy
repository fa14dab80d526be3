/** The top-level component: the client's copy of the event list, the selected
    date and view, the modal's state, and the handlers that patch the list from
    the store's replies (no refetch). Remote calls are not made here: each
    handler receives the reply its call produced, `Ok(..)` when the promise
    resolved and `Fail` when it threw. */
module App {
  import opened Seqs
  import opened Events

  datatype View = Day | Week | Month | Year

  /** The outcome of one awaited remote call. */
  datatype Reply<T> = Ok(value: T) | Fail

  /** Which handler a save from the modal is routed to. */
  datatype SaveRoute = CreateRoute | UpdateRoute

  // ---- reconciliation of the list with a reply (pure) -------------------

  /** `[...events, newEvent]`. */
  function AppendCreated(events: seq<Event>, created: Event): (r: seq<Event>)
    ensures |r| == |events| + 1
    ensures r[..|events|] == events && r[|events|] == created
  {
    events + [created]
  }

  /** `events.map(e => key(e) === eventId ? updated : e)`. */
  function ReplaceUpdated(events: seq<Event>, eventId: Option<string>, updated: Event): (r: seq<Event>)
    ensures |r| == |events|
    ensures forall i :: 0 <= i < |events| && Key(events[i]) == eventId ==> r[i] == updated
    ensures forall i :: 0 <= i < |events| && Key(events[i]) != eventId ==> r[i] == events[i]
  {
    if events == [] then []
    else [if Key(events[0]) == eventId then updated else events[0]]
         + ReplaceUpdated(events[1..], eventId, updated)
  }

  predicate HasKey(eventId: Option<string>, e: Event) {
    Key(e) == eventId
  }

  /** `events.filter(e => key(e) !== eventId)`. */
  function RemoveDeleted(events: seq<Event>, eventId: Option<string>): seq<Event> {
    Filter(e => !HasKey(eventId, e), events)
  }

  /** Delete keeps exactly the events with another key, in their relative
      order, and drops as many as carry the key. */
  lemma RemoveDeletedExact(events: seq<Event>, eventId: Option<string>)
    ensures forall e :: e in RemoveDeleted(events, eventId) <==> e in events && Key(e) != eventId
    ensures IsSubsequence(RemoveDeleted(events, eventId), events)
    ensures |RemoveDeleted(events, eventId)| == |events| - Count(e => HasKey(eventId, e), events)
  {
    var keep := (e: Event) => !HasKey(eventId, e);
    forall e | true
      ensures e in RemoveDeleted(events, eventId) <==> e in events && Key(e) != eventId
    {
      FilterMembership(keep, events, e);
    }
    FilterIsSubsequence(keep, events);
    FilterCount(keep, events);
    CountComplement(eventId, events);
  }

  lemma {:induction false} CountComplement(eventId: Option<string>, events: seq<Event>)
    ensures Count(e => !HasKey(eventId, e), events) + Count(e => HasKey(eventId, e), events) == |events|
  {
    if events != [] {
      CountComplement(eventId, events[1..]);
    }
  }

  /** Deleting a key no event carries leaves the list as it was. */
  lemma RemoveDeletedAbsent(events: seq<Event>, eventId: Option<string>)
    requires forall i :: 0 <= i < |events| ==> Key(events[i]) != eventId
    ensures RemoveDeleted(events, eventId) == events
  {
    FilterAllPass(e => !HasKey(eventId, e), events);
  }

  /** Creating an event and then deleting its key leaves the same list as
      deleting that key from the original list. */
  lemma DeleteAfterCreate(events: seq<Event>, created: Event)
    ensures RemoveDeleted(AppendCreated(events, created), Key(created)) == RemoveDeleted(events, Key(created))
  {
    var keep := (e: Event) => !HasKey(Key(created), e);
    FilterAppend(keep, events, [created]);
    assert Filter(keep, [created]) == [];
  }

  /** Replacing with a record that carries the edited key keeps every key in
      place, so a second identical update changes nothing. */
  lemma {:induction false} ReplaceUpdatedIdempotent(events: seq<Event>, eventId: Option<string>, updated: Event)
    requires Key(updated) == eventId
    ensures forall i :: 0 <= i < |events| ==> Key(ReplaceUpdated(events, eventId, updated)[i]) == Key(events[i])
    ensures ReplaceUpdated(ReplaceUpdated(events, eventId, updated), eventId, updated)
            == ReplaceUpdated(events, eventId, updated)
  {
    if events != [] {
      ReplaceUpdatedIdempotent(events[1..], eventId, updated);
    }
  }

  // ---- component state ---------------------------------------------------

  class CalendarApp {
    var events: seq<Event>
    var selectedDate: int
    var view: View
    var showEventModal: bool
    var selectedEvent: Option<Event>
    var loading: bool

    /** An event is selected only while the modal is open. */
    predicate Valid()
      reads this
    {
      !showEventModal ==> selectedEvent.None?
    }

    /** Initial state; `now` is the clock reading behind `new Date()`. */
    constructor (now: int)
      ensures Valid()
      ensures events == [] && selectedDate == now && view == Month
      ensures !showEventModal && selectedEvent.None? && loading
    {
      events := [];
      selectedDate := now;
      view := Month;
      showEventModal := false;
      selectedEvent := None;
      loading := true;
    }

    /** `fetchEvents`: a failed load keeps the list as it was; loading ends
        either way. */
    method FetchEvents(reply: Reply<seq<Event>>) returns (alert: Option<string>)
      requires Valid()
      modifies this`events, this`loading
      ensures Valid()
      ensures events == (if reply.Ok? then reply.value else old(events))
      ensures !loading
      ensures alert == (if reply.Ok? then None else Some("Failed to load events"))
    {
      loading := true;
      alert := None;
      if reply.Ok? {
        events := reply.value;
      } else {
        alert := Some("Failed to load events");
      }
      loading := false;
    }

    /** `handleCreateEvent`: routed here only when no event is selected. */
    method HandleCreateEvent(reply: Reply<Event>) returns (alert: Option<string>)
      requires Valid() && selectedEvent.None?
      modifies this`events, this`showEventModal
      ensures Valid()
      ensures reply.Ok? ==> events == AppendCreated(old(events), reply.value) && !showEventModal
      ensures reply.Fail? ==> events == old(events) && showEventModal == old(showEventModal)
      ensures alert == (if reply.Ok? then None else Some("Failed to create event"))
    {
      alert := None;
      if reply.Ok? {
        events := AppendCreated(events, reply.value);
        showEventModal := false;
      } else {
        alert := Some("Failed to create event");
      }
    }

    /** `handleUpdateEvent`: the key is read from the selected event before the
        call; with no selected event that read throws and the handler only
        alerts. */
    method HandleUpdateEvent(reply: Reply<Event>) returns (alert: Option<string>)
      requires Valid()
      modifies this`events, this`showEventModal, this`selectedEvent
      ensures Valid()
      ensures old(selectedEvent).Some? && reply.Ok? ==>
                events == ReplaceUpdated(old(events), Key(old(selectedEvent).value), reply.value)
                && !showEventModal && selectedEvent.None?
      ensures old(selectedEvent).None? || reply.Fail? ==>
                events == old(events) && showEventModal == old(showEventModal)
                && selectedEvent == old(selectedEvent)
      ensures alert == (if old(selectedEvent).Some? && reply.Ok? then None else Some("Failed to update event"))
    {
      alert := None;
      if selectedEvent.None? || reply.Fail? {
        alert := Some("Failed to update event");
      } else {
        var eventId := Key(selectedEvent.value);
        events := ReplaceUpdated(events, eventId, reply.value);
        showEventModal := false;
        selectedEvent := None;
      }
    }

    /** `handleDeleteEvent(eventId)`. */
    method HandleDeleteEvent(eventId: Option<string>, reply: Reply<()>) returns (alert: Option<string>)
      requires Valid()
      modifies this`events, this`showEventModal, this`selectedEvent
      ensures Valid()
      ensures reply.Ok? ==> events == RemoveDeleted(old(events), eventId) && !showEventModal && selectedEvent.None?
      ensures reply.Fail? ==> events == old(events) && showEventModal == old(showEventModal)
                              && selectedEvent == old(selectedEvent)
      ensures alert == (if reply.Ok? then None else Some("Failed to delete event"))
    {
      alert := None;
      if reply.Ok? {
        events := RemoveDeleted(events, eventId);
        showEventModal := false;
        selectedEvent := None;
      } else {
        alert := Some("Failed to delete event");
      }
    }

    /** `onSave={selectedEvent ? handleUpdateEvent : handleCreateEvent}`. */
    function SaveTarget(): (r: SaveRoute)
      reads this
      ensures r == UpdateRoute <==> selectedEvent.Some?
    {
      if selectedEvent.Some? then UpdateRoute else CreateRoute
    }

    /** `onDelete={selectedEvent ? handleDeleteEvent : null}`. */
    predicate DeleteOffered()
      reads this
    {
      selectedEvent.Some?
    }

    /** A save from the modal, dispatched as `onSave` is wired. */
    method Save(reply: Reply<Event>) returns (alert: Option<string>)
      requires Valid()
      modifies this`events, this`showEventModal, this`selectedEvent
      ensures Valid()
      ensures reply.Ok? && old(selectedEvent).Some? ==>
                events == ReplaceUpdated(old(events), Key(old(selectedEvent).value), reply.value)
      ensures reply.Ok? && old(selectedEvent).None? ==> events == AppendCreated(old(events), reply.value)
      ensures reply.Fail? ==> events == old(events)
    {
      if SaveTarget() == UpdateRoute {
        alert := HandleUpdateEvent(reply);
      } else {
        alert := HandleCreateEvent(reply);
      }
    }

    /** `handleEventClick`: open the modal on an existing event. */
    method HandleEventClick(e: Event)
      modifies this`selectedEvent, this`showEventModal
      ensures Valid()
      ensures selectedEvent == Some(e) && showEventModal
    {
      selectedEvent := Some(e);
      showEventModal := true;
    }

    /** `handleDateClick`: open the modal to create an event on `date`. */
    method HandleDateClick(date: int)
      modifies this`selectedDate, this`selectedEvent, this`showEventModal
      ensures Valid()
      ensures selectedDate == date && selectedEvent.None? && showEventModal
    {
      selectedDate := date;
      selectedEvent := None;
      showEventModal := true;
    }

    /** `handleCloseModal`. */
    method HandleCloseModal()
      modifies this`selectedEvent, this`showEventModal
      ensures Valid()
      ensures !showEventModal && selectedEvent.None?
    {
      showEventModal := false;
      selectedEvent := None;
    }

    /** `onCreateEvent={() => setShowEventModal(true)}` from the header and sidebar. */
    method OpenCreate()
      modifies this`showEventModal
      ensures showEventModal
      ensures Valid()
    {
      showEventModal := true;
    }

    /** `onDateChange={setSelectedDate}` and `onViewChange={setView}`. */
    method ChangeDate(date: int)
      modifies this`selectedDate
      ensures selectedDate == date
    {
      selectedDate := date;
    }

    method ChangeView(v: View)
      modifies this`view
      ensures view == v
    {
      view := v;
    }
  }
}
