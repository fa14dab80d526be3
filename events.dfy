/** An event as the browser holds it (one element of the list the store
    returns), and the per-day filter every view uses. */
module Events {
  import opened Seqs
  import opened CalendarDate

  /** A client-side event record. Optional fields may be absent from the
      object (`None`); instants are minutes since 1970-01-01 00:00 local. */
  datatype Event = Event(
    mongoId: Option<string>,      // `_id`, set by the store
    id: Option<string>,           // `id`
    title: Option<string>,
    description: Option<string>,
    location: Option<string>,
    start: int,                   // `start_time`
    end: int,                     // `end_time`
    allDay: bool,                 // `all_day`
    color: Option<string>)

  /** `event._id || event.id`: `_id` when it is a non-empty string, otherwise
      `id` (which may be absent; two absent keys compare equal under `===`). */
  function Key(e: Event): (k: Option<string>)
    ensures e.mongoId.Some? && e.mongoId.value != "" ==> k == e.mongoId
    ensures (e.mongoId.None? || e.mongoId.value == "") ==> k == e.id
  {
    if e.mongoId.Some? && e.mongoId.value != "" then e.mongoId else e.id
  }

  /** `isSameDay(new Date(event.start_time), day)`. */
  predicate StartsOn(e: Event, day: int) {
    DayOf(e.start) == day
  }

  /** `getEventsForDay(date)`: the events whose start falls on `day`, in list order. */
  function EventsOnDay(events: seq<Event>, day: int): (r: seq<Event>)
    ensures forall e :: e in r ==> e in events && StartsOn(e, day)
  {
    Filter(e => StartsOn(e, day), events)
  }

  /** A day's events are exactly the listed events that start that day, and
      they keep the list's order. */
  lemma EventsOnDayExact(events: seq<Event>, day: int)
    ensures forall e :: e in EventsOnDay(events, day) <==> e in events && StartsOn(e, day)
    ensures IsSubsequence(EventsOnDay(events, day), events)
  {
    forall e | true
      ensures e in EventsOnDay(events, day) <==> e in events && StartsOn(e, day)
    {
      FilterMembership(e => StartsOn(e, day), events, e);
    }
    FilterIsSubsequence(e => StartsOn(e, day), events);
  }

  /** Every event appears on exactly one day: the filters of distinct days are
      disjoint. */
  lemma EventsOnDistinctDaysDisjoint(events: seq<Event>, a: int, b: int)
    requires a != b
    ensures forall e :: e in EventsOnDay(events, a) ==> e !in EventsOnDay(events, b)
  {
  }

  /** Splitting the list: the day filter of a concatenation is the
      concatenation of the day filters. */
  lemma EventsOnDayAppend(a: seq<Event>, b: seq<Event>, day: int)
    ensures EventsOnDay(a + b, day) == EventsOnDay(a, day) + EventsOnDay(b, day)
  {
    FilterAppend(e => StartsOn(e, day), a, b);
  }
}
