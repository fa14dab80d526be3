/** The day view: the selected day's events on a 24-hour timeline. */
module DayView {
  import opened Seqs
  import opened CalendarDate
  import opened Events
  import opened Timeline

  /** `dayEvents`: the events starting on the selected day, in list order. */
  function DayEvents(events: seq<Event>, selected: int): seq<Event> {
    EventsOnDay(events, DayOf(selected))
  }

  /** `getEventStyle(event)`: all-day events fill the column, timed ones are
      placed by their clock times. */
  function EventStyle(e: Event): (b: Box)
    ensures e.allDay ==> b == AllDayBox
    ensures !e.allDay ==> b.top == MinuteOfDay(e.start) && b.height >= MinHeight
  {
    TimedBoxPlacement(e.start, e.end);
    if e.allDay then AllDayBox else TimedBox(e.start, e.end)
  }

  /** The events drawn inside the row of `hour`: all of them in row 0, none
      elsewhere. */
  function HourRow(events: seq<Event>, selected: int, hour: int): seq<Event> {
    if hour == 0 then DayEvents(events, selected) else []
  }

  /** Across the 24 rows every event of the day is drawn exactly once, in
      list order, and nothing else is drawn. */
  lemma HourRowsDrawEachOnce(events: seq<Event>, selected: int)
    ensures Flatten(seq(24, h => HourRow(events, selected, h))) == DayEvents(events, selected)
  {
    var rows := seq(24, h => HourRow(events, selected, h));
    FlattenEmptyRows(rows[1..]);
    assert rows[0] == DayEvents(events, selected);
  }

  /** The shown events are exactly the list's events that start on the
      selected day. */
  lemma DayEventsExact(events: seq<Event>, selected: int)
    ensures forall e :: e in DayEvents(events, selected) <==> e in events && DayOf(e.start) == DayOf(selected)
    ensures IsSubsequence(DayEvents(events, selected), events)
  {
    EventsOnDayExact(events, DayOf(selected));
  }

  /** Clicking the row of `hour`: the selected day at that hour, minute 0. */
  function HourClick(selected: int, hour: int): (t: int)
    requires 0 <= hour < 24
    ensures DayOf(t) == DayOf(selected) && Hours(t) == hour && Minutes(t) == 0
  {
    AtHourOnDay(selected, hour);
    AtHour(selected, hour)
  }
}
