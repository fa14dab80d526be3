/** The week view: Sunday to Saturday of the selected date's week, each day a
    column of that day's events on a 24-hour timeline. */
module WeekView {
  import opened CalendarDate
  import opened Events
  import opened Timeline

  /** `eachDayOfInterval({ start: startOfWeek(selected), end: endOfWeek(selected) })`,
      as day numbers. */
  function WeekDays(selected: int): (days: seq<int>)
    ensures |days| == 7
    ensures forall i :: 0 <= i < 7 ==> days[i] == StartOfWeek(DayOf(selected)) + i
  {
    seq(7, i => StartOfWeek(DayOf(selected)) + i)
  }

  /** The seven days run from a Sunday to a Saturday, one day apart, and are
      exactly the days of the selected date's week. */
  lemma WeekDaysAreTheWeek(selected: int)
    ensures Weekday(WeekDays(selected)[0]) == 0 && Weekday(WeekDays(selected)[6]) == 6
    ensures forall i :: 0 <= i < 6 ==> WeekDays(selected)[i + 1] == WeekDays(selected)[i] + 1
    ensures forall n :: n in WeekDays(selected) <==> StartOfWeek(n) == StartOfWeek(DayOf(selected))
  {
    var days := WeekDays(selected);
    var s := StartOfWeek(DayOf(selected));
    assert forall i :: 0 <= i < 7 ==> days[i] == s + i;
    DayOfWeekInWeek(s, 6);
    forall n
      ensures n in days <==> StartOfWeek(n) == s
    {
      InWeekIff(days, s, n);
    }
  }

  /** Seven consecutive days from a Sunday hold exactly the days whose week
      starts on that Sunday. */
  lemma InWeekIff(days: seq<int>, s: int, n: int)
    requires |days| == 7 && Weekday(s) == 0
    requires forall i :: 0 <= i < 7 ==> days[i] == s + i
    ensures n in days <==> StartOfWeek(n) == s
  {
    if n in days {
      var i :| 0 <= i < 7 && days[i] == n;
      DayOfWeekInWeek(s, i);
    }
    if StartOfWeek(n) == s {
      assert days[n - s] == n;
    }
  }

  /** The day `i` days after a Sunday is weekday `i`, for i below seven. */
  lemma DayOfWeekInWeek(s: int, i: int)
    requires Weekday(s) == 0 && 0 <= i < 7
    ensures Weekday(s + i) == i
  {
    var q := (s + 4) / 7;
    assert s + 4 == 7 * q;
    assert s + i + 4 == 7 * q + i;
  }

  /** `getEventStyle(event, day)`: an event that does not start on `day`
      gets an empty box; otherwise all-day events fill the column and timed
      ones are placed by their clock times. */
  function EventStyle(e: Event, day: int): (b: Box)
    ensures !StartsOn(e, day) ==> b == Box(0, 0)
    ensures StartsOn(e, day) && e.allDay ==> b == AllDayBox
    ensures StartsOn(e, day) && !e.allDay ==> b.top == MinuteOfDay(e.start) && b.height >= MinHeight
  {
    TimedBoxPlacement(e.start, e.end);
    if StartsOn(e, day) then
      if e.allDay then AllDayBox else TimedBox(e.start, e.end)
    else Box(0, 0)
  }

  /** One day's column: each of `getEventsForDay(day)` with its box. */
  function Column(events: seq<Event>, day: int): (col: seq<(Event, Box)>)
    ensures |col| == |EventsOnDay(events, day)|
    ensures forall j :: 0 <= j < |col| ==> col[j] == (EventsOnDay(events, day)[j], EventStyle(EventsOnDay(events, day)[j], day))
  {
    var dayEvents := EventsOnDay(events, day);
    seq(|dayEvents|, j requires 0 <= j < |dayEvents| => (dayEvents[j], EventStyle(dayEvents[j], day)))
  }

  /** The columns of the seven days of the week. */
  function Columns(events: seq<Event>, selected: int): seq<seq<(Event, Box)>> {
    var days := WeekDays(selected);
    seq(7, i requires 0 <= i < 7 => Column(events, days[i]))
  }

  /** Every drawn box belongs to an event of that column's day, so the empty
      box is never drawn: each box is the full column or at least 30 tall. */
  lemma ColumnsDrawOnlyThatDay(events: seq<Event>, selected: int)
    ensures |Columns(events, selected)| == 7
    ensures forall i, j :: 0 <= i < 7 && 0 <= j < |Columns(events, selected)[i]| ==>
              var (e, b) := Columns(events, selected)[i][j];
              e in events && StartsOn(e, WeekDays(selected)[i])
              && (b == AllDayBox || b.height >= MinHeight)
  {
    var days := WeekDays(selected);
    forall i, j | 0 <= i < 7 && 0 <= j < |Columns(events, selected)[i]|
      ensures var (e, b) := Columns(events, selected)[i][j];
              e in events && StartsOn(e, days[i]) && (b == AllDayBox || b.height >= MinHeight)
    {
      var dayEvents := EventsOnDay(events, days[i]);
      assert dayEvents[j] in dayEvents;
    }
  }

  /** Clicking the cell of `hour` in the column of `day` (a midnight):
      that day at that hour, minute 0. */
  function HourClick(day: int, hour: int): (t: int)
    requires 0 <= hour < 24
    ensures DayOf(t) == day && Hours(t) == hour && Minutes(t) == 0
  {
    AtHourOnDay(StartOfDay(day), hour);
    AtHour(StartOfDay(day), hour)
  }
}
