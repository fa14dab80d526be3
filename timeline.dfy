/** What the day and week timelines share: one pixel per minute, boxes for
    timed and all-day events, and the instant an hour cell stands for. */
module Timeline {
  import opened CalendarDate

  /** The shortest box a timed event gets (`Math.max(height, 30)`). */
  const MinHeight := 30

  /** An all-day event fills the whole 1440-pixel day column. */
  const DayHeight := 1440

  /** A positioned box, in pixels (= minutes) from the top of the day column. */
  datatype Box = Box(top: int, height: int)

  const AllDayBox := Box(0, DayHeight)

  /** The box of a timed event: `top = startHour * 60 + startMinute`, height
      the difference of the two clock readings in minutes, at least 30. The
      dates of start and end play no part. */
  function TimedBox(start: int, end: int): Box {
    var top := Hours(start) * 60 + Minutes(start);
    var height := (Hours(end) - Hours(start)) * 60 + (Minutes(end) - Minutes(start));
    Box(top, if height > MinHeight then height else MinHeight)
  }

  /** The box starts at the start's minute of the day and is as tall as the
      clock-time difference, never less than 30; for an event that ends the
      same day at least 30 minutes later, the box ends at the end time. */
  lemma TimedBoxPlacement(start: int, end: int)
    ensures TimedBox(start, end).top == MinuteOfDay(start)
    ensures 0 <= TimedBox(start, end).top < DayHeight
    ensures TimedBox(start, end).height ==
            if MinuteOfDay(end) - MinuteOfDay(start) > MinHeight then MinuteOfDay(end) - MinuteOfDay(start) else MinHeight
    ensures DayOf(start) == DayOf(end) && end - start >= MinHeight ==>
              TimedBox(start, end).height == end - start
              && TimedBox(start, end).top + TimedBox(start, end).height == MinuteOfDay(end)
  {
    InstantParts(start);
    InstantParts(end);
  }

  /** `new Date(d.getFullYear(), d.getMonth(), d.getDate(), hour)`. */
  function AtHour(t: int, hour: int): int {
    var c := DateOf(t);
    LocalDate(c.year, c.month - 1, c.day, hour)
  }

  /** Hour `h` of the day of `t`, on the hour. */
  lemma AtHourOnDay(t: int, h: int)
    requires 0 <= h < 24
    ensures AtHour(t, h) == StartOfDay(DayOf(t)) + h * MinutesPerHour
    ensures DayOf(AtHour(t, h)) == DayOf(t) && Hours(AtHour(t, h)) == h && Minutes(AtHour(t, h)) == 0
  {
    var c := DateOf(t);
    var x := AtHour(t, h);
    LocalDateInRange(c.year, c.month - 1, c.day, h);
    assert DayOf(x) == DayNumber(DateOf(x)) == DayNumber(c) == DayOf(t);
    InstantParts(x);
    AtMinuteOfDay(DayOf(t), h * MinutesPerHour);
  }
}
