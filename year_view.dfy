/** The year view: twelve mini-months of the selected date's year, each a
    whole-week grid chunked into rows of seven, with up to three event dots
    per in-month day and a grey dot for the rest. */
module YearView {
  import opened Seqs
  import opened CalendarDate
  import opened Events
  import opened MonthGrid

  const MaxDots := 3

  /** `months`: `new Date(year, i, 1)` for i = 0..11. */
  function Months(selected: int): (ms: seq<int>)
    ensures |ms| == 12
  {
    seq(12, i => LocalDate(DateOf(selected).year, i, 1, 0))
  }

  /** The twelve months are midnight on the 1st of January through December
      of the selected year, in order. */
  lemma MonthsOfYear(selected: int)
    ensures forall i :: 0 <= i < 12 ==>
              DateOf(Months(selected)[i]) == Date(DateOf(selected).year, i + 1, 1)
              && MinuteOfDay(Months(selected)[i]) == 0
  {
    var y := DateOf(selected).year;
    forall i | 0 <= i < 12
      ensures DateOf(Months(selected)[i]) == Date(y, i + 1, 1) && MinuteOfDay(Months(selected)[i]) == 0
    {
      LocalDateInRange(y, i, 1, 0);
    }
  }

  /** One entry of `days`: its day number, `getDate()`, the month and today
      flags (`isSameMonth(day, monthStart)` taken as the range test it is
      equivalent to) and the day's events. */
  datatype DayInfo = DayInfo(date: int, dayNum: int, isCurrentMonth: bool, isCurrentDay: bool, events: seq<Event>)

  function DayCell(events: seq<Event>, monthStart: int, monthEnd: int, today: int, n: int): DayInfo {
    DayInfo(n, CivilOf(n).day, monthStart <= n <= monthEnd, n == today, EventsOnDay(events, n))
  }

  /** `renderMonth(monthStart)`: the days from the grid's Sunday to its
      Saturday, then `weeks.push(days.slice(i, i + 7))` for i = 0, 7, ... */
  method RenderMonth(events: seq<Event>, monthStart: int, today: int) returns (days: seq<DayInfo>, weeks: seq<seq<DayInfo>>)
    ensures |days| == GridEndOf(monthStart) - GridStartOf(monthStart) + 1
    ensures forall i :: 0 <= i < |days| ==>
              days[i] == DayCell(events, MonthStartOf(monthStart), MonthEndOf(monthStart), today, GridStartOf(monthStart) + i)
    ensures Flatten(weeks) == days
    ensures forall w :: 0 <= w < |weeks| ==> |weeks[w]| == 7
  {
    GridOfWholeWeeks(monthStart);
    days, weeks := MonthWeeks(events, MonthStartOf(monthStart), MonthEndOf(monthStart), today,
                              GridStartOf(monthStart), GridEndOf(monthStart));
  }

  /** The days of a whole-week span, and those days cut into weeks. */
  method MonthWeeks(events: seq<Event>, monthStart: int, monthEnd: int, today: int, first: int, last: int)
    returns (days: seq<DayInfo>, weeks: seq<seq<DayInfo>>)
    requires first <= last && (last - first + 1) % 7 == 0
    ensures |days| == last - first + 1
    ensures forall i :: 0 <= i < |days| ==> days[i] == DayCell(events, monthStart, monthEnd, today, first + i)
    ensures Flatten(weeks) == days
    ensures forall w :: 0 <= w < |weeks| ==> |weeks[w]| == 7
  {
    days := MonthDays(events, monthStart, monthEnd, today, first, last);
    weeks := ChunkWeeks(days);
  }

  method MonthDays(events: seq<Event>, monthStart: int, monthEnd: int, today: int, first: int, last: int)
    returns (days: seq<DayInfo>)
    requires first <= last + 1
    ensures |days| == last - first + 1
    ensures forall i :: 0 <= i < |days| ==> days[i] == DayCell(events, monthStart, monthEnd, today, first + i)
  {
    var cell := n => DayCell(events, monthStart, monthEnd, today, n);
    days := DaysBetween(cell, first, last);
    DaysAre(days, cell, events, monthStart, monthEnd, today, first);
  }

  /** Days built with `cell` are days of `DayCell`. */
  lemma DaysAre(days: seq<DayInfo>, cell: int -> DayInfo, events: seq<Event>, monthStart: int, monthEnd: int, today: int, first: int)
    requires forall i :: 0 <= i < |days| ==> days[i] == cell(first + i)
    requires forall n :: cell(n) == DayCell(events, monthStart, monthEnd, today, n)
    ensures forall i :: 0 <= i < |days| ==> days[i] == DayCell(events, monthStart, monthEnd, today, first + i)
  {
  }

  /** `for (i = 0; i < days.length; i += 7) weeks.push(days.slice(i, i + 7))`:
      the weeks put back together are the days, and every week but a short
      last one has seven days. */
  method ChunkWeeks<T>(days: seq<T>) returns (weeks: seq<seq<T>>)
    ensures Flatten(weeks) == days
    ensures |weeks| == (|days| + 6) / 7
    ensures forall w :: 0 <= w < |weeks| ==> 1 <= |weeks[w]| <= 7
    ensures |days| % 7 == 0 ==> forall w :: 0 <= w < |weeks| ==> |weeks[w]| == 7
  {
    weeks := [];
    var i := 0;
    while i < |days|
      invariant 0 <= i && i == 7 * |weeks|
      invariant i < |days| + 7
      invariant Flatten(weeks) == days[..if i < |days| then i else |days|]
      invariant forall w :: 0 <= w < |weeks| ==> 1 <= |weeks[w]| <= 7
      invariant |days| % 7 == 0 ==> i <= |days| && forall w :: 0 <= w < |weeks| ==> |weeks[w]| == 7
    {
      var end := if i + 7 < |days| then i + 7 else |days|;
      FlattenAppend(weeks, days[i..end]);
      assert days[..i] + days[i..end] == days[..end];
      weeks := weeks + [days[i..end]];
      i := i + 7;
    }
    assert days[..|days|] == days;
  }

  /** The dots under a day: `day.isCurrentMonth && day.events.length > 0`
      gates them; the first three events get a coloured dot and one grey dot
      stands for the rest. */
  datatype Dots = Dots(colored: seq<Event>, grey: bool)

  function DotsOf(d: DayInfo): Dots {
    if d.isCurrentMonth && |d.events| > 0 then Dots(Take(d.events, MaxDots), |d.events| > MaxDots)
    else Dots([], false)
  }

  /** `shouldHighlightToday = day.isCurrentDay && day.isCurrentMonth`. */
  predicate HighlightToday(d: DayInfo) {
    d.isCurrentDay && d.isCurrentMonth
  }

  /** For a day of the grid of month `m` of year `y`: coloured dots go to the
      first three of its events and only when it lies in the month, and the
      grey dot appears exactly when an in-month day has more than three
      events. */
  lemma DayCellDots(events: seq<Event>, y: int, m: int, today: int, n: int)
    requires 1 <= m <= 12
    ensures var d := DayCell(events, FirstOfMonth(y, m), LastOfMonth(y, m), today, n);
            var inMonth := IsSameMonth(n, FirstOfMonth(y, m));
            && d.events == EventsOnDay(events, n)
            && (DotsOf(d).colored == if inMonth then Take(EventsOnDay(events, n), MaxDots) else [])
            && |DotsOf(d).colored| <= MaxDots
            && (DotsOf(d).grey <==> inMonth && |EventsOnDay(events, n)| > MaxDots)
  {
    InMonthIffInside(y, m, n);
  }

  /** The today highlight needs both today and the month. */
  lemma DayCellHighlight(events: seq<Event>, y: int, m: int, today: int, n: int)
    requires 1 <= m <= 12
    ensures HighlightToday(DayCell(events, FirstOfMonth(y, m), LastOfMonth(y, m), today, n))
            <==> n == today && IsSameMonth(n, FirstOfMonth(y, m))
  {
    InMonthIffInside(y, m, n);
  }

  /** An in-month day is numbered by its place in the month. */
  lemma DayCellNumber(events: seq<Event>, y: int, m: int, today: int, n: int)
    requires 1 <= m <= 12
    requires FirstOfMonth(y, m) <= n <= LastOfMonth(y, m)
    ensures DayCell(events, FirstOfMonth(y, m), LastOfMonth(y, m), today, n).dayNum == n - FirstOfMonth(y, m) + 1
  {
    InMonthIffBetween(n, y, m);
    var c := CivilOf(n);
    assert DayNumber(c) == FirstOfMonth(y, m) + c.day - 1;
  }
}
