/** The sidebar's mini calendar: the selected date's month as a whole-week
    grid of days, with month, today and selected marks, and previous/next
    buttons that move the selected date by one month with `setMonth`. */
module MiniCalendar {
  import opened CalendarDate
  import opened MonthGrid

  /** The `while (day <= endDate) { days.push(day); day = addDays(day, 1); }`
      loop, as day numbers. */
  method Days(selected: int) returns (days: seq<int>)
    ensures |days| == GridEndOf(selected) - GridStartOf(selected) + 1
    ensures forall i :: 0 <= i < |days| ==> days[i] == GridStartOf(selected) + i
  {
    GridOfWholeWeeks(selected);
    days := DaysBetween(d => d, GridStartOf(selected), GridEndOf(selected));
  }

  /** The days start on a Sunday, end on a Saturday and hold every day of the
      selected date's month, the selected day among them. */
  lemma DaysCoverMonth(selected: int)
    ensures Weekday(GridStartOf(selected)) == 0 && Weekday(GridEndOf(selected)) == 6
    ensures GridStartOf(selected) <= MonthStartOf(selected) && MonthEndOf(selected) <= GridEndOf(selected)
    ensures MonthStartOf(selected) <= DayOf(selected) <= MonthEndOf(selected)
  {
    var ym := AnchorMonth(selected);
    GridShape(ym.0, ym.1);
    InMonthIffBetween(DayOf(selected), ym.0, ym.1);
  }

  /** How one day button is marked: greyed unless in the month, the today
      style, and the selected style, which only applies when the day is not
      today (`isSelectedDay && !isCurrentDay`). */
  datatype DayMarks = DayMarks(isCurrentMonth: bool, isCurrentDay: bool, selectedStyle: bool)

  function Marks(selected: int, today: int, n: int): DayMarks {
    DayMarks(MonthStartOf(selected) <= n <= MonthEndOf(selected), n == today, n == DayOf(selected) && n != today)
  }

  /** `isCurrentMonth` is `isSameMonth(day, monthStart)`; the selected style
      goes to the selected day unless it is today, so no day carries both
      styles. */
  lemma MarksRules(selected: int, today: int, n: int)
    ensures Marks(selected, today, n).isCurrentMonth <==> IsSameMonth(n, MonthStartOf(selected))
    ensures Marks(selected, today, n).isCurrentDay <==> n == today
    ensures Marks(selected, today, n).selectedStyle <==> IsSameDay(StartOfDay(n), selected) && n != today
    ensures !(Marks(selected, today, n).isCurrentDay && Marks(selected, today, n).selectedStyle)
  {
    var ym := AnchorMonth(selected);
    InMonthIffInside(ym.0, ym.1, n);
    IsSameDayByDayNumber(StartOfDay(n), selected);
  }

  /** `handlePrevious` and `handleNext`: a copy of the selected date moved by
      `setMonth(getMonth() -/+ 1)`. */
  function Previous(selected: int): int {
    SetMonthBy(selected, -1)
  }

  function Next(selected: int): int {
    SetMonthBy(selected, 1)
  }

  /** The day and time are kept and the month moves by exactly one; a day
      the target month lacks rolls over into the month after it. */
  lemma NavigationRolls(selected: int)
    ensures DateOf(Previous(selected)) == RolledMonthShift(DateOf(selected), -1)
    ensures DateOf(Next(selected)) == RolledMonthShift(DateOf(selected), 1)
    ensures MinuteOfDay(Previous(selected)) == MinuteOfDay(selected)
    ensures MinuteOfDay(Next(selected)) == MinuteOfDay(selected)
  {
    SetMonthByRolls(selected, -1);
    SetMonthByRolls(selected, 1);
  }

  /** On a day every month has, previous and next undo each other. */
  lemma {:induction false} PreviousUndoesNext(selected: int, k: int)
    requires k == 1 || k == -1
    requires DateOf(selected).day <= 28
    ensures SetMonthBy(SetMonthBy(selected, k), -k) == selected
  {
    var c := DateOf(selected);
    var moved := SetMonthBy(selected, k);
    var ym := ShiftMonth(c.year, c.month, k);
    SetMonthByRolls(selected, k);
    assert DateOf(moved) == Date(ym.0, ym.1, c.day);
    ShiftMonthBack(c.year, c.month, k);
    assert SetMonthBy(moved, -k) == StartOfDay(FirstOfMonth(c.year, c.month) + c.day - 1) + MinuteOfDay(selected);
    assert FirstOfMonth(c.year, c.month) + c.day - 1 == DayOf(selected);
    InstantParts(selected);
  }
}
