/** The month view: rows of seven day cells from the Sunday on or before the
    1st to the Saturday on or after the month's end, each cell listing up to
    three of that day's events with a "+N more" line beyond that, and the
    scroll gesture that turns the page. */
module MonthView {
  import opened Seqs
  import opened CalendarDate
  import opened Events
  import opened MonthGrid

  const MaxShown := 3
  const MsPerDay := 86400000
  const ScrollThreshold := 100

  /** One day cell. `more` is the N of "+N more", absent when nothing is hidden. */
  datatype MonthCell = MonthCell(
    day: int,
    shown: seq<Event>,
    more: Option<nat>,
    isCurrentMonth: bool,
    isCurrentDay: bool,
    isSelectedDay: bool)

  /** `dayEvents.slice(0, 3)` and `dayEvents.length > 3 && +(length - 3) more`. */
  function Overflow(dayEvents: seq<Event>): (r: (seq<Event>, Option<nat>))
    ensures r.0 == Take(dayEvents, MaxShown)
    ensures r.1.Some? <==> |dayEvents| > MaxShown
    ensures |r.0| + (if r.1.Some? then r.1.value else 0) == |dayEvents|
  {
    (Take(dayEvents, MaxShown), if |dayEvents| > MaxShown then Some(|dayEvents| - MaxShown) else None)
  }

  /** The cell for grid day `day` of the month whose first and last days are
      `monthStart` and `monthEnd`, with `today` and `selectedDay` the day
      numbers of the clock and of the selected date. `isSameMonth(day,
      monthStart)` is taken as the range test it is equivalent to
      (`CellContents`). */
  function CellFor(events: seq<Event>, monthStart: int, monthEnd: int, selectedDay: int, today: int, day: int): MonthCell {
    var dayEvents := EventsOnDay(events, day);
    var ov := Overflow(dayEvents);
    MonthCell(day, ov.0, ov.1, monthStart <= day <= monthEnd, day == today, day == selectedDay)
  }

  /** A cell shows the first (at most three) of exactly its day's events, in
      list order, and announces every hidden one; it is marked as in the month
      exactly for the days of the selected date's month. */
  lemma CellContents(events: seq<Event>, y: int, m: int, selectedDay: int, today: int, day: int)
    requires 1 <= m <= 12
    ensures var c := CellFor(events, FirstOfMonth(y, m), LastOfMonth(y, m), selectedDay, today, day);
            && |c.shown| <= MaxShown
            && IsSubsequence(c.shown, events)
            && (forall e :: e in c.shown ==> StartsOn(e, day))
            && (c.more.Some? <==> |EventsOnDay(events, day)| > MaxShown)
            && |c.shown| + (if c.more.Some? then c.more.value else 0) == |EventsOnDay(events, day)|
            && (c.isCurrentMonth <==> IsSameMonth(day, FirstOfMonth(y, m)))
            && (c.isCurrentDay <==> day == today) && (c.isSelectedDay <==> day == selectedDay)
  {
    var de := EventsOnDay(events, day);
    EventsOnDayExact(events, day);
    TakeIsSubsequence(de, MaxShown, events);
    InMonthIffInside(y, m, day);
  }

  /** A prefix of a subsequence of `s` is a subsequence of `s`. */
  lemma {:induction false} TakeIsSubsequence<T>(sub: seq<T>, n: nat, s: seq<T>)
    requires IsSubsequence(sub, s)
    ensures IsSubsequence(Take(sub, n), s)
    decreases |s|
  {
    var t := Take(sub, n);
    if t != [] && s != [] {
      if sub[0] == s[0] {
        TakeIsSubsequence(sub[1..], n - 1, s[1..]);
        assert Take(sub[1..], n - 1) == t[1..];
      } else {
        TakeIsSubsequence(sub, n, s[1..]);
      }
    }
  }

  /** `numWeeks = ceil((endDate - startDate) / week)`, where `endDate` is the
      last millisecond of the grid's Saturday. */
  function NumWeeks(selected: int): int {
    var ym := AnchorMonth(selected);
    var span := (GridLast(ym.0, ym.1) + 1) * MsPerDay - 1 - GridFirst(ym.0, ym.1) * MsPerDay;
    var week := 7 * MsPerDay;
    (span + week - 1) / week
  }

  /** The row count the layout divides the height by equals the number of
      rows the grid has. */
  lemma {:induction false} NumWeeksIsRowCount(selected: int)
    ensures var ym := AnchorMonth(selected);
            NumWeeks(selected) == GridLength(ym.0, ym.1) / 7
    ensures 4 <= NumWeeks(selected) <= 6
  {
    var ym := AnchorMonth(selected);
    GridShape(ym.0, ym.1);
    var w := GridLength(ym.0, ym.1) / 7;
    var span := (GridLast(ym.0, ym.1) + 1) * MsPerDay - 1 - GridFirst(ym.0, ym.1) * MsPerDay;
    assert span == w * (7 * MsPerDay) - 1;
    assert (span + 7 * MsPerDay - 1) / (7 * MsPerDay) == w;
  }

  /** The render: `day` runs from the grid's first to its last day, seven
      cells per row; cell `c` of row `r` is the cell of the day `7 * r + c`
      days into the grid. */
  method BuildRows(events: seq<Event>, selected: int, today: int) returns (rows: seq<seq<MonthCell>>)
    ensures |rows| * 7 == GridEndOf(selected) - GridStartOf(selected) + 1
    ensures forall r :: 0 <= r < |rows| ==> |rows[r]| == 7
    ensures forall r, c :: 0 <= r < |rows| && 0 <= c < 7 ==>
              rows[r][c] == CellFor(events, MonthStartOf(selected), MonthEndOf(selected), DayOf(selected), today, GridStartOf(selected) + 7 * r + c)
  {
    GridOfWholeWeeks(selected);
    rows := MonthRows(events, MonthStartOf(selected), MonthEndOf(selected), DayOf(selected), today,
                      GridStartOf(selected), GridEndOf(selected));
  }

  /** The rows for a grid from `first` to `last`, whole weeks, of a month
      from `monthStart` to `monthEnd`. */
  method MonthRows(events: seq<Event>, monthStart: int, monthEnd: int, selectedDay: int, today: int,
                   first: int, last: int) returns (rows: seq<seq<MonthCell>>)
    requires first <= last && (last - first + 1) % 7 == 0
    ensures |rows| * 7 == last - first + 1
    ensures forall r :: 0 <= r < |rows| ==> |rows[r]| == 7
    ensures forall r, c :: 0 <= r < |rows| && 0 <= c < 7 ==>
              rows[r][c] == CellFor(events, monthStart, monthEnd, selectedDay, today, first + 7 * r + c)
  {
    var cell := d => CellFor(events, monthStart, monthEnd, selectedDay, today, d);
    rows := RowsBetween(cell, first, last);
    CellsAre(rows, cell, events, monthStart, monthEnd, selectedDay, today, first);
  }

  /** Rows built with `cell` are rows of `CellFor`. */
  lemma CellsAre(rows: seq<seq<MonthCell>>, cell: int -> MonthCell, events: seq<Event>,
                 monthStart: int, monthEnd: int, selectedDay: int, today: int, first: int)
    requires forall r :: 0 <= r < |rows| ==> |rows[r]| == 7
    requires forall r, c :: 0 <= r < |rows| && 0 <= c < |rows[r]| ==> rows[r][c] == cell(first + 7 * r + c)
    requires forall d :: cell(d) == CellFor(events, monthStart, monthEnd, selectedDay, today, d)
    ensures forall r, c :: 0 <= r < |rows| && 0 <= c < 7 ==>
              rows[r][c] == CellFor(events, monthStart, monthEnd, selectedDay, today, first + 7 * r + c)
  {
  }

  /** The `while (day <= endDate)` loop with its inner seven-step `for`;
      `cell` builds the cell for one day. */
  method RowsBetween<T>(cell: int -> T, startDate: int, endDate: int) returns (rows: seq<seq<T>>)
    requires startDate <= endDate && (endDate - startDate + 1) % 7 == 0
    ensures |rows| * 7 == endDate - startDate + 1
    ensures forall r :: 0 <= r < |rows| ==> |rows[r]| == 7
    ensures forall r, c :: 0 <= r < |rows| && 0 <= c < |rows[r]| ==> rows[r][c] == cell(startDate + 7 * r + c)
  {
    ghost var weeks := (endDate - startDate + 1) / 7;
    var day := startDate;
    rows := [];
    while day <= endDate
      invariant |rows| <= weeks
      invariant day - startDate == 7 * |rows|
      invariant forall r :: 0 <= r < |rows| ==> |rows[r]| == 7
      invariant forall r, c :: 0 <= r < |rows| && 0 <= c < |rows[r]| ==> rows[r][c] == cell(startDate + 7 * r + c)
      decreases weeks - |rows|
    {
      var row := [];
      for i := 0 to 7
        invariant |row| == i && day == startDate + 7 * |rows| + i
        invariant forall c :: 0 <= c < i ==> row[c] == cell(startDate + 7 * |rows| + c)
      {
        row := row + [cell(day)];
        day := day + 1;
      }
      rows := rows + [row];
    }
  }

  /** Every day of the month has a cell in the grid: row `r` below the
      grid's row count, column `c` below seven. */
  lemma {:induction false} MonthDayHasCell(y: int, m: int, n: int)
    requires 1 <= m <= 12
    requires FirstOfMonth(y, m) <= n <= LastOfMonth(y, m)
    ensures var r, c := (n - GridFirst(y, m)) / 7, (n - GridFirst(y, m)) % 7;
            0 <= r < GridLength(y, m) / 7 && GridFirst(y, m) + 7 * r + c == n
  {
    GridShape(y, m);
  }

  /** No day has two cells: a row and column that land on day `n` are the
      ones `MonthDayHasCell` gives. */
  lemma {:induction false} CellOfDayUnique(first: int, n: int, r: int, c: int)
    requires 0 <= c < 7 && first + 7 * r + c == n
    ensures r == (n - first) / 7 && c == (n - first) % 7
  {
  }

  // ---- scroll to turn the page -------------------------------------------

  /** Where the page-turn is: idle, fading out before the date change (with
      the direction of the gesture), or fading back in. */
  datatype Phase = Idle | FadingOut(forward: bool) | FadingIn

  /** `new Date(y, month + 1 or month - 1, 1)`: midnight on the 1st of the next or
      previous month. */
  function PageTurn(selected: int, forward: bool): int {
    FirstOfMonthAfter(DateOf(selected).year, DateOf(selected).month, if forward then 1 else -1)
  }

  /** A page turn lands at midnight on the 1st of the next (previous) month. */
  lemma {:induction false} PageTurnLandsOnFirst(selected: int, forward: bool)
    ensures var c := DateOf(selected);
            var ym := ShiftMonth(c.year, c.month, if forward then 1 else -1);
            DateOf(PageTurn(selected, forward)) == Date(ym.0, ym.1, 1)
            && MinuteOfDay(PageTurn(selected, forward)) == 0
  {
    FirstOfMonthAfterDate(DateOf(selected).year, DateOf(selected).month, if forward then 1 else -1);
  }

  /** The scroll container's refs and fade state, and the selected date the
      page turn writes through `onDateChange`. */
  class MonthScroll {
    var lastScrollTop: int
    var isScrolling: bool
    var visible: bool
    var phase: Phase
    var scrollTop: int
    var selectedDate: int

    /** A turn is in progress exactly while the phase is not idle, and the
        grid is faded out for the whole of it. */
    predicate Valid()
      reads this
    {
      (isScrolling <==> !phase.Idle?) && (visible <==> phase.Idle?)
    }

    constructor (selected: int)
      ensures Valid() && phase.Idle? && lastScrollTop == 0 && scrollTop == 0
      ensures selectedDate == selected
    {
      lastScrollTop := 0;
      isScrolling := false;
      visible := true;
      phase := Idle;
      scrollTop := 0;
      selectedDate := selected;
    }

    /** `handleScroll`: a jump of more than 100 px while idle starts a turn;
        the last position is recorded on every event. */
    method OnScroll(currentScrollTop: int)
      requires Valid()
      modifies this`lastScrollTop, this`isScrolling, this`visible, this`phase, this`scrollTop
      ensures Valid()
      ensures lastScrollTop == currentScrollTop && scrollTop == currentScrollTop
      ensures var delta := currentScrollTop - old(lastScrollTop);
              var fires := (delta > ScrollThreshold || delta < -ScrollThreshold) && !old(isScrolling);
              phase == (if fires then FadingOut(delta > 0) else old(phase))
    {
      scrollTop := currentScrollTop;
      var scrollDelta := currentScrollTop - lastScrollTop;
      if (scrollDelta > ScrollThreshold || scrollDelta < -ScrollThreshold) && !isScrolling {
        isScrolling := true;
        visible := false;
        phase := FadingOut(scrollDelta > 0);
      }
      lastScrollTop := currentScrollTop;
    }

    /** The 200 ms timer: change the date to the 1st of the next or previous month. */
    method FadeOutElapsed()
      requires Valid()
      modifies this`selectedDate, this`phase
      ensures Valid()
      ensures old(phase).FadingOut? ==> selectedDate == PageTurn(old(selectedDate), old(phase).forward) && phase == FadingIn
      ensures !old(phase).FadingOut? ==> selectedDate == old(selectedDate) && phase == old(phase)
    {
      if phase.FadingOut? {
        selectedDate := PageTurn(selectedDate, phase.forward);
        phase := FadingIn;
      }
    }

    /** The 50 ms timer: scroll back to the top, fade in, allow the next turn. */
    method FadeInElapsed()
      requires Valid()
      modifies this`scrollTop, this`visible, this`isScrolling, this`phase
      ensures Valid()
      ensures old(phase).FadingIn? ==> scrollTop == 0 && phase.Idle? && !isScrolling
      ensures !old(phase).FadingIn? ==> scrollTop == old(scrollTop) && phase == old(phase)
    {
      if phase.FadingIn? {
        scrollTop := 0;
        visible := true;
        isScrolling := false;
        phase := Idle;
      }
    }
  }
}
