/** The whole-week window around a month that the month view, the year
    view's mini-months, the sidebar's mini calendar and the modal's date
    picker all draw: `startOfWeek(startOfMonth(d))` to
    `endOfWeek(endOfMonth(d))`, on day numbers. */
module MonthGrid {
  import opened CalendarDate

  /** First day shown: the Sunday on or before the 1st. */
  function GridFirst(y: int, m: int): int
    requires 1 <= m <= 12
  {
    StartOfWeek(FirstOfMonth(y, m))
  }

  /** Last day shown: the Saturday on or after the month's last day. */
  function GridLast(y: int, m: int): int
    requires 1 <= m <= 12
  {
    EndOfWeek(LastOfMonth(y, m))
  }

  /** Number of days the grid shows. */
  function GridLength(y: int, m: int): int
    requires 1 <= m <= 12
  {
    GridLast(y, m) - GridFirst(y, m) + 1
  }

  /** The grid runs from a Sunday to a Saturday, covers the whole month with
      fewer than a week of padding on either side, and so spans between 4
      and 6 whole weeks. */
  lemma {:induction false} GridShape(y: int, m: int)
    requires 1 <= m <= 12
    ensures Weekday(GridFirst(y, m)) == 0 && Weekday(GridLast(y, m)) == 6
    ensures GridFirst(y, m) <= FirstOfMonth(y, m) < GridFirst(y, m) + 7
    ensures LastOfMonth(y, m) <= GridLast(y, m) < LastOfMonth(y, m) + 7
    ensures GridLength(y, m) % 7 == 0
    ensures 4 <= GridLength(y, m) / 7 <= 6
  {
    var a, b := FirstOfMonth(y, m), LastOfMonth(y, m);
    assert b == a + DaysInMonth(y, m) - 1;
    WeekSpan(a, b);
  }

  /** Whole weeks from the Sunday on or before `a` to the Saturday on or after `b`. */
  lemma WeekSpan(a: int, b: int)
    requires a <= b
    ensures (EndOfWeek(b) - StartOfWeek(a) + 1) % 7 == 0
    ensures b - a + 1 <= EndOfWeek(b) - StartOfWeek(a) + 1 <= b - a + 13
  {
    var s, e := StartOfWeek(a), EndOfWeek(b);
    var qa, qb := (a + 4) / 7, (b + 4) / 7;
    assert s == 7 * qa - 4 by {
      assert a + 4 == 7 * qa + Weekday(a);
    }
    assert e == 7 * qb + 2 by {
      assert b + 4 == 7 * qb + Weekday(b);
    }
    SevenTimes(qb - qa + 1);
  }

  lemma SevenTimes(k: int)
    ensures (7 * k) % 7 == 0
  {
  }

  /** A grid day is in the month exactly when it lies between the month's
      first and last day (`isSameMonth(day, monthStart)`). */
  lemma InMonthIffInside(y: int, m: int, n: int)
    requires 1 <= m <= 12
    ensures IsSameMonth(n, FirstOfMonth(y, m)) <==> FirstOfMonth(y, m) <= n <= LastOfMonth(y, m)
  {
    CivilOfDayNumber(Date(y, m, 1));
    InMonthIffBetween(n, y, m);
  }

  /** The year and month of the instant a grid is drawn for. */
  function AnchorMonth(t: int): (ym: (int, int))
    ensures 1 <= ym.1 <= 12
  {
    (DateOf(t).year, DateOf(t).month)
  }

  /** The 1st of the selected date's month and the first and last days of
      its grid, as day numbers. */
  function MonthStartOf(t: int): int {
    FirstOfMonth(AnchorMonth(t).0, AnchorMonth(t).1)
  }

  function MonthEndOf(t: int): int {
    LastOfMonth(AnchorMonth(t).0, AnchorMonth(t).1)
  }

  function GridStartOf(t: int): int {
    GridFirst(AnchorMonth(t).0, AnchorMonth(t).1)
  }

  function GridEndOf(t: int): int {
    GridLast(AnchorMonth(t).0, AnchorMonth(t).1)
  }

  /** The grid drawn for instant `t` is whole weeks. */
  lemma {:induction false} GridOfWholeWeeks(t: int)
    ensures GridStartOf(t) <= GridEndOf(t) && (GridEndOf(t) - GridStartOf(t) + 1) % 7 == 0
  {
    GridWholeWeeks(AnchorMonth(t).0, AnchorMonth(t).1);
  }

  lemma {:induction false} GridWholeWeeks(y: int, m: int)
    requires 1 <= m <= 12
    ensures GridFirst(y, m) <= GridLast(y, m) && (GridLast(y, m) - GridFirst(y, m) + 1) % 7 == 0
  {
    GridShape(y, m);
  }

  /** `let day = startDate; while (day <= endDate) { days.push(cell(day));
      day = addDays(day, 1); }`: one entry per day, in order. */
  method DaysBetween<T>(cell: int -> T, first: int, last: int) returns (days: seq<T>)
    requires first <= last + 1
    ensures |days| == last - first + 1
    ensures forall i :: 0 <= i < |days| ==> days[i] == cell(first + i)
  {
    var day := first;
    days := [];
    while day <= last
      invariant first <= day <= last + 1
      invariant |days| == day - first
      invariant forall i :: 0 <= i < |days| ==> days[i] == cell(first + i)
    {
      days := days + [cell(day)];
      day := day + 1;
    }
  }
}
