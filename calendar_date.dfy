/** The proleptic Gregorian calendar on day numbers, and the parts of the
    JavaScript `Date` object and of the date-fns library that the calendar uses.

    Day number 0 is 1970-01-01; an instant is a whole number of minutes since
    1970-01-01 00:00 in local wall-clock time (no time zones, no daylight
    saving, no seconds). Dafny's `/` and `%` round toward minus infinity for a
    positive divisor, which is the floor the calendar needs for dates before
    1970. */
module CalendarDate {

  const MinutesPerHour := 60
  const MinutesPerDay := 1440
  const DaysPerWeek := 7

  predicate IsLeapYear(y: int) {
    (y % 4 == 0 && y % 100 != 0) || y % 400 == 0
  }

  function DaysInMonth(y: int, m: int): (n: int)
    requires 1 <= m <= 12
    ensures 28 <= n <= 31
    ensures m == 2 ==> (n == 29 <==> IsLeapYear(y))
  {
    if m == 2 then (if IsLeapYear(y) then 29 else 28)
    else if m == 4 || m == 6 || m == 9 || m == 11 then 30
    else 31
  }

  function YearLength(y: int): int {
    if IsLeapYear(y) then 366 else 365
  }

  /** A civil date; `month` runs 1..12 (JavaScript's month index plus one). */
  datatype Date = Date(year: int, month: int, day: int)

  predicate ValidDate(d: Date) {
    1 <= d.month <= 12 && 1 <= d.day <= DaysInMonth(d.year, d.month)
  }

  /** Day number of January 1 of year `y`: the lengths of the years from
      1970 up to `y` added, or those from `y` up to 1970 subtracted. */
  function DaysBeforeYear(y: int): int
    decreases if y < 1970 then 1970 - y else y - 1970
  {
    if y == 1970 then 0
    else if y > 1970 then DaysBeforeYear(y - 1) + YearLength(y - 1)
    else DaysBeforeYear(y + 1) - YearLength(y)
  }

  const CumulativeDays: seq<int> := [0, 31, 59, 90, 120, 151, 181, 212, 243, 273, 304, 334]

  /** Days of year `y` before the first of month `m`. */
  function DaysBeforeMonth(y: int, m: int): int
    requires 1 <= m <= 12
  {
    CumulativeDays[m - 1] + (if m > 2 && IsLeapYear(y) then 1 else 0)
  }

  function DayNumber(d: Date): int
    requires 1 <= d.month <= 12
  {
    DaysBeforeYear(d.year) + DaysBeforeMonth(d.year, d.month) + d.day - 1
  }

  lemma {:induction false} YearStep(y: int)
    ensures DaysBeforeYear(y + 1) == DaysBeforeYear(y) + YearLength(y)
  {
  }

  lemma MonthStep(y: int, m: int)
    requires 1 <= m <= 12
    ensures m < 12 ==> DaysBeforeMonth(y, m + 1) == DaysBeforeMonth(y, m) + DaysInMonth(y, m)
    ensures m == 12 ==> DaysBeforeMonth(y, m) + DaysInMonth(y, m) == YearLength(y)
  {
  }

  /** Years do not overlap: every later year starts after year `a` ends. */
  lemma {:induction false} YearsOrdered(a: int, b: int)
    requires a < b
    ensures DaysBeforeYear(a + 1) <= DaysBeforeYear(b)
    decreases b - a
  {
    if a + 1 < b {
      YearsOrdered(a + 1, b);
      YearStep(a + 1);
    }
  }

  /** Months of one year do not overlap. */
  lemma {:induction false} MonthsOrdered(y: int, a: int, b: int)
    requires 1 <= a < b <= 12
    ensures DaysBeforeMonth(y, a) + DaysInMonth(y, a) <= DaysBeforeMonth(y, b)
    decreases b - a
  {
    MonthStep(y, a);
    if a + 1 < b {
      MonthsOrdered(y, a + 1, b);
      MonthStep(y, a + 1);
    }
  }

  /** A valid date lies inside its own year. */
  lemma DayNumberInYear(d: Date)
    requires ValidDate(d)
    ensures DaysBeforeYear(d.year) <= DayNumber(d) < DaysBeforeYear(d.year + 1)
  {
    YearStep(d.year);
    if d.month < 12 {
      MonthsOrdered(d.year, d.month, 12);
    }
    MonthStep(d.year, 12);
  }

  /** The year containing day `n`, searched upward from year `y`. */
  function YearUp(n: int, y: int): (r: int)
    requires DaysBeforeYear(y) <= n
    ensures DaysBeforeYear(r) <= n < DaysBeforeYear(r + 1)
    decreases n - DaysBeforeYear(y)
  {
    YearStep(y);
    if n < DaysBeforeYear(y + 1) then y else YearUp(n, y + 1)
  }

  /** The year containing day `n`, searched downward from year `y`. */
  function YearDown(n: int, y: int): (r: int)
    requires n < DaysBeforeYear(y + 1)
    ensures DaysBeforeYear(r) <= n < DaysBeforeYear(r + 1)
    decreases DaysBeforeYear(y + 1) - n
  {
    YearStep(y);
    if DaysBeforeYear(y) <= n then y else YearDown(n, y - 1)
  }

  function YearOf(n: int): (y: int)
    ensures DaysBeforeYear(y) <= n < DaysBeforeYear(y + 1)
  {
    if 0 <= n then YearUp(n, 1970) else YearDown(n, 1969)
  }

  /** The month of year `y` holding day `r` of that year, searched from month `m`. */
  function MonthFrom(y: int, r: int, m: int): (k: int)
    requires 1 <= m <= 12
    requires DaysBeforeMonth(y, m) <= r < YearLength(y)
    ensures m <= k <= 12
    ensures DaysBeforeMonth(y, k) <= r < DaysBeforeMonth(y, k) + DaysInMonth(y, k)
    decreases 12 - m
  {
    MonthStep(y, m);
    if m == 12 || r < DaysBeforeMonth(y, m) + DaysInMonth(y, m) then m
    else MonthFrom(y, r, m + 1)
  }

  /** The civil date of day number `n` (the inverse of `DayNumber`). */
  function CivilOf(n: int): (d: Date)
    ensures ValidDate(d)
    ensures DayNumber(d) == n
  {
    var y := YearOf(n);
    YearStep(y);
    var m := MonthFrom(y, n - DaysBeforeYear(y), 1);
    Date(y, m, n - DaysBeforeYear(y) - DaysBeforeMonth(y, m) + 1)
  }

  /** Distinct valid dates have distinct day numbers. */
  lemma DayNumberInjective(a: Date, b: Date)
    requires ValidDate(a) && ValidDate(b)
    requires DayNumber(a) == DayNumber(b)
    ensures a == b
  {
    DayNumberInYear(a);
    DayNumberInYear(b);
    if a.year < b.year {
      YearsOrdered(a.year, b.year);
    } else if b.year < a.year {
      YearsOrdered(b.year, a.year);
    }
    assert a.year == b.year;
    if a.month < b.month {
      MonthsOrdered(a.year, a.month, b.month);
    } else if b.month < a.month {
      MonthsOrdered(a.year, b.month, a.month);
    }
  }

  /** `CivilOf` undoes `DayNumber` on every valid date. */
  lemma CivilOfDayNumber(d: Date)
    requires ValidDate(d)
    ensures CivilOf(DayNumber(d)) == d
  {
    DayNumberInjective(CivilOf(DayNumber(d)), d);
  }

  /** The last day of a month is followed by the first of the next month. */
  lemma MonthsAdjacent(y: int, m: int)
    requires 1 <= m <= 12
    ensures DayNumber(Date(y, m, DaysInMonth(y, m))) + 1 ==
            (if m == 12 then DayNumber(Date(y + 1, 1, 1)) else DayNumber(Date(y, m + 1, 1)))
  {
    MonthStep(y, m);
    YearStep(y);
  }

  // ---- weeks ----------------------------------------------------------------

  /** Day of the week, 0 = Sunday .. 6 = Saturday (1970-01-01 was a Thursday). */
  function Weekday(n: int): (w: int)
    ensures 0 <= w < 7
  {
    (n + 4) % 7
  }

  /** date-fns `startOfWeek` with weeks starting on Sunday, on day numbers. */
  function StartOfWeek(n: int): (s: int)
    ensures Weekday(s) == 0 && s <= n < s + 7
  {
    n - Weekday(n)
  }

  /** date-fns `endOfWeek` (its day; the instant is that day's 23:59). */
  function EndOfWeek(n: int): (e: int)
    ensures Weekday(e) == 6 && e - 7 < n <= e
  {
    StartOfWeek(n) + 6
  }

  lemma WeekdayShift(n: int, k: int)
    ensures Weekday(n + 7 * k) == Weekday(n)
  {
  }

  // ---- instants -------------------------------------------------------------

  function DayOf(t: int): int {
    t / MinutesPerDay
  }

  function MinuteOfDay(t: int): (m: int)
    ensures 0 <= m < MinutesPerDay
  {
    t % MinutesPerDay
  }

  /** Midnight starting day `n`. */
  function StartOfDay(n: int): (t: int)
    ensures DayOf(t) == n && MinuteOfDay(t) == 0
  {
    n * MinutesPerDay
  }

  function Hours(t: int): (h: int)
    ensures 0 <= h < 24
  {
    MinuteOfDay(t) / MinutesPerHour
  }

  function Minutes(t: int): (m: int)
    ensures 0 <= m < 60
  {
    MinuteOfDay(t) % MinutesPerHour
  }

  /** An instant splits into its day and its minute of day. */
  lemma InstantParts(t: int)
    ensures t == StartOfDay(DayOf(t)) + MinuteOfDay(t)
    ensures MinuteOfDay(t) == Hours(t) * MinutesPerHour + Minutes(t)
  {
  }

  /** The instant of day `n` at minute `m` of that day has exactly those parts. */
  lemma AtMinuteOfDay(n: int, m: int)
    requires 0 <= m < MinutesPerDay
    ensures DayOf(StartOfDay(n) + m) == n
    ensures MinuteOfDay(StartOfDay(n) + m) == m
  {
  }

  /** The civil date of an instant (`getFullYear`, `getMonth() + 1`, `getDate()`). */
  function DateOf(t: int): (d: Date)
    ensures ValidDate(d) && DayNumber(d) == DayOf(t)
  {
    CivilOf(DayOf(t))
  }

  /** date-fns `isSameDay`: same local calendar date. */
  predicate IsSameDay(a: int, b: int) {
    DateOf(a) == DateOf(b)
  }

  lemma IsSameDayByDayNumber(a: int, b: int)
    ensures IsSameDay(a, b) <==> DayOf(a) == DayOf(b)
  {
  }

  /** date-fns `isSameMonth` on day numbers. */
  predicate IsSameMonth(a: int, b: int) {
    CivilOf(a).year == CivilOf(b).year && CivilOf(a).month == CivilOf(b).month
  }

  // ---- months ---------------------------------------------------------------

  /** Year and month (1..12) that lie `k` months after month `m` of year `y`. */
  function ShiftMonth(y: int, m: int, k: int): (r: (int, int))
    requires 1 <= m <= 12
    ensures 1 <= r.1 <= 12
    ensures r.0 * 12 + r.1 == y * 12 + m + k
  {
    MonthOfIndex(y * 12 + (m - 1) + k)
  }

  /** Year and month of the month with index `i` (months since January of year 0). */
  function MonthOfIndex(i: int): (r: (int, int))
    ensures 1 <= r.1 <= 12
    ensures r.0 * 12 + r.1 - 1 == i
  {
    (i / 12, i % 12 + 1)
  }

  /** Moving `k` months and then `-k` months returns to the start month. */
  lemma {:induction false} ShiftMonthBack(y: int, m: int, k: int)
    requires 1 <= m <= 12
    ensures var ym := ShiftMonth(y, m, k); ShiftMonth(ym.0, ym.1, -k) == (y, m)
  {
    var ym := ShiftMonth(y, m, k);
    assert ShiftMonth(ym.0, ym.1, -k) == MonthOfIndex(y * 12 + (m - 1));
  }

  function FirstOfMonth(y: int, m: int): int
    requires 1 <= m <= 12
  {
    DayNumber(Date(y, m, 1))
  }

  function LastOfMonth(y: int, m: int): int
    requires 1 <= m <= 12
  {
    DayNumber(Date(y, m, DaysInMonth(y, m)))
  }

  /** Day `n` belongs to month `m` of year `y` exactly when it lies between
      that month's first and last days. */
  lemma {:induction false} InMonthIffBetween(n: int, y: int, m: int)
    requires 1 <= m <= 12
    ensures (CivilOf(n).year == y && CivilOf(n).month == m) <==>
            FirstOfMonth(y, m) <= n <= LastOfMonth(y, m)
  {
    var c := CivilOf(n);
    var first, last := FirstOfMonth(y, m), LastOfMonth(y, m);
    assert last == first + DaysInMonth(y, m) - 1;
    if c.year == y && c.month == m {
      assert n == first + c.day - 1;
    }
    if first <= n <= last {
      var d := Date(y, m, n - first + 1);
      assert DayNumber(d) == n;
      CivilOfDayNumber(d);
    }
  }

  /** JavaScript's `new Date(y, monthIndex, day, hours)` on a year outside
      0..99: month and day overflow roll into the following months and years. */
  function LocalDate(y: int, monthIndex: int, day: int, hours: int): (t: int)
  {
    var ym := ShiftMonth(y, 1, monthIndex);
    StartOfDay(FirstOfMonth(ym.0, ym.1) + day - 1) + hours * MinutesPerHour
  }

  /** The instant of a valid date at minute `m` has that date and that minute. */
  lemma DateOfAt(d: Date, m: int, t: int)
    requires ValidDate(d) && 0 <= m < MinutesPerDay
    requires t == StartOfDay(DayNumber(d)) + m
    ensures DateOf(t) == d && MinuteOfDay(t) == m
  {
    AtMinuteOfDay(DayNumber(d), m);
    CivilOfDayNumber(d);
  }

  /** `new Date(y, monthIndex, 1)` is midnight on the 1st of the month
      `monthIndex` months after January of `y`, whatever `monthIndex` is. */
  lemma {:induction false} LocalDateFirstOfMonth(y: int, monthIndex: int)
    ensures var ym := ShiftMonth(y, 1, monthIndex);
            DateOf(LocalDate(y, monthIndex, 1, 0)) == Date(ym.0, ym.1, 1)
            && MinuteOfDay(LocalDate(y, monthIndex, 1, 0)) == 0
  {
    var ym := ShiftMonth(y, 1, monthIndex);
    DateOfAt(Date(ym.0, ym.1, 1), 0, LocalDate(y, monthIndex, 1, 0));
  }

  /** `new Date(y, m - 1 + k, 1)`: midnight on the 1st of the month `k`
      months after month `m` of year `y`. */
  function FirstOfMonthAfter(y: int, m: int, k: int): int {
    LocalDate(y, m - 1 + k, 1, 0)
  }

  lemma {:induction false} FirstOfMonthAfterDate(y: int, m: int, k: int)
    requires 1 <= m <= 12
    ensures var ym := ShiftMonth(y, m, k);
            DateOf(FirstOfMonthAfter(y, m, k)) == Date(ym.0, ym.1, 1)
            && MinuteOfDay(FirstOfMonthAfter(y, m, k)) == 0
  {
    var ym := ShiftMonth(y, m, k);
    ShiftMonthFromJanuary(y, m, k);
    DateOfAt(Date(ym.0, ym.1, 1), 0, FirstOfMonthAfter(y, m, k));
  }

  /** Counting `m - 1 + k` months from January is counting `k` from month `m`. */
  lemma {:induction false} ShiftMonthFromJanuary(y: int, m: int, k: int)
    requires 1 <= m <= 12
    ensures ShiftMonth(y, 1, m - 1 + k) == ShiftMonth(y, m, k)
  {
    var i := y * 12 + (m - 1) + k;
    assert ShiftMonth(y, 1, m - 1 + k) == MonthOfIndex(i);
    assert ShiftMonth(y, m, k) == MonthOfIndex(i);
  }

  /** `LocalDate` of an in-range month, day and hour is exactly that civil
      date at that hour. */
  lemma LocalDateInRange(y: int, monthIndex: int, day: int, hours: int)
    requires 0 <= monthIndex < 12
    requires 1 <= day <= DaysInMonth(y, monthIndex + 1)
    requires 0 <= hours < 24
    ensures DateOf(LocalDate(y, monthIndex, day, hours)) == Date(y, monthIndex + 1, day)
    ensures MinuteOfDay(LocalDate(y, monthIndex, day, hours)) == hours * MinutesPerHour
  {
    var ym := ShiftMonth(y, 1, monthIndex);
    assert ym == (y, monthIndex + 1);
    DateOfAt(Date(y, monthIndex + 1, day), hours * MinutesPerHour, LocalDate(y, monthIndex, day, hours));
  }

  /** The date `k` months after `c` with the day clamped to the target month's
      length (the date part of date-fns `addMonths`). */
  function ClampedMonthShift(c: Date, k: int): (r: Date)
    requires ValidDate(c)
    ensures ValidDate(r)
    ensures r.year * 12 + r.month == c.year * 12 + c.month + k
    ensures r.day == if c.day <= DaysInMonth(r.year, r.month) then c.day else DaysInMonth(r.year, r.month)
  {
    var ym := ShiftMonth(c.year, c.month, k);
    var dim := DaysInMonth(ym.0, ym.1);
    Date(ym.0, ym.1, if c.day <= dim then c.day else dim)
  }

  /** date-fns `addMonths`: the same day `k` months later, clamped to the
      target month's last day; the time of day is kept. */
  function AddMonths(t: int, k: int): int {
    StartOfDay(DayNumber(ClampedMonthShift(DateOf(t), k))) + MinuteOfDay(t)
  }

  lemma {:induction false} AddMonthsClamps(t: int, k: int)
    ensures DateOf(AddMonths(t, k)) == ClampedMonthShift(DateOf(t), k)
    ensures MinuteOfDay(AddMonths(t, k)) == MinuteOfDay(t)
  {
    DateOfAt(ClampedMonthShift(DateOf(t), k), MinuteOfDay(t), AddMonths(t, k));
  }

  /** The date JavaScript's `setMonth(getMonth() + k)` gives for date `c`: the
      same day number in the target month, or, when that month is shorter,
      the overflow counted into the month after it. */
  function RolledMonthShift(c: Date, k: int): (r: Date)
    requires ValidDate(c)
    ensures ValidDate(r)
    ensures var ym := ShiftMonth(c.year, c.month, k);
            DayNumber(r) == FirstOfMonth(ym.0, ym.1) + c.day - 1
  {
    var ym := ShiftMonth(c.year, c.month, k);
    var dim := DaysInMonth(ym.0, ym.1);
    if c.day <= dim then
      Date(ym.0, ym.1, c.day)
    else
      var nx := ShiftMonth(ym.0, ym.1, 1);
      NextMonthFirst(ym.0, ym.1);
      Date(nx.0, nx.1, c.day - dim)
  }

  /** The month after month `m` of year `y` starts the day after it ends. */
  lemma NextMonthFirst(y: int, m: int)
    requires 1 <= m <= 12
    ensures var nx := ShiftMonth(y, m, 1);
            FirstOfMonth(nx.0, nx.1) == FirstOfMonth(y, m) + DaysInMonth(y, m)
  {
    var nx := ShiftMonth(y, m, 1);
    assert nx == (if m == 12 then (y + 1, 1) else (y, m + 1));
    MonthsAdjacent(y, m);
  }

  /** JavaScript's `d.setMonth(d.getMonth() + k)`: no clamping; the time of
      day is kept. */
  function SetMonthBy(t: int, k: int): int {
    var c := DateOf(t);
    var ym := ShiftMonth(c.year, c.month, k);
    StartOfDay(FirstOfMonth(ym.0, ym.1) + c.day - 1) + MinuteOfDay(t)
  }

  lemma {:induction false} SetMonthByRolls(t: int, k: int)
    ensures DateOf(SetMonthBy(t, k)) == RolledMonthShift(DateOf(t), k)
    ensures MinuteOfDay(SetMonthBy(t, k)) == MinuteOfDay(t)
  {
    DateOfAt(RolledMonthShift(DateOf(t), k), MinuteOfDay(t), SetMonthBy(t, k));
  }
}
