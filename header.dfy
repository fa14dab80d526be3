/** The header bar: previous/next navigation per view, the title's date, and
    the search box with its result list. */
module Header {
  import opened Seqs
  import opened CalendarDate
  import opened Events
  import opened Search
  import App

  /** `new Date(y, 0, 1)`: midnight on January 1 of year `y`. */
  function YearStart(y: int): int {
    LocalDate(y, 0, 1, 0)
  }

  /** `handlePrevious`: a week or a day back, January 1 of the previous
      year, or (for the month view and any other view value) `subMonths`. */
  function Previous(view: App.View, t: int): int {
    match view
    case Week => t - 7 * MinutesPerDay
    case Day => t - MinutesPerDay
    case Year => YearStart(DateOf(t).year - 1)
    case Month => AddMonths(t, -1)
  }

  /** `handleNext`, the mirror image. */
  function Next(view: App.View, t: int): int {
    match view
    case Week => t + 7 * MinutesPerDay
    case Day => t + MinutesPerDay
    case Year => YearStart(DateOf(t).year + 1)
    case Month => AddMonths(t, 1)
  }

  /** In the day and week views the buttons move by exactly one day or one
      week, keep the time of day, and undo each other. */
  lemma DayAndWeekSteps(t: int)
    ensures DayOf(Next(App.Day, t)) == DayOf(t) + 1 && DayOf(Previous(App.Day, t)) == DayOf(t) - 1
    ensures DayOf(Next(App.Week, t)) == DayOf(t) + 7 && DayOf(Previous(App.Week, t)) == DayOf(t) - 7
    ensures MinuteOfDay(Next(App.Day, t)) == MinuteOfDay(t) && MinuteOfDay(Next(App.Week, t)) == MinuteOfDay(t)
    ensures MinuteOfDay(Previous(App.Day, t)) == MinuteOfDay(t) && MinuteOfDay(Previous(App.Week, t)) == MinuteOfDay(t)
    ensures Weekday(DayOf(Next(App.Week, t))) == Weekday(DayOf(t))
    ensures forall v :: v == App.Day || v == App.Week ==> Previous(v, Next(v, t)) == t && Next(v, Previous(v, t)) == t
  {
    InstantParts(t);
    AtMinuteOfDay(DayOf(t) + 1, MinuteOfDay(t));
    AtMinuteOfDay(DayOf(t) - 1, MinuteOfDay(t));
    AtMinuteOfDay(DayOf(t) + 7, MinuteOfDay(t));
    AtMinuteOfDay(DayOf(t) - 7, MinuteOfDay(t));
    WeekdayShift(DayOf(t), 1);
  }

  /** In the year view both buttons land on midnight of January 1 of the
      neighbouring year. */
  lemma YearStepsLandOnJanuaryFirst(t: int)
    ensures DateOf(Next(App.Year, t)) == Date(DateOf(t).year + 1, 1, 1) && MinuteOfDay(Next(App.Year, t)) == 0
    ensures DateOf(Previous(App.Year, t)) == Date(DateOf(t).year - 1, 1, 1) && MinuteOfDay(Previous(App.Year, t)) == 0
  {
    LocalDateInRange(DateOf(t).year + 1, 0, 1, 0);
    LocalDateInRange(DateOf(t).year - 1, 0, 1, 0);
  }

  /** In the month view the buttons keep the day of the month where the
      target month has it and clamp it to that month's last day otherwise;
      the time of day is kept. */
  lemma MonthStepsClamp(t: int)
    ensures DateOf(Next(App.Month, t)) == ClampedMonthShift(DateOf(t), 1)
    ensures DateOf(Previous(App.Month, t)) == ClampedMonthShift(DateOf(t), -1)
    ensures MinuteOfDay(Next(App.Month, t)) == MinuteOfDay(t) && MinuteOfDay(Previous(App.Month, t)) == MinuteOfDay(t)
  {
    AddMonthsClamps(t, 1);
    AddMonthsClamps(t, -1);
  }

  /** `new Date(y, monthIndex, day, hours)` as JavaScript evaluates it: a
      year from 0 to 99 is read as 1900 + y. */
  function LegacyLocalDate(y: int, monthIndex: int, day: int, hours: int): int {
    LocalDate(if 0 <= y <= 99 then 1900 + y else y, monthIndex, day, hours)
  }

  /** `handlePrevious` in the year view as written. */
  function PreviousYearAsWritten(t: int): int {
    LegacyLocalDate(DateOf(t).year - 1, 0, 1, 0)
  }

  /** As written, stepping back from any date of the years 1 to 100 lands
      on January 1 of a year in the twentieth century (from the year 100,
      on January 1, 1999) instead of January 1 of the previous year. */
  lemma PreviousYearAsWrittenSkipsCenturies(t: int)
    requires 1 <= DateOf(t).year <= 100
    ensures DateOf(PreviousYearAsWritten(t)) == Date(DateOf(t).year - 1 + 1900, 1, 1)
    ensures DateOf(Previous(App.Year, t)) == Date(DateOf(t).year - 1, 1, 1)
  {
    LocalDateInRange(DateOf(t).year - 1 + 1900, 0, 1, 0);
    YearStepsLandOnJanuaryFirst(t);
  }

  /** `handleNext` in the year view as written. */
  function NextYearAsWritten(t: int): int {
    LegacyLocalDate(DateOf(t).year + 1, 0, 1, 0)
  }

  /** As written, stepping forward from any date of the years -1 to 98
      lands on January 1 of a year in the twentieth century (from the year
      98, on January 1, 1999) instead of January 1 of the next year. */
  lemma NextYearAsWrittenSkipsCenturies(t: int)
    requires -1 <= DateOf(t).year <= 98
    ensures DateOf(NextYearAsWritten(t)) == Date(DateOf(t).year + 1 + 1900, 1, 1)
    ensures DateOf(Next(App.Year, t)) == Date(DateOf(t).year + 1, 1, 1)
  {
    LocalDateInRange(DateOf(t).year + 1 + 1900, 0, 1, 0);
    YearStepsLandOnJanuaryFirst(t);
  }

  /** The date the title formats, with its date-fns pattern. */
  datatype Title = Title(date: int, pattern: string)

  /** `getDateTitle`: the week view names the Sunday that starts the week. */
  function TitleOf(view: App.View, t: int): (title: Title)
    ensures view == App.Week ==>
              DayOf(title.date) == StartOfWeek(DayOf(t)) && MinuteOfDay(title.date) == 0
              && Weekday(DayOf(title.date)) == 0 && DayOf(title.date) <= DayOf(t) < DayOf(title.date) + 7
    ensures view != App.Week ==> title.date == t
  {
    match view
    case Week => Title(StartOfDay(StartOfWeek(DayOf(t))), "MMM d, yyyy")
    case Day => Title(t, "EEEE, MMM d, yyyy")
    case Year => Title(t, "yyyy")
    case Month => Title(t, "MMMM yyyy")
  }

  /** The search box's state. */
  class HeaderSearch {
    var searchQuery: string
    var filteredEvents: seq<Event>
    var showSearchResults: bool

    constructor ()
      ensures searchQuery == "" && filteredEvents == [] && !showSearchResults
    {
      searchQuery := "";
      filteredEvents := [];
      showSearchResults := false;
    }

    /** The effect run when the query or the event list changes: a blank
        query empties and hides the list, any other shows the events it
        finds. */
    method SearchEffect(events: seq<Event>)
      modifies this`filteredEvents, this`showSearchResults
      ensures filteredEvents == SearchResults(events, searchQuery)
      ensures showSearchResults <==> !IsBlank(searchQuery)
    {
      TrimEmptyIffBlank(searchQuery);
      if Trim(searchQuery) == "" {
        filteredEvents := [];
        showSearchResults := false;
        return;
      }
      var query := Lower(searchQuery);
      filteredEvents := Filter(e => Matches(e, query), events);
      showSearchResults := true;
    }

    /** Typing: the query changes and the effect runs. */
    method ChangeQuery(q: string, events: seq<Event>)
      modifies this
      ensures searchQuery == q
      ensures filteredEvents == SearchResults(events, q)
      ensures showSearchResults <==> !IsBlank(q)
    {
      searchQuery := q;
      SearchEffect(events);
    }

    /** `handleSearchEventClick(event)`: the date moves to the event's start,
        the event opens, and the query is cleared, after which the effect
        empties the list. Returns the new date and the opened event. */
    method HandleSearchEventClick(event: Event, events: seq<Event>) returns (newDate: int, clicked: Event)
      modifies this
      ensures newDate == event.start && clicked == event
      ensures searchQuery == "" && filteredEvents == [] && !showSearchResults
    {
      newDate := event.start;
      clicked := event;
      searchQuery := "";
      showSearchResults := false;
      SearchEffect(events);
    }
  }
}
