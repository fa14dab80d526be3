/** The search dialog: the same event search as the header, and the two
    ways out of it, picking an event or typing a date. */
module SearchModal {
  import opened Seqs
  import opened Events
  import opened Search

  /** The callbacks the dialog fires, in the order it fires them. */
  datatype Callback = SelectDate(date: int) | OpenEvent(event: Event) | CloseDialog

  /** The dialog's result list: `SearchResults` of its own query. */
  function Results(events: seq<Event>, query: string): (r: seq<Event>)
    ensures forall e :: e in r ==> e in events
  {
    SearchResultsExact(events, query);
    SearchResults(events, query)
  }

  /** `handleEventClick(event)`: select the event's start date, open the
      event, close the dialog. */
  function EventClick(event: Event): (calls: seq<Callback>)
    ensures |calls| == 3 && calls[0] == SelectDate(event.start) && calls[1] == OpenEvent(event)
    ensures calls[2] == CloseDialog
  {
    [SelectDate(event.start), OpenEvent(event), CloseDialog]
  }

  /** `handleDateSearch(dateString)`, with `parsed` what `new Date` made of
      the string (`None` for an invalid date): a valid date is selected and
      the dialog closes; otherwise nothing happens. */
  function DateSearch(parsed: Option<int>): (calls: seq<Callback>)
    ensures calls != [] <==> parsed.Some?
    ensures parsed.Some? ==> calls == [SelectDate(parsed.value), CloseDialog]
  {
    if parsed.Some? then [SelectDate(parsed.value), CloseDialog] else []
  }
}
