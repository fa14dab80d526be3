# Calendar clone: a verified model of its scheduling logic

This project models the deterministic core of a Google-Calendar-like web
application: a React front end and a small Express/MongoDB back end. It
covers:

- the month, year and mini-calendar grids (whole weeks from the Sunday on or
  before the 1st to the Saturday on or after the month's end), the per-day
  event filter and the "three, then +N more" rule;
- the day and week timelines: one pixel per minute, a 30-pixel minimum
  height, full-column all-day events, hour labels and hour-cell clicks;
- the event editor: defaults for a new event, save validation, all-day
  snapping, the 96 quarter-hour time options, and the date and time pickers;
- navigation: previous/next per view, which clamps the day (`addMonths`) in
  the header and rolls it over (`setMonth`) in the mini calendar, and the
  month view's scroll-to-turn-the-page state machine;
- the case-insensitive event search of the header and of the search dialog;
- the client's reconciliation of its event list with the server's replies;
- the server's request normalisation, validation and store operations.

Time is modelled on integers. A client instant is a whole number of minutes
since 1970-01-01 00:00 local time. Its day number is `t / 1440`, its weekday
`(day + 4) % 7` with Sunday = 0, and its civil date comes from a proleptic
Gregorian conversion (`CalendarDate.CivilOf`). That conversion is proved to
invert `DayNumber` in both directions. At 60 pixels per hour a pixel offset
is exactly a minute count.

The server stores instants as milliseconds. There, the text of each time field
travels with the instant `new Date(text)` makes of it, so the model does not
parse ISO strings. The database collection is a map from id to record, and ids
come from a counter.

Remote calls, the clock and the confirm dialog are parameters: a handler
receives the reply its call produced (`Ok` or `Fail`), `now`, or `confirmed`.

Modules, one file each:

- `Seqs`: filter, subsequence, flatten.
- `CalendarDate`: the civil calendar and JavaScript/date-fns date arithmetic.
- `MonthGrid`: the whole-week window around a month.
- `Events`: the client event record and the per-day filter.
- `Clock`: 12-hour labels.
- `Timeline`: box placement.
- `App`, `MonthView`, `WeekView`, `DayView`, `YearView`, `MiniCalendar`,
  `EventModal`, `Header`, `Search`, `SearchModal`: one per component.
- `EventStore`: the server.

Where the repository's written description and its code differ, the model
follows the code:

- A month grid has 4 to 6 rows, not 6 or 7 (`MonthView.NumWeeksIsRowCount`).
- The editor applies all-day snapping only when saving, not when the toggle
  changes.
- A timed event is saved even when its end precedes its start, so end >= start
  does not hold for every accepted request.

## Model

| member | source | states |
|---|---|---|
| App.CalendarApp.constructor | frontend/src/App.jsx:9-14 | starts with no events, the current instant selected, the month view, the modal closed, nothing selected, loading |
| App.CalendarApp.FetchEvents | frontend/src/App.jsx:20-30 | a loaded list replaces the events; a failed load keeps the old list and alerts; loading is false afterwards either way |
| App.AppendCreated | frontend/src/App.jsx:34-35 | the created record is appended last and every earlier event keeps its place |
| App.CalendarApp.HandleCreateEvent | frontend/src/App.jsx:32-40 | on success the list gains the created record at the end and the modal closes; on failure the list and modal are unchanged and the create alert is raised |
| App.ReplaceUpdated | frontend/src/App.jsx:46-49 | same length; exactly the entries whose `_id \|\| id` equals the edited key become the returned record, all others are unchanged |
| App.ReplaceUpdatedIdempotent | frontend/src/App.jsx:46-49 | replacing with a record that carries the edited key keeps every entry's key, so repeating the update changes nothing |
| App.CalendarApp.HandleUpdateEvent | frontend/src/App.jsx:42-55 | on success the list is `ReplaceUpdated` by the selected event's key, the modal closes and the selection clears; on failure (or with no selected event) nothing changes and the update alert is raised |
| App.RemoveDeletedExact | frontend/src/App.jsx:59-60 | after a delete the list holds exactly the events with another key, in their relative order, and is shorter by the number of events carrying the key |
| App.RemoveDeletedAbsent | frontend/src/App.jsx:60 | deleting a key no event carries leaves the list unchanged |
| App.DeleteAfterCreate | frontend/src/App.jsx:32-66 | creating an event and then deleting its key gives the same list as deleting that key from the original list |
| App.CalendarApp.HandleDeleteEvent | frontend/src/App.jsx:57-66 | on success the list is filtered by the key, the modal closes and the selection clears; on failure nothing changes and the delete alert is raised |
| App.CalendarApp.SaveTarget | frontend/src/App.jsx:122 | a save goes to the update handler exactly when an event is selected |
| App.CalendarApp.Save | frontend/src/App.jsx:122 | a successful save replaces the selected event's entries when one is selected and appends otherwise; a failed save leaves the list alone |
| App.CalendarApp.HandleEventClick | frontend/src/App.jsx:68-71 | the clicked event is selected and the modal opens |
| App.CalendarApp.HandleDateClick | frontend/src/App.jsx:73-77 | the date is selected, the selection is cleared and the modal opens |
| App.CalendarApp.HandleCloseModal | frontend/src/App.jsx:79-82 | the modal closes and the selection clears |
| App.CalendarApp.OpenCreate | frontend/src/App.jsx:91 | the modal opens and the app invariant (a selection only while the modal is open) holds |
| App.CalendarApp.ChangeDate | frontend/src/App.jsx:90 | the selected date becomes the given one |
| App.CalendarApp.ChangeView | frontend/src/App.jsx:89 | the view becomes the given one |
| CalendarDate.CivilOf | frontend/src/components/YearView.jsx:5 | the civil date of a day number is a valid date whose day number is that day (`getFullYear`/`getMonth`/`getDate`) |
| CalendarDate.CivilOfDayNumber | frontend/src/components/YearView.jsx:32 | converting a valid date to its day number and back gives the same date |
| CalendarDate.DayNumberInjective | frontend/src/components/MiniCalendar.jsx:59 | distinct valid dates have distinct day numbers, so `isSameDay` is equality of day numbers |
| CalendarDate.DaysInMonth | frontend/src/components/MonthView.jsx:5 | months have 28 to 31 days, and February has 29 exactly in leap years |
| CalendarDate.StartOfWeek | frontend/src/components/MonthView.jsx:6 | `startOfWeek` is the Sunday on or before the day |
| CalendarDate.EndOfWeek | frontend/src/components/MonthView.jsx:7 | `endOfWeek` is the Saturday on or after the day |
| CalendarDate.IsSameDayByDayNumber | frontend/src/components/MonthView.jsx:59 | `isSameDay` holds exactly when the day numbers agree |
| CalendarDate.InMonthIffBetween | frontend/src/components/MonthView.jsx:78 | a day is in month m of year y exactly when it lies between that month's first and last day |
| CalendarDate.LocalDateInRange | frontend/src/components/YearView.jsx:6 | `new Date(y, monthIndex, day, hours)` with in-range fields is that civil date at that hour |
| CalendarDate.ClampedMonthShift | frontend/src/components/Header.jsx:29 | moves the date exactly k months and keeps the day, clamped to the target month's last day |
| CalendarDate.AddMonthsClamps | frontend/src/components/Header.jsx:28-40 | `addMonths` gives the clamped month shift of the date and keeps the time of day |
| CalendarDate.SetMonthByRolls | frontend/src/components/MiniCalendar.jsx:21-31 | `setMonth(getMonth() + k)` gives the rolled month shift of the date and keeps the time of day |
| CalendarDate.RolledMonthShift | frontend/src/components/MiniCalendar.jsx:21-31 | the rolled date is valid and is the same day number counted from the 1st of the target month, so an overflowing day lands in the following month |
| CalendarDate.ShiftMonthBack | frontend/src/components/MiniCalendar.jsx:21-31 | moving k months and then -k months returns to the starting month |
| MonthGrid.GridShape | frontend/src/components/MonthView.jsx:4-7 | the grid starts on a Sunday no more than 6 days before the 1st, ends on a Saturday no more than 6 days after the last day, and spans 4 to 6 whole weeks |
| MonthGrid.GridOfWholeWeeks | frontend/src/components/MonthView.jsx:4-7 | the grid drawn for any instant is a non-empty whole number of weeks |
| MonthGrid.InMonthIffInside | frontend/src/components/MonthView.jsx:78 | `isSameMonth(day, monthStart)` holds exactly for the days between the month's first and last day |
| MonthGrid.DaysBetween | frontend/src/components/MiniCalendar.jsx:14-19 | the day loop yields one entry per day from the first to the last day, in order |
| Events.Key | frontend/src/App.jsx:44-47 | `_id \|\| id`: the store id when it is a non-empty string, otherwise `id` |
| Events.EventsOnDay | frontend/src/components/MonthView.jsx:56-61 | every event returned for a day is from the list and starts on that day |
| Events.EventsOnDayExact | frontend/src/components/MonthView.jsx:56-61 | a day's events are exactly the listed events that start that day, in list order |
| Events.EventsOnDistinctDaysDisjoint | frontend/src/components/MonthView.jsx:56-61 | no event is listed under two different days |
| Events.EventsOnDayAppend | frontend/src/components/YearView.jsx:8-13 | the day filter of two concatenated lists is the concatenation of their day filters |
| MonthView.Overflow | frontend/src/components/MonthView.jsx:99-115 | shows the first three events; "+N more" appears exactly when there are more than three, and shown + N equals the day's count |
| MonthView.CellContents | frontend/src/components/MonthView.jsx:77-115 | a cell shows at most three of exactly its day's events, in list order, and announces all the rest; it is in-month, today and selected exactly as `isSameMonth`, `isToday` and `isSameDay` say |
| MonthView.TakeIsSubsequence | frontend/src/components/MonthView.jsx:99 | the first n of an in-order sublist are still an in-order sublist |
| MonthView.NumWeeksIsRowCount | frontend/src/components/MonthView.jsx:8 | the ceiling of the grid's millisecond span over a week equals the number of rows the grid has, between 4 and 6 |
| MonthView.RowsBetween | frontend/src/components/MonthView.jsx:72-127 | the while/for loops build rows of exactly seven cells, cell c of row r being the day 7r + c days after the start |
| MonthView.BuildRows | frontend/src/components/MonthView.jsx:72-127 | the month grid is rows of seven whose cells are the consecutive grid days, cell c of row r the one 7r + c days into the grid |
| MonthView.MonthRows | frontend/src/components/MonthView.jsx:72-127 | the rows for a whole-week span of a month have seven cells each, covering the span in order |
| MonthView.MonthDayHasCell | frontend/src/components/MonthView.jsx:72-127 | every day of the month has a cell, at row `(n - first) / 7` below the row count and column `(n - first) % 7` |
| MonthView.CellOfDayUnique | frontend/src/components/MonthView.jsx:72-127 | a row and column that land on a day are the ones above, so no day has two cells |
| MonthView.PageTurnLandsOnFirst | frontend/src/components/MonthView.jsx:27-31 | a page turn lands at midnight on the 1st of the next or previous month, rolling over the year |
| MonthView.MonthScroll.constructor | frontend/src/components/MonthView.jsx:13-16 | starts visible, idle, with the last scroll position 0 |
| MonthView.MonthScroll.OnScroll | frontend/src/components/MonthView.jsx:18-42 | a turn starts only when the jump exceeds 100 px either way and no turn is in progress, its direction the sign of the jump; the last position is recorded on every event |
| MonthView.MonthScroll.FadeOutElapsed | frontend/src/components/MonthView.jsx:26-31 | when the fade-out ends, the date moves to the 1st of the next or previous month and the fade-in starts; otherwise nothing changes |
| MonthView.MonthScroll.FadeInElapsed | frontend/src/components/MonthView.jsx:33-37 | when the fade-in ends, the scroll returns to the top and the next turn is allowed; otherwise nothing changes |
| WeekView.WeekDays | frontend/src/components/WeekView.jsx:4-6 | seven days, the i-th being i days after the week's Sunday |
| WeekView.WeekDaysAreTheWeek | frontend/src/components/WeekView.jsx:4-6 | the days run Sunday to Saturday, one day apart, and are exactly the days in the selected date's week |
| WeekView.EventStyle | frontend/src/components/WeekView.jsx:14-50 | an event not starting on the day gets a 0-height box; an all-day one the full 1440-px column; a timed one a box at its start minute, at least 30 high |
| WeekView.Column | frontend/src/components/WeekView.jsx:96-108 | a column pairs each of the day's events, in order, with its box |
| WeekView.ColumnsDrawOnlyThatDay | frontend/src/components/WeekView.jsx:95-108 | each of the seven columns holds only listed events starting on its day, each drawn full-column or at least 30 high, never as the empty box |
| WeekView.HourClick | frontend/src/components/WeekView.jsx:89 | clicking hour h of a day gives that day at h:00 |
| Clock.HourLabelIsTwelveHour | frontend/src/components/WeekView.jsx:83 | the hour label is the 12-hour display hour (0 shows 12) followed by AM before noon and PM from noon |
| Clock.HourLabelInjective | frontend/src/components/DayView.jsx:65 | the 24 hour labels are pairwise distinct |
| Clock.DisplayHour | frontend/src/components/EventModal.jsx:127-130 | the 12-hour display hour is 1..12: 12 for hour 0, h for 1..12, h - 12 after noon |
| Clock.Hour24OfDisplay | frontend/src/components/EventModal.jsx:126-130 | the display hour with its am/pm period determines the hour of the day |
| Clock.ParseDecimalOfDecimal | frontend/src/components/EventModal.jsx:132 | the decimal rendering of a number reads back as that number |
| Clock.DecimalInjective | frontend/src/components/EventModal.jsx:132 | distinct numbers print differently |
| Clock.TwoDigits | frontend/src/components/EventModal.jsx:132 | `padStart(2, '0')` of a minute below 100 has two characters |
| Clock.TimeLabelParts | frontend/src/components/EventModal.jsx:133-135 | both branches of the time label print the display hour, a colon, the two-digit minute and the period |
| Clock.TimeLabelInjective | frontend/src/components/EventModal.jsx:133-135 | two time labels for minutes below 60 are equal only for the same hour and minute |
| Timeline.TimedBoxPlacement | frontend/src/components/DayView.jsx:20-35 | a timed box's top is the start's minute of the day; its height is the minute-of-day difference floored at 30 (also when negative); for an event ending the same day at least 30 minutes later the box ends at the end time |
| Timeline.AtHourOnDay | frontend/src/components/DayView.jsx:101 | `new Date(y, m, d, hour)` is the same day at hour:00 |
| DayView.EventStyle | frontend/src/components/DayView.jsx:10-37 | an all-day event fills the 1440-px column; a timed one sits at its start minute and is at least 30 high |
| DayView.DayEventsExact | frontend/src/components/DayView.jsx:6-9 | the shown events are exactly the listed events starting on the selected day, in list order |
| DayView.HourRowsDrawEachOnce | frontend/src/components/DayView.jsx:62-72 | across the 24 hour rows the day's events are drawn once each, all in row 0, in order |
| DayView.HourClick | frontend/src/components/DayView.jsx:101 | clicking hour h gives the selected day at h:00 |
| YearView.Months | frontend/src/components/YearView.jsx:6 | twelve months are listed |
| YearView.MonthsOfYear | frontend/src/components/YearView.jsx:5-6 | the i-th month is midnight on the 1st of month i + 1 of the selected year |
| YearView.RenderMonth | frontend/src/components/YearView.jsx:15-47 | the days are consecutive from the grid's Sunday to its Saturday, each with its day number, month and today flags and events; the weeks are 7-day chunks whose concatenation is the days |
| YearView.MonthWeeks | frontend/src/components/YearView.jsx:24-44 | for a whole-week span, the days are its consecutive cells and the weeks are 7-day chunks of them |
| YearView.MonthDays | frontend/src/components/YearView.jsx:24-39 | the day loop gives one cell per day of the span, in order |
| YearView.ChunkWeeks | frontend/src/components/YearView.jsx:41-44 | the chunks put back together are the days; there are ceil(n/7) of them, of 1 to 7 days, all 7 when n is a multiple of 7 |
| YearView.DayCellDots | frontend/src/components/YearView.jsx:88-103 | coloured dots are the first three events and appear only on in-month days; the grey dot appears exactly on in-month days with more than three events |
| YearView.DayCellHighlight | frontend/src/components/YearView.jsx:78 | the today highlight needs both today and the month |
| YearView.DayCellNumber | frontend/src/components/YearView.jsx:32 | an in-month day's number is its place in the month |
| MiniCalendar.Days | frontend/src/components/MiniCalendar.jsx:6-19 | the days are consecutive, from the grid's first to its last day |
| MiniCalendar.DaysCoverMonth | frontend/src/components/MiniCalendar.jsx:6-19 | the days start on a Sunday, end on a Saturday and include every day of the month, the selected day among them |
| MiniCalendar.MarksRules | frontend/src/components/MiniCalendar.jsx:57-70 | in-month exactly when `isSameMonth`, today exactly on today, the selected style exactly on the selected day when it is not today, and never both styles |
| MiniCalendar.NavigationRolls | frontend/src/components/MiniCalendar.jsx:21-31 | previous and next move the month by exactly one with `setMonth`, keeping the day number (rolling over when the month is shorter) and the time of day |
| MiniCalendar.PreviousUndoesNext | frontend/src/components/MiniCalendar.jsx:21-31 | on a day every month has, previous and next undo each other |
| EventModal.EventModal.constructor | frontend/src/components/EventModal.jsx:6-20 | the empty form with the default colour, every picker closed, the picker month at the current instant |
| EventModal.EventModal.InitForm | frontend/src/components/EventModal.jsx:33-73 | an existing event's fields are copied with their defaults; a new event starts at the selected instant, or at 09:00 when that is midnight, and lasts one hour |
| EventModal.EventModal.HandleSave | frontend/src/components/EventModal.jsx:75-113 | an empty title, then an unreadable start, then an unreadable end are refused with their alerts; otherwise the data is saved and the modal closes; all-day saves run from midnight of the start day to the next midnight; timed ones pass both times unchanged |
| EventModal.EventModal.HandleDelete | frontend/src/components/EventModal.jsx:115-121 | after confirmation the event's key is deleted and the modal closes; otherwise nothing happens |
| EventModal.SetHours | frontend/src/components/EventModal.jsx:166-178 | `setHours(h, m)` keeps the day and sets the hour and minute |
| EventModal.TimeOptions | frontend/src/components/EventModal.jsx:123-143 | 96 options, the i-th being the quarter hour 15i minutes after midnight with its 12-hour label |
| EventModal.Slot | frontend/src/components/EventModal.jsx:126-141 | one option carries the hour, the minute and the time label |
| EventModal.TimeOptionLabelsDistinct | frontend/src/components/EventModal.jsx:123-143 | no two time options share a label |
| EventModal.EventModal.ShowPreviousMonth | frontend/src/components/EventModal.jsx:246 | the picker month moves back one month with `subMonths` |
| EventModal.EventModal.ShowNextMonth | frontend/src/components/EventModal.jsx:253 | the picker month moves forward one month with `addMonths` |
| EventModal.EventModal.HandleDateSelect | frontend/src/components/EventModal.jsx:145-164 | the start moves to the picked day at its old clock time, the end follows so the duration is kept, and both date pickers close; with an unreadable time nothing changes |
| EventModal.EventModal.HandleTimeSelect | frontend/src/components/EventModal.jsx:166-178 | only the chosen endpoint's hour and minute change (the end falls back to the start, the start to now); the other endpoint is kept and that picker closes |
| Header.Previous | frontend/src/components/Header.jsx:21-31 | the date the previous button moves to in each view |
| Header.DayAndWeekSteps | frontend/src/components/Header.jsx:21-42 | in the day and week views the buttons move by exactly 1 or 7 days, keep the time and the weekday, and undo each other |
| Header.YearStepsLandOnJanuaryFirst | frontend/src/components/Header.jsx:26-38 | in the year view both buttons land on midnight of January 1 of the neighbouring year |
| Header.MonthStepsClamp | frontend/src/components/Header.jsx:28-40 | in the month view the buttons move by one month, clamping the day to the target month and keeping the time |
| Header.PreviousYearAsWrittenSkipsCenturies | frontend/src/components/Header.jsx:26-27 | as written, from a date in the years 1 to 100 the previous button lands on January 1 of year (y - 1) + 1900; corrected, on January 1 of year y - 1 |
| Header.NextYearAsWrittenSkipsCenturies | frontend/src/components/Header.jsx:37-38 | as written, from a date in the years -1 to 98 the next button lands on January 1 of year (y + 1) + 1900 (from 98, on January 1, 1999); corrected, on January 1 of year y + 1 |
| Header.TitleOf | frontend/src/components/Header.jsx:53-64 | the week title is midnight of the Sunday starting the selected date's week; other views title the selected date itself |
| Header.HeaderSearch.constructor | frontend/src/components/Header.jsx:14-16 | an empty query, no results, results hidden |
| Header.HeaderSearch.SearchEffect | frontend/src/components/Header.jsx:66-83 | the results are the search results of the query; they are shown exactly when the query is not blank |
| Header.HeaderSearch.ChangeQuery | frontend/src/components/Header.jsx:66-83 | typing sets the query and reruns the search |
| Header.HeaderSearch.HandleSearchEventClick | frontend/src/components/Header.jsx:84-90 | the date moves to the event's start, the event opens, the query clears, and the results empty and hide |
| Search.TrimEmptyIffBlank | frontend/src/components/Header.jsx:67 | `trim()` gives "" exactly when every character is white space |
| Search.TrimStart | frontend/src/components/Header.jsx:67 | trimming at the start gives a suffix that does not begin with white space |
| Search.TrimEnd | frontend/src/components/Header.jsx:67 | trimming at the end gives a prefix that does not end with white space |
| Search.Lower | frontend/src/components/Header.jsx:72 | `toLowerCase` keeps the length and lowers each character |
| Search.LowerIdempotent | frontend/src/components/Header.jsx:72-79 | lowering twice is lowering once |
| Search.LowerKeepsBlank | frontend/src/components/Header.jsx:67-72 | lowering keeps a string blank or not blank |
| Search.ContainsIffOccurs | frontend/src/components/Header.jsx:77-79 | `includes` finds the query exactly when it occurs at some position |
| Search.SearchResultsExact | frontend/src/components/Header.jsx:66-83 | a blank query finds nothing; any other finds exactly the events whose lowered title, description or location (missing as "") contains the lowered query, in list order |
| Search.SearchIgnoresQueryCase | frontend/src/components/SearchModal.jsx:15-24 | lowering the query first does not change the results |
| SearchModal.Results | frontend/src/components/SearchModal.jsx:9-27 | every result is an element of the events |
| SearchModal.EventClick | frontend/src/components/SearchModal.jsx:29-34 | clicking a result selects its start date, opens it and then closes the dialog |
| SearchModal.DateSearch | frontend/src/components/SearchModal.jsx:36-45 | a valid date is selected and the dialog closes; an invalid one does nothing |
| EventStore.EitherTime | backend/server.js:49-50 | the snake_case time when it is truthy, else the camelCase one |
| EventStore.CastDate | backend/server.js:55-56 | an absent or empty time is an invalid date; otherwise the parsed instant |
| EventStore.Normalize | backend/server.js:48-90 | times from the truthy snake_case field or else the camelCase one; `all_day` whenever present, even false, else `allDay`, else false; "" and "#4285f4" for a missing or empty description and colour |
| EventStore.AcceptableIff | backend/server.js:17-26 | a request is accepted exactly when its title is non-empty and both chosen times are valid dates; an invalid snake_case time is never rescued by the camelCase one |
| EventStore.Insert | backend/server.js:40 | inserting into a start-sorted list keeps it sorted, grows it by one and adds exactly the new entry |
| EventStore.InsertKeepsIdsUnique | backend/server.js:40 | inserting an entry with a new id keeps the ids unique |
| EventStore.Query | backend/server.js:36-40 | the selected records, each once, sorted by start |
| EventStore.Store.constructor | backend/server.js:27 | an empty collection |
| EventStore.Store.List | backend/server.js:33-45 | answers 200 exactly unless both bounds are given and one is not a valid date, which is a 500; with both bounds given, the records are exactly the stored ones whose start lies between them, both ends included, else all stored records; sorted by start, ids unique |
| EventStore.Store.Create | backend/server.js:46-65 | an accepted body is stored under a fresh id with both timestamps `now` and returned with 201; anything else is a 500 and the store is unchanged |
| EventStore.Store.Update | backend/server.js:74-101 | a rejected body is a 500; an unknown id is a 404; otherwise only that record is replaced, keeping its creation time and setting its update time, and returned |
| EventStore.Store.Delete | backend/server.js:102-114 | removes exactly that record, or answers 404 and changes nothing |
| EventStore.Store.DeleteAll | backend/server.js:66-73 | the store is empty afterwards |
| EventStore.DeleteUndoesCreate | backend/server.js:102-114 | the id a successful create uses is not yet stored, and deleting the record it stored restores the store |
| EventStore.RepeatedUpdate | backend/server.js:74-101 | an update keeps the set of ids and every other record; repeating the same update later equals one update at the later time and differs from the first result only in `updated_at`, keeping `created_at` |

## Left out

- Rendering: JSX markup, CSS classes, fade classes, the `calc()` row height, the week view's percentage column offsets, and spinners while loading.
- Timers, DOM listeners, click-outside handling, `scrollIntoView`, and the Escape key and backdrop that close the dialogs. The month view's two timers are modelled as the explicit steps `FadeOutElapsed` and `FadeInElapsed`.
- Time zones and daylight saving: local time is a uniform 1440-minute day. Seconds and milliseconds on the client are dropped; instants are whole minutes.
- ISO-8601 parsing and formatting, and date-fns `format` patterns. A parsed time is an `Option` of an instant. Titles carry their pattern name only (`Header.TitleOf`).
- Floating point: the timeline's `minute / 60` arithmetic is exact integer minutes.
- `DayView.EventStyle`, `WeekView.EventStyle`: only the top and height of a box are modelled, not the left/right insets.
- Remote calls and their async ordering: each handler receives the reply of its own call. `api.js` is not part of this model.
- Mongo, mongoose, express, CORS, environment configuration, the health check and `app.listen`. The collection is a map with a counter for fresh ids. Malformed ObjectIds and database failures are not modelled. `seed.js` is not part of this model.
- EventStore.Store.Update: mongoose strips undefined keys from an update. The model validates an update like a create, so a body without a title is refused, whereas mongoose would leave the stored title unchanged.
- EventStore.Normalize: request fields are strings, booleans or absent. JSON values of other types are not modelled.
- Search.LowerChar: lower-casing covers ASCII and Latin-1 capitals only, not the rest of Unicode.
- `Calendar.jsx` (view dispatch; any other view falls to the month view) and `Sidebar.jsx` are not part of this model. The header's `Previous`/`Next` cover the four views.
- The header's "today" button (it reads the wall clock), its view dropdown and its search-active flag.
- The editor's date-picker grid (`calendarDays`) and its highlight. The same whole-week window is modelled by `MonthGrid` and `MiniCalendar.Days`.
- The colour palette and the description toggle.
- CalendarDate.LocalDate: `new Date(y, ...)` for a year from 0 to 99 maps to 1900 + y. Only `Header.PreviousYearAsWritten` and `Header.NextYearAsWritten` model this; everywhere else the corrected constructor is used (see Findings).

## Findings

| source | as written | input that shows it | evidently intended | confidence | as-written member | corrected member |
|---|---|---|---|---|---|---|
| frontend/src/components/Header.jsx:27 | `new Date(selectedDate.getFullYear() - 1, 0, 1)` reads years 0 to 99 as 1900 to 1999 | a selected date in the year 100: the previous button lands on January 1, 1999 instead of January 1 of the year 99 | January 1 of the previous year for every year | not executed | Header.PreviousYearAsWritten, Header.PreviousYearAsWrittenSkipsCenturies | Header.Previous, Header.YearStepsLandOnJanuaryFirst |
| frontend/src/components/Header.jsx:38 | `new Date(selectedDate.getFullYear() + 1, 0, 1)` reads years 0 to 99 as 1900 to 1999 | a selected date in the year 98: the next button lands on January 1, 1999 instead of January 1 of the year 99 | January 1 of the next year for every year | not executed | Header.NextYearAsWritten, Header.NextYearAsWrittenSkipsCenturies | Header.Next, Header.YearStepsLandOnJanuaryFirst |
