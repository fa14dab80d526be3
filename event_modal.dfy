/** The event editor: the form state behind the modal, its defaults for a
    new event, the save and delete buttons, the 96 time-picker options and
    the date and time pickers. The form's times hold what the formatted
    "yyyy-MM-dd'T'HH:mm" strings hold: an instant at minute precision, or
    `None` for the empty string (which `new Date` reads as an invalid date). */
module EventModal {
  import opened Seqs
  import opened CalendarDate
  import opened Events
  import opened Clock

  const DefaultColor := "#4599df"
  const DefaultHour := 9
  const SlotsPerHour := 4
  const SlotMinutes := 15

  const TitleAlert := "Please enter a title"
  const StartAlert := "Invalid start time. Please select a valid date and time."
  const EndAlert := "Invalid end time. Please select a valid date and time."

  datatype FormData = FormData(
    title: string,
    startTime: Option<int>,
    endTime: Option<int>,
    allDay: bool,
    color: string,
    description: string)

  /** The object handed to `onSave`. */
  datatype EventData = EventData(title: string, description: string, start: int, end: int, allDay: bool, color: string)

  datatype SaveOutcome = Rejected(alert: string) | Saved(data: EventData)

  /** One time-picker entry. */
  datatype TimeOption = TimeOption(text: string, hour: int, minute: int)

  /** `x || fallback` on an optional string. */
  function OrDefault(s: Option<string>, fallback: string): (r: string)
    ensures s.Some? && s.value != "" ==> r == s.value
    ensures s.None? || s.value == "" ==> r == fallback
  {
    if s.Some? && s.value != "" then s.value else fallback
  }

  /** `d.setHours(h, m)`: the same day at `h:m`. */
  function SetHours(t: int, h: int, m: int): (r: int)
    requires 0 <= h < 24 && 0 <= m < 60
    ensures DayOf(r) == DayOf(t) && Hours(r) == h && Minutes(r) == m
  {
    AtMinuteOfDay(DayOf(t), h * MinutesPerHour + m);
    StartOfDay(DayOf(t)) + h * MinutesPerHour + m
  }

  /** Entry `i` of the list: the quarter hour `15 * i` minutes after
      midnight with its 12-hour label. */
  predicate IsSlot(o: TimeOption, i: int) {
    && o.hour * MinutesPerHour + o.minute == i * SlotMinutes
    && 0 <= o.hour < 24 && 0 <= o.minute < 60
    && o.text == TimeLabel(o.hour, o.minute)
  }

  /** `timeOptions`: for each hour, the minutes 0, 15, 30, 45. */
  method TimeOptions() returns (options: seq<TimeOption>)
    ensures |options| == 24 * SlotsPerHour
    ensures forall i :: 0 <= i < |options| ==> IsSlot(options[i], i)
  {
    options := [];
    for hour24 := 0 to 24
      invariant |options| * SlotMinutes == hour24 * MinutesPerHour
      invariant forall i :: 0 <= i < |options| ==> IsSlot(options[i], i)
    {
      var minute := 0;
      ghost var slot := 0;
      while minute < 60
        invariant 0 <= slot <= SlotsPerHour && minute == slot * SlotMinutes
        invariant |options| * SlotMinutes == hour24 * MinutesPerHour + minute
        invariant forall i :: 0 <= i < |options| ==> IsSlot(options[i], i)
      {
        var option := Slot(hour24, minute);
        options := options + [option];
        minute := minute + SlotMinutes;
        slot := slot + 1;
      }
    }
  }

  /** One entry: the display hour, the padded minute and the period. */
  method Slot(hour24: int, minute: int) returns (option: TimeOption)
    requires 0 <= hour24 < 24 && 0 <= minute < 60
    ensures option.hour == hour24 && option.minute == minute
    ensures option.text == TimeLabel(hour24, minute)
  {
    var isPM := hour24 >= 12;
    var displayHour := if hour24 == 0 then 12 else hour24;
    if isPM && hour24 != 12 {
      displayHour := hour24 - 12;
    }
    var period := if isPM then "pm" else "am";
    var timeLabel := if minute == 0 then Decimal(displayHour) + ":00" + period
                     else Decimal(displayHour) + ":" + TwoDigits(minute) + period;
    option := TimeOption(timeLabel, hour24, minute);
  }

  /** The options are the quarter hours of the day in order, and no two of
      them share a label. */
  lemma TimeOptionLabelsDistinct(options: seq<TimeOption>)
    requires forall i :: 0 <= i < |options| ==> IsSlot(options[i], i)
    ensures forall i, j :: 0 <= i < j < |options| ==> options[i].text != options[j].text
  {
    forall i, j | 0 <= i < j < |options|
      ensures options[i].text != options[j].text
    {
      if options[i].text == options[j].text {
        TimeLabelInjective(options[i].hour, options[i].minute, options[j].hour, options[j].minute);
      }
    }
  }

  class EventModal {
    var formData: FormData
    var showStartDatePicker: bool
    var showEndDatePicker: bool
    var showStartTimePicker: bool
    var showEndTimePicker: bool
    var showDescriptionInput: bool
    /** The month the date picker shows. */
    var currentCalendarMonth: int

    /** The `useState` initial values; `now` is the clock reading behind
        `new Date()`. */
    constructor (now: int)
      ensures formData == FormData("", None, None, false, DefaultColor, "")
      ensures !showStartDatePicker && !showEndDatePicker && !showStartTimePicker && !showEndTimePicker
      ensures !showDescriptionInput && currentCalendarMonth == now
    {
      formData := FormData("", None, None, false, DefaultColor, "");
      showStartDatePicker, showEndDatePicker := false, false;
      showStartTimePicker, showEndTimePicker := false, false;
      showDescriptionInput := false;
      currentCalendarMonth := now;
    }

    /** The effect run when `event` or `selectedDate` changes: an existing
        event's fields are copied with their defaults; a new event starts at
        the selected instant, or at 09:00 of that day when it is exactly
        midnight, and lasts one hour. */
    method InitForm(event: Option<Event>, selectedDate: int)
      modifies this`formData, this`showDescriptionInput, this`currentCalendarMonth
      ensures event.Some? ==>
                var e := event.value;
                && formData == FormData(OrDefault(e.title, ""), Some(e.start), Some(e.end), e.allDay,
                                        OrDefault(e.color, DefaultColor), OrDefault(e.description, ""))
                && showDescriptionInput == (old(showDescriptionInput) || OrDefault(e.description, "") != "")
                && currentCalendarMonth == old(currentCalendarMonth)
      ensures event.None? ==>
                var start := if MinuteOfDay(selectedDate) == 0
                             then StartOfDay(DayOf(selectedDate)) + DefaultHour * MinutesPerHour
                             else selectedDate;
                && formData == FormData("", Some(start), Some(start + MinutesPerHour), false, DefaultColor, "")
                && !showDescriptionInput
                && currentCalendarMonth == StartOfDay(DayOf(selectedDate))
    {
      if event.Some? {
        var e := event.value;
        formData := FormData(OrDefault(e.title, ""), Some(e.start), Some(e.end), e.allDay,
                             OrDefault(e.color, DefaultColor), OrDefault(e.description, ""));
        if OrDefault(e.description, "") != "" {
          showDescriptionInput := true;
        }
      } else {
        var startTime := selectedDate;
        var hasHourSet := Hours(startTime) != 0 || Minutes(startTime) != 0;
        if !hasHourSet {
          startTime := SetHours(startTime, DefaultHour, 0);
        }
        var endTime := StartOfDay(DayOf(startTime)) + (Hours(startTime) + 1) * MinutesPerHour + Minutes(startTime);
        formData := FormData("", Some(startTime), Some(endTime), false, DefaultColor, "");
        showDescriptionInput := false;
        currentCalendarMonth := StartOfDay(DayOf(startTime));
      }
    }

    /** `handleSave`: an empty title or an unreadable time is refused with an
        alert; an all-day event is saved from midnight of its start day to
        the next midnight, whatever times were picked; otherwise both times
        are passed on as they are, even when the end precedes the start.
        After `onSave` the modal asks to be closed. */
    method HandleSave() returns (outcome: SaveOutcome, closes: bool)
      ensures closes <==> outcome.Saved?
      ensures formData.title == "" ==> outcome == Rejected(TitleAlert)
      ensures formData.title != "" && formData.startTime.None? ==>
                outcome == Rejected(StartAlert)
      ensures formData.title != "" && formData.startTime.Some? && formData.endTime.None? ==>
                outcome == Rejected(EndAlert)
      ensures formData.title != "" && formData.startTime.Some? && formData.endTime.Some? ==>
                outcome.Saved? && outcome.data.title == formData.title
                && outcome.data.description == formData.description
                && outcome.data.allDay == formData.allDay && outcome.data.color == formData.color
      ensures outcome.Saved? && formData.allDay ==>
                outcome.data.start == StartOfDay(DayOf(formData.startTime.value))
                && outcome.data.end == StartOfDay(DayOf(formData.startTime.value) + 1)
      ensures outcome.Saved? && !formData.allDay ==>
                outcome.data.start == formData.startTime.value && outcome.data.end == formData.endTime.value
    {
      closes := false;
      if formData.title == "" {
        outcome := Rejected(TitleAlert);
        return;
      }
      if formData.startTime.None? {
        outcome := Rejected(StartAlert);
        return;
      }
      if formData.endTime.None? {
        outcome := Rejected(EndAlert);
        return;
      }
      var startDate := formData.startTime.value;
      var endDate := formData.endTime.value;
      if formData.allDay {
        startDate := SetHours(startDate, 0, 0);
        endDate := startDate;
        endDate := endDate + MinutesPerDay;
        endDate := SetHours(endDate, 0, 0);
      }
      outcome := Saved(EventData(formData.title, formData.description, startDate, endDate, formData.allDay, formData.color));
      closes := true;
    }

    /** `handleDelete`, offered only for an existing event: after the user
        confirms, the event's key goes to `onDelete` and the modal asks to be
        closed; otherwise nothing happens. */
    method HandleDelete(event: Event, confirmed: bool) returns (deleted: Option<Option<string>>, closes: bool)
      ensures confirmed ==> deleted == Some(Key(event)) && closes
      ensures !confirmed ==> deleted.None? && !closes
    {
      if confirmed {
        deleted := Some(Key(event));
        closes := true;
      } else {
        deleted := None;
        closes := false;
      }
    }

    /** The date picker's month arrows: `subMonths` / `addMonths` by one,
        day clamped to the target month. */
    method ShowPreviousMonth()
      modifies this`currentCalendarMonth
      ensures currentCalendarMonth == AddMonths(old(currentCalendarMonth), -1)
    {
      currentCalendarMonth := AddMonths(currentCalendarMonth, -1);
    }

    method ShowNextMonth()
      modifies this`currentCalendarMonth
      ensures currentCalendarMonth == AddMonths(old(currentCalendarMonth), 1)
    {
      currentCalendarMonth := AddMonths(currentCalendarMonth, 1);
    }

    /** `handleDateSelect(day)` for a picked day (a midnight): the start
        moves to that day at its old clock time and the end follows so that
        the duration is kept; both date pickers close. With an unreadable
        time the formatting throws and nothing changes. */
    method HandleDateSelect(day: int) returns (threw: bool)
      modifies this`formData, this`showStartDatePicker, this`showEndDatePicker
      ensures threw <==> old(formData).startTime.None? || old(formData).endTime.None?
      ensures threw ==> formData == old(formData) && showStartDatePicker == old(showStartDatePicker)
                        && showEndDatePicker == old(showEndDatePicker)
      ensures !threw ==>
                var s, e := old(formData).startTime.value, old(formData).endTime.value;
                && formData == old(formData).(startTime := formData.startTime, endTime := formData.endTime)
                && formData.startTime.Some? && formData.endTime.Some?
                && DayOf(formData.startTime.value) == day
                && MinuteOfDay(formData.startTime.value) == MinuteOfDay(s)
                && formData.endTime.value - formData.startTime.value == e - s
                && !showStartDatePicker && !showEndDatePicker
    {
      if formData.startTime.None? || formData.endTime.None? {
        return true;
      }
      var currentStart := formData.startTime.value;
      var currentEnd := formData.endTime.value;
      var newStart := SetHours(StartOfDay(day), Hours(currentStart), Minutes(currentStart));
      var duration := currentEnd - currentStart;
      var newEnd := newStart + duration;
      InstantParts(currentStart);
      InstantParts(newStart);
      formData := formData.(startTime := Some(newStart), endTime := Some(newEnd));
      showStartDatePicker := false;
      showEndDatePicker := false;
      threw := false;
    }

    /** `handleTimeSelect(option, isEnd)`: only the chosen endpoint's hour and
        minute change (the end falls back to the start's day when it is
        empty, the start to the current instant `now`); the other endpoint
        is kept and that time picker closes. With no readable time to start
        from the formatting throws and nothing changes. */
    method HandleTimeSelect(option: TimeOption, isEnd: bool, now: int) returns (threw: bool)
      requires 0 <= option.hour < 24 && 0 <= option.minute < 60
      modifies this`formData, this`showStartTimePicker, this`showEndTimePicker
      ensures threw <==> isEnd && old(formData).endTime.None? && old(formData).startTime.None?
      ensures threw ==> formData == old(formData) && showEndTimePicker == old(showEndTimePicker)
      ensures !threw && isEnd ==>
                var base := if old(formData).endTime.Some? then old(formData).endTime.value else old(formData).startTime.value;
                && formData == old(formData).(endTime := Some(SetHours(base, option.hour, option.minute)))
                && !showEndTimePicker && showStartTimePicker == old(showStartTimePicker)
      ensures !isEnd ==>
                var base := if old(formData).startTime.Some? then old(formData).startTime.value else now;
                && formData == old(formData).(startTime := Some(SetHours(base, option.hour, option.minute)))
                && !showStartTimePicker && showEndTimePicker == old(showEndTimePicker)
    {
      threw := false;
      if isEnd {
        var currentEnd := if formData.endTime.Some? then formData.endTime else formData.startTime;
        if currentEnd.None? {
          return true;
        }
        formData := formData.(endTime := Some(SetHours(currentEnd.value, option.hour, option.minute)));
        showEndTimePicker := false;
      } else {
        var currentStart := if formData.startTime.Some? then formData.startTime.value else now;
        formData := formData.(startTime := Some(SetHours(currentStart, option.hour, option.minute)));
        showStartTimePicker := false;
      }
    }
  }
}
