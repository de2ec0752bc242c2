/** The event form: its opening state (the event being edited, or a blank event whose
    start and end default from the selected day), the link selectors, and the two-phase
    submit: validation and the pending save, then the save's settlement. */
module EventForm {
  import opened Wrappers
  import opened CivilCalendar
  import opened LocalTime
  import opened Records

  const TitleRequired := "El título es requerido"
  const StartRequired := "La fecha de inicio es requerida"
  const SaveFailed := "Error al guardar"

  /** The blank event with the given start and end texts: type "audiencia", status
      "pendiente", every text field and both links empty. */
  function BlankEvent(startText: string, endText: string): (e: CalendarEvent)
    ensures e.id == None && e.startTime == startText && e.endTime == Some(endText)
    ensures e.eventType == "audiencia" && e.status == "pendiente"
    ensures ShownLink(e.clientId) == "" && ShownLink(e.caseId) == ""
    ensures Validate(e) == Some(TitleRequired)
  {
    CalendarEvent(None, "", Some(""), startText, Some(endText), "audiencia", "pendiente",
      Some(""), None, Some(""), None, Some(""))
  }

  /** The start a new event defaults to: the selected day's date-time, or now, on the hour. */
  function DefaultStart(selectedDate: Option<DateTime>, now: DateTime): (start: DateTime)
    requires IsValidTime(now) && (selectedDate.Some? ==> IsValidTime(selectedDate.value))
    ensures IsValidTime(start)
    ensures var base := if selectedDate.Some? then selectedDate.value else now;
      start.date == base.date && start.hour == base.hour
    ensures start.minute == 0 && start.second == 0 && start.ms == 0
  {
    TruncateToHour(if selectedDate.Some? then selectedDate.value else now)
  }

  /** The end a new event defaults to: one hour after its start, on the next day after 23:00. */
  function DefaultEnd(start: DateTime): (end: DateTime)
    requires IsValidTime(start)
    ensures IsValidTime(end)
    ensures Minutes(end) == Minutes(start) + 60
    ensures start.hour < 23 ==> end.date == start.date && end.hour == start.hour + 1 && end.minute == start.minute
    ensures start.hour == 23 ==> DayNumber(end.date) == DayNumber(start.date) + 1 && end.hour == 0 && end.minute == start.minute
  {
    HourLater(start);
    ShiftMinutes(start, 60)
  }

  /** Sixty minutes on: the next hour of the same day, or midnight of the next day. */
  lemma HourLater(start: DateTime)
    requires IsValidTime(start)
    ensures var end := ShiftMinutes(start, 60);
      (start.hour < 23 ==> end.date == start.date && end.hour == start.hour + 1 && end.minute == start.minute) &&
      (start.hour == 23 ==> DayNumber(end.date) == DayNumber(start.date) + 1 && end.hour == 0 && end.minute == start.minute)
  {
    var end := ShiftMinutes(start, 60);
    if start.hour < 23 {
      MinutesInjective(end, start.(hour := start.hour + 1));
    } else {
      SplitUnique(DayNumber(end.date), end.hour * 60 + end.minute, DayNumber(start.date) + 1, start.minute, 1440);
      SplitUnique(end.hour, end.minute, 0, start.minute, 60);
    }
  }

  /** As written: `toISOString().slice(0, 16)` formats the UTC clock, which runs
      `utcOffset` minutes behind the local one. */
  function UtcInputText(t: DateTime, utcOffset: int): (s: string)
    requires IsValidTime(t)
    ensures |s| == 16
  {
    Slice16(IsoString(ShiftMinutes(t, -utcOffset)))
  }

  /** Corrected: the `YYYY-MM-DDTHH:mm` of the local clock, the form a datetime-local input
      reads. */
  function LocalInputText(t: DateTime): (s: string)
    requires IsValidTime(t)
    ensures |s| == 16
  {
    Slice16(IsoString(t))
  }

  /** The corrected text reads back, as local time, as the date-time it was made from. */
  lemma LocalInputTextReadsBack(t: DateTime)
    requires IsValidTime(t) && 0 <= t.date.year <= 9999
    ensures |LocalInputText(t)| == 16
    ensures ParseMinuteText(LocalInputText(t)) == t.(second := 0, ms := 0)
  {
    IsoSliceIsMinuteText(t);
    ParseMinuteTextRoundTrip(t);
  }

  /** The text as written reads back, as local time, `utcOffset` minutes off the date-time
      it was made from: it agrees only where the offset is zero. */
  lemma UtcInputTextShifted(t: DateTime, utcOffset: int)
    requires IsValidTime(t) && 0 <= ShiftMinutes(t, -utcOffset).date.year <= 9999
    ensures |UtcInputText(t, utcOffset)| == 16
    ensures var p := ParseMinuteText(UtcInputText(t, utcOffset));
      IsValidTime(p) && Minutes(p) == Minutes(t) - utcOffset
  {
    var u := ShiftMinutes(t, -utcOffset);
    IsoSliceIsMinuteText(u);
    ParseMinuteTextRoundTrip(u);
  }

  /** Ahead of UTC, a day picked on the calendar opens the form on the day before: the
      midnight of the picked day is the previous evening on the UTC clock. */
  lemma UtcMidnightShowsPreviousDay(t: DateTime, utcOffset: int)
    requires IsValidTime(t) && t.hour == 0 && t.minute == 0 && 0 < utcOffset <= 1440
    requires 0 <= ShiftMinutes(t, -utcOffset).date.year <= 9999
    ensures |UtcInputText(t, utcOffset)| == 16
    ensures var p := ParseMinuteText(UtcInputText(t, utcOffset));
      IsValidTime(p) && DayNumber(p.date) == DayNumber(t.date) - 1
  {
    UtcInputTextShifted(t, utcOffset);
    var p := ParseMinuteText(UtcInputText(t, utcOffset));
    var day := DayNumber(t.date);
    assert IsValidTime(p) && Minutes(p) == day * 1440 - utcOffset;
    assert DayNumber(p.date) * 1440 + (p.hour * 60 + p.minute) == (day - 1) * 1440 + (1440 - utcOffset);
    SplitUnique(DayNumber(p.date), p.hour * 60 + p.minute, DayNumber(t.date) - 1, 1440 - utcOffset, 1440);
  }

  /** In a zone on UTC the text as written and the corrected text agree. */
  lemma UtcInputTextAtZeroOffset(t: DateTime)
    requires IsValidTime(t)
    ensures UtcInputText(t, 0) == LocalInputText(t)
  {
    ShiftZero(t);
  }

  /** The effect's date arithmetic on mutable dates: a copy of the base truncated to its hour,
      and a copy of that with its hour set one later. */
  method DefaultTimes(base: DateTime) returns (start: DateTime, end: DateTime)
    requires IsValidTime(base)
    ensures start == TruncateToHour(base)
    ensures end == DefaultEnd(start)
  {
    var startDate := new MutableDate(base);
    startDate.SetMinutes(0, 0, 0);
    start := startDate.value;
    var endDate := new MutableDate(start);
    var h := endDate.GetHours();
    assert (h + 1 - h) * 60 == 60;
    endDate.SetHours(h + 1);
    end := endDate.value;
  }

  /** The event the form holds after it opens: the event being edited, or the blank event
      whose start and end are the default date-times. */
  function OpeningData(initialData: Option<CalendarEvent>, selectedDate: Option<DateTime>, now: DateTime): (f: CalendarEvent)
    requires IsValidTime(now) && (selectedDate.Some? ==> IsValidTime(selectedDate.value))
    ensures initialData.Some? ==> f == initialData.value
    ensures initialData.None? ==> f.id == None && Validate(f) == Some(TitleRequired)
    ensures initialData.None? ==> f.endTime.Some? && |f.startTime| == 16 && |f.endTime.value| == 16
  {
    if initialData.Some? then initialData.value
    else
      var start := DefaultStart(selectedDate, now);
      BlankEvent(LocalInputText(start), LocalInputText(DefaultEnd(start)))
  }

  /** A new event's start and end texts read back as the chosen hour and one hour later. */
  lemma DefaultTextsOneHourApart(selectedDate: Option<DateTime>, now: DateTime)
    requires IsValidTime(now) && (selectedDate.Some? ==> IsValidTime(selectedDate.value))
    requires var start := DefaultStart(selectedDate, now);
      0 <= start.date.year <= 9999 && 0 <= DefaultEnd(start).date.year <= 9999
    ensures var f := OpeningData(None, selectedDate, now);
      f.endTime.Some? && |f.startTime| == 16 && |f.endTime.value| == 16 &&
      var start, end := ParseMinuteText(f.startTime), ParseMinuteText(f.endTime.value);
      start == DefaultStart(selectedDate, now) && IsValidTime(end) && Minutes(end) == Minutes(start) + 60
  {
    var start := DefaultStart(selectedDate, now);
    LocalInputTextReadsBack(start);
    LocalInputTextReadsBack(DefaultEnd(start));
  }

  /** The first failed check of `handleSubmit`, in order: the title, then the start. */
  function Validate(f: CalendarEvent): (failure: Option<string>)
    ensures failure.None? <==> f.title != "" && f.startTime != ""
    ensures f.title == "" ==> failure == Some(TitleRequired)
    ensures f.title != "" && f.startTime == "" ==> failure == Some(StartRequired)
  {
    if f.title == "" then Some(TitleRequired)
    else if f.startTime == "" then Some(StartRequired)
    else None
  }

  /** A link selector's new value: the "(Ninguno)" option's empty value clears the link. */
  function LinkValue(chosen: string): (link: Option<string>)
    ensures link == None <==> chosen == ""
  {
    if chosen == "" then None else Some(chosen)
  }

  /** The value a link selector shows, `id || ''`. */
  function ShownLink(link: Option<string>): (shown: string)
    ensures Truthy(link) ==> Some(shown) == link
    ensures !Truthy(link) ==> shown == ""
  {
    OrDefault(link, "")
  }

  /** Choosing an option shows that option, and re-choosing the shown option keeps a real
      link and clears an empty one. */
  lemma LinkRoundTrip(chosen: string, link: Option<string>)
    ensures ShownLink(LinkValue(chosen)) == chosen
    ensures LinkValue(ShownLink(link)) == OrNull(link)
  {
  }

  /** The form's state: the event being edited, the saving flag and the error shown. */
  class Form {
    var formData: CalendarEvent
    var loading: bool
    var error: string

    /** The first render: the blank event with empty times, not saving, no error. */
    constructor()
      ensures formData == BlankEvent("", "") && !loading && error == ""
    {
      formData := BlankEvent("", "");
      loading := false;
      error := "";
    }

    /** The opening effect: copy the edited event, or build the default times on a copy of
        the selected date (or now) and write them as input texts. */
    method Open(initialData: Option<CalendarEvent>, selectedDate: Option<DateTime>, now: DateTime)
      requires IsValidTime(now) && (selectedDate.Some? ==> IsValidTime(selectedDate.value))
      modifies this`formData
      ensures formData == OpeningData(initialData, selectedDate, now)
    {
      if initialData.Some? {
        formData := initialData.value;
      } else {
        var start, end := DefaultTimes(if selectedDate.Some? then selectedDate.value else now);
        var startText := LocalInputText(start);
        var endText := LocalInputText(end);
        formData := BlankEvent(startText, endText);
      }
    }

    /** The client selector: the chosen client, or no client. */
    method ChooseClient(chosen: string)
      modifies this
      ensures formData == old(formData).(clientId := LinkValue(chosen))
      ensures loading == old(loading) && error == old(error)
    {
      formData := formData.(clientId := LinkValue(chosen));
    }

    /** The case selector: the chosen case, or no case. */
    method ChooseCase(chosen: string)
      modifies this
      ensures formData == old(formData).(caseId := LinkValue(chosen))
      ensures loading == old(loading) && error == old(error)
    {
      formData := formData.(caseId := LinkValue(chosen));
    }

    /** `handleSubmit` up to the save: the error is cleared and loading set; a failed check
        records its message and ends loading without calling `onSave`; otherwise the form
        data goes to `onSave` and the save is pending. */
    method Submit() returns (saved: Option<CalendarEvent>)
      modifies this
      ensures formData == old(formData)
      ensures Validate(formData).Some? ==> saved == None && error == Validate(formData).value && !loading
      ensures Validate(formData).None? ==> saved == Some(formData) && error == "" && loading
    {
      loading := true;
      error := "";
      var failure := Validate(formData);
      if failure.Some? {
        error := failure.value;
        loading := false;
        return None;
      }
      saved := Some(formData);
    }

    /** `handleSubmit` after the save settles: a resolved save closes the form, a rejected
        one shows its message or the fallback; loading ends false either way. */
    method SaveSettled(settled: Outcome) returns (closed: bool)
      modifies this
      ensures formData == old(formData) && !loading
      ensures closed <==> settled.Pass?
      ensures settled.Pass? ==> error == old(error)
      ensures settled.Fail? ==> error == OrDefault(Some(settled.message), SaveFailed)
    {
      closed := settled.Pass?;
      if settled.Fail? {
        error := OrDefault(Some(settled.message), SaveFailed);
      }
      loading := false;
    }
  }
}
