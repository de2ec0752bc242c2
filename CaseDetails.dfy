/** The case detail page: the case named by the route, the events and documents linked
    to it, the overview's upcoming list, and the handlers that save and delete its events. */
module CaseDetails {
  import opened Wrappers
  import opened Seqs
  import opened Records
  import opened CivilCalendar
  import opened CalendarView

  /** The index of the first case with the route's id, or the length when there is none. */
  function FirstMatch(cases: seq<Case>, id: string): (k: nat)
    ensures k <= |cases|
    ensures forall j :: 0 <= j < k ==> cases[j].id != Some(id)
    ensures k < |cases| ==> cases[k].id == Some(id)
  {
    if cases == [] then 0
    else if cases[0].id == Some(id) then 0
    else 1 + FirstMatch(cases[1..], id)
  }

  /** `currentCase`, `cases.find(c => c.id === id)`: the first case with the route's id. */
  function CurrentCase(cases: seq<Case>, id: string): (found: Option<Case>)
    ensures found.None? <==> forall c :: c in cases ==> c.id != Some(id)
    ensures found.Some? ==> exists i :: 0 <= i < |cases| && cases[i] == found.value && found.value.id == Some(id)
                                        && forall j :: 0 <= j < i ==> cases[j].id != Some(id)
  {
    var k := FirstMatch(cases, id);
    if k < |cases| then Some(cases[k]) else None
  }

  /** What the page renders: a spinner while the cases load, the not-found view when no
      case has the route's id, and otherwise that case's details. */
  datatype View = Spinner | NotFound | Detail(shown: Case)

  function PageView(casesLoading: bool, cases: seq<Case>, id: string): (v: View)
    ensures v.Spinner? <==> casesLoading
    ensures v.NotFound? <==> !casesLoading && forall c :: c in cases ==> c.id != Some(id)
    ensures v.Detail? ==> v.shown in cases && v.shown.id == Some(id)
  {
    if casesLoading then Spinner
    else
      var found := CurrentCase(cases, id);
      if found.None? then NotFound else Detail(found.value)
  }

  /** `caseEvents`: the events linked to the case, in the hook's order. */
  function CaseEvents(events: seq<CalendarEvent>, id: string): (r: seq<CalendarEvent>)
    ensures IsSubsequence(r, events)
    ensures forall e :: e in r <==> e in events && e.caseId == Some(id)
    ensures forall e :: Count(r, e) == if e.caseId == Some(id) then Count(events, e) else 0
  {
    Filter(events, (e: CalendarEvent) => e.caseId == Some(id))
  }

  /** `caseDocuments`: the documents linked to the case, in the hook's order. */
  function CaseDocuments(documents: seq<Document>, id: string): (r: seq<Document>)
    ensures IsSubsequence(r, documents)
    ensures forall d :: d in r <==> d in documents && d.caseId == Some(id)
    ensures forall d :: Count(r, d) == if d.caseId == Some(id) then Count(documents, d) else 0
  {
    Filter(documents, (d: Document) => d.caseId == Some(id))
  }

  /** The overview's description, or its placeholder. */
  function DescriptionText(c: Case): (text: string)
    ensures Truthy(c.description) ==> Some(text) == c.description
    ensures !Truthy(c.description) ==> text == "Sin descripción detallada."
  {
    OrDefault(c.description, "Sin descripción detallada.")
  }

  /** The overview's upcoming list: the first three of the case's events, or None for the
      empty-list message. */
  function Upcoming(caseEvents: seq<CalendarEvent>): (shown: Option<seq<CalendarEvent>>)
    ensures shown.None? <==> caseEvents == []
    ensures shown.Some? ==>
      (|shown.value| == (if |caseEvents| < 3 then |caseEvents| else 3) && shown.value <= caseEvents)
  {
    if |caseEvents| > 0 then Some(if |caseEvents| < 3 then caseEvents else caseEvents[..3]) else None
  }

  /** `handleEventSave`: the event is linked to this case, then data with an `id` key goes
      to `updateEvent` and other data to `addEvent`. Nothing else in the event changes. */
  function HandleEventSave(data: CalendarEvent, id: string): (call: SaveCall<CalendarEvent>)
    ensures call.record.caseId == Some(id)
    ensures call.record.(caseId := data.caseId) == data
    ensures call.UpdateCall? <==> data.id.Some?
  {
    var withCase := data.(caseId := Some(id));
    if withCase.id.Some? then UpdateCall(withCase) else AddCall(withCase)
  }

  /** A saved event is one of the case's events once it is in the event list. */
  lemma SavedEventListed(events: seq<CalendarEvent>, data: CalendarEvent, id: string)
    requires HandleEventSave(data, id).record in events
    ensures HandleEventSave(data, id).record in CaseEvents(events, id)
  {
  }

  /** `handleEventDelete`: the form closes once the delete resolves; a rejected delete
      leaves it as it was. */
  function FormOpenAfterDelete(formOpen: bool, deleted: Outcome): (open: bool)
    ensures open <==> formOpen && deleted.Fail?
  {
    if deleted.Pass? then false else formOpen
  }

  /** The case's calendar shows only the case's own events: every event in every cell of
      the grid built from `caseEvents` is linked to the case. */
  lemma CaseCalendarShowsOnlyCaseEvents(year: int, month: int, events: seq<CalendarEvent>, id: string,
                                        localDate: LocalDateOf, today: CivilDate)
    requires 0 <= month < 12
    ensures var g := Grid(year, month, CaseEvents(events, id), localDate, today);
      forall i, e :: 0 <= i < |g| && e in CellEvents(g[i]) ==> e in events && e.caseId == Some(id)
  {
    GridShape(year, month, CaseEvents(events, id), localDate, today);
  }

  /** The case's calendar has no date handler: a click on a day does nothing, and a click
      on an event opens an event of the case. */
  lemma CaseCalendarClicks(year: int, month: int, events: seq<CalendarEvent>, id: string,
                           localDate: LocalDateOf, today: CivilDate, i: int, target: ClickTarget)
    requires 0 <= month < 12
    requires 0 <= i < |Grid(year, month, CaseEvents(events, id), localDate, today)|
    ensures var cell := Grid(year, month, CaseEvents(events, id), localDate, today)[i];
      forall c :: c in Click(cell, year, month, target, false) ==> c.EventClicked? && c.event.caseId == Some(id)
  {
    CaseCalendarShowsOnlyCaseEvents(year, month, events, id, localDate, today);
  }
}
