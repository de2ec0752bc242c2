/** The `useEvents` hook: the event list loaded from the `events` table joined with the
    case's code and the client's name, and the add, update and delete operations. Add and
    update reload the list; delete filters it locally. */
module UseEvents {
  import opened Wrappers
  import opened Seqs
  import opened Records

  /** A selected row: the event's own columns and the joined `cases (code)` and
      `clients (name)` objects, each absent when the event has no such relation. */
  datatype EventRow = EventRow(record: CalendarEvent, cases: Option<CodeJoin>, clients: Option<NameJoin>)

  /** The mapping of one row: `case_code` and `client_name` become the joined values,
      absent when the join or its column is; every other column is kept. */
  function MapEventRow(row: EventRow): (e: CalendarEvent)
    ensures e.caseCode == (if row.cases.Some? then row.cases.value.code else None)
    ensures e.clientName == (if row.clients.Some? then row.clients.value.name else None)
    ensures e.(caseCode := row.record.caseCode, clientName := row.record.clientName) == row.record
  {
    row.record.(
      caseCode := if row.cases.Some? then row.cases.value.code else None,
      clientName := if row.clients.Some? then row.clients.value.name else None)
  }

  /** `mappedEvents || []`: the mapped rows in the order the select returned them (by
      start time), or the empty list for a null result. */
  function MapEvents(data: Option<seq<EventRow>>): (r: seq<CalendarEvent>)
    ensures data.None? ==> r == []
    ensures data.Some? ==>
      (|r| == |data.value| && forall i :: 0 <= i < |r| ==> r[i] == MapEventRow(data.value[i]))
  {
    if data.Some? then Map(data.value, MapEventRow) else []
  }

  /** The nine columns `updateEvent` writes. */
  datatype EventUpdate = EventUpdate(
    title: string,
    description: Option<string>,
    startTime: string,
    endTime: Option<string>,
    eventType: string,
    status: string,
    caseId: Option<string>,
    clientId: Option<string>,
    location: Option<string>)

  /** The update payload: an absent or empty case or client id is written as null. */
  function UpdatePayload(e: CalendarEvent): (p: EventUpdate)
    ensures p.caseId == OrNull(e.caseId) && p.clientId == OrNull(e.clientId)
    ensures p.title == e.title && p.description == e.description && p.location == e.location
    ensures p.startTime == e.startTime && p.endTime == e.endTime
    ensures p.eventType == e.eventType && p.status == e.status
  {
    EventUpdate(e.title, e.description, e.startTime, e.endTime, e.eventType, e.status,
      OrNull(e.caseId), OrNull(e.clientId), e.location)
  }

  /** An update never writes an empty relation id: the column holds a real id or null. */
  lemma PayloadRelationsNeverEmpty(e: CalendarEvent)
    ensures UpdatePayload(e).caseId != Some("") && UpdatePayload(e).clientId != Some("")
    ensures UpdatePayload(e).caseId == None <==> !Truthy(e.caseId)
  {
  }

  /** The local list after a successful delete: the events with another id, in order. */
  function WithoutEvent(events: seq<CalendarEvent>, id: string): (r: seq<CalendarEvent>)
    ensures IsSubsequence(r, events)
    ensures forall e :: e in r <==> e in events && e.id != Some(id)
    ensures forall e :: Count(r, e) == if e.id != Some(id) then Count(events, e) else 0
  {
    Filter(events, (e: CalendarEvent) => e.id != Some(id))
  }

  /** The hook's state: the list, the loading flag and the last fetch error (None for null). */
  class EventsHook {
    var events: seq<CalendarEvent>
    var loading: bool
    var error: Option<string>

    /** The first render: an empty list, loading, no error. */
    constructor()
      ensures events == [] && loading && error == None
    {
      events := [];
      loading := true;
      error := None;
    }

    /** `fetchEvents`: a successful select replaces the list with the mapped rows and
        keeps the error; a failed one keeps the list and records its message. Either way
        loading ends false. */
    method FetchEvents(selected: Response<Option<seq<EventRow>>>)
      modifies this
      ensures !loading
      ensures selected.Ok? ==> (events == MapEvents(selected.data) && error == old(error))
      ensures selected.Err? ==> (events == old(events) && error == Some(selected.message))
    {
      loading := true;
      if selected.Err? {
        error := Some(selected.message);
      } else {
        events := MapEvents(selected.data);
      }
      loading := false;
    }

    /** `addEvent`: after a successful insert the list is fetched again; a failed insert
        changes nothing and its error is passed on. */
    method AddEvent(inserted: Outcome, reloaded: Response<Option<seq<EventRow>>>) returns (r: Outcome)
      modifies this
      ensures r == inserted
      ensures inserted.Fail? ==> events == old(events) && loading == old(loading) && error == old(error)
      ensures inserted.Pass? && reloaded.Ok? ==> (events == MapEvents(reloaded.data) && error == old(error) && !loading)
      ensures inserted.Pass? && reloaded.Err? ==> (events == old(events) && error == Some(reloaded.message) && !loading)
    {
      r := inserted;
      if inserted.Pass? {
        FetchEvents(reloaded);
      }
    }

    /** `updateEvent`: sends the payload of the edited event; after a successful update
        the list is fetched again; a failed update changes nothing and its error is
        passed on. */
    method UpdateEvent(updated: CalendarEvent, written: Outcome, reloaded: Response<Option<seq<EventRow>>>)
      returns (r: Outcome, sent: EventUpdate)
      modifies this
      ensures sent == UpdatePayload(updated)
      ensures r == written
      ensures written.Fail? ==> events == old(events) && loading == old(loading) && error == old(error)
      ensures written.Pass? && reloaded.Ok? ==> (events == MapEvents(reloaded.data) && error == old(error) && !loading)
      ensures written.Pass? && reloaded.Err? ==> (events == old(events) && error == Some(reloaded.message) && !loading)
    {
      sent := UpdatePayload(updated);
      r := written;
      if written.Pass? {
        FetchEvents(reloaded);
      }
    }

    /** `deleteEvent`: after the table deletes the row the event leaves the list; a failed
        delete changes nothing and its error is passed on. */
    method DeleteEvent(id: string, deleted: Outcome) returns (r: Outcome)
      modifies this
      ensures r == deleted
      ensures events == (if deleted.Pass? then WithoutEvent(old(events), id) else old(events))
      ensures loading == old(loading) && error == old(error)
    {
      r := deleted;
      if deleted.Pass? {
        events := WithoutEvent(events, id);
      }
    }
  }
}
