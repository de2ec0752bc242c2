/** The record shapes of the client, case, event and document tables. A field that the
    TypeScript types mark optional, or that a row may leave null, is an Option. The `id`
    of a client, case or event is an Option too: one record type serves both the stored
    row (which has an id) and the form data of a new record (which has no `id` key). */
module Records {
  import opened Wrappers

  datatype Client = Client(
    id: Option<string>,
    clientType: string,
    identification: string,
    name: string,
    email: string,
    phone: Option<string>,
    address: Option<string>,
    status: string)

  datatype Case = Case(
    id: Option<string>,
    code: Option<string>,
    judicialNumber: Option<string>,
    caseType: string,
    status: string,
    clientId: string,
    clientName: Option<string>,
    judicialUnit: Option<string>,
    city: Option<string>,
    province: Option<string>,
    opposingParty: Option<string>,
    description: Option<string>)

  datatype CalendarEvent = CalendarEvent(
    id: Option<string>,
    title: string,
    description: Option<string>,
    startTime: string,
    endTime: Option<string>,
    eventType: string,
    status: string,
    caseId: Option<string>,
    caseCode: Option<string>,
    clientId: Option<string>,
    clientName: Option<string>,
    location: Option<string>)

  datatype Document = Document(
    id: string,
    name: string,
    filePath: string,
    fileType: Option<string>,
    version: int,
    caseId: Option<string>,
    caseCode: Option<string>,
    clientId: Option<string>,
    clientName: Option<string>,
    createdAt: string)

  /** A joined `clients (name)` object of a select; its `name` may be null. */
  datatype NameJoin = NameJoin(name: Option<string>)

  /** A joined `cases (code)` object of a select; its `code` may be null. */
  datatype CodeJoin = CodeJoin(code: Option<string>)

  /** JavaScript truthiness of an optional string: defined and not empty. */
  predicate Truthy(s: Option<string>)
  {
    s.Some? && s.value != ""
  }

  /** `s || null`: an absent or empty string becomes null. */
  function OrNull(s: Option<string>): (r: Option<string>)
    ensures r == None <==> !Truthy(s)
    ensures r != None ==> r == s
  {
    if Truthy(s) then s else None
  }

  /** `s || fallback` for a string: the fallback replaces an absent or empty string. */
  function OrDefault(s: Option<string>, fallback: string): (r: string)
    ensures Truthy(s) ==> Some(r) == s
    ensures !Truthy(s) ==> r == fallback
  {
    if Truthy(s) then s.value else fallback
  }

  /** The `{ data, error }` answer of a backend query: the data, or the error's message. */
  datatype Response<T> = Ok(data: T) | Err(message: string)

  /** The hook operation a page's `handleSave` calls, with the data it passes. */
  datatype SaveCall<T> = AddCall(record: T) | UpdateCall(record: T)
}
