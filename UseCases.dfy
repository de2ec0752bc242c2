/** The `useCases` hook: the case list loaded from the `cases` table joined with the
    client's name, and the add, update and delete operations. Add and update reload the
    list from the table; delete filters it locally. */
module UseCases {
  import opened Wrappers
  import opened Seqs
  import opened Records

  /** The name shown for a case whose joined client has no name. */
  const UnknownClient := "Cliente Desconocido"

  /** A selected row: the case's own columns and the joined `clients (name)` object,
      absent when the case has no client row. */
  datatype CaseRow = CaseRow(record: Case, clients: Option<NameJoin>)

  /** The name the joined client provides, `item.clients?.name`. */
  function JoinedName(row: CaseRow): Option<string>
  {
    if row.clients.Some? then row.clients.value.name else None
  }

  /** The mapping of one row: `client_name` becomes the joined name, or the fallback when
      that is missing or empty; every other column is kept. */
  function MapCaseRow(row: CaseRow): (c: Case)
    ensures c.clientName.Some? && c.clientName.value != ""
    ensures Truthy(JoinedName(row)) ==> c.clientName == JoinedName(row)
    ensures !Truthy(JoinedName(row)) ==> c.clientName == Some(UnknownClient)
    ensures c.(clientName := row.record.clientName) == row.record
  {
    row.record.(clientName := Some(OrDefault(JoinedName(row), UnknownClient)))
  }

  /** `mappedCases || []`: the mapped rows in the order the select returned them, or the
      empty list for a null result. */
  function MapCases(data: Option<seq<CaseRow>>): (r: seq<Case>)
    ensures data.None? ==> r == []
    ensures data.Some? ==>
      (|r| == |data.value| && forall i :: 0 <= i < |r| ==> r[i] == MapCaseRow(data.value[i]))
  {
    if data.Some? then Map(data.value, MapCaseRow) else []
  }

  /** Every case the hook lists names its client. */
  lemma EveryCaseNamed(data: Option<seq<CaseRow>>)
    ensures forall c :: c in MapCases(data) ==> c.clientName.Some? && c.clientName.value != ""
  {
  }

  /** The local list after a successful delete: the cases with another id, in order. */
  function WithoutCase(cases: seq<Case>, id: string): (r: seq<Case>)
    ensures IsSubsequence(r, cases)
    ensures forall c :: c in r <==> c in cases && c.id != Some(id)
    ensures forall c :: Count(r, c) == if c.id != Some(id) then Count(cases, c) else 0
  {
    Filter(cases, (c: Case) => c.id != Some(id))
  }

  /** Deleting twice by the same id is deleting once. */
  lemma {:induction false} DeleteIdempotent(cases: seq<Case>, id: string)
    ensures WithoutCase(WithoutCase(cases, id), id) == WithoutCase(cases, id)
  {
    var once := WithoutCase(cases, id);
    FilterAll(once, (c: Case) => c.id != Some(id));
  }

  /** The hook's state: the list, the loading flag and the last fetch error (None for null). */
  class CasesHook {
    var cases: seq<Case>
    var loading: bool
    var error: Option<string>

    /** The first render: an empty list, loading, no error. */
    constructor()
      ensures cases == [] && loading && error == None
    {
      cases := [];
      loading := true;
      error := None;
    }

    /** `fetchCases`: a successful select replaces the list with the mapped rows and keeps
        the error; a failed one keeps the list and records its message. Either way
        loading ends false. */
    method FetchCases(selected: Response<Option<seq<CaseRow>>>)
      modifies this
      ensures !loading
      ensures selected.Ok? ==> (cases == MapCases(selected.data) && error == old(error))
      ensures selected.Err? ==> (cases == old(cases) && error == Some(selected.message))
    {
      loading := true;
      if selected.Err? {
        error := Some(selected.message);
      } else {
        cases := MapCases(selected.data);
      }
      loading := false;
    }

    /** `addCase`: after a successful insert the list is fetched again; a failed insert
        changes nothing and its error is passed on. A failed reload does not fail the add:
        it is recorded in `error`. */
    method AddCase(inserted: Outcome, reloaded: Response<Option<seq<CaseRow>>>) returns (r: Outcome)
      modifies this
      ensures r == inserted
      ensures inserted.Fail? ==> cases == old(cases) && loading == old(loading) && error == old(error)
      ensures inserted.Pass? && reloaded.Ok? ==> (cases == MapCases(reloaded.data) && error == old(error) && !loading)
      ensures inserted.Pass? && reloaded.Err? ==> (cases == old(cases) && error == Some(reloaded.message) && !loading)
    {
      r := inserted;
      if inserted.Pass? {
        FetchCases(reloaded);
      }
    }

    /** `updateCase`: after a successful update the list is fetched again; a failed update
        changes nothing and its error is passed on. */
    method UpdateCase(updated: Case, written: Outcome, reloaded: Response<Option<seq<CaseRow>>>) returns (r: Outcome)
      modifies this
      ensures r == written
      ensures written.Fail? ==> cases == old(cases) && loading == old(loading) && error == old(error)
      ensures written.Pass? && reloaded.Ok? ==> (cases == MapCases(reloaded.data) && error == old(error) && !loading)
      ensures written.Pass? && reloaded.Err? ==> (cases == old(cases) && error == Some(reloaded.message) && !loading)
    {
      r := written;
      if written.Pass? {
        FetchCases(reloaded);
      }
    }

    /** `deleteCase`: after the table deletes the row the case leaves the list; a failed
        delete changes nothing and its error is passed on. */
    method DeleteCase(id: string, deleted: Outcome) returns (r: Outcome)
      modifies this
      ensures r == deleted
      ensures cases == (if deleted.Pass? then WithoutCase(old(cases), id) else old(cases))
      ensures loading == old(loading) && error == old(error)
    {
      r := deleted;
      if deleted.Pass? {
        cases := WithoutCase(cases, id);
      }
    }
  }
}
