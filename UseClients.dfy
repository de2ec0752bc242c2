/** The `useClients` hook: the client list loaded from the `clients` table and the
    add, update and delete operations that keep it in step with the table. Each backend
    call is a parameter: the answer the table gives. */
module UseClients {
  import opened Wrappers
  import opened Seqs
  import opened Records

  /** The seven columns `updateClient` writes. The id selects the row and is not written. */
  datatype ClientUpdate = ClientUpdate(
    name: string,
    clientType: string,
    identification: string,
    email: string,
    phone: Option<string>,
    address: Option<string>,
    status: string)

  /** The update payload built from the edited client. */
  function UpdatePayload(c: Client): ClientUpdate
  {
    ClientUpdate(c.name, c.clientType, c.identification, c.email, c.phone, c.address, c.status)
  }

  /** The payload is the edited client without its id: clients that differ only in the
      id send the same update. */
  lemma PayloadIgnoresId(c: Client, id: Option<string>)
    ensures UpdatePayload(c.(id := id)) == UpdatePayload(c)
  {
  }

  /** Every column of the payload is a column of the client: writing a client's own
      payload over it changes nothing. */
  lemma OwnPayloadKeepsRow(c: Client)
    ensures ApplyUpdate(c, UpdatePayload(c)) == c
  {
  }

  /** A stored row with an update payload written over it: the id is kept. */
  function ApplyUpdate(row: Client, p: ClientUpdate): (r: Client)
    ensures r.id == row.id
    ensures UpdatePayload(r) == p
  {
    row.(name := p.name, clientType := p.clientType, identification := p.identification,
         email := p.email, phone := p.phone, address := p.address, status := p.status)
  }

  /** The table after `update(p).eq('id', id)`: every row with that id takes the payload. */
  function TableAfterUpdate(rows: seq<Client>, id: string, p: ClientUpdate): (r: seq<Client>)
    ensures |r| == |rows|
    ensures forall i :: 0 <= i < |r| ==> r[i].id == rows[i].id
  {
    Map(rows, (row: Client) => if row.id == Some(id) then ApplyUpdate(row, p) else row)
  }

  /** The local list after a successful update: the entry with the edited client's id is
      replaced by it, every other entry and the order are kept. */
  function ReplaceById(clients: seq<Client>, updated: Client): (r: seq<Client>)
    ensures |r| == |clients|
    ensures forall i :: 0 <= i < |r| ==> r[i].id == clients[i].id
    ensures forall i :: 0 <= i < |r| && clients[i].id == updated.id ==> r[i] == updated
    ensures forall i :: 0 <= i < |r| && clients[i].id != updated.id ==> r[i] == clients[i]
  {
    Map(clients, (c: Client) => if c.id == updated.id then updated else c)
  }

  /** The local list after a successful delete: the clients with another id, in order. */
  function WithoutClient(clients: seq<Client>, id: string): (r: seq<Client>)
    ensures IsSubsequence(r, clients)
    ensures forall c :: c in r <==> c in clients && c.id != Some(id)
    ensures forall c :: Count(r, c) == if c.id != Some(id) then Count(clients, c) else 0
  {
    Filter(clients, (c: Client) => c.id != Some(id))
  }

  /** Replacing twice with the same client is replacing once. */
  lemma ReplaceIdempotent(clients: seq<Client>, updated: Client)
    ensures ReplaceById(ReplaceById(clients, updated), updated) == ReplaceById(clients, updated)
  {
  }

  /** The local replacement agrees with the table: when the list mirrors the table, the
      list after `updateClient` mirrors the table after the update it sent. */
  lemma LocalUpdateMatchesTable(rows: seq<Client>, updated: Client)
    requires updated.id.Some?
    ensures TableAfterUpdate(rows, updated.id.value, UpdatePayload(updated)) == ReplaceById(rows, updated)
  {
  }

  /** Deleting a client just added leaves the list the add started from, less that id. */
  lemma AddThenDelete(clients: seq<Client>, row: Client)
    requires row.id.Some?
    ensures WithoutClient([row] + clients, row.id.value) == WithoutClient(clients, row.id.value)
  {
    assert ([row] + clients)[1..] == clients;
  }

  /** The hook's state: the list, the loading flag and the last fetch error (None for null). */
  class ClientsHook {
    var clients: seq<Client>
    var loading: bool
    var error: Option<string>

    /** The first render: an empty list, loading, no error. */
    constructor()
      ensures clients == [] && loading && error == None
    {
      clients := [];
      loading := true;
      error := None;
    }

    /** `fetchClients`: a successful select replaces the list (a null result gives the
        empty list) and keeps the error; a failed one keeps the list and records its
        message. Either way loading ends false. */
    method FetchClients(selected: Response<Option<seq<Client>>>)
      modifies this
      ensures !loading
      ensures selected.Ok? ==>
        (clients == (if selected.data.Some? then selected.data.value else []) && error == old(error))
      ensures selected.Err? ==> clients == old(clients) && error == Some(selected.message)
    {
      loading := true;
      if selected.Err? {
        error := Some(selected.message);
      } else {
        clients := if selected.data.Some? then selected.data.value else [];
      }
      loading := false;
    }

    /** `addClient`: the row the insert returns goes to the front of the list; a failed
        insert changes nothing and its error is passed on. */
    method AddClient(inserted: Response<Client>) returns (r: Outcome)
      modifies this
      ensures r.Pass? <==> inserted.Ok?
      ensures inserted.Err? ==> r == Fail(inserted.message)
      ensures clients == (if inserted.Ok? then [inserted.data] + old(clients) else old(clients))
      ensures loading == old(loading) && error == old(error)
    {
      if inserted.Err? {
        return Fail(inserted.message);
      }
      clients := [inserted.data] + clients;
      r := Pass;
    }

    /** `updateClient`: after the table accepts the update the local entry is replaced;
        a failed update changes nothing and its error is passed on. */
    method UpdateClient(updated: Client, written: Outcome) returns (r: Outcome)
      modifies this
      ensures r == written
      ensures clients == (if written.Pass? then ReplaceById(old(clients), updated) else old(clients))
      ensures loading == old(loading) && error == old(error)
    {
      r := written;
      if written.Pass? {
        clients := ReplaceById(clients, updated);
      }
    }

    /** `deleteClient`: after the table deletes the row the entry leaves the list; a failed
        delete changes nothing and its error is passed on. */
    method DeleteClient(id: string, deleted: Outcome) returns (r: Outcome)
      modifies this
      ensures r == deleted
      ensures clients == (if deleted.Pass? then WithoutClient(old(clients), id) else old(clients))
      ensures loading == old(loading) && error == old(error)
    {
      r := deleted;
      if deleted.Pass? {
        clients := WithoutClient(clients, id);
      }
    }
  }
}
