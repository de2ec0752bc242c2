/** The client list page: the search filter and the choice between adding and updating
    on save. */
module ClientsPage {
  import opened Wrappers
  import opened Seqs
  import opened Strings
  import opened Records

  /** The search predicate: the name contains the term ignoring case, or the
      identification contains it exactly. */
  predicate ClientMatches(c: Client, term: string)
    ensures term == "" ==> ClientMatches(c, term)
    ensures term == c.identification ==> ClientMatches(c, term)
    ensures ToLower(term) == ToLower(c.name) ==> ClientMatches(c, term)
  {
    IncludesEmpty(c.identification);
    PrefixOccurs(c.identification, c.identification);
    PrefixOccurs(ToLower(c.name), ToLower(c.name));
    Includes(ToLower(c.name), ToLower(term)) || Includes(c.identification, term)
  }

  /** `filteredClients`: the matching clients, in their original order. */
  function FilteredClients(clients: seq<Client>, term: string): (r: seq<Client>)
    ensures IsSubsequence(r, clients)
    ensures forall c :: c in r <==> c in clients && ClientMatches(c, term)
    ensures forall c :: Count(r, c) == if ClientMatches(c, term) then Count(clients, c) else 0
  {
    Filter(clients, (c: Client) => ClientMatches(c, term))
  }

  /** The empty term lists every client. */
  lemma EmptyTermKeepsAll(clients: seq<Client>)
    ensures FilteredClients(clients, "") == clients
  {
    forall c | c in clients ensures ClientMatches(c, "") {
      IncludesEmpty(c.identification);
    }
    FilterAll(clients, (c: Client) => ClientMatches(c, ""));
  }

  /** The list handed to ClientList, `filteredClients.length > 0 ? filteredClients : []`:
      both branches pass the filtered list itself. */
  function ShownClients(filtered: seq<Client>): (shown: seq<Client>)
    ensures shown == filtered
  {
    if |filtered| > 0 then filtered else []
  }

  /** `handleSave`: data with an `id` key goes to `updateClient`, other data to `addClient`. */
  function HandleSave(data: Client): (call: SaveCall<Client>)
    ensures call.record == data
    ensures call.UpdateCall? <==> data.id.Some?
  {
    if data.id.Some? then UpdateCall(data) else AddCall(data)
  }
}
