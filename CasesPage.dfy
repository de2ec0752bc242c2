/** The case list page: the search filter over the loaded cases and the choice between
    adding and updating on save. */
module CasesPage {
  import opened Wrappers
  import opened Seqs
  import opened Strings
  import opened Records

  /** An optional field contains the term; a missing field never does. */
  predicate FieldIncludes(field: Option<string>, term: string, ignoreCase: bool)
  {
    field.Some? && (if ignoreCase then Includes(ToLower(field.value), ToLower(term)) else Includes(field.value, term))
  }

  /** The search predicate: the code contains the term ignoring case, or the judicial
      number contains it exactly, or the client name contains it ignoring case. */
  predicate CaseMatches(c: Case, term: string)
    ensures c.code == None && c.judicialNumber == None && c.clientName == None ==> !CaseMatches(c, term)
    ensures term == "" ==> (CaseMatches(c, term) <==> c.code.Some? || c.judicialNumber.Some? || c.clientName.Some?)
  {
    IncludesEmpty(ToLower(OrDefault(c.code, "")));
    IncludesEmpty(OrDefault(c.judicialNumber, ""));
    IncludesEmpty(ToLower(OrDefault(c.clientName, "")));
    FieldIncludes(c.code, term, true) || FieldIncludes(c.judicialNumber, term, false)
      || FieldIncludes(c.clientName, term, true)
  }

  /** `filteredCases`: the matching cases, in their original order. */
  function FilteredCases(cases: seq<Case>, term: string): (r: seq<Case>)
    ensures IsSubsequence(r, cases)
    ensures forall c :: c in r <==> c in cases && CaseMatches(c, term)
    ensures forall c :: Count(r, c) == if CaseMatches(c, term) then Count(cases, c) else 0
  {
    Filter(cases, (c: Case) => CaseMatches(c, term))
  }

  /** A case with none of the three fields defined is never listed, whatever the term. */
  lemma UndefinedFieldsNeverMatch(c: Case, term: string)
    requires c.code == None && c.judicialNumber == None && c.clientName == None
    ensures c !in FilteredCases([c], term)
  {
  }

  /** With the empty term, a case is listed exactly when one of the three fields is defined. */
  lemma EmptyTermKeepsDefined(cases: seq<Case>)
    ensures forall c :: c in FilteredCases(cases, "") <==>
      c in cases && (c.code.Some? || c.judicialNumber.Some? || c.clientName.Some?)
  {
    forall c | c in cases
      ensures CaseMatches(c, "") <==> c.code.Some? || c.judicialNumber.Some? || c.clientName.Some?
    {
      if c.code.Some? { IncludesEmpty(ToLower(c.code.value)); }
      if c.judicialNumber.Some? { IncludesEmpty(c.judicialNumber.value); }
      if c.clientName.Some? { IncludesEmpty(ToLower(c.clientName.value)); }
    }
  }

  /** The code and client-name parts ignore the case of the term's ASCII letters. */
  lemma CodeSearchIgnoresCase(c: Case, term: string)
    ensures FieldIncludes(c.code, term, true) == FieldIncludes(c.code, ToLower(term), true)
    ensures FieldIncludes(c.clientName, term, true) == FieldIncludes(c.clientName, ToLower(term), true)
  {
    ToLowerIdempotent(term);
  }

  /** `handleSave`: data with an `id` key goes to `updateCase`, other data to `addCase`. */
  function HandleSave(data: Case): (call: SaveCall<Case>)
    ensures call.record == data
    ensures call.UpdateCall? <==> data.id.Some?
  {
    if data.id.Some? then UpdateCall(data) else AddCall(data)
  }
}
