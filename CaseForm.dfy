/** The case form: its opening state (the case being edited, or the blank case) and the
    two-phase submit: validation and the pending save, then the save's settlement. */
module CaseForm {
  import opened Wrappers
  import opened Records

  const ClientRequired := "Debe seleccionar un cliente"
  const TypeRequired := "Debe seleccionar un tipo de proceso"
  const SaveFailed := "Error al guardar"

  /** The blank case: status "iniciado", type "civil", no client chosen and the code,
      judicial number, opposing party, judicial unit and description empty. */
  const BlankCase := Case(None, Some(""), Some(""), "civil", "iniciado", "", None, Some(""), None, None, Some(""), Some(""))

  /** The case the form holds after it opens. */
  function OpeningData(initialData: Option<Case>): (c: Case)
    ensures initialData.Some? ==> c == initialData.value
    ensures initialData.None? ==> c.status == "iniciado" && c.caseType == "civil" && c.clientId == "" && c.id == None
    ensures initialData.None? ==>
      (c.code == Some("") && c.judicialNumber == Some("") && c.opposingParty == Some("")
       && c.judicialUnit == Some("") && c.description == Some(""))
  {
    if initialData.Some? then initialData.value else BlankCase
  }

  /** The first failed check of `handleSubmit`, in order: the client, then the type. */
  function Validate(c: Case): (failure: Option<string>)
    ensures failure.None? <==> c.clientId != "" && c.caseType != ""
    ensures c.clientId == "" ==> failure == Some(ClientRequired)
    ensures c.clientId != "" && c.caseType == "" ==> failure == Some(TypeRequired)
  {
    if c.clientId == "" then Some(ClientRequired)
    else if c.caseType == "" then Some(TypeRequired)
    else None
  }

  /** The blank case cannot be saved until a client is chosen. */
  lemma BlankCaseNeedsClient()
    ensures Validate(OpeningData(None)) == Some(ClientRequired)
    ensures Validate(OpeningData(None).(clientId := "c1")) == None
  {
  }

  /** The form's state: the case being edited, the saving flag and the error shown. */
  class Form {
    var formData: Case
    var loading: bool
    var error: string

    /** The first render: the blank case, not saving, no error. */
    constructor()
      ensures formData == BlankCase && !loading && error == ""
    {
      formData := BlankCase;
      loading := false;
      error := "";
    }

    /** The opening effect: copy the edited case, or reset to the blank case. */
    method Open(initialData: Option<Case>)
      modifies this
      ensures formData == OpeningData(initialData)
      ensures loading == old(loading) && error == old(error)
    {
      formData := if initialData.Some? then initialData.value else BlankCase;
    }

    /** `handleSubmit` up to the save: the error is cleared and loading set; a failed check
        records its message and ends loading without calling `onSave`; otherwise the form
        data goes to `onSave` and the save is pending. */
    method Submit() returns (saved: Option<Case>)
      modifies this
      ensures formData == old(formData)
      ensures Validate(formData).Some? ==> saved == None && error == Validate(formData).value && !loading
      ensures Validate(formData).None? ==> saved == Some(formData) && error == "" && loading
    {
      loading := true;
      error := "";
      var failure := Validate(formData);
      if failure.Some? {
        error := failure.value;
        loading := false;
        return None;
      }
      saved := Some(formData);
    }

    /** `handleSubmit` after the save settles: a resolved save closes the form, a rejected
        one shows its message or the fallback; loading ends false either way. */
    method SaveSettled(settled: Outcome) returns (closed: bool)
      modifies this
      ensures formData == old(formData) && !loading
      ensures closed <==> settled.Pass?
      ensures settled.Pass? ==> error == old(error)
      ensures settled.Fail? ==> error == OrDefault(Some(settled.message), SaveFailed)
    {
      closed := settled.Pass?;
      if settled.Fail? {
        error := OrDefault(Some(settled.message), SaveFailed);
      }
      loading := false;
    }
  }
}
