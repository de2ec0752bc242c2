/** The client form: its opening state (the client being edited, or the blank client)
    and the two-phase submit: validation and the pending save, then the save's settlement. */
module ClientForm {
  import opened Wrappers
  import opened Records

  const NameAndIdRequired := "Nombre e Identificación son obligatorios"
  const SaveFailed := "Error al guardar"

  /** The blank client: type "natural", status "activo" and every text field empty. */
  const BlankClient := Client(None, "natural", "", "", "", Some(""), Some(""), "activo")

  /** The client the form holds after it opens. */
  function OpeningData(initialData: Option<Client>): (c: Client)
    ensures initialData.Some? ==> c == initialData.value
    ensures initialData.None? ==> c.clientType == "natural" && c.status == "activo" && c.id == None
    ensures initialData.None? ==>
      (c.name == "" && c.identification == "" && c.email == "" && c.phone == Some("") && c.address == Some(""))
  {
    if initialData.Some? then initialData.value else BlankClient
  }

  /** `handleSubmit`'s one check: both the name and the identification are given. */
  function Validate(c: Client): (failure: Option<string>)
    ensures failure.None? <==> c.name != "" && c.identification != ""
    ensures failure.Some? ==> failure == Some(NameAndIdRequired)
  {
    if c.name == "" || c.identification == "" then Some(NameAndIdRequired) else None
  }

  /** The blank client cannot be saved as it opens. */
  lemma BlankClientRejected()
    ensures Validate(OpeningData(None)) == Some(NameAndIdRequired)
  {
  }

  /** The form's state: the client being edited, the saving flag and the error shown. */
  class Form {
    var formData: Client
    var loading: bool
    var error: string

    /** The first render: the blank client, not saving, no error. */
    constructor()
      ensures formData == BlankClient && !loading && error == ""
    {
      formData := BlankClient;
      loading := false;
      error := "";
    }

    /** The opening effect: copy the edited client, or reset to the blank client. */
    method Open(initialData: Option<Client>)
      modifies this
      ensures formData == OpeningData(initialData)
      ensures loading == old(loading) && error == old(error)
    {
      formData := if initialData.Some? then initialData.value else BlankClient;
    }

    /** `handleSubmit` up to the save: the error is cleared and loading set; a failed check
        records its message and ends loading without calling `onSave`; otherwise the form
        data goes to `onSave` and the save is pending. */
    method Submit() returns (saved: Option<Client>)
      modifies this
      ensures formData == old(formData)
      ensures Validate(formData).Some? ==> saved == None && error == NameAndIdRequired && !loading
      ensures Validate(formData).None? ==> saved == Some(formData) && error == "" && loading
    {
      loading := true;
      error := "";
      var failure := Validate(formData);
      if failure.Some? {
        error := failure.value;
        loading := false;
        return None;
      }
      saved := Some(formData);
    }

    /** `handleSubmit` after the save settles: a resolved save closes the form, a rejected
        one shows its message or the fallback; loading ends false either way. */
    method SaveSettled(settled: Outcome) returns (closed: bool)
      modifies this
      ensures formData == old(formData) && !loading
      ensures closed <==> settled.Pass?
      ensures settled.Pass? ==> error == old(error)
      ensures settled.Fail? ==> error == OrDefault(Some(settled.message), SaveFailed)
    {
      closed := settled.Pass?;
      if settled.Fail? {
        error := OrDefault(Some(settled.message), SaveFailed);
      }
      loading := false;
    }
  }
}
