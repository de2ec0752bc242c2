/** The documents page: the two link selectors (a case or a client, never both), the
    upload handler with its flags, and the error banner. */
module DocumentsPage {
  import opened Wrappers
  import opened Strings
  import opened Records
  import opened UseDocuments

  const UploadFailed := "Error al subir archivo"
  const NoDownloadLink := "No se pudo generar el enlace de descarga"

  /** The type an uploaded file is filed under: "legal" when its MIME type mentions pdf,
      "otro" otherwise. */
  function UploadType(mimeType: string): (fileType: string)
    ensures fileType == "legal" || fileType == "otro"
    ensures fileType == "legal" <==> exists i :: OccursAt(mimeType, "pdf", i)
  {
    if Includes(mimeType, "pdf") then "legal" else "otro"
  }

  /** A PDF is filed as legal and an image as other. */
  lemma UploadTypeExamples()
    ensures UploadType("application/pdf") == "legal"
    ensures UploadType("image/png") == "otro"
  {
    assert OccursAt("application/pdf", "pdf", 12);
    var png := "image/png";
    forall i ensures !OccursAt(png, "pdf", i) {
      if 0 <= i <= |png| - 3 {
        assert png[i..i + 3] != "pdf" by {
          assert png[i] != 'p' || png[i + 1] != 'd';
        }
      }
    }
  }

  /** What a download does with the signed link: open it, or alert that there is none. */
  datatype DownloadAction = OpenTab(url: string) | Alert(message: string)

  function Download(url: Option<string>): (action: DownloadAction)
    ensures action.OpenTab? <==> Truthy(url)
    ensures action.OpenTab? ==> Some(action.url) == url
    ensures action.Alert? ==> action.message == NoDownloadLink
  {
    if Truthy(url) then OpenTab(url.value) else Alert(NoDownloadLink)
  }

  /** The banner: shown when the hook or the upload has an error, preferring the upload's. */
  function Banner(uploadError: string, error: Option<string>): (text: Option<string>)
    ensures text.None? <==> uploadError == "" && !Truthy(error)
    ensures uploadError != "" ==> text == Some(uploadError)
    ensures uploadError == "" && Truthy(error) ==> text == error
  {
    if uploadError != "" then Some(uploadError)
    else if Truthy(error) then error
    else None
  }

  /** The call `handleFileSelect` makes to `uploadDocument`. */
  datatype UploadCall = UploadCall(file: FileInfo, caseId: string, clientId: string, fileType: string)

  /** The metadata row an upload from this page writes links at most one record when at
      most one selector is set. */
  lemma UploadLinksAtMostOne(call: UploadCall, path: string)
    requires call.caseId == "" || call.clientId == ""
    ensures var row := InsertRow(call.file, path, Some(call.fileType), Some(call.caseId), Some(call.clientId));
      row.caseId == None || row.clientId == None
  {
  }

  /** The page's state: the two selectors, the upload flag and error, and the files the
      file input holds. */
  class Page {
    var selectedCaseId: string
    var selectedClientId: string
    var isUploading: bool
    var uploadError: string
    var inputFiles: seq<FileInfo>

    /** At most one of the two selectors is set. */
    predicate AtMostOneLink()
      reads this
    {
      selectedCaseId == "" || selectedClientId == ""
    }

    /** The first render: nothing selected, not uploading, no error, no file chosen. */
    constructor()
      ensures selectedCaseId == "" && selectedClientId == "" && !isUploading && uploadError == "" && inputFiles == []
      ensures AtMostOneLink()
    {
      selectedCaseId := "";
      selectedClientId := "";
      isUploading := false;
      uploadError := "";
      inputFiles := [];
    }

    /** The case selector: a chosen case clears the client; the empty option keeps it. */
    method SelectCase(value: string)
      modifies this
      ensures selectedCaseId == value
      ensures selectedClientId == (if value != "" then "" else old(selectedClientId))
      ensures isUploading == old(isUploading) && uploadError == old(uploadError) && inputFiles == old(inputFiles)
      ensures AtMostOneLink()
    {
      selectedCaseId := value;
      if value != "" {
        selectedClientId := "";
      }
    }

    /** The client selector: a chosen client clears the case; the empty option keeps it. */
    method SelectClient(value: string)
      modifies this
      ensures selectedClientId == value
      ensures selectedCaseId == (if value != "" then "" else old(selectedCaseId))
      ensures isUploading == old(isUploading) && uploadError == old(uploadError) && inputFiles == old(inputFiles)
      ensures AtMostOneLink()
    {
      selectedClientId := value;
      if value != "" {
        selectedCaseId := "";
      }
    }

    /** The browser's side of the file input: the user picks files. */
    method ChooseFiles(files: seq<FileInfo>)
      modifies this
      ensures inputFiles == files
      ensures selectedCaseId == old(selectedCaseId) && selectedClientId == old(selectedClientId)
      ensures isUploading == old(isUploading) && uploadError == old(uploadError)
    {
      inputFiles := files;
    }

    /** `handleFileSelect`: with no file chosen nothing happens. Otherwise the first file is
        uploaded with the selected links and its type, the error is cleared, and once the
        upload settles the input is cleared (on success) or the error shown (on failure);
        the uploading flag ends false either way. */
    method HandleFileSelect(uploaded: Outcome) returns (call: Option<UploadCall>)
      modifies this
      ensures selectedCaseId == old(selectedCaseId) && selectedClientId == old(selectedClientId)
      ensures old(inputFiles) == [] ==>
        (call == None && isUploading == old(isUploading) && uploadError == old(uploadError) && inputFiles == [])
      ensures old(inputFiles) != [] ==>
        (call == Some(UploadCall(old(inputFiles)[0], selectedCaseId, selectedClientId,
                                 UploadType(old(inputFiles)[0].mimeType))) && !isUploading)
      ensures old(inputFiles) != [] && uploaded.Pass? ==> inputFiles == [] && uploadError == ""
      ensures old(inputFiles) != [] && uploaded.Fail? ==>
        (inputFiles == old(inputFiles) && uploadError == OrDefault(Some(uploaded.message), UploadFailed))
    {
      if inputFiles == [] {
        return None;
      }
      var file := inputFiles[0];
      isUploading := true;
      uploadError := "";
      var fileType := UploadType(file.mimeType);
      call := Some(UploadCall(file, selectedCaseId, selectedClientId, fileType));
      if uploaded.Pass? {
        inputFiles := [];
      } else {
        uploadError := OrDefault(Some(uploaded.message), UploadFailed);
      }
      isUploading := false;
    }
  }
}
