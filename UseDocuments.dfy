/** The `useDocuments` hook: the document list loaded from the `documents` table, the
    two-step upload (file to storage, then a metadata row) and the two-step delete.
    The storage bucket and the table are oracles: each call's answer is a parameter,
    and the methods return the writes they issue, in order. */
module UseDocuments {
  import opened Wrappers
  import opened Seqs
  import opened Strings
  import opened Records

  /** The chosen file: its name and MIME type. */
  datatype FileInfo = FileInfo(name: string, mimeType: string)

  /** The metadata row `uploadDocument` inserts. */
  datatype DocumentInsert = DocumentInsert(
    name: string,
    filePath: string,
    fileType: string,
    caseId: Option<string>,
    clientId: Option<string>)

  /** A write to the storage bucket or to the table. */
  datatype Write =
    | StorageUpload(path: string)
    | TableInsert(row: DocumentInsert)
    | StorageRemove(path: string)
    | TableDelete(id: string)

  /** A selected row: the document's own columns and the joined case code and client name. */
  datatype DocumentRow = DocumentRow(record: Document, cases: Option<CodeJoin>, clients: Option<NameJoin>)

  /** The mapping of one row: `case_code` and `client_name` become the joined values,
      absent when the join or its column is; every other column is kept. */
  function MapDocumentRow(row: DocumentRow): (d: Document)
    ensures d.caseCode == (if row.cases.Some? then row.cases.value.code else None)
    ensures d.clientName == (if row.clients.Some? then row.clients.value.name else None)
    ensures d.(caseCode := row.record.caseCode, clientName := row.record.clientName) == row.record
  {
    row.record.(
      caseCode := if row.cases.Some? then row.cases.value.code else None,
      clientName := if row.clients.Some? then row.clients.value.name else None)
  }

  /** `mappedDocs || []`: the mapped rows in the order the select returned them (newest
      first), or the empty list for a null result. */
  function MapDocuments(data: Option<seq<DocumentRow>>): (r: seq<Document>)
    ensures data.None? ==> r == []
    ensures data.Some? ==>
      (|r| == |data.value| && forall i :: 0 <= i < |r| ==> r[i] == MapDocumentRow(data.value[i]))
  {
    if data.Some? then Map(data.value, MapDocumentRow) else []
  }

  /** `file.name.split('.').pop()`: the text after the last dot, or the whole name. */
  function FileExtension(name: string): (ext: string)
    ensures '.' !in ext
    ensures '.' !in name ==> ext == name
  {
    LastSegment(name, '.')
  }

  /** The storage path: the random token, a dot, and the file's extension. Whatever the
      token, the stored object keeps the original file's extension. */
  function StoragePath(token: string, name: string): (path: string)
    ensures token <= path
    ensures FileExtension(path) == FileExtension(name)
    ensures |path| == |token| + 1 + |FileExtension(name)| && path[|token|] == '.'
  {
    LastSegmentAfter(token, '.', FileExtension(name));
    token + ['.'] + FileExtension(name)
  }

  /** The metadata row for an uploaded file: the type defaults to "otro" when the caller
      passes none, and an absent or empty case or client id is written as null. */
  function InsertRow(file: FileInfo, path: string, fileType: Option<string>,
                     caseId: Option<string>, clientId: Option<string>): (row: DocumentInsert)
    ensures row.name == file.name && row.filePath == path
    ensures row.fileType == (if fileType.Some? then fileType.value else "otro")
    ensures row.caseId == OrNull(caseId) && row.clientId == OrNull(clientId)
  {
    DocumentInsert(file.name, path, if fileType.Some? then fileType.value else "otro",
      OrNull(caseId), OrNull(clientId))
  }

  /** The local list after a successful delete: the documents with another id, in order. */
  function WithoutDocument(documents: seq<Document>, id: string): (r: seq<Document>)
    ensures IsSubsequence(r, documents)
    ensures forall d :: d in r <==> d in documents && d.id != id
    ensures forall d :: Count(r, d) == if d.id != id then Count(documents, d) else 0
  {
    Filter(documents, (d: Document) => d.id != id)
  }

  /** The hook's state: the list, the loading flag and the last fetch error (None for null). */
  class DocumentsHook {
    var documents: seq<Document>
    var loading: bool
    var error: Option<string>

    /** The first render: an empty list, loading, no error. */
    constructor()
      ensures documents == [] && loading && error == None
    {
      documents := [];
      loading := true;
      error := None;
    }

    /** `fetchDocuments`: a successful select replaces the list with the mapped rows and
        keeps the error; a failed one keeps the list and records its message. Either way
        loading ends false. */
    method FetchDocuments(selected: Response<Option<seq<DocumentRow>>>)
      modifies this
      ensures !loading
      ensures selected.Ok? ==> (documents == MapDocuments(selected.data) && error == old(error))
      ensures selected.Err? ==> (documents == old(documents) && error == Some(selected.message))
    {
      loading := true;
      if selected.Err? {
        error := Some(selected.message);
      } else {
        documents := MapDocuments(selected.data);
      }
      loading := false;
    }

    /** `uploadDocument`: the file goes to storage under a fresh path; only when that
        succeeds is the metadata row inserted, and only when both succeed is the list
        fetched again. The first failure is passed on and leaves the list alone. Loading
        ends false on every path. */
    method UploadDocument(file: FileInfo, caseId: Option<string>, clientId: Option<string>,
                          fileType: Option<string>, token: string,
                          uploaded: Outcome, inserted: Outcome,
                          reloaded: Response<Option<seq<DocumentRow>>>)
      returns (r: Outcome, writes: seq<Write>)
      modifies this
      ensures writes == [StorageUpload(StoragePath(token, file.name))] +
        (if uploaded.Pass? then [TableInsert(InsertRow(file, StoragePath(token, file.name), fileType, caseId, clientId))] else [])
      ensures r == (if uploaded.Fail? then uploaded else inserted)
      ensures !loading
      ensures r.Fail? ==> documents == old(documents) && error == old(error)
      ensures r.Pass? && reloaded.Ok? ==> (documents == MapDocuments(reloaded.data) && error == old(error))
      ensures r.Pass? && reloaded.Err? ==> (documents == old(documents) && error == Some(reloaded.message))
    {
      loading := true;
      var path := StoragePath(token, file.name);
      writes := [StorageUpload(path)];
      if uploaded.Fail? {
        r := uploaded;
      } else {
        writes := writes + [TableInsert(InsertRow(file, path, fileType, caseId, clientId))];
        r := inserted;
        if inserted.Pass? {
          FetchDocuments(reloaded);
        }
      }
      loading := false;
    }

    /** `deleteDocument`: the stored file is removed and then the row is deleted, whatever
        the storage answered (a storage failure is only logged). The row's deletion
        decides the result and whether the document leaves the list. */
    method DeleteDocument(id: string, filePath: string, removed: Outcome, deleted: Outcome)
      returns (r: Outcome, writes: seq<Write>)
      modifies this
      ensures writes == [StorageRemove(filePath), TableDelete(id)]
      ensures r == deleted
      ensures documents == (if deleted.Pass? then WithoutDocument(old(documents), id) else old(documents))
      ensures loading == old(loading) && error == old(error)
    {
      writes := [StorageRemove(filePath), TableDelete(id)];
      r := deleted;
      if deleted.Pass? {
        documents := WithoutDocument(documents, id);
      }
    }
  }

  /** A name with several dots keeps only the part after the last one in storage. */
  lemma StoragePathExamples()
    ensures StoragePath("k3x9", "acta.final.pdf") == "k3x9.pdf"
  {
    LastSegmentAfter("acta.final", '.', "pdf");
    assert "acta.final.pdf" == "acta.final" + ['.'] + "pdf";
  }
}
