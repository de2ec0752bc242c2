/** The document table: the icon chosen from a file's extension, the "related to" cell
    and the type badge. */
module DocumentList {
  import opened Wrappers
  import opened Strings
  import opened Records

  datatype Icon = ImageIcon | PdfIcon | GenericIcon

  /** The extensions shown with the image icon. */
  const ImageExtensions := ["jpg", "jpeg", "png", "gif"]

  /** `getIcon`: the text after the file name's last dot (the whole name when it has
      none), lower-cased, picks the icon. */
  function IconFor(fileName: string): (icon: Icon)
    ensures icon == ImageIcon <==> ToLower(LastSegment(fileName, '.')) in ImageExtensions
    ensures icon == PdfIcon <==> ToLower(LastSegment(fileName, '.')) == "pdf"
  {
    var ext := ToLower(LastSegment(fileName, '.'));
    if ext in ImageExtensions then ImageIcon
    else if ext == "pdf" then PdfIcon
    else GenericIcon
  }

  /** The icon does not depend on the case of the file name's ASCII letters. */
  lemma {:induction false} IconIgnoresCase(fileName: string)
    ensures IconFor(ToLower(fileName)) == IconFor(fileName)
  {
    LastSegmentToLower(fileName);
    ToLowerIdempotent(LastSegment(fileName, '.'));
  }

  /** The extension is compared without regard to case. */
  lemma IconOfUpperCaseExtension()
    ensures IconFor("Contrato.final.PDF") == PdfIcon
  {
    assert "Contrato.final.PDF" == "Contrato.final" + ['.'] + "PDF";
    LastSegmentAfter("Contrato.final", '.', "PDF");
    assert ToLower("PDF") == "pdf";
  }

  /** Only the last extension counts. */
  lemma IconOfDoubleExtension()
    ensures IconFor("escaneo.tar.gz") == GenericIcon
  {
    assert "escaneo.tar.gz" == "escaneo.tar" + ['.'] + "gz";
    LastSegmentAfter("escaneo.tar", '.', "gz");
    assert ToLower("gz") == "gz";
  }

  /** A name without a dot is its own extension. */
  lemma IconOfDotlessName()
    ensures IconFor("pdf") == PdfIcon
  {
    assert LastSegment("pdf", '.') == "pdf";
  }

  /** The "related to" cell: the case line, the client line, or the unlinked note. */
  datatype LinkCell = LinkCell(caseLine: Option<string>, clientLine: Option<string>, unlinked: bool)

  function Linkage(doc: Document): (cell: LinkCell)
    ensures cell.caseLine == (if Truthy(doc.caseCode) then doc.caseCode else None)
    ensures cell.clientLine == (if Truthy(doc.clientName) then doc.clientName else None)
    ensures cell.unlinked <==> !Truthy(doc.caseCode) && !Truthy(doc.clientName)
  {
    LinkCell(if Truthy(doc.caseCode) then doc.caseCode else None,
      if Truthy(doc.clientName) then doc.clientName else None,
      !Truthy(doc.caseCode) && !Truthy(doc.clientName))
  }

  /** The cell is never blank: it shows a link or says there is none, never both. */
  lemma LinkageNeverBlank(doc: Document)
    ensures var cell := Linkage(doc);
      (cell.unlinked || cell.caseLine.Some? || cell.clientLine.Some?)
      && !(cell.unlinked && (cell.caseLine.Some? || cell.clientLine.Some?))
  {
  }

  /** The type badge: the document's type, or "Archivo"; never empty. */
  function TypeBadge(doc: Document): (badge: string)
    ensures badge != ""
    ensures Truthy(doc.fileType) ==> Some(badge) == doc.fileType
    ensures !Truthy(doc.fileType) ==> badge == "Archivo"
  {
    OrDefault(doc.fileType, "Archivo")
  }
}
