/** One run of the app script. The stored document text starts out empty,
    is replaced by the text extracted from an accepted upload when that
    text is not blank, and then feeds the action the user triggered. */
module Session {
  import opened Wrappers
  import opened PyStr
  import opened SizeGate
  import opened Extraction
  import opened Prompts

  /** The stored text at the start of every run. */
  const InitialText: string := ""

  /** The button the user pressed in this run, with what was typed. */
  datatype Action =
    | AskLegal(question: string)
    | GenerateSummary
    | AskDocument(question: string)

  /** Keeping extracted text: it replaces the stored text only when it is
      not blank; blank text leaves the stored text as it was. */
  function Store(fileText: string, extracted: string): (r: string)
    ensures !IsBlank(extracted) ==> r == extracted
    ensures IsBlank(extracted) ==> r == fileText
  {
    if Truthy(extracted) then extracted else fileText
  }

  /** The upload step: no upload and an oversize upload leave the stored
      text alone; an accepted upload stores its extracted text when that
      text is not blank, whether or not an error was reported while
      reading it. */
  function Ingest(fileText: string, upload: Option<Upload>): (r: string)
    ensures upload.None? ==> r == fileText
    ensures upload.Some? && !Accepted(upload.value.size) ==> r == fileText
    ensures r == fileText || (r == Extract(upload.value).text && !IsBlank(r))
    ensures upload.Some? && Accepted(upload.value.size) && !IsBlank(Extract(upload.value).text)
      ==> r == Extract(upload.value).text
  {
    match upload
    case None => fileText
    case Some(u) => if Accepted(u.size) then Store(fileText, Extract(u).text) else fileText
  }

  /** The stored text the actions of this run see. */
  function SessionText(upload: Option<Upload>): (r: string)
    ensures r == InitialText || !IsBlank(r)
  {
    Ingest(InitialText, upload)
  }

  /** The action the user triggered, on the stored text. */
  function Respond(fileText: string, action: Action): (r: Outcome)
  {
    match action
    case AskLegal(q) => GeneralQA(q)
    case GenerateSummary => Summarize(fileText)
    case AskDocument(q) => DocumentQA(fileText, q)
  }

  /** One run: the upload step, then the action. The legal question never
      depends on the upload. The document actions reach the model only
      after an accepted upload whose extracted text is not blank (and, for
      a document question, a question that is not blank), always do then,
      and then build their request from exactly that extracted text. */
  function ScriptRun(upload: Option<Upload>, action: Action): (r: Outcome)
    ensures action.AskLegal? ==> (r.Send? <==> !IsBlank(action.question))
    ensures action.AskLegal? ==> r == GeneralQA(action.question)
    ensures r.Send? && !action.AskLegal? ==>
      && upload.Some?
      && Accepted(upload.value.size)
      && !IsBlank(Extract(upload.value).text)
    ensures action.GenerateSummary? ==>
      (r.Send? <==> upload.Some? && Accepted(upload.value.size) && !IsBlank(Extract(upload.value).text))
    ensures action.AskDocument? ==>
      (r.Send? <==> && upload.Some? && Accepted(upload.value.size)
                    && !IsBlank(Extract(upload.value).text) && !IsBlank(action.question))
    ensures r.Send? && !action.AskLegal? ==> r == Respond(Extract(upload.value).text, action)
  {
    Respond(SessionText(upload), action)
  }

  /** An upload that is missing, too large, or of a type other than PDF
      and DOCX never leads to a document action calling the model. */
  lemma NoDocumentNoCall(upload: Option<Upload>, action: Action)
    requires !action.AskLegal?
    requires upload.None? || !Accepted(upload.value.size)
      || (upload.value.mime != PdfMime && upload.value.mime != DocxMime)
    ensures SessionText(upload) == InitialText
    ensures !ScriptRun(upload, action).Send?
  {
  }

  /** Text read before the parser raised is still stored when it is not
      blank, even though an error was reported. */
  lemma PartialTextStored(u: Upload, k: nat)
    requires u.mime == PdfMime && u.failAfter == Some(k) && k <= |u.units|
    requires Accepted(u.size)
    requires !IsBlank(Extract(u.(units := u.units[..k], failAfter := None)).text)
    ensures Extract(u).errorShown
    ensures SessionText(Some(u)) == Extract(u.(units := u.units[..k], failAfter := None)).text
  {
  }

  /** A one-page PDF whose page text is not blank and fits the summary
      budget yields the summary request for that whole page and its
      newline. */
  lemma OnePageSummary(size: nat, page: string)
    requires size <= MaxFileSizeBytes
    requires !IsBlank(page) && |page| < SummaryLimit
    ensures ScriptRun(Some(Upload(size, PdfMime, [Some(page)], None)), GenerateSummary)
      == Send(SummaryPreamble + (page + "\n"))
  {
    var u := Upload(size, PdfMime, [Some(page)], None);
    var text := page + "\n";
    OnePage(u, page);
    NotBlankExtended(page, "\n");
    assert SessionText(Some(u)) == text;
    WholeSummary(text);
  }

  /** Appending to a string that is not blank keeps it not blank. */
  lemma NotBlankExtended(s: string, t: string)
    requires !IsBlank(s)
    ensures !IsBlank(s + t)
  {
    var i :| 0 <= i < |s| && !IsWs(s[i]);
    assert (s + t)[i] == s[i];
  }

  /** A stored text that is not blank and fits the summary budget is
      summarised whole. */
  lemma WholeSummary(text: string)
    requires !IsBlank(text) && |text| <= SummaryLimit
    ensures Summarize(text) == Send(SummaryPreamble + text)
  {
  }

  /** A one-page PDF holding "Register under GST within 30 days." yields
      the summary request for exactly that page and its newline. */
  lemma SummaryEndToEnd(size: nat)
    requires size <= MaxFileSizeBytes
    ensures ScriptRun(Some(Upload(size, PdfMime, [Some("Register under GST within 30 days.")], None)), GenerateSummary)
      == Send("Summarize this document:\n\n" + ("Register under GST within 30 days." + "\n"))
  {
    var page := "Register under GST within 30 days.";
    assert !IsWs(page[0]);
    OnePageSummary(size, page);
  }

  /** A PDF of one page with text gives that text and a newline. */
  lemma OnePage(u: Upload, page: string)
    requires u.mime == PdfMime && u.units == [Some(page)] && u.failAfter.None?
    ensures Extract(u).text == page + "\n"
  {
    var parts := PageTexts(u.units);
    assert u.units[..1] == u.units;
    assert parts == [page];
    assert parts[..0] == [];
    assert Lines(parts) == page + "\n";
    assert ExtractPdf(u.units, None).text == Lines(parts);
  }
}
