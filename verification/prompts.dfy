/** The three actions that can call the language model, each guarded by a
    blank-input check. The model call itself is not modelled: an action
    either stops with a message or hands exactly one string, `contents`,
    to the model. */
module Prompts {
  import opened PyStr

  /** What one button press leads to.
      - `Send(contents)`: the model is called with `contents`;
      - `Warn`: a warning is shown and the model is not called;
      - `Info`: the document tab shows only its upload hint, so there is no
        question to ask and the model is not called. */
  datatype Outcome = Send(contents: string) | Warn | Info

  /** The fixed opening of the summary request. */
  const SummaryPreamble: string := "Summarize this document:\n\n"

  /** How many characters of the document a summary request carries. */
  const SummaryLimit: nat := 8000

  /** The opening of a document question. */
  const DocumentHeader: string := "Document:\n"

  /** What separates the document excerpt from the question. */
  const QuestionLabel: string := "\n\nQuestion: "

  /** How many characters of the document a document question carries. */
  const DocumentLimit: nat := 3000

  /** "Get Answer": a question with some non-whitespace character is sent
      exactly as typed; a blank one only draws a warning. */
  function GeneralQA(question: string): (r: Outcome)
    ensures r.Send? <==> !IsBlank(question)
    ensures r.Send? ==> r.contents == question
    ensures !r.Send? ==> r == Warn
  {
    if Truthy(question) then Send(question) else Warn
  }

  /** "Generate Summary": when the stored text is not blank, the request is
      the preamble followed by the first 8000 characters of the text (all
      of it when shorter); otherwise a warning. */
  function Summarize(fileText: string): (r: Outcome)
    ensures r.Send? <==> !IsBlank(fileText)
    ensures !r.Send? ==> r == Warn
    ensures r.Send? ==>
      var p := |SummaryPreamble|;
      && |r.contents| == p + (if |fileText| <= SummaryLimit then |fileText| else SummaryLimit)
      && r.contents[..p] == SummaryPreamble
      && r.contents[p..] <= fileText
  {
    if Truthy(fileText) then
      Send(SummaryPreamble + Prefix(fileText, SummaryLimit))
    else
      Warn
  }

  /** "Ask From Document": with no usable stored text the tab shows only
      its hint; with a blank question, a warning; otherwise the request is
      the header, the first 3000 characters of the text, the question
      label and the question exactly as typed, in that order. */
  function DocumentQA(fileText: string, question: string): (r: Outcome)
    ensures r.Send? <==> !IsBlank(fileText) && !IsBlank(question)
    ensures IsBlank(fileText) ==> r == Info
    ensures !IsBlank(fileText) && IsBlank(question) ==> r == Warn
    ensures r.Send? ==>
      var h := |DocumentHeader|;
      var e := if |fileText| <= DocumentLimit then |fileText| else DocumentLimit;
      var n := |r.contents|;
      && n == h + e + |QuestionLabel| + |question|
      && r.contents[..h] == DocumentHeader
      && r.contents[h..h + e] == fileText[..e]
      && r.contents[h + e..n - |question|] == QuestionLabel
      && r.contents[n - |question|..] == question
  {
    if !Truthy(fileText) then
      Info
    else if !Truthy(question) then
      Warn
    else
      var excerpt := Prefix(fileText, DocumentLimit);
      TemplateSlices(DocumentHeader, excerpt, QuestionLabel, question);
      Send(DocumentHeader + excerpt + QuestionLabel + question)
  }

  /** Each of four joined strings can be sliced back out of the join. */
  lemma TemplateSlices(a: string, b: string, c: string, d: string)
    ensures var x := a + b + c + d;
      && x[..|a|] == a
      && x[|a|..|a| + |b|] == b
      && x[|a| + |b|..|x| - |d|] == c
      && x[|x| - |d|..] == d
  {
  }
}
