/** Text extraction from an accepted upload, chosen by the upload's
    declared MIME type. The PDF and DOCX parsers are not modelled: an
    upload carries what its parser would yield, one unit (page or
    paragraph) at a time, and the point, if any, at which the parser
    raises. */
module Extraction {
  import opened Wrappers

  /** The declared type that selects the PDF path. */
  const PdfMime: string := "application/pdf"

  /** The declared type that selects the DOCX path. */
  const DocxMime: string :=
    "application/vnd.openxmlformats-officedocument.wordprocessingml.document"

  /** An uploaded file as extraction sees it.
      - `size`: its size in bytes;
      - `mime`: its declared MIME type;
      - `units`: the text of each page (PDF) or paragraph (DOCX) in
        document order, `None` where the parser yields no text;
      - `failAfter`: `Some(k)` when the parser raises an exception once
        `k` units have been read (at once for `k == 0`; after the last unit
        when `k` is at least the number of units), `None` when it does not. */
  datatype Upload = Upload(
    size: nat,
    mime: string,
    units: seq<Option<string>>,
    failAfter: Option<nat>)

  /** What the extraction step leaves behind: the accumulated `text`, and
      whether an error was reported while reading. */
  datatype Extracted = Extracted(text: string, errorShown: bool)

  /** The accumulation `text += part + "\n"` over `parts`, in order.
      Every part leaves at least its newline, and a non-empty run ends in
      one; `LinesLength` and `LinesLayout` fix every character. */
  function Lines(parts: seq<string>): (r: string)
    ensures |r| >= |parts|
    ensures |parts| > 0 ==> r[|r| - 1] == '\n'
  {
    if |parts| == 0 then "" else Lines(parts[..|parts| - 1]) + parts[|parts| - 1] + "\n"
  }

  /** The sum of the lengths of `parts`. */
  function TotalLength(parts: seq<string>): (r: nat)
  {
    if |parts| == 0 then 0 else TotalLength(parts[..|parts| - 1]) + |parts[|parts| - 1]|
  }

  /** Where part `i` begins in `Lines(parts)`: after every earlier part and
      its newline. */
  function LineStart(parts: seq<string>, i: nat): (r: nat)
    requires i <= |parts|
  {
    TotalLength(parts[..i]) + i
  }

  /** Each part adds its own characters and one newline. */
  lemma {:induction false} LinesLength(parts: seq<string>)
    ensures |Lines(parts)| == TotalLength(parts) + |parts|
  {
    if |parts| > 0 {
      LinesLength(parts[..|parts| - 1]);
    }
  }

  /** Accumulating two runs of parts one after the other gives the two
      accumulations one after the other. */
  lemma {:induction false} LinesAppend(a: seq<string>, b: seq<string>)
    ensures Lines(a + b) == Lines(a) + Lines(b)
    decreases |b|
  {
    if |b| == 0 {
      assert a + b == a;
    } else {
      var b', last := b[..|b| - 1], b[|b| - 1];
      assert (a + b)[..|a + b| - 1] == a + b';
      assert (a + b)[|a + b| - 1] == last;
      LinesAppend(a, b');
      calc {
        Lines(a + b);
        Lines(a + b') + last + "\n";
        Lines(a) + Lines(b') + last + "\n";
        Lines(a) + (Lines(b') + last + "\n");
        Lines(a) + Lines(b);
      }
    }
  }

  /** The layout of the accumulated text: part `i` sits, unchanged, at
      `LineStart(parts, i)` and is followed by a newline. Together with
      `LinesLength` this pins down every character of `Lines(parts)`. */
  lemma LinesLayout(parts: seq<string>, i: nat)
    requires i < |parts|
    ensures LineStart(parts, i) + |parts[i]| < |Lines(parts)|
    ensures Lines(parts)[LineStart(parts, i)..LineStart(parts, i) + |parts[i]|] == parts[i]
    ensures Lines(parts)[LineStart(parts, i) + |parts[i]|] == '\n'
  {
    var before, upTo := parts[..i], parts[..i + 1];
    assert parts == upTo + parts[i + 1..];
    LinesAppend(upTo, parts[i + 1..]);
    assert upTo[..|upTo| - 1] == before;
    assert Lines(upTo) == Lines(before) + parts[i] + "\n";
    LinesLength(before);
  }

  /** A page's contribution: `page.extract_text() or ""`. */
  function PageText(page: Option<string>): (r: string)
  {
    page.GetOr("")
  }

  /** The page texts, with a missing text read as the empty string. */
  function PageTexts(pages: seq<Option<string>>): (r: seq<string>)
    ensures |r| == |pages|
    ensures forall i :: 0 <= i < |pages| ==> r[i] == PageText(pages[i])
  {
    seq(|pages|, i requires 0 <= i < |pages| => PageText(pages[i]))
  }

  /** How many units the parser hands over before it raises, if it does. */
  function UnitsRead(n: nat, failAfter: Option<nat>): (k: nat)
    ensures k <= n
    ensures failAfter.None? ==> k == n
    ensures failAfter.Some? ==> k == if failAfter.value < n then failAfter.value else n
  {
    match failAfter
    case None => n
    case Some(j) => if j < n then j else n
  }

  /** The index of the first missing unit, or the number of units when
      none is missing. */
  function FirstMissing(units: seq<Option<string>>): (k: nat)
    ensures k <= |units|
    ensures forall i :: 0 <= i < k ==> units[i].Some?
    ensures k < |units| ==> units[k].None?
  {
    if |units| == 0 || units[0].None? then 0 else 1 + FirstMissing(units[1..])
  }

  /** The text of units that are all present. */
  function Present(units: seq<Option<string>>): (r: seq<string>)
    requires forall i :: 0 <= i < |units| ==> units[i].Some?
    ensures |r| == |units|
    ensures forall i :: 0 <= i < |units| ==> r[i] == units[i].value
  {
    seq(|units|, i requires 0 <= i < |units| && units[i].Some? => units[i].value)
  }

  /** The PDF loop inside its `try`: every page read before the parser
      raises contributes its text, or nothing when it has none, and a
      newline. An exception is reported and the text so far is kept. */
  function ExtractPdf(pages: seq<Option<string>>, failAfter: Option<nat>): (e: Extracted)
    ensures e.errorShown <==> failAfter.Some?
    ensures e.text <= Lines(PageTexts(pages))
    ensures failAfter.None? ==> e.text == Lines(PageTexts(pages))
  {
    var k := UnitsRead(|pages|, failAfter);
    assert pages == pages[..k] + pages[k..];
    PageTextsAppend(pages[..k], pages[k..]);
    LinesAppend(PageTexts(pages[..k]), PageTexts(pages[k..]));
    Extracted(Lines(PageTexts(pages[..k])), failAfter.Some?)
  }

  /** The DOCX loop inside its `try`: every paragraph read before the
      parser raises contributes its text and a newline. A missing
      paragraph text would make `para.text + "\n"` raise as well, so the
      loop also stops, with an error, at the first missing unit. */
  function ExtractDocx(paras: seq<Option<string>>, failAfter: Option<nat>): (e: Extracted)
    ensures e.errorShown <==> failAfter.Some? || FirstMissing(paras) < UnitsRead(|paras|, failAfter)
  {
    var k := UnitsRead(|paras|, failAfter);
    var m := FirstMissing(paras);
    if m < k then
      Extracted(Lines(Present(paras[..m])), true)
    else
      Extracted(Lines(Present(paras[..k])), failAfter.Some?)
  }

  /** The extraction step for an accepted upload: the PDF path, the DOCX
      path, or nothing for any other declared type. */
  function Extract(u: Upload): (e: Extracted)
    ensures u.mime != PdfMime && u.mime != DocxMime ==> e == Extracted("", false)
  {
    if u.mime == PdfMime then ExtractPdf(u.units, u.failAfter)
    else if u.mime == DocxMime then ExtractDocx(u.units, u.failAfter)
    else Extracted("", false)
  }

  /** PDF extraction that does not raise is the in-order accumulation of
      the pages: its length is the page texts' total plus one newline per
      page, and page `i` (empty when it has no text) sits at its place,
      followed by a newline. */
  lemma PdfInOrder(u: Upload, i: nat)
    requires u.mime == PdfMime && u.failAfter.None?
    requires i < |u.units|
    ensures var e := Extract(u); var parts := PageTexts(u.units);
      && !e.errorShown
      && |e.text| == TotalLength(parts) + |u.units|
      && LineStart(parts, i) + |PageText(u.units[i])| < |e.text|
      && e.text[LineStart(parts, i)..LineStart(parts, i) + |PageText(u.units[i])|] == PageText(u.units[i])
      && e.text[LineStart(parts, i) + |PageText(u.units[i])|] == '\n'
  {
    assert u.units[..|u.units|] == u.units;
    LinesLength(PageTexts(u.units));
    LinesLayout(PageTexts(u.units), i);
  }

  /** DOCX extraction that does not raise, over paragraphs that all have
      text, is the in-order accumulation of the paragraphs: an empty
      paragraph still adds its newline. */
  lemma DocxInOrder(u: Upload, i: nat)
    requires u.mime == DocxMime && u.failAfter.None?
    requires forall j :: 0 <= j < |u.units| ==> u.units[j].Some?
    requires i < |u.units|
    ensures var e := Extract(u); var parts := Present(u.units);
      && !e.errorShown
      && |e.text| == TotalLength(parts) + |u.units|
      && LineStart(parts, i) + |u.units[i].value| < |e.text|
      && e.text[LineStart(parts, i)..LineStart(parts, i) + |u.units[i].value|] == u.units[i].value
      && e.text[LineStart(parts, i) + |u.units[i].value|] == '\n'
  {
    assert u.units[..|u.units|] == u.units;
    LinesLength(Present(u.units));
    LinesLayout(Present(u.units), i);
  }

  /** Splitting the pages splits their texts. */
  lemma PageTextsAppend(a: seq<Option<string>>, b: seq<Option<string>>)
    ensures PageTexts(a + b) == PageTexts(a) + PageTexts(b)
  {
  }

  /** Splitting present paragraphs splits their texts. */
  lemma PresentAppend(a: seq<Option<string>>, b: seq<Option<string>>)
    requires forall i :: 0 <= i < |a| ==> a[i].Some?
    requires forall i :: 0 <= i < |b| ==> b[i].Some?
    ensures forall i :: 0 <= i < |a + b| ==> (a + b)[i].Some?
    ensures Present(a + b) == Present(a) + Present(b)
  {
  }

  /** When the PDF parser raises after `k` pages, the text kept is exactly
      what a document made of those `k` pages gives, an error is reported,
      and the text is a prefix of what the whole document would give. */
  lemma PdfPartial(u: Upload, k: nat)
    requires u.mime == PdfMime && u.failAfter == Some(k) && k <= |u.units|
    ensures Extract(u).errorShown
    ensures Extract(u).text == Extract(u.(units := u.units[..k], failAfter := None)).text
    ensures Extract(u).text <= Extract(u.(failAfter := None)).text
  {
  }

  /** Units that all have text have none missing. */
  lemma NoneMissing(units: seq<Option<string>>)
    requires forall i :: 0 <= i < |units| ==> units[i].Some?
    ensures FirstMissing(units) == |units|
  {
  }

  /** When the DOCX parser raises after `k` paragraphs that all have text,
      the text kept is exactly what a document made of those `k`
      paragraphs gives, an error is reported, and the text is a prefix of
      what the whole document would give. */
  lemma DocxPartial(u: Upload, k: nat)
    requires u.mime == DocxMime && u.failAfter == Some(k) && k <= |u.units|
    requires forall j :: 0 <= j < |u.units| ==> u.units[j].Some?
    ensures Extract(u).errorShown
    ensures Extract(u).text == Extract(u.(units := u.units[..k], failAfter := None)).text
    ensures Extract(u).text <= Extract(u.(failAfter := None)).text
  {
    var pre, post := u.units[..k], u.units[k..];
    assert pre[..k] == pre;
    assert u.units[..|u.units|] == u.units;
    assert u.units == pre + post;
    NoneMissing(u.units);
    NoneMissing(pre);
    assert Extract(u).text == Lines(Present(pre));
    assert Extract(u.(units := pre, failAfter := None)).text == Lines(Present(pre));
    assert Extract(u.(failAfter := None)).text == Lines(Present(u.units));
    PresentAppend(pre, post);
    LinesAppend(Present(pre), Present(post));
  }

  /** Three parts accumulate to each part followed by a newline. */
  lemma LinesExample3(parts: seq<string>)
    requires |parts| == 3
    ensures Lines(parts) == parts[0] + "\n" + parts[1] + "\n" + parts[2] + "\n"
  {
    var one, two := parts[..1], parts[..2];
    assert one[..0] == [];
    assert Lines(one) == parts[0] + "\n";
    assert two[..1] == one;
    assert Lines(two) == Lines(one) + parts[1] + "\n";
    assert parts[..2] == two;
  }

  /** Pages `["Hello", None, "World"]` give `"Hello\n\nWorld\n"`. */
  lemma PdfMissingPageExample(size: nat)
    ensures Extract(Upload(size, PdfMime, [Some("Hello"), None, Some("World")], None)).text
      == "Hello\n\nWorld\n"
  {
    var pages: seq<Option<string>> := [Some("Hello"), None, Some("World")];
    assert pages[..3] == pages;
    var parts := PageTexts(pages);
    assert parts == ["Hello", "", "World"];
    LinesExample3(parts);
  }

  /** Paragraphs `["Title", "", "Body"]` give `"Title\n\nBody\n"`: the
      empty paragraph is kept as a bare newline. */
  lemma DocxEmptyParagraphExample(size: nat)
    ensures Extract(Upload(size, DocxMime, [Some("Title"), Some(""), Some("Body")], None)).text
      == "Title\n\nBody\n"
  {
    var paras: seq<Option<string>> := [Some("Title"), Some(""), Some("Body")];
    assert paras[..3] == paras;
    assert FirstMissing(paras) == 3 by {
      assert paras[1..][1..][1..] == [];
    }
    var parts := Present(paras);
    assert parts == ["Title", "", "Body"];
    LinesExample3(parts);
  }
}
