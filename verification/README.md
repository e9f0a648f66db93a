# StartupDoc AI: document ingestion and prompt assembly

This is a Dafny model of the logic inside the Streamlit script `app.py`.
The model covers how an upload is accepted, how its text is extracted and
stored as `file_text`, and which string, if any, each of the three buttons
hands to the language model:

- "Get Answer" sends a general legal question.
- "Generate Summary" sends a summary request.
- "Ask From Document" sends a document question.

The model is purely functional:

- `wrappers.dfy` (`Wrappers`): `Option`.
- `pystr.dfy` (`PyStr`): Python's whitespace set, `str.strip()`, the guard
  `if s.strip():` and the prefix slice `s[:n]`.
- `sizegate.dfy` (`SizeGate`): the 5 MB upload limit.
- `extraction.dfy` (`Extraction`): the PDF and DOCX accumulation loops,
  including what is kept when the parser raises.
- `prompts.dfy` (`Prompts`): the three guarded actions and their exact
  request strings.
- `session.dfy` (`Session`): one run of the script. `file_text` starts
  empty, the upload step runs next, then the action the user triggered.

An upload is abstracted as the output of its parser:

- its size in bytes;
- its declared MIME type;
- the text of each page or paragraph, `None` where the parser gives no
  text at all (an empty page or paragraph is `Some("")`);
- the point, if any, after which the parser raises.

The model call is abstracted as the outcome `Send(contents)`.

Some behaviour of the script worth stating plainly:

- No upload is rejected for its type. A type other than the PDF and DOCX
  strings extracts `""`, so the app reports that no text was extracted.
- Text read before a parser exception is kept, and it is stored when it is
  not blank.
- The summary request puts `"\n\n"` after `"Summarize this document:"`.
- Blank input draws a warning or a hint on screen.
- A `None` paragraph on the DOCX path makes `para.text + "\n"` raise a
  `TypeError` inside the `try`. python-docx's `Paragraph.text` is always a
  string, so that branch is defensive.

## Model

| member | source | states |
|---|---|---|
| SizeGate.Accepted | app.py:76-83 | A file passes the size gate exactly when its size in bytes is at most 5 × 1024 × 1024. The gate compares the size in megabytes (bytes ÷ 1024²) against 5. |
| PyStr.Strip | app.py:55 | `strip()` returns the slice of the string between its leading and its trailing whitespace: everything dropped from either end is whitespace. The slice is empty exactly when every character is whitespace, and otherwise it starts and ends with non-whitespace. |
| PyStr.Truthy | app.py:55 | The guard `if s.strip():` (also at lines 106, 114, 135 and 139) holds exactly when `s` has a non-whitespace character. |
| PyStr.TrimStart | app.py:106 | Removing leading whitespace leaves a suffix of the string that does not start with whitespace, and everything removed was whitespace. |
| PyStr.TrimEnd | app.py:106 | Removing trailing whitespace leaves a prefix of the string that does not end with whitespace, and everything removed was whitespace. |
| PyStr.StripEmptyIffBlank | app.py:114 | Trimming both ends leaves nothing exactly when the string is blank. |
| PyStr.Prefix | app.py:120 | `s[:n]` is a prefix of `s` of length `min(len(s), n)`. |
| Extraction.Lines | app.py:90-91 | The accumulation `text += part + "\n"`, also at line 102: every part leaves at least its newline, and a non-empty run ends in a newline. Its exact length and layout are the next two rows. |
| Extraction.LinesLength | app.py:91 | The accumulated text has one character per character of the parts plus one newline per part. |
| Extraction.LinesAppend | app.py:90-91 | Accumulating two runs of parts gives the two accumulations joined, so a run's text is a prefix of the text of any longer run. |
| Extraction.LinesLayout | app.py:90-91 | Part `i` appears unchanged at its offset (earlier parts plus their newlines), and a newline follows it. |
| Extraction.FirstMissing | app.py:101-102 | The index of the first `None` unit: every earlier unit is `Some`, and the unit at the index is `None`. |
| Extraction.ExtractPdf | app.py:87-93 | The PDF path reports an error exactly when the parser raises. The kept text is a prefix of the whole document's text, and it is that whole text when the parser does not raise. |
| Extraction.Extract | app.py:85-104 | An upload declared as neither PDF nor DOCX extracts `""` with no error. |
| Extraction.ExtractDocx | app.py:95-104 | The DOCX path reports an error exactly when the parser raises, or when a `None` unit is reached before that point. |
| Extraction.PdfInOrder | app.py:87-91 | PDF extraction that does not raise has length equal to the page texts' total plus one per page. Page `i` sits at its offset followed by a newline, and a page without text contributes an empty string. |
| Extraction.DocxInOrder | app.py:95-102 | DOCX extraction that does not raise puts each paragraph at its offset followed by a newline, in order, so an empty paragraph adds a bare newline. |
| Extraction.PdfPartial | app.py:88-93 | When the PDF parser raises after `k` pages, an error is shown. The kept text is exactly the extraction of those `k` pages, and it is a prefix of the full document's text. |
| Extraction.DocxPartial | app.py:99-104 | When the DOCX parser raises after `k` paragraphs, an error is shown. The kept text is exactly the extraction of those `k` paragraphs, and it is a prefix of the full document's text. |
| Extraction.PdfMissingPageExample | app.py:91 | Pages `"Hello"`, no text, `"World"` give `"Hello\n\nWorld\n"`. |
| Extraction.DocxEmptyParagraphExample | app.py:102 | Paragraphs `"Title"`, `""`, `"Body"` give `"Title\n\nBody\n"`. |
| Prompts.GeneralQA | app.py:55-68 | The model is called exactly when the question is not blank, and then with the question unmodified. Otherwise a warning is shown. |
| Prompts.Summarize | app.py:113-127 | The model is called exactly when `file_text` is not blank. The request is the preamble followed by a prefix of `file_text` of length `min(len, 8000)`. Otherwise a warning is shown. |
| Prompts.DocumentQA | app.py:135-155 | The model is called exactly when both `file_text` and the question are not blank. A blank text shows only the hint, and a blank question draws a warning. The request is `"Document:\n"`, the first `min(len, 3000)` characters of the text, `"\n\nQuestion: "` and the whole question, in that order. |
| Session.Store | app.py:106-111 | Non-blank extracted text replaces `file_text`, and blank extracted text leaves it unchanged. |
| Session.Ingest | app.py:79-111 | Having no upload or an oversize upload leaves `file_text` unchanged. Otherwise `file_text` either stays the same or becomes the non-blank extracted text, and the latter happens whenever an accepted upload yields non-blank text. |
| Session.SessionText | app.py:36 | Within a run, `file_text` is either the initial `""` or a non-blank text. |
| Session.ScriptRun | app.py:36-155 | The legal question is handled as by `GeneralQA`, whatever the upload: it calls the model exactly when it is not blank, and sends it unmodified. A summary calls the model exactly when an accepted upload yields non-blank text. A document question calls it exactly when, in addition, the question is not blank. Whenever a document action calls the model, its request is built from exactly that upload's extracted text. |
| Session.NoDocumentNoCall | app.py:79-87 | A missing upload, an oversize upload or one of any other type leaves `file_text` as `""`, so no document action calls the model. |
| Session.PartialTextStored | app.py:88-93 | Non-blank text read before the PDF parser raised is stored, even though an error was shown. |
| Session.OnePageSummary | app.py:87-120 | For an accepted one-page PDF whose non-blank text fits the 8000-character budget, the summary request is the preamble, then the page text, then a newline. |
| Session.SummaryEndToEnd | app.py:87-120 | For a one-page PDF holding "Register under GST within 30 days.", the summary request is `"Summarize this document:\n\nRegister under GST within 30 days.\n"`. |

## Left out

- The Streamlit layout is not modelled: sidebar, tabs, spinners, buttons, markdown rendering and the footer. A run is modelled as one upload state plus exactly one pressed button; a run with no button pressed calls no model.
- The uploader's extension filter is not modelled. It is a widget option, and the model takes any declared MIME type.
- Loading the environment, checking the Gemini key and `st.stop()` are configuration and I/O.
- The Gemini client, `generate_content`, `response.text` and the API-error branch are not modelled. They are a network call, and an action's outcome stops at `Send(contents)`.
- PDF and DOCX parsing are not modelled. They are foreign libraries, so an upload carries their per-unit output and an optional failure point.
- The floating-point division in the size gate is not modelled. It becomes the exact quotient. Python's `int / int` is correctly rounded, and rounding is monotone and leaves 5 unchanged, so a quotient of at most 5 stays at most 5. A size above 5 × 2^20 bytes gives a quotient of at least 5 + 2^-20, which is itself a double, so it stays above 5. The comparison with 5 therefore agrees with the exact one for every size a file can have.
- Message wording is not modelled, and neither is the "Extracted Text" preview.
- Tab 3 with blank `file_text` shows an `st.info` hint instead of the question box. This is the outcome `Info`.
- State across runs is not modelled. The text stored in one run does not carry over to the next, since every run of the script starts again from `file_text = ""`.
- Strings are sequences of Unicode scalar values, as Python strings are sequences of code points. Lone surrogates, which Python strings can hold, are not modelled.
