# PDF page tools: a verified model of the page-sequence logic

The repository is a set of small Flask applications that split, merge, rotate,
number and extract pages of uploaded PDF files with PyPDF2 and reportlab, plus
a viewer that accepts PDF uploads. Four scripts carry the logic:
`combined.py` (all tools in one app), `T.py` (split, merge, page numbering and
text extraction), `app.py` (page numbering and page extraction) and
`Pdfviewer.py` (upload check for the viewer).

This Dafny project models what those scripts do to the sequence of pages:

- A document is the reader's page list, `seq<Page>`. A `Page` is an opaque
  handle with its `/Rotate` entry and the log of in-place edits a script
  applied to it (`page.rotate(...)`, `page.merge_page(overlay)`).
- An output document is a `Writer` class whose `pages: seq<Page>` field
  `AddPage` appends to, as `PdfWriter.add_page` does. Every tool is a method
  whose loop mirrors the Python loop over the pages. Each method fills a
  fresh writer and returns its pages.
- Each method is proved against a specification: a slice, a concatenation
  (`Flatten`), a filter (`KeptIndices`) or a per-page map.
- The small pure parts are functions with lemmas about them:
  - the page-number label and its anchor;
  - decimal text for numbers (`str(n)`, `int(s)`);
  - `str.split`/`str.join` on a comma;
  - `os.path.splitext` and the output-file names built from it;
  - the extension test `allowed_file`.

The three scripts disagree with each other, and each keeps its own variant in
its own module (`Combined`, `TScript`, `App`, `Pdfviewer`):

- `combined.py` does not clip the split range; `T.py` clips it to the page
  count.
- The "detailed" label is the number followed by ", " in `combined.py` and
  `app.py`, and the bare number in `T.py`.
- The label anchors are (10, 10), (270, 10), (500, 10) in `combined.py` and
  `app.py`, and (30, 30), (286, 30), (532, 30) in `T.py`.

The shared label format is in `Numbering`, parameterised by the "detailed"
suffix. The `page_numbering` and `extract_pages_route` handlers of
`combined.py` repeat `app.py`: they build their output names (lines 550 and
581) exactly as `app.py` does at lines 91 and 122, and parse the page list
(line 579) exactly as `app.py` does at line 120. So the `App` filename
members and `App.ParsePageList` cover both scripts.

Two behaviours of the code are worth stating plainly. `combined.py:355-356`
does not clip the split range: an end past the last page raises `IndexError`
at the first missing index, and `Combined.Splitter` returns that error.
`TScript.ProcessPdfSplit` models the clipping variant of `T.py:61`. The
rotate tool reads each page's `/Rotate` entry as stored, 0 when absent, and
reduces only the sum with the requested degree modulo 360. The model keeps
the stored value as it is.

## Model

| member | source | states |
|---|---|---|
| PdfModel.Writer.AddPage | combined.py:356 | `add_page` appends the page at the end and changes nothing else in the writer |
| PdfModel.Page.Rotated | combined.py:417 | a rotate request keeps the page's identity and the /Rotate value read from the file, and logs the requested angle after the earlier edits |
| PdfModel.Page.Stamped | combined.py:508 | merging an overlay keeps the page's identity and /Rotate entry and logs the overlay after the earlier edits |
| PdfModel.FlattenSnoc | combined.py:373-380 | appending one more document appends its pages after all earlier ones |
| PdfModel.FlattenLength | combined.py:373-380 | the merged page count is the sum of the documents' page counts |
| PdfModel.FlattenAt | combined.py:373-380 | page k of document j sits in the merge right after the pages of documents 0..j-1 |
| PdfModel.KeptIndices | combined.py:520-522 | the kept requests are no more than the requests, each below the page count and taken from the request list |
| PdfModel.KeptIndicesConcat | combined.py:520-522 | the filter works entry by entry: request order and repeats carry over to the output |
| PdfModel.KeptIndicesSingle | combined.py:521 | one request is kept exactly when it is below the page count |
| PdfModel.KeptIndicesAll | combined.py:520-522 | when every request is below the page count, every request is kept, in order |
| Combined.Splitter | combined.py:355-356 | for start >= 1: success exactly when start > end or end <= N; then the pages start-1 .. end-1 in order, end-start+1 of them, or none when start > end; otherwise IndexError at the first missing index |
| Combined.Merger | combined.py:373-380 | the output is the uploaded documents' pages concatenated in upload order; its length is the sum of the page counts |
| Combined.NormalizeDegree | combined.py:398 | the normalised degree lies in [0, 360) and is congruent to the input mod 360, negative inputs included |
| Combined.NewRotation | combined.py:414 | the requested angle lies in [0, 360) and is congruent to current rotation plus degree mod 360 |
| Combined.Rotate | combined.py:395-418 | one output page per input page, in order; page i is input page i with a request for (its /Rotate + degree mod 360) mod 360 |
| Combined.RotationsCompose | combined.py:398-414 | the angle formula composes: taking the angle requested for d1 as the new current rotation, a d2 request asks for the same angle as one d1 + d2 request, for all integers |
| Combined.ExtractText | combined.py:441-443 | the text is the page texts concatenated in page order with no separator; its length is the sum of theirs |
| Combined.RemovePage | combined.py:465-467 | for 1 <= k <= N, all pages but index k-1, in order, N-1 of them; for any other k the document unchanged |
| Combined.Anchor | combined.py:497-502 | left, middle and right anchor at (10,10), (270,10), (500,10); any other position has no anchor |
| Combined.AddPageNumbers | combined.py:478-513 | N output pages in input order; page i is input page i with its label for i of N merged at the position's anchor, or a blank overlay |
| Combined.ExtractPages | combined.py:516-522 | for non-negative requests, one output page per request below N, in request order with repeats, page j being the page the j-th kept request names |
| TScript.ProcessPdfSplit | T.py:56-67 | for start >= 1: the pages start-1 .. min(end, N)-1 in order, max(0, min(end, N)-start+1) of them; empty, never an error, when start > N or start > end |
| TScript.MergePdfs | T.py:69-84 | the output is the supplied documents' pages concatenated in supplied order; its length is the sum of the page counts |
| TScript.Anchor | T.py:40-45 | left (30,30), middle (612/2-20 = 286, 30), right (612-80 = 532, 30); any other position has no anchor |
| TScript.AddPageNumbers | T.py:22-54 | N, fixed before the loop, output pages in input order; page i carries T.py's label for i of N at the position's anchor |
| TScript.DetailedLabelIsPageNumber | T.py:34-35 | T.py's "detailed" label is the bare page number: it reads back as i+1 with nothing after it |
| TScript.ExtractText | T.py:360-364 | the text is the page texts concatenated in page order with no separator |
| TScript.NumberedFilenameInjective | T.py:305 | different upload names give different numbered output names |
| TScript.NumberedFilenameKeepsExtension | T.py:305 | "numbered_" before the upload name: for an upload name without directories, the numbered name keeps the upload's extension |
| App.Anchor | app.py:38-43 | left, middle and right anchor at (10,10), (270,10), (500,10); any other position has no anchor |
| App.AddPageNumbers | app.py:19-54 | N output pages in input order; page i is input page i with its label merged at the anchor, or a blank overlay for an unknown position |
| App.ExtractPages | app.py:57-66 | for non-negative requests, one output page per request below N, in request order with repeats |
| App.ExtractIndexZeroIsFirstPage | app.py:304 | a request for index 0 on a non-empty document selects exactly its first page |
| App.ParseAll | app.py:120 | `map(int, ...)` succeeds exactly when every piece parses, with one value per piece, in order |
| App.ParsePageList | app.py:120 | the parsed list has one entry per comma plus one, and parsing succeeds exactly when every piece is a number |
| App.EmptyPieceFails | app.py:120 | an empty piece ("1,,2", a trailing comma) makes the whole parse fail |
| App.NonNumericPieceFails | app.py:120 | a piece holding a character that is neither a digit nor a sign makes the whole parse fail |
| App.LetterPieceFails | app.py:120 | "1,a" is refused |
| App.PageListRoundTrip | app.py:120 | a list of numbers written with commas parses back to the same list |
| App.PageNumberedFilename | app.py:91 | whatever the upload's extension, the numbered output name ends in ".pdf" |
| App.ExtractedFilename | app.py:122 | whatever the upload's extension, the extracted output name ends in ".pdf" |
| App.PageNumberedFilenameSplits | app.py:91 | the numbered output name splits into the upload's root with "_page_numbered" and the extension ".pdf" |
| App.ExtractedFilenameSplits | app.py:122 | the extracted output name splits into the upload's root with "_extracted" and the extension ".pdf" |
| App.LastExtensionRemoved | app.py:91 | for any root and dot-free tag, root + tag + ".pdf" gives root + tag + "_page_numbered.pdf": dots inside the root are kept |
| App.LastExtensionOnly | app.py:91 | only the last extension is removed: "a.b.pdf" gives "a.b_page_numbered.pdf" |
| App.LeadingDotIsNoExtension | app.py:91 | a leading dot starts no extension: ".pdf" gives ".pdf_page_numbered.pdf" |
| Numbering.Label | app.py:30-35 | the label chosen by the numbering method: only a "detailed" label starts with a digit; every other method's label starts with "Page " |
| Numbering.LabelsDistinct | app.py:30-35 | two pages of one document never get the same label, for every numbering method |
| Numbering.SimpleLabelReadsBack | app.py:31 | "Page {i+1} of {N}": both numbers sit between the fixed words and read back as i+1 and N |
| Numbering.DetailedLabelReadsBack | app.py:33 | the "detailed" label is the page number followed by the suffix, and the number reads back as i+1 |
| Decimal.NatToString | app.py:31 | `str(n)` is a non-empty run of decimal digits with no leading zero |
| Decimal.NatRoundTrip | app.py:31 | reading back `str(n)` gives n |
| Decimal.NatToStringInjective | app.py:31 | different numbers are written differently |
| Decimal.NatToStringPrefixFree | combined.py:490-492 | a number written before text that does not start with a digit is recovered uniquely, and so is the text |
| Decimal.ParseNat | app.py:120 | parsing succeeds exactly on a non-empty run of ASCII digits |
| Decimal.ParseInt | app.py:120 | `int` succeeds exactly on a run of digits with at most one leading '+' or '-'; unsigned and '+' text gives the digits' value, '-' text its negation |
| Decimal.IntRoundTrip | app.py:120 | reading back `str(x)` gives x, negative x included |
| Strings.RFind | Pdfviewer.py:17 | the index of the last occurrence, or -1 exactly when there is none |
| Strings.LowerChar | Pdfviewer.py:17 | an ASCII upper-case letter becomes the same letter in lower case, any other character is unchanged, and the result is never upper-case |
| Strings.LowerHasNoUpper | Pdfviewer.py:17 | no upper-case ASCII letter survives `lower()` |
| Strings.LowerIdempotent | Pdfviewer.py:17 | lower-casing twice is lower-casing once |
| Strings.Split | app.py:120 | `split(',')` gives at least one piece and no piece holds a comma |
| Strings.JoinSplit | app.py:120 | joining the pieces with commas restores the text |
| Strings.SplitJoin | app.py:120 | splitting comma-joined comma-free pieces gives the pieces back |
| Strings.CountSplit | app.py:120 | the number of pieces is the number of commas plus one |
| Paths.Splitext | app.py:91 | root and extension concatenate back to the path |
| Paths.SplitextExtension | app.py:91 | a non-empty extension is the last dot and what follows it, holding no other dot and no '/', and the root's last component is not all dots |
| Paths.LeadingDotOnly | app.py:91 | a name whose only dot is its first character has no extension |
| Paths.PrefixKeepsExtension | T.py:305 | a directory-free prefix not starting with a dot, put before a directory-free name that has an extension, leaves that extension unchanged |
| Paths.TaggedNameSplits | app.py:122 | root + tag + ".pdf" splits back into root + tag and ".pdf" when the tag holds no dot or '/' |
| Pdfviewer.AllowedFile | Pdfviewer.py:16-17 | the test on the text after the last dot accepts a name exactly when it ends in "." and "pdf" in any letter case |
| Pdfviewer.NoDotRefused | Pdfviewer.py:17 | a name with no dot is refused |
| Pdfviewer.OnlyLastExtensionCounts | Pdfviewer.py:17 | "a.pdf.exe" is refused and "a.exe.pdf" allowed |
| Pdfviewer.ExtensionCaseIgnored | Pdfviewer.py:17 | "X.PDF" is allowed |
| Pdfviewer.EmptyExtensionRefusedEmptyStemAllowed | Pdfviewer.py:17 | "name." is refused and ".pdf" allowed |
| Pdfviewer.UploadFile | Pdfviewer.py:58-67 | the upload is saved and redirected exactly when a file part is present and its name is allowed; otherwise 400 with "No file part" or "Invalid file format" |

## Left out

- Flask plumbing: routes, `request.files`/`request.form`, `file.save`, `send_file`/`send_from_directory`, `abort` and the HTML/CSS templates. This is I/O and UI; form fields become method parameters.
- PyPDF2 and reportlab internals: parsing, writing, `merge_page`, canvas drawing, the 10pt Helvetica font and `extract_text`. These are foreign library calls. Pages are opaque values, an overlay is a (text, x, y) record, and page texts are given as a `seq<string>`.
- PdfModel.Page.Rotated: `rotation` is the /Rotate value read from the file; a logged rotate request does not update it. PyPDF2's `page.rotate` adds the angle to /Rotate, which the model does not follow, so a second rotate pass over the output is not modelled.
- Combined.Rotate: records the angle asked of `page.rotate` and not its effect. PyPDF2 adds the angle to the existing /Rotate and rejects non-multiples of 90, so the written /Rotate is not claimed to equal the requested angle.
- Combined.Splitter: requires start >= 1. The combined.py form accepts a start of 0 or less, and those pages are then read from the end through PyPDF2's negative list indexing, which is not modelled.
- TScript.ProcessPdfSplit: requires start >= 1, for the same reason; T.py's form asks for a start of at least 1.
- Combined.ExtractPages: requires every requested index to be non-negative. Negative entries pass the `< len` guard and select from the end through negative indexing, which is not modelled.
- App.ExtractPages: requires non-negative requested indices, for the same reason.
- Decimal.ParseInt: models Python's `int` on an optional sign and ASCII digits only. Surrounding whitespace, underscores and non-ASCII digits are treated as errors.
- Strings.Lower: lower-cases ASCII letters only; other Unicode case mappings are not modelled.
- Paths.Splitext: follows the POSIX path rules ('/' separator); the Windows rules of `ntpath` are not modelled.
- Pdfviewer.UploadFile: does not model `secure_filename`, the file save or the redirect target; only the decision and the status are modelled.
- The "No file part" and "No selected file" replies of the page-numbering and extract-pages handlers are Flask plumbing and are not modelled.
- `cleanup_old_files` and its `Timer` rescheduling in `T.py`: filesystem, wall-clock time and threads.
- Defects that stop the scripts from running are not modelled; the logic their text expresses is. These are `PyPDF2` used but not imported in `combined.py`, the missing `OUTPUT_FOLDER` and `HTML_TEMPLATE` settings there, and the indentation error and unfinished `try` in `T.py`.
- The page width `letter[0]` is the float 612.0. The anchors derived from it are whole numbers, so they are integers here.
