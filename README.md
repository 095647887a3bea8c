# PDF2AI core logic in Dafny

This project models the sequential logic of six parts of PDF2AI: the PDF upload gate of the web front end, the document
icon's scan/expand state machine, the PDF viewer's toolbar, the backend connection test panel, the helpers of the
command-line CV analyser, and the script that converts generated components. Asynchronous parts become explicit
events or oracle inputs: timers, `fetch` results, PDF-load callbacks, animation frames, console input, language-model
answers and `json.loads`.

| file | module | models |
|---|---|---|
| `common.dfy` | `Common` | Python's `strip()` whitespace set, ASCII case folding, prefix/suffix tests, `indexOf` |
| `pdf_upload.dfy` | `PdfUpload` | `validatePDFFile`; the upload panel's state and handlers (`UploadPanel`) |
| `document_icon.dfy` | `DocumentIcon` | `sizeConfig`, the status dot; the icon's state, effects and handlers (`ScanIcon`) |
| `pdf_viewer.dfy` | `PdfViewer` | page stepping, rotation, disabled buttons, load callbacks (`Viewer`) |
| `connection_test.dfy` | `ConnectionTest` | the status record of `testConnection` and its three getters (`ConnectionPanel`) |
| `cv_scan.dfy` | `CvScan` | keyword parsing, job-advert input, set comparison, score band, fallback analysis, rows, prompts |
| `v0_converter.dfy` | `V0Converter` | `convertV0Component` as four left-to-right regular-expression scanners |

The React components whose state changes become classes. Each handler or callback is a method that names the fields
it may change. For the document icon, a render commit is a method (`RunEffects`) that runs the three effects in
declaration order. Each effect runs only when one of its dependencies changed since the last commit, and each reads
the rendered values. The validator, getters, keyword logic and converter are functions with lemmas about them. The
console loops of the CV analyser are methods with loop invariants, proved against reference functions
(`FirstStop`/`JobAdvert`, `MenuAnswer`, `AcceptedPath`).

Behaviour that the model shows as the code has it:
- nothing blocks a second summarize while one is in flight (`UploadPanel.StartSummarize`);
- a failed summary never ends the scan (`FailedSummaryKeepsScanning`);
- removing the file keeps `summary` and `progress` (`UploadPanel.HandleRemoveFile`).

A summary kept from an earlier request completes a new scan at once (`ScanIcon.Summarize`). A hide timer left over
from an earlier completion ends a scan restarted since (`ScanIcon.HideTimerFires`).

## Model

| member | source | states |
|---|---|---|
| `Common.Strip` | deepdfscan.py:71 | the result has no whitespace at either end, is what follows the leading whitespace run of the input with only whitespace after it, is empty iff the input is all whitespace, and is the input when that has no edge whitespace |
| `Common.Lower` | deepdfscan.py:71 | same length, each character case-folded on its own |
| `Common.FirstIndex` | scripts/convert-v0-component.js:23 | the leftmost position where the pattern occurs, or none when it occurs nowhere |
| `PdfUpload.Validate` | frontend/src/components/pdf/PDFUpload.tsx:24-60 | a file is accepted iff its name ends in `.pdf` in any case, its type is `application/pdf`, 0 < size <= 50 MiB, the read does not fail and the content starts with `%PDF-` |
| `PdfUpload.HeadSignatureIsContentSignature` | frontend/src/components/pdf/PDFUpload.tsx:47-52 | checking the 8-byte slice for `%PDF-` gives the same answer as checking the whole content |
| `PdfUpload.FirstFailureDecides` | frontend/src/components/pdf/PDFUpload.tsx:24-57 | each refusal happens exactly when all earlier checks pass and its own fails (extension, MIME, too large, empty, unreadable, signature) |
| `PdfUpload.MessagesDistinct` | frontend/src/components/pdf/PDFUpload.tsx:27-56 | the six refusal messages are pairwise different, so the message identifies the failed check |
| `PdfUpload.Message` | frontend/src/components/pdf/PDFUpload.tsx:27-56 | every refusal has a non-empty message |
| `PdfUpload.ExtensionDecidesFirst` | frontend/src/components/pdf/PDFUpload.tsx:26-28 | two files with the same name lacking `.pdf` are both refused for the extension, whatever their type, size and bytes |
| `PdfUpload.ExtensionIgnoresCase` | frontend/src/components/pdf/PDFUpload.tsx:26 | any stem followed by an extension that lower-cases to `.pdf` passes the extension test |
| `PdfUpload.UpperCaseNameAccepted` | frontend/src/components/pdf/PDFUpload.tsx:26 | `REPORT.PDF` passes the extension test |
| `PdfUpload.SizeBoundary` | frontend/src/components/pdf/PDFUpload.tsx:36-39 | the limit is 52428800 bytes; exactly that passes the size check, one byte more is refused as too large |
| `PdfUpload.EmptyFileNeverRead` | frontend/src/components/pdf/PDFUpload.tsx:42-44 | a size-0 file is refused as empty whatever the read would do |
| `PdfUpload.SignatureDecides` | frontend/src/components/pdf/PDFUpload.tsx:46-59 | once name, type and size pass: accepted iff the read succeeds and the bytes start with `%PDF-`; a failing read is refused as unreadable; fewer than 5 bytes is a bad signature |
| `PdfUpload.HeadBytes` | frontend/src/components/pdf/PDFUpload.tsx:48 | the bytes read are the first min(8, size) bytes of the content |
| `PdfUpload.UploadPanel.constructor` | frontend/src/components/pdf/PDFUpload.tsx:16-20 | the panel starts not dragging, not processing, with no error, no summary, progress 0 and nothing selected |
| `PdfUpload.UploadPanel.ProcessFile` | frontend/src/components/pdf/PDFUpload.tsx:62-84 | a refused file stores its message, ends processing, schedules nothing and shows the error dot; an accepted file clears the error, keeps processing, schedules exactly that file for hand-over and shows a success or processing dot |
| `PdfUpload.UploadPanel.SelectionTimerFires` | frontend/src/components/pdf/PDFUpload.tsx:76-79 | the oldest scheduled file becomes the selected file and processing ends |
| `PdfUpload.UploadPanel.HandleDragOver` | frontend/src/components/pdf/PDFUpload.tsx:86-89 | sets the drag highlight |
| `PdfUpload.UploadPanel.HandleDragLeave` | frontend/src/components/pdf/PDFUpload.tsx:91-94 | clears the drag highlight |
| `PdfUpload.UploadPanel.HandleDrop` | frontend/src/components/pdf/PDFUpload.tsx:96-105 | the highlight clears; an empty drop changes nothing else; otherwise only the first file is processed, with the outcome of `ProcessFile` |
| `PdfUpload.UploadPanel.HandleFileInput` | frontend/src/components/pdf/PDFUpload.tsx:107-114 | no file changes nothing; otherwise only the first file is processed |
| `PdfUpload.UploadPanel.HandleRemoveFile` | frontend/src/components/pdf/PDFUpload.tsx:116-119 | clears the error and the selection and nothing else, so summary and progress stay |
| `PdfUpload.UploadPanel.StartSummarize` | frontend/src/components/pdf/PDFUpload.tsx:129-141 | without a selected file nothing changes; otherwise processing starts, the error clears, progress is 30 and one more request is in flight, even with one already in flight |
| `PdfUpload.UploadPanel.FinishSummarize` | frontend/src/components/pdf/PDFUpload.tsx:149-167 | processing ends on every path, so the processing dot goes out; only a payload sets summary and progress (its progress if truthy, else 100), and a non-empty summary with no error shows the success dot; a non-ok response stores "Failed to summarize PDF" and shows the error dot; a throw stores its message or "An error occurred" |
| `PdfUpload.UploadPanel.IconDot` | frontend/src/components/pdf/PDFUpload.tsx:240-246 | the panel's document icon shows the error dot iff the validation error is non-empty, otherwise the success dot iff the summary is non-empty, otherwise the processing dot iff processing |
| `DocumentIcon.SizeConfig` | frontend/src/components/pdf/DocumentIcon.tsx:48-54 | every size is portrait and taller than the 4 px scan line |
| `DocumentIcon.SizeTable` | frontend/src/components/pdf/DocumentIcon.tsx:48-52 | sm 48×64, md 64×84, lg 80×104 |
| `DocumentIcon.StatusIndicator` | frontend/src/components/pdf/DocumentIcon.tsx:212-218 | error over success over processing over none, each case exactly characterised |
| `DocumentIcon.IndicatorColour` | frontend/src/components/pdf/DocumentIcon.tsx:212-218 | the dot is transparent exactly when no status applies |
| `DocumentIcon.ScanIcon.constructor` | frontend/src/components/pdf/DocumentIcon.tsx:33-54 | not scanning, line at 0, collapsed, menu hidden, no page count, page 1, height from the size table |
| `DocumentIcon.ScanIcon.RunEffects` | frontend/src/components/pdf/DocumentIcon.tsx:64-125 | one commit: completion only when the scan has started and the summary is there; on completion the frame is cancelled, the line goes to the bottom and a hide timer starts; a (re)started scan puts the line at the top and requests a frame |
| `DocumentIcon.ScanIcon.Settle` | frontend/src/components/pdf/DocumentIcon.tsx:64-125 | commits until no effect is due, with the combined outcome of the scan, detector and completion effects |
| `DocumentIcon.ScanIcon.Summarize` | frontend/src/components/pdf/DocumentIcon.tsx:237-241 | the scan is started and left incomplete before the parent is asked; it completes at once iff a summary is already on hand; one request per click when a handler exists |
| `DocumentIcon.ScanIcon.SuccessChanges` | frontend/src/components/pdf/DocumentIcon.tsx:102-106 | a scan completes only when it has started and success arrives; failure leaves it running |
| `DocumentIcon.ScanIcon.AnimationFrame` | frontend/src/components/pdf/DocumentIcon.tsx:69-88 | the line sits at fraction × (height − 4), within the track, and another frame is requested iff the fraction is below 1 |
| `DocumentIcon.ScanIcon.HideTimerFires` | frontend/src/components/pdf/DocumentIcon.tsx:120-123 | the scan is hidden and the line back at 0 while `scanComplete` stays, so the animation cannot restart by itself |
| `DocumentIcon.ScanIcon.HandleShow` | frontend/src/components/pdf/DocumentIcon.tsx:243-246 | hides the menu and expands |
| `DocumentIcon.ScanIcon.HandleExpandClick` | frontend/src/components/pdf/DocumentIcon.tsx:248-250 | toggles expansion |
| `DocumentIcon.ScanIcon.BackdropClick` | frontend/src/components/pdf/DocumentIcon.tsx:255 | always collapses |
| `DocumentIcon.ScanIcon.MouseEnter` | frontend/src/components/pdf/DocumentIcon.tsx:269 | shows the menu only while collapsed |
| `DocumentIcon.ScanIcon.MouseLeave` | frontend/src/components/pdf/DocumentIcon.tsx:270 | hides the menu only while collapsed |
| `DocumentIcon.ScanIcon.DocumentLoaded` | frontend/src/components/pdf/DocumentIcon.tsx:289 | records the page count; the page shown stays 1 |
| `DocumentIcon.ExpandTwice` | frontend/src/components/pdf/DocumentIcon.tsx:248-250 | two expand clicks leave the expansion as it was |
| `DocumentIcon.FailedSummaryKeepsScanning` | frontend/src/components/pdf/DocumentIcon.tsx:102-106 | summarize, a failed summary and frames to the end leave the scan started, incomplete, with the line at the bottom |
| `PdfViewer.PrevPage` | frontend/src/components/pdf/PDFViewer.tsx:38-40 | `max(1, page − 1)`: never below 1, one back from above 1, 1 from 1 or below |
| `PdfViewer.NextPage` | frontend/src/components/pdf/PDFViewer.tsx:42-44 | `min(numPages, page + 1)`: never above the page count, one forward below it, the page count from it or above; stays within 1..numPages |
| `PdfViewer.Rotate` | frontend/src/components/pdf/PDFViewer.tsx:54-56 | a quarter turn modulo 360, always in [0, 360) |
| `PdfViewer.RotateKeepsQuarterTurns` | frontend/src/components/pdf/PDFViewer.tsx:22 | from 0, 90, 180 or 270 rotation stays in that set |
| `PdfViewer.FourRotationsIdentity` | frontend/src/components/pdf/PDFViewer.tsx:54-56 | four rotations are the identity on [0, 360) |
| `PdfViewer.PrevDisabled` | frontend/src/components/pdf/PDFViewer.tsx:111 | on a page of at least 1, Previous is disabled exactly when pressing it would not move |
| `PdfViewer.NextDisabled` | frontend/src/components/pdf/PDFViewer.tsx:124 | up to the last page, Next is disabled exactly when pressing it would not move |
| `PdfViewer.EnabledButtonsStep` | frontend/src/components/pdf/PDFViewer.tsx:111-124 | an enabled Previous or Next button moves exactly one page; at page 1 Previous does nothing |
| `PdfViewer.Viewer.constructor` | frontend/src/components/pdf/PDFViewer.tsx:19-24 | no pages, page 1, rotation 0, loading, no error; both buttons disabled before load |
| `PdfViewer.Viewer.OnDocumentLoadSuccess` | frontend/src/components/pdf/PDFViewer.tsx:26-30 | stores the page count, ends loading and clears the error |
| `PdfViewer.Viewer.OnDocumentLoadError` | frontend/src/components/pdf/PDFViewer.tsx:32-36 | stores the fixed message, ends loading, and the document is no longer rendered |
| `PdfViewer.Viewer.GoToPrevPage` | frontend/src/components/pdf/PDFViewer.tsx:38-40 | only the page changes, to `PrevPage`, keeping 1 <= page <= numPages |
| `PdfViewer.Viewer.GoToNextPage` | frontend/src/components/pdf/PDFViewer.tsx:42-44 | only the page changes, to `NextPage`, keeping 1 <= page <= numPages |
| `PdfViewer.Viewer.RotateClockwise` | frontend/src/components/pdf/PDFViewer.tsx:54-56 | only the rotation changes, and it stays a quarter turn |
| `ConnectionTest.ErrorText` | frontend/src/components/test/BackendConnectionTest.tsx:42 | an Error's message, otherwise "Unknown error occurred" |
| `ConnectionTest.PhaseOf` | frontend/src/components/test/BackendConnectionTest.tsx:54-70 | loading first, then connected, then disconnected, each exactly characterised |
| `ConnectionTest.StatusColor` | frontend/src/components/test/BackendConnectionTest.tsx:54-58 | yellow while testing, green when connected, red when disconnected |
| `ConnectionTest.StatusIcon` | frontend/src/components/test/BackendConnectionTest.tsx:60-64 | the hourglass while testing, the check mark when connected, the cross when disconnected |
| `ConnectionTest.StatusText` | frontend/src/components/test/BackendConnectionTest.tsx:66-70 | "Testing connection...", "Backend Connected", "Backend Disconnected" in those phases |
| `ConnectionTest.HeaderDeterminesPhase` | frontend/src/components/test/BackendConnectionTest.tsx:54-70 | two records show the same colour (icon, text) iff they are in the same phase |
| `ConnectionTest.ConnectionPanel.constructor` | frontend/src/components/test/BackendConnectionTest.tsx:13-19 | the record starts disconnected, not loading, with nothing stored |
| `ConnectionTest.ConnectionPanel.StartTest` | frontend/src/components/test/BackendConnectionTest.tsx:22 | loading, no error, the rest kept; the header reads "testing" and no error panel shows |
| `ConnectionTest.ConnectionPanel.FinishTest` | frontend/src/components/test/BackendConnectionTest.tsx:24-46 | both answers: connected with both payloads; either throw: disconnected, both payloads cleared, error text stored; the success panel shows iff both answered with payloads |
| `CvScan.Split` | deepdfscan.py:71 | at least one piece and none contains the separator |
| `CvScan.JoinSplit` | deepdfscan.py:71 | joining the pieces with the separator gives the text back |
| `CvScan.SplitAppend` | deepdfscan.py:71 | the pieces of `a + sep + b` are those of `a` followed by those of `b` |
| `CvScan.SplitJoin` | deepdfscan.py:71 | splitting what was joined from separator-free pieces gives the pieces back |
| `CvScan.Normalize` | deepdfscan.py:71 | no empty entry survives and there is at most one per piece |
| `CvScan.NormalizeKeeps` | deepdfscan.py:71 | every piece that does not strip to nothing appears, stripped and lower-cased |
| `CvScan.NormalizeAddsNothing` | deepdfscan.py:71 | every entry is some piece stripped and lower-cased |
| `CvScan.KeepKeywords` | deepdfscan.py:72 | keeps exactly the entries longer than 2 made of letters and spaces |
| `CvScan.ParseKeywords` | deepdfscan.py:68-73 | an empty answer gives none; every result is a keyword |
| `CvScan.ParseMembers` | deepdfscan.py:71-72 | the results are exactly the comma-separated pieces, stripped and lower-cased, that then look like keywords |
| `CvScan.ParsePiece` | deepdfscan.py:71-72 | an answer without a comma gives its stripped, lower-cased text iff that looks like a keyword, else nothing |
| `CvScan.ParseKeepsOrder` | deepdfscan.py:71-72 | the keywords of `a,b` are those of `a` followed by those of `b` |
| `CvScan.NormalizedAreClean` | deepdfscan.py:71 | every parsed keyword is stripped and already lower-case |
| `CvScan.LowerIdempotent` | deepdfscan.py:71 | lower-casing twice is lower-casing once |
| `CvScan.FirstStop` | deepdfscan.py:88-101 | the first cancel or second consecutive blank line at or after a position, or the end |
| `CvScan.JobAdvert` | deepdfscan.py:85-108 | the console running out, a cancel, or a second consecutive blank line decides the outcome exactly; a captured advert has no surrounding whitespace |
| `CvScan.GetJobAdvertText` | deepdfscan.py:85-108 | the loop stops at the first stop and its result is `JobAdvert`: a cancel discards the lines, the first blank of a pair is kept, the lines are joined with newlines and stripped |
| `CvScan.MenuAnswer` | deepdfscan.py:298-310 | an interrupt means exit; a line gives an answer iff it strips to 1, 2 or 3, and those are summarise, compare and exit |
| `CvScan.GetUserChoice` | deepdfscan.py:296-310 | re-prompts over unanswered lines and returns the first answer; `None` only when the console runs out |
| `CvScan.AcceptedPath` | deepdfscan.py:267-284 | a line is accepted iff it is non-blank once stripped and its expansion exists and ends in `.pdf` in any case; the path is that expansion |
| `CvScan.GetPdfPath` | deepdfscan.py:264-284 | re-prompts over refused lines; an accepted path is non-empty, exists and ends in `.pdf` in any case |
| `CvScan.CompareKeywords` | deepdfscan.py:179-182 | matching and missing are disjoint, cover the job set, matches are all in the CV and missing none |
| `CvScan.CompareCounts` | deepdfscan.py:179-193 | the matching and missing counts add up to the number of job keywords |
| `CvScan.ScoreBand` | deepdfscan.py:196-207 | a band exists iff there are job keywords |
| `CvScan.BandIntervals` | deepdfscan.py:200-207 | exactly one band applies, on the percentage intervals <30, <50, <70, >=70 |
| `CvScan.BandMonotonic` | deepdfscan.py:196-207 | more matches never give a lower band |
| `CvScan.DistinctCard` | deepdfscan.py:144 | a list without duplicates has as many elements as its set |
| `CvScan.FallbackAnalysis` | deepdfscan.py:140-148 | min(5, n) critical and min(3, n) priority keywords, all from job − cv, the priority ones the first of the critical, no synonyms |
| `CvScan.KeywordAnalysis` | deepdfscan.py:136-148 | a parsed answer is returned as is; otherwise the fallback, whose keywords are all missing from the CV |
| `CvScan.LexTransitive` | deepdfscan.py:215 | string order is transitive |
| `CvScan.LexTotal` | deepdfscan.py:215 | two different strings are ordered one way or the other |
| `CvScan.LeastExists` | deepdfscan.py:215 | a non-empty set of strings has a least element |
| `CvScan.SortedOf` | deepdfscan.py:215 | `sorted` of a set lists each element once, strictly ascending |
| `CvScan.Rows` | deepdfscan.py:217-218 | rows of 1 to 4, all but the last exactly 4, that concatenate back to the list |
| `CvScan.MatchingRowsReadBack` | deepdfscan.py:213-219 | the printed rows read back as the sorted matches, strictly ascending, and hold exactly cv ∩ job |
| `V0Converter.HitAt` | scripts/convert-v0-component.js:17-73 | a match consumes 1..n characters; a literal matches iff the text starts with it; a bracketed match starts with its opening and ends at its closing character |
| `V0Converter.CopyBetween` | scripts/convert-v0-component.js:17-73 | a global replace copies a stretch where no match starts |
| `V0Converter.ReplaceAtFirstHit` | scripts/convert-v0-component.js:17-73 | a global replace copies up to the leftmost match, emits its replacement and resumes after it |
| `V0Converter.NoHitUnchanged` | scripts/convert-v0-component.js:17-73 | text where no match starts is returned unchanged |
| `V0Converter.BracketedMatch` | scripts/convert-v0-component.js:60-73 | `open[^c]*c` matches the opening, a run free of `c` and the first `c` after it, and emits from that run |
| `V0Converter.ExportReplaced` | scripts/convert-v0-component.js:17-20 | without the default export nothing changes; otherwise its first occurrence becomes the named signature and replacing resumes after it |
| `V0Converter.InterfaceInsertion` | scripts/convert-v0-component.js:23-36 | with `interface` or `type`, or without `import React`, nothing changes; otherwise only the first `import React` is replaced by the header and the rest of its line is kept |
| `V0Converter.InterfaceIdempotent` | scripts/convert-v0-component.js:23-36 | inserting the interface a second time changes nothing |
| `V0Converter.ClassAttributeRewritten` | scripts/convert-v0-component.js:60-67 | a closed, non-empty, quote-free class list after quote-free text becomes a style comment holding the class list |
| `V0Converter.RawWrapperMatches` | scripts/convert-v0-component.js:70-73 | without the class step, a demo wrapper tag followed by `>` would match the wrapper pattern |
| `V0Converter.WrapperRewrittenNotRemoved` | scripts/convert-v0-component.js:60-73 | a demo wrapper closed by a quote, after any text without a quote or a tag, is rewritten by the class step and then not removed: the text before it is kept and what follows starts with the rewritten tag, not with the removal comment |
| `V0Converter.QuoteFreeKept` | scripts/convert-v0-component.js:60-67 | the class step copies quote-free text before a tag |
| `V0Converter.TagFreeKept` | scripts/convert-v0-component.js:70-73 | the wrapper step copies text without a `<` |
| `V0Converter.StyledHeadKept` | scripts/convert-v0-component.js:70-73 | the wrapper step does not touch a rewritten tag |
| `V0Converter.ConvertV0Component` | scripts/convert-v0-component.js:13-76 | on a component that already mentions `interface` or `type` and has no default export, only the class and wrapper steps act |
| `V0Converter.ConvertUnchanged` | scripts/convert-v0-component.js:13-76 | text that mentions `interface` or `type` and matches none of the other patterns comes out unchanged |

## Left out

- Floating point: the log-shaped progress curve enters `ScanIcon.AnimationFrame` as an abstract fraction in [0, 1]. Zoom, `formatFileSize` and the printed percentage are not modelled. The summary payload's `progress` is an integer, where JSON allows a fraction or no number; the panel only stores it, and nothing the model shows reads it.
- CvScan.ScoreBand: compares `100 * matching` with `30 * total` (and 50, 70) exactly, where the source compares a floating-point percentage; the two can differ only by rounding at a boundary.
- Time: the 800 ms hand-over, the 500 ms pause, the 1 s hide timer and animation frames are explicit events; nothing measures time.
- The `progress` prop of the document icon is never read by it, so the icon model has no progress field.
- Browser and process I/O: object URLs, the download button, console printing, the converter's `main` (argv, files, `path.basename`) and its `console.log` are not modelled.
- `input()`, `os.path.expanduser` and `os.path.exists` are parameters. End of input (where `input()` raises `EOFError`) is an explicit outcome (`InputEnded`, `None`).
- The language model, PDF text extraction and `json.loads` are oracles: the keyword answer is a string input, the JSON outcome an `AnalysisReply`.
- The iteration order of `set(job) - set(cv)` is an `order` parameter that lists the set once each.
- `sorted` is specified by `SortedOf`, a ghost function defined by its properties, not by a sorting algorithm.
- Case folding and `isalpha` are ASCII only: JavaScript `toLowerCase`, Python `lower()` and `isalpha()` also map and accept non-ASCII letters. The length change of `lower()` on some non-ASCII letters is not modelled.
- `processFile`'s own `catch` branch (`PDFUpload.tsx:80-83`) cannot be reached, because `validatePDFFile` catches the only step that can throw and so never throws. The model leaves it out.
- The `validation.error || 'Invalid PDF file'` default (`PDFUpload.tsx:70`) never applies, because every refusal has a non-empty message (`Message`).
- The validator's `await` lets other events run between the validation steps and the result. The model treats validation as one step followed by the scheduled hand-over.
- The context menu calls an `onClose` that the icon never passes, which throws after the state updates are queued. The menu markup is not modelled.
- The mount-time `testConnection` call is `ConnectionPanel.StartTest` followed by `FinishTest`.
- The `tailwindToCss` table is never read by the converter, so nothing in the model stands for it.
- V0Converter.ConvertV0Component: requires a component name without `$`, since JavaScript would read `$&`, `$1`, ... in the replacement text as patterns.
- Rendering of the panels, buttons and icons beyond the predicates named above (`ButtonDisabled`, `MenuMounted`, `ScanLineDrawn`, `DocumentRendered`, `SuccessPanelShown`, `ErrorPanelShown`) is not modelled.
