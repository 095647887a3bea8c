/** The upload panel: the PDF file validator and the state the panel keeps
    while it validates a file, hands it to the application and asks the
    backend for a summary. Asynchronous completions (the validation's byte
    read, the 800 ms hand-over timer, the summarize request) enter as explicit
    events and oracle values. */
module PdfUpload {
  import opened Common
  import DocumentIcon

  type Byte = b: int | 0 <= b < 256

  /** A browser `File`: its name, declared MIME type and bytes (its `size` is
      the number of bytes). `readFails` says whether reading a slice of it
      raises, which only the browser knows. */
  datatype PdfFile = PdfFile(name: string, mimeType: string, content: seq<Byte>, readFails: bool)

  function Size(f: PdfFile): nat { |f.content| }

  const PdfMime: string := "application/pdf"

  /** 50 MiB. */
  const MaxSize: nat := 50 * 1024 * 1024

  /** The ASCII bytes of `%PDF-`. */
  const PdfMagic: seq<Byte> := [0x25, 0x50, 0x44, 0x46, 0x2D]

  /** The reason a file is refused, one per check. */
  datatype Rejection = BadExtension | BadMimeType | TooLarge | EmptyFile | BadSignature | Unreadable

  datatype Validation = Accepted | Refused(reason: Rejection)

  /** The fixed message shown for each refusal. */
  function Message(r: Rejection): (m: string)
    ensures m != ""
  {
    match r
    case BadExtension => "File must have .pdf extension"
    case BadMimeType => "Invalid file type. Please select a PDF file."
    case TooLarge => "File size exceeds 50MB limit"
    case EmptyFile => "File appears to be empty"
    case BadSignature => "File does not appear to be a valid PDF"
    case Unreadable => "Unable to read file contents"
  }

  lemma MessagesDistinct(r1: Rejection, r2: Rejection)
    ensures Message(r1) == Message(r2) ==> r1 == r2
  {
  }

  /** The name ends in `.pdf` once lower-cased. */
  predicate HasPdfExtension(name: string) {
    EndsWith(Lower(name), ".pdf")
  }

  /** The bytes a signature check reads: `file.slice(0, 8)`. */
  function HeadBytes(f: PdfFile): (h: seq<Byte>)
    ensures |h| == if Size(f) < 8 then Size(f) else 8
    ensures h == f.content[..|h|]
  {
    if |f.content| < 8 then f.content else f.content[..8]
  }

  /** The decoded bytes start with `%PDF-`. */
  predicate SignatureOk(head: seq<Byte>) {
    |head| >= 5 && head[..5] == PdfMagic
  }

  /** The file's content itself starts with `%PDF-`. */
  predicate IsPdfContent(content: seq<Byte>) {
    |content| >= 5 && content[..5] == PdfMagic
  }

  /** `validatePDFFile`: the checks run in a fixed order and the first that
      fails decides the answer. */
  function Validate(f: PdfFile): (v: Validation)
    ensures v == Accepted <==>
              && HasPdfExtension(f.name)
              && f.mimeType == PdfMime
              && 0 < Size(f) <= MaxSize
              && !f.readFails
              && IsPdfContent(f.content)
  {
    if !HasPdfExtension(f.name) then Refused(BadExtension)
    else if f.mimeType != PdfMime then Refused(BadMimeType)
    else if Size(f) > MaxSize then Refused(TooLarge)
    else if Size(f) == 0 then Refused(EmptyFile)
    else if f.readFails then Refused(Unreadable)
    else if !SignatureOk(HeadBytes(f)) then Refused(BadSignature)
    else Accepted
  }

  /** Reading eight bytes is enough: the signature test on the slice agrees with the
      check on the whole content. */
  lemma HeadSignatureIsContentSignature(f: PdfFile)
    ensures SignatureOk(HeadBytes(f)) <==> IsPdfContent(f.content)
  {
    var h := HeadBytes(f);
    if |h| >= 5 {
      assert h[..5] == f.content[..5];
    }
  }

  /** Each refusal happens exactly when every earlier check passed and its
      own check fails. */
  lemma FirstFailureDecides(f: PdfFile)
    ensures Validate(f) == Refused(BadExtension) <==> !HasPdfExtension(f.name)
    ensures Validate(f) == Refused(BadMimeType) <==>
              HasPdfExtension(f.name) && f.mimeType != PdfMime
    ensures Validate(f) == Refused(TooLarge) <==>
              HasPdfExtension(f.name) && f.mimeType == PdfMime && Size(f) > MaxSize
    ensures Validate(f) == Refused(EmptyFile) <==>
              HasPdfExtension(f.name) && f.mimeType == PdfMime && Size(f) == 0
    ensures Validate(f) == Refused(Unreadable) <==>
              HasPdfExtension(f.name) && f.mimeType == PdfMime && 0 < Size(f) <= MaxSize && f.readFails
    ensures Validate(f) == Refused(BadSignature) <==>
              HasPdfExtension(f.name) && f.mimeType == PdfMime && 0 < Size(f) <= MaxSize
              && !f.readFails && !IsPdfContent(f.content)
  {
    HeadSignatureIsContentSignature(f);
  }

  /** A name without the extension is refused for it, whatever the type,
      size and bytes of the file. */
  lemma ExtensionDecidesFirst(f: PdfFile, g: PdfFile)
    requires f.name == g.name && !HasPdfExtension(f.name)
    ensures Validate(f) == Validate(g) == Refused(BadExtension)
  {
  }

  /** The extension test ignores case: whatever the stem, a name ending in
      `.PDF`, `.Pdf`, ... passes it. */
  lemma ExtensionIgnoresCase(stem: string, ext: string)
    requires Lower(ext) == ".pdf"
    ensures HasPdfExtension(stem + ext)
  {
    LowerAppend(stem, ext);
    var l := Lower(stem + ext);
    assert l[|l| - 4..] == Lower(ext);
  }

  lemma UpperCaseNameAccepted()
    ensures HasPdfExtension("REPORT.PDF")
  {
    var ext := ".PDF";
    assert Lower(ext) == ".pdf" by {
      var l := Lower(ext);
      assert l[0] == '.' && l[1] == 'p' && l[2] == 'd' && l[3] == 'f';
    }
    assert "REPORT.PDF" == "REPORT" + ext;
    ExtensionIgnoresCase("REPORT", ext);
  }

  /** Exactly 50 MiB passes the size check; one byte more fails it. */
  lemma SizeBoundary(f: PdfFile)
    requires HasPdfExtension(f.name) && f.mimeType == PdfMime
    ensures MaxSize == 52428800
    ensures Size(f) == MaxSize ==> Validate(f) != Refused(TooLarge)
    ensures Size(f) == MaxSize + 1 ==> Validate(f) == Refused(TooLarge)
  {
  }

  /** An empty file is refused as empty before its bytes are read, so the
      read outcome does not matter. */
  lemma EmptyFileNeverRead(f: PdfFile)
    requires HasPdfExtension(f.name) && f.mimeType == PdfMime && Size(f) == 0
    ensures Validate(f) == Refused(EmptyFile)
    ensures Validate(f.(readFails := !f.readFails)) == Refused(EmptyFile)
  {
  }

  /** Once name, type and size pass, the file is valid iff the read succeeds
      and the bytes start with `%PDF-`; a file shorter than five bytes is
      refused, and a failing read gives the read message. */
  lemma SignatureDecides(f: PdfFile)
    requires HasPdfExtension(f.name) && f.mimeType == PdfMime && 0 < Size(f) <= MaxSize
    ensures Validate(f) == Accepted <==> !f.readFails && IsPdfContent(f.content)
    ensures f.readFails ==> Validate(f) == Refused(Unreadable)
    ensures !f.readFails && Size(f) < 5 ==> Validate(f) == Refused(BadSignature)
  {
    HeadSignatureIsContentSignature(f);
  }

  /** JavaScript truthiness of an optional string: present and non-empty. */
  predicate Truthy(s: Option<string>) {
    s.Some? && s.value != ""
  }

  /** How the summarize request ends: the response is not ok, the fetch or
      the JSON decoding throws, or the JSON payload arrives (its `summary`
      and `progress` fields may be missing). */
  datatype SummarizeReply =
    | HttpNotOk
    | Rejected(thrown: Thrown)
    | Payload(summary: Option<string>, progress: Option<int>)

  /** The upload panel's state, with the selected file that the application
      holds for it; `pendingSelections` are the files whose 800 ms hand-over
      timer has not fired yet, in firing order, and `summariesInFlight`
      counts summarize requests not yet settled. */
  class UploadPanel {
    var isDragOver: bool
    var isProcessing: bool
    var validationError: Option<string>
    var summary: Option<string>
    var progress: int
    var selectedFile: Option<PdfFile>
    var pendingSelections: seq<PdfFile>
    var summariesInFlight: nat

    /** The panel never shows "processing" with nothing outstanding. */
    ghost predicate Valid()
      reads this
    {
      isProcessing ==> |pendingSelections| > 0 || summariesInFlight > 0
    }

    constructor ()
      ensures Valid()
      ensures !isDragOver && !isProcessing && validationError == None && summary == None
      ensures progress == 0 && selectedFile == None
      ensures pendingSelections == [] && summariesInFlight == 0
    {
      isDragOver, isProcessing, validationError, summary := false, false, None, None;
      progress, selectedFile, pendingSelections, summariesInFlight := 0, None, [], 0;
    }

    /** The status dot of the document icon the panel renders, from the
        flags it passes: `!!validationError`, `!!summary`, `isProcessing`. */
    function IconDot(): (d: DocumentIcon.Indicator)
      reads this
      ensures d == DocumentIcon.ErrorDot <==> validationError.Some? && validationError.value != ""
      ensures d == DocumentIcon.SuccessDot <==>
                !Truthy(validationError) && summary.Some? && summary.value != ""
      ensures d == DocumentIcon.ProcessingDot <==>
                !Truthy(validationError) && !Truthy(summary) && isProcessing
    {
      DocumentIcon.StatusIndicator(Truthy(validationError), Truthy(summary), isProcessing)
    }

    /** `processFile`: validate, then either show the message or schedule
        the hand-over of the file. */
    method ProcessFile(f: PdfFile)
      requires Valid()
      modifies this`isProcessing, this`validationError, this`pendingSelections
      ensures Valid()
      ensures Validate(f).Refused? ==>
                && validationError == Some(Message(Validate(f).reason))
                && !isProcessing
                && pendingSelections == old(pendingSelections)
      ensures Validate(f) == Accepted ==>
                && validationError == None
                && isProcessing
                && pendingSelections == old(pendingSelections) + [f]
      ensures Validate(f).Refused? ==> IconDot() == DocumentIcon.ErrorDot
      ensures Validate(f) == Accepted ==> IconDot() != DocumentIcon.ErrorDot && IconDot() != DocumentIcon.NoDot
    {
      isProcessing := true;
      validationError := None;
      var v := Validate(f);
      if v.Refused? {
        validationError := Some(Message(v.reason));
        isProcessing := false;
        return;
      }
      pendingSelections := pendingSelections + [f];
    }

    /** The 800 ms timer of the oldest pending hand-over fires: the file
        becomes the selected file and processing ends. */
    method SelectionTimerFires()
      requires Valid() && pendingSelections != []
      modifies this`selectedFile, this`isProcessing, this`pendingSelections
      ensures Valid()
      ensures selectedFile == Some(old(pendingSelections)[0])
      ensures !isProcessing
      ensures pendingSelections == old(pendingSelections)[1..]
    {
      selectedFile := Some(pendingSelections[0]);
      isProcessing := false;
      pendingSelections := pendingSelections[1..];
    }

    method HandleDragOver()
      modifies this`isDragOver
      ensures isDragOver
    {
      isDragOver := true;
    }

    method HandleDragLeave()
      modifies this`isDragOver
      ensures !isDragOver
    {
      isDragOver := false;
    }

    /** `handleDrop`: only the first dropped file is processed; an empty
        drop only clears the drag highlight. */
    method HandleDrop(files: seq<PdfFile>)
      requires Valid()
      modifies this`isDragOver, this`isProcessing, this`validationError, this`pendingSelections
      ensures Valid() && !isDragOver
      ensures files == [] ==>
                && isProcessing == old(isProcessing)
                && validationError == old(validationError)
                && pendingSelections == old(pendingSelections)
      ensures files != [] ==>
                (if Validate(files[0]) == Accepted
                 then validationError == None && isProcessing
                      && pendingSelections == old(pendingSelections) + [files[0]]
                 else validationError == Some(Message(Validate(files[0]).reason)) && !isProcessing
                      && pendingSelections == old(pendingSelections))
    {
      isDragOver := false;
      if |files| == 0 {
        return;
      }
      ProcessFile(files[0]);
    }

    /** `handleFileInput`: the first chosen file, if any, is processed. */
    method HandleFileInput(files: seq<PdfFile>)
      requires Valid()
      modifies this`isProcessing, this`validationError, this`pendingSelections
      ensures Valid()
      ensures files == [] ==>
                && isProcessing == old(isProcessing)
                && validationError == old(validationError)
                && pendingSelections == old(pendingSelections)
      ensures files != [] ==>
                (if Validate(files[0]) == Accepted
                 then validationError == None && isProcessing
                      && pendingSelections == old(pendingSelections) + [files[0]]
                 else validationError == Some(Message(Validate(files[0]).reason)) && !isProcessing
                      && pendingSelections == old(pendingSelections))
    {
      if |files| > 0 {
        ProcessFile(files[0]);
      }
    }

    /** `handleRemoveFile`: clears the error and the selection; the summary
        and the progress stay as they were. */
    method HandleRemoveFile()
      modifies this`validationError, this`selectedFile
      ensures validationError == None && selectedFile == None
    {
      validationError := None;
      selectedFile := None;
    }

    /** The synchronous part of `handleSummarize`: nothing without a
        selected file; otherwise processing starts, the error clears and
        the progress goes to 0 and then to 30 before the request is sent.
        A request already in flight does not prevent another. */
    method StartSummarize()
      requires Valid()
      modifies this`isProcessing, this`validationError, this`progress, this`summariesInFlight
      ensures Valid()
      ensures old(selectedFile) == None ==>
                && isProcessing == old(isProcessing)
                && validationError == old(validationError)
                && progress == old(progress)
                && summariesInFlight == old(summariesInFlight)
      ensures old(selectedFile) != None ==>
                && isProcessing && validationError == None && progress == 30
                && summariesInFlight == old(summariesInFlight) + 1
    {
      if selectedFile == None {
        return;
      }
      isProcessing := true;
      validationError := None;
      progress := 0;
      progress := 30;
      summariesInFlight := summariesInFlight + 1;
    }

    /** A summarize request settles. Only a payload touches `summary` and
        `progress`; every other ending stores a message; processing ends on
        every path. */
    method FinishSummarize(reply: SummarizeReply)
      requires Valid() && summariesInFlight > 0
      modifies this`isProcessing, this`validationError, this`progress, this`summary, this`summariesInFlight
      ensures Valid() && !isProcessing
      ensures summariesInFlight == old(summariesInFlight) - 1
      ensures reply.Payload? ==>
                && summary == reply.summary
                && progress == (if reply.progress.Some? && reply.progress.value != 0
                                then reply.progress.value else 100)
                && validationError == old(validationError)
      ensures !reply.Payload? ==> summary == old(summary) && progress == old(progress)
      ensures reply.HttpNotOk? ==> validationError == Some("Failed to summarize PDF")
      ensures reply.Rejected? ==>
                validationError == Some(match reply.thrown
                                        case ErrorObject(m) => m
                                        case NonErrorValue => "An error occurred")
      ensures reply.HttpNotOk? ==> IconDot() == DocumentIcon.ErrorDot
      ensures reply.Payload? && Truthy(reply.summary) && !Truthy(old(validationError)) ==>
                IconDot() == DocumentIcon.SuccessDot
      ensures IconDot() != DocumentIcon.ProcessingDot
    {
      match reply {
        case HttpNotOk =>
        validationError := Some("Failed to summarize PDF");
      case Rejected(thrown) =>
        validationError := Some(match thrown
                                case ErrorObject(m) => m
                                case NonErrorValue => "An error occurred");
      case Payload(s, p) =>
        if p.Some? && p.value != 0 {
          progress := p.value;
        } else {
          progress := 100;
        }
        summary := s;
      }
      isProcessing := false;
      summariesInFlight := summariesInFlight - 1;
    }
  }
}
