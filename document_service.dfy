/**
 * Document ingestion, after rag-service's DocumentService.uploadDocument.
 *
 * An upload is validated (filename present, extension on the allow-list), saved
 * under `documentId + "_" + filename`, parsed by the parser its extension selects,
 * split into segments, and each segment is embedded and appended to the embedding
 * store in order.  Progress events are sent along the way; sending one never
 * fails the upload.
 *
 * The parser, the splitter, the embedding model, the store's `add`, the file
 * system and the WebSocket topic are collaborators given as functions.
 * `Ingest` is the reference behaviour of one upload; `DocumentService.UploadDocument`
 * performs it step by step on the service's state and is proved to agree with it.
 *
 * Exceptions and progress messages are kept as values (`UploadError`, `Note`);
 * `UploadError.Message` and `Text` give the exact strings the service produces.
 */
module DocumentIngestion {
  import opened Wrappers
  import opened JavaText
  import JavaInt

  type Vector = seq<real>
  type Bytes = seq<int>

  /** The `status` strings of UploadProgressMessage. */
  datatype Status = Started | Saving | Parsing | Splitting | Embedding | Completed | Failed

  /** The class of the exception an upload ends with. */
  datatype ErrorKind = IllegalArgument | IO | Runtime

  /** Every exception an upload can end with; the last four carry the collaborator's message. */
  datatype UploadError =
    | InvalidFilename
    | TypeNotAllowed(ext: string)
    | UnsupportedType(ext: string)
    | SaveFailed(cause: string)
    | ParseFailed(cause: string)
    | EmbedFailed(cause: string)
    | AddFailed(cause: string)
  {
    function Kind(): ErrorKind {
      match this
      case InvalidFilename | TypeNotAllowed(_) | UnsupportedType(_) => IllegalArgument
      case SaveFailed(_) | ParseFailed(_) => IO
      case EmbedFailed(_) | AddFailed(_) => Runtime
    }

    /** `getMessage()` of the exception. */
    function Message(): string {
      match this
      case InvalidFilename => "Invalid filename"
      case TypeNotAllowed(ext) => "File type not allowed: " + ext
      case UnsupportedType(ext) => "Unsupported file type: " + ext
      case SaveFailed(m) => m
      case ParseFailed(m) => m
      case EmbedFailed(m) => m
      case AddFailed(m) => m
    }
  }

  /** The `message` of a progress event; `Text` renders it. */
  datatype Note =
    | UploadStarted
    | Rejected(reason: UploadError)
    | SavingFile
    | ParsingDocument
    | SplittingDocument
    | GeneratingEmbeddings(segments: nat)
    | ProcessingSegment(current: nat, total: nat)
    | ProcessedSuccessfully(segments: nat)
    | Aborted(reason: UploadError)

  function Text(note: Note): string {
    match note
    case UploadStarted => "Upload started"
    case Rejected(e) => e.Message()
    case SavingFile => "Saving file..."
    case ParsingDocument => "Parsing document..."
    case SplittingDocument => "Splitting into segments..."
    case GeneratingEmbeddings(n) => "Generating embeddings for " + NatToString(n) + " segments..."
    case ProcessingSegment(k, n) => "Processing segment " + NatToString(k) + " of " + NatToString(n)
    case ProcessedSuccessfully(n) => "Document processed successfully with " + NatToString(n) + " segments"
    case Aborted(e) => "Error: " + e.Message()
  }

  /** A rejected upload's event carries the exception's own message; a later failure prefixes it. */
  lemma FailureTexts(e: UploadError)
    ensures Text(Rejected(e)) == e.Message()
    ensures Text(Aborted(e)) == "Error: " + e.Message()
    ensures StartsWith(Text(Aborted(e)), "Error: ")
  {
    assert Text(Aborted(e))[..7] == "Error: ";
  }

  /** One UploadProgressMessage; the service never fills in `error`. */
  datatype ProgressEvent = ProgressEvent(
    documentId: string,
    filename: Option<string>,
    status: Status,
    currentSegment: int,
    totalSegments: int,
    progressPercentage: int,
    message: Note,
    error: Option<string>)

  datatype UploadResponse = UploadResponse(
    documentId: string,
    filename: string,
    size: int,
    message: string,
    segmentsCreated: int)

  /** The multipart file: its original name (possibly null), size and bytes. */
  datatype UploadedFile = UploadedFile(originalFilename: Option<string>, size: int, content: Bytes)

  /** The two parser implementations `parseDocument` can pick. */
  datatype Parser = PdfBox | Poi

  /**
   * The collaborators of one upload.  `save` copies the bytes to the upload
   * directory (Some(message) for an IOException); `parse` runs a parser;
   * `split` is the recursive(500, 50) splitter; `embed` and `add` are the
   * embedding model and the store (Some(message) when `add` throws); `deliver`
   * says whether the topic accepted an event.
   */
  datatype Collaborators = Collaborators(
    save: (string, Bytes) -> Option<string>,
    parse: (Parser, Bytes) -> Result<string, string>,
    split: string -> seq<string>,
    embed: string -> Result<Vector, string>,
    add: (Vector, string) -> Option<string>,
    deliver: ProgressEvent -> bool)

  // ----- pure helpers of the service -----

  /** `getFileExtension`: the text after the last '.', or "" when there is none. */
  function FileExtension(filename: string): string {
    var dot := LastIndexOf(filename, '.');
    if dot == -1 then "" else filename[dot + 1..]
  }

  /** The extension holds no '.', and with the last '.' it makes up the end of the name. */
  lemma FileExtensionSplits(filename: string)
    ensures '.' !in FileExtension(filename)
    ensures '.' !in filename ==> FileExtension(filename) == ""
    ensures '.' in filename ==> exists base :: filename == base + "." + FileExtension(filename)
  {
    var dot := LastIndexOf(filename, '.');
    if dot != -1 {
      assert filename == filename[..dot] + "." + filename[dot + 1..];
    }
  }

  const AllowedExtensions: seq<string> := ["pdf", "doc", "docx", "txt"]

  /** `isAllowedExtension`: the lower-cased extension is on the allow-list. */
  predicate IsAllowedExtension(ext: string) {
    Lower(ext) in AllowedExtensions
  }

  lemma EmptyExtensionRejected()
    ensures !IsAllowedExtension("")
  {
  }

  /** The `parseDocument` switch: only pdf, doc and docx have a parser. */
  function SelectParser(ext: string): Result<Parser, UploadError> {
    var lower := Lower(ext);
    if lower == "pdf" then Ok(PdfBox)
    else if lower == "doc" || lower == "docx" then Ok(Poi)
    else Err(UnsupportedType(ext))
  }

  /** PDFBox exactly for "pdf", POI exactly for "doc" and "docx", in any letter case; otherwise the extension is reported. */
  lemma SelectParserCases(ext: string)
    ensures SelectParser(ext) == Ok(PdfBox) <==> Lower(ext) == "pdf"
    ensures SelectParser(ext) == Ok(Poi) <==> Lower(ext) == "doc" || Lower(ext) == "docx"
    ensures SelectParser(ext).Err? ==> SelectParser(ext) == Err(UnsupportedType(ext))
  {
  }

  /** "txt" passes the allow-list but selects no parser. */
  lemma TxtIsAllowedButUnparsable(ext: string)
    requires Lower(ext) == "txt"
    ensures IsAllowedExtension(ext)
    ensures SelectParser(ext) == Err(UnsupportedType(ext))
    ensures SelectParser(ext).error.Message() == "Unsupported file type: " + ext
  {
  }

  /** `parseDocument`: the parser's failure is an IOException, a missing parser an IllegalArgumentException. */
  function ParseDocument(content: Bytes, ext: string, parse: (Parser, Bytes) -> Result<string, string>)
    : Result<string, UploadError>
  {
    match SelectParser(ext)
    case Err(e) => Err(e)
    case Ok(p) =>
      match parse(p, content)
      case Err(m) => Err(ParseFailed(m))
      case Ok(text) => Ok(text)
  }

  /** The name the upload is stored under. */
  function StoredFilename(documentId: string, filename: string): string {
    documentId + "_" + filename
  }

  /** Two uploads with distinct ids of the same length (UUID strings) never share a stored name. */
  lemma StoredFilenamesDistinct(id1: string, id2: string, f1: string, f2: string)
    requires |id1| == |id2| && (id1 != id2 || f1 != f2)
    ensures StoredFilename(id1, f1) != StoredFilename(id2, f2)
  {
    var s1, s2 := StoredFilename(id1, f1), StoredFilename(id2, f2);
    assert s1[..|id1|] == id1 && s2[..|id2|] == id2;
    assert s1[|id1| + 1..] == f1 && s2[|id2| + 1..] == f2;
  }

  /** Percentage of an embedding event: 30 plus the processed share of 70, rounded down. */
  function EmbeddingPercent(processed: nat, total: nat): int
    requires 0 < total && processed <= total
  {
    30 + processed * 70 / total
  }

  /** The percentage stays within 30..100 and reaches 100 exactly at the last segment. */
  lemma EmbeddingPercentRange(processed: nat, total: nat)
    requires 0 < total && processed <= total
    ensures 30 <= EmbeddingPercent(processed, total) <= 100
    ensures EmbeddingPercent(processed, total) == 100 <==> processed == total
  {
    assert processed * 70 <= total * 70;
    assert processed < total ==> processed * 70 < total * 70;
  }

  lemma MulMonotone(d: nat, x: nat, y: nat)
    requires x <= y
    ensures d * x <= d * y
  {
    assert d * y - d * x == d * (y - x);
  }

  lemma DivMonotone(a: nat, b: nat, d: nat)
    requires a <= b && 0 < d
    ensures a / d <= b / d
  {
    var qa, qb := a / d, b / d;
    if qa > qb {
      MulMonotone(d, qb + 1, qa);
      assert false;
    }
  }

  lemma EmbeddingPercentMonotone(a: nat, b: nat, total: nat)
    requires a <= b <= total && 0 < total
    ensures EmbeddingPercent(a, total) <= EmbeddingPercent(b, total)
  {
    assert a * 70 <= b * 70;
    DivMonotone(a * 70, b * 70, total);
  }

  /** The percentage exactly as the Java `int` expression computes it. */
  function JavaEmbeddingPercent(processed: nat, total: nat): (p: int)
    requires 0 < total <= JavaInt.MaxInt && processed <= total
    ensures JavaInt.InRange(p)
  {
    JavaInt.Add(30, JavaInt.Div(JavaInt.Mul(processed, 70), total))
  }

  /** With 30,678,338 segments the product overflows and the final event reports -39%. */
  lemma JavaPercentOverflows()
    ensures JavaEmbeddingPercent(30678338, 30678338) == -39
  {
    assert JavaInt.Mul(30678338, 70) == -2147483636;
    assert JavaInt.Div(-2147483636, 30678338) == -69;
  }

  /** Below the overflow bound the Java expression and EmbeddingPercent agree. */
  lemma JavaPercentAgrees(processed: nat, total: nat)
    requires 0 < total <= JavaInt.MaxInt && processed <= total
    requires processed * 70 <= JavaInt.MaxInt
    ensures JavaEmbeddingPercent(processed, total) == EmbeddingPercent(processed, total)
  {
    var product := processed * 70;
    assert JavaInt.Mul(processed, 70) == product;
    var share := product / total;
    assert JavaInt.Div(product, total) == share;
    EmbeddingPercentRange(processed, total);
    assert JavaInt.Add(30, share) == 30 + share;
  }

  /** An event is sent after every tenth segment and after the last. */
  predicate ShouldEmit(processed: nat, total: nat) {
    processed % 10 == 0 || processed == total
  }

  function Event(documentId: string, filename: Option<string>, status: Status,
                 current: int, total: int, percent: int, note: Note): ProgressEvent
  {
    ProgressEvent(documentId, filename, status, current, total, percent, note, None)
  }

  function StartedEvent(documentId: string, filename: Option<string>): ProgressEvent {
    Event(documentId, filename, Started, 0, 0, 0, UploadStarted)
  }

  /** The failed event of a rejected upload: sent before the `try`, with the exception's message. */
  function RejectedEvent(documentId: string, filename: Option<string>, e: UploadError): ProgressEvent {
    Event(documentId, filename, Failed, 0, 0, 0, Rejected(e))
  }

  function SavingEvent(documentId: string, filename: string): ProgressEvent {
    Event(documentId, Some(filename), Saving, 0, 0, 0, SavingFile)
  }

  function ParsingEvent(documentId: string, filename: string): ProgressEvent {
    Event(documentId, Some(filename), Parsing, 0, 0, 10, ParsingDocument)
  }

  function SplittingEvent(documentId: string, filename: string): ProgressEvent {
    Event(documentId, Some(filename), Splitting, 0, 0, 20, SplittingDocument)
  }

  function EmbeddingStartEvent(documentId: string, filename: string, n: nat): ProgressEvent {
    Event(documentId, Some(filename), Embedding, 0, n, 30, GeneratingEmbeddings(n))
  }

  function SegmentEvent(documentId: string, filename: string, processed: nat, total: nat): ProgressEvent
    requires 0 < total && processed <= total
  {
    Event(documentId, Some(filename), Embedding, processed, total, EmbeddingPercent(processed, total),
          ProcessingSegment(processed, total))
  }

  function CompletedEvent(documentId: string, filename: string, n: nat): ProgressEvent {
    Event(documentId, Some(filename), Completed, n, n, 100, ProcessedSuccessfully(n))
  }

  /** The failed event of the `catch` block. */
  function AbortedEvent(documentId: string, filename: string, e: UploadError): ProgressEvent {
    Event(documentId, Some(filename), Failed, 0, 0, 0, Aborted(e))
  }

  // ----- the reference behaviour of one upload -----

  /** What embedding the segments from index `i` on contributes: store entries, events, and the exception that stopped it. */
  datatype EmbedRun = EmbedRun(added: seq<(Vector, string)>, events: seq<ProgressEvent>, error: Option<UploadError>)

  /** One pass of the loop body: embed the `i`-th segment, add it, and report when due. */
  function Step(documentId: string, filename: string, segments: seq<string>, i: nat, c: Collaborators): EmbedRun
    requires i < |segments|
  {
    match c.embed(segments[i])
    case Err(m) => EmbedRun([], [], Some(EmbedFailed(m)))
    case Ok(v) =>
      match c.add(v, segments[i])
      case Some(m) => EmbedRun([], [], Some(AddFailed(m)))
      case None =>
        var ev := if ShouldEmit(i + 1, |segments|)
                  then [SegmentEvent(documentId, filename, i + 1, |segments|)] else [];
        EmbedRun([(v, segments[i])], ev, None)
  }

  /** The embedding loop from the `i`-th segment on (`i` segments already processed); the first exception ends it. */
  function EmbedFrom(documentId: string, filename: string, segments: seq<string>, i: nat, c: Collaborators)
    : EmbedRun
    requires i <= |segments|
    decreases |segments| - i
  {
    if i == |segments| then EmbedRun([], [], None)
    else
      var step := Step(documentId, filename, segments, i, c);
      if step.error.Some? then step
      else
        var rest := EmbedFrom(documentId, filename, segments, i + 1, c);
        EmbedRun(step.added + rest.added, step.events + rest.events, rest.error)
  }

  /** Concatenation is associative. */
  lemma Assoc<T>(a: seq<T>, b: seq<T>, c: seq<T>)
    ensures a + b + c == a + (b + c)
  {
  }

  /** Two single appends are one append of a pair. */
  lemma SnocTwice<T>(s: seq<T>, a: T, b: T)
    ensures s + [a] + [b] == s + [a, b]
  {
  }

  /** Everything one upload does: the stored file, the store entries, the events sent, and its result. */
  datatype UploadRun = UploadRun(
    savedAs: Option<string>,
    added: seq<(Vector, string)>,
    events: seq<ProgressEvent>,
    outcome: Result<UploadResponse, UploadError>)

  /** The `catch` block: one failed event, then the exception again. */
  function Abort(documentId: string, filename: string, savedAs: Option<string>, added: seq<(Vector, string)>,
                 events: seq<ProgressEvent>, e: UploadError): UploadRun
  {
    UploadRun(savedAs, added, events + [AbortedEvent(documentId, filename, e)], Err(e))
  }

  const SuccessMessage := "Document uploaded and processed successfully"

  /** The validation before the `try`: the IllegalArgumentException it throws, if any. */
  function Rejection(filename: Option<string>): Option<UploadError> {
    if filename.None? || filename.value == "" then Some(InvalidFilename)
    else if !IsAllowedExtension(FileExtension(filename.value)) then Some(TypeNotAllowed(FileExtension(filename.value)))
    else None
  }

  /** Splitting, embedding and completion, once the document's text is known. */
  function TextRun(file: UploadedFile, documentId: string, name: string, stored: string, text: string,
                   c: Collaborators): UploadRun
  {
    var segments := c.split(text);
    var n := |segments|;
    var head := [SplittingEvent(documentId, name), EmbeddingStartEvent(documentId, name, n)];
    var loop := EmbedFrom(documentId, name, segments, 0, c);
    match loop.error
    case Some(e) => Abort(documentId, name, Some(stored), loop.added, head + loop.events, e)
    case None =>
      UploadRun(Some(stored), loop.added, head + loop.events + [CompletedEvent(documentId, name, n)],
                Ok(UploadResponse(documentId, name, file.size, SuccessMessage, n)))
  }

  /** The `try` block from the saving event on; `parsed` is what `parseDocument` returns, used only once the file is saved. */
  function SaveRun(file: UploadedFile, documentId: string, name: string, parsed: Result<string, UploadError>,
                   c: Collaborators): UploadRun
  {
    var stored := StoredFilename(documentId, name);
    var saving := SavingEvent(documentId, name);
    match c.save(stored, file.content)
    case Some(m) => Abort(documentId, name, None, [], [saving], SaveFailed(m))
    case None =>
      var rest := ParsedRun(file, documentId, name, stored, parsed, c);
      UploadRun(rest.savedAs, rest.added, [saving] + rest.events, rest.outcome)
  }

  /** The `try` block once the file is saved as `stored`: the parsing event, then splitting and embedding. */
  function ParsedRun(file: UploadedFile, documentId: string, name: string, stored: string,
                     parsed: Result<string, UploadError>, c: Collaborators): UploadRun
  {
    var parsing := ParsingEvent(documentId, name);
    match parsed
    case Err(e) => Abort(documentId, name, Some(stored), [], [parsing], e)
    case Ok(text) =>
      var rest := TextRun(file, documentId, name, stored, text, c);
      UploadRun(rest.savedAs, rest.added, [parsing] + rest.events, rest.outcome)
  }

  /** uploadDocument, as a value: `documentId` stands for the random UUID. */
  function Ingest(file: UploadedFile, documentId: string, c: Collaborators): UploadRun {
    var filename := file.originalFilename;
    var started := StartedEvent(documentId, filename);
    match Rejection(filename)
    case Some(e) => UploadRun(None, [], [started, RejectedEvent(documentId, filename, e)], Err(e))
    case None =>
      var name := filename.value;
      var ext := FileExtension(name);
      var rest := SaveRun(file, documentId, name, ParseDocument(file.content, ext, c.parse), c);
      UploadRun(rest.savedAs, rest.added, [started] + rest.events, rest.outcome)
  }

  /** The events the topic actually received: the accepted ones, in the order they were sent. */
  function Delivered(events: seq<ProgressEvent>, deliver: ProgressEvent -> bool): (r: seq<ProgressEvent>)
    ensures |r| <= |events|
    ensures forall e :: e in r <==> e in events && deliver(e)
    ensures (forall k :: 0 <= k < |events| ==> deliver(events[k])) ==> r == events
  {
    if events == [] then []
    else
      var init := events[..|events| - 1];
      var last := events[|events| - 1];
      assert events == init + [last];
      Delivered(init, deliver) + (if deliver(last) then [last] else [])
  }

  lemma DeliveredSnoc(events: seq<ProgressEvent>, e: ProgressEvent, deliver: ProgressEvent -> bool)
    ensures Delivered(events + [e], deliver) == Delivered(events, deliver) + (if deliver(e) then [e] else [])
  {
    assert (events + [e])[..|events|] == events;
  }

  lemma {:induction false} DeliveredAppend(a: seq<ProgressEvent>, b: seq<ProgressEvent>, deliver: ProgressEvent -> bool)
    ensures Delivered(a + b, deliver) == Delivered(a, deliver) + Delivered(b, deliver)
    decreases |b|
  {
    if b != [] {
      var b' := b[..|b| - 1];
      var last := b[|b| - 1];
      assert a + b == (a + b') + [last];
      assert b == b' + [last];
      DeliveredSnoc(a + b', last, deliver);
      DeliveredSnoc(b', last, deliver);
      DeliveredAppend(a, b', deliver);
    } else {
      assert a + b == a;
    }
  }

  // ----- the service and its state -----

  class DocumentService {
    /** The embedding model, store, file system and topic the service was built with. */
    const collaborators: Collaborators
    /** The embedding store's entries, in the order they were added. */
    var store: seq<(Vector, string)>
    /** The upload directory: stored file name to content. */
    var files: map<string, Bytes>
    /** Every event handed to the messaging template, in order. */
    var sent: seq<ProgressEvent>

    /** The events the progress topic received: those it accepted, in order. */
    function Published(): (r: seq<ProgressEvent>)
      reads this
      ensures |r| <= |sent|
      ensures forall e :: e in r <==> e in sent && collaborators.deliver(e)
    {
      Delivered(sent, collaborators.deliver)
    }

    constructor (c: Collaborators)
      ensures collaborators == c && store == [] && files == map[] && sent == []
    {
      collaborators := c;
      store, files, sent := [], map[], [];
    }

    /**
     * sendProgress: the event is handed to the template; a refusal is logged
     * and swallowed, so only `Published()` depends on it.
     */
    method SendProgress(e: ProgressEvent)
      modifies this
      ensures sent == old(sent) + [e]
      ensures Published() == old(Published()) + (if collaborators.deliver(e) then [e] else [])
      ensures store == old(store) && files == old(files)
    {
      DeliveredSnoc(sent, e, collaborators.deliver);
      sent := sent + [e];
    }

    /** uploadDocument: the state changes and result are those of `Ingest`. */
    method UploadDocument(file: UploadedFile, documentId: string) returns (r: Result<UploadResponse, UploadError>)
      modifies this
      ensures var run := Ingest(file, documentId, collaborators);
        && r == run.outcome
        && store == old(store) + run.added
        && sent == old(sent) + run.events
        && Published() == old(Published()) + Delivered(run.events, collaborators.deliver)
        && files == (if run.savedAs.Some? then old(files)[run.savedAs.value := file.content] else old(files))
    {
      ghost var run := Ingest(file, documentId, collaborators);
      var filename := file.originalFilename;
      var started := StartedEvent(documentId, filename);
      SendProgress(started);
      var rejection := Rejection(filename);
      if rejection.Some? {
        SendProgress(RejectedEvent(documentId, filename, rejection.value));
        r := Err(rejection.value);
        assert run.events == [started, RejectedEvent(documentId, filename, rejection.value)];
      } else {
        var name := filename.value;
        var ext := FileExtension(name);
        r := SaveAndProcess(file, documentId, name, ext);
        ghost var rest := SaveRun(file, documentId, name, ParseDocument(file.content, ext, collaborators.parse), collaborators);
        assert run.events == [started] + rest.events;
        Assoc(old(sent), [started], rest.events);
      }
      DeliveredAppend(old(sent), run.events, collaborators.deliver);
    }

    /** The `try` block: save, parse, then split and embed; an exception sends a failed event and is rethrown. */
    method SaveAndProcess(file: UploadedFile, documentId: string, name: string, ext: string)
      returns (r: Result<UploadResponse, UploadError>)
      modifies this
      ensures var run := SaveRun(file, documentId, name, ParseDocument(file.content, ext, collaborators.parse), collaborators);
        && r == run.outcome
        && store == old(store) + run.added
        && sent == old(sent) + run.events
        && files == (if run.savedAs.Some? then old(files)[run.savedAs.value := file.content] else old(files))
    {
      var saving := SavingEvent(documentId, name);
      SendProgress(saving);
      var stored := StoredFilename(documentId, name);
      var saveError := collaborators.save(stored, file.content);
      if saveError.Some? {
        r := Err(SaveFailed(saveError.value));
        SendProgress(AbortedEvent(documentId, name, r.error));
        Assoc(old(sent), [saving], [AbortedEvent(documentId, name, r.error)]);
        return;
      }
      files := files[stored := file.content];
      r := ParseAndProcess(file, documentId, name, ext, stored);
      ghost var rest := ParsedRun(file, documentId, name, stored, ParseDocument(file.content, ext, collaborators.parse), collaborators);
      Assoc(old(sent), [saving], rest.events);
    }

    /** After the file is saved: the parsing event, the parse, then splitting and embedding. */
    method ParseAndProcess(file: UploadedFile, documentId: string, name: string, ext: string, stored: string)
      returns (r: Result<UploadResponse, UploadError>)
      modifies this
      ensures var run := ParsedRun(file, documentId, name, stored, ParseDocument(file.content, ext, collaborators.parse), collaborators);
        && r == run.outcome
        && store == old(store) + run.added
        && sent == old(sent) + run.events
        && files == old(files)
    {
      var parsing := ParsingEvent(documentId, name);
      SendProgress(parsing);
      var parsed := ParseDocument(file.content, ext, collaborators.parse);
      if parsed.Err? {
        r := Err(parsed.error);
        SendProgress(AbortedEvent(documentId, name, parsed.error));
        Assoc(old(sent), [parsing], [AbortedEvent(documentId, name, parsed.error)]);
        return;
      }
      r := SplitAndEmbed(file, documentId, name, stored, parsed.value);
      ghost var rest := TextRun(file, documentId, name, stored, parsed.value, collaborators);
      Assoc(old(sent), [parsing], rest.events);
    }

    /** From the splitting event to the completed event, or the failed one. */
    method SplitAndEmbed(file: UploadedFile, documentId: string, name: string, stored: string, text: string)
      returns (r: Result<UploadResponse, UploadError>)
      modifies this
      ensures var run := TextRun(file, documentId, name, stored, text, collaborators);
        && r == run.outcome
        && store == old(store) + run.added
        && sent == old(sent) + run.events
        && files == old(files)
    {
      var splitting := SplittingEvent(documentId, name);
      SendProgress(splitting);
      var segments := collaborators.split(text);
      var n := |segments|;
      var start := EmbeddingStartEvent(documentId, name, n);
      SendProgress(start);
      ghost var head := [splitting, start];
      var loopError := EmbedSegments(documentId, name, segments);
      ghost var loop := EmbedFrom(documentId, name, segments, 0, collaborators);
      SnocTwice(old(sent), splitting, start);
      Assoc(old(sent), head, loop.events);
      if loopError.Some? {
        r := Err(loopError.value);
        var failed := AbortedEvent(documentId, name, loopError.value);
        SendProgress(failed);
        Assoc(old(sent), head + loop.events, [failed]);
        return;
      }
      var completed := CompletedEvent(documentId, name, n);
      SendProgress(completed);
      r := Ok(UploadResponse(documentId, name, file.size, SuccessMessage, n));
      Assoc(old(sent), head + loop.events, [completed]);
    }

    /** The `for` loop over the segments: embed, add, count, and report every tenth and the last. */
    method EmbedSegments(documentId: string, name: string, segments: seq<string>)
      returns (error: Option<UploadError>)
      modifies this
      ensures var run := EmbedFrom(documentId, name, segments, 0, collaborators);
        && error == run.error
        && store == old(store) + run.added
        && sent == old(sent) + run.events
        && files == old(files)
    {
      var c := collaborators;
      var n := |segments|;
      ghost var whole := EmbedFrom(documentId, name, segments, 0, c);
      ghost var addedHere: seq<(Vector, string)> := [];
      ghost var eventsHere: seq<ProgressEvent> := [];
      var processed := 0;
      while processed < n
        invariant 0 <= processed <= n
        invariant store == old(store) + addedHere
        invariant sent == old(sent) + eventsHere
        invariant files == old(files)
        invariant var tail := EmbedFrom(documentId, name, segments, processed, c);
          && whole.added == addedHere + tail.added
          && whole.events == eventsHere + tail.events
          && whole.error == tail.error
      {
        ghost var tail := EmbedFrom(documentId, name, segments, processed, c);
        ghost var step := Step(documentId, name, segments, processed, c);
        error := EmbedSegment(documentId, name, segments, processed);
        Assoc(old(store), addedHere, step.added);
        Assoc(old(sent), eventsHere, step.events);
        if error.Some? {
          assert tail == step;
          return;
        }
        ghost var next := EmbedFrom(documentId, name, segments, processed + 1, c);
        assert tail == EmbedRun(step.added + next.added, step.events + next.events, next.error);
        Assoc(addedHere, step.added, next.added);
        Assoc(eventsHere, step.events, next.events);
        addedHere := addedHere + step.added;
        eventsHere := eventsHere + step.events;
        processed := processed + 1;
      }
      assert whole.added == addedHere && whole.events == eventsHere;
      return None;
    }

    /** The body of the `for` loop for the `i`-th segment. */
    method EmbedSegment(documentId: string, name: string, segments: seq<string>, i: nat)
      returns (error: Option<UploadError>)
      requires i < |segments|
      modifies this
      ensures var step := Step(documentId, name, segments, i, collaborators);
        && error == step.error
        && store == old(store) + step.added
        && sent == old(sent) + step.events
        && files == old(files)
    {
      var segment := segments[i];
      var embedded := collaborators.embed(segment);
      if embedded.Err? {
        return Some(EmbedFailed(embedded.error));
      }
      var addError := collaborators.add(embedded.value, segment);
      if addError.Some? {
        return Some(AddFailed(addError.value));
      }
      store := store + [(embedded.value, segment)];
      var processed := i + 1;
      if ShouldEmit(processed, |segments|) {
        SendProgress(SegmentEvent(documentId, name, processed, |segments|));
      }
      return None;
    }
  }
}
