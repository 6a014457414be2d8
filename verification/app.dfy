/** The browser session of the document assistant as a reducer. All the
    session's state lives in one immutable record; every user action and
    every network reply is an event. A step gives the next record and,
    where the handler issues one, the request it sends. Network replies
    are event parameters, and so is the poll closure's private counter.
    Timers, toasts, timestamps and logging are left out. */
module App {
  import opened Results
  import opened Text
  import opened FileValidation

  /** The `status` string: '' (here `Idle`), uploading, processing, ready, failed. */
  datatype Status = Idle | Uploading | Processing | Ready | Failed

  datatype Role = User | Assistant

  /** A conversation entry. The timestamp is left out. */
  datatype Message = Message(role: Role, content: string, isLoading: bool, isError: bool)

  /** Why a request failed: `timedOut` is the `ECONNABORTED` code, `status`
      the HTTP status when a response arrived, and `detail` and `message`
      the error body's detail and the error's message, "" when absent
      (JavaScript's `||` treats the empty string as absent too). */
  datatype RequestError = RequestError(timedOut: bool, status: Option<int>, detail: string, message: string)

  /** `error.response?.status >= 500`; a missing response compares false. */
  predicate IsServerError(e: RequestError) {
    e.status.Some? && e.status.value >= 500
  }

  /** Every state variable of the session. `jobId` is "" where App.js
      holds `null`: the guards only test its truthiness. */
  datatype Session = Session(
    selectedFile: Option<FileInfo>,
    fileValidation: Option<Validation>,
    jobId: string,
    status: Status,
    processingStage: string,
    processingProgress: int,
    uploadProgress: int,
    question: string,
    conversation: seq<Message>,
    isLoading: bool,
    isUploading: bool,
    networkError: bool,
    retryCount: nat)

  const Initial: Session := Session(None, None, "", Idle, "", 0, 0, "", [], false, false, false, 0)

  /** The requests the session sends to the server. */
  datatype Request =
    | UploadDocument(file: FileInfo)
    | AskDocument(documentId: string, question: string)
    | QueryStatus(jobId: string)

  datatype Transition = Transition(next: Session, sent: Option<Request>)

  function Quiet(s: Session): Transition {
    Transition(s, None)
  }

  // Texts the view shows as the processing stage.
  const PreparingStage := "Preparing document..."
  const UploadedStage := "Document uploaded successfully"
  const UploadTimeoutStage := "Upload timeout. Please try again."
  const ServerErrorStage := "Server error. Please try again later."
  const UploadFailedPrefix := "Upload failed: "
  const ReadyStage := "Ready to answer your questions!"
  const ProcessingFailedStage := "Document processing failed. Please try again."
  const ConnectionErrorStage := "Connection error. Please refresh and try again."
  /** The cosmetic labels a 'processing' poll reply cycles through. */
  const PollStages: seq<string> := [
    "Parsing document structure...",
    "Extracting content...",
    "Analyzing text patterns...",
    "Building knowledge base...",
    "Creating semantic index...",
    "Optimizing for search..."
  ]

  // Texts of an answer that failed, split at a sentence so that their first
  // characters stay visible to the verifier.
  const AskDetailPrefix := "Error: "
  const AskGenericError := "I apologize, " + "but I encountered an error processing your question."
  const AskTimeoutError := "The request timed out. " + "Please try asking a simpler question or check your connection."
  const AskServerError := "Server error. " + "Please try again in a moment."

  /** The progress a 'processing' reply may reach at most. */
  const ProgressCeiling := 80
  /** Consecutive poll errors tolerated before the session fails. */
  const PollErrorLimit := 3

  // Groups of fields that handlers leave alone.

  predicate SameDocument(s: Session, r: Session) {
    r.selectedFile == s.selectedFile && r.fileValidation == s.fileValidation
  }

  predicate SameChat(s: Session, r: Session) {
    r.conversation == s.conversation && r.question == s.question && r.isLoading == s.isLoading
  }

  predicate SameJob(s: Session, r: Session) {
    && r.jobId == s.jobId && r.status == s.status && r.processingStage == s.processingStage
    && r.processingProgress == s.processingProgress && r.retryCount == s.retryCount
  }

  predicate SameUpload(s: Session, r: Session) {
    r.uploadProgress == s.uploadProgress && r.isUploading == s.isUploading && r.networkError == s.networkError
  }

  /** A valid drop: `f` is selected and everything belonging to the previous
      document is reset; the stage text and the two in-flight flags are kept. */
  predicate FreshSelection(s: Session, r: Session, f: FileInfo) {
    && r.selectedFile == Some(f) && r.fileValidation == Some(ValidateFile(f))
    && r.jobId == "" && r.status == Idle && r.conversation == [] && r.question == ""
    && r.uploadProgress == 0 && r.processingProgress == 0 && !r.networkError && r.retryCount == 0
    && r.processingStage == s.processingStage && r.isLoading == s.isLoading && r.isUploading == s.isUploading
  }

  /** `onDrop`: a drop with rejections, or without a file, changes nothing; a
      file that fails validation changes only the stored validation; a valid
      file starts a fresh selection. */
  function OnDrop(s: Session, accepted: seq<FileInfo>, rejectedCount: nat): (r: Session)
    ensures rejectedCount > 0 || accepted == [] ==> r == s
    ensures rejectedCount == 0 && accepted != [] && !ValidateFile(accepted[0]).isValid ==>
      r.fileValidation == Some(ValidateFile(accepted[0])) && r.(fileValidation := s.fileValidation) == s
    ensures rejectedCount == 0 && accepted != [] && ValidateFile(accepted[0]).isValid ==>
      FreshSelection(s, r, accepted[0])
  {
    if rejectedCount > 0 || accepted == [] then s
    else
      var f := accepted[0];
      var v := ValidateFile(f);
      if !v.isValid then s.(fileValidation := Some(v))
      else s.(selectedFile := Some(f), fileValidation := Some(v), jobId := "", status := Idle,
              conversation := [], question := "", uploadProgress := 0, processingProgress := 0,
              networkError := false, retryCount := 0)
  }

  /** The button that discards the selected file. */
  function RemoveFile(s: Session): (r: Session)
    ensures r.selectedFile.None? && r.fileValidation.None?
    ensures SameChat(s, r) && SameJob(s, r) && SameUpload(s, r)
  {
    s.(selectedFile := None, fileValidation := None)
  }

  /** `handleUpload` runs only with a selected file whose validation passed. */
  predicate CanUpload(s: Session) {
    s.selectedFile.Some? && s.fileValidation.Some? && s.fileValidation.value.isValid
  }

  /** `handleUpload` up to sending the request: the session enters
      `Uploading` with a zero upload progress and a cleared network error. */
  function HandleUpload(s: Session): (t: Transition)
    ensures !CanUpload(s) ==> t == Quiet(s)
    ensures CanUpload(s) ==> t.sent == Some(UploadDocument(s.selectedFile.value))
    ensures CanUpload(s) ==>
      && t.next.status == Uploading && t.next.isUploading && t.next.uploadProgress == 0
      && !t.next.networkError && t.next.processingStage == PreparingStage
      && t.next.jobId == s.jobId && t.next.processingProgress == s.processingProgress
      && t.next.retryCount == s.retryCount && SameDocument(s, t.next) && SameChat(s, t.next)
  {
    if !CanUpload(s) then Quiet(s)
    else
      Transition(
        s.(isUploading := true, status := Uploading, processingStage := PreparingStage,
           uploadProgress := 0, networkError := false),
        Some(UploadDocument(s.selectedFile.value)))
  }

  /** `Math.round(loaded * 100 / total)`, computed exactly: the integer
      nearest to the percentage, halves rounding up. */
  function UploadPercent(loaded: nat, total: nat): (r: int)
    requires total > 0
    ensures 2 * total * r <= 200 * loaded + total < 2 * total * (r + 1)
    ensures loaded <= total ==> 0 <= r <= 100
  {
    RoundedPercentBounds(loaded, total);
    (200 * loaded + total) / (2 * total)
  }

  lemma RoundedPercentBounds(loaded: nat, total: nat)
    requires total > 0
    ensures var r := (200 * loaded + total) / (2 * total);
      && 2 * total * r <= 200 * loaded + total < 2 * total * (r + 1)
      && (loaded <= total ==> 0 <= r <= 100)
  {
    var n := 200 * loaded + total;
    var d := 2 * total;
    var r := n / d;
    assert n == d * r + n % d && 0 <= n % d < d;
    assert d * r <= n < d * r + d;
    assert d * (r + 1) == d * r + d;
    if loaded <= total && r > 100 {
      MultiplyMonotone(d, 101, r);
    }
  }

  lemma MultiplyMonotone(d: nat, a: int, b: int)
    requires a <= b
    ensures d * a <= d * b
  {
  }

  /** The `onUploadProgress` callback for `loaded` of `total` bytes sent:
      only the upload progress moves, to the rounded percentage. An event
      without a known total, or reporting more than the total, is not one
      the browser sends and changes nothing here. */
  function OnUploadProgress(s: Session, loaded: nat, total: nat): (r: Session)
    ensures r.(uploadProgress := s.uploadProgress) == s
    ensures 0 < total && loaded <= total ==>
      && 0 <= r.uploadProgress <= 100
      && 2 * total * r.uploadProgress <= 200 * loaded + total < 2 * total * (r.uploadProgress + 1)
    ensures !(0 < total && loaded <= total) ==> r == s
  {
    if 0 < total && loaded <= total then s.(uploadProgress := UploadPercent(loaded, total)) else s
  }

  /** The stage text after a failed upload: a timeout first, then a server
      error, then the error detail, the error message or a fixed text. The
      three kinds of failure are told apart by the text alone. */
  function UploadFailureStage(e: RequestError): (r: string)
    ensures r == UploadTimeoutStage <==> e.timedOut
    ensures r == ServerErrorStage <==> !e.timedOut && IsServerError(e)
    ensures !e.timedOut && !IsServerError(e) ==>
      && |r| > |UploadFailedPrefix| && r[..|UploadFailedPrefix|] == UploadFailedPrefix
      && (e.detail != "" ==> r[|UploadFailedPrefix|..] == e.detail)
      && (e.detail == "" && e.message != "" ==> r[|UploadFailedPrefix|..] == e.message)
    ensures !e.timedOut && !IsServerError(e) && e.detail == "" && e.message == "" ==>
      r == UploadFailedPrefix + "Upload failed"
  {
    assert UploadTimeoutStage[7] != UploadFailedPrefix[7] && ServerErrorStage[0] != UploadFailedPrefix[0];
    if e.timedOut then UploadTimeoutStage
    else if IsServerError(e) then ServerErrorStage
    else UploadFailedPrefix + (if e.detail != "" then e.detail else if e.message != "" then e.message else "Upload failed")
  }

  /** The upload's reply. Success binds the job and enters `Processing` at
      20%; any failure enters `Failed`, and only a server error that is not
      a timeout raises the network-error banner. */
  function UploadAnswered(s: Session, reply: Result<string, RequestError>): (r: Session)
    ensures !r.isUploading && SameDocument(s, r) && SameChat(s, r)
    ensures r.retryCount == s.retryCount && r.uploadProgress == s.uploadProgress
    ensures reply.Success? ==>
      && r.jobId == reply.value && r.status == Processing && r.processingProgress == 20
      && r.processingStage == UploadedStage && r.networkError == s.networkError
    ensures reply.Failure? ==>
      && r.status == Failed && r.jobId == s.jobId && r.processingProgress == s.processingProgress
      && r.processingStage == UploadFailureStage(reply.error)
      && (r.networkError <==> s.networkError || (!reply.error.timedOut && IsServerError(reply.error)))
  {
    match reply
    case Success(id) =>
      s.(jobId := id, status := Processing, processingStage := UploadedStage,
         processingProgress := 20, isUploading := false)
    case Failure(e) =>
      var failed := s.(status := Failed, isUploading := false, processingStage := UploadFailureStage(e));
      if !e.timedOut && IsServerError(e) then failed.(networkError := true) else failed
  }

  /** The assistant entry shown while an answer is pending. */
  const Placeholder := Message(Assistant, "", true, false)

  /** `handleAsk` ignores the click when the trimmed question is blank, no
      job is bound, or an answer is still pending. */
  predicate CanAsk(s: Session) {
    Trim(s.question) != "" && s.jobId != "" && !s.isLoading
  }

  /** `handleAsk` up to sending the request: the input is cleared, the
      trimmed question and a pending placeholder are appended together, and
      the trimmed question is sent for the bound job. */
  function HandleAsk(s: Session): (t: Transition)
    ensures !CanAsk(s) ==> t == Quiet(s)
    ensures CanAsk(s) ==>
      && t.next.conversation == s.conversation + [Message(User, Trim(s.question), false, false), Placeholder]
      && t.next.question == "" && t.next.isLoading
      && t.sent == Some(AskDocument(s.jobId, Trim(s.question)))
      && SameDocument(s, t.next) && SameJob(s, t.next) && SameUpload(s, t.next)
  {
    if !CanAsk(s) then Quiet(s)
    else
      var q := Trim(s.question);
      Transition(
        s.(question := "", isLoading := true,
           conversation := s.conversation + [Message(User, q, false, false), Placeholder]),
        Some(AskDocument(s.jobId, q)))
  }

  /** The text of a failed answer: a timeout first, then a server error,
      then the server's detail, and a general apology otherwise. Each case
      has a text of its own. */
  function AskErrorText(e: RequestError): (r: string)
    ensures r == AskTimeoutError <==> e.timedOut
    ensures r == AskServerError <==> !e.timedOut && IsServerError(e)
    ensures r == AskGenericError <==> !e.timedOut && !IsServerError(e) && e.detail == ""
    ensures !e.timedOut && !IsServerError(e) && e.detail != "" ==>
      |r| > |AskDetailPrefix| && r[..|AskDetailPrefix|] == AskDetailPrefix && r[|AskDetailPrefix|..] == e.detail
  {
    assert AskDetailPrefix[0] == 'E' && AskTimeoutError[0] == 'T' && AskServerError[0] == 'S'
      && AskGenericError[0] == 'I';
    if e.timedOut then AskTimeoutError
    else if IsServerError(e) then AskServerError
    else if e.detail != "" then AskDetailPrefix + e.detail
    else AskGenericError
  }

  /** `prev.slice(0, -1)`: everything but the last entry. */
  function DropLast<T>(xs: seq<T>): seq<T> {
    if xs == [] then [] else xs[..|xs| - 1]
  }

  /** The ask's reply replaces the last entry, whatever it is, by a settled
      assistant entry carrying the answer or the classified error, and
      clears the pending flag. */
  function AskAnswered(s: Session, reply: Result<string, RequestError>): (r: Session)
    ensures !r.isLoading && r.conversation != []
    ensures |r.conversation| == if s.conversation == [] then 1 else |s.conversation|
    ensures forall i :: 0 <= i < |r.conversation| - 1 ==> r.conversation[i] == s.conversation[i]
    ensures var last := r.conversation[|r.conversation| - 1];
      && last.role == Assistant && !last.isLoading && last.isError == reply.Failure?
      && last.content == (if reply.Success? then reply.value else AskErrorText(reply.error))
    ensures r.question == s.question && SameDocument(s, r) && SameJob(s, r) && SameUpload(s, r)
  {
    var answer := match reply
      case Success(text) => Message(Assistant, text, false, false)
      case Failure(e) => Message(Assistant, AskErrorText(e), false, true);
    s.(conversation := DropLast(s.conversation) + [answer], isLoading := false)
  }

  /** The poll effect is armed only while a job is bound and processing. */
  predicate PollingActive(s: Session) {
    s.jobId != "" && s.status == Processing
  }

  /** A tick of the poll timer: a status query for the bound job exactly
      when polling is active; the tick itself changes nothing. */
  function PollTick(s: Session): (t: Transition)
    ensures t.next == s
    ensures t.sent.Some? <==> PollingActive(s)
    ensures t.sent.Some? ==> t.sent.value == QueryStatus(s.jobId)
  {
    if PollingActive(s) then Transition(s, Some(QueryStatus(s.jobId))) else Quiet(s)
  }

  /** One poll reply. `pollCount` is the counter of the poll closure before
      this reply; the progress increment and the error limit read the
      current progress and retry count, as when the reply runs against the
      state the effect was armed with. A 'processing' reply advances the
      progress by at most ten toward 80 and never above it; 'complete' makes
      the session ready at 100%; 'failed' fails it at 0%; any other status
      is ignored. The stage text is the one the closure's counter points
      at after its increment. A transport error counts one more retry, and fails the
      session with the network banner once three retries had been counted. */
  function PollAnswered(s: Session, pollCount: nat, reply: Result<string, RequestError>): (r: Session)
    ensures SameDocument(s, r) && SameChat(s, r) && r.jobId == s.jobId
    ensures r.uploadProgress == s.uploadProgress && r.isUploading == s.isUploading
    ensures reply == Success("processing") ==>
      && r.processingProgress <= ProgressCeiling
      && (s.processingProgress <= ProgressCeiling ==> s.processingProgress <= r.processingProgress)
      && (s.processingProgress <= ProgressCeiling - 10 ==> r.processingProgress == s.processingProgress + 10)
      && (s.processingProgress >= ProgressCeiling - 10 ==> r.processingProgress == ProgressCeiling)
      && r.processingStage == PollStages[(pollCount + 1) % |PollStages|]
      && r.status == s.status && r.retryCount == s.retryCount && r.networkError == s.networkError
    ensures reply == Success("complete") ==>
      r.status == Ready && r.processingProgress == 100 && r.processingStage == ReadyStage
    ensures reply == Success("failed") ==>
      r.status == Failed && r.processingProgress == 0 && r.processingStage == ProcessingFailedStage
    ensures reply == Success("complete") || reply == Success("failed") ==>
      r.retryCount == s.retryCount && r.networkError == s.networkError
    ensures reply.Success? && reply.value !in {"processing", "complete", "failed"} ==> r == s
    ensures reply.Failure? ==> r.retryCount == s.retryCount + 1
    ensures reply.Failure? && s.retryCount < PollErrorLimit ==> r == s.(retryCount := s.retryCount + 1)
    ensures reply.Failure? && s.retryCount >= PollErrorLimit ==>
      && r.status == Failed && r.networkError && r.processingStage == ConnectionErrorStage
      && r.processingProgress == s.processingProgress
  {
    match reply
    case Success(newStatus) =>
      if newStatus == "processing" then
        var increment := Min(10, ProgressCeiling - s.processingProgress);
        s.(processingProgress := Min(s.processingProgress + increment, ProgressCeiling),
           processingStage := PollStages[(pollCount + 1) % |PollStages|])
      else if newStatus == "complete" then
        s.(status := Ready, processingStage := ReadyStage, processingProgress := 100)
      else if newStatus == "failed" then
        s.(status := Failed, processingStage := ProcessingFailedStage, processingProgress := 0)
      else s
    case Failure(_) =>
      var counted := s.(retryCount := s.retryCount + 1);
      if s.retryCount >= PollErrorLimit then
        counted.(status := Failed, processingStage := ConnectionErrorStage, networkError := true)
      else counted
  }

  function Min(a: int, b: int): int {
    if a <= b then a else b
  }

  /** `startNewSession`: back to the initial session, except that the two
      in-flight flags are not touched. */
  function StartNewSession(s: Session): (r: Session)
    ensures r.(isLoading := false, isUploading := false) == Initial
    ensures r.isLoading == s.isLoading && r.isUploading == s.isUploading
  {
    s.(selectedFile := None, fileValidation := None, jobId := "", status := Idle,
       processingStage := "", processingProgress := 0, conversation := [], question := "",
       uploadProgress := 0, networkError := false, retryCount := 0)
  }

  /** `clearConversation` empties the conversation and nothing else. */
  function ClearConversation(s: Session): (r: Session)
    ensures r.conversation == []
    ensures r.(conversation := s.conversation) == s
  {
    s.(conversation := [])
  }

  /** Typing into the question box. */
  function EditQuestion(s: Session, text: string): (r: Session)
    ensures r.question == text
    ensures r.(question := s.question) == s
  {
    s.(question := text)
  }

  /** `retryOperation`: only a failed session that still holds a file
      retries; it resets the retry counter and then runs `handleUpload`,
      whose own guard decides whether a request is sent. */
  function RetryOperation(s: Session): (t: Transition)
    ensures !(s.status == Failed && s.selectedFile.Some?) ==> t == Quiet(s)
    ensures s.status == Failed && s.selectedFile.Some? ==>
      && t.next.retryCount == 0
      && (t.sent.Some? <==> CanUpload(s))
      && (t.sent.Some? ==> t.sent == Some(UploadDocument(s.selectedFile.value)) && t.next.status == Uploading)
      && (t.sent.None? ==> t.next == s.(retryCount := 0))
  {
    if s.status == Failed && s.selectedFile.Some? then HandleUpload(s.(retryCount := 0)) else Quiet(s)
  }

  datatype ExportEntry = ExportEntry(role: Role, content: string)

  /** The exported document: the file's name and one entry per message.
      The export and per-message timestamps are left out. */
  datatype ExportData = ExportData(document: string, entries: seq<ExportEntry>)

  const UnknownDocument := "Unknown Document"

  /** `selectedFile?.name || 'Unknown Document'`: never empty, and the
      file's own name whenever it has one. */
  function DocumentName(s: Session): (r: string)
    ensures r != []
    ensures r == UnknownDocument || (s.selectedFile.Some? && r == s.selectedFile.value.name)
    ensures s.selectedFile.Some? && s.selectedFile.value.name != [] ==> r == s.selectedFile.value.name
  {
    if s.selectedFile.Some? && s.selectedFile.value.name != "" then s.selectedFile.value.name
    else UnknownDocument
  }

  /** `exportConversation`: nothing for an empty conversation (only a
      warning is shown); otherwise one entry per message, in order, with the
      same role and content. */
  function ExportConversation(s: Session): (r: Option<ExportData>)
    ensures r.None? <==> s.conversation == []
    ensures r.Some? ==> r.value.document == DocumentName(s)
    ensures r.Some? ==> |r.value.entries| == |s.conversation|
    ensures r.Some? ==> forall i :: 0 <= i < |s.conversation| ==>
      r.value.entries[i] == ExportEntry(s.conversation[i].role, s.conversation[i].content)
  {
    if s.conversation == [] then None
    else Some(ExportData(DocumentName(s), ExportEntries(s.conversation)))
  }

  function ExportEntries(conversation: seq<Message>): (r: seq<ExportEntry>)
    ensures |r| == |conversation|
    ensures forall i :: 0 <= i < |conversation| ==>
      r[i] == ExportEntry(conversation[i].role, conversation[i].content)
    decreases |conversation|
  {
    if conversation == [] then []
    else [ExportEntry(conversation[0].role, conversation[0].content)] + ExportEntries(conversation[1..])
  }

  /** Everything that can happen to a session. */
  datatype Event =
    | Drop(accepted: seq<FileInfo>, rejectedCount: nat)
    | Remove
    | Type(text: string)
    | Upload
    | UploadProgressed(loaded: nat, total: nat)
    | UploadReplied(uploadReply: Result<string, RequestError>)
    | Ask
    | AskReplied(askReply: Result<string, RequestError>)
    | Tick
    | PollReplied(pollCount: nat, pollReply: Result<string, RequestError>)
    | NewSession
    | Clear
    | Retry

  /** The reducer: one event applied to the current session. Only the
      user's upload, ask and retry and the poll timer send requests; a
      reply, a keystroke or any other action only changes the session. Each
      request carries what the session holds: the selected file, the bound
      job. */
  function Step(s: Session, e: Event): (r: Transition)
    ensures r.sent.Some? ==> e.Upload? || e.Ask? || e.Tick? || e.Retry?
    ensures r.sent.Some? && r.sent.value.UploadDocument? ==>
      (e.Upload? || e.Retry?) && s.selectedFile == Some(r.sent.value.file)
    ensures r.sent.Some? && r.sent.value.AskDocument? ==> e.Ask? && r.sent.value.documentId == s.jobId && s.jobId != ""
    ensures r.sent.Some? && r.sent.value.QueryStatus? ==> e.Tick? && r.sent.value.jobId == s.jobId && r.next == s
  {
    match e
    case Drop(accepted, rejectedCount) => Quiet(OnDrop(s, accepted, rejectedCount))
    case Remove => Quiet(RemoveFile(s))
    case Type(text) => Quiet(EditQuestion(s, text))
    case Upload => HandleUpload(s)
    case UploadProgressed(loaded, total) => Quiet(OnUploadProgress(s, loaded, total))
    case UploadReplied(reply) => Quiet(UploadAnswered(s, reply))
    case Ask => HandleAsk(s)
    case AskReplied(reply) => Quiet(AskAnswered(s, reply))
    case Tick => PollTick(s)
    case PollReplied(pollCount, reply) => Quiet(PollAnswered(s, pollCount, reply))
    case NewSession => Quiet(StartNewSession(s))
    case Clear => Quiet(ClearConversation(s))
    case Retry => RetryOperation(s)
  }

  /** The final session and every request sent along a sequence of events. */
  datatype Trace = Trace(final: Session, sent: seq<Request>)

  function Replay(s: Session, es: seq<Event>): Trace {
    Run(Step, s, es)
  }

  /** Replay with any reducer `step`. */
  function Run(step: (Session, Event) -> Transition, s: Session, es: seq<Event>): Trace
    decreases |es|
  {
    if es == [] then Trace(s, [])
    else
      var t := step(s, es[0]);
      var rest := Run(step, t.next, es[1..]);
      Trace(rest.final, Emitted(t) + rest.sent)
  }

  /** The request a transition sends, as a sequence of zero or one. */
  function Emitted(t: Transition): seq<Request> {
    if t.sent.Some? then [t.sent.value] else []
  }

  /** At most one placeholder exists: it is the last entry, and only while
      an answer is pending. */
  predicate PlaceholderLast(s: Session) {
    forall i :: 0 <= i < |s.conversation| && s.conversation[i].isLoading ==>
      i == |s.conversation| - 1 && s.isLoading
  }

  /** What every reachable session satisfies: both progress figures are
      percentages, and the placeholder is where it belongs. */
  predicate Inv(s: Session) {
    0 <= s.processingProgress <= 100 && 0 <= s.uploadProgress <= 100 && PlaceholderLast(s)
  }

  lemma InitialInv()
    ensures Inv(Initial)
  {
  }

  lemma HandleAskKeepsInv(s: Session)
    requires Inv(s)
    ensures Inv(HandleAsk(s).next)
  {
  }

  lemma AskAnsweredKeepsInv(s: Session, reply: Result<string, RequestError>)
    requires Inv(s)
    ensures Inv(AskAnswered(s, reply))
  {
  }

  lemma PollAnsweredKeepsInv(s: Session, pollCount: nat, reply: Result<string, RequestError>)
    requires Inv(s)
    ensures Inv(PollAnswered(s, pollCount, reply))
  {
  }

  /** Every event keeps the invariant. */
  lemma StepPreservesInv(s: Session, e: Event)
    requires Inv(s)
    ensures Inv(Step(s, e).next)
  {
    match e
    case Ask => HandleAskKeepsInv(s);
    case AskReplied(reply) => AskAnsweredKeepsInv(s, reply);
    case PollReplied(pollCount, reply) => PollAnsweredKeepsInv(s, pollCount, reply);
    case _ =>
  }

  /** Every sequence of events from a session satisfying the invariant ends
      in one that satisfies it. */
  lemma {:induction false} ReplayPreservesInv(s: Session, es: seq<Event>)
    requires Inv(s)
    ensures Inv(Replay(s, es).final)
    decreases |es|
  {
    if es != [] {
      StepPreservesInv(s, es[0]);
      ReplayPreservesInv(Step(s, es[0]).next, es[1..]);
    }
  }

  /** Only a valid drop selects a file when none is selected. */
  lemma OnlyValidDropSelects(s: Session, e: Event)
    requires s.selectedFile.None? && Step(s, e).next.selectedFile.Some?
    ensures e.Drop? && e.rejectedCount == 0 && e.accepted != []
    ensures ValidateFile(e.accepted[0]).isValid
    ensures Step(s, e).next.selectedFile == Some(e.accepted[0])
  {
  }

  /** A session becomes ready only on a 'complete' poll reply. */
  lemma ReadyOnlyOnComplete(s: Session, e: Event)
    requires s.status != Ready && Step(s, e).next.status == Ready
    ensures e.PollReplied? && e.pollReply == Success("complete")
  {
  }

  /** A session fails only on a failed upload, a 'failed' poll reply, or a
      poll error after three counted retries. */
  lemma FailedOnlyOn(s: Session, e: Event)
    requires s.status != Failed && Step(s, e).next.status == Failed
    ensures || (e.UploadReplied? && e.uploadReply.Failure?)
            || (e.PollReplied? && e.pollReply == Success("failed"))
            || (e.PollReplied? && e.pollReply.Failure? && s.retryCount >= PollErrorLimit)
  {
  }

  /** A question is sent only for a bound job, and it is never blank and
      never starts or ends with white space. */
  lemma AskSendsTrimmedQuestion(s: Session, e: Event)
    requires Step(s, e).sent.Some? && Step(s, e).sent.value.AskDocument?
    ensures e.Ask? && s.jobId != "" && !s.isLoading
    ensures var q := Step(s, e).sent.value.question;
      q == Trim(s.question) && |q| >= 1 && !IsJsSpace(q[0]) && !IsJsSpace(q[|q| - 1])
    ensures Step(s, e).sent.value.documentId == s.jobId
  {
    assert e == Ask;
    StepAsk(s);
  }

  /** A second ask while the first answer is pending sends nothing and adds
      nothing: one request, one question and one placeholder. */
  lemma SecondAskIsIgnored(s: Session, text: string)
    requires CanAsk(s)
    ensures var trace := Replay(s, [Ask, Type(text), Ask]);
      && |trace.sent| == 1
      && trace.final.conversation == s.conversation + [Message(User, Trim(s.question), false, false), Placeholder]
  {
    RunThree(Step, s, Ask, Type(text), Ask);
    StepAsk(s);
    TypingWhilePendingIsQuiet(HandleAsk(s).next, text);
  }

  /** While an answer is pending, typing and asking again sends nothing and
      leaves the conversation as it was. */
  lemma TypingWhilePendingIsQuiet(s: Session, text: string)
    requires s.isLoading
    ensures var trace := Replay(s, [Type(text), Ask]);
      trace.sent == [] && trace.final.conversation == s.conversation
  {
    var s1 := EditQuestion(s, text);
    StepType(s, text);
    StepAsk(s1);
    ReplayTwo(s, Type(text), Ask);
  }

  lemma StepType(s: Session, text: string)
    ensures Step(s, Type(text)) == Quiet(EditQuestion(s, text))
  {
  }

  /** Polling that sees the job processing, processing and then complete
      sends three status queries, and the session ends ready at 100%; a
      tick after that sends nothing. */
  lemma PollingUntilComplete(s: Session)
    requires PollingActive(s)
    ensures var trace := Replay(s, PollEvents());
      && trace.sent == [QueryStatus(s.jobId), QueryStatus(s.jobId), QueryStatus(s.jobId)]
      && trace.final.status == Ready && trace.final.processingProgress == 100
      && trace.final.jobId == s.jobId && SameChat(s, trace.final)
  {
    ProcessingThen(s, ProcessingRound() + (CompleteRound() + [Tick]));
    ProcessingThenComplete(PollAnswered(s, 0, Success("processing")));
  }

  /** The last two rounds of `PollEvents`. */
  lemma ProcessingThenComplete(s: Session)
    requires PollingActive(s)
    ensures var trace := Replay(s, ProcessingRound() + (CompleteRound() + [Tick]));
      && trace.sent == [QueryStatus(s.jobId), QueryStatus(s.jobId)]
      && trace.final.status == Ready && trace.final.processingProgress == 100
      && trace.final.jobId == s.jobId && SameChat(s, trace.final)
  {
    ProcessingThen(s, CompleteRound() + [Tick]);
    CompleteThenTick(PollAnswered(s, 0, Success("processing")));
  }

  /** A 'processing' round keeps polling armed for the same job, whatever
      events follow. */
  lemma ProcessingThen(s: Session, rest: seq<Event>)
    requires PollingActive(s)
    ensures var r := PollAnswered(s, 0, Success("processing"));
      var n := Replay(r, rest);
      && PollingActive(r) && r.jobId == s.jobId && SameChat(s, r)
      && Replay(s, ProcessingRound() + rest) == Trace(n.final, [QueryStatus(s.jobId)] + n.sent)
  {
    PollRound(s, Success("processing"));
    ReplayConcat(s, ProcessingRound(), rest);
  }

  /** A 'complete' round makes the session ready at 100%, after which a
      tick sends nothing. */
  lemma CompleteThenTick(s: Session)
    requires PollingActive(s)
    ensures var trace := Replay(s, CompleteRound() + [Tick]);
      && trace.sent == [QueryStatus(s.jobId)]
      && trace.final.status == Ready && trace.final.processingProgress == 100
      && trace.final.jobId == s.jobId && SameChat(s, trace.final)
  {
    var r := PollAnswered(s, 0, Success("complete"));
    PollRound(s, Success("complete"));
    StepTick(r);
    ReplayCons(r, Tick, []);
    ReplayConcat(s, CompleteRound(), [Tick]);
  }

  /** One round of polling while it is armed: a tick sends one status query
      and the reply is applied. */
  lemma PollRound(s: Session, reply: Result<string, RequestError>)
    requires PollingActive(s)
    ensures Replay(s, [Tick, PollReplied(0, reply)]) == Trace(PollAnswered(s, 0, reply), [QueryStatus(s.jobId)])
  {
    StepTick(s);
    StepPollReplied(s, 0, reply);
    ReplayTwo(s, Tick, PollReplied(0, reply));
  }

  lemma StepTick(s: Session)
    ensures Step(s, Tick) == PollTick(s)
  {
  }

  lemma StepPollReplied(s: Session, pollCount: nat, reply: Result<string, RequestError>)
    ensures Step(s, PollReplied(pollCount, reply)) == Quiet(PollAnswered(s, pollCount, reply))
  {
  }

  /** Poll errors while processing: the first three are only counted; the
      fourth fails the session with the network banner, and polling stops. */
  lemma FourthPollErrorFails(s: Session, e: RequestError)
    requires PollingActive(s) && s.retryCount == 0
    ensures var s3 := PollAnswered(PollAnswered(PollAnswered(s, 0, Failure(e)), 0, Failure(e)), 0, Failure(e));
      && s3.status == Processing && s3.retryCount == 3
      && var s4 := PollAnswered(s3, 0, Failure(e));
      && s4.status == Failed && s4.networkError && !PollingActive(s4)
  {
  }

  /** A 'processing' reply that arrives after the job was reported complete
      (replies are not matched to the current state) leaves the session ready
      but pulls its progress back from 100 to 80. */
  lemma LateProcessingReplyAfterReady(s: Session, pollCount: nat)
    requires s.status == Ready && s.processingProgress == 100
    ensures var r := PollAnswered(s, pollCount, Success("processing"));
      r.status == Ready && r.processingProgress == ProgressCeiling
  {
  }

  /** A poll reply applied only while polling is still armed, as the effect
      evidently intends: once the session has left `Processing`, a reply
      still in flight is dropped. */
  function GuardedPollAnswered(s: Session, pollCount: nat, reply: Result<string, RequestError>): (r: Session)
    ensures !PollingActive(s) ==> r == s
    ensures PollingActive(s) ==> r == PollAnswered(s, pollCount, reply)
  {
    if PollingActive(s) then PollAnswered(s, pollCount, reply) else s
  }

  /** With the guard, a ready session stays ready at 100% whatever poll
      reply arrives late, while an armed poll sees the replies as before. */
  lemma GuardedPollKeepsReady(s: Session, pollCount: nat, reply: Result<string, RequestError>)
    requires s.status == Ready && s.processingProgress == 100
    ensures GuardedPollAnswered(s, pollCount, reply).status == Ready
    ensures GuardedPollAnswered(s, pollCount, reply).processingProgress == 100
    ensures PollAnswered(s, pollCount, Success("processing")).processingProgress
      != GuardedPollAnswered(s, pollCount, Success("processing")).processingProgress
  {
  }

  /** Replaying two sequences of events one after the other is replaying
      their concatenation. */
  lemma ReplayConcat(s: Session, a: seq<Event>, b: seq<Event>)
    ensures var m := Replay(s, a);
      var n := Replay(m.final, b);
      Replay(s, a + b) == Trace(n.final, m.sent + n.sent)
  {
    RunConcat(Step, s, a, b);
  }

  lemma {:induction false} RunConcat(step: (Session, Event) -> Transition, s: Session, a: seq<Event>, b: seq<Event>)
    ensures var m := Run(step, s, a);
      var n := Run(step, m.final, b);
      Run(step, s, a + b) == Trace(n.final, m.sent + n.sent)
    decreases |a|
  {
    if a == [] {
      assert a + b == b;
    } else {
      var t := step(s, a[0]);
      var head := Emitted(t);
      assert (a + b)[0] == a[0];
      assert (a + b)[1..] == a[1..] + b;
      RunConcat(step, t.next, a[1..], b);
      var m' := Run(step, t.next, a[1..]);
      var n := Run(step, m'.final, b);
      assert head + (m'.sent + n.sent) == (head + m'.sent) + n.sent;
    }
  }

  /** Replaying `e` and then `rest`. */
  lemma ReplayCons(s: Session, e: Event, rest: seq<Event>)
    ensures var t := Step(s, e);
      var n := Replay(t.next, rest);
      Replay(s, [e] + rest) == Trace(n.final, Emitted(t) + n.sent)
  {
    RunCons(Step, s, e, rest);
  }

  lemma RunCons(step: (Session, Event) -> Transition, s: Session, e: Event, rest: seq<Event>)
    ensures var t := step(s, e);
      var n := Run(step, t.next, rest);
      Run(step, s, [e] + rest) == Trace(n.final, Emitted(t) + n.sent)
  {
    assert ([e] + rest)[0] == e;
    assert ([e] + rest)[1..] == rest;
  }

  /** Replaying exactly two events. */
  lemma ReplayTwo(s: Session, e1: Event, e2: Event)
    ensures var t1 := Step(s, e1);
      var t2 := Step(t1.next, e2);
      Replay(s, [e1, e2]) == Trace(t2.next, Emitted(t1) + Emitted(t2))
  {
    RunTwo(Step, s, e1, e2);
  }

  lemma RunTwo(step: (Session, Event) -> Transition, s: Session, e1: Event, e2: Event)
    ensures var t1 := step(s, e1);
      var t2 := step(t1.next, e2);
      Run(step, s, [e1, e2]) == Trace(t2.next, Emitted(t1) + Emitted(t2))
  {
    var t1 := step(s, e1);
    assert [e1, e2][1..] == [e2];
    assert [e2][1..] == [];
    assert Run(step, t1.next, [e2]) == Trace(step(t1.next, e2).next, Emitted(step(t1.next, e2)) + []);
  }

  lemma RunThree(step: (Session, Event) -> Transition, s: Session, e1: Event, e2: Event, e3: Event)
    ensures var t1 := step(s, e1);
      var n := Run(step, t1.next, [e2, e3]);
      Run(step, s, [e1, e2, e3]) == Trace(n.final, Emitted(t1) + n.sent)
  {
    assert [e1, e2, e3][1..] == [e2, e3];
  }

  /** Uploading the selected file of a session that may upload, and getting
      job `id` back, sends one upload and leaves the job processing at 20%;
      the chat is untouched. */
  lemma UploadAndReply(s: Session, id: string)
    requires CanUpload(s)
    ensures var t := Replay(s, [Upload, UploadReplied(Success(id))]);
      && t.sent == [UploadDocument(s.selectedFile.value)]
      && t.final.status == Processing && t.final.jobId == id && t.final.processingProgress == 20
      && SameChat(s, t.final)
  {
    var t1 := HandleUpload(s);
    StepUpload(s);
    StepUploadReplied(t1.next, Success(id));
    ReplayTwo(s, Upload, UploadReplied(Success(id)));
  }

  lemma StepUpload(s: Session)
    ensures Step(s, Upload) == HandleUpload(s)
  {
  }

  lemma StepUploadReplied(s: Session, reply: Result<string, RequestError>)
    ensures Step(s, UploadReplied(reply)) == Quiet(UploadAnswered(s, reply))
  {
  }

  /** A valid drop into a fresh session selects the file, ready to upload,
      with nothing asked yet. */
  lemma DropIntoInitial(f: FileInfo)
    requires ValidateFile(f).isValid
    ensures var s1 := OnDrop(Initial, [f], 0);
      && Step(Initial, Drop([f], 0)) == Quiet(s1)
      && CanUpload(s1) && s1.selectedFile == Some(f)
      && s1.conversation == [] && s1.question == "" && !s1.isLoading
  {
  }

  /** An event that sends nothing only hands its next session on. */
  lemma ReplayQuiet(s: Session, e: Event, rest: seq<Event>)
    requires Step(s, e).sent.None?
    ensures Replay(s, [e] + rest) == Replay(Step(s, e).next, rest)
  {
    ReplayCons(s, e, rest);
  }

  /** Dropping a valid file into a fresh session, uploading it and getting
      job `id` back sends one upload and leaves the job processing at 20%
      with an empty conversation. */
  lemma UploadPhase(f: FileInfo, id: string)
    requires ValidateFile(f).isValid
    ensures var t := Replay(Initial, [Drop([f], 0), Upload, UploadReplied(Success(id))]);
      && t.sent == [UploadDocument(f)]
      && t.final.status == Processing && t.final.jobId == id && t.final.processingProgress == 20
      && t.final.conversation == [] && t.final.question == "" && !t.final.isLoading
  {
    var s1 := OnDrop(Initial, [f], 0);
    DropIntoInitial(f);
    UploadAndReply(s1, id);
    var rest := [Upload, UploadReplied(Success(id))];
    ReplayQuiet(Initial, Drop([f], 0), rest);
    assert [Drop([f], 0)] + rest == [Drop([f], 0), Upload, UploadReplied(Success(id))];
  }

  lemma AnswerReplacesPlaceholder(c: seq<Message>, question: Message, answer: Message)
    ensures DropLast(c + [question, Placeholder]) + [answer] == c + [question, answer]
  {
    assert DropLast(c + [question, Placeholder]) == c + [question];
  }

  /** Asking the typed question of a session that may ask, and getting
      answer `a`, sends one ask and appends the trimmed question and the
      answer. */
  lemma AskAndAnswer(s: Session, a: string)
    requires CanAsk(s)
    ensures var t := Replay(s, [Ask, AskReplied(Success(a))]);
      && t.sent == [AskDocument(s.jobId, Trim(s.question))] && !t.final.isLoading
      && t.final.conversation == s.conversation + [Message(User, Trim(s.question), false, false),
                                                   Message(Assistant, a, false, false)]
      && SameJob(s, t.final)
  {
    var t1 := HandleAsk(s);
    var s2 := AskAnswered(t1.next, Success(a));
    AskedThenAnswered(s, a);
    ReplayTwo(s, Ask, AskReplied(Success(a)));
    AskSteps(s, a);
  }

  lemma AskSteps(s: Session, a: string)
    ensures Step(s, Ask) == HandleAsk(s)
    ensures Step(HandleAsk(s).next, AskReplied(Success(a))) == Quiet(AskAnswered(HandleAsk(s).next, Success(a)))
  {
    StepAsk(s);
    StepAskReplied(HandleAsk(s).next, Success(a));
  }

  lemma StepAsk(s: Session)
    ensures Step(s, Ask) == HandleAsk(s)
  {
  }

  lemma StepAskReplied(s: Session, reply: Result<string, RequestError>)
    ensures Step(s, AskReplied(reply)) == Quiet(AskAnswered(s, reply))
  {
  }

  lemma AskedThenAnswered(s: Session, a: string)
    requires CanAsk(s)
    ensures var s2 := AskAnswered(HandleAsk(s).next, Success(a));
      && !s2.isLoading && SameJob(s, s2)
      && s2.conversation == s.conversation + [Message(User, Trim(s.question), false, false),
                                              Message(Assistant, a, false, false)]
  {
    AnswerReplacesPlaceholder(s.conversation, Message(User, Trim(s.question), false, false),
                              Message(Assistant, a, false, false));
  }

  /** Typing a question that needs no trimming into an idle chat of a bound
      job, asking it and getting answer `a` sends one ask and leaves exactly
      the question and its answer. */
  lemma AskPhase(s: Session, q: string, a: string)
    requires s.jobId != "" && !s.isLoading && s.conversation == []
    requires q != "" && !IsJsSpace(q[0]) && !IsJsSpace(q[|q| - 1])
    ensures var t := Replay(s, [Type(q), Ask, AskReplied(Success(a))]);
      && t.sent == [AskDocument(s.jobId, q)] && !t.final.isLoading
      && t.final.conversation == [Message(User, q, false, false), Message(Assistant, a, false, false)]
      && t.final.status == s.status
  {
    TrimUnpadded(q);
    RunThree(Step, s, Type(q), Ask, AskReplied(Success(a)));
    StepType(s, q);
    AskAndAnswer(EditQuestion(s, q), a);
  }

  /** A 2 MiB PDF passes validation without warnings. */
  lemma SmallPdfIsValid()
    ensures var f := FileInfo("lease.pdf", 2 * MiB, "application/pdf");
      ValidateFile(f).isValid && ValidateFile(f).warnings == []
  {
    assert "application/pdf" == AllowedTypes[0];
  }

  /** Drop `f`, upload it, and get job `id` back. */
  function UploadEvents(f: FileInfo, id: string): seq<Event> {
    [Drop([f], 0), Upload, UploadReplied(Success(id))]
  }

  /** A poll tick and a 'processing' reply. */
  function ProcessingRound(): seq<Event> {
    [Tick, PollReplied(0, Success("processing"))]
  }

  /** A poll tick and a 'complete' reply. */
  function CompleteRound(): seq<Event> {
    [Tick, PollReplied(0, Success("complete"))]
  }

  /** Three polls that see the job processing, processing, complete, and one tick more. */
  function PollEvents(): seq<Event> {
    ProcessingRound() + (ProcessingRound() + (CompleteRound() + [Tick]))
  }

  /** Type `q`, ask it, and get answer `a`. */
  function AskEvents(q: string, a: string): seq<Event> {
    [Type(q), Ask, AskReplied(Success(a))]
  }

  /** The whole happy path: a valid file is uploaded as job `id`, is polled
      processing twice and then complete, and one question gets answer `a`.
      Five requests are sent, the session ends ready, and the conversation
      is exactly the question and its answer. */
  lemma HappyPath(f: FileInfo, id: string, q: string, a: string)
    requires ValidateFile(f).isValid && id != ""
    requires q != "" && !IsJsSpace(q[0]) && !IsJsSpace(q[|q| - 1])
    ensures var trace := Replay(Initial, UploadEvents(f, id) + PollEvents() + AskEvents(q, a));
      && trace.final.status == Ready && !trace.final.isLoading
      && trace.final.conversation == [Message(User, q, false, false), Message(Assistant, a, false, false)]
      && trace.sent == [UploadDocument(f)] + [QueryStatus(id), QueryStatus(id), QueryStatus(id)]
                       + [AskDocument(id, q)]
  {
    var upload := UploadEvents(f, id);
    var polls := PollEvents();
    var ask := AskEvents(q, a);
    UploadPhase(f, id);
    var t1 := Replay(Initial, upload);
    PollingUntilComplete(t1.final);
    var t2 := Replay(t1.final, polls);
    AskPhase(t2.final, q, a);
    ReplayConcat(Initial, upload, polls);
    ReplayConcat(Initial, upload + polls, ask);
  }

  /** `Math.min(3000 + pollCount * 1000, 10000)`: one second more per
      poll already counted, from three seconds up to ten. */
  function PollDelay(pollCount: nat): (d: nat)
    ensures 3000 <= d <= 10000
    ensures pollCount <= 7 ==> d == 3000 + 1000 * pollCount
    ensures pollCount >= 7 ==> d == 10000
  {
    Min(3000 + pollCount * 1000, 10000)
  }

  /** The private state of one run of the polling effect: the closure's
      counter, and the delay its interval timer was armed with (none before
      `setInterval` has run). */
  datatype PollClosure = PollClosure(pollCount: nat, armedDelay: Option<nat>)

  /** The statement `let pollCount = 0`. */
  const Declared := PollClosure(0, None)

  /** The call `poll()` up to its first `await`: the request is issued and
      nothing else happens before the effect body goes on, so the counter
      is not touched. */
  function PollUntilAwait(c: PollClosure): PollClosure {
    c
  }

  /** `setInterval(poll, delay)`: the delay argument is evaluated once, from
      the counter as it is at that moment. */
  function SetInterval(c: PollClosure): (r: PollClosure)
    ensures r.pollCount == c.pollCount && r.armedDelay == Some(PollDelay(c.pollCount))
  {
    c.(armedDelay := Some(PollDelay(c.pollCount)))
  }

  /** The effect body's synchronous statements, in their order. */
  function ArmPolling(): PollClosure {
    SetInterval(PollUntilAwait(Declared))
  }

  /** A status reply reaching the closure: a successful one advances the
      counter after the `await`; a failed one does not. The armed timer
      keeps the delay it was given. */
  function ReplyReaches(c: PollClosure, succeeded: bool): (r: PollClosure)
    ensures r.armedDelay == c.armedDelay
    ensures r.pollCount == c.pollCount + (if succeeded then 1 else 0)
  {
    if succeeded then c.(pollCount := c.pollCount + 1) else c
  }

  /** The closure after replies, oldest first, each successful or not. */
  function Deliver(c: PollClosure, replies: seq<bool>): PollClosure
    decreases |replies|
  {
    if replies == [] then c
    else ReplyReaches(Deliver(c, replies[..|replies| - 1]), replies[|replies| - 1])
  }

  /** The number of successful replies. */
  function Successes(replies: seq<bool>): nat
    decreases |replies|
  {
    if replies == [] then 0
    else Successes(replies[..|replies| - 1]) + (if replies[|replies| - 1] then 1 else 0)
  }

  /** The back-off never grows: the timer is armed right after the counter
      was set to zero and before any reply can advance it, so whatever
      replies arrive the interval stays at three seconds, while the counter
      does count the successful replies. */
  lemma {:induction false} BackoffNeverGrows(replies: seq<bool>)
    ensures Deliver(ArmPolling(), replies).armedDelay == Some(3000)
    ensures Deliver(ArmPolling(), replies).pollCount == Successes(replies)
    decreases |replies|
  {
    if replies != [] {
      BackoffNeverGrows(replies[..|replies| - 1]);
    }
  }

  /** The intended delay: recomputed from the counter as it stands after
      the replies so far, as a timer re-armed after each reply would be. */
  function IntendedDelay(replies: seq<bool>): (d: nat)
    ensures 3000 <= d <= 10000
  {
    PollDelay(Deliver(ArmPolling(), replies).pollCount)
  }

  /** With the delay recomputed, the back-off grows by a second with every
      successful reply until it reaches ten seconds, and a failed reply
      leaves it as it was. */
  lemma IntendedBackoffGrows(replies: seq<bool>, succeeded: bool)
    ensures IntendedDelay([]) == 3000
    ensures succeeded ==> IntendedDelay(replies + [succeeded]) == Min(IntendedDelay(replies) + 1000, 10000)
    ensures !succeeded ==> IntendedDelay(replies + [succeeded]) == IntendedDelay(replies)
  {
    var more := replies + [succeeded];
    assert more[..|more| - 1] == replies;
    BackoffNeverGrows(replies);
    BackoffNeverGrows(more);
  }

  /** The intended back-off never shrinks as successes accumulate, and
      grows linearly until it reaches ten seconds. */
  lemma BackoffGrows(m: nat, n: nat)
    requires m <= n
    ensures PollDelay(m) <= PollDelay(n)
    ensures n <= 7 ==> PollDelay(n) - PollDelay(m) == 1000 * (n - m)
    ensures m >= 7 ==> PollDelay(m) == PollDelay(n) == 10000
  {
  }
}
