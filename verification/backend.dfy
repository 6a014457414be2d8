/** The server: a registry of processing jobs keyed by job id, the upload
    endpoint that registers a job and names the stored file, the background
    task that settles a job, the status endpoint, and the question endpoint
    with its guards. File contents, indexing and the chat engine are not
    modelled: the engine's outcome is a parameter, and so is the fresh
    identifier the upload draws. */
module Backend {
  import opened Results
  import opened Text

  /** The status strings the registry holds. */
  datatype JobStatus = Processing | Complete | Failed

  function StatusText(j: JobStatus): string {
    match j
    case Processing => "processing"
    case Complete => "complete"
    case Failed => "failed"
  }

  /** The in-memory `job_status` dictionary. */
  type Registry = map<string, JobStatus>

  /** The errors the endpoints raise; `InvalidRequest` is the framework's
      own rejection of a request body whose question is empty, whose body
      the framework writes and is not modelled (its detail is ""). */
  datatype ApiError = NoFile | JobNotFound | NotReady | EngineFailed(reason: string) | InvalidRequest

  function StatusCode(e: ApiError): int {
    match e
    case NoFile => 400
    case JobNotFound => 404
    case NotReady => 400
    case EngineFailed(_) => 500
    case InvalidRequest => 422
  }

  function Detail(e: ApiError): string {
    match e
    case NoFile => "No file uploaded."
    case JobNotFound => "Job not found."
    case NotReady => "Document is not ready for querying. Please check status."
    case EngineFailed(reason) => "Error processing question: " + reason
    case InvalidRequest => ""
  }

  /** A name has a non-dot character before index `dot`, after index `sep`. */
  predicate NonDotBetween(p: string, sep: int, dot: int)
    requires -1 <= sep < dot <= |p|
  {
    exists k :: sep < k < dot && p[k] != '.'
  }

  /** `os.path.splitext` with the POSIX separator: the extension starts at
      the last dot of the last path component, provided that component has
      something other than dots before that dot; otherwise it is empty. */
  function SplitExt(p: string): (r: (string, string))
    ensures r.0 + r.1 == p
    ensures r.1 == [] || (r.1[0] == '.' && '.' !in r.1[1..] && '/' !in r.1)
    ensures r.1 != [] <==>
      var sep := LastIndexOf(p, '/');
      var dot := LastIndexOf(p, '.');
      sep < dot && NonDotBetween(p, sep, dot)
  {
    var sep := LastIndexOf(p, '/');
    var dot := LastIndexOf(p, '.');
    if sep < dot && NonDotBetween(p, sep, dot) then
      assert '.' !in p[dot + 1..];
      assert p[dot..][1..] == p[dot + 1..];
      assert '/' !in p[dot..];
      (p[..dot], p[dot..])
    else
      (p, [])
  }

  /** The upload endpoint's answer: the job id, the fixed acceptance
      message, and the name the file is stored under. */
  datatype Upload = Upload(jobId: string, message: string, storedName: string)

  const AcceptedMessage := "Document upload accepted and is being processed."

  /** `upload_document`: an empty file name is refused and registers
      nothing; otherwise the fresh id is registered as processing and the
      file is stored as the id followed by the name's extension. */
  function UploadDocument(reg: Registry, filename: string, freshId: string): (r: (Result<Upload, ApiError>, Registry))
    ensures filename == [] <==> r.0.Failure?
    ensures r.0.Failure? ==> r.0.error == NoFile && r.1 == reg
    ensures r.0.Success? ==>
      && r.0.value.jobId == freshId && r.0.value.message == AcceptedMessage
      && r.0.value.storedName == freshId + SplitExt(filename).1
      && r.1 == reg[freshId := Processing]
  {
    if filename == [] then (Failure(NoFile), reg)
    else
      var extension := SplitExt(filename).1;
      (Success(Upload(freshId, AcceptedMessage, freshId + extension)), reg[freshId := Processing])
  }

  /** `process_document_background`: the job becomes complete when
      indexing succeeds and failed when it raises. */
  function BackgroundFinished(reg: Registry, id: string, indexed: bool): (r: Registry)
    ensures r.Keys == reg.Keys + {id}
    ensures r[id] == (if indexed then Complete else Failed)
    ensures forall k :: k in reg && k != id ==> r[k] == reg[k]
  {
    reg[id := if indexed then Complete else Failed]
  }

  datatype StatusResponse = StatusResponse(jobId: string, status: string)

  /** `get_processing_status`: an unknown job is a 404; a known one reports
      its status string. */
  function GetStatus(reg: Registry, id: string): (r: Result<StatusResponse, ApiError>)
    ensures r.Failure? <==> id !in reg
    ensures r.Failure? ==> r.error == JobNotFound
    ensures r.Success? ==> r.value == StatusResponse(id, StatusText(reg[id]))
  {
    if id in reg then Success(StatusResponse(id, StatusText(reg[id]))) else Failure(JobNotFound)
  }

  datatype AskResponse = AskResponse(question: string, answer: string)

  /** `ask_question`: the framework refuses an empty question before the
      handler runs; a document that is not complete is refused without
      consulting the engine; an engine that raises gives a 500 carrying its
      message; otherwise the engine's answer is returned with the question. */
  function AskQuestion(reg: Registry, question: string, documentId: string,
                       engine: Result<string, string>): (r: Result<AskResponse, ApiError>)
    ensures question == [] ==> r == Failure(InvalidRequest)
    ensures question != [] && !(documentId in reg && reg[documentId] == Complete) ==> r == Failure(NotReady)
    ensures r.Success? <==> question != [] && documentId in reg && reg[documentId] == Complete && engine.Success?
    ensures r.Success? ==> r.value == AskResponse(question, engine.value)
    ensures question != [] && documentId in reg && reg[documentId] == Complete && engine.Failure? ==>
      r == Failure(EngineFailed(engine.error))
  {
    if question == [] then Failure(InvalidRequest)
    else if !(documentId in reg && reg[documentId] == Complete) then Failure(NotReady)
    else match engine
      case Failure(reason) => Failure(EngineFailed(reason))
      case Success(answer) => Success(AskResponse(question, answer))
  }

  /** A name whose stem has something other than dots, followed by a dot
      and a dot-free, slash-free suffix, splits exactly there. */
  lemma {:induction false} SplitExtOfName(stem: string, suffix: string)
    requires '/' !in stem && '/' !in suffix && '.' !in suffix
    requires exists k :: 0 <= k < |stem| && stem[k] != '.'
    ensures SplitExt(stem + "." + suffix) == (stem, "." + suffix)
  {
    var p := stem + "." + suffix;
    var dot := |stem|;
    assert p[dot] == '.';
    forall k | dot < k < |p| ensures p[k] != '.' && p[k] != '/' {
      assert p[k] == suffix[k - dot - 1];
    }
    assert LastIndexOf(p, '.') == dot;
    forall k | 0 <= k < |p| ensures p[k] != '/' {
      if k < dot { assert p[k] == stem[k]; }
    }
    assert LastIndexOf(p, '/') == -1;
    var k :| 0 <= k < |stem| && stem[k] != '.';
    assert p[k] == stem[k];
    assert NonDotBetween(p, -1, dot);
    assert p[..dot] == stem;
    assert p[dot..] == "." + suffix;
  }

  /** A hidden file's leading dot does not start an extension, and a name
      made only of dots has none either. */
  lemma HiddenFileHasNoExtension(suffix: string)
    requires '.' !in suffix && '/' !in suffix
    ensures SplitExt("." + suffix) == ("." + suffix, "")
    ensures SplitExt("...") == ("...", "")
  {
    var p := "." + suffix;
    forall k | 1 <= k < |p| ensures p[k] != '.' {
      assert p[k] == suffix[k - 1];
    }
    assert p[0] == '.';
    assert LastIndexOf(p, '.') == 0;
    assert LastIndexOf("...", '.') == 2;
    assert !NonDotBetween("...", -1, 2);
  }

  /** The stored name keeps the uploaded name's extension, because the
      generated id has neither dots nor slashes. */
  lemma StoredNameKeepsExtension(reg: Registry, filename: string, freshId: string)
    requires filename != [] && freshId != [] && '.' !in freshId && '/' !in freshId
    ensures var u := UploadDocument(reg, filename, freshId).0;
      u.Success? && SplitExt(u.value.storedName).1 == SplitExt(filename).1
  {
    var ext := SplitExt(filename).1;
    if ext == [] {
      assert freshId + ext == freshId;
      assert LastIndexOf(freshId, '.') == -1;
    } else {
      assert ext == "." + ext[1..];
      assert freshId + ext == freshId + "." + ext[1..];
      assert freshId[0] != '.';
      SplitExtOfName(freshId, ext[1..]);
    }
  }

  /** The engine is never consulted for a document that is not complete:
      any two engine outcomes give the same refusal. */
  lemma AskIgnoresEngineUntilComplete(reg: Registry, question: string, documentId: string,
                                      e1: Result<string, string>, e2: Result<string, string>)
    requires !(documentId in reg && reg[documentId] == Complete)
    ensures AskQuestion(reg, question, documentId, e1) == AskQuestion(reg, question, documentId, e2)
    ensures AskQuestion(reg, question, documentId, e1).Failure?
  {
  }

  /** The server-side operations that change the registry. */
  datatype ServerOp = Uploaded(filename: string, freshId: string) | Settled(id: string, indexed: bool)

  function Apply(reg: Registry, op: ServerOp): Registry {
    match op
    case Uploaded(filename, freshId) => UploadDocument(reg, filename, freshId).1
    case Settled(id, indexed) => BackgroundFinished(reg, id, indexed)
  }

  function Serve(reg: Registry, ops: seq<ServerOp>): Registry
    decreases |ops|
  {
    if ops == [] then reg else Serve(Apply(reg, ops[0]), ops[1..])
  }

  /** Jobs are never forgotten: a job once known keeps answering the status
      endpoint whatever the server does next. */
  lemma {:induction false} JobsAreNeverForgotten(reg: Registry, ops: seq<ServerOp>, id: string)
    requires GetStatus(reg, id).Success?
    ensures GetStatus(Serve(reg, ops), id).Success?
    decreases |ops|
  {
    if ops != [] {
      JobsAreNeverForgotten(Apply(reg, ops[0]), ops[1..], id);
    }
  }

  /** A job that was uploaded and indexed answers questions with the
      engine's answer; before it was indexed it reports processing and
      refuses questions. */
  lemma UploadIndexAsk(reg: Registry, filename: string, id: string, question: string, answer: string)
    requires filename != [] && question != []
    ensures var r1 := UploadDocument(reg, filename, id).1;
      && GetStatus(r1, id) == Success(StatusResponse(id, "processing"))
      && AskQuestion(r1, question, id, Success(answer)) == Failure(NotReady)
      && var r2 := BackgroundFinished(r1, id, true);
      && GetStatus(r2, id) == Success(StatusResponse(id, "complete"))
      && AskQuestion(r2, question, id, Success(answer)) == Success(AskResponse(question, answer))
  {
  }
}
