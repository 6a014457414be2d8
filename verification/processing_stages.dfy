/** The five-stage progress view shown while a document uploads or is
    processed. Each stage's status comes from a `findIndex` search over the
    stage list whose callback, as written, tests the stage being drawn rather
    than its own argument: the index found is 0 when the drawn stage matches
    the session's stage text and -1 otherwise. So only the upload stage can
    ever be active and no stage is ever completed by the search. The evidently
    intended search, which finds the first stage whose id or caption word the
    stage text names, is modelled beside it as `IntendedStageStatus`. */
module ProcessingStages {
  import opened Text
  import ProgressBar
  import App

  datatype Stage = Stage(id: string, caption: string)

  const Stages: seq<Stage> := [
    Stage("upload", "Uploading Document"),
    Stage("parse", "Parsing Content"),
    Stage("analyze", "Analyzing Structure"),
    Stage("index", "Building AI Index"),
    Stage("complete", "Ready to Chat")
  ]

  datatype StageStatus = StageFailed | Completed | Active | Pending

  /** The lower-cased first word of a stage's caption (`label`). */
  function CaptionWord(stage: Stage): string {
    FirstPiece(Lower(stage.caption), ' ')
  }

  /** The `findIndex` test: the lower-cased stage text contains the stage's
      id or its caption word. */
  predicate StageMatches(currentStage: string, stage: Stage): (r: bool)
    ensures r <==> ((exists i :: OccursAt(Lower(currentStage), stage.id, i)) ||
                    (exists i :: OccursAt(Lower(currentStage), CaptionWord(stage), i)))
  {
    Includes(Lower(currentStage), stage.id) || Includes(Lower(currentStage), CaptionWord(stage))
  }

  /** The test ignores the letter case of the stage text. */
  lemma StageMatchIgnoresCase(currentStage: string, stage: Stage)
    ensures StageMatches(Lower(currentStage), stage) <==> StageMatches(currentStage, stage)
  {
    LowerIdempotent(currentStage);
  }

  /** `stages.findIndex(s => test)` for a callback that ignores `s`: the
      first stage passes when the test holds, and none does otherwise. */
  function FindIgnoringItem(stages: seq<Stage>, test: bool): (r: int)
    ensures r == 0 <==> test && stages != []
    ensures r == -1 <==> !(test && stages != [])
    decreases |stages|
  {
    if stages == [] then -1
    else if test then 0
    else
      var rest := FindIgnoringItem(stages[1..], test);
      if rest == -1 then -1 else rest + 1
  }

  /** `getStageStatus(stage, index)` as written: 'failed', 'ready' and
      'complete' override the search; otherwise the index the search finds
      is 0 or -1, so the drawn stage is active only when it is the first one
      and matches, and pending in every other case. */
  function GetStageStatus(currentStage: string, stage: Stage, index: int): (r: StageStatus)
    ensures currentStage == "failed" ==> r == StageFailed
    ensures currentStage == "ready" || currentStage == "complete" ==> r == Completed
    ensures currentStage !in {"failed", "ready", "complete"} && 0 <= index ==>
      && (r == Active <==> index == 0 && StageMatches(currentStage, stage))
      && (r == Pending <==> !(index == 0 && StageMatches(currentStage, stage)))
  {
    if currentStage == "failed" then StageFailed
    else if currentStage == "ready" || currentStage == "complete" then Completed
    else
      var current := FindIgnoringItem(Stages, StageMatches(currentStage, stage));
      if current == index then Active
      else if current > index then Completed
      else Pending
  }

  /** `findIndex` with the callback testing its own argument: the first
      matching stage, or -1. */
  function FindStage(currentStage: string, stages: seq<Stage>): (r: int)
    ensures -1 <= r < |stages|
    ensures r >= 0 ==> StageMatches(currentStage, stages[r])
    ensures forall k :: 0 <= k < |stages| && (r == -1 || k < r) ==> !StageMatches(currentStage, stages[k])
    decreases |stages|
  {
    if stages == [] then -1
    else if StageMatches(currentStage, stages[0]) then 0
    else
      var rest := FindStage(currentStage, stages[1..]);
      assert forall k :: 1 <= k < |stages| ==> stages[1..][k - 1] == stages[k];
      if rest == -1 then -1 else rest + 1
  }

  function CurrentIndex(currentStage: string): int {
    FindStage(currentStage, Stages)
  }

  /** The status the view evidently means to show: the overrides as written;
      otherwise the stage is active when it is the first match, completed
      when it comes before the first match, and pending after it or when
      nothing matches. */
  function IntendedStageStatus(currentStage: string, index: int): (r: StageStatus)
    ensures currentStage == "failed" ==> r == StageFailed
    ensures currentStage == "ready" || currentStage == "complete" ==> r == Completed
    ensures currentStage !in {"failed", "ready", "complete"} ==>
      && (r == Active <==> index == CurrentIndex(currentStage))
      && (r == Completed <==> index < CurrentIndex(currentStage))
      && (r == Pending <==> CurrentIndex(currentStage) < index)
  {
    if currentStage == "failed" then StageFailed
    else if currentStage == "ready" || currentStage == "complete" then Completed
    else
      var current := CurrentIndex(currentStage);
      if current == index then Active
      else if current > index then Completed
      else Pending
  }

  /** The stage text a successful upload sets lights the upload stage, both
      as written and as intended. */
  lemma UploadedStageLightsUpload()
    ensures CurrentIndex("Document uploaded successfully") == 0
    ensures GetStageStatus("Document uploaded successfully", Stages[0], 0) == Active
    ensures IntendedStageStatus("Document uploaded successfully", 0) == Active
  {
    UploadedMatchesUpload();
  }

  lemma UploadedMatchesUpload()
    ensures StageMatches("Document uploaded successfully", Stages[0])
  {
    var stage := "Document uploaded successfully";
    var text := Lower(stage);
    var word := text[9..15];
    forall k | 0 <= k < 6 ensures word[k] == "upload"[k] {
      assert word[k] == LowerChar(stage[9 + k]);
    }
    assert OccursAt(text, "upload", 9);
    assert Stages[0].id == "upload";
  }

  /** As written, at most one stage is active and it is the upload stage;
      while it is, every other stage is pending. */
  lemma OneActiveStage(currentStage: string, i: int, j: int)
    requires 0 <= i < |Stages| && 0 <= j < |Stages|
    requires GetStageStatus(currentStage, Stages[i], i) == Active
    ensures i == 0
    ensures GetStageStatus(currentStage, Stages[j], j) == Active <==> i == j
    ensures i != j ==> GetStageStatus(currentStage, Stages[j], j) == Pending
  {
  }

  /** As intended, at most one stage is active, every stage before it is
      completed and every stage after it pending. */
  lemma IntendedOneActiveStage(currentStage: string, i: int, j: int)
    requires 0 <= i < |Stages| && 0 <= j < |Stages|
    requires IntendedStageStatus(currentStage, i) == Active
    ensures IntendedStageStatus(currentStage, j) == Active <==> i == j
    ensures j < i ==> IntendedStageStatus(currentStage, j) == Completed
    ensures i < j ==> IntendedStageStatus(currentStage, j) == Pending
  {
  }

  /** A stage text that names no stage shows every stage pending, as
      written and as intended. */
  lemma NoMatchAllPending(currentStage: string, index: int)
    requires currentStage !in {"failed", "ready", "complete"}
    requires forall k :: 0 <= k < |Stages| ==> !StageMatches(currentStage, Stages[k])
    requires 0 <= index < |Stages|
    ensures GetStageStatus(currentStage, Stages[index], index) == Pending
    ensures IntendedStageStatus(currentStage, index) == Pending
  {
  }

  /** The search as written loses every stage after the first: when the
      stage text first names a later stage, the intended view lights that
      stage and completes those before it, while the view as written shows
      every stage pending. */
  lemma LaterStageNeverLit(currentStage: string)
    requires currentStage !in {"failed", "ready", "complete"}
    requires CurrentIndex(currentStage) >= 1
    ensures IntendedStageStatus(currentStage, CurrentIndex(currentStage)) == Active
    ensures IntendedStageStatus(currentStage, 0) == Completed
    ensures forall k :: 0 <= k < |Stages| ==> GetStageStatus(currentStage, Stages[k], k) == Pending
  {
  }

  /** The first of the stage texts a 'processing' poll reply cycles
      through, "Parsing document structure...", names the parse stage by its
      caption word: the intended view lights it, the view as written shows
      all five pending. */
  lemma ParsingTextLightsNothing()
    ensures ParsingText == App.PollStages[0]
    ensures CurrentIndex(ParsingText) == 1
    ensures IntendedStageStatus(ParsingText, 1) == Active
    ensures forall k :: 0 <= k < |Stages| ==> GetStageStatus(ParsingText, Stages[k], k) == Pending
  {
    ParsingMatchesParse();
    ParsingMissesUpload();
    LaterStageNeverLit(ParsingText);
  }

  const ParsingText := "Parsing document structure..."

  lemma ParsingMatchesParse()
    ensures StageMatches(ParsingText, Stages[1])
  {
    var caption := Lower(Stages[1].caption);
    assert Stages[1].caption == "Parsing Content";
    forall k | 0 <= k < 7 ensures caption[k] != ' ' && caption[k] == Lower(ParsingText)[k] {
      assert caption[k] == LowerChar("Parsing Content"[k]);
      assert Lower(ParsingText)[k] == LowerChar(ParsingText[k]);
    }
    assert caption[7] == ' ';
    FirstPieceEndsAt(caption, ' ', 7);
    assert Lower(ParsingText)[0..7] == caption[..7];
    assert OccursAt(Lower(ParsingText), CaptionWord(Stages[1]), 0);
  }

  lemma ParsingMissesUpload()
    ensures !StageMatches(ParsingText, Stages[0])
  {
    var text := Lower(ParsingText);
    var caption := Lower(Stages[0].caption);
    assert Stages[0].caption == "Uploading Document";
    forall k | 0 <= k < 9 ensures caption[k] != ' ' {
      assert caption[k] == LowerChar("Uploading Document"[k]);
    }
    assert caption[9] == ' ';
    FirstPieceEndsAt(caption, ' ', 9);
    var word := CaptionWord(Stages[0]);
    assert word == caption[..9];
    assert caption[0] == LowerChar('U') == 'u' && caption[1] == LowerChar('p') == 'p';
    forall j | 1 <= j < |text| ensures text[j] != 'p' {
      OnlyLeadingP(j);
      assert text[j] == LowerChar(ParsingText[j]);
    }
    assert Stages[0].id == "upload";
    AbsentPair(text, "upload");
    AbsentPair(text, word);
  }

  /** The only `p` of the parsing text, in either case, is its first letter. */
  lemma OnlyLeadingP(i: int)
    requires 1 <= i < |ParsingText|
    ensures ParsingText[i] != 'p' && ParsingText[i] != 'P'
  {
  }

  /** The bar under the active stage is drawn only when there is progress. */
  predicate ShowsStageBar(status: StageStatus, progress: int): (r: bool)
    ensures r ==> 0 < BarWidth(progress) <= 100
  {
    status == Active && progress > 0
  }

  /** `Math.min(progress, 100)`: the width of the stage bar and of the
      overall bar. Unlike the upload bar there is no lower clamp. */
  function BarWidth(progress: int): (r: int)
    ensures r <= 100 && r <= progress
    ensures r == progress || r == 100
  {
    if progress < 100 then progress else 100
  }

  /** Where the stage bar is drawn its width is the upload bar's clamp. */
  lemma StageBarIsClamped(status: StageStatus, progress: int)
    requires ShowsStageBar(status, progress)
    ensures 0 < BarWidth(progress) == ProgressBar.Width(progress) <= 100
  {
  }
}
