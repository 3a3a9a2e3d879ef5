/**
 What every history of a campaign work directory (tools/bigcherry/e2e_smoke_campaign.py) shows of
 its stages, by their names and their files: which may be resumed and when, what a stage that ran
 started without and ended with, and what a finished campaign has gone through.
 */
module CampaignStages {
  import opened IdentityTree
  import opened ResumeGate
  import opened ResumeRuns

  ghost predicate Present(files: map<Artifact, Content>, a: Artifact) { a in files }
  ghost predicate NonEmpty(files: map<Artifact, Content>, a: Artifact) { a in files && files[a].size > 0 }

  /** The stages of a campaign, in order; the last two need the bench binaries. */
  const SERVED: seq<string> := [
    "S1_record", "S1b_inventory", "S2_tune", "S2c_dispatch_db", "S3_promote", "S3b_correctness_evidence",
    "S4_export", "S5_replay"]
  const BENCHED: seq<string> := SERVED + ["S6_bench", "S7_report"]

  /** Only these four stages resume, each from its own files. */
  ghost predicate MayResume(stage: string, files: map<Artifact, Content>) {
    || (stage == "S1_record" && NonEmpty(files, Record))
    || (stage == "S1b_inventory" && Present(files, InventoryJson) && Present(files, InventorySqlite))
    || (stage == "S2_tune" && NonEmpty(files, Measurements))
    || (stage == "S6_bench" && Present(files, Bench))
  }

  /** Stages that write through a server start without the files of an earlier attempt. */
  ghost predicate StartsClean(stage: string, files: map<Artifact, Content>) {
    && (stage == "S1_record" ==> !Present(files, Record))
    && (stage == "S2_tune" ==> !Present(files, TuneDb) && !Present(files, Measurements) && !Present(files, Journal))
    && (stage == "S5_replay" ==> !Present(files, Coverage))
  }

  /** What a stage that ran must have left. */
  ghost predicate Delivered(stage: string, files: map<Artifact, Content>) {
    && (stage == "S1_record" ==> NonEmpty(files, Record))
    && (stage == "S2_tune" ==> NonEmpty(files, Measurements))
    && (stage == "S4_export" ==> NonEmpty(files, DispatchCache))
    && (stage == "S5_replay" ==> Present(files, Coverage))
  }

  /** The stages passed since the run began, in order. */
  ghost function Passed(trace: seq<Event>): seq<string> {
    if trace == [] then []
    else
      var front, last := trace[..|trace| - 1], trace[|trace| - 1];
      match last
      case Began => []
      case Resumed(stage, _) => Passed(front) + [stage]
      case Completed(stage, _) => Passed(front) + [stage]
      case _ => Passed(front)
  }

  /** What the event at the end of a trace says is true of what came before it. */
  ghost predicate Told(front: seq<Event>, last: Event) {
    match last
    case Resumed(stage, files) => MayResume(stage, files)
    case Started(stage, files) => StartsClean(stage, files)
    case Completed(stage, files) =>
      Delivered(stage, files) && front != [] && front[|front| - 1] == ToolsEnded(stage, true)
    case CampaignDone => Passed(front) == SERVED || Passed(front) == BENCHED
    case _ => true
  }

  ghost predicate AllTold(trace: seq<Event>) {
    forall k :: 0 <= k < |trace| ==> Told(trace[..k], trace[k])
  }

  // ------------------------------------------------------------------
  // The stage table

  lemma {:induction false} StageNames(i: nat)
    requires i < 10
    ensures |STAGES| == |BENCHED| == 10 && STAGES[i].name == BENCHED[i]
  {
  }

  lemma {:induction false} ResumesMeans(i: nat, files: map<Artifact, Content>)
    requires i < 10 && Resumes(STAGES[i], files)
    ensures MayResume(BENCHED[i], files)
  {
    var need := STAGES[i].resume;
    assert forall a :: a in need.files ==> a in files && (need.nonEmpty ==> files[a].size > 0);
    if i == 0 {
      assert Record in need.files;
    } else if i == 1 {
      assert InventoryJson in need.files && InventorySqlite in need.files;
    } else if i == 2 {
      assert Measurements in need.files;
    } else if i == 8 {
      assert Bench in need.files;
    }
  }

  ghost predicate Cleared(i: nat, k: nat, files: map<Artifact, Content>)
    requires i < |STAGES|
  {
    forall j :: 0 <= j < k && j < |STAGES[i].clear| ==> STAGES[i].clear[j] !in files
  }

  lemma {:induction false} ClearedMeans(i: nat, k: nat, files: map<Artifact, Content>)
    requires i < 10 && k >= |STAGES[i].clear| && Cleared(i, k, files)
    ensures StartsClean(BENCHED[i], files)
  {
    var clear := STAGES[i].clear;
    if i == 0 {
      assert clear[0] == Record;
    } else if i == 2 {
      assert clear[0] == TuneDb && clear[1] == Measurements && clear[2] == Journal;
    } else if i == 7 {
      assert clear[0] == Coverage;
    }
  }

  lemma {:induction false} MetMeans(i: nat, files: map<Artifact, Content>)
    requires i < 10 && Met(STAGES[i].required, files)
    ensures Delivered(BENCHED[i], files)
  {
    var need := STAGES[i].required;
    assert forall a :: a in need.files ==> a in files && (need.nonEmpty ==> files[a].size > 0);
    if i == 0 {
      assert Record in need.files;
    } else if i == 2 {
      assert Measurements in need.files;
    } else if i == 6 {
      assert DispatchCache in need.files;
    } else if i == 7 {
      assert Coverage in need.files;
    }
  }

  // ------------------------------------------------------------------
  // The invariant

  /** The run has passed the first `i` stages. */
  ghost predicate At(w: World, i: nat) { i <= 10 && Passed(w.trace) == BENCHED[..i] }

  ghost predicate EndedWell(w: World, i: nat) {
    i < 10 && w.trace != [] && w.trace[|w.trace| - 1] == ToolsEnded(BENCHED[i], true)
  }

  ghost predicate PhaseTold(w: World) {
    match w.phase
    case Idle => true
    case Binding => Passed(w.trace) == []
    case Probing => Passed(w.trace) == []
    case Starting => Passed(w.trace) == []
    case Entering(i) => At(w, i)
    case Resuming(i, seen) => At(w, i) && i < 10 && MayResume(BENCHED[i], seen)
    case Announcing(i) => At(w, i) && i < 10
    case Clearing(i, k) => At(w, i) && i < 10 && i < |STAGES| && Cleared(i, k, w.dir.artifacts)
    case Working(i) => At(w, i) && i < 10
    case Checking(i) => At(w, i) && EndedWell(w, i)
    case Completing(i, seen) => At(w, i) && EndedWell(w, i) && Delivered(BENCHED[i], seen)
    case Closing => Passed(w.trace) == SERVED || Passed(w.trace) == BENCHED
    case Failing => true
  }

  ghost predicate TraceInv(w: World) { AllTold(w.trace) && PhaseTold(w) }

  lemma {:induction false} TellMore(trace: seq<Event>, e: Event)
    requires AllTold(trace) && Told(trace, e)
    ensures AllTold(trace + [e])
  {
    var longer := trace + [e];
    forall k | 0 <= k < |longer| ensures Told(longer[..k], longer[k]) {
      if k < |trace| {
        assert longer[..k] == trace[..k];
      } else {
        assert longer[..k] == trace;
      }
    }
  }

  lemma {:induction false} PassedMore(trace: seq<Event>, e: Event)
    ensures Passed(trace + [e]) ==
      if e.Began? then [] else if e.Resumed? || e.Completed? then Passed(trace) + [e.stage] else Passed(trace)
  {
    assert (trace + [e])[..|trace|] == trace;
  }

  lemma {:induction false} NextStage(i: nat)
    requires i < 10
    ensures BENCHED[..i] + [BENCHED[i]] == BENCHED[..i + 1]
    ensures BENCHED[..8] == SERVED && BENCHED[..10] == BENCHED
  {
  }

  lemma {:induction false} ProgramTells(w: World, digest: Digest)
    requires TraceInv(w) && !w.phase.Idle?
    ensures TraceInv(ProgramStep(w, digest))
  {
    match w.phase {
      case Entering(_) => EnteringTells(w, digest);
      case Resuming(_, _) => ResumingTells(w, digest);
      case Announcing(_) => assert w.trace + [] == w.trace;
      case Clearing(_, _) => ClearingTells(w, digest);
      case Checking(_) => CheckingTells(w, digest);
      case Completing(_, _) => CompletingTells(w, digest);
      case Closing => TellMore(w.trace, CampaignDone);
      case _ =>
    }
  }

  lemma {:induction false} EnteringTells(w: World, digest: Digest)
    requires TraceInv(w) && w.phase.Entering?
    ensures TraceInv(ProgramStep(w, digest))
  {
    var i := w.phase.i;
    if i < 10 {
      StageNames(i);
      if Resumes(STAGES[i], w.dir.artifacts) { ResumesMeans(i, w.dir.artifacts); }
    } else {
      NextStage(9);
    }
  }

  lemma {:induction false} ResumingTells(w: World, digest: Digest)
    requires TraceInv(w) && w.phase.Resuming?
    ensures TraceInv(ProgramStep(w, digest))
  {
    StagePassed(w, Resumed(BENCHED[w.phase.i], w.phase.seen), w.phase.i);
  }

  lemma {:induction false} CheckingTells(w: World, digest: Digest)
    requires TraceInv(w) && w.phase.Checking?
    ensures TraceInv(ProgramStep(w, digest))
  {
    var i := w.phase.i;
    StageNames(i);
    if Met(STAGES[i].required, w.dir.artifacts) { MetMeans(i, w.dir.artifacts); }
  }

  lemma {:induction false} CompletingTells(w: World, digest: Digest)
    requires TraceInv(w) && w.phase.Completing?
    ensures TraceInv(ProgramStep(w, digest))
  {
    StagePassed(w, Completed(BENCHED[w.phase.i], w.phase.seen), w.phase.i);
  }

  lemma {:induction false} StagePassed(w: World, e: Event, i: nat)
    requires TraceInv(w) && At(w, i) && i < 10 && (e.Resumed? || e.Completed?) && e.stage == BENCHED[i]
    requires Told(w.trace, e)
    ensures |STAGES| == 10 && STAGES[i].name == BENCHED[i]
    ensures AllTold(w.trace + [e]) && Passed(w.trace + [e]) == BENCHED[..i + 1]
  {
    StageNames(i);
    TellMore(w.trace, e);
    PassedMore(w.trace, e);
    NextStage(i);
  }

  lemma {:induction false} ClearingTells(w: World, digest: Digest)
    requires TraceInv(w) && w.phase.Clearing?
    ensures TraceInv(ProgramStep(w, digest))
  {
    var i, k := w.phase.i, w.phase.k;
    StageNames(i);
    if k >= |STAGES[i].clear| {
      ClearedMeans(i, k, w.dir.artifacts);
      var e := Started(STAGES[i].name, w.dir.artifacts);
      TellMore(w.trace, e);
      PassedMore(w.trace, e);
    }
  }

  lemma {:induction false} StepTells(w: World, a: Action, digest: Digest)
    requires TraceInv(w) && Enabled(w, a)
    ensures TraceInv(Step(w, a, digest))
  {
    match a {
      case Next => ProgramTells(w, digest);
      case Begin(_) =>
        TellMore(w.trace, Began);
        PassedMore(w.trace, Began);
      case BeginValidation(_) =>
        TellMore(w.trace, Began);
        PassedMore(w.trace, Began);
      case ToolEnds(ok) =>
        StageNames(w.phase.i);
        var e := ToolsEnded(STAGES[w.phase.i].name, ok);
        TellMore(w.trace, e);
        PassedMore(w.trace, e);
      case SkipBench => NextStage(9);
      case _ =>
    }
  }

  lemma {:induction false} HistoryTells(w: World, actions: seq<Action>, digest: Digest)
    requires TraceInv(w)
    ensures TraceInv(After(w, actions, digest))
    decreases |actions|
  {
    if actions != [] {
      if Enabled(w, actions[0]) {
        StepTells(w, actions[0], digest);
        HistoryTells(Step(w, actions[0], digest), actions[1..], digest);
      } else {
        HistoryTells(w, actions[1..], digest);
      }
    }
  }

  // ------------------------------------------------------------------
  // Main results, over every history

  /** A stage is recorded as resumed only when it is one of the four and its own files were there. */
  lemma {:induction false} ResumedOnlyFromItsFiles(w: World, actions: seq<Action>, digest: Digest, k: nat)
    requires Init(w, digest) && k < |After(w, actions, digest).trace|
    requires After(w, actions, digest).trace[k].Resumed?
    ensures var e := After(w, actions, digest).trace[k]; MayResume(e.stage, e.files)
  {
    HistoryTells(w, actions, digest);
  }

  /** A stage that ran started clean, ended well and delivered. */
  lemma {:induction false} CompletedHasRun(w: World, actions: seq<Action>, digest: Digest, k: nat)
    requires Init(w, digest) && k < |After(w, actions, digest).trace|
    ensures var trace := After(w, actions, digest).trace;
      && (trace[k].Started? ==> StartsClean(trace[k].stage, trace[k].files))
      && (trace[k].Completed? ==>
            Delivered(trace[k].stage, trace[k].files) && k > 0 && trace[k - 1] == ToolsEnded(trace[k].stage, true))
  {
    HistoryTells(w, actions, digest);
    var trace := After(w, actions, digest).trace;
    assert Told(trace[..k], trace[k]);
  }

  /** A campaign is recorded as done only after every stage up to S5, or S7 with the bench, in order. */
  lemma {:induction false} DoneHasPassedAll(w: World, actions: seq<Action>, digest: Digest, k: nat)
    requires Init(w, digest) && k < |After(w, actions, digest).trace|
    requires After(w, actions, digest).trace[k].CampaignDone?
    ensures var passed := Passed(After(w, actions, digest).trace[..k]); passed == SERVED || passed == BENCHED
  {
    HistoryTells(w, actions, digest);
    var trace := After(w, actions, digest).trace;
    assert Told(trace[..k], trace[k]);
  }
}
