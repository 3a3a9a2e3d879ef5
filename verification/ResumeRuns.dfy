/**
 Every history of a campaign work directory (tools/bigcherry/e2e_smoke_campaign.py): runs under
 arbitrary identities, one at a time, that may fail or be killed between any two steps, some of
 them after the activation probe of tools/bigcherry/patch/validation_campaign.py, and an operator
 who may delete stage files and the status document at any moment.
 */
module ResumeRuns {
  import opened IdentityTree
  import opened ResumeGate
  import opened Wrappers

  /** Files that must be present, and perhaps not empty. */
  datatype Need = Need(files: seq<Artifact>, nonEmpty: bool)

  predicate Met(n: Need, files: map<Artifact, Content>) {
    forall a :: a in n.files ==> a in files && (n.nonEmpty ==> files[a].size > 0)
  }

  const NOTHING := Need([], false)

  /** A stage: when it resumes, what it unlinks, reads and may write, and what it checks. */
  datatype Plan = Plan(name: string, resume: Need, clear: seq<Artifact>,
                       inputs: seq<Artifact>, outputs: set<Artifact>, required: Need)

  const STAGES: seq<Plan> := [
    Plan("S1_record", Need([Record], true), [Record], [], {Record}, Need([Record], true)),
    Plan("S1b_inventory", Need([InventoryJson, InventorySqlite], false), [], [Record],
         {InventoryJson, InventorySqlite}, NOTHING),
    Plan("S2_tune", Need([Measurements], true), [TuneDb, Measurements, Journal], [],
         {TuneDb, Measurements, Journal}, Need([Measurements], true)),
    Plan("S2c_dispatch_db", NOTHING, [], [Measurements], {DispatchSqlite}, NOTHING),
    Plan("S3_promote", NOTHING, [], [Measurements, DispatchSqlite], {Promoted}, NOTHING),
    Plan("S3b_correctness_evidence", NOTHING, [], [Promoted, Measurements, DispatchSqlite],
         {EvidenceInput, DispatchSqlite, Promoted}, NOTHING),
    Plan("S4_export", NOTHING, [], [Promoted, DispatchSqlite], {DispatchCache}, Need([DispatchCache], true)),
    Plan("S5_replay", NOTHING, [Coverage], [DispatchCache], {Coverage}, Need([Coverage], false)),
    Plan("S6_bench", Need([Bench], false), [], [DispatchCache], {Bench}, NOTHING),
    Plan("S7_report", NOTHING, [], [Bench, Measurements], {Report}, NOTHING)
  ]

  /** The stages from here on run only when all bench binaries are given. */
  const FIRST_BENCH_STAGE := 8

  predicate Resumes(p: Plan, files: map<Artifact, Content>) {
    p.resume != NOTHING && Met(p.resume, files)
  }

  datatype Phase =
    | Idle                          // no run
    | Binding                       // a patch validation, before its own gate
    | Probing                       // behind that gate, where it may write activation.json
    | Starting                      // before the first gate of `run`
    | Entering(i: nat)              // about to decide whether stage i resumes
    | Resuming(i: nat, seen: map<Artifact, Content>)    // about to record it as resumed from what it saw
    | Announcing(i: nat)            // about to record it as running
    | Clearing(i: nat, k: nat)
    | Working(i: nat)               // the stage's tools may write its outputs
    | Checking(i: nat)
    | Completing(i: nat, seen: map<Artifact, Content>)  // about to record it as done, having checked these files
    | Closing
    | Failing                       // the failure path of `main`

  /** What a history shows of its runs, with the files at hand at the time. */
  datatype Event =
    | Began
    | Started(stage: string, files: map<Artifact, Content>)     // its tools start
    | ToolsEnded(stage: string, ok: bool)
    | Resumed(stage: string, files: map<Artifact, Content>)     // recorded as done without running
    | Completed(stage: string, files: map<Artifact, Content>)   // recorded as done after running
    | CampaignDone

  /** `used` lists each file a run resumed from or read: the run's identity and the file's producer. */
  datatype World = World(dir: Directory, phase: Phase, id: Tree, used: seq<(Tree, Tree)>, trace: seq<Event>)

  datatype Action =
    | Begin(id: Tree)
    | BeginValidation(id: Tree)               // a patch validation, which runs a campaign of its own
    | ProbeEnds(ok: bool)
    | Next                                    // the program's next statement
    | Produce(artifact: Artifact, size: nat)  // a tool writes a file, in part or whole
    | ToolEnds(ok: bool)
    | SkipBench
    | Die
    | DeleteArtifact(artifact: Artifact)
    | DeleteStatus

  function Uses(files: map<Artifact, Content>, names: seq<Artifact>, id: Tree): seq<(Tree, Tree)> {
    if names == [] then []
    else (if names[0] in files then [(id, files[names[0]].producer)] else []) + Uses(files, names[1..], id)
  }

  /** A status write that succeeds shows as `events` and leads to `next`; one that is refused, to the failure path. */
  function Recorded(w: World, digest: Digest, entry: string, next: Phase, events: seq<Event>): World {
    var r := WriteStatus(w.dir, w.id, digest, entry);
    if r.Ok? then w.(dir := r.value, phase := next, trace := w.trace + events) else w.(phase := Failing)
  }

  function ProgramStep(w: World, digest: Digest): World {
    match w.phase
    case Idle => w
    case Binding =>
      var r := Ensure(w.dir, w.id, digest);
      if r.Ok? then w.(dir := r.value, phase := Probing) else w.(phase := Idle)
    case Probing => w
    case Starting =>
      var r := Ensure(w.dir, w.id, digest);
      if r.Ok? then w.(dir := r.value, phase := Entering(0)) else w.(phase := Failing)
    case Entering(i) =>
      if i >= |STAGES| then w.(phase := Closing)
      else if Resumes(STAGES[i], w.dir.artifacts) then
        w.(phase := Resuming(i, w.dir.artifacts), used := w.used + Uses(w.dir.artifacts, STAGES[i].resume.files, w.id))
      else w.(phase := Announcing(i))
    case Resuming(i, seen) =>
      if i < |STAGES| then Recorded(w, digest, "done (resumed)", Entering(i + 1), [Resumed(STAGES[i].name, seen)])
      else w.(phase := Failing)
    case Announcing(i) => Recorded(w, digest, "running", Clearing(i, 0), [])
    case Clearing(i, k) =>
      if i < |STAGES| && k < |STAGES[i].clear| then
        w.(dir := w.dir.(artifacts := w.dir.artifacts - {STAGES[i].clear[k]}), phase := Clearing(i, k + 1))
      else if i < |STAGES| then
        w.(phase := Working(i), used := w.used + Uses(w.dir.artifacts, STAGES[i].inputs, w.id),
           trace := w.trace + [Started(STAGES[i].name, w.dir.artifacts)])
      else w.(phase := Failing)
    case Working(i) => w
    case Checking(i) =>
      if i < |STAGES| && Met(STAGES[i].required, w.dir.artifacts)
      then w.(phase := Completing(i, w.dir.artifacts)) else w.(phase := Failing)
    case Completing(i, seen) =>
      if i < |STAGES| then Recorded(w, digest, "done", Entering(i + 1), [Completed(STAGES[i].name, seen)])
      else w.(phase := Failing)
    case Closing => Recorded(w, digest, "CAMPAIGN done", Idle, [CampaignDone])
    case Failing =>
      var r := WriteStatus(w.dir, w.id, digest, "CAMPAIGN failed");
      if r.Ok? then w.(dir := r.value, phase := Idle) else w.(phase := Idle)
  }

  predicate Enabled(w: World, a: Action) {
    match a
    case Begin(id) => w.phase.Idle? && id.Dict?
    case BeginValidation(id) => w.phase.Idle? && id.Dict?
    case ProbeEnds(_) => w.phase.Probing?
    case Next => !w.phase.Idle? && !w.phase.Working? && !w.phase.Probing?
    case Produce(artifact, _) =>
      || (w.phase.Working? && w.phase.i < |STAGES| && artifact in STAGES[w.phase.i].outputs)
      || (w.phase.Probing? && artifact == Activation)
    case ToolEnds(_) => w.phase.Working? && w.phase.i < |STAGES|
    case SkipBench => w.phase.Entering? && w.phase.i == FIRST_BENCH_STAGE
    case Die => !w.phase.Idle?
    case DeleteArtifact(_) => true
    case DeleteStatus => true
  }

  function Step(w: World, a: Action, digest: Digest): World
    requires Enabled(w, a)
  {
    match a
    case Begin(id) => w.(phase := Starting, id := id, trace := w.trace + [Began])
    case BeginValidation(id) => w.(phase := Binding, id := id, trace := w.trace + [Began])
    case ProbeEnds(ok) => w.(phase := if ok then Starting else Idle)
    case Next => ProgramStep(w, digest)
    case Produce(artifact, size) =>
      w.(dir := w.dir.(artifacts := w.dir.artifacts[artifact := Content(size, w.id)]))
    case ToolEnds(ok) =>
      w.(phase := if ok then Checking(w.phase.i) else Failing,
         trace := w.trace + [ToolsEnded(STAGES[w.phase.i].name, ok)])
    case SkipBench => w.(phase := Closing)
    case Die => w.(phase := Idle)
    case DeleteArtifact(artifact) => w.(dir := w.dir.(artifacts := w.dir.artifacts - {artifact}))
    case DeleteStatus => w.(dir := w.dir.(status := Missing))
  }

  // ------------------------------------------------------------------
  // The invariant

  /** The run has passed its first gate and may touch stage files. */
  predicate PastGate(p: Phase) { !(p.Idle? || p.Binding? || p.Starting? || p.Failing?) }

  /** The status is the run's own, or was deleted under it. */
  ghost predicate OwnStatus(w: World, digest: Digest) {
    w.dir.status == Missing || (Trusted(w.dir.status, digest) && w.dir.status.identity == Some(w.id))
  }

  ghost predicate NothingMixed(used: seq<(Tree, Tree)>) {
    forall i :: 0 <= i < |used| ==> used[i].0 == used[i].1
  }

  ghost predicate Inv(w: World, digest: Digest) {
    && Attributed(w.dir, digest)
    && (!w.phase.Idle? ==> w.id.Dict?)
    && (PastGate(w.phase) ==> OwnStatus(w, digest) && ProducedUnder(w.dir.artifacts, w.id))
    && NothingMixed(w.used)
  }

  /** A directory as found: anything in it, unless a trusted status vouches for the files. */
  ghost predicate Init(w: World, digest: Digest) {
    w.phase.Idle? && w.used == [] && w.trace == [] && Attributed(w.dir, digest)
  }

  lemma {:induction false} UsesOwn(files: map<Artifact, Content>, names: seq<Artifact>, id: Tree)
    requires ProducedUnder(files, id)
    ensures NothingMixed(Uses(files, names, id))
  {
    if names != [] { UsesOwn(files, names[1..], id); }
  }

  lemma {:induction false} RecordedKeeps(w: World, digest: Digest, entry: string, next: Phase, events: seq<Event>)
    requires Separates(digest) && Inv(w, digest) && w.id.Dict? && PastGate(w.phase)
    ensures Inv(Recorded(w, digest, entry, next, events), digest)
  {
    if WriteStatus(w.dir, w.id, digest, entry).Ok? {
      EnsureAttributes(w.dir, w.id, digest);
      EnsureOpensIff(w.dir, w.id, digest);
    }
  }

  lemma {:induction false} FailingKeeps(w: World, digest: Digest)
    requires Separates(digest) && Inv(w, digest) && w.phase.Failing?
    ensures Inv(ProgramStep(w, digest), digest)
  {
    if WriteStatus(w.dir, w.id, digest, "CAMPAIGN failed").Ok? {
      EnsureAttributes(w.dir, w.id, digest);
      EnsureOpensIff(w.dir, w.id, digest);
    }
  }

  lemma {:induction false} ProgramKeeps(w: World, digest: Digest)
    requires Separates(digest) && Inv(w, digest) && !w.phase.Idle?
    ensures Inv(ProgramStep(w, digest), digest)
  {
    match w.phase {
      case Binding =>
        if Ensure(w.dir, w.id, digest).Ok? {
          EnsureAttributes(w.dir, w.id, digest);
          EnsureOpensIff(w.dir, w.id, digest);
        }
      case Probing =>
      case Starting =>
        if Ensure(w.dir, w.id, digest).Ok? {
          EnsureAttributes(w.dir, w.id, digest);
          EnsureOpensIff(w.dir, w.id, digest);
        }
      case Entering(i) => if i < |STAGES| { UsesOwn(w.dir.artifacts, STAGES[i].resume.files, w.id); }
      case Resuming(i, seen) =>
        if i < |STAGES| {
          RecordedKeeps(w, digest, "done (resumed)", Entering(i + 1), [Resumed(STAGES[i].name, seen)]);
        }
      case Announcing(i) => RecordedKeeps(w, digest, "running", Clearing(i, 0), []);
      case Clearing(i, k) => if i < |STAGES| { UsesOwn(w.dir.artifacts, STAGES[i].inputs, w.id); }
      case Completing(i, seen) =>
        if i < |STAGES| {
          RecordedKeeps(w, digest, "done", Entering(i + 1), [Completed(STAGES[i].name, seen)]);
        }
      case Closing => RecordedKeeps(w, digest, "CAMPAIGN done", Idle, [CampaignDone]);
      case Failing => FailingKeeps(w, digest);
      case Working(_) =>
      case Checking(_) =>
    }
  }

  /** Every step of a run, a death or an operator keeps the invariant. */
  lemma {:induction false} StepKeeps(w: World, a: Action, digest: Digest)
    requires Separates(digest) && Inv(w, digest) && Enabled(w, a)
    ensures Inv(Step(w, a, digest), digest)
  {
    if a.Next? { ProgramKeeps(w, digest); }
  }

  // ------------------------------------------------------------------
  // Whole histories

  ghost function After(w: World, actions: seq<Action>, digest: Digest): World
    decreases |actions|
  {
    if actions == [] then w
    else if Enabled(w, actions[0]) then After(Step(w, actions[0], digest), actions[1..], digest)
    else After(w, actions[1..], digest)
  }

  lemma {:induction false} HistoryKeeps(w: World, actions: seq<Action>, digest: Digest)
    requires Separates(digest) && Inv(w, digest)
    ensures Inv(After(w, actions, digest), digest)
    decreases |actions|
  {
    if actions != [] {
      if Enabled(w, actions[0]) {
        StepKeeps(w, actions[0], digest);
        HistoryKeeps(Step(w, actions[0], digest), actions[1..], digest);
      } else {
        HistoryKeeps(w, actions[1..], digest);
      }
    }
  }

  /**
   Over every history, every stage artifact present while the status is bound was produced
   under exactly the bound identity, and no run ever resumed from or read a file of another.
   */
  lemma {:induction false} NeverMixed(w: World, actions: seq<Action>, digest: Digest)
    requires Separates(digest) && Init(w, digest)
    ensures var w' := After(w, actions, digest);
      && (Trusted(w'.dir.status, digest) ==> ProducedUnder(w'.dir.artifacts, w'.dir.status.identity.value))
      && forall i :: 0 <= i < |w'.used| ==> w'.used[i].0 == w'.used[i].1
  {
    HistoryKeeps(w, actions, digest);
  }

  /** A run the gate refuses ends without changing the status or any artifact. */
  lemma {:induction false} RefusedRunChangesNothing(w: World, digest: Digest)
    requires (w.phase.Starting? || w.phase.Binding?) && Ensure(w.dir, w.id, digest).Err?
    ensures Step(w, Next, digest).dir == w.dir
    ensures w.phase.Binding? ==> Step(w, Next, digest).phase.Idle?
    ensures w.phase.Starting? ==>
      var w1 := Step(w, Next, digest);
      w1.phase.Failing? && var w2 := Step(w1, Next, digest); w2.phase.Idle? && w2.dir == w.dir
  {
    RefusedTwice(w.dir, w.id, digest, "CAMPAIGN failed");
  }
}
