/**
 The pool-cache trace validator of tools/bigcherry/pool_protocol.py: a batch of counting,
 position and pairing checks that accepts what a one-pass machine accepts.
 */
module PoolProtocol {
  import opened Wrappers

  datatype Event = ClearCache | WarmupBegin | WarmupComplete | Synchronize | RebasePeak | SampleBegin | SampleEnd
  datatype Stage = IsolatedWorkspace | Final | Confirmation

  /** One row of the trace as it arrives; `None` is an absent or non-string field. */
  datatype Row = NotAnObject | Row(stage: Option<string>, event: Option<string>)

  datatype ProtocolError =
    | EmptyTrace
    | NotAnObjectAt(index: nat)
    | NoStageAt(index: nat)
    | UnknownEventAt(index: nat)
    | UnknownStageAt(index: nat)
    | ForbiddenAt(index: nat)
    | NotExactlyOne(event: Event)
    | OutOfOrder
    | BeginsBeforeRebase
    | NoTimedSamples
    | LifecycleAfterRebase
    | SamplesOverlap
    | EndsWithoutBegin
    | BeginsWithoutEnd

  function ParseEvent(name: string): Option<Event> {
    match name
    case "clear_cache" => Some(ClearCache)
    case "warmup_begin" => Some(WarmupBegin)
    case "warmup_complete" => Some(WarmupComplete)
    case "synchronize" => Some(Synchronize)
    case "rebase_peak" => Some(RebasePeak)
    case "timed_sample_begin" => Some(SampleBegin)
    case "timed_sample_end" => Some(SampleEnd)
    case _ => None
  }

  function ParseStage(name: string): Option<Stage> {
    match name
    case "isolated_workspace" => Some(IsolatedWorkspace)
    case "final" => Some(Final)
    case "confirmation" => Some(Confirmation)
    case _ => None
  }

  /** The checks of one row, in the order of the source. */
  function RowError(row: Row, index: nat): Option<ProtocolError> {
    if row.NotAnObject? then Some(NotAnObjectAt(index))
    else if row.stage.None? || row.stage.value == "" then Some(NoStageAt(index))
    else if row.event.None? || ParseEvent(row.event.value).None? then Some(UnknownEventAt(index))
    else if ParseStage(row.stage.value).None? then Some(UnknownStageAt(index))
    else if ParseStage(row.stage.value) != Some(IsolatedWorkspace) &&
            ParseEvent(row.event.value) in {Some(ClearCache), Some(RebasePeak)} then Some(ForbiddenAt(index))
    else None
  }

  ghost predicate Clean(row: Row) { RowError(row, 0).None? }

  // ------------------------------------------------------------------
  // The one-pass machine

  datatype Machine =
    | Idle                                // no isolated event yet
    | Lifecycle(done: nat)                // this many of the five lifecycle events, in order
    | Timing(open: bool, any: bool)       // after the rebase
    | Rejected

  /** The lifecycle events, in the order the protocol requires. */
  function Required(j: nat): Event
    requires j < 5
  {
    match j
    case 0 => ClearCache
    case 1 => WarmupBegin
    case 2 => WarmupComplete
    case 3 => Synchronize
    case 4 => RebasePeak
  }

  function LifecycleStep(done: nat, e: Event): Machine {
    if done < 5 && e == Required(done) then (if done == 4 then Timing(false, false) else Lifecycle(done + 1))
    else if e == SampleEnd then Lifecycle(done)
    else Rejected
  }

  function Step(m: Machine, e: Event): Machine {
    match m
    case Idle => LifecycleStep(0, e)
    case Lifecycle(done) => LifecycleStep(done, e)
    case Timing(open, any) =>
      if e == SampleBegin && !open then Timing(true, true)
      else if e == SampleEnd && open then Timing(false, any)
      else Rejected
    case Rejected => Rejected
  }

  function StepRow(m: Machine, row: Row): Machine {
    if RowError(row, 0).Some? then Rejected
    else if ParseStage(row.stage.value) != Some(IsolatedWorkspace) then m
    else Step(m, ParseEvent(row.event.value).value)
  }

  function Run(m: Machine, rows: seq<Row>): Machine
    decreases |rows|
  {
    if rows == [] then m else Run(StepRow(m, rows[0]), rows[1..])
  }

  predicate Accepting(m: Machine) { m == Idle || m == Timing(false, true) }

  /** The specification: a non-empty trace that leaves the machine accepting. */
  predicate Accepts(rows: seq<Row>) { rows != [] && Accepting(Run(Idle, rows)) }

  // ------------------------------------------------------------------
  // The isolated projection

  function Isolated(rows: seq<Row>): seq<Event> {
    if rows == [] then []
    else
      (if RowError(rows[0], 0).None? && ParseStage(rows[0].stage.value) == Some(IsolatedWorkspace)
       then [ParseEvent(rows[0].event.value).value] else [])
      + Isolated(rows[1..])
  }

  function RunEvents(m: Machine, events: seq<Event>): Machine
    decreases |events|
  {
    if events == [] then m else RunEvents(Step(m, events[0]), events[1..])
  }

  lemma {:induction false} RejectedStays(rows: seq<Row>)
    ensures Run(Rejected, rows) == Rejected
  {
    if rows != [] { RejectedStays(rows[1..]); }
  }

  lemma {:induction false} RejectedEvents(events: seq<Event>)
    ensures RunEvents(Rejected, events) == Rejected
  {
    if events != [] { RejectedEvents(events[1..]); }
  }

  /** Interleaved rows do not matter beyond being clean. */
  lemma {:induction false} RunProjects(m: Machine, rows: seq<Row>)
    ensures Run(m, rows) ==
      if forall i :: 0 <= i < |rows| ==> Clean(rows[i]) then RunEvents(m, Isolated(rows)) else Rejected
    decreases |rows|
  {
    if rows != [] {
      RunProjects(StepRow(m, rows[0]), rows[1..]);
      if !Clean(rows[0]) {
        RejectedStays(rows[1..]);
      } else if forall i :: 0 <= i < |rows[1..]| ==> Clean(rows[1..][i]) {
        forall i | 0 <= i < |rows| ensures Clean(rows[i]) {
          if i > 0 { assert rows[i] == rows[1..][i - 1]; }
        }
        var s := Isolated(rows);
        assert ParseStage(rows[0].stage.value) == Some(IsolatedWorkspace) ==> s[1..] == Isolated(rows[1..]);
        assert ParseStage(rows[0].stage.value) != Some(IsolatedWorkspace) ==> s == Isolated(rows[1..]);
      } else {
        var i :| 0 <= i < |rows[1..]| && !Clean(rows[1..][i]);
        assert rows[i + 1] == rows[1..][i];
      }
    }
  }

  // ------------------------------------------------------------------
  // The batch checks

  function Count(s: seq<Event>, e: Event): nat {
    if s == [] then 0 else (if s[0] == e then 1 else 0) + Count(s[1..], e)
  }

  /** `isolated.index(event)`, or the length when there is none. */
  function Index(s: seq<Event>, e: Event): (i: nat)
    ensures i <= |s|
    ensures i < |s| <==> e in s
    ensures i < |s| ==> s[i] == e
  {
    if s == [] || s[0] == e then 0 else 1 + Index(s[1..], e)
  }

  lemma {:induction false} CountMember(s: seq<Event>, e: Event)
    ensures Count(s, e) > 0 <==> e in s
  {
    if s != [] { CountMember(s[1..], e); }
  }

  /** Samples alternate and are all closed. */
  predicate Alternates(timed: seq<Event>, open: bool) {
    if timed == [] then !open
    else if timed[0] == SampleBegin then !open && Alternates(timed[1..], true)
    else if timed[0] == SampleEnd then open && Alternates(timed[1..], false)
    else false
  }

  /** The batch conditions with the first `j` lifecycle events already consumed. */
  ghost predicate BatchFrom(s: seq<Event>, j: nat)
    requires j < 5
  {
    && (forall m: nat :: m < 5 ==> Count(s, Required(m)) == if m < j then 0 else 1)
    && InOrder(s, j)
    && Finishes(s)
  }

  /** The lifecycle events from `j` on occur at rising positions. */
  ghost predicate InOrder(s: seq<Event>, j: nat) {
    forall m: nat :: j <= m < 4 ==> Index(s, Required(m)) < Index(s, Required(m + 1))
  }

  lemma {:induction false} TimingRun(t: seq<Event>, open: bool, any: bool)
    requires open ==> any
    ensures Accepting(RunEvents(Timing(open, any), t)) <==> Alternates(t, open) && (any || t != [])
  {
    if t != [] {
      var next := Step(Timing(open, any), t[0]);
      if next == Rejected {
        RejectedEvents(t[1..]);
      } else {
        TimingRun(t[1..], next.open, next.any);
      }
    }
  }

  lemma {:induction false} AlternatesHasNoLifecycle(t: seq<Event>, open: bool, m: nat)
    requires m < 5 && Alternates(t, open)
    ensures Count(t, Required(m)) == 0
  {
    if t != [] { AlternatesHasNoLifecycle(t[1..], t[0] == SampleBegin, m); }
  }

  /** A part of the batch conditions that only concerns what follows the rebase. */
  ghost predicate Finishes(s: seq<Event>) {
    var r := Index(s, RebasePeak);
    r < |s| && SampleBegin !in s[..r] && s[r + 1..] != [] && Alternates(s[r + 1..], false)
  }

  lemma {:induction false} FinishesTail(s: seq<Event>)
    requires s != [] && s[0] != RebasePeak && s[0] != SampleBegin
    ensures Finishes(s) <==> Finishes(s[1..])
  {
    var r := Index(s[1..], RebasePeak);
    if r < |s[1..]| {
      assert s[r + 2..] == s[1..][r + 1..];
      assert s[..r + 1] == [s[0]] + s[1..][..r];
    }
  }

  /** The next lifecycle event, or a stray sample end, can be taken off the front. */
  lemma {:induction false} LifecycleTail(s: seq<Event>, j: nat)
    requires j < 4 && s != [] && s[0] == Required(j)
    ensures BatchFrom(s, j) <==> BatchFrom(s[1..], j + 1)
  {
    FinishesTail(s);
    InOrderTail(s, j);
  }

  lemma {:induction false} InOrderTail(s: seq<Event>, j: nat)
    requires j < 4 && s != [] && s[0] == Required(j)
    ensures InOrder(s, j) <==> InOrder(s[1..], j + 1)
  {
    assert Index(s, Required(j)) == 0;
    forall m: nat | j < m < 5 ensures Index(s, Required(m)) == 1 + Index(s[1..], Required(m)) { }
  }

  lemma {:induction false} StrayTail(s: seq<Event>, j: nat)
    requires j < 5 && s != [] && s[0] == SampleEnd
    ensures BatchFrom(s, j) <==> BatchFrom(s[1..], j)
  {
    FinishesTail(s);
  }

  function Order(e: Event): nat {
    match e
    case ClearCache => 0
    case WarmupBegin => 1
    case WarmupComplete => 2
    case Synchronize => 3
    case RebasePeak => 4
    case SampleBegin => 5
    case SampleEnd => 6
  }

  /** Anything else in front breaks the batch conditions. */
  lemma {:induction false} BatchHead(s: seq<Event>, j: nat)
    requires j < 5 && s != [] && s[0] != Required(j) && s[0] != SampleEnd
    ensures !BatchFrom(s, j)
  {
    var m := Order(s[0]);
    if s[0] == SampleBegin {
      assert Index(s, RebasePeak) > 0;
      assert s[..Index(s, RebasePeak)][0] == SampleBegin;
    } else if m > j {
      assert s[0] == Required((m - 1) + 1);
      assert !(Index(s, Required(m - 1)) < Index(s, Required((m - 1) + 1)));
    } else {
      assert Count(s, Required(m)) >= 1;
    }
  }

  /** The batch checks accept exactly what the machine accepts. */
  lemma {:induction false} BatchIsMachine(s: seq<Event>, j: nat)
    requires j < 5
    ensures BatchFrom(s, j) <==> Accepting(RunEvents(Lifecycle(j), s))
    decreases |s|
  {
    if s == [] {
      assert Count(s, Required(4)) == 0;
    } else if s[0] == SampleEnd {
      StrayTail(s, j);
      BatchIsMachine(s[1..], j);
    } else if s[0] != Required(j) {
      BatchHead(s, j);
      RejectedEvents(s[1..]);
    } else if j < 4 {
      LifecycleTail(s, j);
      BatchIsMachine(s[1..], j + 1);
    } else {
      TimingRun(s[1..], false, false);
      LastStep(s);
    }
  }

  lemma {:induction false} LastStep(s: seq<Event>)
    requires s != [] && s[0] == RebasePeak
    ensures BatchFrom(s, 4) <==> s[1..] != [] && Alternates(s[1..], false)
  {
    if Alternates(s[1..], false) {
      forall m: nat | m < 5 ensures Count(s[1..], Required(m)) == 0 {
        AlternatesHasNoLifecycle(s[1..], false, m);
      }
    }
  }

  // ------------------------------------------------------------------
  // validate_pool_protocol

  /** The counting and position checks of the isolated events; the position of the rebase. */
  method CheckLifecycle(isolated: seq<Event>) returns (r: Result<nat, ProtocolError>)
    ensures r.Ok? <==>
      && (forall m: nat :: m < 5 ==> Count(isolated, Required(m)) == 1)
      && (forall m: nat :: m < 4 ==> Index(isolated, Required(m)) < Index(isolated, Required(m + 1)))
    ensures r.Ok? ==> r.value == Index(isolated, RebasePeak) < |isolated|
  {
    var positions: seq<nat> := [];
    for m := 0 to 5
      invariant |positions| == m
      invariant forall k: nat :: k < m ==>
        Count(isolated, Required(k)) == 1 && positions[k] == Index(isolated, Required(k))
    {
      if Count(isolated, Required(m)) != 1 {
        return Err(NotExactlyOne(Required(m)));
      }
      positions := positions + [Index(isolated, Required(m))];
    }
    for m := 0 to 4
      invariant forall k: nat :: k < m ==> Index(isolated, Required(k)) < Index(isolated, Required(k + 1))
    {
      assert positions[m + 1] == Index(isolated, Required(m + 1));
      if positions[m] >= positions[m + 1] {
        return Err(OutOfOrder);
      }
    }
    CountMember(isolated, RebasePeak);
    assert Required(4) == RebasePeak;
    return Ok(positions[4]);
  }

  /** The pairing loop. */
  method CheckTimed(timed: seq<Event>) returns (r: Option<ProtocolError>)
    ensures r.None? <==> Alternates(timed, false)
  {
    var timingOpen := false;
    for i := 0 to |timed|
      invariant Alternates(timed, false) == Alternates(timed[i..], timingOpen)
    {
      assert timed[i..][1..] == timed[i + 1..];
      if timed[i] == SampleBegin {
        if timingOpen {
          return Some(SamplesOverlap);
        }
        timingOpen := true;
      } else if timed[i] == SampleEnd {
        if !timingOpen {
          return Some(EndsWithoutBegin);
        }
        timingOpen := false;
      } else {
        return Some(LifecycleAfterRebase);
      }
    }
    if timingOpen {
      return Some(BeginsWithoutEnd);
    }
    return None;
  }

  /** The checks of a non-empty isolated projection. */
  method CheckIsolated(isolated: seq<Event>) returns (r: Option<ProtocolError>)
    ensures r.None? <==> BatchFrom(isolated, 0)
  {
    var rebase := CheckLifecycle(isolated);
    if rebase.Err? {
      return Some(rebase.error);
    }
    var cut := rebase.value;
    assert isolated[..cut + 1] == isolated[..cut] + [RebasePeak];
    if SampleBegin in isolated[..cut + 1] {
      return Some(BeginsBeforeRebase);
    }
    var timed := isolated[cut + 1..];
    if timed == [] {
      return Some(NoTimedSamples);
    }
    r := CheckTimed(timed);
  }

  /** `validate_pool_protocol` accepts a trace iff the one-pass machine does. */
  method ValidatePoolProtocol(rows: seq<Row>) returns (r: Option<ProtocolError>)
    ensures r.None? <==> Accepts(rows)
    ensures rows == [] ==> r == Some(EmptyTrace)
    ensures (exists i :: 0 <= i < |rows| && RowError(rows[i], i).Some?) ==>
      exists i :: 0 <= i < |rows| && r == RowError(rows[i], i) && forall k :: 0 <= k < i ==> Clean(rows[k])
  {
    if rows == [] {
      return Some(EmptyTrace);
    }
    for index := 0 to |rows|
      invariant forall k :: 0 <= k < index ==> Clean(rows[k])
    {
      r := RowError(rows[index], index);
      if r.Some? {
        RunProjects(Idle, rows);
        assert !Clean(rows[index]);
        return;
      }
    }
    RunProjects(Idle, rows);
    var isolated := Isolated(rows);
    if isolated == [] {
      return None;
    }
    IdleStarts(isolated);
    BatchIsMachine(isolated, 0);
    r := CheckIsolated(isolated);
  }

  lemma {:induction false} IdleStarts(events: seq<Event>)
    requires events != []
    ensures RunEvents(Idle, events) == RunEvents(Lifecycle(0), events)
  {
  }
}
