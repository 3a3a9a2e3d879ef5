/**
 The traces that tools/bigcherry/pool_protocol.py accepts, written out by the names that stand
 in them, for every trace.
 */
module PoolTraces {
  import opened Wrappers
  import opened PoolProtocol

  // ------------------------------------------------------------------
  // The accepted traces

  ghost predicate KnownEvent(name: string) {
    || name == "clear_cache" || name == "warmup_begin" || name == "warmup_complete" || name == "synchronize"
    || name == "rebase_peak" || name == "timed_sample_begin" || name == "timed_sample_end"
  }

  /** An object with a known stage and event, which neither clears nor rebases in a shared stage. */
  ghost predicate GoodRow(row: Row) {
    && row.Row? && row.stage.Some? && row.event.Some?
    && (row.stage.value == "isolated_workspace" || row.stage.value == "final" || row.stage.value == "confirmation")
    && KnownEvent(row.event.value)
    && !((row.stage.value == "final" || row.stage.value == "confirmation") &&
         (row.event.value == "clear_cache" || row.event.value == "rebase_peak"))
  }

  /** The event names of the isolated rows, in order. */
  ghost function IsolatedNames(rows: seq<Row>): seq<string> {
    if rows == [] then []
    else
      (if rows[0].Row? && rows[0].stage == Some("isolated_workspace") && rows[0].event.Some?
       then [rows[0].event.value] else [])
      + IsolatedNames(rows[1..])
  }

  /** Stray ends. */
  ghost function Strays(n: nat): seq<string> {
    if n == 0 then [] else ["timed_sample_end"] + Strays(n - 1)
  }

  /** Timed samples. */
  ghost function Samples(n: nat): seq<string> {
    if n == 0 then [] else ["timed_sample_begin", "timed_sample_end"] + Samples(n - 1)
  }

  /** The five lifecycle events in order, stray ends before each, and then `n` samples. */
  ghost function Protocol(gaps: seq<nat>, n: nat): seq<string>
    requires |gaps| == 5
  {
    Strays(gaps[0]) + (["clear_cache"] +
    (Strays(gaps[1]) + (["warmup_begin"] +
    (Strays(gaps[2]) + (["warmup_complete"] +
    (Strays(gaps[3]) + (["synchronize"] +
    (Strays(gaps[4]) + (["rebase_peak"] +
    Samples(n))))))))))
  }

  ghost predicate FollowsProtocol(names: seq<string>) {
    exists gaps: seq<nat>, n: nat :: |gaps| == 5 && n >= 1 && names == Protocol(gaps, n)
  }

  /** A valid trace. */
  ghost predicate WellFormed(rows: seq<Row>) {
    && rows != []
    && (forall i :: 0 <= i < |rows| ==> GoodRow(rows[i]))
    && (IsolatedNames(rows) == [] || FollowsProtocol(IsolatedNames(rows)))
  }

  // ------------------------------------------------------------------
  // Names and events

  function NameOf(e: Event): string {
    match e
    case ClearCache => "clear_cache"
    case WarmupBegin => "warmup_begin"
    case WarmupComplete => "warmup_complete"
    case Synchronize => "synchronize"
    case RebasePeak => "rebase_peak"
    case SampleBegin => "timed_sample_begin"
    case SampleEnd => "timed_sample_end"
  }

  ghost function NamesOf(events: seq<Event>): (r: seq<string>)
    ensures |r| == |events|
  {
    if events == [] then [] else [NameOf(events[0])] + NamesOf(events[1..])
  }

  lemma {:induction false} EventNames(name: string)
    ensures KnownEvent(name) <==> ParseEvent(name).Some?
    ensures ParseEvent(name).Some? ==> NameOf(ParseEvent(name).value) == name
  {
  }

  lemma {:induction false} StageNames(name: string)
    ensures ParseStage(name) == Some(IsolatedWorkspace) <==> name == "isolated_workspace"
    ensures ParseStage(name) == Some(Final) <==> name == "final"
    ensures ParseStage(name) == Some(Confirmation) <==> name == "confirmation"
  {
  }

  lemma {:induction false} CleanIsGood(row: Row)
    ensures Clean(row) <==> GoodRow(row)
  {
    if row.Row? && row.stage.Some? && row.event.Some? {
      EventNames(row.event.value);
      StageNames(row.stage.value);
    }
  }

  lemma {:induction false} IsolatedAreNamed(rows: seq<Row>)
    requires forall i :: 0 <= i < |rows| ==> GoodRow(rows[i])
    ensures NamesOf(Isolated(rows)) == IsolatedNames(rows)
  {
    if rows != [] {
      var row := rows[0];
      IsolatedAreNamed(rows[1..]);
      CleanIsGood(row);
      EventNames(row.event.value);
      StageNames(row.stage.value);
      if row.stage.value == "isolated_workspace" {
        var e := ParseEvent(row.event.value).value;
        assert Isolated(rows) == [e] + Isolated(rows[1..]);
        assert ([e] + Isolated(rows[1..]))[1..] == Isolated(rows[1..]);
      } else {
        assert Isolated(rows) == Isolated(rows[1..]);
      }
    }
  }

  lemma {:induction false} NamesAppend(a: seq<Event>, b: seq<Event>)
    ensures NamesOf(a + b) == NamesOf(a) + NamesOf(b)
  {
    if a == [] {
      assert a + b == b;
    } else {
      NamesAppend(a[1..], b);
      assert (a + b)[0] == a[0] && (a + b)[1..] == a[1..] + b;
      assert NamesOf(a) == [NameOf(a[0])] + NamesOf(a[1..]);
      assert NamesOf(a + b) == [NameOf(a[0])] + (NamesOf(a[1..]) + NamesOf(b));
    }
  }

  lemma {:induction false} NamesInjective(a: seq<Event>, b: seq<Event>)
    requires NamesOf(a) == NamesOf(b)
    ensures a == b
  {
    if a != [] {
      assert NamesOf(a)[0] == NamesOf(b)[0];
      assert NamesOf(a)[1..] == NamesOf(a[1..]) && NamesOf(b)[1..] == NamesOf(b[1..]);
      NamesInjective(a[1..], b[1..]);
      assert a == [a[0]] + a[1..] && b == [b[0]] + b[1..];
    }
  }

  // ------------------------------------------------------------------
  // The machine on a protocol run

  ghost function StrayEvents(n: nat): seq<Event> {
    if n == 0 then [] else [SampleEnd] + StrayEvents(n - 1)
  }

  ghost function SampleEvents(n: nat): seq<Event> {
    if n == 0 then [] else [SampleBegin, SampleEnd] + SampleEvents(n - 1)
  }

  /** The last `|gaps|` lifecycle events with stray ends before each, and `n` samples. */
  ghost function ProtocolEvents(gaps: seq<nat>, n: nat): seq<Event>
    requires |gaps| <= 5
  {
    if gaps == [] then SampleEvents(n)
    else StrayEvents(gaps[0]) + ([Required(5 - |gaps|)] + ProtocolEvents(gaps[1..], n))
  }

  lemma {:induction false} RunAppend(m: Machine, a: seq<Event>, b: seq<Event>)
    ensures RunEvents(m, a + b) == RunEvents(RunEvents(m, a), b)
    decreases |a|
  {
    if a == [] {
      assert a + b == b;
    } else {
      RunAppend(Step(m, a[0]), a[1..], b);
      assert (a + b)[1..] == a[1..] + b;
    }
  }

  lemma {:induction false} StraysKeep(n: nat, done: nat)
    requires done < 5
    ensures RunEvents(Lifecycle(done), StrayEvents(n)) == Lifecycle(done)
  {
    if n != 0 {
      StraysKeep(n - 1, done);
      assert ([SampleEnd] + StrayEvents(n - 1))[1..] == StrayEvents(n - 1);
    }
  }

  lemma {:induction false} SamplesRun(n: nat, any: bool)
    ensures RunEvents(Timing(false, any), SampleEvents(n)) == Timing(false, any || n >= 1)
  {
    if n != 0 {
      var s := SampleEvents(n);
      SamplesRun(n - 1, true);
      assert s[1..] == [SampleEnd] + SampleEvents(n - 1) && s[1..][1..] == SampleEvents(n - 1);
      assert RunEvents(Timing(false, any), s) == RunEvents(Timing(true, true), s[1..]);
    }
  }

  /** The machine that has seen all but the last `left` lifecycle events. */
  function Before(left: nat): Machine
    requires left <= 5
  {
    if left == 0 then Timing(false, false) else Lifecycle(5 - left)
  }

  lemma {:induction false} ProtocolRuns(gaps: seq<nat>, n: nat)
    requires |gaps| <= 5 && n >= 1
    ensures RunEvents(Before(|gaps|), ProtocolEvents(gaps, n)) == Timing(false, true)
    decreases |gaps|
  {
    if gaps == [] {
      SamplesRun(n, false);
    } else {
      var done := 5 - |gaps|;
      var rest := ProtocolEvents(gaps[1..], n);
      StraysKeep(gaps[0], done);
      RunAppend(Lifecycle(done), StrayEvents(gaps[0]), [Required(done)] + rest);
      assert ([Required(done)] + rest)[1..] == rest;
      ProtocolRuns(gaps[1..], n);
    }
  }

  lemma {:induction false} Pairs(t: seq<Event>) returns (n: nat)
    requires Alternates(t, false)
    ensures t == SampleEvents(n)
    decreases |t|
  {
    if t == [] {
      n := 0;
    } else {
      assert t[1..] != [] && t[1] == SampleEnd;
      var m := Pairs(t[1..][1..]);
      n := m + 1;
      assert t == [SampleBegin, SampleEnd] + t[1..][1..];
    }
  }

  /** What the machine accepts is a protocol run. */
  lemma {:induction false} AcceptedRun(s: seq<Event>, left: nat) returns (gaps: seq<nat>, n: nat)
    requires left <= 5 && Accepting(RunEvents(Before(left), s))
    ensures |gaps| == left && n >= 1 && s == ProtocolEvents(gaps, n)
    decreases |s|, left
  {
    if left == 0 {
      TimingRun(s, false, false);
      n := Pairs(s);
      gaps := [];
    } else {
      AcceptedStep(s, left);
      if s[0] == Required(5 - left) {
        var rest, m := AcceptedRun(s[1..], left - 1);
        gaps, n := [0] + rest, m;
        assert gaps[1..] == rest;
        assert StrayEvents(0) == [] && s == [s[0]] + s[1..];
      } else {
        var same, m := AcceptedRun(s[1..], left);
        gaps, n := same[0 := same[0] + 1], m;
        assert gaps[1..] == same[1..];
        assert StrayEvents(same[0] + 1) == [SampleEnd] + StrayEvents(same[0]);
        assert s == [s[0]] + s[1..];
      }
    }
  }

  lemma {:induction false} AcceptedStep(s: seq<Event>, left: nat)
    requires 1 <= left <= 5 && Accepting(RunEvents(Before(left), s))
    ensures s != [] && (s[0] == Required(5 - left) || s[0] == SampleEnd)
    ensures s[0] == Required(5 - left) ==> Accepting(RunEvents(Before(left - 1), s[1..]))
    ensures s[0] != Required(5 - left) ==> Accepting(RunEvents(Before(left), s[1..]))
  {
    if s != [] && s[0] != Required(5 - left) && s[0] != SampleEnd { RejectedEvents(s[1..]); }
  }

  // ------------------------------------------------------------------
  // Main result

  lemma {:induction false} StrayNames(n: nat)
    ensures NamesOf(StrayEvents(n)) == Strays(n)
  {
    if n != 0 {
      StrayNames(n - 1);
      assert ([SampleEnd] + StrayEvents(n - 1))[1..] == StrayEvents(n - 1);
    }
  }

  lemma {:induction false} SampleNames(n: nat)
    ensures NamesOf(SampleEvents(n)) == Samples(n)
  {
    if n != 0 {
      SampleNames(n - 1);
      NamesAppend([SampleBegin, SampleEnd], SampleEvents(n - 1));
      assert [SampleBegin, SampleEnd][1..] == [SampleEnd] && [SampleEnd][1..] == [];
      assert NamesOf([SampleBegin, SampleEnd]) == ["timed_sample_begin", "timed_sample_end"];
    }
  }

  /** The next lifecycle event by name. */
  lemma {:induction false} NextNames(gaps: seq<nat>, n: nat)
    requires 1 <= |gaps| <= 5
    ensures NamesOf(ProtocolEvents(gaps, n))
      == Strays(gaps[0]) + ([NameOf(Required(5 - |gaps|))] + NamesOf(ProtocolEvents(gaps[1..], n)))
  {
    var e, rest := Required(5 - |gaps|), ProtocolEvents(gaps[1..], n);
    StrayNames(gaps[0]);
    NamesAppend(StrayEvents(gaps[0]), [e] + rest);
    assert ([e] + rest)[1..] == rest;
  }

  lemma {:induction false} ProtocolNames(gaps: seq<nat>, n: nat)
    requires |gaps| == 5
    ensures NamesOf(ProtocolEvents(gaps, n)) == Protocol(gaps, n)
  {
    var g1, g2, g3, g4 := gaps[1..], gaps[2..], gaps[3..], gaps[4..];
    assert g1[1..] == g2 && g2[1..] == g3 && g3[1..] == g4 && g4[1..] == [];
    NextNames(gaps, n);
    NextNames(g1, n);
    NextNames(g2, n);
    NextNames(g3, n);
    NextNames(g4, n);
    SampleNames(n);
  }

  lemma {:induction false} AcceptingIff(events: seq<Event>)
    requires events != []
    ensures Accepting(RunEvents(Idle, events)) <==> FollowsProtocol(NamesOf(events))
  {
    IdleStarts(events);
    if Accepting(RunEvents(Idle, events)) {
      var gaps, n := AcceptedRun(events, 5);
      ProtocolNames(gaps, n);
    }
    if FollowsProtocol(NamesOf(events)) {
      var gaps: seq<nat>, n: nat :| |gaps| == 5 && n >= 1 && NamesOf(events) == Protocol(gaps, n);
      ProtocolNames(gaps, n);
      NamesInjective(events, ProtocolEvents(gaps, n));
      ProtocolRuns(gaps, n);
    }
  }

  /** The machine, and so the validator, accepts exactly the well-formed traces. */
  lemma {:induction false} AcceptsIff(rows: seq<Row>)
    ensures Accepts(rows) <==> WellFormed(rows)
  {
    forall i | 0 <= i < |rows| ensures Clean(rows[i]) <==> GoodRow(rows[i]) { CleanIsGood(rows[i]); }
    RunProjects(Idle, rows);
    if forall i :: 0 <= i < |rows| ==> GoodRow(rows[i]) {
      IsolatedAreNamed(rows);
      if Isolated(rows) != [] { AcceptingIff(Isolated(rows)); }
    }
  }
}
