/**
 Hash-aware stage execution of tools/bigcherry/campaign/campaign.py. What lies outside the
 run in one pass (the executor's outcome for each stage, the resources others hold while a
 stage runs, and the reuse check) is arbitrary. The spec digest is injective: it is the spec.
 */
module Scheduler {
  import opened Wrappers
  import opened Sorting
  import opened StageGraph

  datatype StageState = Running | Succeeded | Reused | Failed | Blocked

  datatype Spec = Spec(id: string, kind: string, sourceSlice: Option<string>, buildPlan: Option<string>,
                       workload: Option<string>, deps: seq<string>)

  datatype StageRecord = StageRecord(id: string, state: StageState, spec: Spec, outputs: seq<string>,
                                     error: Option<string>)

  datatype Outcome = Outputs(hashes: seq<string>) | Raised(error: string)

  /** One pass's surroundings. */
  datatype Env = Env(executor: string -> Outcome, busy: string -> set<string>, reuse: Option<StageRecord -> bool>)

  type Records = map<string, StageRecord>

  function SpecOf(n: StageNode): Spec { Spec(n.id, n.kind, n.sourceSlice, n.buildPlan, n.workload, n.deps) }

  predicate Done(s: StageState) { s == Succeeded || s == Reused }

  /** A dependency that failed, was blocked, or has no record. */
  predicate Broken(records: Records, dep: string) {
    dep !in records || records[dep].state == Failed || records[dep].state == Blocked
  }

  predicate HasBroken(records: Records, deps: seq<string>) {
    exists d :: d in deps && Broken(records, d)
  }

  predicate Reusable(previous: Option<StageRecord>, spec: Spec, env: Env) {
    && previous.Some?
    && previous.value.spec == spec
    && Done(previous.value.state)
    && env.reuse.Some?
    && env.reuse.value(previous.value)
  }

  /** The exclusive claims of a stage, in order. */
  function Exclusive(claims: seq<Claim>): seq<string> {
    if claims == [] then []
    else (if claims[0].exclusive then [claims[0].resourceId] else []) + Exclusive(claims[1..])
  }

  /** All claims can be acquired one after the other. */
  predicate Claimable(claims: seq<string>, taken: set<string>) {
    claims == [] || (claims[0] !in taken && Claimable(claims[1..], taken + {claims[0]}))
  }

  /** The stages `execute` calls the executor for. */
  predicate Calls(node: StageNode, broken: bool, previous: Option<StageRecord>, env: Env) {
    && !broken
    && !Reusable(previous, SpecOf(node), env)
    && Claimable(Exclusive(node.resources), env.busy(node.id))
  }

  /** The record `execute` leaves for a stage. */
  function Decide(node: StageNode, broken: bool, previous: Option<StageRecord>, env: Env): StageRecord {
    var spec := SpecOf(node);
    if broken then StageRecord(node.id, Blocked, spec, [], None)
    else if Reusable(previous, spec, env) then previous.value.(state := Reused)
    else if !Claimable(Exclusive(node.resources), env.busy(node.id)) then
      StageRecord(node.id, Failed, spec, [], Some("ResourceError"))
    else
      match env.executor(node.id)
      case Outputs(hashes) => StageRecord(node.id, Succeeded, spec, hashes, None)
      case Raised(error) => StageRecord(node.id, Failed, spec, [], Some(error))
  }

  function Get(records: Records, id: string): Option<StageRecord> {
    if id in records then Some(records[id]) else None
  }

  // ------------------------------------------------------------------
  // One pass

  /** The records and the executor calls after the first `k` stages. */
  ghost function Pass(g: Graph, before: Records, env: Env, k: nat): (Records, seq<string>)
    requires Valid(g) && k <= |g.order|
  {
    if k == 0 then (before, [])
    else
      var (records, calls) := Pass(g, before, env, k - 1);
      var id := g.order[k - 1];
      assert id in g.order;
      var node := g.nodes[id];
      var broken := HasBroken(records, node.deps);
      (records[id := Decide(node, broken, Get(records, id), env)],
       calls + if Calls(node, broken, Get(records, id), env) then [id] else [])
  }

  ghost function After(g: Graph, before: Records, env: Env): Records
    requires Valid(g)
  {
    Pass(g, before, env, |g.order|).0
  }

  ghost function CallsOf(g: Graph, before: Records, env: Env): seq<string>
    requires Valid(g)
  {
    Pass(g, before, env, |g.order|).1
  }

  /** Stages not yet reached keep their old record; reached ones keep their new one. */
  lemma {:induction false} PassFrame(g: Graph, before: Records, env: Env, i: nat, k: nat, id: string)
    requires Valid(g) && i <= k <= |g.order| && id !in g.order[i..k]
    ensures Get(Pass(g, before, env, k).0, id) == Get(Pass(g, before, env, i).0, id)
    ensures id in Pass(g, before, env, k).1 <==> id in Pass(g, before, env, i).1
  {
    if i < k {
      assert g.order[i..k] == g.order[i..k - 1] + [g.order[k - 1]];
      PassFrame(g, before, env, i, k - 1, id);
    }
  }

  /** A stage's record depends on its dependencies as the pass leaves them and on its own past. */
  ghost predicate Settled(g: Graph, before: Records, env: Env, id: string)
    requires Valid(g) && id in g.nodes
  {
    var after, node := After(g, before, env), g.nodes[id];
    var broken := HasBroken(after, node.deps);
    && id in after
    && after[id] == Decide(node, broken, Get(before, id), env)
    && (id in CallsOf(g, before, env) <==> Calls(node, broken, Get(before, id), env))
    && forall d :: d in node.deps ==> d in after
  }

  lemma {:induction false} Reached(g: Graph, before: Records, env: Env, k: nat, id: string)
    requires Valid(g) && k <= |g.order| && id in g.order[..k]
    ensures id in Pass(g, before, env, k).0
  {
    assert g.order[..k] == g.order[..k - 1] + [g.order[k - 1]];
    if id != g.order[k - 1] { Reached(g, before, env, k - 1, id); }
  }

  lemma {:induction false} DistinctSplit(order: seq<string>, i: nat)
    requires Distinct(order) && i < |order|
    ensures order[i] !in order[0..i] && order[i] !in order[i + 1..|order|]
    ensures forall d :: d in order[..i] ==> d !in order[i..|order|]
  {
    forall d | d in order[..i] ensures d !in order[i..|order|] {
      var a :| 0 <= a < i && order[a] == d;
      assert forall b :: i <= b < |order| ==> order[b] != d;
    }
  }

  /** The dependencies of a stage do not change after it is reached. */
  lemma {:induction false} DepsSettled(g: Graph, before: Records, env: Env, i: nat)
    requires Valid(g) && i < |g.order|
    ensures g.order[i] in g.nodes
    ensures forall d :: d in g.nodes[g.order[i]].deps ==>
      d in After(g, before, env) && Get(After(g, before, env), d) == Get(Pass(g, before, env, i).0, d)
  {
    assert g.order[i] in g.order;
    forall d | d in g.nodes[g.order[i]].deps
      ensures d in After(g, before, env) && Get(After(g, before, env), d) == Get(Pass(g, before, env, i).0, d)
    {
      assert d in g.order[..i];
      DistinctSplit(g.order, i);
      Reached(g, before, env, i, d);
      PassFrame(g, before, env, i, |g.order|, d);
    }
  }

  lemma {:induction false} BrokenAlike(a: Records, b: Records, deps: seq<string>)
    requires forall d :: d in deps ==> Get(a, d) == Get(b, d)
    ensures HasBroken(a, deps) <==> HasBroken(b, deps)
  {
    forall d | d in deps ensures Broken(a, d) <==> Broken(b, d) { }
  }

  lemma {:induction false} PassSettles(g: Graph, before: Records, env: Env, i: nat)
    requires Valid(g) && i < |g.order|
    ensures g.order[i] in g.nodes && Settled(g, before, env, g.order[i])
  {
    var id, n := g.order[i], |g.order|;
    assert id in g.order;
    DistinctSplit(g.order, i);
    PassFrame(g, before, env, 0, i, id);
    PassFrame(g, before, env, i + 1, n, id);
    DepsSettled(g, before, env, i);
    BrokenAlike(After(g, before, env), Pass(g, before, env, i).0, g.nodes[id].deps);
  }

  lemma {:induction false} AllSettled(g: Graph, before: Records, env: Env, id: string)
    requires Valid(g) && id in g.nodes
    ensures Settled(g, before, env, id)
  {
    assert id in g.order;
    var i :| 0 <= i < |g.order| && g.order[i] == id;
    PassSettles(g, before, env, i);
  }

  /** After a pass no stage is left running, whatever happened before or during it. */
  lemma {:induction false} NoneRunning(g: Graph, before: Records, env: Env, id: string)
    requires Valid(g) && id in g.nodes
    ensures id in After(g, before, env) && After(g, before, env)[id].state != Running
  {
    AllSettled(g, before, env, id);
  }

  /** The executor runs only after every dependency succeeded or was reused ... */
  lemma {:induction false} CalledAfterDeps(g: Graph, before: Records, env: Env, id: string)
    requires Valid(g) && id in g.nodes && id in CallsOf(g, before, env)
    ensures forall d :: d in g.nodes[id].deps ==> d in After(g, before, env) && Done(After(g, before, env)[d].state)
  {
    AllSettled(g, before, env, id);
    forall d | d in g.nodes[id].deps ensures Done(After(g, before, env)[d].state) {
      assert !Broken(After(g, before, env), d);
      NoneRunning(g, before, env, d);
    }
  }

  /** ... and at most once per stage, in the graph's order. */
  lemma {:induction false} CalledOnce(g: Graph, before: Records, env: Env, k: nat)
    requires Valid(g) && k <= |g.order|
    ensures Distinct(Pass(g, before, env, k).1)
    ensures forall id :: id in Pass(g, before, env, k).1 ==> id in g.order[..k]
  {
    if k > 0 {
      CalledOnce(g, before, env, k - 1);
      assert g.order[..k] == g.order[..k - 1] + [g.order[k - 1]];
      DistinctSplit(g.order, k - 1);
      assert g.order[..k - 1] == g.order[0..k - 1];
    }
  }

  /** A chain of dependencies from `path[0]` to a stage that failed in this pass. */
  ghost predicate FailedChain(g: Graph, after: Records, path: seq<string>) {
    && |path| >= 2
    && (forall i :: 0 <= i < |path| ==> path[i] in g.nodes)
    && (forall i :: 0 <= i < |path| - 1 ==> path[i + 1] in g.nodes[path[i]].deps)
    && path[|path| - 1] in after && after[path[|path| - 1]].state == Failed
  }

  lemma {:induction false} ChainBlocks(g: Graph, before: Records, env: Env, path: seq<string>)
    requires Valid(g) && FailedChain(g, After(g, before, env), path)
    ensures path[0] in After(g, before, env) && After(g, before, env)[path[0]].state == Blocked
    decreases |path|
  {
    var after := After(g, before, env);
    AllSettled(g, before, env, path[0]);
    if |path| > 2 {
      var rest := path[1..];
      forall i | 0 <= i < |rest| - 1 ensures rest[i + 1] in g.nodes[rest[i]].deps {
        assert rest[i] == path[i + 1] && rest[i + 1] == path[i + 1 + 1];
      }
      ChainBlocks(g, before, env, rest);
    }
    assert path[1] in g.nodes[path[0]].deps && Broken(after, path[1]);
  }

  lemma {:induction false} ChainExtends(g: Graph, after: Records, id: string, rest: seq<string>)
    requires FailedChain(g, after, rest) && id in g.nodes && rest[0] in g.nodes[id].deps
    ensures FailedChain(g, after, [id] + rest)
  {
    var path := [id] + rest;
    forall j | 0 <= j < |path| - 1 ensures path[j] in g.nodes && path[j + 1] in g.nodes[path[j]].deps {
      if j > 0 { assert path[j] == rest[j - 1] && path[j + 1] == rest[j]; }
    }
  }

  lemma {:induction false} BlockedHasChain(g: Graph, before: Records, env: Env, i: nat) returns (path: seq<string>)
    requires Valid(g) && i < |g.order|
    requires g.order[i] in After(g, before, env) && After(g, before, env)[g.order[i]].state == Blocked
    ensures FailedChain(g, After(g, before, env), path) && path[0] == g.order[i]
    decreases i
  {
    var after, id := After(g, before, env), g.order[i];
    assert id in g.order;
    AllSettled(g, before, env, id);
    var d :| d in g.nodes[id].deps && Broken(after, d);
    assert d in g.order[..i];
    if after[d].state == Failed {
      path := [id, d];
    } else {
      var k :| 0 <= k < i && g.order[k] == d;
      var rest := BlockedHasChain(g, before, env, k);
      path := [id] + rest;
      ChainExtends(g, after, id, rest);
    }
  }

  /** A stage is blocked exactly when some transitive dependency failed in this pass. */
  lemma {:induction false} BlockedIffChain(g: Graph, before: Records, env: Env, id: string)
    requires Valid(g) && id in g.nodes
    ensures id in After(g, before, env)
    ensures After(g, before, env)[id].state == Blocked <==>
      exists path :: FailedChain(g, After(g, before, env), path) && path[0] == id
  {
    AllSettled(g, before, env, id);
    assert id in g.order;
    var i :| 0 <= i < |g.order| && g.order[i] == id;
    if After(g, before, env)[id].state == Blocked {
      var path := BlockedHasChain(g, before, env, i);
    }
    forall path | FailedChain(g, After(g, before, env), path) && path[0] == id
      ensures After(g, before, env)[id].state == Blocked
    {
      ChainBlocks(g, before, env, path);
    }
  }

  // ------------------------------------------------------------------
  // Repeated passes

  predicate IsDone(records: Records, id: string) { id in records && Done(records[id].state) }

  /** Finished stages carry their own spec, and so do all they depend on. */
  ghost predicate Consistent(g: Graph, records: Records) {
    forall id :: id in g.nodes && IsDone(records, id) ==>
      records[id].spec == SpecOf(g.nodes[id]) && forall d :: d in g.nodes[id].deps ==> IsDone(records, d)
  }

  ghost predicate AcceptsReuse(env: Env) {
    env.reuse.Some? && forall r :: env.reuse.value(r)
  }

  /** A pass leaves the finished stages closed under dependencies, whatever it found. */
  lemma {:induction false} PassConsistent(g: Graph, before: Records, env: Env)
    requires Valid(g)
    ensures Consistent(g, After(g, before, env))
  {
    var after := After(g, before, env);
    forall id | id in g.nodes && IsDone(after, id)
      ensures after[id].spec == SpecOf(g.nodes[id]) && forall d :: d in g.nodes[id].deps ==> IsDone(after, d)
    {
      AllSettled(g, before, env, id);
      forall d | d in g.nodes[id].deps ensures IsDone(after, d) {
        assert !Broken(after, d);
        NoneRunning(g, before, env, d);
      }
    }
  }

  /** What a finished stage is after a pass that may reuse it. */
  ghost predicate Kept(g: Graph, before: Records, env: Env, id: string)
    requires Valid(g)
  {
    && IsDone(After(g, before, env), id)
    && id in before && After(g, before, env)[id].outputs == before[id].outputs
    && id !in CallsOf(g, before, env)
  }

  lemma {:induction false} DoneIsKept(g: Graph, before: Records, env: Env, i: nat)
    requires Valid(g) && Consistent(g, before) && AcceptsReuse(env) && i < |g.order|
    requires IsDone(before, g.order[i])
    ensures Kept(g, before, env, g.order[i])
    decreases i
  {
    var id, after := g.order[i], After(g, before, env);
    assert id in g.order;
    forall d | d in g.nodes[id].deps ensures !Broken(after, d) {
      assert d in g.order[..i];
      var k :| 0 <= k < i && g.order[k] == d;
      DoneIsKept(g, before, env, k);
    }
    AllSettled(g, before, env, id);
    assert !HasBroken(after, g.nodes[id].deps);
    assert Reusable(Get(before, id), SpecOf(g.nodes[id]), env);
  }

  /** The records after the first `n` of a sequence of passes on one run. */
  ghost function History(g: Graph, envs: seq<Env>, n: nat): Records
    requires Valid(g) && n <= |envs|
  {
    if n == 0 then map[] else After(g, History(g, envs, n - 1), envs[n - 1])
  }

  lemma {:induction false} HistoryConsistent(g: Graph, envs: seq<Env>, n: nat)
    requires Valid(g) && n <= |envs|
    ensures Consistent(g, History(g, envs, n))
  {
    if n > 0 { PassConsistent(g, History(g, envs, n - 1), envs[n - 1]); }
  }

  lemma {:induction false} OnePassKeeps(g: Graph, envs: seq<Env>, n: nat, id: string)
    requires Valid(g) && n < |envs| && id in g.nodes && IsDone(History(g, envs, n), id) && AcceptsReuse(envs[n])
    ensures Kept(g, History(g, envs, n), envs[n], id)
  {
    HistoryConsistent(g, envs, n);
    assert id in g.order;
    var i :| 0 <= i < |g.order| && g.order[i] == id;
    DoneIsKept(g, History(g, envs, n), envs[n], i);
  }

  /** Pass `p` does not execute `id`. */
  ghost predicate Spared(g: Graph, envs: seq<Env>, p: nat, id: string)
    requires Valid(g) && p < |envs|
  {
    id !in CallsOf(g, History(g, envs, p), envs[p])
  }

  /**
   With an always-accepting reuse check, a stage finished after `m` passes is finished after
   every later one with the same outputs, and no pass in between executed it again.
   */
  lemma {:induction false} FinishedStaysFinished(g: Graph, envs: seq<Env>, m: nat, n: nat, id: string)
    requires Valid(g) && m <= n <= |envs| && id in g.nodes && IsDone(History(g, envs, m), id)
    requires forall p :: m <= p < n ==> AcceptsReuse(envs[p])
    ensures IsDone(History(g, envs, n), id)
    ensures History(g, envs, n)[id].outputs == History(g, envs, m)[id].outputs
    ensures forall p: nat :: m <= p < n ==> Spared(g, envs, p, id)
    decreases n
  {
    if m < n {
      FinishedStaysFinished(g, envs, m, n - 1, id);
      OnePassKeeps(g, envs, n - 1, id);
    }
  }

  /** Once every stage is finished, later passes call the executor for none. */
  lemma {:induction false} FinishedRunIsQuiet(g: Graph, envs: seq<Env>, m: nat, p: nat)
    requires Valid(g) && m <= p < |envs|
    requires forall id :: id in g.nodes ==> IsDone(History(g, envs, m), id)
    requires forall q :: m <= q <= p ==> AcceptsReuse(envs[q])
    ensures CallsOf(g, History(g, envs, p), envs[p]) == []
  {
    var calls := CallsOf(g, History(g, envs, p), envs[p]);
    CalledOnce(g, History(g, envs, p), envs[p], |g.order|);
    assert g.order[..|g.order|] == g.order;
    assert |calls| > 0 ==> calls[0] in calls && calls[0] in g.order;
    forall id | id in g.nodes ensures id !in calls {
      FinishedStaysFinished(g, envs, m, p + 1, id);
      assert Spared(g, envs, p, id);
    }
  }

  // ------------------------------------------------------------------
  // CampaignRun

  class CampaignRun {
    const graph: Graph
    var records: Records
    var held: set<string>   // resources this run's locks hold

    constructor (g: Graph)
      ensures graph == g && records == map[] && held == {}
    {
      graph, records, held := g, map[], {};
    }

    /** Acquire a stage's locks in order; stop at the first that cannot be had. */
    method AcquireAll(claims: seq<string>, busy: set<string>) returns (ok: bool, acquired: seq<string>)
      requires held == {}
      modifies this`held
      ensures ok <==> Claimable(claims, busy)
      ensures acquired <= claims && (ok ==> acquired == claims)
      ensures held == set r | r in acquired
    {
      acquired := [];
      assert claims[0..] == claims && busy + {} == busy;
      for i := 0 to |claims|
        invariant acquired == claims[..i]
        invariant held == set r | r in acquired
        invariant Claimable(claims, busy) <==> Claimable(claims[i..], busy + held)
      {
        assert claims[i..][1..] == claims[i + 1..];
        if claims[i] in busy || claims[i] in held {
          return false, acquired;
        }
        acquired := acquired + [claims[i]];
        assert busy + held + {claims[i]} == busy + (held + {claims[i]});
        held := held + {claims[i]};
      }
      ok := true;
    }

    /** Release exactly what was acquired, last first. */
    method ReleaseAll(acquired: seq<string>)
      requires held == set r | r in acquired
      modifies this`held
      ensures held == {}
    {
      var i := |acquired|;
      while i > 0
        invariant 0 <= i <= |acquired|
        invariant held <= set r | r in acquired[..i]
      {
        i := i - 1;
        assert acquired[..i + 1] == acquired[..i] + [acquired[i]];
        held := held - {acquired[i]};
      }
    }

    /** One stage of `execute`. */
    method ExecuteStage(id: string, env: Env) returns (called: bool)
      requires id in graph.nodes && graph.nodes[id].id == id && held == {}
      modifies this
      ensures held == {}
      ensures var node, broken := graph.nodes[id], HasBroken(old(records), graph.nodes[id].deps);
        && records == old(records)[id := Decide(node, broken, Get(old(records), id), env)]
        && called == Calls(node, broken, Get(old(records), id), env)
    {
      var node := graph.nodes[id];
      var spec := SpecOf(node);
      if exists d :: d in node.deps && Broken(records, d) {
        records := records[id := StageRecord(id, Blocked, spec, [], None)];
        return false;
      }
      var previous := Get(records, id);
      if Reusable(previous, spec, env) {
        records := records[id := previous.value.(state := Reused)];
        return false;
      }
      var ok, acquired := AcquireAll(Exclusive(node.resources), env.busy(id));
      called := ok;
      if !ok {
        records := records[id := StageRecord(id, Failed, spec, [], Some("ResourceError"))];
      } else {
        records := records[id := StageRecord(id, Running, spec, [], None)];
        match env.executor(id) {
          case Outputs(hashes) => records := records[id := StageRecord(id, Succeeded, spec, hashes, None)];
          case Raised(error) => records := records[id := StageRecord(id, Failed, spec, [], Some(error))];
        }
      }
      ReleaseAll(acquired);
    }

    /** `execute`: one pass over the graph. */
    method Execute(env: Env) returns (calls: seq<string>)
      requires Valid(graph) && held == {}
      modifies this
      ensures held == {}
      ensures records == After(graph, old(records), env) && calls == CallsOf(graph, old(records), env)
    {
      calls := [];
      for k := 0 to |graph.order|
        invariant held == {}
        invariant (records, calls) == Pass(graph, old(records), env, k)
      {
        var id := graph.order[k];
        assert id in graph.order;
        var called := ExecuteStage(id, env);
        assert calls + [] == calls;
        if called {
          calls := calls + [id];
        }
      }
    }
  }
}
