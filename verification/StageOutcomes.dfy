/**
 What one pass of tools/bigcherry/campaign/campaign.py records for each stage, said of the
 graph, the executor and the locks: executed, reused, refused its locks or blocked.
 */
module StageOutcomes {
  import opened Wrappers
  import opened Sorting
  import opened StageGraph
  import opened Scheduler

  /** Every dependency succeeded or was reused in this pass. */
  ghost predicate DependenciesDone(after: Records, node: StageNode) {
    forall d :: d in node.deps ==> d in after && (after[d].state == Succeeded || after[d].state == Reused)
  }

  /** The last record is a success for this very stage, and the reuse check takes it. */
  ghost predicate CanReuse(before: Records, node: StageNode, env: Env) {
    && node.id in before
    && before[node.id].spec
       == Spec(node.id, node.kind, node.sourceSlice, node.buildPlan, node.workload, node.deps)
    && (before[node.id].state == Succeeded || before[node.id].state == Reused)
    && env.reuse.Some? && env.reuse.value(before[node.id])
  }

  /** No exclusive claim is busy, and none is made twice. */
  ghost predicate ClaimsFree(claims: seq<Claim>, busy: set<string>) {
    && (forall i :: 0 <= i < |claims| && claims[i].exclusive ==> claims[i].resourceId !in busy)
    && (forall i, j :: 0 <= i < j < |claims| && claims[i].exclusive && claims[j].exclusive ==>
          claims[i].resourceId != claims[j].resourceId)
  }

  lemma {:induction false} ClaimableIff(claims: seq<Claim>, busy: set<string>)
    ensures Claimable(Exclusive(claims), busy) <==> ClaimsFree(claims, busy)
  {
    if claims != [] {
      var c, rest := claims[0], claims[1..];
      if c.exclusive {
        assert Exclusive(claims) == [c.resourceId] + Exclusive(rest);
        assert Exclusive(claims)[1..] == Exclusive(rest);
        ClaimableIff(rest, busy + {c.resourceId});
        FirstClaim(claims, busy);
      } else {
        assert Exclusive(claims) == Exclusive(rest);
        ClaimableIff(rest, busy);
        SharedClaim(claims, busy);
      }
    }
  }

  lemma {:induction false} FirstClaim(claims: seq<Claim>, busy: set<string>)
    requires claims != [] && claims[0].exclusive
    ensures ClaimsFree(claims, busy) <==>
      claims[0].resourceId !in busy && ClaimsFree(claims[1..], busy + {claims[0].resourceId})
  {
    var rest := claims[1..];
    assert forall i :: 0 <= i < |rest| ==> rest[i] == claims[i + 1];
    if ClaimsFree(claims, busy) {
      forall i | 0 <= i < |rest| && rest[i].exclusive ensures rest[i].resourceId !in busy + {claims[0].resourceId} {
        assert claims[0].resourceId != claims[i + 1].resourceId;
      }
    }
    if claims[0].resourceId !in busy && ClaimsFree(rest, busy + {claims[0].resourceId}) {
      RestFree(claims, busy + {claims[0].resourceId});
    }
  }

  lemma {:induction false} SharedClaim(claims: seq<Claim>, busy: set<string>)
    requires claims != [] && !claims[0].exclusive
    ensures ClaimsFree(claims, busy) <==> ClaimsFree(claims[1..], busy)
  {
    var rest := claims[1..];
    assert forall i :: 0 <= i < |rest| ==> rest[i] == claims[i + 1];
    if ClaimsFree(rest, busy) { RestFree(claims, busy); }
  }

  lemma {:induction false} RestFree(claims: seq<Claim>, busy: set<string>)
    requires claims != [] && ClaimsFree(claims[1..], busy)
    ensures forall i :: 1 <= i < |claims| && claims[i].exclusive ==> claims[i].resourceId !in busy
    ensures forall i, j :: 1 <= i < j < |claims| && claims[i].exclusive && claims[j].exclusive ==>
      claims[i].resourceId != claims[j].resourceId
  {
    var rest := claims[1..];
    forall i | 1 <= i < |claims| && claims[i].exclusive ensures claims[i].resourceId !in busy {
      assert claims[i] == rest[i - 1];
    }
    forall i, j | 1 <= i < j < |claims| && claims[i].exclusive && claims[j].exclusive
      ensures claims[i].resourceId != claims[j].resourceId
    {
      assert claims[i] == rest[i - 1] && claims[j] == rest[j - 1];
    }
  }

  lemma {:induction false} DependenciesDoneIff(g: Graph, before: Records, env: Env, id: string)
    requires Valid(g) && id in g.nodes
    ensures HasBroken(After(g, before, env), g.nodes[id].deps)
       <==> !DependenciesDone(After(g, before, env), g.nodes[id])
  {
    AllSettled(g, before, env, id);
    forall d | d in g.nodes[id].deps
      ensures d in After(g, before, env) && After(g, before, env)[d].state != Running
    {
      assert id in g.order;
      NoneRunning(g, before, env, d);
    }
  }

  /** Which of the four things happens to a stage, and that it is exactly one. */
  lemma {:induction false} StageIsOneOf(g: Graph, before: Records, env: Env, id: string)
    requires Valid(g) && id in g.nodes
    ensures var after, node := After(g, before, env), g.nodes[id];
      var done, reuse := DependenciesDone(after, node), CanReuse(before, node, env);
      var free := ClaimsFree(node.resources, env.busy(id));
      && id in after
      && (after[id].state == Blocked <==> !done)
      && (after[id].state == Reused <==> done && reuse)
      && (id in CallsOf(g, before, env) <==> done && !reuse && free)
      && (after[id].state == Failed && id !in CallsOf(g, before, env) <==> done && !reuse && !free)
  {
    var node := g.nodes[id];
    assert id in g.order && node.id == id;
    AllSettled(g, before, env, id);
    DependenciesDoneIff(g, before, env, id);
    ClaimableIff(node.resources, env.busy(id));
  }

  /** An executed stage ends as its executor does, with exactly its outputs or its error. */
  lemma {:induction false} ExecutedAsItEnds(g: Graph, before: Records, env: Env, id: string)
    requires Valid(g) && id in g.nodes && id in CallsOf(g, before, env)
    ensures var after := After(g, before, env);
      && id in after
      && (forall hashes :: after[id].state == Succeeded && after[id].outputs == hashes <==>
            env.executor(id) == Outputs(hashes))
      && (forall error :: after[id].state == Failed && after[id].error == Some(error) <==>
            env.executor(id) == Raised(error))
      && (after[id].state == Succeeded ==> after[id].error == None)
      && (after[id].state == Failed ==> after[id].outputs == [])
  {
    assert id in g.order && g.nodes[id].id == id;
    AllSettled(g, before, env, id);
  }

  /** A stage that is not executed keeps its outputs when reused and has none otherwise. */
  lemma {:induction false} NotExecuted(g: Graph, before: Records, env: Env, id: string)
    requires Valid(g) && id in g.nodes && id !in CallsOf(g, before, env)
    ensures var after := After(g, before, env);
      && id in after && after[id].state != Succeeded
      && (after[id].state == Reused ==> id in before && after[id] == before[id].(state := Reused))
      && (after[id].state != Reused ==> after[id].outputs == [])
  {
    assert id in g.order && g.nodes[id].id == id;
    AllSettled(g, before, env, id);
  }

  /** Every record is of its own stage, as the graph describes it. */
  lemma {:induction false} RecordOfStage(g: Graph, before: Records, env: Env, id: string)
    requires Valid(g) && id in g.nodes && (id in before ==> before[id].id == id)
    ensures var after, node := After(g, before, env), g.nodes[id];
      && id in after && after[id].id == id
      && after[id].spec == Spec(id, node.kind, node.sourceSlice, node.buildPlan, node.workload, node.deps)
  {
    assert id in g.order && g.nodes[id].id == id;
    AllSettled(g, before, env, id);
  }

  ghost function CalledIn(g: Graph, before: Records, env: Env): string -> bool
    requires Valid(g)
  {
    var calls := CallsOf(g, before, env);
    (id: string) => id in calls
  }

  lemma {:induction false} CallsPrefix(g: Graph, before: Records, env: Env, k: nat)
    requires Valid(g) && k <= |g.order|
    ensures Pass(g, before, env, k).1 == Filter(g.order[..k], CalledIn(g, before, env))
  {
    if k > 0 {
      var id, called := g.order[k - 1], CalledIn(g, before, env);
      CallsPrefix(g, before, env, k - 1);
      assert g.order[..k] == g.order[..k - 1] + [id];
      FilterAppend(g.order[..k - 1], [id], called);
      assert Filter([id], called) == if called(id) then [id] else [] by { assert [id][1..] == []; }
      CalledAt(g, before, env, k);
    }
  }

  lemma {:induction false} CalledAt(g: Graph, before: Records, env: Env, k: nat)
    requires Valid(g) && 0 < k <= |g.order|
    ensures Pass(g, before, env, k).1 == Pass(g, before, env, k - 1).1 +
      if g.order[k - 1] in CallsOf(g, before, env) then [g.order[k - 1]] else []
  {
    var id := g.order[k - 1];
    DistinctSplit(g.order, k - 1);
    PassFrame(g, before, env, k, |g.order|, id);
    CalledOnce(g, before, env, k - 1);
    assert g.order[..k - 1] == g.order[0..k - 1];
    assert id !in Pass(g, before, env, k - 1).1;
  }

  /** The executor is called in the graph's order. */
  lemma {:induction false} CalledInOrder(g: Graph, before: Records, env: Env)
    requires Valid(g)
    ensures CallsOf(g, before, env) == Filter(g.order, CalledIn(g, before, env))
  {
    CallsPrefix(g, before, env, |g.order|);
    assert g.order[..|g.order|] == g.order;
  }
}
