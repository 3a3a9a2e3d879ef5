/**
 The campaign stage graph of tools/bigcherry/campaign/graph.py: its validation, and the
 batch order of `graphlib.TopologicalSorter.static_order`.
 */
module StageGraph {
  import opened Wrappers
  import opened Sorting

  datatype Claim = Claim(resourceId: string, exclusive: bool)

  datatype StageNode = StageNode(
    id: string, kind: string, sourceSlice: Option<string>, buildPlan: Option<string>, workload: Option<string>,
    deps: seq<string>, resources: seq<Claim>)

  datatype GraphError = DuplicateStage | UnknownDependency | Cyclic

  /** Accepted nodes with their execution order. */
  datatype Graph = Graph(nodes: map<string, StageNode>, order: seq<string>)

  ghost predicate Indexed(nodes: map<string, StageNode>) {
    forall id :: id in nodes ==> nodes[id].id == id && forall d :: d in nodes[id].deps ==> d in nodes
  }

  /** Every stage appears once, after everything it depends on. */
  ghost predicate IsOrder(nodes: map<string, StageNode>, order: seq<string>) {
    && Distinct(order)
    && (forall id :: id in order <==> id in nodes)
    && (forall i, d :: 0 <= i < |order| && order[i] in nodes && d in nodes[order[i]].deps ==> d in order[..i])
  }

  ghost predicate Valid(g: Graph) { Indexed(g.nodes) && IsOrder(g.nodes, g.order) }

  /** A prefix of an order: distinct stages, each after what it depends on. */
  ghost predicate IsPrefix(nodes: map<string, StageNode>, order: seq<string>) {
    && Distinct(order)
    && (forall id :: id in order ==> id in nodes)
    && (forall i, d :: 0 <= i < |order| && order[i] in nodes && d in nodes[order[i]].deps ==> d in order[..i])
  }

  lemma {:induction false} AppendReady(nodes: map<string, StageNode>, order: seq<string>, id: string)
    requires IsPrefix(nodes, order) && id in nodes && id !in order
    requires forall d :: d in nodes[id].deps ==> d in order
    ensures IsPrefix(nodes, order + [id])
  {
    var longer := order + [id];
    forall i, d | 0 <= i < |longer| && longer[i] in nodes && d in nodes[longer[i]].deps
      ensures d in longer[..i]
    {
      assert longer[..i] == order[..i];
      assert i == |order| ==> order[..i] == order;
    }
  }

  /** `id` depends on a stage of `stuck`. */
  ghost predicate WaitsFor(nodes: map<string, StageNode>, id: string, stuck: set<string>)
    requires id in nodes
  {
    exists d :: d in nodes[id].deps && d in stuck
  }

  /** Stages that all wait for each other rule out every order. */
  ghost predicate Deadlocked(nodes: map<string, StageNode>, stuck: set<string>) {
    && stuck != {}
    && stuck <= nodes.Keys
    && forall id {:trigger WaitsFor(nodes, id, stuck)} :: id in stuck ==> WaitsFor(nodes, id, stuck)
  }

  /** No stage of a prefix is deadlocked. */
  lemma {:induction false} NoneStuck(nodes: map<string, StageNode>, stuck: set<string>, order: seq<string>, i: nat)
    requires IsOrder(nodes, order) && i <= |order| && Deadlocked(nodes, stuck)
    ensures forall id :: id in order[..i] ==> id !in stuck
  {
    if i > 0 {
      NoneStuck(nodes, stuck, order, i - 1);
      assert order[..i] == order[..i - 1] + [order[i - 1]];
      var last := order[i - 1];
      assert last in order;
      assert forall d :: d in nodes[last].deps ==> d in order[..i - 1];
      assert last in stuck ==> WaitsFor(nodes, last, stuck);
    }
  }

  lemma {:induction false} NoOrder(nodes: map<string, StageNode>, stuck: set<string>, order: seq<string>)
    requires Deadlocked(nodes, stuck)
    ensures !IsOrder(nodes, order)
  {
    assert order[..|order|] == order;
    if IsOrder(nodes, order) { NoneStuck(nodes, stuck, order, |order|); }
  }

  function Ids(nodes: seq<StageNode>): (r: seq<string>)
    ensures |r| == |nodes| && forall i :: 0 <= i < |r| ==> r[i] == nodes[i].id
  {
    if nodes == [] then [] else Ids(nodes[..|nodes| - 1]) + [nodes[|nodes| - 1].id]
  }

  /** `{node.stage_id: node for node in nodes}`. */
  function TableOf(nodes: seq<StageNode>): map<string, StageNode> {
    if nodes == [] then map[] else TableOf(nodes[..|nodes| - 1])[nodes[|nodes| - 1].id := nodes[|nodes| - 1]]
  }

  lemma {:induction false} TableKeys(nodes: seq<StageNode>)
    ensures forall id :: id in TableOf(nodes) <==> id in Ids(nodes)
    ensures forall id :: id in TableOf(nodes) ==> TableOf(nodes)[id].id == id && TableOf(nodes)[id] in nodes
  {
    if nodes != [] { TableKeys(nodes[..|nodes| - 1]); }
  }

  /** The length test finds exactly the duplicates. */
  lemma {:induction false} TableSize(nodes: seq<StageNode>)
    ensures |TableOf(nodes)| <= |nodes|
    ensures |TableOf(nodes)| == |nodes| <==> Distinct(Ids(nodes))
  {
    if nodes != [] {
      var rest, last := nodes[..|nodes| - 1], nodes[|nodes| - 1];
      TableSize(rest);
      TableKeys(rest);
      var t := TableOf(rest);
      assert t[last.id := last].Keys == t.Keys + {last.id};
      DistinctAppend(Ids(rest), last.id);
    }
  }

  lemma {:induction false} DistinctAppend(s: seq<string>, x: string)
    ensures Distinct(s + [x]) <==> Distinct(s) && x !in s
  {
    var t := s + [x];
    assert t[..|s|] == s;
    if Distinct(t) {
      forall i | 0 <= i < |s| ensures s[i] != x { assert t[i] != t[|s|]; }
      forall i, j | 0 <= i < j < |s| ensures s[i] != s[j] { assert t[i] != t[j]; }
    }
  }

  /** Whether every dependency is a known stage. */
  predicate DepsKnown(table: map<string, StageNode>) {
    forall id :: id in table ==> forall d :: d in table[id].deps ==> d in table
  }

  predicate ReadyNow(node: StageNode, order: seq<string>) {
    forall d :: d in node.deps ==> d in order
  }

  /** `static_order`: an order if there is one, else the graph is cyclic. */
  method StaticOrder(nodes: map<string, StageNode>) returns (r: Option<seq<string>>)
    requires Indexed(nodes)
    ensures r.Some? ==> IsOrder(nodes, r.value)
    ensures r.None? ==> exists stuck :: Deadlocked(nodes, stuck)
  {
    var order: seq<string> := [];
    var pending := nodes.Keys;
    while pending != {}
      invariant IsPrefix(nodes, order) && pending <= nodes.Keys
      invariant forall id :: id in nodes ==> (id in order <==> id !in pending)
      decreases |pending|
    {
      var ready := set id | id in pending && ReadyNow(nodes[id], order);
      if ready == {} {
        assert forall id :: id in pending ==> id !in ready;
        AllStuck(nodes, order, pending);
        return None;
      }
      var rest := pending - ready;
      order := EmitBatch(nodes, order, ready);
      assert |pending| == |ready| + |rest| by { assert pending == ready + rest; }
      pending := rest;
    }
    return Some(order);
  }

  lemma {:induction false} AllStuck(nodes: map<string, StageNode>, order: seq<string>, pending: set<string>)
    requires Indexed(nodes) && pending != {} && pending <= nodes.Keys
    requires forall id :: id in nodes ==> (id in order <==> id !in pending)
    requires forall id :: id in pending ==> !ReadyNow(nodes[id], order)
    ensures Deadlocked(nodes, pending)
  {
    forall id | id in pending ensures WaitsFor(nodes, id, pending) {
      var d :| d in nodes[id].deps && d !in order;
    }
  }

  /**
   `CampaignGraph.__init__`: a graph is refused for a duplicate, for an unknown dependency, or
   because no order exists; otherwise its order puts every stage after its dependencies.
   */
  method BuildGraph(nodes: seq<StageNode>) returns (r: Result<Graph, GraphError>)
    ensures r.Ok? ==> Valid(r.value) && r.value.nodes == TableOf(nodes)
    ensures r == Err(DuplicateStage) <==> !Distinct(Ids(nodes))
    ensures r == Err(UnknownDependency) <==> Distinct(Ids(nodes)) && !DepsKnown(TableOf(nodes))
    ensures r == Err(Cyclic) ==> forall order :: !IsOrder(TableOf(nodes), order)
  {
    var table := TableOf(nodes);
    TableSize(nodes);
    TableKeys(nodes);
    if |table| != |nodes| {
      return Err(DuplicateStage);
    }
    if !DepsKnown(table) {
      return Err(UnknownDependency);
    }
    var order := StaticOrder(table);
    if order.None? {
      ghost var stuck :| Deadlocked(table, stuck);
      forall order { NoOrder(table, stuck, order); }
      return Err(Cyclic);
    }
    return Ok(Graph(table, order.value));
  }

  /** One batch of stages that became ready together. */
  method EmitBatch(nodes: map<string, StageNode>, order0: seq<string>, ready: set<string>) returns (order: seq<string>)
    requires IsPrefix(nodes, order0) && ready <= nodes.Keys
    requires forall id :: id in ready ==> id !in order0 && forall d :: d in nodes[id].deps ==> d in order0
    ensures IsPrefix(nodes, order)
    ensures forall id :: id in order <==> id in order0 || id in ready
  {
    order := order0;
    var left := ready;
    while left != {}
      invariant left <= ready && IsPrefix(nodes, order)
      invariant forall id :: id in order <==> id in order0 || id in ready - left
      decreases |left|
    {
      var id :| id in left;
      AppendReady(nodes, order, id);
      order := order + [id];
      left := left - {id};
    }
  }
}
