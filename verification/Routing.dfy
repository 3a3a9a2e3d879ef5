/**
 The MoE routing generator of tools/bigcherry/moe_routing_gen.py: a per-expert load
 histogram is realised, token by token, by taking the `topK` experts with the most
 remaining budget. The random tie-break is an arbitrary permutation for each token.
 */
module Routing {
  import opened Sorting
  import opened Sums

  /** `range(n)`. */
  function Range(n: nat): seq<nat> { seq(n, i requires 0 <= i < n => i) }

  ghost predicate IsPermutation(p: seq<nat>, n: nat) {
    multiset(p) == multiset(Range(n))
  }

  /** The experts of token `t`: `ids[t * topK .. (t + 1) * topK]`. */
  ghost function Row(ids: seq<nat>, topK: nat, t: nat): seq<nat>
    requires t * topK + topK <= |ids|
  {
    ids[t * topK..t * topK + topK]
  }

  /** Every token lists `topK` distinct experts that exist. */
  ghost predicate WellRouted(ids: seq<nat>, nExperts: nat, topK: nat, nTokens: nat) {
    && |ids| == nTokens * topK
    && (forall i :: 0 <= i < |ids| ==> ids[i] < nExperts)
    && (forall t: nat :: t < nTokens ==> t * topK + topK <= |ids| && Distinct(Row(ids, topK, t)))
  }

  /** The realised histogram is the target. */
  ghost predicate Realises(ids: seq<nat>, counts: seq<int>) {
    forall e :: 0 <= e < |counts| ==> multiset(ids)[e] == counts[e]
  }

  /** The histograms that any assignment of distinct experts can have. */
  ghost predicate Feasible(counts: seq<int>, topK: nat, nTokens: nat) {
    && Sum(counts) == nTokens * topK
    && forall e :: 0 <= e < |counts| ==> 0 <= counts[e] <= nTokens
  }

  /** Expert `e` outweighs every other expert by a whole run of tokens. */
  ghost predicate Dominant(counts: seq<int>, e: nat, nTokens: nat) {
    && e < |counts|
    && counts[e] >= nTokens
    && forall d :: 0 <= d < |counts| && d != e ==> counts[d] <= counts[e] - nTokens
  }

  function Load(w: seq<int>, e: nat): int {
    if e < |w| then w[e] else 0
  }

  /** `idx.sort(key=lambda e: remaining[e], reverse=True)`. */
  function ByBudget(idx: seq<nat>, w: seq<int>): seq<nat> {
    SortBy(idx, (a: nat, b: nat) => Load(w, a) >= Load(w, b))
  }

  /** `idx` lists every expert once, largest budget first. */
  ghost predicate Ranked(idx: seq<nat>, w: seq<int>) {
    && |idx| == |w|
    && Distinct(idx)
    && (forall i :: 0 <= i < |idx| ==> idx[i] < |w|)
    && (forall e: nat :: e < |w| ==> e in idx)
    && (forall i, j :: 0 <= i < j < |idx| ==> Load(w, idx[i]) >= Load(w, idx[j]))
  }

  lemma {:induction false} PermutationDistinct(p: seq<nat>, n: nat)
    requires IsPermutation(p, n)
    ensures |p| == n && Distinct(p)
    ensures forall e: nat :: e in p <==> e < n
  {
    var r := Range(n);
    SameElements(p, r);
    forall e: nat ensures e in p <==> e < n {
      if e < n { assert r[e] == e; }
    }
    DistinctPermuted(r, p);
  }

  lemma {:induction false} ByBudgetRanked(idx: seq<nat>, w: seq<int>)
    requires IsPermutation(idx, |w|)
    ensures Ranked(ByBudget(idx, w), w)
  {
    var le := (a: nat, b: nat) => Load(w, a) >= Load(w, b);
    assert TotalPreorder(le);
    SortByCorrect(idx, le);
    var r := SortBy(idx, le);
    PermutationDistinct(r, |w|);
    forall i | 0 <= i < |r| ensures r[i] < |w| { assert r[i] in r; }
  }

  // ------------------------------------------------------------------
  // What `m` tokens can take

  /** The part of a budget that `m` tokens can spend, each at most one unit. */
  function Cap(budget: int, m: nat): nat {
    if budget <= 0 then 0 else if budget < m then budget else m
  }

  function Capped(w: seq<int>, m: nat): (r: seq<int>)
    ensures |r| == |w|
  {
    seq(|w|, e requires 0 <= e < |w| => Cap(w[e], m))
  }

  /** `m` tokens have room for every budget, each capped at `m`. */
  ghost predicate HasRoom(w: seq<int>, topK: nat, m: nat) {
    Sum(Capped(w, m)) <= m * topK
  }

  /** Every expert serves as many tokens as its target asks for, up to all of them. */
  ghost predicate Covers(ids: seq<nat>, counts: seq<int>, nTokens: nat) {
    forall e :: 0 <= e < |counts| ==> multiset(ids)[e] >= Cap(counts[e], nTokens)
  }

  /** Positions in a ranking and membership in its front. */
  lemma {:induction false} InFront(idx: seq<nat>, w: seq<int>, cut: nat, e: nat)
    requires Ranked(idx, w) && cut <= |idx| && e < |w|
    ensures e in idx[..cut] <==> exists i :: 0 <= i < cut && idx[i] == e
    ensures e !in idx[..cut] ==> exists i :: cut <= i < |idx| && idx[i] == e
  {
    assert e in idx;
    var i :| 0 <= i < |idx| && idx[i] == e;
    if i < cut { assert idx[..cut][i] == e; }
  }

  /** `row` many entries of at least `d` take at least `|row| * d`. */
  lemma {:induction false} RowTakes(w: seq<int>, row: seq<nat>, d: nat)
    requires Distinct(row) && forall u :: 0 <= u < |row| ==> row[u] < |w|
    requires forall e :: 0 <= e < |w| ==> w[e] >= if e in row then d else 0
    ensures Sum(w) >= |row| * d
  {
    var flat := seq(|w|, e requires 0 <= e < |w| => if e in row then d as int else 0);
    RowIsFlat(|w|, row, d, flat);
    SumMonotone(flat, w);
  }

  /** Entries of at most `d`, only inside `row`, take at most `|row| * d`. */
  lemma {:induction false} RowGives(w: seq<int>, row: seq<nat>, d: nat)
    requires Distinct(row) && forall u :: 0 <= u < |row| ==> row[u] < |w|
    requires forall e :: 0 <= e < |w| ==> w[e] <= if e in row then d else 0
    ensures Sum(w) <= |row| * d
  {
    var flat := seq(|w|, e requires 0 <= e < |w| => if e in row then d as int else 0);
    RowIsFlat(|w|, row, d, flat);
    SumMonotone(w, flat);
  }

  lemma {:induction false} RowIsFlat(n: nat, row: seq<nat>, d: nat, flat: seq<int>)
    requires |flat| == n && Distinct(row) && forall u :: 0 <= u < |row| ==> row[u] < n
    requires forall e :: 0 <= e < n ==> flat[e] == if e in row then d else 0
    ensures Sum(flat) == |row| * d
  {
    var zeros := seq(n, _ => 0);
    SumOfZeros(zeros);
    SumOfRow(flat, zeros, row, d);
    RepeatedIsProduct(|row|, d);
  }

  /**
   Why the greedy choice never gets stuck. With `m` tokens left, budgets in `[0, m]` and
   total `m * topK`, the `topK` largest budgets are positive ...
   */
  lemma {:induction false} TopIsPositive(w: seq<int>, idx: seq<nat>, topK: nat, m: nat)
    requires Ranked(idx, w) && 1 <= topK <= |w| && m >= 1
    requires Feasible(w, topK, m)
    ensures forall u :: 0 <= u < topK ==> w[idx[u]] > 0
  {
    var cut := topK - 1;
    assert cut * m < m * topK;
    assert Load(w, idx[cut]) > 0 by {
      if Load(w, idx[cut]) <= 0 {
        forall e | 0 <= e < |w| ensures w[e] <= if e in idx[..cut] then m else 0 {
          InFront(idx, w, cut, e);
          BehindFront(idx, w, cut, e);
        }
        RowGives(w, idx[..cut], m);
      }
    }
    forall u | 0 <= u < topK ensures w[idx[u]] > 0 {
      assert Load(w, idx[u]) >= Load(w, idx[cut]);
    }
  }

  /** Behind the front nothing is larger than the first budget there. */
  lemma {:induction false} BehindFront(idx: seq<nat>, w: seq<int>, cut: nat, e: nat)
    requires Ranked(idx, w) && cut < |idx| && e < |w|
    ensures e !in idx[..cut] ==> w[e] <= w[idx[cut]]
    ensures e in idx[..cut] ==> w[e] >= w[idx[cut]]
  {
    InFront(idx, w, cut, e);
    if e !in idx[..cut] {
      var i :| cut <= i < |idx| && idx[i] == e;
      assert i > cut ==> Load(w, idx[cut]) >= Load(w, idx[i]);
    } else {
      var i :| 0 <= i < cut && idx[i] == e;
      assert Load(w, idx[i]) >= Load(w, idx[cut]);
    }
  }

  /** ... and, whenever the budgets fit, every one that must be spent at once is among them. */
  lemma {:induction false} UrgentIsTop(w: seq<int>, idx: seq<nat>, topK: nat, m: nat)
    requires Ranked(idx, w) && 1 <= topK <= |w| && m >= 1 && HasRoom(w, topK, m)
    ensures forall e: nat :: e < |w| && e !in idx[..topK] ==> w[e] < m
  {
    assert (topK + 1) * m > m * topK;
    if topK < |idx| && w[idx[topK]] >= m {
      var front := idx[..topK + 1];
      forall e | 0 <= e < |w| ensures Capped(w, m)[e] >= if e in front then m else 0 {
        BehindFront(idx, w, topK, e);
        assert front == idx[..topK] + [idx[topK]];
      }
      RowTakes(Capped(w, m), front, m);
    }
    forall e: nat | e < |w| && e !in idx[..topK] ensures w[e] < m {
      InFront(idx, w, topK, e);
      if topK < |idx| { BehindFront(idx, w, topK, e); }
    }
  }

  // ------------------------------------------------------------------
  // The histogram of any well routed table is feasible

  ghost function Histogram(ids: seq<nat>, nExperts: nat): seq<int> {
    seq(nExperts, e requires 0 <= e < nExperts => multiset(ids)[e])
  }

  lemma {:induction false} HistogramSum(ids: seq<nat>, nExperts: nat)
    requires forall i :: 0 <= i < |ids| ==> ids[i] < nExperts
    ensures Sum(Histogram(ids, nExperts)) == |ids|
  {
    var h := Histogram(ids, nExperts);
    if ids == [] {
      SumOfZeros(h);
    } else {
      var n := |ids| - 1;
      var before := Histogram(ids[..n], nExperts);
      HistogramSum(ids[..n], nExperts);
      assert ids == ids[..n] + [ids[n]];
      assert h == before[ids[n] := before[ids[n]] + 1];
      SumUpdate(before, ids[n], before[ids[n]] + 1);
    }
  }

  /** The table without its last token. */
  lemma {:induction false} DropLastToken(ids: seq<nat>, nExperts: nat, topK: nat, nTokens: nat)
    requires nTokens >= 1 && WellRouted(ids, nExperts, topK, nTokens)
    ensures (nTokens - 1) * topK + topK == |ids|
    ensures var head := ids[..(nTokens - 1) * topK];
      && ids == head + Row(ids, topK, nTokens - 1)
      && WellRouted(head, nExperts, topK, nTokens - 1)
      && forall t: nat :: t < nTokens - 1 ==> Row(head, topK, t) == Row(ids, topK, t)
  {
    var last := nTokens - 1;
    assert last * topK + topK == |ids|;
    var head := ids[..last * topK];
    forall t: nat | t < last
      ensures t * topK + topK <= |head| && Row(head, topK, t) == Row(ids, topK, t)
    {
      RowOfHead(ids, topK, last, t);
    }
  }

  lemma {:induction false} RowsFit(topK: nat, last: nat, t: nat)
    requires t < last
    ensures t * topK + topK <= last * topK
  {
    var more := last - t - 1;
    assert (t + 1 + more) * topK == t * topK + topK + more * topK;
  }

  lemma {:induction false} RowOfHead(ids: seq<nat>, topK: nat, last: nat, t: nat)
    requires t < last && last * topK <= |ids|
    ensures t * topK + topK <= last * topK
    ensures Row(ids[..last * topK], topK, t) == Row(ids, topK, t)
  {
    RowsFit(topK, last, t);
  }

  lemma {:induction false} LoadAtMostTokens(ids: seq<nat>, nExperts: nat, topK: nat, nTokens: nat, e: nat)
    requires WellRouted(ids, nExperts, topK, nTokens)
    ensures multiset(ids)[e] <= nTokens
    decreases nTokens
  {
    if nTokens != 0 {
      var last := nTokens - 1;
      DropLastToken(ids, nExperts, topK, nTokens);
      LoadAtMostTokens(ids[..last * topK], nExperts, topK, last, e);
      DistinctOnce(Row(ids, topK, last), e);
      assert multiset(ids) == multiset(ids[..last * topK]) + multiset(Row(ids, topK, last));
    }
  }

  /** Only a feasible target can be met exactly, whatever the assignment. */
  lemma {:induction false} RealisedIsFeasible(ids: seq<nat>, counts: seq<int>, topK: nat, nTokens: nat)
    requires WellRouted(ids, |counts|, topK, nTokens)
    requires Realises(ids, counts)
    ensures Feasible(counts, topK, nTokens)
  {
    HistogramSum(ids, |counts|);
    assert Histogram(ids, |counts|) == counts;
    forall e | 0 <= e < |counts| ensures 0 <= counts[e] <= nTokens {
      LoadAtMostTokens(ids, |counts|, topK, nTokens, e);
    }
  }

  // ------------------------------------------------------------------
  // assign_ids

  /** One token: take the ranked front and spend one unit of each positive budget. */
  method AssignToken(ids: seq<nat>, remaining: seq<int>, idx: seq<nat>, topK: nat)
    returns (longer: seq<nat>, left: seq<int>)
    requires Ranked(idx, remaining) && topK <= |remaining|
    ensures longer == ids + idx[..topK]
    ensures SpendsTop(remaining, idx[..topK], left)
  {
    longer, left := ids, remaining;
    for u := 0 to topK
      invariant longer == ids + idx[..u]
      invariant SpendsTop(remaining, idx[..u], left)
    {
      var e := idx[u];
      SpendStep(remaining, idx, u, left);
      longer := longer + [e];
      if left[e] > 0 {
        left := left[e := left[e] - 1];
      }
    }
  }

  /** Each token spends at most one unit of each budget. */
  ghost predicate Spent(counts: seq<int>, remaining: seq<int>, t: nat) {
    && |remaining| == |counts|
    && forall e :: 0 <= e < |counts| ==> remaining[e] <= counts[e] <= remaining[e] + t
  }

  /** Dominant experts are in each of the first `t` rows. */
  ghost predicate Served(counts: seq<int>, topK: nat, nTokens: nat, t: nat, ids: seq<nat>)
    requires WellRouted(ids, |counts|, topK, t)
  {
    forall e: nat, s: nat :: s < t && Dominant(counts, e, nTokens) ==> e in Row(ids, topK, s)
  }

  /** What is left fits the `m` tokens left, and with what is in the table it covers the target. */
  ghost predicate OnTarget(counts: seq<int>, topK: nat, nTokens: nat, m: nat, ids: seq<nat>, remaining: seq<int>)
    requires |remaining| == |counts|
  {
    && HasRoom(remaining, topK, m)
    && forall e :: 0 <= e < |counts| ==> multiset(ids)[e] + Cap(remaining[e], m) >= Cap(counts[e], nTokens)
  }

  /** What AssignToken does to the budgets. */
  ghost predicate SpendsTop(remaining: seq<int>, row: seq<nat>, remaining': seq<int>) {
    && |remaining'| == |remaining|
    && (forall e :: 0 <= e < |remaining| ==>
          remaining'[e] == if e in row && remaining[e] > 0 then remaining[e] - 1 else remaining[e])
  }

  lemma {:induction false} SpendStep(remaining: seq<int>, idx: seq<nat>, u: nat, remaining': seq<int>)
    requires u < |idx| && Distinct(idx) && idx[u] < |remaining| && SpendsTop(remaining, idx[..u], remaining')
    ensures remaining'[idx[u]] == remaining[idx[u]] && idx[..u + 1] == idx[..u] + [idx[u]]
    ensures var left := remaining'[idx[u]];
      SpendsTop(remaining, idx[..u + 1], if left > 0 then remaining'[idx[u] := left - 1] else remaining')
  {
    assert idx[u] !in idx[..u];
    assert idx[..u + 1] == idx[..u] + [idx[u]];
  }

  lemma {:induction false} RoutedMore(ids: seq<nat>, nExperts: nat, topK: nat, t: nat, row: seq<nat>)
    requires WellRouted(ids, nExperts, topK, t)
    requires |row| == topK && Distinct(row) && forall i :: 0 <= i < |row| ==> row[i] < nExperts
    ensures WellRouted(ids + row, nExperts, topK, t + 1)
    ensures Row(ids + row, topK, t) == row
    ensures forall s: nat :: s < t ==> Row(ids + row, topK, s) == Row(ids, topK, s)
  {
    var ids' := ids + row;
    assert |ids'| == (t + 1) * topK;
    assert Row(ids', topK, t) == row;
    forall s: nat | s < t
      ensures s * topK + topK <= |ids'| && Row(ids', topK, s) == Row(ids, topK, s)
    {
      assert s * topK + topK <= |ids|;
    }
  }

  /** A dominant expert is ranked first. */
  lemma {:induction false} DominantFirst(counts: seq<int>, nTokens: nat, t: nat, remaining: seq<int>, idx: seq<nat>, e: nat)
    requires t < nTokens && Spent(counts, remaining, t)
    requires Ranked(idx, remaining)
    requires Dominant(counts, e, nTokens)
    ensures idx[0] == e
  {
    assert e in idx;
    var i :| 0 <= i < |idx| && idx[i] == e;
    assert i == 0 || Load(remaining, idx[0]) >= Load(remaining, idx[i]);
  }

  /**
   `assign_ids`: for every target, every token gets `topK` distinct experts. Every expert gets
   its target, capped at one slot per token, exactly when the capped targets fit the table; the
   histogram is the target exactly when some assignment could realise it; and a dominant expert
   serves every token.
   */
  method AssignIds(counts: seq<int>, topK: nat, nTokens: nat, shuffled: nat -> seq<nat>)
    returns (ids: seq<nat>)
    requires 1 <= topK <= |counts|
    requires forall t: nat :: t < nTokens ==> IsPermutation(shuffled(t), |counts|)
    ensures WellRouted(ids, |counts|, topK, nTokens)
    ensures Covers(ids, counts, nTokens) <==> HasRoom(counts, topK, nTokens)
    ensures Realises(ids, counts) <==> Feasible(counts, topK, nTokens)
    ensures forall e: nat, t: nat :: t < nTokens && Dominant(counts, e, nTokens) ==> e in Row(ids, topK, t)
  {
    var remaining := counts;
    ids := [];
    for t := 0 to nTokens
      invariant Assigning(counts, topK, nTokens, t, ids, remaining)
    {
      var idx := ByBudget(shuffled(t), remaining);
      ByBudgetRanked(shuffled(t), remaining);
      ghost var before, budgets := ids, remaining;
      ids, remaining := AssignToken(ids, remaining, idx, topK);
      TokenKeeps(counts, topK, nTokens, t, before, budgets, idx, remaining);
    }
    CoversIff(ids, counts, topK, nTokens);
  }

  /** The state after `t` tokens. */
  ghost predicate Assigning(counts: seq<int>, topK: nat, nTokens: nat, t: nat, ids: seq<nat>, remaining: seq<int>) {
    && t <= nTokens
    && WellRouted(ids, |counts|, topK, t)
    && Spent(counts, remaining, t)
    && Served(counts, topK, nTokens, t, ids)
    && (HasRoom(counts, topK, nTokens) ==> OnTarget(counts, topK, nTokens, nTokens - t, ids, remaining))
  }

  lemma {:induction false} TokenKeeps(counts: seq<int>, topK: nat, nTokens: nat, t: nat, ids: seq<nat>, remaining: seq<int>,
                   idx: seq<nat>, remaining': seq<int>)
    requires 1 <= topK <= |counts| && t < nTokens && Assigning(counts, topK, nTokens, t, ids, remaining)
    requires Ranked(idx, remaining) && SpendsTop(remaining, idx[..topK], remaining')
    ensures Assigning(counts, topK, nTokens, t + 1, ids + idx[..topK], remaining')
  {
    RoutedMore(ids, |counts|, topK, t, idx[..topK]);
    ServedStep(counts, topK, nTokens, t, ids, remaining, idx);
    if HasRoom(counts, topK, nTokens) {
      OnTargetStep(counts, topK, nTokens, nTokens - t, ids, remaining, idx, remaining');
    }
  }

  /** Only targets that fit can be covered, and covering a feasible target realises it. */
  lemma {:induction false} CoversIff(ids: seq<nat>, counts: seq<int>, topK: nat, nTokens: nat)
    requires WellRouted(ids, |counts|, topK, nTokens)
    requires HasRoom(counts, topK, nTokens) ==> Covers(ids, counts, nTokens)
    ensures Covers(ids, counts, nTokens) <==> HasRoom(counts, topK, nTokens)
    ensures Realises(ids, counts) <==> Feasible(counts, topK, nTokens)
  {
    var h := Histogram(ids, |counts|);
    HistogramSum(ids, |counts|);
    if Covers(ids, counts, nTokens) { SumMonotone(Capped(counts, nTokens), h); }
    if Feasible(counts, topK, nTokens) {
      assert Capped(counts, nTokens) == counts;
      SumSqueezes(counts, h);
    }
    if Realises(ids, counts) { RealisedIsFeasible(ids, counts, topK, nTokens); }
  }

  lemma {:induction false} ServedStep(counts: seq<int>, topK: nat, nTokens: nat, t: nat, ids: seq<nat>, remaining: seq<int>, idx: seq<nat>)
    requires 1 <= topK <= |counts| && t < nTokens
    requires WellRouted(ids, |counts|, topK, t) && Spent(counts, remaining, t) && Ranked(idx, remaining)
    requires Served(counts, topK, nTokens, t, ids)
    requires WellRouted(ids + idx[..topK], |counts|, topK, t + 1)
    ensures Served(counts, topK, nTokens, t + 1, ids + idx[..topK])
  {
    var row := idx[..topK];
    RoutedMore(ids, |counts|, topK, t, row);
    forall e: nat, s: nat | s < t + 1 && Dominant(counts, e, nTokens)
      ensures e in Row(ids + row, topK, s)
    {
      DominantFirst(counts, nTokens, t, remaining, idx, e);
      assert row[0] == e;
    }
  }

  lemma {:induction false} OnTargetStep(counts: seq<int>, topK: nat, nTokens: nat, m: nat, ids: seq<nat>, remaining: seq<int>,
                     idx: seq<nat>, remaining': seq<int>)
    requires |counts| == |remaining| && 1 <= topK <= |counts| && m >= 1
    requires Ranked(idx, remaining)
    requires OnTarget(counts, topK, nTokens, m, ids, remaining)
    requires SpendsTop(remaining, idx[..topK], remaining')
    ensures OnTarget(counts, topK, nTokens, m - 1, ids + idx[..topK], remaining')
  {
    var row := idx[..topK];
    UrgentIsTop(remaining, idx, topK, m);
    RoomStep(topK, m, remaining, idx, remaining');
    forall e | 0 <= e < |counts|
      ensures multiset(ids + row)[e] + Cap(remaining'[e], m - 1) >= Cap(counts[e], nTokens)
    {
      SlotGained(ids, row, e);
      assert e !in row ==> remaining[e] < m;
    }
  }

  lemma {:induction false} SlotGained(ids: seq<nat>, row: seq<nat>, e: nat)
    ensures multiset(ids + row)[e] >= multiset(ids)[e] + if e in row then 1 else 0
  {
    assert e in row <==> e in multiset(row);
    assert multiset(ids + row) == multiset(ids) + multiset(row);
  }

  /** One token later the remaining budgets fit the remaining tokens. */
  lemma {:induction false} RoomStep(topK: nat, m: nat, remaining: seq<int>, idx: seq<nat>, remaining': seq<int>)
    requires Ranked(idx, remaining) && 1 <= topK <= |remaining| && m >= 1 && HasRoom(remaining, topK, m)
    requires forall e: nat :: e < |remaining| && e !in idx[..topK] ==> remaining[e] < m
    requires SpendsTop(remaining, idx[..topK], remaining')
    ensures HasRoom(remaining', topK, m - 1)
  {
    var row, last := idx[..topK], idx[topK - 1];
    forall e: nat | e < |remaining|
      ensures if e in row then remaining[e] >= remaining[last] else remaining[e] <= remaining[last]
    {
      TopAtLeastLast(idx, remaining, topK, e);
    }
    if remaining[last] > 0 {
      RichStep(topK, m, remaining, row, remaining');
    } else {
      PoorStep(topK, m, remaining, row, remaining');
    }
  }

  /** A token that spends a unit of `topK` budgets. */
  lemma {:induction false} RichStep(topK: nat, m: nat, remaining: seq<int>, row: seq<nat>, remaining': seq<int>)
    requires m >= 1 && HasRoom(remaining, topK, m) && SpendsTop(remaining, row, remaining')
    requires |row| == topK && Distinct(row) && forall u :: 0 <= u < |row| ==> row[u] < |remaining|
    requires forall e: nat :: e < |remaining| ==> if e in row then remaining[e] > 0 else remaining[e] < m
    ensures HasRoom(remaining', topK, m - 1)
  {
    var before, after := Capped(remaining, m), Capped(remaining', m - 1);
    SumOfRow(before, after, row, 1);
    RepeatedIsProduct(|row|, 1);
    assert (m - 1) * topK == m * topK - topK;
  }

  /** A token after which only its own experts have any budget left. */
  lemma {:induction false} PoorStep(topK: nat, m: nat, remaining: seq<int>, row: seq<nat>, remaining': seq<int>)
    requires m >= 1 && SpendsTop(remaining, row, remaining')
    requires |row| == topK && Distinct(row) && forall u :: 0 <= u < |row| ==> row[u] < |remaining|
    requires forall e: nat :: e < |remaining| && e !in row ==> remaining[e] <= 0
    ensures HasRoom(remaining', topK, m - 1)
  {
    RowGives(Capped(remaining', m - 1), row, m - 1);
  }

  lemma {:induction false} TopAtLeastLast(idx: seq<nat>, w: seq<int>, topK: nat, e: nat)
    requires Ranked(idx, w) && 1 <= topK <= |w| && e < |w|
    ensures e in idx[..topK] ==> w[e] >= w[idx[topK - 1]]
    ensures e !in idx[..topK] ==> w[e] <= w[idx[topK - 1]]
  {
    InFront(idx, w, topK, e);
    var i :| 0 <= i < |idx| && idx[i] == e;
    if i < topK {
      assert idx[..topK][i] == e;
      assert i < topK - 1 ==> Load(w, idx[i]) >= Load(w, idx[topK - 1]);
    } else {
      assert Load(w, idx[topK - 1]) >= Load(w, idx[i]);
    }
  }
}
