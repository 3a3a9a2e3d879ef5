/**
 The four load distributions of tools/bigcherry/moe_routing_gen.py and `generate`,
 which realises one of them and reports the statistics of what it realised.
 */
module RoutingModes {
  import opened Sorting
  import opened Sums
  import opened Routing
  import opened Spans
  import opened Wrappers

  function Clamp(nActive: int, nExperts: nat): nat
    requires nExperts >= 1
  {
    if nActive < 1 then 1 else if nActive > nExperts then nExperts else nActive
  }

  /** No load is larger than the one before it. */
  ghost predicate NonIncreasing(counts: seq<int>) {
    forall i, j :: 0 <= i < j < |counts| ==> counts[i] >= counts[j]
  }

  /** An even spread of `total` over the first `active` experts. */
  ghost predicate Even(counts: seq<int>, active: nat, total: nat) {
    && active <= |counts|
    && Sum(counts) == total
    && (forall i, j :: 0 <= i < j < active ==> counts[i] - 1 <= counts[j] <= counts[i])
    && (forall i :: 0 <= i < active ==> active * counts[i] < total + active && total < active * (counts[i] + 1))
    && (forall i :: active <= i < |counts| ==> counts[i] == 0)
  }

  /** `counts_uniform`. */
  method CountsUniform(nExperts: nat, nActive: int, total: nat) returns (counts: seq<int>)
    requires nExperts >= 1
    ensures |counts| == nExperts
    ensures Even(counts, Clamp(nActive, nExperts), total)
  {
    var active := Clamp(nActive, nExperts);
    counts := seq(nExperts, _ => 0);
    SumOfZeros(counts);
    var base, rem := total / active, total % active;
    assert total == active * base + rem;
    for i := 0 to active
      invariant |counts| == nExperts
      invariant Sum(counts) == Handed(base, rem, i)
      invariant forall j :: 0 <= j < i ==> counts[j] == base + if j < rem then 1 else 0
      invariant forall j :: i <= j < nExperts ==> counts[j] == 0
    {
      var load := base + if i < rem then 1 else 0;
      SumUpdate(counts, i, load);
      counts := counts[i := load];
    }
    HandedTotal(base, rem, active);
    EvenLoads(active, base, rem, total);
  }

  /** What the first `i` experts get: `base` each, and one more for the first `rem` of them. */
  ghost function Handed(base: nat, rem: nat, i: nat): nat {
    if i == 0 then 0 else Handed(base, rem, i - 1) + base + if i - 1 < rem then 1 else 0
  }

  lemma {:induction false} HandedTotal(base: nat, rem: nat, i: nat)
    ensures Handed(base, rem, i) == i * base + if i < rem then i else rem
  {
    if i != 0 {
      HandedTotal(base, rem, i - 1);
      assert i * base == (i - 1) * base + base;
    }
  }

  lemma {:induction false} EvenLoads(active: nat, base: nat, rem: nat, total: nat)
    requires total == active * base + rem && rem < active
    ensures active * base < total + active && total < active * (base + 1)
    ensures rem > 0 ==> active * (base + 1) < total + active && total < active * (base + 2)
  {
    assert active * (base + 1) == active * base + active;
    assert active * (base + 2) == active * base + 2 * active;
  }

  /** An even spread over enough experts can be realised. */
  lemma {:induction false} EvenIsFeasible(counts: seq<int>, active: nat, topK: nat, nTokens: nat)
    requires 1 <= topK <= active
    requires Even(counts, active, nTokens * topK)
    ensures Feasible(counts, topK, nTokens)
  {
    forall e | 0 <= e < |counts| ensures 0 <= counts[e] <= nTokens {
      if e < active {
        if counts[e] < 0 { MulMono(active, counts[e] + 1, 0); }
        MulMono(nTokens, topK, active);
        assert active * (counts[e] - 1) == active * counts[e] - active;
        if counts[e] > nTokens { MulMono(active, nTokens, counts[e] - 1); }
      }
    }
  }

  lemma {:induction false} MulMono(a: nat, x: int, y: int)
    requires x <= y
    ensures a * x <= a * y
  {
  }

  // ------------------------------------------------------------------
  // counts_zipf

  /** The sum of the first `n` values of `f`. */
  ghost function Prefix(f: nat -> real, n: nat): real {
    if n == 0 then 0.0 else Prefix(f, n - 1) + f(n - 1)
  }

  lemma {:induction false} PrefixPositive(weight: nat -> real, n: nat)
    requires forall i: nat :: weight(i) > 0.0
    ensures Prefix(weight, n) >= 0.0 && (n >= 1 ==> Prefix(weight, n) > 0.0)
  {
    if n != 0 { PrefixPositive(weight, n - 1); }
  }

  /** The exact real share of rank `i`: `weights[i] / sum_w * total`. */
  function Shares(weight: nat -> real, sumW: real, total: nat): nat -> real
    requires sumW > 0.0
  {
    (i: nat) => weight(i) / sumW * total as real
  }

  lemma {:induction false} SharesSum(weight: nat -> real, sumW: real, total: nat, n: nat)
    requires sumW > 0.0
    ensures Prefix(Shares(weight, sumW, total), n) == Prefix(weight, n) / sumW * total as real
  {
    if n != 0 {
      SharesSum(weight, sumW, total, n - 1);
      assert (Prefix(weight, n - 1) + weight(n - 1)) / sumW == Prefix(weight, n - 1) / sumW + weight(n - 1) / sumW;
    }
  }

  lemma {:induction false} SharesMonotone(weight: nat -> real, sumW: real, total: nat, i: nat, j: nat)
    requires sumW > 0.0 && weight(i) >= weight(j) >= 0.0
    ensures Shares(weight, sumW, total)(i) >= Shares(weight, sumW, total)(j) >= 0.0
  {
    assert weight(i) / sumW >= weight(j) / sumW >= 0.0;
  }

  /** The shares `counts_zipf` rounds. */
  ghost function ZipfShares(weight: nat -> real, active: nat, total: nat): nat -> real
    requires active >= 1 && forall i: nat :: weight(i) > 0.0
  {
    PrefixPositive(weight, active);
    Shares(weight, Prefix(weight, active), total)
  }

  /** The floors of the exact shares of the first `n` ranks, and zeros. */
  ghost function FloorsOf(share: nat -> real, n: nat, nExperts: nat): seq<int> {
    seq(nExperts, j requires 0 <= j < nExperts => if j < n then share(j).Floor else 0)
  }

  /** The histogram `counts_zipf` aims at: the floors, and one more unit for the first ranks while any is left. */
  ghost function ZipfTarget(weight: nat -> real, active: nat, nExperts: nat, total: nat): (r: seq<int>)
    requires 1 <= active <= nExperts && forall i: nat :: weight(i) > 0.0
    ensures |r| == nExperts
  {
    var floors := FloorsOf(ZipfShares(weight, active, total), active, nExperts);
    seq(nExperts, j requires 0 <= j < nExperts => floors[j] + if j < total - Sum(floors) then 1 else 0)
  }

  /** `counts` holds the floors of the exact shares of the first `n` ranks, and zeros. */
  ghost predicate Floors(counts: seq<int>, share: nat -> real, n: nat) {
    && n <= |counts|
    && (forall j: nat :: j < n ==> counts[j] == share(j).Floor)
    && (forall j :: n <= j < |counts| ==> counts[j] == 0)
  }

  /** The first loop of `counts_zipf`: less than one unit per active expert is left over. */
  method ZipfFloors(nExperts: nat, active: nat, share: nat -> real, total: nat)
    returns (counts: seq<int>, given: int)
    requires 1 <= active <= nExperts
    requires Prefix(share, active) == total as real
    ensures |counts| == nExperts && Floors(counts, share, active)
    ensures Sum(counts) == given <= total < given + active
  {
    counts := seq(nExperts, _ => 0);
    SumOfZeros(counts);
    given := 0;
    for i := 0 to active
      invariant |counts| == nExperts && Sum(counts) == given
      invariant given as real <= Prefix(share, i)
      invariant Prefix(share, i) < given as real + if i == 0 then 1.0 else i as real
      invariant Floors(counts, share, i)
    {
      var load := share(i).Floor;
      SumUpdate(counts, i, load);
      counts := counts[i := load];
      given := given + load;
    }
  }

  /** The remainder loop of `counts_zipf`: no expert gets a second extra unit. */
  method HandOut(floors: seq<int>, active: nat, given0: int, total: nat) returns (counts: seq<int>)
    requires 1 <= active <= |floors|
    requires Sum(floors) == given0 <= total < given0 + active
    ensures |counts| == |floors| && Sum(counts) == total
    ensures forall j :: 0 <= j < |floors| ==> counts[j] == floors[j] + if j < total - given0 then 1 else 0
  {
    counts := floors;
    var given, i := given0, 0;
    while given < total
      invariant given0 + i == given <= total
      invariant |counts| == |floors| && Sum(counts) == given
      invariant forall j :: 0 <= j < |floors| ==> counts[j] == floors[j] + if j < i then 1 else 0
      decreases total - given
    {
      NoWrap(i, active);
      SumUpdate(counts, i, counts[i] + 1);
      counts := counts[i % active := counts[i % active] + 1];
      given := given + 1;
      i := i + 1;
    }
  }

  lemma {:induction false} NoWrap(i: nat, n: nat)
    requires i < n
    ensures i % n == i
  {
  }

  lemma {:induction false} FloorsNonIncreasing(floors: seq<int>, weight: nat -> real, active: nat, sumW: real, total: nat)
    requires sumW > 0.0 && Floors(floors, Shares(weight, sumW, total), active)
    requires forall i: nat :: weight(i) > 0.0
    requires forall i: nat, j: nat :: i < j ==> weight(i) >= weight(j)
    ensures NonIncreasing(floors)
  {
    forall a, b | 0 <= a < b < |floors| ensures floors[a] >= floors[b] {
      SharesMonotone(weight, sumW, total, a, b);
    }
  }

  lemma {:induction false} DivideSelf(x: real)
    requires x != 0.0
    ensures x / x == 1.0
  {
  }

  ghost predicate Decreasing(weight: nat -> real) {
    forall i: nat, j: nat :: i < j ==> weight(i) >= weight(j)
  }

  /**
   `counts_zipf` for any positive weights (`weight(i)` is `1 / (i + 1) ** alpha`): the loads
   sum to `total`, each is the floor of its exact share or one more, and weights that do not
   increase with rank (`alpha >= 0`) give loads that do not increase with rank.
   */
  method CountsZipf(nExperts: nat, nActive: int, weight: nat -> real, total: nat) returns (counts: seq<int>)
    requires nExperts >= 1
    requires forall i: nat :: weight(i) > 0.0
    ensures counts == ZipfTarget(weight, Clamp(nActive, nExperts), nExperts, total)
    ensures |counts| == nExperts && Sum(counts) == total
    ensures forall i: nat :: i < Clamp(nActive, nExperts) ==>
      var floor := ZipfShares(weight, Clamp(nActive, nExperts), total)(i).Floor;
      floor <= counts[i] <= floor + 1
    ensures forall i :: Clamp(nActive, nExperts) <= i < nExperts ==> counts[i] == 0
    ensures Decreasing(weight) ==> NonIncreasing(counts)
  {
    var active := Clamp(nActive, nExperts);
    counts := RoundShares(nExperts, active, weight, total);
    forall i: nat | i < active
      ensures var floor := ZipfShares(weight, active, total)(i).Floor; floor <= counts[i] <= floor + 1
    {
      ZipfBounds(weight, active, nExperts, total, i);
    }
    if Decreasing(weight) { ZipfNonIncreasing(weight, active, nExperts, total); }
  }

  /** The two loops of `counts_zipf`. */
  method RoundShares(nExperts: nat, active: nat, weight: nat -> real, total: nat) returns (counts: seq<int>)
    requires 1 <= active <= nExperts && forall i: nat :: weight(i) > 0.0
    ensures counts == ZipfTarget(weight, active, nExperts, total) && Sum(counts) == total
    ensures forall i :: active <= i < nExperts ==> counts[i] == 0
  {
    var sumW := SumWeights(weight, active);
    SharesTotal(weight, sumW, total, active);
    var floors, given := ZipfFloors(nExperts, active, Shares(weight, sumW, total), total);
    counts := HandOut(floors, active, given, total);
    assert floors == FloorsOf(ZipfShares(weight, active, total), active, nExperts);
  }

  lemma {:induction false} ZipfBounds(weight: nat -> real, active: nat, nExperts: nat, total: nat, i: nat)
    requires i < active <= nExperts && forall i: nat :: weight(i) > 0.0
    ensures var floor := ZipfShares(weight, active, total)(i).Floor;
      floor <= ZipfTarget(weight, active, nExperts, total)[i] <= floor + 1
  {
  }

  lemma {:induction false} ZipfNonIncreasing(weight: nat -> real, active: nat, nExperts: nat, total: nat)
    requires 1 <= active <= nExperts && Decreasing(weight) && forall i: nat :: weight(i) > 0.0
    ensures NonIncreasing(ZipfTarget(weight, active, nExperts, total))
  {
    PrefixPositive(weight, active);
    var floors := FloorsOf(ZipfShares(weight, active, total), active, nExperts);
    FloorsNonIncreasing(floors, weight, active, Prefix(weight, active), total);
  }

  /** `sum(weights)`. */
  method SumWeights(weight: nat -> real, n: nat) returns (sumW: real)
    requires n >= 1 && forall i: nat :: weight(i) > 0.0
    ensures sumW == Prefix(weight, n) > 0.0
  {
    sumW := 0.0;
    for i := 0 to n
      invariant sumW == Prefix(weight, i)
    {
      sumW := sumW + weight(i);
    }
    PrefixPositive(weight, n);
  }

  lemma {:induction false} SharesTotal(weight: nat -> real, sumW: real, total: nat, n: nat)
    requires sumW > 0.0 && sumW == Prefix(weight, n)
    ensures Prefix(Shares(weight, sumW, total), n) == total as real
  {
    SharesSum(weight, sumW, total, n);
    DivideSelf(sumW);
  }

  /** A non-increasing target that sums to the table size is met iff its first load fits. */
  lemma {:induction false} NonIncreasingFeasible(counts: seq<int>, topK: nat, nTokens: nat)
    requires counts != [] && NonIncreasing(counts) && Sum(counts) == nTokens * topK
    requires forall e :: 0 <= e < |counts| ==> counts[e] >= 0
    ensures Feasible(counts, topK, nTokens) <==> counts[0] <= nTokens
  {
    forall e | 0 <= e < |counts| ensures counts[e] <= counts[0] { }
  }

  // ------------------------------------------------------------------
  // concentration_targets

  /** The loads the sweep tries: 16, 32, 64, ... */
  function Doubled(j: nat): (r: nat)
    ensures r >= 16
  {
    if j == 0 then 16 else 2 * Doubled(j - 1)
  }

  lemma {:induction false} DoubledGrows(i: nat, j: nat)
    requires i < j
    ensures 16 <= Doubled(i) < Doubled(j)
  {
    if i + 1 < j {
      DoubledGrows(i, j - 1);
    } else if i > 0 {
      DoubledGrows(i - 1, i);
    }
  }

  /** A load that divides the table into a possible number of experts. */
  predicate Fits(tpe: nat, nExperts: nat, topK: nat, total: nat) {
    && 0 < tpe <= total
    && total % tpe == 0
    && topK <= total / tpe <= nExperts
  }

  /** A feasible target: a power-of-two load of at least 16 that fits. */
  ghost predicate IsTarget(tpe: nat, nExperts: nat, topK: nat, total: nat) {
    Fits(tpe, nExperts, topK, total) && exists j: nat :: tpe == Doubled(j)
  }

  ghost function TargetsBelow(j: nat, nExperts: nat, topK: nat, total: nat): seq<nat> {
    if j == 0 then []
    else TargetsBelow(j - 1, nExperts, topK, total) +
         if Fits(Doubled(j - 1), nExperts, topK, total) then [Doubled(j - 1)] else []
  }

  lemma {:induction false} TargetsBelowExact(j: nat, nExperts: nat, topK: nat, total: nat, x: nat)
    ensures x in TargetsBelow(j, nExperts, topK, total) <==>
      Fits(x, nExperts, topK, total) && exists i: nat :: i < j && x == Doubled(i)
  {
    if j != 0 {
      TargetsBelowExact(j - 1, nExperts, topK, total, x);
      assert x == Doubled(j - 1) ==> exists i: nat :: i < j && x == Doubled(i);
    }
  }

  /** The list rises strictly and stays below `top`. */
  ghost predicate RisesBelow(ts: seq<nat>, top: nat) {
    && (forall a, b :: 0 <= a < b < |ts| ==> ts[a] < ts[b])
    && (forall a :: 0 <= a < |ts| ==> ts[a] < top)
  }

  lemma {:induction false} RiseExtends(ts: seq<nat>, x: nat, top: nat)
    requires RisesBelow(ts, x) && x < top
    ensures RisesBelow(ts, top) && RisesBelow(ts + [x], top)
  {
  }

  lemma {:induction false} TargetsBelowRise(j: nat, nExperts: nat, topK: nat, total: nat)
    ensures RisesBelow(TargetsBelow(j, nExperts, topK, total), Doubled(j))
  {
    if j != 0 {
      TargetsBelowRise(j - 1, nExperts, topK, total);
      DoubledGrows(j - 1, j);
      RiseExtends(TargetsBelow(j - 1, nExperts, topK, total), Doubled(j - 1), Doubled(j));
    }
  }

  /** `concentration_targets`. */
  method ConcentrationTargets(nExperts: nat, topK: nat, nTokens: nat) returns (targets: seq<nat>)
    ensures forall x: nat :: x in targets <==> IsTarget(x, nExperts, topK, nTokens * topK)
    ensures forall a, b :: 0 <= a < b < |targets| ==> targets[a] < targets[b]
  {
    var total := nTokens * topK;
    targets := [];
    var tpe := 16;
    ghost var j: nat := 0;
    while tpe <= total
      invariant tpe == Doubled(j)
      invariant targets == TargetsBelow(j, nExperts, topK, total)
      decreases total - tpe
    {
      if total % tpe == 0 {
        var nActive := total / tpe;
        if topK <= nActive <= nExperts {
          targets := targets + [tpe];
        }
      }
      tpe := tpe * 2;
      j := j + 1;
    }
    TargetsBelowRise(j, nExperts, topK, total);
    forall x: nat ensures x in targets <==> IsTarget(x, nExperts, topK, total) {
      TargetsBelowExact(j, nExperts, topK, total, x);
      if x in targets {
        var i: nat :| i < j && x == Doubled(i);
        assert x == Doubled(i);
      }
      if IsTarget(x, nExperts, topK, total) {
        var i: nat :| x == Doubled(i);
        if j < i { DoubledGrows(j, i); }
        assert i < j && x == Doubled(i);
      }
    }
  }

  // ------------------------------------------------------------------
  // hist_stats

  /** The experts below `n` that are used. */
  ghost function Active(hist: seq<int>, n: nat): set<int>
    requires n <= |hist|
  {
    set e | 0 <= e < n && hist[e] > 0
  }

  /** How many of the first `n` experts are used, and the range of their loads. */
  ghost predicate Tally(hist: seq<int>, n: nat, count: nat, lo: int, hi: int)
    requires n <= |hist|
  {
    && count == |Active(hist, n)|
    && (count == 0 ==> Active(hist, n) == {} && lo == hi == 0)
    && (count != 0 ==>
          && (forall e :: e in Active(hist, n) ==> lo <= hist[e] <= hi)
          && (exists e :: e in Active(hist, n) && hist[e] == lo)
          && (exists e :: e in Active(hist, n) && hist[e] == hi))
  }

  /** The counting loop of `hist_stats`. */
  method CountIds(ids: seq<nat>, nExperts: nat) returns (hist: seq<int>)
    requires forall i :: 0 <= i < |ids| ==> ids[i] < nExperts
    ensures hist == Histogram(ids, nExperts)
  {
    hist := seq(nExperts, _ => 0);
    for i := 0 to |ids|
      invariant hist == Histogram(ids[..i], nExperts)
    {
      assert ids[..i + 1] == ids[..i] + [ids[i]];
      hist := hist[ids[i] := hist[ids[i]] + 1];
    }
    assert ids[..|ids|] == ids;
  }

  /** `hist_stats`: the statistics are those of the realised histogram. */
  method HistStats(ids: seq<nat>, nExperts: nat) returns (nActive: nat, lo: int, hi: int, mean: real)
    requires forall i :: 0 <= i < |ids| ==> ids[i] < nExperts
    ensures Tally(Histogram(ids, nExperts), nExperts, nActive, lo, hi)
    ensures mean == if nActive == 0 then 0.0 else |ids| as real / nActive as real
  {
    var hist := CountIds(ids, nExperts);
    nActive, lo, hi := 0, 0, 0;
    var sum := 0;
    for e := 0 to nExperts
      invariant Tally(hist, e, nActive, lo, hi)
      invariant sum == Sum(hist[..e])
    {
      assert hist[..e + 1] == hist[..e] + [hist[e]];
      SumAppend(hist[..e], [hist[e]]);
      sum := sum + hist[e];
      TallyStep(hist, e, nActive, lo, hi);
      if hist[e] > 0 {
        lo := if nActive == 0 || hist[e] < lo then hist[e] else lo;
        hi := if nActive == 0 || hist[e] > hi then hist[e] else hi;
        nActive := nActive + 1;
      }
    }
    assert hist[..nExperts] == hist;
    HistogramSum(ids, nExperts);
    mean := if nActive == 0 then 0.0 else sum as real / nActive as real;
  }

  lemma {:induction false} TallyStep(hist: seq<int>, e: nat, count: nat, lo: int, hi: int)
    requires e < |hist| && Tally(hist, e, count, lo, hi)
    requires hist[e] >= 0
    ensures hist[e] == 0 ==> Tally(hist, e + 1, count, lo, hi)
    ensures hist[e] > 0 ==>
      Tally(hist, e + 1, count + 1,
            if count == 0 || hist[e] < lo then hist[e] else lo,
            if count == 0 || hist[e] > hi then hist[e] else hi)
  {
    var active := Active(hist, e);
    assert e !in active;
    if hist[e] > 0 {
      assert Active(hist, e + 1) == active + {e};
      assert e in Active(hist, e + 1);
    } else {
      assert Active(hist, e + 1) == active;
    }
  }

  // ------------------------------------------------------------------
  // generate

  datatype Mode = Uniform | Single | Zipf(weight: nat -> real) | Concentration(tpeTarget: Option<nat>) | Unknown

  datatype RoutingResult = RoutingResult(ids: seq<nat>, tpeTarget: nat, nActive: nat, tpeMin: int, tpeMax: int,
                                         tpeMean: real)

  datatype Generated = Generated(table: RoutingResult) | RoutingGenError

  predicate ValidShape(nExperts: int, topK: int, nTokens: int) {
    1 <= nExperts && 1 <= topK <= nExperts && 1 <= nTokens
  }

  /** The requests `generate` accepts. */
  ghost predicate Accepted(mode: Mode, nExperts: int, topK: int, nTokens: int) {
    && ValidShape(nExperts, topK, nTokens)
    && !mode.Unknown?
    && (mode.Concentration? ==> mode.tpeTarget.Some? && IsTarget(mode.tpeTarget.value, nExperts, topK, nTokens * topK))
  }

  /**
   What a target that sums to the table size gets: every expert its load, capped at one slot
   per token, and the target itself exactly when no load exceeds the tokens.
   */
  ghost predicate MeetsTarget(ids: seq<nat>, counts: seq<int>, nTokens: nat) {
    && Covers(ids, counts, nTokens)
    && (Realises(ids, counts) <==> forall e :: 0 <= e < |counts| ==> counts[e] <= nTokens)
  }

  /** What each mode promises about the realised table. */
  ghost predicate MeetsMode(mode: Mode, nExperts: nat, topK: nat, nTokens: nat, r: RoutingResult)
    requires 1 <= topK <= nExperts
    requires mode.Zipf? ==> forall i: nat :: mode.weight(i) > 0.0
    requires WellRouted(r.ids, nExperts, topK, nTokens)
  {
    var h := Histogram(r.ids, nExperts);
    match mode
    case Uniform =>
      && r.tpeTarget == nTokens * topK / nExperts
      && forall d, e :: 0 <= d < e < nExperts ==> h[d] - 1 <= h[e] <= h[d]
    case Single =>
      && r.tpeTarget == nTokens * topK
      && (forall t: nat :: t < nTokens ==> 0 in Row(r.ids, topK, t))
      && h[0] == nTokens
    case Zipf(weight) =>
      var counts := ZipfTarget(weight, nExperts, nExperts, nTokens * topK);
      && r.tpeTarget == 0
      && MeetsTarget(r.ids, counts, nTokens)
      && (Decreasing(weight) ==> (Realises(r.ids, counts) <==> counts[0] <= nTokens))
    case Concentration(target) =>
      && target.Some? && target.value > 0
      && r.nActive == nTokens * topK / target.value
      && r.tpeMin == r.tpeMax == r.tpeTarget == target.value
    case Unknown => false
  }

  /** The reported statistics are those of the table. */
  ghost predicate Reports(nExperts: nat, r: RoutingResult) {
    && Tally(Histogram(r.ids, nExperts), nExperts, r.nActive, r.tpeMin, r.tpeMax)
    && r.tpeMean == if r.nActive == 0 then 0.0 else |r.ids| as real / r.nActive as real
  }

  /** The target load that a mode sets. */
  ghost predicate Targets(mode: Mode, topK: nat, nTokens: nat, counts: seq<int>, target: nat)
    requires |counts| >= 1 && topK >= 1
    requires mode.Zipf? ==> forall i: nat :: mode.weight(i) > 0.0
  {
    var total := nTokens * topK;
    match mode
    case Uniform => Even(counts, |counts|, total) && topK <= |counts| && target == total / |counts|
    case Single => Even(counts, 1, total) && target == total
    case Zipf(weight) => IsZipf(weight, counts, total) && target == 0
    case Concentration(t) =>
      && t.Some? && t.value == target && Fits(target, |counts|, topK, total)
      && Even(counts, total / target, total)
    case Unknown => false
  }

  ghost predicate IsZipf(weight: nat -> real, counts: seq<int>, total: nat)
    requires |counts| >= 1 && forall i: nat :: weight(i) > 0.0
  {
    && counts == ZipfTarget(weight, |counts|, |counts|, total)
    && Sum(counts) == total
    && (forall e :: 0 <= e < |counts| ==> counts[e] >= 0)
    && (Decreasing(weight) ==> NonIncreasing(counts))
  }

  /** An expert in every row has load `nTokens`. */
  lemma {:induction false} InEveryRow(ids: seq<nat>, nExperts: nat, topK: nat, nTokens: nat, e: nat)
    requires WellRouted(ids, nExperts, topK, nTokens)
    requires forall t: nat :: t < nTokens ==> e in Row(ids, topK, t)
    ensures multiset(ids)[e] == nTokens
    decreases nTokens
  {
    if nTokens != 0 {
      var last := nTokens - 1;
      var head := ids[..last * topK];
      DropLastToken(ids, nExperts, topK, nTokens);
      InEveryRow(head, nExperts, topK, last, e);
      var row := Row(ids, topK, last);
      DistinctOnce(row, e);
      assert e in multiset(row);
      assert multiset(ids) == multiset(head) + multiset(row);
    }
  }

  /** An even spread without a remainder gives every active expert the same load. */
  lemma {:induction false} EvenWithoutRemainder(counts: seq<int>, target: nat, total: nat)
    requires 0 < target <= total && total % target == 0
    requires Even(counts, total / target, total)
    ensures forall i :: 0 <= i < total / target ==> counts[i] == target
  {
    var a := total / target;
    assert total == a * target;
    forall i | 0 <= i < a ensures counts[i] == target {
      EvenLoad(a, target, counts[i]);
    }
  }

  lemma {:induction false} EvenLoad(a: nat, target: nat, load: int)
    requires a * load < a * target + a && a * target < a * (load + 1)
    ensures load == target
  {
    assert a * target + a == a * (target + 1);
    if load >= target + 1 { MulMono(a, target + 1, load); }
    if load + 1 <= target { MulMono(a, load + 1, target); }
  }

  lemma {:induction false} ConcentrationMet(nExperts: nat, topK: nat, nTokens: nat, counts: seq<int>, r: RoutingResult)
    requires 1 <= topK <= nExperts == |counts| && nTokens >= 1
    requires Fits(r.tpeTarget, nExperts, topK, nTokens * topK)
    requires Even(counts, nTokens * topK / r.tpeTarget, nTokens * topK)
    requires Realises(r.ids, counts)
    requires Tally(Histogram(r.ids, nExperts), nExperts, r.nActive, r.tpeMin, r.tpeMax)
    ensures r.nActive == nTokens * topK / r.tpeTarget && r.tpeMin == r.tpeMax == r.tpeTarget
  {
    var a := nTokens * topK / r.tpeTarget;
    EvenWithoutRemainder(counts, r.tpeTarget, nTokens * topK);
    var h := Histogram(r.ids, nExperts);
    assert h == counts;
    assert Active(h, nExperts) == Span(0, a);
  }

  lemma {:induction false} ModeMet(mode: Mode, nExperts: nat, topK: nat, nTokens: nat, counts: seq<int>, r: RoutingResult)
    requires 1 <= topK <= nExperts == |counts| && nTokens >= 1
    requires mode.Zipf? ==> forall i: nat :: mode.weight(i) > 0.0
    requires Targets(mode, topK, nTokens, counts, r.tpeTarget)
    requires WellRouted(r.ids, nExperts, topK, nTokens)
    requires Covers(r.ids, counts, nTokens) <==> HasRoom(counts, topK, nTokens)
    requires Realises(r.ids, counts) <==> Feasible(counts, topK, nTokens)
    requires forall e: nat, t: nat :: t < nTokens && Dominant(counts, e, nTokens) ==> e in Row(r.ids, topK, t)
    requires Tally(Histogram(r.ids, nExperts), nExperts, r.nActive, r.tpeMin, r.tpeMax)
    ensures MeetsMode(mode, nExperts, topK, nTokens, r)
  {
    match mode {
      case Uniform =>
        EvenIsFeasible(counts, nExperts, topK, nTokens);
      case Single =>
        SingleDominant(counts, topK, nTokens);
        SingleMet(nExperts, topK, nTokens, counts, r.ids);
      case Zipf(weight) =>
        ZipfMet(weight, topK, nTokens, counts, r.ids);
      case Concentration(_) =>
        EvenIsFeasible(counts, nTokens * topK / r.tpeTarget, topK, nTokens);
        ConcentrationMet(nExperts, topK, nTokens, counts, r);
    }
  }

  lemma {:induction false} SingleDominant(counts: seq<int>, topK: nat, nTokens: nat)
    requires |counts| >= 1 && topK >= 1 && Even(counts, 1, nTokens * topK)
    ensures Dominant(counts, 0, nTokens)
  {
    MulMono(nTokens, 1, topK);
  }

  lemma {:induction false} SingleMet(nExperts: nat, topK: nat, nTokens: nat, counts: seq<int>, ids: seq<nat>)
    requires nExperts == |counts| >= 1 && Dominant(counts, 0, nTokens)
    requires WellRouted(ids, nExperts, topK, nTokens)
    requires forall e: nat, t: nat :: t < nTokens && Dominant(counts, e, nTokens) ==> e in Row(ids, topK, t)
    ensures forall t: nat :: t < nTokens ==> 0 in Row(ids, topK, t)
    ensures Histogram(ids, nExperts)[0] == nTokens
  {
    InEveryRow(ids, nExperts, topK, nTokens, 0);
  }

  /** Whatever the skew, a target that sums to the table size is covered. */
  lemma {:induction false} TotalHasRoom(counts: seq<int>, topK: nat, nTokens: nat)
    requires Sum(counts) == nTokens * topK && forall e :: 0 <= e < |counts| ==> counts[e] >= 0
    ensures HasRoom(counts, topK, nTokens)
  {
    SumMonotone(Capped(counts, nTokens), counts);
  }

  lemma {:induction false} ZipfMet(weight: nat -> real, topK: nat, nTokens: nat, counts: seq<int>, ids: seq<nat>)
    requires |counts| >= 1 && topK >= 1
    requires forall i: nat :: weight(i) > 0.0
    requires IsZipf(weight, counts, nTokens * topK)
    requires Covers(ids, counts, nTokens) <==> HasRoom(counts, topK, nTokens)
    requires Realises(ids, counts) <==> Feasible(counts, topK, nTokens)
    ensures MeetsTarget(ids, counts, nTokens)
    ensures Decreasing(weight) ==> (Realises(ids, counts) <==> counts[0] <= nTokens)
  {
    TotalHasRoom(counts, topK, nTokens);
    if Decreasing(weight) { NonIncreasingFeasible(counts, topK, nTokens); }
  }

  lemma {:induction false} ZipfCountsPositive(weight: nat -> real, counts: seq<int>, total: nat)
    requires |counts| >= 1 && forall i: nat :: weight(i) > 0.0
    requires forall i: nat :: i < |counts| ==> ZipfShares(weight, |counts|, total)(i).Floor <= counts[i]
    ensures forall e :: 0 <= e < |counts| ==> counts[e] >= 0
  {
    PrefixPositive(weight, |counts|);
    forall e | 0 <= e < |counts| ensures counts[e] >= 0 {
      SharesMonotone(weight, Prefix(weight, |counts|), total, e, e);
    }
  }

  /** The histogram of a feasible target: that many active experts, each with the target's load. */
  method ConcentratedCounts(nExperts: nat, topK: nat, total: nat, target: nat) returns (counts: seq<int>)
    requires topK >= 1 && Fits(target, nExperts, topK, total)
    ensures |counts| == nExperts && Even(counts, total / target, total)
  {
    counts := CountsUniform(nExperts, total / target, total);
  }

  /** `generate`'s choice of a target histogram. */
  method TargetCounts(mode: Mode, nExperts: nat, topK: nat, nTokens: nat)
    returns (ok: bool, counts: seq<int>, target: nat)
    requires ValidShape(nExperts, topK, nTokens)
    requires mode.Zipf? ==> forall i: nat :: mode.weight(i) > 0.0
    ensures ok <==> Accepted(mode, nExperts, topK, nTokens)
    ensures ok ==> |counts| == nExperts && Targets(mode, topK, nTokens, counts, target)
  {
    var total := nTokens * topK;
    ok, counts, target := true, [], 0;
    match mode {
      case Uniform =>
        counts := CountsUniform(nExperts, nExperts, total);
        target := total / nExperts;
      case Single =>
        counts := CountsUniform(nExperts, 1, total);
        target := total;
      case Zipf(weight) =>
        counts := CountsZipf(nExperts, nExperts, weight, total);
        ZipfCountsPositive(weight, counts, total);
      case Concentration(tpeTarget) =>
        if tpeTarget.None? {
          ok := false;
          return;
        }
        var feasible := ConcentrationTargets(nExperts, topK, nTokens);
        if tpeTarget.value !in feasible {
          ok := false;
          return;
        }
        target := tpeTarget.value;
        counts := ConcentratedCounts(nExperts, topK, total, target);
      case Unknown =>
        ok := false;
    }
  }

  /** `generate`: a request is refused or its table meets the mode it asked for. */
  method Generate(mode: Mode, nExperts: int, topK: int, nTokens: int, shuffled: nat -> seq<nat>)
    returns (g: Generated)
    requires nExperts >= 1 ==> forall t: nat :: IsPermutation(shuffled(t), nExperts)
    requires mode.Zipf? ==> forall i: nat :: mode.weight(i) > 0.0
    ensures g.Generated? <==> Accepted(mode, nExperts, topK, nTokens)
    ensures g.Generated? ==> WellRouted(g.table.ids, nExperts, topK, nTokens)
    ensures g.Generated? ==> MeetsMode(mode, nExperts, topK, nTokens, g.table)
    ensures g.Generated? ==> Reports(nExperts, g.table)
  {
    if !ValidShape(nExperts, topK, nTokens) {
      return RoutingGenError;
    }
    var ok, counts, target := TargetCounts(mode, nExperts, topK, nTokens);
    if !ok {
      return RoutingGenError;
    }
    var ids := AssignIds(counts, topK, nTokens, shuffled);
    var nActive, lo, hi, mean := HistStats(ids, nExperts);
    g := Generated(RoutingResult(ids, target, nActive, lo, hi, mean));
    ModeMet(mode, nExperts, topK, nTokens, counts, g.table);
  }
}
