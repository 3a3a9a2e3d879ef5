/**
 The call-weighted medians of tools/bigcherry/generalise.py: `_weighted_median` and the loop
 that `prove` writes out inline. `math.inf` is the absent value.
 */
module WeightedMedian {
  import opened Sorting
  import opened Sums
  import opened Wrappers

  datatype Entry = Entry(value: real, weight: int)

  function Abs(x: real): real { if x < 0.0 then -x else x }

  function WeightOf(): Entry -> real { (e: Entry) => e.weight as real }

  /** The weighted distance of an entry from `x`. */
  function Pay(x: real): Entry -> real { (e: Entry) => e.weight as real * Abs(e.value - x) }

  ghost function Weight(s: seq<Entry>): real { SumOf(WeightOf(), s) }

  /** The weighted sum of absolute deviations from `x`. */
  ghost function Cost(s: seq<Entry>, x: real): real { SumOf(Pay(x), s) }

  ghost predicate NonNegative(s: seq<Entry>) {
    forall e :: e in s ==> e.weight >= 0
  }

  lemma {:induction false} Scale(w: real, a: real, b: real)
    requires w >= 0.0 && a <= b
    ensures w * a <= w * b
    ensures w > 0.0 && a < b ==> w * a < w * b
  {
    var gap := b - a;
    assert w * gap >= 0.0 && (w > 0.0 && gap > 0.0 ==> w * gap > 0.0);
    assert w * (a + gap) == w * a + w * gap;
  }

  /** What the near side pays covers what the far side can save when it weighs at least as much. */
  lemma {:induction false} Trade(nearX: real, nearM: real, near: real, farX: real, farM: real, far: real, d: real)
    requires nearX == nearM + near * d && farX >= farM - far * d
    requires far <= near && d >= 0.0
    ensures nearM + farM <= nearX + farX
    ensures far < near && d > 0.0 ==> nearM + farM < nearX + farX
  {
    var spare := near - far;
    assert near * d == far * d + spare * d;
    var rest := spare * d;
    assert rest >= 0.0;
    assert nearX + farX >= nearM + farM + rest;
    assert spare > 0.0 && d > 0.0 ==> rest > 0.0;
  }

  /** Moving the centre from `m` to `x` saves at most the distance per unit of weight. */
  lemma {:induction false} CostFar(s: seq<Entry>, m: real, x: real)
    requires NonNegative(s)
    ensures Cost(s, x) >= Cost(s, m) - Weight(s) * Abs(x - m)
  {
    if s != [] {
      var w, a, b, d := WeightOf()(s[0]), Abs(s[0].value - x), Abs(s[0].value - m), Abs(x - m);
      assert s[0] in s;
      CostFar(s[1..], m, x);
      assert Pay(x)(s[0]) >= Pay(m)(s[0]) - w * d by { Scale(w, b - d, a); }
      assert Weight(s) * d == w * d + Weight(s[1..]) * d;
    }
  }

  /** Entries that `m` separates from `x` pay the whole distance. */
  lemma {:induction false} CostNear(s: seq<Entry>, m: real, x: real)
    requires forall e :: e in s ==> if x >= m then e.value <= m else e.value >= m
    ensures Cost(s, x) == Cost(s, m) + Weight(s) * Abs(x - m)
  {
    if s != [] {
      var w, a, d := WeightOf()(s[0]), Abs(s[0].value - m), Abs(x - m);
      assert s[0] in s;
      CostNear(s[1..], m, x);
      assert Pay(x)(s[0]) == Pay(m)(s[0]) + w * d by { assert w * (a + d) == w * a + w * d; }
      assert Weight(s) * d == w * d + Weight(s[1..]) * d;
    }
  }

  function ByValue(): (Entry, Entry) -> bool {
    (a: Entry, b: Entry) => a.value <= b.value
  }

  function Ordered(pairs: seq<Entry>): seq<Entry> { SortBy(pairs, ByValue()) }

  lemma {:induction false} OrderedCorrect(pairs: seq<Entry>)
    ensures multiset(Ordered(pairs)) == multiset(pairs)
    ensures SortedBy(Ordered(pairs), ByValue())
    ensures Weight(Ordered(pairs)) == Weight(pairs)
    ensures forall e :: e in pairs <==> e in Ordered(pairs)
  {
    SortByCorrect(pairs, ByValue());
    SameElements(pairs, Ordered(pairs));
    SumOfPermuted(WeightOf(), Ordered(pairs), pairs);
  }

  /** The entry at which the running weight first reaches half of the total. */
  ghost predicate Crosses(ordered: seq<Entry>, j: nat) {
    && j < |ordered|
    && Weight(ordered[..j]) < Weight(ordered) / 2.0 <= Weight(ordered[..j + 1])
  }

  lemma {:induction false} CostFarSuffix(s: seq<Entry>, cut: nat, m: real, x: real)
    requires NonNegative(s) && cut <= |s|
    ensures Cost(s[cut..], x) >= Cost(s[cut..], m) - Weight(s[cut..]) * Abs(x - m)
  {
    assert forall e :: e in s[cut..] ==> e in s;
    CostFar(s[cut..], m, x);
  }

  /** To the right of the crossing, every entry up to it pays. */
  lemma {:induction false} WorseOnTheRight(ordered: seq<Entry>, j: nat, x: real)
    requires SortedBy(ordered, ByValue()) && NonNegative(ordered) && Crosses(ordered, j)
    requires x >= ordered[j].value
    ensures Cost(ordered, ordered[j].value) <= Cost(ordered, x)
  {
    var m, lo, hi := ordered[j].value, ordered[..j + 1], ordered[j + 1..];
    forall e | e in lo ensures e.value <= m {
      var i :| 0 <= i < |lo| && lo[i] == e;
      assert i < j ==> ByValue()(ordered[i], ordered[j]);
    }
    CostNear(lo, m, x);
    CostFarSuffix(ordered, j + 1, m, x);
    SplitCost(ordered, j + 1, m, x);
    assert Weight(hi) <= Weight(lo);
    Trade(Cost(lo, x), Cost(lo, m), Weight(lo), Cost(hi, x), Cost(hi, m), Weight(hi), Abs(x - m));
  }

  /** To the left of it, every entry from it on pays. */
  lemma {:induction false} WorseOnTheLeft(ordered: seq<Entry>, j: nat, x: real)
    requires SortedBy(ordered, ByValue()) && NonNegative(ordered) && Crosses(ordered, j)
    requires x < ordered[j].value
    ensures Cost(ordered, ordered[j].value) < Cost(ordered, x)
  {
    var m, lo, hi := ordered[j].value, ordered[..j], ordered[j..];
    forall e | e in hi ensures e.value >= m {
      var i :| 0 <= i < |hi| && hi[i] == e;
      assert i > 0 ==> ByValue()(ordered[j], ordered[j + i]);
    }
    CostNear(hi, m, x);
    CostFar(lo, m, x);
    SplitCost(ordered, j, m, x);
    Trade(Cost(hi, x), Cost(hi, m), Weight(hi), Cost(lo, x), Cost(lo, m), Weight(lo), Abs(x - m));
  }

  lemma {:induction false} SplitCost(s: seq<Entry>, cut: nat, m: real, x: real)
    requires cut <= |s|
    ensures Cost(s, x) == Cost(s[..cut], x) + Cost(s[cut..], x)
    ensures Cost(s, m) == Cost(s[..cut], m) + Cost(s[cut..], m)
    ensures Weight(s) == Weight(s[..cut]) + Weight(s[cut..])
  {
    assert s == s[..cut] + s[cut..];
    SumOfAppend(Pay(x), s[..cut], s[cut..]);
    SumOfAppend(Pay(m), s[..cut], s[cut..]);
    SumOfAppend(WeightOf(), s[..cut], s[cut..]);
  }

  /** The least minimiser of the weighted absolute deviations; it is one of the values. */
  ghost predicate IsMedian(pairs: seq<Entry>, m: real) {
    && (exists e :: e in pairs && e.value == m)
    && (forall x: real :: Cost(pairs, m) <= Cost(pairs, x))
    && (forall x: real :: x < m ==> Cost(pairs, m) < Cost(pairs, x))
  }

  lemma {:induction false} CrossingIsMedian(pairs: seq<Entry>, j: nat)
    requires NonNegative(pairs) && Crosses(Ordered(pairs), j)
    ensures IsMedian(pairs, Ordered(pairs)[j].value)
  {
    var ordered := Ordered(pairs);
    OrderedCorrect(pairs);
    assert ordered[j] in ordered;
    var m := ordered[j].value;
    SumOfPermuted(Pay(m), ordered, pairs);
    forall x: real ensures Cost(pairs, m) <= Cost(pairs, x) && (x < m ==> Cost(pairs, m) < Cost(pairs, x)) {
      SumOfPermuted(Pay(x), ordered, pairs);
      if x >= m { WorseOnTheRight(ordered, j, x); } else { WorseOnTheLeft(ordered, j, x); }
    }
  }

  /** The first position, from `i` on, whose running weight reaches half of the total. */
  ghost function FirstAt(ordered: seq<Entry>, i: nat): nat
    decreases |ordered| - i
  {
    if i >= |ordered| || Weight(ordered[..i + 1]) >= Weight(ordered) / 2.0 then i else FirstAt(ordered, i + 1)
  }

  /** The value at that position, or infinity. */
  ghost function Crossing(ordered: seq<Entry>): Option<real> {
    var j := FirstAt(ordered, 0);
    if j < |ordered| then Some(ordered[j].value) else None
  }

  lemma {:induction false} FirstAtCrosses(ordered: seq<Entry>, i: nat)
    requires i < |ordered| && Weight(ordered) > 0.0 && Weight(ordered[..i]) < Weight(ordered) / 2.0
    ensures Crosses(ordered, FirstAt(ordered, i))
    decreases |ordered| - i
  {
    assert ordered[..|ordered|] == ordered;
    if Weight(ordered[..i + 1]) < Weight(ordered) / 2.0 {
      FirstAtCrosses(ordered, i + 1);
    }
  }

  lemma {:induction false} FirstAtFound(ordered: seq<Entry>, i: nat)
    requires i < |ordered| && Weight(ordered) >= 0.0
    ensures FirstAt(ordered, i) < |ordered|
    decreases |ordered| - i
  {
    if i + 1 < |ordered| {
      FirstAtFound(ordered, i + 1);
    } else {
      assert ordered[..i + 1] == ordered;
    }
  }

  lemma {:induction false} RunningWeight(ordered: seq<Entry>, i: nat)
    requires i < |ordered|
    ensures Weight(ordered[..i + 1]) == Weight(ordered[..i]) + ordered[i].weight as real
  {
    assert ordered[..i + 1] == ordered[..i] + [ordered[i]];
    SumOfAppend(WeightOf(), ordered[..i], [ordered[i]]);
  }

  method TotalWeight(s: seq<Entry>) returns (total: int)
    ensures total as real == Weight(s)
  {
    total := 0;
    for i := 0 to |s|
      invariant total as real == Weight(s[..i])
    {
      RunningWeight(s, i);
      total := total + s[i].weight;
    }
    assert s[..|s|] == s;
  }

  /** `_weighted_median`. */
  method WeightedMedianOf(pairs: seq<Entry>) returns (r: Option<real>)
    ensures r == if Weight(pairs) <= 0.0 then None else Crossing(Ordered(pairs))
  {
    var ordered := Ordered(pairs);
    OrderedCorrect(pairs);
    var total := TotalWeight(ordered);
    if total <= 0 {
      return None;
    }
    var middle := total as real / 2.0;
    var cumulative := 0;
    FirstAtFound(ordered, 0);
    for i := 0 to |ordered|
      invariant cumulative as real == Weight(ordered[..i])
      invariant FirstAt(ordered, 0) == FirstAt(ordered, i)
    {
      RunningWeight(ordered, i);
      cumulative := cumulative + ordered[i].weight;
      if cumulative as real >= middle {
        return Some(ordered[i].value);
      }
    }
    assert false;
  }

  /** The inline median of `prove`, which does not test the total. */
  method InlineMedian(regrets: seq<Entry>) returns (r: Option<real>)
    ensures r == Crossing(Ordered(regrets))
  {
    var ordered := Ordered(regrets);
    var total := TotalWeight(ordered);
    var middle := total as real / 2.0;
    var cumulative := 0;
    r := None;
    for i := 0 to |ordered|
      invariant cumulative as real == Weight(ordered[..i])
      invariant FirstAt(ordered, 0) == FirstAt(ordered, i)
    {
      RunningWeight(ordered, i);
      cumulative := cumulative + ordered[i].weight;
      if cumulative as real >= middle {
        return Some(ordered[i].value);
      }
    }
  }

  /** With call counts and a positive total, both loops return a minimiser over all reals. */
  lemma {:induction false} CrossingMinimises(pairs: seq<Entry>)
    requires NonNegative(pairs) && Weight(pairs) > 0.0
    ensures Crossing(Ordered(pairs)).Some? && IsMedian(pairs, Crossing(Ordered(pairs)).value)
  {
    var ordered := Ordered(pairs);
    OrderedCorrect(pairs);
    assert ordered[..0] == [];
    FirstAtCrosses(ordered, 0);
    CrossingIsMedian(pairs, FirstAt(ordered, 0));
  }

  lemma {:induction false} WeightNonNegative(s: seq<Entry>)
    requires NonNegative(s)
    ensures Weight(s) >= 0.0
  {
    if s != [] {
      assert s[0] in s;
      WeightNonNegative(s[1..]);
    }
  }

  /**
   The two loops agree exactly when there is nothing to weigh or something weighs: with
   entries but no calls, `_weighted_median` is infinite and the loop in `prove` is not.
   */
  lemma {:induction false} MediansAgree(pairs: seq<Entry>)
    requires NonNegative(pairs)
    ensures (if Weight(pairs) <= 0.0 then None else Crossing(Ordered(pairs))) == Crossing(Ordered(pairs))
      <==> pairs == [] || Weight(pairs) > 0.0
  {
    OrderedCorrect(pairs);
    WeightNonNegative(pairs);
    assert |multiset(pairs)| == |multiset(Ordered(pairs))|;
    if pairs != [] { FirstAtFound(Ordered(pairs), 0); }
  }

  /** Entries without calls: the loop in `prove` returns the first value, the other function none. */
  lemma {:induction false} NoCallsDisagree()
    ensures var pairs := [Entry(1.0, 0)];
      Weight(pairs) == 0.0 && Crossing(Ordered(pairs)) == Some(1.0)
  {
    var pairs := [Entry(1.0, 0)];
    assert Ordered(pairs) == pairs;
    assert pairs[..1] == pairs && pairs[1..] == [] && pairs[..0] == [];
    assert Weight(pairs) == WeightOf()(pairs[0]) + Weight(pairs[1..]);
  }
}
