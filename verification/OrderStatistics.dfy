/** The k-th smallest of a list of reals, said by counting and found by sorting. */
module OrderStatistics {
  import opened Sorting
  import opened Sums
  import opened Spans

  ghost function Positions(v: seq<real>, p: real -> bool): set<int> {
    set i | 0 <= i < |v| && p(v[i])
  }

  function LessThan(x: real): real -> bool { (y: real) => y < x }
  function UpTo(x: real): real -> bool { (y: real) => y <= x }

  /** `x` is one of the values, with at most `k` of them below it and more than `k` not above it. */
  ghost predicate OrderStatistic(v: seq<real>, k: nat, x: real) {
    x in v && |Positions(v, LessThan(x))| <= k < |Positions(v, UpTo(x))|
  }

  function Indicator(p: real -> bool): real -> real { (x: real) => if p(x) then 1.0 else 0.0 }

  lemma {:induction false} PositionsCount(v: seq<real>, p: real -> bool)
    ensures |Positions(v, p)| as real == SumOf(Indicator(p), v)
  {
    if v == [] {
      assert Positions(v, p) == {};
    } else {
      var n := |v| - 1;
      PositionsCount(v[..n], p);
      assert v == v[..n] + [v[n]];
      SumOfAppend(Indicator(p), v[..n], [v[n]]);
      var before := Positions(v[..n], p);
      assert n !in before;
      assert Positions(v, p) == if p(v[n]) then before + {n} else before;
    }
  }

  /** Counting does not depend on the order of the values. */
  lemma {:induction false} PositionsPermuted(a: seq<real>, b: seq<real>, p: real -> bool)
    requires multiset(a) == multiset(b)
    ensures |Positions(a, p)| == |Positions(b, p)|
  {
    PositionsCount(a, p);
    PositionsCount(b, p);
    SumOfPermuted(Indicator(p), a, b);
  }

  lemma {:induction false} SortedPosition(s: seq<real>, k: nat)
    requires k < |s| && forall i, j :: 0 <= i < j < |s| ==> s[i] <= s[j]
    ensures OrderStatistic(s, k, s[k])
  {
    SubsetSize(Positions(s, LessThan(s[k])), Span(0, k));
    SubsetSize(Span(0, k + 1), Positions(s, UpTo(s[k])));
  }

  /** Sorting puts the k-th smallest value at position k. */
  lemma {:induction false} SortedStatistic(v: seq<real>, s: seq<real>, k: nat)
    requires multiset(s) == multiset(v) && k < |s| && forall i, j :: 0 <= i < j < |s| ==> s[i] <= s[j]
    ensures OrderStatistic(v, k, s[k])
  {
    SortedPosition(s, k);
    SameElements(s, v);
    PositionsPermuted(s, v, LessThan(s[k]));
    PositionsPermuted(s, v, UpTo(s[k]));
  }

  /** There is only one. */
  lemma {:induction false} StatisticUnique(v: seq<real>, k: nat, x: real, y: real)
    requires OrderStatistic(v, k, x) && OrderStatistic(v, k, y)
    ensures x == y
  {
    if x < y { SubsetSize(Positions(v, UpTo(x)), Positions(v, LessThan(y))); }
    if y < x { SubsetSize(Positions(v, UpTo(y)), Positions(v, LessThan(x))); }
  }
}
