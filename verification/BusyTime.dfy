/**
 GPU busy time as the union of dispatch intervals: the two hand-written sweeps of
 tools/bigcherry/rocprof.py and tools/bigcherry/analysis/kernel_fraction.py.
 */
module BusyTime {
  import opened Sorting
  import opened Spans

  /** A half-open dispatch interval `[lo, hi)` in nanoseconds. */
  datatype Interval = Interval(lo: int, hi: int)

  /** The nanoseconds during which some interval is open. */
  ghost function Points(spans: seq<Interval>): set<int> {
    if spans == [] then {} else Span(spans[0].lo, spans[0].hi) + Points(spans[1..])
  }

  ghost predicate Covers(spans: seq<Interval>, p: int) {
    exists i :: 0 <= i < |spans| && spans[i].lo <= p < spans[i].hi
  }

  lemma {:induction false} PointsExact(spans: seq<Interval>, p: int)
    ensures p in Points(spans) <==> Covers(spans, p)
  {
    if spans != [] {
      PointsExact(spans[1..], p);
      if Covers(spans, p) {
        var i :| 0 <= i < |spans| && spans[i].lo <= p < spans[i].hi;
        assert i > 0 ==> spans[1..][i - 1] == spans[i];
      }
      if Covers(spans[1..], p) {
        var i :| 0 <= i < |spans[1..]| && spans[1..][i].lo <= p < spans[1..][i].hi;
        assert spans[i + 1] == spans[1..][i];
      }
    }
  }

  /** The union does not depend on order or multiplicity, and grows with the intervals. */
  lemma {:induction false} PointsMonotone(a: seq<Interval>, b: seq<Interval>)
    requires forall s :: s in a ==> s in b
    ensures Points(a) <= Points(b)
  {
    forall p | p in Points(a) ensures p in Points(b) {
      PointsExact(a, p);
      PointsExact(b, p);
      var i :| 0 <= i < |a| && a[i].lo <= p < a[i].hi;
      assert a[i] in b;
    }
  }

  lemma {:induction false} PointsAppend(spans: seq<Interval>, s: Interval)
    ensures Points(spans + [s]) == Points(spans) + Span(s.lo, s.hi)
  {
    forall p ensures p in Points(spans + [s]) <==> p in Points(spans) + Span(s.lo, s.hi) {
      PointsExact(spans + [s], p);
      PointsExact(spans, p);
      var all := spans + [s];
      assert all[|spans|] == s;
      if Covers(spans, p) {
        var i :| 0 <= i < |spans| && spans[i].lo <= p < spans[i].hi;
        assert all[i] == spans[i];
      }
    }
  }

  /** An interval that ends before it starts, and starts where nothing earlier reaches. */
  ghost predicate Stray(spans: seq<Interval>, s: Interval) {
    && s.hi < s.lo
    && forall t :: t in spans ==> !(t.lo < s.lo <= t.hi)
  }

  ghost predicate NoStray(spans: seq<Interval>) {
    forall s :: s in spans ==> !Stray(spans, s)
  }

  /** Python's tuple order. */
  function Lex(): (Interval, Interval) -> bool {
    (a: Interval, b: Interval) => a.lo < b.lo || (a.lo == b.lo && a.hi <= b.hi)
  }

  function Ordered(spans: seq<Interval>): seq<Interval> {
    SortBy(spans, Lex())
  }

  lemma {:induction false} OrderedCorrect(spans: seq<Interval>)
    ensures |Ordered(spans)| == |spans|
    ensures SortedBy(Ordered(spans), Lex())
    ensures Points(Ordered(spans)) == Points(spans)
    ensures NoStray(Ordered(spans)) <==> NoStray(spans)
  {
    SortByCorrect(spans, Lex());
    SameElements(spans, Ordered(spans));
    PointsMonotone(spans, Ordered(spans));
    PointsMonotone(Ordered(spans), spans);
  }

  /**
   The sweep over a sorted prefix `done`, whose open run is `[start, end)`: the closed runs
   and the open one measure the union, less the length of every stray interval.
   */
  ghost predicate Swept(done: seq<Interval>, busy: int, start: int, end: int) {
    && done != []
    && (forall s :: s in done ==> s.lo <= done[|done| - 1].lo)
    && start <= done[|done| - 1].lo
    && (if start <= end
        then Span(start, end) <= Points(done) &&
             (forall s :: s in done ==> s.hi <= end) && (exists s :: s in done && s.hi == end)
        else forall s :: s in done ==> s.hi < start)
    && busy + (end - start) <= |Points(done)|
    && (busy + (end - start) == |Points(done)| <==> NoStray(done))
  }

  /** Later starts do not change which intervals are stray. */
  lemma {:induction false} StrayStable(done: seq<Interval>, s: Interval)
    requires done != [] && SortedBy(done + [s], Lex())
    ensures NoStray(done + [s]) <==> NoStray(done) && !Stray(done + [s], s)
    ensures Stray(done + [s], s) <==> s.hi < s.lo && forall t :: t in done ==> t.hi < s.lo
  {
    var all := done + [s];
    assert all[|done|] == s;
    forall t | t in done ensures t in all && Lex()(t, s) {
      var i :| 0 <= i < |done| && done[i] == t;
      assert all[i] == t;
    }
    forall t | t in done ensures Stray(all, t) <==> Stray(done, t) { }
  }

  lemma {:induction false} FirstSwept(s: Interval)
    ensures Swept([s], 0, s.lo, s.hi)
  {
    var one := [s];
    assert one[0] == s && s in one && forall t :: t in one ==> t == s;
    assert Points(one) == Span(s.lo, s.hi) by { assert one[1..] == []; }
    assert NoStray(one) <==> s.lo <= s.hi;
  }

  lemma {:induction false} PointsBelow(done: seq<Interval>, bound: int)
    requires forall s :: s in done ==> s.hi <= bound
    ensures forall p :: p in Points(done) ==> p < bound
  {
    forall p | p in Points(done) ensures p < bound {
      PointsExact(done, p);
      var i :| 0 <= i < |done| && done[i].lo <= p < done[i].hi;
      assert done[i] in done;
    }
  }

  /** An interval that starts inside a covered run only adds what lies beyond the run. */
  lemma {:induction false} JoinPoints(done: seq<Interval>, start: int, end: int, s: Interval, end': int)
    requires start <= s.lo <= end && end' == if s.hi > end then s.hi else end
    requires Span(start, end) <= Points(done) && forall t :: t in done ==> t.hi <= end
    ensures Span(start, end') <= Points(done + [s])
    ensures |Points(done + [s])| == |Points(done)| + (end' - end)
  {
    PointsAppend(done, s);
    PointsBelow(done, end);
    SpanBeyond(Points(done), start, end, s, end');
  }

  lemma {:induction false} SpanBeyond(points: set<int>, start: int, end: int, s: Interval, end': int)
    requires start <= s.lo <= end && end' == if s.hi > end then s.hi else end
    requires Span(start, end) <= points && forall p :: p in points ==> p < end
    ensures var all := points + Span(s.lo, s.hi); Span(start, end') <= all && |all| == |points| + (end' - end)
  {
    var all, rest := points + Span(s.lo, s.hi), Span(end, end');
    forall p ensures p in all <==> p in points + rest {
      if start <= p < end { assert p in Span(start, end); }
    }
    assert all == points + rest && points !! rest;
  }

  /** The next interval starts inside the open run. */
  lemma {:induction false} JoinRun(done: seq<Interval>, busy: int, start: int, end: int, s: Interval)
    requires Swept(done, busy, start, end) && SortedBy(done + [s], Lex()) && s.lo <= end
    ensures Swept(done + [s], busy, start, if s.hi > end then s.hi else end)
  {
    var all := done + [s];
    assert Lex()(all[|done| - 1], all[|done|]);
    StrayStable(done, s);
    var end' := if s.hi > end then s.hi else end;
    JoinPoints(done, start, end, s, end');
    JoinEnds(done, end, s);
  }

  lemma {:induction false} JoinEnds(done: seq<Interval>, end: int, s: Interval)
    requires (forall t :: t in done ==> t.hi <= end) && exists t :: t in done && t.hi == end
    ensures var all, end' := done + [s], if s.hi > end then s.hi else end;
      (forall t :: t in all ==> t.hi <= end') && exists t :: t in all && t.hi == end'
  {
    var all := done + [s];
    var top :| top in done && top.hi == end;
    var t := if s.hi > end then s else top;
    assert t in all;
  }

  /** The next interval starts after the open run, which is closed. */
  lemma {:induction false} NewRun(done: seq<Interval>, busy: int, start: int, end: int, s: Interval)
    requires Swept(done, busy, start, end) && SortedBy(done + [s], Lex()) && s.lo > end
    ensures Swept(done + [s], busy + (end - start), s.lo, s.hi)
  {
    var all := done + [s];
    assert Lex()(all[|done| - 1], all[|done|]);
    assert s in all;
    PointsAppend(done, s);
    StrayStable(done, s);
    PointsBelow(done, s.lo);
    assert Points(done) !! Span(s.lo, s.hi);
    assert forall t :: t in all ==> t in done || t == s;
  }

  lemma {:induction false} PrefixSorted(ordered: seq<Interval>, i: nat)
    requires i < |ordered| && SortedBy(ordered, Lex())
    ensures ordered[..i + 1] == ordered[..i] + [ordered[i]]
    ensures SortedBy(ordered[..i] + [ordered[i]], Lex())
  {
  }

  lemma {:induction false} SweepStarts(ordered: seq<Interval>)
    requires ordered != []
    ensures Swept(ordered[..1], 0, ordered[0].lo, ordered[0].hi)
  {
    FirstSwept(ordered[0]);
    assert ordered[..1] == [ordered[0]];
  }

  /** At the end of either sweep the closed runs and the open one are the result. */
  lemma {:induction false} SweepEnds(spans: seq<Interval>, busy: int, start: int, end: int)
    requires Swept(Ordered(spans)[..|Ordered(spans)|], busy, start, end)
    ensures busy + (end - start) <= |Points(spans)|
    ensures busy + (end - start) == |Points(spans)| <==> NoStray(spans)
  {
    OrderedCorrect(spans);
    assert Ordered(spans)[..|Ordered(spans)|] == Ordered(spans);
  }

  /** One interval of either sweep. */
  lemma {:induction false} SweepStep(ordered: seq<Interval>, i: nat, busy: int, start: int, end: int)
    requires i < |ordered| && SortedBy(ordered, Lex()) && Swept(ordered[..i], busy, start, end)
    ensures var s := ordered[i];
      if s.lo <= end then Swept(ordered[..i + 1], busy, start, if s.hi > end then s.hi else end)
      else Swept(ordered[..i + 1], busy + (end - start), s.lo, s.hi)
  {
    PrefixSorted(ordered, i);
    if ordered[i].lo <= end {
      JoinRun(ordered[..i], busy, start, end, ordered[i]);
    } else {
      NewRun(ordered[..i], busy, start, end, ordered[i]);
    }
  }

  /**
   `_union_busy_ns`: never more than the covered nanoseconds, and exactly those unless some
   interval is stray.
   */
  method UnionBusyNs(intervals: seq<Interval>) returns (busy: int)
    ensures busy <= |Points(intervals)|
    ensures busy == |Points(intervals)| <==> NoStray(intervals)
  {
    var ordered := Ordered(intervals);
    OrderedCorrect(intervals);
    if ordered == [] {
      return 0;
    }
    busy := 0;
    var curStart, curEnd := ordered[0].lo, ordered[0].hi;
    SweepStarts(ordered);
    for i := 1 to |ordered|
      invariant Swept(ordered[..i], busy, curStart, curEnd)
    {
      var start, end := ordered[i].lo, ordered[i].hi;
      SweepStep(ordered, i, busy, curStart, curEnd);
      if start <= curEnd {
        curEnd := if end > curEnd then end else curEnd;
      } else {
        busy := busy + (curEnd - curStart);
        curStart, curEnd := start, end;
      }
    }
    SweepEnds(intervals, busy, curStart, curEnd);
    busy := busy + (curEnd - curStart);
  }

  /** `gpu_busy_ns`: the same measure from the other sweep. */
  method GpuBusyNs(spans: seq<Interval>) returns (busy: int)
    ensures busy <= |Points(spans)|
    ensures busy == |Points(spans)| <==> NoStray(spans)
  {
    if spans == [] {
      return 0;
    }
    var ordered := Ordered(spans);
    OrderedCorrect(spans);
    busy := 0;
    var start, end := ordered[0].lo, ordered[0].hi;
    SweepStarts(ordered);
    for i := 1 to |ordered|
      invariant Swept(ordered[..i], busy, start, end)
    {
      var lo, hi := ordered[i].lo, ordered[i].hi;
      SweepStep(ordered, i, busy, start, end);
      if lo > end {
        busy := busy + (end - start);
        start, end := lo, hi;
      } else {
        end := if hi > end then hi else end;
      }
    }
    SweepEnds(spans, busy, start, end);
    return busy + (end - start);
  }

  // ------------------------------------------------------------------
  // Bounds

  ghost predicate Proper(spans: seq<Interval>) {
    forall s :: s in spans ==> s.lo <= s.hi
  }

  ghost function Durations(spans: seq<Interval>): int {
    if spans == [] then 0 else spans[0].hi - spans[0].lo + Durations(spans[1..])
  }

  lemma {:induction false} BusyAtMostDurations(spans: seq<Interval>)
    requires Proper(spans)
    ensures |Points(spans)| <= Durations(spans)
  {
    if spans != [] {
      BusyAtMostDurations(spans[1..]);
      var a, b := Span(spans[0].lo, spans[0].hi), Points(spans[1..]);
      assert spans[0] in spans;
      assert a + b == a + (b - a);
      SubsetSize(b - a, b);
    }
  }

  lemma {:induction false} BusyAtMostHull(spans: seq<Interval>, lo: int, hi: int)
    requires lo <= hi && forall s :: s in spans ==> lo <= s.lo && s.hi <= hi
    ensures |Points(spans)| <= hi - lo
  {
    forall p | p in Points(spans) ensures p in Span(lo, hi) {
      PointsExact(spans, p);
      var i :| 0 <= i < |spans| && spans[i].lo <= p < spans[i].hi;
      assert spans[i] in spans;
    }
    SubsetSize(Points(spans), Span(lo, hi));
  }

  /** An inverted interval is stray on its own, and harmless where an earlier one reaches its start. */
  lemma {:induction false} InvertedIntervals()
    ensures !NoStray([Interval(5, 3)]) && |Points([Interval(5, 3)])| == 0
    ensures NoStray([Interval(0, 10), Interval(5, 3)])
  {
    var alone, covered := [Interval(5, 3)], [Interval(0, 10), Interval(5, 3)];
    assert Stray(alone, alone[0]) && alone[0] in alone;
    assert Points(alone) == {};
    forall s | s in covered ensures !Stray(covered, s) { assert covered[0] in covered; }
  }
}
