/**
 The trace reductions built on the interval sweeps: `summarize` of
 tools/bigcherry/rocprof.py and `family_summary` of tools/bigcherry/analysis/kernel_fraction.py.
 */
module TraceSummary {
  import opened BusyTime
  import opened Spans
  import opened Wrappers

  datatype Dispatch = Dispatch(agent: string, kernel: string, lo: int, hi: int)
  datatype FamilyTime = FamilyTime(calls: nat, totalNs: int, kernels: set<string>)
  datatype AgentBusy = AgentBusy(busyNs: int, spanNs: int)

  /** One agent's intervals, in trace order. */
  ghost function OfAgent(ds: seq<Dispatch>, agent: string): seq<Interval> {
    if ds == [] then []
    else
      var d := ds[|ds| - 1];
      OfAgent(ds[..|ds| - 1], agent) + if d.agent == agent then [Interval(d.lo, d.hi)] else []
  }

  /** The reference reduction of one family. */
  ghost function OfFamily(ds: seq<Dispatch>, classify: string -> string, family: string): FamilyTime {
    if ds == [] then FamilyTime(0, 0, {})
    else
      var d := ds[|ds| - 1];
      var rest := OfFamily(ds[..|ds| - 1], classify, family);
      if classify(d.kernel) != family then rest
      else FamilyTime(rest.calls + 1, rest.totalNs + (d.hi - d.lo), rest.kernels + {d.kernel})
  }

  function Min(a: int, b: int): int { if b < a then b else a }
  function Max(a: int, b: int): int { if b > a then b else a }

  /** The window around some intervals. */
  ghost function Earliest(spans: seq<Interval>): (lo: int)
    requires spans != []
    ensures forall s :: s in spans ==> lo <= s.lo
  {
    var n := |spans| - 1;
    if n == 0 then spans[0].lo else Min(Earliest(spans[..n]), spans[n].lo)
  }

  ghost function Latest(spans: seq<Interval>): (hi: int)
    requires spans != []
    ensures forall s :: s in spans ==> s.hi <= hi
  {
    var n := |spans| - 1;
    if n == 0 then spans[0].hi else Max(Latest(spans[..n]), spans[n].hi)
  }

  /** `per_agent_intervals` and `per_agent_span` of one agent. */
  datatype AgentTrace = AgentTrace(intervals: seq<Interval>, lo: int, hi: int)

  ghost predicate Collected(ds: seq<Dispatch>, traces: map<string, AgentTrace>, agent: string) {
    var spans := OfAgent(ds, agent);
    if spans == [] then agent !in traces
    else agent in traces && traces[agent] == AgentTrace(spans, Earliest(spans), Latest(spans))
  }

  function AddDispatch(traces: map<string, AgentTrace>, d: Dispatch): map<string, AgentTrace> {
    var was := if d.agent in traces then traces[d.agent] else AgentTrace([], d.lo, d.hi);
    traces[d.agent := AgentTrace(was.intervals + [Interval(d.lo, d.hi)], Min(was.lo, d.lo), Max(was.hi, d.hi))]
  }

  lemma {:induction false} CollectedStep(ds: seq<Dispatch>, d: Dispatch, traces: map<string, AgentTrace>, agent: string)
    requires Collected(ds, traces, agent)
    ensures Collected(ds + [d], AddDispatch(traces, d), agent)
  {
    assert (ds + [d])[..|ds|] == ds;
    var spans := OfAgent(ds, agent);
    if d.agent == agent {
      var all := spans + [Interval(d.lo, d.hi)];
      assert all[..|spans|] == spans;
    }
  }

  /** The per-agent half of `summarize`'s loop. */
  method CollectAgents(ds: seq<Dispatch>) returns (traces: map<string, AgentTrace>)
    ensures forall a :: Collected(ds, traces, a)
  {
    traces := map[];
    for i := 0 to |ds|
      invariant forall a :: Collected(ds[..i], traces, a)
    {
      ghost var upTo := ds[..i + 1];
      assert upTo == ds[..i] + [ds[i]];
      var next := AddDispatch(traces, ds[i]);
      forall a ensures Collected(upTo, next, a) {
        CollectedStep(ds[..i], ds[i], traces, a);
      }
      traces := next;
    }
    assert ds[..|ds|] == ds;
  }

  lemma {:induction false} OfFamilyAppend(ds: seq<Dispatch>, d: Dispatch, classify: string -> string, family: string)
    ensures OfFamily(ds + [d], classify, family) ==
      var rest := OfFamily(ds, classify, family);
      if classify(d.kernel) != family then rest
      else FamilyTime(rest.calls + 1, rest.totalNs + (d.hi - d.lo), rest.kernels + {d.kernel})
    ensures OfFamily(ds, classify, family).calls == 0 ==> OfFamily(ds, classify, family) == FamilyTime(0, 0, {})
  {
    assert (ds + [d])[..|ds|] == ds;
    NoCalls(ds, classify, family);
  }

  lemma {:induction false} NoCalls(ds: seq<Dispatch>, classify: string -> string, family: string)
    ensures OfFamily(ds, classify, family).calls == 0 ==> OfFamily(ds, classify, family) == FamilyTime(0, 0, {})
  {
    if ds != [] { NoCalls(ds[..|ds| - 1], classify, family); }
  }

  /** The per-family half of `summarize`'s loop. */
  method CollectFamilies(ds: seq<Dispatch>, classify: string -> string) returns (families: map<string, FamilyTime>)
    ensures forall f :: f in families <==> OfFamily(ds, classify, f).calls > 0
    ensures forall f :: f in families ==> families[f] == OfFamily(ds, classify, f)
  {
    families := map[];
    for i := 0 to |ds|
      invariant forall f :: f in families <==> OfFamily(ds[..i], classify, f).calls > 0
      invariant forall f :: f in families ==> families[f] == OfFamily(ds[..i], classify, f)
    {
      var d := ds[i];
      assert ds[..i + 1] == ds[..i] + [d];
      forall f { OfFamilyAppend(ds[..i], d, classify, f); }
      var family := classify(d.kernel);
      var was := if family in families then families[family] else FamilyTime(0, 0, {});
      families := families[family :=
        FamilyTime(was.calls + 1, was.totalNs + (d.hi - d.lo), was.kernels + {d.kernel})];
    }
    assert ds[..|ds|] == ds;
  }

  /** What one agent's summary says about its intervals. */
  ghost predicate Measures(busy: AgentBusy, spans: seq<Interval>)
    requires spans != []
  {
    && busy.spanNs == Latest(spans) - Earliest(spans)
    && busy.busyNs <= |Points(spans)|
    && (busy.busyNs == |Points(spans)| <==> NoStray(spans))
    && (Proper(spans) ==> 0 <= busy.busyNs <= busy.spanNs)
  }

  /** One agent of `summarize`'s second loop. */
  method MeasureAgent(t: AgentTrace) returns (busy: AgentBusy)
    requires t.intervals != [] && t.lo == Earliest(t.intervals) && t.hi == Latest(t.intervals)
    ensures Measures(busy, t.intervals)
  {
    var busyNs := UnionBusyNs(t.intervals);
    if Proper(t.intervals) {
      assert t.intervals[0] in t.intervals;
      BusyAtMostHull(t.intervals, t.lo, t.hi);
    }
    busy := AgentBusy(busyNs, t.hi - t.lo);
  }

  /**
   `summarize`: each family's calls, time and names, and each agent's busy time and window,
   are those of exactly its own dispatches; properly ordered intervals never make an agent
   busier than its window.
   */
  method Summarize(ds: seq<Dispatch>, classify: string -> string)
    returns (families: map<string, FamilyTime>, agents: map<string, AgentBusy>)
    ensures forall f :: f in families <==> OfFamily(ds, classify, f).calls > 0
    ensures forall f :: f in families ==> families[f] == OfFamily(ds, classify, f)
    ensures forall a :: a in agents <==> OfAgent(ds, a) != []
    ensures forall a :: a in agents ==> Measures(agents[a], OfAgent(ds, a))
  {
    families := CollectFamilies(ds, classify);
    var traces := CollectAgents(ds);
    agents := map[];
    var left := traces.Keys;
    while left != {}
      invariant left <= traces.Keys && agents.Keys == traces.Keys - left
      invariant forall a :: a in agents ==> OfAgent(ds, a) != [] && Measures(agents[a], OfAgent(ds, a))
      decreases |left|
    {
      var a :| a in left;
      assert Collected(ds, traces, a);
      var busy := MeasureAgent(traces[a]);
      agents := agents[a := busy];
      left := left - {a};
    }
    forall a ensures a in agents <==> OfAgent(ds, a) != [] {
      assert Collected(ds, traces, a);
    }
  }

  // ------------------------------------------------------------------
  // family_summary

  /** One parsed kernel row; `startNs` is absent in a duration-only trace. */
  datatype Row = Row(family: string, durNs: nat, startNs: Option<int>)

  datatype FamilySummary = FamilySummary(kernelTotalNs: int, matmulNs: int, busyNs: int, wallNs: int,
                                         gpuBusyPct: real, matmulWallPct: Option<real>)

  /** A trace has timestamps on every row or on none. */
  ghost predicate Stamped(rows: seq<Row>) { forall r :: r in rows ==> r.startNs.Some? }
  ghost predicate Unstamped(rows: seq<Row>) { forall r :: r in rows ==> r.startNs.None? }

  const MATMUL_FAMILIES: set<string> := {"mmq", "mmvq", "mmvf", "mmf", "blas"}

  /** Whether a row counts when only `families` are asked for (all of them when absent). */
  predicate Asked(r: Row, families: Option<set<string>>) {
    families.None? || r.family in families.value
  }

  /** The intervals of the rows asked for. */
  function RowSpans(rows: seq<Row>, families: Option<set<string>>): seq<Interval> {
    if rows == [] then []
    else
      var n := |rows| - 1;
      RowSpans(rows[..n], families) +
      if rows[n].startNs.Some? && Asked(rows[n], families)
      then [Interval(rows[n].startNs.value, rows[n].startNs.value + rows[n].durNs)] else []
  }

  /** The summed durations of the rows asked for. */
  function RowTime(rows: seq<Row>, families: Option<set<string>>): nat {
    if rows == [] then 0
    else
      var n := |rows| - 1;
      RowTime(rows[..n], families) + if Asked(rows[n], families) then rows[n].durNs else 0
  }

  lemma {:induction false} DurationsAppend(a: seq<Interval>, b: seq<Interval>)
    ensures Durations(a + b) == Durations(a) + Durations(b)
  {
    if a == [] {
      assert a + b == b;
    } else {
      DurationsAppend(a[1..], b);
      assert a + b == [a[0]] + (a[1..] + b);
    }
  }

  lemma {:induction false} RowSpansProper(rows: seq<Row>, families: Option<set<string>>)
    ensures Proper(RowSpans(rows, families))
    ensures forall s :: s in RowSpans(rows, families) ==> s in RowSpans(rows, None)
    ensures Unstamped(rows) ==> RowSpans(rows, families) == []
  {
    if rows != [] {
      assert rows[|rows| - 1] in rows;
      RowSpansProper(rows[..|rows| - 1], families);
    }
  }

  lemma {:induction false} RowSpansTime(rows: seq<Row>, families: Option<set<string>>)
    requires Stamped(rows)
    ensures Durations(RowSpans(rows, families)) == RowTime(rows, families)
    ensures rows != [] && families.None? ==> RowSpans(rows, families) != []
  {
    if rows != [] {
      var n := |rows| - 1;
      assert rows[n] in rows;
      RowSpansTime(rows[..n], families);
      DurationsAppend(RowSpans(rows[..n], families),
                      if Asked(rows[n], families)
                      then [Interval(rows[n].startNs.value, rows[n].startNs.value + rows[n].durNs)] else []);
    }
  }

  /** The time of two disjoint groups of families adds up. */
  lemma {:induction false} RowTimeSplit(rows: seq<Row>, a: set<string>, b: set<string>)
    requires a !! b
    ensures RowTime(rows, Some(a + b)) == RowTime(rows, Some(a)) + RowTime(rows, Some(b))
  {
    if rows != [] { RowTimeSplit(rows[..|rows| - 1], a, b); }
  }

  function Get(m: map<string, int>, k: string): int { if k in m then m[k] else 0 }

  /** `sum(by_family.values())`, in insertion order. */
  function SumValues(m: map<string, int>, keys: seq<string>): int {
    if keys == [] then 0 else Get(m, keys[0]) + SumValues(m, keys[1..])
  }

  lemma {:induction false} SumValuesUpdate(m: map<string, int>, keys: seq<string>, k: string, v: int)
    requires forall i, j :: 0 <= i < j < |keys| ==> keys[i] != keys[j]
    ensures SumValues(m[k := v], keys) == SumValues(m, keys) + if k in keys then v - Get(m, k) else 0
  {
    if keys != [] {
      SumValuesUpdate(m, keys[1..], k, v);
      assert k in keys <==> k == keys[0] || k in keys[1..];
    }
  }

  lemma {:induction false} SumValuesAppend(m: map<string, int>, keys: seq<string>, k: string)
    ensures SumValues(m, keys + [k]) == SumValues(m, keys) + Get(m, k)
  {
    if keys == [] {
      assert keys + [k] == [k];
    } else {
      SumValuesAppend(m, keys[1..], k);
      assert keys + [k] == [keys[0]] + (keys[1..] + [k]);
    }
  }

  /** `by_family`, and the total and matmul time read back from it. */
  method FamilyTotals(rows: seq<Row>) returns (kernelTotal: int, matmulNs: int)
    ensures kernelTotal == RowTime(rows, None)
    ensures matmulNs == RowTime(rows, Some(MATMUL_FAMILIES))
  {
    var byFamily: map<string, int> := map[];
    var keys: seq<string> := [];
    for i := 0 to |rows|
      invariant forall a, b :: 0 <= a < b < |keys| ==> keys[a] != keys[b]
      invariant forall k :: k in keys <==> k in byFamily
      invariant SumValues(byFamily, keys) == RowTime(rows[..i], None)
      invariant forall f :: Get(byFamily, f) == RowTime(rows[..i], Some({f}))
    {
      assert rows[..i + 1][..i] == rows[..i];
      var f, dur := rows[i].family, rows[i].durNs;
      SumValuesUpdate(byFamily, keys, f, Get(byFamily, f) + dur);
      var next := byFamily[f := Get(byFamily, f) + dur];
      if f !in byFamily {
        SumValuesAppend(next, keys, f);
        keys := keys + [f];
      }
      byFamily := next;
    }
    assert rows[..|rows|] == rows;
    kernelTotal := SumValues(byFamily, keys);
    matmulNs := Get(byFamily, "mmq") + Get(byFamily, "mmvq") + Get(byFamily, "mmvf") + Get(byFamily, "mmf")
                + Get(byFamily, "blas");
    MatmulSplit(rows);
  }

  lemma {:induction false} MatmulSplit(rows: seq<Row>)
    ensures RowTime(rows, Some(MATMUL_FAMILIES)) ==
      RowTime(rows, Some({"mmq"})) + RowTime(rows, Some({"mmvq"})) + RowTime(rows, Some({"mmvf"}))
      + RowTime(rows, Some({"mmf"})) + RowTime(rows, Some({"blas"}))
  {
    RowTimeSplit(rows, {"mmq"}, {"mmvq"});
    RowTimeSplit(rows, {"mmq"} + {"mmvq"}, {"mmvf"});
    RowTimeSplit(rows, {"mmq"} + {"mmvq"} + {"mmvf"}, {"mmf"});
    RowTimeSplit(rows, {"mmq"} + {"mmvq"} + {"mmvf"} + {"mmf"}, {"blas"});
    assert {"mmq"} + {"mmvq"} + {"mmvf"} + {"mmf"} + {"blas"} == MATMUL_FAMILIES;
  }

  function Pct(part: int, whole: int): real {
    if whole == 0 then 0.0 else 100.0 * part as real / whole as real
  }

  lemma {:induction false} PctMonotone(a: int, b: int, whole: nat)
    requires 0 <= a <= b <= whole
    ensures 0.0 <= Pct(a, whole) <= Pct(b, whole) <= 100.0
  {
    if whole != 0 {
      var x, y, w := 100.0 * a as real, 100.0 * b as real, whole as real;
      assert 0.0 <= x / w <= y / w <= 100.0 * w / w;
    }
  }

  /** The union times `family_summary` takes its shares of. */
  method UnionTimes(rows: seq<Row>, kernelTotal: int, matmulNs: int)
    returns (wallNs: int, busyNs: int, matmulWallNs: Option<int>)
    requires rows != [] && (Stamped(rows) || Unstamped(rows))
    requires kernelTotal == RowTime(rows, None) && matmulNs == RowTime(rows, Some(MATMUL_FAMILIES))
    ensures 0 <= busyNs <= kernelTotal && busyNs <= wallNs
    ensures Stamped(rows) ==> RowSpans(rows, None) != []
    ensures Stamped(rows) ==> wallNs == Latest(RowSpans(rows, None)) - Earliest(RowSpans(rows, None))
    ensures Unstamped(rows) ==> wallNs == busyNs == kernelTotal
    ensures matmulWallNs.Some? <==> Stamped(rows)
    ensures Stamped(rows) ==>
      && busyNs == |Points(RowSpans(rows, None))|
      && matmulWallNs == Some(|Points(RowSpans(rows, Some(MATMUL_FAMILIES)))|)
      && matmulWallNs.value <= busyNs
  {
    TraceBounds(rows);
    var spans := RowSpans(rows, None);
    var matmulSpans := RowSpans(rows, Some(MATMUL_FAMILIES));
    wallNs := WallNs(rows, spans);
    busyNs, matmulWallNs := kernelTotal, None;
    if spans != [] {
      busyNs := GpuBusyNs(spans);
    }
    if spans != [] && matmulSpans != [] {
      var union := GpuBusyNs(matmulSpans);
      matmulWallNs := Some(union);
    } else if spans != [] && matmulNs == 0 {
      matmulWallNs := Some(0);
    }
  }

  /**
   `family_summary` over the rows of a parsed trace. With timestamps the matmul share of the
   wall is available and `0 <= matmul share <= busy share <= 100`; without them it is not.
   */
  method SummarizeFamilies(rows: seq<Row>) returns (s: FamilySummary)
    requires rows != [] && (Stamped(rows) || Unstamped(rows))
    ensures s.kernelTotalNs == RowTime(rows, None) && s.matmulNs == RowTime(rows, Some(MATMUL_FAMILIES))
    ensures 0 <= s.busyNs <= s.kernelTotalNs && s.busyNs <= s.wallNs
    ensures Stamped(rows) ==> RowSpans(rows, None) != []
    ensures Stamped(rows) ==> s.wallNs == Latest(RowSpans(rows, None)) - Earliest(RowSpans(rows, None))
    ensures Unstamped(rows) ==> s.wallNs == s.busyNs == s.kernelTotalNs
    ensures s.gpuBusyPct == Pct(s.busyNs, s.wallNs) && 0.0 <= s.gpuBusyPct <= 100.0
    ensures s.matmulWallPct.Some? <==> Stamped(rows)
    ensures Stamped(rows) ==>
      && s.busyNs == |Points(RowSpans(rows, None))|
      && s.matmulWallPct.value == Pct(|Points(RowSpans(rows, Some(MATMUL_FAMILIES)))|, s.wallNs)
      && 0.0 <= s.matmulWallPct.value <= s.gpuBusyPct
  {
    var kernelTotal, matmulNs := FamilyTotals(rows);
    var wallNs, busyNs, matmulWallNs := UnionTimes(rows, kernelTotal, matmulNs);
    PctMonotone(if matmulWallNs.Some? then matmulWallNs.value else 0, busyNs, wallNs);
    s := FamilySummary(kernelTotal, matmulNs, busyNs, wallNs, Pct(busyNs, wallNs),
                       if matmulWallNs.Some? then Some(Pct(matmulWallNs.value, wallNs)) else None);
  }

  /** The traced window, as `parse_kernel_trace` reports it. */
  method WallNs(rows: seq<Row>, spans: seq<Interval>) returns (wallNs: int)
    ensures spans != [] ==> wallNs == Latest(spans) - Earliest(spans)
    ensures spans == [] ==> wallNs == RowTime(rows, None)
  {
    if spans == [] {
      return RowTime(rows, None);
    }
    var lo, hi := spans[0].lo, spans[0].hi;
    assert spans[..1] == [spans[0]];
    for i := 1 to |spans|
      invariant lo == Earliest(spans[..i]) && hi == Latest(spans[..i])
    {
      assert spans[..i + 1][..i] == spans[..i];
      lo, hi := Min(lo, spans[i].lo), Max(hi, spans[i].hi);
    }
    assert spans[..|spans|] == spans;
    wallNs := hi - lo;
  }

  lemma {:induction false} TraceBounds(rows: seq<Row>)
    requires rows != [] && (Stamped(rows) || Unstamped(rows))
    ensures NoStray(RowSpans(rows, None)) && NoStray(RowSpans(rows, Some(MATMUL_FAMILIES)))
    ensures RowSpans(rows, None) != [] <==> Stamped(rows)
    ensures Stamped(rows) ==>
      var spans, matmul := RowSpans(rows, None), RowSpans(rows, Some(MATMUL_FAMILIES));
      && |Points(matmul)| <= |Points(spans)| <= Latest(spans) - Earliest(spans)
      && |Points(spans)| <= RowTime(rows, None)
      && (matmul == [] ==> RowTime(rows, Some(MATMUL_FAMILIES)) == 0)
  {
    var spans, matmul := RowSpans(rows, None), RowSpans(rows, Some(MATMUL_FAMILIES));
    RowSpansProper(rows, None);
    RowSpansProper(rows, Some(MATMUL_FAMILIES));
    assert rows[0] in rows;
    if Stamped(rows) {
      RowSpansTime(rows, None);
      RowSpansTime(rows, Some(MATMUL_FAMILIES));
      PointsMonotone(matmul, spans);
      SubsetSize(Points(matmul), Points(spans));
      BusyAtMostDurations(spans);
      assert spans[0] in spans;
      BusyAtMostHull(spans, Earliest(spans), Latest(spans));
    }
  }

  /** `s` is the interval of a row of one of the families asked for. */
  ghost predicate IsSpanOf(row: Row, families: Option<set<string>>, s: Interval) {
    && row.startNs.Some? && (families.None? || row.family in families.value)
    && s == Interval(row.startNs.value, row.startNs.value + row.durNs)
  }

  /** The intervals of the asked rows are theirs, from start to start plus duration, and no others. */
  lemma {:induction false} RowSpansExact(rows: seq<Row>, families: Option<set<string>>, s: Interval)
    ensures s in RowSpans(rows, families) <==> exists k :: 0 <= k < |rows| && IsSpanOf(rows[k], families, s)
  {
    if rows != [] {
      var n := |rows| - 1;
      var front := rows[..n];
      RowSpansExact(front, families, s);
      assert forall k :: 0 <= k < n ==> front[k] == rows[k];
      if s in RowSpans(front, families) {
        var k :| 0 <= k < n && IsSpanOf(front[k], families, s);
        assert IsSpanOf(rows[k], families, s);
      } else if IsSpanOf(rows[n], families, s) {
        assert s in RowSpans(rows, families);
      }
    }
  }

  /** A percentage of a part, times the whole, is a hundred times the part. */
  lemma {:induction false} PctIs(part: int, whole: int)
    ensures whole != 0 ==> Pct(part, whole) * whole as real == 100.0 * part as real
    ensures whole == 0 ==> Pct(part, whole) == 0.0
  {
  }
}
