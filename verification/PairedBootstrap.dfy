/**
 The paired bootstrap of tools/bigcherry/analysis/impact.py. Every draw resamples round
 indices jointly for native and winner; the resampling itself is an arbitrary choice.
 */
module PairedBootstrap {
  import opened Sorting
  import opened Wrappers
  import opened OrderStatistics

  // ------------------------------------------------------------------
  // Medians

  function AtMost(): (real, real) -> bool { (a: real, b: real) => a <= b }

  function Ordered(s: seq<real>): seq<real> { SortBy(s, AtMost()) }

  lemma {:induction false} OrderedCorrect(s: seq<real>)
    ensures |Ordered(s)| == |s| && multiset(Ordered(s)) == multiset(s) && SortedBy(Ordered(s), AtMost())
    ensures forall x :: x in s <==> x in Ordered(s)
  {
    SortByCorrect(s, AtMost());
    SameElements(s, Ordered(s));
  }

  function MiddleOf(o: seq<real>): real {
    if o == [] then 0.0
    else if |o| % 2 == 1 then o[|o| / 2] else (o[|o| / 2 - 1] + o[|o| / 2]) / 2.0
  }

  /** `statistics.median` of a non-empty sample. */
  function Median(s: seq<real>): real { MiddleOf(Ordered(s)) }

  /** The mean of the two middle values, which are one and the same for an odd number of values. */
  ghost predicate IsMedian(v: seq<real>, m: real) {
    exists lo, hi :: Middles(v, lo, hi) && m == (lo + hi) / 2.0
  }

  ghost predicate Middles(v: seq<real>, lo: real, hi: real) {
    v != [] && OrderStatistic(v, (|v| - 1) / 2, lo) && OrderStatistic(v, |v| / 2, hi)
  }

  lemma {:induction false} MedianIsMedian(v: seq<real>)
    requires v != []
    ensures IsMedian(v, Median(v))
  {
    var s, n := Ordered(v), |v|;
    OrderedCorrect(v);
    forall i, j | 0 <= i < j < |s| ensures s[i] <= s[j] { assert AtMost()(s[i], s[j]); }
    SortedStatistic(v, s, (n - 1) / 2);
    SortedStatistic(v, s, n / 2);
    assert Middles(v, s[(n - 1) / 2], s[n / 2]);
    assert Median(v) == (s[(n - 1) / 2] + s[n / 2]) / 2.0;
  }

  ghost predicate Below(a: seq<real>, b: seq<real>) {
    |a| == |b| && forall i :: 0 <= i < |a| ==> a[i] <= b[i]
  }

  /** Insertion keeps one sorted sequence below another. */
  lemma {:induction false} InsertBelow(x: real, y: real, a: seq<real>, b: seq<real>)
    requires x <= y && Below(a, b) && SortedBy(a, AtMost()) && SortedBy(b, AtMost())
    ensures Below(Insert(x, a, AtMost()), Insert(y, b, AtMost()))
    decreases |a|
  {
    if a != [] {
      var x', y' := if x <= a[0] then a[0] else x, if y <= b[0] then b[0] else y;
      var a', b' := a[1..], b[1..];
      InsertBelow(x', y', a', b');
      assert x <= a[0] ==> Insert(a[0], a', AtMost()) == a by { InsertFront(a); }
      assert y <= b[0] ==> Insert(b[0], b', AtMost()) == b by { InsertFront(b); }
    }
  }

  lemma {:induction false} InsertFront(s: seq<real>)
    requires s != [] && SortedBy(s, AtMost())
    ensures Insert(s[0], s[1..], AtMost()) == s
  {
    assert s == [s[0]] + s[1..];
    if |s| > 1 { assert AtMost()(s[0], s[1]); }
  }

  /** Order statistics dominate: pointwise smaller samples have smaller order statistics. */
  lemma {:induction false} OrderedBelow(a: seq<real>, b: seq<real>)
    requires Below(a, b)
    ensures Below(Ordered(a), Ordered(b))
  {
    if a != [] {
      OrderedBelow(a[1..], b[1..]);
      OrderedCorrect(a[1..]);
      OrderedCorrect(b[1..]);
      InsertBelow(a[0], b[0], Ordered(a[1..]), Ordered(b[1..]));
    }
  }

  lemma {:induction false} MedianMonotone(a: seq<real>, b: seq<real>)
    requires a != [] && Below(a, b)
    ensures Median(a) <= Median(b)
  {
    OrderedBelow(a, b);
    OrderedCorrect(a);
  }

  function Mapped(f: real -> real, s: seq<real>): (r: seq<real>)
    ensures |r| == |s| && forall i :: 0 <= i < |s| ==> r[i] == f(s[i])
  {
    if s == [] then [] else [f(s[0])] + Mapped(f, s[1..])
  }

  ghost predicate Increasing(f: real -> real) {
    forall x, y :: x <= y <==> f(x) <= f(y)
  }

  /** Sorting commutes with any strictly increasing map. */
  lemma {:induction false} InsertMapped(f: real -> real, x: real, s: seq<real>)
    requires Increasing(f)
    ensures Insert(f(x), Mapped(f, s), AtMost()) == Mapped(f, Insert(x, s, AtMost()))
  {
    if s != [] {
      InsertMapped(f, x, s[1..]);
      assert Mapped(f, s)[1..] == Mapped(f, s[1..]);
    }
  }

  lemma {:induction false} OrderedMapped(f: real -> real, s: seq<real>)
    requires Increasing(f)
    ensures Ordered(Mapped(f, s)) == Mapped(f, Ordered(s))
  {
    if s != [] {
      OrderedMapped(f, s[1..]);
      assert Mapped(f, s)[1..] == Mapped(f, s[1..]);
      InsertMapped(f, s[0], Ordered(s[1..]));
    }
  }

  /** The middle of a sorted sample moves with the map. */
  ghost predicate KeepsMiddle(f: real -> real) {
    forall o: seq<real> :: o != [] ==> MiddleOf(Mapped(f, o)) == f(MiddleOf(o))
  }

  lemma {:induction false} MedianMapped(f: real -> real, s: seq<real>)
    requires Increasing(f) && KeepsMiddle(f) && s != []
    ensures Median(Mapped(f, s)) == f(Median(s))
  {
    OrderedMapped(f, s);
    OrderedCorrect(s);
  }

  function Times(c: real): real -> real { (x: real) => c * x }

  lemma {:induction false} TimesLinear(c: real)
    requires c > 0.0
    ensures Increasing(Times(c)) && KeepsMiddle(Times(c))
  {
    forall x: real, y: real ensures x <= y <==> Times(c)(x) <= Times(c)(y) {
      assert c * y - c * x == c * (y - x);
    }
    forall o: seq<real> | o != [] ensures MiddleOf(Mapped(Times(c), o)) == Times(c)(MiddleOf(o)) {
      if |o| % 2 == 0 {
        var x, y := o[|o| / 2 - 1], o[|o| / 2];
        assert (c * x + c * y) / 2.0 == c * ((x + y) / 2.0);
      }
    }
  }

  lemma {:induction false} MedianPositive(s: seq<real>)
    requires s != [] && forall x :: x in s ==> x > 0.0
    ensures Median(s) > 0.0
  {
    OrderedCorrect(s);
    var o := Ordered(s);
    assert o[|o| / 2] in o;
    if |o| % 2 == 0 { assert o[|o| / 2 - 1] in o; }
  }

  // ------------------------------------------------------------------
  // One resample

  /** One measured round, and a signature's call count with its paired rounds. */
  datatype Round = Round(native: real, winner: real)
  datatype Signature = Signature(calls: int, rounds: seq<Round>)

  const MIN_PAIRED_ROUNDS := 8

  ghost predicate Usable(s: Signature) {
    && |s.rounds| >= MIN_PAIRED_ROUNDS
    && forall r :: r in s.rounds ==> r.native > 0.0 && r.winner > 0.0
  }

  /** `rng.choices(rounds, k=len(rounds))`: whole rounds, with repetition. */
  ghost predicate IsResample(sample: seq<Round>, s: Signature) {
    |sample| == |s.rounds| && forall r :: r in sample ==> r in s.rounds
  }

  function Natives(sample: seq<Round>): (r: seq<real>)
    ensures |r| == |sample| && forall i :: 0 <= i < |r| ==> r[i] == sample[i].native
  {
    if sample == [] then [] else [sample[0].native] + Natives(sample[1..])
  }

  function Winners(sample: seq<Round>): (r: seq<real>)
    ensures |r| == |sample| && forall i :: 0 <= i < |r| ==> r[i] == sample[i].winner
  {
    if sample == [] then [] else [sample[0].winner] + Winners(sample[1..])
  }

  /** In every round the winner took at most (at least) `c` times native's time. */
  ghost predicate AtMostRatio(rounds: seq<Round>, c: real) {
    forall r :: r in rounds ==> r.winner <= Times(c)(r.native)
  }

  ghost predicate AtLeastRatio(rounds: seq<Round>, c: real) {
    forall r :: r in rounds ==> Times(c)(r.native) <= r.winner
  }

  /** A map that bounds the winner's time round by round bounds its median. */
  lemma {:induction false} SampleBounded(sample: seq<Round>, f: real -> real)
    requires sample != [] && Increasing(f) && KeepsMiddle(f)
    ensures (forall r :: r in sample ==> r.winner <= f(r.native)) ==>
      Median(Winners(sample)) <= f(Median(Natives(sample)))
    ensures (forall r :: r in sample ==> f(r.native) <= r.winner) ==>
      f(Median(Natives(sample))) <= Median(Winners(sample))
  {
    var n, w := Natives(sample), Winners(sample);
    MedianMapped(f, n);
    assert forall i :: 0 <= i < |sample| ==> sample[i] in sample;
    if forall r :: r in sample ==> r.winner <= f(r.native) { MedianMonotone(w, Mapped(f, n)); }
    if forall r :: r in sample ==> f(r.native) <= r.winner { MedianMonotone(Mapped(f, n), w); }
  }

  /** A ratio that bounds every round bounds the medians of every resample. */
  lemma {:induction false} ResampleBounded(s: Signature, sample: seq<Round>, c: real)
    requires Usable(s) && IsResample(sample, s) && c > 0.0
    ensures AtMostRatio(s.rounds, c) ==> Median(Winners(sample)) <= Times(c)(Median(Natives(sample)))
    ensures AtLeastRatio(s.rounds, c) ==> Times(c)(Median(Natives(sample))) <= Median(Winners(sample))
  {
    TimesLinear(c);
    SampleBounded(sample, Times(c));
  }

  lemma {:induction false} ResamplePositive(s: Signature, sample: seq<Round>)
    requires Usable(s) && IsResample(sample, s)
    ensures Median(Natives(sample)) > 0.0
  {
    var n := Natives(sample);
    forall x | x in n ensures x > 0.0 {
      var i :| 0 <= i < |n| && n[i] == x;
      assert sample[i] in sample;
    }
    MedianPositive(n);
  }

  // ------------------------------------------------------------------
  // One draw

  /** A signature that counts, with this draw's resample of its rounds. */
  datatype Sampled = Sampled(signature: Signature, sample: seq<Round>)

  ghost predicate Drawn(d: Sampled) {
    Usable(d.signature) && d.signature.calls > 0 && IsResample(d.sample, d.signature)
  }

  /** A median round time, once per call. */
  function Term(calls: int, median: real): real { calls as real * median }

  function NativeTerm(d: Sampled): real { Term(d.signature.calls, Median(Natives(d.sample))) }
  function TunedTerm(d: Sampled): real { Term(d.signature.calls, Median(Winners(d.sample))) }

  lemma {:induction false} TermsBounded(d: Sampled, c: real)
    requires Drawn(d) && c > 0.0
    ensures NativeTerm(d) > 0.0
    ensures AtMostRatio(d.signature.rounds, c) ==> TunedTerm(d) <= Times(c)(NativeTerm(d))
    ensures AtLeastRatio(d.signature.rounds, c) ==> Times(c)(NativeTerm(d)) <= TunedTerm(d)
  {
    ResamplePositive(d.signature, d.sample);
    ResampleBounded(d.signature, d.sample, c);
    TermsScaled(d, c);
  }

  lemma {:induction false} TermsScaled(d: Sampled, c: real)
    requires d.signature.calls > 0 && Median(Natives(d.sample)) > 0.0
    ensures NativeTerm(d) > 0.0
    ensures Median(Winners(d.sample)) <= Times(c)(Median(Natives(d.sample))) ==> TunedTerm(d) <= Times(c)(NativeTerm(d))
    ensures Times(c)(Median(Natives(d.sample))) <= Median(Winners(d.sample)) ==> Times(c)(NativeTerm(d)) <= TunedTerm(d)
  {
    ScaleTerms(d.signature.calls, Median(Natives(d.sample)), Median(Winners(d.sample)), c);
  }

  lemma {:induction false} ScaleTerms(calls: int, n: real, w: real, c: real)
    requires calls > 0 && n > 0.0
    ensures Term(calls, n) > 0.0
    ensures w <= Times(c)(n) ==> Term(calls, w) <= c * Term(calls, n)
    ensures Times(c)(n) <= w ==> c * Term(calls, n) <= Term(calls, w)
  {
    ScaleBoth(calls as real, n, w, c);
  }

  lemma {:induction false} ScaleBoth(calls: real, n: real, w: real, c: real)
    requires calls > 0.0 && n > 0.0
    ensures calls * n > 0.0
    ensures w <= c * n ==> calls * w <= c * (calls * n)
    ensures c * n <= w ==> c * (calls * n) <= calls * w
  {
    assert c * (calls * n) == calls * (c * n);
    assert calls * (c * n - w) == calls * (c * n) - calls * w;
  }

  /** `native_total` and `tuned_total` of one draw. */
  ghost function NativeTotal(draw: seq<Sampled>): real {
    if draw == [] then 0.0 else NativeTotal(draw[..|draw| - 1]) + NativeTerm(draw[|draw| - 1])
  }

  ghost function TunedTotal(draw: seq<Sampled>): real {
    if draw == [] then 0.0 else TunedTotal(draw[..|draw| - 1]) + TunedTerm(draw[|draw| - 1])
  }

  ghost predicate AllAtMost(pairs: seq<Signature>, c: real) {
    forall s :: s in pairs ==> AtMostRatio(s.rounds, c)
  }

  ghost predicate AllAtLeast(pairs: seq<Signature>, c: real) {
    forall s :: s in pairs ==> AtLeastRatio(s.rounds, c)
  }

  /** This draw resamples these signatures. */
  ghost predicate DrawnFrom(draw: seq<Sampled>, pairs: seq<Signature>) {
    forall d :: d in draw ==> Drawn(d) && d.signature in pairs
  }

  lemma {:induction false} TotalPositive(draw: seq<Sampled>, pairs: seq<Signature>)
    requires DrawnFrom(draw, pairs)
    ensures NativeTotal(draw) >= 0.0 && (draw != [] ==> NativeTotal(draw) > 0.0)
  {
    if draw != [] {
      var rest, d := draw[..|draw| - 1], draw[|draw| - 1];
      assert d in draw;
      TotalPositive(rest, pairs);
      TermsBounded(d, 1.0);
    }
  }

  lemma {:induction false} TotalsAtMost(draw: seq<Sampled>, pairs: seq<Signature>, c: real)
    requires c > 0.0 && DrawnFrom(draw, pairs) && AllAtMost(pairs, c)
    ensures TunedTotal(draw) <= Times(c)(NativeTotal(draw))
  {
    if draw != [] {
      var rest, d := draw[..|draw| - 1], draw[|draw| - 1];
      assert d in draw;
      TotalsAtMost(rest, pairs, c);
      TermsBounded(d, c);
      AddTerms(NativeTotal(rest), NativeTerm(d), c);
    }
  }

  lemma {:induction false} TotalsAtLeast(draw: seq<Sampled>, pairs: seq<Signature>, c: real)
    requires c > 0.0 && DrawnFrom(draw, pairs) && AllAtLeast(pairs, c)
    ensures Times(c)(NativeTotal(draw)) <= TunedTotal(draw)
  {
    if draw != [] {
      var rest, d := draw[..|draw| - 1], draw[|draw| - 1];
      assert d in draw;
      TotalsAtLeast(rest, pairs, c);
      TermsBounded(d, c);
      AddTerms(NativeTotal(rest), NativeTerm(d), c);
    }
  }

  lemma {:induction false} AddTerms(a: real, b: real, c: real)
    ensures Times(c)(a + b) == Times(c)(a) + Times(c)(b)
  {
    assert c * (a + b) == c * a + c * b;
  }

  /** One iteration of `saving_interval`'s outer loop. */
  method Draw(draw: seq<Sampled>) returns (nativeTotal: real, tunedTotal: real)
    ensures nativeTotal == NativeTotal(draw) && tunedTotal == TunedTotal(draw)
  {
    nativeTotal, tunedTotal := 0.0, 0.0;
    for k := 0 to |draw|
      invariant nativeTotal == NativeTotal(draw[..k]) && tunedTotal == TunedTotal(draw[..k])
    {
      assert draw[..k + 1][..k] == draw[..k];
      nativeTotal := nativeTotal + NativeTerm(draw[k]);
      tunedTotal := tunedTotal + TunedTerm(draw[k]);
    }
    assert draw[..|draw|] == draw;
  }

  /** `100.0 * (native_total - tuned_total) / native_total`. */
  function SavingPct(native: real, tuned: real): real
    requires native > 0.0
  {
    100.0 * (native - tuned) / native
  }

  lemma {:induction false} SavingBounded(native: real, tuned: real, c: real, most: bool, least: bool)
    requires native > 0.0
    requires (most ==> tuned <= c * native) && (least ==> c * native <= tuned)
    ensures most ==> 100.0 * (1.0 - c) <= SavingPct(native, tuned)
    ensures least ==> SavingPct(native, tuned) <= 100.0 * (1.0 - c)
  {
    var p, q := SavingPct(native, tuned), 100.0 * (1.0 - c);
    assert p * native == 100.0 * (native - tuned);
    assert q * native == 100.0 * (native - c * native);
    if most { Cancel(q, p, native); }
    if least { Cancel(p, q, native); }
  }

  lemma {:induction false} Cancel(a: real, b: real, c: real)
    requires c > 0.0 && a * c <= b * c
    ensures a <= b
  {
    assert a > b ==> (a - b) * c > 0.0;
  }

  /** Pairing survives every resampling: a draw saves at least what the worst round saved ... */
  lemma {:induction false} DrawAtMost(draw: seq<Sampled>, pairs: seq<Signature>, c: real)
    requires draw != [] && c > 0.0 && DrawnFrom(draw, pairs) && AllAtMost(pairs, c)
    ensures NativeTotal(draw) > 0.0
    ensures 100.0 * (1.0 - c) <= SavingPct(NativeTotal(draw), TunedTotal(draw))
  {
    TotalPositive(draw, pairs);
    TotalsAtMost(draw, pairs, c);
    SavingBounded(NativeTotal(draw), TunedTotal(draw), c, true, false);
  }

  /** ... and at most what the best round saved. */
  lemma {:induction false} DrawAtLeast(draw: seq<Sampled>, pairs: seq<Signature>, c: real)
    requires draw != [] && c > 0.0 && DrawnFrom(draw, pairs) && AllAtLeast(pairs, c)
    ensures NativeTotal(draw) > 0.0
    ensures SavingPct(NativeTotal(draw), TunedTotal(draw)) <= 100.0 * (1.0 - c)
  {
    TotalPositive(draw, pairs);
    TotalsAtLeast(draw, pairs, c);
    SavingBounded(NativeTotal(draw), TunedTotal(draw), c, false, true);
  }

  // ------------------------------------------------------------------
  // saving_interval

  datatype ImpactError = TooFewDraws

  /** The values lie where the rounds put them, whatever was drawn. */
  ghost predicate Contained(values: seq<real>, pairs: seq<Signature>) {
    forall c: real :: c > 0.0 ==>
      && (AllAtMost(pairs, c) ==> forall v :: v in values ==> 100.0 * (1.0 - c) <= v)
      && (AllAtLeast(pairs, c) ==> forall v :: v in values ==> v <= 100.0 * (1.0 - c))
  }

  /** The signatures that were called. */
  function Called(pairs: seq<Signature>): seq<Signature> {
    if pairs == [] then []
    else (if pairs[0].calls > 0 then [pairs[0]] else []) + Called(pairs[1..])
  }

  /** One draw: a resample of each of the called signatures, in order. */
  ghost predicate IsDraw(draw: seq<Sampled>, kept: seq<Signature>) {
    && |draw| == |kept|
    && forall k :: 0 <= k < |kept| ==> draw[k].signature == kept[k] && IsResample(draw[k].sample, kept[k])
  }

  /** The sum of the medians, each taken as often as its signature was called. */
  ghost function Weighted(draw: seq<Sampled>, medians: seq<real>): real
    requires |medians| == |draw|
  {
    if draw == [] then 0.0
    else
      var n := |draw| - 1;
      Weighted(draw[..n], medians[..n]) + draw[n].signature.calls as real * medians[n]
  }

  /** These are the medians of the native (or winning) times of the resampled rounds. */
  ghost predicate MediansOf(draw: seq<Sampled>, native: bool, medians: seq<real>) {
    && |medians| == |draw|
    && forall k :: 0 <= k < |draw| ==>
         IsMedian(if native then Natives(draw[k].sample) else Winners(draw[k].sample), medians[k])
  }

  /** `v` is the percentage by which the winners' weighted medians are below native's. */
  ghost predicate IsSaving(draw: seq<Sampled>, v: real) {
    exists natives, winners :: SavingBy(draw, natives, winners, v)
  }

  ghost predicate SavingBy(draw: seq<Sampled>, natives: seq<real>, winners: seq<real>, v: real) {
    && MediansOf(draw, true, natives) && MediansOf(draw, false, winners)
    && PercentSaved(Weighted(draw, natives), Weighted(draw, winners), v)
  }

  ghost predicate PercentSaved(native: real, tuned: real, v: real) {
    native > 0.0 && v * native == 100.0 * (native - tuned)
  }

  lemma {:induction false} SavingPctSaves(native: real, tuned: real)
    requires native > 0.0
    ensures PercentSaved(native, tuned, SavingPct(native, tuned))
  {
  }

  ghost function DrawMedians(draw: seq<Sampled>, native: bool): seq<real> {
    seq(|draw|, k requires 0 <= k < |draw| =>
      Median(if native then Natives(draw[k].sample) else Winners(draw[k].sample)))
  }

  lemma {:induction false} NativeIsWeighted(draw: seq<Sampled>, medians: seq<real>)
    requires |medians| == |draw| && forall k :: 0 <= k < |draw| ==> medians[k] == Median(Natives(draw[k].sample))
    ensures NativeTotal(draw) == Weighted(draw, medians)
  {
    if draw != [] {
      var n := |draw| - 1;
      NativeIsWeighted(draw[..n], medians[..n]);
      assert NativeTerm(draw[n]) == Term(draw[n].signature.calls, medians[n]);
    }
  }

  lemma {:induction false} TunedIsWeighted(draw: seq<Sampled>, medians: seq<real>)
    requires |medians| == |draw| && forall k :: 0 <= k < |draw| ==> medians[k] == Median(Winners(draw[k].sample))
    ensures TunedTotal(draw) == Weighted(draw, medians)
  {
    if draw != [] {
      var n := |draw| - 1;
      TunedIsWeighted(draw[..n], medians[..n]);
      assert TunedTerm(draw[n]) == Term(draw[n].signature.calls, medians[n]);
    }
  }

  lemma {:induction false} DrawMediansAre(draw: seq<Sampled>, native: bool)
    requires forall k :: 0 <= k < |draw| ==> draw[k].sample != []
    ensures MediansOf(draw, native, DrawMedians(draw, native))
  {
    forall k | 0 <= k < |draw|
      ensures IsMedian(if native then Natives(draw[k].sample) else Winners(draw[k].sample), DrawMedians(draw, native)[k])
    {
      MedianIsMedian(if native then Natives(draw[k].sample) else Winners(draw[k].sample));
    }
  }

  lemma {:induction false} SavingIsSaving(draw: seq<Sampled>)
    requires (forall k :: 0 <= k < |draw| ==> draw[k].sample != []) && NativeTotal(draw) > 0.0
    ensures IsSaving(draw, SavingPct(NativeTotal(draw), TunedTotal(draw)))
  {
    var natives, winners := DrawMedians(draw, true), DrawMedians(draw, false);
    DrawMediansAre(draw, true);
    DrawMediansAre(draw, false);
    WeightedSaves(draw, natives, winners);
    assert SavingBy(draw, natives, winners, SavingPct(NativeTotal(draw), TunedTotal(draw)));
  }

  lemma {:induction false} WeightedSaves(draw: seq<Sampled>, natives: seq<real>, winners: seq<real>)
    requires |natives| == |winners| == |draw| && NativeTotal(draw) > 0.0
    requires forall k :: 0 <= k < |draw| ==> natives[k] == Median(Natives(draw[k].sample))
    requires forall k :: 0 <= k < |draw| ==> winners[k] == Median(Winners(draw[k].sample))
    ensures PercentSaved(Weighted(draw, natives), Weighted(draw, winners), SavingPct(NativeTotal(draw), TunedTotal(draw)))
  {
    NativeIsWeighted(draw, natives);
    TunedIsWeighted(draw, winners);
    SavingPctSaves(NativeTotal(draw), TunedTotal(draw));
  }

  lemma {:induction false} DrawIsDrawn(draw: seq<Sampled>, kept: seq<Signature>)
    requires IsDraw(draw, kept) && forall s :: s in kept ==> Usable(s) && s.calls > 0
    ensures DrawnFrom(draw, kept) && forall k :: 0 <= k < |draw| ==> draw[k].sample != []
  {
    forall d | d in draw ensures Drawn(d) && d.signature in kept {
      var k :| 0 <= k < |draw| && draw[k] == d;
      assert kept[k] in kept;
    }
    forall k | 0 <= k < |draw| ensures draw[k].sample != [] { assert kept[k] in kept; }
  }

  lemma {:induction false} CalledExact(pairs: seq<Signature>)
    ensures forall s :: s in Called(pairs) <==> s in pairs && s.calls > 0
  {
    if pairs != [] { CalledExact(pairs[1..]); }
  }

  /** The ends of the interval: the order statistics at 2.5 and 97.5 percent of the savings of all draws. */
  ghost predicate Percentiles(draws: seq<seq<Sampled>>, low: real, high: real) {
    exists savings: seq<real> ::
      && SavingsAre(draws, savings)
      && OrderStatistic(savings, |draws| / 40, low) && OrderStatistic(savings, 39 * |draws| / 40, high)
  }

  ghost predicate SavingsAre(draws: seq<seq<Sampled>>, savings: seq<real>) {
    |savings| == |draws| && forall i :: 0 <= i < |draws| ==> IsSaving(draws[i], savings[i])
  }

  /**
   `saving_interval`: refused below two draws, absent when nothing was called, and otherwise the
   2.5 and 97.5 percent order statistics of the draws' savings, an ordered interval inside the
   range of the per-round savings, for every resampling.
   */
  method SavingInterval(pairs: seq<Signature>, draws: seq<seq<Sampled>>)
    returns (r: Result<Option<(real, real)>, ImpactError>)
    requires forall s :: s in pairs ==> Usable(s)
    requires forall i :: 0 <= i < |draws| ==> IsDraw(draws[i], Called(pairs))
    ensures r.Err? <==> |draws| < 2
    ensures r.Ok? ==> (r.value.None? <==> forall s :: s in pairs ==> s.calls <= 0)
    ensures r.Ok? && r.value.Some? ==> Percentiles(draws, r.value.value.0, r.value.value.1)
    ensures r.Ok? && r.value.Some? ==>
      r.value.value.0 <= r.value.value.1 && Contained([r.value.value.0, r.value.value.1], Called(pairs))
  {
    if |draws| < 2 {
      return Err(TooFewDraws);
    }
    var kept := Called(pairs);
    CalledExact(pairs);
    if kept == [] {
      return Ok(None);
    }
    assert kept[0] in kept;
    var totals := Savings(draws, kept);
    var low, high := Ends(totals);
    SubContained(totals, kept, low, high);
    PercentilesHold(draws, kept, totals, low, high);
    return Ok(Some((low, high)));
  }

  /** The saving of one draw, from its totals. */
  ghost function SavingOf(draw: seq<Sampled>): real {
    if NativeTotal(draw) > 0.0 then SavingPct(NativeTotal(draw), TunedTotal(draw)) else 0.0
  }

  /** The loop over the draws. */
  method Savings(draws: seq<seq<Sampled>>, ghost kept: seq<Signature>) returns (totals: seq<real>)
    requires kept != [] && forall s :: s in kept ==> Usable(s) && s.calls > 0
    requires forall i :: 0 <= i < |draws| ==> IsDraw(draws[i], kept)
    ensures |totals| == |draws| && Contained(totals, kept)
    ensures forall i :: 0 <= i < |draws| ==> totals[i] == SavingOf(draws[i])
  {
    totals := [];
    for i := 0 to |draws|
      invariant |totals| == i && forall k :: 0 <= k < i ==> totals[k] == SavingOf(draws[k])
    {
      var draw := draws[i];
      var nativeTotal, tunedTotal := Draw(draw);
      DrawCounts(draw, kept);
      if nativeTotal > 0.0 {
        var saving := SavingPct(nativeTotal, tunedTotal);
        assert saving == SavingOf(draw);
        totals := totals + [saving];
      }
    }
    SavingsContained(draws, kept, totals);
  }

  lemma {:induction false} DrawCounts(draw: seq<Sampled>, kept: seq<Signature>)
    requires kept != [] && IsDraw(draw, kept) && forall s :: s in kept ==> Usable(s) && s.calls > 0
    ensures NativeTotal(draw) > 0.0
  {
    DrawIsDrawn(draw, kept);
    TotalPositive(draw, kept);
  }

  lemma {:induction false} SavingsContained(draws: seq<seq<Sampled>>, kept: seq<Signature>, totals: seq<real>)
    requires kept != [] && forall s :: s in kept ==> Usable(s) && s.calls > 0
    requires forall i :: 0 <= i < |draws| ==> IsDraw(draws[i], kept)
    requires |totals| == |draws| && forall i :: 0 <= i < |draws| ==> totals[i] == SavingOf(draws[i])
    ensures Contained(totals, kept)
  {
    if draws != [] {
      var n := |draws| - 1;
      SavingsContained(draws[..n], kept, totals[..n]);
      assert totals == totals[..n] + [SavingOf(draws[n])];
      SavingContained(totals[..n], draws[n], kept);
    }
  }

  lemma {:induction false} SavingContained(totals: seq<real>, draw: seq<Sampled>, kept: seq<Signature>)
    requires Contained(totals, kept) && kept != [] && IsDraw(draw, kept)
    requires forall s :: s in kept ==> Usable(s) && s.calls > 0
    ensures Contained(totals + [SavingOf(draw)], kept)
  {
    DrawIsDrawn(draw, kept);
    TotalPositive(draw, kept);
    AddContained(totals, draw, kept);
  }

  lemma {:induction false} SavingMeans(draw: seq<Sampled>, kept: seq<Signature>)
    requires kept != [] && IsDraw(draw, kept) && forall s :: s in kept ==> Usable(s) && s.calls > 0
    ensures IsSaving(draw, SavingOf(draw))
  {
    DrawIsDrawn(draw, kept);
    TotalPositive(draw, kept);
    SavingIsSaving(draw);
  }

  lemma {:induction false} PercentilesHold(draws: seq<seq<Sampled>>, kept: seq<Signature>, totals: seq<real>, low: real, high: real)
    requires kept != [] && forall s :: s in kept ==> Usable(s) && s.calls > 0
    requires forall i :: 0 <= i < |draws| ==> IsDraw(draws[i], kept)
    requires |totals| == |draws| && forall i :: 0 <= i < |draws| ==> totals[i] == SavingOf(draws[i])
    requires OrderStatistic(totals, |draws| / 40, low) && OrderStatistic(totals, 39 * |draws| / 40, high)
    ensures Percentiles(draws, low, high)
  {
    forall i | 0 <= i < |draws| ensures IsSaving(draws[i], totals[i]) { SavingMeans(draws[i], kept); }
    assert SavingsAre(draws, totals);
  }

  /** `totals.sort()` and the two positions read from it. */
  method Ends(totals: seq<real>) returns (low: real, high: real)
    requires totals != []
    ensures OrderStatistic(totals, |totals| / 40, low) && OrderStatistic(totals, 39 * |totals| / 40, high)
    ensures low <= high && low in totals && high in totals
  {
    OrderedCorrect(totals);
    var sorted := Ordered(totals);
    forall i, j | 0 <= i < j < |sorted| ensures sorted[i] <= sorted[j] { assert AtMost()(sorted[i], sorted[j]); }
    low, high := sorted[|sorted| / 40], sorted[39 * |sorted| / 40];
    SortedStatistic(totals, sorted, |totals| / 40);
    SortedStatistic(totals, sorted, 39 * |totals| / 40);
  }

  lemma {:induction false} SubContained(values: seq<real>, pairs: seq<Signature>, low: real, high: real)
    requires Contained(values, pairs) && low in values && high in values
    ensures Contained([low, high], pairs)
  {
  }

  lemma {:induction false} AddContained(totals: seq<real>, draw: seq<Sampled>, pairs: seq<Signature>)
    requires Contained(totals, pairs) && draw != [] && DrawnFrom(draw, pairs) && NativeTotal(draw) > 0.0
    ensures Contained(totals + [SavingPct(NativeTotal(draw), TunedTotal(draw))], pairs)
  {
    forall c: real | c > 0.0
      ensures AllAtMost(pairs, c) ==> 100.0 * (1.0 - c) <= SavingPct(NativeTotal(draw), TunedTotal(draw))
      ensures AllAtLeast(pairs, c) ==> SavingPct(NativeTotal(draw), TunedTotal(draw)) <= 100.0 * (1.0 - c)
    {
      if AllAtMost(pairs, c) { DrawAtMost(draw, pairs, c); }
      if AllAtLeast(pairs, c) { DrawAtLeast(draw, pairs, c); }
    }
  }

  /** A winner exactly `c` times as slow in every round gives exactly that saving, always. */
  lemma {:induction false} ProportionalIsExact(values: seq<real>, pairs: seq<Signature>, c: real)
    requires c > 0.0 && Contained(values, pairs) && AllAtMost(pairs, c) && AllAtLeast(pairs, c)
    ensures forall v :: v in values ==> v == 100.0 * (1.0 - c)
  {
  }

  /** A winner never slower than native never shows a loss. */
  lemma {:induction false} NeverSlowerNeverLoses(values: seq<real>, pairs: seq<Signature>)
    requires Contained(values, pairs)
    requires forall s, r :: s in pairs && r in s.rounds ==> r.winner <= r.native
    ensures forall v :: v in values ==> v >= 0.0
  {
    assert AllAtMost(pairs, 1.0);
  }
}
