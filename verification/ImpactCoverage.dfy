/**
 The point estimate of tools/bigcherry/analysis/impact.py and the share of it that the
 bootstrap interval backs with paired samples.
 */
module ImpactCoverage {
  import opened Wrappers
  import opened PairedBootstrap

  datatype Candidate = Candidate(name: string, ok: bool, medianUs: Option<real>, samplesUs: Option<seq<Option<real>>>)
  datatype Measurement = Measurement(signature: string, native: Option<string>, winner: Option<string>,
                                     candidates: seq<Candidate>)
  datatype Observation = Observation(signature: string, calls: int, native: string)

  datatype Failure =
    | BadObservation
    | DuplicateMeasurement
    | WinnerRequired
    | NoMedian
    | NotPositive
    | NotRoundAligned

  datatype Estimate = Estimate(matched: nat, callsCovered: int, nativeTotal: real, tunedTotal: real)

  /** `_candidate`: the first usable candidate of that name, which must have a median. */
  function Find(cs: seq<Candidate>, name: string): Result<Option<Candidate>, Failure> {
    if cs == [] then Ok(None)
    else if cs[0].name == name && cs[0].ok then
      if cs[0].medianUs.None? then Err(NoMedian) else Ok(Some(cs[0]))
    else Find(cs[1..], name)
  }

  function Named(name: Option<string>, fallback: string): string {
    if name.Some? && name.value != "" then name.value else fallback
  }

  /** The native and winning candidates of a row, when it has both. */
  function Contenders(m: Measurement, fallback: string): Result<Option<(Candidate, Candidate)>, Failure> {
    var native := Find(m.candidates, Named(m.native, fallback));
    var winner := Find(m.candidates, Named(m.winner, ""));
    if native.Err? then Err(native.error)
    else if winner.Err? then Err(winner.error)
    else if native.value.None? || winner.value.None? then Ok(None)
    else Ok(Some((native.value.value, winner.value.value)))
  }

  /** `_round_aligned_pairs`: rounds in which both sides were measured, index by index. */
  function AlignedPairs(native: seq<Option<real>>, winner: seq<Option<real>>): Result<seq<Round>, Failure> {
    if |native| != |winner| then Err(NotRoundAligned)
    else if native == [] then Ok([])
    else
      var rest := AlignedPairs(native[1..], winner[1..]);
      if native[0].None? || winner[0].None? then rest
      else if native[0].value <= 0.0 || winner[0].value <= 0.0 then Err(NotPositive)
      else if rest.Err? then rest
      else Ok([Round(native[0].value, winner[0].value)] + rest.value)
  }

  lemma {:induction false} AlignedPairsPositive(native: seq<Option<real>>, winner: seq<Option<real>>)
    ensures var p := AlignedPairs(native, winner);
      p.Ok? ==>
        && |p.value| <= |native| == |winner|
        && (forall r :: r in p.value ==> r.native > 0.0 && r.winner > 0.0)
        && (forall r :: r in p.value ==>
              exists i :: 0 <= i < |native| && native[i] == Some(r.native) && winner[i] == Some(r.winner))
  {
    var p := AlignedPairs(native, winner);
    if p.Ok? && native != [] {
      AlignedPairsPositive(native[1..], winner[1..]);
      var rest := AlignedPairs(native[1..], winner[1..]).value;
      forall r | r in p.value
        ensures exists i :: 0 <= i < |native| && native[i] == Some(r.native) && winner[i] == Some(r.winner)
      {
        if r in rest {
          var i :| 0 <= i < |native[1..]| && native[1..][i] == Some(r.native) && winner[1..][i] == Some(r.winner);
          assert native[i + 1] == Some(r.native) && winner[i + 1] == Some(r.winner);
        } else {
          assert r == p.value[0] && native[0] == Some(r.native) && winner[0] == Some(r.winner);
        }
      }
    }
  }

  type Calls = map<string, Observation>

  /** What one row adds to the point estimate's calls. */
  ghost function EstimateCalls(m: Measurement, calls: Calls): int {
    if m.signature !in calls then 0
    else
      var c := Contenders(m, calls[m.signature].native);
      if c.Ok? && c.value.Some? then calls[m.signature].calls else 0
  }

  ghost function CoveredCalls(results: seq<Measurement>, calls: Calls): int {
    if results == [] then 0
    else CoveredCalls(results[..|results| - 1], calls) + EstimateCalls(results[|results| - 1], calls)
  }

  /** What one row adds to the native (or tuned) total: its calls times that side's median. */
  ghost function RowUs(m: Measurement, calls: Calls, native: bool): real {
    if m.signature !in calls then 0.0
    else
      var c := Contenders(m, calls[m.signature].native);
      if c.Err? || c.value.None? then 0.0
      else
        var median := if native then c.value.value.0.medianUs else c.value.value.1.medianUs;
        if median.None? then 0.0 else calls[m.signature].calls as real * median.value
  }

  ghost function TotalUs(results: seq<Measurement>, calls: Calls, native: bool): real {
    if results == [] then 0.0
    else TotalUs(results[..|results| - 1], calls, native) + RowUs(results[|results| - 1], calls, native)
  }

  /** A recorded file: one observation per signature, with a call count. */
  ghost predicate Recorded(calls: Calls) {
    forall s :: s in calls ==> calls[s].calls >= 0
  }

  /** The observation loop of `predicted_saving`. */
  method IndexObservations(observations: seq<Observation>) returns (r: Result<Calls, Failure>)
    ensures r.Ok? ==> Recorded(r.value)
    ensures r.Ok? ==> forall o :: o in observations ==> o.signature in r.value && r.value[o.signature] == o
    ensures r.Ok? <==>
      && (forall o :: o in observations ==> o.signature != "" && o.calls >= 0)
      && (forall i, j :: 0 <= i < j < |observations| ==> observations[i].signature != observations[j].signature)
  {
    var calls: Calls := map[];
    for i := 0 to |observations|
      invariant Recorded(calls)
      invariant forall k :: 0 <= k < i ==>
        && observations[k].signature in calls && calls[observations[k].signature] == observations[k]
        && observations[k].signature != "" && observations[k].calls >= 0
      invariant forall s :: s in calls ==> exists k :: 0 <= k < i && observations[k].signature == s
      invariant forall a, b :: 0 <= a < b < i ==> observations[a].signature != observations[b].signature
    {
      var o := observations[i];
      assert o in observations;
      if o.signature == "" || o.calls < 0 || o.signature in calls {
        return Err(BadObservation);
      }
      calls := calls[o.signature := o];
    }
    return Ok(calls);
  }

  /** A row the point estimate can take in: named, and if it was observed, with usable medians. */
  ghost predicate Estimable(m: Measurement, calls: Calls) {
    && m.signature != ""
    && (m.signature in calls ==>
          && m.winner.Some?
          && var c := Contenders(m, calls[m.signature].native);
             c.Ok? && (c.value.Some? ==> Positive(c.value.value.0) && Positive(c.value.value.1)))
  }

  predicate Positive(c: Candidate) { c.medianUs.Some? && c.medianUs.value > 0.0 }

  ghost predicate DistinctSignatures(results: seq<Measurement>) {
    forall i, j :: 0 <= i < j < |results| ==> results[i].signature != results[j].signature
  }

  /** The first `i` rows are estimable and distinct; `seen` holds their signatures. */
  ghost predicate TakenIn(results: seq<Measurement>, calls: Calls, i: nat, seen: set<string>) {
    && i <= |results|
    && (forall k :: 0 <= k < i ==> results[k].signature in seen && Estimable(results[k], calls))
    && (forall s :: s in seen ==> exists k :: 0 <= k < i && results[k].signature == s)
    && (forall a, b :: 0 <= a < b < i ==> results[a].signature != results[b].signature)
  }

  /** The next row is taken in, or no result is possible. */
  lemma {:induction false} RowDecides(results: seq<Measurement>, calls: Calls, i: nat, seen: set<string>)
    requires i < |results| && TakenIn(results, calls, i, seen)
    ensures var m := results[i];
      if m.signature !in seen && Estimable(m, calls) then TakenIn(results, calls, i + 1, seen + {m.signature})
      else !(DistinctSignatures(results) && forall m :: m in results ==> Estimable(m, calls))
  {
    var m := results[i];
    assert m in results;
    if m.signature in seen {
      var k :| 0 <= k < i && results[k].signature == m.signature;
    }
  }

  /** The measurement loop of `predicted_saving`. */
  method PredictedSaving(calls: Calls, results: seq<Measurement>) returns (r: Result<Estimate, Failure>)
    ensures r.Ok? <==> DistinctSignatures(results) && forall m :: m in results ==> Estimable(m, calls)
    ensures r.Ok? ==> r.value.callsCovered == CoveredCalls(results, calls)
    ensures r.Ok? ==> r.value.nativeTotal == TotalUs(results, calls, true)
    ensures r.Ok? ==> r.value.tunedTotal == TotalUs(results, calls, false)
  {
    var seen: set<string> := {};
    var e := Estimate(0, 0, 0.0, 0.0);
    for i := 0 to |results|
      invariant TakenIn(results, calls, i, seen)
      invariant e.callsCovered == CoveredCalls(results[..i], calls)
      invariant e.nativeTotal == TotalUs(results[..i], calls, true)
      invariant e.tunedTotal == TotalUs(results[..i], calls, false)
    {
      assert results[..i + 1][..i] == results[..i];
      var m := results[i];
      RowDecides(results, calls, i, seen);
      if m.signature in seen || m.signature == "" {
        return Err(DuplicateMeasurement);
      }
      seen := seen + {m.signature};
      var row := EstimateRow(m, calls);
      if row.Err? {
        return Err(row.error);
      }
      e := Estimate(e.matched + row.value.matched, e.callsCovered + row.value.callsCovered,
                    e.nativeTotal + row.value.nativeTotal, e.tunedTotal + row.value.tunedTotal);
    }
    assert results[..|results|] == results;
    return Ok(e);
  }

  /** One iteration: what a row adds to the estimate. */
  method EstimateRow(m: Measurement, calls: Calls) returns (r: Result<Estimate, Failure>)
    requires m.signature != ""
    ensures r.Ok? <==> Estimable(m, calls)
    ensures r.Ok? ==> r.value.callsCovered == EstimateCalls(m, calls)
    ensures r.Ok? ==> r.value.nativeTotal == RowUs(m, calls, true) && r.value.tunedTotal == RowUs(m, calls, false)
  {
    if m.signature !in calls {
      return Ok(Estimate(0, 0, 0.0, 0.0));
    }
    if m.winner.None? {
      return Err(WinnerRequired);
    }
    var o := calls[m.signature];
    var c := Contenders(m, o.native);
    if c.Err? {
      return Err(c.error);
    }
    if c.value.None? {
      return Ok(Estimate(0, 0, 0.0, 0.0));
    }
    var native, winner := c.value.value.0, c.value.value.1;
    if !Positive(native) || !Positive(winner) {
      return Err(NotPositive);
    }
    return Ok(Estimate(1, o.calls, o.calls as real * native.medianUs.value, o.calls as real * winner.medianUs.value));
  }

  function SumCallsOf(pairs: seq<Signature>): int {
    if pairs == [] then 0 else SumCallsOf(pairs[..|pairs| - 1]) + pairs[|pairs| - 1].calls
  }

  /** The paired rounds of one row, when there are enough of them. */
  function BackedRounds(m: Measurement, fallback: string): Result<Option<seq<Round>>, Failure> {
    var c := Contenders(m, fallback);
    if c.Err? then Err(c.error)
    else if c.value.None? then Ok(None)
    else if c.value.value.0.samplesUs.None? || c.value.value.1.samplesUs.None? then Ok(None)
    else
      var rounds := AlignedPairs(c.value.value.0.samplesUs.value, c.value.value.1.samplesUs.value);
      if rounds.Err? then Err(rounds.error)
      else if |rounds.value| < MIN_PAIRED_ROUNDS then Ok(None)
      else Ok(Some(rounds.value))
  }

  lemma {:induction false} BackedRoundsUsable(m: Measurement, fallback: string, calls: int)
    requires BackedRounds(m, fallback).Ok? && BackedRounds(m, fallback).value.Some?
    ensures Usable(Signature(calls, BackedRounds(m, fallback).value.value))
  {
    var c := Contenders(m, fallback).value.value;
    AlignedPairsPositive(c.0.samplesUs.value, c.1.samplesUs.value);
  }

  /** What one row adds to the sample-backed calls. */
  ghost function RowBacked(m: Measurement, calls: Calls): int {
    if m.signature !in calls then 0
    else
      var rounds := BackedRounds(m, calls[m.signature].native);
      if rounds.Ok? && rounds.value.Some? then calls[m.signature].calls else 0
  }

  ghost function BackedCalls(results: seq<Measurement>, calls: Calls): int {
    if results == [] then 0
    else BackedCalls(results[..|results| - 1], calls) + RowBacked(results[|results| - 1], calls)
  }

  /** Sample-backed calls are calls that the point estimate counts. */
  lemma {:induction false} BackedIsCovered(results: seq<Measurement>, calls: Calls)
    requires Recorded(calls)
    ensures 0 <= BackedCalls(results, calls) <= CoveredCalls(results, calls)
  {
    if results != [] { BackedIsCovered(results[..|results| - 1], calls); }
  }

  /** A row whose samples, if it was observed, can be read. */
  ghost predicate Readable(m: Measurement, calls: Calls) {
    m.signature in calls ==> BackedRounds(m, calls[m.signature].native).Ok?
  }

  /** `_usable_pairs`: every pair list it keeps can be bootstrapped. */
  method UsablePairs(calls: Calls, results: seq<Measurement>) returns (r: Result<seq<Signature>, Failure>)
    ensures r.Ok? <==> forall m :: m in results ==> Readable(m, calls)
    ensures r.Ok? ==> forall s :: s in r.value ==> Usable(s)
    ensures r.Ok? ==> SumCallsOf(r.value) == BackedCalls(results, calls)
  {
    var pairs: seq<Signature> := [];
    for i := 0 to |results|
      invariant forall k :: 0 <= k < i ==> Readable(results[k], calls)
      invariant forall s :: s in pairs ==> Usable(s)
      invariant SumCallsOf(pairs) == BackedCalls(results[..i], calls)
    {
      assert results[..i + 1][..i] == results[..i];
      var m := results[i];
      assert m in results;
      if m.signature !in calls {
        continue;
      }
      var rounds := BackedRounds(m, calls[m.signature].native);
      if rounds.Err? {
        return Err(rounds.error);
      }
      if rounds.value.Some? {
        BackedRoundsUsable(m, calls[m.signature].native, calls[m.signature].calls);
        var s := Signature(calls[m.signature].calls, rounds.value.value);
        assert (pairs + [s])[..|pairs|] == pairs;
        pairs := pairs + [s];
      }
    }
    assert results[..|results|] == results;
    return Ok(pairs);
  }

  datatype Backing = Backing(pointEstimateCalls: int, sampleBackedCalls: int, fraction: real)

  /** `sample_backed_coverage`: the backed fraction of the point estimate is in `[0, 1]`. */
  method SampleBackedCoverage(calls: Calls, results: seq<Measurement>) returns (r: Result<Backing, Failure>)
    requires Recorded(calls)
    ensures r.Ok? <==>
      && DistinctSignatures(results)
      && forall m :: m in results ==> Estimable(m, calls) && Readable(m, calls)
    ensures r.Ok? ==>
      && r.value.sampleBackedCalls == BackedCalls(results, calls)
      && r.value.pointEstimateCalls == CoveredCalls(results, calls)
      && 0 <= r.value.sampleBackedCalls <= r.value.pointEstimateCalls
      && r.value.fraction * r.value.pointEstimateCalls as real == r.value.sampleBackedCalls as real
      && 0.0 <= r.value.fraction <= 1.0
  {
    var backed := UsablePairs(calls, results);
    if backed.Err? {
      return Err(backed.error);
    }
    var estimate := PredictedSaving(calls, results);
    if estimate.Err? {
      return Err(estimate.error);
    }
    BackedIsCovered(results, calls);
    var part, whole := SumCallsOf(backed.value), estimate.value.callsCovered;
    FractionOfWhole(part, whole);
    return Ok(Backing(whole, part, if whole == 0 then 0.0 else part as real / whole as real));
  }

  lemma {:induction false} FractionOfWhole(part: int, whole: int)
    requires 0 <= part <= whole
    ensures whole != 0 ==> 0.0 <= part as real / whole as real <= 1.0
  {
  }

  // ------------------------------------------------------------------
  // Candidates and rounds, said of the rows

  ghost predicate IsCandidate(c: Candidate, name: string) { c.name == name && c.ok }

  /** The first usable candidate of a name decides: it is found, or it lacks a median. */
  lemma {:induction false} FindExact(cs: seq<Candidate>, name: string)
    ensures Find(cs, name) == Ok(None) <==> forall i :: 0 <= i < |cs| ==> !IsCandidate(cs[i], name)
    ensures forall i :: 0 <= i < |cs| && IsCandidate(cs[i], name) && (forall j :: 0 <= j < i ==> !IsCandidate(cs[j], name)) ==>
      Find(cs, name) == if cs[i].medianUs.Some? then Ok(Some(cs[i])) else Err(NoMedian)
  {
    if cs != [] && !IsCandidate(cs[0], name) {
      var rest := cs[1..];
      FindExact(rest, name);
      assert forall i :: 0 <= i < |rest| ==> rest[i] == cs[i + 1];
      forall i | 0 <= i < |cs| && IsCandidate(cs[i], name) && (forall j :: 0 <= j < i ==> !IsCandidate(cs[j], name))
        ensures Find(cs, name) == if cs[i].medianUs.Some? then Ok(Some(cs[i])) else Err(NoMedian)
      {
        assert rest[i - 1] == cs[i];
        assert forall j :: 0 <= j < i - 1 ==> rest[j] == cs[j + 1];
      }
      if forall i :: 0 <= i < |rest| ==> !IsCandidate(rest[i], name) {
        forall i | 0 <= i < |cs| ensures !IsCandidate(cs[i], name) {
          if i > 0 { assert cs[i] == rest[i - 1]; }
        }
      }
    }
  }

  /** Round `i` was measured on both sides, with these times. */
  ghost predicate PairAt(native: seq<Option<real>>, winner: seq<Option<real>>, i: nat, round: Round) {
    i < |native| && i < |winner| && native[i] == Some(round.native) && winner[i] == Some(round.winner)
  }

  /** The rounds `idx`, in order, are exactly those measured on both sides, and `rounds` holds their times. */
  ghost predicate PairsOf(native: seq<Option<real>>, winner: seq<Option<real>>, idx: seq<nat>, rounds: seq<Round>) {
    && |idx| == |rounds|
    && (forall a, b :: 0 <= a < b < |idx| ==> idx[a] < idx[b])
    && (forall k :: 0 <= k < |idx| ==> PairAt(native, winner, idx[k], rounds[k]))
    && (forall i: nat, round :: PairAt(native, winner, i, round) ==> i in idx)
  }

  function Shift(idx: seq<nat>): (r: seq<nat>)
    ensures |r| == |idx| && forall k :: 0 <= k < |r| ==> r[k] == idx[k] + 1
  {
    seq(|idx|, k requires 0 <= k < |idx| => idx[k] + 1)
  }

  /** The aligned pairs are all the rounds measured on both sides, in order. */
  lemma {:induction false} AlignedPairsComplete(native: seq<Option<real>>, winner: seq<Option<real>>) returns (idx: seq<nat>)
    requires AlignedPairs(native, winner).Ok?
    ensures PairsOf(native, winner, idx, AlignedPairs(native, winner).value)
  {
    if native == [] {
      idx := [];
    } else {
      var rest := AlignedPairsComplete(native[1..], winner[1..]);
      var rounds := AlignedPairs(native[1..], winner[1..]).value;
      PairsShift(native, winner, rest, rounds);
      idx := if native[0].Some? && winner[0].Some? then [0] + Shift(rest) else Shift(rest);
    }
  }

  lemma {:induction false} PairsShift(native: seq<Option<real>>, winner: seq<Option<real>>, rest: seq<nat>, rounds: seq<Round>)
    requires native != [] && winner != [] && PairsOf(native[1..], winner[1..], rest, rounds)
    ensures if native[0].Some? && winner[0].Some?
      then PairsOf(native, winner, [0] + Shift(rest), [Round(native[0].value, winner[0].value)] + rounds)
      else PairsOf(native, winner, Shift(rest), rounds)
  {
    var shifted := Shift(rest);
    forall k | 0 <= k < |rest| ensures PairAt(native, winner, shifted[k], rounds[k]) {
      assert PairAt(native[1..], winner[1..], rest[k], rounds[k]);
    }
    forall i: nat, round | PairAt(native, winner, i, round) && i > 0 ensures i in shifted {
      assert PairAt(native[1..], winner[1..], i - 1, round);
      var k :| 0 <= k < |rest| && rest[k] == i - 1;
      assert shifted[k] == i;
    }
    if native[0].Some? && winner[0].Some? {
      var round := Round(native[0].value, winner[0].value);
      assert PairAt(native, winner, 0, round);
      FirstPair(native, winner, shifted, rounds, round);
    }
  }

  lemma {:induction false} FirstPair(native: seq<Option<real>>, winner: seq<Option<real>>, shifted: seq<nat>,
                                     rounds: seq<Round>, round: Round)
    requires |shifted| == |rounds| && PairAt(native, winner, 0, round)
    requires forall a, b :: 0 <= a < b < |shifted| ==> shifted[a] < shifted[b]
    requires forall k :: 0 <= k < |shifted| ==> shifted[k] > 0 && PairAt(native, winner, shifted[k], rounds[k])
    requires forall i: nat, round :: PairAt(native, winner, i, round) && i > 0 ==> i in shifted
    ensures PairsOf(native, winner, [0] + shifted, [round] + rounds)
  {
    var idx, all := [0] + shifted, [round] + rounds;
    forall k | 0 <= k < |idx| ensures PairAt(native, winner, idx[k], all[k]) {
      if k > 0 { assert idx[k] == shifted[k - 1] && all[k] == rounds[k - 1]; }
    }
  }

  /** They exist exactly when the samples are aligned and every such round has positive times. */
  lemma {:induction false} AlignedPairsOkIff(native: seq<Option<real>>, winner: seq<Option<real>>)
    ensures AlignedPairs(native, winner).Ok? <==>
      && |native| == |winner|
      && forall i: nat :: i < |native| && i < |winner| && native[i].Some? && winner[i].Some? ==>
           native[i].value > 0.0 && winner[i].value > 0.0
  {
    if |native| == |winner| && native != [] {
      AlignedPairsOkIff(native[1..], winner[1..]);
      forall i: nat | 0 < i < |native| ensures native[i] == native[1..][i - 1] && winner[i] == winner[1..][i - 1] { }
    }
  }
}
