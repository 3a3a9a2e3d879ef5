/**
 The sampling loop that UCB1 and Thompson sampling share:
 tools/bigcherry/analysis/bandit_simulator.py. The score of a tried candidate
 at a step (a confidence bound, or a posterior draw) and the spread of its
 rounds are arbitrary functions, so every result holds for both policies and
 for every seed.
 */
module AdaptiveSampling {
  import opened Sorting
  import opened RoundData

  datatype Policy = Policy(minRounds: int, score: (nat, string) -> real, spread: seq<real> -> real, sigma: real)

  // ---------------------------------------------------------------- one step

  function HasNext(recorded: Recorded, counts: Counts): string -> bool {
    (n: string) => n in recorded && At(counts, n) < |recorded[n]|
  }

  /** Untried names score minus infinity. */
  function ByScore(p: Policy, counts: Counts, t: nat): (string, string) -> bool {
    (x: string, y: string) => At(counts, x) == 0 || (At(counts, y) != 0 && p.score(t, x) <= p.score(t, y))
  }

  lemma {:induction false} ByScoreIsPreorder(p: Policy, counts: Counts, t: nat)
    ensures TotalPreorder(ByScore(p, counts, t))
  {
  }

  /** The step reads the next round of a name that has one and that no such name outscores. */
  ghost predicate Greedy(recorded: Recorded, p: Policy, counts: Counts, t: nat, pick: string) {
    && HasNext(recorded, counts)(pick)
    && forall m :: HasNext(recorded, counts)(m) ==> ByScore(p, counts, t)(pick, m)
  }

  /** A name that was tried is picked again only when all available names were, and with the least score. */
  lemma {:induction false} PicksLeastScore(recorded: Recorded, p: Policy, counts: Counts, t: nat, pick: string, m: string)
    requires Greedy(recorded, p, counts, t, pick) && At(counts, pick) > 0
    requires m in recorded && At(counts, m) < |recorded[m]|
    ensures At(counts, m) > 0 && p.score(t, pick) <= p.score(t, m)
  {
    assert HasNext(recorded, counts)(m);
  }

  /** The intervals of the two fastest names do not overlap. */
  predicate Separated(recorded: Recorded, p: Policy, counts: Counts, leader: string, runner: string) {
    var a, b := Prefix(recorded, counts, leader), Prefix(recorded, counts, runner);
    a != [] && b != [] && Mean(a) + p.sigma * p.spread(a) < Mean(b) - p.sigma * p.spread(b)
  }

  /** The test after every step. */
  predicate StopNow(recorded: Recorded, names: seq<string>, p: Policy, counts: Counts) {
    var ranked := Ranking(recorded, counts, names);
    && (forall n :: n in names ==> At(counts, n) >= p.minRounds)
    && (|ranked| < 2 || Separated(recorded, p, counts, ranked[0], ranked[1]))
  }

  // ---------------------------------------------------------------- runs

  /** The counters after the steps `picks`. */
  ghost function CountsAfter(recorded: Recorded, picks: seq<string>): Counts {
    if picks == [] then map n | n in recorded :: 0
    else
      var i := |picks| - 1;
      var before := CountsAfter(recorded, picks[..i]);
      before[picks[i] := At(before, picks[i]) + 1]
  }

  /** Each step was greedy, and the stopping test failed after every step but the last. */
  ghost predicate Run(recorded: Recorded, names: seq<string>, p: Policy, picks: seq<string>) {
    forall i :: 0 <= i < |picks| ==> StepOk(recorded, names, p, picks, i)
  }

  ghost predicate StepOk(recorded: Recorded, names: seq<string>, p: Policy, picks: seq<string>, i: nat)
    requires i < |picks|
  {
    var before := CountsAfter(recorded, picks[..i]);
    Greedy(recorded, p, before, i + 1, picks[i]) && (i > 0 ==> !StopNow(recorded, names, p, before))
  }

  lemma {:induction false} RunPrefix(recorded: Recorded, names: seq<string>, p: Policy, picks: seq<string>, k: nat)
    requires Run(recorded, names, p, picks) && k <= |picks|
    ensures Run(recorded, names, p, picks[..k])
  {
    forall i | 0 <= i < k ensures StepOk(recorded, names, p, picks[..k], i) {
      assert StepOk(recorded, names, p, picks, i);
      assert picks[..k][..i] == picks[..i];
    }
  }

  lemma {:induction false} LastStep(recorded: Recorded, names: seq<string>, p: Policy, picks: seq<string>)
    requires Run(recorded, names, p, picks) && picks != []
    ensures var i := |picks| - 1;
      Run(recorded, names, p, picks[..i]) && HasNext(recorded, CountsAfter(recorded, picks[..i]))(picks[i])
  {
    RunPrefix(recorded, names, p, picks, |picks| - 1);
    assert StepOk(recorded, names, p, picks, |picks| - 1);
  }

  lemma {:induction false} StepWithin(recorded: Recorded, names: seq<string>, before: Counts, pick: string)
    requires Within(recorded, before) && HasNext(recorded, before)(pick)
    requires Distinct(names) && forall n :: n in names <==> n in recorded
    ensures var after := before[pick := At(before, pick) + 1];
      Within(recorded, after) && Total(after, names) == Total(before, names) + 1
  {
    TotalUpdate(before, names, pick, At(before, pick) + 1);
  }

  /** No run reads past the recorded rounds, and each step reads exactly one. */
  lemma {:induction false} RunWithin(recorded: Recorded, names: seq<string>, p: Policy, picks: seq<string>)
    requires Run(recorded, names, p, picks) && Distinct(names) && forall n :: n in names <==> n in recorded
    ensures Within(recorded, CountsAfter(recorded, picks))
    ensures Total(CountsAfter(recorded, picks), names) == |picks|
  {
    if picks == [] {
      ZeroTotal(CountsAfter(recorded, picks), names);
    } else {
      var i := |picks| - 1;
      LastStep(recorded, names, p, picks);
      RunWithin(recorded, names, p, picks[..i]);
      StepWithin(recorded, names, CountsAfter(recorded, picks[..i]), picks[i]);
    }
  }

  /** Nothing is tried twice before everything measurable is tried once. */
  ghost predicate Fair(recorded: Recorded, counts: Counts) {
    forall n, m :: n in recorded && m in recorded && At(counts, n) >= 2 && recorded[m] != [] ==> At(counts, m) >= 1
  }

  /** Whatever the scores, every candidate is tried before any is tried again. */
  lemma {:induction false} RunIsFair(recorded: Recorded, names: seq<string>, p: Policy, picks: seq<string>)
    requires Run(recorded, names, p, picks)
    ensures Fair(recorded, CountsAfter(recorded, picks))
  {
    if picks != [] {
      var i := |picks| - 1;
      RunPrefix(recorded, names, p, picks, i);
      RunIsFair(recorded, names, p, picks[..i]);
      assert StepOk(recorded, names, p, picks, i);
      var before, after := CountsAfter(recorded, picks[..i]), CountsAfter(recorded, picks);
      forall n, m | n in recorded && m in recorded && At(after, n) >= 2 && recorded[m] != []
        ensures At(after, m) >= 1
      {
        if At(before, n) < 2 && m != n {
          assert HasNext(recorded, before)(m) ==> ByScore(p, before, i + 1)(n, m);
        }
      }
    }
  }

  ghost predicate Exhausted(recorded: Recorded, counts: Counts) {
    forall n :: n in recorded ==> At(counts, n) == |recorded[n]|
  }

  // ---------------------------------------------------------------- the loop

  lemma {:induction false} PickIsGreedy(recorded: Recorded, names: seq<string>, p: Policy, counts: Counts, t: nat)
    requires Within(recorded, counts) && forall n :: n in names <==> n in recorded
    ensures var available := Filter(names, HasNext(recorded, counts));
      if available == [] then Exhausted(recorded, counts)
      else Greedy(recorded, p, counts, t, First(available, ByScore(p, counts, t)))
  {
    var available := Filter(names, HasNext(recorded, counts));
    FilterExact(names, HasNext(recorded, counts));
    if available == [] {
      assert forall n :: n in recorded ==> n in names && !HasNext(recorded, counts)(n);
    } else {
      ByScoreIsPreorder(p, counts, t);
      FirstIsLeast(available, ByScore(p, counts, t));
    }
  }

  /** The sampling loop. */
  method Sample(recorded: Recorded, names: seq<string>, p: Policy, budget: nat)
    returns (counts: Counts, total: nat, ghost picks: seq<string>)
    requires Distinct(names) && forall n :: n in names <==> n in recorded
    requires Total(Lengths(recorded), names) <= budget
    ensures Run(recorded, names, p, picks) && counts == CountsAfter(recorded, picks) && total == |picks|
    ensures Exhausted(recorded, counts) || (picks != [] && StopNow(recorded, names, p, counts))
  {
    counts, total, picks := map n | n in recorded :: 0, 0, [];
    for t := 1 to budget + 1
      invariant total == |picks| == t - 1
      invariant Run(recorded, names, p, picks) && counts == CountsAfter(recorded, picks)
      invariant picks != [] ==> !StopNow(recorded, names, p, counts)
    {
      var more;
      more, counts, picks := ReadNext(recorded, names, p, counts, t, picks);
      if !more {
        return;
      }
      total := total + 1;
      if StopNow(recorded, names, p, counts) {
        return;
      }
    }
    RunWithin(recorded, names, p, picks);
    TotalReached(recorded, counts, names);
  }

  /** One step: read the next round of the best available name, if any name has one. */
  method ReadNext(recorded: Recorded, names: seq<string>, p: Policy, counts: Counts, t: nat, ghost picks: seq<string>)
    returns (more: bool, after: Counts, ghost longer: seq<string>)
    requires Run(recorded, names, p, picks) && Distinct(names) && forall n :: n in names <==> n in recorded
    requires counts == CountsAfter(recorded, picks) && t == |picks| + 1
    requires picks != [] ==> !StopNow(recorded, names, p, counts)
    ensures Run(recorded, names, p, longer) && after == CountsAfter(recorded, longer)
    ensures if more then |longer| == |picks| + 1 else longer == picks && Exhausted(recorded, after)
  {
    var available := Filter(names, HasNext(recorded, counts));
    StepExtends(recorded, names, p, picks);
    if available == [] {
      return false, counts, picks;
    }
    var pick := First(available, ByScore(p, counts, t));
    return true, counts[pick := At(counts, pick) + 1], picks + [pick];
  }

  /** The pick of a step extends the run; without one, nothing is left to read. */
  lemma {:induction false} StepExtends(recorded: Recorded, names: seq<string>, p: Policy, picks: seq<string>)
    requires Run(recorded, names, p, picks) && Distinct(names) && forall n :: n in names <==> n in recorded
    requires picks != [] ==> !StopNow(recorded, names, p, CountsAfter(recorded, picks))
    ensures var counts := CountsAfter(recorded, picks);
      var available := Filter(names, HasNext(recorded, counts));
      if available == [] then Exhausted(recorded, counts)
      else
        var pick := First(available, ByScore(p, counts, |picks| + 1));
        && Run(recorded, names, p, picks + [pick])
        && CountsAfter(recorded, picks + [pick]) == counts[pick := At(counts, pick) + 1]
  {
    var counts := CountsAfter(recorded, picks);
    var available := Filter(names, HasNext(recorded, counts));
    RunWithin(recorded, names, p, picks);
    PickIsGreedy(recorded, names, p, counts, |picks| + 1);
    if available != [] { RunExtends(recorded, names, p, picks, First(available, ByScore(p, counts, |picks| + 1))); }
  }

  lemma {:induction false} RunExtends(recorded: Recorded, names: seq<string>, p: Policy, picks: seq<string>, pick: string)
    requires Run(recorded, names, p, picks)
    requires Greedy(recorded, p, CountsAfter(recorded, picks), |picks| + 1, pick)
    requires picks != [] ==> !StopNow(recorded, names, p, CountsAfter(recorded, picks))
    ensures Run(recorded, names, p, picks + [pick])
    ensures var before := CountsAfter(recorded, picks);
      CountsAfter(recorded, picks + [pick]) == before[pick := At(before, pick) + 1]
  {
    var longer := picks + [pick];
    assert longer[..|picks|] == picks;
    forall i | 0 <= i < |longer| ensures StepOk(recorded, names, p, longer, i) {
      if i < |picks| {
        assert StepOk(recorded, names, p, picks, i);
        assert longer[..i] == picks[..i];
      }
    }
  }

  function AtLeast(p: Policy, counts: Counts): string -> bool {
    (n: string) => At(counts, n) >= p.minRounds
  }

  /** The run `picks` yields the result `r`. */
  ghost predicate Yields(cs: seq<Candidate>, p: Policy, picks: seq<string>, r: Outcome) {
    var recorded, names := ByName(cs), Names(cs);
    var counts := CountsAfter(recorded, picks);
    && Run(recorded, names, p, picks)
    && (Exhausted(recorded, counts) || (picks != [] && StopNow(recorded, names, p, counts)))
    && r.roundsConsumed == |picks| == Total(counts, names) <= Budget(cs)
    && Decided(recorded, names, p, counts, r)
  }

  /** `ucb1` and `thompson_sampling`: the result is that of a greedy run that reads only recorded rounds. */
  method Allocate(cs: seq<Candidate>, p: Policy) returns (r: Outcome)
    ensures exists picks :: Yields(cs, p, picks, r) && Within(ByName(cs), CountsAfter(ByName(cs), picks))
  {
    var recorded, names := ByName(cs), Names(cs);
    NamesExact(cs);
    BudgetCovers(cs);
    var counts, total;
    ghost var picks;
    counts, total, picks := Sample(recorded, names, p, Budget(cs));
    RunWithin(recorded, names, p, picks);
    TotalWithin(recorded, counts, names);
    r := Decide(recorded, names, p, counts, total);
    assert Yields(cs, p, picks, r);
  }

  /** `r` reports the names with enough rounds and the fastest of them. */
  ghost predicate Decided(recorded: Recorded, names: seq<string>, p: Policy, counts: Counts, r: Outcome) {
    && r.consumed == (map n | n in recorded && At(counts, n) >= p.minRounds :: Prefix(recorded, counts, n))
    && (r.conclusive <==> exists n :: n in r.consumed)
    && (if r.conclusive then FastestOf(recorded, counts, Filter(names, AtLeast(p, counts)), r.winner) else r.winner == "")
  }

  /** What both policies return once the loop has ended. */
  method Decide(recorded: Recorded, names: seq<string>, p: Policy, counts: Counts, total: nat) returns (r: Outcome)
    requires forall n :: n in names <==> n in recorded
    ensures Decided(recorded, names, p, counts, r) && r.roundsConsumed == total
  {
    var consumed := map n | n in recorded && At(counts, n) >= p.minRounds :: Prefix(recorded, counts, n);
    var eligible := Filter(names, AtLeast(p, counts));
    FilterExact(names, AtLeast(p, counts));
    if eligible == [] {
      return Outcome("", total, false, consumed);
    }
    assert eligible[0] in eligible;
    assert eligible[0] in consumed;
    ByMeanIsPreorder(recorded, counts);
    FirstIsLeast(eligible, ByMean(recorded, counts));
    return Outcome(First(eligible, ByMean(recorded, counts)), total, true, consumed);
  }

  // ---------------------------------------------------------------- early stopping

  /** Stopping by separation declares the one strictly fastest candidate. */
  lemma {:induction false} EarlyStopIsDecisive(recorded: Recorded, names: seq<string>, p: Policy, counts: Counts, n: string)
    requires Distinct(names) && p.sigma >= 0.0 && forall s :: p.spread(s) >= 0.0
    requires StopNow(recorded, names, p, counts) && |Ranking(recorded, counts, names)| >= 2
    requires n in names && n != Ranking(recorded, counts, names)[0]
    ensures var leader := Ranking(recorded, counts, names)[0];
      leader in names && !NoSlower(Prefix(recorded, counts, n), Prefix(recorded, counts, leader))
  {
    var ranked := Ranking(recorded, counts, names);
    RankingExact(recorded, counts, names);
    var a, b := Prefix(recorded, counts, ranked[0]), Prefix(recorded, counts, ranked[1]);
    assert ranked[0] in ranked;
    NonNegativeProduct(p.sigma, p.spread(a));
    NonNegativeProduct(p.sigma, p.spread(b));
    if n in ranked {
      var j :| 0 <= j < |ranked| && ranked[j] == n;
      if j > 1 { assert ByMean(recorded, counts)(ranked[1], ranked[j]); }
    } else {
      assert At(counts, n) == 0;
    }
  }

  lemma {:induction false} NonNegativeProduct(x: real, y: real)
    requires x >= 0.0 && y >= 0.0
    ensures x * y >= 0.0
  {
  }

  /** After one step at most one name is ranked. */
  lemma {:induction false} OneStepRanksOne(recorded: Recorded, names: seq<string>, pick: string)
    requires Distinct(names)
    ensures |Ranking(recorded, CountsAfter(recorded, [pick]), names)| <= 1
  {
    var counts, none := CountsAfter(recorded, [pick]), CountsAfter(recorded, []);
    assert [pick][..0] == [];
    assert counts == none[pick := At(none, pick) + 1];
    var ranked := Ranking(recorded, counts, names);
    RankingExact(recorded, counts, names);
    var members := set n | n in ranked;
    DistinctSize(ranked, members);
    forall n | n in members ensures n == pick { assert At(counts, n) > 0; }
    assert members == {} || members == {pick};
  }

  /** If every name has its floor after the first step, there is no second one. */
  lemma {:induction false} SecondStepFails(recorded: Recorded, names: seq<string>, p: Policy, picks: seq<string>)
    requires |picks| > 1 && Distinct(names)
    requires forall n :: n in names ==> At(CountsAfter(recorded, [picks[0]]), n) >= p.minRounds
    ensures !StepOk(recorded, names, p, picks, 1)
  {
    assert picks[..1] == [picks[0]];
    OneStepRanksOne(recorded, names, picks[0]);
    assert StopNow(recorded, names, p, CountsAfter(recorded, picks[..1]));
  }

  /** Without a positive round floor a run reads one round at most, however many candidates there are. */
  lemma {:induction false} NoFloorStopsAtOnce(recorded: Recorded, names: seq<string>, p: Policy, picks: seq<string>)
    requires Run(recorded, names, p, picks) && Distinct(names) && p.minRounds <= 0
    ensures |picks| <= 1
  {
    if |picks| > 1 { SecondStepFails(recorded, names, p, picks); }
  }

  /** With a positive floor and at least two candidates, only separation stops a run early. */
  lemma {:induction false} FloorNeedsSeparation(recorded: Recorded, names: seq<string>, p: Policy, counts: Counts)
    requires Distinct(names) && |names| >= 2 && p.minRounds >= 1
    requires StopNow(recorded, names, p, counts)
    ensures var ranked := Ranking(recorded, counts, names);
      |ranked| == |names| && Separated(recorded, p, counts, ranked[0], ranked[1])
  {
    var ranked := Ranking(recorded, counts, names);
    RankingExact(recorded, counts, names);
    var members := set n | n in names;
    DistinctSize(names, members);
    forall n | n in names ensures n in ranked { assert At(counts, n) >= p.minRounds; }
    DistinctSize(ranked, members);
  }

  /** The intervals of the two fastest sampled names do not overlap. */
  ghost predicate BySeparation(recorded: Recorded, names: seq<string>, p: Policy, counts: Counts) {
    var ranked := Ranking(recorded, counts, names);
    |ranked| >= 2 && Separated(recorded, p, counts, ranked[0], ranked[1])
  }

  /**
   A run that leaves rounds unread stopped by separation exactly when the round floor is positive
   and there are at least two candidates. In every other case it stopped without comparing any.
   */
  lemma {:induction false} EarlyStopIff(cs: seq<Candidate>, p: Policy, picks: seq<string>, r: Outcome)
    requires Yields(cs, p, picks, r) && !Exhausted(ByName(cs), CountsAfter(ByName(cs), picks))
    ensures BySeparation(ByName(cs), Names(cs), p, CountsAfter(ByName(cs), picks)) <==>
      p.minRounds >= 1 && |Names(cs)| >= 2
  {
    NamesExact(cs);
    StopIff(ByName(cs), Names(cs), p, picks);
  }

  lemma {:induction false} StopIff(recorded: Recorded, names: seq<string>, p: Policy, picks: seq<string>)
    requires Run(recorded, names, p, picks) && Distinct(names) && picks != []
    requires StopNow(recorded, names, p, CountsAfter(recorded, picks))
    ensures BySeparation(recorded, names, p, CountsAfter(recorded, picks)) <==> p.minRounds >= 1 && |names| >= 2
  {
    var counts := CountsAfter(recorded, picks);
    if p.minRounds <= 0 {
      NoFloorStopsAtOnce(recorded, names, p, picks);
      assert picks == [picks[0]];
      OneStepRanksOne(recorded, names, picks[0]);
    } else if |names| >= 2 {
      FloorNeedsSeparation(recorded, names, p, counts);
    } else {
      RankingFits(recorded, counts, names);
    }
  }

  // ---------------------------------------------------------------- a lone candidate

  /** One candidate with three rounds. */
  ghost function Lone(): seq<Candidate> { [Candidate("a", false, [1.0, 1.0, 1.0])] }

  lemma {:induction false} LoneIsRecorded()
    ensures Names(Lone()) == ["a"] && ByName(Lone()) == map["a" := [1.0, 1.0, 1.0]]
  {
    assert Lone()[..0] == [];
  }

  lemma {:induction false} LoneCounts(recorded: Recorded, pick: string)
    requires recorded == map["a" := [1.0, 1.0, 1.0]]
    ensures HasNext(recorded, CountsAfter(recorded, []))(pick) ==> CountsAfter(recorded, [pick]) == map["a" := 1]
  {
    assert [pick][..0] == [];
  }

  /** It stops after one of them, neither exhausted nor separated. */
  lemma {:induction false} LoneCandidateStops(p: Policy, picks: seq<string>, r: Outcome)
    requires p.minRounds <= 1 && Yields(Lone(), p, picks, r)
    ensures var recorded, counts := ByName(Lone()), CountsAfter(ByName(Lone()), picks);
      |picks| == 1 && !Exhausted(recorded, counts) && !BySeparation(recorded, Names(Lone()), p, counts)
  {
    LoneIsRecorded();
    LoneRun(ByName(Lone()), Names(Lone()), p, picks);
  }

  lemma {:induction false} LoneRun(recorded: Recorded, names: seq<string>, p: Policy, picks: seq<string>)
    requires p.minRounds <= 1 && names == ["a"] && recorded == map["a" := [1.0, 1.0, 1.0]]
    requires Run(recorded, names, p, picks)
    requires Exhausted(recorded, CountsAfter(recorded, picks)) || picks != []
    ensures var counts := CountsAfter(recorded, picks);
      |picks| == 1 && !Exhausted(recorded, counts) && !BySeparation(recorded, names, p, counts)
  {
    assert At(CountsAfter(recorded, []), "a") == 0;
    if picks != [] {
      assert StepOk(recorded, names, p, picks, 0);
      assert picks[..0] == [];
      LoneCounts(recorded, picks[0]);
      OneStepRanksOne(recorded, names, picks[0]);
      if |picks| > 1 {
        SecondStepFails(recorded, names, p, picks);
      } else {
        assert picks == [picks[0]];
      }
    }
  }

  // ---------------------------------------------------------------- the stopping test, name by name

  /** The name has consumed rounds, all of them recorded. */
  ghost predicate Measured(recorded: Recorded, counts: Counts, n: string) {
    n in recorded && 0 < At(counts, n) <= |recorded[n]|
  }

  ghost function MeanOf(recorded: Recorded, counts: Counts, n: string): real
    requires Measured(recorded, counts, n)
  {
    Mean(recorded[n][..At(counts, n)])
  }

  ghost function MarginOf(recorded: Recorded, p: Policy, counts: Counts, n: string): real
    requires Measured(recorded, counts, n)
  {
    p.sigma * p.spread(recorded[n][..At(counts, n)])
  }

  /** No measured name is faster than `l`, and none but `l` is faster than `r`. */
  ghost predicate FirstTwo(recorded: Recorded, counts: Counts, names: seq<string>, l: string, r: string) {
    && l in names && r in names && l != r && Measured(recorded, counts, l) && Measured(recorded, counts, r)
    && forall n :: n in names && Measured(recorded, counts, n) ==>
         MeanOf(recorded, counts, l) <= MeanOf(recorded, counts, n) &&
         (n != l ==> MeanOf(recorded, counts, r) <= MeanOf(recorded, counts, n))
  }

  ghost predicate FarApart(recorded: Recorded, p: Policy, counts: Counts, l: string, r: string)
    requires Measured(recorded, counts, l) && Measured(recorded, counts, r)
  {
    MeanOf(recorded, counts, l) + MarginOf(recorded, p, counts, l) <
      MeanOf(recorded, counts, r) - MarginOf(recorded, p, counts, r)
  }

  lemma {:induction false} RankedFirstTwo(recorded: Recorded, counts: Counts, names: seq<string>)
    requires Distinct(names) && Within(recorded, counts) && (forall n :: n in names <==> n in recorded)
    requires |Ranking(recorded, counts, names)| >= 2
    ensures var ranked := Ranking(recorded, counts, names); FirstTwo(recorded, counts, names, ranked[0], ranked[1])
  {
    var ranked := Ranking(recorded, counts, names);
    RankingExact(recorded, counts, names);
    assert ranked[0] in ranked && ranked[1] in ranked;
    forall n | n in names && Measured(recorded, counts, n)
      ensures MeanOf(recorded, counts, ranked[0]) <= MeanOf(recorded, counts, n)
      ensures n != ranked[0] ==> MeanOf(recorded, counts, ranked[1]) <= MeanOf(recorded, counts, n)
    {
      var j :| 0 <= j < |ranked| && ranked[j] == n;
      if j > 0 { assert ByMean(recorded, counts)(ranked[0], ranked[j]); }
      if j > 1 { assert ByMean(recorded, counts)(ranked[1], ranked[j]); }
    }
  }

  lemma {:induction false} SeparatedMeans(recorded: Recorded, p: Policy, counts: Counts, l: string, r: string)
    requires Measured(recorded, counts, l) && Measured(recorded, counts, r)
    ensures Separated(recorded, p, counts, l, r) <==> FarApart(recorded, p, counts, l, r)
  {
  }

  lemma {:induction false} FirstTwoAreRanked(recorded: Recorded, counts: Counts, names: seq<string>, l: string, r: string)
    requires Distinct(names) && FirstTwo(recorded, counts, names, l, r)
    ensures |Ranking(recorded, counts, names)| >= 2
  {
    var ranked := Ranking(recorded, counts, names);
    RankingExact(recorded, counts, names);
    assert l in ranked && r in ranked;
    var i, j :| 0 <= i < |ranked| && 0 <= j < |ranked| && ranked[i] == l && ranked[j] == r;
  }

  /** The loop stops only once every name has its floor and, of two measured names, the fastest are apart. */
  lemma {:induction false} StopsOnlyApart(recorded: Recorded, names: seq<string>, p: Policy, counts: Counts)
    returns (l: string, r: string)
    requires Distinct(names) && Within(recorded, counts) && forall n :: n in names <==> n in recorded
    requires StopNow(recorded, names, p, counts)
    ensures forall n :: n in names ==> At(counts, n) >= p.minRounds
    ensures (exists x, y :: FirstTwo(recorded, counts, names, x, y)) ==>
      FirstTwo(recorded, counts, names, l, r) && FarApart(recorded, p, counts, l, r)
  {
    var ranked := Ranking(recorded, counts, names);
    l, r := "", "";
    if x, y :| FirstTwo(recorded, counts, names, x, y) {
      FirstTwoAreRanked(recorded, counts, names, x, y);
      l, r := ranked[0], ranked[1];
      RankedFirstTwo(recorded, counts, names);
      SeparatedMeans(recorded, p, counts, l, r);
    }
  }

  /** It does stop then, whichever of the names tied for the first two places are compared. */
  lemma {:induction false} StopsWhenApart(recorded: Recorded, names: seq<string>, p: Policy, counts: Counts)
    requires Distinct(names) && Within(recorded, counts) && forall n :: n in names <==> n in recorded
    requires forall n :: n in names ==> At(counts, n) >= p.minRounds
    requires forall l, r :: FirstTwo(recorded, counts, names, l, r) ==> FarApart(recorded, p, counts, l, r)
    ensures StopNow(recorded, names, p, counts)
  {
    var ranked := Ranking(recorded, counts, names);
    if |ranked| >= 2 {
      RankedFirstTwo(recorded, counts, names);
      SeparatedMeans(recorded, p, counts, ranked[0], ranked[1]);
    }
  }
}
