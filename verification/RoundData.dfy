/**
 Recorded rounds of the finalists of a dispatch, and the counters that the
 allocation policies keep: tools/bigcherry/analysis/bandit_simulator.py.
 Timings are reals; the mean of no rounds is infinite, so it is compared and
 never computed.
 */
module RoundData {
  import opened Sorting
  import opened Sums

  datatype Candidate = Candidate(name: string, isNative: bool, rounds: seq<real>)

  /** `PolicyResult`; each of its means is the mean of the entry of `consumed`. */
  datatype Outcome = Outcome(winner: string, roundsConsumed: nat, conclusive: bool, consumed: map<string, seq<real>>)

  type Recorded = map<string, seq<real>>
  type Counts = map<string, nat>

  /** The keys of a dictionary built from `cs`, in insertion order. */
  function Names(cs: seq<Candidate>): seq<string> {
    if cs == [] then []
    else
      var n := |cs| - 1;
      var names := Names(cs[..n]);
      if cs[n].name in names then names else names + [cs[n].name]
  }

  /** `by_name`: the last candidate of each name. */
  function ByName(cs: seq<Candidate>): Recorded {
    if cs == [] then map[]
    else
      var n := |cs| - 1;
      ByName(cs[..n])[cs[n].name := cs[n].rounds]
  }

  function Natives(cs: seq<Candidate>): set<string> {
    set c | c in cs && c.isNative :: c.name
  }

  lemma {:induction false} NamesExact(cs: seq<Candidate>)
    ensures Distinct(Names(cs))
    ensures forall n :: n in Names(cs) <==> n in ByName(cs)
    ensures Names(cs) == [] <==> cs == []
  {
    if cs != [] { NamesExact(cs[..|cs| - 1]); }
  }

  lemma {:induction false} NativesAreNamed(cs: seq<Candidate>)
    ensures forall n :: n in Natives(cs) ==> n in Names(cs)
  {
    if cs != [] {
      var i := |cs| - 1;
      NativesAreNamed(cs[..i]);
      assert cs == cs[..i] + [cs[i]];
    }
  }

  // ---------------------------------------------------------------- counters

  function At(counts: Counts, n: string): nat { if n in counts then counts[n] else 0 }

  /** The sum of the counters of `names`. */
  function Total(counts: Counts, names: seq<string>): nat {
    if names == [] then 0
    else Total(counts, names[..|names| - 1]) + At(counts, names[|names| - 1])
  }

  lemma {:induction false} TotalUpdate(counts: Counts, names: seq<string>, n: string, v: nat)
    requires Distinct(names)
    ensures Total(counts[n := v], names) == Total(counts, names) + if n in names then v - At(counts, n) else 0
  {
    if names != [] {
      var i := |names| - 1;
      TotalUpdate(counts, names[..i], n, v);
      assert names == names[..i] + [names[i]];
      assert names[i] !in names[..i];
    }
  }

  /** No counter exceeds the rounds recorded for its candidate. */
  ghost predicate Within(recorded: Recorded, counts: Counts) {
    && counts.Keys == recorded.Keys
    && forall n :: n in recorded ==> counts[n] <= |recorded[n]|
  }

  function Lengths(recorded: Recorded): Counts { map n | n in recorded :: |recorded[n]| }

  lemma {:induction false} TotalWithin(recorded: Recorded, counts: Counts, names: seq<string>)
    requires Within(recorded, counts)
    ensures Total(counts, names) <= Total(Lengths(recorded), names)
  {
    if names != [] { TotalWithin(recorded, counts, names[..|names| - 1]); }
  }

  /** Once the total reaches the recorded total nothing is left. */
  lemma {:induction false} TotalReached(recorded: Recorded, counts: Counts, names: seq<string>)
    requires Within(recorded, counts) && Total(counts, names) >= Total(Lengths(recorded), names)
    ensures forall n :: n in names && n in recorded ==> counts[n] == |recorded[n]|
  {
    if names != [] {
      var i := |names| - 1;
      TotalWithin(recorded, counts, names[..i]);
      TotalReached(recorded, counts, names[..i]);
      assert names == names[..i] + [names[i]];
    }
  }

  /** `sum(len(c.rounds) for c in candidates)`. */
  function Budget(cs: seq<Candidate>): nat {
    if cs == [] then 0 else Budget(cs[..|cs| - 1]) + |cs[|cs| - 1].rounds|
  }

  lemma {:induction false} TotalAgrees(a: Counts, b: Counts, names: seq<string>)
    requires forall n :: n in names ==> At(a, n) == At(b, n)
    ensures Total(a, names) == Total(b, names)
  {
    if names != [] {
      assert names[|names| - 1] in names;
      TotalAgrees(a, b, names[..|names| - 1]);
    }
  }

  lemma {:induction false} TotalAppend(counts: Counts, names: seq<string>, n: string)
    ensures Total(counts, names + [n]) == Total(counts, names) + At(counts, n)
  {
    assert (names + [n])[..|names|] == names;
  }

  /** One more candidate adds at most its rounds. */
  lemma {:induction false} LengthsStep(rest: seq<Candidate>, c: Candidate)
    ensures Total(Lengths(ByName(rest)[c.name := c.rounds]), Names(rest))
         <= Total(Lengths(ByName(rest)), Names(rest)) + if c.name in Names(rest) then |c.rounds| else 0
  {
    NamesExact(rest);
    var before := Lengths(ByName(rest));
    assert Lengths(ByName(rest)[c.name := c.rounds]) == before[c.name := |c.rounds|];
    TotalUpdate(before, Names(rest), c.name, |c.rounds|);
  }

  lemma {:induction false} BudgetCovers(cs: seq<Candidate>)
    ensures Total(Lengths(ByName(cs)), Names(cs)) <= Budget(cs)
  {
    if cs != [] {
      var rest, c := cs[..|cs| - 1], cs[|cs| - 1];
      BudgetCovers(rest);
      LengthsStep(rest, c);
      if c.name !in Names(rest) { TotalAppend(Lengths(ByName(cs)), Names(rest), c.name); }
    }
  }

  // ---------------------------------------------------------------- means

  function Mean(s: seq<real>): real
    requires s != []
  {
    SumOf((x: real) => x, s) / |s| as real
  }

  function Off(m: real): real -> real { (x: real) => x - m }

  lemma {:induction false} OffSum(s: seq<real>, m: real)
    ensures SumOf(Off(m), s) == SumOf((x: real) => x, s) - |s| as real * m
  {
    if s != [] {
      OffSum(s[1..], m);
      assert |s| as real * m == |s[1..]| as real * m + m;
    }
  }

  /** The mean is the one value from which the deviations cancel. */
  lemma {:induction false} MeanBalances(s: seq<real>, m: real)
    requires s != []
    ensures SumOf(Off(m), s) == 0.0 <==> m == Mean(s)
  {
    OffSum(s, m);
    QuotientIs(SumOf((x: real) => x, s), |s| as real, m);
  }

  lemma {:induction false} QuotientIs(x: real, d: real, m: real)
    requires d > 0.0
    ensures x == d * m <==> m == x / d
  {
    var q := x / d;
    assert x == q * d && d * m == m * d;
    assert (m < q ==> (q - m) * d > 0.0) && (q < m ==> (m - q) * d > 0.0);
  }

  /** The mean of `a` is at most the mean of `b`, which is infinite when `b` is empty. */
  predicate NoSlower(a: seq<real>, b: seq<real>) {
    b == [] || (a != [] && Mean(a) <= Mean(b))
  }

  /** The first `counts[n]` rounds of `n`. */
  function Prefix(recorded: Recorded, counts: Counts, n: string): seq<real> {
    if n in recorded && At(counts, n) <= |recorded[n]| then recorded[n][..At(counts, n)] else []
  }

  function ByMean(recorded: Recorded, counts: Counts): (string, string) -> bool {
    (x: string, y: string) => NoSlower(Prefix(recorded, counts, x), Prefix(recorded, counts, y))
  }

  lemma {:induction false} ByMeanIsPreorder(recorded: Recorded, counts: Counts)
    ensures TotalPreorder(ByMean(recorded, counts))
  {
  }

  function Sampled(counts: Counts): string -> bool { (n: string) => At(counts, n) > 0 }

  /** Every name maps to the rounds of a candidate of that name. */
  lemma {:induction false} ByNameExact(cs: seq<Candidate>)
    ensures forall n :: n in ByName(cs) <==> exists c :: c in cs && c.name == n
    ensures forall n :: n in ByName(cs) ==> exists c :: c in cs && c.name == n && c.rounds == ByName(cs)[n]
  {
    if cs != [] {
      var i := |cs| - 1;
      ByNameExact(cs[..i]);
      assert cs == cs[..i] + [cs[i]];
      assert forall c :: c in cs <==> c in cs[..i] || c == cs[i];
    }
  }

  lemma {:induction false} ZeroTotal(counts: Counts, names: seq<string>)
    requires forall n :: n in counts ==> counts[n] == 0
    ensures Total(counts, names) == 0
  {
    if names != [] { ZeroTotal(counts, names[..|names| - 1]); }
  }

  /** The sampled names, fastest first. */
  function Ranking(recorded: Recorded, taken: Counts, names: seq<string>): seq<string> {
    SortBy(Filter(names, Sampled(taken)), ByMean(recorded, taken))
  }

  lemma {:induction false} RankingExact(recorded: Recorded, taken: Counts, names: seq<string>)
    requires Distinct(names)
    ensures var ranked := Ranking(recorded, taken, names);
      Distinct(ranked) && SortedBy(ranked, ByMean(recorded, taken)) &&
      forall n :: n in ranked <==> n in names && At(taken, n) > 0
  {
    var sampled, ranked := Filter(names, Sampled(taken)), Ranking(recorded, taken, names);
    FilterExact(names, Sampled(taken));
    ByMeanIsPreorder(recorded, taken);
    SortByCorrect(sampled, ByMean(recorded, taken));
    DistinctPermuted(sampled, ranked);
    SameElements(sampled, ranked);
  }

  lemma {:induction false} RankingFits(recorded: Recorded, counts: Counts, names: seq<string>)
    ensures |Ranking(recorded, counts, names)| <= |names|
  {
    ByMeanIsPreorder(recorded, counts);
    SortByCorrect(Filter(names, Sampled(counts)), ByMean(recorded, counts));
    FilterLength(names, Sampled(counts));
  }

  ghost predicate FastestOf(recorded: Recorded, counts: Counts, names: seq<string>, winner: string) {
    winner in names && forall n :: n in names ==> NoSlower(Prefix(recorded, counts, winner), Prefix(recorded, counts, n))
  }
}
