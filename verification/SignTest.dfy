/**
 The exact tests of tools/bigcherry/analysis/bandit_simulator.py: the one-sided binomial
 tail, the paired sign test that gates a promotion, and the two-sided McNemar p-value.
 Probabilities are exact rationals with denominator `2 ** n`.
 */
module SignTest {
  import opened Sums
  import opened Spans

  /** `math.comb(n, k)`, by Pascal's rule. */
  function Comb(n: nat, k: nat): nat {
    if k == 0 then 1
    else if n == 0 then 0
    else Comb(n - 1, k - 1) + Comb(n - 1, k)
  }

  /** `sum(math.comb(n, k) for k in range(lo, hi))`. */
  function CombSum(n: nat, lo: nat, hi: nat): nat
    decreases hi - lo
  {
    if lo >= hi then 0 else Comb(n, lo) + CombSum(n, lo + 1, hi)
  }

  /** The numerator of the upper tail. */
  function Tail(wins: nat, n: nat): nat { CombSum(n, wins, n + 1) }

  lemma {:induction false} CombOutside(n: nat, k: nat)
    ensures k > n ==> Comb(n, k) == 0
    ensures k <= n ==> Comb(n, k) >= 1
    ensures Comb(n, n) == 1
  {
    if n != 0 {
      CombOutside(n - 1, n - 1);
      CombOutside(n - 1, n);
      if k != 0 {
        CombOutside(n - 1, k - 1);
        CombOutside(n - 1, k);
      }
    }
  }

  lemma {:induction false} CombSymmetric(n: nat, k: nat)
    requires k <= n
    ensures Comb(n, k) == Comb(n, n - k)
  {
    CombOutside(n, k);
    if 0 < k < n {
      CombSymmetric(n - 1, k - 1);
      CombSymmetric(n - 1, k);
    }
  }

  lemma {:induction false} CombSumSplit(n: nat, lo: nat, mid: nat, hi: nat)
    requires lo <= mid <= hi
    ensures CombSum(n, lo, hi) == CombSum(n, lo, mid) + CombSum(n, mid, hi)
    decreases mid - lo
  {
    if lo < mid { CombSumSplit(n, lo + 1, mid, hi); }
  }

  lemma {:induction false} CombSumLast(n: nat, lo: nat, hi: nat)
    requires lo <= hi
    ensures CombSum(n, lo, hi + 1) == CombSum(n, lo, hi) + Comb(n, hi)
  {
    CombSumSplit(n, lo, hi, hi + 1);
    assert CombSum(n, hi, hi + 1) == Comb(n, hi) + CombSum(n, hi + 1, hi + 1);
  }

  /** A lower tail is the mirrored upper tail. */
  lemma {:induction false} LowerIsUpper(n: nat, k: nat)
    requires k <= n + 1
    ensures CombSum(n, 0, k) == CombSum(n, n + 1 - k, n + 1)
  {
    if k != 0 {
      LowerIsUpper(n, k - 1);
      CombSumLast(n, 0, k - 1);
      CombSymmetric(n, k - 1);
    }
  }

  /** Pascal's rule for a range. */
  lemma {:induction false} CombSumPascal(n: nat, lo: nat, hi: nat)
    requires lo <= hi
    ensures CombSum(n + 1, lo + 1, hi + 1) == CombSum(n, lo, hi) + CombSum(n, lo + 1, hi + 1)
    decreases hi - lo
  {
    if lo < hi { CombSumPascal(n, lo + 1, hi); }
  }

  /** Every outcome is counted once. */
  lemma {:induction false} TailAll(n: nat)
    ensures Tail(0, n) == Pow2(n)
  {
    if n == 0 {
      assert CombSum(0, 0, 1) == Comb(0, 0) + CombSum(0, 1, 1);
    } else {
      TailAll(n - 1);
      CombSumPascal(n - 1, 0, n);
      CombSumLast(n - 1, 1, n);
      CombOutside(n - 1, n);
      CombSumLast(n - 1, 0, n - 1);
      assert CombSum(n - 1, 0, n) == Comb(n - 1, 0) + CombSum(n - 1, 1, n);
    }
  }

  /** The tail and its mirror image make the whole. */
  lemma {:induction false} TailMirror(wins: nat, n: nat)
    requires wins <= n + 1
    ensures Tail(wins, n) + Tail(n + 1 - wins, n) == Pow2(n)
  {
    TailAll(n);
    CombSumSplit(n, 0, wins, n + 1);
    LowerIsUpper(n, wins);
  }

  /** More wins are strictly less likely by chance. */
  lemma {:induction false} TailAntitone(w: nat, w': nat, n: nat)
    requires w < w' && w <= n
    ensures Tail(w', n) < Tail(w, n)
    decreases w' - w
  {
    CombOutside(n, w);
    if w + 1 < w' && w + 1 <= n { TailAntitone(w + 1, w', n); }
  }

  // ------------------------------------------------------------------
  // What the tail counts

  /** Every win/loss record of `n` rounds. */
  ghost function Outcomes(n: nat): set<seq<bool>> {
    if n == 0 then {[]} else Prefixed(true, Outcomes(n - 1)) + Prefixed(false, Outcomes(n - 1))
  }

  ghost function Prefixed(b: bool, s: set<seq<bool>>): set<seq<bool>> {
    set r | r in s :: [b] + r
  }

  ghost function WinsIn(r: seq<bool>): nat {
    if r == [] then 0 else (if r[0] then 1 else 0) + WinsIn(r[1..])
  }

  ghost function AtLeast(wins: nat, n: nat): set<seq<bool>> {
    set r | r in Outcomes(n) && WinsIn(r) >= wins
  }

  lemma {:induction false} PrefixedMember(b: bool, s: set<seq<bool>>, r: seq<bool>)
    ensures r in Prefixed(b, s) <==> r != [] && r[0] == b && r[1..] in s
  {
    if r != [] && r[0] == b && r[1..] in s {
      assert r == [b] + r[1..];
    }
    if r in Prefixed(b, s) {
      var t :| t in s && r == [b] + t;
      assert r[1..] == t;
    }
  }

  lemma {:induction false} PrefixedSize(b: bool, s: set<seq<bool>>)
    ensures |Prefixed(b, s)| == |s|
    decreases s
  {
    if s != {} {
      var r :| r in s;
      PrefixedSize(b, s - {r});
      assert Prefixed(b, s) == Prefixed(b, s - {r}) + {[b] + r};
      PrefixedMember(b, s - {r}, [b] + r);
      assert ([b] + r)[1..] == r;
    }
  }

  lemma {:induction false} OutcomesAreRecords(n: nat, r: seq<bool>)
    ensures r in Outcomes(n) <==> |r| == n
  {
    if n != 0 {
      PrefixedMember(true, Outcomes(n - 1), r);
      PrefixedMember(false, Outcomes(n - 1), r);
      if r != [] { OutcomesAreRecords(n - 1, r[1..]); }
    }
  }

  lemma {:induction false} AtLeastSplit(wins: nat, n: nat)
    requires n >= 1
    ensures AtLeast(wins, n) ==
      Prefixed(true, AtLeast(if wins == 0 then 0 else wins - 1, n - 1)) + Prefixed(false, AtLeast(wins, n - 1))
  {
    var a, b := AtLeast(if wins == 0 then 0 else wins - 1, n - 1), AtLeast(wins, n - 1);
    forall r ensures r in AtLeast(wins, n) <==> r in Prefixed(true, a) + Prefixed(false, b) {
      PrefixedMember(true, Outcomes(n - 1), r);
      PrefixedMember(false, Outcomes(n - 1), r);
      PrefixedMember(true, a, r);
      PrefixedMember(false, b, r);
    }
  }

  lemma {:induction false} TailPascal(wins: nat, n: nat)
    requires n >= 1
    ensures Tail(wins, n) == Tail(if wins == 0 then 0 else wins - 1, n - 1) + Tail(wins, n - 1)
  {
    if wins == 0 {
      TailAll(n);
      TailAll(n - 1);
    } else if wins <= n {
      CombSumPascal(n - 1, wins - 1, n);
      CombSumLast(n - 1, wins, n);
      CombOutside(n - 1, n);
    }
  }

  lemma {:induction false} OutcomeCount(n: nat)
    ensures |Outcomes(n)| == Pow2(n)
  {
    if n != 0 {
      OutcomeCount(n - 1);
      HeadsSize(Outcomes(n - 1), Outcomes(n - 1));
    }
  }

  /**
   The tail is the number of equally likely records with at least `wins` wins: the p-value
   is the probability of such a record under a fair coin.
   */
  lemma {:induction false} TailCounts(wins: nat, n: nat)
    ensures |AtLeast(wins, n)| == Tail(wins, n)
  {
    if n == 0 {
      NoRounds(wins);
    } else {
      var w := if wins == 0 then 0 else wins - 1;
      TailCounts(w, n - 1);
      TailCounts(wins, n - 1);
      TailPascal(wins, n);
      AtLeastSize(wins, n);
    }
  }

  lemma {:induction false} AtLeastSize(wins: nat, n: nat)
    requires n >= 1
    ensures |AtLeast(wins, n)| == |AtLeast(if wins == 0 then 0 else wins - 1, n - 1)| + |AtLeast(wins, n - 1)|
  {
    AtLeastSplit(wins, n);
    HeadsSize(AtLeast(if wins == 0 then 0 else wins - 1, n - 1), AtLeast(wins, n - 1));
  }

  lemma {:induction false} NoRounds(wins: nat)
    ensures |AtLeast(wins, 0)| == Tail(wins, 0)
  {
    assert CombSum(0, 0, 1) == Comb(0, 0) + CombSum(0, 1, 1);
    assert AtLeast(wins, 0) == if wins == 0 then {[]} else {};
  }

  lemma {:induction false} HeadsSize(a: set<seq<bool>>, b: set<seq<bool>>)
    ensures |Prefixed(true, a) + Prefixed(false, b)| == |a| + |b|
  {
    PrefixedSize(true, a);
    PrefixedSize(false, b);
    HeadsDisjoint(a, b);
  }

  lemma {:induction false} HeadsDisjoint(a: set<seq<bool>>, b: set<seq<bool>>)
    ensures Prefixed(true, a) !! Prefixed(false, b)
  {
    forall r | r in Prefixed(true, a) ensures r !in Prefixed(false, b) {
      PrefixedMember(true, a, r);
      PrefixedMember(false, b, r);
    }
  }

  // ------------------------------------------------------------------
  // The p-values

  /** `count` of the `2 ** n` equally likely records. */
  function Probability(count: nat, n: nat): real {
    count as real / Pow2(n) as real
  }

  lemma {:induction false} ProbabilityHalf(count: nat, n: nat)
    ensures Probability(count, n) <= 0.5 <==> 2 * count <= Pow2(n)
    ensures Probability(count, n) >= 0.5 <==> 2 * count >= Pow2(n)
  {
    QuotientHalf(count as real, Pow2(n) as real);
  }

  lemma {:induction false} QuotientHalf(t: real, d: real)
    requires d > 0.0
    ensures t / d <= 0.5 <==> 2.0 * t <= d
    ensures t / d >= 0.5 <==> 2.0 * t >= d
  {
    var q := t / d;
    assert t == q * d;
  }

  /** `binomial_tail_ge`. */
  function BinomialTailGe(wins: nat, n: int): real {
    if n <= 0 then 1.0 else Probability(Tail(wins, n), n)
  }

  /** The tail and its mirror image sum to one. */
  lemma {:induction false} TailsSumToOne(wins: nat, n: nat)
    requires 1 <= wins <= n
    ensures BinomialTailGe(wins, n) + BinomialTailGe(n + 1 - wins, n) == 1.0
  {
    TailMirror(wins, n);
    QuotientsSum(Tail(wins, n) as real, Tail(n + 1 - wins, n) as real, Pow2(n) as real);
  }

  lemma {:induction false} QuotientsSum(a: real, b: real, d: real)
    requires d > 0.0 && a + b == d
    ensures a / d + b / d == 1.0
  {
    assert a / d + b / d == (a + b) / d == d / d;
  }

  /** `_exact_mcnemar_p`. */
  function ExactMcnemarP(k: nat, n: nat): real {
    if n == 0 then 1.0 else Min(1.0, 2.0 * Probability(CombSum(n, 0, k + 1), n))
  }

  function Min(a: real, b: real): real { if b < a then b else a }

  /** The two-sided p-value is the doubled one-sided tail of the larger side. */
  lemma {:induction false} McnemarIsDoubledTail(k: nat, n: nat)
    requires k <= n
    ensures ExactMcnemarP(k, n) == Min(1.0, 2.0 * BinomialTailGe(n - k, n))
  {
    if n != 0 { LowerIsUpper(n, k + 1); }
  }

  /** An even split of the discordant pairs is no evidence at all. */
  lemma {:induction false} McnemarEvenSplit(k: nat, n: nat)
    requires k <= n <= 2 * k + 1
    ensures ExactMcnemarP(k, n) == 1.0
  {
    if n != 0 {
      McnemarIsDoubledTail(k, n);
      TailMirror(n - k, n);
      if n - k < k + 1 { TailAntitone(n - k, k + 1, n); }
      ProbabilityHalf(Tail(n - k, n), n);
    }
  }

  // ------------------------------------------------------------------
  // The paired sign test

  /** Rounds, among the first `m`, in which the challenger was strictly faster. */
  ghost function Wins(native: seq<real>, challenger: seq<real>, m: nat): nat
    requires m <= |native| && m <= |challenger|
  {
    if m == 0 then 0
    else Wins(native, challenger, m - 1) + if challenger[m - 1] < native[m - 1] then 1 else 0
  }

  /** Rounds, among the first `m`, that were not ties. */
  ghost function Decided(native: seq<real>, challenger: seq<real>, m: nat): nat
    requires m <= |native| && m <= |challenger|
  {
    if m == 0 then 0
    else Decided(native, challenger, m - 1) + if challenger[m - 1] != native[m - 1] then 1 else 0
  }

  function Paired(a: seq<real>, b: seq<real>): nat { if |a| < |b| then |a| else |b| }

  ghost function SignTestP(native: seq<real>, challenger: seq<real>, minRounds: int): real {
    var m := Paired(native, challenger);
    var n := Decided(native, challenger, m);
    if n < minRounds then 1.0 else BinomialTailGe(Wins(native, challenger, m), n)
  }

  /** The rounds before `m` in which the challenger was faster than native. */
  ghost function FasterBefore(native: seq<real>, challenger: seq<real>, m: nat): set<int>
    requires m <= |native| && m <= |challenger|
  {
    set r | 0 <= r < m && challenger[r] < native[r]
  }

  /** The rounds before `m` in which the two differ. */
  ghost function DifferentBefore(native: seq<real>, challenger: seq<real>, m: nat): set<int>
    requires m <= |native| && m <= |challenger|
  {
    set r | 0 <= r < m && challenger[r] != native[r]
  }

  /** The same over all the rounds that both sides have. */
  ghost function Faster(native: seq<real>, challenger: seq<real>): set<int> {
    FasterBefore(native, challenger, if |native| <= |challenger| then |native| else |challenger|)
  }

  ghost function Different(native: seq<real>, challenger: seq<real>): set<int> {
    DifferentBefore(native, challenger, if |native| <= |challenger| then |native| else |challenger|)
  }

  lemma {:induction false} WinsAreFaster(native: seq<real>, challenger: seq<real>, m: nat)
    requires m <= |native| && m <= |challenger|
    ensures Wins(native, challenger, m) == |FasterBefore(native, challenger, m)|
  {
    if m != 0 {
      var k := m - 1;
      WinsAreFaster(native, challenger, k);
      var before := FasterBefore(native, challenger, k);
      assert k !in before;
      assert FasterBefore(native, challenger, m) == if challenger[k] < native[k] then before + {k} else before;
    }
  }

  lemma {:induction false} DecidedAreDifferent(native: seq<real>, challenger: seq<real>, m: nat)
    requires m <= |native| && m <= |challenger|
    ensures Decided(native, challenger, m) == |DifferentBefore(native, challenger, m)|
  {
    if m != 0 {
      var k := m - 1;
      DecidedAreDifferent(native, challenger, k);
      var before := DifferentBefore(native, challenger, k);
      assert k !in before;
      assert DifferentBefore(native, challenger, m) == if challenger[k] != native[k] then before + {k} else before;
    }
  }

  lemma {:induction false} CountsAreSizes(native: seq<real>, challenger: seq<real>)
    ensures Wins(native, challenger, Paired(native, challenger)) == |Faster(native, challenger)|
    ensures Decided(native, challenger, Paired(native, challenger)) == |Different(native, challenger)|
  {
    WinsAreFaster(native, challenger, Paired(native, challenger));
    DecidedAreDifferent(native, challenger, Paired(native, challenger));
  }

  /** `paired_sign_test`. */
  method PairedSignTest(native: seq<real>, challenger: seq<real>, minRounds: int)
    returns (p: real, wins: nat, n: nat)
    ensures wins == |Faster(native, challenger)| && n == |Different(native, challenger)|
    ensures wins == Wins(native, challenger, Paired(native, challenger))
    ensures n == Decided(native, challenger, Paired(native, challenger))
    ensures p == SignTestP(native, challenger, minRounds)
  {
    CountsAreSizes(native, challenger);
    wins, n := 0, 0;
    for r := 0 to Paired(native, challenger)
      invariant wins == Wins(native, challenger, r) && n == Decided(native, challenger, r)
    {
      var a, b := native[r], challenger[r];
      if a == b {
        continue;
      }
      if b < a {
        wins := wins + 1;
      }
      n := n + 1;
    }
    if n < minRounds {
      return 1.0, wins, n;
    }
    return BinomialTailGe(wins, n), wins, n;
  }

  /** Each decided round is won by exactly one side. */
  lemma {:induction false} WinsOfBothSides(a: seq<real>, b: seq<real>, m: nat)
    requires m <= |a| && m <= |b|
    ensures Wins(a, b, m) + Wins(b, a, m) == Decided(a, b, m) == Decided(b, a, m)
  {
    if m != 0 { WinsOfBothSides(a, b, m - 1); }
  }

  /** At any level up to one half, significance takes a strict majority of the decided rounds. */
  lemma {:induction false} SignificantNeedsMajority(native: seq<real>, challenger: seq<real>, minRounds: int)
    requires SignTestP(native, challenger, minRounds) <= 0.5
    ensures var m := Paired(native, challenger);
      2 * Wins(native, challenger, m) > Decided(native, challenger, m) >= 1
  {
    var m := Paired(native, challenger);
    var w, n := Wins(native, challenger, m), Decided(native, challenger, m);
    WinsOfBothSides(native, challenger, m);
    ProbabilityHalf(Tail(w, n), n);
    TailMirror(w, n);
    if 2 * w <= n { TailAntitone(w, n + 1 - w, n); }
  }

  /** No two round sequences are significant in both directions. */
  lemma {:induction false} NeverBothSignificant(a: seq<real>, b: seq<real>, minRounds: int, minRounds': int, alpha: real)
    requires alpha <= 0.5
    ensures !(SignTestP(a, b, minRounds) <= alpha && SignTestP(b, a, minRounds') <= alpha)
  {
    if SignTestP(a, b, minRounds) <= alpha && SignTestP(b, a, minRounds') <= alpha {
      WinsOfBothSides(a, b, Paired(a, b));
      SignificantNeedsMajority(a, b, minRounds);
      SignificantNeedsMajority(b, a, minRounds');
    }
  }

  // ------------------------------------------------------------------
  // declared_promotion

  datatype PolicyResult = PolicyResult(winner: string, conclusive: bool, means: map<string, real>,
                                       consumedRounds: map<string, seq<real>>)

  ghost function RoundsOf(r: PolicyResult, name: string): seq<real> {
    if name in r.consumedRounds then r.consumedRounds[name] else []
  }

  /** `declared_promotion`: native is kept unless effect size and consistency both say otherwise. */
  ghost function DeclaredPromotion(r: PolicyResult, native: string, thresholdPct: real, alpha: real, minPaired: int): string {
    if !r.conclusive || r.winner == "" || native !in r.means then native
    else if r.winner == native then native
    else if r.winner !in r.means || r.means[native] <= 0.0 then native
    else if 100.0 * (r.means[native] - r.means[r.winner]) / r.means[native] < thresholdPct then native
    else if SignTestP(RoundsOf(r, native), RoundsOf(r, r.winner), minPaired) <= alpha then r.winner
    else native
  }

  /** A promotion at a level up to one half won most of its decided rounds and a faster mean. */
  lemma {:induction false} PromotionIsEarned(r: PolicyResult, native: string, thresholdPct: real, alpha: real, minPaired: int)
    requires alpha <= 0.5 && thresholdPct >= 0.0
    requires DeclaredPromotion(r, native, thresholdPct, alpha, minPaired) != native
    ensures r.winner in r.means && native in r.means && r.means[r.winner] <= r.means[native]
    ensures var a, b := RoundsOf(r, native), RoundsOf(r, r.winner);
      2 * Wins(a, b, Paired(a, b)) > Decided(a, b, Paired(a, b)) >= 1
  {
    SignificantNeedsMajority(RoundsOf(r, native), RoundsOf(r, r.winner), minPaired);
    var saved, base := 100.0 * (r.means[native] - r.means[r.winner]), r.means[native];
    assert saved / base >= 0.0;
    assert saved == saved / base * base;
  }

  /** The same evidence never promotes each of two candidates over the other. */
  lemma {:induction false} PromotionIsOneWay(r: PolicyResult, a: string, b: string, thresholdPct: real, alpha: real, minPaired: int)
    requires alpha <= 0.5 && a != b
    ensures !(DeclaredPromotion(r.(winner := b), a, thresholdPct, alpha, minPaired) == b &&
              DeclaredPromotion(r.(winner := a), b, thresholdPct, alpha, minPaired) == a)
  {
    NeverBothSignificant(RoundsOf(r, a), RoundsOf(r, b), minPaired, minPaired, alpha);
  }

  // ------------------------------------------------------------------
  // What the p-value says of the rounds

  /** The share of the equally likely records that win at least as often; one below the round floor. */
  lemma {:induction false} SignTestMeans(native: seq<real>, challenger: seq<real>, minRounds: int)
    ensures var n, wins := |Different(native, challenger)|, |Faster(native, challenger)|;
      SignTestP(native, challenger, minRounds) ==
      if n < minRounds || n == 0 then 1.0 else |AtLeast(wins, n)| as real / Pow2(n) as real
  {
    CountsAreSizes(native, challenger);
    TailCounts(|Faster(native, challenger)|, |Different(native, challenger)|);
  }

  lemma {:induction false} LastTail(n: nat)
    ensures Tail(n, n) == 1
  {
    CombOutside(n, n);
    assert CombSum(n, n, n + 1) == Comb(n, n) + CombSum(n, n + 1, n + 1);
  }

  /** A challenger faster in each of the n common rounds gets 1 / 2^n. */
  lemma {:induction false} AlwaysFaster(native: seq<real>, challenger: seq<real>, minRounds: int, n: nat)
    requires n == if |native| <= |challenger| then |native| else |challenger|
    requires n >= 1 && n >= minRounds && forall r :: 0 <= r < n ==> challenger[r] < native[r]
    ensures SignTestP(native, challenger, minRounds) == 1.0 / Pow2(n) as real
  {
    CountsAreSizes(native, challenger);
    assert Faster(native, challenger) == Span(0, n) == Different(native, challenger);
    LastTail(n);
  }

  /** One that is never faster gets 1. */
  lemma {:induction false} NeverFaster(native: seq<real>, challenger: seq<real>, minRounds: int)
    requires forall r :: 0 <= r < |native| && r < |challenger| ==> challenger[r] >= native[r]
    ensures SignTestP(native, challenger, minRounds) == 1.0
  {
    CountsAreSizes(native, challenger);
    assert Faster(native, challenger) == {};
    var n := |Different(native, challenger)|;
    TailAll(n);
    WholeShare(Pow2(n) as real);
  }

  lemma {:induction false} WholeShare(x: real)
    requires x > 0.0
    ensures x / x == 1.0
  {
  }

  /** A candidate is promoted exactly when it passes both gates. */
  lemma {:induction false} PromotionIff(r: PolicyResult, native: string, thresholdPct: real, alpha: real, minPaired: int)
    ensures DeclaredPromotion(r, native, thresholdPct, alpha, minPaired) != native <==>
      && r.conclusive && r.winner != "" && r.winner != native
      && native in r.means && r.winner in r.means && r.means[native] > 0.0
      && 100.0 * (r.means[native] - r.means[r.winner]) >= thresholdPct * r.means[native]
      && SignTestP(RoundsOf(r, native), RoundsOf(r, r.winner), minPaired) <= alpha
    ensures DeclaredPromotion(r, native, thresholdPct, alpha, minPaired) in {native, r.winner}
  {
    if native in r.means && r.winner in r.means && r.means[native] > 0.0 {
      QuotientAtLeast(100.0 * (r.means[native] - r.means[r.winner]), r.means[native], thresholdPct);
    }
  }

  lemma {:induction false} QuotientAtLeast(x: real, d: real, t: real)
    requires d > 0.0
    ensures x / d >= t <==> x >= t * d
  {
    var q := x / d;
    assert x == q * d;
    assert (q >= t ==> (q - t) * d >= 0.0) && (q < t ==> (t - q) * d > 0.0);
  }
}
