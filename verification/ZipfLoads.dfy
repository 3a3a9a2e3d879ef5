/**
 When the zipf mode of tools/bigcherry/moe_routing_gen.py realises its target: a condition
 on the weights, and the default request, which does not meet it.
 */
module ZipfLoads {
  import opened Sums
  import opened Routing
  import opened RoutingModes

  lemma {:induction false} FloorsSum(share: nat -> real, n: nat, nExperts: nat)
    requires n <= nExperts
    ensures var given := Sum(FloorsOf(share, n, nExperts)) as real;
      given <= Prefix(share, n) && (n >= 1 && share(0) != share(0).Floor as real ==> given < Prefix(share, n))
  {
    if n == 0 {
      SumOfZeros(FloorsOf(share, 0, nExperts));
    } else {
      FloorsSum(share, n - 1, nExperts);
      var before := FloorsOf(share, n - 1, nExperts);
      assert FloorsOf(share, n, nExperts) == before[n - 1 := share(n - 1).Floor];
      SumUpdate(before, n - 1, share(n - 1).Floor);
    }
  }

  /** Nothing is left over after the floors: every share is a whole number. */
  ghost predicate NoRemainder(weight: nat -> real, nExperts: nat, total: nat)
    requires nExperts >= 1 && forall i: nat :: weight(i) > 0.0
  {
    Sum(FloorsOf(ZipfShares(weight, nExperts, total), nExperts, nExperts)) == total
  }

  /** The heaviest load, read off its exact share. */
  lemma {:induction false} FirstLoad(weight: nat -> real, nExperts: nat, total: nat, nTokens: nat)
    requires nExperts >= 1 && forall i: nat :: weight(i) > 0.0
    ensures var share := ZipfShares(weight, nExperts, total)(0);
      ZipfTarget(weight, nExperts, nExperts, total)[0] <= nTokens <==>
      (share < nTokens as real || (share == nTokens as real && NoRemainder(weight, nExperts, total)))
  {
    var share := ZipfShares(weight, nExperts, total);
    PrefixPositive(weight, nExperts);
    SharesTotal(weight, Prefix(weight, nExperts), total, nExperts);
    FloorsSum(share, nExperts, nExperts);
  }

  lemma {:induction false} ShareAgainstTokens(w: real, sumW: real, topK: nat, nTokens: nat)
    requires sumW > 0.0 && nTokens >= 1
    ensures var share := w / sumW * (nTokens * topK) as real;
      && (share < nTokens as real <==> topK as real * w < sumW)
      && (share == nTokens as real <==> topK as real * w == sumW)
  {
    var q, n, k := w / sumW, nTokens as real, topK as real;
    assert (nTokens * topK) as real == n * k;
    assert q * (n * k) == n * (q * k);
    assert k * w == (q * k) * sumW;
    CancelFactor(n, q * k, 1.0);
    CancelFactor(sumW, q * k, 1.0);
  }

  lemma {:induction false} CancelFactor(c: real, x: real, y: real)
    requires c > 0.0
    ensures (c * x < c * y <==> x < y) && (c * x == c * y <==> x == y)
  {
    assert x < y ==> c * (y - x) > 0.0;
    assert x > y ==> c * (x - y) > 0.0;
  }

  /** The first share, against one slot per token. */
  lemma {:induction false} FirstShare(weight: nat -> real, nExperts: nat, topK: nat, nTokens: nat)
    requires nExperts >= 1 && nTokens >= 1 && forall i: nat :: weight(i) > 0.0
    ensures var share := ZipfShares(weight, nExperts, nTokens * topK)(0);
      && (share < nTokens as real <==> Light(weight, nExperts, topK))
      && (share == nTokens as real <==> Balanced(weight, nExperts, topK))
  {
    PrefixPositive(weight, nExperts);
    ShareAgainstTokens(weight(0), Prefix(weight, nExperts), topK, nTokens);
  }

  /** The first weight's part of `topK` tables is less than one table. */
  ghost predicate Light(weight: nat -> real, nExperts: nat, topK: nat) {
    topK as real * weight(0) < Prefix(weight, nExperts)
  }

  ghost predicate Balanced(weight: nat -> real, nExperts: nat, topK: nat) {
    topK as real * weight(0) == Prefix(weight, nExperts)
  }

  /** The heaviest load, read off the weights. */
  lemma {:induction false} FirstLoadByWeight(weight: nat -> real, nExperts: nat, topK: nat, nTokens: nat)
    requires nExperts >= 1 && nTokens >= 1 && forall i: nat :: weight(i) > 0.0
    ensures ZipfTarget(weight, nExperts, nExperts, nTokens * topK)[0] <= nTokens <==>
      (Light(weight, nExperts, topK) ||
       (Balanced(weight, nExperts, topK) && NoRemainder(weight, nExperts, nTokens * topK)))
  {
    FirstLoad(weight, nExperts, nTokens * topK, nTokens);
    FirstShare(weight, nExperts, topK, nTokens);
  }

  /**
   For weights that do not increase with rank, the table realises the zipf target exactly when
   top_k times the first weight is less than the sum of the weights, or equal to it with every
   share a whole number. The number of tokens matters only in the equal case.
   */
  lemma {:induction false} ZipfRealisedIff(weight: nat -> real, nExperts: nat, topK: nat, nTokens: nat, r: RoutingResult)
    requires 1 <= topK <= nExperts && nTokens >= 1 && Decreasing(weight) && forall i: nat :: weight(i) > 0.0
    requires WellRouted(r.ids, nExperts, topK, nTokens) && MeetsMode(Zipf(weight), nExperts, topK, nTokens, r)
    ensures Realises(r.ids, ZipfTarget(weight, nExperts, nExperts, nTokens * topK)) <==>
      (Light(weight, nExperts, topK) ||
       (Balanced(weight, nExperts, topK) && NoRemainder(weight, nExperts, nTokens * topK)))
  {
    FirstLoadByWeight(weight, nExperts, topK, nTokens);
  }

  // ------------------------------------------------------------------
  // The default request

  /** The weights of `alpha = 1`. */
  function Harmonic(): nat -> real { (i: nat) => 1.0 / (i + 1) as real }

  lemma {:induction false} HarmonicDecreases()
    ensures Decreasing(Harmonic()) && forall i: nat :: Harmonic()(i) > 0.0
  {
    forall i: nat, j: nat | i < j ensures Harmonic()(i) >= Harmonic()(j) {
      Reciprocal((i + 1) as real, (j + 1) as real);
    }
    forall i: nat ensures Harmonic()(i) > 0.0 { Reciprocal((i + 1) as real, (i + 1) as real); }
  }

  lemma {:induction false} Reciprocal(x: real, y: real)
    requires 0.0 < x <= y
    ensures 0.0 < 1.0 / y <= 1.0 / x
  {
  }

  /** `n` more terms after the first `n` add less than `n / (n + 1)`. */
  lemma {:induction false} HarmonicDoubles(n: nat, k: nat)
    requires n >= 1
    ensures Prefix(Harmonic(), n + k) <= Prefix(Harmonic(), n) + k as real * (1.0 / (n + 1) as real)
  {
    if k != 0 {
      HarmonicDoubles(n, k - 1);
      Reciprocal((n + 1) as real, (n + k) as real);
      var c := 1.0 / (n + 1) as real;
      assert k as real * c == (k - 1) as real * c + c;
    }
  }

  lemma {:induction false} Doubling(n: nat, bound: real, more: real)
    requires n >= 1 && Prefix(Harmonic(), n) <= bound && n as real * (1.0 / (n + 1) as real) <= more
    ensures Prefix(Harmonic(), 2 * n) <= bound + more
  {
    HarmonicDoubles(n, n);
  }

  lemma {:induction false} FourTerms(n: nat)
    requires n == 4
    ensures Prefix(Harmonic(), n) <= 2.1
  {
    assert Prefix(Harmonic(), n - 4) == 0.0;
    assert Prefix(Harmonic(), n - 3) == 1.0;
    assert Prefix(Harmonic(), n - 2) == 1.0 + 1.0 / 2.0;
    assert Prefix(Harmonic(), n - 1) == 1.0 + 1.0 / 2.0 + 1.0 / 3.0;
  }

  lemma {:induction false} HarmonicBelowEight(n: nat)
    requires n == 4
    ensures Prefix(Harmonic(), 64 * n) < 8.0
  {
    FourTerms(n);
    Doubling(n, 2.1, 0.8);
    Doubling(2 * n, 2.9, 0.9);
    Doubling(4 * n, 3.8, 0.95);
    Doubling(8 * n, 4.75, 1.0);
    Doubling(16 * n, 5.75, 1.0);
    Doubling(32 * n, 6.75, 1.0);
  }

  lemma {:induction false} DefaultIsHeavy(nExperts: nat, topK: nat)
    requires nExperts == 256 && topK == 8
    ensures !Light(Harmonic(), nExperts, topK) && !Balanced(Harmonic(), nExperts, topK)
  {
    HarmonicBelowEight(nExperts / 64);
    assert Harmonic()(0) == 1.0;
  }

  /**
   The default shape and exponent (256 experts, top 8, alpha 1) is never realised, whatever the
   number of tokens and whatever the table: expert 0 is asked for more than one slot per token.
   */
  lemma {:induction false} DefaultZipfIsNotRealised(nExperts: nat, topK: nat, nTokens: nat, ids: seq<nat>)
    requires nExperts == 256 && topK == 8 && nTokens >= 1 && WellRouted(ids, nExperts, topK, nTokens)
    ensures (forall i: nat :: Harmonic()(i) > 0.0) &&
      !Realises(ids, ZipfTarget(Harmonic(), nExperts, nExperts, nTokens * topK))
  {
    HarmonicDecreases();
    DefaultIsHeavy(nExperts, topK);
    FirstLoadByWeight(Harmonic(), nExperts, topK, nTokens);
    LoadAtMostTokens(ids, nExperts, topK, nTokens, 0);
  }
}
