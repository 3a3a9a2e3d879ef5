/**
 What mid-ranks keep of the values, and the range and symmetry of Spearman's
 correlation: tools/bigcherry/analysis/compare_tunes.py.
 */
module Spearman {
  import opened Wrappers
  import opened Sorting
  import opened Strings
  import opened Spans
  import opened Sums
  import opened MidRanks

  // ---------------------------------------------------------------- order

  /** Ranks compare exactly as the values do: strict order and ties both ways. */
  lemma {:induction false} RanksKeepOrder(values: Table, x: string, y: string)
    requires x in values && y in values
    ensures MidRank(values, x) < MidRank(values, y) <==> values[x] < values[y]
    ensures MidRank(values, x) == MidRank(values, y) <==> values[x] == values[y]
  {
    if values[x] < values[y] {
      StrictlyBelow(values, x, y);
    } else if values[y] < values[x] {
      StrictlyBelow(values, y, x);
    } else {
      assert Below(values, x) == Below(values, y) && Tied(values, x) == Tied(values, y);
    }
  }

  lemma {:induction false} StrictlyBelow(values: Table, x: string, y: string)
    requires x in values && y in values && values[x] < values[y]
    ensures MidRank(values, x) < MidRank(values, y)
  {
    assert Below(values, x) !! Tied(values, x);
    assert Below(values, x) + Tied(values, x) <= Below(values, y);
    SubsetSize(Below(values, x) + Tied(values, x), Below(values, y));
    assert x in Tied(values, x) && y in Tied(values, y);
    assert |Tied(values, x)| >= 1 && |Tied(values, y)| >= 1;
  }

  ghost predicate SameOrder(u: Table, v: Table) {
    && u.Keys == v.Keys
    && forall x, y :: x in u && y in u ==> (u[x] < u[y] <==> v[x] < v[y])
  }

  ghost predicate OppositeOrder(u: Table, v: Table) {
    && u.Keys == v.Keys
    && forall x, y :: x in u && y in u ==> (u[x] < u[y] <==> v[y] < v[x])
  }

  /** Only the order of the values matters. */
  lemma {:induction false} RanksDependOnOrder(u: Table, v: Table)
    requires SameOrder(u, v)
    ensures Ranks(u) == Ranks(v)
  {
    forall k | k in u ensures MidRank(u, k) == MidRank(v, k) {
      assert Below(u, k) == Below(v, k);
      assert Tied(u, k) == Tied(v, k) by {
        forall x | x in u ensures u[x] == u[k] <==> v[x] == v[k] {
          assert (u[x] < u[k] <==> v[x] < v[k]) && (u[k] < u[x] <==> v[k] < v[x]);
        }
      }
    }
  }

  function Rescaled(h: real -> real, values: Table): Table {
    map k | k in values :: h(values[k])
  }

  lemma {:induction false} RanksIgnoreRescaling(values: Table, h: real -> real)
    requires forall x, y :: x < y ==> h(x) < h(y)
    ensures Ranks(Rescaled(h, values)) == Ranks(values)
  {
    var v := Rescaled(h, values);
    forall x, y | x in values && y in values ensures values[x] < values[y] <==> v[x] < v[y] {
      assert values[x] < values[y] ==> h(values[x]) < h(values[y]);
      assert values[y] < values[x] ==> h(values[y]) < h(values[x]);
    }
    RanksDependOnOrder(values, v);
  }

  /** Reversing the order mirrors the ranks. */
  lemma {:induction false} RanksMirrored(u: Table, v: Table, k: string)
    requires OppositeOrder(u, v) && k in u
    ensures MidRank(v, k) == (|u| + 1) as real - MidRank(u, k)
  {
    forall x | x in u ensures u[x] == u[k] <==> v[x] == v[k] {
      assert (u[x] < u[k] <==> v[k] < v[x]) && (u[k] < u[x] <==> v[x] < v[k]);
    }
    assert Tied(u, k) == Tied(v, k);
    assert Below(v, k) == u.Keys - (Below(u, k) + Tied(u, k));
    assert Below(u, k) !! Tied(u, k) && Below(u, k) + Tied(u, k) <= u.Keys;
    assert |Below(u, k) + Tied(u, k)| == |Below(u, k)| + |Tied(u, k)|;
  }

  // ---------------------------------------------------------------- the sum of the ranks

  /** How much `x` contributes to the rank of `k`. */
  function Against(values: Table, x: string, k: string): real {
    if x !in values || k !in values then 0.0
    else if values[x] < values[k] then 1.0
    else if values[x] == values[k] then 0.5
    else 0.0
  }

  function AgainstAll(values: Table, k: string): string -> real {
    (x: string) => Against(values, x, k)
  }

  function AgainstEach(values: Table, x: string): string -> real {
    (k: string) => Against(values, x, k)
  }

  function Contributions(values: Table, others: seq<string>): string -> real {
    (k: string) => SumOf(AgainstAll(values, k), others)
  }

  lemma {:induction false} ContributionSplits(values: Table, x: string, rest: seq<string>, ks: seq<string>)
    ensures SumOf(Contributions(values, [x] + rest), ks)
         == SumOf(AgainstEach(values, x), ks) + SumOf(Contributions(values, rest), ks)
  {
    if ks != [] {
      assert ([x] + rest)[1..] == rest;
      ContributionSplits(values, x, rest, ks[1..]);
    }
  }

  /** Two distinct keys, in one order or the other, contribute one. */
  lemma {:induction false} PairsContributeOne(values: Table, x: string, ks: seq<string>)
    requires x in values && forall k :: k in ks ==> k in values
    ensures SumOf(AgainstEach(values, x), ks) + SumOf(AgainstAll(values, x), ks) == |ks| as real
  {
    if ks != [] { PairsContributeOne(values, x, ks[1..]); }
  }

  lemma {:induction false} NextSquare(n: nat)
    ensures ((n + 1) * (n + 1)) as real / 2.0 == (n * n) as real / 2.0 + n as real + 0.5
  {
    assert (n + 1) * (n + 1) == n * n + 2 * n + 1;
  }

  lemma {:induction false} AllPairs(values: Table, ks: seq<string>)
    requires forall k :: k in ks ==> k in values
    ensures SumOf(Contributions(values, ks), ks) == (|ks| * |ks|) as real / 2.0
  {
    if ks != [] {
      var x, rest := ks[0], ks[1..];
      assert ks == [x] + rest;
      AllPairs(values, rest);
      ContributionSplits(values, x, rest, rest);
      PairsContributeOne(values, x, rest);
      assert x in ks;
      assert Contributions(values, ks)(x) == Against(values, x, x) + SumOf(AgainstAll(values, x), rest);
      NextSquare(|rest|);
    }
  }

  function Within(s: set<string>, ks: seq<string>): set<string> {
    set x | x in s && x in ks
  }

  lemma {:induction false} WithinFirst(s: set<string>, ks: seq<string>)
    requires ks != [] && Distinct(ks)
    ensures |Within(s, ks)| == |Within(s, ks[1..])| + if ks[0] in s then 1 else 0
  {
    assert ks == [ks[0]] + ks[1..];
    assert ks[0] !in ks[1..];
    assert Within(s, ks) == Within(s, ks[1..]) + if ks[0] in s then {ks[0]} else {};
  }

  lemma {:induction false} RankIsContributions(values: Table, k: string, ks: seq<string>)
    requires k in values && Distinct(ks) && forall x :: x in ks ==> x in values
    ensures SumOf(AgainstAll(values, k), ks)
         == |Within(Below(values, k), ks)| as real + |Within(Tied(values, k), ks)| as real / 2.0
  {
    if ks != [] {
      RankIsContributions(values, k, ks[1..]);
      WithinFirst(Below(values, k), ks);
      WithinFirst(Tied(values, k), ks);
      assert ks[0] in ks;
    } else {
      assert Within(Below(values, k), ks) == {} && Within(Tied(values, k), ks) == {};
    }
  }

  function RankOf(ranks: Table): string -> real {
    (k: string) => if k in ranks then ranks[k] else 0.0
  }

  function Plus(c: real, f: string -> real): string -> real {
    (k: string) => c + f(k)
  }

  lemma {:induction false} SumPlus(c: real, f: string -> real, ks: seq<string>)
    ensures SumOf(Plus(c, f), ks) == c * |ks| as real + SumOf(f, ks)
  {
    if ks != [] { SumPlus(c, f, ks[1..]); }
  }

  /** Whatever the ties, the ranks of `n` values sum to `n (n + 1) / 2`. */
  lemma {:induction false} RankSum(values: Table, ks: seq<string>)
    requires Distinct(ks) && forall k :: k in ks <==> k in values
    ensures SumOf(RankOf(Ranks(values)), ks) == (|ks| * (|ks| + 1)) as real / 2.0
  {
    forall k | k in ks ensures RankOf(Ranks(values))(k) == Plus(0.5, Contributions(values, ks))(k) {
      RankIsContributions(values, k, ks);
      assert Below(values, k) == Within(Below(values, k), ks);
      assert Tied(values, k) == Within(Tied(values, k), ks);
    }
    SumOfCongruent(RankOf(Ranks(values)), Plus(0.5, Contributions(values, ks)), ks);
    SumPlus(0.5, Contributions(values, ks), ks);
    AllPairs(values, ks);
    assert |ks| * (|ks| + 1) == |ks| * |ks| + |ks|;
  }

  // ---------------------------------------------------------------- the correlation

  function Times(f: string -> real, g: string -> real): string -> real {
    (k: string) => f(k) * g(k)
  }

  function Combined(u: real, f: string -> real, w: real, g: string -> real): string -> real {
    (k: string) => u * f(k) - w * g(k)
  }

  /** `math.sqrt`. */
  ghost predicate SquareRoot(root: real -> real) {
    forall x :: x >= 0.0 ==> root(x) >= 0.0 && root(x) * root(x) == x
  }

  function Restrict(values: Table, keys: set<string>): Table {
    map k | k in values && k in keys :: values[k]
  }

  /** Each rank less the mean rank. */
  function Deviation(values: Table, ks: seq<string>): string -> real
    requires ks != []
  {
    var ranks := Ranks(values);
    var mean := SumOf(RankOf(ranks), ks) / |ks| as real;
    (k: string) => RankOf(ranks)(k) - mean
  }

  function Quotient(m: real, x: real, y: real, root: real -> real): real
    requires SquareRoot(root) && x > 0.0 && y > 0.0
  {
    Positive(x, y, root);
    m / root(x * y)
  }

  /** The correlation of two lists of deviations; none when one of them is all zeros. */
  function Ratio(a: string -> real, b: string -> real, ks: seq<string>, root: real -> real): Option<real>
    requires SquareRoot(root)
  {
    var ad := SumOf(Times(a, a), ks);
    var bd := SumOf(Times(b, b), ks);
    if ad > 0.0 && bd > 0.0 then Some(Quotient(SumOf(Times(a, b), ks), ad, bd, root)) else None
  }

  function Correlate(left: Table, right: Table, root: real -> real): Option<real>
    requires SquareRoot(root)
  {
    var common := left.Keys * right.Keys;
    var keys := SortedKeys(common);
    if |keys| < 2 then None
    else Ratio(Deviation(Restrict(left, common), keys), Deviation(Restrict(right, common), keys), keys, root)
  }

  lemma {:induction false} Positive(x: real, y: real, root: real -> real)
    requires SquareRoot(root) && x > 0.0 && y > 0.0
    ensures root(x * y) > 0.0 && root(x * y) * root(x * y) == x * y
  {
    assert x * y > 0.0;
    assert root(x * y) * root(x * y) == x * y;
  }

  /** The sum of squares of a combination, expanded. */
  lemma {:induction false} CombinedSquares(u: real, f: string -> real, w: real, g: string -> real, ks: seq<string>)
    ensures SumOf(Times(Combined(u, f, w, g), Combined(u, f, w, g)), ks)
         == Quadratic(u, w, SumOf(Times(f, f), ks), SumOf(Times(f, g), ks), SumOf(Times(g, g), ks))
  {
    if ks == [] {
      assert Quadratic(u, w, 0.0, 0.0, 0.0) == 0.0;
    } else {
      CombinedSquares(u, f, w, g, ks[1..]);
      QuadraticAdd(u, w, f(ks[0]), g(ks[0]),
        SumOf(Times(f, f), ks[1..]), SumOf(Times(f, g), ks[1..]), SumOf(Times(g, g), ks[1..]));
    }
  }

  ghost function Quadratic(u: real, w: real, ff: real, fg: real, gg: real): real {
    u * u * ff - 2.0 * u * w * fg + w * w * gg
  }

  lemma {:induction false} QuadraticAdd(u: real, w: real, x: real, y: real, ff: real, fg: real, gg: real)
    ensures Quadratic(u, w, x * x + ff, x * y + fg, y * y + gg)
         == (u * x - w * y) * (u * x - w * y) + Quadratic(u, w, ff, fg, gg)
  {
    assert (u * x - w * y) * (u * x - w * y) == u * u * (x * x) - 2.0 * u * w * (x * y) + w * w * (y * y);
    Distribute(u * u, x * x, ff);
    Distribute(2.0 * u * w, x * y, fg);
    Distribute(w * w, y * y, gg);
  }

  lemma {:induction false} Distribute(c: real, a: real, b: real)
    ensures c * (a + b) == c * a + c * b
  {
  }

  ghost predicate Zero(f: string -> real, ks: seq<string>) {
    forall k :: k in ks ==> f(k) == 0.0
  }

  lemma {:induction false} SquaresNonNegative(f: string -> real, ks: seq<string>)
    ensures SquaresVanishIff(SumOf(Times(f, f), ks), Zero(f, ks))
  {
    if ks != [] {
      SquaresNonNegative(f, ks[1..]);
      SquaresAdd(f(ks[0]), SumOf(Times(f, f), ks[1..]), Zero(f, ks[1..]));
      assert Zero(f, ks) <==> f(ks[0]) == 0.0 && Zero(f, ks[1..]);
    }
  }

  ghost predicate SquaresVanishIff(total: real, zero: bool) {
    if zero then total == 0.0 else total > 0.0
  }

  lemma {:induction false} SquaresAdd(x: real, rest: real, zero: bool)
    requires SquaresVanishIff(rest, zero)
    ensures SquaresVanishIff(x * x + rest, x == 0.0 && zero)
  {
    ProductSign(x, x);
  }

  lemma {:induction false} ProductSign(x: real, y: real)
    requires x == y
    ensures SquaresVanishIff(x * y, x == 0.0)
  {
    if x > 0.0 {
      assert x * y > 0.0;
    } else if x < 0.0 {
      assert x * y > 0.0;
    } else {
      assert x == 0.0;
    }
  }

  lemma {:induction false} CombinedNonNegative(u: real, f: string -> real, w: real, g: string -> real, ks: seq<string>)
    ensures Quadratic(u, w, SumOf(Times(f, f), ks), SumOf(Times(f, g), ks), SumOf(Times(g, g), ks)) >= 0.0
  {
    CombinedSquares(u, f, w, g, ks);
    SquaresNonNegative(Combined(u, f, w, g), ks);
  }

  lemma {:induction false} Discriminant(p: real, q: real, m: real)
    requires q > 0.0 && Quadratic(q, m, p, m, q) >= 0.0
    ensures m * m <= p * q
  {
    var d := p * q - m * m;
    assert q * q * p - 2.0 * q * m * m + m * m * q == q * d;
    assert d < 0.0 ==> q * d < 0.0;
  }

  /** The Cauchy–Schwarz inequality over the common keys. */
  lemma {:induction false} CauchySchwarz(f: string -> real, g: string -> real, ks: seq<string>)
    ensures SumOf(Times(f, g), ks) * SumOf(Times(f, g), ks) <= SumOf(Times(f, f), ks) * SumOf(Times(g, g), ks)
  {
    var p, q, m := SumOf(Times(f, f), ks), SumOf(Times(g, g), ks), SumOf(Times(f, g), ks);
    SquaresNonNegative(g, ks);
    if q == 0.0 {
      ZeroFactor(f, g, ks);
    } else {
      CombinedNonNegative(q, f, m, g, ks);
      Discriminant(p, q, m);
    }
  }

  lemma {:induction false} ZeroFactor(f: string -> real, g: string -> real, ks: seq<string>)
    requires Zero(g, ks)
    ensures SumOf(Times(f, g), ks) == 0.0
  {
    if ks != [] {
      ZeroFactor(f, g, ks[1..]);
      assert ks[0] in ks;
    }
  }

  lemma {:induction false} RatioInRange(m: real, x: real, s: real)
    requires m * m <= x && s > 0.0 && s * s == x
    ensures -1.0 <= m / s <= 1.0
  {
    assert (m > s ==> m * m > s * s) && (m < -s ==> (-m) * (-m) > s * s);
    assert m / s <= 1.0;
    assert m / s >= -1.0;
  }

  lemma {:induction false} QuotientBounded(m: real, x: real, y: real, root: real -> real)
    requires SquareRoot(root) && x > 0.0 && y > 0.0 && m * m <= x * y
    ensures -1.0 <= Quotient(m, x, y, root) <= 1.0
  {
    Positive(x, y, root);
    RatioInRange(m, x * y, root(x * y));
  }

  lemma {:induction false} DivideNegated(x: real)
    requires x != 0.0
    ensures -x / x == -1.0
  {
    assert (-1.0) * x == -x;
  }

  lemma {:induction false} QuotientOfEqual(x: real, root: real -> real)
    requires SquareRoot(root) && x > 0.0
    ensures Quotient(x, x, x, root) == 1.0 && Quotient(-x, x, x, root) == -1.0
  {
    Positive(x, x, root);
    RootOfSquare(x, root(x * x));
    DivideNegated(x);
  }

  lemma {:induction false} RatioBounded(a: string -> real, b: string -> real, ks: seq<string>, root: real -> real)
    requires SquareRoot(root)
    ensures var r := Ratio(a, b, ks, root); r.Some? ==> -1.0 <= r.value <= 1.0
  {
    var ad, bd := SumOf(Times(a, a), ks), SumOf(Times(b, b), ks);
    if ad > 0.0 && bd > 0.0 {
      CauchySchwarz(a, b, ks);
      QuotientBounded(SumOf(Times(a, b), ks), ad, bd, root);
    }
  }

  lemma {:induction false} RatioSymmetric(a: string -> real, b: string -> real, ks: seq<string>, root: real -> real)
    requires SquareRoot(root)
    ensures Ratio(a, b, ks, root) == Ratio(b, a, ks, root)
  {
    SumOfCongruent(Times(a, b), Times(b, a), ks);
    var ad, bd := SumOf(Times(a, a), ks), SumOf(Times(b, b), ks);
    assert ad * bd == bd * ad;
  }

  /** A list of deviations agrees perfectly with itself. */
  lemma {:induction false} RatioOfEqual(a: string -> real, b: string -> real, ks: seq<string>, root: real -> real)
    requires SquareRoot(root) && forall k :: k in ks ==> a(k) == b(k)
    ensures var r := Ratio(a, b, ks, root); r.Some? ==> r.value == 1.0
  {
    SumOfCongruent(Times(a, b), Times(a, a), ks);
    SumOfCongruent(Times(b, b), Times(a, a), ks);
    var ad := SumOf(Times(a, a), ks);
    if ad > 0.0 { QuotientOfEqual(ad, root); }
  }

  lemma {:induction false} RootOfSquare(x: real, s: real)
    requires x > 0.0 && s > 0.0 && s * s == x * x
    ensures s == x && x / s == 1.0
  {
    assert (s - x) * (s + x) == 0.0;
  }

  function Negated(f: string -> real): string -> real {
    (k: string) => -f(k)
  }

  lemma {:induction false} SumNegated(f: string -> real, ks: seq<string>)
    ensures SumOf(Negated(f), ks) == -SumOf(f, ks)
  {
    if ks != [] { SumNegated(f, ks[1..]); }
  }

  lemma {:induction false} RatioOfOpposite(a: string -> real, b: string -> real, ks: seq<string>, root: real -> real)
    requires SquareRoot(root) && forall k :: k in ks ==> b(k) == -a(k)
    ensures var r := Ratio(a, b, ks, root); r.Some? ==> r.value == -1.0
  {
    SumOfCongruent(Times(a, b), Negated(Times(a, a)), ks);
    SumNegated(Times(a, a), ks);
    SumOfCongruent(Times(b, b), Times(a, a), ks);
    var ad := SumOf(Times(a, a), ks);
    if ad > 0.0 { QuotientOfEqual(ad, root); }
  }

  // ---------------------------------------------------------------- main results

  /** Every correlation lies between -1 and 1. */
  lemma {:induction false} CorrelationInRange(left: Table, right: Table, root: real -> real)
    requires SquareRoot(root)
    ensures var r := Correlate(left, right, root); r.Some? ==> -1.0 <= r.value <= 1.0
  {
    var common := left.Keys * right.Keys;
    var keys := SortedKeys(common);
    if |keys| >= 2 {
      RatioBounded(Deviation(Restrict(left, common), keys), Deviation(Restrict(right, common), keys), keys, root);
    }
  }

  lemma {:induction false} CorrelationSymmetric(left: Table, right: Table, root: real -> real)
    requires SquareRoot(root)
    ensures Correlate(left, right, root) == Correlate(right, left, root)
  {
    var common := left.Keys * right.Keys;
    assert common == right.Keys * left.Keys;
    var keys := SortedKeys(common);
    if |keys| >= 2 {
      RatioSymmetric(Deviation(Restrict(left, common), keys), Deviation(Restrict(right, common), keys), keys, root);
    }
  }

  /** All the values of `keys` in `values` are tied. */
  ghost predicate Flat(values: Table) {
    forall x, y :: x in values && y in values ==> values[x] == values[y]
  }

  /** The mean rank is the same for every table. */
  lemma {:induction false} DeviationAt(values: Table, ks: seq<string>, k: string)
    requires ks != [] && Distinct(ks) && (forall k :: k in ks <==> k in values) && k in values
    ensures Deviation(values, ks)(k) == MidRank(values, k) - (|ks| + 1) as real / 2.0
  {
    RankSum(values, ks);
    MeanRank(|ks|);
  }

  /** The deviations vanish exactly when every value is tied. */
  lemma {:induction false} FlatDeviation(values: Table, ks: seq<string>)
    requires ks != [] && Distinct(ks) && forall k :: k in ks <==> k in values
    ensures Zero(Deviation(values, ks), ks) <==> Flat(values)
  {
    var d := Deviation(values, ks);
    if Zero(d, ks) {
      forall x, y | x in values && y in values ensures values[x] == values[y] {
        assert d(x) == 0.0 && d(y) == 0.0;
        DeviationAt(values, ks, x);
        DeviationAt(values, ks, y);
        RanksKeepOrder(values, x, y);
      }
    }
    if Flat(values) {
      forall k | k in ks ensures d(k) == 0.0 {
        assert Below(values, k) == {} && Tied(values, k) == values.Keys;
        DistinctSize(ks, values.Keys);
        DeviationAt(values, ks, k);
      }
    }
  }

  lemma {:induction false} MeanRank(n: nat)
    requires n > 0
    ensures (n * (n + 1)) as real / 2.0 / n as real == (n + 1) as real / 2.0
  {
    assert (n * (n + 1)) as real == n as real * (n + 1) as real;
  }

  /** There is no correlation exactly when fewer than two keys are shared or one side is all ties. */
  lemma {:induction false} NoCorrelationIff(left: Table, right: Table, root: real -> real)
    requires SquareRoot(root)
    ensures var common := left.Keys * right.Keys;
      Correlate(left, right, root).None? <==>
      (|common| < 2 || Flat(Restrict(left, common)) || Flat(Restrict(right, common)))
  {
    var common := left.Keys * right.Keys;
    var keys := SortedKeys(common);
    SortedKeysDistinct(common);
    SortedKeysExact(common);
    if |keys| >= 2 {
      var u, v := Restrict(left, common), Restrict(right, common);
      FlatDeviation(u, keys);
      FlatDeviation(v, keys);
      SquaresNonNegative(Deviation(u, keys), keys);
      SquaresNonNegative(Deviation(v, keys), keys);
    }
  }

  /** Runs that order the shared keys alike, ties included, correlate perfectly. */
  lemma {:induction false} SameOrderIsPerfect(left: Table, right: Table, root: real -> real)
    requires SquareRoot(root)
    requires var common := left.Keys * right.Keys; SameOrder(Restrict(left, common), Restrict(right, common))
    ensures var r := Correlate(left, right, root); r.Some? ==> r.value == 1.0
  {
    var common := left.Keys * right.Keys;
    var keys := SortedKeys(common);
    RanksDependOnOrder(Restrict(left, common), Restrict(right, common));
    if |keys| >= 2 {
      RatioOfEqual(Deviation(Restrict(left, common), keys), Deviation(Restrict(right, common), keys), keys, root);
    }
  }

  /** Runs that order the shared keys in opposite ways anti-correlate perfectly. */
  lemma {:induction false} OppositeOrderIsPerfect(left: Table, right: Table, root: real -> real)
    requires SquareRoot(root)
    requires var common := left.Keys * right.Keys; OppositeOrder(Restrict(left, common), Restrict(right, common))
    ensures var r := Correlate(left, right, root); r.Some? ==> r.value == -1.0
  {
    var common := left.Keys * right.Keys;
    var keys := SortedKeys(common);
    var u, v := Restrict(left, common), Restrict(right, common);
    SortedKeysDistinct(common);
    SortedKeysExact(common);
    if |keys| >= 2 {
      forall k | k in keys ensures Deviation(v, keys)(k) == -Deviation(u, keys)(k) {
        MirroredDeviation(u, v, keys, k);
      }
      RatioOfOpposite(Deviation(u, keys), Deviation(v, keys), keys, root);
    }
  }

  lemma {:induction false} MirroredDeviation(u: Table, v: Table, ks: seq<string>, k: string)
    requires ks != [] && Distinct(ks) && (forall k :: k in ks <==> k in u) && OppositeOrder(u, v) && k in u
    ensures Deviation(v, ks)(k) == -Deviation(u, ks)(k)
  {
    RanksMirrored(u, v, k);
    DeviationAt(u, ks, k);
    DeviationAt(v, ks, k);
    DistinctSize(ks, u.Keys);
  }

  /** A ratio times the root of the two sums of squares is the sum of the products. */
  lemma {:induction false} RatioIsProduct(a: string -> real, b: string -> real, ks: seq<string>, root: real -> real,
                                          x: real, y: real, m: real)
    requires SquareRoot(root)
    requires x == SumOf(Times(a, a), ks) && y == SumOf(Times(b, b), ks) && m == SumOf(Times(a, b), ks)
    ensures Ratio(a, b, ks, root).Some? <==> x > 0.0 && y > 0.0
    ensures Ratio(a, b, ks, root).Some? ==> Ratio(a, b, ks, root).value * root(x * y) == m
  {
    if x > 0.0 && y > 0.0 {
      QuotientTimesRoot(m, x, y, root);
      assert Ratio(a, b, ks, root) == Some(Quotient(m, x, y, root));
    }
  }

  lemma {:induction false} QuotientTimesRoot(m: real, x: real, y: real, root: real -> real)
    requires SquareRoot(root) && x > 0.0 && y > 0.0
    ensures Quotient(m, x, y, root) * root(x * y) == m
  {
    Positive(x, y, root);
  }

  /** `a` is each key's rank less the middle rank. */
  ghost predicate Deviates(a: string -> real, u: Table, ks: seq<string>) {
    forall k :: k in ks ==> k in u && a(k) == MidRank(u, k) - (|ks| + 1) as real / 2.0
  }

  lemma {:induction false} DeviatesAlike(a: string -> real, u: Table, ks: seq<string>)
    requires ks != [] && Distinct(ks) && (forall k :: k in ks <==> k in u) && Deviates(a, u, ks)
    ensures Alike(a, Deviation(u, ks), ks)
  {
    forall k | k in ks ensures a(k) == Deviation(u, ks)(k) { DeviationAt(u, ks, k); }
  }

  ghost predicate Alike(a: string -> real, b: string -> real, ks: seq<string>) {
    forall k :: k in ks ==> a(k) == b(k)
  }

  lemma {:induction false} ProductsAlike(a: string -> real, b: string -> real, c: string -> real, d: string -> real,
                                         ks: seq<string>)
    requires Alike(a, c, ks) && Alike(b, d, ks)
    ensures SumOf(Times(a, b), ks) == SumOf(Times(c, d), ks)
  {
    forall k | k in ks ensures Times(a, b)(k) == Times(c, d)(k) { assert a(k) == c(k) && b(k) == d(k); }
    SumOfCongruent(Times(a, b), Times(c, d), ks);
  }

  lemma {:induction false} RatiosAlike(a: string -> real, b: string -> real, c: string -> real, d: string -> real,
                                       ks: seq<string>, root: real -> real)
    requires SquareRoot(root) && Alike(a, c, ks) && Alike(b, d, ks)
    ensures Ratio(a, b, ks, root) == Ratio(c, d, ks, root)
  {
    ProductsAlike(a, a, c, c, ks);
    ProductsAlike(b, b, d, d, ks);
    ProductsAlike(a, b, c, d, ks);
  }

  /** The correlation is the ratio of the two deviations from the middle rank. */
  lemma {:induction false} CorrelationIsRatio(left: Table, right: Table, a: string -> real, b: string -> real,
                                              root: real -> real)
    requires SquareRoot(root) && |SortedKeys(left.Keys * right.Keys)| >= 2
    requires var common := left.Keys * right.Keys; Deviates(a, Restrict(left, common), SortedKeys(common))
    requires var common := left.Keys * right.Keys; Deviates(b, Restrict(right, common), SortedKeys(common))
    ensures Correlate(left, right, root) == Ratio(a, b, SortedKeys(left.Keys * right.Keys), root)
  {
    var common := left.Keys * right.Keys;
    var keys, u, v := SortedKeys(common), Restrict(left, common), Restrict(right, common);
    SortedKeysDistinct(common);
    SortedKeysExact(common);
    DeviatesAlike(a, u, keys);
    DeviatesAlike(b, v, keys);
    RatiosAlike(a, b, Deviation(u, keys), Deviation(v, keys), keys, root);
  }
}
