/** Sums of integer and real sequences and powers of two, shared by the measurement modules. */
module Sums {
  import opened Sorting

  function Sum(s: seq<int>): int {
    if s == [] then 0 else s[0] + Sum(s[1..])
  }

  /** `2 ** n`. */
  function Pow2(n: nat): (r: nat)
    ensures r >= 1
  {
    if n == 0 then 1 else 2 * Pow2(n - 1)
  }

  lemma {:induction false} SumAppend(a: seq<int>, b: seq<int>)
    ensures Sum(a + b) == Sum(a) + Sum(b)
  {
    if a == [] {
      assert a + b == b;
    } else {
      SumAppend(a[1..], b);
      assert a + b == [a[0]] + (a[1..] + b);
    }
  }

  lemma {:induction false} SumUpdate(s: seq<int>, i: nat, v: int)
    requires i < |s|
    ensures Sum(s[i := v]) == Sum(s) - s[i] + v
  {
    assert s == s[..i] + [s[i]] + s[i + 1..];
    assert s[i := v] == s[..i] + [v] + s[i + 1..];
    SumAppend(s[..i] + [s[i]], s[i + 1..]);
    SumAppend(s[..i], [s[i]]);
    SumAppend(s[..i] + [v], s[i + 1..]);
    SumAppend(s[..i], [v]);
  }

  lemma {:induction false} SumOfZeros(s: seq<int>)
    requires forall i :: 0 <= i < |s| ==> s[i] == 0
    ensures Sum(s) == 0
  {
    if s != [] { SumOfZeros(s[1..]); }
  }

  lemma {:induction false} SumMonotone(a: seq<int>, b: seq<int>)
    requires |a| == |b| && forall i :: 0 <= i < |a| ==> a[i] <= b[i]
    ensures Sum(a) <= Sum(b)
  {
    if a != [] { SumMonotone(a[1..], b[1..]); }
  }

  /** Equal sums leave no room for a pointwise difference. */
  lemma {:induction false} SumSqueezes(a: seq<int>, b: seq<int>)
    requires |a| == |b| && Sum(a) >= Sum(b) && forall i :: 0 <= i < |a| ==> a[i] <= b[i]
    ensures a == b
  {
    forall i | 0 <= i < |a| ensures a[i] == b[i] {
      SumMonotone(a, b[i := a[i]]);
      SumUpdate(b, i, a[i]);
    }
  }

  /** `a` is `b` with `d` added at each of the positions `row`. */
  ghost predicate Raised(a: seq<int>, b: seq<int>, row: seq<nat>, d: int) {
    && |a| == |b|
    && (forall u :: 0 <= u < |row| ==> row[u] < |a|)
    && forall e :: 0 <= e < |a| ==> a[e] == b[e] + if e in row then d else 0
  }

  lemma {:induction false} RaisedBefore(a: seq<int>, b: seq<int>, row: seq<nat>, r: nat, d: int)
    requires Raised(a, b, row + [r], d) && r !in row
    ensures r < |a| && Raised(a[r := a[r] - d], b, row, d)
  {
    assert (row + [r])[|row|] == r;
    forall u | 0 <= u < |row| ensures row[u] < |a| { assert (row + [r])[u] == row[u]; }
  }

  /** `n * d`, by repeated addition. */
  ghost function Repeated(n: nat, d: int): int { if n == 0 then 0 else Repeated(n - 1, d) + d }

  lemma {:induction false} RepeatedIsProduct(n: nat, d: int)
    ensures Repeated(n, d) == n * d
  {
    if n != 0 {
      RepeatedIsProduct(n - 1, d);
      assert n * d == (n - 1) * d + d;
    }
  }

  /** Adding `d` at distinct positions adds `d` for each of them. */
  lemma {:induction false} SumOfRow(a: seq<int>, b: seq<int>, row: seq<nat>, d: int)
    requires Distinct(row) && Raised(a, b, row, d)
    ensures Sum(a) == Sum(b) + Repeated(|row|, d)
    decreases |row|
  {
    if row == [] {
      assert a == b;
    } else {
      var n := |row| - 1;
      var r, rest := row[n], row[..n];
      assert row == rest + [r] && r !in rest;
      RaisedBefore(a, b, rest, r, d);
      SumOfRow(a[r := a[r] - d], b, rest, d);
      SumUpdate(a, r, a[r] - d);
    }
  }

  /** The sum of `f` over a sequence. */
  function SumOf<T>(f: T -> real, s: seq<T>): real {
    if s == [] then 0.0 else f(s[0]) + SumOf(f, s[1..])
  }

  lemma {:induction false} SumOfAppend<T>(f: T -> real, a: seq<T>, b: seq<T>)
    ensures SumOf(f, a + b) == SumOf(f, a) + SumOf(f, b)
  {
    if a == [] {
      assert a + b == b;
    } else {
      SumOfAppend(f, a[1..], b);
      assert a + b == [a[0]] + (a[1..] + b);
    }
  }

  lemma {:induction false} SumOfRemoved<T>(f: T -> real, s: seq<T>, k: nat)
    requires k < |s|
    ensures var rest := s[..k] + s[k + 1..];
      SumOf(f, s) == f(s[k]) + SumOf(f, rest) && multiset(rest) == multiset(s) - multiset{s[k]}
  {
    assert s == s[..k] + [s[k]] + s[k + 1..];
    SumOfAppend(f, s[..k] + [s[k]], s[k + 1..]);
    SumOfAppend(f, s[..k], [s[k]]);
    SumOfAppend(f, s[..k], s[k + 1..]);
  }

  /** The order of the terms does not matter. */
  lemma {:induction false} SumOfPermuted<T>(f: T -> real, a: seq<T>, b: seq<T>)
    requires multiset(a) == multiset(b)
    ensures SumOf(f, a) == SumOf(f, b)
  {
    SameElements(a, b);
    if a != [] {
      assert a[0] in b;
      var k :| 0 <= k < |b| && b[k] == a[0];
      assert a == [a[0]] + a[1..];
      assert multiset(a[1..]) == multiset(a) - multiset{a[0]};
      SumOfRemoved(f, b, k);
      SumOfPermuted(f, a[1..], b[..k] + b[k + 1..]);
    }
  }

  lemma {:induction false} SumOfCongruent<T>(f: T -> real, g: T -> real, s: seq<T>)
    requires forall x :: x in s ==> f(x) == g(x)
    ensures SumOf(f, s) == SumOf(g, s)
  {
    if s != [] { SumOfCongruent(f, g, s[1..]); }
  }
}
