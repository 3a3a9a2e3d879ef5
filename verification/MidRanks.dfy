/**
 Rank correlation of two tuning runs: tools/bigcherry/analysis/compare_tunes.py.
 Dictionaries are finite maps, floats are reals, and the square root is any
 function that is one on the non-negative reals.
 */
module MidRanks {
  import opened Sorting
  import opened Strings

  type Table = map<string, real>
  type Item = (string, real)

  // ---------------------------------------------------------------- specification

  function Below(values: Table, k: string): set<string>
    requires k in values
  {
    set x | x in values && values[x] < values[k]
  }

  function Tied(values: Table, k: string): set<string>
    requires k in values
  {
    set x | x in values && values[x] == values[k]
  }

  /** The mean of the positions that the values tied with `k` take in sorted order. */
  function MidRank(values: Table, k: string): real
    requires k in values
  {
    |Below(values, k)| as real + (|Tied(values, k)| + 1) as real / 2.0
  }

  function Ranks(values: Table): Table {
    map k | k in values :: MidRank(values, k)
  }

  // ---------------------------------------------------------------- the run-filling loop

  /** By value, then by key. */
  function ByValue(): (Item, Item) -> bool {
    (a: Item, b: Item) => a.1 < b.1 || (a.1 == b.1 && StringLe(a.0, b.0))
  }

  lemma {:induction false} ByValueIsPreorder()
    ensures TotalPreorder(ByValue())
  {
    forall a, b ensures ByValue()(a, b) || ByValue()(b, a) { LeTotal(a.0, b.0); }
    forall a, b, c | ByValue()(a, b) && ByValue()(b, c) ensures ByValue()(a, c) {
      if StringLe(a.0, b.0) && StringLe(b.0, c.0) { LeTransitive(a.0, b.0, c.0); }
    }
  }

  function Items(values: Table): seq<Item> {
    SortedKeysExact(values.Keys);
    var keys := SortedKeys(values.Keys);
    seq(|keys|, i requires 0 <= i < |keys| => (keys[i], values[keys[i]]))
  }

  /** `s` lists each entry of `values` once, values ascending. */
  ghost predicate Listing(values: Table, s: seq<Item>) {
    && (forall i :: 0 <= i < |s| ==> s[i].0 in values && s[i].1 == values[s[i].0])
    && (forall i, j :: 0 <= i < j < |s| ==> s[i].0 != s[j].0 && s[i].1 <= s[j].1)
    && KeysOf(s) == values.Keys
  }

  ghost function KeysOf(s: seq<Item>): set<string> {
    set i | 0 <= i < |s| :: s[i].0
  }

  lemma {:induction false} KeysOfSize(s: seq<Item>)
    requires forall i, j :: 0 <= i < j < |s| ==> s[i].0 != s[j].0
    ensures |KeysOf(s)| == |s|
  {
    if s != [] {
      var n := |s| - 1;
      KeysOfSize(s[..n]);
      assert KeysOf(s) == KeysOf(s[..n]) + {s[n].0};
      assert s[n].0 !in KeysOf(s[..n]);
    }
  }

  /** `s` lists each entry of `values` once, in some order. */
  ghost predicate Entries(values: Table, s: seq<Item>) {
    && Distinct(s)
    && (forall x :: x in s ==> x.0 in values && x.1 == values[x.0])
    && (forall k :: k in values ==> (k, values[k]) in s)
  }

  lemma {:induction false} ItemsAreEntries(values: Table)
    ensures Entries(values, Items(values))
  {
    var items, keys := Items(values), SortedKeys(values.Keys);
    SortedKeysExact(values.Keys);
    SortedKeysDistinct(values.Keys);
    forall k | k in values ensures (k, values[k]) in items {
      var i :| 0 <= i < |keys| && keys[i] == k;
      assert items[i] == (k, values[k]);
    }
  }

  lemma {:induction false} SortedEntriesList(values: Table, s: seq<Item>)
    requires Entries(values, s) && SortedBy(s, ByValue())
    ensures Listing(values, s)
  {
    forall i | 0 <= i < |s| ensures s[i].0 in values && s[i].1 == values[s[i].0] {
      assert s[i] in s;
    }
    forall i, j | 0 <= i < j < |s| ensures s[i].0 != s[j].0 && s[i].1 <= s[j].1 {
      assert s[i] != s[j] && ByValue()(s[i], s[j]);
    }
    forall k | k in values ensures k in KeysOf(s) {
      var i :| 0 <= i < |s| && s[i] == (k, values[k]);
    }
    assert KeysOf(s) == values.Keys;
  }

  lemma {:induction false} SortedItemsList(values: Table)
    ensures Listing(values, SortBy(Items(values), ByValue()))
  {
    var items := Items(values);
    var s := SortBy(items, ByValue());
    ItemsAreEntries(values);
    ByValueIsPreorder();
    SortByCorrect(items, ByValue());
    SameElements(s, items);
    DistinctPermuted(items, s);
    SortedEntriesList(values, s);
  }

  /** Positions `i .. j` hold one value and no other position holds it. */
  ghost predicate Run(s: seq<Item>, i: nat, j: nat) {
    && i < j <= |s|
    && (forall p :: 0 <= p < i ==> s[p].1 < s[i].1)
    && (forall p :: i <= p < j ==> s[p].1 == s[i].1)
    && (forall p :: j <= p < |s| ==> s[i].1 < s[p].1)
  }

  lemma {:induction false} RunBelow(values: Table, s: seq<Item>, i: nat, j: nat, m: nat)
    requires Listing(values, s) && Run(s, i, j) && i <= m < j
    ensures Below(values, s[m].0) == KeysOf(s[..i])
  {
    var k := s[m].0;
    forall x | x in Below(values, k) ensures x in KeysOf(s[..i]) {
      assert x in KeysOf(s);
      var p :| 0 <= p < |s| && s[p].0 == x;
      assert p < i;
      assert s[..i][p].0 == x;
    }
    forall x | x in KeysOf(s[..i]) ensures x in Below(values, k) {
      var p :| 0 <= p < i && s[..i][p].0 == x;
    }
  }

  lemma {:induction false} RunTied(values: Table, s: seq<Item>, i: nat, j: nat, m: nat)
    requires Listing(values, s) && Run(s, i, j) && i <= m < j
    ensures Tied(values, s[m].0) == KeysOf(s[i..j])
  {
    var k := s[m].0;
    forall x | x in Tied(values, k) ensures x in KeysOf(s[i..j]) {
      assert x in KeysOf(s);
      var p :| 0 <= p < |s| && s[p].0 == x;
      assert i <= p < j;
      assert s[i..j][p - i].0 == x;
    }
    forall x | x in KeysOf(s[i..j]) ensures x in Tied(values, k) {
      var p :| 0 <= p < j - i && s[i..j][p].0 == x;
      assert s[i + p].1 == s[i].1;
    }
  }

  lemma {:induction false} RunRank(values: Table, s: seq<Item>, i: nat, j: nat, m: nat)
    requires Listing(values, s) && Run(s, i, j) && i <= m < j
    ensures MidRank(values, s[m].0) == (i + 1 + j) as real / 2.0
  {
    RunBelow(values, s, i, j, m);
    RunTied(values, s, i, j, m);
    KeysOfSize(s[..i]);
    KeysOfSize(s[i..j]);
  }

  /** `ranks` holds the first `i` keys, and agrees with `target` wherever it holds anything. */
  ghost predicate Filled(target: Table, s: seq<Item>, i: nat, ranks: Table) {
    && i <= |s|
    && (forall p :: 0 <= p < i ==> s[p].0 in ranks)
    && (forall k :: k in ranks ==> k in target && ranks[k] == target[k])
  }

  /** The inner loop: where the run of equal values that starts at `i` ends. */
  method RunEnd(ghost values: Table, s: seq<Item>, i: nat) returns (j: nat)
    requires Listing(values, s) && i < |s|
    requires forall p :: 0 <= p < i ==> s[p].1 < s[i].1
    ensures Run(s, i, j)
  {
    j := i + 1;
    while j < |s| && s[j].1 == s[i].1
      invariant i < j <= |s|
      invariant forall p :: i <= p < j ==> s[p].1 == s[i].1
    {
      j := j + 1;
    }
  }

  lemma {:induction false} RunTarget(values: Table, s: seq<Item>, i: nat, j: nat)
    requires Listing(values, s) && Run(s, i, j)
    ensures forall m :: i <= m < j ==> s[m].0 in Ranks(values) && Ranks(values)[s[m].0] == (i + 1 + j) as real / 2.0
  {
    forall m | i <= m < j ensures s[m].0 in Ranks(values) && Ranks(values)[s[m].0] == (i + 1 + j) as real / 2.0 {
      RunRank(values, s, i, j, m);
    }
  }

  method FillRun(ghost target: Table, s: seq<Item>, i: nat, j: nat, rank: real, before: Table) returns (ranks: Table)
    requires i <= j <= |s| && Filled(target, s, i, before)
    requires forall m :: i <= m < j ==> s[m].0 in target && target[s[m].0] == rank
    ensures Filled(target, s, j, ranks)
  {
    ranks := before;
    for m := i to j
      invariant Filled(target, s, m, ranks)
    {
      ranks := ranks[s[m].0 := rank];
    }
  }

  /** The nested loops give every key its mid-rank. */
  method Midranks(values: Table) returns (ranks: Table)
    ensures ranks == Ranks(values)
  {
    var ordered := SortBy(Items(values), ByValue());
    SortedItemsList(values);
    ghost var target := Ranks(values);
    ranks := map[];
    var i := 0;
    while i < |ordered|
      invariant Filled(target, ordered, i, ranks)
      invariant forall p, q :: 0 <= p < i <= q < |ordered| ==> ordered[p].1 < ordered[q].1
    {
      var j := RunEnd(values, ordered, i);
      RunTarget(values, ordered, i, j);
      ranks := FillRun(target, ordered, i, j, (i + 1 + j) as real / 2.0, ranks);
      i := j;
    }
    forall k | k in values ensures k in ranks {
      assert k in KeysOf(ordered);
    }
  }
}
