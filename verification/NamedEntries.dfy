/**
 Objects whose fields are named entries: a list of entries with distinct names,
 kept in name order, printed as one field per entry and parsed back.
 */
module NamedEntries {
  import opened Wrappers
  import opened Sorting
  import opened Strings
  import opened IdentityTree

  // ---------------------------------------------------------------- sorting with distinct keys

  ghost predicate Antisymmetric<T(!new)>(s: seq<T>, le: (T, T) -> bool) {
    forall x, y :: x in s && y in s && le(x, y) && le(y, x) ==> x == y
  }

  lemma {:induction false} SameFirst<T(!new)>(a: seq<T>, b: seq<T>, le: (T, T) -> bool)
    requires multiset(a) == multiset(b) && SortedBy(a, le) && SortedBy(b, le) && Antisymmetric(a, le)
    requires a != []
    ensures b != [] && a[0] == b[0]
  {
    SameElements(a, b);
    assert a[0] in b && b[0] in a;
    var i :| 0 <= i < |b| && b[i] == a[0];
    var j :| 0 <= j < |a| && a[j] == b[0];
    assert i > 0 ==> le(b[0], b[i]);
    assert j > 0 ==> le(a[0], a[j]);
  }

  lemma {:induction false} SameRest<T>(a: seq<T>, b: seq<T>)
    requires a != [] && b != [] && a[0] == b[0] && multiset(a) == multiset(b)
    ensures multiset(a[1..]) == multiset(b[1..])
  {
    assert a == [a[0]] + a[1..] && b == [b[0]] + b[1..];
    assert multiset(a[1..]) == multiset(a) - multiset{a[0]};
    assert multiset(b[1..]) == multiset(b) - multiset{b[0]};
  }

  /** Two sorted permutations of the same elements are equal when no two elements tie. */
  lemma {:induction false} SortedUnique<T(!new)>(a: seq<T>, b: seq<T>, le: (T, T) -> bool)
    requires multiset(a) == multiset(b) && SortedBy(a, le) && SortedBy(b, le) && Antisymmetric(a, le)
    ensures a == b
  {
    if a == [] {
      SameElements(a, b);
    } else {
      SameFirst(a, b, le);
      SameRest(a, b);
      SortedUnique(a[1..], b[1..], le);
      assert a == [a[0]] + a[1..] && b == [b[0]] + b[1..];
    }
  }

  function ByName<T(!new)>(name: T -> string): (T, T) -> bool {
    (x: T, y: T) => StringLe(name(x), name(y))
  }

  lemma {:induction false} ByNameIsPreorder<T(!new)>(name: T -> string)
    ensures TotalPreorder(ByName(name))
  {
    LeIsPreorder();
    forall x, y ensures ByName(name)(x, y) || ByName(name)(y, x) { LeTotal(name(x), name(y)); }
    forall x, y, z | ByName(name)(x, y) && ByName(name)(y, z) ensures ByName(name)(x, z) {
      LeTransitive(name(x), name(y), name(z));
    }
  }

  /** No two entries have one name. */
  predicate DistinctNames<T(==)>(entries: seq<T>, name: T -> string) {
    forall i, j :: 0 <= i < j < |entries| ==> name(entries[i]) != name(entries[j])
  }

  /** The entries in name order. */
  function Canonical<T(!new)>(entries: seq<T>, name: T -> string): seq<T> { SortBy(entries, ByName(name)) }

  ghost predicate InNameOrder<T(!new)>(entries: seq<T>, name: T -> string) {
    DistinctNames(entries, name) && SortedBy(entries, ByName(name))
  }

  lemma {:induction false} NoTies<T(!new)>(entries: seq<T>, name: T -> string, x: T, y: T)
    requires DistinctNames(entries, name) && x in entries && y in entries
    requires ByName(name)(x, y) && ByName(name)(y, x)
    ensures x == y
  {
    LeAntisymmetric(name(x), name(y));
    var i :| 0 <= i < |entries| && entries[i] == x;
    var j :| 0 <= j < |entries| && entries[j] == y;
    assert i == j;
  }

  /** Distinct names survive a permutation. */
  lemma {:induction false} DistinctNamesPermuted<T(!new)>(a: seq<T>, b: seq<T>, name: T -> string)
    requires multiset(a) == multiset(b)
    ensures DistinctNames(a, name) ==> DistinctNames(b, name)
  {
    if DistinctNames(a, name) {
      assert Distinct(a);
      DistinctPermuted(a, b);
      SameElements(a, b);
      forall i, j | 0 <= i < j < |b| ensures name(b[i]) != name(b[j]) {
        assert b[i] in a && b[j] in a && b[i] != b[j];
        var k :| 0 <= k < |a| && a[k] == b[i];
        var m :| 0 <= m < |a| && a[m] == b[j];
      }
    }
  }

  /** The canonical order depends on the entries only, not on how they were listed. */
  lemma {:induction false} CanonicalUnique<T(!new)>(a: seq<T>, b: seq<T>, name: T -> string)
    requires multiset(a) == multiset(b) && DistinctNames(a, name)
    ensures Canonical(a, name) == Canonical(b, name) && InNameOrder(Canonical(a, name), name)
    ensures InNameOrder(b, name) ==> Canonical(a, name) == b
  {
    ByNameIsPreorder(name);
    var x, y := Canonical(a, name), Canonical(b, name);
    SortByCorrect(a, ByName(name));
    SortByCorrect(b, ByName(name));
    DistinctNamesPermuted(a, x, name);
    forall p, q | p in x && q in x && ByName(name)(p, q) && ByName(name)(q, p) ensures p == q {
      NoTies(x, name, p, q);
    }
    SortedUnique(x, y, ByName(name));
    if InNameOrder(b, name) { SortedUnique(x, b, ByName(name)); }
  }

  // ---------------------------------------------------------------- printing and parsing

  function NamesOf<T>(entries: seq<T>, name: T -> string): (r: seq<string>)
    ensures |r| == |entries|
  {
    seq(|entries|, i requires 0 <= i < |entries| => name(entries[i]))
  }

  function PrintAll<T>(entries: seq<T>, name: T -> string, show: T -> Tree): map<string, Tree> {
    if entries == [] then map[]
    else PrintAll(entries[1..], name, show)[name(entries[0]) := show(entries[0])]
  }

  function ParseAll<T, E>(keys: seq<string>, fields: map<string, Tree>, parse: (string, Tree) -> Result<T, E>): Result<seq<T>, E>
    requires forall k :: k in keys ==> k in fields
  {
    if keys == [] then Ok([])
    else
      assert keys[0] in keys;
      var first := parse(keys[0], fields[keys[0]]);
      if first.Err? then Err(first.error)
      else
        var rest := ParseAll(keys[1..], fields, parse);
        if rest.Err? then Err(rest.error) else Ok([first.value] + rest.value)
  }

  /** Parse every field of an object. */
  function ParseFields<T, E>(fields: map<string, Tree>, parse: (string, Tree) -> Result<T, E>): Result<seq<T>, E> {
    SortedKeysExact(fields.Keys);
    ParseAll(SortedKeys(fields.Keys), fields, parse)
  }

  lemma {:induction false} PrintAllExact<T>(entries: seq<T>, name: T -> string, show: T -> Tree)
    requires DistinctNames(entries, name)
    ensures forall k :: k in PrintAll(entries, name, show) <==> exists i :: 0 <= i < |entries| && name(entries[i]) == k
    ensures forall i :: 0 <= i < |entries| ==>
      name(entries[i]) in PrintAll(entries, name, show) &&
      PrintAll(entries, name, show)[name(entries[i])] == show(entries[i])
  {
    if entries != [] {
      PrintAllExact(entries[1..], name, show);
      forall i | 0 <= i < |entries| ensures i == 0 || entries[i] == entries[1..][i - 1] {
      }
    }
  }

  lemma {:induction false} ParseAllExact<T, E>(keys: seq<string>, fields: map<string, Tree>, parse: (string, Tree) -> Result<T, E>)
    requires forall k :: k in keys ==> k in fields
    ensures var r := ParseAll(keys, fields, parse);
      && (r.Ok? <==> forall i :: 0 <= i < |keys| ==> parse(keys[i], fields[keys[i]]).Ok?)
      && (r.Ok? ==> |r.value| == |keys|)
      && (r.Ok? ==> forall i :: 0 <= i < |keys| ==> parse(keys[i], fields[keys[i]]) == Ok(r.value[i]))
  {
    if keys != [] {
      ParseAllExact(keys[1..], fields, parse);
      forall i | 0 <= i < |keys| ensures i == 0 || keys[i] == keys[1..][i - 1] {
      }
    }
  }

  /** `parse` accepts exactly what `show` prints of an entry that `valid` accepts, and returns that entry. */
  ghost predicate Inverse<T(!new), E(!new)>(name: T -> string, show: T -> Tree,
                                            parse: (string, Tree) -> Result<T, E>, valid: T -> bool) {
    && (forall x :: valid(x) ==> parse(name(x), show(x)) == Ok(x))
    && (forall k, d :: parse(k, d).Ok? ==> var x := parse(k, d).value; valid(x) && name(x) == k && show(x) == d)
  }

  lemma {:induction false} SortedKeysOrdered(s: set<string>)
    ensures SortedBy(SortedKeys(s), Le())
    decreases s
  {
    if s != {} {
      LeastExists(s);
      var x :| IsLeast(s, x);
      SortedKeysOrdered(s - {x});
      SortedKeysExact(s - {x});
    }
  }

  /** Sorting the keys of what a sorted list prints gives back its names. */
  lemma {:induction false} KeysOfPrinted<T(!new)>(entries: seq<T>, name: T -> string, show: T -> Tree)
    requires InNameOrder(entries, name)
    ensures SortedKeys(PrintAll(entries, name, show).Keys) == NamesOf(entries, name)
  {
    var names, all := NamesOf(entries, name), PrintAll(entries, name, show).Keys;
    var keys := SortedKeys(all);
    PrintAllExact(entries, name, show);
    SortedKeysExact(all);
    SortedKeysDistinct(all);
    SortedKeysOrdered(all);
    forall k ensures k in keys <==> k in names {
      if k in all {
        var i :| 0 <= i < |entries| && name(entries[i]) == k;
        assert names[i] == k;
      }
    }
    NamesOrdered(entries, name);
    SameSortedNames(keys, names);
  }

  lemma {:induction false} NamesOrdered<T(!new)>(entries: seq<T>, name: T -> string)
    requires InNameOrder(entries, name)
    ensures Distinct(NamesOf(entries, name)) && SortedBy(NamesOf(entries, name), Le())
  {
    var names := NamesOf(entries, name);
    forall i, j | 0 <= i < j < |names| ensures Le()(names[i], names[j]) {
      assert ByName(name)(entries[i], entries[j]);
    }
  }

  /** A set of names is listed in order in one way only. */
  lemma {:induction false} SameSortedNames(a: seq<string>, b: seq<string>)
    requires Distinct(a) && Distinct(b) && SortedBy(a, Le()) && SortedBy(b, Le())
    requires forall k :: k in a <==> k in b
    ensures a == b
  {
    DistinctSame(a, b);
    forall x, y | x in a && y in a && Le()(x, y) && Le()(y, x) ensures x == y { LeAntisymmetric(x, y); }
    SortedUnique(a, b, Le());
  }

  lemma {:induction false} DistinctSame<T>(a: seq<T>, b: seq<T>)
    requires Distinct(a) && Distinct(b) && forall x :: x in a <==> x in b
    ensures multiset(a) == multiset(b)
  {
    forall x ensures multiset(a)[x] == multiset(b)[x] {
      DistinctOnce(a, x);
      DistinctOnce(b, x);
      assert x in a <==> multiset(a)[x] > 0;
      assert x in b <==> multiset(b)[x] > 0;
    }
  }

  /** Parsing what was printed returns the entries. */
  lemma {:induction false} ParsePrinted<T(!new), E(!new)>(entries: seq<T>, name: T -> string, show: T -> Tree,
                                       parse: (string, Tree) -> Result<T, E>, valid: T -> bool)
    requires Inverse(name, show, parse, valid) && InNameOrder(entries, name) && forall x :: x in entries ==> valid(x)
    ensures ParseFields(PrintAll(entries, name, show), parse) == Ok(entries)
  {
    var fields := PrintAll(entries, name, show);
    var keys := SortedKeys(fields.Keys);
    SortedKeysExact(fields.Keys);
    KeysOfPrinted(entries, name, show);
    PrintAllExact(entries, name, show);
    ParseAllExact(keys, fields, parse);
    forall i | 0 <= i < |keys| ensures parse(keys[i], fields[keys[i]]) == Ok(entries[i]) {
      assert entries[i] in entries && keys[i] == name(entries[i]);
    }
    var r := ParseAll(keys, fields, parse);
    assert r.Ok? && |r.value| == |entries|;
    assert forall i :: 0 <= i < |keys| ==> Ok(r.value[i]) == parse(keys[i], fields[keys[i]]) == Ok(entries[i]);
    assert r.value == entries;
  }

  /** Entry `i` is what field `keys[i]` prints. */
  ghost predicate Matches<T(!new)>(keys: seq<string>, fields: map<string, Tree>, entries: seq<T>,
                                   name: T -> string, show: T -> Tree) {
    && |entries| == |keys|
    && (forall i :: 0 <= i < |keys| ==> keys[i] in fields)
    && (forall i :: 0 <= i < |keys| ==> name(entries[i]) == keys[i] && show(entries[i]) == fields[keys[i]])
  }

  lemma {:induction false} ParsedMatch<T(!new), E(!new)>(fields: map<string, Tree>, name: T -> string, show: T -> Tree,
                                      parse: (string, Tree) -> Result<T, E>, valid: T -> bool, entries: seq<T>)
    requires Inverse(name, show, parse, valid) && ParseFields(fields, parse) == Ok(entries)
    ensures Matches(SortedKeys(fields.Keys), fields, entries, name, show)
    ensures forall x :: x in entries ==> valid(x)
  {
    var keys := SortedKeys(fields.Keys);
    SortedKeysExact(fields.Keys);
    ParseAllExact(keys, fields, parse);
    forall i | 0 <= i < |keys|
      ensures valid(entries[i]) && name(entries[i]) == keys[i] && show(entries[i]) == fields[keys[i]]
    {
      assert parse(keys[i], fields[keys[i]]) == Ok(entries[i]);
    }
  }

  lemma {:induction false} MatchesPrint<T(!new)>(keys: seq<string>, fields: map<string, Tree>, entries: seq<T>,
                              name: T -> string, show: T -> Tree)
    requires Matches(keys, fields, entries, name, show) && Distinct(keys) && forall k :: k in keys <==> k in fields
    ensures DistinctNames(entries, name) && PrintAll(entries, name, show) == fields
  {
    PrintAllExact(entries, name, show);
    var printed := PrintAll(entries, name, show);
    forall k ensures k in printed <==> k in fields {
      if k in fields {
        var i :| 0 <= i < |keys| && keys[i] == k;
      }
    }
    forall k | k in fields ensures printed[k] == fields[k] {
      var i :| 0 <= i < |keys| && keys[i] == k;
    }
  }

  /** Printing what was parsed returns the fields. */
  lemma {:induction false} PrintParsed<T(!new), E(!new)>(fields: map<string, Tree>, name: T -> string, show: T -> Tree,
                                      parse: (string, Tree) -> Result<T, E>, valid: T -> bool, entries: seq<T>)
    requires Inverse(name, show, parse, valid)
    requires ParseFields(fields, parse) == Ok(entries)
    ensures InNameOrder(entries, name) && PrintAll(entries, name, show) == fields
    ensures forall x :: x in entries ==> valid(x)
    ensures Canonical(entries, name) == entries
  {
    var keys := SortedKeys(fields.Keys);
    ParsedMatch(fields, name, show, parse, valid, entries);
    SortedKeysExact(fields.Keys);
    SortedKeysDistinct(fields.Keys);
    MatchesPrint(keys, fields, entries, name, show);
    SortedKeysOrdered(fields.Keys);
    forall i, j | 0 <= i < j < |entries| ensures ByName(name)(entries[i], entries[j]) {
      assert Le()(keys[i], keys[j]);
    }
    CanonicalUnique(entries, entries, name);
  }
}
