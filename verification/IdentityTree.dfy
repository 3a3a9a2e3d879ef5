/**
 JSON documents as finite trees, Python's equality of what they are read as, and
 `_identity_differences` of tools/bigcherry/e2e_smoke_campaign.py. Two trees are equal when
 their canonical texts are; Python also equates `1`, `1.0` and `True`.
 */
module IdentityTree {
  import opened Sorting
  import opened Strings
  import opened Wrappers

  datatype Tree =
    | Null
    | Bool(b: bool)
    | Number(n: int)
    | Float(r: real)
    | Text(s: string)
    | List(items: seq<Tree>)
    | Dict(fields: map<string, Tree>)

  /** The number that Python compares a leaf by, if it does. */
  function Numeric(t: Tree): Option<real> {
    match t
    case Bool(b) => Some(if b then 1.0 else 0.0)
    case Number(n) => Some(n as real)
    case Float(r) => Some(r)
    case _ => None
  }

  /** Python's `==`. */
  predicate PyEqual(a: Tree, b: Tree) {
    if a.Dict? && b.Dict? then
      && a.fields.Keys == b.fields.Keys
      && forall k :: k in a.fields && k in b.fields ==> PyEqual(a.fields[k], b.fields[k])
    else if a.List? && b.List? then
      && |a.items| == |b.items|
      && forall i :: 0 <= i < |a.items| && i < |b.items| ==> PyEqual(a.items[i], b.items[i])
    else if Numeric(a).Some? then Numeric(a) == Numeric(b)
    else a == b
  }

  lemma {:induction false} PyEqualReflexive(a: Tree)
    ensures PyEqual(a, a)
  {
    match a {
      case Dict(fields) => forall k | k in fields ensures PyEqual(fields[k], fields[k]) { PyEqualReflexive(fields[k]); }
      case List(items) => forall i | 0 <= i < |items| ensures PyEqual(items[i], items[i]) { PyEqualReflexive(items[i]); }
      case _ =>
    }
  }

  datatype Kind = Added | Removed | Changed

  /** One reported difference: the keys leading to it, and how it differs. */
  datatype Difference = Difference(path: seq<string>, kind: Kind)

  function Under(key: string, ds: seq<Difference>): (r: seq<Difference>)
    ensures |r| == |ds|
    ensures forall i :: 0 <= i < |ds| ==> r[i] == Difference([key] + ds[i].path, ds[i].kind)
  {
    if ds == [] then [] else [Difference([key] + ds[0].path, ds[0].kind)] + Under(key, ds[1..])
  }

  /** `_identity_differences`, with paths as key sequences. */
  function Differences(before: Tree, after: Tree): seq<Difference>
    decreases before, 1
  {
    if before.Dict? && after.Dict? then
      FieldDifferences(before, after, SortedKeys(before.fields.Keys + after.fields.Keys))
    else if !PyEqual(before, after) then [Difference([], Changed)]
    else []
  }

  /** The loop over the sorted keys. */
  function FieldDifferences(before: Tree, after: Tree, keys: seq<string>): seq<Difference>
    requires before.Dict? && after.Dict?
    decreases before, 0, |keys|
  {
    if keys == [] then []
    else FieldDifference(before, after, keys[0]) + FieldDifferences(before, after, keys[1..])
  }

  function FieldDifference(before: Tree, after: Tree, key: string): seq<Difference>
    requires before.Dict? && after.Dict?
    decreases before, 0, 0
  {
    if key !in before.fields then [Difference([key], Added)]
    else if key !in after.fields then [Difference([key], Removed)]
    else Under(key, Differences(before.fields[key], after.fields[key]))
  }

  /** The value at a path of keys. */
  ghost function Lookup(t: Tree, path: seq<string>): Option<Tree>
    decreases |path|
  {
    if path == [] then Some(t)
    else if t.Dict? && path[0] in t.fields then Lookup(t.fields[path[0]], path[1..])
    else None
  }

  /** A report that is true of the two documents. */
  ghost predicate TrueOf(before: Tree, after: Tree, d: Difference) {
    var a, b := Lookup(before, d.path), Lookup(after, d.path);
    match d.kind
    case Added => a.None? && b.Some?
    case Removed => a.Some? && b.None?
    case Changed => a.Some? && b.Some? && !PyEqual(a.value, b.value) && !(a.value.Dict? && b.value.Dict?)
  }

  lemma {:induction false} FieldOf(before: Tree, after: Tree, keys: seq<string>, d: Difference) returns (k: string)
    requires before.Dict? && after.Dict? && d in FieldDifferences(before, after, keys)
    ensures k in keys && d in FieldDifference(before, after, k)
    decreases |keys|
  {
    if d in FieldDifference(before, after, keys[0]) {
      k := keys[0];
    } else {
      k := FieldOf(before, after, keys[1..], d);
    }
  }

  lemma {:induction false} FieldAmong(before: Tree, after: Tree, keys: seq<string>, k: string, d: Difference)
    requires before.Dict? && after.Dict? && k in keys && d in FieldDifference(before, after, k)
    ensures d in FieldDifferences(before, after, keys)
    decreases |keys|
  {
    if k != keys[0] { FieldAmong(before, after, keys[1..], k, d); }
  }

  lemma {:induction false} UnderMember(key: string, ds: seq<Difference>, d: Difference) returns (e: Difference)
    requires d in Under(key, ds)
    ensures e in ds && d == Difference([key] + e.path, e.kind)
  {
    var i :| 0 <= i < |ds| && Under(key, ds)[i] == d;
    e := ds[i];
  }

  lemma {:induction false} TrueUnder(before: Tree, after: Tree, key: string, e: Difference)
    requires before.Dict? && after.Dict? && key in before.fields && key in after.fields
    requires TrueOf(before.fields[key], after.fields[key], e)
    ensures TrueOf(before, after, Difference([key] + e.path, e.kind))
  {
    assert ([key] + e.path)[1..] == e.path;
  }

  lemma {:induction false} FieldTrue(before: Tree, after: Tree, k: string, d: Difference)
    requires before.Dict? && after.Dict? && (k in before.fields || k in after.fields)
    requires d in FieldDifference(before, after, k)
    requires k in before.fields && k in after.fields ==>
      forall e :: e in Differences(before.fields[k], after.fields[k]) ==> TrueOf(before.fields[k], after.fields[k], e)
    ensures TrueOf(before, after, d)
  {
    if k in before.fields && k in after.fields {
      var e := UnderMember(k, Differences(before.fields[k], after.fields[k]), d);
      TrueUnder(before, after, k, e);
    } else {
      assert d.path == [k];
    }
  }

  /** Every report is true. */
  lemma {:induction false} DifferencesSound(before: Tree, after: Tree, d: Difference)
    requires d in Differences(before, after)
    ensures TrueOf(before, after, d)
    decreases before
  {
    if before.Dict? && after.Dict? {
      var all := before.fields.Keys + after.fields.Keys;
      var k := FieldOf(before, after, SortedKeys(all), d);
      assert k in all by { SortedKeysExact(all); }
      if k in before.fields && k in after.fields {
        forall e | e in Differences(before.fields[k], after.fields[k])
          ensures TrueOf(before.fields[k], after.fields[k], e)
        {
          DifferencesSound(before.fields[k], after.fields[k], e);
        }
      }
      FieldTrue(before, after, k, d);
    }
  }

  /** A report at, above or below a path. */
  ghost predicate Covers(before: Tree, after: Tree, path: seq<string>) {
    exists d :: d in Differences(before, after) && (d.path <= path || path <= d.path)
  }

  lemma {:induction false} FieldReported(before: Tree, after: Tree, key: string, d: Difference)
    requires before.Dict? && after.Dict? && (key in before.fields || key in after.fields)
    requires d in FieldDifference(before, after, key)
    ensures d in Differences(before, after)
  {
    var keys := SortedKeys(before.fields.Keys + after.fields.Keys);
    SortedKeysExact(before.fields.Keys + after.fields.Keys);
    FieldAmong(before, after, keys, key, d);
  }

  lemma {:induction false} CoversNested(before: Tree, after: Tree, key: string, path: seq<string>)
    requires before.Dict? && after.Dict? && key in before.fields && key in after.fields
    requires Covers(before.fields[key], after.fields[key], path)
    ensures Covers(before, after, [key] + path)
  {
    var inner := Differences(before.fields[key], after.fields[key]);
    var e :| e in inner && (e.path <= path || path <= e.path);
    var i :| 0 <= i < |inner| && inner[i] == e;
    var d := Under(key, inner)[i];
    FieldReported(before, after, key, d);
    assert d.path == [key] + e.path;
  }

  lemma {:induction false} CoversField(before: Tree, after: Tree, key: string, path: seq<string>)
    requires before.Dict? && after.Dict? && (key in before.fields || key in after.fields)
    requires key !in before.fields || key !in after.fields || Covers(before.fields[key], after.fields[key], path)
    ensures Covers(before, after, [key] + path)
  {
    if key in before.fields && key in after.fields {
      CoversNested(before, after, key, path);
    } else {
      var d := FieldDifference(before, after, key)[0];
      FieldReported(before, after, key, d);
      assert d.path == [key];
    }
  }

  /** What two documents hold at a path is the same to Python. */
  ghost predicate Agree(a: Option<Tree>, b: Option<Tree>) {
    if a.Some? && b.Some? then PyEqual(a.value, b.value) else a.None? && b.None?
  }

  /** Every place where the documents disagree is covered by a report. */
  lemma {:induction false} DifferencesComplete(before: Tree, after: Tree, path: seq<string>)
    requires !Agree(Lookup(before, path), Lookup(after, path))
    ensures Covers(before, after, path)
    decreases before
  {
    if !(before.Dict? && after.Dict?) {
      LeafDifference(before, after, path);
    } else if path == [] {
      var key := DifferingKey(before, after);
      if key in before.fields && key in after.fields {
        DifferencesComplete(before.fields[key], after.fields[key], []);
      }
      CoversField(before, after, key, []);
      var d :| d in Differences(before, after) && (d.path <= [key] + [] || [key] + [] <= d.path);
    } else {
      var key := path[0];
      if key in before.fields && key in after.fields {
        DifferencesComplete(before.fields[key], after.fields[key], path[1..]);
      }
      CoversField(before, after, key, path[1..]);
      assert [key] + path[1..] == path;
    }
  }

  lemma {:induction false} LeafDifference(before: Tree, after: Tree, path: seq<string>)
    requires !(before.Dict? && after.Dict?) && !Agree(Lookup(before, path), Lookup(after, path))
    ensures Covers(before, after, path)
  {
    assert Difference([], Changed) in Differences(before, after);
  }

  lemma {:induction false} DifferingKey(a: Tree, b: Tree) returns (key: string)
    requires a.Dict? && b.Dict? && !PyEqual(a, b)
    ensures key in a.fields || key in b.fields
    ensures !(key in a.fields && key in b.fields && PyEqual(a.fields[key], b.fields[key]))
  {
    if k :| k in a.fields && k !in b.fields {
      key := k;
    } else if k :| k in b.fields && k !in a.fields {
      key := k;
    } else {
      assert a.fields.Keys == b.fields.Keys;
      var k :| k in a.fields && k in b.fields && !PyEqual(a.fields[k], b.fields[k]);
      key := k;
    }
  }

  /** Documents that are equal to Python agree at every path. */
  lemma {:induction false} EqualAgree(before: Tree, after: Tree, path: seq<string>)
    requires PyEqual(before, after)
    ensures Agree(Lookup(before, path), Lookup(after, path))
    decreases |path|
  {
    if path != [] && before.Dict? && path[0] in before.fields {
      EqualAgree(before.fields[path[0]], after.fields[path[0]], path[1..]);
    }
  }

  /** `_identity_differences` is empty exactly for documents that are equal to Python. */
  lemma {:induction false} NoDifferencesIffEqual(before: Tree, after: Tree)
    ensures Differences(before, after) == [] <==> PyEqual(before, after)
  {
    if !PyEqual(before, after) {
      DifferencesComplete(before, after, []);
    } else if Differences(before, after) != [] {
      var d := Differences(before, after)[0];
      DifferencesSound(before, after, d);
      EqualAgree(before, after, d.path);
    }
  }

  // ------------------------------------------------------------------
  // Python's equality

  /** The document with every number and truth value written as a float. */
  function Floated(t: Tree): Tree {
    match t
    case Bool(b) => Float(if b then 1.0 else 0.0)
    case Number(n) => Float(n as real)
    case List(items) => List(seq(|items|, i requires 0 <= i < |items| => Floated(items[i])))
    case Dict(fields) => Dict(map k | k in fields :: Floated(fields[k]))
    case _ => t
  }

  /** Documents are equal to Python exactly when they are the same once their numbers are floats. */
  lemma {:induction false} PyEqualIffFloated(a: Tree, b: Tree)
    ensures PyEqual(a, b) <==> Floated(a) == Floated(b)
    decreases a, 1
  {
    if a.Dict? && b.Dict? {
      FloatedFields(a, b);
    } else if a.List? && b.List? {
      FloatedItems(a, b);
    }
  }

  lemma {:induction false} FloatedFields(a: Tree, b: Tree)
    requires a.Dict? && b.Dict?
    ensures PyEqual(a, b) <==> Floated(a) == Floated(b)
    decreases a, 0
  {
    var f, g := Floated(a).fields, Floated(b).fields;
    assert f.Keys == a.fields.Keys && g.Keys == b.fields.Keys;
    forall k | k in a.fields && k in b.fields ensures PyEqual(a.fields[k], b.fields[k]) <==> f[k] == g[k] {
      PyEqualIffFloated(a.fields[k], b.fields[k]);
    }
    if f == g {
      forall k | k in a.fields && k in b.fields ensures PyEqual(a.fields[k], b.fields[k]) { assert f[k] == g[k]; }
    }
    if PyEqual(a, b) { assert f == g; }
  }

  lemma {:induction false} FloatedItems(a: Tree, b: Tree)
    requires a.List? && b.List?
    ensures PyEqual(a, b) <==> Floated(a) == Floated(b)
    decreases a, 0
  {
    var f, g := Floated(a).items, Floated(b).items;
    forall i | 0 <= i < |a.items| && i < |b.items| ensures PyEqual(a.items[i], b.items[i]) <==> f[i] == g[i] {
      PyEqualIffFloated(a.items[i], b.items[i]);
    }
    if f == g {
      assert |a.items| == |b.items|;
      forall i | 0 <= i < |a.items| && i < |b.items| ensures PyEqual(a.items[i], b.items[i]) { assert f[i] == g[i]; }
    }
    if PyEqual(a, b) { assert f == g; }
  }
}
