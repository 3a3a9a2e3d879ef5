/**
 Generalised tuning keys: tools/bigcherry/generalise.py. A signature maps each
 field to a number or an array of numbers; `fields` is the fixed set of
 signature fields.
 */
module Generalise {
  import opened Wrappers
  import opened Sums

  datatype Value = Number(n: int) | Array(items: seq<int>)
  datatype Op = Zero | BucketPow2
  datatype Transform = Transform(field: string, op: Op, indices: Option<seq<int>>)
  datatype Policy = Policy(included: seq<string>, excluded: seq<string>, transforms: seq<Transform>, hash: string)
  datatype Error = PolicyFields | UnknownTransform | TransformedIncluded | MissingFields | NotAnArray | BadIndex | NotANumber
  datatype Key = Key(values: map<string, Value>, hash: string)

  type Signature = map<string, Value>

  // ---------------------------------------------------------------- power-of-two buckets

  /** `int.bit_length`. */
  function BitLength(n: nat): nat { if n == 0 then 0 else 1 + BitLength(n / 2) }

  function AtLeastOne(v: int): nat { if v < 1 then 1 else v }

  function Bucket(v: int): nat { Pow2(BitLength(AtLeastOne(v) - 1)) }

  lemma {:induction false} Pow2Monotone(j: nat, k: nat)
    requires j <= k
    ensures Pow2(j) <= Pow2(k)
  {
    if j < k { Pow2Monotone(j, k - 1); }
  }

  lemma {:induction false} BitLengthBrackets(n: nat)
    ensures n < Pow2(BitLength(n))
    ensures n > 0 ==> BitLength(n) > 0 && Pow2(BitLength(n) - 1) <= n
  {
    if n > 0 {
      BitLengthBrackets(n / 2);
      assert n == 2 * (n / 2) + n % 2;
      if n / 2 > 0 {
        assert Pow2(BitLength(n) - 1) == 2 * Pow2(BitLength(n / 2) - 1);
      }
    }
  }

  ghost predicate PowerOfTwo(p: int) { exists k: nat :: p == Pow2(k) }

  /** The least power of two that is at least `max(1, v)`. */
  lemma {:induction false} BucketIsLeast(v: int)
    ensures PowerOfTwo(Bucket(v)) && Bucket(v) >= 1 && Bucket(v) >= v
    ensures forall p :: PowerOfTwo(p) && p >= v ==> Bucket(v) <= p
  {
    var m := AtLeastOne(v) - 1;
    BitLengthBrackets(m);
    forall p | PowerOfTwo(p) && p >= v ensures Bucket(v) <= p {
      var k: nat :| p == Pow2(k);
      if k < BitLength(m) {
        Pow2Monotone(k, BitLength(m) - 1);
      } else {
        Pow2Monotone(BitLength(m), k);
      }
    }
  }

  lemma {:induction false} BucketMonotone(v: int, w: int)
    requires v <= w
    ensures Bucket(v) <= Bucket(w)
  {
    BucketIsLeast(v);
    BucketIsLeast(w);
  }

  lemma {:induction false} BucketIdempotent(v: int)
    ensures Bucket(Bucket(v)) == Bucket(v)
  {
    BucketIsLeast(v);
    BucketIsLeast(Bucket(v));
  }

  /** Two values share a bucket exactly when no power of two separates them. */
  lemma {:induction false} SameBucketIff(v: int, w: int)
    requires v <= w
    ensures Bucket(v) == Bucket(w) <==> !(exists p :: PowerOfTwo(p) && v <= p < w)
  {
    BucketIsLeast(v);
    BucketIsLeast(w);
    BucketMonotone(v, w);
    if Bucket(v) < Bucket(w) { assert PowerOfTwo(Bucket(v)) && v <= Bucket(v) < w; }
  }

  // ---------------------------------------------------------------- transforms

  function Apply(op: Op, v: int): int { if op == Zero then 0 else Bucket(v) }

  lemma {:induction false} ApplyTwice(op: Op, v: int)
    ensures Apply(op, Apply(op, v)) == Apply(op, v)
  {
    BucketIdempotent(v);
  }

  /** Every listed position transformed once, however often it is listed. */
  function ApplyAt(op: Op, items: seq<int>, indices: seq<int>): seq<int> {
    seq(|items|, i requires 0 <= i < |items| => if i in indices then Apply(op, items[i]) else items[i])
  }

  function Image(value: Value, t: Transform): Result<Value, Error> {
    if t.indices.Some? then
      if value.Number? then Err(NotAnArray)
      else if exists i :: i in t.indices.value && !(0 <= i < |value.items|) then Err(BadIndex)
      else Ok(Array(ApplyAt(t.op, value.items, t.indices.value)))
    else if t.op == Zero then
      Ok(if value.Array? then Array(seq(|value.items|, i => 0)) else Number(0))
    else if value.Array? then Err(NotANumber)
    else Ok(Number(Bucket(value.n)))
  }

  lemma {:induction false} ApplyAtStep(op: Op, items: seq<int>, indices: seq<int>, k: nat)
    requires k < |indices| && 0 <= indices[k] < |items|
    ensures var before := ApplyAt(op, items, indices[..k]);
      ApplyAt(op, items, indices[..k + 1]) == before[indices[k] := Apply(op, before[indices[k]])]
  {
    var i := indices[k];
    assert indices[..k + 1] == indices[..k] + [i];
    ApplyTwice(op, items[i]);
  }

  /** `_transform_value`: the indexed loop overwrites a copy position by position. */
  method TransformValue(value: Value, t: Transform) returns (r: Result<Value, Error>)
    ensures r == Image(value, t)
  {
    if t.indices.Some? {
      if value.Number? {
        return Err(NotAnArray);
      }
      var indices, output := t.indices.value, value.items;
      for k := 0 to |indices|
        invariant forall j :: 0 <= j < k ==> 0 <= indices[j] < |value.items|
        invariant output == ApplyAt(t.op, value.items, indices[..k])
      {
        var index := indices[k];
        if !(0 <= index < |output|) {
          assert index in indices;
          return Err(BadIndex);
        }
        ApplyAtStep(t.op, value.items, indices, k);
        output := output[index := Apply(t.op, output[index])];
      }
      assert indices[..|indices|] == indices;
      return Ok(Array(output));
    }
    if t.op == Zero {
      return Ok(if value.Array? then Array(seq(|value.items|, i => 0)) else Number(0));
    }
    if value.Array? {
      return Err(NotANumber);
    }
    return Ok(Number(Bucket(value.n)));
  }

  // ---------------------------------------------------------------- keys

  function Members(s: seq<string>): set<string> { set f | f in s }

  /** The field conditions of `validate_policy`. */
  function PolicyError(fields: set<string>, p: Policy): Option<Error> {
    if Members(p.included) + Members(p.excluded) != fields || !(Members(p.included) !! Members(p.excluded)) then
      Some(PolicyFields)
    else if exists t :: t in p.transforms && t.field !in fields then Some(UnknownTransform)
    else if exists t :: t in p.transforms && t.field in p.included then Some(TransformedIncluded)
    else None
  }

  /** The last transform of a field. */
  function LastFor(ts: seq<Transform>, f: string): Option<Transform> {
    if ts == [] then None
    else if ts[|ts| - 1].field == f then Some(ts[|ts| - 1])
    else LastFor(ts[..|ts| - 1], f)
  }

  function Transformed(ts: seq<Transform>): set<string> { set t | t in ts :: t.field }

  lemma {:induction false} LastForFound(ts: seq<Transform>, f: string)
    ensures LastFor(ts, f).Some? <==> f in Transformed(ts)
    ensures LastFor(ts, f).Some? ==> LastFor(ts, f).value in ts && LastFor(ts, f).value.field == f
  {
    if ts != [] {
      var n := |ts| - 1;
      assert ts == ts[..n] + [ts[n]];
      LastForFound(ts[..n], f);
      assert Transformed(ts) == Transformed(ts[..n]) + {ts[n].field};
    }
  }

  ghost predicate AllApply(signature: Signature, ts: seq<Transform>) {
    forall t :: t in ts ==> t.field in signature && Image(signature[t.field], t).Ok?
  }

  /** The value that the key holds for `f` after the transforms `ts`. */
  ghost function Held(signature: Signature, ts: seq<Transform>, f: string): Option<Value>
    requires f in signature
  {
    var last := LastFor(ts, f);
    if last.None? then Some(signature[f])
    else
      var image := Image(signature[f], last.value);
      if image.Ok? then Some(image.value) else None
  }

  /** A key holds the included fields verbatim and the image of each transformed field, and nothing else. */
  ghost predicate IsKey(signature: Signature, p: Policy, ts: seq<Transform>, values: map<string, Value>)
    requires forall f :: f in Members(p.included) + Transformed(ts) ==> f in signature
  {
    && values.Keys == Members(p.included) + Transformed(ts)
    && forall f :: f in values ==> Held(signature, ts, f) == Some(values[f])
  }

  lemma {:induction false} IsKeyStep(signature: Signature, p: Policy, k: nat, values: map<string, Value>, image: Value)
    requires k < |p.transforms|
    requires forall f :: f in Members(p.included) + Transformed(p.transforms) ==> f in signature
    requires IsKey(signature, p, p.transforms[..k], values)
    requires var t := p.transforms[k]; Image(signature[t.field], t) == Ok(image)
    ensures IsKey(signature, p, p.transforms[..k + 1], values[p.transforms[k].field := image])
  {
    var t, before, after := p.transforms[k], p.transforms[..k], p.transforms[..k + 1];
    assert after == before + [t];
    assert after[..|after| - 1] == before;
    assert Transformed(after) == Transformed(before) + {t.field};
    forall f | f in values && f != t.field ensures Held(signature, after, f) == Some(values[f]) {
      assert LastFor(after, f) == LastFor(before, f);
    }
  }

  ghost predicate Complete(fields: set<string>, signature: Signature) { fields <= signature.Keys }

  /** `generalised_canonical`. */
  method GeneralisedCanonical(fields: set<string>, signature: Signature, p: Policy) returns (r: Result<Key, Error>)
    ensures r.Ok? <==> PolicyError(fields, p).None? && Complete(fields, signature) && AllApply(signature, p.transforms)
    ensures r.Ok? ==> Members(p.included) + Transformed(p.transforms) <= fields
    ensures r.Ok? ==> r.value.hash == p.hash && IsKey(signature, p, p.transforms, r.value.values)
  {
    var failure := PolicyError(fields, p);
    if failure.Some? {
      return Err(failure.value);
    }
    if !(fields <= signature.Keys) {
      return Err(MissingFields);
    }
    assert Members(p.included) <= fields && Transformed(p.transforms) <= fields;
    var output := map f | f in Members(p.included) :: signature[f];
    NothingTransformed(signature, p, output);
    for k := 0 to |p.transforms|
      invariant AllApply(signature, p.transforms[..k])
      invariant IsKey(signature, p, p.transforms[..k], output)
    {
      var t := p.transforms[k];
      assert t in p.transforms;
      var image := TransformValue(signature[t.field], t);
      if image.Err? {
        return Err(image.error);
      }
      assert p.transforms[..k + 1] == p.transforms[..k] + [t];
      IsKeyStep(signature, p, k, output, image.value);
      output := output[t.field := image.value];
    }
    assert p.transforms[..|p.transforms|] == p.transforms;
    return Ok(Key(output, p.hash));
  }

  lemma {:induction false} NothingTransformed(signature: Signature, p: Policy, values: map<string, Value>)
    requires forall f :: f in Members(p.included) + Transformed(p.transforms) ==> f in signature
    requires values == map f | f in Members(p.included) && f in signature :: signature[f]
    ensures IsKey(signature, p, p.transforms[..0], values)
  {
    assert Transformed(p.transforms[..0]) == {};
  }

  // ---------------------------------------------------------------- grouping

  /** The signature has a key under the policy. */
  ghost predicate Keyed(fields: set<string>, signature: Signature, p: Policy) {
    && PolicyError(fields, p).None? && Complete(fields, signature) && AllApply(signature, p.transforms)
    && Members(p.included) + Transformed(p.transforms) <= fields
  }

  /** Two signatures look alike to `p`: equal included fields, equal images under each field's last transform. */
  ghost predicate Alike(a: Signature, b: Signature, p: Policy)
    requires forall f :: f in Members(p.included) + Transformed(p.transforms) ==> f in a && f in b
  {
    && (forall f :: f in p.included ==> a[f] == b[f])
    && (forall f :: f in Transformed(p.transforms) ==> AlikeAt(a, b, p.transforms, f))
  }

  ghost predicate AlikeAt(a: Signature, b: Signature, ts: seq<Transform>, f: string)
    requires f in a && f in b
  {
    var last := LastFor(ts, f);
    last.Some? ==> Image(a[f], last.value) == Image(b[f], last.value)
  }

  /** Under one policy, signatures share a key exactly when they look alike to it. */
  lemma {:induction false} SameKeyIffAlike(fields: set<string>, a: Signature, b: Signature, p: Policy,
                        ka: map<string, Value>, kb: map<string, Value>)
    requires Keyed(fields, a, p) && Keyed(fields, b, p)
    requires IsKey(a, p, p.transforms, ka) && IsKey(b, p, p.transforms, kb)
    ensures ka == kb <==> Alike(a, b, p)
  {
    var ts := p.transforms;
    forall f | f in ka ensures ka[f] == kb[f] <==> if f in p.included then a[f] == b[f] else AlikeAt(a, b, ts, f) {
      LastForFound(ts, f);
      assert Held(a, ts, f) == Some(ka[f]) && Held(b, ts, f) == Some(kb[f]);
    }
  }

  /** What a policy does with a field is a function of what another does with it. */
  ghost predicate CoarserAt(p: Policy, q: Policy, f: string) {
    var fine, coarse := LastFor(p.transforms, f), LastFor(q.transforms, f);
    || f in p.included
    || (f !in q.included && coarse.None?)
    || (fine.Some? && coarse.Some? && f !in q.included && fine.value.indices == coarse.value.indices
        && (fine.value.op == coarse.value.op || coarse.value.op == Zero))
  }

  /** Zeroing what was bucketed forgets more. */
  lemma {:induction false} ZeroForgetsMore(v: Value, w: Value, fine: Transform, coarse: Transform)
    requires fine.indices == coarse.indices && (fine.op == coarse.op || coarse.op == Zero)
    requires Image(v, fine).Ok? && Image(v, fine) == Image(w, fine)
    ensures Image(v, coarse) == Image(w, coarse)
  {
    if fine.op != coarse.op && fine.indices.Some? {
      var indices := fine.indices.value;
      var x, y := ApplyAt(fine.op, v.items, indices), ApplyAt(fine.op, w.items, indices);
      assert |v.items| == |x| == |y| == |w.items|;
      forall i | 0 <= i < |v.items| && i !in indices ensures v.items[i] == w.items[i] {
        assert x[i] == y[i];
      }
      assert ApplyAt(Zero, v.items, indices) == ApplyAt(Zero, w.items, indices);
    }
  }

  /** Bucketing a verbatim field, zeroing a bucketed one or dropping a field only merges groups. */
  lemma {:induction false} CoarserOnlyMerges(fields: set<string>, a: Signature, b: Signature, p: Policy, q: Policy)
    requires Keyed(fields, a, p) && Keyed(fields, b, p) && Keyed(fields, a, q) && Keyed(fields, b, q)
    requires forall f :: f in fields ==> CoarserAt(p, q, f)
    requires Alike(a, b, p)
    ensures Alike(a, b, q)
  {
    forall f | f in Members(q.included) + Transformed(q.transforms)
      ensures f in q.included ==> a[f] == b[f]
      ensures AlikeAt(a, b, q.transforms, f)
    {
      assert f in fields && CoarserAt(p, q, f);
      LastForFound(p.transforms, f);
      LastForFound(q.transforms, f);
      var fine, coarse := LastFor(p.transforms, f), LastFor(q.transforms, f);
      if f !in p.included && coarse.Some? && fine.Some? {
        assert AlikeAt(a, b, p.transforms, f);
        ZeroForgetsMore(a[f], b[f], fine.value, coarse.value);
      }
    }
  }

  // ------------------------------------------------------------------
  // What a transform and a policy are, entry by entry

  /** A valid policy splits the fields into included and excluded ones and transforms only excluded ones. */
  lemma {:induction false} PolicyValidIff(fields: set<string>, p: Policy)
    ensures PolicyError(fields, p).None? <==>
      && (forall f :: f in fields <==> f in p.included || f in p.excluded)
      && (forall f :: f in p.included ==> f !in p.excluded)
      && (forall t :: t in p.transforms ==> t.field in p.excluded)
  {
    assert Members(p.included) + Members(p.excluded) == fields <==>
      forall f :: f in fields <==> f in p.included || f in p.excluded by
    {
      forall f ensures f in Members(p.included) + Members(p.excluded) <==> f in p.included || f in p.excluded { }
    }
    assert Members(p.included) !! Members(p.excluded) <==> forall f :: f in p.included ==> f !in p.excluded by {
      forall f ensures f in Members(p.included) <==> f in p.included { }
      forall f ensures f in Members(p.excluded) <==> f in p.excluded { }
    }
  }

  /** Without indices: zero is zero throughout, and a bucket is taken of a number only. */
  lemma {:induction false} PlainImage(value: Value, op: Op, field: string)
    ensures var r := Image(value, Transform(field, op, None));
      && (op == Zero && value.Number? ==> r == Ok(Number(0)))
      && (op == Zero && value.Array? ==> r.Ok? && r.value.Array? && |r.value.items| == |value.items|)
      && (op == Zero && value.Array? ==> forall i :: 0 <= i < |value.items| ==> r.value.items[i] == 0)
      && (op == BucketPow2 ==> (r.Ok? <==> value.Number?))
      && (op == BucketPow2 && value.Number? ==> r.value.Number? && IsBucket(value.n, r.value.n))
  {
    if value.Number? { BucketIsLeast(value.n); }
  }

  /** With indices: an array with every index in range, changed at exactly those positions. */
  lemma {:induction false} IndexedImage(value: Value, op: Op, indices: seq<int>, field: string)
    ensures var r := Image(value, Transform(field, op, Some(indices)));
      && (r.Ok? <==> value.Array? && forall i :: i in indices ==> 0 <= i < |value.items|)
      && (r.Ok? ==> r.value.Array? && |r.value.items| == |value.items|)
      && (r.Ok? ==> forall i :: 0 <= i < |value.items| && i !in indices ==> r.value.items[i] == value.items[i])
      && (r.Ok? && op == Zero ==> forall i :: 0 <= i < |value.items| && i in indices ==> r.value.items[i] == 0)
      && (r.Ok? && op == BucketPow2 ==> forall i :: 0 <= i < |value.items| && i in indices ==>
            IsBucket(value.items[i], r.value.items[i]))
  {
    if value.Array? {
      forall i | 0 <= i < |value.items| ensures IsBucket(value.items[i], Bucket(value.items[i])) {
        BucketIsLeast(value.items[i]);
      }
    }
  }

  /** `b` is the least power of two that is at least `v`. */
  ghost predicate IsBucket(v: int, b: int) {
    PowerOfTwo(b) && b >= v && forall p :: PowerOfTwo(p) && p >= v ==> b <= p
  }
}
