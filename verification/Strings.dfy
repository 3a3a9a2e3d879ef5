/** Python's string order, and dictionary keys listed in it. */
module Strings {
  import opened Sorting

  /** `a <= b`, by code points. */
  predicate StringLe(a: string, b: string) {
    if a == "" then true
    else if b == "" then false
    else if a[0] != b[0] then a[0] < b[0]
    else StringLe(a[1..], b[1..])
  }

  function Le(): (string, string) -> bool { (a: string, b: string) => StringLe(a, b) }

  lemma {:induction false} LeTotal(a: string, b: string)
    ensures StringLe(a, b) || StringLe(b, a)
  {
    if a != "" && b != "" && a[0] == b[0] { LeTotal(a[1..], b[1..]); }
  }

  lemma {:induction false} LeAntisymmetric(a: string, b: string)
    requires StringLe(a, b) && StringLe(b, a)
    ensures a == b
  {
    if a != "" && b != "" {
      LeAntisymmetric(a[1..], b[1..]);
      assert a == [a[0]] + a[1..] && b == [b[0]] + b[1..];
    }
  }

  lemma {:induction false} LeTransitive(a: string, b: string, c: string)
    requires StringLe(a, b) && StringLe(b, c)
    ensures StringLe(a, c)
  {
    if a != "" && b != "" && c != "" && a[0] == b[0] == c[0] { LeTransitive(a[1..], b[1..], c[1..]); }
  }

  lemma {:induction false} LeIsPreorder()
    ensures TotalPreorder(Le())
  {
    forall a, b ensures Le()(a, b) || Le()(b, a) { LeTotal(a, b); }
    forall a, b, c | Le()(a, b) && Le()(b, c) ensures Le()(a, c) { LeTransitive(a, b, c); }
  }

  predicate IsLeast(s: set<string>, x: string) {
    x in s && forall y :: y in s ==> StringLe(x, y)
  }

  lemma {:induction false} LeastExists(s: set<string>)
    requires s != {}
    ensures exists x :: IsLeast(s, x)
    ensures forall x, y :: IsLeast(s, x) && IsLeast(s, y) ==> x == y
    decreases s
  {
    var a :| a in s;
    LeTotal(a, a);
    if s == {a} {
      assert IsLeast(s, a);
    } else {
      LeastExists(s - {a});
      var b :| IsLeast(s - {a}, b);
      LeTotal(a, b);
      if StringLe(a, b) {
        forall y | y in s ensures StringLe(a, y) {
          if y != a { LeTransitive(a, b, y); }
        }
        assert IsLeast(s, a);
      } else {
        assert IsLeast(s, b);
      }
    }
    forall x, y | IsLeast(s, x) && IsLeast(s, y) ensures x == y { LeAntisymmetric(x, y); }
  }

  /** `sorted(s)`. */
  function SortedKeys(s: set<string>): seq<string> {
    if s == {} then []
    else
      LeastExists(s);
      var x :| IsLeast(s, x);
      [x] + SortedKeys(s - {x})
  }

  lemma {:induction false} SortedKeysExact(s: set<string>)
    ensures forall k :: k in SortedKeys(s) <==> k in s
    decreases s
  {
    if s != {} {
      LeastExists(s);
      var x :| IsLeast(s, x);
      SortedKeysExact(s - {x});
    }
  }

  lemma {:induction false} SortedKeysDistinct(s: set<string>)
    ensures Distinct(SortedKeys(s)) && |SortedKeys(s)| == |s|
    decreases s
  {
    if s != {} {
      LeastExists(s);
      var x :| IsLeast(s, x);
      SortedKeysExact(s - {x});
      SortedKeysDistinct(s - {x});
    }
  }
}
