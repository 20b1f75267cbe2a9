/** Names in order: what ORDER BY a name column, and sorting directory entries by name, give. */
module Order {

  predicate LessEq(a: string, b: string) {
    if a == "" then true
    else if b == "" then false
    else a[0] < b[0] || (a[0] == b[0] && LessEq(a[1..], b[1..]))
  }

  /** The two agree before position k, and there `a` ends or has the smaller character. */
  predicate SplitAt(a: string, b: string, k: nat) {
    k <= |a| && k <= |b| && a[..k] == b[..k] && (k == |a| || (k < |b| && a[k] < b[k]))
  }

  lemma {:induction false} SplitOrders(a: string, b: string, k: nat)
    requires SplitAt(a, b, k)
    ensures LessEq(a, b)
  {
    if k > 0 {
      assert a[..k] == [a[0]] + a[1..][..k - 1] && b[..k] == [b[0]] + b[1..][..k - 1];
      assert a[..k][0] == b[..k][0] && a[..k][1..] == b[..k][1..];
      SplitOrders(a[1..], b[1..], k - 1);
    }
  }

  lemma {:induction false} OrderSplits(a: string, b: string) returns (k: nat)
    requires LessEq(a, b)
    ensures SplitAt(a, b, k)
  {
    k := 0;
    if a != "" && a[0] == b[0] {
      var j := OrderSplits(a[1..], b[1..]);
      k := j + 1;
      assert a[..k] == [a[0]] + a[1..][..j] && b[..k] == [b[0]] + b[1..][..j];
    }
  }

  /** Lexicographic by character: at the first difference the smaller character, or the end, comes first. */
  lemma LessEqMeans(a: string, b: string)
    ensures LessEq(a, b) <==> exists k: nat :: SplitAt(a, b, k)
  {
    if LessEq(a, b) {
      var k := OrderSplits(a, b);
    }
    if k: nat :| SplitAt(a, b, k) {
      SplitOrders(a, b, k);
    }
  }

  lemma {:induction false} LessEqReflexive(a: string)
    ensures LessEq(a, a)
  {
    if a != "" { LessEqReflexive(a[1..]); }
  }

  lemma {:induction false} LessEqTotal(a: string, b: string)
    ensures LessEq(a, b) || LessEq(b, a)
  {
    if a != "" && b != "" { LessEqTotal(a[1..], b[1..]); }
  }

  lemma {:induction false} LessEqAntisymmetric(a: string, b: string)
    ensures LessEq(a, b) && LessEq(b, a) ==> a == b
  {
    if a != "" && b != "" {
      LessEqAntisymmetric(a[1..], b[1..]);
      assert a == [a[0]] + a[1..] && b == [b[0]] + b[1..];
    }
  }

  lemma {:induction false} LessEqTransitive(a: string, b: string, c: string)
    ensures LessEq(a, b) && LessEq(b, c) ==> LessEq(a, c)
  {
    if a != "" && b != "" && c != "" { LessEqTransitive(a[1..], b[1..], c[1..]); }
  }

  predicate IsLeast(m: string, names: set<string>) {
    m in names && forall x :: x in names ==> LessEq(m, x)
  }

  lemma {:induction false} LeastExists(names: set<string>)
    requires names != {}
    ensures exists m :: IsLeast(m, names)
  {
    var x :| x in names;
    LessEqReflexive(x);
    if names == {x} {
      assert IsLeast(x, names);
    } else {
      LeastExists(names - {x});
      var m :| IsLeast(m, names - {x});
      LessEqTotal(m, x);
      if LessEq(m, x) {
        assert IsLeast(m, names);
      } else {
        forall y | y in names ensures LessEq(x, y) { LessEqTransitive(x, m, y); }
        assert IsLeast(x, names);
      }
    }
  }

  lemma LeastUnique(m: string, n: string, names: set<string>)
    requires IsLeast(m, names) && IsLeast(n, names)
    ensures m == n
  {
    LessEqAntisymmetric(m, n);
  }

  function Least(names: set<string>): (m: string)
    requires names != {}
    ensures IsLeast(m, names)
  {
    LeastExists(names);
    assert forall m, n :: IsLeast(m, names) && IsLeast(n, names) ==> m == n by {
      forall m, n | IsLeast(m, names) && IsLeast(n, names) ensures m == n { LeastUnique(m, n, names); }
    }
    var m :| m in names && IsLeast(m, names);
    m
  }

  /** The names in order. */
  function Sorted(names: set<string>): seq<string> {
    if names == {} then [] else [Least(names)] + Sorted(names - {Least(names)})
  }

  function Elements(xs: seq<string>): set<string> {
    set x | x in xs
  }

  predicate Ascending(xs: seq<string>) {
    forall i, j :: 0 <= i < j < |xs| ==> LessEq(xs[i], xs[j])
  }

  predicate Distinct(xs: seq<string>) {
    forall i, j :: 0 <= i < j < |xs| ==> xs[i] != xs[j]
  }

  /** `Sorted` lists exactly the given names, once each, in order. */
  lemma {:induction false} SortedSound(names: set<string>)
    ensures Ascending(Sorted(names)) && Distinct(Sorted(names))
    ensures forall x :: x in Sorted(names) <==> x in names
  {
    if names != {} {
      var m := Least(names);
      var rest := Sorted(names - {m});
      SortedSound(names - {m});
      assert Sorted(names) == [m] + rest;
      forall i, j | 0 <= i < j < |Sorted(names)|
        ensures LessEq(Sorted(names)[i], Sorted(names)[j]) && Sorted(names)[i] != Sorted(names)[j]
      {
        assert Sorted(names)[j] == rest[j - 1] && rest[j - 1] in rest;
      }
    }
  }

  lemma {:induction false} SortedMultiset(names: set<string>)
    ensures multiset(Sorted(names)) == multiset(names)
  {
    if names != {} {
      var m := Least(names);
      SortedMultiset(names - {m});
      assert names == {m} + (names - {m});
    }
  }
}
