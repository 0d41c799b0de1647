/** The order Go sorts strings in, and the sorted list of a set of strings. */
module Strings {
  /** `a` comes no later than `b`. */
  predicate Leq(a: string, b: string) {
    a == "" || (b != "" && (a[0] < b[0] || (a[0] == b[0] && Leq(a[1..], b[1..]))))
  }

  lemma LeqTotal(a: string, b: string)
    ensures Leq(a, b) || Leq(b, a)
  {
  }

  lemma {:induction false} LeqAntisymmetric(a: string, b: string)
    requires Leq(a, b) && Leq(b, a)
    ensures a == b
  {
    if a != "" {
      LeqAntisymmetric(a[1..], b[1..]);
      assert a == [a[0]] + a[1..] && b == [b[0]] + b[1..];
    }
  }

  lemma {:induction false} LeqTransitive(a: string, b: string, c: string)
    requires Leq(a, b) && Leq(b, c)
    ensures Leq(a, c)
  {
    if a != "" && a[0] == b[0] == c[0] {
      LeqTransitive(a[1..], b[1..], c[1..]);
    }
  }

  /** The first difference decides, and a prefix comes first. */
  lemma {:induction false} LeqExactly(a: string, b: string, i: nat)
    requires i <= |a| && i <= |b| && a[..i] == b[..i]
    ensures i < |a| && i < |b| && a[i] != b[i] ==> (Leq(a, b) <==> a[i] < b[i])
    ensures i == |a| ==> Leq(a, b)
  {
    if i > 0 {
      assert a[0] == a[..i][0] && b[0] == b[..i][0];
      assert a[1..][..i - 1] == a[..i][1..] && b[1..][..i - 1] == b[..i][1..];
      LeqExactly(a[1..], b[1..], i - 1);
    }
  }

  predicate IsLeast(s: set<string>, k: string) {
    k in s && forall x | x in s :: Leq(k, x)
  }

  lemma LeastOfMore(s: set<string>, a: string, k: string) returns (l: string)
    requires a in s && IsLeast(s - {a}, k)
    ensures IsLeast(s, l)
  {
    LeqTotal(a, k);
    LeqTotal(a, a);
    l := if Leq(a, k) then a else k;
    forall x | x in s
      ensures Leq(l, x)
    {
      if x != a && l == a {
        LeqTransitive(a, k, x);
      }
    }
  }

  lemma {:induction false} LeastExists(s: set<string>)
    requires s != {}
    ensures exists k :: IsLeast(s, k)
  {
    var a :| a in s;
    if s == {a} {
      LeqTotal(a, a);
      assert IsLeast(s, a);
    } else {
      LeastExists(s - {a});
      var k :| IsLeast(s - {a}, k);
      var l := LeastOfMore(s, a, k);
    }
  }

  lemma LeastIsUnique(s: set<string>)
    ensures forall k, l | IsLeast(s, k) && IsLeast(s, l) :: k == l
  {
    forall k, l | IsLeast(s, k) && IsLeast(s, l)
      ensures k == l
    {
      LeqAntisymmetric(k, l);
    }
  }

  function Least(s: set<string>): (k: string)
    requires s != {}
    ensures IsLeast(s, k)
  {
    LeastExists(s);
    LeastIsUnique(s);
    var k :| k in s && IsLeast(s, k);
    k
  }

  /** The elements of `s` in ascending order. */
  function Sorted(s: set<string>): (r: seq<string>)
    ensures forall x :: x in r <==> x in s
    ensures forall i, j | 0 <= i < j < |r| :: Leq(r[i], r[j]) && r[i] != r[j]
  {
    if s == {} then [] else
      var k := Least(s);
      [k] + Sorted(s - {k})
  }
}
