/** Counting facts about finite sets and duplicate-free sequences. */
module Finite {
  lemma SmallerSet<T>(small: set<T>, big: set<T>)
    requires small < big
    ensures |small| < |big|
  {
    assert |big| == |small| + |big - small|
    by {
      assert small + (big - small) == big;
    }
    var x :| x in big && x !in small;
    assert x in big - small;
  }

  ghost function Range(n: nat): (r: set<nat>)
    ensures |r| == n && forall i :: i in r <==> 0 <= i < n
  {
    if n == 0 then {} else Range(n - 1) + {n - 1}
  }

  ghost function Elements<T(!new)>(s: seq<T>): (r: set<T>)
    ensures forall x :: x in r <==> x in s
  {
    if s == [] then {} else Elements(s[..|s| - 1]) + {s[|s| - 1]}
  }

  lemma {:induction false} DistinctCount<T(!new)>(s: seq<T>)
    requires forall i, j | 0 <= i < j < |s| :: s[i] != s[j]
    ensures |Elements(s)| == |s|
  {
    if s != [] {
      DistinctCount(s[..|s| - 1]);
      assert s[|s| - 1] !in s[..|s| - 1];
    }
  }

  /** Distinct indices below `n` are all of them exactly when there are `n`. */
  lemma DistinctFill(order: seq<nat>, n: nat)
    requires forall i, j | 0 <= i < j < |order| :: order[i] != order[j]
    requires forall i | 0 <= i < |order| :: order[i] < n
    ensures |order| == n <==> forall i: nat | i < n :: i in order
  {
    DistinctCount(order);
    assert Elements(order) <= Range(n);
    if Elements(order) != Range(n) {
      SmallerSet(Elements(order), Range(n));
      var x :| x in Range(n) && x !in Elements(order);
    } else {
      forall i: nat | i < n
        ensures i in order
      {
        assert i in Range(n);
      }
    }
  }
}
