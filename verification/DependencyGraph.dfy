/** Finite dependency graphs shared by every stage of the pipeline.

    A graph maps each node to the list of nodes it depends on, as `DependsOn` does in the
    job list. Reachability and cycles are stated by explicit paths, so that the search
    algorithms of the other modules are proved against a definition none of them uses. */
module DependencyGraph {
  import opened Finite

  type Name = string
  type Graph = map<Name, seq<Name>>

  /** The three states of a depth-first search. */
  datatype Mark = Unvisited | Visiting | Visited

  ghost predicate Edge(g: Graph, a: Name, b: Name) {
    a in g && b in g[a]
  }

  ghost predicate IsPath(g: Graph, p: seq<Name>) {
    p != [] && forall i | 0 <= i < |p| - 1 :: Edge(g, p[i], p[i + 1])
  }

  ghost predicate PathBetween(g: Graph, p: seq<Name>, a: Name, b: Name) {
    IsPath(g, p) && p[0] == a && p[|p| - 1] == b
  }

  /** `b` is `a` itself or one of its transitive dependencies. */
  ghost predicate Reach(g: Graph, a: Name, b: Name) {
    exists p :: PathBetween(g, p, a, b)
  }

  ghost predicate IsCycle(g: Graph, p: seq<Name>) {
    |p| > 1 && IsPath(g, p) && p[0] == p[|p| - 1]
  }

  ghost predicate Cyclic(g: Graph) {
    exists p :: IsCycle(g, p)
  }

  /** Every dependency is a node of the graph. */
  ghost predicate Closed(g: Graph) {
    forall a, b | Edge(g, a, b) :: b in g
  }

  ghost predicate Dag(g: Graph) {
    Closed(g) && !Cyclic(g)
  }

  lemma ReachSelf(g: Graph, a: Name)
    ensures Reach(g, a, a)
  {
    assert PathBetween(g, [a], a, a);
  }

  lemma ReachEdge(g: Graph, a: Name, b: Name)
    requires Edge(g, a, b)
    ensures Reach(g, a, b)
  {
    assert PathBetween(g, [a, b], a, b);
  }

  lemma JoinPaths(g: Graph, p: seq<Name>, q: seq<Name>)
    requires IsPath(g, p) && IsPath(g, q) && p[|p| - 1] == q[0]
    ensures PathBetween(g, p + q[1..], p[0], q[|q| - 1])
  {
    var r := p + q[1..];
    forall i | 0 <= i < |r| - 1
      ensures Edge(g, r[i], r[i + 1])
    {
      if i >= |p| - 1 {
        var j := i - (|p| - 1);
        assert r[i] == q[j] && r[i + 1] == q[j + 1];
      }
    }
  }

  lemma ReachTrans(g: Graph, a: Name, b: Name, c: Name)
    requires Reach(g, a, b) && Reach(g, b, c)
    ensures Reach(g, a, c)
  {
    var p :| PathBetween(g, p, a, b);
    var q :| PathBetween(g, q, b, c);
    JoinPaths(g, p, q);
  }

  lemma ReachStep(g: Graph, a: Name, b: Name, c: Name)
    requires Reach(g, a, b) && Edge(g, b, c)
    ensures Reach(g, a, c)
  {
    ReachEdge(g, b, c);
    ReachTrans(g, a, b, c);
  }

  /** A non-trivial path starts with an edge. */
  lemma FirstEdge(g: Graph, a: Name, b: Name) returns (m: Name)
    requires Reach(g, a, b) && a != b
    ensures Edge(g, a, m) && Reach(g, m, b)
  {
    var p :| PathBetween(g, p, a, b);
    m := p[1];
    assert Edge(g, p[0], p[1]);
    var q := p[1..];
    forall i | 0 <= i < |q| - 1
      ensures Edge(g, q[i], q[i + 1])
    {
      assert Edge(g, p[i + 1], p[i + 2]);
    }
    assert PathBetween(g, q, m, b);
  }

  /** A non-trivial path ends with an edge. */
  lemma LastEdge(g: Graph, a: Name, b: Name) returns (m: Name)
    requires Reach(g, a, b) && a != b
    ensures Reach(g, a, m) && Edge(g, m, b)
  {
    var p :| PathBetween(g, p, a, b);
    var n := |p|;
    m := p[n - 2];
    assert Edge(g, p[n - 2], p[n - 1]);
    assert PathBetween(g, p[..n - 1], a, m);
  }

  /** What is closed under edges contains everything reachable from its members. */
  lemma ClosedSetContains(g: Graph, s: set<Name>, a: Name, b: Name)
    requires a in s && Reach(g, a, b)
    requires forall x, y | x in s && Edge(g, x, y) :: y in s
    ensures b in s
  {
    var p :| PathBetween(g, p, a, b);
    var i := 0;
    while i < |p| - 1
      invariant 0 <= i < |p| && p[i] in s
    {
      assert Edge(g, p[i], p[i + 1]);
      i := i + 1;
    }
  }

  lemma ReachStaysInside(g: Graph, a: Name, b: Name)
    requires Closed(g) && a in g && Reach(g, a, b)
    ensures b in g
  {
    ClosedSetContains(g, g.Keys, a, b);
  }

  lemma EdgeBackIsCycle(g: Graph, a: Name, b: Name)
    requires Edge(g, a, b) && Reach(g, b, a)
    ensures Cyclic(g)
  {
    var q :| PathBetween(g, q, b, a);
    JoinPaths(g, [a, b], q);
    assert IsCycle(g, [a, b] + q[1..]);
  }

  /** The nodes reachable from `a`. In an acyclic graph this set shrinks strictly along
      every edge, which makes its size the rank all inductions over a pipeline use. */
  ghost function Below(g: Graph, a: Name): set<Name> {
    set x | x in g && Reach(g, a, x)
  }

  lemma BelowShrinks(g: Graph, a: Name, b: Name)
    requires !Cyclic(g) && Edge(g, a, b)
    ensures |Below(g, b)| < |Below(g, a)|
  {
    ReachEdge(g, a, b);
    forall x | x in Below(g, b)
      ensures x in Below(g, a)
    {
      ReachTrans(g, a, b, x);
    }
    ReachSelf(g, a);
    if Reach(g, b, a) {
      EdgeBackIsCycle(g, a, b);
    }
    assert a in Below(g, a) && a !in Below(g, b);
    SmallerSet(Below(g, b), Below(g, a));
  }

  lemma PathImage(g: Graph, h: Graph, f: map<Name, Name>, p: seq<Name>) returns (q: seq<Name>)
    requires IsPath(g, p) && |p| > 1
    requires forall a, b | Edge(g, a, b) :: a in f && b in f && Edge(h, f[a], f[b])
    ensures forall i | 0 <= i < |p| :: p[i] in f
    ensures |q| == |p| && forall i | 0 <= i < |p| :: q[i] == f[p[i]]
    ensures IsPath(h, q)
  {
    forall i | 0 <= i < |p|
      ensures p[i] in f
    {
      if i < |p| - 1 {
        assert Edge(g, p[i], p[i + 1]);
      } else {
        assert Edge(g, p[i - 1], p[i]);
      }
    }
    q := seq(|p|, i requires 0 <= i < |p| => f[p[i]]);
    forall i | 0 <= i < |q| - 1
      ensures Edge(h, q[i], q[i + 1])
    {
      assert Edge(g, p[i], p[i + 1]);
    }
  }

  /** A graph that maps into an acyclic one, edge to edge, is acyclic. */
  lemma HomomorphismKeepsAcyclic(g: Graph, h: Graph, f: map<Name, Name>)
    requires !Cyclic(h)
    requires forall a, b | Edge(g, a, b) :: a in f && b in f && Edge(h, f[a], f[b])
    ensures !Cyclic(g)
  {
    if Cyclic(g) {
      var p :| IsCycle(g, p);
      var q := PathImage(g, h, f, p);
      assert IsCycle(h, q);
    }
  }

  /** All names on edges, whether or not they are nodes. */
  ghost function Endpoints(g: Graph): set<Name> {
    g.Keys + set a, b | a in g && b in g[a] :: b
  }

  /** Where every member of a finite set has a successor in it, there is a cycle. */
  lemma {:induction false} NoWayOutIsCycle(g: Graph, s: set<Name>, a: Name)
    requires a in s && forall x | x in s :: exists y :: y in s && Edge(g, x, y)
    ensures Cyclic(g)
    decreases |Below(g, a)|
  {
    if !Cyclic(g) {
      var y :| y in s && Edge(g, a, y);
      BelowShrinks(g, a, y);
      NoWayOutIsCycle(g, s, y);
    }
  }

  lemma SubgraphReach(g: Graph, h: Graph, a: Name, b: Name)
    requires forall x, y | Edge(g, x, y) :: Edge(h, x, y)
    requires Reach(g, a, b)
    ensures Reach(h, a, b)
  {
    var p :| PathBetween(g, p, a, b);
    forall i | 0 <= i < |p| - 1
      ensures Edge(h, p[i], p[i + 1])
    {
      assert Edge(g, p[i], p[i + 1]);
    }
    assert PathBetween(h, p, a, b);
  }

  lemma SubgraphKeepsAcyclic(g: Graph, h: Graph)
    requires forall x, y | Edge(g, x, y) :: Edge(h, x, y)
    requires !Cyclic(h)
    ensures !Cyclic(g)
  {
    if Cyclic(g) {
      var p :| IsCycle(g, p);
      forall i | 0 <= i < |p| - 1
        ensures Edge(h, p[i], p[i + 1])
      {
        assert Edge(g, p[i], p[i + 1]);
      }
      assert IsCycle(h, p);
    }
  }

  /** The graph with every edge turned round. */
  ghost predicate Transposed(g: Graph, h: Graph) {
    forall a, b :: Edge(g, a, b) <==> Edge(h, b, a)
  }

  lemma ReachTransposed(g: Graph, h: Graph, a: Name, b: Name)
    requires Transposed(g, h) && Reach(g, a, b)
    ensures Reach(h, b, a)
  {
    var p :| PathBetween(g, p, a, b);
    var n := |p|;
    var q := seq(n, i requires 0 <= i < n => p[n - 1 - i]);
    forall i | 0 <= i < |q| - 1
      ensures Edge(h, q[i], q[i + 1])
    {
      assert Edge(g, p[n - 2 - i], p[n - 2 - i + 1]);
    }
    assert PathBetween(h, q, b, a);
  }

  /** `order` lists every node once, each after all of its dependencies. */
  ghost predicate Topological(g: Graph, order: seq<Name>) {
    && (forall i, j | 0 <= i < j < |order| :: order[i] != order[j])
    && (forall a :: a in order <==> a in g)
    && (forall i, b | 0 <= i < |order| && Edge(g, order[i], b) :: b in order[..i])
  }

  /** In a topological order every transitive dependency comes first. */
  lemma TopologicalPutsReachableFirst(g: Graph, order: seq<Name>, i: nat, b: Name)
    requires Topological(g, order) && i < |order|
    requires Reach(g, order[i], b) && order[i] != b
    ensures b in order[..i]
    decreases i
  {
    var m := FirstEdge(g, order[i], b);
    assert m in order[..i];
    var j :| 0 <= j < i && order[j] == m;
    if m != b {
      TopologicalPutsReachableFirst(g, order, j, b);
      assert order[..j] <= order[..i];
    }
  }

  lemma TopologicalIsDag(g: Graph, order: seq<Name>)
    requires Topological(g, order)
    ensures Dag(g)
  {
    forall a, b | Edge(g, a, b)
      ensures b in g
    {
      var i :| 0 <= i < |order| && order[i] == a;
      assert b in order[..i];
    }
    if Cyclic(g) {
      var p :| IsCycle(g, p);
      assert Edge(g, p[0], p[1]);
      var i :| 0 <= i < |order| && order[i] == p[0];
      assert p[1] in order[..i];
      var j :| 0 <= j < i && order[j] == p[1];
      var q := p[1..];
      assert PathBetween(g, q, p[1], p[0]) by {
        forall k | 0 <= k < |q| - 1
          ensures Edge(g, q[k], q[k + 1])
        {
          assert Edge(g, p[k + 1], p[k + 2]);
        }
      }
      TopologicalPutsReachableFirst(g, order, j, p[0]);
    }
  }
}
