/** What matrix expansion does to the dependency graph (pkg/pipeline/expand.go).

    Phase 1 makes disjoint isomorphic copies of the pipeline, one for each combination. Phase 2
    blows every job up into its variants and every edge into all edges between variants. Both
    keep the graph closed and acyclic. All this holds whenever the names are unique after each
    phase, which validation demands of the result anyway; `ExpandNames` says when they are. */
module ExpandGraph {
  import opened DependencyGraph
  import opened Wrappers
  import opened Pipeline
  import opened Substitute
  import opened ExpandedNames
  import opened Matrix
  import opened Expand

  /** Substituting a combination of a valid matrix gives the same in any map order when valid
      dimension names have no closing brace. */
  lemma MatrixSubstitutionIsDeterministic(dims: seq<Dimension>, rules: Rules, c: Combo)
    requires ValidMatrix(dims, rules) && c in AllCombos(dims)
    requires forall s | rules.validDim(s) :: '}' !in s
    ensures OrderNeverMatters(c.Keys, "matrix.")
  {
    var i :| 0 <= i < Size(dims) && c == Decode(dims, i);
    DecodedIsCombination(dims, i);
    forall k | k in c
      ensures '}' !in k
    {
      var d :| d in dims && d.name == k;
      var n :| 0 <= n < |dims| && dims[n] == d;
      assert rules.validDim(dims[n].name);
    }
    BraceFreeKeysArePrefixFree(c.Keys, "matrix.");
    OrderMattersOnlyWithPrefixes(c.Keys, "matrix.");
  }

  // ----- Lists of jobs with different names -----

  lemma NameMeansSame(jobs: seq<Job>, a: Job, b: Job)
    requires UniqueNames(jobs) && a in jobs && b in jobs && a.name == b.name
    ensures a == b
  {
  }

  /** With unique names, an edge is a dependency of a job in the list. */
  lemma EdgeIn(jobs: seq<Job>, j: Job, b: Name)
    requires UniqueNames(jobs) && j in jobs
    ensures Edge(GraphOf(jobs), j.name, b) <==> b in j.dependsOn
  {
    var i :| 0 <= i < |jobs| && jobs[i] == j;
    GraphAt(jobs, i);
  }

  lemma NodeIn(jobs: seq<Job>, n: Name)
    ensures n in GraphOf(jobs) <==> exists j :: j in jobs && j.name == n
  {
    GraphNodes(jobs, n);
    if j :| j in jobs && j.name == n {
      var i :| 0 <= i < |jobs| && jobs[i] == j;
    }
  }

  lemma JobOf(jobs: seq<Job>, n: Name) returns (j: Job)
    requires n in GraphOf(jobs)
    ensures j in jobs && j.name == n
  {
    var i := IndexOfName(jobs, n);
    j := jobs[i];
  }

  // ----- Lists made of blocks -----

  ghost function Flat(blocks: seq<seq<Job>>): seq<Job> {
    if blocks == [] then [] else Flat(blocks[..|blocks| - 1]) + blocks[|blocks| - 1]
  }

  lemma {:induction false} FlatHolds(blocks: seq<seq<Job>>, k: nat, m: nat)
    requires k < |blocks| && m < |blocks[k]|
    ensures blocks[k][m] in Flat(blocks)
  {
    if k < |blocks| - 1 {
      FlatHolds(blocks[..|blocks| - 1], k, m);
    }
  }

  lemma UniqueParts(a: seq<Job>, b: seq<Job>)
    requires UniqueNames(a + b)
    ensures UniqueNames(a) && UniqueNames(b)
    ensures forall x, y | x in a && y in b :: x.name != y.name
  {
    forall i, k | 0 <= i < k < |a|
      ensures a[i].name != a[k].name
    {
      assert (a + b)[i].name != (a + b)[k].name;
    }
    forall x, y | x in a && y in b
      ensures x.name != y.name
    {
      var i :| 0 <= i < |a| && a[i] == x;
      var k :| 0 <= k < |b| && b[k] == y;
      assert (a + b)[i].name != (a + b)[|a| + k].name;
    }
    forall i, k | 0 <= i < k < |b|
      ensures b[i].name != b[k].name
    {
      assert (a + b)[|a| + i].name != (a + b)[|a| + k].name;
    }
  }

  /** Position `m` of block `k` carries this name. */
  ghost predicate StandsAt(blocks: seq<seq<Job>>, k: nat, m: nat, n: Name) {
    k < |blocks| && m < |blocks[k]| && blocks[k][m].name == n
  }

  /** With unique names throughout, a name stands in one place. */
  lemma {:induction false} SamePlace(blocks: seq<seq<Job>>, k: nat, m: nat, l: nat, p: nat, name: Name)
    requires UniqueNames(Flat(blocks)) && StandsAt(blocks, k, m, name) && StandsAt(blocks, l, p, name)
    ensures k == l && m == p
    decreases |blocks|
  {
    var n := |blocks| - 1;
    UniqueParts(Flat(blocks[..n]), blocks[n]);
    assert blocks[k][m] in blocks[k] && blocks[l][p] in blocks[l];
    if k < n {
      FlatHolds(blocks[..n], k, m);
    }
    if l < n {
      FlatHolds(blocks[..n], l, p);
    }
    if k < n && l < n {
      SamePlace(blocks[..n], k, m, l, p, name);
    }
  }

  // ----- Phase 1 -----

  lemma DependencyIsJob(jobs: seq<Job>, a: Job, d: Name) returns (b: Job)
    requires UniqueNames(jobs) && Closed(GraphOf(jobs)) && a in jobs && d in a.dependsOn
    ensures b in jobs && b.name == d
  {
    EdgeIn(jobs, a, d);
    b := JobOf(jobs, d);
  }

  ghost predicate IsReplicaOf(jobs: seq<Job>, combos: seq<Combo>, v: Job, j: Job, c: Combo) {
    j in jobs && c in combos && v == Replica(j, c)
  }

  lemma {:induction false} CopiesComeFrom(jobs: seq<Job>, combos: seq<Combo>, v: Job) returns (j: Job, c: Combo)
    requires v in Copies(jobs, combos)
    ensures IsReplicaOf(jobs, combos, v, j, c)
  {
    var front, last := combos[..|combos| - 1], combos[|combos| - 1];
    assert combos == front + [last];
    if v in Copies(jobs, front) {
      j, c := CopiesComeFrom(jobs, front, v);
    } else {
      j := CopyComesFrom(jobs, last, v);
      c := last;
    }
  }

  lemma CopyComesFrom(jobs: seq<Job>, c: Combo, v: Job) returns (j: Job)
    requires v in Copy(jobs, c)
    ensures j in jobs && v == Replica(j, c)
  {
    var i :| 0 <= i < |jobs| && Copy(jobs, c)[i] == v;
    j := jobs[i];
  }

  lemma {:induction false} ReplicaIn(jobs: seq<Job>, combos: seq<Combo>, j: Job, c: Combo)
    requires j in jobs && c in combos
    ensures Replica(j, c) in Copies(jobs, combos)
  {
    var front, last := combos[..|combos| - 1], combos[|combos| - 1];
    assert combos == front + [last];
    if c in front {
      ReplicaIn(jobs, front, j, c);
    } else {
      var i :| 0 <= i < |jobs| && jobs[i] == j;
      assert Copy(jobs, last)[i] == Replica(j, c);
    }
  }

  /** One block for each combination. */
  ghost function CopyBlocks(jobs: seq<Job>, combos: seq<Combo>): (blocks: seq<seq<Job>>)
    ensures |blocks| == |combos| && forall k | 0 <= k < |combos| :: blocks[k] == Copy(jobs, combos[k])
  {
    seq(|combos|, k requires 0 <= k < |combos| => Copy(jobs, combos[k]))
  }

  lemma {:induction false} CopiesAreFlat(jobs: seq<Job>, combos: seq<Combo>)
    ensures Copies(jobs, combos) == Flat(CopyBlocks(jobs, combos))
  {
    if combos != [] {
      var front := combos[..|combos| - 1];
      CopiesAreFlat(jobs, front);
      assert CopyBlocks(jobs, combos)[..|front|] == CopyBlocks(jobs, front);
    }
  }

  lemma ReplicaStandsAt(jobs: seq<Job>, combos: seq<Combo>, a: Job, c: Combo) returns (k: nat, m: nat)
    requires a in jobs && c in combos
    ensures k < |combos| && m < |jobs| && combos[k] == c && jobs[m] == a
    ensures StandsAt(CopyBlocks(jobs, combos), k, m, Expanded(a.name, c))
  {
    k :| 0 <= k < |combos| && combos[k] == c;
    m :| 0 <= m < |jobs| && jobs[m] == a;
    assert CopyBlocks(jobs, combos)[k] == Copy(jobs, c);
  }

  /** With unique names after phase 1, a name tells job and combination. */
  lemma SameReplica(jobs: seq<Job>, combos: seq<Combo>, a: Job, c: Combo, b: Job, d: Combo)
    requires UniqueNames(Copies(jobs, combos))
    requires a in jobs && b in jobs && c in combos && d in combos && Expanded(a.name, c) == Expanded(b.name, d)
    ensures a == b && c == d
  {
    var k, m := ReplicaStandsAt(jobs, combos, a, c);
    var l, p := ReplicaStandsAt(jobs, combos, b, d);
    CopiesAreFlat(jobs, combos);
    SamePlace(CopyBlocks(jobs, combos), k, m, l, p, Expanded(a.name, c));
  }

  lemma CorrelatedMember(deps: seq<Name>, c: Combo, n: Name)
    ensures n in CorrelateDeps(deps, c) <==> exists d :: d in deps && n == Expanded(d, c)
  {
    var out := CorrelateDeps(deps, c);
    if n in out {
      var i :| 0 <= i < |out| && out[i] == n;
      assert deps[i] in deps;
    }
    if d :| d in deps && n == Expanded(d, c) {
      var i :| 0 <= i < |deps| && deps[i] == d;
      assert out[i] == n;
    }
  }

  /** `a` has a dependency that is no job's name but, expanded by `c`, this one. */
  ghost predicate NamesDirectly(jobs: seq<Job>, a: Job, c: Combo, n: Name) {
    exists d :: d in a.dependsOn && d !in GraphOf(jobs) && n == Expanded(d, c)
  }

  /** The copies repeat the edges of the pipeline, and no edge leads from one to another unless a
      dependency names the replica itself. */
  lemma CopiesAreIsomorphic(jobs: seq<Job>, combos: seq<Combo>, a: Job, c: Combo, b: Job, d: Combo)
    requires UniqueNames(jobs) && UniqueNames(Copies(jobs, combos))
    requires a in jobs && b in jobs && c in combos && d in combos
    ensures Edge(GraphOf(Copies(jobs, combos)), Expanded(a.name, c), Expanded(b.name, d))
       <==> (Edge(GraphOf(jobs), a.name, b.name) && c == d) || NamesDirectly(jobs, a, c, Expanded(b.name, d))
  {
    CopyEdge(jobs, combos, a, c, Expanded(b.name, d));
    EdgeIn(jobs, a, b.name);
    if n :| n in a.dependsOn && Expanded(b.name, d) == Expanded(n, c) && n in GraphOf(jobs) {
      var x := JobOf(jobs, n);
      SameReplica(jobs, combos, b, d, x, c);
    }
  }

  lemma CopyEdge(jobs: seq<Job>, combos: seq<Combo>, a: Job, c: Combo, y: Name)
    requires UniqueNames(Copies(jobs, combos)) && a in jobs && c in combos
    ensures Edge(GraphOf(Copies(jobs, combos)), Expanded(a.name, c), y)
       <==> exists d :: d in a.dependsOn && y == Expanded(d, c)
  {
    ReplicaIn(jobs, combos, a, c);
    EdgeIn(Copies(jobs, combos), Replica(a, c), y);
    CorrelatedMember(a.dependsOn, c, y);
  }

  lemma CopyEdgeComesFrom(jobs: seq<Job>, combos: seq<Combo>, x: Name, y: Name) returns (a: Job, c: Combo, d: Name)
    requires UniqueNames(Copies(jobs, combos)) && Edge(GraphOf(Copies(jobs, combos)), x, y)
    ensures NamedAfter(jobs, combos, x, a, c) && d in a.dependsOn && y == Expanded(d, c)
  {
    var out := Copies(jobs, combos);
    var v := JobOf(out, x);
    a, c := CopiesComeFrom(jobs, combos, v);
    CopyEdge(jobs, combos, a, c, y);
    d :| d in a.dependsOn && y == Expanded(d, c);
  }

  ghost predicate NamedAfter(jobs: seq<Job>, combos: seq<Combo>, n: Name, a: Job, c: Combo) {
    a in jobs && c in combos && n == Expanded(a.name, c)
  }

  /** The job a replica with this name comes from. */
  ghost function ReplicaOrigin(jobs: seq<Job>, combos: seq<Combo>, n: Name): (r: Name)
    ensures (exists a, c :: NamedAfter(jobs, combos, n, a, c)) ==>
              exists a, c :: NamedAfter(jobs, combos, n, a, c) && r == a.name
  {
    if a: Job, c: Combo :| NamedAfter(jobs, combos, n, a, c) then a.name else n
  }

  lemma OriginOfReplica(jobs: seq<Job>, combos: seq<Combo>, a: Job, c: Combo)
    requires UniqueNames(Copies(jobs, combos)) && a in jobs && c in combos
    ensures ReplicaOrigin(jobs, combos, Expanded(a.name, c)) == a.name
  {
    var n := Expanded(a.name, c);
    assert NamedAfter(jobs, combos, n, a, c);
    var b: Job, d: Combo :| NamedAfter(jobs, combos, n, b, d) && ReplicaOrigin(jobs, combos, n) == b.name;
    assert NamedAfter(jobs, combos, n, b, d);
    SameReplica(jobs, combos, a, c, b, d);
  }

  ghost predicate IsReplicaName(jobs: seq<Job>, combos: seq<Combo>, n: Name) {
    exists b, e :: NamedAfter(jobs, combos, n, b, e)
  }

  lemma ReplicaNodes(jobs: seq<Job>, combos: seq<Combo>, n: Name)
    ensures n in GraphOf(Copies(jobs, combos)) <==> IsReplicaName(jobs, combos, n)
  {
    NodeIn(Copies(jobs, combos), n);
    if v :| v in Copies(jobs, combos) && v.name == n {
      var b, e := CopiesComeFrom(jobs, combos, v);
      assert NamedAfter(jobs, combos, n, b, e);
    }
    if b, e :| NamedAfter(jobs, combos, n, b, e) {
      ReplicaIn(jobs, combos, b, e);
    }
  }

  /** Every dependency, expanded in every copy, is the name of a replica. */
  ghost predicate CopiesResolve(jobs: seq<Job>, combos: seq<Combo>) {
    forall a, c, d | a in jobs && c in combos && d in a.dependsOn :: IsReplicaName(jobs, combos, Expanded(d, c))
  }

  lemma CopiesAreClosed(jobs: seq<Job>, combos: seq<Combo>)
    requires UniqueNames(Copies(jobs, combos))
    ensures Closed(GraphOf(Copies(jobs, combos))) <==> CopiesResolve(jobs, combos)
  {
    var h := GraphOf(Copies(jobs, combos));
    if Closed(h) {
      forall a, c, d | a in jobs && c in combos && d in a.dependsOn
        ensures IsReplicaName(jobs, combos, Expanded(d, c))
      {
        CopyEdge(jobs, combos, a, c, Expanded(d, c));
        ReplicaNodes(jobs, combos, Expanded(d, c));
      }
    }
    if CopiesResolve(jobs, combos) {
      forall x, y | Edge(h, x, y)
        ensures y in h
      {
        var a, c, d := CopyEdgeComesFrom(jobs, combos, x, y);
        ReplicaNodes(jobs, combos, y);
      }
    }
  }

  lemma ClosedCopiesResolve(jobs: seq<Job>, combos: seq<Combo>)
    requires UniqueNames(jobs) && Closed(GraphOf(jobs))
    ensures CopiesResolve(jobs, combos)
  {
    forall a, c, d | a in jobs && c in combos && d in a.dependsOn
      ensures IsReplicaName(jobs, combos, Expanded(d, c))
    {
      var b := DependencyIsJob(jobs, a, d);
      assert NamedAfter(jobs, combos, Expanded(d, c), b, c);
    }
  }

  /** `ReplicaOrigin` maps the copies back edge by edge. */
  lemma CopiesMakeNoCycle(jobs: seq<Job>, combos: seq<Combo>)
    requires UniqueNames(jobs) && UniqueNames(Copies(jobs, combos)) && Closed(GraphOf(jobs)) && !Cyclic(GraphOf(jobs))
    ensures !Cyclic(GraphOf(Copies(jobs, combos)))
  {
    var g, h := GraphOf(jobs), GraphOf(Copies(jobs, combos));
    var f := map n | n in Endpoints(h) :: ReplicaOrigin(jobs, combos, n);
    forall x, y | Edge(h, x, y)
      ensures x in f && y in f && Edge(g, f[x], f[y])
    {
      var a, c, d := CopyEdgeComesFrom(jobs, combos, x, y);
      var b := DependencyIsJob(jobs, a, d);
      OriginOfReplica(jobs, combos, a, c);
      OriginOfReplica(jobs, combos, b, c);
      EdgeIn(jobs, a, d);
    }
    HomomorphismKeepsAcyclic(h, g, f);
  }

  /** One copy already repeats every cycle. */
  lemma CopiesKeepCycles(jobs: seq<Job>, combos: seq<Combo>)
    requires UniqueNames(jobs) && UniqueNames(Copies(jobs, combos)) && combos != [] && Cyclic(GraphOf(jobs))
    ensures Cyclic(GraphOf(Copies(jobs, combos)))
  {
    var g, h, c := GraphOf(jobs), GraphOf(Copies(jobs, combos)), combos[0];
    if !Cyclic(h) {
      var f := map n | n in Endpoints(g) :: Expanded(n, c);
      forall x, y | Edge(g, x, y)
        ensures x in f && y in f && Edge(h, f[x], f[y])
      {
        var a := JobOf(jobs, x);
        EdgeIn(jobs, a, y);
        CopyEdge(jobs, combos, a, c, Expanded(y, c));
      }
      HomomorphismKeepsAcyclic(g, h, f);
    }
  }

  /** The copies are closed exactly if every dependency, expanded, names a replica; they keep every
      cycle, and none is new if the pipeline was closed. */
  lemma CopiesKeepGraph(jobs: seq<Job>, combos: seq<Combo>)
    requires UniqueNames(jobs) && UniqueNames(Copies(jobs, combos)) && combos != []
    ensures Closed(GraphOf(Copies(jobs, combos))) <==> CopiesResolve(jobs, combos)
    ensures Cyclic(GraphOf(jobs)) ==> Cyclic(GraphOf(Copies(jobs, combos)))
    ensures Closed(GraphOf(jobs)) ==>
              CopiesResolve(jobs, combos) && (Cyclic(GraphOf(Copies(jobs, combos))) ==> Cyclic(GraphOf(jobs)))
  {
    CopiesAreClosed(jobs, combos);
    if Cyclic(GraphOf(jobs)) {
      CopiesKeepCycles(jobs, combos);
    }
    if Closed(GraphOf(jobs)) {
      ClosedCopiesResolve(jobs, combos);
      if !Cyclic(GraphOf(jobs)) {
        CopiesMakeNoCycle(jobs, combos);
      }
    }
  }

  // ----- Phase 2 -----

  /** Unique names before and after phase 2. */
  ghost predicate ReadyForPhaseTwo(jobs: seq<Job>) {
    UniqueNames(jobs) && UniqueNames(AllVariants(jobs))
  }

  lemma NamedJob(jobs: seq<Job>, v: Name) returns (x: Job)
    requires v in Names(jobs)
    ensures x in jobs && x.name == v
  {
    var i :| 0 <= i < |jobs| && Names(jobs)[i] == v;
    x := jobs[i];
  }

  lemma NameIn(jobs: seq<Job>, x: Job)
    requires x in jobs
    ensures x.name in Names(jobs)
  {
    var i :| 0 <= i < |jobs| && jobs[i] == x;
    assert Names(jobs)[i] == x.name;
  }

  lemma {:induction false} AllVariantsMember(jobs: seq<Job>, v: Job)
    ensures v in AllVariants(jobs) <==> exists j :: j in jobs && v in VariantsOf(j)
  {
    if jobs != [] {
      var front, last := jobs[..|jobs| - 1], jobs[|jobs| - 1];
      AllVariantsMember(front, v);
      assert forall j :: j in jobs <==> j in front || j == last;
    }
  }

  /** One block for each job. */
  ghost function VariantBlocks(jobs: seq<Job>): (blocks: seq<seq<Job>>)
    ensures |blocks| == |jobs| && forall m | 0 <= m < |jobs| :: blocks[m] == VariantsOf(jobs[m])
  {
    seq(|jobs|, m requires 0 <= m < |jobs| => VariantsOf(jobs[m]))
  }

  lemma {:induction false} VariantsAreFlat(jobs: seq<Job>)
    ensures AllVariants(jobs) == Flat(VariantBlocks(jobs))
  {
    if jobs != [] {
      var front := jobs[..|jobs| - 1];
      VariantsAreFlat(front);
      assert VariantBlocks(jobs)[..|front|] == VariantBlocks(front);
    }
  }

  lemma VariantStandsAt(jobs: seq<Job>, a: Job, v: Name) returns (m: nat, i: nat)
    requires a in jobs && v in Names(VariantsOf(a))
    ensures m < |jobs| && jobs[m] == a && StandsAt(VariantBlocks(jobs), m, i, v)
  {
    m :| 0 <= m < |jobs| && jobs[m] == a;
    i :| 0 <= i < |VariantsOf(a)| && Names(VariantsOf(a))[i] == v;
  }

  /** With unique names after phase 2, a variant's name tells its job. */
  lemma OwnerIsUnique(jobs: seq<Job>, a: Job, b: Job, v: Name)
    requires UniqueNames(AllVariants(jobs)) && a in jobs && b in jobs
    requires v in Names(VariantsOf(a)) && v in Names(VariantsOf(b))
    ensures a == b
  {
    var m, i := VariantStandsAt(jobs, a, v);
    var p, k := VariantStandsAt(jobs, b, v);
    VariantsAreFlat(jobs);
    SamePlace(VariantBlocks(jobs), m, i, p, k, v);
  }

  lemma EarlierName(front: seq<Job>, last: Job, j: Job)
    requires UniqueNames(front + [last]) && j in front
    ensures j.name != last.name
  {
    var i :| 0 <= i < |front| && front[i] == j;
    assert (front + [last])[i].name != (front + [last])[|front|].name;
  }

  lemma {:induction false} ExpansionOf(jobs: seq<Job>, j: Job)
    requires UniqueNames(jobs) && j in jobs
    ensures j.name in Expansions(jobs) && Expansions(jobs)[j.name] == Names(VariantsOf(j))
  {
    var front, last := jobs[..|jobs| - 1], jobs[|jobs| - 1];
    assert jobs == front + [last];
    if j in front {
      ExpansionOf(front, j);
      EarlierName(front, last, j);
    }
  }

  lemma {:induction false} ExpansionNames(jobs: seq<Job>, n: Name)
    ensures n in Expansions(jobs) <==> n in GraphOf(jobs)
  {
    if jobs != [] {
      ExpansionNames(jobs[..|jobs| - 1], n);
    }
  }

  lemma {:induction false} RewrittenMember(deps: seq<Name>, m: ExpansionMap, n: Name)
    ensures n in RewriteDeps(deps, m) <==> exists d :: d in deps && n in VariantNames(d, m)
  {
    if deps != [] {
      var front, last := deps[..|deps| - 1], deps[|deps| - 1];
      RewrittenMember(front, m, n);
      assert forall d :: d in deps <==> d in front || d == last;
    }
  }

  /** The jobs after phase 2. */
  ghost function Blown(jobs: seq<Job>): (r: seq<Job>)
    ensures |r| == |AllVariants(jobs)|
    ensures forall i | 0 <= i < |r| :: r[i] == Rewrite(AllVariants(jobs)[i], Expansions(jobs))
  {
    RewriteAll(AllVariants(jobs), Expansions(jobs))
  }

  /** Some dependency of `j` has a variant with this name. */
  ghost predicate IsVariantOfDependency(jobs: seq<Job>, j: Job, n: Name) {
    exists k :: k in jobs && k.name in j.dependsOn && n in Names(VariantsOf(k))
  }

  /** A variant's dependencies are all variants of the jobs its job depended on, and the names that
      were no job's, as they are. */
  lemma RewrittenDependency(jobs: seq<Job>, a: Job, w: Name)
    requires UniqueNames(jobs) && a in jobs
    ensures w in RewriteDeps(a.dependsOn, Expansions(jobs))
       <==> IsVariantOfDependency(jobs, a, w) || (w in a.dependsOn && w !in GraphOf(jobs))
  {
    var m := Expansions(jobs);
    RewrittenMember(a.dependsOn, m, w);
    if d :| d in a.dependsOn && w in VariantNames(d, m) {
      ExpansionNames(jobs, d);
      if d in GraphOf(jobs) {
        var b := JobOf(jobs, d);
        ExpansionOf(jobs, b);
      }
    }
    if b :| b in jobs && b.name in a.dependsOn && w in Names(VariantsOf(b)) {
      ExpansionOf(jobs, b);
      assert w in VariantNames(b.name, m);
    }
    if w in a.dependsOn && w !in GraphOf(jobs) {
      ExpansionNames(jobs, w);
      assert w in VariantNames(w, m);
    }
  }

  lemma VariantKeepsDependencies(j: Job, x: Job)
    requires x in VariantsOf(j)
    ensures x.dependsOn == j.dependsOn
  {
    var i :| 0 <= i < |VariantsOf(j)| && VariantsOf(j)[i] == x;
  }

  /** Where a job of the result comes from. */
  lemma BlownJob(jobs: seq<Job>, v: Name) returns (a: Job, out: Job)
    requires ReadyForPhaseTwo(jobs) && v in GraphOf(Blown(jobs))
    ensures UniqueNames(Blown(jobs))
    ensures a in jobs && v in Names(VariantsOf(a)) && out in Blown(jobs) && out.name == v
    ensures out.dependsOn == RewriteDeps(a.dependsOn, Expansions(jobs))
  {
    var i := IndexOfName(Blown(jobs), v);
    out := Blown(jobs)[i];
    var x := AllVariants(jobs)[i];
    assert x in AllVariants(jobs);
    AllVariantsMember(jobs, x);
    a :| a in jobs && x in VariantsOf(a);
    NameIn(VariantsOf(a), x);
    VariantKeepsDependencies(a, x);
  }

  lemma VariantIsBlown(jobs: seq<Job>, a: Job, v: Name)
    requires a in jobs && v in Names(VariantsOf(a))
    ensures v in GraphOf(Blown(jobs))
  {
    var x := NamedJob(VariantsOf(a), v);
    AllVariantsMember(jobs, x);
    var i :| 0 <= i < |AllVariants(jobs)| && AllVariants(jobs)[i] == x;
    assert Blown(jobs)[i] in Blown(jobs);
    NodeIn(Blown(jobs), v);
  }

  lemma BlownEdge(jobs: seq<Job>, a: Job, v: Name, w: Name)
    requires ReadyForPhaseTwo(jobs) && a in jobs && v in Names(VariantsOf(a))
    ensures Edge(GraphOf(Blown(jobs)), v, w)
       <==> IsVariantOfDependency(jobs, a, w) || (w in a.dependsOn && w !in GraphOf(jobs))
  {
    VariantIsBlown(jobs, a, v);
    var a', out := BlownJob(jobs, v);
    OwnerIsUnique(jobs, a, a', v);
    EdgeIn(Blown(jobs), out, w);
    RewrittenDependency(jobs, a, w);
  }

  /** Every variant of a job depends on every variant of its dependencies, and besides only on the
      variants its job names one by one. */
  lemma DependsOnEveryVariant(jobs: seq<Job>, a: Job, v: Name, b: Job, w: Name)
    requires ReadyForPhaseTwo(jobs) && a in jobs && b in jobs
    requires v in Names(VariantsOf(a)) && w in Names(VariantsOf(b))
    ensures Edge(GraphOf(Blown(jobs)), v, w)
       <==> Edge(GraphOf(jobs), a.name, b.name) || (w in a.dependsOn && w !in GraphOf(jobs))
  {
    BlownEdge(jobs, a, v, w);
    EdgeIn(jobs, a, b.name);
    if k :| k in jobs && k.name in a.dependsOn && w in Names(VariantsOf(k)) {
      OwnerIsUnique(jobs, b, k, w);
    }
  }

  ghost predicate Owns(jobs: seq<Job>, v: Name, a: Job) {
    a in jobs && v in Names(VariantsOf(a))
  }

  ghost predicate IsVariant(jobs: seq<Job>, v: Name) {
    exists a :: Owns(jobs, v, a)
  }

  /** The job a variant with this name comes from. */
  ghost function VariantOwner(jobs: seq<Job>, v: Name): (r: Name)
    ensures if IsVariant(jobs, v) then exists a :: Owns(jobs, v, a) && r == a.name else r == v
  {
    if a: Job :| Owns(jobs, v, a) then a.name else v
  }

  lemma OwnerOfVariant(jobs: seq<Job>, a: Job, v: Name)
    requires UniqueNames(AllVariants(jobs)) && a in jobs && v in Names(VariantsOf(a))
    ensures VariantOwner(jobs, v) == a.name
  {
    assert Owns(jobs, v, a);
    var b :| Owns(jobs, v, b) && VariantOwner(jobs, v) == b.name;
    assert Owns(jobs, v, b);
    OwnerIsUnique(jobs, a, b, v);
  }

  lemma VariantNodes(jobs: seq<Job>, v: Name)
    requires ReadyForPhaseTwo(jobs)
    ensures v in GraphOf(Blown(jobs)) <==> IsVariant(jobs, v)
  {
    if v in GraphOf(Blown(jobs)) {
      var a, out := BlownJob(jobs, v);
      assert Owns(jobs, v, a);
    }
    if a :| Owns(jobs, v, a) {
      VariantIsBlown(jobs, a, v);
    }
  }

  /** Every dependency is the name of a job or of a variant. */
  ghost predicate VariantsResolve(jobs: seq<Job>) {
    forall a, d | a in jobs && VariantsOf(a) != [] && d in a.dependsOn :: d in GraphOf(jobs) || IsVariant(jobs, d)
  }

  lemma BlownIsClosed(jobs: seq<Job>)
    requires ReadyForPhaseTwo(jobs)
    ensures Closed(GraphOf(Blown(jobs))) <==> VariantsResolve(jobs)
  {
    var h := GraphOf(Blown(jobs));
    if Closed(h) {
      forall a, d | a in jobs && VariantsOf(a) != [] && d in a.dependsOn && d !in GraphOf(jobs)
        ensures IsVariant(jobs, d)
      {
        var v := VariantsOf(a)[0].name;
        NameIn(VariantsOf(a), VariantsOf(a)[0]);
        BlownEdge(jobs, a, v, d);
        VariantNodes(jobs, d);
      }
    }
    if VariantsResolve(jobs) {
      forall v, w | Edge(h, v, w)
        ensures w in h
      {
        var a, out := BlownJob(jobs, v);
        BlownEdge(jobs, a, v, w);
        VariantNodes(jobs, w);
        if k :| k in jobs && k.name in a.dependsOn && w in Names(VariantsOf(k)) {
          assert Owns(jobs, w, k);
        }
      }
    }
  }

  // ----- Cycles in phase 2 -----

  /** The job a dependency leads to: a single variant counts as its job. */
  ghost function OwnedName(jobs: seq<Job>, d: Name): Name {
    if d in GraphOf(jobs) then d else VariantOwner(jobs, d)
  }

  ghost function OwnedNames(jobs: seq<Job>, deps: seq<Name>): (r: seq<Name>)
    ensures |r| == |deps| && forall i | 0 <= i < |deps| :: r[i] == OwnedName(jobs, deps[i])
  {
    seq(|deps|, i requires 0 <= i < |deps| => OwnedName(jobs, deps[i]))
  }

  /** The graph of the jobs in which a dependency on one variant is one on its job. */
  ghost function Owned(jobs: seq<Job>): Graph {
    map n | n in GraphOf(jobs) :: OwnedNames(jobs, GraphOf(jobs)[n])
  }

  lemma OwnedEdge(jobs: seq<Job>, a: Job, n: Name)
    requires UniqueNames(jobs) && a in jobs
    ensures Edge(Owned(jobs), a.name, n) <==> exists d :: d in a.dependsOn && n == OwnedName(jobs, d)
  {
    var i :| 0 <= i < |jobs| && jobs[i] == a;
    GraphAt(jobs, i);
    var out := OwnedNames(jobs, a.dependsOn);
    if n in out {
      var k :| 0 <= k < |out| && out[k] == n;
      assert a.dependsOn[k] in a.dependsOn;
    }
    if d :| d in a.dependsOn && n == OwnedName(jobs, d) {
      var k :| 0 <= k < |a.dependsOn| && a.dependsOn[k] == d;
      assert out[k] == n;
    }
  }

  /** In a closed graph there is nothing to lead back. */
  lemma ClosedIsOwned(jobs: seq<Job>)
    requires Closed(GraphOf(jobs))
    ensures Owned(jobs) == GraphOf(jobs)
  {
    var g := GraphOf(jobs);
    forall n | n in g
      ensures OwnedNames(jobs, g[n]) == g[n]
    {
      forall i | 0 <= i < |g[n]|
        ensures OwnedName(jobs, g[n][i]) == g[n][i]
      {
        assert Edge(g, n, g[n][i]);
      }
    }
  }

  lemma CycleIsOwned(jobs: seq<Job>)
    requires UniqueNames(jobs) && Cyclic(GraphOf(jobs))
    ensures Cyclic(Owned(jobs))
  {
    var g := GraphOf(jobs);
    if !Cyclic(Owned(jobs)) {
      var f := map n | n in Endpoints(g) :: OwnedName(jobs, n);
      forall x, y | Edge(g, x, y)
        ensures x in f && y in f && Edge(Owned(jobs), f[x], f[y])
      {
        var a := JobOf(jobs, x);
        EdgeIn(jobs, a, y);
        OwnedEdge(jobs, a, f[y]);
      }
      HomomorphismKeepsAcyclic(g, Owned(jobs), f);
    }
  }

  /** `VariantOwner` maps the result back edge by edge. */
  lemma BlownCycleIsOwned(jobs: seq<Job>)
    requires ReadyForPhaseTwo(jobs) && !Cyclic(Owned(jobs))
    ensures !Cyclic(GraphOf(Blown(jobs)))
  {
    var g, h := Owned(jobs), GraphOf(Blown(jobs));
    var f := map n | n in Endpoints(h) :: VariantOwner(jobs, n);
    forall v, w | Edge(h, v, w)
      ensures v in f && w in f && Edge(g, f[v], f[w])
    {
      var a, out := BlownJob(jobs, v);
      BlownEdge(jobs, a, v, w);
      OwnerOfVariant(jobs, a, v);
      OwnedEdge(jobs, a, f[w]);
      if w in a.dependsOn && w !in GraphOf(jobs) {
        assert f[w] == OwnedName(jobs, w);
      } else {
        var k :| k in jobs && k.name in a.dependsOn && w in Names(VariantsOf(k));
        OwnerOfVariant(jobs, k, w);
        NodeIn(jobs, k.name);
        assert f[w] == OwnedName(jobs, k.name);
      }
    }
    HomomorphismKeepsAcyclic(h, g, f);
  }

  /** Every variant of a job depends on some variant of each job its job leads to. */
  lemma OwnedStep(jobs: seq<Job>, a: Job, v: Name, b: Job) returns (w: Name)
    requires ReadyForPhaseTwo(jobs) && a in jobs && b in jobs && v in Names(VariantsOf(a)) && VariantsOf(b) != []
    requires Edge(Owned(jobs), a.name, b.name)
    ensures w in Names(VariantsOf(b)) && Edge(GraphOf(Blown(jobs)), v, w)
  {
    OwnedEdge(jobs, a, b.name);
    var d :| d in a.dependsOn && b.name == OwnedName(jobs, d);
    NodeIn(jobs, b.name);
    if d in GraphOf(jobs) {
      w := VariantsOf(b)[0].name;
      NameIn(VariantsOf(b), VariantsOf(b)[0]);
    } else {
      w := d;
      assert IsVariant(jobs, d);
      var k :| Owns(jobs, d, k) && k.name == b.name;
      assert Owns(jobs, d, k);
      NameMeansSame(jobs, k, b);
    }
    BlownEdge(jobs, a, v, w);
    assert IsVariantOfDependency(jobs, a, w) || (w in a.dependsOn && w !in GraphOf(jobs));
  }

  ghost predicate AllHaveVariants(jobs: seq<Job>) {
    forall a | a in jobs :: VariantsOf(a) != []
  }

  /** The variants of the jobs on a path. */
  ghost function VariantsAlong(jobs: seq<Job>, path: seq<Name>): set<Name> {
    set v | v in GraphOf(Blown(jobs)) && VariantOwner(jobs, v) in path
  }

  lemma OnACycle(g: Graph, path: seq<Name>, n: Name) returns (m: Name)
    requires IsCycle(g, path) && n in path
    ensures m in path && m in g && Edge(g, n, m)
  {
    var i :| 0 <= i < |path| && path[i] == n;
    var k := if i == |path| - 1 then 0 else i;
    m := path[k + 1];
    assert Edge(g, path[k], path[k + 1]);
    if k + 1 < |path| - 1 {
      assert Edge(g, path[k + 1], path[k + 2]);
    } else {
      assert Edge(g, path[0], path[1]);
    }
  }

  lemma VariantsGoOn(jobs: seq<Job>, path: seq<Name>, v: Name)
    requires ReadyForPhaseTwo(jobs) && AllHaveVariants(jobs) && IsCycle(Owned(jobs), path)
    requires v in VariantsAlong(jobs, path)
    ensures exists w :: w in VariantsAlong(jobs, path) && Edge(GraphOf(Blown(jobs)), v, w)
  {
    var a, out := BlownJob(jobs, v);
    OwnerOfVariant(jobs, a, v);
    var m := OnACycle(Owned(jobs), path, a.name);
    var b := JobOf(jobs, m);
    var w := OwnedStep(jobs, a, v, b);
    OwnerOfVariant(jobs, b, w);
    VariantIsBlown(jobs, b, w);
  }

  lemma OwnedCycleIsBlown(jobs: seq<Job>)
    requires ReadyForPhaseTwo(jobs) && AllHaveVariants(jobs) && Cyclic(Owned(jobs))
    ensures Cyclic(GraphOf(Blown(jobs)))
  {
    var path :| IsCycle(Owned(jobs), path);
    assert Edge(Owned(jobs), path[0], path[1]);
    var a := JobOf(jobs, path[0]);
    var v := VariantsOf(a)[0].name;
    NameIn(VariantsOf(a), VariantsOf(a)[0]);
    OwnerOfVariant(jobs, a, v);
    VariantIsBlown(jobs, a, v);
    forall x | x in VariantsAlong(jobs, path)
      ensures exists w :: w in VariantsAlong(jobs, path) && Edge(GraphOf(Blown(jobs)), x, w)
    {
      VariantsGoOn(jobs, path, x);
    }
    NoWayOutIsCycle(GraphOf(Blown(jobs)), VariantsAlong(jobs, path), v);
  }

  /** Phase 2 leaves nothing missing exactly if every dependency names a job or a variant, and there
      is a cycle after it exactly if there is one among the jobs when a dependency on a variant
      counts as one on its job. */
  lemma BlownKeepsGraph(jobs: seq<Job>)
    requires ReadyForPhaseTwo(jobs) && AllHaveVariants(jobs)
    ensures UniqueNames(Blown(jobs))
    ensures Closed(GraphOf(Blown(jobs))) <==> VariantsResolve(jobs)
    ensures Cyclic(GraphOf(Blown(jobs))) <==> Cyclic(Owned(jobs))
  {
    BlownIsClosed(jobs);
    if Cyclic(Owned(jobs)) {
      OwnedCycleIsBlown(jobs);
    } else {
      BlownCycleIsOwned(jobs);
    }
  }

  // ----- Artifacts in phase 2 -----

  /** An imported file's job is still among the dependencies after expansion exactly if that job
      has a single variant, or its old name is now the name of a variant of a dependency;
      otherwise `Validate` rejects the artifact. */
  lemma ArtifactFollowsSingleVariant(jobs: seq<Job>, j: Job, b: Job, art: Artifact)
    requires UniqueNames(jobs) && j in jobs && b in jobs
    requires b.name in j.dependsOn && art.from == b.name && art.from != ""
    ensures var m := Expansions(jobs);
            RewriteFrom(art, m).from in RewriteDeps(j.dependsOn, m)
            <==> |VariantsOf(b)| == 1 || IsVariantOfDependency(jobs, j, b.name)
  {
    var m := Expansions(jobs);
    ExpansionOf(jobs, b);
    var from := RewriteFrom(art, m).from;
    RewrittenDependency(jobs, j, from);
    NodeIn(jobs, b.name);
    if |VariantsOf(b)| == 1 {
      assert from in Names(VariantsOf(b));
    }
  }

  // ----- Both phases -----

  ghost function PipelineCombos(p: Spec): seq<Combo> {
    if p.matrix.None? then [map[]] else AllCombos(p.matrix.value)
  }

  /** The job `a` of the pipeline as it stands in copy `c`. */
  ghost function Instance(p: Spec, a: Job, c: Combo): Job {
    if p.matrix.None? then a else Replica(a, c)
  }

  /** The dependency `d` as copy `c` has it. */
  ghost function Target(p: Spec, d: Name, c: Combo): Name {
    if p.matrix.None? then d else Expanded(d, c)
  }

  /** Names are unique before, between and after the phases. */
  ghost predicate NamesStayUnique(p: Spec) {
    UniqueNames(p.jobs) && UniqueNames(PhaseOne(p).jobs) && UniqueNames(PhaseTwo(PhaseOne(p)).jobs)
  }

  /** Neither phase reports an error. */
  ghost predicate ExpandSucceeds(p: Spec, rules: Rules) {
    PipelineMatrixOk(p, rules) && MatricesOk(PhaseOne(p).jobs, rules)
  }

  // Without job matrices phase 2 changes nothing, so skipping it is only a shortcut.

  ghost predicate NamesThemselves(m: ExpansionMap) {
    forall n | n in m :: m[n] == [n]
  }

  lemma {:induction false} NoMatrixNoVariants(jobs: seq<Job>)
    requires !HasMatrix(jobs)
    ensures AllVariants(jobs) == jobs && NamesThemselves(Expansions(jobs))
  {
    if jobs != [] {
      var front, last := jobs[..|jobs| - 1], jobs[|jobs| - 1];
      assert jobs == front + [last];
      assert last in jobs;
      NoMatrixNoVariants(front);
    }
  }

  lemma {:induction false} DependenciesStay(deps: seq<Name>, m: ExpansionMap)
    requires NamesThemselves(m)
    ensures RewriteDeps(deps, m) == deps
  {
    if deps != [] {
      DependenciesStay(deps[..|deps| - 1], m);
    }
  }

  lemma FromsStay(arts: seq<Artifact>, m: ExpansionMap)
    requires NamesThemselves(m)
    ensures RewriteFroms(arts, m) == arts
  {
    forall i | 0 <= i < |arts|
      ensures RewriteFrom(arts[i], m) == arts[i]
    {
      assert arts[i] == Artifact(arts[i].from, arts[i].source, arts[i].target);
    }
  }

  lemma RewriteStays(j: Job, m: ExpansionMap)
    requires NamesThemselves(m)
    ensures Rewrite(j, m) == j
  {
    DependenciesStay(j.dependsOn, m);
    FromsStay(j.artifacts, m);
    forall i | 0 <= i < |j.steps|
      ensures RewriteStep(j.steps[i], m) == j.steps[i]
    {
      FromsStay(j.steps[i].artifacts, m);
    }
    assert MapSeq(j.steps, (s: Step) => RewriteStep(s, m)) == j.steps;
  }

  /** Whether phase 2 is skipped or not, its result is `Blown`. */
  lemma PhaseTwoIsBlown(p: Spec)
    ensures PhaseTwo(p).jobs == Blown(p.jobs)
  {
    if !HasMatrix(p.jobs) {
      NoMatrixNoVariants(p.jobs);
      forall i | 0 <= i < |p.jobs|
        ensures Blown(p.jobs)[i] == p.jobs[i]
      {
        RewriteStays(p.jobs[i], Expansions(p.jobs));
      }
    }
  }

  lemma PhaseOneIsReady(p: Spec)
    requires NamesStayUnique(p)
    ensures ReadyForPhaseTwo(PhaseOne(p).jobs)
  {
    PhaseTwoIsBlown(PhaseOne(p));
    var jobs := PhaseOne(p).jobs;
    forall i, k | 0 <= i < k < |AllVariants(jobs)|
      ensures AllVariants(jobs)[i].name != AllVariants(jobs)[k].name
    {
      assert Blown(jobs)[i].name != Blown(jobs)[k].name;
    }
  }

  lemma InstanceIn(p: Spec, a: Job, c: Combo)
    requires a in p.jobs && c in PipelineCombos(p)
    ensures Instance(p, a, c) in PhaseOne(p).jobs
  {
    if p.matrix.Some? {
      ReplicaIn(p.jobs, AllCombos(p.matrix.value), a, c);
    }
  }

  lemma InstanceName(p: Spec, a: Job, c: Combo)
    ensures Instance(p, a, c).name == Target(p, a.name, c)
  {
  }

  /** `n` is the name of a job in some copy. */
  ghost predicate NamesInstance(p: Spec, n: Name) {
    exists b, e :: b in p.jobs && e in PipelineCombos(p) && n == Target(p, b.name, e)
  }

  lemma PhaseOneJob(p: Spec, j: Job) returns (a: Job, c: Combo)
    requires j in PhaseOne(p).jobs
    ensures a in p.jobs && c in PipelineCombos(p) && j == Instance(p, a, c)
  {
    if p.matrix.None? {
      a, c := j, map[];
    } else {
      a, c := CopiesComeFrom(p.jobs, AllCombos(p.matrix.value), j);
    }
  }

  lemma PhaseOneNodes(p: Spec, n: Name)
    ensures n in GraphOf(PhaseOne(p).jobs) <==> NamesInstance(p, n)
  {
    NodeIn(PhaseOne(p).jobs, n);
    if j :| j in PhaseOne(p).jobs && j.name == n {
      var a, c := PhaseOneJob(p, j);
      InstanceName(p, a, c);
    }
    if b, e :| b in p.jobs && e in PipelineCombos(p) && n == Target(p, b.name, e) {
      InstanceIn(p, b, e);
      InstanceName(p, b, e);
    }
  }

  lemma InstanceDependencies(p: Spec, a: Job, c: Combo, n: Name)
    ensures n in Instance(p, a, c).dependsOn <==> exists d :: d in a.dependsOn && n == Target(p, d, c)
  {
    if p.matrix.Some? {
      CorrelatedMember(a.dependsOn, c, n);
    }
  }

  lemma InstancesDiffer(p: Spec, a: Job, c: Combo, b: Job, e: Combo)
    requires NamesStayUnique(p) && a in p.jobs && b in p.jobs && c in PipelineCombos(p) && e in PipelineCombos(p)
    requires Instance(p, a, c).name == Instance(p, b, e).name
    ensures a == b && c == e
  {
    if p.matrix.Some? {
      SameReplica(p.jobs, AllCombos(p.matrix.value), a, c, b, e);
    }
  }

  /** `a` has a dependency that is no job's name as written but leads, in copy `c`, to the instance
      `x` or to its variant `w` alone. */
  ghost predicate LeadsDirectly(p: Spec, a: Job, c: Combo, x: Job, w: Name) {
    exists d :: d in a.dependsOn && d !in GraphOf(p.jobs)
                && (Target(p, d, c) == x.name || (Target(p, d, c) == w && !NamesInstance(p, w)))
  }

  /** The edges after both phases: within one copy every variant of a job depends on every
      variant of each job it depended on; besides there are only the edges to what a dependency
      names by its expanded name, all variants of a job in some copy or a single one. */
  lemma ExpandedEdges(p: Spec, a: Job, c: Combo, v: Name, b: Job, e: Combo, w: Name)
    requires NamesStayUnique(p)
    requires a in p.jobs && b in p.jobs && c in PipelineCombos(p) && e in PipelineCombos(p)
    requires v in Names(VariantsOf(Instance(p, a, c))) && w in Names(VariantsOf(Instance(p, b, e)))
    ensures Edge(GraphOf(PhaseTwo(PhaseOne(p)).jobs), v, w)
       <==> (Edge(GraphOf(p.jobs), a.name, b.name) && c == e) || LeadsDirectly(p, a, c, Instance(p, b, e), w)
  {
    var jobs, x, y := PhaseOne(p).jobs, Instance(p, a, c), Instance(p, b, e);
    PhaseOneIsReady(p);
    PhaseTwoIsBlown(PhaseOne(p));
    InstanceIn(p, a, c);
    InstanceIn(p, b, e);
    DependsOnEveryVariant(jobs, x, v, y, w);
    EdgeIn(jobs, x, y.name);
    EdgeIn(p.jobs, a, b.name);
    InstanceDependencies(p, a, c, y.name);
    InstanceDependencies(p, a, c, w);
    PhaseOneNodes(p, w);
    InstanceName(p, b, e);
    forall d | d in a.dependsOn && d in GraphOf(p.jobs)
      ensures NamesInstance(p, Target(p, d, c))
      ensures Target(p, d, c) == y.name <==> d == b.name && c == e
    {
      var k := JobOf(p.jobs, d);
      InstanceName(p, k, c);
      if Target(p, d, c) == y.name {
        InstancesDiffer(p, k, c, b, e);
      }
    }
  }

  ghost predicate IsExpansionOf(p: Spec, v: Name, a: Job, c: Combo) {
    a in p.jobs && c in PipelineCombos(p) && v in Names(VariantsOf(Instance(p, a, c)))
  }

  ghost predicate NamesVariant(p: Spec, v: Name) {
    exists a, c :: IsExpansionOf(p, v, a, c)
  }

  lemma PhaseTwoVariants(p: Spec, v: Name)
    ensures IsVariant(PhaseOne(p).jobs, v) <==> NamesVariant(p, v)
  {
    if j :| Owns(PhaseOne(p).jobs, v, j) {
      var a, c := PhaseOneJob(p, j);
      assert IsExpansionOf(p, v, a, c);
    }
    if a, c :| IsExpansionOf(p, v, a, c) {
      InstanceIn(p, a, c);
      assert Owns(PhaseOne(p).jobs, v, Instance(p, a, c));
    }
  }

  /** The jobs after both phases are exactly the variants of the jobs before. */
  lemma ExpandedJobs(p: Spec, v: Name)
    requires NamesStayUnique(p)
    ensures v in GraphOf(PhaseTwo(PhaseOne(p)).jobs) <==> NamesVariant(p, v)
  {
    PhaseOneIsReady(p);
    PhaseTwoIsBlown(PhaseOne(p));
    VariantNodes(PhaseOne(p).jobs, v);
    PhaseTwoVariants(p, v);
  }

  // ----- What expansion keeps -----

  lemma ValidMatrixHasCombination(dims: seq<Dimension>, rules: Rules)
    requires ValidMatrix(dims, rules)
    ensures AllCombos(dims) != []
  {
    SizesGrow(dims, 0, rules);
  }

  lemma HasVariant(p: Spec, rules: Rules, a: Job, c: Combo) returns (v: Name)
    requires ExpandSucceeds(p, rules) && a in p.jobs && c in PipelineCombos(p)
    ensures v in Names(VariantsOf(Instance(p, a, c)))
  {
    var j := Instance(p, a, c);
    InstanceIn(p, a, c);
    assert JobMatrixOk(j, rules);
    var vs := VariantsOf(j);
    if j.matrix.Some? {
      ValidMatrixHasCombination(j.matrix.value, rules);
    }
    v := vs[0].name;
    NameIn(vs, vs[0]);
  }

  lemma HasCombo(p: Spec, rules: Rules) returns (c: Combo)
    requires PipelineMatrixOk(p, rules)
    ensures c in PipelineCombos(p)
  {
    if p.matrix.Some? {
      ValidMatrixHasCombination(p.matrix.value, rules);
    }
    c := PipelineCombos(p)[0];
  }

  /** Every dependency that is no job's name as written is, in every copy, the name of a job there or
      of a variant. */
  ghost predicate NamesResolve(p: Spec) {
    forall a, c, d | a in p.jobs && c in PipelineCombos(p) && d in a.dependsOn && d !in GraphOf(p.jobs) ::
      NamesInstance(p, Target(p, d, c)) || NamesVariant(p, Target(p, d, c))
  }

  lemma VariantsResolveExactly(p: Spec, rules: Rules)
    requires NamesStayUnique(p) && ExpandSucceeds(p, rules)
    ensures AllHaveVariants(PhaseOne(p).jobs)
    ensures VariantsResolve(PhaseOne(p).jobs) <==> NamesResolve(p)
  {
    var jobs := PhaseOne(p).jobs;
    forall j | j in jobs
      ensures VariantsOf(j) != []
    {
      var a, c := PhaseOneJob(p, j);
      var v := HasVariant(p, rules, a, c);
    }
    if VariantsResolve(jobs) {
      forall a, c, d | a in p.jobs && c in PipelineCombos(p) && d in a.dependsOn && d !in GraphOf(p.jobs)
        ensures NamesInstance(p, Target(p, d, c)) || NamesVariant(p, Target(p, d, c))
      {
        InstanceIn(p, a, c);
        InstanceDependencies(p, a, c, Target(p, d, c));
        PhaseOneNodes(p, Target(p, d, c));
        PhaseTwoVariants(p, Target(p, d, c));
      }
    }
    if NamesResolve(p) {
      forall j, n | j in jobs && n in j.dependsOn
        ensures n in GraphOf(jobs) || IsVariant(jobs, n)
      {
        var a, c := PhaseOneJob(p, j);
        InstanceDependencies(p, a, c, n);
        var d :| d in a.dependsOn && n == Target(p, d, c);
        PhaseOneNodes(p, n);
        PhaseTwoVariants(p, n);
        if d in GraphOf(p.jobs) {
          var k := JobOf(p.jobs, d);
        }
      }
    }
  }

  /** The graph whose cycles are those of the result: the jobs of all copies, a dependency on a
      single variant counting as one on its job. */
  ghost function CopyGraph(p: Spec): Graph {
    Owned(PhaseOne(p).jobs)
  }

  lemma PipelineCycleStays(p: Spec, rules: Rules)
    requires NamesStayUnique(p) && ExpandSucceeds(p, rules) && Cyclic(GraphOf(p.jobs))
    ensures Cyclic(CopyGraph(p))
  {
    if p.matrix.Some? {
      ValidMatrixHasCombination(p.matrix.value, rules);
      CopiesKeepCycles(p.jobs, AllCombos(p.matrix.value));
    }
    CycleIsOwned(PhaseOne(p).jobs);
  }

  /** Without names of variants among the dependencies the copies have no other cycles. */
  lemma ClosedMakesNoCycle(p: Spec)
    requires NamesStayUnique(p) && Closed(GraphOf(p.jobs)) && !Cyclic(GraphOf(p.jobs))
    ensures !Cyclic(CopyGraph(p))
  {
    if p.matrix.Some? {
      var combos := AllCombos(p.matrix.value);
      CopiesAreClosed(p.jobs, combos);
      ClosedCopiesResolve(p.jobs, combos);
      CopiesMakeNoCycle(p.jobs, combos);
    }
    ClosedIsOwned(PhaseOne(p).jobs);
  }

  /** After both phases nothing is missing exactly if every dependency names a job or a variant, and
      there is a cycle exactly if there is one among the jobs of the copies. If every dependency
      names a job as written, nothing is missing and no cycle is made or broken. */
  lemma ExpandKeepsGraph(p: Spec, rules: Rules)
    requires NamesStayUnique(p) && ExpandSucceeds(p, rules)
    ensures var g, out := GraphOf(p.jobs), GraphOf(PhaseTwo(PhaseOne(p)).jobs);
            && (Closed(out) <==> NamesResolve(p))
            && (Cyclic(out) <==> Cyclic(CopyGraph(p)))
            && (Cyclic(g) ==> Cyclic(out))
            && (Closed(g) ==> Closed(out) && (Cyclic(out) <==> Cyclic(g)))
  {
    PhaseOneIsReady(p);
    PhaseTwoIsBlown(PhaseOne(p));
    VariantsResolveExactly(p, rules);
    BlownKeepsGraph(PhaseOne(p).jobs);
    if Cyclic(GraphOf(p.jobs)) {
      PipelineCycleStays(p, rules);
    } else if Closed(GraphOf(p.jobs)) {
      ClosedMakesNoCycle(p);
    }
    if Closed(GraphOf(p.jobs)) {
      ClosedResolves(p);
    }
  }

  lemma ClosedResolves(p: Spec)
    requires UniqueNames(p.jobs) && Closed(GraphOf(p.jobs))
    ensures NamesResolve(p)
  {
    forall a, d | a in p.jobs && d in a.dependsOn
      ensures d in GraphOf(p.jobs)
    {
      EdgeIn(p.jobs, a, d);
    }
  }

  /** Nothing comes of nothing, and something of something. */
  lemma ExpandKeepsEmptiness(p: Spec, rules: Rules)
    requires NamesStayUnique(p) && ExpandSucceeds(p, rules)
    ensures PhaseTwo(PhaseOne(p)).jobs == [] <==> p.jobs == []
  {
    var out := PhaseTwo(PhaseOne(p)).jobs;
    if p.jobs != [] {
      var a := p.jobs[0];
      var c := HasCombo(p, rules);
      var v := HasVariant(p, rules, a, c);
      assert IsExpansionOf(p, v, a, c);
      ExpandedJobs(p, v);
      NodeIn(out, v);
    } else if out != [] {
      NodeIn(out, out[0].name);
      ExpandedJobs(p, out[0].name);
    }
  }
}
