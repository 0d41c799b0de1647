/** Building the run-time DAG and checking it for cycles (internal/runner/runner.go). */
module Runner {
  import opened DependencyGraph
  import opened Wrappers
  import opened Pipeline

  /** The runner's own job: the definition to solve does not matter here. */
  datatype RunnerJob = RunnerJob(name: Name, dependsOn: seq<Name>)

  ghost predicate UniqueRunnerNames(jobs: seq<RunnerJob>) {
    forall i, j | 0 <= i < j < |jobs| :: jobs[i].name != jobs[j].name
  }

  ghost predicate HasName(jobs: seq<RunnerJob>, n: Name) {
    exists k :: 0 <= k < |jobs| && jobs[k].name == n
  }

  ghost predicate DepsExist(jobs: seq<RunnerJob>) {
    forall i, d | 0 <= i < |jobs| && d in jobs[i].dependsOn :: HasName(jobs, d)
  }

  /** The dependency graph of the node index. */
  function Deps(nodes: map<Name, RunnerJob>): Graph {
    map n | n in nodes :: nodes[n].dependsOn
  }

  /** `nodes` holds every job under its name and nothing else. */
  ghost predicate Indexes(nodes: map<Name, RunnerJob>, jobs: seq<RunnerJob>) {
    && (forall i | 0 <= i < |jobs| :: jobs[i].name in nodes && nodes[jobs[i].name] == jobs[i])
    && (forall n | n in nodes :: HasName(jobs, n))
  }

  /** The grey names are the ones on `path`, the black ones are in `order`, each after
      everything it depends on. */
  ghost predicate SearchOk(g: Graph, marks: map<Name, Mark>, order: seq<Name>, path: seq<Name>) {
    && marks.Keys <= g.Keys
    && (path == [] || IsPath(g, path))
    && (forall n | n in g :: (n in marks && marks[n] == Visiting) <==> n in path)
    && (forall n :: n in order <==> n in marks && marks[n] == Visited)
    && (forall i, j | 0 <= i < j < |order| :: order[i] != order[j])
    && (forall i, d | 0 <= i < |order| && Edge(g, order[i], d) :: d in order[..i])
  }

  ghost function Unmarked(g: Graph, marks: map<Name, Mark>): set<Name> {
    set n | n in g && (n !in marks || marks[n] == Unvisited)
  }

  /** The only error of the search, and only where there is a cycle. */
  ghost predicate FoundCycle(g: Graph, e: Error) {
    e == CycleDetected && Cyclic(g)
  }

  /** The first `k` dependencies are sorted already. */
  ghost predicate DepsDone(deps: seq<Name>, k: nat, order: seq<Name>) {
    k <= |deps| && forall m | 0 <= m < k :: deps[m] in order
  }

  lemma NextDepDone(deps: seq<Name>, k: nat, before: seq<Name>, order: seq<Name>)
    requires k < |deps| && DepsDone(deps, k, before) && before <= order && deps[k] in order
    ensures DepsDone(deps, k + 1, order)
  {
    assert forall x | x in before :: x in order;
  }

  lemma BackEdgeIsCycle(g: Graph, path: seq<Name>, n: Name)
    requires IsPath(g, path) && Edge(g, path[|path| - 1], n) && n in path
    ensures FoundCycle(g, CycleDetected)
  {
    var k :| 0 <= k < |path| && path[k] == n;
    var p := path[k..] + [n];
    forall m | 0 <= m < |p| - 1
      ensures Edge(g, p[m], p[m + 1])
    {
      if m < |p| - 2 {
        assert p[m] == path[k + m] && p[m + 1] == path[k + m + 1];
      }
    }
    assert IsCycle(g, p);
  }

  lemma EnterKeepsSearch(g: Graph, marks: map<Name, Mark>, order: seq<Name>, path: seq<Name>, n: Name)
    requires SearchOk(g, marks, order, path) && n in Unmarked(g, marks)
    requires path != [] ==> Edge(g, path[|path| - 1], n)
    ensures SearchOk(g, marks[n := Visiting], order, path + [n])
    ensures |Unmarked(g, marks[n := Visiting])| < |Unmarked(g, marks)|
  {
    assert Unmarked(g, marks[n := Visiting]) == Unmarked(g, marks) - {n};
  }

  lemma LeaveKeepsSearch(g: Graph, marks: map<Name, Mark>, order: seq<Name>, path: seq<Name>, n: Name)
    requires SearchOk(g, marks, order, path + [n]) && n in g && n !in path
    requires DepsDone(g[n], |g[n]|, order)
    ensures SearchOk(g, marks[n := Visited], order + [n], path)
    ensures Unmarked(g, marks[n := Visited]) == Unmarked(g, marks)
  {
    var q := path + [n];
    assert q[|path|] == n;
    assert marks[n] == Visiting;
    forall i | 0 <= i < |path| - 1
      ensures Edge(g, path[i], path[i + 1])
    {
      assert Edge(g, q[i], q[i + 1]);
    }
    assert forall m :: m in q <==> m in path || m == n;
    var order' := order + [n];
    forall i, d | 0 <= i < |order'| && Edge(g, order'[i], d)
      ensures d in order'[..i]
    {
      assert order'[..i] == order[..i];
      if i == |order| {
        assert order'[..i] == order;
      }
    }
  }

  /** The node index and the marks of the running search; `order` is the order in which names
      turned black. */
  class CycleDetector {
    const nodes: map<Name, RunnerJob>
    ghost const graph: Graph
    var state: map<Name, Mark>
    ghost var order: seq<Name>

    constructor (nodes: map<Name, RunnerJob>)
      ensures this.nodes == nodes && graph == Deps(nodes) && state == map[] && order == []
    {
      this.nodes, this.graph, this.state, this.order := nodes, Deps(nodes), map[], [];
    }

    ghost predicate Searchable() {
      graph == Deps(nodes) && Closed(graph)
    }

    method Visit(name: Name, ghost path: seq<Name>) returns (err: Option<Error>)
      requires Searchable() && name in nodes
      requires SearchOk(graph, state, order, path)
      requires path != [] ==> Edge(graph, path[|path| - 1], name)
      modifies this
      ensures |Unmarked(graph, state)| <= old(|Unmarked(graph, state)|)
      ensures err.None? ==> SearchOk(graph, state, order, path)
      ensures err.None? ==> name in order && old(order) <= order
      ensures err.Some? ==> FoundCycle(graph, err.value)
      decreases |Unmarked(graph, state)|
    {
      if name in state && state[name] == Visited {
        return None;
      }
      if name in state && state[name] == Visiting {
        BackEdgeIsCycle(graph, path, name);
        return Some(CycleDetected);
      }
      ghost var before := state;
      EnterKeepsSearch(graph, state, order, path, name);
      state := state[name := Visiting];
      var deps := nodes[name].dependsOn;
      for k := 0 to |deps|
        invariant SearchOk(graph, state, order, path + [name]) && old(order) <= order
        invariant |Unmarked(graph, state)| < |Unmarked(graph, before)|
        invariant DepsDone(deps, k, order)
      {
        assert Edge(graph, name, deps[k]);
        ghost var orderBefore := order;
        err := Visit(deps[k], path + [name]);
        if err.Some? {
          return;
        }
        NextDepDone(deps, k, orderBefore, order);
      }
      LeaveKeepsSearch(graph, state, order, path, name);
      state := state[name := Visited];
      order := order + [name];
      return None;
    }

    /** Go ranges over the node map in an unspecified order; whichever it is, the verdict is
        whether the graph has a cycle. */
    method DetectCycles() returns (err: Option<Error>)
      requires Searchable() && state == map[] && order == []
      modifies this
      ensures err.Some? <==> Cyclic(graph)
      ensures err.Some? ==> err.value == CycleDetected
    {
      var pending := nodes.Keys;
      while pending != {}
        invariant SearchOk(graph, state, order, []) && pending <= nodes.Keys
        invariant forall n | n in nodes && n !in pending :: n in order
        decreases pending
      {
        var name :| name in pending;
        pending := pending - {name};
        err := Visit(name, []);
        if err.Some? {
          return;
        }
      }
      TopologicalIsDag(graph, order);
      return None;
    }
  }

  lemma IndexGrows(nodes: map<Name, RunnerJob>, jobs: seq<RunnerJob>, i: nat)
    requires i < |jobs| && Indexes(nodes, jobs[..i]) && UniqueRunnerNames(jobs[..i])
    ensures jobs[i].name in nodes ==> !UniqueRunnerNames(jobs)
    ensures jobs[i].name !in nodes ==>
              Indexes(nodes[jobs[i].name := jobs[i]], jobs[..i + 1])
              && UniqueRunnerNames(jobs[..i + 1])
  {
    var name := jobs[i].name;
    if name in nodes {
      var k :| 0 <= k < i && jobs[..i][k].name == name;
      assert jobs[k].name == jobs[i].name;
    } else {
      var front, longer := jobs[..i], jobs[..i + 1];
      assert longer[i].name == name;
      forall n | HasName(front, n)
        ensures HasName(longer, n)
      {
        var k :| 0 <= k < i && front[k].name == n;
        assert longer[k].name == n;
      }
    }
  }

  lemma ResolvedDepsExist(nodes: map<Name, RunnerJob>, jobs: seq<RunnerJob>)
    requires Indexes(nodes, jobs)
    ensures DepsExist(jobs) <==> forall i, d | 0 <= i < |jobs| && d in jobs[i].dependsOn :: d in nodes
    ensures DepsExist(jobs) ==> Closed(Deps(nodes))
  {
    forall d | HasName(jobs, d)
      ensures d in nodes
    {
      var k :| 0 <= k < |jobs| && jobs[k].name == d;
    }
    if DepsExist(jobs) {
      forall a, b | Edge(Deps(nodes), a, b)
        ensures b in nodes
      {
        var i :| 0 <= i < |jobs| && jobs[i].name == a;
        assert nodes[a] == jobs[i];
      }
    }
  }

  /** The dependencies between these jobs form no cycle. */
  ghost predicate RunnerAcyclic(jobs: seq<RunnerJob>) {
    forall nodes | Indexes(nodes, jobs) :: !Cyclic(Deps(nodes))
  }

  lemma IndexIsUnique(nodes: map<Name, RunnerJob>, jobs: seq<RunnerJob>)
    requires Indexes(nodes, jobs)
    ensures RunnerAcyclic(jobs) <==> !Cyclic(Deps(nodes))
  {
    forall other | Indexes(other, jobs)
      ensures other == nodes
    {
      forall n
        ensures n in other <==> n in nodes
      {
        if HasName(jobs, n) {
          var k :| 0 <= k < |jobs| && jobs[k].name == n;
        }
      }
      forall n | n in nodes
        ensures other[n] == nodes[n]
      {
        assert HasName(jobs, n);
        var k :| 0 <= k < |jobs| && jobs[k].name == n;
        assert other[jobs[k].name] == nodes[jobs[k].name];
      }
    }
  }

  /** Indexes the jobs, then rejects duplicate names, unknown dependencies and cycles, in
      that order of precedence. */
  method BuildDAG(jobs: seq<RunnerJob>) returns (r: Result<map<Name, RunnerJob>, Error>)
    ensures r.Ok? ==> Indexes(r.value, jobs) && Dag(Deps(r.value))
    ensures r == Err(DuplicateJob) <==> !UniqueRunnerNames(jobs)
    ensures r == Err(UnknownDep) <==> UniqueRunnerNames(jobs) && !DepsExist(jobs)
    ensures r == Err(CycleDetected) <==> UniqueRunnerNames(jobs) && DepsExist(jobs) && !RunnerAcyclic(jobs)
    ensures r.Err? ==> r.error in {DuplicateJob, UnknownDep, CycleDetected}
  {
    var nodes: map<Name, RunnerJob> := map[];
    for i := 0 to |jobs|
      invariant Indexes(nodes, jobs[..i]) && UniqueRunnerNames(jobs[..i])
    {
      IndexGrows(nodes, jobs, i);
      if jobs[i].name in nodes {
        return Err(DuplicateJob);
      }
      nodes := nodes[jobs[i].name := jobs[i]];
    }
    assert jobs[..|jobs|] == jobs;
    ResolvedDepsExist(nodes, jobs);
    for i := 0 to |jobs|
      invariant forall k, d | 0 <= k < i && d in jobs[k].dependsOn :: d in nodes
    {
      var deps := jobs[i].dependsOn;
      for m := 0 to |deps|
        invariant forall k | 0 <= k < m :: deps[k] in nodes
      {
        if deps[m] !in nodes {
          return Err(UnknownDep);
        }
      }
    }
    IndexIsUnique(nodes, jobs);
    var detector := new CycleDetector(nodes);
    var err := detector.DetectCycles();
    if err.Some? {
      return Err(err.value);
    }
    return Ok(nodes);
  }
}
