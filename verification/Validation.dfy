/** `Validate` and its depth-first topological sort (pkg/pipeline/pipeline.go). */
module Validation {
  import opened DependencyGraph
  import opened FieldChecks
  import opened Finite
  import opened Pipeline
  import opened Wrappers

  /** `index` maps every job name to its position. */
  ghost predicate IndexOk(jobs: seq<Job>, index: map<Name, nat>) {
    && (forall i | 0 <= i < |jobs| :: jobs[i].name in index && index[jobs[i].name] == i)
    && (forall n | n in index :: index[n] < |jobs| && jobs[index[n]].name == n)
  }

  /** Job `i` names job `j` as a dependency. */
  ghost predicate DependsAt(jobs: seq<Job>, i: int, j: int) {
    0 <= i < |jobs| && 0 <= j < |jobs| && jobs[j].name in jobs[i].dependsOn
  }

  /** No job twice, and every job after all of its dependencies. */
  ghost predicate OrderOk(jobs: seq<Job>, index: map<Name, nat>, order: seq<nat>) {
    && (forall i | 0 <= i < |order| :: order[i] < |jobs|)
    && (forall i, j | 0 <= i < j < |order| :: order[i] != order[j])
    && (forall i, d | 0 <= i < |order| && d in jobs[order[i]].dependsOn ::
          d in index && index[d] in order[..i])
  }

  /** A chain of dependencies, given by job indices. */
  ghost predicate IsChain(jobs: seq<Job>, path: seq<nat>) {
    && (forall i | 0 <= i < |path| :: path[i] < |jobs|)
    && (forall i | 0 <= i < |path| - 1 :: DependsAt(jobs, path[i], path[i + 1]))
  }

  /** A valid topological order of the whole job list, by index. */
  ghost predicate TopoOrder(jobs: seq<Job>, order: seq<nat>) {
    && |order| == |jobs|
    && (forall i | 0 <= i < |order| :: order[i] < |jobs|)
    && (forall i, j | 0 <= i < j < |order| :: order[i] != order[j])
    && (forall i, d | 0 <= i < |order| && d in jobs[order[i]].dependsOn ::
          exists k :: 0 <= k < i && jobs[order[k]].name == d)
  }

  lemma IndexMeansUnique(jobs: seq<Job>, index: map<Name, nat>)
    requires IndexOk(jobs, index)
    ensures UniqueNames(jobs)
    ensures forall n :: n in index <==> n in GraphOf(jobs)
  {
    forall n
      ensures n in index <==> n in GraphOf(jobs)
    {
      GraphNodes(jobs, n);
    }
  }

  lemma UnknownDependency(jobs: seq<Job>, index: map<Name, nat>, i: nat, d: Name)
    requires IndexOk(jobs, index) && i < |jobs| && d in jobs[i].dependsOn && d !in index
    ensures SortFails(jobs, UnknownDep)
  {
    IndexMeansUnique(jobs, index);
    GraphAt(jobs, i);
    assert Edge(GraphOf(jobs), jobs[i].name, d);
  }

  /** A chain of indices that returns to an element is a cycle of names. */
  lemma ChainIsCycle(jobs: seq<Job>, path: seq<nat>, k: nat, i: nat)
    requires UniqueNames(jobs) && IsChain(jobs, path) && k < |path|
    requires i == path[k] && DependsAt(jobs, path[|path| - 1], i)
    ensures Cyclic(GraphOf(jobs))
  {
    var loop := path[k..] + [i];
    var p := seq(|loop|, m requires 0 <= m < |loop| => jobs[loop[m]].name);
    forall m | 0 <= m < |p| - 1
      ensures Edge(GraphOf(jobs), p[m], p[m + 1])
    {
      assert DependsAt(jobs, loop[m], loop[m + 1]) by {
        if m < |loop| - 2 {
          assert loop[m] == path[k + m] && loop[m + 1] == path[k + m + 1];
        }
      }
      GraphAt(jobs, loop[m]);
    }
    assert IsCycle(GraphOf(jobs), p);
  }

  /** The job names in this order. */
  function NamesInOrder(jobs: seq<Job>, order: seq<nat>): (names: seq<Name>)
    requires forall i | 0 <= i < |order| :: order[i] < |jobs|
    ensures |names| == |order| && forall k | 0 <= k < |order| :: names[k] == jobs[order[k]].name
  {
    seq(|order|, k requires 0 <= k < |order| => jobs[order[k]].name)
  }

  lemma OrderNamesAll(jobs: seq<Job>, order: seq<nat>, a: Name)
    requires TopoOrder(jobs, order)
    ensures a in NamesInOrder(jobs, order) <==> a in GraphOf(jobs)
  {
    GraphNodes(jobs, a);
    if a in GraphOf(jobs) {
      var i: nat :| i < |jobs| && jobs[i].name == a;
      DistinctFill(order, |jobs|);
      assert i in order;
      var k :| 0 <= k < |order| && order[k] == i;
      assert NamesInOrder(jobs, order)[k] == a;
    }
  }

  /** An index order that respects the dependencies is a topological order of the graph. */
  lemma TopoOrderByName(jobs: seq<Job>, order: seq<nat>)
    requires UniqueNames(jobs) && TopoOrder(jobs, order)
    ensures Topological(GraphOf(jobs), NamesInOrder(jobs, order))
    ensures Dag(GraphOf(jobs))
  {
    var g := GraphOf(jobs);
    var names := NamesInOrder(jobs, order);
    forall a
      ensures a in names <==> a in g
    {
      OrderNamesAll(jobs, order, a);
    }
    forall i, b | 0 <= i < |names| && Edge(g, names[i], b)
      ensures b in names[..i]
    {
      GraphAt(jobs, order[i]);
      var k :| 0 <= k < i && jobs[order[k]].name == b;
      assert names[..i][k] == b;
    }
    TopologicalIsDag(g, names);
  }

  lemma FullOrderIsTopological(jobs: seq<Job>, index: map<Name, nat>, order: seq<nat>)
    requires IndexOk(jobs, index) && OrderOk(jobs, index, order)
    requires forall i: nat | i < |jobs| :: i in order
    ensures UniqueNames(jobs) && TopoOrder(jobs, order) && Dag(GraphOf(jobs))
  {
    IndexMeansUnique(jobs, index);
    DistinctFill(order, |jobs|);
    forall i, d | 0 <= i < |order| && d in jobs[order[i]].dependsOn
      ensures exists k :: 0 <= k < i && jobs[order[k]].name == d
    {
      DependencyComesBefore(jobs, index, order, i, d);
    }
    TopoOrderByName(jobs, order);
  }

  lemma DependencyComesBefore(
    jobs: seq<Job>, index: map<Name, nat>, order: seq<nat>, i: nat, d: Name)
    requires IndexOk(jobs, index) && OrderOk(jobs, index, order)
    requires i < |order| && d in jobs[order[i]].dependsOn
    ensures exists k :: 0 <= k < i && jobs[order[k]].name == d
  {
    assert index[d] in order[..i];
    var k :| 0 <= k < i && order[k] == index[d];
    assert jobs[order[k]].name == d;
  }

  /** What holds between two steps of the search: black jobs are the ones in the output, grey
      jobs are the calls in progress, each waiting for the next. */
  ghost predicate SearchOk(
    jobs: seq<Job>, index: map<Name, nat>, marks: seq<Mark>, order: seq<nat>, path: seq<nat>)
  {
    && |marks| == |jobs|
    && IndexOk(jobs, index)
    && OrderOk(jobs, index, order)
    && IsChain(jobs, path)
    && (forall i | 0 <= i < |jobs| :: marks[i] == Visited <==> i in order)
    && (forall i | 0 <= i < |jobs| :: marks[i] == Visiting <==> i in path)
  }

  lemma EnterKeepsSearch(
    jobs: seq<Job>, index: map<Name, nat>, marks: seq<Mark>, order: seq<nat>, path: seq<nat>, i: nat)
    requires SearchOk(jobs, index, marks, order, path)
    requires i < |jobs| && marks[i] == Unvisited
    requires path != [] ==> DependsAt(jobs, path[|path| - 1], i)
    ensures SearchOk(jobs, index, marks[i := Visiting], order, path + [i])
  {
  }

  lemma LeaveKeepsSearch(
    jobs: seq<Job>, index: map<Name, nat>, marks: seq<Mark>, order: seq<nat>, path: seq<nat>, i: nat)
    requires SearchOk(jobs, index, marks, order, path + [i])
    requires i < |jobs| && i !in path
    requires forall d | d in jobs[i].dependsOn :: d in index && index[d] in order
    ensures SearchOk(jobs, index, marks[i := Visited], order + [i], path)
  {
    assert (path + [i])[|path|] == i;
    assert marks[i] == Visiting;
    assert forall k | 0 <= k < |path| :: path[k] == (path + [i])[k];
    var order' := order + [i];
    forall k, d | 0 <= k < |order'| && d in jobs[order'[k]].dependsOn
      ensures d in index && index[d] in order'[..k]
    {
      assert order'[..k] == order[..k];
      if k == |order| {
        assert order'[..k] == order;
      }
    }
  }

  ghost function Unseen(marks: seq<Mark>): set<int> {
    set i | 0 <= i < |marks| && marks[i] == Unvisited
  }

  /** The sort reports a cycle only where there is one, a missing job only where one is missing. */
  ghost predicate SortFails(jobs: seq<Job>, e: Error) {
    && e in {CycleDetected, UnknownDep}
    && (e == CycleDetected ==> Cyclic(GraphOf(jobs)))
    && (e == UnknownDep ==> !Closed(GraphOf(jobs)))
  }

  lemma ChainFails(jobs: seq<Job>, index: map<Name, nat>, path: seq<nat>, k: nat, i: nat)
    requires IndexOk(jobs, index) && IsChain(jobs, path) && k < |path|
    requires i == path[k] && DependsAt(jobs, path[|path| - 1], i)
    ensures SortFails(jobs, CycleDetected)
  {
    IndexMeansUnique(jobs, index);
    ChainIsCycle(jobs, path, k, i);
  }

  /** The first `k` dependencies resolve and are sorted already. */
  ghost predicate DepsDone(deps: seq<Name>, k: nat, index: map<Name, nat>, order: seq<nat>) {
    k <= |deps| && forall m | 0 <= m < k :: deps[m] in index && index[deps[m]] in order
  }

  lemma NextDepDone(deps: seq<Name>, k: nat, index: map<Name, nat>, before: seq<nat>, order: seq<nat>)
    requires k < |deps| && DepsDone(deps, k, index, before) && before <= order
    requires deps[k] in index && index[deps[k]] in order
    ensures DepsDone(deps, k + 1, index, order)
  {
    assert forall x | x in before :: x in order;
  }

  lemma AllDepsDone(jobs: seq<Job>, i: nat, index: map<Name, nat>, order: seq<nat>)
    requires i < |jobs| && DepsDone(jobs[i].dependsOn, |jobs[i].dependsOn|, index, order)
    ensures forall d | d in jobs[i].dependsOn :: d in index && index[d] in order
  {
  }

  /** The job list with its name index, and the marks and output of the running sort. */
  class JobGraph {
    const jobs: seq<Job>
    const index: map<Name, nat>
    var state: array<Mark>
    var order: seq<nat>

    constructor (jobs: seq<Job>, index: map<Name, nat>)
      ensures this.jobs == jobs && this.index == index && fresh(state)
      ensures order == [] && state[..] == seq(|jobs|, i => Unvisited)
    {
      this.jobs, this.index, this.order := jobs, index, [];
      this.state := new Mark[|jobs|](_ => Unvisited);
    }

    method Visit(i: nat, ghost path: seq<nat>) returns (err: Option<Error>)
      requires SearchOk(jobs, index, state[..], order, path) && i < |jobs|
      requires path != [] ==> DependsAt(jobs, path[|path| - 1], i)
      modifies state, this`order
      ensures Unseen(state[..]) <= old(Unseen(state[..]))
      ensures err.None? ==> SearchOk(jobs, index, state[..], order, path)
      ensures err.None? ==> i in order && old(order) <= order
      ensures err.Some? ==> SortFails(jobs, err.value)
      decreases |Unseen(state[..])|
    {
      if state[i] == Visited {
        return None;
      }
      if state[i] == Visiting {
        ghost var k :| 0 <= k < |path| && path[k] == i;
        ChainFails(jobs, index, path, k, i);
        return Some(CycleDetected);
      }
      ghost var before := state[..];
      state[i] := Visiting;
      assert state[..] == before[i := Visiting];
      EnterKeepsSearch(jobs, index, before, order, path, i);
      assert i in Unseen(before) && i !in Unseen(state[..]);
      var deps := jobs[i].dependsOn;
      for k := 0 to |deps|
        invariant SearchOk(jobs, index, state[..], order, path + [i]) && old(order) <= order
        invariant Unseen(state[..]) < Unseen(before)
        invariant DepsDone(deps, k, index, order)
      {
        if deps[k] !in index {
          UnknownDependency(jobs, index, i, deps[k]);
          return Some(UnknownDep);
        }
        SmallerSet(Unseen(state[..]), Unseen(before));
        ghost var orderBefore := order;
        err := Visit(index[deps[k]], path + [i]);
        if err.Some? {
          return;
        }
        NextDepDone(deps, k, index, orderBefore, order);
      }
      ghost var after := state[..];
      state[i] := Visited;
      assert state[..] == after[i := Visited];
      AllDepsDone(jobs, i, index, order);
      LeaveKeepsSearch(jobs, index, after, order, path, i);
      order := order + [i];
      return None;
    }

    /** The sort succeeds exactly on a DAG whose dependencies all resolve. */
    method TopoSort() returns (r: Result<seq<nat>, Error>)
      requires IndexOk(jobs, index)
      modifies this
      ensures r.Ok? <==> Dag(GraphOf(jobs))
      ensures r.Ok? ==> TopoOrder(jobs, r.value) && order == r.value
      ensures r.Err? ==> SortFails(jobs, r.error)
    {
      state := new Mark[|jobs|](_ => Unvisited);
      order := [];
      for i := 0 to |jobs|
        invariant fresh(state) && SearchOk(jobs, index, state[..], order, [])
        invariant forall k: nat | k < i :: k in order
      {
        var err := Visit(i, []);
        if err.Some? {
          return Err(err.value);
        }
      }
      FullOrderIsTopological(jobs, index, order);
      return Ok(order);
    }
  }

  /** The pipeline `Validate` works on; it caches the order it finds. */
  class PipelineFile {
    var jobs: seq<Job>
    var env: seq<EnvVar>
    var topoOrder: Option<seq<nat>>

    constructor (jobs: seq<Job>, env: seq<EnvVar>)
      ensures this.jobs == jobs && this.env == env && topoOrder == None
    {
      this.jobs, this.env, this.topoOrder := jobs, env, None;
    }

    /** Accepts exactly the valid pipelines, and what it says of the others is true of them; a cycle
        is reported only if no job depends on itself. */
    method Validate(rules: Rules) returns (r: Result<seq<nat>, Error>)
      modifies this`topoOrder
      ensures r.Ok? <==> ValidPipeline(env, jobs, rules)
      ensures r.Ok? ==> TopoOrder(jobs, r.value) && topoOrder == Some(r.value)
      ensures r.Err? ==> topoOrder == old(topoOrder)
      ensures r.Err? ==> PipelineFault(env, jobs, rules, r.error)
      ensures r == Err(CycleDetected) ==> !SomeSelfDependency(jobs)
    {
      var indexed := CheckUnsorted(env, jobs, rules);
      if indexed.Err? {
        return Err(indexed.error);
      }
      var index := indexed.value;
      IndexMeansUnique(jobs, index);
      var graph := new JobGraph(jobs, index);
      r := graph.TopoSort();
      if r.Ok? {
        topoOrder := Some(r.value);
      }
    }
  }

  /** Everything that is checked before the sort. */
  method CheckUnsorted(env: seq<EnvVar>, jobs: seq<Job>, rules: Rules) returns (r: Result<map<Name, nat>, Error>)
    ensures r.Ok? ==> jobs != [] && EnvError(env, {}).None? && AllFieldsOk(jobs, rules)
    ensures r.Ok? ==> IndexOk(jobs, r.value) && !SomeSelfDependency(jobs)
    ensures r.Err? ==> !ValidPipeline(env, jobs, rules) && PipelineFault(env, jobs, rules, r.error)
    ensures r.Err? ==> r.error != CycleDetected
  {
    if jobs == [] {
      return Err(EmptyPipeline);
    }
    var envErr := EnvError(env, {});
    if envErr.Some? {
      EnvFaultStands(env, jobs, rules);
      return Err(envErr.value);
    }
    var indexed := CheckJobs(jobs, rules);
    if indexed.Err? {
      if indexed.error != DuplicateJob {
        JobFaultStands(env, jobs, rules, indexed.error);
      }
      return indexed;
    }
    IndexMeansUnique(jobs, indexed.value);
    var selfErr := CheckSelfDeps(jobs);
    if selfErr.Some? {
      return Err(selfErr.value);
    }
    return indexed;
  }

  lemma IndexGrows(jobs: seq<Job>, i: nat, index: map<Name, nat>)
    requires i < |jobs| && IndexOk(jobs[..i], index)
    ensures jobs[i].name !in index ==> IndexOk(jobs[..i + 1], index[jobs[i].name := i])
    ensures jobs[i].name in index ==> !UniqueNames(jobs)
  {
    if jobs[i].name in index {
      assert jobs[..i][index[jobs[i].name]].name == jobs[i].name;
    }
  }

  /** The per-job checks, which also fill the name index. */
  ghost predicate AllFieldsOk(jobs: seq<Job>, rules: Rules) {
    forall j | j in jobs :: FieldsOk(j, rules)
  }

  lemma FieldsStep(jobs: seq<Job>, i: nat, rules: Rules)
    requires i < |jobs|
    ensures AllFieldsOk(jobs[..i + 1], rules) <==> AllFieldsOk(jobs[..i], rules) && FieldsOk(jobs[i], rules)
    ensures AllFieldsOk(jobs, rules) ==> FieldsOk(jobs[i], rules)
  {
    assert jobs[..i + 1] == jobs[..i] + [jobs[i]];
  }

  method CheckJobs(jobs: seq<Job>, rules: Rules) returns (r: Result<map<Name, nat>, Error>)
    ensures r.Ok? <==> UniqueNames(jobs) && AllFieldsOk(jobs, rules)
    ensures r.Ok? ==> IndexOk(jobs, r.value)
    ensures r.Err? ==> IsFieldError(r.error) || (r.error == DuplicateJob && !UniqueNames(jobs))
    ensures r.Err? && r.error != DuplicateJob ==> SomeJobFault(jobs, rules, r.error)
  {
    var index: map<Name, nat> := map[];
    for i := 0 to |jobs|
      invariant IndexOk(jobs[..i], index)
      invariant AllFieldsOk(jobs[..i], rules)
    {
      IndexGrows(jobs, i, index);
      FieldsStep(jobs, i, rules);
      JobErrorExactly(jobs[i], rules);
      assert jobs[i] in jobs;
      var nameErr := NameError(jobs[i], rules);
      if nameErr.Some? {
        return Err(nameErr.value);
      }
      if jobs[i].name in index {
        return Err(DuplicateJob);
      }
      index := index[jobs[i].name := i];
      var bodyErr := BodyError(jobs[i], rules);
      if bodyErr.Some? {
        return Err(bodyErr.value);
      }
    }
    assert jobs[..|jobs|] == jobs;
    IndexMeansUnique(jobs, index);
    return Ok(index);
  }

  method CheckSelfDeps(jobs: seq<Job>) returns (err: Option<Error>)
    ensures err.None? <==> !SomeSelfDependency(jobs)
    ensures err.Some? ==> err.value == SelfDependency
    ensures err.Some? && UniqueNames(jobs) ==> Cyclic(GraphOf(jobs))
  {
    for i := 0 to |jobs|
      invariant forall k | 0 <= k < i :: jobs[k].name !in jobs[k].dependsOn
    {
      if jobs[i].name in jobs[i].dependsOn {
        if UniqueNames(jobs) {
          SelfDependencyIsCycle(jobs, i);
        }
        return Some(SelfDependency);
      }
    }
    return None;
  }
}
