/** Running part of a pipeline: start-at and stop-after (pkg/pipeline/filter.go). */
module Filter {
  import opened DependencyGraph
  import opened Finite
  import opened Wrappers
  import opened Pipeline
  import opened Builder

  datatype FilterError =
    | OrphanedStep
    | UnknownStartAt
    | UnknownStartAtStep
    | UnknownStopAfter
    | UnknownStopAfterStep
    | EmptyFilterResult
    | EmptyStepWindow

  /** A filter flag split into job and step; an empty part means it was not given. */
  datatype Target = Target(job: string, step: string)

  // ----- Parsing a flag -----

  /** How many brackets are open after `s`; a closing bracket too many is ignored. */
  function Depth(s: string): nat {
    if s == "" then 0 else
      var d := Depth(s[..|s| - 1]);
      var c := s[|s| - 1];
      if c == '[' then d + 1 else if c == ']' && d > 0 then d - 1 else d
  }

  /** The first colon outside brackets is at `i`. */
  ghost predicate Splits(s: string, i: nat) {
    && i < |s| && s[i] == ':' && Depth(s[..i]) == 0
    && forall k | 0 <= k < i && s[k] == ':' :: Depth(s[..k]) > 0
  }

  ghost function TargetOf(s: string): Target {
    if i: nat :| Splits(s, i) then Target(s[..i], s[i + 1..]) else Target(s, "")
  }

  method ParseFilterTarget(s: string) returns (t: Target)
    ensures t == TargetOf(s)
  {
    var depth := 0;
    for i := 0 to |s|
      invariant depth == Depth(s[..i])
      invariant forall k | 0 <= k < i && s[k] == ':' :: Depth(s[..k]) > 0
    {
      assert s[..i + 1][..i] == s[..i];
      if s[i] == '[' {
        depth := depth + 1;
      } else if s[i] == ']' {
        if depth > 0 {
          depth := depth - 1;
        }
      } else if s[i] == ':' {
        if depth == 0 {
          assert Splits(s, i);
          assert forall k: nat :: Splits(s, k) ==> k == i;
          return Target(s[..i], s[i + 1..]);
        }
      }
    }
    assert forall k: nat :: !Splits(s, k);
    return Target(s, "");
  }

  /** All colons of a job name are inside brackets that close again, as in expanded names. */
  ghost predicate ColonsBracketed(job: string) {
    Depth(job) == 0 && forall k | 0 <= k < |job| && job[k] == ':' :: Depth(job[..k]) > 0
  }

  /** Such a name followed by a colon and a step parses back into the two. */
  lemma TargetRoundTrip(job: string, step: string)
    requires ColonsBracketed(job)
    ensures TargetOf(job) == Target(job, "")
    ensures TargetOf(job + ":" + step) == Target(job, step)
  {
    assert forall k: nat :: !Splits(job, k);
    var s := job + ":" + step;
    assert s[..|job|] == job && s[|job| + 1..] == step;
    forall k | 0 <= k < |job|
      ensures s[..k] == job[..k]
    {
    }
    assert Splits(s, |job|);
    assert forall k: nat :: Splits(s, k) ==> k == |job|;
  }

  // ----- Adjacency and targets -----

  function ByName(jobs: seq<Job>): (m: map<Name, Job>)
    ensures forall n :: n in m <==> n in GraphOf(jobs)
    ensures forall n | n in m :: m[n].dependsOn == GraphOf(jobs)[n] && m[n].name == n && m[n] in jobs
  {
    if jobs == [] then map[] else
      var last := jobs[|jobs| - 1];
      ByName(jobs[..|jobs| - 1])[last.name := last]
  }

  /** `h` has an edge from each dependency to each job that names it. */
  ghost predicate IsDependents(jobs: seq<Job>, h: Graph) {
    forall a, b :: Edge(h, a, b) <==> exists i :: 0 <= i < |jobs| && jobs[i].name == b && a in jobs[i].dependsOn
  }

  predicate HasStep(j: Job, step: string) {
    exists s | s in j.steps :: s.name == step
  }

  function TargetError(t: Target, byName: map<Name, Job>, unknownJob: FilterError, unknownStep: FilterError):
    Option<FilterError>
  {
    if t.job == "" then (if t.step != "" then Some(OrphanedStep) else None)
    else if t.job !in byName then Some(unknownJob)
    else if t.step != "" && !HasStep(byName[t.job], t.step) then Some(unknownStep)
    else None
  }

  /** The error about the targets, start-at first. */
  function TargetsError(jobs: seq<Job>, startAt: Target, stopAfter: Target): Option<FilterError> {
    var e := TargetError(startAt, ByName(jobs), UnknownStartAt, UnknownStartAtStep);
    if e.Some? then e
    else TargetError(stopAfter, ByName(jobs), UnknownStopAfter, UnknownStopAfterStep)
  }

  datatype JobAdj = JobAdj(dependents: Graph, dependencies: Graph)

  lemma DependentsGrow(jobs: seq<Job>, i: nat, h: Graph, h': Graph)
    requires i < |jobs| && IsDependents(jobs[..i], h)
    requires forall a, b :: Edge(h', a, b) <==> Edge(h, a, b) || (b == jobs[i].name && a in jobs[i].dependsOn)
    ensures IsDependents(jobs[..i + 1], h')
  {
    var front, longer := jobs[..i], jobs[..i + 1];
    assert longer[i] == jobs[i];
    forall a, b
      ensures Edge(h', a, b)
         <==> exists k :: 0 <= k < |longer| && longer[k].name == b && a in longer[k].dependsOn
    {
      if k :| 0 <= k < i && front[k].name == b && a in front[k].dependsOn {
        assert longer[k] == front[k];
      }
    }
  }

  method BuildJobAdj(jobs: seq<Job>, startAt: Target, stopAfter: Target)
    returns (r: Result<JobAdj, FilterError>)
    ensures r.Err? <==> TargetsError(jobs, startAt, stopAfter).Some?
    ensures r.Err? ==> Some(r.error) == TargetsError(jobs, startAt, stopAfter)
    ensures r.Ok? ==> r.value.dependencies == GraphOf(jobs) && IsDependents(jobs, r.value.dependents)
  {
    var byName: map<Name, Job> := map[];
    var dependents: Graph := map[];
    var dependencies: Graph := map[];
    for i := 0 to |jobs|
      invariant byName == ByName(jobs[..i]) && dependencies == GraphOf(jobs[..i])
      invariant IsDependents(jobs[..i], dependents)
    {
      var j := jobs[i];
      assert jobs[..i + 1][..i] == jobs[..i];
      byName := byName[j.name := j];
      dependencies := dependencies[j.name := j.dependsOn];
      ghost var before := dependents;
      for k := 0 to |j.dependsOn|
        invariant forall a, b :: Edge(dependents, a, b)
                            <==> Edge(before, a, b) || (b == j.name && a in j.dependsOn[..k])
      {
        var dep := j.dependsOn[k];
        var known := if dep in dependents then dependents[dep] else [];
        dependents := dependents[dep := known + [j.name]];
        assert j.dependsOn[..k + 1] == j.dependsOn[..k] + [dep];
      }
      assert j.dependsOn[..|j.dependsOn|] == j.dependsOn;
      DependentsGrow(jobs, i, before, dependents);
    }
    assert jobs[..|jobs|] == jobs;
    var startErr := TargetError(startAt, byName, UnknownStartAt, UnknownStartAtStep);
    if startErr.Some? {
      return Err(startErr.value);
    }
    var stopErr := TargetError(stopAfter, byName, UnknownStopAfter, UnknownStopAfterStep);
    if stopErr.Some? {
      return Err(stopErr.value);
    }
    return Ok(JobAdj(dependents, dependencies));
  }

  // ----- Graph searches -----

  ghost function Targets(g: Graph): set<Name> {
    set a, b | a in g && b in g[a] :: b
  }

  /** Everything visited is reachable, and only what is still queued may have unvisited
      successors. */
  ghost predicate Searched(adj: Graph, start: Name, visited: set<Name>, queue: seq<Name>) {
    && start in visited && visited <= Targets(adj) + {start}
    && (forall n | n in visited :: Reach(adj, start, n))
    && (forall n | n in queue :: n in visited)
    && (forall n, d | n in visited && n !in queue && Edge(adj, n, d) :: d in visited)
  }

  /** The inner loop: successors not seen before are marked and queued. */
  method Enqueue(nexts: seq<Name>, before: set<Name>, rest: seq<Name>)
    returns (visited: set<Name>, queue: seq<Name>)
    requires forall n | n in rest :: n in before
    ensures forall n :: n in visited <==> n in before || n in nexts
    ensures rest <= queue && forall n | n in queue :: n in visited
    ensures forall n | n in visited && n !in before :: n in queue
    ensures visited == before ==> queue == rest
  {
    visited, queue := before, rest;
    for i := 0 to |nexts|
      invariant forall n :: n in visited <==> n in before || n in nexts[..i]
      invariant rest <= queue && forall n | n in queue :: n in visited
      invariant forall n | n in visited && n !in before :: n in queue
      invariant visited == before ==> queue == rest
    {
      var next := nexts[i];
      assert nexts[..i + 1] == nexts[..i] + [next];
      if next !in visited {
        visited := visited + {next};
        queue := queue + [next];
      }
    }
    assert nexts[..|nexts|] == nexts;
  }

  lemma SearchStep(
    adj: Graph, start: Name, before: set<Name>, cur: Name, rest: seq<Name>, visited: set<Name>, queue: seq<Name>)
    requires Searched(adj, start, before, [cur] + rest)
    requires forall n :: n in visited <==> n in before || (cur in adj && n in adj[cur])
    requires rest <= queue && forall n | n in queue :: n in visited
    requires forall n | n in visited && n !in before :: n in queue
    ensures Searched(adj, start, visited, queue)
    ensures visited != before ==>
              |Targets(adj) + {start} - visited| < |Targets(adj) + {start} - before|
  {
    assert cur in [cur] + rest;
    forall n | n in visited
      ensures Reach(adj, start, n) && n in Targets(adj) + {start}
    {
      if n !in before {
        assert Edge(adj, cur, n);
        ReachStep(adj, start, cur, n);
      }
    }
    forall n, d | n in visited && n !in queue && Edge(adj, n, d)
      ensures d in visited
    {
      if n != cur {
        assert n !in [cur] + rest;
      }
    }
    if visited != before {
      SmallerSet(Targets(adj) + {start} - visited, Targets(adj) + {start} - before);
    }
  }

  /** Breadth-first search finds exactly what paths reach. */
  method BfsReachable(start: Name, adj: Graph) returns (visited: set<Name>)
    ensures forall n :: n in visited <==> Reach(adj, start, n)
  {
    visited := {start};
    var queue := [start];
    ReachSelf(adj, start);
    while queue != []
      invariant Searched(adj, start, visited, queue)
      decreases |Targets(adj) + {start} - visited|, |queue|
    {
      var cur, rest := queue[0], queue[1..];
      ghost var before := visited;
      assert queue == [cur] + rest;
      visited, queue := Enqueue(if cur in adj then adj[cur] else [], visited, rest);
      SearchStep(adj, start, before, cur, rest, visited, queue);
    }
    forall n | Reach(adj, start, n)
      ensures n in visited
    {
      ClosedSetContains(adj, visited, start, n);
    }
  }

  /** A nil set stands for every name. */
  function IntersectSets(a: Option<set<Name>>, b: Option<set<Name>>): (r: Option<set<Name>>)
    ensures r.None? <==> a.None? && b.None?
    ensures r.Some? ==> forall n :: n in r.value <==>
                          (a.Some? ==> n in a.value) && (b.Some? ==> n in b.value)
  {
    if a.None? then b
    else if b.None? then a
    else Some(a.value * b.value)
  }

  /** A Go map used as a set, shared by the recursive calls that fill it. */
  class NameSet {
    var names: set<Name>

    constructor (names: set<Name>)
      ensures this.names == names
    {
      this.names := names;
    }
  }

  /** `after` adds to `before` only what `name` reaches, and everything the additions and `name`
      itself lead to. */
  ghost predicate GrownFrom(g: Graph, name: Name, before: set<Name>, after: set<Name>) {
    && before <= after
    && (forall d | Edge(g, name, d) :: d in after)
    && (forall x, d | x in after && x !in before && Edge(g, x, d) :: d in after)
    && (forall x | x in after && x !in before :: Reach(g, name, x))
  }

  /** Adds the transitive dependencies of `name` that are not behind an already visited one. */
  method AddTransitiveDeps(name: Name, deps: Graph, visited: NameSet)
    modifies visited
    ensures GrownFrom(deps, name, old(visited.names), visited.names)
    decreases |Targets(deps) - visited.names|
  {
    var list := if name in deps then deps[name] else [];
    ghost var before := visited.names;
    for i := 0 to |list|
      invariant before <= visited.names
      invariant forall k | 0 <= k < i :: list[k] in visited.names
      invariant forall x, d | x in visited.names && x !in before && Edge(deps, x, d) :: d in visited.names
      invariant forall x | x in visited.names && x !in before :: Reach(deps, name, x)
    {
      var dep := list[i];
      if dep in visited.names {
        continue;
      }
      assert Edge(deps, name, dep);
      ReachEdge(deps, name, dep);
      ghost var earlier := visited.names;
      visited.names := visited.names + {dep};
      assert dep in Targets(deps);
      SmallerSet(Targets(deps) - visited.names, Targets(deps) - before);
      ghost var mid := visited.names;
      AddTransitiveDeps(dep, deps, visited);
      forall x | x in visited.names && x !in mid
        ensures Reach(deps, name, x)
      {
        ReachTrans(deps, name, dep, x);
      }
    }
  }

  // ----- The window -----

  /** `n` lies between the targets: downstream of start-at and upstream of stop-after. */
  ghost predicate InWindow(g: Graph, startAt: Target, stopAfter: Target, n: Name) {
    && (startAt.job != "" || stopAfter.job != "")
    && (startAt.job != "" ==> Reach(g, n, startAt.job))
    && (stopAfter.job != "" ==> Reach(g, stopAfter.job, n))
  }

  /** `n` is in the window or a transitive dependency of something in it. */
  ghost predicate IsKept(g: Graph, startAt: Target, stopAfter: Target, n: Name) {
    exists w :: InWindow(g, startAt, stopAfter, w) && Reach(g, w, n)
  }

  /** Every name with the dependencies of all jobs that carry it. */
  function AllEdges(jobs: seq<Job>): Graph {
    if jobs == [] then map[] else
      var front, last := AllEdges(jobs[..|jobs| - 1]), jobs[|jobs| - 1];
      front[last.name := (if last.name in front then front[last.name] else []) + last.dependsOn]
  }

  lemma {:induction false} AllEdgesAt(jobs: seq<Job>, a: Name, b: Name)
    ensures Edge(AllEdges(jobs), a, b) <==> exists i :: 0 <= i < |jobs| && jobs[i].name == a && b in jobs[i].dependsOn
  {
    if jobs != [] {
      var front := jobs[..|jobs| - 1];
      AllEdgesAt(front, a, b);
      assert forall i | 0 <= i < |front| :: front[i] == jobs[i];
    }
  }

  /** The last job of a name is one of them. */
  lemma {:induction false} LastAmongAll(jobs: seq<Job>, a: Name, b: Name)
    requires Edge(GraphOf(jobs), a, b)
    ensures Edge(AllEdges(jobs), a, b)
  {
    if a != jobs[|jobs| - 1].name {
      LastAmongAll(jobs[..|jobs| - 1], a, b);
    }
  }

  lemma DependentsAreTransposed(jobs: seq<Job>, h: Graph)
    requires IsDependents(jobs, h)
    ensures Transposed(AllEdges(jobs), h) && Transposed(h, AllEdges(jobs))
  {
    forall a, b
      ensures Edge(AllEdges(jobs), a, b) <==> Edge(h, b, a)
    {
      AllEdgesAt(jobs, a, b);
    }
  }

  /** `n` lies between the targets when names may repeat: upwards every job of a name counts,
      downwards, as in a map, the last one. */
  ghost predicate Window(jobs: seq<Job>, startAt: Target, stopAfter: Target, n: Name) {
    && (startAt.job != "" || stopAfter.job != "")
    && (startAt.job != "" ==> Reach(AllEdges(jobs), n, startAt.job))
    && (stopAfter.job != "" ==> Reach(GraphOf(jobs), stopAfter.job, n))
  }

  ghost predicate Kept(jobs: seq<Job>, startAt: Target, stopAfter: Target, n: Name) {
    exists w :: Window(jobs, startAt, stopAfter, w) && Reach(GraphOf(jobs), w, n)
  }

  lemma UniqueEdges(jobs: seq<Job>)
    requires UniqueNames(jobs)
    ensures forall a, b :: Edge(AllEdges(jobs), a, b) <==> Edge(GraphOf(jobs), a, b)
  {
    forall a, b
      ensures Edge(AllEdges(jobs), a, b) <==> Edge(GraphOf(jobs), a, b)
    {
      AllEdgesAt(jobs, a, b);
      EdgeAt(jobs, a, b);
    }
  }

  /** With unique names there is one graph, read both ways. */
  lemma UniqueWindow(jobs: seq<Job>, startAt: Target, stopAfter: Target)
    requires UniqueNames(jobs)
    ensures forall n :: Window(jobs, startAt, stopAfter, n) <==> InWindow(GraphOf(jobs), startAt, stopAfter, n)
    ensures forall n :: Kept(jobs, startAt, stopAfter, n) <==> IsKept(GraphOf(jobs), startAt, stopAfter, n)
  {
    UniqueEdges(jobs);
    forall n
      ensures Window(jobs, startAt, stopAfter, n) <==> InWindow(GraphOf(jobs), startAt, stopAfter, n)
    {
      if Reach(AllEdges(jobs), n, startAt.job) {
        SubgraphReach(AllEdges(jobs), GraphOf(jobs), n, startAt.job);
      }
      if Reach(GraphOf(jobs), n, startAt.job) {
        SubgraphReach(GraphOf(jobs), AllEdges(jobs), n, startAt.job);
      }
    }
    forall n
      ensures Kept(jobs, startAt, stopAfter, n) <==> IsKept(GraphOf(jobs), startAt, stopAfter, n)
    {
      SameKept(jobs, startAt, stopAfter, n);
    }
  }

  lemma SameKept(jobs: seq<Job>, s: Target, t: Target, n: Name)
    requires forall w :: Window(jobs, s, t, w) <==> InWindow(GraphOf(jobs), s, t, w)
    ensures Kept(jobs, s, t, n) <==> IsKept(GraphOf(jobs), s, t, n)
  {
    if Kept(jobs, s, t, n) {
      var w :| Window(jobs, s, t, w) && Reach(GraphOf(jobs), w, n);
      assert InWindow(GraphOf(jobs), s, t, w);
    }
    if IsKept(GraphOf(jobs), s, t, n) {
      var w :| InWindow(GraphOf(jobs), s, t, w) && Reach(GraphOf(jobs), w, n);
      assert Window(jobs, s, t, w);
    }
  }

  lemma SearchedUpwards(jobs: seq<Job>, h: Graph, s: Name, n: Name)
    requires IsDependents(jobs, h)
    ensures Reach(h, s, n) <==> Reach(AllEdges(jobs), n, s)
  {
    DependentsAreTransposed(jobs, h);
    if Reach(h, s, n) {
      ReachTransposed(h, AllEdges(jobs), s, n);
    }
    if Reach(AllEdges(jobs), n, s) {
      ReachTransposed(AllEdges(jobs), h, n, s);
    }
  }

  method FindWindow(jobs: seq<Job>, adj: JobAdj, startAt: Target, stopAfter: Target)
    returns (window: set<Name>)
    requires adj.dependencies == GraphOf(jobs) && IsDependents(jobs, adj.dependents)
    ensures forall n :: n in window <==> Window(jobs, startAt, stopAfter, n)
    ensures UniqueNames(jobs) ==>
              forall n :: n in window <==> InWindow(GraphOf(jobs), startAt, stopAfter, n)
  {
    var forwardSet: Option<set<Name>> := None;
    if startAt.job != "" {
      var s := BfsReachable(startAt.job, adj.dependents);
      forwardSet := Some(s);
    }
    var backwardSet: Option<set<Name>> := None;
    if stopAfter.job != "" {
      var s := BfsReachable(stopAfter.job, adj.dependencies);
      backwardSet := Some(s);
    }
    var both := IntersectSets(forwardSet, backwardSet);
    window := if both.None? then {} else both.value;
    forall n
      ensures n in window <==> Window(jobs, startAt, stopAfter, n)
    {
      SearchedUpwards(jobs, adj.dependents, startAt.job, n);
    }
    if UniqueNames(jobs) {
      UniqueWindow(jobs, startAt, stopAfter);
    }
  }

  ghost predicate ReachFrom(g: Graph, from: set<Name>, n: Name) {
    exists w :: w in from && Reach(g, w, n)
  }

  /** Between two calls: all of `from` is in, only what it reaches, and the dependencies of
      everything except the names still to be processed. */
  ghost predicate Closing(g: Graph, from: set<Name>, pending: set<Name>, full: set<Name>) {
    && pending <= from <= full
    && (forall x, d | x in full && x !in pending && Edge(g, x, d) :: d in full)
    && (forall n | n in full :: ReachFrom(g, from, n))
  }

  lemma GrowthKeepsClosing(
    g: Graph, from: set<Name>, pending: set<Name>, name: Name, before: set<Name>, after: set<Name>)
    requires Closing(g, from, pending, before) && name in pending
    requires GrownFrom(g, name, before, after)
    ensures Closing(g, from, pending - {name}, after)
  {
  }

  lemma ClosedMeansReached(g: Graph, from: set<Name>, full: set<Name>)
    requires Closing(g, from, {}, full)
    ensures forall n :: n in full <==> ReachFrom(g, from, n)
  {
    forall n | ReachFrom(g, from, n)
      ensures n in full
    {
      var w :| w in from && Reach(g, w, n);
      ClosedSetContains(g, full, w, n);
    }
  }

  method AddAllDeps(window: set<Name>, deps: Graph) returns (full: set<Name>)
    ensures forall n :: n in full <==> ReachFrom(deps, window, n)
  {
    var visited := new NameSet(window);
    var pending := window;
    forall w | w in window
      ensures ReachFrom(deps, window, w)
    {
      ReachSelf(deps, w);
    }
    while pending != {}
      invariant Closing(deps, window, pending, visited.names)
      decreases pending
    {
      var name :| name in pending;
      ghost var before := visited.names;
      AddTransitiveDeps(name, deps, visited);
      GrowthKeepsClosing(deps, window, pending, name, before, visited.names);
      pending := pending - {name};
    }
    ClosedMeansReached(deps, window, visited.names);
    full := visited.names;
  }

  // ----- What happens to a kept job -----

  function StepIndex(steps: seq<Step>, name: string): (i: int)
    ensures -1 <= i < |steps|
    ensures i >= 0 ==> steps[i].name == name && forall k | 0 <= k < i :: steps[k].name != name
    ensures i < 0 ==> forall s | s in steps :: s.name != name
  {
    if steps == [] then -1
    else if steps[0].name == name then 0
    else
      var i := StepIndex(steps[1..], name);
      if i < 0 then -1 else i + 1
  }

  /** The index of the step a target names in this job, or -1. */
  function TrimIndex(j: Job, t: Target): int {
    if t.step != "" && j.name == t.job then StepIndex(j.steps, t.step) else -1
  }

  predicate EmptyWindowIn(j: Job, startAt: Target, stopAfter: Target) {
    TrimIndex(j, startAt) >= 0 && TrimIndex(j, stopAfter) >= 0
    && TrimIndex(j, startAt) > TrimIndex(j, stopAfter)
  }

  ghost predicate SomeEmptyWindow(js: seq<Job>, startAt: Target, stopAfter: Target) {
    exists i :: 0 <= i < |js| && EmptyWindowIn(js[i], startAt, stopAfter)
  }

  function DropExports(j: Job): Job {
    j.(exports := [], publish := None, steps := StripSteps(j.steps))
  }

  /** Stop-after cuts off the steps behind its step, start-at takes the exports from the steps
      before its own. */
  function TrimSteps(j: Job, startAt: Target, stopAfter: Target): Job
    requires !EmptyWindowIn(j, startAt, stopAfter)
  {
    var from, to := TrimIndex(j, startAt), TrimIndex(j, stopAfter);
    var steps := if to >= 0 then j.steps[..to + 1] else j.steps;
    if from >= 0 then j.(steps := StripSteps(steps[..from]) + steps[from..]) else j.(steps := steps)
  }

  method StripStepExports(steps: seq<Step>, n: nat) returns (r: seq<Step>)
    requires n <= |steps|
    ensures r == StripSteps(steps[..n]) + steps[n..]
  {
    r := steps;
    for i := 0 to n
      invariant |r| == |steps|
      invariant forall k | 0 <= k < i :: r[k] == steps[k].(exports := [])
      invariant forall k | i <= k < |r| :: r[k] == steps[k]
    {
      r := r[i := r[i].(exports := [])];
    }
  }

  /** Trims the jobs in place; stops with an error at a job whose step window is empty. */
  method ApplyStepTrimming(jobs: array<Job>, startAt: Target, stopAfter: Target)
    returns (err: Option<FilterError>)
    modifies jobs
    ensures err.Some? <==> SomeEmptyWindow(old(jobs[..]), startAt, stopAfter)
    ensures err.None? ==> Trimmed(old(jobs[..]), startAt, stopAfter, jobs[..])
    ensures err.Some? ==> err.value == EmptyStepWindow
  {
    if startAt.step == "" && stopAfter.step == "" {
      return None;
    }
    ghost var before := jobs[..];
    for i := 0 to jobs.Length
      invariant forall k | 0 <= k < i :: IsTrimmed(before[k], startAt, stopAfter, jobs[..][k])
      invariant jobs[i..] == before[i..]
    {
      assert jobs[i] == before[i..][0];
      var startIdx, stopIdx := TrimIndex(jobs[i], startAt), TrimIndex(jobs[i], stopAfter);
      if startIdx < 0 && stopIdx < 0 {
        continue;
      }
      if startIdx >= 0 && stopIdx >= 0 && startIdx > stopIdx {
        assert EmptyWindowIn(before[i], startAt, stopAfter);
        return Some(EmptyStepWindow);
      }
      TrimInPlace(jobs, i, startAt, stopAfter, startIdx, stopIdx);
    }
    return None;
  }

  method TrimInPlace(
    jobs: array<Job>, i: nat, ghost startAt: Target, ghost stopAfter: Target, startIdx: int, stopIdx: int)
    requires i < jobs.Length && !EmptyWindowIn(jobs[i], startAt, stopAfter)
    requires startIdx == TrimIndex(jobs[i], startAt) && stopIdx == TrimIndex(jobs[i], stopAfter)
    modifies jobs
    ensures jobs[..] == old(jobs[..])[i := TrimSteps(old(jobs[i]), startAt, stopAfter)]
  {
    if stopIdx >= 0 {
      jobs[i] := jobs[i].(steps := jobs[i].steps[..stopIdx + 1]);
    }
    if startIdx >= 0 {
      var stripped := StripStepExports(jobs[i].steps, startIdx);
      jobs[i] := jobs[i].(steps := stripped);
    }
  }

  /** The kept jobs in their original order, those outside the window without exports. */
  function Selected(jobs: seq<Job>, full: set<Name>, window: set<Name>): seq<Job> {
    if jobs == [] then [] else
      var last := jobs[|jobs| - 1];
      Selected(jobs[..|jobs| - 1], full, window)
      + (if last.name !in full then []
         else if last.name in window then [last]
         else [DropExports(last)])
  }

  /** `out` is the result of filtering: what was selected, trimmed. */
  ghost predicate IsFiltered(jobs: seq<Job>, startAt: Target, stopAfter: Target, out: seq<Job>) {
    exists full, window :: FilteredBy(jobs, startAt, stopAfter, full, window, out)
  }

  ghost predicate FilteredBy(
    jobs: seq<Job>, startAt: Target, stopAfter: Target, full: set<Name>, window: set<Name>, out: seq<Job>)
  {
    && (forall n :: n in window <==> Window(jobs, startAt, stopAfter, n))
    && (forall n :: n in full <==> Kept(jobs, startAt, stopAfter, n))
    && Trimmed(Selected(jobs, full, window), startAt, stopAfter, out)
  }

  ghost predicate IsTrimmed(j: Job, startAt: Target, stopAfter: Target, out: Job) {
    !EmptyWindowIn(j, startAt, stopAfter) && out == TrimSteps(j, startAt, stopAfter)
  }

  ghost predicate Trimmed(selected: seq<Job>, startAt: Target, stopAfter: Target, out: seq<Job>) {
    && |out| == |selected|
    && forall i | 0 <= i < |out| :: IsTrimmed(selected[i], startAt, stopAfter, out[i])
  }

  method SelectJobs(jobs: seq<Job>, full: set<Name>, window: set<Name>) returns (filtered: seq<Job>)
    ensures filtered == Selected(jobs, full, window)
  {
    filtered := [];
    for i := 0 to |jobs|
      invariant filtered == Selected(jobs[..i], full, window)
    {
      assert jobs[..i + 1][..i] == jobs[..i];
      if jobs[i].name !in full {
        continue;
      }
      var j := jobs[i];
      if j.name !in window {
        j := j.(exports := [], publish := None);
        for k := 0 to |j.steps|
          invariant j == jobs[i].(exports := [], publish := None, steps := j.steps)
          invariant |j.steps| == |jobs[i].steps|
          invariant forall m | 0 <= m < k :: j.steps[m] == StripStep(jobs[i].steps[m])
          invariant forall m | k <= m < |j.steps| :: j.steps[m] == jobs[i].steps[m]
        {
          j := j.(steps := j.steps[k := j.steps[k].(exports := [])]);
        }
        assert j.steps == StripSteps(jobs[i].steps);
      }
      filtered := filtered + [j];
    }
    assert jobs[..|jobs|] == jobs;
  }

  // ----- FilterJobs -----

  function Keep(j: Job, window: set<Name>): Job {
    if j.name in window then j else DropExports(j)
  }

  /** `idx` says, in ascending order, where each job of `out` comes from, and skips no job that
      is in `full`. */
  ghost predicate ComesFrom(
    jobs: seq<Job>, full: set<Name>, window: set<Name>, out: seq<Job>, idx: seq<nat>) {
    && |idx| == |out|
    && (forall i, k | 0 <= i < k < |idx| :: idx[i] < idx[k])
    && (forall i | 0 <= i < |idx| ::
          idx[i] < |jobs| && jobs[idx[i]].name in full && out[i] == Keep(jobs[idx[i]], window))
    && (forall k: nat | k < |jobs| && jobs[k].name in full :: k in idx)
  }

  lemma ComesFromStep(
    jobs: seq<Job>, full: set<Name>, window: set<Name>, out: seq<Job>, idx: seq<nat>, j: Job)
    requires ComesFrom(jobs, full, window, out, idx)
    ensures j.name in full ==>
              ComesFrom(jobs + [j], full, window, out + [Keep(j, window)], idx + [|jobs|])
    ensures j.name !in full ==> ComesFrom(jobs + [j], full, window, out, idx)
  {
    var longer := idx + [|jobs|];
    assert longer[|idx|] == |jobs|;
    forall k: nat | k < |jobs| && jobs[k].name in full
      ensures k in longer
    {
      assert k in idx;
    }
  }

  /** The selection is a sublist in the original order. */
  lemma {:induction false} SelectedIsSublist(jobs: seq<Job>, full: set<Name>, window: set<Name>)
    returns (idx: seq<nat>)
    ensures ComesFrom(jobs, full, window, Selected(jobs, full, window), idx)
  {
    if jobs == [] {
      idx := [];
    } else {
      var n := |jobs| - 1;
      idx := SelectedIsSublist(jobs[..n], full, window);
      ComesFromStep(jobs[..n], full, window, Selected(jobs[..n], full, window), idx, jobs[n]);
      assert jobs == jobs[..n] + [jobs[n]];
      if jobs[n].name in full {
        idx := idx + [n];
      }
    }
  }

  lemma StepNamesOfStripped(steps: seq<Step>, name: string)
    ensures StepIndex(StripSteps(steps), name) == StepIndex(steps, name)
  {
    var a, b := StepIndex(StripSteps(steps), name), StepIndex(steps, name);
    if a >= 0 {
      assert StripSteps(steps)[a].name == steps[a].name;
      assert steps[a] in steps;
    }
    if b >= 0 {
      assert StripSteps(steps)[b].name == steps[b].name;
      assert StripSteps(steps)[b] in StripSteps(steps);
    }
  }

  lemma KeepSparesTargets(j: Job, window: set<Name>, t: Target)
    ensures TrimIndex(Keep(j, window), t) == TrimIndex(j, t)
  {
    StepNamesOfStripped(j.steps, t.step);
  }

  /** Some job of the selection has an empty step window exactly when some job of the pipeline
      has: a job with both targets is always in the window. */
  lemma EmptyWindowSurvives(
    jobs: seq<Job>, startAt: Target, stopAfter: Target, full: set<Name>, window: set<Name>)
    requires forall n :: n in full <==> Kept(jobs, startAt, stopAfter, n)
    requires startAt.job != "" || stopAfter.job != ""
    ensures SomeEmptyWindow(Selected(jobs, full, window), startAt, stopAfter)
       <==> SomeEmptyWindow(jobs, startAt, stopAfter)
  {
    var idx := SelectedIsSublist(jobs, full, window);
    var selected := Selected(jobs, full, window);
    if SomeEmptyWindow(jobs, startAt, stopAfter) {
      var k :| 0 <= k < |jobs| && EmptyWindowIn(jobs[k], startAt, stopAfter);
      var j := jobs[k];
      ReachSelf(GraphOf(jobs), j.name);
      ReachSelf(AllEdges(jobs), j.name);
      assert Window(jobs, startAt, stopAfter, j.name);
      assert k in idx;
      var i :| 0 <= i < |idx| && idx[i] == k;
      KeepSparesTargets(j, window, startAt);
      KeepSparesTargets(j, window, stopAfter);
      assert EmptyWindowIn(selected[i], startAt, stopAfter);
    }
    if SomeEmptyWindow(selected, startAt, stopAfter) {
      var i :| 0 <= i < |selected| && EmptyWindowIn(selected[i], startAt, stopAfter);
      KeepSparesTargets(jobs[idx[i]], window, startAt);
      KeepSparesTargets(jobs[idx[i]], window, stopAfter);
      assert EmptyWindowIn(jobs[idx[i]], startAt, stopAfter);
    }
  }

  ghost predicate TargetsOk(jobs: seq<Job>, startAt: Target, stopAfter: Target) {
    TargetsError(jobs, startAt, stopAfter).None?
  }

  ghost predicate WindowEmpty(jobs: seq<Job>, startAt: Target, stopAfter: Target) {
    forall n :: !Window(jobs, startAt, stopAfter, n)
  }

  /** Filtering succeeds exactly when both targets exist, something lies between them and no
      step window is empty; each failure is reported as what it is. */
  ghost predicate IsOutcome(jobs: seq<Job>, s: Target, t: Target, r: Result<seq<Job>, FilterError>) {
    if !TargetsOk(jobs, s, t) then r == Err(TargetsError(jobs, s, t).value)
    else if WindowEmpty(jobs, s, t) then r == Err(EmptyFilterResult)
    else if SomeEmptyWindow(jobs, s, t) then r == Err(EmptyStepWindow)
    else r.Ok? && IsFiltered(jobs, s, t, r.value)
  }

  lemma KeptIsReached(jobs: seq<Job>, s: Target, t: Target, window: set<Name>, full: set<Name>)
    requires forall n :: n in window <==> Window(jobs, s, t, n)
    requires forall n :: n in full <==> ReachFrom(GraphOf(jobs), window, n)
    ensures forall n :: n in full <==> Kept(jobs, s, t, n)
  {
    forall n
      ensures n in full <==> Kept(jobs, s, t, n)
    {
      if Kept(jobs, s, t, n) {
        var w :| Window(jobs, s, t, w) && Reach(GraphOf(jobs), w, n);
        assert w in window;
      }
    }
  }

  lemma TrimmingDecides(
    jobs: seq<Job>, s: Target, t: Target, window: set<Name>, full: set<Name>, err: bool, out: seq<Job>)
    requires TargetsOk(jobs, s, t) && window != {}
    requires forall n :: n in window <==> Window(jobs, s, t, n)
    requires forall n :: n in full <==> ReachFrom(GraphOf(jobs), window, n)
    requires err <==> SomeEmptyWindow(Selected(jobs, full, window), s, t)
    requires !err ==> Trimmed(Selected(jobs, full, window), s, t, out)
    ensures IsOutcome(jobs, s, t, if err then Err(EmptyStepWindow) else Ok(out))
  {
    var w :| w in window;
    assert Window(jobs, s, t, w);
    KeptIsReached(jobs, s, t, window, full);
    EmptyWindowSurvives(jobs, s, t, full, window);
    assert !err ==> FilteredBy(jobs, s, t, full, window, out);
  }

  method FilterJobs(jobs: seq<Job>, startAt: string, stopAfter: string)
    returns (r: Result<seq<Job>, FilterError>)
    ensures startAt == "" && stopAfter == "" ==> r == Ok(jobs)
    ensures startAt != "" || stopAfter != "" ==>
              IsOutcome(jobs, TargetOf(startAt), TargetOf(stopAfter), r)
  {
    if startAt == "" && stopAfter == "" {
      return Ok(jobs);
    }
    var s := ParseFilterTarget(startAt);
    var t := ParseFilterTarget(stopAfter);
    var adj := BuildJobAdj(jobs, s, t);
    if adj.Err? {
      return Err(adj.error);
    }
    var window := FindWindow(jobs, adj.value, s, t);
    if window == {} {
      return Err(EmptyFilterResult);
    }
    var full := AddAllDeps(window, adj.value.dependencies);
    var selected := SelectJobs(jobs, full, window);
    var filtered := new Job[|selected|](i requires 0 <= i < |selected| => selected[i]);
    assert filtered[..] == selected;
    var err := ApplyStepTrimming(filtered, s, t);
    TrimmingDecides(jobs, s, t, window, full, err.Some?, filtered[..]);
    if err.Some? {
      return Err(err.value);
    }
    return Ok(filtered[..]);
  }
}
