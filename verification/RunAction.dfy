/** From a parsed pipeline to the scheduler (cmd/cicada/main.go): filter, build, hand the jobs to
    the runner. The stages fit together: what one guarantees is what the next one asks for. */
module RunAction {
  import opened DependencyGraph
  import opened Wrappers
  import opened Pipeline
  import opened Validation
  import opened Runner
  import opened Builder
  import opened Filter
  import FilterMeaning
  import Scheduler

  datatype HandOverError = ResultMismatch | UnknownBuilderJob

  /** The jobs the runner gets: the built names, each with its pipeline dependencies. */
  ghost predicate HandedOver(names: seq<Name>, jobs: seq<Job>, out: seq<RunnerJob>) {
    && |out| == |names|
    && forall i | 0 <= i < |names| ::
         names[i] in GraphOf(jobs) && out[i] == RunnerJob(names[i], GraphOf(jobs)[names[i]])
  }

  method BuildRunnerJobs(r: BuildResult, jobs: seq<Job>) returns (out: Result<seq<RunnerJob>, HandOverError>)
    ensures out.Ok? <==> |r.definitions| == |r.jobNames| && forall n | n in r.jobNames :: n in GraphOf(jobs)
    ensures out.Err? ==> (out.error == ResultMismatch <==> |r.definitions| != |r.jobNames|)
    ensures out.Ok? ==> HandedOver(r.jobNames, jobs, out.value)
  {
    if |r.definitions| != |r.jobNames| {
      return Err(ResultMismatch);
    }
    var pipelineIdx: Graph := map[];
    for i := 0 to |jobs|
      invariant pipelineIdx == GraphOf(jobs[..i])
    {
      assert jobs[..i + 1][..i] == jobs[..i];
      pipelineIdx := pipelineIdx[jobs[i].name := jobs[i].dependsOn];
    }
    assert jobs[..|jobs|] == jobs;
    var result: seq<RunnerJob> := [];
    for i := 0 to |r.definitions|
      invariant HandedOver(r.jobNames[..i], jobs, result)
    {
      var name := r.jobNames[i];
      if name !in pipelineIdx {
        return Err(UnknownBuilderJob);
      }
      result := result + [RunnerJob(name, pipelineIdx[name])];
    }
    assert r.jobNames[..|r.jobNames|] == r.jobNames;
    assert forall n | n in r.jobNames :: exists i :: 0 <= i < |r.jobNames| && r.jobNames[i] == n;
    return Ok(result);
  }

  lemma {:induction false} ResultNames(js: seq<Job>, r: BuildResult)
    requires BuiltAlong(js, r)
    ensures r.jobNames == Names(js) && |r.definitions| == |js|
  {
  }

  /** The names of a build result are those of the jobs in the order they were built. */
  lemma BuiltNames(jobs: seq<Job>, order: seq<nat>, r: BuildResult)
    requires TopoOrder(jobs, order) && BuiltAlong(Ordered(jobs, order), r)
    ensures r.jobNames == NamesInOrder(jobs, order) && |r.definitions| == |r.jobNames|
  {
    ResultNames(Ordered(jobs, order), r);
    OrderedNames(jobs, order);
  }

  lemma OrderedNames(jobs: seq<Job>, order: seq<nat>)
    requires TopoOrder(jobs, order)
    ensures Names(Ordered(jobs, order)) == NamesInOrder(jobs, order)
  {
  }

  lemma NamesInOrderDiffer(jobs: seq<Job>, order: seq<nat>)
    requires UniqueNames(jobs) && TopoOrder(jobs, order)
    ensures forall i, k | 0 <= i < k < |order| :: NamesInOrder(jobs, order)[i] != NamesInOrder(jobs, order)[k]
  {
    TopoOrderByName(jobs, order);
  }

  /** The runner's jobs carry the pipeline's graph, so neither duplicate, missing nor cyclic
      dependencies can come up at run time. */
  lemma RunnerJobsFit(jobs: seq<Job>, order: seq<nat>, out: seq<RunnerJob>)
    requires UniqueNames(jobs) && TopoOrder(jobs, order)
    requires HandedOver(NamesInOrder(jobs, order), jobs, out)
    ensures UniqueRunnerNames(out) && DepsExist(out) && RunnerAcyclic(out)
    ensures forall nodes | Indexes(nodes, out) :: Deps(nodes) == GraphOf(jobs)
  {
    var g, names := GraphOf(jobs), NamesInOrder(jobs, order);
    NamesInOrderDiffer(jobs, order);
    TopoOrderByName(jobs, order);
    forall i, d | 0 <= i < |out| && d in out[i].dependsOn
      ensures HasName(out, d)
    {
      assert Edge(g, names[i], d);
      assert d in names;
      var k :| 0 <= k < |names| && names[k] == d;
      assert out[k].name == d;
    }
    forall nodes | Indexes(nodes, out)
      ensures Deps(nodes) == g
    {
      IndexIsGraph(jobs, names, out, nodes);
    }
  }

  lemma IndexIsGraph(jobs: seq<Job>, names: seq<Name>, out: seq<RunnerJob>, nodes: map<Name, RunnerJob>)
    requires HandedOver(names, jobs, out) && Indexes(nodes, out)
    requires forall n :: n in names <==> n in GraphOf(jobs)
    ensures Deps(nodes) == GraphOf(jobs)
  {
    var g := GraphOf(jobs);
    forall n
      ensures n in nodes <==> n in g
    {
      if n in g {
        var i :| 0 <= i < |names| && names[i] == n;
        assert out[i].name == n;
      }
      if n in nodes {
        var i :| 0 <= i < |out| && out[i].name == n;
        assert names[i] in names;
      }
    }
    forall n | n in nodes
      ensures nodes[n].dependsOn == g[n]
    {
      assert HasName(out, n);
      var i :| 0 <= i < |out| && out[i].name == n;
      assert nodes[out[i].name] == out[i];
    }
  }

  datatype Prepared =
    | FilterRefused(filterError: FilterError)
    | BuildRefused(buildError: BuildError)
    | RunnerRefused(runnerError: Error)
    | HandOverRefused(handOverError: HandOverError)
    | Ready(jobs: seq<Job>, nodes: map<Name, RunnerJob>, result: BuildResult)

  /** What the scheduler gets to run for `jobs`: their own graph, which is a DAG, and states built
      in some dependencies-first order. */
  ghost predicate Runnable(jobs: seq<Job>, nodes: map<Name, RunnerJob>, r: BuildResult) {
    && Deps(nodes) == GraphOf(jobs) && Dag(Deps(nodes))
    && BuiltInSomeOrder(jobs, r)
  }

  lemma NoCachedOrder(jobs: seq<Job>)
    requires jobs != []
    ensures !IsPermutation([], |jobs|)
  {
  }

  /** The part of the run action after filtering: `TopoOrder` was reset, so the pipeline is
      validated again and built in a fresh order. */
  method BuildAndIndex(jobs: seq<Job>, env: seq<EnvVar>, rules: BuildRules) returns (r: Prepared)
    requires ValidPipeline(env, jobs, rules.validation)
    ensures r.Ready? ==> r.jobs == jobs && Runnable(jobs, r.nodes, r.result)
    ensures !r.Ready? ==> r.BuildRefused? && r.buildError != MissingDepState && !r.buildError.NotValid?
    ensures r.Ready? <==> AllBuildable(jobs, rules)
  {
    NoCachedOrder(jobs);
    var built := Build(jobs, env, [], rules);
    if built.Err? {
      return BuildRefused(built.error);
    }
    ResultNamesJobs(jobs, built.value);
    var handed := BuildRunnerJobs(built.value, jobs);
    match handed {
      case Err(e) => return HandOverRefused(e);
      case Ok(runnerJobs) =>
        ResultFits(jobs, built.value, runnerJobs);
        var dag := BuildDAG(runnerJobs);
        match dag {
          case Err(e) => return RunnerRefused(e);
          case Ok(nodes) => return Ready(jobs, nodes, built.value);
        }
    }
  }

  /** Everything that was built is a job of the pipeline. */
  lemma ResultNamesJobs(jobs: seq<Job>, r: BuildResult)
    requires BuiltInSomeOrder(jobs, r)
    ensures |r.definitions| == |r.jobNames| && forall n | n in r.jobNames :: n in GraphOf(jobs)
  {
    var order: seq<nat> :| TopoOrder(jobs, order) && BuiltAlong(Ordered(jobs, order), r);
    BuiltNames(jobs, order, r);
    forall n | n in r.jobNames
      ensures n in GraphOf(jobs)
    {
      OrderNamesAll(jobs, order, n);
    }
  }

  lemma ResultFits(jobs: seq<Job>, r: BuildResult, out: seq<RunnerJob>)
    requires UniqueNames(jobs) && BuiltInSomeOrder(jobs, r) && HandedOver(r.jobNames, jobs, out)
    ensures UniqueRunnerNames(out) && DepsExist(out) && RunnerAcyclic(out)
    ensures forall nodes | Indexes(nodes, out) :: Deps(nodes) == GraphOf(jobs)
  {
    var order: seq<nat> :| TopoOrder(jobs, order) && BuiltAlong(Ordered(jobs, order), r);
    BuiltNames(jobs, order, r);
    RunnerJobsFit(jobs, order, out);
  }

  /** The filter flags select something and no step window is empty. */
  ghost predicate FilterPasses(jobs: seq<Job>, s: Target, t: Target) {
    TargetsOk(jobs, s, t) && !WindowEmpty(jobs, s, t) && !SomeEmptyWindow(jobs, s, t)
  }

  ghost predicate FilterResult(jobs: seq<Job>, startAt: string, stopAfter: string, out: seq<Job>) {
    if startAt == "" && stopAfter == "" then out == jobs
    else FilterPasses(jobs, TargetOf(startAt), TargetOf(stopAfter))
         && IsFiltered(jobs, TargetOf(startAt), TargetOf(stopAfter), out)
  }

  lemma FilterResultIsValid(
    env: seq<EnvVar>, jobs: seq<Job>, rules: BuildRules, startAt: string, stopAfter: string, out: seq<Job>)
    requires ValidPipeline(env, jobs, rules.validation) && FilterResult(jobs, startAt, stopAfter, out)
    ensures ValidPipeline(env, out, rules.validation)
    ensures AllBuildable(jobs, rules) ==> AllBuildable(out, rules)
  {
    if startAt != "" || stopAfter != "" {
      var s, t := TargetOf(startAt), TargetOf(stopAfter);
      FilterMeaning.FilteredIsValid(env, jobs, rules.validation, s, t, out);
      if AllBuildable(jobs, rules) {
        FilterMeaning.FilteredIsBuildable(jobs, rules, s, t, out);
      }
    }
  }

  /** A pipeline that `Validate` accepted is refused later only by its filter flags or by a job
      that cannot be built: if all of its jobs can be built and the flags select something, the run
      starts. It is never refused for its dependencies, neither by the builder nor at run time.
      Filtered or not, the scheduler gets the graph of the jobs that are left, a DAG. */
  method Prepare(jobs: seq<Job>, env: seq<EnvVar>, startAt: string, stopAfter: string, rules: BuildRules)
    returns (r: Prepared)
    requires ValidPipeline(env, jobs, rules.validation)
    ensures r.Ready? ==> Runnable(r.jobs, r.nodes, r.result) && ValidPipeline(env, r.jobs, rules.validation)
    ensures r.Ready? ==> FilterResult(jobs, startAt, stopAfter, r.jobs) && AllBuildable(r.jobs, rules)
    ensures r.FilterRefused? <==>
              && (startAt != "" || stopAfter != "")
              && !FilterPasses(jobs, TargetOf(startAt), TargetOf(stopAfter))
    ensures r.FilterRefused? ==> IsOutcome(jobs, TargetOf(startAt), TargetOf(stopAfter), Err(r.filterError))
    ensures AllBuildable(jobs, rules) ==> r.Ready? || r.FilterRefused?
    ensures startAt == "" && stopAfter == "" ==> (r.Ready? <==> AllBuildable(jobs, rules))
    ensures r.BuildRefused? ==>
              && r.buildError != MissingDepState && !r.buildError.NotValid?
              && exists left :: FilterResult(jobs, startAt, stopAfter, left) && !AllBuildable(left, rules)
    ensures !r.RunnerRefused? && !r.HandOverRefused?
  {
    var filtered := FilterJobs(jobs, startAt, stopAfter);
    match filtered {
      case Err(e) => return FilterRefused(e);
      case Ok(left) =>
        FilterResultIsValid(env, jobs, rules, startAt, stopAfter, left);
        r := BuildAndIndex(left, env, rules);
    }
  }

  /** Every run of the scheduler on a prepared pipeline is finite, and one that cannot be continued
      has returned, each job's done channel closed once, with a nil error only if every job of the
      pipeline was solved. */
  lemma PreparedPipelinesFinish(
    jobs: seq<Job>, nodes: map<Name, RunnerJob>, r: BuildResult, parallelism: int, t: seq<Scheduler.State>)
    requires Runnable(jobs, nodes, r) && jobs != []
    requires Scheduler.IsRun(Deps(nodes), Scheduler.SlotLimit(|jobs|, parallelism), t)
    requires !Scheduler.CanStep(Deps(nodes), t[|t| - 1])
    ensures var s := t[|t| - 1];
            && Scheduler.CleanEnd(Deps(nodes), Scheduler.SlotLimit(|jobs|, parallelism), s)
            && (s.main.result.None? ==> forall j | j in jobs :: j.name in s.solved)
  {
    var g, limit := Deps(nodes), Scheduler.SlotLimit(|jobs|, parallelism);
    Scheduler.EveryRunEnds(g, limit, t);
    forall j | j in jobs
      ensures j.name in g.Keys
    {
      var i :| 0 <= i < |jobs| && jobs[i] == j;
      GraphNodes(jobs, j.name);
    }
  }
}
