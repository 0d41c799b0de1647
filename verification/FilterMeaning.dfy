/** What filtering keeps: validity, dependencies and the meaning of every job it does not cut
    short. */
module FilterMeaning {
  import opened DependencyGraph
  import opened Wrappers
  import opened Pipeline
  import opened Builder
  import opened BuildResults
  import opened Filter

  /** The job a stop-after `job:step` cuts short. */
  predicate Truncates(t: Target, n: Name) {
    t.step != "" && n == t.job
  }

  /** Where the filtered jobs come from, in order: a filtered job is a kept one, trimmed. */
  lemma FilteredFrom(jobs: seq<Job>, s: Target, t: Target, out: seq<Job>) returns (idx: seq<nat>, window: set<Name>)
    requires IsFiltered(jobs, s, t, out)
    ensures |idx| == |out|
    ensures forall i, k | 0 <= i < k < |idx| :: idx[i] < idx[k]
    ensures forall i | 0 <= i < |idx| :: idx[i] < |jobs| && FilteredJob(jobs[idx[i]], s, t, window, out[i])
    ensures UniqueNames(jobs) ==> forall k: nat | k < |jobs| :: k in idx <==> IsKept(GraphOf(jobs), s, t, jobs[k].name)
    ensures UniqueNames(jobs) ==> forall n :: n in window <==> InWindow(GraphOf(jobs), s, t, n)
  {
    var full;
    full, window :| FilteredBy(jobs, s, t, full, window, out);
    idx := SelectedIsSublist(jobs, full, window);
    if UniqueNames(jobs) {
      UniqueWindow(jobs, s, t);
    }
    forall i | 0 <= i < |idx|
      ensures FilteredJob(jobs[idx[i]], s, t, window, out[i])
    {
      assert IsTrimmed(Selected(jobs, full, window)[i], s, t, out[i]);
    }
  }

  ghost predicate FilteredJob(j: Job, s: Target, t: Target, window: set<Name>, out: Job) {
    IsTrimmed(Keep(j, window), s, t, out)
  }

  /** Trimming and dropping exports touch nothing but steps, exports and publish. */
  lemma FilteredFields(j: Job, s: Target, t: Target, window: set<Name>, out: Job)
    requires FilteredJob(j, s, t, window, out)
    ensures out == j.(exports := out.exports, publish := out.publish, steps := out.steps)
    ensures if j.name in window then out.exports == j.exports && out.publish == j.publish
            else out.exports == [] && out.publish == None
  {
  }

  lemma TrimmedSteps(j: Job, s: Target, t: Target)
    requires !EmptyWindowIn(j, s, t)
    ensures var out := TrimSteps(j, s, t).steps;
            && |out| == (if TrimIndex(j, t) >= 0 then TrimIndex(j, t) + 1 else |j.steps|)
            && forall i | 0 <= i < |out| :: out[i] == if i >= TrimIndex(j, s) then j.steps[i] else StripStep(j.steps[i])
  {
    var from, to := TrimIndex(j, s), TrimIndex(j, t);
    var steps := if to >= 0 then j.steps[..to + 1] else j.steps;
    if from >= 0 {
      StrippedPrefix(steps, from);
      assert TrimSteps(j, s, t).steps == StripSteps(steps[..from]) + steps[from..];
    } else {
      assert TrimSteps(j, s, t).steps == steps;
    }
  }

  lemma StrippedPrefix(steps: seq<Step>, n: nat)
    requires n <= |steps|
    ensures var out := StripSteps(steps[..n]) + steps[n..];
            |out| == |steps| && forall i | 0 <= i < |out| :: out[i] == if i >= n then steps[i] else StripStep(steps[i])
  {
  }

  /** The steps are a prefix of the original ones, some without their exports; the prefix is
      proper only for the job stop-after cuts short. */
  lemma FilteredSteps(j: Job, s: Target, t: Target, window: set<Name>, out: Job)
    requires FilteredJob(j, s, t, window, out)
    ensures |out.steps| <= |j.steps| && (j.steps != [] ==> out.steps != [])
    ensures Truncates(t, j.name) || |out.steps| == |j.steps|
    ensures forall i | 0 <= i < |out.steps| ::
              out.steps[i] == if j.name in window && i >= TrimIndex(j, s) then j.steps[i]
                              else StripStep(j.steps[i])
  {
    KeepSparesTargets(j, window, s);
    KeepSparesTargets(j, window, t);
    TrimmedSteps(Keep(j, window), s, t);
  }

  /** A filtered job differs from the original only in exports, unless it is cut short. */
  lemma FilteredContent(j: Job, s: Target, t: Target, window: set<Name>, out: Job)
    requires FilteredJob(j, s, t, window, out)
    ensures out.name == j.name && out.dependsOn == j.dependsOn
    ensures Truncates(t, j.name) || Strip(out) == Strip(j)
  {
    FilteredFields(j, s, t, window, out);
    FilteredSteps(j, s, t, window, out);
    if |out.steps| == |j.steps| {
      assert StripSteps(out.steps) == StripSteps(j.steps);
    }
  }

  /** The job cut short is a sink: no kept job depends on it. */
  lemma TruncatedIsSink(jobs: seq<Job>, s: Target, t: Target, n: Name, d: Name)
    requires !Cyclic(GraphOf(jobs)) && IsKept(GraphOf(jobs), s, t, n)
    requires Edge(GraphOf(jobs), n, d)
    ensures t.job != "" ==> d != t.job
  {
    var g := GraphOf(jobs);
    if t.job != "" && d == t.job {
      var w :| InWindow(g, s, t, w) && Reach(g, w, n);
      ReachTrans(g, t.job, w, n);
      EdgeBackIsCycle(g, n, t.job);
    }
  }

  lemma KeptIsClosed(g: Graph, s: Target, t: Target, n: Name, d: Name)
    requires IsKept(g, s, t, n) && Edge(g, n, d)
    ensures IsKept(g, s, t, d)
  {
    var w :| InWindow(g, s, t, w) && Reach(g, w, n);
    ReachStep(g, w, n, d);
  }

  /** Every dependency of a filtered job is a filtered job, and is not the one cut short. */
  lemma FilteredDependencies(
    env: seq<EnvVar>, jobs: seq<Job>, rules: Rules, s: Target, t: Target, out: seq<Job>, x: Job, d: Name)
    requires ValidPipeline(env, jobs, rules) && IsFiltered(jobs, s, t, out)
    requires x in out && d in x.dependsOn
    ensures exists y :: y in out && y.name == d
    ensures !Truncates(t, d) || t.job == ""
  {
    var idx, window := FilteredFrom(jobs, s, t, out);
    var i :| 0 <= i < |out| && out[i] == x;
    var j := jobs[idx[i]];
    FilteredContent(j, s, t, window, x);
    GraphAt(jobs, idx[i]);
    var g := GraphOf(jobs);
    assert idx[i] in idx;
    assert IsKept(g, s, t, j.name) && Edge(g, j.name, d);
    KeptIsClosed(g, s, t, j.name, d);
    TruncatedIsSink(jobs, s, t, j.name, d);
    var k := IndexOfName(jobs, d);
    assert k in idx;
    var m :| 0 <= m < |idx| && idx[m] == k;
    FilteredContent(jobs[k], s, t, window, out[m]);
    assert out[m] in out;
  }

  // ----- Valid again -----

  lemma {:induction false} TrimmedStepsPass(
    steps: seq<Step>, out: seq<Step>, n: nat, deps: seq<Name>, seen: set<string>, rules: Rules)
    requires n <= |steps| && |out| == n
    requires forall i | 0 <= i < n :: out[i] == steps[i] || out[i] == StripStep(steps[i])
    requires StepsError(steps, deps, seen, rules).None?
    ensures StepsError(out, deps, seen, rules).None?
  {
    if n > 0 {
      assert out[0].name == steps[0].name;
      TrimmedStepsPass(steps[1..], out[1..], n - 1, deps, seen + {steps[0].name}, rules);
    }
  }

  lemma BodyStillPasses(j: Job, out: Job, rules: Rules)
    requires BodyError(j, rules).None?
    requires out == j.(exports := out.exports, publish := out.publish, steps := out.steps)
    requires (out.exports == j.exports && out.publish == j.publish) || (out.exports == [] && out.publish == None)
    requires out.steps != [] && StepsError(out.steps, j.dependsOn, {}, rules).None?
    ensures BodyError(out, rules).None?
  {
  }

  lemma FilteredJobPasses(j: Job, s: Target, t: Target, window: set<Name>, out: Job, rules: Rules)
    requires FieldsOk(j, rules) && FilteredJob(j, s, t, window, out)
    ensures FieldsOk(out, rules)
  {
    FilteredFields(j, s, t, window, out);
    FilteredSteps(j, s, t, window, out);
    TrimmedStepsPass(j.steps, out.steps, |out.steps|, j.dependsOn, {}, rules);
    BodyStillPasses(j, out, rules);
  }

  /** Filtering a valid pipeline gives a valid pipeline: `Validate` accepts it again. */
  lemma FilteredIsValid(
    env: seq<EnvVar>, jobs: seq<Job>, rules: Rules, s: Target, t: Target, out: seq<Job>)
    requires ValidPipeline(env, jobs, rules) && IsFiltered(jobs, s, t, out)
    requires TargetsOk(jobs, s, t) && !WindowEmpty(jobs, s, t)
    ensures ValidPipeline(env, out, rules)
  {
    var idx, window := FilteredFrom(jobs, s, t, out);
    var g, h := GraphOf(jobs), GraphOf(out);
    forall i | 0 <= i < |out|
      ensures out[i].name == jobs[idx[i]].name && out[i].dependsOn == jobs[idx[i]].dependsOn
      ensures FieldsOk(out[i], rules)
    {
      FilteredContent(jobs[idx[i]], s, t, window, out[i]);
      assert jobs[idx[i]] in jobs;
      FilteredJobPasses(jobs[idx[i]], s, t, window, out[i], rules);
    }
    assert UniqueNames(out);
    forall a, b | Edge(h, a, b)
      ensures Edge(g, a, b) && b in h
    {
      EdgeAt(out, a, b);
      var i :| 0 <= i < |out| && out[i].name == a && b in out[i].dependsOn;
      GraphAt(jobs, idx[i]);
      FilteredDependencies(env, jobs, rules, s, t, out, out[i], b);
      GraphNodes(out, b);
    }
    SubgraphKeepsAcyclic(h, g);
    WindowHasJob(jobs, s, t);
    var n :| n in g && InWindow(g, s, t, n);
    ReachSelf(g, n);
    assert IsKept(g, s, t, n);
    var k := IndexOfName(jobs, n);
    assert k in idx;
  }

  // ----- Buildable again -----

  lemma FilteredExports(j: Job, s: Target, t: Target, window: set<Name>, out: Job, e: Export)
    requires FilteredJob(j, s, t, window, out) && e in CollectExports(out)
    ensures e in CollectExports(j)
  {
    FilteredFields(j, s, t, window, out);
    FilteredSteps(j, s, t, window, out);
    StepExportsMember(out.steps, e);
    StepExportsMember(j.steps, e);
    if e !in out.exports {
      var i :| 0 <= i < |out.steps| && e in out.steps[i].exports;
      assert e in j.steps[i].exports;
    }
  }

  /** Filtering takes exports and steps away and adds none, so what could be built still can. */
  lemma FilteredIsBuildable(jobs: seq<Job>, rules: BuildRules, s: Target, t: Target, out: seq<Job>)
    requires IsFiltered(jobs, s, t, out) && AllBuildable(jobs, rules)
    ensures AllBuildable(out, rules)
  {
    var idx, window := FilteredFrom(jobs, s, t, out);
    forall i | 0 <= i < |out|
      ensures Buildable(out[i], rules)
    {
      assert jobs[idx[i]] in jobs;
      FilteredJobRuns(jobs[idx[i]], rules, s, t, window, out[i]);
    }
  }

  lemma FilteredJobRuns(j: Job, rules: BuildRules, s: Target, t: Target, window: set<Name>, out: Job)
    requires FilteredJob(j, s, t, window, out) && Buildable(j, rules)
    ensures Buildable(out, rules)
  {
    FilteredFields(j, s, t, window, out);
    FilteredSteps(j, s, t, window, out);
    forall i | 0 <= i < |out.steps|
      ensures StepRuns(out.steps[i], rules)
    {
      assert j.steps[i] in j.steps && out.steps[i].run == j.steps[i].run;
    }
    forall e | e in CollectExports(out)
      ensures rules.exportOk(e.path)
    {
      FilteredExports(j, s, t, window, out, e);
    }
  }

  /** A window that is not empty holds a job of the pipeline. */
  lemma WindowHasJob(jobs: seq<Job>, s: Target, t: Target)
    requires UniqueNames(jobs) && Closed(GraphOf(jobs))
    requires TargetsOk(jobs, s, t) && !WindowEmpty(jobs, s, t)
    ensures exists n :: n in GraphOf(jobs) && InWindow(GraphOf(jobs), s, t, n)
  {
    var g := GraphOf(jobs);
    UniqueWindow(jobs, s, t);
    var n :| Window(jobs, s, t, n);
    if t.job != "" {
      assert t.job in ByName(jobs);
      ReachStaysInside(g, t.job, n);
    } else {
      assert s.job in ByName(jobs);
      if n != s.job {
        var m := FirstEdge(g, n, s.job);
      }
    }
  }

  /** With both targets given, nothing is left exactly when stop-after does not come downstream
      of start-at. */
  lemma WindowEmptyMeansDisconnected(jobs: seq<Job>, s: Target, t: Target)
    requires s.job != "" && t.job != ""
    ensures WindowEmpty(jobs, s, t) <==> !Reach(AllEdges(jobs), t.job, s.job)
    ensures UniqueNames(jobs) ==> (WindowEmpty(jobs, s, t) <==> !Reach(GraphOf(jobs), t.job, s.job))
  {
    var g, all := GraphOf(jobs), AllEdges(jobs);
    ReachSelf(g, t.job);
    if Reach(all, t.job, s.job) {
      assert Window(jobs, s, t, t.job);
    }
    if n :| Window(jobs, s, t, n) {
      forall a, b | Edge(g, a, b)
        ensures Edge(all, a, b)
      {
        LastAmongAll(jobs, a, b);
      }
      SubgraphReach(g, all, t.job, n);
      ReachTrans(all, t.job, n, s.job);
    }
    if UniqueNames(jobs) {
      UniqueEdges(jobs);
      if Reach(g, t.job, s.job) {
        SubgraphReach(g, all, t.job, s.job);
      }
      if Reach(all, t.job, s.job) {
        SubgraphReach(all, g, t.job, s.job);
      }
    }
  }

  // ----- Same meaning -----

  /** Every job that filtering keeps whole is built to the same state as before. */
  lemma FilteringKeepsMeaning(
    env: seq<EnvVar>, jobs: seq<Job>, rules: Rules, s: Target, t: Target, out: seq<Job>,
    m: map<Name, Built>, m': map<Name, Built>, x: Job)
    requires ValidPipeline(env, jobs, rules) && IsFiltered(jobs, s, t, out)
    requires TargetsOk(jobs, s, t)
    requires IsMeaning(jobs, m) && IsMeaning(out, m')
    requires x in out && !Truncates(t, x.name)
    ensures x.name in m && x.name in m' && m'[x.name] == m[x.name]
  {
    var keep := set y | y in out && !Truncates(t, y.name) :: y.name;
    forall k | k in keep
      ensures SameContent(out, jobs, k)
    {
      var y :| y in out && y.name == k && !Truncates(t, k);
      OriginalOf(jobs, s, t, out, y);
    }
    forall y, d | y in out && y.name in keep && d in Inputs(y)
      ensures d in keep
    {
      InputsOfFiltered(env, jobs, rules, s, t, out, y);
      FilteredDependencies(env, jobs, rules, s, t, out, y, d);
      var z :| z in out && z.name == d;
      assert t.step != "" ==> t.job != "";
    }
    MeaningsAgree(out, m', jobs, m, keep, x.name);
  }

  lemma OriginalOf(jobs: seq<Job>, s: Target, t: Target, out: seq<Job>, y: Job)
    requires IsFiltered(jobs, s, t, out) && y in out && !Truncates(t, y.name)
    ensures SameContent(out, jobs, y.name)
  {
    var idx, window := FilteredFrom(jobs, s, t, out);
    var i :| 0 <= i < |out| && out[i] == y;
    FilteredContent(jobs[idx[i]], s, t, window, y);
    assert jobs[idx[i]] in jobs;
  }

  lemma InputsOfFiltered(
    env: seq<EnvVar>, jobs: seq<Job>, rules: Rules, s: Target, t: Target, out: seq<Job>, y: Job)
    requires ValidPipeline(env, jobs, rules) && IsFiltered(jobs, s, t, out) && y in out
    ensures forall d :: d in Inputs(y) <==> d in y.dependsOn
  {
    var idx, window := FilteredFrom(jobs, s, t, out);
    var i :| 0 <= i < |out| && out[i] == y;
    assert jobs[idx[i]] in jobs;
    FilteredJobPasses(jobs[idx[i]], s, t, window, y, rules);
    CheckedJobImportsFromDeps(y, rules);
    InputsAreDeps(y);
  }

  /** The job cut short is still built from the same input states; only its own steps differ. */
  lemma TruncatedJobKeepsInputs(
    env: seq<EnvVar>, jobs: seq<Job>, rules: Rules, s: Target, t: Target, out: seq<Job>,
    m: map<Name, Built>, m': map<Name, Built>, x: Job)
    requires ValidPipeline(env, jobs, rules) && IsFiltered(jobs, s, t, out) && TargetsOk(jobs, s, t)
    requires IsMeaning(jobs, m) && IsMeaning(out, m')
    requires x in out
    ensures x.name in m' && Available(Inputs(x), m) && m'[x.name] == BuiltFrom(x, m)
  {
    forall d | d in Inputs(x)
      ensures d in m && d in m' && m'[d] == m[d]
    {
      InputKeepsState(env, jobs, rules, s, t, out, m, m', x, d);
    }
    SameStates(x, m, m');
  }

  lemma SameStates(x: Job, m: map<Name, Built>, m': map<Name, Built>)
    requires forall d | d in Inputs(x) :: d in m && d in m' && m'[d] == m[d]
    ensures BuiltFrom(x, m') == BuiltFrom(x, m)
  {
    assert LookUp(Inputs(x), m') == LookUp(Inputs(x), m);
  }

  lemma InputKeepsState(
    env: seq<EnvVar>, jobs: seq<Job>, rules: Rules, s: Target, t: Target, out: seq<Job>,
    m: map<Name, Built>, m': map<Name, Built>, x: Job, d: Name)
    requires ValidPipeline(env, jobs, rules) && IsFiltered(jobs, s, t, out) && TargetsOk(jobs, s, t)
    requires IsMeaning(jobs, m) && IsMeaning(out, m')
    requires x in out && d in Inputs(x)
    ensures d in m && d in m' && m'[d] == m[d]
  {
    InputsOfFiltered(env, jobs, rules, s, t, out, x);
    FilteredDependencies(env, jobs, rules, s, t, out, x, d);
    var z :| z in out && z.name == d;
    assert t.step != "" ==> t.job != "";
    FilteringKeepsMeaning(env, jobs, rules, s, t, out, m, m', z);
  }
}
