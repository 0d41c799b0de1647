/** The last passes of parsing (pkg/parser/parser.go): aliases, defaults, expansion, validation.

    What an alias promised for the jobs as written is followed through all of them, down to the
    scheduler. */
module Finalize {
  import opened DependencyGraph
  import opened Wrappers
  import opened Pipeline
  import opened Merge
  import opened Substitute
  import opened Expand
  import opened ExpandGraph
  import opened ExpandNames
  import opened FieldChecks
  import opened Validation
  import Scheduler

  datatype Defaults = Defaults(image: string, workdir: string, mounts: seq<Mount>, env: seq<EnvVar>)

  predicate HasKey(env: seq<EnvVar>, key: string) {
    exists e | e in env :: e.key == key
  }

  /** The base variables that are not overridden, then all overriding ones. */
  function MergeEnv(base: seq<EnvVar>, override: seq<EnvVar>): seq<EnvVar> {
    if base == [] then override
    else (if HasKey(override, base[0].key) then [] else [base[0]]) + MergeEnv(base[1..], override)
  }

  function WithDefaults(j: Job, d: Defaults): Job {
    j.(image := if j.image == "" then d.image else j.image,
       workdir := if j.workdir == "" then d.workdir else j.workdir,
       mounts := d.mounts + j.mounts,
       env := if d.env == [] then j.env else MergeEnv(d.env, j.env))
  }

  function ApplyDefaults(jobs: seq<Job>, defaults: Option<Defaults>): (r: seq<Job>)
    ensures |r| == |jobs|
    ensures forall i | 0 <= i < |jobs| :: r[i].name == jobs[i].name && r[i].dependsOn == jobs[i].dependsOn
  {
    if defaults.None? then jobs
    else seq(|jobs|, i requires 0 <= i < |jobs| => WithDefaults(jobs[i], defaults.value))
  }

  /** A variable of the job wins over the default of the same key; all others are kept. */
  lemma {:induction false} MergedVariables(base: seq<EnvVar>, override: seq<EnvVar>, e: EnvVar)
    ensures e in MergeEnv(base, override) <==> e in override || (e in base && !HasKey(override, e.key))
  {
    if base != [] {
      MergedVariables(base[1..], override, e);
      assert base == [base[0]] + base[1..];
    }
  }

  /** The job's own variables come last, in their order. */
  lemma {:induction false} OwnVariablesComeLast(base: seq<EnvVar>, override: seq<EnvVar>)
    ensures var m := MergeEnv(base, override);
            |override| <= |m| <= |base| + |override| && m[|m| - |override|..] == override
  {
    if base != [] {
      OwnVariablesComeLast(base[1..], override);
    }
  }

  ghost predicate KeysDiffer(env: seq<EnvVar>) {
    !EnvFault(env, {}, DuplicateEnvKey)
  }

  lemma KeysDifferStep(env: seq<EnvVar>)
    requires env != []
    ensures KeysDiffer(env) <==> !HasKey(env[1..], env[0].key) && KeysDiffer(env[1..])
  {
    RepeatsMeansTwice(EnvKeys(env));
    RepeatsMeansTwice(EnvKeys(env[1..]));
    var keys, rest := EnvKeys(env), EnvKeys(env[1..]);
    assert forall i | 0 <= i < |rest| :: rest[i] == keys[i + 1];
    if HasKey(env[1..], env[0].key) {
      var i :| 0 <= i < |env[1..]| && env[1..][i].key == env[0].key;
      assert keys[0] == keys[i + 1];
    }
  }

  /** If neither list holds a key twice, the merged one does not either. */
  lemma {:induction false} MergedKeysDiffer(base: seq<EnvVar>, override: seq<EnvVar>)
    requires KeysDiffer(base) && KeysDiffer(override)
    ensures KeysDiffer(MergeEnv(base, override))
  {
    if base != [] {
      KeysDifferStep(base);
      MergedKeysDiffer(base[1..], override);
      if !HasKey(override, base[0].key) {
        var m := MergeEnv(base, override);
        assert m[1..] == MergeEnv(base[1..], override);
        forall e | e in m[1..]
          ensures e.key != base[0].key
        {
          MergedVariables(base[1..], override, e);
        }
        KeysDifferStep(m);
      }
    }
  }

  /** A default fills a gap and replaces nothing: what the job sets stays, and of the defaults only
      the variables the job does not set are added. */
  lemma DefaultsFillGaps(jobs: seq<Job>, d: Defaults, i: nat)
    requires i < |jobs|
    ensures var j, out := jobs[i], ApplyDefaults(jobs, Some(d))[i];
            && (j.image != "" ==> out.image == j.image) && (j.image == "" ==> out.image == d.image)
            && (j.workdir != "" ==> out.workdir == j.workdir) && (j.workdir == "" ==> out.workdir == d.workdir)
            && out == j.(image := out.image, workdir := out.workdir, mounts := d.mounts + j.mounts, env := out.env)
            && (forall e :: e in out.env <==> e in j.env || (e in d.env && !HasKey(j.env, e.key)))
            && (KeysDiffer(d.env) && KeysDiffer(j.env) ==> KeysDiffer(out.env))
  {
    var j := jobs[i];
    forall e
      ensures e in MergeEnv(d.env, j.env) <==> e in j.env || (e in d.env && !HasKey(j.env, e.key))
    {
      MergedVariables(d.env, j.env, e);
    }
    if KeysDiffer(d.env) && KeysDiffer(j.env) {
      MergedKeysDiffer(d.env, j.env);
    }
  }

  lemma {:induction false} SameNodesSameGraph(a: seq<Job>, b: seq<Job>)
    requires |a| == |b|
    requires forall i | 0 <= i < |a| :: a[i].name == b[i].name && a[i].dependsOn == b[i].dependsOn
    ensures GraphOf(a) == GraphOf(b)
  {
    if a != [] {
      SameNodesSameGraph(a[..|a| - 1], b[..|b| - 1]);
    }
  }

  // ----- All passes together -----

  /** No alias in the table carries the name of a job it does not stand for alone. */
  ghost predicate AliasesFit(jobs: seq<Job>, aliases: Aliases) {
    aliases == map[] || !Collides(jobs, aliases)
  }

  /** The jobs with every alias replaced by what it stands for. */
  function WithoutAliases(jobs: seq<Job>, aliases: Aliases): (r: seq<Job>)
    ensures |r| == |jobs|
    ensures aliases != map[] ==> IsExpanded(jobs, aliases, r)
  {
    if aliases == map[] then jobs
    else seq(|jobs|, i requires 0 <= i < |jobs| =>
           jobs[i].(dependsOn := Dedup(Merge.Expansions(jobs[i].dependsOn, aliases))))
  }

  /** The pipeline that goes into expansion. */
  function Prepared(jobs: seq<Job>, defaults: Option<Defaults>, matrix: Option<seq<Dimension>>): Spec {
    Spec(ApplyDefaults(jobs, defaults), matrix)
  }

  /** The pipeline that comes out of both phases. */
  function AfterExpansion(p: Spec): Spec {
    PhaseTwo(PhaseOne(p))
  }

  /** What a parsed document becomes before it is expanded. */
  function Input(
    jobs: seq<Job>, aliases: Aliases, defaults: Option<Defaults>, matrix: Option<seq<Dimension>>): Spec {
    Prepared(WithoutAliases(jobs, aliases), defaults, matrix)
  }

  ghost predicate ExpandFault(p: Spec, rules: Rules, e: Error) {
    if PipelineMatrixOk(p, rules) then FirstJobFault(PhaseOne(p).jobs, rules, e)
    else PipelineMatrixFault(p, rules, e)
  }

  /** An error about how jobs relate to each other. */
  predicate IsGraphError(e: Error) {
    e in {DuplicateJob, SelfDependency, UnknownDep, CycleDetected}
  }

  lemma ExpandFaultIsNoGraphError(p: Spec, rules: Rules, e: Error)
    requires ExpandFault(p, rules, e)
    ensures !IsGraphError(e)
  {
  }

  /** Everything before validation. */
  method ExpandAll(
    jobs: seq<Job>, aliases: Aliases, defaults: Option<Defaults>, matrix: Option<seq<Dimension>>, rules: Rules)
    returns (r: Result<Spec, Error>)
    ensures var p := Input(jobs, aliases, defaults, matrix);
            && (r.Ok? <==> AliasesFit(jobs, aliases) && ExpandSucceeds(p, rules))
            && (r.Ok? ==> r.value == AfterExpansion(p))
            && (r.Err? ==> if AliasesFit(jobs, aliases) then ExpandFault(p, rules, r.error)
                           else r.error == AliasCollision)
    ensures r.Err? ==> !IsGraphError(r.error)
  {
    var expanded := ExpandAliases(jobs, aliases);
    match expanded {
      case Err(e) => return Err(e);
      case Ok(rewired) =>
        assert rewired == WithoutAliases(jobs, aliases);
        r := Expand.Expand(Prepared(rewired, defaults, matrix), rules);
        if r.Err? {
          ExpandFaultIsNoGraphError(Prepared(rewired, defaults, matrix), rules, r.error);
        }
    }
  }

  /** Every dependency names a job or a variant, and no job of any copy waits for itself. */
  ghost predicate WellConnected(p: Spec) {
    NamesResolve(p) && !Cyclic(CopyGraph(p))
  }

  lemma ExpandedGraph(p: Spec, rules: Rules)
    requires ExpandSucceeds(p, rules) && NamesStayUnique(p)
    ensures Dag(GraphOf(AfterExpansion(p).jobs)) <==> WellConnected(p)
    ensures Closed(GraphOf(p.jobs)) ==> (WellConnected(p) <==> !Cyclic(GraphOf(p.jobs)))
  {
    ExpandKeepsGraph(p, rules);
  }

  lemma ExpansionIsNotToBlame(p: Spec, rules: Rules)
    requires ExpandSucceeds(p, rules) && (Dag(GraphOf(p.jobs)) || WellConnected(p))
    requires NamesStayUnique(p) || Expandable(p)
    ensures UniqueNames(AfterExpansion(p).jobs) && Dag(GraphOf(AfterExpansion(p).jobs))
  {
    if !NamesStayUnique(p) {
      ExpandableStaysUnique(p, rules);
    }
    ExpandedGraph(p, rules);
  }

  lemma NoGraphErrorOnDag(env: seq<EnvVar>, jobs: seq<Job>, rules: Rules, e: Error)
    requires UniqueNames(jobs) && Dag(GraphOf(jobs)) && PipelineFault(env, jobs, rules, e)
    ensures !IsGraphError(e)
  {
    if e == SelfDependency {
      var j :| j in jobs && j.name in j.dependsOn;
      var i :| 0 <= i < |jobs| && jobs[i] == j;
      SelfDependencyIsCycle(jobs, i);
    }
  }

  /** If the pipeline was closed and acyclic before expansion, or well connected by the names of
      variants, and names stay unique, the error is not a graph error. */
  ghost predicate NotToBlame(p: Spec, e: Error) {
    (Dag(GraphOf(p.jobs)) || WellConnected(p)) && (NamesStayUnique(p) || Expandable(p)) ==> !IsGraphError(e)
  }

  lemma ExpansionErrorIsNotToBlame(p: Spec, env: seq<EnvVar>, rules: Rules, e: Error)
    requires !IsGraphError(e) || (ExpandSucceeds(p, rules) && PipelineFault(env, AfterExpansion(p).jobs, rules, e))
    ensures NotToBlame(p, e)
  {
    if IsGraphError(e) && (Dag(GraphOf(p.jobs)) || WellConnected(p)) && (NamesStayUnique(p) || Expandable(p)) {
      ExpansionIsNotToBlame(p, rules);
      NoGraphErrorOnDag(env, AfterExpansion(p).jobs, rules, e);
    }
  }

  method ValidateExpanded(jobs: seq<Job>, env: seq<EnvVar>, rules: Rules) returns (r: Result<seq<nat>, Error>)
    ensures r.Ok? <==> ValidPipeline(env, jobs, rules)
    ensures r.Ok? ==> TopoOrder(jobs, r.value)
    ensures r.Err? ==> PipelineFault(env, jobs, rules, r.error)
  {
    var pl := new PipelineFile(jobs, env);
    r := pl.Validate(rules);
  }

  ghost predicate Accepted(
    jobs: seq<Job>, aliases: Aliases, p: Spec, env: seq<EnvVar>, rules: Rules) {
    AliasesFit(jobs, aliases) && ExpandSucceeds(p, rules) && ValidPipeline(env, AfterExpansion(p).jobs, rules)
  }

  /** The first pass that fails is the one that reports. */
  ghost predicate FinalFault(
    jobs: seq<Job>, aliases: Aliases, p: Spec, env: seq<EnvVar>, rules: Rules, e: Error)
  {
    if !AliasesFit(jobs, aliases) then e == AliasCollision
    else if !ExpandSucceeds(p, rules) then ExpandFault(p, rules, e)
    else PipelineFault(env, AfterExpansion(p).jobs, rules, e)
  }

  /** A document is accepted exactly if no alias collides, both phases succeed and the expanded
      pipeline is valid. Expansion is never to blame for a graph error. */
  method FinalizePipeline(
    jobs: seq<Job>, aliases: Aliases, defaults: Option<Defaults>, matrix: Option<seq<Dimension>>,
    env: seq<EnvVar>, rules: Rules)
    returns (r: Result<(Spec, seq<nat>), Error>)
    ensures r.Ok? <==> Accepted(jobs, aliases, Input(jobs, aliases, defaults, matrix), env, rules)
    ensures r.Ok? ==> r.value.0 == AfterExpansion(Input(jobs, aliases, defaults, matrix))
    ensures r.Ok? ==> TopoOrder(r.value.0.jobs, r.value.1)
    ensures r.Err? ==> FinalFault(jobs, aliases, Input(jobs, aliases, defaults, matrix), env, rules, r.error)
    ensures r.Err? ==> NotToBlame(Input(jobs, aliases, defaults, matrix), r.error)
  {
    ghost var p := Input(jobs, aliases, defaults, matrix);
    var out := ExpandAll(jobs, aliases, defaults, matrix, rules);
    match out {
      case Err(e) =>
        ExpansionErrorIsNotToBlame(p, env, rules, e);
        return Err(e);
      case Ok(expanded) =>
        var order := ValidateExpanded(expanded.jobs, env, rules);
        match order {
          case Err(e) =>
            ExpansionErrorIsNotToBlame(p, env, rules, e);
            return Err(e);
          case Ok(o) => return Ok((expanded, o));
        }
    }
  }

  /** So a cycle is reported, and in a well-connected pipeline only the fields of single jobs and the
      environment can still be wrong. */
  lemma ValidAfterExpansion(p: Spec, env: seq<EnvVar>, rules: Rules)
    requires ExpandSucceeds(p, rules) && NamesStayUnique(p)
    ensures ValidPipeline(env, AfterExpansion(p).jobs, rules)
       <==> && p.jobs != [] && WellConnected(p) && EnvError(env, {}).None?
            && forall j | j in AfterExpansion(p).jobs :: FieldsOk(j, rules)
    ensures Closed(GraphOf(p.jobs)) ==> (WellConnected(p) <==> !Cyclic(GraphOf(p.jobs)))
  {
    ExpandedGraph(p, rules);
    ExpandKeepsEmptiness(p, rules);
  }

  // ----- Dependencies through expansion -----

  lemma {:induction false} PathSurvivesExpansion(
    p: Spec, rules: Rules, path: seq<Name>, a: Job, b: Job, c: Combo, v: Name, w: Name)
    requires ExpandSucceeds(p, rules) && NamesStayUnique(p)
    requires a in p.jobs && b in p.jobs && c in PipelineCombos(p)
    requires v in Names(VariantsOf(Instance(p, a, c))) && w in Names(VariantsOf(Instance(p, b, c)))
    requires PathBetween(GraphOf(p.jobs), path, a.name, b.name) && |path| > 1
    ensures DependsOn(GraphOf(AfterExpansion(p).jobs), v, w)
    decreases |path|
  {
    var g, h := GraphOf(p.jobs), GraphOf(AfterExpansion(p).jobs);
    assert Edge(g, path[0], path[1]);
    if |path| == 2 {
      ExpandedEdges(p, a, c, v, b, c, w);
      ReachSelf(h, w);
    } else {
      assert Edge(g, path[1], path[2]);
      var k := JobOf(p.jobs, path[1]);
      var u := HasVariant(p, rules, k, c);
      ExpandedEdges(p, a, c, v, k, c, u);
      PathTail(g, path);
      PathSurvivesExpansion(p, rules, path[1..], k, b, c, u, w);
      var d :| Edge(h, u, d) && Reach(h, d, w);
      ReachEdge(h, u, d);
      ReachTrans(h, u, d, w);
    }
  }

  lemma PathTail(g: Graph, path: seq<Name>)
    requires IsPath(g, path) && |path| > 1
    ensures PathBetween(g, path[1..], path[1], path[|path| - 1])
  {
    forall i | 0 <= i < |path| - 2
      ensures Edge(g, path[1..][i], path[1..][i + 1])
    {
      assert Edge(g, path[i + 1], path[i + 2]);
    }
  }

  /** A transitive dependency between two jobs holds, within one copy of the pipeline, between any
      two of their variants. */
  lemma DependencySurvivesExpansion(p: Spec, rules: Rules, a: Job, b: Job, c: Combo, v: Name, w: Name)
    requires ExpandSucceeds(p, rules) && NamesStayUnique(p)
    requires a in p.jobs && b in p.jobs && c in PipelineCombos(p)
    requires v in Names(VariantsOf(Instance(p, a, c))) && w in Names(VariantsOf(Instance(p, b, c)))
    requires DependsOn(GraphOf(p.jobs), a.name, b.name)
    ensures DependsOn(GraphOf(AfterExpansion(p).jobs), v, w)
  {
    var g := GraphOf(p.jobs);
    var d :| Edge(g, a.name, d) && Reach(g, d, b.name);
    var q :| PathBetween(g, q, d, b.name);
    JoinPaths(g, [a.name, d], q);
    PathSurvivesExpansion(p, rules, [a.name, d] + q[1..], a, b, c, v, w);
  }

  /** `v` and `w` are variants, in the same copy, of the jobs `j` and `f` of the document. */
  ghost predicate VariantsInOneCopy(p: Spec, j: Job, f: Job, a: Job, b: Job, c: Combo, v: Name, w: Name) {
    && a in p.jobs && a.name == j.name && b in p.jobs && b.name == f.name && c in PipelineCombos(p)
    && v in Names(VariantsOf(Instance(p, a, c))) && w in Names(VariantsOf(Instance(p, b, c)))
  }

  /** Coverage with the defaults applied; they change no dependency. */
  lemma CoverageBeforeExpansion(
    jobs: seq<Job>, aliases: Aliases, defaults: Option<Defaults>, matrix: Option<seq<Dimension>>,
    alias: Name, file: seq<Job>, j: Job, f: Job)
    requires UniqueNames(jobs) && AliasesFit(jobs, aliases)
    requires StandsFor(jobs, aliases, alias, file) && j in jobs && alias in j.dependsOn && f in file
    ensures DependsOn(GraphOf(Input(jobs, aliases, defaults, matrix).jobs), j.name, f.name)
  {
    var rewired := WithoutAliases(jobs, aliases);
    SameNodesSameGraph(rewired, ApplyDefaults(rewired, defaults));
    AliasCoversFile(jobs, aliases, rewired, alias, file, j, f);
  }

  lemma StrictlyBelow(g: Graph, a: Name, b: Name)
    requires !Cyclic(g) && DependsOn(g, a, b)
    ensures Reach(g, a, b) && a != b
  {
    var d :| Edge(g, a, d) && Reach(g, d, b);
    if a == b {
      EdgeBackIsCycle(g, a, d);
    }
    ReachEdge(g, a, d);
    ReachTrans(g, a, d, b);
  }

  /** A job that depended on an alias depends, in every variant, on every variant in the same copy
      of every job of the file behind the alias. */
  lemma CoverageSurvivesExpansion(
    jobs: seq<Job>, aliases: Aliases, defaults: Option<Defaults>, matrix: Option<seq<Dimension>>, rules: Rules,
    alias: Name, file: seq<Job>, j: Job, f: Job, a: Job, b: Job, c: Combo, v: Name, w: Name)
    requires UniqueNames(jobs) && AliasesFit(jobs, aliases)
    requires StandsFor(jobs, aliases, alias, file) && j in jobs && alias in j.dependsOn && f in file
    requires var p := Input(jobs, aliases, defaults, matrix);
             && ExpandSucceeds(p, rules) && NamesStayUnique(p)
             && VariantsInOneCopy(p, j, f, a, b, c, v, w)
    ensures DependsOn(GraphOf(AfterExpansion(Input(jobs, aliases, defaults, matrix)).jobs), v, w)
  {
    var p := Input(jobs, aliases, defaults, matrix);
    CoverageBeforeExpansion(jobs, aliases, defaults, matrix, alias, file, j, f);
    DependencySurvivesExpansion(p, rules, a, b, c, v, w);
  }

  lemma DependenciesAreSolved(
    h: Graph, limit: nat, t: seq<Scheduler.State>, n: nat, v: Name, w: Name)
    requires Dag(h) && DependsOn(h, v, w) && Scheduler.IsRun(h, limit, t)
    requires n < |t| && v in Scheduler.InSolve(t[n])
    ensures w in t[n].solved
  {
    StrictlyBelow(h, v, w);
    Scheduler.SolvingIsSafe(h, limit, t, n);
  }

  /** At run time: while a variant of a job that depended on an alias is inside Solve, every
      variant in the same copy of every job of the aliased file has been solved. */
  lemma AliasedFileIsSolvedFirst(
    jobs: seq<Job>, aliases: Aliases, defaults: Option<Defaults>, matrix: Option<seq<Dimension>>, rules: Rules,
    alias: Name, file: seq<Job>, j: Job, f: Job, a: Job, b: Job, c: Combo, v: Name, w: Name,
    limit: nat, t: seq<Scheduler.State>, n: nat)
    requires UniqueNames(jobs) && AliasesFit(jobs, aliases)
    requires StandsFor(jobs, aliases, alias, file) && j in jobs && alias in j.dependsOn && f in file
    requires var p := Input(jobs, aliases, defaults, matrix);
             && ExpandSucceeds(p, rules) && NamesStayUnique(p) && Dag(GraphOf(AfterExpansion(p).jobs))
             && VariantsInOneCopy(p, j, f, a, b, c, v, w)
             && Scheduler.IsRun(GraphOf(AfterExpansion(p).jobs), limit, t)
    requires n < |t| && v in Scheduler.InSolve(t[n])
    ensures w in t[n].solved
  {
    var p := Input(jobs, aliases, defaults, matrix);
    CoverageSurvivesExpansion(jobs, aliases, defaults, matrix, rules, alias, file, j, f, a, b, c, v, w);
    DependenciesAreSolved(GraphOf(AfterExpansion(p).jobs), limit, t, n, v, w);
  }
}
