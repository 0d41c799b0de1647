/** Turning a validated pipeline into build definitions (internal/builder/builder.go).

    A BuildKit state is modelled as the tree of everything that went into it: the job, without
    its exports and publish target, and the states it copies from or mounts. */
module Builder {
  import opened DependencyGraph
  import opened Finite
  import opened Wrappers
  import opened Pipeline
  import opened Validation

  datatype Built = Built(job: Job, inputs: seq<Built>)

  datatype LocalExport = LocalExport(state: Built, path: string, jobName: Name, local: string, dir: bool)

  datatype ImageExport = ImageExport(definition: Built, jobName: Name, publish: Publish, platform: string)

  datatype BuildResult = BuildResult(
    definitions: seq<Built>,
    jobNames: seq<Name>,
    exports: seq<LocalExport>,
    imageExports: seq<ImageExport>)

  datatype BuildError = MissingDepState | InvalidPlatform | EmptyStep | BlankCommand | InvalidExport
    | NotValid(error: Error)

  /** What decides the checks that are left to libraries: platform syntax, blank commands and
      export paths that clean to a usable path. */
  datatype BuildRules = BuildRules(
    validation: Rules,
    platformOk: string -> bool,
    exportOk: string -> bool)

  function StripStep(s: Step): Step {
    s.(exports := [])
  }

  function StripSteps(steps: seq<Step>): (r: seq<Step>)
    ensures |r| == |steps| && forall i | 0 <= i < |steps| :: r[i] == StripStep(steps[i])
  {
    seq(|steps|, i requires 0 <= i < |steps| => StripStep(steps[i]))
  }

  /** The part of a job its built state depends on. */
  function Strip(j: Job): Job {
    j.(exports := [], publish := None, steps := StripSteps(j.steps))
  }

  function Froms(arts: seq<Artifact>): (names: seq<Name>)
    ensures |names| == |arts| && forall i | 0 <= i < |arts| :: names[i] == arts[i].from
  {
    seq(|arts|, i requires 0 <= i < |arts| => arts[i].from)
  }

  function StepInputs(steps: seq<Step>): seq<Name> {
    if steps == [] then [] else
      StepInputs(steps[..|steps| - 1]) + Froms(steps[|steps| - 1].artifacts)
  }

  /** The dependency states a job looks up, in the order it does. */
  function Inputs(j: Job): seq<Name> {
    Froms(j.artifacts) + j.dependsOn + StepInputs(j.steps)
  }

  ghost predicate Available(names: seq<Name>, m: map<Name, Built>) {
    forall n | n in names :: n in m
  }

  ghost function LookUp(names: seq<Name>, m: map<Name, Built>): seq<Built>
    requires Available(names, m)
  {
    seq(|names|, i requires 0 <= i < |names| => m[names[i]])
  }

  ghost function BuiltFrom(j: Job, m: map<Name, Built>): Built
    requires Available(Inputs(j), m)
  {
    Built(Strip(j), LookUp(Inputs(j), m))
  }

  /** `m` gives every job the state made of its own content and its inputs' states. */
  ghost predicate IsMeaning(jobs: seq<Job>, m: map<Name, Built>) {
    && (forall n | n in m :: n in Names(jobs))
    && (forall j | j in jobs ::
          j.name in m && Available(Inputs(j), m) && m[j.name] == BuiltFrom(j, m))
  }

  lemma {:induction false} StepInputsOfStripped(steps: seq<Step>)
    ensures StepInputs(StripSteps(steps)) == StepInputs(steps)
  {
    if steps != [] {
      var front := steps[..|steps| - 1];
      StepInputsOfStripped(front);
      assert StripSteps(steps)[..|steps| - 1] == StripSteps(front);
    }
  }

  lemma InputsOfStripped(j: Job)
    ensures Inputs(Strip(j)) == Inputs(j)
  {
    StepInputsOfStripped(j.steps);
    assert Froms(Strip(j).artifacts) == Froms(j.artifacts);
  }

  /** Both pipelines have a job `k`, the same up to exports. */
  ghost predicate SameContent(jobs: seq<Job>, jobs': seq<Job>, k: Name) {
    exists j, j' | j in jobs && j' in jobs' :: j.name == k && j'.name == k && Strip(j) == Strip(j')
  }

  ghost predicate ClosedUnderInputs(jobs: seq<Job>, keep: set<Name>) {
    forall j | j in jobs && j.name in keep :: forall d | d in Inputs(j) :: d in keep
  }

  lemma SameInputsSameState(j: Job, j': Job, m: map<Name, Built>, m': map<Name, Built>)
    requires Strip(j) == Strip(j') && Available(Inputs(j), m) && Available(Inputs(j'), m')
    requires forall d | d in Inputs(j) && d in m' :: m[d] == m'[d]
    ensures BuiltFrom(j, m) == BuiltFrom(j', m')
  {
    InputsOfStripped(j);
    InputsOfStripped(j');
    assert LookUp(Inputs(j), m) == LookUp(Inputs(j'), m');
  }

  lemma InputStatesAreSmaller(j: Job, m: map<Name, Built>, d: Name)
    requires Available(Inputs(j), m) && d in Inputs(j)
    ensures m[d] < BuiltFrom(j, m)
  {
    var i :| 0 <= i < |Inputs(j)| && Inputs(j)[i] == d;
    assert BuiltFrom(j, m).inputs[i] == m[d];
  }

  /** Two pipelines that agree, up to exports, on a set of jobs closed under inputs give those
      jobs the same states. The induction is on the built tree itself. */
  lemma {:induction false} MeaningsAgree(
    jobs: seq<Job>, m: map<Name, Built>, jobs': seq<Job>, m': map<Name, Built>,
    keep: set<Name>, n: Name)
    requires IsMeaning(jobs, m) && IsMeaning(jobs', m')
    requires forall k | k in keep :: SameContent(jobs, jobs', k)
    requires ClosedUnderInputs(jobs, keep)
    requires n in keep && n in m
    ensures n in m' && m[n] == m'[n]
    decreases m[n]
  {
    var j, j' :| j in jobs && j' in jobs' && j.name == n && j'.name == n && Strip(j) == Strip(j');
    forall d | d in Inputs(j) && d in m'
      ensures m[d] == m'[d]
    {
      InputStatesAreSmaller(j, m, d);
      MeaningsAgree(jobs, m, jobs', m', keep, d);
    }
    SameInputsSameState(j, j', m, m');
  }

  lemma MeaningNames(jobs: seq<Job>, m: map<Name, Built>, n: Name)
    requires IsMeaning(jobs, m)
    ensures n in m <==> n in Names(jobs)
    ensures n in m ==> SameContent(jobs, jobs, n)
  {
    if n in Names(jobs) {
      var i :| 0 <= i < |jobs| && Names(jobs)[i] == n;
      assert jobs[i] in jobs;
    }
  }

  lemma MeaningDomain(jobs: seq<Job>, m: map<Name, Built>)
    requires IsMeaning(jobs, m)
    ensures forall n :: n in m <==> n in Names(jobs)
    ensures forall n | n in m :: SameContent(jobs, jobs, n)
  {
    forall n
      ensures n in m <==> n in Names(jobs)
      ensures n in m ==> SameContent(jobs, jobs, n)
    {
      MeaningNames(jobs, m, n);
    }
  }

  /** A pipeline has at most one meaning. */
  lemma MeaningIsUnique(jobs: seq<Job>, m: map<Name, Built>, m': map<Name, Built>)
    requires IsMeaning(jobs, m) && IsMeaning(jobs, m')
    ensures m == m'
  {
    assert m.Keys == m'.Keys by {
      MeaningDomain(jobs, m);
      MeaningDomain(jobs, m');
    }
    forall n | n in m
      ensures m[n] == m'[n]
    {
      MeaningDomain(jobs, m);
      MeaningsAgree(jobs, m, jobs, m', m.Keys, n);
    }
  }

  // ----- The build -----

  predicate StepRuns(s: Step, rules: BuildRules) {
    s.run != [] && forall c | c in s.run :: !rules.validation.blank(c)
  }

  /** Everything about a job `buildJob` checks besides dependency states. */
  predicate JobRuns(j: Job, rules: BuildRules) {
    && (j.platform != "" ==> rules.platformOk(j.platform))
    && (forall s | s in j.steps :: StepRuns(s, rules))
  }

  /** The same with the checks of the export loop. */
  predicate Buildable(j: Job, rules: BuildRules) {
    && JobRuns(j, rules)
    && (forall e | e in CollectExports(j) :: rules.exportOk(e.path))
  }

  predicate AllBuildable(jobs: seq<Job>, rules: BuildRules) {
    forall j | j in jobs :: Buildable(j, rules)
  }

  function StepExports(steps: seq<Step>): seq<Export> {
    if steps == [] then [] else
      StepExports(steps[..|steps| - 1]) + steps[|steps| - 1].exports
  }

  function CollectExports(j: Job): seq<Export> {
    j.exports + StepExports(j.steps)
  }

  lemma StepInputsGrow(steps: seq<Step>, i: nat)
    requires i < |steps|
    ensures StepInputs(steps[..i + 1]) == StepInputs(steps[..i]) + Froms(steps[i].artifacts)
  {
    assert steps[..i + 1][..i] == steps[..i];
  }

  /** Looks the names up one by one; stops at the first that is missing. */
  method LookUpAll(names: seq<Name>, states: map<Name, Built>) returns (r: Option<seq<Built>>)
    ensures r.Some? <==> Available(names, states)
    ensures r.Some? ==> r.value == LookUp(names, states)
  {
    var found: seq<Built> := [];
    for i := 0 to |names|
      invariant |found| == i
      invariant forall k | 0 <= k < i :: names[k] in states && found[k] == states[names[k]]
    {
      if names[i] !in states {
        return None;
      }
      found := found + [states[names[i]]];
    }
    return Some(found);
  }

  lemma LookUpAppend(a: seq<Name>, b: seq<Name>, m: map<Name, Built>)
    requires Available(a, m) && Available(b, m)
    ensures Available(a + b, m) && LookUp(a + b, m) == LookUp(a, m) + LookUp(b, m)
  {
  }

  method CheckRun(step: Step, rules: BuildRules) returns (err: Option<BuildError>)
    ensures err.None? <==> StepRuns(step, rules)
    ensures err.Some? ==> err.value == if step.run == [] then EmptyStep else BlankCommand
  {
    if step.run == [] {
      return Some(EmptyStep);
    }
    for k := 0 to |step.run|
      invariant forall c | c in step.run[..k] :: !rules.validation.blank(c)
    {
      if rules.validation.blank(step.run[k]) {
        return Some(BlankCommand);
      }
    }
    assert step.run[..|step.run|] == step.run;
    return None;
  }

  /** Builds one job, exactly if every state it looks up is there and the job can run. */
  method BuildJob(job: Job, states: map<Name, Built>, rules: BuildRules)
    returns (r: Result<Built, BuildError>)
    ensures r.Ok? <==> Available(Inputs(job), states) && JobRuns(job, rules)
    ensures r.Ok? ==> r.value == BuiltFrom(job, states)
    ensures r == Err(MissingDepState) ==> !Available(Inputs(job), states)
    ensures r.Err? && JobRuns(job, rules) ==> r.error == MissingDepState
    ensures r.Err? ==> !r.error.NotValid?
  {
    if job.platform != "" && !rules.platformOk(job.platform) {
      return Err(InvalidPlatform);
    }
    var copied := LookUpAll(Froms(job.artifacts), states);
    if copied.None? {
      return Err(MissingDepState);
    }
    var mounted := LookUpAll(job.dependsOn, states);
    if mounted.None? {
      return Err(MissingDepState);
    }
    LookUpAppend(Froms(job.artifacts), job.dependsOn, states);
    ghost var before := Froms(job.artifacts) + job.dependsOn;
    var st := copied.value + mounted.value;
    for i := 0 to |job.steps|
      invariant Available(before + StepInputs(job.steps[..i]), states)
      invariant st == LookUp(before + StepInputs(job.steps[..i]), states)
      invariant forall k | 0 <= k < i :: StepRuns(job.steps[k], rules)
    {
      var step := job.steps[i];
      StepInputsGrow(job.steps, i);
      ghost var done := before + StepInputs(job.steps[..i]);
      assert before + StepInputs(job.steps[..i + 1]) == done + Froms(step.artifacts);
      var stepCopied := LookUpAll(Froms(step.artifacts), states);
      if stepCopied.None? {
        StepInputsAreInputs(job, i);
        return Err(MissingDepState);
      }
      LookUpAppend(done, Froms(step.artifacts), states);
      st := st + stepCopied.value;
      var runErr := CheckRun(step, rules);
      if runErr.Some? {
        assert step in job.steps;
        return Err(runErr.value);
      }
    }
    assert job.steps[..|job.steps|] == job.steps;
    return Ok(Built(Strip(job), st));
  }

  lemma {:induction false} StepInputsPrefix(steps: seq<Step>, i: nat)
    requires i < |steps|
    ensures forall n | n in Froms(steps[i].artifacts) :: n in StepInputs(steps)
  {
    if i < |steps| - 1 {
      StepInputsPrefix(steps[..|steps| - 1], i);
    }
  }

  lemma StepInputsAreInputs(job: Job, i: nat)
    requires i < |job.steps|
    ensures forall n | n in Froms(job.steps[i].artifacts) :: n in Inputs(job)
  {
    StepInputsPrefix(job.steps, i);
  }

  // ----- The order -----

  ghost predicate IsPermutation(order: seq<int>, n: nat) {
    && |order| == n
    && (forall i | 0 <= i < |order| :: 0 <= order[i] < n)
    && (forall i, j | 0 <= i < j < |order| :: order[i] != order[j])
  }

  method ValidOrder(order: seq<int>, n: nat) returns (ok: bool)
    ensures ok <==> IsPermutation(order, n)
  {
    if |order| != n {
      return false;
    }
    var seen := new bool[n](_ => false);
    for k := 0 to |order|
      invariant forall i | 0 <= i < k :: 0 <= order[i] < n && seen[order[i]]
      invariant forall i, j | 0 <= i < j < k :: order[i] != order[j]
      invariant forall v | 0 <= v < n && seen[v] :: v in order[..k]
    {
      var idx := order[k];
      if idx < 0 || idx >= n || seen[idx] {
        return false;
      }
      seen[idx] := true;
      assert order[..k + 1] == order[..k] + [idx];
    }
    return true;
  }

  /** The jobs in the order they are built. */
  function Ordered(jobs: seq<Job>, order: seq<nat>): (js: seq<Job>)
    requires forall i | 0 <= i < |order| :: order[i] < |jobs|
    ensures |js| == |order| && forall i | 0 <= i < |order| :: js[i] == jobs[order[i]]
  {
    seq(|order|, i requires 0 <= i < |order| => jobs[order[i]])
  }

  lemma OrderedHasAllJobs(jobs: seq<Job>, order: seq<nat>)
    requires IsPermutation(order, |jobs|)
    ensures forall j :: j in Ordered(jobs, order) <==> j in jobs
    ensures UniqueNames(jobs) ==> UniqueNames(Ordered(jobs, order))
  {
    DistinctFill(order, |jobs|);
    forall j | j in jobs
      ensures j in Ordered(jobs, order)
    {
      var i: nat :| i < |jobs| && jobs[i] == j;
      assert i in order;
      var k :| 0 <= k < |order| && order[k] == i;
      assert Ordered(jobs, order)[k] == j;
    }
  }

  /** Everything the job at position `k` looks up is built before it. */
  ghost predicate Ready(js: seq<Job>, k: nat)
    requires k < |js|
  {
    forall n | n in Inputs(js[k]) :: n in Names(js[..k])
  }

  ghost predicate AllReady(js: seq<Job>) {
    forall k | 0 <= k < |js| :: Ready(js, k)
  }

  lemma {:induction false} StepInputsFromDeps(steps: seq<Step>, deps: seq<Name>)
    requires forall s | s in steps :: forall a | a in s.artifacts :: a.from in deps
    ensures forall n | n in StepInputs(steps) :: n in deps
  {
    if steps != [] {
      var last := steps[|steps| - 1];
      StepInputsFromDeps(steps[..|steps| - 1], deps);
      forall n | n in Froms(last.artifacts)
        ensures n in deps
      {
        var i :| 0 <= i < |last.artifacts| && last.artifacts[i].from == n;
        assert last.artifacts[i] in last.artifacts;
      }
    }
  }

  /** A job that imports only from its dependencies looks up its dependencies and nothing else. */
  lemma InputsAreDeps(j: Job)
    requires ArtifactsFromDeps(j)
    ensures forall n :: n in Inputs(j) <==> n in j.dependsOn
  {
    StepInputsFromDeps(j.steps, j.dependsOn);
    forall n | n in Froms(j.artifacts)
      ensures n in j.dependsOn
    {
      var i :| 0 <= i < |j.artifacts| && j.artifacts[i].from == n;
      assert j.artifacts[i] in j.artifacts;
    }
  }

  lemma ReadyMeansTopological(jobs: seq<Job>, order: seq<nat>)
    requires IsPermutation(order, |jobs|) && forall j | j in jobs :: ArtifactsFromDeps(j)
    ensures AllReady(Ordered(jobs, order)) <==> TopoOrder(jobs, order)
  {
    var js := Ordered(jobs, order);
    forall k | 0 <= k < |js|
      ensures Ready(js, k) <==>
                forall d | d in jobs[order[k]].dependsOn :: exists i :: 0 <= i < k && jobs[order[i]].name == d
    {
      InputsAreDeps(js[k]);
      forall d
        ensures d in Names(js[..k]) <==> exists i :: 0 <= i < k && jobs[order[i]].name == d
      {
        if i :| 0 <= i < k && jobs[order[i]].name == d {
          assert Names(js[..k])[i] == d;
        }
        if d in Names(js[..k]) {
          var i :| 0 <= i < k && Names(js[..k])[i] == d;
          assert jobs[order[i]].name == d;
        }
      }
    }
  }

  // ----- Building in order -----

  ghost predicate StateOf(j: Job, states: map<Name, Built>) {
    && j.name in states && Available(Inputs(j), states)
    && states[j.name] == BuiltFrom(j, states)
  }

  /** The states of exactly the jobs built so far, each made from the others. */
  ghost predicate StatesOk(js: seq<Job>, states: map<Name, Built>) {
    && (forall n :: n in states <==> n in Names(js))
    && (forall j | j in js :: StateOf(j, states))
  }

  lemma StateOfStays(j: Job, states: map<Name, Built>, n: Name, b: Built)
    requires StateOf(j, states) && n !in states
    ensures StateOf(j, states[n := b])
  {
    assert LookUp(Inputs(j), states) == LookUp(Inputs(j), states[n := b]);
  }

  lemma NewState(j: Job, states: map<Name, Built>)
    requires Available(Inputs(j), states) && j.name !in states
    ensures StateOf(j, states[j.name := BuiltFrom(j, states)])
  {
    assert LookUp(Inputs(j), states) == LookUp(Inputs(j), states[j.name := BuiltFrom(j, states)]);
  }

  lemma StatesGrow(js: seq<Job>, k: nat, states: map<Name, Built>)
    requires k < |js| && UniqueNames(js) && StatesOk(js[..k], states)
    ensures Available(Inputs(js[k]), states) <==> Ready(js, k)
    ensures js[k].name !in states
    ensures Ready(js, k) ==>
              StatesOk(js[..k + 1], states[js[k].name := BuiltFrom(js[k], states)])
  {
    var j := js[k];
    assert forall i | 0 <= i < k :: Names(js[..k])[i] == js[i].name;
    if Ready(js, k) {
      var states' := states[j.name := BuiltFrom(j, states)];
      assert Names(js[..k + 1]) == Names(js[..k]) + [j.name];
      NewState(j, states);
      forall x | x in js[..k + 1]
        ensures StateOf(x, states')
      {
        if x in js[..k] {
          StateOfStays(x, states, j.name, BuiltFrom(j, states));
        }
      }
    }
  }

  lemma AllStatesAreMeaning(jobs: seq<Job>, js: seq<Job>, states: map<Name, Built>)
    requires StatesOk(js, states) && forall j :: j in js <==> j in jobs
    ensures IsMeaning(jobs, states)
  {
    forall n | n in states
      ensures n in Names(jobs)
    {
      var k :| 0 <= k < |js| && Names(js)[k] == n;
      assert js[k] in js;
      var i :| 0 <= i < |jobs| && jobs[i] == js[k];
      assert Names(jobs)[i] == n;
    }
    forall j | j in jobs
      ensures StateOf(j, states)
    {
      assert j in js;
    }
  }

  function LocalExports(j: Job, st: Built, exports: seq<Export>): seq<LocalExport> {
    if exports == [] then [] else
      LocalExports(j, st, exports[..|exports| - 1]) + [ToLocalExport(j, st, exports[|exports| - 1])]
  }

  function ToLocalExport(j: Job, st: Built, e: Export): LocalExport {
    LocalExport(st, e.path, j.name, e.local, e.path != "" && e.path[|e.path| - 1] == '/')
  }

  function AllLocalExports(js: seq<Job>, m: map<Name, Built>): seq<LocalExport>
    requires forall j | j in js :: j.name in m
  {
    if js == [] then [] else
      var last := js[|js| - 1];
      AllLocalExports(js[..|js| - 1], m) + LocalExports(last, m[last.name], CollectExports(last))
  }

  function AllImageExports(js: seq<Job>, m: map<Name, Built>): seq<ImageExport>
    requires forall j | j in js :: j.name in m
  {
    if js == [] then [] else
      var last := js[|js| - 1];
      AllImageExports(js[..|js| - 1], m)
      + (if last.publish.None? then []
         else [ImageExport(m[last.name], last.name, last.publish.value, last.platform)])
  }

  /** What `Build` returns when the jobs, in this order, mean `m`: one definition per job, and
      the exports and publishes of each job in turn, all of the job's final state. */
  function ResultFor(js: seq<Job>, m: map<Name, Built>): BuildResult
    requires forall j | j in js :: j.name in m
  {
    BuildResult(
      seq(|js|, k requires 0 <= k < |js| => assert js[k] in js; m[js[k].name]),
      Names(js), AllLocalExports(js, m), AllImageExports(js, m))
  }

  /** Results so far only depend on the states of the jobs they cover. */
  lemma {:induction false} ResultIgnoresLater(js: seq<Job>, m: map<Name, Built>, n: Name, b: Built)
    requires (forall j | j in js :: j.name in m) && n !in m
    ensures ResultFor(js, m[n := b]) == ResultFor(js, m)
  {
    if js != [] {
      assert js[|js| - 1] in js;
      ResultIgnoresLater(js[..|js| - 1], m, n, b);
    }
    assert ResultFor(js, m[n := b]).definitions == ResultFor(js, m).definitions;
  }

  function AddJob(r: BuildResult, j: Job, st: Built, exported: seq<LocalExport>): BuildResult {
    BuildResult(
      r.definitions + [st],
      r.jobNames + [j.name],
      r.exports + exported,
      if j.publish.None? then r.imageExports
      else r.imageExports + [ImageExport(st, j.name, j.publish.value, j.platform)])
  }

  lemma {:induction false} ResultGrows(js: seq<Job>, k: nat, m: map<Name, Built>)
    requires k < |js| && (forall j | j in js[..k] :: j.name in m) && js[k].name !in m
    requires Available(Inputs(js[k]), m)
    ensures var j, st := js[k], BuiltFrom(js[k], m);
            && (forall x | x in js[..k + 1] :: x.name in m[j.name := st])
            && ResultFor(js[..k + 1], m[j.name := st])
               == AddJob(ResultFor(js[..k], m), j, st, LocalExports(j, st, CollectExports(j)))
  {
    var j, st := js[k], BuiltFrom(js[k], m);
    ResultIgnoresLater(js[..k], m, j.name, st);
    ResultStep(js[..k], j, m[j.name := st]);
    assert js[..k + 1] == js[..k] + [j];
  }

  lemma {:induction false} ResultStep(js: seq<Job>, j: Job, m: map<Name, Built>)
    requires (forall x | x in js :: x.name in m) && j.name in m
    ensures forall x | x in js + [j] :: x.name in m
    ensures ResultFor(js + [j], m)
         == AddJob(ResultFor(js, m), j, m[j.name], LocalExports(j, m[j.name], CollectExports(j)))
  {
    var all := js + [j];
    assert all[..|js|] == js && all[|js|] == j;
    assert ResultFor(all, m).definitions == ResultFor(js, m).definitions + [m[j.name]];
    assert Names(all) == Names(js) + [j.name];
  }

  method ExportJob(j: Job, st: Built, rules: BuildRules) returns (r: Option<seq<LocalExport>>)
    ensures r.Some? <==> forall e | e in CollectExports(j) :: rules.exportOk(e.path)
    ensures r.Some? ==> r.value == LocalExports(j, st, CollectExports(j))
  {
    var exports := CollectExports(j);
    var out: seq<LocalExport> := [];
    for i := 0 to |exports|
      invariant out == LocalExports(j, st, exports[..i])
      invariant forall k | 0 <= k < i :: rules.exportOk(exports[k].path)
    {
      var e := exports[i];
      if !rules.exportOk(e.path) {
        assert e in exports;
        return None;
      }
      assert exports[..i + 1][..i] == exports[..i];
      out := out + [ToLocalExport(j, st, e)];
    }
    assert exports[..|exports|] == exports;
    return Some(out);
  }

  /** The result of building all jobs in this order: their states are the pipeline's meaning. */
  ghost predicate BuiltAlong(js: seq<Job>, r: BuildResult) {
    exists m :: IsMeaning(js, m) && r == ResultFor(js, m)
  }

  /** The first `k` jobs are built: their states and the result so far. */
  ghost predicate BuiltUpTo(js: seq<Job>, k: nat, states: map<Name, Built>, r: BuildResult) {
    && k <= |js| && StatesOk(js[..k], states)
    && (forall i | 0 <= i < k :: Ready(js, i))
    && (forall j | j in js[..k] :: j.name in states)
    && r == ResultFor(js[..k], states)
  }

  lemma {:induction false} BuiltStep(js: seq<Job>, k: nat, states: map<Name, Built>, r: BuildResult)
    requires UniqueNames(js) && k < |js| && BuiltUpTo(js, k, states, r)
    ensures Available(Inputs(js[k]), states) <==> Ready(js, k)
    ensures Ready(js, k) ==>
              var j, st := js[k], BuiltFrom(js[k], states);
              BuiltUpTo(js, k + 1, states[j.name := st], AddJob(r, j, st, LocalExports(j, st, CollectExports(j))))
  {
    StatesGrow(js, k, states);
    if Ready(js, k) {
      ResultGrows(js, k, states);
    }
  }

  lemma {:induction false} BuiltAll(jobs: seq<Job>, js: seq<Job>, states: map<Name, Built>, r: BuildResult)
    requires BuiltUpTo(js, |js|, states, r)
    ensures AllReady(js) && BuiltAlong(js, r)
  {
    assert js[..|js|] == js;
    AllStatesAreMeaning(js, js, states);
  }

  // What is built when names may repeat: a lookup finds the last job built so far.

  ghost function Latest(js: seq<Job>, defs: seq<Built>, k: nat): map<Name, Built>
    requires k <= |js| && k <= |defs|
  {
    if k == 0 then map[] else Latest(js, defs, k - 1)[js[k - 1].name := defs[k - 1]]
  }

  ghost function ExportsInTurn(js: seq<Job>, defs: seq<Built>, k: nat): seq<LocalExport>
    requires k <= |js| && k <= |defs|
  {
    if k == 0 then [] else
      ExportsInTurn(js, defs, k - 1) + LocalExports(js[k - 1], defs[k - 1], CollectExports(js[k - 1]))
  }

  ghost function ImagesInTurn(js: seq<Job>, defs: seq<Built>, k: nat): seq<ImageExport>
    requires k <= |js| && k <= |defs|
  {
    if k == 0 then [] else
      var j := js[k - 1];
      ImagesInTurn(js, defs, k - 1)
      + (if j.publish.None? then [] else [ImageExport(defs[k - 1], j.name, j.publish.value, j.platform)])
  }

  ghost predicate BuiltAt(js: seq<Job>, defs: seq<Built>, i: nat)
    requires i < |js| && i < |defs|
  {
    var m := Latest(js, defs, i);
    Available(Inputs(js[i]), m) && defs[i] == BuiltFrom(js[i], m)
  }

  ghost predicate DefinedInTurn(js: seq<Job>, k: nat, defs: seq<Built>) {
    k <= |js| && |defs| == k && forall i | 0 <= i < k :: BuiltAt(js, defs, i)
  }

  /** The first `k` jobs, each built from what the names stood for when its turn came. */
  ghost predicate InTurn(js: seq<Job>, k: nat, r: BuildResult) {
    && DefinedInTurn(js, k, r.definitions) && r.jobNames == Names(js[..k])
    && r.exports == ExportsInTurn(js, r.definitions, k)
    && r.imageExports == ImagesInTurn(js, r.definitions, k)
  }

  lemma {:induction false} LatestIgnoresLater(js: seq<Job>, defs: seq<Built>, st: Built, k: nat)
    requires k <= |js| && k <= |defs|
    ensures Latest(js, defs + [st], k) == Latest(js, defs, k)
  {
    if k > 0 {
      LatestIgnoresLater(js, defs, st, k - 1);
    }
  }

  lemma {:induction false} ExportsIgnoreLater(js: seq<Job>, defs: seq<Built>, st: Built, k: nat)
    requires k <= |js| && k <= |defs|
    ensures ExportsInTurn(js, defs + [st], k) == ExportsInTurn(js, defs, k)
    ensures ImagesInTurn(js, defs + [st], k) == ImagesInTurn(js, defs, k)
  {
    if k > 0 {
      ExportsIgnoreLater(js, defs, st, k - 1);
    }
  }

  lemma NextDefinition(js: seq<Job>, k: nat, defs: seq<Built>, st: Built)
    requires k < |js| && DefinedInTurn(js, k, defs)
    requires var m := Latest(js, defs, k); Available(Inputs(js[k]), m) && st == BuiltFrom(js[k], m)
    ensures DefinedInTurn(js, k + 1, defs + [st])
    ensures Latest(js, defs + [st], k + 1) == Latest(js, defs, k)[js[k].name := st]
  {
    LatestIgnoresLater(js, defs, st, k);
    forall i | 0 <= i < k + 1
      ensures BuiltAt(js, defs + [st], i)
    {
      LatestIgnoresLater(js, defs, st, i);
      if i < k {
        assert BuiltAt(js, defs, i);
      }
    }
  }

  lemma NextInTurn(js: seq<Job>, k: nat, r: BuildResult, st: Built)
    requires k < |js| && InTurn(js, k, r)
    requires var m := Latest(js, r.definitions, k); Available(Inputs(js[k]), m) && st == BuiltFrom(js[k], m)
    ensures var r' := AddJob(r, js[k], st, LocalExports(js[k], st, CollectExports(js[k])));
            InTurn(js, k + 1, r') && Latest(js, r'.definitions, k + 1) == Latest(js, r.definitions, k)[js[k].name := st]
  {
    NextDefinition(js, k, r.definitions, st);
    ExportsIgnoreLater(js, r.definitions, st, k);
    assert Names(js[..k + 1]) == Names(js[..k]) + [js[k].name];
  }

  datatype Progress = Progress(states: map<Name, Built>, result: BuildResult)

  const NOTHING: Progress := Progress(map[], BuildResult([], [], [], []))

  /** Building `j` leads from `p` to `q`. */
  ghost predicate Turn(j: Job, p: Progress, q: Progress) {
    && Available(Inputs(j), p.states)
    && q == TurnTo(j, p, BuiltFrom(j, p.states))
  }

  function TurnTo(j: Job, p: Progress, st: Built): Progress {
    Progress(p.states[j.name := st], AddJob(p.result, j, st, LocalExports(j, st, CollectExports(j))))
  }

  // Sequences of values, each leading to the next.

  ghost predicate StepAt<S>(t: seq<S>, step: (nat, S, S) -> bool, i: nat) {
    i + 1 < |t| && step(i, t[i], t[i + 1])
  }

  ghost predicate Steps<S>(n: nat, t: seq<S>, step: (nat, S, S) -> bool) {
    |t| == n + 1 && forall i | 0 <= i < n :: StepAt(t, step, i)
  }

  lemma EarlierSteps<S>(n: nat, t: seq<S>, step: (nat, S, S) -> bool)
    requires Steps(n + 1, t, step)
    ensures Steps(n, t[..n + 1], step)
  {
    var front := t[..n + 1];
    forall i | 0 <= i < n
      ensures StepAt(front, step, i)
    {
      assert StepAt(t, step, i);
    }
  }

  lemma OneMoreStep<S>(n: nat, t: seq<S>, step: (nat, S, S) -> bool, q: S)
    requires Steps(n, t, step) && step(n, t[n], q)
    ensures Steps(n + 1, t + [q], step)
  {
    var longer := t + [q];
    forall i | 0 <= i < n + 1
      ensures StepAt(longer, step, i)
    {
      if i < n {
        assert StepAt(t, step, i);
      }
    }
  }

  ghost function TurnsOf(js: seq<Job>): (nat, Progress, Progress) -> bool {
    (i: nat, p: Progress, q: Progress) => i < |js| && Turn(js[i], p, q)
  }

  /** The progress after every one of the first `k` turns of the loop. */
  ghost predicate Turns(js: seq<Job>, k: nat, t: seq<Progress>) {
    k <= |js| && Steps(k, t, TurnsOf(js)) && t[0] == NOTHING
  }

  lemma EarlierTurns(js: seq<Job>, k: nat, t: seq<Progress>)
    requires Turns(js, k + 1, t)
    ensures Turns(js, k, t[..k + 1])
  {
    EarlierSteps(k, t, TurnsOf(js));
  }

  lemma LastTurn(js: seq<Job>, k: nat, t: seq<Progress>)
    requires Turns(js, k + 1, t)
    ensures |t| == k + 2 && k < |js| && Turn(js[k], t[k], t[k + 1])
  {
    assert StepAt(t, TurnsOf(js), k);
  }

  lemma LastTurnAddsName(js: seq<Job>, k: nat, t: seq<Progress>, n: Name)
    requires Turns(js, k + 1, t)
    ensures |t| == k + 2 && k < |js|
    ensures n in t[k + 1].states <==> n in t[k].states || n == js[k].name
  {
    LastTurn(js, k, t);
  }

  lemma LastTurnFound(js: seq<Job>, k: nat, t: seq<Progress>)
    requires Turns(js, k + 1, t)
    ensures |t| == k + 2 && k < |js| && Available(Inputs(js[k]), t[k].states)
  {
    LastTurn(js, k, t);
  }

  /** Job by job, each from what the names stood for. */
  ghost predicate InTurnAt(js: seq<Job>, k: nat, p: Progress) {
    InTurn(js, k, p.result) && p.states == Latest(js, p.result.definitions, k)
  }

  lemma TurnKeepsInTurn(js: seq<Job>, k: nat, p: Progress, q: Progress)
    requires k < |js| && InTurnAt(js, k, p) && Turn(js[k], p, q)
    ensures InTurnAt(js, k + 1, q)
  {
    NextInTurn(js, k, p.result, BuiltFrom(js[k], p.states));
  }

  lemma TurnKeepsMeaning(js: seq<Job>, k: nat, p: Progress, q: Progress)
    requires UniqueNames(js) && k < |js| && BuiltUpTo(js, k, p.states, p.result) && Turn(js[k], p, q)
    ensures BuiltUpTo(js, k + 1, q.states, q.result)
  {
    BuiltStep(js, k, p.states, p.result);
  }

  lemma NextTurn(js: seq<Job>, k: nat, t: seq<Progress>, q: Progress)
    requires k < |js| && Turns(js, k, t) && Turn(js[k], t[k], q)
    ensures Turns(js, k + 1, t + [q])
  {
    OneMoreStep(k, t, TurnsOf(js), q);
  }

  lemma NextName(js: seq<Job>, i: nat, n: Name)
    requires i < |js|
    ensures n in Names(js[..i + 1]) <==> n in Names(js[..i]) || n == js[i].name
  {
    assert Names(js[..i + 1]) == Names(js[..i]) + [js[i].name];
  }

  lemma {:induction false} StatesInTurn(js: seq<Job>, k: nat, t: seq<Progress>, n: Name)
    requires Turns(js, k, t)
    ensures n in t[k].states <==> n in Names(js[..k])
  {
    if k > 0 {
      LastTurnAddsName(js, k - 1, t, n);
      EarlierTurns(js, k - 1, t);
      StatesInTurn(js, k - 1, t[..k], n);
      NextName(js, k - 1, n);
    }
  }

  lemma TurnFinds(js: seq<Job>, k: nat, t: seq<Progress>)
    requires k < |js| && Turns(js, k, t)
    ensures Available(Inputs(js[k]), t[k].states) <==> Ready(js, k)
  {
    forall n
      ensures n in t[k].states <==> n in Names(js[..k])
    {
      StatesInTurn(js, k, t, n);
    }
  }

  lemma {:induction false} AllFound(js: seq<Job>, k: nat, t: seq<Progress>, i: nat)
    requires Turns(js, k, t) && i < k
    ensures Ready(js, i)
    decreases k
  {
    EarlierTurns(js, k - 1, t);
    if i == k - 1 {
      LastTurnFound(js, i, t);
      TurnFinds(js, i, t[..k]);
    } else {
      AllFound(js, k - 1, t[..k], i);
    }
  }

  /** What the loop computes, described job by job. */
  lemma {:induction false} TurnsAreInTurn(js: seq<Job>, k: nat, t: seq<Progress>)
    requires Turns(js, k, t)
    ensures InTurnAt(js, k, t[k])
  {
    if k > 0 {
      EarlierTurns(js, k - 1, t);
      TurnsAreInTurn(js, k - 1, t[..k]);
      LastTurn(js, k - 1, t);
      TurnKeepsInTurn(js, k - 1, t[k - 1], t[k]);
    }
  }

  /** With unique names it is the pipeline's meaning. */
  lemma {:induction false} TurnsAreMeaning(js: seq<Job>, k: nat, t: seq<Progress>)
    requires Turns(js, k, t) && UniqueNames(js)
    ensures BuiltUpTo(js, k, t[k].states, t[k].result)
  {
    if k > 0 {
      EarlierTurns(js, k - 1, t);
      TurnsAreMeaning(js, k - 1, t[..k]);
      LastTurn(js, k - 1, t);
      TurnKeepsMeaning(js, k - 1, t[k - 1], t[k]);
    }
  }

  /** Builds a job and collects its exports. */
  method BuildAndExport(job: Job, states: map<Name, Built>, rules: BuildRules)
    returns (r: Result<(Built, seq<LocalExport>), BuildError>)
    ensures r.Ok? <==> Available(Inputs(job), states) && Buildable(job, rules)
    ensures r.Ok? ==>
              var st := BuiltFrom(job, states);
              r.value == (st, LocalExports(job, st, CollectExports(job)))
    ensures r == Err(MissingDepState) ==> !Available(Inputs(job), states)
    ensures r.Err? && Buildable(job, rules) ==> r.error == MissingDepState
    ensures r.Err? ==> !r.error.NotValid?
  {
    var built := BuildJob(job, states, rules);
    match built {
      case Err(e) => return Err(e);
      case Ok(st) =>
        var exported := ExportJob(job, st, rules);
        if exported.None? {
          return Err(InvalidExport);
        }
        return Ok((st, exported.value));
    }
  }

  /** A true error: some lookup fails, which is what is reported if every job can be built, or some
      job cannot be built. */
  ghost predicate BuildFails(js: seq<Job>, e: BuildError, rules: BuildRules) {
    && (AllReady(js) ==> !AllBuildable(js, rules) && e != MissingDepState)
    && (AllBuildable(js, rules) ==> e == MissingDepState)
    && !e.NotValid?
  }

  lemma BuildFailsAt(js: seq<Job>, k: nat, t: seq<Progress>, e: BuildError, rules: BuildRules)
    requires k < |js| && Turns(js, k, t) && !e.NotValid?
    requires !(Available(Inputs(js[k]), t[k].states) && Buildable(js[k], rules))
    requires e == MissingDepState ==> !Available(Inputs(js[k]), t[k].states)
    requires Buildable(js[k], rules) ==> e == MissingDepState
    ensures BuildFails(js, e, rules)
  {
    TurnFinds(js, k, t);
    assert js[k] in js;
  }

  /** The loop. */
  method BuildEach(jobs: seq<Job>, order: seq<nat>, rules: BuildRules)
    returns (r: Result<BuildResult, BuildError>, ghost t: seq<Progress>)
    requires forall i | 0 <= i < |order| :: order[i] < |jobs|
    ensures r.Ok? ==> Turns(Ordered(jobs, order), |order|, t) && r.value == t[|order|].result
    ensures r.Ok? ==> AllBuildable(Ordered(jobs, order), rules)
    ensures r.Err? ==> BuildFails(Ordered(jobs, order), r.error, rules)
  {
    ghost var js := Ordered(jobs, order);
    var p := NOTHING;
    t := [p];
    for k := 0 to |order|
      invariant Turns(js, k, t) && p == t[k]
      invariant forall i | 0 <= i < k :: Buildable(js[i], rules)
    {
      var job := jobs[order[k]];
      var built := BuildAndExport(job, p.states, rules);
      if built.Err? {
        BuildFailsAt(js, k, t, built.error, rules);
        return Err(built.error), t;
      }
      var (st, exported) := built.value;
      p := Progress(p.states[job.name := st], AddJob(p.result, job, st, exported));
      NextTurn(js, k, t, p);
      t := t + [p];
    }
    return Ok(p.result), t;
  }

  /** Where the loop leaves off. */
  lemma BuildEnds(js: seq<Job>, t: seq<Progress>)
    requires Turns(js, |js|, t)
    ensures AllReady(js) && InTurn(js, |js|, t[|js|].result)
    ensures UniqueNames(js) ==> BuiltAlong(js, t[|js|].result)
  {
    forall i | 0 <= i < |js|
      ensures Ready(js, i)
    {
      AllFound(js, |js|, t, i);
    }
    TurnsAreInTurn(js, |js|, t);
    if UniqueNames(js) {
      TurnsAreMeaning(js, |js|, t);
      BuiltAll(js, js, t[|js|].states, t[|js|].result);
    }
  }

  /** Succeeds exactly if the order puts every input first and every job can be built; with unique
      names the result is the pipeline's meaning. */
  method BuildInOrder(jobs: seq<Job>, order: seq<nat>, rules: BuildRules)
    returns (r: Result<BuildResult, BuildError>)
    requires IsPermutation(order, |jobs|)
    ensures r.Ok? <==> AllReady(Ordered(jobs, order)) && AllBuildable(jobs, rules)
    ensures r.Ok? ==> InTurn(Ordered(jobs, order), |order|, r.value)
    ensures r.Ok? && UniqueNames(jobs) ==> BuiltAlong(Ordered(jobs, order), r.value)
    ensures r == Err(MissingDepState) ==> !AllReady(Ordered(jobs, order))
    ensures r.Err? && AllBuildable(jobs, rules) ==> r.error == MissingDepState
    ensures r.Err? ==> !r.error.NotValid?
  {
    OrderedHasAllJobs(jobs, order);
    var built, t := BuildEach(jobs, order, rules);
    if built.Ok? {
      BuildEnds(Ordered(jobs, order), t);
    }
    return built;
  }

  lemma ValidJobsImportFromDeps(env: seq<EnvVar>, jobs: seq<Job>, rules: Rules)
    requires ValidPipeline(env, jobs, rules)
    ensures forall j | j in jobs :: ArtifactsFromDeps(j)
  {
    forall j | j in jobs
      ensures ArtifactsFromDeps(j)
    {
      assert FieldsOk(j, rules);
      CheckedJobImportsFromDeps(j, rules);
    }
  }

  /** `r` is what `Build` returns for some dependencies-first order of the jobs. */
  ghost predicate BuiltInSomeOrder(jobs: seq<Job>, r: BuildResult) {
    exists order: seq<nat> :: TopoOrder(jobs, order) && BuiltAlong(Ordered(jobs, order), r)
                              && InTurn(Ordered(jobs, order), |order|, r)
  }

  /** `Build`: the cached order is used when it is a permutation of the jobs, otherwise the
      pipeline is validated. It succeeds exactly if every job can be built and the cached order is
      topological or the pipeline valid; with the order `Validate` finds no dependency state is
      ever missing. */
  method Build(jobs: seq<Job>, env: seq<EnvVar>, cached: seq<int>, rules: BuildRules)
    returns (r: Result<BuildResult, BuildError>)
    ensures IsPermutation(cached, |jobs|) && (forall j | j in jobs :: ArtifactsFromDeps(j)) ==>
              && (r.Ok? <==> TopoOrder(jobs, cached) && AllBuildable(jobs, rules))
              && (r == Err(MissingDepState) ==> !TopoOrder(jobs, cached))
              && (r.Err? && AllBuildable(jobs, rules) ==> r.error == MissingDepState)
    ensures IsPermutation(cached, |jobs|) && r.Ok? ==> InTurn(Ordered(jobs, cached), |cached|, r.value)
    ensures IsPermutation(cached, |jobs|) && r.Ok? && UniqueNames(jobs) ==> BuiltAlong(Ordered(jobs, cached), r.value)
    ensures !IsPermutation(cached, |jobs|) ==>
              && (r.Ok? <==> ValidPipeline(env, jobs, rules.validation) && AllBuildable(jobs, rules))
              && (r.Err? && r.error.NotValid? <==> !ValidPipeline(env, jobs, rules.validation))
              && r != Err(MissingDepState)
              && (r.Ok? ==> BuiltInSomeOrder(jobs, r.value))
  {
    var ok := ValidOrder(cached, |jobs|);
    if ok {
      ghost var trusted: seq<nat> := cached;
      if forall j | j in jobs :: ArtifactsFromDeps(j) {
        ReadyMeansTopological(jobs, trusted);
      }
      r := BuildInOrder(jobs, cached, rules);
    } else {
      var p := new PipelineFile(jobs, env);
      var validated := p.Validate(rules.validation);
      if validated.Err? {
        return Err(NotValid(validated.error));
      }
      var order := validated.value;
      ValidJobsImportFromDeps(env, jobs, rules.validation);
      ReadyMeansTopological(jobs, order);
      r := BuildInOrder(jobs, order, rules);
    }
  }
}
