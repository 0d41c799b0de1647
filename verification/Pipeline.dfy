/** The pipeline's data: jobs, steps and what hangs off them (pkg/pipeline/pipeline.go). */
module Pipeline {
  import opened DependencyGraph
  import opened Wrappers

  datatype EnvVar = EnvVar(key: string, value: string)
  datatype Export = Export(path: string, local: string)
  datatype Artifact = Artifact(from: Name, source: string, target: string)
  datatype Mount = Mount(source: string, target: string, readOnly: bool)
  datatype Cache = Cache(id: string, target: string)
  datatype Publish = Publish(image: string, push: bool, insecure: bool)
  datatype Dimension = Dimension(name: string, values: seq<string>)

  datatype Step = Step(
    name: string,
    run: seq<string>,
    env: seq<EnvVar>,
    workdir: string,
    mounts: seq<Mount>,
    caches: seq<Cache>,
    exports: seq<Export>,
    artifacts: seq<Artifact>,
    noCache: bool)

  datatype Job = Job(
    name: Name,
    image: string,
    workdir: string,
    platform: string,
    dependsOn: seq<Name>,
    mounts: seq<Mount>,
    caches: seq<Cache>,
    env: seq<EnvVar>,
    exports: seq<Export>,
    artifacts: seq<Artifact>,
    steps: seq<Step>,
    matrix: Option<seq<Dimension>>,
    noCache: bool,
    publish: Option<Publish>)

  datatype Error =
    | EmptyPipeline
    | EmptyJobName
    | InvalidName
    | DuplicateJob
    | MissingImage
    | EmptyJob
    | EmptyStepName
    | DuplicateStep
    | MissingRun
    | EmptyRunCommand
    | EmptyEnvKey
    | DuplicateEnvKey
    | EmptyExportPath
    | RelativeExport
    | RootExport
    | EmptyExportLocal
    | DuplicateExport
    | EmptyArtifactFrom
    | EmptyArtifactSource
    | RelativeArtifactSource
    | EmptyArtifactTarget
    | ArtifactNoDep
    | RelativeArtifact
    | RootArtifact
    | DuplicateArtifact
    | EmptyPublishImage
    | SelfDependency
    | UnknownDep
    | CycleDetected
    | AliasCollision
    | EmptyMatrix
    | EmptyDimension
    | InvalidDimName
    | DuplicateDim
    | MatrixTooLarge

  // ----- Names and the graph they span -----

  function Names(jobs: seq<Job>): (names: seq<Name>)
    ensures |names| == |jobs| && forall i | 0 <= i < |jobs| :: names[i] == jobs[i].name
  {
    seq(|jobs|, i requires 0 <= i < |jobs| => jobs[i].name)
  }

  ghost predicate UniqueNames(jobs: seq<Job>) {
    forall i, j | 0 <= i < j < |jobs| :: jobs[i].name != jobs[j].name
  }

  /** Which job a name stands for: the last one that carries it, as in a Go map filled in
      slice order. */
  function GraphOf(jobs: seq<Job>): Graph {
    if jobs == [] then map[] else
      var last := jobs[|jobs| - 1];
      GraphOf(jobs[..|jobs| - 1])[last.name := last.dependsOn]
  }

  lemma {:induction false} GraphNodes(jobs: seq<Job>, n: Name)
    ensures n in GraphOf(jobs) <==> exists i :: 0 <= i < |jobs| && jobs[i].name == n
  {
    if jobs != [] {
      var front := jobs[..|jobs| - 1];
      GraphNodes(front, n);
      assert forall i | 0 <= i < |front| :: front[i] == jobs[i];
      if n in GraphOf(front) {
        var i :| 0 <= i < |front| && front[i].name == n;
        assert jobs[i].name == n;
      }
    }
  }

  lemma {:induction false} GraphAt(jobs: seq<Job>, i: nat)
    requires UniqueNames(jobs) && i < |jobs|
    ensures jobs[i].name in GraphOf(jobs) && GraphOf(jobs)[jobs[i].name] == jobs[i].dependsOn
  {
    if i < |jobs| - 1 {
      GraphAt(jobs[..|jobs| - 1], i);
    }
  }

  /** With unique names the edges are read straight off the job list. */
  lemma EdgeAt(jobs: seq<Job>, a: Name, b: Name)
    requires UniqueNames(jobs)
    ensures Edge(GraphOf(jobs), a, b)
       <==> exists i :: 0 <= i < |jobs| && jobs[i].name == a && b in jobs[i].dependsOn
  {
    GraphNodes(jobs, a);
    forall i | 0 <= i < |jobs| && jobs[i].name == a
      ensures GraphOf(jobs)[a] == jobs[i].dependsOn
    {
      GraphAt(jobs, i);
    }
  }

  lemma IndexOfName(jobs: seq<Job>, n: Name) returns (i: nat)
    requires n in GraphOf(jobs)
    ensures i < |jobs| && jobs[i].name == n
  {
    GraphNodes(jobs, n);
    i :| i < |jobs| && jobs[i].name == n;
  }

  // ----- Field checks, first error first, in the order of validateJob -----

  /** The regular expressions and the notion of white space are the library's. */
  datatype Rules = Rules(validName: string -> bool, validDim: string -> bool, blank: string -> bool)

  predicate Absolute(path: string) {
    path != "" && path[0] == '/'
  }

  /** Nothing is left when trailing slashes are trimmed. */
  predicate OnlySlashes(path: string) {
    forall c | c in path :: c == '/'
  }

  function EnvError(envs: seq<EnvVar>, seen: set<string>): (e: Option<Error>)
    ensures e.Some? ==> IsFieldError(e.value)
  {
    if envs == [] then None
    else if envs[0].key == "" then Some(EmptyEnvKey)
    else if envs[0].key in seen then Some(DuplicateEnvKey)
    else EnvError(envs[1..], seen + {envs[0].key})
  }

  function ExportError(exports: seq<Export>, seen: set<string>): (e: Option<Error>)
    ensures e.Some? ==> IsFieldError(e.value)
  {
    if exports == [] then None
    else
      var x := exports[0];
      if x.path == "" then Some(EmptyExportPath)
      else if !Absolute(x.path) then Some(RelativeExport)
      else if OnlySlashes(x.path) then Some(RootExport)
      else if x.local == "" then Some(EmptyExportLocal)
      else if x.path in seen then Some(DuplicateExport)
      else ExportError(exports[1..], seen + {x.path})
  }

  function ArtifactError(arts: seq<Artifact>, deps: seq<Name>, seen: set<string>): (e: Option<Error>)
    ensures e.Some? ==> IsFieldError(e.value)
  {
    if arts == [] then None
    else
      var a := arts[0];
      if a.from == "" then Some(EmptyArtifactFrom)
      else if a.source == "" then Some(EmptyArtifactSource)
      else if !Absolute(a.source) then Some(RelativeArtifactSource)
      else if a.target == "" then Some(EmptyArtifactTarget)
      else if a.from !in deps then Some(ArtifactNoDep)
      else if !Absolute(a.target) then Some(RelativeArtifact)
      else if OnlySlashes(a.target) then Some(RootArtifact)
      else if a.target in seen then Some(DuplicateArtifact)
      else ArtifactError(arts[1..], deps, seen + {a.target})
  }

  function PublishError(publish: Option<Publish>, rules: Rules): (e: Option<Error>)
    ensures e.Some? ==> IsFieldError(e.value)
  {
    if publish.Some? && rules.blank(publish.value.image) then Some(EmptyPublishImage) else None
  }

  /** Not one of the errors about how jobs relate to each other. */
  predicate IsFieldError(e: Error) {
    e !in {DuplicateJob, SelfDependency, UnknownDep, CycleDetected}
  }

  function FirstError(a: Option<Error>, b: Option<Error>): Option<Error> {
    if a.Some? then a else b
  }

  function StepError(s: Step, deps: seq<Name>, seen: set<string>, rules: Rules): (e: Option<Error>)
    ensures e.Some? ==> IsFieldError(e.value)
  {
    if s.name == "" then Some(EmptyStepName)
    else if !rules.validName(s.name) then Some(InvalidName)
    else if s.name in seen then Some(DuplicateStep)
    else if s.run == [] then Some(MissingRun)
    else if exists c | c in s.run :: rules.blank(c) then Some(EmptyRunCommand)
    else FirstError(EnvError(s.env, {}),
                    FirstError(ExportError(s.exports, {}), ArtifactError(s.artifacts, deps, {})))
  }

  function StepsError(steps: seq<Step>, deps: seq<Name>, seen: set<string>, rules: Rules): (e: Option<Error>)
    ensures e.Some? ==> IsFieldError(e.value)
  {
    if steps == [] then None
    else FirstError(StepError(steps[0], deps, seen, rules),
                    StepsError(steps[1..], deps, seen + {steps[0].name}, rules))
  }

  function NameError(j: Job, rules: Rules): (e: Option<Error>)
    ensures e.Some? ==> IsFieldError(e.value)
  {
    if j.name == "" then Some(EmptyJobName)
    else if !rules.validName(j.name) then Some(InvalidName)
    else None
  }

  /** The checks that follow the duplicate-name check. */
  function BodyError(j: Job, rules: Rules): (e: Option<Error>)
    ensures e.Some? ==> IsFieldError(e.value)
  {
    if j.image == "" then Some(MissingImage)
    else if j.steps == [] then Some(EmptyJob)
    else FirstError(EnvError(j.env, {}),
         FirstError(ExportError(j.exports, {}),
         FirstError(ArtifactError(j.artifacts, j.dependsOn, {}),
         FirstError(PublishError(j.publish, rules), StepsError(j.steps, j.dependsOn, {}, rules)))))
  }

  predicate FieldsOk(j: Job, rules: Rules) {
    NameError(j, rules).None? && BodyError(j, rules).None?
  }

  /** Every file a job imports comes from a job it depends on. */
  predicate ArtifactsFromDeps(j: Job) {
    && (forall a | a in j.artifacts :: a.from in j.dependsOn)
    && (forall s | s in j.steps :: forall a | a in s.artifacts :: a.from in j.dependsOn)
  }

  /** The job imports a file from `n`, itself or in a step. */
  ghost predicate ImportsFrom(j: Job, n: Name) {
    || (exists a :: a in j.artifacts && a.from == n)
    || (exists s :: s in j.steps && exists a :: a in s.artifacts && a.from == n)
  }

  lemma ImportsAreDeps(j: Job)
    ensures ArtifactsFromDeps(j) <==> forall n | ImportsFrom(j, n) :: n in j.dependsOn
  {
    if forall n | ImportsFrom(j, n) :: n in j.dependsOn {
      forall a | a in j.artifacts
        ensures a.from in j.dependsOn
      {
        assert ImportsFrom(j, a.from);
      }
      forall s, a | s in j.steps && a in s.artifacts
        ensures a.from in j.dependsOn
      {
        assert ImportsFrom(j, a.from);
      }
    }
  }

  lemma {:induction false} ArtifactCheckIsSound(
    arts: seq<Artifact>, deps: seq<Name>, seen: set<string>, a: Artifact)
    requires ArtifactError(arts, deps, seen).None? && a in arts
    ensures a.from in deps
  {
    if a != arts[0] {
      assert a in arts[1..];
      ArtifactCheckIsSound(arts[1..], deps, seen + {arts[0].target}, a);
    }
  }

  lemma {:induction false} StepCheckIsSound(
    steps: seq<Step>, deps: seq<Name>, seen: set<string>, rules: Rules, s: Step)
    requires StepsError(steps, deps, seen, rules).None? && s in steps
    ensures s.run != [] && (forall c | c in s.run :: !rules.blank(c))
    ensures forall a | a in s.artifacts :: a.from in deps
  {
    if s == steps[0] {
      forall a | a in s.artifacts
        ensures a.from in deps
      {
        ArtifactCheckIsSound(s.artifacts, deps, {}, a);
      }
    } else {
      assert s in steps[1..];
      StepCheckIsSound(steps[1..], deps, seen + {steps[0].name}, rules, s);
    }
  }

  /** A job that passes its checks imports only from its dependencies, and every step runs
      something. */
  lemma CheckedJobImportsFromDeps(j: Job, rules: Rules)
    requires BodyError(j, rules).None?
    ensures ArtifactsFromDeps(j)
    ensures forall s | s in j.steps :: s.run != [] && forall c | c in s.run :: !rules.blank(c)
  {
    forall a | a in j.artifacts
      ensures a.from in j.dependsOn
    {
      ArtifactCheckIsSound(j.artifacts, j.dependsOn, {}, a);
    }
    forall s | s in j.steps
      ensures s.run != [] && (forall c | c in s.run :: !rules.blank(c))
      ensures forall a | a in s.artifacts :: a.from in j.dependsOn
    {
      StepCheckIsSound(j.steps, j.dependsOn, {}, rules, s);
    }
  }

  /** A pipeline `Validate` is meant to accept. */
  ghost predicate ValidPipeline(env: seq<EnvVar>, jobs: seq<Job>, rules: Rules) {
    && jobs != []
    && EnvError(env, {}).None?
    && (forall j | j in jobs :: FieldsOk(j, rules))
    && UniqueNames(jobs)
    && Dag(GraphOf(jobs))
  }
}
