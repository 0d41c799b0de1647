/** What the field checks of `Validate` accept, and what each of their errors means
    (pkg/pipeline/pipeline.go). */
module FieldChecks {
  import opened DependencyGraph
  import opened Wrappers
  import opened Pipeline

  // ----- Keys that must not repeat -----

  /** Some key was seen before, earlier in the list or already in `seen`. */
  ghost predicate Repeats(keys: seq<string>, seen: set<string>) {
    exists i :: 0 <= i < |keys| && (keys[i] in seen || keys[i] in keys[..i])
  }

  lemma RepeatsStep(keys: seq<string>, seen: set<string>)
    requires keys != []
    ensures Repeats(keys, seen) <==> keys[0] in seen || Repeats(keys[1..], seen + {keys[0]})
  {
    var rest, more := keys[1..], seen + {keys[0]};
    if i :| 0 <= i < |keys| && (keys[i] in seen || keys[i] in keys[..i]) {
      if i > 0 {
        assert keys[..i] == [keys[0]] + rest[..i - 1];
        assert rest[i - 1] in more || rest[i - 1] in rest[..i - 1];
      }
    }
    if i :| 0 <= i < |rest| && (rest[i] in more || rest[i] in rest[..i]) {
      assert keys[..i + 1] == [keys[0]] + rest[..i];
      assert keys[i + 1] in seen || keys[i + 1] in keys[..i + 1];
    }
  }

  /** Without keys seen before, it is two places of the list that hold the same key. */
  lemma RepeatsMeansTwice(keys: seq<string>)
    ensures Repeats(keys, {}) <==> exists i, k :: 0 <= i < k < |keys| && keys[i] == keys[k]
  {
    if k :| 0 <= k < |keys| && keys[k] in keys[..k] {
      var i :| 0 <= i < k && keys[..k][i] == keys[k];
      assert keys[i] == keys[k];
    }
    if i, k :| 0 <= i < k < |keys| && keys[i] == keys[k] {
      assert keys[k] == keys[..k][i];
    }
  }

  // ----- What an error says -----

  function EnvKeys(envs: seq<EnvVar>): (keys: seq<string>)
    ensures |keys| == |envs| && forall i | 0 <= i < |envs| :: keys[i] == envs[i].key
  {
    seq(|envs|, i requires 0 <= i < |envs| => envs[i].key)
  }

  function ExportPaths(exports: seq<Export>): (keys: seq<string>)
    ensures |keys| == |exports| && forall i | 0 <= i < |exports| :: keys[i] == exports[i].path
  {
    seq(|exports|, i requires 0 <= i < |exports| => exports[i].path)
  }

  function ArtifactTargets(arts: seq<Artifact>): (keys: seq<string>)
    ensures |keys| == |arts| && forall i | 0 <= i < |arts| :: keys[i] == arts[i].target
  {
    seq(|arts|, i requires 0 <= i < |arts| => arts[i].target)
  }

  function StepNames(steps: seq<Step>): (keys: seq<string>)
    ensures |keys| == |steps| && forall i | 0 <= i < |steps| :: keys[i] == steps[i].name
  {
    seq(|steps|, i requires 0 <= i < |steps| => steps[i].name)
  }

  /** The error `e` is true of the variables. */
  ghost predicate EnvFault(envs: seq<EnvVar>, seen: set<string>, e: Error) {
    match e
    case EmptyEnvKey => exists v :: v in envs && v.key == ""
    case DuplicateEnvKey => Repeats(EnvKeys(envs), seen)
    case _ => false
  }

  predicate ExportIs(x: Export, e: Error) {
    match e
    case EmptyExportPath => x.path == ""
    case RelativeExport => x.path != "" && x.path[0] != '/'
    case RootExport => x.path != "" && forall c | c in x.path :: c == '/'
    case EmptyExportLocal => x.local == ""
    case _ => false
  }

  ghost predicate ExportFault(exports: seq<Export>, seen: set<string>, e: Error) {
    (e == DuplicateExport && Repeats(ExportPaths(exports), seen)) || exists x :: x in exports && ExportIs(x, e)
  }

  predicate ArtifactIs(a: Artifact, deps: seq<Name>, e: Error) {
    match e
    case EmptyArtifactFrom => a.from == ""
    case EmptyArtifactSource => a.source == ""
    case RelativeArtifactSource => a.source != "" && a.source[0] != '/'
    case EmptyArtifactTarget => a.target == ""
    case ArtifactNoDep => a.from !in deps
    case RelativeArtifact => a.target != "" && a.target[0] != '/'
    case RootArtifact => a.target != "" && forall c | c in a.target :: c == '/'
    case _ => false
  }

  ghost predicate ArtifactFault(arts: seq<Artifact>, deps: seq<Name>, seen: set<string>, e: Error) {
    (e == DuplicateArtifact && Repeats(ArtifactTargets(arts), seen)) || exists a :: a in arts && ArtifactIs(a, deps, e)
  }

  ghost predicate StepIs(s: Step, deps: seq<Name>, rules: Rules, e: Error) {
    || (e == EmptyStepName && s.name == "")
    || (e == InvalidName && s.name != "" && !rules.validName(s.name))
    || (e == MissingRun && s.run == [])
    || (e == EmptyRunCommand && exists c :: c in s.run && rules.blank(c))
    || EnvFault(s.env, {}, e) || ExportFault(s.exports, {}, e) || ArtifactFault(s.artifacts, deps, {}, e)
  }

  ghost predicate StepFault(steps: seq<Step>, deps: seq<Name>, seen: set<string>, rules: Rules, e: Error) {
    || (e == DuplicateStep && Repeats(StepNames(steps), seen))
    || exists s :: s in steps && StepIs(s, deps, rules, e)
  }

  /** The error `e` is true of the job. */
  ghost predicate JobFault(j: Job, rules: Rules, e: Error) {
    || (e == EmptyJobName && j.name == "")
    || (e == InvalidName && j.name != "" && !rules.validName(j.name))
    || (e == MissingImage && j.image == "")
    || (e == EmptyJob && j.steps == [])
    || (e == EmptyPublishImage && j.publish.Some? && rules.blank(j.publish.value.image))
    || EnvFault(j.env, {}, e) || ExportFault(j.exports, {}, e) || ArtifactFault(j.artifacts, j.dependsOn, {}, e)
    || StepFault(j.steps, j.dependsOn, {}, rules, e)
  }

  // ----- The checks find exactly the faults -----

  /** What is reported is true, and what is true leads to a report. */
  ghost predicate Agrees(r: Option<Error>, e: Error, fault: bool) {
    (r == Some(e) ==> fault) && (fault ==> r.Some?)
  }

  lemma EnvFaultStep(envs: seq<EnvVar>, seen: set<string>, e: Error)
    requires envs != []
    ensures EnvFault(envs, seen, e)
       <==> || (e == EmptyEnvKey && envs[0].key == "") || (e == DuplicateEnvKey && envs[0].key in seen)
            || EnvFault(envs[1..], seen + {envs[0].key}, e)
  {
    RepeatsStep(EnvKeys(envs), seen);
    assert EnvKeys(envs)[1..] == EnvKeys(envs[1..]);
    assert envs == [envs[0]] + envs[1..];
  }

  lemma {:induction false} EnvErrorAgrees(envs: seq<EnvVar>, seen: set<string>, e: Error)
    ensures Agrees(EnvError(envs, seen), e, EnvFault(envs, seen, e))
  {
    if envs != [] {
      EnvErrorAgrees(envs[1..], seen + {envs[0].key}, e);
      EnvFaultStep(envs, seen, e);
    }
  }

  lemma ExportFaultStep(exports: seq<Export>, seen: set<string>, e: Error)
    requires exports != []
    ensures ExportFault(exports, seen, e)
       <==> || (e == DuplicateExport && exports[0].path in seen) || ExportIs(exports[0], e)
            || ExportFault(exports[1..], seen + {exports[0].path}, e)
  {
    RepeatsStep(ExportPaths(exports), seen);
    assert ExportPaths(exports)[1..] == ExportPaths(exports[1..]);
    assert exports == [exports[0]] + exports[1..];
  }

  lemma {:induction false} ExportErrorAgrees(exports: seq<Export>, seen: set<string>, e: Error)
    ensures Agrees(ExportError(exports, seen), e, ExportFault(exports, seen, e))
  {
    if exports != [] {
      ExportErrorAgrees(exports[1..], seen + {exports[0].path}, e);
      ExportFaultStep(exports, seen, e);
    }
  }

  lemma ArtifactFaultStep(arts: seq<Artifact>, deps: seq<Name>, seen: set<string>, e: Error)
    requires arts != []
    ensures ArtifactFault(arts, deps, seen, e)
       <==> || (e == DuplicateArtifact && arts[0].target in seen) || ArtifactIs(arts[0], deps, e)
            || ArtifactFault(arts[1..], deps, seen + {arts[0].target}, e)
  {
    RepeatsStep(ArtifactTargets(arts), seen);
    assert ArtifactTargets(arts)[1..] == ArtifactTargets(arts[1..]);
    assert arts == [arts[0]] + arts[1..];
  }

  lemma FirstArtifact(arts: seq<Artifact>, deps: seq<Name>, seen: set<string>, e: Error)
    requires arts != []
    ensures var a, rest := arts[0], ArtifactError(arts[1..], deps, seen + {arts[0].target});
            var own := (e == DuplicateArtifact && a.target in seen) || ArtifactIs(a, deps, e);
            && (ArtifactError(arts, deps, seen) == Some(e) ==> own || rest == Some(e))
            && (own || rest.Some? ==> ArtifactError(arts, deps, seen).Some?)
  {
  }

  lemma {:induction false} ArtifactErrorAgrees(arts: seq<Artifact>, deps: seq<Name>, seen: set<string>, e: Error)
    ensures Agrees(ArtifactError(arts, deps, seen), e, ArtifactFault(arts, deps, seen, e))
  {
    if arts != [] {
      ArtifactErrorAgrees(arts[1..], deps, seen + {arts[0].target}, e);
      ArtifactFaultStep(arts, deps, seen, e);
      FirstArtifact(arts, deps, seen, e);
    }
  }

  lemma StepErrorAgrees(s: Step, deps: seq<Name>, seen: set<string>, rules: Rules, e: Error)
    ensures Agrees(StepError(s, deps, seen, rules), e,
                   (e == DuplicateStep && s.name in seen) || StepIs(s, deps, rules, e))
  {
    EnvErrorAgrees(s.env, {}, e);
    ExportErrorAgrees(s.exports, {}, e);
    ArtifactErrorAgrees(s.artifacts, deps, {}, e);
  }

  lemma StepFaultStep(steps: seq<Step>, deps: seq<Name>, seen: set<string>, rules: Rules, e: Error)
    requires steps != []
    ensures StepFault(steps, deps, seen, rules, e)
       <==> || (e == DuplicateStep && steps[0].name in seen) || StepIs(steps[0], deps, rules, e)
            || StepFault(steps[1..], deps, seen + {steps[0].name}, rules, e)
  {
    RepeatsStep(StepNames(steps), seen);
    assert StepNames(steps)[1..] == StepNames(steps[1..]);
    assert steps == [steps[0]] + steps[1..];
  }

  lemma {:induction false} StepsErrorAgrees(
    steps: seq<Step>, deps: seq<Name>, seen: set<string>, rules: Rules, e: Error)
    ensures Agrees(StepsError(steps, deps, seen, rules), e, StepFault(steps, deps, seen, rules, e))
  {
    if steps != [] {
      StepErrorAgrees(steps[0], deps, seen, rules, e);
      StepsErrorAgrees(steps[1..], deps, seen + {steps[0].name}, rules, e);
      StepFaultStep(steps, deps, seen, rules, e);
    }
  }

  lemma BodyErrorAgrees(j: Job, rules: Rules, e: Error)
    requires NameError(j, rules).None?
    ensures Agrees(BodyError(j, rules), e, JobFault(j, rules, e))
  {
    EnvErrorAgrees(j.env, {}, e);
    ExportErrorAgrees(j.exports, {}, e);
    ArtifactErrorAgrees(j.artifacts, j.dependsOn, {}, e);
    StepsErrorAgrees(j.steps, j.dependsOn, {}, rules, e);
  }

  /** The checks of a job report an error exactly if one is true of the job, and then a true one. */
  lemma JobErrorExactly(j: Job, rules: Rules)
    ensures FieldsOk(j, rules) <==> forall e :: !JobFault(j, rules, e)
    ensures NameError(j, rules).Some? ==> JobFault(j, rules, NameError(j, rules).value)
    ensures NameError(j, rules).None? && BodyError(j, rules).Some? ==> JobFault(j, rules, BodyError(j, rules).value)
  {
    if NameError(j, rules).None? {
      forall e
        ensures Agrees(BodyError(j, rules), e, JobFault(j, rules, e))
      {
        BodyErrorAgrees(j, rules, e);
      }
      if BodyError(j, rules).Some? {
        assert Agrees(BodyError(j, rules), BodyError(j, rules).value, JobFault(j, rules, BodyError(j, rules).value));
      }
    } else {
      assert JobFault(j, rules, NameError(j, rules).value);
    }
  }

  // ----- The whole pipeline -----

  ghost predicate SomeJobFault(jobs: seq<Job>, rules: Rules, e: Error) {
    exists j :: j in jobs && JobFault(j, rules, e)
  }

  ghost predicate SomeSelfDependency(jobs: seq<Job>) {
    exists j :: j in jobs && j.name in j.dependsOn
  }

  /** The error `e` is true of the pipeline. */
  ghost predicate PipelineFault(env: seq<EnvVar>, jobs: seq<Job>, rules: Rules, e: Error) {
    match e
    case EmptyPipeline => jobs == []
    case DuplicateJob => !UniqueNames(jobs)
    case SelfDependency => SomeSelfDependency(jobs)
    case UnknownDep => !Closed(GraphOf(jobs))
    case CycleDetected => Cyclic(GraphOf(jobs))
    case _ => EnvFault(env, {}, e) || SomeJobFault(jobs, rules, e)
  }

  lemma SelfDependencyIsCycle(jobs: seq<Job>, i: nat)
    requires UniqueNames(jobs) && i < |jobs| && jobs[i].name in jobs[i].dependsOn
    ensures Cyclic(GraphOf(jobs))
  {
    GraphAt(jobs, i);
    assert IsCycle(GraphOf(jobs), [jobs[i].name, jobs[i].name]);
  }

  lemma FieldFaultsExactly(jobs: seq<Job>, rules: Rules)
    ensures (forall j | j in jobs :: FieldsOk(j, rules)) <==> forall e :: !SomeJobFault(jobs, rules, e)
  {
    forall j | j in jobs
      ensures FieldsOk(j, rules) <==> forall e :: !JobFault(j, rules, e)
    {
      JobErrorExactly(j, rules);
    }
    if j :| j in jobs && !FieldsOk(j, rules) {
      var e :| JobFault(j, rules, e);
      assert SomeJobFault(jobs, rules, e);
    }
  }

  lemma EnvFaultsExactly(env: seq<EnvVar>)
    ensures EnvError(env, {}).None? <==> forall e :: !EnvFault(env, {}, e)
    ensures EnvError(env, {}).Some? ==> EnvFault(env, {}, EnvError(env, {}).value)
  {
    forall e
      ensures Agrees(EnvError(env, {}), e, EnvFault(env, {}, e))
    {
      EnvErrorAgrees(env, {}, e);
    }
    if EnvError(env, {}).Some? {
      EnvErrorAgrees(env, {}, EnvError(env, {}).value);
    }
  }

  /** A pipeline is valid exactly if no error is true of it. */
  lemma ValidExactly(env: seq<EnvVar>, jobs: seq<Job>, rules: Rules)
    ensures ValidPipeline(env, jobs, rules) <==> forall e :: !PipelineFault(env, jobs, rules, e)
  {
    FieldFaultsExactly(jobs, rules);
    EnvFaultsExactly(env);
    if ValidPipeline(env, jobs, rules) {
      if j :| j in jobs && j.name in j.dependsOn {
        var i: nat :| i < |jobs| && jobs[i] == j;
        SelfDependencyIsCycle(jobs, i);
      }
    } else {
      FaultOfInvalid(env, jobs, rules);
    }
  }

  lemma FaultOfInvalid(env: seq<EnvVar>, jobs: seq<Job>, rules: Rules)
    requires !ValidPipeline(env, jobs, rules)
    ensures exists e :: PipelineFault(env, jobs, rules, e)
  {
    FieldFaultsExactly(jobs, rules);
    EnvFaultsExactly(env);
    if jobs == [] {
      assert PipelineFault(env, jobs, rules, EmptyPipeline);
    } else if EnvError(env, {}).Some? {
      EnvFaultStands(env, jobs, rules);
    } else if e :| SomeJobFault(jobs, rules, e) {
      JobFaultStands(env, jobs, rules, e);
    } else if !UniqueNames(jobs) {
      assert PipelineFault(env, jobs, rules, DuplicateJob);
    } else {
      assert PipelineFault(env, jobs, rules, UnknownDep) || PipelineFault(env, jobs, rules, CycleDetected);
    }
  }

  lemma EnvFaultStands(env: seq<EnvVar>, jobs: seq<Job>, rules: Rules)
    requires EnvError(env, {}).Some?
    ensures PipelineFault(env, jobs, rules, EnvError(env, {}).value)
  {
    EnvFaultsExactly(env);
  }

  lemma JobFaultStands(env: seq<EnvVar>, jobs: seq<Job>, rules: Rules, e: Error)
    requires SomeJobFault(jobs, rules, e)
    ensures IsFieldError(e) && PipelineFault(env, jobs, rules, e)
  {
  }
}
