/** What a build looks up and what it hands out (internal/builder/builder.go): which states a job
    takes in, what belongs to its content, and which exports and publishes come out. */
module BuildResults {
  import opened DependencyGraph
  import opened Wrappers
  import opened Pipeline
  import opened Builder

  // ----- What a job takes in -----

  lemma {:induction false} StepInputsMember(steps: seq<Step>, n: Name)
    ensures n in StepInputs(steps) <==> exists s :: s in steps && exists a :: a in s.artifacts && a.from == n
  {
    if steps != [] {
      var front, last := steps[..|steps| - 1], steps[|steps| - 1];
      StepInputsMember(front, n);
      FromsMember(last.artifacts, n);
      assert forall s :: s in steps <==> s in front || s == last;
    }
  }

  lemma FromsMember(arts: seq<Artifact>, n: Name)
    ensures n in Froms(arts) <==> exists a :: a in arts && a.from == n
  {
    if n in Froms(arts) {
      var i :| 0 <= i < |arts| && Froms(arts)[i] == n;
      assert arts[i] in arts;
    }
    if a :| a in arts && a.from == n {
      var i :| 0 <= i < |arts| && arts[i] == a;
      assert Froms(arts)[i] == n;
    }
  }

  /** A job's state is made from the states of its dependencies and of every job it imports a file
      from, and of no others. */
  lemma InputsExactly(j: Job, n: Name)
    ensures n in Inputs(j) <==> n in j.dependsOn || ImportsFrom(j, n)
  {
    FromsMember(j.artifacts, n);
    StepInputsMember(j.steps, n);
  }

  /** How many files the first `i` steps import. */
  ghost function ImportsBefore(steps: seq<Step>, i: nat): nat
    requires i <= |steps|
  {
    if i == 0 then 0 else ImportsBefore(steps, i - 1) + |steps[i - 1].artifacts|
  }

  lemma {:induction false} StepInputAt(steps: seq<Step>, i: nat, m: nat)
    requires i < |steps| && m < |steps[i].artifacts|
    ensures |StepInputs(steps)| == ImportsBefore(steps, |steps|)
    ensures ImportsBefore(steps, i) + m < |StepInputs(steps)|
    ensures StepInputs(steps)[ImportsBefore(steps, i) + m] == steps[i].artifacts[m].from
    decreases |steps|
  {
    var n := |steps| - 1;
    StepInputCount(steps[..n]);
    ImportsPrefix(steps, n, n);
    if i < n {
      ImportsPrefix(steps, n, i);
      StepInputAt(steps[..n], i, m);
    }
  }

  lemma {:induction false} StepInputCount(steps: seq<Step>)
    ensures |StepInputs(steps)| == ImportsBefore(steps, |steps|)
  {
    if steps != [] {
      StepInputCount(steps[..|steps| - 1]);
      ImportsPrefix(steps, |steps| - 1, |steps| - 1);
    }
  }

  lemma {:induction false} ImportsPrefix(steps: seq<Step>, n: nat, i: nat)
    requires i <= n <= |steps|
    ensures ImportsBefore(steps[..n], i) == ImportsBefore(steps, i)
  {
    if i > 0 {
      ImportsPrefix(steps, n, i - 1);
    }
  }

  /** The order of the inputs: the job's imports, its dependencies, then the imports of the steps. */
  lemma InputsInOrder(j: Job, i: nat, m: nat)
    requires i < |j.steps| && m < |j.steps[i].artifacts|
    ensures var n := |j.artifacts|;
            && |Inputs(j)| == n + |j.dependsOn| + ImportsBefore(j.steps, |j.steps|)
            && (forall k | 0 <= k < n :: Inputs(j)[k] == j.artifacts[k].from)
            && Inputs(j)[n..n + |j.dependsOn|] == j.dependsOn
            && n + |j.dependsOn| + ImportsBefore(j.steps, i) + m < |Inputs(j)|
            && Inputs(j)[n + |j.dependsOn| + ImportsBefore(j.steps, i) + m] == j.steps[i].artifacts[m].from
  {
    StepInputAt(j.steps, i, m);
  }

  // ----- What belongs to a job's content -----

  ghost predicate SameStepContent(s: Step, s': Step) {
    && s.name == s'.name && s.run == s'.run && s.env == s'.env && s.workdir == s'.workdir
    && s.mounts == s'.mounts && s.caches == s'.caches && s.artifacts == s'.artifacts && s.noCache == s'.noCache
  }

  /** Everything but exports and publish target is the same. */
  ghost predicate SameJobContent(j: Job, j': Job) {
    && j.name == j'.name && j.image == j'.image && j.workdir == j'.workdir && j.platform == j'.platform
    && j.dependsOn == j'.dependsOn && j.mounts == j'.mounts && j.caches == j'.caches && j.env == j'.env
    && j.artifacts == j'.artifacts && j.matrix == j'.matrix && j.noCache == j'.noCache
    && |j.steps| == |j'.steps|
    && forall i | 0 <= i < |j.steps| :: SameStepContent(j.steps[i], j'.steps[i])
  }

  /** Two jobs count as the same in a state exactly if they differ at most in what they hand out. */
  lemma StripExactly(j: Job, j': Job)
    ensures Strip(j) == Strip(j') <==> SameJobContent(j, j')
  {
    if Strip(j) == Strip(j') {
      forall i | 0 <= i < |j.steps|
        ensures SameStepContent(j.steps[i], j'.steps[i])
      {
        assert Strip(j).steps[i] == Strip(j').steps[i];
      }
    }
    if SameJobContent(j, j') {
      forall i | 0 <= i < |j.steps|
        ensures StripStep(j.steps[i]) == StripStep(j'.steps[i])
      {
        assert SameStepContent(j.steps[i], j'.steps[i]);
      }
      assert StripSteps(j.steps) == StripSteps(j'.steps);
    }
  }

  // ----- What a job declares for export -----

  /** How many exports the first `i` steps declare. */
  ghost function ExportsBefore(steps: seq<Step>, i: nat): nat
    requires i <= |steps|
  {
    if i == 0 then 0 else ExportsBefore(steps, i - 1) + |steps[i - 1].exports|
  }

  lemma {:induction false} ExportsPrefix(steps: seq<Step>, n: nat, i: nat)
    requires i <= n <= |steps|
    ensures ExportsBefore(steps[..n], i) == ExportsBefore(steps, i)
  {
    if i > 0 {
      ExportsPrefix(steps, n, i - 1);
    }
  }

  lemma {:induction false} StepExportCount(steps: seq<Step>)
    ensures |StepExports(steps)| == ExportsBefore(steps, |steps|)
  {
    if steps != [] {
      StepExportCount(steps[..|steps| - 1]);
      ExportsPrefix(steps, |steps| - 1, |steps| - 1);
    }
  }

  lemma {:induction false} StepExportAt(steps: seq<Step>, i: nat, m: nat)
    requires i < |steps| && m < |steps[i].exports|
    ensures ExportsBefore(steps, i) + m < |StepExports(steps)|
    ensures StepExports(steps)[ExportsBefore(steps, i) + m] == steps[i].exports[m]
    decreases |steps|
  {
    var n := |steps| - 1;
    StepExportCount(steps[..n]);
    ExportsPrefix(steps, n, n);
    if i < n {
      ExportsPrefix(steps, n, i);
      StepExportAt(steps[..n], i, m);
    }
  }

  /** All of the job's exports and of its steps' exports are collected, each as often as it is
      declared: the job's first, then those of the steps in order. */
  lemma CollectedInOrder(j: Job)
    ensures |CollectExports(j)| == |j.exports| + ExportsBefore(j.steps, |j.steps|)
    ensures CollectExports(j)[..|j.exports|] == j.exports
    ensures forall i: nat, m: nat | i < |j.steps| && m < |j.steps[i].exports| :: CollectedAt(j, i, m)
  {
    StepExportCount(j.steps);
    forall i: nat, m: nat | i < |j.steps| && m < |j.steps[i].exports|
      ensures CollectedAt(j, i, m)
    {
      StepExportAt(j.steps, i, m);
    }
  }

  /** Where export `m` of step `i` stands. */
  ghost predicate CollectedAt(j: Job, i: nat, m: nat)
    requires i < |j.steps| && m < |j.steps[i].exports|
  {
    var place := |j.exports| + ExportsBefore(j.steps, i) + m;
    place < |CollectExports(j)| && CollectExports(j)[place] == j.steps[i].exports[m]
  }

  /** The export is declared on the job or on one of its steps. */
  ghost predicate Declares(j: Job, e: Export) {
    e in j.exports || exists i :: 0 <= i < |j.steps| && e in j.steps[i].exports
  }

  lemma {:induction false} StepExportsMember(steps: seq<Step>, e: Export)
    ensures e in StepExports(steps) <==> exists i :: 0 <= i < |steps| && e in steps[i].exports
  {
    if steps != [] {
      var front, last := steps[..|steps| - 1], steps[|steps| - 1];
      StepExportsMember(front, e);
      assert forall i | 0 <= i < |front| :: front[i] == steps[i];
    }
  }

  lemma CollectedExactly(j: Job, e: Export)
    ensures e in CollectExports(j) <==> Declares(j, e)
  {
    StepExportsMember(j.steps, e);
  }

  // ----- What a build hands out -----

  /** The entry for an export: the final state of the job, the path in it, where it goes, and
      whether it is a directory, which a trailing slash says. */
  ghost predicate IsEntry(x: LocalExport, j: Job, st: Built, e: Export) {
    && x.state == st && x.path == e.path && x.jobName == j.name && x.local == e.local
    && (x.dir <==> exists front :: e.path == front + "/")
  }

  lemma EntryIsThat(j: Job, st: Built, e: Export)
    ensures IsEntry(ToLocalExport(j, st, e), j, st, e)
  {
    if e.path != "" && e.path[|e.path| - 1] == '/' {
      assert e.path == e.path[..|e.path| - 1] + "/";
    }
    if front :| e.path == front + "/" {
      assert e.path[|e.path| - 1] == '/';
    }
  }

  lemma {:induction false} EntriesInOrder(j: Job, st: Built, exports: seq<Export>)
    ensures |LocalExports(j, st, exports)| == |exports|
    ensures forall m | 0 <= m < |exports| :: IsEntry(LocalExports(j, st, exports)[m], j, st, exports[m])
  {
    if exports != [] {
      var n := |exports| - 1;
      EntriesInOrder(j, st, exports[..n]);
      EntryIsThat(j, st, exports[n]);
      forall m | 0 <= m < |exports|
        ensures IsEntry(LocalExports(j, st, exports)[m], j, st, exports[m])
      {
        if m < n {
          assert exports[..n][m] == exports[m];
        }
      }
    }
  }

  /** How many exports the first `k` jobs declare. */
  ghost function DeclaredBefore(js: seq<Job>, k: nat): nat
    requires k <= |js|
  {
    if k == 0 then 0 else
      DeclaredBefore(js, k - 1) + |js[k - 1].exports| + ExportsBefore(js[k - 1].steps, |js[k - 1].steps|)
  }

  lemma {:induction false} ExportCount(js: seq<Job>, defs: seq<Built>, k: nat)
    requires k <= |js| && k <= |defs|
    ensures |ExportsInTurn(js, defs, k)| == DeclaredBefore(js, k)
  {
    if k > 0 {
      var j := js[k - 1];
      ExportCount(js, defs, k - 1);
      EntriesInOrder(j, defs[k - 1], CollectExports(j));
      CollectedInOrder(j);
    }
  }

  lemma {:induction false} ExportAt(js: seq<Job>, defs: seq<Built>, k: nat, i: nat, m: nat)
    requires k <= |js| && k <= |defs| && i < k && m < |CollectExports(js[i])|
    ensures DeclaredBefore(js, i) + m < |ExportsInTurn(js, defs, k)|
    ensures IsEntry(ExportsInTurn(js, defs, k)[DeclaredBefore(js, i) + m], js[i], defs[i], CollectExports(js[i])[m])
    decreases k
  {
    var before, block := ExportsInTurn(js, defs, k - 1), LocalExports(js[k - 1], defs[k - 1], CollectExports(js[k - 1]));
    ExportCount(js, defs, k - 1);
    if i < k - 1 {
      ExportAt(js, defs, k - 1, i, m);
      InFront(before, block, DeclaredBefore(js, i) + m);
    } else {
      EntriesInOrder(js[i], defs[i], CollectExports(js[i]));
      InBack(before, block, m);
    }
  }

  lemma InFront(before: seq<LocalExport>, block: seq<LocalExport>, l: nat)
    requires l < |before|
    ensures (before + block)[l] == before[l]
  {
  }

  lemma InBack(before: seq<LocalExport>, block: seq<LocalExport>, m: nat)
    requires m < |block|
    ensures (before + block)[|before| + m] == block[m]
  {
  }

  lemma {:induction false} ExportComesFrom(js: seq<Job>, defs: seq<Built>, k: nat, l: nat) returns (i: nat, e: Export)
    requires k <= |js| && k <= |defs| && l < |ExportsInTurn(js, defs, k)|
    ensures i < k && Declares(js[i], e) && IsEntry(ExportsInTurn(js, defs, k)[l], js[i], defs[i], e)
    decreases k
  {
    var before := ExportsInTurn(js, defs, k - 1);
    if l < |before| {
      i, e := ExportComesFrom(js, defs, k - 1, l);
    } else {
      i := k - 1;
      EntriesInOrder(js[i], defs[i], CollectExports(js[i]));
      e := CollectExports(js[i])[l - |before|];
      CollectedExactly(js[i], e);
    }
  }

  /** `x` is the entry for an export of the job built at position `i`. */
  ghost predicate ExportOf(js: seq<Job>, r: BuildResult, x: LocalExport, i: nat, e: Export) {
    i < |js| && i < |r.definitions| && Declares(js[i], e) && IsEntry(x, js[i], r.definitions[i], e)
  }

  /** Every export of every built job and of each of its steps is handed out, with the state the job
      ended in, and nothing else is; there are as many entries as declarations. */
  lemma BuildHandsOutExports(js: seq<Job>, r: BuildResult)
    requires InTurn(js, |js|, r)
    ensures |r.exports| == DeclaredBefore(js, |js|)
    ensures forall i, e | 0 <= i < |js| && Declares(js[i], e) :: exists x :: x in r.exports && ExportOf(js, r, x, i, e)
    ensures forall x | x in r.exports :: exists i: nat, e: Export :: ExportOf(js, r, x, i, e)
  {
    ExportCount(js, r.definitions, |js|);
    forall i, e | 0 <= i < |js| && Declares(js[i], e)
      ensures exists x :: x in r.exports && ExportOf(js, r, x, i, e)
    {
      CollectedExactly(js[i], e);
      var m :| 0 <= m < |CollectExports(js[i])| && CollectExports(js[i])[m] == e;
      ExportAt(js, r.definitions, |js|, i, m);
      var x := r.exports[DeclaredBefore(js, i) + m];
      assert x in r.exports && ExportOf(js, r, x, i, e);
    }
    forall x | x in r.exports
      ensures exists i: nat, e: Export :: ExportOf(js, r, x, i, e)
    {
      var l :| 0 <= l < |r.exports| && r.exports[l] == x;
      var i, e := ExportComesFrom(js, r.definitions, |js|, l);
      assert ExportOf(js, r, x, i, e);
    }
  }

  /** `x` publishes the job built at position `i`. */
  ghost predicate PublishOf(js: seq<Job>, defs: seq<Built>, x: ImageExport, i: nat) {
    && i < |js| && i < |defs| && js[i].publish == Some(x.publish)
    && x.definition == defs[i] && x.jobName == js[i].name && x.platform == js[i].platform
  }

  lemma {:induction false} ImagesExactly(js: seq<Job>, defs: seq<Built>, k: nat, x: ImageExport)
    requires k <= |js| && k <= |defs|
    ensures x in ImagesInTurn(js, defs, k) <==> exists i :: 0 <= i < k && PublishOf(js, defs, x, i)
  {
    if k > 0 {
      ImagesExactly(js, defs, k - 1, x);
      assert PublishOf(js, defs, x, k - 1) ==> x in ImagesInTurn(js, defs, k);
      assert x in ImagesInTurn(js, defs, k) && x !in ImagesInTurn(js, defs, k - 1) ==> PublishOf(js, defs, x, k - 1);
    }
  }

  /** Exactly the jobs with a publish target are published, each in the state it ended in. */
  lemma BuildHandsOutImages(js: seq<Job>, r: BuildResult, x: ImageExport)
    requires InTurn(js, |js|, r)
    ensures x in r.imageExports <==> exists i :: 0 <= i < |js| && PublishOf(js, r.definitions, x, i)
  {
    ImagesExactly(js, r.definitions, |js|, x);
  }

  // ----- The same for the jobs of a pipeline, in whatever order they were built -----

  ghost predicate HandedOut(jobs: seq<Job>, r: BuildResult, x: LocalExport, j: Job, e: Export) {
    && j in jobs && Declares(j, e)
    && exists i :: 0 <= i < |r.definitions| && i < |r.jobNames|
                   && r.jobNames[i] == j.name && IsEntry(x, j, r.definitions[i], e)
  }

  lemma ExportIsHandedOut(jobs: seq<Job>, js: seq<Job>, r: BuildResult, x: LocalExport, i: nat, e: Export)
    requires InTurn(js, |js|, r) && ExportOf(js, r, x, i, e) && js[i] in jobs
    ensures HandedOut(jobs, r, x, js[i], e)
  {
    assert js[..|js|] == js;
    assert r.jobNames[i] == js[i].name;
  }

  lemma DeclaredIsHandedOut(jobs: seq<Job>, js: seq<Job>, r: BuildResult, j: Job, e: Export)
    requires InTurn(js, |js|, r) && j in js && j in jobs && Declares(j, e)
    ensures exists x :: x in r.exports && HandedOut(jobs, r, x, j, e)
  {
    BuildHandsOutExports(js, r);
    var i :| 0 <= i < |js| && js[i] == j;
    var x :| x in r.exports && ExportOf(js, r, x, i, e);
    ExportIsHandedOut(jobs, js, r, x, i, e);
  }

  lemma HandedOutIsDeclared(jobs: seq<Job>, js: seq<Job>, r: BuildResult, x: LocalExport)
    requires InTurn(js, |js|, r) && x in r.exports && forall j | j in js :: j in jobs
    ensures exists j, e :: HandedOut(jobs, r, x, j, e)
  {
    BuildHandsOutExports(js, r);
    var i: nat, e: Export :| ExportOf(js, r, x, i, e);
    assert ExportOf(js, r, x, i, e) && js[i] in js;
    ExportIsHandedOut(jobs, js, r, x, i, e);
  }

  /** The exports a build hands out are those its jobs declare, on themselves or on a step. */
  lemma PipelineExports(jobs: seq<Job>, order: seq<nat>, r: BuildResult)
    requires IsPermutation(order, |jobs|) && InTurn(Ordered(jobs, order), |order|, r)
    ensures forall j, e | j in jobs && Declares(j, e) :: exists x :: x in r.exports && HandedOut(jobs, r, x, j, e)
    ensures forall x | x in r.exports :: exists j, e :: HandedOut(jobs, r, x, j, e)
  {
    var js := Ordered(jobs, order);
    OrderedHasAllJobs(jobs, order);
    forall j, e | j in jobs && Declares(j, e)
      ensures exists x :: x in r.exports && HandedOut(jobs, r, x, j, e)
    {
      DeclaredIsHandedOut(jobs, js, r, j, e);
    }
    forall x | x in r.exports
      ensures exists j, e :: HandedOut(jobs, r, x, j, e)
    {
      HandedOutIsDeclared(jobs, js, r, x);
    }
  }
}
