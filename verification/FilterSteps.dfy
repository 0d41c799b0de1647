/** Filter flags that name a step: which flags are refused, and what is left of a job
    (pkg/pipeline/filter.go). */
module FilterSteps {
  import opened DependencyGraph
  import opened Wrappers
  import opened Pipeline
  import opened Builder
  import opened Filter
  import opened FilterMeaning

  // ----- Which targets exist -----

  /** The job at `i` is the last one called `n`, the one a map filled in order holds. */
  ghost predicate IsLastNamed(jobs: seq<Job>, i: nat, n: Name) {
    i < |jobs| && jobs[i].name == n && forall k | i < k < |jobs| :: jobs[k].name != n
  }

  lemma {:induction false} ByNameIsLast(jobs: seq<Job>, i: nat, n: Name)
    requires IsLastNamed(jobs, i, n)
    ensures n in ByName(jobs) && ByName(jobs)[n] == jobs[i]
  {
    if i < |jobs| - 1 {
      ByNameIsLast(jobs[..|jobs| - 1], i, n);
    }
  }

  lemma {:induction false} LastNamed(jobs: seq<Job>, n: Name) returns (i: nat)
    requires exists j :: j in jobs && j.name == n
    ensures IsLastNamed(jobs, i, n)
  {
    var last := |jobs| - 1;
    if jobs[last].name == n {
      i := last;
    } else {
      var j :| j in jobs && j.name == n;
      assert j in jobs[..last];
      i := LastNamed(jobs[..last], n);
    }
  }

  ghost predicate IsJobName(jobs: seq<Job>, n: Name) {
    exists j :: j in jobs && j.name == n
  }

  /** The target names a job, and a step of that job if it names a step. */
  ghost predicate TargetExists(jobs: seq<Job>, t: Target) {
    exists i: nat :: IsLastNamed(jobs, i, t.job) && (t.step == "" || exists s :: s in jobs[i].steps && s.name == t.step)
  }

  ghost predicate NotGiven(t: Target) {
    t.job == "" && t.step == ""
  }

  lemma JobIsKnown(jobs: seq<Job>, n: Name)
    ensures n in ByName(jobs) <==> IsJobName(jobs, n)
  {
    GraphNodes(jobs, n);
    if j :| j in jobs && j.name == n {
      var i :| 0 <= i < |jobs| && jobs[i] == j;
    }
  }

  lemma TargetExistsIn(jobs: seq<Job>, t: Target)
    ensures TargetExists(jobs, t) ==> IsJobName(jobs, t.job)
    ensures IsJobName(jobs, t.job) ==> t.job in ByName(jobs)
    ensures IsJobName(jobs, t.job) ==>
              (TargetExists(jobs, t) <==> t.step == "" || HasStep(ByName(jobs)[t.job], t.step))
  {
    JobIsKnown(jobs, t.job);
    if TargetExists(jobs, t) {
      var i: nat :| IsLastNamed(jobs, i, t.job) && (t.step == "" || exists s :: s in jobs[i].steps && s.name == t.step);
      assert jobs[i] in jobs;
      ByNameIsLast(jobs, i, t.job);
    } else if IsJobName(jobs, t.job) {
      var i := LastNamed(jobs, t.job);
      ByNameIsLast(jobs, i, t.job);
    }
  }

  /** A given flag is refused exactly if its target does not exist, and the error tells why. */
  lemma TargetErrorExactly(jobs: seq<Job>, t: Target, unknownJob: FilterError, unknownStep: FilterError)
    ensures var e := TargetError(t, ByName(jobs), unknownJob, unknownStep);
            && (e.None? <==> NotGiven(t) || (t.job != "" && TargetExists(jobs, t)))
            && (t.job == "" && t.step != "" ==> e == Some(OrphanedStep))
            && (t.job != "" && !IsJobName(jobs, t.job) ==> e == Some(unknownJob))
            && (t.job != "" && IsJobName(jobs, t.job) && !TargetExists(jobs, t) ==> e == Some(unknownStep))
  {
    JobIsKnown(jobs, t.job);
    TargetExistsIn(jobs, t);
  }

  /** Both flags are accepted exactly if what they name exists; start-at is reported first. */
  lemma TargetsErrorExactly(jobs: seq<Job>, s: Target, t: Target)
    ensures TargetsOk(jobs, s, t) <==>
              && (NotGiven(s) || (s.job != "" && TargetExists(jobs, s)))
              && (NotGiven(t) || (t.job != "" && TargetExists(jobs, t)))
    ensures s.job != "" && !IsJobName(jobs, s.job) ==> TargetsError(jobs, s, t) == Some(UnknownStartAt)
    ensures s.job != "" && IsJobName(jobs, s.job) && !TargetExists(jobs, s) ==>
              TargetsError(jobs, s, t) == Some(UnknownStartAtStep)
    ensures s.job == "" && s.step != "" ==> TargetsError(jobs, s, t) == Some(OrphanedStep)
    ensures NotGiven(s) || (s.job != "" && TargetExists(jobs, s)) ==>
              && (t.job != "" && !IsJobName(jobs, t.job) ==> TargetsError(jobs, s, t) == Some(UnknownStopAfter))
              && (t.job != "" && IsJobName(jobs, t.job) && !TargetExists(jobs, t) ==>
                    TargetsError(jobs, s, t) == Some(UnknownStopAfterStep))
              && (t.job == "" && t.step != "" ==> TargetsError(jobs, s, t) == Some(OrphanedStep))
  {
    TargetErrorExactly(jobs, s, UnknownStartAt, UnknownStartAtStep);
    TargetErrorExactly(jobs, t, UnknownStopAfter, UnknownStopAfterStep);
  }

  // ----- What is left of a job -----

  /** The target names the step at `i` of this job: the first step of that name. */
  ghost predicate NamesStep(t: Target, j: Job, i: nat) {
    && t.step != "" && j.name == t.job
    && i < |j.steps| && j.steps[i].name == t.step && forall k | 0 <= k < i :: j.steps[k].name != t.step
  }

  lemma TrimIndexNamesStep(j: Job, t: Target)
    ensures forall i: nat :: NamesStep(t, j, i) <==> TrimIndex(j, t) == i
  {
    var k := StepIndex(j.steps, t.step);
    forall i: nat
      ensures NamesStep(t, j, i) <==> TrimIndex(j, t) == i
    {
      if NamesStep(t, j, i) {
        assert j.steps[i] in j.steps;
      }
    }
  }

  /** The step window is empty exactly if start-at names a later step than stop-after in one job. */
  lemma EmptyWindowExactly(j: Job, s: Target, t: Target)
    ensures EmptyWindowIn(j, s, t) <==> exists i: nat, k: nat :: NamesStep(s, j, i) && NamesStep(t, j, k) && k < i
  {
    TrimIndexNamesStep(j, s);
    TrimIndexNamesStep(j, t);
    if EmptyWindowIn(j, s, t) {
      var i: nat, k: nat := TrimIndex(j, s), TrimIndex(j, t);
      assert NamesStep(s, j, i) && NamesStep(t, j, k);
    }
  }

  /** The exports of a kept job's step: none outside the window and none before the step start-at
      names. */
  ghost predicate StepExportsKept(j: Job, s: Target, window: set<Name>, i: nat) {
    j.name in window && forall k: nat | NamesStep(s, j, k) :: k <= i
  }

  /** Stop-after leaves the steps up to the one it names, start-at leaves all steps and takes the
      exports of the earlier ones; otherwise a step is untouched. */
  lemma StepsLeft(j: Job, s: Target, t: Target, window: set<Name>, out: Job)
    requires FilteredJob(j, s, t, window, out)
    ensures forall i: nat | NamesStep(t, j, i) :: |out.steps| == i + 1
    ensures (forall i: nat :: !NamesStep(t, j, i)) ==> |out.steps| == |j.steps|
    ensures |out.steps| <= |j.steps|
    ensures forall i | 0 <= i < |out.steps| ::
              out.steps[i] == if StepExportsKept(j, s, window, i) then j.steps[i] else j.steps[i].(exports := [])
  {
    FilteredSteps(j, s, t, window, out);
    TrimIndexNamesStep(j, s);
    TrimIndexNamesStep(j, t);
    KeepSparesTargets(j, window, s);
    KeepSparesTargets(j, window, t);
    TrimmedSteps(Keep(j, window), s, t);
    assert TrimIndex(j, t) >= 0 ==> NamesStep(t, j, TrimIndex(j, t));
    assert TrimIndex(j, s) >= 0 ==> NamesStep(s, j, TrimIndex(j, s));
  }
}
