/** The concurrent scheduler of internal/runner/runner.go as interleaved atomic steps.

    One goroutine per job waits for its dependencies' done channels, takes a semaphore slot,
    solves, gives the slot back, closes its own done channel and only then hands its error to
    the errgroup, which records the first one and cancels the shared context. */
module Scheduler {
  import opened DependencyGraph
  import opened Finite
  import opened Wrappers

  datatype Failure =
    | Cancelled
    | SolveFailed
    | DependencyFailed(dep: Name, cause: Failure)
    | ExportFailed
    | PublishFailed

  /** Where a goroutine stands in `runNode`. `Waiting(k)` has seen its first `k` dependencies
      finish; with all of them seen it is blocked in the semaphore. The later phases are the
      deferred calls in the order Go runs them: release, close, return. */
  datatype Phase =
    | Waiting(next: nat)
    | Solving
    | Releasing
    | Closing
    | Returning
    | Exited

  datatype MainPhase =
    | JobPhase
    | ExportPhase
    | PublishPhase
    | Returned(result: Option<Failure>)

  /** `entered`, `solved` and `failed` record which jobs ever called Solve and how it ended;
      `closes` counts how often each done channel was closed. */
  datatype State = State(
    phase: map<Name, Phase>,
    err: map<Name, Option<Failure>>,
    closes: map<Name, nat>,
    free: int,
    cancelled: bool,
    groupErr: Option<Failure>,
    entered: set<Name>,
    solved: set<Name>,
    failed: set<Name>,
    interrupted: bool,
    main: MainPhase)

  datatype Step =
    | PassDependency(n: Name)
    | SeeFailedDependency(n: Name)
    | StopWaiting(n: Name)
    | TakeSlot(n: Name)
    | SolveOk(n: Name)
    | SolveFail(n: Name)
    | ReleaseSlot(n: Name)
    | CloseDone(n: Name)
    | ReturnToGroup(n: Name)
    | Interrupt
    | JoinJobs
    | FinishExports(ok: bool)
    | FinishPublishes(ok: bool)

  /** The number of semaphore slots `Run` asks for. */
  function SlotLimit(jobCount: nat, parallelism: int): (limit: int)
    ensures jobCount > 0 ==> limit >= 1
    ensures limit != jobCount ==> limit == parallelism
  {
    if parallelism > 0 then parallelism else jobCount
  }

  function Init(g: Graph, limit: int): State {
    State(
      map n | n in g :: Waiting(0),
      map n | n in g :: None,
      map n | n in g :: 0,
      limit, false, None, {}, {}, {}, false, JobPhase)
  }

  predicate IsWaitingOn(g: Graph, s: State, n: Name) {
    n in g && n in s.phase && s.phase[n].Waiting? && s.phase[n].next < |g[n]|
  }

  predicate IsAcquiring(g: Graph, s: State, n: Name) {
    n in g && n in s.phase && s.phase[n].Waiting? && s.phase[n].next == |g[n]|
  }

  predicate DoneClosed(s: State, n: Name) {
    n in s.closes && n in s.err && s.closes[n] > 0
  }

  predicate InPhase(s: State, n: Name, p: Phase) {
    n in s.phase && n in s.err && n in s.closes && s.phase[n] == p
  }

  predicate AllExited(s: State) {
    forall n | n in s.phase :: s.phase[n].Exited?
  }

  predicate Enabled(g: Graph, s: State, step: Step) {
    match step
    case PassDependency(n) =>
      IsWaitingOn(g, s, n) && var d := g[n][s.phase[n].next]; DoneClosed(s, d) && s.err[d].None?
    case SeeFailedDependency(n) =>
      IsWaitingOn(g, s, n) && var d := g[n][s.phase[n].next]; DoneClosed(s, d) && s.err[d].Some?
    case StopWaiting(n) => (IsWaitingOn(g, s, n) || IsAcquiring(g, s, n)) && s.cancelled
    case TakeSlot(n) => IsAcquiring(g, s, n) && s.free > 0
    case SolveOk(n) => InPhase(s, n, Solving)
    case SolveFail(n) => InPhase(s, n, Solving)
    case ReleaseSlot(n) => InPhase(s, n, Releasing)
    case CloseDone(n) => InPhase(s, n, Closing)
    case ReturnToGroup(n) => InPhase(s, n, Returning)
    case Interrupt => !s.interrupted
    case JoinJobs => s.main.JobPhase? && AllExited(s)
    case FinishExports(_) => s.main.ExportPhase?
    case FinishPublishes(_) => s.main.PublishPhase?
  }

  function Apply(g: Graph, s: State, step: Step): State
    requires Enabled(g, s, step)
  {
    match step
    case PassDependency(n) => s.(phase := s.phase[n := Waiting(s.phase[n].next + 1)])
    case SeeFailedDependency(n) =>
      var d := g[n][s.phase[n].next];
      s.(phase := s.phase[n := Closing],
         err := s.err[n := Some(DependencyFailed(d, s.err[d].value))])
    case StopWaiting(n) => s.(phase := s.phase[n := Closing], err := s.err[n := Some(Cancelled)])
    case TakeSlot(n) =>
      s.(phase := s.phase[n := Solving], free := s.free - 1, entered := s.entered + {n})
    case SolveOk(n) => s.(phase := s.phase[n := Releasing], solved := s.solved + {n})
    case SolveFail(n) =>
      s.(phase := s.phase[n := Releasing], err := s.err[n := Some(SolveFailed)],
         failed := s.failed + {n})
    case ReleaseSlot(n) => s.(phase := s.phase[n := Closing], free := s.free + 1)
    case CloseDone(n) =>
      s.(phase := s.phase[n := Returning], closes := s.closes[n := s.closes[n] + 1])
    case ReturnToGroup(n) =>
      if s.err[n].Some? && s.groupErr.None? then
        s.(phase := s.phase[n := Exited], groupErr := s.err[n], cancelled := true)
      else
        s.(phase := s.phase[n := Exited])
    case Interrupt => s.(interrupted := true, cancelled := true)
    case JoinJobs =>
      s.(main := if s.groupErr.Some? then Returned(s.groupErr) else ExportPhase)
    case FinishExports(ok) =>
      s.(main := if ok then PublishPhase else Returned(Some(ExportFailed)))
    case FinishPublishes(ok) =>
      s.(main := Returned(if ok then None else Some(PublishFailed)))
  }

  ghost predicate Next(g: Graph, s: State, s': State) {
    exists step :: Enabled(g, s, step) && s' == Apply(g, s, step)
  }

  ghost predicate StepAt(g: Graph, t: seq<State>, i: nat) {
    i + 1 < |t| && Next(g, t[i], t[i + 1])
  }

  ghost predicate IsRun(g: Graph, limit: int, t: seq<State>) {
    && t != []
    && t[0] == Init(g, limit)
    && forall i | 0 <= i < |t| - 1 :: StepAt(g, t, i)
  }

  // ----- The invariant -----

  /** The job's Solve ended with a nil error and its done channel says so. */
  ghost predicate Succeeded(s: State, n: Name) {
    DoneClosed(s, n) && s.err[n].None? && n in s.solved
  }

  ghost predicate PhaseOk(g: Graph, s: State, n: Name)
    requires n in g && n in s.phase && n in s.err && n in s.closes
  {
    var p := s.phase[n];
    && (p.Waiting? ==> p.next <= |g[n]| && forall i | 0 <= i < p.next :: Succeeded(s, g[n][i]))
    && (p.Waiting? || p.Solving? ==> s.err[n].None? && n !in s.solved && n !in s.failed)
    && (n in s.entered <==> p.Solving? || n in s.solved || n in s.failed)
    && (n in s.entered ==> forall d | d in g[n] :: Succeeded(s, d))
    && (p.Releasing? ==> n in s.entered)
    && s.closes[n] == (if p.Returning? || p.Exited? then 1 else 0)
  }

  ghost predicate ErrorOk(g: Graph, s: State, n: Name)
    requires n in g && n in s.phase && n in s.err && n in s.closes
  {
    && (n in s.solved ==> s.err[n].None?)
    && (!s.phase[n].Waiting? && !s.phase[n].Solving? && s.err[n].None? ==> n in s.solved)
    && (n in s.failed <==> s.err[n] == Some(SolveFailed))
    && (s.err[n].Some? ==>
          match s.err[n].value
          case Cancelled => true
          case SolveFailed => true
          case DependencyFailed(d, f) => d in g[n] && DoneClosed(s, d) && s.err[d] == Some(f)
          case _ => false)
    && (s.err[n].Some? ==> Explained(s, s.err[n].value))
  }

  /** The innermost error of a chain of `dependency %q: %w` wrappers. */
  function Root(f: Failure): Failure {
    match f
    case DependencyFailed(_, cause) => Root(cause)
    case _ => f
  }

  ghost predicate Explained(s: State, f: Failure) {
    && (Root(f).Cancelled? || Root(f).SolveFailed?)
    && (Root(f).Cancelled? ==> s.cancelled)
    && (Root(f).SolveFailed? ==> s.failed != {})
  }

  ghost predicate NodeOk(g: Graph, s: State, n: Name) {
    && n in g && n in s.phase && n in s.err && n in s.closes
    && PhaseOk(g, s, n)
    && ErrorOk(g, s, n)
  }

  /** The jobs that hold a semaphore slot. */
  ghost function Holding(phase: map<Name, Phase>): set<Name> {
    set n | n in phase && HoldsSlot(phase[n])
  }

  predicate HoldsSlot(p: Phase) {
    p.Solving? || p.Releasing?
  }

  ghost predicate GroupOk(g: Graph, s: State) {
    && (s.cancelled <==> s.interrupted || s.groupErr.Some?)
    && (s.groupErr.Some? ==>
          exists n :: n in g && InPhase(s, n, Exited) && s.err[n] == s.groupErr)
    && (s.groupErr.None? ==> forall n | InPhase(s, n, Exited) :: s.err[n].None?)
    && (s.groupErr.Some? && Root(s.groupErr.value).Cancelled? ==> s.interrupted)
  }

  ghost predicate MainOk(s: State) {
    && (!s.main.JobPhase? ==> AllExited(s))
    && (s.main.ExportPhase? || s.main.PublishPhase? ==> s.groupErr.None?)
    && (s.main.Returned? ==>
          if s.groupErr.Some? then s.main.result == s.groupErr
          else s.main.result in {None, Some(ExportFailed), Some(PublishFailed)})
  }

  ghost predicate Inv(g: Graph, limit: int, s: State) {
    && s.phase.Keys == s.err.Keys == s.closes.Keys == g.Keys
    && s.entered <= g.Keys && s.solved <= g.Keys && s.failed <= g.Keys
    && (forall n | n in g :: NodeOk(g, s, n))
    && s.free >= 0 && s.free + |Holding(s.phase)| == limit
    && GroupOk(g, s)
    && MainOk(s)
  }

  lemma InitInv(g: Graph, limit: int)
    requires limit >= 0
    ensures Inv(g, limit, Init(g, limit))
  {
    assert Holding(Init(g, limit).phase) == {};
  }

  /** Done channels stay closed and keep reporting the same outcome; cancellation is final. */
  ghost predicate Extends(s: State, s': State) {
    && (forall d | DoneClosed(s, d) :: DoneClosed(s', d) && s'.err[d] == s.err[d])
    && s.solved <= s'.solved
    && s.failed <= s'.failed
    && (s.cancelled ==> s'.cancelled)
  }

  ghost predicate SameNode(s: State, s': State, n: Name) {
    && n in s.phase && n in s'.phase && s.phase[n] == s'.phase[n]
    && n in s.err && n in s'.err && s.err[n] == s'.err[n]
    && n in s.closes && n in s'.closes && s.closes[n] == s'.closes[n]
    && (n in s.entered <==> n in s'.entered)
    && (n in s.solved <==> n in s'.solved)
    && (n in s.failed <==> n in s'.failed)
  }

  ghost function Subjects(step: Step): set<Name> {
    match step
    case Interrupt => {}
    case JoinJobs => {}
    case FinishExports(_) => {}
    case FinishPublishes(_) => {}
    case _ => {step.n}
  }

  lemma StepSpares(g: Graph, s: State, step: Step, n: Name)
    requires Enabled(g, s, step) && n !in Subjects(step)
    requires n in s.phase && n in s.err && n in s.closes
    ensures SameNode(s, Apply(g, s, step), n)
  {
  }

  lemma StepExtends(g: Graph, s: State, step: Step)
    requires Enabled(g, s, step)
    requires forall n | n in Subjects(step) :: NodeOk(g, s, n)
    ensures Extends(s, Apply(g, s, step))
  {
    var s' := Apply(g, s, step);
    forall d | DoneClosed(s, d)
      ensures DoneClosed(s', d) && s'.err[d] == s.err[d]
    {
      if d in Subjects(step) {
        assert NodeOk(g, s, d);
      }
    }
  }

  lemma SparedNodeStaysOk(g: Graph, s: State, s': State, n: Name)
    requires NodeOk(g, s, n) && SameNode(s, s', n) && Extends(s, s')
    ensures NodeOk(g, s', n)
  {
    forall d | Succeeded(s, d)
      ensures Succeeded(s', d)
    {
    }
  }

  lemma MovedNodeStaysOk(g: Graph, s: State, step: Step, n: Name)
    requires Enabled(g, s, step) && n in Subjects(step) && NodeOk(g, s, n)
    requires Extends(s, Apply(g, s, step))
    requires forall d | d in g[n] :: NodeOk(g, s, d)
    ensures NodeOk(g, Apply(g, s, step), n)
  {
    var s' := Apply(g, s, step);
    forall d | Succeeded(s, d)
      ensures Succeeded(s', d)
    {
    }
    if step.PassDependency? || step.SeeFailedDependency? {
      assert NodeOk(g, s, g[n][s.phase[n].next]);
    }
  }

  lemma StepKeepsNodes(g: Graph, limit: int, s: State, step: Step)
    requires Closed(g) && Inv(g, limit, s) && Enabled(g, s, step)
    ensures forall n | n in g :: NodeOk(g, Apply(g, s, step), n)
  {
    StepExtends(g, s, step);
    forall n | n in g
      ensures NodeOk(g, Apply(g, s, step), n)
    {
      assert NodeOk(g, s, n);
      if n in Subjects(step) {
        forall d | d in g[n]
          ensures NodeOk(g, s, d)
        {
          assert Edge(g, n, d);
        }
        MovedNodeStaysOk(g, s, step, n);
      } else {
        StepSpares(g, s, step, n);
        SparedNodeStaysOk(g, s, Apply(g, s, step), n);
      }
    }
  }

  lemma HoldingAfterMove(phase: map<Name, Phase>, n: Name, p: Phase)
    requires n in phase
    ensures HoldsSlot(phase[n]) == HoldsSlot(p) ==> Holding(phase[n := p]) == Holding(phase)
    ensures !HoldsSlot(phase[n]) && HoldsSlot(p) ==>
              |Holding(phase[n := p])| == |Holding(phase)| + 1
    ensures HoldsSlot(phase[n]) && !HoldsSlot(p) ==>
              |Holding(phase[n := p])| == |Holding(phase)| - 1
  {
    var before, after := Holding(phase), Holding(phase[n := p]);
    if HoldsSlot(p) {
      assert after == before + {n};
    } else {
      assert after == before - {n};
    }
  }

  /** A slot taken is a slot held until it is released. */
  lemma StepKeepsSlots(g: Graph, s: State, step: Step)
    requires Enabled(g, s, step) && s.free >= 0
    ensures var s' := Apply(g, s, step);
            s'.free >= 0 && s'.free + |Holding(s'.phase)| == s.free + |Holding(s.phase)|
  {
    if Subjects(step) != {} {
      HoldingAfterMove(s.phase, step.n, Apply(g, s, step).phase[step.n]);
    }
  }

  lemma StepKeepsGroup(g: Graph, s: State, step: Step)
    requires s.phase.Keys == s.err.Keys == s.closes.Keys == g.Keys
    requires Enabled(g, s, step) && GroupOk(g, s)
    requires forall n | n in Subjects(step) :: NodeOk(g, s, n)
    ensures GroupOk(g, Apply(g, s, step))
  {
    if step.ReturnToGroup? {
      ReturnKeepsGroup(g, s, step.n);
    } else if Subjects(step) != {} {
      StepMovesOne(g, s, step);
      NotYetExited(g, s, step);
      GroupAfterMove(g, s, Apply(g, s, step), step.n);
    }
  }

  lemma GroupAfterMove(g: Graph, s: State, s': State, n: Name)
    requires s.phase.Keys == s.err.Keys == s.closes.Keys == g.Keys
    requires GroupOk(g, s) && n in s.phase && MovesOne(s, s', n)
    requires !s.phase[n].Exited? && !s'.phase[n].Exited?
    requires s'.groupErr == s.groupErr && s'.cancelled == s.cancelled
    ensures GroupOk(g, s')
  {
    if s.groupErr.Some? {
      var w :| w in g && InPhase(s, w, Exited) && s.err[w] == s.groupErr;
      assert InPhase(s', w, Exited) && s'.err[w] == s.groupErr;
    }
    forall m | InPhase(s', m, Exited)
      ensures InPhase(s, m, Exited) && s'.err[m] == s.err[m]
    {
    }
  }

  lemma ReturnKeepsGroup(g: Graph, s: State, n: Name)
    requires s.phase.Keys == s.err.Keys == s.closes.Keys == g.Keys
    requires Enabled(g, s, ReturnToGroup(n)) && GroupOk(g, s) && NodeOk(g, s, n)
    ensures GroupOk(g, Apply(g, s, ReturnToGroup(n)))
  {
    var s' := Apply(g, s, ReturnToGroup(n));
    assert InPhase(s', n, Exited) && s'.err == s.err;
    forall m | InPhase(s', m, Exited)
      ensures m == n || InPhase(s, m, Exited)
    {
    }
    if s.groupErr.Some? {
      var w :| w in g && InPhase(s, w, Exited) && s.err[w] == s.groupErr;
      assert InPhase(s', w, Exited);
    }
  }

  lemma NotYetExited(g: Graph, s: State, step: Step)
    requires Enabled(g, s, step) && Subjects(step) != {} && !step.ReturnToGroup?
    ensures step.n in s.phase && !s.phase[step.n].Exited?
    ensures step.n in Apply(g, s, step).phase && !Apply(g, s, step).phase[step.n].Exited?
    ensures Apply(g, s, step).groupErr == s.groupErr && Apply(g, s, step).cancelled == s.cancelled
  {
    match step
    case PassDependency(n) =>
    case SeeFailedDependency(n) =>
    case StopWaiting(n) =>
    case TakeSlot(n) =>
    case SolveOk(n) =>
    case SolveFail(n) =>
    case ReleaseSlot(n) =>
    case CloseDone(n) =>
  }

  lemma StepKeepsMain(g: Graph, s: State, step: Step)
    requires s.phase.Keys == s.err.Keys == s.closes.Keys == g.Keys
    requires Enabled(g, s, step) && MainOk(s)
    ensures MainOk(Apply(g, s, step))
  {
  }

  /** What every step of every interleaving keeps. */
  lemma StepKeepsInv(g: Graph, limit: int, s: State, step: Step)
    requires Closed(g) && Inv(g, limit, s) && Enabled(g, s, step)
    ensures Inv(g, limit, Apply(g, s, step))
  {
    StepKeepsNodes(g, limit, s, step);
    StepKeepsSlots(g, s, step);
    StepKeepsGroup(g, s, step);
    StepKeepsMain(g, s, step);
    StepKeepsKeys(g, s, step);
  }

  lemma StepKeepsKeys(g: Graph, s: State, step: Step)
    requires s.phase.Keys == s.err.Keys == s.closes.Keys == g.Keys
    requires s.entered <= g.Keys && s.solved <= g.Keys && s.failed <= g.Keys
    requires Enabled(g, s, step)
    ensures var s' := Apply(g, s, step);
            && s'.phase.Keys == s'.err.Keys == s'.closes.Keys == g.Keys
            && s'.entered <= g.Keys && s'.solved <= g.Keys && s'.failed <= g.Keys
  {
    if Subjects(step) != {} {
      StepMovesOne(g, s, step);
      KeysAfterMove(g, s, Apply(g, s, step), step.n);
    }
  }

  lemma KeysAfterMove(g: Graph, s: State, s': State, n: Name)
    requires s.phase.Keys == s.err.Keys == s.closes.Keys == g.Keys
    requires s.entered <= g.Keys && s.solved <= g.Keys && s.failed <= g.Keys
    requires n in s.phase && MovesOne(s, s', n)
    ensures s'.phase.Keys == s'.err.Keys == s'.closes.Keys == g.Keys
    ensures s'.entered <= g.Keys && s'.solved <= g.Keys && s'.failed <= g.Keys
  {
  }

  ghost predicate MovesOne(s: State, s': State, n: Name) {
    && n in s'.phase && s'.phase == s.phase[n := s'.phase[n]]
    && (s'.err == s.err || (n in s'.err && s'.err == s.err[n := s'.err[n]]))
    && (s'.closes == s.closes || (n in s'.closes && s'.closes == s.closes[n := s'.closes[n]]))
    && s'.entered <= s.entered + {n} && s'.solved <= s.solved + {n} && s'.failed <= s.failed + {n}
    && s'.interrupted == s.interrupted && s'.main == s.main
  }

  /** A step of a goroutine changes only that goroutine's entries. */
  lemma StepMovesOne(g: Graph, s: State, step: Step)
    requires Enabled(g, s, step) && Subjects(step) != {}
    ensures step.n in s.phase && MovesOne(s, Apply(g, s, step), step.n)
  {
    match step
    case PassDependency(n) =>
    case SeeFailedDependency(n) =>
    case StopWaiting(n) =>
    case TakeSlot(n) =>
    case SolveOk(n) =>
    case SolveFail(n) =>
    case ReleaseSlot(n) =>
    case CloseDone(n) =>
    case ReturnToGroup(n) =>
  }

  lemma NextKeepsInv(g: Graph, limit: int, s: State, s': State)
    requires Closed(g) && Inv(g, limit, s) && Next(g, s, s')
    ensures Inv(g, limit, s')
  {
    var step :| Enabled(g, s, step) && s' == Apply(g, s, step);
    StepKeepsInv(g, limit, s, step);
  }

  lemma {:induction false} RunKeepsInv(g: Graph, limit: int, t: seq<State>, i: nat)
    requires Closed(g) && limit >= 0 && IsRun(g, limit, t) && i < |t|
    ensures Inv(g, limit, t[i])
  {
    if i == 0 {
      InitInv(g, limit);
    } else {
      RunKeepsInv(g, limit, t, i - 1);
      assert StepAt(g, t, i - 1);
      NextKeepsInv(g, limit, t[i - 1], t[i]);
    }
  }

  // ----- Safety -----

  /** A job that ever entered Solve had every transitive dependency solved before. */
  lemma EnteredMeansDependenciesSolved(g: Graph, limit: int, s: State, n: Name, d: Name)
    requires Closed(g) && Inv(g, limit, s)
    requires n in s.entered && Reach(g, n, d) && d != n
    ensures Succeeded(s, d)
  {
    var good := set x | x in g && Succeeded(s, x);
    assert NodeOk(g, s, n);
    var m := FirstEdge(g, n, d);
    forall x, y | x in good && Edge(g, x, y)
      ensures y in good
    {
      assert NodeOk(g, s, x);
    }
    ClosedSetContains(g, good, m, d);
  }

  ghost function InSolve(s: State): set<Name> {
    set n | n in s.phase && s.phase[n].Solving?
  }

  /** In every state of every run: a job inside Solve has all its transitive dependencies
      solved without error, and no more jobs are inside Solve than there are slots. */
  lemma SolvingIsSafe(g: Graph, limit: int, t: seq<State>, i: nat)
    requires Closed(g) && limit >= 0 && IsRun(g, limit, t) && i < |t|
    ensures forall n, d | n in InSolve(t[i]) && Reach(g, n, d) && d != n :: Succeeded(t[i], d)
    ensures |InSolve(t[i])| <= limit
    ensures 0 <= t[i].free && t[i].free + |Holding(t[i].phase)| == limit
  {
    RunKeepsInv(g, limit, t, i);
    var s := t[i];
    forall n, d | n in InSolve(s) && Reach(g, n, d) && d != n
      ensures Succeeded(s, d)
    {
      assert NodeOk(g, s, n);
      EnteredMeansDependenciesSolved(g, limit, s, n, d);
    }
    if InSolve(s) != Holding(s.phase) {
      SmallerSet(InSolve(s), Holding(s.phase));
    }
  }

  // ----- Failure -----

  lemma StepKeepsError(g: Graph, s: State, step: Step, n: Name)
    requires Enabled(g, s, step) && NodeOk(g, s, n) && s.err[n].Some?
    ensures var s' := Apply(g, s, step); n in s'.err && s'.err[n] == s.err[n]
  {
    if n !in Subjects(step) {
      StepSpares(g, s, step, n);
    }
  }

  lemma ErrorStays(g: Graph, limit: int, s: State, s': State, n: Name)
    requires Inv(g, limit, s) && Next(g, s, s') && n in g && s.err[n].Some?
    ensures n in s'.err && s'.err[n] == s.err[n]
  {
    assert NodeOk(g, s, n);
    var step :| Enabled(g, s, step) && s' == Apply(g, s, step);
    StepKeepsError(g, s, step, n);
  }

  lemma ErrorSurvivesStep(g: Graph, limit: int, t: seq<State>, k: nat, n: Name)
    requires Closed(g) && limit >= 0 && IsRun(g, limit, t) && k + 1 < |t|
    requires n in g && n in t[k].err && t[k].err[n].Some?
    ensures n in t[k + 1].err && t[k + 1].err[n] == t[k].err[n]
  {
    assert StepAt(g, t, k);
    RunKeepsInv(g, limit, t, k);
    ErrorStays(g, limit, t[k], t[k + 1], n);
  }

  lemma {:induction false} ErrorsAreFinal(g: Graph, limit: int, t: seq<State>, i: nat, j: nat, n: Name)
    requires Closed(g) && limit >= 0 && IsRun(g, limit, t) && i <= j < |t|
    requires n in g && n in t[i].err && t[i].err[n].Some?
    ensures n in t[j].err && t[j].err[n] == t[i].err[n]
  {
    if i < j {
      ErrorsAreFinal(g, limit, t, i, j - 1, n);
      ErrorSurvivesStep(g, limit, t, j - 1, n);
    }
  }

  /** Once a job has an error, no transitive dependent enters Solve at any later time, and
      when the goroutines have exited each of them reports an error of its own. */
  lemma FailureStopsDependents(
    g: Graph, limit: int, t: seq<State>, i: nat, j: nat, n: Name, m: Name)
    requires Closed(g) && limit >= 0 && IsRun(g, limit, t) && i <= j < |t|
    requires n in g && n in t[i].err && t[i].err[n].Some?
    requires m in g && Reach(g, m, n) && m != n
    ensures m !in t[j].entered
    ensures AllExited(t[j]) ==> m in t[j].err && t[j].err[m].Some?
  {
    ErrorsAreFinal(g, limit, t, i, j, n);
    RunKeepsInv(g, limit, t, j);
    assert NodeOk(g, t[j], m);
    if m in t[j].entered {
      EnteredMeansDependenciesSolved(g, limit, t[j], m, n);
    }
  }

  /** The dependency chain in an error is a real chain of dependencies: it ends at a job whose
      own Solve failed or which was cancelled. */
  lemma {:induction false} ErrorNamesItsCause(g: Graph, limit: int, s: State, n: Name) returns (c: Name)
    requires Closed(g) && Inv(g, limit, s) && n in g && s.err[n].Some?
    ensures c in g && Reach(g, n, c) && s.err[c] == Some(Root(s.err[n].value))
    ensures Root(s.err[n].value).SolveFailed? ==> c in s.failed
    decreases s.err[n].value
  {
    assert NodeOk(g, s, n);
    if s.err[n].value.DependencyFailed? {
      var d := s.err[n].value.dep;
      assert Edge(g, n, d);
      c := ErrorNamesItsCause(g, limit, s, d);
      ReachEdge(g, n, d);
      ReachTrans(g, n, d, c);
    } else {
      c := n;
      ReachSelf(g, n);
      assert Root(s.err[n].value) == s.err[n].value;
    }
  }

  // ----- Progress -----

  ghost predicate CanStep(g: Graph, s: State) {
    exists step :: step != Interrupt && Enabled(g, s, step)
  }

  /** An unfinished job all of whose dependencies have exited, found by descending the DAG. */
  lemma {:induction false} LowestUnfinished(g: Graph, s: State, n: Name) returns (m: Name)
    requires Dag(g) && s.phase.Keys == g.Keys
    requires n in g && !s.phase[n].Exited?
    ensures m in g && !s.phase[m].Exited?
    ensures forall d | d in g[m] :: d in g && s.phase[d].Exited?
    decreases |Below(g, n)|
  {
    forall d | d in g[n]
      ensures d in g
    {
      assert Edge(g, n, d);
    }
    if d :| d in g[n] && !s.phase[d].Exited? {
      assert Edge(g, n, d);
      BelowShrinks(g, n, d);
      m := LowestUnfinished(g, s, d);
    } else {
      m := n;
    }
  }

  /** A job that cannot get a slot is never alone: whoever holds one can move. */
  lemma SlotFreesUp(g: Graph, limit: int, s: State)
    requires limit >= 1 && Inv(g, limit, s) && s.free == 0
    ensures CanStep(g, s)
  {
    assert Holding(s.phase) != {};
    var h :| h in Holding(s.phase);
    if s.phase[h].Solving? {
      assert Enabled(g, s, SolveOk(h));
    } else {
      assert Enabled(g, s, ReleaseSlot(h));
    }
  }

  lemma LowestCanStep(g: Graph, limit: int, s: State, m: Name)
    requires limit >= 1 && Inv(g, limit, s)
    requires m in g && !s.phase[m].Exited?
    requires forall d | d in g[m] :: d in g && s.phase[d].Exited?
    ensures CanStep(g, s)
  {
    assert NodeOk(g, s, m);
    match s.phase[m]
    case Waiting(k) =>
      if k < |g[m]| {
        var d := g[m][k];
        assert NodeOk(g, s, d) && DoneClosed(s, d);
        var step := if s.err[d].None? then PassDependency(m) else SeeFailedDependency(m);
        assert Enabled(g, s, step);
      } else if s.free > 0 {
        assert Enabled(g, s, TakeSlot(m));
      } else {
        SlotFreesUp(g, limit, s);
      }
    case Solving => assert Enabled(g, s, SolveOk(m));
    case Releasing => assert Enabled(g, s, ReleaseSlot(m));
    case Closing => assert Enabled(g, s, CloseDone(m));
    case Returning => assert Enabled(g, s, ReturnToGroup(m));
  }

  /** No deadlock: a state in which `Run` has not returned has an enabled step that is not an
      outside interrupt, because slots are only taken after all dependencies have finished. */
  lemma NeverStuck(g: Graph, limit: int, s: State)
    requires Dag(g) && limit >= 1 && Inv(g, limit, s) && !s.main.Returned?
    ensures CanStep(g, s)
  {
    if n :| n in g && !s.phase[n].Exited? {
      var m := LowestUnfinished(g, s, n);
      LowestCanStep(g, limit, s, m);
    } else {
      var step := match s.main
        case JobPhase => JoinJobs
        case ExportPhase => FinishExports(true)
        case _ => FinishPublishes(true);
      assert Enabled(g, s, step);
    }
  }

  // ----- Termination -----

  ghost function Total(cost: map<Name, nat>): nat
    decreases |cost|
  {
    if cost == map[] then 0 else
      var n :| n in cost;
      OneFewer(cost, n);
      cost[n] + Total(cost - {n})
  }

  lemma OneFewer(cost: map<Name, nat>, n: Name)
    requires n in cost
    ensures |cost - {n}| < |cost|
  {
    assert cost.Keys == (cost - {n}).Keys + {n};
  }

  lemma {:induction false} TotalSplit(cost: map<Name, nat>, n: Name)
    requires n in cost
    ensures Total(cost) == cost[n] + Total(cost - {n})
    decreases |cost|
  {
    var m :| m in cost && Total(cost) == cost[m] + Total(cost - {m});
    if m != n {
      OneFewer(cost, m);
      OneFewer(cost, n);
      TotalSplit(cost - {m}, n);
      TotalSplit(cost - {n}, m);
      assert cost - {m} - {n} == cost - {n} - {m};
    }
  }

  lemma TotalUpdate(cost: map<Name, nat>, n: Name, c: nat)
    requires n in cost
    ensures Total(cost[n := c]) == Total(cost) - cost[n] + c
  {
    TotalSplit(cost, n);
    TotalSplit(cost[n := c], n);
    assert cost[n := c] - {n} == cost - {n};
  }

  /** How many steps a goroutine has left. */
  function StepsLeft(deps: nat, p: Phase): nat {
    match p
    case Waiting(k) => (if k <= deps then deps - k else 0) + 5
    case Solving => 4
    case Releasing => 3
    case Closing => 2
    case Returning => 1
    case Exited => 0
  }

  ghost function Costs(g: Graph, phase: map<Name, Phase>): map<Name, nat>
    requires phase.Keys == g.Keys
  {
    map n | n in g :: StepsLeft(|g[n]|, phase[n])
  }

  ghost function Measure(g: Graph, s: State): nat
    requires s.phase.Keys == g.Keys
  {
    Total(Costs(g, s.phase))
    + (if s.interrupted then 0 else 1)
    + (match s.main
       case JobPhase => 3
       case ExportPhase => 2
       case PublishPhase => 1
       case Returned(_) => 0)
  }

  lemma StepCostsLess(g: Graph, s: State, step: Step)
    requires s.phase.Keys == g.Keys && Enabled(g, s, step) && Subjects(step) != {}
    ensures var n := step.n;
            && n in g && n in s.phase && n in Apply(g, s, step).phase
            && StepsLeft(|g[n]|, Apply(g, s, step).phase[n]) < StepsLeft(|g[n]|, s.phase[n])
  {
    match step
    case PassDependency(n) =>
    case SeeFailedDependency(n) =>
    case StopWaiting(n) =>
    case TakeSlot(n) =>
    case SolveOk(n) =>
    case SolveFail(n) =>
    case ReleaseSlot(n) =>
    case CloseDone(n) =>
    case ReturnToGroup(n) =>
  }

  lemma StepDescends(g: Graph, s: State, step: Step)
    requires s.phase.Keys == g.Keys && Enabled(g, s, step)
    ensures Apply(g, s, step).phase.Keys == g.Keys
    ensures Measure(g, Apply(g, s, step)) < Measure(g, s)
  {
    var s' := Apply(g, s, step);
    if Subjects(step) != {} {
      StepMovesOne(g, s, step);
      StepCostsLess(g, s, step);
      var c := StepsLeft(|g[step.n]|, s'.phase[step.n]);
      assert Costs(g, s'.phase) == Costs(g, s.phase)[step.n := c];
      TotalUpdate(Costs(g, s.phase), step.n, c);
    } else {
      assert s'.phase == s.phase;
    }
  }

  lemma {:induction false} RunDescends(g: Graph, limit: int, t: seq<State>, i: nat)
    requires IsRun(g, limit, t) && i < |t|
    ensures t[i].phase.Keys == g.Keys
    ensures i + Measure(g, t[i]) <= Measure(g, Init(g, limit))
  {
    if i > 0 {
      RunDescends(g, limit, t, i - 1);
      assert StepAt(g, t, i - 1);
      var step :| Enabled(g, t[i - 1], step) && t[i] == Apply(g, t[i - 1], step);
      StepDescends(g, t[i - 1], step);
    }
  }

  // ----- Whole runs -----

  /** What holds when `Run` has returned. */
  ghost predicate CleanEnd(g: Graph, limit: int, s: State) {
    && s.main.Returned?
    && AllExited(s)
    && s.closes == (map n | n in g :: 1)
    && s.free == limit
    && (s.groupErr.None? <==> s.solved == g.Keys)
    && (s.failed != {} ==> s.groupErr.Some?)
    && (s.groupErr.Some? ==> s.main.result == s.groupErr && (s.failed != {} || s.interrupted))
    && (s.main.result.None? ==> s.solved == g.Keys)
  }

  lemma ReturnedIsClean(g: Graph, limit: int, s: State)
    requires Inv(g, limit, s) && s.main.Returned?
    ensures CleanEnd(g, limit, s)
  {
    forall n | n in g
      ensures s.closes[n] == 1 && s.phase[n].Exited? && InPhase(s, n, Exited)
      ensures s.err[n].None? <==> n in s.solved
      ensures n in s.failed ==> s.err[n].Some?
    {
      assert NodeOk(g, s, n);
    }
    assert s.closes == (map n | n in g :: 1);
    assert Holding(s.phase) == {};
    if s.groupErr.Some? {
      var w :| w in g && InPhase(s, w, Exited) && s.err[w] == s.groupErr;
      assert NodeOk(g, s, w);
      assert w !in s.solved;
    }
  }

  /** Every run is finite, and one that cannot go on has returned with every done channel
      closed once, every slot free and an error exactly when some job was not solved; it returns
      nil only if it came to publishing. */
  lemma EveryRunEnds(g: Graph, limit: int, t: seq<State>)
    requires Dag(g) && limit >= 1 && IsRun(g, limit, t)
    ensures |t| <= Measure(g, Init(g, limit)) + 1
    ensures !CanStep(g, t[|t| - 1]) ==> CleanEnd(g, limit, t[|t| - 1])
    ensures t[|t| - 1].main == Returned(None) ==> exists k :: 0 <= k < |t| - 1 && t[k].main.PublishPhase?
  {
    var last := |t| - 1;
    RunDescends(g, limit, t, last);
    RunKeepsInv(g, limit, t, last);
    if !t[last].main.Returned? {
      NeverStuck(g, limit, t[last]);
    } else {
      ReturnedIsClean(g, limit, t[last]);
      if t[last].main.result.None? {
        NilMeansPublished(g, limit, t, last);
      }
    }
  }

  /** Exports and publishes start only after every job was solved. */
  lemma ExportsNeedAllJobs(g: Graph, limit: int, t: seq<State>, i: nat)
    requires Closed(g) && limit >= 0 && IsRun(g, limit, t) && i < |t|
    requires t[i].main.ExportPhase? || t[i].main.PublishPhase?
    ensures t[i].solved == g.Keys && t[i].failed == {}
  {
    RunKeepsInv(g, limit, t, i);
    var s := t[i];
    forall n | n in g
      ensures n in s.solved && n !in s.failed
    {
      assert NodeOk(g, s, n);
      assert InPhase(s, n, Exited);
    }
  }

  // ----- After Run has returned -----

  lemma ReturnedStays(g: Graph, s: State, s': State)
    requires Next(g, s, s') && s.main.Returned?
    ensures s'.main == s.main
  {
    var step :| Enabled(g, s, step) && s' == Apply(g, s, step);
  }

  lemma {:induction false} ReturnedForGood(g: Graph, limit: int, t: seq<State>, i: nat, k: nat)
    requires IsRun(g, limit, t) && i <= k < |t| && t[i].main.Returned?
    ensures t[k].main == t[i].main
  {
    if i < k {
      ReturnedForGood(g, limit, t, i, k - 1);
      assert StepAt(g, t, k - 1);
      ReturnedStays(g, t[k - 1], t[k]);
    }
  }

  /** Once `Run` has returned no job is inside Solve, now or later, and none ever gets there again:
      nothing but the interrupt can still happen. A display attachment is made inside Solve, so
      every Attach call is over when the caller of `Run` goes on to seal the display. */
  lemma NothingRunsAfterReturn(g: Graph, limit: int, t: seq<State>, i: nat, k: nat)
    requires Closed(g) && limit >= 0 && IsRun(g, limit, t)
    requires i <= k < |t| && t[i].main.Returned?
    ensures t[k].main == t[i].main && InSolve(t[k]) == {}
    ensures forall step | Enabled(g, t[k], step) :: step.Interrupt?
  {
    RunKeepsInv(g, limit, t, k);
    ReturnedForGood(g, limit, t, i, k);
    assert AllExited(t[k]);
  }

  // ----- Results of whole runs, given with their steps -----

  ghost predicate TakenAt(g: Graph, t: seq<State>, steps: seq<Step>, i: nat) {
    && i < |steps| && i + 1 < |t|
    && Enabled(g, t[i], steps[i]) && t[i + 1] == Apply(g, t[i], steps[i])
  }

  /** `t` is the run in which `steps` are taken. */
  ghost predicate IsRunOf(g: Graph, limit: int, t: seq<State>, steps: seq<Step>) {
    && |t| == |steps| + 1 && t[0] == Init(g, limit)
    && forall i | 0 <= i < |steps| :: TakenAt(g, t, steps, i)
  }

  /** Every run can be given with its steps. */
  lemma {:induction false} StepsOfRun(g: Graph, limit: int, t: seq<State>) returns (steps: seq<Step>)
    requires IsRun(g, limit, t)
    ensures IsRunOf(g, limit, t, steps)
    decreases |t|
  {
    steps := [];
    if |t| > 1 {
      var n := |t| - 1;
      forall i | 0 <= i < n - 1
        ensures StepAt(g, t[..n], i)
      {
        assert StepAt(g, t, i);
      }
      var front := StepsOfRun(g, limit, t[..n]);
      assert StepAt(g, t, n - 1);
      var last :| Enabled(g, t[n - 1], last) && t[n] == Apply(g, t[n - 1], last);
      steps := front + [last];
      forall i | 0 <= i < n
        ensures TakenAt(g, t, steps, i)
      {
        assert i < n - 1 ==> TakenAt(g, t[..n], front, i);
      }
    }
  }

  lemma StepsMakeRun(g: Graph, limit: int, t: seq<State>, steps: seq<Step>)
    requires IsRunOf(g, limit, t, steps)
    ensures IsRun(g, limit, t)
  {
    forall i | 0 <= i < |t| - 1
      ensures StepAt(g, t, i)
    {
      assert TakenAt(g, t, steps, i);
    }
  }

  /** The step `step` was taken before state `i`. */
  ghost predicate Took(steps: seq<Step>, i: nat, step: Step) {
    exists k :: 0 <= k < i && k < |steps| && steps[k] == step
  }

  /** What must have been tried to get there. */
  ghost predicate Tried(steps: seq<Step>, i: nat, main: MainPhase) {
    match main
    case JobPhase => true
    case ExportPhase => Took(steps, i, JoinJobs)
    case PublishPhase => Took(steps, i, FinishExports(true))
    case Returned(r) =>
      if r == Some(ExportFailed) then Took(steps, i, FinishExports(false))
      else if r == Some(PublishFailed) then Took(steps, i, FinishPublishes(false))
      else if r.None? then Took(steps, i, FinishExports(true)) && Took(steps, i, FinishPublishes(true))
      else Took(steps, i, JoinJobs)
  }

  lemma TookStays(steps: seq<Step>, i: nat, step: Step)
    requires Took(steps, i, step)
    ensures Took(steps, i + 1, step)
  {
    var k :| 0 <= k < i && k < |steps| && steps[k] == step;
    assert 0 <= k < i + 1;
  }

  /** A job's error is never one of an export or publish. */
  lemma GroupErrorIsOfJob(g: Graph, limit: int, t: seq<State>, i: nat)
    requires Closed(g) && limit >= 0 && IsRun(g, limit, t) && i < |t|
    ensures t[i].groupErr.Some? ==> !t[i].groupErr.value.ExportFailed? && !t[i].groupErr.value.PublishFailed?
  {
    RunKeepsInv(g, limit, t, i);
    if t[i].groupErr.Some? {
      var n :| n in g && InPhase(t[i], n, Exited) && t[i].err[n] == t[i].groupErr;
      assert NodeOk(g, t[i], n);
    }
  }

  lemma {:induction false} TriedInOrder(g: Graph, limit: int, t: seq<State>, steps: seq<Step>, i: nat)
    requires Closed(g) && limit >= 0 && IsRunOf(g, limit, t, steps) && i < |t|
    ensures Tried(steps, i, t[i].main)
  {
    if i > 0 {
      var k := i - 1;
      TriedInOrder(g, limit, t, steps, k);
      StepsMakeRun(g, limit, t, steps);
      GroupErrorIsOfJob(g, limit, t, k);
      assert TakenAt(g, t, steps, k);
      assert Took(steps, i, steps[k]);
      forall step | Took(steps, k, step)
        ensures Took(steps, i, step)
      {
        TookStays(steps, k, step);
      }
    }
  }

  /** A nil result means that the exports were done and publishing was reached. */
  lemma NilMeansPublished(g: Graph, limit: int, t: seq<State>, i: nat)
    requires Closed(g) && limit >= 0 && IsRun(g, limit, t) && i < |t| && t[i].main == Returned(None)
    ensures exists k :: 0 <= k < i && t[k].main.PublishPhase?
  {
    var steps := StepsOfRun(g, limit, t);
    TriedInOrder(g, limit, t, steps, i);
    var k :| 0 <= k < i && k < |steps| && steps[k] == FinishPublishes(true);
    assert TakenAt(g, t, steps, k);
  }

  lemma ReturnedAfter(g: Graph, limit: int, t: seq<State>, steps: seq<Step>, k: nat, i: nat)
    requires IsRunOf(g, limit, t, steps) && k < |steps| && k < i < |t|
    ensures steps[k] == FinishExports(false) ==> t[i].main == Returned(Some(ExportFailed))
    ensures steps[k] == FinishPublishes(false) ==> t[i].main == Returned(Some(PublishFailed))
    ensures steps[k] == FinishPublishes(true) ==> t[i].main == Returned(None)
  {
    StepsMakeRun(g, limit, t, steps);
    assert TakenAt(g, t, steps, k);
    if t[k + 1].main.Returned? {
      ReturnedForGood(g, limit, t, k + 1, i);
    }
  }

  /** What a finished run returns: nil exactly if both the exports and the publishes went through,
      the export or publish error exactly if that failed, and otherwise the error of the jobs. */
  lemma ResultTellsOutcome(g: Graph, limit: int, t: seq<State>, steps: seq<Step>, i: nat)
    requires Closed(g) && limit >= 0 && IsRunOf(g, limit, t, steps) && i < |t| && t[i].main.Returned?
    ensures t[i].main.result.None? <==> Took(steps, i, FinishExports(true)) && Took(steps, i, FinishPublishes(true))
    ensures t[i].main.result == Some(ExportFailed) <==> Took(steps, i, FinishExports(false))
    ensures t[i].main.result == Some(PublishFailed) <==> Took(steps, i, FinishPublishes(false))
    ensures t[i].groupErr.Some? ==> t[i].main.result == t[i].groupErr
  {
    TriedInOrder(g, limit, t, steps, i);
    forall k | 0 <= k < i
      ensures steps[k] == FinishExports(false) ==> t[i].main == Returned(Some(ExportFailed))
      ensures steps[k] == FinishPublishes(false) ==> t[i].main == Returned(Some(PublishFailed))
      ensures steps[k] == FinishPublishes(true) ==> t[i].main == Returned(None)
    {
      ReturnedAfter(g, limit, t, steps, k, i);
    }
    StepsMakeRun(g, limit, t, steps);
    RunKeepsInv(g, limit, t, i);
  }

  /** After a failed export publishing is never reached. */
  lemma FailedExportStops(g: Graph, limit: int, t: seq<State>, steps: seq<Step>, k: nat, i: nat)
    requires Closed(g) && limit >= 0 && IsRunOf(g, limit, t, steps)
    requires k < |steps| && steps[k] == FinishExports(false) && i < |t|
    ensures !t[i].main.PublishPhase?
  {
    assert TakenAt(g, t, steps, k);
    if i <= k && t[i].main.PublishPhase? {
      PublishingStays(g, limit, t, steps, i, k);
    } else if k < i {
      ReturnedAfter(g, limit, t, steps, k, i);
    }
  }

  lemma {:induction false} PublishingStays(g: Graph, limit: int, t: seq<State>, steps: seq<Step>, i: nat, k: nat)
    requires IsRunOf(g, limit, t, steps) && i <= k < |t| && t[i].main.PublishPhase?
    ensures t[k].main.PublishPhase? || t[k].main.Returned?
  {
    if i < k {
      PublishingStays(g, limit, t, steps, i, k - 1);
      assert TakenAt(g, t, steps, k - 1);
    }
  }

  // ----- The first error -----

  /** `steps[i]` hands a job's error to the group. */
  ghost predicate HandsError(t: seq<State>, steps: seq<Step>, i: nat) {
    i < |steps| && i < |t| && steps[i].ReturnToGroup?
    && steps[i].n in t[i].err && t[i].err[steps[i].n].Some?
  }

  lemma {:induction false} NoErrorYet(g: Graph, limit: int, t: seq<State>, steps: seq<Step>, i: nat)
    requires IsRunOf(g, limit, t, steps) && i < |t| && forall k | 0 <= k < i :: !HandsError(t, steps, k)
    ensures t[i].groupErr.None?
  {
    if i > 0 {
      NoErrorYet(g, limit, t, steps, i - 1);
      assert TakenAt(g, t, steps, i - 1) && !HandsError(t, steps, i - 1);
    }
  }

  lemma {:induction false} GroupErrorStays(g: Graph, limit: int, t: seq<State>, steps: seq<Step>, i: nat, k: nat)
    requires IsRunOf(g, limit, t, steps) && i <= k < |t| && t[i].groupErr.Some?
    ensures t[k].groupErr == t[i].groupErr
  {
    if i < k {
      GroupErrorStays(g, limit, t, steps, i, k - 1);
      assert TakenAt(g, t, steps, k - 1);
    }
  }

  /** The first error handed to the group cancels the others and is the one `Run` returns. */
  lemma FirstErrorIsReturned(g: Graph, limit: int, t: seq<State>, steps: seq<Step>, k: nat, i: nat)
    requires Closed(g) && limit >= 0 && IsRunOf(g, limit, t, steps)
    requires HandsError(t, steps, k) && k < i < |t| && forall l | 0 <= l < k :: !HandsError(t, steps, l)
    ensures t[i].groupErr == t[k].err[steps[k].n] && t[i].cancelled
    ensures t[i].main.Returned? ==> t[i].main.result == t[k].err[steps[k].n]
  {
    NoErrorYet(g, limit, t, steps, k);
    assert TakenAt(g, t, steps, k);
    GroupErrorStays(g, limit, t, steps, k + 1, i);
    StepsMakeRun(g, limit, t, steps);
    RunKeepsInv(g, limit, t, i);
  }
}
