/** The shutdown protocol of the interactive display (internal/progress/tui.go).

    Attach registers a status channel and spawns a consumer; a monitor goroutine, started by the
    first Attach, waits for Seal and for all consumers before it reports that everything is done.
    Every atomic action of callers, consumers, monitor, producers and Seal is one step; the
    theorems hold for every interleaving in which no Attach overlaps or follows Seal, which
    `Scheduler.NothingRunsAfterReturn` grants the callers that seal after `Run`. */
module Display {
  /** How far an attachment has come: the first states are those of the Attach call, the later
      ones those of its consumer goroutine. */
  datatype Phase = NotCalled | Counted | Registered | Announced | Running | Draining | Finishing | Reported | Gone

  /** `taken` counts the statuses received from the channel, `shown` those passed on. */
  datatype Attachment = Attachment(phase: Phase, taken: nat, shown: nat, closed: bool, cancelled: bool)

  datatype Monitor = Idle | AwaitingSeal | AwaitingGroup | Completing | Completed

  datatype Seal = Open | Sealing | Sealed

  datatype Message = JobAdded(id: nat) | JobStatus(id: nat, number: nat) | JobDone(id: nat) | AllDone

  /** `onceFired` is monitorOnce: it is used up by the first Attach or, without any, by Seal. */
  datatype State = State(
    atts: seq<Attachment>, group: int, onceFired: bool, monitor: Monitor, seal: Seal, sent: seq<Message>)

  datatype Step =
    | CallAttach(i: nat)
    | FireOnce(i: nat)
    | SendAdded(i: nat)
    | Spawn(i: nat)
    | ReceiveStatus(i: nat)
    | SeeCancel(i: nat)
    | DrainStatus(i: nat)
    | SeeClosed(i: nat)
    | SendDone(i: nat)
    | LeaveGroup(i: nat)
    | Cancel(i: nat)
    | CloseChannel(i: nat)
    | BeginSeal
    | CloseSeal
    | MonitorSeesSeal
    | MonitorJoins
    | MonitorCompletes

  /** `totals[i]` is how many statuses the producer of attachment `i` sends before it closes its
      channel. */
  type Totals = seq<nat>

  function Init(totals: Totals): State {
    State(seq(|totals|, _ => Attachment(NotCalled, 0, 0, false, false)), 0, false, Idle, Open, [])
  }

  predicate InAttach(p: Phase) {
    p.Counted? || p.Registered? || p.Announced?
  }

  predicate NoneInAttach(s: State) {
    forall i | 0 <= i < |s.atts| :: !InAttach(s.atts[i].phase)
  }

  /** A step of an attachment: its Attach call, its consumer, its producer or its context. */
  predicate HasSubject(step: Step) {
    !step.BeginSeal? && !step.CloseSeal? && !step.MonitorSeesSeal? && !step.MonitorJoins?
    && !step.MonitorCompletes?
  }

  predicate AttachmentCan(total: nat, a: Attachment, step: Step)
    requires HasSubject(step)
  {
    match step
    case CallAttach(_) => a.phase.NotCalled?
    case FireOnce(_) => a.phase.Counted?
    case SendAdded(_) => a.phase.Registered?
    case Spawn(_) => a.phase.Announced?
    case ReceiveStatus(_) => a.phase.Running? && a.taken < total
    case SeeCancel(_) => a.phase.Running? && a.cancelled
    case DrainStatus(_) => a.phase.Draining? && a.taken < total
    case SeeClosed(_) => (a.phase.Running? || a.phase.Draining?) && a.closed
    case SendDone(_) => a.phase.Finishing?
    case LeaveGroup(_) => a.phase.Reported?
    case Cancel(_) => !a.cancelled
    case CloseChannel(_) => !a.closed && a.taken == total
  }

  predicate Enabled(totals: Totals, s: State, step: Step)
    requires |s.atts| == |totals|
  {
    match step
    case BeginSeal => s.seal.Open? && NoneInAttach(s)
    case CloseSeal => s.seal.Sealing?
    case MonitorSeesSeal => s.monitor.AwaitingSeal? && s.seal.Sealed?
    case MonitorJoins => s.monitor.AwaitingGroup? && s.group == 0
    case MonitorCompletes => s.monitor.Completing?
    case _ =>
      && step.i < |s.atts| && AttachmentCan(totals[step.i], s.atts[step.i], step)
      && (step.CallAttach? ==> s.seal.Open?)
  }

  // What a step does to each part of the state.

  function After(a: Attachment, step: Step): Attachment
    requires HasSubject(step)
  {
    match step
    case CallAttach(_) => a.(phase := Counted)
    case FireOnce(_) => a.(phase := Registered)
    case SendAdded(_) => a.(phase := Announced)
    case Spawn(_) => a.(phase := Running)
    case ReceiveStatus(_) => a.(taken := a.taken + 1, shown := a.shown + 1)
    case SeeCancel(_) => a.(phase := Draining)
    case DrainStatus(_) => a.(taken := a.taken + 1)
    case SeeClosed(_) => a.(phase := Finishing)
    case SendDone(_) => a.(phase := Reported)
    case LeaveGroup(_) => a.(phase := Gone)
    case Cancel(_) => a.(cancelled := true)
    case CloseChannel(_) => a.(closed := true)
  }

  /** The message an attachment's step sends, if any. */
  function AttachmentSends(a: Attachment, step: Step): seq<Message>
    requires HasSubject(step)
  {
    match step
    case SendAdded(i) => [JobAdded(i)]
    case ReceiveStatus(i) => [JobStatus(i, a.taken)]
    case SendDone(i) => [JobDone(i)]
    case _ => []
  }

  /** Seal itself reports the end if no Attach ever used up monitorOnce. */
  function ControlSends(s: State, step: Step): seq<Message> {
    if (step.BeginSeal? && !s.onceFired) || step.MonitorCompletes? then [AllDone] else []
  }

  function MonitorAfter(s: State, step: Step): Monitor {
    match step
    case FireOnce(_) => if s.onceFired then s.monitor else AwaitingSeal
    case MonitorSeesSeal => AwaitingGroup
    case MonitorJoins => Completing
    case MonitorCompletes => Completed
    case _ => s.monitor
  }

  function GroupAfter(group: int, step: Step): int {
    if step.CallAttach? then group + 1 else if step.LeaveGroup? then group - 1 else group
  }

  function Apply(totals: Totals, s: State, step: Step): State
    requires |s.atts| == |totals| && Enabled(totals, s, step)
  {
    if HasSubject(step) then
      var a := s.atts[step.i];
      s.(atts := s.atts[step.i := After(a, step)],
         group := GroupAfter(s.group, step),
         onceFired := s.onceFired || step.FireOnce?,
         monitor := MonitorAfter(s, step),
         sent := s.sent + AttachmentSends(a, step))
    else
      s.(onceFired := s.onceFired || step.BeginSeal?,
         monitor := MonitorAfter(s, step),
         seal := if step.BeginSeal? then Sealing else if step.CloseSeal? then Sealed else s.seal,
         sent := s.sent + ControlSends(s, step))
  }

  // ----- The invariant -----

  /** The messages of one attachment, in the order they were sent. */
  function About(sent: seq<Message>, i: nat): seq<Message> {
    if sent == [] then [] else
      var last := sent[|sent| - 1];
      About(sent[..|sent| - 1], i) + (if !last.AllDone? && last.id == i then [last] else [])
  }

  function Statuses(i: nat, n: nat): (r: seq<Message>)
    ensures |r| == n && forall k | 0 <= k < n :: r[k] == JobStatus(i, k)
  {
    seq(n, k requires 0 <= k < n => JobStatus(i, k))
  }

  /** Added, then the statuses shown so far, then done. */
  function Expected(i: nat, a: Attachment): seq<Message> {
    match a.phase
    case NotCalled => []
    case Counted => []
    case Registered => []
    case Reported => [JobAdded(i)] + Statuses(i, a.shown) + [JobDone(i)]
    case Gone => [JobAdded(i)] + Statuses(i, a.shown) + [JobDone(i)]
    case _ => [JobAdded(i)] + Statuses(i, a.shown)
  }

  /** Nothing is shown before the consumer runs, all that is taken is shown unless cancelled, and
      a consumer only stops when its channel is closed and empty. */
  predicate AttOk(total: nat, a: Attachment) {
    && a.shown <= a.taken <= total
    && (a.closed ==> a.taken == total)
    && (!a.cancelled ==> a.shown == a.taken && !a.phase.Draining?)
    && (a.phase.Running? ==> a.shown == a.taken)
    && (a.phase.NotCalled? || InAttach(a.phase) ==> a.taken == 0)
    && (a.phase.Finishing? || a.phase.Reported? || a.phase.Gone? ==> a.closed)
  }

  ghost predicate AttsOk(totals: Totals, s: State)
    requires |s.atts| == |totals|
  {
    forall i | 0 <= i < |s.atts| :: AttOk(totals[i], s.atts[i]) && About(s.sent, i) == Expected(i, s.atts[i])
  }

  /** Between wg.Add and wg.Done. */
  predicate Holds(p: Phase) {
    !p.NotCalled? && !p.Gone?
  }

  ghost function Holders(atts: seq<Attachment>): set<nat> {
    set i | 0 <= i < |atts| && Holds(atts[i].phase)
  }

  predicate AllDoneSent(s: State) {
    s.monitor.Completed? || (s.onceFired && s.monitor.Idle?)
  }

  /** All-done was sent once, as the last message, or not at all. */
  predicate AllDoneLast(s: State) {
    if AllDoneSent(s) then EndsOnce(s.sent) else AllDone !in s.sent
  }

  predicate EndsOnce(sent: seq<Message>) {
    sent != [] && sent[|sent| - 1] == AllDone && AllDone !in sent[..|sent| - 1]
  }

  lemma AppendAllDone(sent: seq<Message>)
    requires AllDone !in sent
    ensures EndsOnce(sent + [AllDone])
  {
    assert (sent + [AllDone])[..|sent|] == sent;
  }

  predicate NoneCalled(s: State) {
    forall i | 0 <= i < |s.atts| :: s.atts[i].phase.NotCalled?
  }

  predicate NoneRegistered(s: State) {
    forall i | 0 <= i < |s.atts| :: s.atts[i].phase.NotCalled? || s.atts[i].phase.Counted?
  }

  /** monitorOnce is used up either by an Attach, which starts the monitor, or by Seal when there
      was no Attach at all. */
  predicate OnceOk(s: State) {
    && (!s.onceFired ==> s.monitor.Idle? && s.seal.Open? && NoneRegistered(s))
    && (s.onceFired && s.monitor.Idle? ==> !s.seal.Open? && NoneCalled(s))
  }

  ghost predicate MonitorOk(s: State) {
    && (s.monitor.AwaitingGroup? || s.monitor.Completing? || s.monitor.Completed? ==> s.seal.Sealed?)
    && (s.monitor.Completing? || s.monitor.Completed? ==> Holders(s.atts) == {})
  }

  ghost predicate ControlOk(s: State) {
    OnceOk(s) && MonitorOk(s) && (!s.seal.Open? ==> NoneInAttach(s))
  }

  ghost predicate Inv(totals: Totals, s: State) {
    && |s.atts| == |totals| && AttsOk(totals, s)
    && s.group == |Holders(s.atts)|
    && ControlOk(s) && AllDoneLast(s)
  }

  lemma InitInv(totals: Totals)
    ensures Inv(totals, Init(totals))
  {
    assert Holders(Init(totals).atts) == {};
  }

  lemma AboutGrows(sent: seq<Message>, m: Message, i: nat)
    ensures About(sent + [m], i) == About(sent, i) + (if !m.AllDone? && m.id == i then [m] else [])
  {
    assert (sent + [m])[..|sent|] == sent;
  }

  lemma AboutOthers(sent: seq<Message>, more: seq<Message>, i: nat)
    requires |more| <= 1 && forall m | m in more :: m.AllDone? || m.id != i
    ensures About(sent + more, i) == About(sent, i)
  {
    if more == [] {
      assert sent + more == sent;
    } else {
      assert more == [more[0]] && more[0] in more;
      AboutGrows(sent, more[0], i);
    }
  }

  lemma AboutOwn(sent: seq<Message>, a: Attachment, step: Step)
    requires HasSubject(step)
    ensures About(sent + AttachmentSends(a, step), step.i) == About(sent, step.i) + AttachmentSends(a, step)
  {
    var more := AttachmentSends(a, step);
    if more == [] {
      assert sent + more == sent;
    } else {
      AboutGrows(sent, more[0], step.i);
    }
  }

  /** An attachment's step keeps its own counters in order and sends what is expected next. */
  lemma AttachmentStep(total: nat, a: Attachment, step: Step)
    requires HasSubject(step) && AttOk(total, a) && AttachmentCan(total, a, step)
    ensures AttOk(total, After(a, step))
    ensures Expected(step.i, After(a, step)) == Expected(step.i, a) + AttachmentSends(a, step)
  {
    if step.ReceiveStatus? {
      assert Statuses(step.i, a.shown + 1) == Statuses(step.i, a.shown) + [JobStatus(step.i, a.shown)];
    } else if step.SendAdded? {
      assert Statuses(step.i, 0) == [];
    }
  }

  lemma OtherAttachment(totals: Totals, s: State, step: Step, i: nat)
    requires |s.atts| == |totals| && Enabled(totals, s, step) && i < |s.atts|
    requires HasSubject(step) ==> step.i != i
    ensures |Apply(totals, s, step).atts| == |s.atts| && Apply(totals, s, step).atts[i] == s.atts[i]
    ensures About(Apply(totals, s, step).sent, i) == About(s.sent, i)
  {
    if HasSubject(step) {
      AboutOthers(s.sent, AttachmentSends(s.atts[step.i], step), i);
    } else {
      AboutOthers(s.sent, ControlSends(s, step), i);
    }
  }

  lemma StepKeepsAttachments(totals: Totals, s: State, step: Step)
    requires |s.atts| == |totals| && AttsOk(totals, s) && Enabled(totals, s, step)
    ensures |Apply(totals, s, step).atts| == |totals| && AttsOk(totals, Apply(totals, s, step))
  {
    var s' := Apply(totals, s, step);
    forall i | 0 <= i < |s'.atts|
      ensures AttOk(totals[i], s'.atts[i]) && About(s'.sent, i) == Expected(i, s'.atts[i])
    {
      assert AttOk(totals[i], s.atts[i]);
      if HasSubject(step) && step.i == i {
        AttachmentStep(totals[i], s.atts[i], step);
        AboutOwn(s.sent, s.atts[i], step);
      } else {
        OtherAttachment(totals, s, step, i);
      }
    }
  }

  lemma HoldersAfter(atts: seq<Attachment>, i: nat, a: Attachment)
    requires i < |atts|
    ensures Holds(a.phase) ==> Holders(atts[i := a]) == Holders(atts) + {i}
    ensures !Holds(a.phase) ==> Holders(atts[i := a]) == Holders(atts) - {i}
  {
  }

  lemma HolderCount(atts: seq<Attachment>, i: nat, a: Attachment)
    requires i < |atts|
    ensures |Holders(atts[i := a])| == |Holders(atts)| - (if Holds(atts[i].phase) then 1 else 0)
                                      + (if Holds(a.phase) then 1 else 0)
  {
    HoldersAfter(atts, i, a);
    assert i in Holders(atts) <==> Holds(atts[i].phase);
    assert i in Holders(atts) ==> Holders(atts) + {i} == Holders(atts);
    assert i !in Holders(atts) ==> Holders(atts) - {i} == Holders(atts);
  }

  lemma AttachmentHolds(total: nat, a: Attachment, step: Step)
    requires HasSubject(step) && AttachmentCan(total, a, step)
    ensures GroupAfter(0, step) == (if Holds(After(a, step).phase) then 1 else 0) - (if Holds(a.phase) then 1 else 0)
  {
  }

  lemma StepKeepsGroup(totals: Totals, s: State, step: Step)
    requires |s.atts| == |totals| && Enabled(totals, s, step) && s.group == |Holders(s.atts)|
    ensures var s' := Apply(totals, s, step); s'.group == |Holders(s'.atts)|
  {
    if HasSubject(step) {
      var a := s.atts[step.i];
      AttachmentHolds(totals[step.i], a, step);
      HolderCount(s.atts, step.i, After(a, step));
    }
  }

  /** Where nobody holds the group, no attachment can do anything that matters any more. */
  lemma NoHolders(s: State, i: nat)
    requires Holders(s.atts) == {} && i < |s.atts|
    ensures s.atts[i].phase.NotCalled? || s.atts[i].phase.Gone?
  {
    assert i !in Holders(s.atts);
  }

  lemma SubjectKeepsOnce(totals: Totals, s: State, step: Step)
    requires |s.atts| == |totals| && OnceOk(s) && Enabled(totals, s, step) && HasSubject(step)
    ensures OnceOk(Apply(totals, s, step))
  {
    var s' := Apply(totals, s, step);
    assert forall i | 0 <= i < |s.atts| && i != step.i :: s'.atts[i] == s.atts[i];
    assert s'.atts[step.i] == After(s.atts[step.i], step);
  }

  lemma SubjectKeepsMonitor(totals: Totals, s: State, step: Step)
    requires |s.atts| == |totals| && MonitorOk(s) && Enabled(totals, s, step) && HasSubject(step)
    ensures MonitorOk(Apply(totals, s, step))
  {
    HoldersAfter(s.atts, step.i, After(s.atts[step.i], step));
    if s.monitor.Completing? || s.monitor.Completed? {
      NoHolders(s, step.i);
    }
  }

  lemma SubjectKeepsSeal(totals: Totals, s: State, step: Step)
    requires |s.atts| == |totals| && !s.seal.Open? && NoneInAttach(s) && Enabled(totals, s, step) && HasSubject(step)
    ensures NoneInAttach(Apply(totals, s, step))
  {
    assert !InAttach(After(s.atts[step.i], step).phase);
  }

  lemma ControlKeepsControl(totals: Totals, s: State, step: Step)
    requires Inv(totals, s) && Enabled(totals, s, step) && !HasSubject(step)
    ensures ControlOk(Apply(totals, s, step))
  {
    if step.BeginSeal? && !s.onceFired {
      forall i | 0 <= i < |s.atts|
        ensures s.atts[i].phase.NotCalled?
      {
        assert !InAttach(s.atts[i].phase);
      }
    }
  }

  lemma SubjectKeepsAllDone(totals: Totals, s: State, step: Step)
    requires Inv(totals, s) && Enabled(totals, s, step) && HasSubject(step)
    ensures AllDoneLast(Apply(totals, s, step))
  {
    assert AllDone !in AttachmentSends(s.atts[step.i], step);
    if AllDoneSent(s) {
      SilentAtTheEnd(totals, s, step);
      assert s.sent + [] == s.sent;
    }
  }

  /** After all-done no attachment has anything left to say. */
  lemma SilentAtTheEnd(totals: Totals, s: State, step: Step)
    requires Inv(totals, s) && AllDoneSent(s) && Enabled(totals, s, step) && HasSubject(step)
    ensures AttachmentSends(s.atts[step.i], step) == []
  {
    if s.monitor.Completed? {
      NoHolders(s, step.i);
    }
  }

  lemma ControlKeepsAllDone(totals: Totals, s: State, step: Step)
    requires |s.atts| == |totals| && ControlOk(s) && AllDoneLast(s)
    requires Enabled(totals, s, step) && !HasSubject(step)
    ensures AllDoneLast(Apply(totals, s, step))
  {
    if ControlSends(s, step) == [] {
      assert s.sent + [] == s.sent;
    } else {
      AppendAllDone(s.sent);
    }
  }

  lemma StepKeepsInv(totals: Totals, s: State, step: Step)
    requires Inv(totals, s) && Enabled(totals, s, step)
    ensures Inv(totals, Apply(totals, s, step))
  {
    StepKeepsAttachments(totals, s, step);
    StepKeepsGroup(totals, s, step);
    if HasSubject(step) {
      SubjectKeepsAllDone(totals, s, step);
      SubjectKeepsOnce(totals, s, step);
      SubjectKeepsMonitor(totals, s, step);
      if !s.seal.Open? {
        SubjectKeepsSeal(totals, s, step);
      }
    } else {
      ControlKeepsAllDone(totals, s, step);
      ControlKeepsControl(totals, s, step);
    }
  }

  // ----- Runs -----

  ghost predicate Next(totals: Totals, s: State, s': State) {
    |s.atts| == |totals| && exists step :: Enabled(totals, s, step) && s' == Apply(totals, s, step)
  }

  ghost predicate StepAt(totals: Totals, t: seq<State>, i: nat) {
    i + 1 < |t| && Next(totals, t[i], t[i + 1])
  }

  ghost predicate IsRun(totals: Totals, t: seq<State>) {
    && t != [] && t[0] == Init(totals)
    && forall i | 0 <= i < |t| - 1 :: StepAt(totals, t, i)
  }

  lemma NextKeepsInv(totals: Totals, s: State, s': State)
    requires Inv(totals, s) && Next(totals, s, s')
    ensures Inv(totals, s')
  {
    var step :| Enabled(totals, s, step) && s' == Apply(totals, s, step);
    StepKeepsInv(totals, s, step);
  }

  lemma RunStepKeepsInv(totals: Totals, t: seq<State>, i: nat)
    requires IsRun(totals, t) && i + 1 < |t| && Inv(totals, t[i])
    ensures Inv(totals, t[i + 1])
  {
    assert StepAt(totals, t, i);
    NextKeepsInv(totals, t[i], t[i + 1]);
  }

  lemma {:induction false} RunKeepsInv(totals: Totals, t: seq<State>, i: nat)
    requires IsRun(totals, t) && i < |t|
    ensures Inv(totals, t[i])
  {
    if i == 0 {
      InitInv(totals);
    } else {
      RunKeepsInv(totals, t, i - 1);
      RunStepKeepsInv(totals, t, i - 1);
    }
  }

  /** In every interleaving the messages of an attachment are added, a prefix of its statuses in
      order, and done; done only after the whole channel was taken, and without cancellation
      every status was shown. */
  lemma MessagesAreOrdered(totals: Totals, t: seq<State>, n: nat, i: nat) returns (shown: nat)
    requires IsRun(totals, t) && n < |t| && i < |totals|
    ensures shown <= totals[i] && |t[n].atts| == |totals|
    ensures About(t[n].sent, i) in
              {[], [JobAdded(i)] + Statuses(i, shown), [JobAdded(i)] + Statuses(i, shown) + [JobDone(i)]}
    ensures JobDone(i) in About(t[n].sent, i) ==>
              t[n].atts[i].closed && (shown == totals[i] || t[n].atts[i].cancelled)
  {
    RunKeepsInv(totals, t, n);
    assert AttOk(totals[i], t[n].atts[i]);
    shown := t[n].atts[i].shown;
  }

  /** All-done is sent at most once, nothing follows it, and when it is sent every attachment
      that was ever made has reported its own end. */
  lemma AllDoneComesLast(totals: Totals, t: seq<State>, n: nat, i: nat)
    requires IsRun(totals, t) && n < |t| && i < |totals| && AllDone in t[n].sent
    ensures EndsOnce(t[n].sent)
    ensures About(t[n].sent, i) != [] ==> JobDone(i) in About(t[n].sent, i)
  {
    RunKeepsInv(totals, t, n);
    if t[n].monitor.Completed? {
      NoHolders(t[n], i);
    }
    var a := t[n].atts[i];
    assert About(t[n].sent, i) == Expected(i, a);
    if a.phase.Gone? {
      assert Expected(i, a)[|Expected(i, a)| - 1] == JobDone(i);
    }
  }

  // ----- Progress -----

  /** Everything is over: Seal returned, all-done is out, no goroutine is left. */
  ghost predicate Finished(s: State) {
    && s.seal.Sealed? && AllDone in s.sent
    && (s.monitor.Idle? || s.monitor.Completed?)
    && forall i | 0 <= i < |s.atts| ::
         s.atts[i].phase.NotCalled? || (s.atts[i].phase.Gone? && s.atts[i].closed)
  }

  /** What an attachment that is neither untouched nor gone can do next, whatever the others do. */
  lemma AttachmentCanMove(totals: Totals, s: State, i: nat) returns (step: Step)
    requires Inv(totals, s) && i < |s.atts| && Holds(s.atts[i].phase)
    ensures Enabled(totals, s, step) && !step.Cancel?
  {
    assert AttOk(totals[i], s.atts[i]);
    match s.atts[i].phase
    case Counted => step := FireOnce(i);
    case Registered => step := SendAdded(i);
    case Announced => step := Spawn(i);
    case Running =>
      step := if s.atts[i].taken < totals[i] then ReceiveStatus(i)
              else if s.atts[i].closed then SeeClosed(i) else CloseChannel(i);
    case Draining =>
      step := if s.atts[i].taken < totals[i] then DrainStatus(i)
              else if s.atts[i].closed then SeeClosed(i) else CloseChannel(i);
    case Finishing => step := SendDone(i);
    case Reported => step := LeaveGroup(i);
  }

  /** No reachable state is stuck before everything is over, cancelled or not. */
  lemma NeverStuck(totals: Totals, s: State) returns (step: Step)
    requires Inv(totals, s) && !Finished(s)
    ensures Enabled(totals, s, step) && !step.Cancel?
  {
    if Holders(s.atts) != {} {
      var i :| i in Holders(s.atts);
      step := AttachmentCanMove(totals, s, i);
    } else {
      forall i | 0 <= i < |s.atts|
        ensures s.atts[i].phase.NotCalled? || (s.atts[i].phase.Gone? && s.atts[i].closed)
      {
        NoHolders(s, i);
        assert AttOk(totals[i], s.atts[i]);
      }
      if s.seal.Open? {
        step := BeginSeal;
      } else if s.seal.Sealing? {
        step := CloseSeal;
      } else {
        step := match s.monitor
          case AwaitingSeal => MonitorSeesSeal
          case AwaitingGroup => MonitorJoins
          case _ => MonitorCompletes;
      }
    }
  }

  function PhaseCost(p: Phase): nat {
    match p
    case NotCalled => 8
    case Counted => 7
    case Registered => 6
    case Announced => 5
    case Running => 4
    case Draining => 3
    case Finishing => 2
    case Reported => 1
    case Gone => 0
  }

  function AttCost(total: nat, a: Attachment): int {
    PhaseCost(a.phase) + (total - a.taken) + (if a.closed then 0 else 1) + (if a.cancelled then 0 else 1)
  }

  function AttsCost(totals: Totals, atts: seq<Attachment>): int
    requires |totals| == |atts|
  {
    if atts == [] then 0 else
      var n := |atts| - 1;
      AttsCost(totals[..n], atts[..n]) + AttCost(totals[n], atts[n])
  }

  function Cost(totals: Totals, s: State): int
    requires |s.atts| == |totals|
  {
    AttsCost(totals, s.atts)
    + (match s.monitor
       case Idle => 4
       case AwaitingSeal => 3
       case AwaitingGroup => 2
       case Completing => 1
       case Completed => 0)
    + (match s.seal
       case Open => 2
       case Sealing => 1
       case Sealed => 0)
  }

  lemma {:induction false} AttsCostAfter(totals: Totals, atts: seq<Attachment>, i: nat, a: Attachment)
    requires |totals| == |atts| && i < |atts|
    ensures AttsCost(totals, atts[i := a]) == AttsCost(totals, atts) - AttCost(totals[i], atts[i]) + AttCost(totals[i], a)
    decreases |atts|
  {
    var n := |atts| - 1;
    if i < n {
      AttsCostAfter(totals[..n], atts[..n], i, a);
      assert atts[i := a][..n] == atts[..n][i := a];
    } else {
      assert atts[i := a][..n] == atts[..n];
    }
  }

  lemma {:induction false} AttsCostPositive(totals: Totals, atts: seq<Attachment>)
    requires |totals| == |atts| && forall i | 0 <= i < |atts| :: AttOk(totals[i], atts[i])
    ensures AttsCost(totals, atts) >= 0
  {
    if atts != [] {
      var n := |atts| - 1;
      AttsCostPositive(totals[..n], atts[..n]);
      assert AttOk(totals[n], atts[n]);
    }
  }

  lemma AttachmentDescends(total: nat, a: Attachment, step: Step)
    requires HasSubject(step) && AttOk(total, a) && AttachmentCan(total, a, step)
    ensures AttCost(total, After(a, step)) < AttCost(total, a)
  {
  }

  /** Every step brings the end nearer. */
  lemma StepDescends(totals: Totals, s: State, step: Step)
    requires Inv(totals, s) && Enabled(totals, s, step)
    ensures |Apply(totals, s, step).atts| == |s.atts|
    ensures Cost(totals, Apply(totals, s, step)) < Cost(totals, s)
  {
    if HasSubject(step) {
      var i := step.i;
      assert AttOk(totals[i], s.atts[i]);
      AttachmentDescends(totals[i], s.atts[i], step);
      AttsCostAfter(totals, s.atts, i, After(s.atts[i], step));
    }
  }

  lemma NextDescends(totals: Totals, s: State, s': State)
    requires Inv(totals, s) && Next(totals, s, s')
    ensures |s'.atts| == |totals| && Cost(totals, s') < Cost(totals, s)
  {
    var step :| Enabled(totals, s, step) && s' == Apply(totals, s, step);
    StepDescends(totals, s, step);
  }

  lemma RunStepDescends(totals: Totals, t: seq<State>, n: nat)
    requires IsRun(totals, t) && n + 1 < |t|
    ensures |t[n].atts| == |totals| == |t[n + 1].atts| && Cost(totals, t[n + 1]) < Cost(totals, t[n])
  {
    RunKeepsInv(totals, t, n);
    assert StepAt(totals, t, n);
    NextDescends(totals, t[n], t[n + 1]);
  }

  lemma {:induction false} RunDescends(totals: Totals, t: seq<State>, n: nat)
    requires IsRun(totals, t) && n < |t|
    ensures |t[n].atts| == |totals| && n + Cost(totals, t[n]) <= Cost(totals, Init(totals))
  {
    if n > 0 {
      RunDescends(totals, t, n - 1);
      RunStepDescends(totals, t, n - 1);
    }
  }

  /** Only a context can still be cancelled. */
  ghost predicate Stuck(totals: Totals, s: State) {
    |s.atts| == |totals| && forall step | Enabled(totals, s, step) :: step.Cancel?
  }

  /** The attachment was never made and shows nothing, or its channel is closed and drained and it
      shows added, statuses and done: all statuses unless its context was cancelled. */
  ghost predicate EndedWell(total: nat, a: Attachment, i: nat, about: seq<Message>) {
    if a.phase.NotCalled? then about == []
    else
      && a.phase.Gone? && a.closed && a.taken == total
      && about == [JobAdded(i)] + Statuses(i, a.shown) + [JobDone(i)]
      && (a.shown == total || (a.cancelled && a.shown < total))
  }

  lemma FinishedEndsWell(totals: Totals, s: State, i: nat)
    requires Inv(totals, s) && Finished(s) && i < |totals|
    ensures EndedWell(totals[i], s.atts[i], i, About(s.sent, i))
  {
    assert AttOk(totals[i], s.atts[i]) && About(s.sent, i) == Expected(i, s.atts[i]);
  }

  /** Every run is finite, and one that cannot be continued has ended well: Seal returned, all-done
      went out exactly once, and so has every attachment. */
  lemma EveryRunEnds(totals: Totals, t: seq<State>)
    requires IsRun(totals, t)
    ensures |t| <= Cost(totals, Init(totals)) + 1
    ensures Stuck(totals, t[|t| - 1]) ==>
              var s := t[|t| - 1];
              && Finished(s) && multiset(s.sent)[AllDone] == 1
              && forall i | 0 <= i < |totals| :: EndedWell(totals[i], s.atts[i], i, About(s.sent, i))
  {
    var n := |t| - 1;
    var s := t[n];
    RunDescends(totals, t, n);
    RunKeepsInv(totals, t, n);
    AttsCostPositive(totals, s.atts);
    if !Finished(s) {
      var step := NeverStuck(totals, s);
    } else {
      AllDoneOnce(s.sent);
      forall i | 0 <= i < |totals|
        ensures EndedWell(totals[i], s.atts[i], i, About(s.sent, i))
      {
        FinishedEndsWell(totals, s, i);
      }
    }
  }

  lemma AllDoneOnce(sent: seq<Message>)
    requires EndsOnce(sent)
    ensures multiset(sent)[AllDone] == 1
  {
    var front := sent[..|sent| - 1];
    assert sent == front + [AllDone];
    assert multiset(front)[AllDone] == 0;
  }
}
