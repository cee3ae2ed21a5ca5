/** Cancellation must never hide an ambiguous remote side effect: over which runs a
    CANCELLED Execution carries no unknown outcome. */
module NeverHides {
  import opened ExecutionRows
  import opened Runs
  import C = CancellationRules
  import opened CancellationLaws
  import opened ApprovalRules
  import opened ExecutionInvariants
  import opened ApprovalLaws
  import opened ExecutionRuns

  ghost predicate Clean(t: ExecutionRow) {
    t.status.Cancelled? ==> !Unknown(t)
  }

  /** A cancel that meets a live Execution with an unknown outcome and no call in flight. */
  ghost predicate CancelMeetsUnknown(t: ExecutionRow, e: Event) {
    && e.call.Cancel?
    && !TerminalExecution(t.status) && !t.status.CancelRequested?
    && Unknown(t) && !InFlight(t)
  }

  // ---- one step ----------------------------------------------------------------------

  /** Where the evidence shows, unknown outcomes are those of Step statuses. */
  lemma ShownMeans(t: ExecutionRow)
    requires EvidenceShown(t) && !TerminalExecution(t.status)
    ensures Unknown(t) <==> exists i :: 0 <= i < |t.steps| && t.steps[i].status.UnknownOutcome?
  {
    if i :| 0 <= i < |t.steps| && t.steps[i].status.UnknownOutcome? {
      assert StepUnknown(t.steps[i]);
    }
  }

  /** Changing one Step that shows no unknown outcome for one that has none. */
  lemma ShownWith(t: ExecutionRow, r: ExecutionRow, i: nat, s: StepRow)
    requires EvidenceShown(t) && !TerminalExecution(t.status)
    requires i < |t.steps| && r.steps == t.steps[i := s] && !StepUnknown(s)
    ensures EvidenceShown(r)
  {
  }

  lemma CancelIsClean(t: ExecutionRow, e: Event)
    requires Core(t) && EvidenceShown(t) && Clean(t) && e.call.Cancel?
    ensures var r := After(t, e);
      EvidenceShown(r) && (Clean(r) <==> !CancelMeetsUnknown(t, e))
  {
    if !TerminalExecution(t.status) && !t.status.CancelRequested? {
      var r := After(t, e);
      ApplyHides(t, e.now, e.call.actor, e.call.reason);
      assert r.steps == Map(s => C.CancelSafeStep(s, e.now), t.steps);
      forall i | 0 <= i < |t.steps| && StepUnknown(r.steps[i]) ensures r.steps[i].status.UnknownOutcome? {
        SweepKeepsCalls(t.steps[i], e.now);
      }
    }
  }

  lemma ReconcileIsClean(t: ExecutionRow, now: Time)
    requires EvidenceShown(t) && Clean(t)
    ensures var r := C.Reconcile(t, now).row;
      EvidenceShown(r) && Clean(r)
  {
    if t.status.CancelRequested? && !InFlight(t) {
      ReconcileEnds(t, now);
      ReconcileHides(t, now);
      ShownMeans(t);
    }
  }

  /** Closing the call a worker holds, then reconciling. */
  lemma ClosingIsClean(t: ExecutionRow, ref: C.CallRef, status: WorkStatus, now: Time)
    requires Core(t) && EvidenceShown(t) && HoldsCall(t, ref) && (status.Cancelled? || status.Succeeded?)
    ensures var s := C.CloseCall(t.steps[ref.step], ref.attempt, ref.call, status, now);
      var r := C.Reconcile(C.EnsureRequested(t.(steps := t.steps[ref.step := s]), now), now).row;
      EvidenceShown(r) && Clean(r)
  {
    var s := t.steps[ref.step];
    var s' := C.CloseCall(s, ref.attempt, ref.call, status, now);
    var m := C.EnsureRequested(t.(steps := t.steps[ref.step := s']), now);
    assert CallsGuarded(s) && AttemptInFlight(s.attempts[ref.attempt]) && StepInFlight(s);
    assert !StepUnknown(s);
    ClosedIsKnown(s, ref.attempt, ref.call, status, now);
    ShownWith(t, m, ref.step, s');
    ReconcileIsClean(m, now);
  }

  lemma ClosedIsKnown(s: StepRow, attempt: nat, call: nat, status: WorkStatus, now: Time)
    requires attempt < |s.attempts| && call < |s.attempts[attempt].calls|
    requires !StepUnknown(s) && (status.Cancelled? || status.Succeeded?)
    ensures !StepUnknown(C.CloseCall(s, attempt, call, status, now))
  {
    var s' := C.CloseCall(s, attempt, call, status, now);
    forall k | 0 <= k < |s'.attempts| ensures !AttemptUnknown(s'.attempts[k]) {
      assert !AttemptUnknown(s.attempts[k]);
    }
  }

  /** Waits and resumes move one Step that shows no unknown outcome. */
  lemma WaitIsClean(t: ExecutionRow, e: Event)
    requires EvidenceShown(t) && Clean(t) && Enabled(t, e)
    requires e.call.EnterForTool? || e.call.EnterForApproval?
    ensures var r := After(t, e);
      EvidenceShown(r) && Clean(r)
  {
  }

  lemma ResumeIsClean(t: ExecutionRow, e: Event)
    requires EvidenceShown(t) && Clean(t) && e.call.Resume?
    ensures var r := After(t, e);
      EvidenceShown(r) && Clean(r)
  {
  }

  /** A vote leaves the Steps alone, or fails the Execution. */
  lemma VoteIsClean(t: ExecutionRow, e: Event)
    requires Core(t) && EvidenceShown(t) && Clean(t) && (e.call.Decide? || e.call.Expire?)
    ensures var r := After(t, e);
      EvidenceShown(r) && Clean(r)
  {
    hide StepUnknown, TreeInv, LeaseInv, CancelMarkInv, InputInv, RequestsInv, OnePending;
    var r := After(t, e);
    assert r.status.Failed? || (r.status == t.status && r.steps == t.steps);
  }

  /** One step: the evidence goes on showing, and a clean row is followed by a clean one
      exactly when the step is no such cancel. */
  lemma StepIsClean(t: ExecutionRow, e: Event)
    requires Core(t) && EvidenceShown(t) && Clean(t) && Enabled(t, e)
    ensures var r := After(t, e);
      EvidenceShown(r) && (Clean(r) <==> !CancelMeetsUnknown(t, e))
  {
    match e.call
    case Cancel(_, _) => CancelIsClean(t, e);
    case BeforeSend(ref) => ClosingIsClean(t, ref, WorkStatus.Cancelled, e.now);
    case SettleInput(ref) => ClosingIsClean(t, ref, WorkStatus.Succeeded, e.now);
    case Reconcile => ReconcileIsClean(t, e.now);
    case RecoverExpired =>
      if t.status.CancelRequested? {
        RecoveryTerminates(t, e.now);
        RecoveryNeverHides(t, e.now);
      }
    case Work(r) =>
    case EnterForTool(_, _, _, _) => WaitIsClean(t, e);
    case EnterForApproval(_, _, _) => WaitIsClean(t, e);
    case Resume(_) => ResumeIsClean(t, e);
    case _ => VoteIsClean(t, e);
  }

  // ---- whole runs ----------------------------------------------------------------------

  lemma {:induction false} RunShowsEvidence(ss: seq<ExecutionRow>, es: seq<Event>, k: nat)
    requires IsRun(ss, es) && EvidenceShown(ss[0]) && k < |ss|
    ensures EvidenceShown(ss[k])
  {
    if k > 0 {
      RunShowsEvidence(ss, es, k - 1);
      RunKeepsCore(ss, es, k - 1);
      assert Link(ss[k - 1], es[k - 1], ss[k]);
      if Clean(ss[k - 1]) { StepIsClean(ss[k - 1], es[k - 1]); } else { StepKeeps(ss[k - 1], es[k - 1]); }
    }
  }

  /** Over every run, late resumes included: a CANCELLED Execution never carries an unknown
      outcome if and only if no cancel meets a live Execution that has one while no call is
      in flight. */
  lemma RunNeverHides(ss: seq<ExecutionRow>, es: seq<Event>)
    requires IsRun(ss, es) && EvidenceShown(ss[0]) && Clean(ss[0])
    ensures (forall k :: 0 <= k < |ss| ==> Clean(ss[k])) <==> (forall k :: 0 <= k < |es| ==> !CancelMeetsUnknown(ss[k], es[k]))
  {
    var clean := seq(|ss|, k requires 0 <= k < |ss| => Clean(ss[k]));
    var hides := seq(|es|, k requires 0 <= k < |es| => CancelMeetsUnknown(ss[k], es[k]));
    forall k | 0 <= k < |es| ensures clean[k] ==> (clean[k + 1] <==> !hides[k]) {
      RunKeepsCore(ss, es, k);
      RunShowsEvidence(ss, es, k);
      assert Link(ss[k], es[k], ss[k + 1]);
      if Clean(ss[k]) { StepIsClean(ss[k], es[k]); }
    }
    FirstBreach(clean, hides);
    assert forall k :: 0 <= k < |ss| ==> clean[k] == Clean(ss[k]);
    assert forall k :: 0 <= k < |es| ==> hides[k] == CancelMeetsUnknown(ss[k], es[k]);
  }

  // ---- a cancel that hides ---------------------------------------------------------------

  function Dispatched(step: StepStatus, work: WorkStatus, finishedAt: Option<Time>): StepRow {
    StepRow(StepKind.Tool, step, Some(0), Some(0), finishedAt, None, 1, 2,
            [AttemptRow(work, finishedAt, if work.Started? then Some("w") else None, if work.Started? then Some(60) else None,
                        None, [CallRow(work, finishedAt)])])
  }

  const SIBLING := Dispatched(StepStatus.Running, WorkStatus.Started, None)

  /** Two Steps of one wave at work; the outcome of the first call stays unknown, the second
      call succeeds, and before the wave is settled the user cancels. */
  const W0 := ExecutionRow(
    ExecutionStatus.Running, Lease(Some("w"), Some(0), Some(60), None), CancelMark(None, None, None), None, None, 1, 3,
    [SIBLING, SIBLING], [], [])
  const W1 := W0.(steps := [Dispatched(StepStatus.UnknownOutcome, WorkStatus.UnknownOutcome, Some(1)), SIBLING])
  const W2 := W1.(steps := [W1.steps[0], Dispatched(StepStatus.Succeeded, WorkStatus.Succeeded, Some(2))])

  const SETTLED_FIRST := Event(1, Work(W1))
  const SETTLED_SECOND := Event(2, Work(W2))
  const CANCEL := Event(3, Cancel(Some(3), None))

  ghost predicate Hidden(ss: seq<ExecutionRow>, es: seq<Event>) {
    && IsRun(ss, es) && |es| == 3 && EvidenceShown(ss[0])
    && (forall k :: 0 <= k < 3 ==> Inv(ss[k]) && Clean(ss[k]))
    && HidesUnknown(ss[3])
  }

  ghost predicate HidesUnknown(t: ExecutionRow) {
    && Inv(t) && t.status.Cancelled?
    && |t.steps| == 2 && t.steps[0].status.UnknownOutcome?
    && |t.steps[0].attempts| == 1 && C.CallsUnknown(t.steps[0].attempts[0])
  }

  lemma DispatchedIsSound(step: StepStatus, work: WorkStatus, finishedAt: Option<Time>)
    requires work.Started? ==> step.Running?
    ensures var s := Dispatched(step, work, finishedAt);
      && CallsGuarded(s) && AttemptsGuarded(s)
      && (StepInFlight(s) <==> work.Started?)
      && (StepUnknown(s) <==> step.UnknownOutcome? || work.UnknownOutcome?)
      && (C.CallsUnknown(s.attempts[0]) <==> work.UnknownOutcome?)
  {
    var s := Dispatched(step, work, finishedAt);
    assert s.attempts[0].calls[0].status == work;
    assert AttemptInFlight(s.attempts[0]) <==> work.Started?;
    assert AttemptUnknown(s.attempts[0]) <==> work.UnknownOutcome?;
  }

  lemma WaveIsSound()
    ensures Inv(W0) && EvidenceShown(W0) && TreeInv(W1) && EvidenceShown(W1) && TreeInv(W2) && EvidenceShown(W2)
    ensures !InFlight(W2) && C.CallsUnknown(W2.steps[0].attempts[0])
  {
    hide CallsGuarded, AttemptsGuarded, StepInFlight, StepUnknown, C.CallsUnknown;
    DispatchedIsSound(StepStatus.Running, WorkStatus.Started, None);
    DispatchedIsSound(StepStatus.UnknownOutcome, WorkStatus.UnknownOutcome, Some(1));
    DispatchedIsSound(StepStatus.Succeeded, WorkStatus.Succeeded, Some(2));
  }

  lemma WaveRuns()
    ensures Link(W0, SETTLED_FIRST, W1) && Link(W1, SETTLED_SECOND, W2)
  {
    WaveIsSound();
    hide TreeInv, EvidenceShown;
  }

  lemma WaveIsCancelled()
    requires Inv(W2)
    ensures HidesUnknown(After(W2, CANCEL))
  {
    WaveIsSound();
    ApplyKeeps(W2, 3, Some(3), None);
    hide Inv, C.CallsUnknown, InFlight;
  }

  lemma CancelHidesUnknown()
    ensures exists ss, es :: Hidden(ss, es)
  {
    WaveIsSound();
    WaveRuns();
    StepKeeps(W0, SETTLED_FIRST);
    StepKeeps(W1, SETTLED_SECOND);
    WaveIsCancelled();
    hide Link, Inv, HidesUnknown;
    assert Hidden([W0, W1, W2, After(W2, CANCEL)], [SETTLED_FIRST, SETTLED_SECOND, CANCEL]);
  }
}
