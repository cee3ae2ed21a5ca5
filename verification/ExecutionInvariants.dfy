/** The invariant of one Execution, and the proof that every service keeps it. */
module ExecutionInvariants {
  import opened ExecutionRows
  import C = CancellationRules
  import opened CancellationLaws
  import opened ApprovalRules
  import opened VotingLaws

  ghost predicate RequestOk(r: RequestRow, stepCount: nat) {
    && r.step < stepCount
    && History(r.mode, r.required, r.decisions)
    && (r.status.Pending? <==> r.resolvedAt.None?)
    && Aggregate(r.mode, r.required, r.decisions)
         == Ok(if r.status.Approved? || r.status.Rejected? then Some(r.status) else None)
  }

  ghost predicate RequestsInv(t: ExecutionRow) {
    forall q :: 0 <= q < |t.requests| ==> RequestOk(t.requests[q], |t.steps|)
  }

  function Last(t: ExecutionRow): RequestRow
    requires t.requests != []
  {
    t.requests[|t.requests| - 1]
  }

  ghost predicate OnlyWaiting(t: ExecutionRow, i: nat) {
    i < |t.steps| && forall j :: 0 <= j < |t.steps| ==> (t.steps[j].status.WaitingApproval? <==> j == i)
  }

  /** WAITING_APPROVAL means one waiting Step, asked about by the newest request. */
  ghost predicate WaitingFor(t: ExecutionRow) {
    t.status.WaitingApproval? ==>
      && t.requests != []
      && OnlyWaiting(t, Last(t).step)
      && (Last(t).status.Pending? || Last(t).status.Approved?)
  }

  ghost predicate NothingLeftWaiting(t: ExecutionRow) {
    && (forall q :: 0 <= q < |t.requests| ==> !t.requests[q].status.Pending?)
    && (forall i :: 0 <= i < |t.steps| ==> !t.steps[i].status.WaitingApproval?)
  }

  ghost predicate OnePending(t: ExecutionRow) {
    forall q :: 0 <= q < |t.requests| && t.requests[q].status.Pending? ==> q == |t.requests| - 1
  }

  /** Kept by every step whatever, even by resume messages delivered late. */
  ghost predicate Core(t: ExecutionRow) {
    && TreeInv(t) && LeaseInv(t) && CancelMarkInv(t) && InputInv(t) && RequestsInv(t)
    && OnePending(t)
    && WaitingFor(t)
    && (!t.status.WaitingApproval? && !t.status.Failed? ==> NothingLeftWaiting(t))
  }

  /** Core, and a failed Execution leaves no question open behind it. */
  ghost predicate Inv(t: ExecutionRow) {
    Core(t) && (t.status.Failed? ==> NothingLeftWaiting(t))
  }

  /** While an Execution is live, unknown evidence below a Step shows in the Step's status:
      whoever writes the one writes the other. */
  ghost predicate EvidenceShown(t: ExecutionRow) {
    !TerminalExecution(t.status) ==>
      forall i :: 0 <= i < |t.steps| && StepUnknown(t.steps[i]) ==> t.steps[i].status.UnknownOutcome?
  }

  /** The invariant in the protocol's own words. */
  lemma InvariantMeans(t: ExecutionRow)
    requires Inv(t)
    ensures forall q, q' | 0 <= q < |t.requests| && 0 <= q' < |t.requests| ::
      t.requests[q].status.Pending? && t.requests[q'].status.Pending? ==> q == q'
    ensures forall q | 0 <= q < |t.requests| && t.requests[q].status.Pending? ::
      && t.status.WaitingApproval? && t.lease == NO_LEASE
      && t.requests[q].step < |t.steps| && t.steps[t.requests[q].step].status.WaitingApproval?
    ensures t.status.WaitingApproval? ==> exists i :: OnlyWaiting(t, i)
    ensures t.status.WaitingApproval? ==>
      && t.requests != [] && OnlyWaiting(t, Last(t).step)
      && (Last(t).status.Pending? || Last(t).status.Approved?)
    ensures t.status.Running? ==> FullLease(t.lease)
    ensures forall q | 0 <= q < |t.requests| && t.requests[q].status.Approved? ::
      |Voters(t.requests[q].decisions, Approve)| >= (if t.requests[q].mode.Any? then 1 else t.requests[q].required)
    ensures forall q | 0 <= q < |t.requests| && t.requests[q].status.Rejected? ::
      Reached(t.requests[q].mode, t.requests[q].required, t.requests[q].decisions, Reject)
    ensures forall q | 0 <= q < |t.requests| && t.requests[q].status.Pending? ::
      && !Reached(t.requests[q].mode, t.requests[q].required, t.requests[q].decisions, Approve)
      && !Reached(t.requests[q].mode, t.requests[q].required, t.requests[q].decisions, Reject)
    ensures forall q | 0 <= q < |t.requests| ::
      |t.requests[q].decisions| <= MaxVotes(t.requests[q].mode, t.requests[q].required)
  {
    if t.status.WaitingApproval? {
      assert OnlyWaiting(t, Last(t).step);
    }
    forall q | 0 <= q < |t.requests|
      ensures t.requests[q].status.Approved? ==>
        |Voters(t.requests[q].decisions, Approve)| >= (if t.requests[q].mode.Any? then 1 else t.requests[q].required)
      ensures t.requests[q].status.Rejected? ==> Reached(t.requests[q].mode, t.requests[q].required, t.requests[q].decisions, Reject)
      ensures t.requests[q].status.Pending? ==>
        && !Reached(t.requests[q].mode, t.requests[q].required, t.requests[q].decisions, Approve)
        && !Reached(t.requests[q].mode, t.requests[q].required, t.requests[q].decisions, Reject)
      ensures |t.requests[q].decisions| <= MaxVotes(t.requests[q].mode, t.requests[q].required)
    {
      var r := t.requests[q];
      assert RequestOk(r, |t.steps|);
      VotingEnds(r.mode, r.required, r.decisions);
      VerdictByVoters(r.mode, r.required, r.decisions);
      if r.status.Approved? { ApprovedByEnough(r.mode, r.required, r.decisions); }
    }
  }

  // ---- what never changes back ---------------------------------------------------

  ghost predicate KeepsHistory(t: ExecutionRow, r: ExecutionRow) {
    && (TerminalExecution(t.status) ==> r.status == t.status)
    && (t.cancel.at.Some? ==> r.cancel == t.cancel)
    && |t.requests| <= |r.requests| && |t.steps| <= |r.steps|
    && (forall q :: 0 <= q < |t.requests| && !t.requests[q].status.Pending? ==> r.requests[q] == t.requests[q])
  }

  ghost predicate KeepsTerminalSteps(t: ExecutionRow, r: ExecutionRow) {
    && |t.steps| <= |r.steps|
    && (forall i :: 0 <= i < |t.steps| && TerminalStep(t.steps[i].status) ==> r.steps[i] == t.steps[i])
  }

  /** Recovery alone rewrites a terminal Step, to put unknown evidence on top of it. */
  ghost predicate PromotesOnly(t: ExecutionRow, r: ExecutionRow) {
    && |t.steps| <= |r.steps|
    && (forall i :: 0 <= i < |t.steps| && TerminalStep(t.steps[i].status) ==>
          r.steps[i] == t.steps[i] || (AmbiguousStep(t.steps[i]) && r.steps[i].status.UnknownOutcome?))
  }

  // ---- cancellation ----------------------------------------------------------------

  /** The tree part of the invariant depends on the Steps, and on a live status only. */
  lemma SameTree(t: ExecutionRow, r: ExecutionRow)
    requires TreeInv(t) && r.steps == t.steps
    requires r.status == t.status || !InFlight(t) || r.status.Running? || r.status.CancelRequested?
    requires TerminalExecution(t.status) ==> TerminalExecution(r.status)
    ensures TreeInv(r) && InFlight(r) == InFlight(t)
  {
  }

  lemma SweepLeavesNothing(t: ExecutionRow, now: Time, actor: Option<UserId>)
    requires TreeInv(t) && RequestsInv(t) && !TerminalExecution(t.status)
    ensures var r := C.Sweep(t, now, actor);
      && NothingLeftWaiting(r) && RequestsInv(r) && KeepsTerminalSteps(t, r)
      && (forall q :: 0 <= q < |t.requests| && !t.requests[q].status.Pending? ==> r.requests[q] == t.requests[q])
  {
    var r := C.Sweep(t, now, actor);
    forall i | 0 <= i < |t.steps| ensures !r.steps[i].status.WaitingApproval? {
      SweepStep(t.steps[i], now);
      assert CallsGuarded(t.steps[i]);
    }
    forall q | 0 <= q < |t.requests| ensures RequestOk(r.requests[q], |r.steps|) {
      assert RequestOk(t.requests[q], |t.steps|);
    }
  }

  lemma AppliedRequests(t: ExecutionRow, now: Time, actor: Option<UserId>, reason: Option<string>)
    requires TreeInv(t) && RequestsInv(t) && !TerminalExecution(t.status) && !t.status.CancelRequested?
    ensures var r := C.Apply(t, now, actor, reason).row;
      && NothingLeftWaiting(r) && RequestsInv(r) && KeepsTerminalSteps(t, r)
      && |r.requests| == |t.requests| && r.steps == C.Sweep(t, now, actor).steps
      && (forall q :: 0 <= q < |t.requests| && !t.requests[q].status.Pending? ==> r.requests[q] == t.requests[q])
  {
    SweepLeavesNothing(t, now, actor);
    var m := C.MarkOnce(t, now, actor, reason);
    var r := C.Apply(t, now, actor, reason).row;
    var sw := C.Sweep(t, now, actor);
    assert r.requests == sw.requests && r.steps == sw.steps;
    forall q | 0 <= q < |r.requests| ensures RequestOk(r.requests[q], |r.steps|) {
      assert RequestOk(sw.requests[q], |sw.steps|);
    }
  }

  lemma ApplyKeeps(t: ExecutionRow, now: Time, actor: Option<UserId>, reason: Option<string>)
    requires Core(t)
    ensures var r := C.Apply(t, now, actor, reason).row;
      && Core(r) && KeepsHistory(t, r) && KeepsTerminalSteps(t, r) && (Inv(t) ==> Inv(r))
  {
    if !TerminalExecution(t.status) && !t.status.CancelRequested? {
      var r := C.Apply(t, now, actor, reason).row;
      SweepRow(t, now, actor);
      AppliedRequests(t, now, actor, reason);
      CancelSplits(t, now, actor, reason);
      SameTree(C.Sweep(t, now, actor), r);
    }
  }

  lemma ReconcileKeeps(t: ExecutionRow, now: Time)
    requires Core(t)
    ensures var r := C.Reconcile(t, now).row;
      && Core(r) && KeepsHistory(t, r) && KeepsTerminalSteps(t, r) && (Inv(t) ==> Inv(r))
  {
    if t.status.CancelRequested? && !InFlight(t) {
      SweepRow(t, now, t.cancel.actor);
      SweepLeavesNothing(t, now, t.cancel.actor);
    }
  }

  lemma ClosedStep(s: StepRow, attempt: nat, call: nat, status: WorkStatus, now: Time)
    requires attempt < |s.attempts| && call < |s.attempts[attempt].calls|
    requires s.attempts[attempt].calls[call].status.Started? && !status.Started?
    requires CallsGuarded(s) && AttemptsGuarded(s)
    ensures var s' := C.CloseCall(s, attempt, call, status, now);
      && CallsGuarded(s') && AttemptsGuarded(s') && !StepInFlight(s') && s'.status.Cancelled?
  {
    var s' := C.CloseCall(s, attempt, call, status, now);
    assert AttemptInFlight(s.attempts[attempt]);
    assert StepInFlight(s);
    assert OneCallInFlight(s.attempts[attempt]);
    forall k | 0 <= k < |s.attempts|
      ensures !AttemptInFlight(s'.attempts[k]) && !s'.attempts[k].status.Started? && OneCallInFlight(s'.attempts[k])
    {
      assert OneCallInFlight(s.attempts[k]);
      if k != attempt {
        assert !s.attempts[k].status.Started?;
        assert s'.attempts[k] == s.attempts[k];
      }
    }
  }

  /** Closing the call a worker holds: the Step it runs becomes CANCELLED, nothing else moves. */
  lemma CloseKeeps(t: ExecutionRow, ref: C.CallRef, status: WorkStatus, now: Time)
    requires Core(t) && (t.status.Running? || t.status.CancelRequested?)
    requires C.HasCall(t, ref) && C.CallAt(t, ref).status.Started? && !status.Started?
    ensures var s := C.CloseCall(t.steps[ref.step], ref.attempt, ref.call, status, now);
      var r := C.EnsureRequested(t.(steps := t.steps[ref.step := s]), now);
      && Core(r) && KeepsHistory(t, r) && KeepsTerminalSteps(t, r) && (Inv(t) ==> Inv(r))
  {
    var s := t.steps[ref.step];
    assert CallsGuarded(s) && AttemptsGuarded(s);
    ClosedStep(s, ref.attempt, ref.call, status, now);
    assert AttemptInFlight(s.attempts[ref.attempt]);
    assert StepInFlight(s);
    var r := C.EnsureRequested(t.(steps := t.steps[ref.step := C.CloseCall(s, ref.attempt, ref.call, status, now)]), now);
    forall q | 0 <= q < |t.requests| ensures RequestOk(r.requests[q], |r.steps|) {
      assert RequestOk(t.requests[q], |t.steps|);
    }
  }

  lemma RecoverStepKeeps(s: StepRow, now: Time)
    requires CallsGuarded(s)
    ensures var u := C.PromoteStep(C.LoseStep(s, now), now);
      var r := C.CancelSafeStep(u, now);
      && !StepInFlight(r) && CallsGuarded(r)
      && TerminalStep(r.status)
      && (TerminalStep(s.status) ==> r == s || (AmbiguousStep(s) && r.status.UnknownOutcome?))
  {
    var l := C.LoseStep(s, now);
    var u := C.PromoteStep(l, now);
    LoseStepFacts(s, now);
    PromoteStepFacts(l, now);
    SweepKeepsCalls(u, now);
    NotInFlight(C.CancelSafeStep(u, now));
    if TerminalStep(s.status) && !AmbiguousStep(s) {
      assert l == s;
      forall k | 0 <= k < |s.attempts| ensures u.attempts[k] == s.attempts[k] {
        assert !AttemptUnknown(s.attempts[k]);
        assert u.attempts[k] == C.LiftAttempt(s.attempts[k], now);
      }
      assert u.attempts == s.attempts;
      assert !C.HasSettledUnknown(l);
      assert u == s;
    }
  }

  lemma NotInFlight(s: StepRow)
    requires !StepInFlight(s)
    ensures CallsGuarded(s)
  {
    forall k | 0 <= k < |s.attempts| ensures !AttemptInFlight(s.attempts[k]) && OneCallInFlight(s.attempts[k]) {
      assert !AttemptInFlight(s.attempts[k]);
    }
  }

  lemma RecoveredTree(t: ExecutionRow, now: Time)
    requires t.status.CancelRequested? && TreeInv(t)
    ensures var r := C.Recover(t, now).row;
      && PromotesOnly(t, r) && |r.steps| == |t.steps|
      && (forall i :: 0 <= i < |r.steps| ==>
            !StepInFlight(r.steps[i]) && CallsGuarded(r.steps[i]) && TerminalStep(r.steps[i].status))
  {
    var u := C.RecoverSteps(t, now);
    var r := C.Recover(t, now).row;
    RecoveredSteps(t, now);
    ReconcileEnds(u, now);
    forall i | 0 <= i < |t.steps|
      ensures !StepInFlight(r.steps[i]) && CallsGuarded(r.steps[i])
      ensures TerminalStep(r.steps[i].status)
      ensures TerminalStep(t.steps[i].status) ==>
        r.steps[i] == t.steps[i] || (AmbiguousStep(t.steps[i]) && r.steps[i].status.UnknownOutcome?)
    {
      RecoverStepKeeps(t.steps[i], now);
      assert u.steps[i] == C.PromoteStep(C.LoseStep(t.steps[i], now), now);
    }
  }

  lemma RecoveredRequests(t: ExecutionRow, now: Time)
    requires t.status.CancelRequested? && !InFlight(C.RecoverSteps(t, now)) && RequestsInv(t)
    ensures var r := C.Recover(t, now).row;
      && RequestsInv(r.(steps := t.steps)) && |r.requests| == |t.requests|
      && (forall q :: 0 <= q < |r.requests| ==> !r.requests[q].status.Pending?)
      && (forall q :: 0 <= q < |t.requests| && !t.requests[q].status.Pending? ==> r.requests[q] == t.requests[q])
      && (forall k :: 0 <= k < |r.inputs| ==> !r.inputs[k].status.Open?)
  {
    var r := C.Recover(t, now).row;
    forall q | 0 <= q < |t.requests|
      ensures r.requests[q] == C.CancelRequest(t.requests[q], now)
      ensures RequestOk(r.requests[q], |t.steps|)
    {
      assert RequestOk(t.requests[q], |t.steps|);
    }
  }

  lemma RecoverKeeps(t: ExecutionRow, now: Time)
    requires Core(t)
    ensures var r := C.Recover(t, now).row;
      && Core(r) && KeepsHistory(t, r) && PromotesOnly(t, r) && (Inv(t) ==> Inv(r))
  {
    hide StepInFlight, CallsGuarded, AttemptsGuarded, C.Sweep, C.PromoteStep, C.LoseStep;
    if t.status.CancelRequested? {
      var r := C.Recover(t, now).row;
      RecoveryTerminates(t, now);
      RecoveredSteps(t, now);
      RecoveredTree(t, now);
      RecoveredRequests(t, now);
      assert TreeInv(r);
      assert RequestsInv(r) by {
        assert forall q :: 0 <= q < |r.requests| ==> RequestOk(r.(steps := t.steps).requests[q], |t.steps|);
      }
    }
  }

  /** One Attempt through recovery. */
  lemma RecoveredAttempt(s: StepRow, now: Time, k: nat)
    requires CallsGuarded(s) && AttemptsGuarded(s) && k < |s.attempts|
    ensures var a := s.attempts[k];
      C.CancelSafeStep(C.PromoteStep(C.LoseStep(s, now), now), now).attempts[k].status.Started? <==>
        a.status.Started? && !AttemptInFlight(a) && !C.CallsUnknown(a) && AmbiguousStep(s)
  {
    var a := s.attempts[k];
    var l := C.LoseStep(s, now);
    var u := C.PromoteStep(l, now);
    LoseStepFacts(s, now);
    PromoteStepFacts(l, now);
    assert l.attempts[k] == C.LoseAttempt(a, now);
    assert u.attempts[k] == C.LiftAttempt(l.attempts[k], now);
    assert !AttemptInFlight(l.attempts[k]);
    assert !StepInFlight(u);
    if AttemptInFlight(a) {
      assert a.status.Started?;
      assert u.attempts[k].status.UnknownOutcome?;
    } else {
      assert l.attempts[k] == a;
      if AmbiguousStep(s) {
        assert u.status.UnknownOutcome?;
      } else {
        assert !AttemptUnknown(a);
        assert u.status == s.status;
      }
    }
  }

  /** Recovery can leave an Attempt STARTED: exactly one with no ambiguous call of its
      own, in a Step that has ambiguous evidence elsewhere. */
  lemma AttemptLeftStarted(t: ExecutionRow, now: Time, i: nat, k: nat)
    requires t.status.CancelRequested? && TreeInv(t)
    requires i < |t.steps| && k < |t.steps[i].attempts|
    ensures OnlyStartedCallsLost(t, C.Recover(t, now).row, now)
    ensures var a := t.steps[i].attempts[k];
      C.Recover(t, now).row.steps[i].attempts[k].status.Started? <==>
        a.status.Started? && !AttemptInFlight(a) && !C.CallsUnknown(a) && AmbiguousStep(t.steps[i])
  {
    RecoveryTerminates(t, now);
    RecoveredSteps(t, now);
    RecoveredAttempt(t.steps[i], now, k);
    var u := C.RecoverSteps(t, now);
    assert u.steps[i] == C.PromoteStep(C.LoseStep(t.steps[i], now), now);
    assert C.Recover(t, now).row.steps[i] == C.CancelSafeStep(u.steps[i], now);
  }

  /** No Attempt stays STARTED where the evidence shows. */
  lemma NoAttemptLeftStarted(t: ExecutionRow, now: Time, i: nat, k: nat)
    requires t.status.CancelRequested? && TreeInv(t) && EvidenceShown(t)
    requires i < |t.steps| && k < |t.steps[i].attempts|
    ensures OnlyStartedCallsLost(t, C.Recover(t, now).row, now)
    ensures !C.Recover(t, now).row.steps[i].attempts[k].status.Started?
  {
    AttemptLeftStarted(t, now, i, k);
    var s := t.steps[i];
    assert CallsGuarded(s) && AttemptsGuarded(s);
    if s.attempts[k].status.Started? && StepInFlight(s) {
      var j :| 0 <= j < |s.attempts| && AttemptInFlight(s.attempts[j]);
      assert s.attempts[j].status.Started?;
    }
  }

  /** A tree without that: an Attempt at work beside one of unknown outcome.  The retry
      decision of the worker starts no Attempt after an unknown outcome, so only a row from
      elsewhere brings this about. */
  const BESIDE_UNKNOWN := ExecutionRow(
    ExecutionStatus.CancelRequested, Lease(Some("w"), Some(0), Some(60), None), CancelMark(Some(1), None, None), None, None, 2, 3,
    [StepRow(StepKind.Tool, StepStatus.Running, Some(0), Some(0), None, None, 2, 1,
             [AttemptRow(WorkStatus.UnknownOutcome, Some(0), None, None, None, []),
              AttemptRow(WorkStatus.Started, None, Some("w"), Some(60), None, [])])],
    [], [])

  lemma BesideUnknown()
    ensures Core(BESIDE_UNKNOWN) && !InFlight(BESIDE_UNKNOWN)
    ensures var s := BESIDE_UNKNOWN.steps[0];
      !AttemptInFlight(s.attempts[1]) && !C.CallsUnknown(s.attempts[1]) && AmbiguousStep(s)
  {
    var s := BESIDE_UNKNOWN.steps[0];
    assert forall k :: 0 <= k < 2 ==> !AttemptInFlight(s.attempts[k]);
    assert AttemptUnknown(s.attempts[0]);
  }

  lemma AttemptLeftBehind(now: Time)
    ensures Core(BESIDE_UNKNOWN)
    ensures var r := C.Recover(BESIDE_UNKNOWN, now).row;
      |r.steps| == 1 && |r.steps[0].attempts| == 2 && r.status.Failed? && r.steps[0].attempts[1].status.Started?
  {
    BesideUnknown();
    var t := BESIDE_UNKNOWN;
    hide C.Recover, AmbiguousStep, AttemptInFlight, C.CallsUnknown;
    assert AmbiguousStep(t.steps[0]);
    AttemptLeftStarted(t, now, 0, 1);
    RecoveryTerminates(t, now);
  }
}
