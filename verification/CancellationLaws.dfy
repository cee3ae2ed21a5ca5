/** What cancellation guarantees, for every row. */
module CancellationLaws {
  import opened ExecutionRows
  import opened CancellationRules

  // ---- one Step ----------------------------------------------------------------

  /** The sweep never touches a ToolCall, so it neither hides nor invents evidence. */
  lemma SweepKeepsCalls(s: StepRow, now: Time)
    ensures var s' := CancelSafeStep(s, now);
      && |s'.attempts| == |s.attempts|
      && (forall k :: 0 <= k < |s.attempts| ==> s'.attempts[k].calls == s.attempts[k].calls)
      && StepInFlight(s') == StepInFlight(s)
      && (StepUnknown(s') == StepUnknown(s))
  {
    var s' := CancelSafeStep(s, now);
    assert forall k :: 0 <= k < |s.attempts| ==> s'.attempts[k].calls == s.attempts[k].calls;
    assert forall k :: 0 <= k < |s.attempts| ==> AttemptInFlight(s'.attempts[k]) == AttemptInFlight(s.attempts[k]);
    assert forall k :: 0 <= k < |s.attempts| ==> AttemptUnknown(s'.attempts[k]) == AttemptUnknown(s.attempts[k]);
  }

  lemma SweepStep(s: StepRow, now: Time)
    requires CallsGuarded(s)
    ensures var s' := CancelSafeStep(s, now);
      && CallsGuarded(s')
      && (StepInFlight(s) ==> s' == s)
      && (!TerminalStep(s'.status) <==> StepInFlight(s))
      && (AttemptsGuarded(s) ==> AttemptsGuarded(s'))
      && (AttemptsGuarded(s) && !StepInFlight(s) ==>
            forall k :: 0 <= k < |s'.attempts| ==> !s'.attempts[k].status.Started?)
  {
    SweepKeepsCalls(s, now);
    var s' := CancelSafeStep(s, now);
    forall k | 0 <= k < |s.attempts|
      ensures AttemptInFlight(s'.attempts[k]) == AttemptInFlight(s.attempts[k])
      ensures OneCallInFlight(s'.attempts[k])
    {
      assert OneCallInFlight(s.attempts[k]);
    }
  }

  // ---- property: cancelling splits in two --------------------------------------

  ghost predicate NothingPending(t: ExecutionRow) {
    && (forall k :: 0 <= k < |t.requests| ==> !t.requests[k].status.Pending?)
    && (forall k :: 0 <= k < |t.inputs| ==> !t.inputs[k].status.Open?)
  }

  ghost predicate Quiet(t: ExecutionRow) {
    && t.lease == NO_LEASE
    && NothingPending(t)
    && !InFlight(t)
    && (forall i :: 0 <= i < |t.steps| ==> TerminalStep(t.steps[i].status))
    && (forall i, k :: 0 <= i < |t.steps| && 0 <= k < |t.steps[i].attempts| ==> !t.steps[i].attempts[k].status.Started?)
  }

  /** The Steps still open are exactly those with a call in flight, and they are as before. */
  ghost predicate OnlyInFlightOpen(t: ExecutionRow, r: ExecutionRow) {
    && |r.steps| == |t.steps|
    && (forall i :: 0 <= i < |t.steps| ==> (!TerminalStep(r.steps[i].status) <==> StepInFlight(t.steps[i])))
    && (forall i :: 0 <= i < |t.steps| && StepInFlight(t.steps[i]) ==> r.steps[i] == t.steps[i])
  }

  ghost predicate CallsUntouched(t: ExecutionRow, r: ExecutionRow) {
    && |r.steps| == |t.steps|
    && (forall i :: 0 <= i < |t.steps| ==> |r.steps[i].attempts| == |t.steps[i].attempts|)
    && (forall i, k :: 0 <= i < |t.steps| && 0 <= k < |t.steps[i].attempts| ==>
          r.steps[i].attempts[k].calls == t.steps[i].attempts[k].calls)
  }

  /** Calls in flight only in a RUNNING Step; STARTED Attempts only in one at work or waiting. */
  ghost predicate WorkInPlace(s: StepRow) {
    && (StepInFlight(s) ==> s.status.Running?)
    && (forall k :: 0 <= k < |s.attempts| && s.attempts[k].status.Started? ==>
          s.status.Running? || s.status.WaitingInput? || s.status.WaitingApproval?)
  }

  lemma SplitStep(s: StepRow, now: Time)
    requires WorkInPlace(s)
    ensures var s' := CancelSafeStep(s, now);
      && (StepInFlight(s) ==> s' == s)
      && (!TerminalStep(s'.status) <==> StepInFlight(s))
      && (!StepInFlight(s) ==> forall k :: 0 <= k < |s'.attempts| ==> !s'.attempts[k].status.Started?)
  {
  }

  lemma SweepRow(t: ExecutionRow, now: Time, actor: Option<UserId>)
    requires TreeInv(t) && !TerminalExecution(t.status)
    ensures var r := Sweep(t, now, actor);
      && NothingPending(r) && TreeInv(r) && InFlight(r) == InFlight(t)
      && OnlyInFlightOpen(t, r) && CallsUntouched(t, r)
      && (!InFlight(t) ==> Quiet(r.(lease := NO_LEASE)))
  {
    var r := Sweep(t, now, actor);
    forall i | 0 <= i < |t.steps|
      ensures r.steps[i] == CancelSafeStep(t.steps[i], now)
      ensures CallsGuarded(r.steps[i]) && AttemptsGuarded(r.steps[i])
      ensures StepInFlight(r.steps[i]) == StepInFlight(t.steps[i])
      ensures StepInFlight(t.steps[i]) ==> r.steps[i] == t.steps[i]
      ensures !TerminalStep(r.steps[i].status) <==> StepInFlight(t.steps[i])
      ensures !StepInFlight(t.steps[i]) ==>
        forall k :: 0 <= k < |r.steps[i].attempts| ==> !r.steps[i].attempts[k].status.Started?
      ensures |r.steps[i].attempts| == |t.steps[i].attempts|
      ensures forall k :: 0 <= k < |t.steps[i].attempts| ==> r.steps[i].attempts[k].calls == t.steps[i].attempts[k].calls
    {
      SweepKeepsCalls(t.steps[i], now);
      SweepStep(t.steps[i], now);
    }
  }

  lemma CancelSplits(t: ExecutionRow, now: Time, actor: Option<UserId>, reason: Option<string>)
    requires InFlight(t) ==> t.status.Running?
    requires forall i :: 0 <= i < |t.steps| ==> WorkInPlace(t.steps[i])
    requires !TerminalExecution(t.status) && !t.status.CancelRequested?
    ensures var reply := Apply(t, now, actor, reason);
      var r := reply.row;
      && reply.result.Ok?
      && NothingPending(r) && CallsUntouched(t, r)
      && (!InFlight(t) ==> r.status.Cancelled? && Quiet(r) && reply.result.value.mode == Immediate)
      && (InFlight(t) ==> r.status.CancelRequested? && r.lease == t.lease && reply.result.value.mode == Requested)
      && (InFlight(t) ==> OnlyInFlightOpen(t, r))
      && (r.status.Cancelled? && Unknown(r) <==> !InFlight(t) && Unknown(t))
  {
    ApplyHides(t, now, actor, reason);
    hide Unknown;
    var swept := Sweep(MarkOnce(t, now, actor, reason), now, actor);
    forall i | 0 <= i < |t.steps|
      ensures StepInFlight(swept.steps[i]) == StepInFlight(t.steps[i])
      ensures |swept.steps[i].attempts| == |t.steps[i].attempts|
      ensures forall k :: 0 <= k < |t.steps[i].attempts| ==> swept.steps[i].attempts[k].calls == t.steps[i].attempts[k].calls
      ensures !TerminalStep(swept.steps[i].status) <==> StepInFlight(t.steps[i])
      ensures StepInFlight(t.steps[i]) ==> swept.steps[i] == t.steps[i]
      ensures !StepInFlight(t.steps[i]) ==>
        forall k :: 0 <= k < |t.steps[i].attempts| ==> !swept.steps[i].attempts[k].status.Started?
    {
      SweepKeepsCalls(t.steps[i], now);
      SplitStep(t.steps[i], now);
    }
  }

  // ---- property: recovery never hides an ambiguous side effect ------------------

  lemma LoseStepFacts(s: StepRow, now: Time)
    ensures var s' := LoseStep(s, now);
      && |s'.attempts| == |s.attempts|
      && !StepInFlight(s')
      && StepUnknown(s') == AmbiguousStep(s)
      && (StepInFlight(s) ==> HasSettledUnknown(s'))
      && (forall k :: 0 <= k < |s.attempts| ==> s'.attempts[k] == LoseAttempt(s.attempts[k], now))
  {
    var s' := LoseStep(s, now);
    forall k | 0 <= k < |s.attempts|
      ensures s'.attempts[k] == LoseAttempt(s.attempts[k], now)
      ensures !AttemptInFlight(s'.attempts[k])
      ensures AttemptUnknown(s'.attempts[k]) == (AttemptInFlight(s.attempts[k]) || AttemptUnknown(s.attempts[k]))
    {
      if !StepInFlight(s) {
        assert !AttemptInFlight(s.attempts[k]);
      }
    }
  }

  lemma PromoteStepFacts(s: StepRow, now: Time)
    requires !StepInFlight(s)
    ensures var s' := PromoteStep(s, now);
      && |s'.attempts| == |s.attempts|
      && !StepInFlight(s')
      && (s'.status.UnknownOutcome? <==> StepUnknown(s))
      && (!StepUnknown(s) ==> s'.status == s.status)
      && (forall k :: 0 <= k < |s.attempts| ==> s'.attempts[k].calls == s.attempts[k].calls)
  {
    var s' := PromoteStep(s, now);
    forall k | 0 <= k < |s.attempts|
      ensures !AttemptInFlight(s.attempts[k])
      ensures s'.attempts[k].calls == s.attempts[k].calls
      ensures !AttemptInFlight(s'.attempts[k])
    {
      assert s'.attempts[k] == LiftAttempt(s.attempts[k], now);
    }
  }

  lemma {:induction false} FirstUnknownIsSome(ss: seq<StepRow>)
    ensures FirstUnknown(ss).Some? <==> exists i :: 0 <= i < |ss| && ss[i].status.UnknownOutcome?
  {
    if ss != [] {
      FirstUnknownIsSome(ss[1..]);
      if i :| 0 <= i < |ss[1..]| && ss[1..][i].status.UnknownOutcome? {
        assert ss[i + 1].status.UnknownOutcome?;
      }
      if i :| 0 <= i < |ss| && ss[i].status.UnknownOutcome? {
        assert i == 0 || ss[1..][i - 1] == ss[i];
      }
    }
  }

  lemma RecoveredSteps(t: ExecutionRow, now: Time)
    ensures var r := RecoverSteps(t, now);
      && |r.steps| == |t.steps|
      && !InFlight(r)
      && (forall i :: 0 <= i < |t.steps| ==> (r.steps[i].status.UnknownOutcome? <==> AmbiguousStep(t.steps[i])))
      && (forall i :: 0 <= i < |t.steps| && !AmbiguousStep(t.steps[i]) ==> r.steps[i].status == t.steps[i].status)
  {
    var r := RecoverSteps(t, now);
    forall i | 0 <= i < |t.steps|
      ensures !StepInFlight(r.steps[i])
      ensures r.steps[i].status.UnknownOutcome? <==> AmbiguousStep(t.steps[i])
      ensures !AmbiguousStep(t.steps[i]) ==> r.steps[i].status == t.steps[i].status
    {
      LoseStepFacts(t.steps[i], now);
      PromoteStepFacts(LoseStep(t.steps[i], now), now);
    }
  }

  /** The rows of every call after recovery: a STARTED call becomes an unknown outcome,
      every other call is as it was. */
  ghost predicate OnlyStartedCallsLost(t: ExecutionRow, r: ExecutionRow, now: Time) {
    && |r.steps| == |t.steps|
    && (forall i :: 0 <= i < |t.steps| ==> |r.steps[i].attempts| == |t.steps[i].attempts|)
    && (forall i, k :: 0 <= i < |t.steps| && 0 <= k < |t.steps[i].attempts| ==>
          r.steps[i].attempts[k].calls == Map(c => LoseCall(c, now), t.steps[i].attempts[k].calls))
  }

  lemma LostCalls(t: ExecutionRow, now: Time)
    ensures OnlyStartedCallsLost(t, RecoverSteps(t, now), now)
  {
    var r := RecoverSteps(t, now);
    forall i | 0 <= i < |t.steps|
      ensures |r.steps[i].attempts| == |t.steps[i].attempts|
      ensures forall k :: 0 <= k < |t.steps[i].attempts| ==>
        r.steps[i].attempts[k].calls == Map(c => LoseCall(c, now), t.steps[i].attempts[k].calls)
    {
      var s := t.steps[i];
      LoseStepFacts(s, now);
      PromoteStepFacts(LoseStep(s, now), now);
      forall k | 0 <= k < |s.attempts|
        ensures r.steps[i].attempts[k].calls == Map(c => LoseCall(c, now), s.attempts[k].calls)
      {
        var lost := Map(c => LoseCall(c, now), s.attempts[k].calls);
        if !AttemptInFlight(s.attempts[k]) {
          assert lost == s.attempts[k].calls;
        }
      }
    }
  }

  /** Reconciling with no call in flight: FAILED when some Step has an unknown outcome. */
  lemma ReconcileEnds(t: ExecutionRow, now: Time)
    requires t.status.CancelRequested? && !InFlight(t)
    ensures var reply := Reconcile(t, now);
      var unknown := exists i :: 0 <= i < |t.steps| && t.steps[i].status.UnknownOutcome?;
      && reply.result.Ok? && reply.result.value.mode == Reconciled
      && reply.row.status == (if unknown then ExecutionStatus.Failed else ExecutionStatus.Cancelled)
      && reply.row.steps == Map(s => CancelSafeStep(s, now), t.steps)
      && reply.row.cancel == t.cancel && reply.row.lease == NO_LEASE
  {
    FirstUnknownIsSome(t.steps);
  }

  lemma SweptSteps(t: ExecutionRow, now: Time)
    requires !InFlight(t)
    ensures var r := t.(steps := Map(s => CancelSafeStep(s, now), t.steps));
      && CallsUntouched(t, r)
      && (forall i :: 0 <= i < |t.steps| ==> TerminalStep(r.steps[i].status))
  {
    forall i | 0 <= i < |t.steps|
      ensures var s' := CancelSafeStep(t.steps[i], now);
        && TerminalStep(s'.status) && |s'.attempts| == |t.steps[i].attempts|
        && forall k :: 0 <= k < |t.steps[i].attempts| ==> s'.attempts[k].calls == t.steps[i].attempts[k].calls
    {
      SweepKeepsCalls(t.steps[i], now);
      assert !StepInFlight(t.steps[i]);
    }
  }

  /** Recovery ends terminal: FAILED exactly when some call, Attempt or Step was ambiguous
      at entry, CANCELLED otherwise.  Only STARTED calls change. */
  lemma RecoveryTerminates(t: ExecutionRow, now: Time)
    requires t.status.CancelRequested?
    ensures var reply := Recover(t, now);
      && reply.result.Ok? && reply.result.value.mode == Reconciled
      && reply.row.status == (if Ambiguous(t) then ExecutionStatus.Failed else ExecutionStatus.Cancelled)
      && OnlyStartedCallsLost(t, reply.row, now)
      && reply.row.cancel == t.cancel && reply.row.lease == NO_LEASE
      && (forall i :: 0 <= i < |t.steps| ==> TerminalStep(reply.row.steps[i].status))
  {
    hide StepInFlight, StepUnknown, PromoteStep, LoseStep, CancelSafeStep, CancelRequest, RejectInput;
    var u := RecoverSteps(t, now);
    RecoveredSteps(t, now);
    LostCalls(t, now);
    ReconcileEnds(u, now);
    SweptSteps(u, now);
    assert Ambiguous(t) <==> exists i :: 0 <= i < |u.steps| && u.steps[i].status.UnknownOutcome? by {
      if i :| 0 <= i < |t.steps| && AmbiguousStep(t.steps[i]) {
        assert u.steps[i].status.UnknownOutcome?;
      }
      if i :| 0 <= i < |u.steps| && u.steps[i].status.UnknownOutcome? {
        assert AmbiguousStep(t.steps[i]);
      }
    }
  }

  // ---- property: when a clean CANCELLED hides an unknown outcome --------------------

  lemma SweepKeepsUnknown(t: ExecutionRow, r: ExecutionRow, now: Time)
    requires r.steps == Map(s => CancelSafeStep(s, now), t.steps)
    ensures Unknown(r) <==> Unknown(t)
  {
    hide CancelSafeStep, StepUnknown;
    forall i | 0 <= i < |t.steps|
      ensures r.steps[i] == CancelSafeStep(t.steps[i], now) && StepUnknown(r.steps[i]) == StepUnknown(t.steps[i])
    {
      SweepKeepsCalls(t.steps[i], now);
    }
  }

  /** The immediate branch asks for calls in flight and never for unknown outcomes. */
  lemma ApplyHides(t: ExecutionRow, now: Time, actor: Option<UserId>, reason: Option<string>)
    requires InFlight(t) ==> t.status.Running?
    requires !TerminalExecution(t.status) && !t.status.CancelRequested?
    ensures var r := Apply(t, now, actor, reason).row;
      && (Unknown(r) <==> Unknown(t))
      && (r.status.Cancelled? && Unknown(r) <==> !InFlight(t) && Unknown(t))
  {
    var r := Apply(t, now, actor, reason).row;
    assert r.steps == Map(s => CancelSafeStep(s, now), t.steps);
    SweepKeepsUnknown(t, r, now);
  }

  /** Reconciling asks for unknown outcomes in the statuses of Steps, and nowhere below. */
  lemma ReconcileHides(t: ExecutionRow, now: Time)
    requires t.status.CancelRequested?
    ensures var r := Reconcile(t, now).row;
      && (Unknown(r) <==> Unknown(t))
      && (r.status.Cancelled? && Unknown(r) <==>
            !InFlight(t) && Unknown(t) && forall i :: 0 <= i < |t.steps| ==> !t.steps[i].status.UnknownOutcome?)
  {
    if !InFlight(t) {
      var r := Reconcile(t, now).row;
      ReconcileEnds(t, now);
      SweepKeepsUnknown(t, r, now);
    }
  }

  /** Recovery looks everywhere. */
  lemma RecoveryNeverHides(t: ExecutionRow, now: Time)
    requires t.status.CancelRequested?
    ensures var r := Recover(t, now).row;
      r.status.Cancelled? ==> !Unknown(r) && !Ambiguous(t)
  {
    hide StepInFlight, StepUnknown, PromoteStep, LoseStep, CancelSafeStep;
    var u := RecoverSteps(t, now);
    var r := Recover(t, now).row;
    RecoveryTerminates(t, now);
    RecoveredSteps(t, now);
    ReconcileEnds(u, now);
    SweepKeepsUnknown(u, r, now);
    if r.status.Cancelled? {
      forall i | 0 <= i < |t.steps| ensures !StepUnknown(u.steps[i]) {
        assert !AmbiguousStep(t.steps[i]);
        RecoveredUnknown(t.steps[i], now);
      }
    }
  }

  lemma RecoveredUnknown(s: StepRow, now: Time)
    ensures StepUnknown(PromoteStep(LoseStep(s, now), now)) == AmbiguousStep(s)
  {
    var l := LoseStep(s, now);
    var u := PromoteStep(l, now);
    LoseStepFacts(s, now);
    PromoteStepFacts(l, now);
    if !StepUnknown(l) {
      forall k | 0 <= k < |l.attempts| ensures !AttemptUnknown(u.attempts[k]) {
        assert u.attempts[k] == LiftAttempt(l.attempts[k], now);
        assert !AttemptUnknown(l.attempts[k]);
      }
    }
  }
}
