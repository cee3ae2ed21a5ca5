/** Cancellation as the coordinator performs it: in place, row by row. */
module CancellationService {
  import opened ExecutionRows
  import opened ExecutionStore
  import opened R = CancellationRules

  method CancelAttempt(attempt: StepAttempt, now: Time)
    requires attempt.Valid()
    modifies attempt
    ensures attempt.Row() == R.CancelAttempt(old(attempt.Row()), now)
  {
    if !attempt.status.Started? { return; }
    attempt.status := WorkStatus.Cancelled;
    attempt.finishedAt := Some(now);
    attempt.workerId := None;
    attempt.leaseExpiresAt := None;
    attempt.errorCode := None;
  }

  method CancelStep(step: ExecutionStep, now: Time)
    requires step.Valid()
    modifies step
    ensures step.Row() == R.CancelStep(old(step.Row()), now)
  {
    if TerminalStep(step.status) { return; }
    step.status := StepStatus.Cancelled;
    step.finishedAt := Some(now);
    step.errorCode := None;
    step.lockVersion := step.lockVersion + 1;
  }

  method HasStartedCall(attempt: StepAttempt) returns (found: bool)
    requires attempt.Valid()
    ensures found == AttemptInFlight(attempt.Row())
  {
    found := exists c | c in attempt.calls :: c.status.Started?;
    if found {
      var c :| c in attempt.calls && c.status.Started?;
      var k :| 0 <= k < |attempt.calls| && attempt.calls[k] == c;
      assert attempt.Row().calls[k].status.Started?;
    }
  }

  method StepHasStartedCall(step: ExecutionStep) returns (found: bool)
    requires step.Valid()
    ensures found == StepInFlight(step.Row())
  {
    found := false;
    for k := 0 to |step.attempts|
      invariant found == exists j :: 0 <= j < k && AttemptInFlight(step.attempts[j].Row())
    {
      var inFlight := HasStartedCall(step.attempts[k]);
      found := found || inFlight;
    }
    assert forall j :: 0 <= j < |step.attempts| ==> step.Row().attempts[j] == step.attempts[j].Row();
  }

  method CancelIdleAttempts(step: ExecutionStep, now: Time)
    requires step.Valid()
    modifies step.Repr - {step}
    ensures step.Row() == R.CancelIdleAttempts(old(step.Row()), now)
  {
    for k := 0 to |step.attempts|
      invariant forall j :: 0 <= j < k ==> step.attempts[j].Row() == CancelIdleAttempt(old(step.attempts[j].Row()), now)
      invariant forall j :: k <= j < |step.attempts| ==> step.attempts[j].Row() == old(step.attempts[j].Row())
    {
      var attempt := step.attempts[k];
      if attempt.status.Started? {
        var inFlight := HasStartedCall(attempt);
        if !inFlight {
          CancelAttempt(attempt, now);
        }
      }
    }
  }

  method CancelSafeStep(step: ExecutionStep, now: Time)
    requires step.Valid()
    modifies step.Repr
    ensures step.Row() == R.CancelSafeStep(old(step.Row()), now)
  {
    if TerminalStep(step.status) { return; }
    if step.status.Running? {
      var inFlight := StepHasStartedCall(step);
      if inFlight { return; }
      CancelIdleAttempts(step, now);
    } else if step.status.WaitingInput? || step.status.WaitingApproval? {
      CancelIdleAttempts(step, now);
    }
    CancelStep(step, now);
  }

  /** The preserve set only repeats what the loop finds out by itself. */
  method CancelSafeNonterminalSteps(steps: seq<ExecutionStep>, ghost repr: set<object>, now: Time, preserve: set<ExecutionStep>)
    requires StepsApart(steps, repr)
    requires forall s | s in preserve && s in steps :: s.Row().status.Running? && StepInFlight(s.Row())
    modifies repr
    ensures StepRows(steps, repr) == Map(s => R.CancelSafeStep(s, now), old(StepRows(steps, repr)))
  {
    ghost var was := StepRows(steps, repr);
    for k := 0 to |steps|
      invariant forall j :: 0 <= j < k ==> steps[j].Row() == R.CancelSafeStep(was[j], now)
      invariant forall j :: k <= j < |steps| ==> steps[j].Row() == was[j]
    {
      if steps[k] !in preserve {
        CancelSafeStep(steps[k], now);
      }
    }
  }

  method CancelPendingApprovals(requests: seq<ApprovalRequest>, now: Time)
    requires forall i, j | 0 <= i < j < |requests| :: requests[i] != requests[j]
    modifies requests
    ensures RequestRows(requests) == Map(r => R.CancelRequest(r, now), old(RequestRows(requests)))
  {
    for k := 0 to |requests|
      invariant forall j :: 0 <= j < k ==> requests[j].Row() == R.CancelRequest(old(requests[j].Row()), now)
      invariant forall j :: k <= j < |requests| ==> requests[j].Row() == old(requests[j].Row())
    {
      var row := requests[k];
      if row.status.Pending? {
        row.status := ApprovalStatus.Cancelled;
        row.resolvedAt := Some(now);
        row.lockVersion := row.lockVersion + 1;
      }
    }
  }

  method RejectOpenInputs(inputs: seq<InputRequest>, now: Time, answeredBy: Option<UserId>)
    requires forall i, j | 0 <= i < j < |inputs| :: inputs[i] != inputs[j]
    modifies inputs
    ensures InputRows(inputs) == Map(m => R.RejectInput(m, now, answeredBy), old(InputRows(inputs)))
  {
    for k := 0 to |inputs|
      invariant forall j :: 0 <= j < k ==> inputs[j].Row() == R.RejectInput(old(inputs[j].Row()), now, answeredBy)
      invariant forall j :: k <= j < |inputs| ==> inputs[j].Row() == old(inputs[j].Row())
    {
      var row := inputs[k];
      if row.status.Open? {
        row.status := InputStatus.Rejected;
        row.answeredAt := Some(now);
        row.answeredBy := answeredBy;
      }
    }
  }

  /** The three sweeps that precede every terminal or requested cancellation. */
  method Sweep(execution: Execution, now: Time, answeredBy: Option<UserId>, preserve: set<ExecutionStep>)
    requires execution.Valid()
    requires forall s | s in preserve && s in execution.steps :: s.Row().status.Running? && StepInFlight(s.Row())
    modifies execution.StepRepr, execution.requests, execution.inputs
    ensures execution.Valid()
    ensures execution.Row() == R.Sweep(old(execution.Row()), now, answeredBy)
  {
    hide StepRows, RequestRows, InputRows, StepsApart, Map, R.CancelSafeStep, R.CancelRequest, R.RejectInput;
    var e := execution;
    CancelPendingApprovals(e.requests, now);
    assert e.Valid() && StepRows(e.steps, e.StepRepr) == old(StepRows(e.steps, e.StepRepr));
    assert InputRows(e.inputs) == old(InputRows(e.inputs));
    label first:
    RejectOpenInputs(e.inputs, now, answeredBy);
    assert e.Valid() && StepRows(e.steps, e.StepRepr) == old(StepRows(e.steps, e.StepRepr));
    assert RequestRows(e.requests) == old@first(RequestRows(e.requests));
    label second:
    CancelSafeNonterminalSteps(e.steps, e.StepRepr, now, preserve);
    assert e.Valid() && InputRows(e.inputs) == old@second(InputRows(e.inputs));
    assert RequestRows(e.requests) == old@second(RequestRows(e.requests));
  }

  /** Whether the Execution has a STARTED ToolCall, and which RUNNING Steps own one. */
  method FindStarted(steps: seq<ExecutionStep>, ghost repr: set<object>)
    returns (any: bool, preserve: set<ExecutionStep>)
    requires StepsApart(steps, repr)
    ensures any <==> exists i :: 0 <= i < |steps| && StepInFlight(StepRows(steps, repr)[i])
    ensures forall s | s in preserve && s in steps :: s.Row().status.Running? && StepInFlight(s.Row())
  {
    hide ExecutionStep.Row, StepInFlight;
    any, preserve := false, {};
    for i := 0 to |steps|
      invariant any <==> exists j :: 0 <= j < i && StepInFlight(steps[j].Row())
      invariant forall s | s in preserve && s in steps :: s.Row().status.Running? && StepInFlight(s.Row())
    {
      var step := steps[i];
      var inFlight := StepHasStartedCall(step);
      any := any || inFlight;
      if inFlight && step.status.Running? {
        preserve := preserve + {step};
      }
    }
    assert forall j :: 0 <= j < |steps| ==> StepRows(steps, repr)[j] == steps[j].Row();
  }

  method Finish(execution: Execution, status: ExecutionStatus, errorCode: Option<string>, now: Time)
    requires execution.Valid()
    modifies execution
    ensures execution.Valid() && execution.requests == old(execution.requests)
    ensures execution.Row() == R.Finish(old(execution.Row()), status, errorCode, now)
  {
    hide StepRows, RequestRows, InputRows, StepsApart, Execution.Valid;
    execution.status := status;
    execution.finishedAt := Some(now);
    execution.errorCode := errorCode;
    ClearLease(execution);
    execution.lockVersion := execution.lockVersion + 1;
  }

  method ClearLease(execution: Execution)
    modifies execution`workerId, execution`leaseToken, execution`leaseExpiresAt, execution`heartbeatAt
    ensures execution.workerId.None? && execution.leaseToken.None?
    ensures execution.leaseExpiresAt.None? && execution.heartbeatAt.None?
  {
    execution.workerId := None;
    execution.leaseToken := None;
    execution.leaseExpiresAt := None;
    execution.heartbeatAt := None;
  }

  method Summarize(execution: Execution, mode: CancellationMode) returns (outcome: Outcome)
    requires execution.Valid()
    ensures outcome == OutcomeOf(execution.Row(), mode)
  {
    outcome := Outcome(execution.status, execution.cancelRequestedAt, execution.finishedAt, mode);
  }

  method SetCancelMetadataOnce(execution: Execution, now: Time, requestedBy: Option<UserId>, reason: Option<string>)
    requires execution.Valid()
    modifies execution`cancelRequestedAt, execution`cancelRequestedBy, execution`cancelReason
    ensures execution.Valid()
    ensures execution.Row() == MarkOnce(old(execution.Row()), now, requestedBy, reason)
  {
    hide StepRows, RequestRows, InputRows, StepsApart, Execution.Valid;
    if execution.cancelRequestedAt.Some? { return; }
    execution.cancelRequestedAt := Some(now);
    execution.cancelRequestedBy := requestedBy;
    execution.cancelReason := reason;
  }

  method CancelNow(execution: Execution, now: Time, answeredBy: Option<UserId>, mode: CancellationMode)
    returns (outcome: Outcome)
    requires execution.Valid()
    modifies execution, execution.StepRepr, execution.requests, execution.inputs
    ensures execution.Valid()
    ensures execution.Row() == R.Finish(R.Sweep(old(execution.Row()), now, answeredBy), ExecutionStatus.Cancelled, None, now)
    ensures outcome == OutcomeOf(execution.Row(), mode)
  {
    hide Execution.Row, Execution.Valid, R.Sweep, StepInFlight;
    Sweep(execution, now, answeredBy, {});
    Finish(execution, ExecutionStatus.Cancelled, None, now);
    outcome := Summarize(execution, mode);
  }

  method RequestCancel(execution: Execution, now: Time, answeredBy: Option<UserId>, preserve: set<ExecutionStep>)
    returns (outcome: Outcome)
    requires execution.Valid()
    requires forall s | s in preserve && s in execution.steps :: s.Row().status.Running? && StepInFlight(s.Row())
    modifies execution, execution.StepRepr, execution.requests, execution.inputs
    ensures execution.Valid()
    ensures var swept := R.Sweep(old(execution.Row()), now, answeredBy);
      execution.Row() == swept.(status := ExecutionStatus.CancelRequested, lockVersion := swept.lockVersion + 1)
    ensures outcome == OutcomeOf(execution.Row(), Requested)
  {
    hide R.Sweep, StepInFlight, StepRows, RequestRows, InputRows, StepsApart, Execution.Valid;
    Sweep(execution, now, answeredBy, preserve);
    execution.status := ExecutionStatus.CancelRequested;
    execution.lockVersion := execution.lockVersion + 1;
    outcome := Summarize(execution, Requested);
  }

  method ApplyCancellation(execution: Execution, now: Time, requestedBy: Option<UserId>, reason: Option<string>)
    returns (result: Result<Outcome>)
    requires execution.Valid()
    modifies execution, execution.StepRepr, execution.requests, execution.inputs
    ensures execution.Valid()
    ensures Reply(execution.Row(), result) == Apply(old(execution.Row()), now, requestedBy, reason)
  {
    hide Execution.Row, Execution.Valid, StepsApart, StepRows, R.Sweep, StepInFlight, ExecutionStep.Row;
    var outcome;
    if execution.status.Cancelled? || execution.status.CancelRequested? {
      outcome := Summarize(execution, Idempotent);
    } else if TerminalExecution(execution.status) {
      return Err(ResourceConflict);
    } else {
      SetCancelMetadataOnce(execution, now, requestedBy, reason);
      var any, preserve := FindStarted(execution.steps, execution.StepRepr);
      if !execution.status.Running? || !any {
        outcome := CancelNow(execution, now, requestedBy, Immediate);
      } else {
        outcome := RequestCancel(execution, now, requestedBy, preserve);
      }
    }
    return Ok(outcome);
  }

  /** The first Step with an unknown outcome, in list order. */
  method FindUnknown(steps: seq<ExecutionStep>, ghost repr: set<object>) returns (cause: Option<ExecutionStep>)
    requires StepsApart(steps, repr)
    ensures cause.Some? ==> cause.value in steps && cause.value.status.UnknownOutcome?
    ensures FirstUnknown(StepRows(steps, repr)) ==
      (if cause.Some? then Some(cause.value.Row()) else None)
  {
    hide ExecutionStep.Row;
    for k := 0 to |steps|
      invariant FirstUnknown(StepRows(steps, repr)) == FirstUnknown(StepRows(steps, repr)[k..])
    {
      if steps[k].status.UnknownOutcome? {
        return Some(steps[k]);
      }
      assert StepRows(steps, repr)[k..][1..] == StepRows(steps, repr)[k + 1..];
    }
    cause := None;
  }

  method FailUnknown(execution: Execution, now: Time, cause: ExecutionStep) returns (outcome: Outcome)
    requires execution.Valid() && cause in execution.steps && TerminalStep(cause.status)
    modifies execution, execution.StepRepr, execution.requests, execution.inputs
    ensures execution.Valid()
    ensures var t := old(execution.Row());
      execution.Row() == R.Finish(R.Sweep(t, now, t.cancel.actor), ExecutionStatus.Failed, old(cause.Row()).errorCode, now)
    ensures outcome == OutcomeOf(execution.Row(), Reconciled)
  {
    Sweep(execution, now, execution.cancelRequestedBy, {});
    Finish(execution, ExecutionStatus.Failed, cause.errorCode, now);
    outcome := Summarize(execution, Reconciled);
  }

  method Reconcile(execution: Execution, now: Time) returns (result: Result<Outcome>)
    requires execution.Valid()
    modifies execution, execution.StepRepr, execution.requests, execution.inputs
    ensures execution.Valid()
    ensures Reply(execution.Row(), result) == R.Reconcile(old(execution.Row()), now)
  {
    hide Execution.Row, Execution.Valid, StepsApart, StepRows, R.Sweep, StepInFlight, ExecutionStep.Row, FirstUnknown;
    var outcome;
    if execution.status.Cancelled? || execution.status.Failed? {
      outcome := Summarize(execution, Idempotent);
      return Ok(outcome);
    }
    if !execution.status.CancelRequested? { return Err(ResourceConflict); }
    var any, _ := FindStarted(execution.steps, execution.StepRepr);
    if any {
      outcome := Summarize(execution, Requested);
      return Ok(outcome);
    }
    var unknown := FindUnknown(execution.steps, execution.StepRepr);
    if unknown.Some? {
      outcome := FailUnknown(execution, now, unknown.value);
    } else {
      outcome := CancelNow(execution, now, execution.cancelRequestedBy, Reconciled);
    }
    return Ok(outcome);
  }

  /** Raises CANCEL_REQUESTED if it is not raised already, then reconciles. */
  method RaiseAndReconcile(execution: Execution, now: Time) returns (result: Result<Outcome>)
    requires execution.Valid()
    modifies execution, execution.StepRepr, execution.requests, execution.inputs
    ensures execution.Valid()
    ensures Reply(execution.Row(), result) == R.Reconcile(EnsureRequested(old(execution.Row()), now), now)
  {
    hide R.Reconcile, StepRows, RequestRows, InputRows, StepsApart, Execution.Valid;
    if !execution.status.CancelRequested? {
      if execution.cancelRequestedAt.None? {
        execution.cancelRequestedAt := Some(now);
      }
      execution.status := ExecutionStatus.CancelRequested;
      execution.lockVersion := execution.lockVersion + 1;
    }
    assert execution.Row() == EnsureRequested(old(execution.Row()), now);
    result := Reconcile(execution, now);
  }

  /** Settles one ToolCall of a Step, with its Attempt and the Step itself. */
  method CloseCall(step: ExecutionStep, attempt: nat, call: nat, status: WorkStatus, now: Time)
    requires step.Valid() && attempt < |step.attempts| && call < |step.attempts[attempt].calls|
    modifies step.Repr
    ensures step.Row() == R.CloseCall(old(step.Row()), attempt, call, status, now)
  {
    var a := step.attempts[attempt];
    var c := a.calls[call];
    c.status := status;
    c.finishedAt := Some(now);
    assert a.Row().calls == old(a.Row()).calls[call := CallRow(status, Some(now))];
    CancelAttempt(a, now);
    assert step.Row().attempts == old(step.Row()).attempts[attempt := a.Row()];
    CancelStep(step, now);
  }

  /** Replacing the row of one Step. */
  lemma StepReplaced(steps: seq<ExecutionStep>, repr: set<object>, was: seq<StepRow>, i: nat)
    requires StepsApart(steps, repr) && |was| == |steps| && i < |steps|
    requires forall j :: 0 <= j < |steps| && j != i ==> steps[j].Row() == was[j]
    ensures StepRows(steps, repr) == was[i := steps[i].Row()]
  {
    hide ExecutionStep.Row;
  }

  method SettleInputRequired(execution: Execution, ref: CallRef, now: Time) returns (result: Result<Outcome>)
    requires execution.Valid() && HasCall(execution.Row(), ref)
    modifies execution, execution.StepRepr, execution.requests, execution.inputs
    ensures execution.Valid()
    ensures Reply(execution.Row(), result) == R.Settle(old(execution.Row()), ref, now)
  {
    var step := execution.steps[ref.step];
    CloseCall(step, ref.attempt, ref.call, WorkStatus.Succeeded, now);
    StepReplaced(execution.steps, execution.StepRepr, old(StepRows(execution.steps, execution.StepRepr)), ref.step);
    result := RaiseAndReconcile(execution, now);
  }

  method CancelBeforeSend(execution: Execution, ref: CallRef, now: Time) returns (result: Result<Outcome>)
    requires execution.Valid() && HasCall(execution.Row(), ref)
    modifies execution, execution.StepRepr, execution.requests, execution.inputs
    ensures execution.Valid()
    ensures Reply(execution.Row(), result) == R.BeforeSend(old(execution.Row()), ref, now)
  {
    var step := execution.steps[ref.step];
    var attempt := step.attempts[ref.attempt];
    assert attempt.Row().calls[ref.call] == attempt.calls[ref.call].Row();
    if attempt.calls[ref.call].status.Started? {
      CloseCall(step, ref.attempt, ref.call, WorkStatus.Cancelled, now);
    } else {
      CloseAttempt(step, ref.attempt, now);
    }
    StepReplaced(execution.steps, execution.StepRepr, old(StepRows(execution.steps, execution.StepRepr)), ref.step);
    hide R.CloseCall, R.CancelStep, R.CancelAttempt, ExecutionStep.Row, StepAttempt.Row;
    result := RaiseAndReconcile(execution, now);
  }

  method CloseAttempt(step: ExecutionStep, attempt: nat, now: Time)
    requires step.Valid() && attempt < |step.attempts|
    modifies step.Repr
    ensures var s := old(step.Row());
      step.Row() == R.CancelStep(s.(attempts := s.attempts[attempt := R.CancelAttempt(s.attempts[attempt], now)]), now)
  {
    var a := step.attempts[attempt];
    CancelAttempt(a, now);
    assert step.Row().attempts == old(step.Row()).attempts[attempt := a.Row()];
    CancelStep(step, now);
  }

  // ---- recovery of an expired lease ----------------------------------------------

  /** Marks every STARTED call of an Attempt, and then the Attempt, as of unknown outcome. */
  method LoseAttempt(attempt: StepAttempt, now: Time) returns (lost: bool)
    requires attempt.Valid()
    modifies attempt.Repr
    ensures attempt.Row() == R.LoseAttempt(old(attempt.Row()), now)
    ensures lost == old(AttemptInFlight(attempt.Row()))
  {
    lost := HasStartedCall(attempt);
    if !lost { return; }
    for k := 0 to |attempt.calls|
      invariant attempt.status == old(attempt.status)
      invariant forall j :: 0 <= j < k ==> attempt.calls[j].Row() == LoseCall(old(attempt.calls[j].Row()), now)
      invariant forall j :: k <= j < |attempt.calls| ==> attempt.calls[j].Row() == old(attempt.calls[j].Row())
    {
      var call := attempt.calls[k];
      if call.status.Started? {
        call.status := WorkStatus.UnknownOutcome;
        call.finishedAt := Some(now);
      }
    }
    attempt.status := WorkStatus.UnknownOutcome;
    attempt.errorCode := Some(RECOVERY_UNKNOWN);
    attempt.finishedAt := Some(now);
    attempt.workerId := None;
    attempt.leaseExpiresAt := None;
  }

  /** First pass over one Step. */
  method LoseStep(step: ExecutionStep, now: Time)
    requires step.Valid()
    modifies step.Repr
    ensures step.Row() == R.LoseStep(old(step.Row()), now)
  {
    ghost var was := step.Row();
    var lost := LoseAttempts(step, now);
    if lost && !TerminalStep(step.status) {
      step.status := StepStatus.UnknownOutcome;
      step.errorCode := Some(RECOVERY_UNKNOWN);
      step.finishedAt := Some(now);
      step.lockVersion := step.lockVersion + 1;
    }
    if !lost {
      assert forall k :: 0 <= k < |was.attempts| ==> R.LoseAttempt(was.attempts[k], now) == was.attempts[k];
    }
  }

  method LoseAttempts(step: ExecutionStep, now: Time) returns (lost: bool)
    requires step.Valid()
    modifies step.Repr - {step}
    ensures step.Row() == old(step.Row()).(attempts := Map(a => R.LoseAttempt(a, now), old(step.Row()).attempts))
    ensures lost == old(StepInFlight(step.Row()))
  {
    ghost var was := step.Row().attempts;
    lost := false;
    for k := 0 to |step.attempts|
      invariant forall j :: 0 <= j < k ==> step.attempts[j].Row() == R.LoseAttempt(was[j], now)
      invariant forall j :: k <= j < |step.attempts| ==> step.attempts[j].Row() == was[j]
      invariant lost == exists j :: 0 <= j < k && AttemptInFlight(was[j])
    {
      var hit := LoseAttempt(step.attempts[k], now);
      lost := lost || hit;
    }
  }

  /** Lifts a STARTED Attempt that carries unknown evidence; reports the evidence. */
  method LiftAttempt(attempt: StepAttempt, now: Time) returns (unknown: bool)
    requires attempt.Valid()
    modifies attempt
    ensures attempt.Row() == R.LiftAttempt(old(attempt.Row()), now)
    ensures unknown == old(!AttemptInFlight(attempt.Row()) && AttemptUnknown(attempt.Row()))
  {
    ghost var was := attempt.Row();
    var inFlight := HasStartedCall(attempt);
    if inFlight { return false; }
    var callUnknown := exists c | c in attempt.calls :: c.status.UnknownOutcome?;
    if callUnknown {
      var c :| c in attempt.calls && c.status.UnknownOutcome?;
      var k :| 0 <= k < |attempt.calls| && attempt.calls[k] == c;
      assert was.calls[k].status.UnknownOutcome?;
    }
    unknown := attempt.status.UnknownOutcome? || callUnknown;
    assert callUnknown == CallsUnknown(was);
    if attempt.status.Started? && callUnknown {
      attempt.status := WorkStatus.UnknownOutcome;
      attempt.errorCode := OrElse(attempt.errorCode);
      attempt.finishedAt := Some(now);
      attempt.workerId := None;
      attempt.leaseExpiresAt := None;
    }
  }

  /** Second pass over one Step: child evidence outranks the Step's own status. */
  method PromoteStep(step: ExecutionStep, now: Time)
    requires step.Valid()
    modifies step.Repr
    ensures step.Row() == R.PromoteStep(old(step.Row()), now)
  {
    var unknown := LiftAttempts(step, now);
    if unknown && !step.status.UnknownOutcome? {
      step.status := StepStatus.UnknownOutcome;
      step.errorCode := OrElse(step.errorCode);
      if step.finishedAt.None? {
        step.finishedAt := Some(now);
      }
      step.lockVersion := step.lockVersion + 1;
    }
  }

  method LiftAttempts(step: ExecutionStep, now: Time) returns (unknown: bool)
    requires step.Valid()
    modifies step.Repr - {step}
    ensures step.Row() == old(step.Row()).(attempts := Map(a => R.LiftAttempt(a, now), old(step.Row()).attempts))
    ensures unknown == HasSettledUnknown(old(step.Row()))
  {
    ghost var was := step.Row().attempts;
    unknown := false;
    for k := 0 to |step.attempts|
      invariant forall j :: 0 <= j < k ==> step.attempts[j].Row() == R.LiftAttempt(was[j], now)
      invariant forall j :: k <= j < |step.attempts| ==> step.attempts[j].Row() == was[j]
      invariant unknown == exists j :: 0 <= j < k && !AttemptInFlight(was[j]) && AttemptUnknown(was[j])
    {
      var hit := LiftAttempt(step.attempts[k], now);
      unknown := unknown || hit;
    }
  }

  method RecoverSteps(steps: seq<ExecutionStep>, ghost repr: set<object>, now: Time)
    requires StepsApart(steps, repr)
    modifies repr
    ensures StepRows(steps, repr) == Map(s => R.PromoteStep(R.LoseStep(s, now), now), old(StepRows(steps, repr)))
  {
    hide ExecutionStep.Row, R.PromoteStep, R.LoseStep;
    ghost var was := StepRows(steps, repr);
    for k := 0 to |steps|
      invariant forall j :: 0 <= j < k ==> steps[j].Row() == R.LoseStep(was[j], now)
      invariant forall j :: k <= j < |steps| ==> steps[j].Row() == was[j]
    {
      LoseStep(steps[k], now);
    }
    for k := 0 to |steps|
      invariant forall j :: 0 <= j < k ==> steps[j].Row() == R.PromoteStep(R.LoseStep(was[j], now), now)
      invariant forall j :: k <= j < |steps| ==> steps[j].Row() == R.LoseStep(was[j], now)
    {
      PromoteStep(steps[k], now);
    }
  }

  lemma ReconcileKeepsMark(t: ExecutionRow, now: Time)
    ensures R.Reconcile(t, now).row.cancel == t.cancel
  {
  }

  /** Writes the saved cancel mark back; recovery has not changed it. */
  method RestoreMark(execution: Execution, at: Option<Time>, actor: Option<UserId>, reason: Option<string>)
    requires execution.Valid() && execution.Row().cancel == CancelMark(at, actor, reason)
    modifies execution`cancelRequestedAt, execution`cancelRequestedBy, execution`cancelReason
    ensures execution.Valid() && execution.Row() == old(execution.Row())
  {
    if at.Some? {
      execution.cancelRequestedAt := at;
    }
    execution.cancelRequestedBy := actor;
    execution.cancelReason := reason;
  }

  method RecoverExpired(execution: Execution, now: Time) returns (result: Result<Outcome>)
    requires execution.Valid()
    modifies execution, execution.StepRepr, execution.requests, execution.inputs
    ensures execution.Valid()
    ensures Reply(execution.Row(), result) == R.Recover(old(execution.Row()), now)
  {
    hide R.Reconcile, R.PromoteStep, R.LoseStep, StepRows, RequestRows, InputRows, StepsApart;
    if execution.status.Cancelled? || execution.status.Failed? {
      var outcome := Summarize(execution, Idempotent);
      return Ok(outcome);
    }
    if !execution.status.CancelRequested? { return Err(ResourceConflict); }
    var at, actor, reason := execution.cancelRequestedAt, execution.cancelRequestedBy, execution.cancelReason;
    RecoverSteps(execution.steps, execution.StepRepr, now);
    assert execution.Row() == R.RecoverSteps(old(execution.Row()), now);
    ReconcileKeepsMark(execution.Row(), now);
    result := Reconcile(execution, now);
    RestoreMark(execution, at, actor, reason);
  }
}
