/** Cancellation as functions from row to row, and what they guarantee.
    The methods of CancellationService are proved to compute these functions. */
module CancellationRules {
  import opened ExecutionRows

  datatype CancellationMode = Idempotent | Immediate | Requested | Reconciled

  datatype Outcome = Outcome(
    status: ExecutionStatus,
    cancelRequestedAt: Option<Time>,
    finishedAt: Option<Time>,
    mode: CancellationMode)

  const RECOVERY_UNKNOWN := "CANCEL_RECOVERY_UNKNOWN_OUTCOME"

  function OutcomeOf(t: ExecutionRow, mode: CancellationMode): Outcome {
    Outcome(t.status, t.cancel.at, t.finishedAt, mode)
  }

  function Answer(t: ExecutionRow, mode: CancellationMode): Reply<Outcome> {
    Reply(t, Ok(OutcomeOf(t, mode)))
  }

  // ---- single rows -------------------------------------------------------------

  function CancelAttempt(a: AttemptRow, now: Time): AttemptRow {
    if !a.status.Started? then a else
    a.(status := WorkStatus.Cancelled, finishedAt := Some(now), workerId := None, leaseExpiresAt := None, errorCode := None)
  }

  function CancelIdleAttempt(a: AttemptRow, now: Time): AttemptRow {
    if AttemptInFlight(a) then a else CancelAttempt(a, now)
  }

  function CancelStep(s: StepRow, now: Time): StepRow {
    if TerminalStep(s.status) then s else
    s.(status := StepStatus.Cancelled, finishedAt := Some(now), errorCode := None, lockVersion := s.lockVersion + 1)
  }

  function CancelIdleAttempts(s: StepRow, now: Time): StepRow {
    s.(attempts := Map(a => CancelIdleAttempt(a, now), s.attempts))
  }

  /** A RUNNING Step with a call in flight is left alone; every other non-terminal Step
      is cancelled. */
  function CancelSafeStep(s: StepRow, now: Time): StepRow {
    if TerminalStep(s.status) then s
    else if s.status.Running? && StepInFlight(s) then s
    else if s.status.Running? || s.status.WaitingInput? || s.status.WaitingApproval? then
      CancelStep(CancelIdleAttempts(s, now), now)
    else CancelStep(s, now)
  }

  function CancelRequest(r: RequestRow, now: Time): RequestRow {
    if !r.status.Pending? then r else
    r.(status := ApprovalStatus.Cancelled, resolvedAt := Some(now), lockVersion := r.lockVersion + 1)
  }

  function RejectInput(m: InputRow, now: Time, actor: Option<UserId>): InputRow {
    if !m.status.Open? then m else InputRow(InputStatus.Rejected, Some(now), actor)
  }

  /** Cancels PENDING approvals, rejects OPEN input requests, cancels safe Steps. */
  function Sweep(t: ExecutionRow, now: Time, actor: Option<UserId>): ExecutionRow {
    t.(requests := Map(r => CancelRequest(r, now), t.requests),
       inputs := Map(m => RejectInput(m, now, actor), t.inputs),
       steps := Map(s => CancelSafeStep(s, now), t.steps))
  }

  function Finish(t: ExecutionRow, status: ExecutionStatus, error: Option<string>, now: Time): ExecutionRow {
    t.(status := status, finishedAt := Some(now), errorCode := error, lease := NO_LEASE, lockVersion := t.lockVersion + 1)
  }

  function MarkOnce(t: ExecutionRow, now: Time, actor: Option<UserId>, reason: Option<string>): ExecutionRow {
    if t.cancel.at.Some? then t else t.(cancel := CancelMark(Some(now), actor, reason))
  }

  // ---- entry points ------------------------------------------------------------

  function Apply(t: ExecutionRow, now: Time, actor: Option<UserId>, reason: Option<string>): Reply<Outcome> {
    if t.status.Cancelled? || t.status.CancelRequested? then Answer(t, Idempotent)
    else if TerminalExecution(t.status) then Reply(t, Err(ResourceConflict))
    else
      var swept := Sweep(MarkOnce(t, now, actor, reason), now, actor);
      if !t.status.Running? || !InFlight(t) then
        Answer(Finish(swept, ExecutionStatus.Cancelled, None, now), Immediate)
      else
        Answer(swept.(status := ExecutionStatus.CancelRequested, lockVersion := swept.lockVersion + 1), Requested)
  }

  /** The first Step with an unknown outcome, in list order. */
  function FirstUnknown(ss: seq<StepRow>): Option<StepRow> {
    if ss == [] then None
    else if ss[0].status.UnknownOutcome? then Some(ss[0])
    else FirstUnknown(ss[1..])
  }

  function Reconcile(t: ExecutionRow, now: Time): Reply<Outcome> {
    if t.status.Cancelled? || t.status.Failed? then Answer(t, Idempotent)
    else if !t.status.CancelRequested? then Reply(t, Err(ResourceConflict))
    else if InFlight(t) then Answer(t, Requested)
    else
      var swept := Sweep(t, now, t.cancel.actor);
      match FirstUnknown(t.steps)
      case Some(cause) => Answer(Finish(swept, ExecutionStatus.Failed, cause.errorCode, now), Reconciled)
      case None => Answer(Finish(swept, ExecutionStatus.Cancelled, None, now), Reconciled)
  }

  /** Names one ToolCall by the positions of its Step, Attempt and call. */
  datatype CallRef = CallRef(step: nat, attempt: nat, call: nat)

  predicate HasCall(t: ExecutionRow, ref: CallRef) {
    && ref.step < |t.steps|
    && ref.attempt < |t.steps[ref.step].attempts|
    && ref.call < |t.steps[ref.step].attempts[ref.attempt].calls|
  }

  function CallAt(t: ExecutionRow, ref: CallRef): CallRow
    requires HasCall(t, ref)
  {
    t.steps[ref.step].attempts[ref.attempt].calls[ref.call]
  }

  /** Settles one call, then cancels its Attempt and its Step. */
  function CloseCall(s: StepRow, attempt: nat, call: nat, status: WorkStatus, now: Time): StepRow
    requires attempt < |s.attempts| && call < |s.attempts[attempt].calls|
  {
    var a := s.attempts[attempt];
    var a' := CancelAttempt(a.(calls := a.calls[call := CallRow(status, Some(now))]), now);
    CancelStep(s.(attempts := s.attempts[attempt := a']), now)
  }

  function EnsureRequested(t: ExecutionRow, now: Time): ExecutionRow {
    if t.status.CancelRequested? then t else
    t.(status := ExecutionStatus.CancelRequested,
       cancel := if t.cancel.at.None? then t.cancel.(at := Some(now)) else t.cancel,
       lockVersion := t.lockVersion + 1)
  }

  function Settle(t: ExecutionRow, ref: CallRef, now: Time): Reply<Outcome>
    requires HasCall(t, ref)
  {
    var s := CloseCall(t.steps[ref.step], ref.attempt, ref.call, WorkStatus.Succeeded, now);
    Reconcile(EnsureRequested(t.(steps := t.steps[ref.step := s]), now), now)
  }

  function BeforeSend(t: ExecutionRow, ref: CallRef, now: Time): Reply<Outcome>
    requires HasCall(t, ref)
  {
    var c := CallAt(t, ref);
    var s := t.steps[ref.step];
    var s' := if c.status.Started? then CloseCall(s, ref.attempt, ref.call, WorkStatus.Cancelled, now)
              else CancelStep(s.(attempts := s.attempts[ref.attempt := CancelAttempt(s.attempts[ref.attempt], now)]), now);
    Reconcile(EnsureRequested(t.(steps := t.steps[ref.step := s']), now), now)
  }

  // ---- recovery of an expired lease --------------------------------------------

  function LoseCall(c: CallRow, now: Time): CallRow {
    if c.status.Started? then CallRow(WorkStatus.UnknownOutcome, Some(now)) else c
  }

  function LoseAttempt(a: AttemptRow, now: Time): AttemptRow {
    if !AttemptInFlight(a) then a else
    a.(status := WorkStatus.UnknownOutcome, finishedAt := Some(now), workerId := None, leaseExpiresAt := None,
       errorCode := Some(RECOVERY_UNKNOWN), calls := Map(c => LoseCall(c, now), a.calls))
  }

  /** First pass: every STARTED call becomes an unknown outcome, and so do its Attempt
      and its Step, unless the Step is already terminal. */
  function LoseStep(s: StepRow, now: Time): StepRow {
    if !StepInFlight(s) then s else
    var s' := s.(attempts := Map(a => LoseAttempt(a, now), s.attempts));
    if TerminalStep(s.status) then s' else
    s'.(status := StepStatus.UnknownOutcome, finishedAt := Some(now), errorCode := Some(RECOVERY_UNKNOWN),
        lockVersion := s.lockVersion + 1)
  }

  predicate CallsUnknown(a: AttemptRow) {
    exists k :: 0 <= k < |a.calls| && a.calls[k].status.UnknownOutcome?
  }

  function OrElse(code: Option<string>): Option<string> {
    if code.Some? && code.value != "" then code else Some(RECOVERY_UNKNOWN)
  }

  function LiftAttempt(a: AttemptRow, now: Time): AttemptRow {
    if AttemptInFlight(a) || !a.status.Started? || !CallsUnknown(a) then a else
    a.(status := WorkStatus.UnknownOutcome, finishedAt := Some(now), workerId := None, leaseExpiresAt := None,
       errorCode := OrElse(a.errorCode))
  }

  predicate HasSettledUnknown(s: StepRow) {
    exists k :: 0 <= k < |s.attempts| && !AttemptInFlight(s.attempts[k]) && AttemptUnknown(s.attempts[k])
  }

  /** Second pass: unknown evidence anywhere below a Step outranks any Step status. */
  function PromoteStep(s: StepRow, now: Time): StepRow {
    var s' := s.(attempts := Map(a => LiftAttempt(a, now), s.attempts));
    if !HasSettledUnknown(s) || s.status.UnknownOutcome? then s' else
    s'.(status := StepStatus.UnknownOutcome, errorCode := OrElse(s.errorCode),
        finishedAt := if s.finishedAt.None? then Some(now) else s.finishedAt,
        lockVersion := s.lockVersion + 1)
  }

  function RecoverSteps(t: ExecutionRow, now: Time): ExecutionRow {
    t.(steps := Map(s => PromoteStep(LoseStep(s, now), now), t.steps))
  }

  function Recover(t: ExecutionRow, now: Time): Reply<Outcome> {
    if t.status.Cancelled? || t.status.Failed? then Answer(t, Idempotent)
    else if !t.status.CancelRequested? then Reply(t, Err(ResourceConflict))
    else Reconcile(RecoverSteps(t, now), now)
  }
}
