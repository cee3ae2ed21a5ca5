/** Rows of the execution tables, as values.

    An Execution owns Steps, a Step owns Attempts, an Attempt owns ToolCalls;
    ApprovalRequests and MCPInputRequests hang off the Execution.  A row nests its
    children in the order the repository lists them, and a Step is named by its
    position.  Lists only ever grow at the end, so positions are stable names. */
module ExecutionRows {

  datatype Option<+T> = None | Some(value: T)

  type Time = int
  type UserId = nat
  type WorkerId = string
  type Token = nat

  datatype ExecutionStatus =
    | Created | Queued | Running | WaitingInput | WaitingApproval | CancelRequested
    | Succeeded | PartiallySucceeded | Failed | Cancelled | TimedOut

  datatype StepStatus =
    | Pending | Ready | Running | WaitingInput | WaitingApproval
    | Succeeded | Failed | Skipped | TimedOut | Cancelled | UnknownOutcome

  /** Shared by step_attempts.status and tool_calls.normalized_status. */
  datatype WorkStatus = Started | Succeeded | Failed | TimedOut | Cancelled | UnknownOutcome

  datatype StepKind = Tool | Condition | Join | Approval | Loop

  datatype CallRow = CallRow(status: WorkStatus, finishedAt: Option<Time>)

  datatype AttemptRow = AttemptRow(
    status: WorkStatus,
    finishedAt: Option<Time>,
    workerId: Option<WorkerId>,
    leaseExpiresAt: Option<Time>,
    errorCode: Option<string>,
    calls: seq<CallRow>)

  datatype StepRow = StepRow(
    kind: StepKind,
    status: StepStatus,
    readyAt: Option<Time>,
    startedAt: Option<Time>,
    finishedAt: Option<Time>,
    errorCode: Option<string>,
    attemptCount: nat,
    lockVersion: nat,
    attempts: seq<AttemptRow>)

  datatype Lease = Lease(
    workerId: Option<WorkerId>,
    token: Option<Token>,
    expiresAt: Option<Time>,
    heartbeatAt: Option<Time>)

  const NO_LEASE := Lease(None, None, None, None)

  /** cancel_requested_at, cancel_requested_by and cancel_reason. */
  datatype CancelMark = CancelMark(at: Option<Time>, actor: Option<UserId>, reason: Option<string>)

  datatype ApprovalStatus = Pending | Approved | Rejected | Expired | Cancelled

  datatype DecisionMode = Any | All | Quorum

  datatype Vote = Approve | Reject

  datatype Decision = Decision(actor: UserId, vote: Vote)

  datatype RequestRow = RequestRow(
    step: nat,
    status: ApprovalStatus,
    mode: DecisionMode,
    required: int,
    requestedBy: UserId,
    expiresAt: Time,
    resolvedAt: Option<Time>,
    authorable: bool,
    lockVersion: nat,
    decisions: seq<Decision>)

  datatype InputStatus = Open | Answered | Rejected | Expired | Unsupported

  datatype InputRow = InputRow(status: InputStatus, answeredAt: Option<Time>, answeredBy: Option<UserId>)

  datatype ExecutionRow = ExecutionRow(
    status: ExecutionStatus,
    lease: Lease,
    cancel: CancelMark,
    finishedAt: Option<Time>,
    errorCode: Option<string>,
    lockVersion: nat,
    requester: UserId,
    steps: seq<StepRow>,
    requests: seq<RequestRow>,
    inputs: seq<InputRow>)

  datatype AppError =
    | ResourceConflict | PreconditionFailed | ApprovalExpired
    | Forbidden | ValidationError | NotFound | IntegrityError

  datatype Result<+T> = Ok(value: T) | Err(error: AppError)

  /** What a locked service call leaves behind: the row it commits and its answer.
      A raised error normally leaves the row as it was, because the transaction is
      rolled back. */
  datatype Reply<+T> = Reply(row: ExecutionRow, result: Result<T>)

  function Map<A, B>(f: A -> B, s: seq<A>): (r: seq<B>)
    ensures |r| == |s|
    ensures forall i :: 0 <= i < |s| ==> r[i] == f(s[i])
  {
    seq(|s|, i requires 0 <= i < |s| => f(s[i]))
  }

  // ---- status classes ----------------------------------------------------------

  predicate TerminalExecution(s: ExecutionStatus) {
    s.Succeeded? || s.PartiallySucceeded? || s.Failed? || s.TimedOut? || s.Cancelled?
  }

  predicate TerminalStep(s: StepStatus) {
    s.Succeeded? || s.Failed? || s.TimedOut? || s.UnknownOutcome? || s.Skipped? || s.Cancelled?
  }

  predicate FullLease(l: Lease) {
    l.workerId.Some? && l.token.Some? && l.expiresAt.Some?
  }

  // ---- calls in flight ---------------------------------------------------------

  predicate AttemptInFlight(a: AttemptRow) {
    exists k :: 0 <= k < |a.calls| && a.calls[k].status.Started?
  }

  predicate StepInFlight(s: StepRow) {
    exists k :: 0 <= k < |s.attempts| && AttemptInFlight(s.attempts[k])
  }

  predicate InFlight(t: ExecutionRow) {
    exists i :: 0 <= i < |t.steps| && StepInFlight(t.steps[i])
  }

  // ---- evidence that a remote side effect may have happened ---------------------

  predicate AttemptUnknown(a: AttemptRow) {
    || a.status.UnknownOutcome?
    || exists k :: 0 <= k < |a.calls| && a.calls[k].status.UnknownOutcome?
  }

  predicate StepUnknown(s: StepRow) {
    || s.status.UnknownOutcome?
    || exists k :: 0 <= k < |s.attempts| && AttemptUnknown(s.attempts[k])
  }

  /** A call that may have crossed the send boundary, or a recorded unknown outcome. */
  predicate AmbiguousStep(s: StepRow) {
    StepInFlight(s) || StepUnknown(s)
  }

  predicate Ambiguous(t: ExecutionRow) {
    exists i :: 0 <= i < |t.steps| && AmbiguousStep(t.steps[i])
  }

  predicate Unknown(t: ExecutionRow) {
    exists i :: 0 <= i < |t.steps| && StepUnknown(t.steps[i])
  }

  // ---- well-formed trees -------------------------------------------------------

  ghost predicate OneCallInFlight(a: AttemptRow) {
    forall c, c' | 0 <= c < |a.calls| && 0 <= c' < |a.calls| ::
      a.calls[c].status.Started? && a.calls[c'].status.Started? ==> c == c'
  }

  /** A STARTED ToolCall lives only under a STARTED Attempt of a RUNNING Step, and a
      Step has one call in flight at most. */
  ghost predicate CallsGuarded(s: StepRow) {
    && (StepInFlight(s) ==> s.status.Running?)
    && (forall k :: 0 <= k < |s.attempts| && AttemptInFlight(s.attempts[k]) ==> s.attempts[k].status.Started?)
    && (forall k :: 0 <= k < |s.attempts| ==> OneCallInFlight(s.attempts[k]))
  }

  /** A STARTED Attempt lives under a Step that is running or waiting for input, alone. */
  ghost predicate AttemptsGuarded(s: StepRow) {
    && (forall k :: 0 <= k < |s.attempts| && s.attempts[k].status.Started? ==>
          s.status.Running? || s.status.WaitingInput?)
    && (forall k, k' | 0 <= k < |s.attempts| && 0 <= k' < |s.attempts| ::
          s.attempts[k].status.Started? && s.attempts[k'].status.Started? ==> k == k')
  }

  ghost predicate TreeInv(t: ExecutionRow) {
    && (InFlight(t) ==> t.status.Running? || t.status.CancelRequested?)
    && (forall i :: 0 <= i < |t.steps| ==> CallsGuarded(t.steps[i]))
    && (!TerminalExecution(t.status) ==> forall i :: 0 <= i < |t.steps| ==> AttemptsGuarded(t.steps[i]))
  }

  /** The database CHECKs on leases, and what the waiting and terminal transitions keep. */
  ghost predicate LeaseInv(t: ExecutionRow) {
    && (t.status.Running? ==> FullLease(t.lease))
    && (t.status.Queued? || t.status.WaitingApproval? || TerminalExecution(t.status) ==> t.lease == NO_LEASE)
  }

  ghost predicate CancelMarkInv(t: ExecutionRow) {
    && (t.cancel.at.None? ==> t.cancel.actor.None? && t.cancel.reason.None?)
    && (t.status.CancelRequested? || t.status.Cancelled? ==> t.cancel.at.Some?)
    && (t.cancel.at.Some? ==> t.status.CancelRequested? || t.status.Cancelled? || t.status.Failed?)
  }

  ghost predicate InputInv(t: ExecutionRow) {
    forall k :: 0 <= k < |t.inputs| && t.inputs[k].status.Open? ==> t.status.WaitingInput?
  }
}
