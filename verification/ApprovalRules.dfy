/** The approval protocol as functions from row to row: entering the wait, deciding,
    expiring and claiming the resume.  ApprovalService is proved to compute these. */
module ApprovalRules {
  import opened ExecutionRows

  const APPROVAL_REJECTED := "APPROVAL_REJECTED"
  const APPROVAL_EXPIRED := "APPROVAL_EXPIRED"
  const RESUME_FAILED := "APPROVAL_RESUME_PRECONDITION_FAILED"
  const UPSTREAM_STOPPED := "UPSTREAM_EXECUTION_STOPPED"

  // ---- counting votes ----------------------------------------------------------

  function Count(ds: seq<Decision>, v: Vote): nat {
    if ds == [] then 0
    else Count(ds[..|ds| - 1], v) + (if ds[|ds| - 1].vote == v then 1 else 0)
  }

  function Aggregate(mode: DecisionMode, required: int, ds: seq<Decision>): Result<Option<ApprovalStatus>> {
    if required < 1 then Err(ResourceConflict) else
    var approvals, rejections := Count(ds, Approve), Count(ds, Reject);
    match mode
    case Any =>
      if approvals >= 1 then Ok(Some(ApprovalStatus.Approved))
      else if rejections >= 1 then Ok(Some(ApprovalStatus.Rejected))
      else Ok(None)
    case All =>
      if rejections >= 1 then Ok(Some(ApprovalStatus.Rejected))
      else if approvals >= required then Ok(Some(ApprovalStatus.Approved))
      else Ok(None)
    case Quorum =>
      if approvals >= required then Ok(Some(ApprovalStatus.Approved))
      else if rejections >= required then Ok(Some(ApprovalStatus.Rejected))
      else Ok(None)
  }

  // ---- entering the wait -------------------------------------------------------

  datatype Policy = Policy(active: bool, mode: DecisionMode, required: int, expirySeconds: int)

  datatype WaitOutcome = WaitOutcome(request: nat, reused: bool)

  /** The PENDING request of a Step, if any. */
  function FindPending(rs: seq<RequestRow>, step: nat): Option<nat> {
    if rs == [] then None
    else
      var last := |rs| - 1;
      if rs[last].step == step && rs[last].status.Pending? then Some(last) else FindPending(rs[..last], step)
  }

  function ReusePending(t: ExecutionRow, i: nat): Reply<WaitOutcome>
    requires i < |t.steps|
  {
    if !t.status.WaitingApproval? || !t.steps[i].status.WaitingApproval? then Reply(t, Err(ResourceConflict))
    else
      match FindPending(t.requests, i)
      case None => Reply(t, Err(ResourceConflict))
      case Some(q) => Reply(t, Ok(WaitOutcome(q, true)))
  }

  function NewRequest(t: ExecutionRow, i: nat, policy: Policy, authorable: bool, now: Time): RequestRow {
    RequestRow(i, ApprovalStatus.Pending, policy.mode, policy.required, t.requester,
               now + policy.expirySeconds, None, authorable, 1, [])
  }

  function MadeReady(s: StepRow, now: Time): StepRow {
    if s.status.Pending? && s.readyAt.None? then s.(readyAt := Some(now)) else s
  }

  function Park(t: ExecutionRow, i: nat, s: StepRow, request: RequestRow): Reply<WaitOutcome>
    requires i < |t.steps|
  {
    if request.required < 1 then Reply(t, Err(IntegrityError)) else
    var s' := s.(status := StepStatus.WaitingApproval, lockVersion := s.lockVersion + 1);
    var t' := t.(status := ExecutionStatus.WaitingApproval, lease := NO_LEASE, lockVersion := t.lockVersion + 1,
                 steps := t.steps[i := s'], requests := t.requests + [request]);
    Reply(t', Ok(WaitOutcome(|t.requests|, false)))
  }

  function EnterForTool(t: ExecutionRow, i: nat, policy: Policy, policyMatches: bool, inputKnown: bool, now: Time)
    : Reply<WaitOutcome>
    requires i < |t.steps|
  {
    var s := t.steps[i];
    if t.status.WaitingApproval? || s.status.WaitingApproval? then ReusePending(t, i)
    else if !t.status.Running? || !s.status.Ready? then Reply(t, Err(ResourceConflict))
    else if !policyMatches || policy.expirySeconds <= 0 then Reply(t, Err(PreconditionFailed))
    else if FindPending(t.requests, i).Some? then Reply(t, Err(ResourceConflict))
    else if !inputKnown then Reply(t, Err(PreconditionFailed))
    else Park(t, i, s, NewRequest(t, i, policy, false, now))
  }

  /** contextError is the refusal of the checkpoint snapshot builder, when it refuses. */
  function EnterForApproval(t: ExecutionRow, i: nat, policy: Policy, contextError: Option<AppError>, now: Time)
    : Reply<WaitOutcome>
    requires i < |t.steps|
  {
    var s := t.steps[i];
    if t.status.WaitingApproval? || s.status.WaitingApproval? then ReusePending(t, i)
    else if !t.status.Running? || !(s.status.Pending? || s.status.Ready?) then Reply(t, Err(ResourceConflict))
    else if !s.kind.Approval? then Reply(t, Err(ResourceConflict))
    else if !policy.active || policy.expirySeconds <= 0 then Reply(t, Err(PreconditionFailed))
    else if FindPending(t.requests, i).Some? then Reply(t, Err(ResourceConflict))
    else if contextError.Some? then Reply(t, Err(contextError.value))
    else
      Park(t, i, MadeReady(s, now), NewRequest(t, i, policy, true, now))
  }

  // ---- ending the Execution ----------------------------------------------------

  function FailStep(s: StepRow, code: string, now: Time): StepRow {
    s.(status := StepStatus.Failed, errorCode := Some(code), finishedAt := Some(now), lockVersion := s.lockVersion + 1)
  }

  /** A PENDING Step is skipped; a READY TOOL Step that never started is cancelled. */
  function StopStep(s: StepRow, now: Time): StepRow {
    if s.status.Pending? then
      s.(status := StepStatus.Skipped, errorCode := Some(UPSTREAM_STOPPED), finishedAt := Some(now),
         lockVersion := s.lockVersion + 1)
    else if s.kind.Tool? && s.status.Ready? && s.startedAt.None? && s.attemptCount == 0 then
      s.(status := StepStatus.Cancelled, errorCode := Some(UPSTREAM_STOPPED), finishedAt := Some(now),
         lockVersion := s.lockVersion + 1)
    else s
  }

  function FailExecution(t: ExecutionRow, i: nat, code: string, authorable: bool, now: Time): ExecutionRow
    requires i < |t.steps|
  {
    var failed := t.steps[i := FailStep(t.steps[i], code, now)];
    t.(steps := if authorable && |t.steps| > 1 then Map(s => StopStep(s, now), failed) else failed,
       status := ExecutionStatus.Failed, errorCode := Some(code), finishedAt := Some(now), lease := NO_LEASE,
       lockVersion := t.lockVersion + 1)
  }

  function ResolveRequest(t: ExecutionRow, q: nat, status: ApprovalStatus, now: Time): ExecutionRow
    requires q < |t.requests|
  {
    var r := t.requests[q];
    t.(requests := t.requests[q := r.(status := status, resolvedAt := Some(now), lockVersion := r.lockVersion + 1)])
  }

  function ExpireRequest(t: ExecutionRow, q: nat, now: Time): ExecutionRow
    requires q < |t.requests| && t.requests[q].step < |t.steps|
  {
    var r := t.requests[q];
    FailExecution(ResolveRequest(t, q, ApprovalStatus.Expired, now), r.step, APPROVAL_EXPIRED, r.authorable, now)
  }

  // ---- deciding ----------------------------------------------------------------

  /** One call of the decide endpoint, with the answers of the checks that look outside
      the execution tables. */
  datatype Ballot = Ballot(
    actor: UserId,
    vote: Vote,
    commented: bool,
    authorized: bool,
    scopeError: Option<AppError>,
    contextError: Option<AppError>,
    allowSelf: bool,
    commentRequired: bool)

  datatype DecisionOutcome = DecisionOutcome(request: ApprovalStatus, execution: ExecutionStatus, step: StepStatus, resumeEnqueued: bool)

  predicate HasVoted(ds: seq<Decision>, actor: UserId) {
    exists k :: 0 <= k < |ds| && ds[k].actor == actor
  }

  function Refusal(r: RequestRow, b: Ballot): Option<AppError> {
    if b.scopeError.Some? then b.scopeError
    else if b.contextError.Some? then b.contextError
    else if !b.allowSelf && b.actor == r.requestedBy then Some(Forbidden)
    else if b.vote.Reject? && b.commentRequired && !b.commented then Some(ValidationError)
    else if HasVoted(r.decisions, b.actor) then Some(ResourceConflict)
    else None
  }

  function Decide(t: ExecutionRow, q: nat, b: Ballot, now: Time): Reply<DecisionOutcome> {
    if q >= |t.requests| then Reply(t, Err(NotFound)) else
    var r := t.requests[q];
    if r.step >= |t.steps| then Reply(t, Err(ResourceConflict))
    else if !b.authorized then Reply(t, Err(Forbidden))
    else if !r.status.Pending? then Reply(t, Err(ResourceConflict))
    else if r.expiresAt <= now then Reply(ExpireRequest(t, q, now), Err(AppError.ApprovalExpired))
    else if !t.status.WaitingApproval? || !t.steps[r.step].status.WaitingApproval? then Reply(t, Err(ResourceConflict))
    else if Refusal(r, b).Some? then Reply(t, Err(Refusal(r, b).value))
    else CountVote(t, q, b, now)
  }

  function CountVote(t: ExecutionRow, q: nat, b: Ballot, now: Time): Reply<DecisionOutcome>
    requires q < |t.requests| && t.requests[q].step < |t.steps|
  {
    var r := t.requests[q];
    var ds := r.decisions + [Decision(b.actor, b.vote)];
    var t' := t.(requests := t.requests[q := r.(decisions := ds)]);
    match Aggregate(r.mode, r.required, ds)
    case Err(e) => Reply(t, Err(e))
    case Ok(None) => Report(t', q, false)
    case Ok(Some(verdict)) =>
      var t'' := ResolveRequest(t', q, verdict, now);
      if verdict.Approved? then Report(t'', q, true)
      else Report(FailExecution(t'', r.step, APPROVAL_REJECTED, r.authorable, now), q, false)
  }

  function Report(t: ExecutionRow, q: nat, resumeEnqueued: bool): Reply<DecisionOutcome>
    requires q < |t.requests| && t.requests[q].step < |t.steps|
  {
    Reply(t, Ok(DecisionOutcome(t.requests[q].status, t.status, t.steps[t.requests[q].step].status, resumeEnqueued)))
  }

  // ---- the expiry sweep, one candidate request -----------------------------------

  predicate Due(t: ExecutionRow, q: nat, now: Time) {
    && q < |t.requests| && t.requests[q].step < |t.steps|
    && t.requests[q].status.Pending? && t.requests[q].expiresAt <= now
    && t.status.WaitingApproval? && t.steps[t.requests[q].step].status.WaitingApproval?
  }

  function ExpireDue(t: ExecutionRow, q: nat, now: Time): ExecutionRow {
    if Due(t, q, now) then ExpireRequest(t, q, now) else t
  }

  const MAX_BATCH := 500

  /** A request picked for the sweep: which Execution, and which of its requests. */
  datatype Candidate = Candidate(execution: nat, request: nat)

  datatype BatchResult = BatchResult(selected: nat, expired: nat)

  function Selected(candidates: seq<Candidate>, limit: int): seq<Candidate> {
    if 0 <= limit <= |candidates| then candidates[..limit] else candidates
  }

  function ExpireCandidate(t: ExecutionRow, e: nat, c: Candidate, now: Time): ExecutionRow {
    if c.execution == e then ExpireDue(t, c.request, now) else t
  }

  /** What the sweep over the candidates leaves of Execution e. */
  function Swept(t: ExecutionRow, e: nat, cs: seq<Candidate>, now: Time): ExecutionRow {
    if cs == [] then t else ExpireCandidate(Swept(t, e, cs[..|cs| - 1], now), e, cs[|cs| - 1], now)
  }

  // ---- claiming the resume -------------------------------------------------------

  /** One delivery of a resume message.  planIntact: the stored plan and Step snapshots
      are consistent and the source is supported; preflight: the mutable checks pass. */
  datatype Delivery = Delivery(request: nat, worker: WorkerId, token: Token, leaseSeconds: nat, planIntact: bool, preflight: bool)

  datatype ClaimOutcome = Claimed(step: nat, lease: Lease) | StaleDelivery | PreconditionRefused

  predicate ResumeShape(t: ExecutionRow, r: RequestRow, kind: StepKind, planIntact: bool)
    requires r.step < |t.steps|
  {
    && r.status.Approved? && r.resolvedAt.Some?
    && t.steps[r.step].status.WaitingApproval?
    && t.steps[r.step].kind == kind
    && t.lease == NO_LEASE
    && planIntact
  }

  function FreshLease(d: Delivery, now: Time): Lease {
    Lease(Some(d.worker), Some(d.token), Some(now + d.leaseSeconds), Some(now))
  }

  function ReadyStep(s: StepRow, now: Time): StepRow {
    s.(status := StepStatus.Ready, readyAt := if s.readyAt.None? then Some(now) else s.readyAt, lockVersion := s.lockVersion + 1)
  }

  function FreshClaim(t: ExecutionRow, i: nat, d: Delivery, now: Time): Reply<ClaimOutcome>
    requires i < |t.steps|
  {
    Reply(t.(status := ExecutionStatus.Running, lease := FreshLease(d, now), lockVersion := t.lockVersion + 1,
             steps := t.steps[i := ReadyStep(t.steps[i], now)]),
          Ok(Claimed(i, FreshLease(d, now))))
  }

  function RefuseResume(t: ExecutionRow, i: nat, authorable: bool, now: Time): Reply<ClaimOutcome>
    requires i < |t.steps|
  {
    Reply(FailExecution(t, i, RESUME_FAILED, authorable, now), Ok(PreconditionRefused))
  }

  predicate AuthorablePath(t: ExecutionRow, r: RequestRow)
    requires r.step < |t.steps|
  {
    r.authorable || t.steps[r.step].kind.Approval?
  }

  predicate AuthorableShape(t: ExecutionRow, r: RequestRow, planIntact: bool)
    requires r.step < |t.steps|
  {
    r.authorable && ResumeShape(t, r, StepKind.Approval, planIntact)
  }

  /** The rest of a delivery whose stored rows have the right shape. */
  function ClaimShaped(t: ExecutionRow, d: Delivery, i: nat, authorable: bool, now: Time): Reply<ClaimOutcome>
    requires i < |t.steps|
  {
    if FindPending(t.requests, i).Some? then Reply(t, Err(ResourceConflict))
    else if !d.preflight then RefuseResume(t, i, authorable, now)
    else FreshClaim(t, i, d, now)
  }

  function Claim(t: ExecutionRow, d: Delivery, now: Time): Reply<ClaimOutcome> {
    if !t.status.WaitingApproval? then Reply(t, Ok(StaleDelivery))
    else if d.request >= |t.requests| || t.requests[d.request].step >= |t.steps| then Reply(t, Err(ResourceConflict))
    else
      var r := t.requests[d.request];
      if AuthorablePath(t, r) then
        if !AuthorableShape(t, r, d.planIntact) then RefuseResume(t, r.step, true, now)
        else ClaimShaped(t, d, r.step, true, now)
      else
        if !ResumeShape(t, r, StepKind.Tool, d.planIntact) then Reply(t, Err(ResourceConflict))
        else ClaimShaped(t, d, r.step, false, now)
  }
}
