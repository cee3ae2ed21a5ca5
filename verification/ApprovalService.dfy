/** The approval services as they act on the tables: wait entry, decision, expiry, resume. */
module ApprovalService {
  import opened ExecutionRows
  import opened ExecutionStore
  import C = CancellationRules
  import CancellationService
  import ApprovalLaws
  import opened A = ApprovalRules

  // ---- reading the tables ----------------------------------------------------------

  method FindPending(requests: seq<ApprovalRequest>, step: nat) returns (found: Option<nat>)
    ensures found == A.FindPending(RequestRows(requests), step)
    ensures found.Some? ==> found.value < |requests|
  {
    ghost var rows := RequestRows(requests);
    var k := |requests|;
    assert rows[..k] == rows;
    while k > 0
      invariant 0 <= k <= |requests|
      invariant A.FindPending(rows, step) == A.FindPending(rows[..k], step)
    {
      k := k - 1;
      assert rows[..k + 1][..k] == rows[..k];
      if requests[k].step == step && requests[k].status.Pending? {
        return Some(k);
      }
    }
    found := None;
  }

  method Tally(decisions: seq<Decision>, vote: Vote) returns (n: nat)
    ensures n == Count(decisions, vote)
  {
    n := 0;
    for k := 0 to |decisions|
      invariant n == Count(decisions[..k], vote)
    {
      assert decisions[..k + 1][..k] == decisions[..k];
      if decisions[k].vote == vote { n := n + 1; }
    }
    assert decisions[..|decisions|] == decisions;
  }

  method AggregateDecision(mode: DecisionMode, required: int, decisions: seq<Decision>)
    returns (result: Result<Option<ApprovalStatus>>)
    ensures result == Aggregate(mode, required, decisions)
  {
    if required < 1 { return Err(ResourceConflict); }
    var approvals := Tally(decisions, Approve);
    var rejections := Tally(decisions, Reject);
    match mode
    case Any =>
      if approvals >= 1 { return Ok(Some(ApprovalStatus.Approved)); }
      if rejections >= 1 { return Ok(Some(ApprovalStatus.Rejected)); }
      return Ok(None);
    case All =>
      if rejections >= 1 { return Ok(Some(ApprovalStatus.Rejected)); }
      if approvals >= required { return Ok(Some(ApprovalStatus.Approved)); }
      return Ok(None);
    case Quorum =>
      if approvals >= required { return Ok(Some(ApprovalStatus.Approved)); }
      if rejections >= required { return Ok(Some(ApprovalStatus.Rejected)); }
      return Ok(None);
  }

  // ---- entering the wait -------------------------------------------------------------

  method ReusePending(execution: Execution, i: nat) returns (result: Result<WaitOutcome>)
    requires execution.Valid() && i < |execution.steps|
    ensures Reply(execution.Row(), result) == A.ReusePending(execution.Row(), i)
  {
    if !execution.status.WaitingApproval? || !execution.steps[i].status.WaitingApproval? {
      return Err(ResourceConflict);
    }
    var found := FindPending(execution.requests, i);
    match found
    case None => return Err(ResourceConflict);
    case Some(q) => return Ok(WaitOutcome(q, true));
  }

  /** PENDING becomes READY first, for an APPROVAL Step at its checkpoint. */
  method ParkStep(execution: Execution, i: nat, now: Time)
    requires execution.Valid() && i < |execution.steps|
    modifies execution.steps[i]
    ensures execution.Valid()
    ensures var t := old(execution.Row());
      execution.Row() == t.(steps := t.steps[i := WaitingStep(t.steps[i], now)])
  {
    var step := execution.steps[i];
    if step.status.Pending? {
      step.status := StepStatus.Ready;
      if step.readyAt.None? {
        step.readyAt := Some(now);
      }
    }
    step.status := StepStatus.WaitingApproval;
    step.lockVersion := step.lockVersion + 1;
    assert step.Row() == WaitingStep(old(step.Row()), now);
    CancellationService.StepReplaced(execution.steps, execution.StepRepr, old(StepRows(execution.steps, execution.StepRepr)), i);
  }

  ghost function WaitingStep(s: StepRow, now: Time): StepRow {
    A.MadeReady(s, now).(status := StepStatus.WaitingApproval, lockVersion := s.lockVersion + 1)
  }

  /** Adds the request and gives the lease up. */
  method Suspend(execution: Execution, request: ApprovalRequest)
    requires execution.Valid() && request !in execution.requests && request !in execution.StepRepr
    modifies execution
    ensures execution.Valid()
    ensures var t := old(execution.Row());
      execution.Row() == t.(status := ExecutionStatus.WaitingApproval, lease := NO_LEASE,
                            lockVersion := t.lockVersion + 1, requests := t.requests + [request.Row()])
  {
    hide StepRows, StepsApart;
    execution.requests := execution.requests + [request];
    execution.status := ExecutionStatus.WaitingApproval;
    CancellationService.ClearLease(execution);
    execution.lockVersion := execution.lockVersion + 1;
    assert StepRows(execution.steps, execution.StepRepr) == old(StepRows(execution.steps, execution.StepRepr));
    assert RequestRows(execution.requests) == old(RequestRows(execution.requests)) + [request.Row()];
  }

  /** An insert the database refuses raises before anything is flushed. */
  method Park(execution: Execution, i: nat, policy: Policy, authorable: bool, now: Time)
    returns (result: Result<WaitOutcome>)
    requires execution.Valid() && i < |execution.steps|
    modifies execution, execution.steps[i]
    ensures execution.Valid()
    ensures var t := old(execution.Row());
      Reply(execution.Row(), result) == A.Park(t, i, A.MadeReady(t.steps[i], now), NewRequest(t, i, policy, authorable, now))
  {
    hide StepRows, RequestRows, InputRows, StepsApart;
    if policy.required < 1 { return Err(IntegrityError); }
    var request := new ApprovalRequest(i, policy.mode, policy.required, execution.requester,
                                       now + policy.expirySeconds, authorable);
    result := Ok(WaitOutcome(|execution.requests|, false));
    ParkStep(execution, i, now);
    Suspend(execution, request);
  }

  method EnterForTool(execution: Execution, i: nat, policy: Policy, policyMatches: bool, inputKnown: bool, now: Time)
    returns (result: Result<WaitOutcome>)
    requires execution.Valid() && i < |execution.steps|
    modifies execution, execution.steps[i]
    ensures execution.Valid()
    ensures Reply(execution.Row(), result) == A.EnterForTool(old(execution.Row()), i, policy, policyMatches, inputKnown, now)
  {
    hide StepRows, InputRows, StepsApart, A.Park, A.FindPending;
    var step := execution.steps[i];
    if execution.status.WaitingApproval? || step.status.WaitingApproval? {
      result := ReusePending(execution, i);
      return;
    }
    if !execution.status.Running? || !step.status.Ready? { return Err(ResourceConflict); }
    if !policyMatches || policy.expirySeconds <= 0 { return Err(PreconditionFailed); }
    var existing := FindPending(execution.requests, i);
    if existing.Some? { return Err(ResourceConflict); }
    if !inputKnown { return Err(PreconditionFailed); }
    result := Park(execution, i, policy, false, now);
  }

  method EnterForApproval(execution: Execution, i: nat, policy: Policy, contextError: Option<AppError>, now: Time)
    returns (result: Result<WaitOutcome>)
    requires execution.Valid() && i < |execution.steps|
    modifies execution, execution.steps[i]
    ensures execution.Valid()
    ensures Reply(execution.Row(), result) == A.EnterForApproval(old(execution.Row()), i, policy, contextError, now)
  {
    hide StepRows, InputRows, StepsApart, A.Park, A.FindPending;
    var step := execution.steps[i];
    if execution.status.WaitingApproval? || step.status.WaitingApproval? {
      result := ReusePending(execution, i);
      return;
    }
    if !execution.status.Running? || !(step.status.Pending? || step.status.Ready?) { return Err(ResourceConflict); }
    if !step.kind.Approval? { return Err(ResourceConflict); }
    if !policy.active || policy.expirySeconds <= 0 { return Err(PreconditionFailed); }
    var existing := FindPending(execution.requests, i);
    if existing.Some? { return Err(ResourceConflict); }
    if contextError.Some? { return Err(contextError.value); }
    result := Park(execution, i, policy, true, now);
  }

  // ---- ending the Execution ------------------------------------------------------------

  method FailStep(execution: Execution, i: nat, code: string, now: Time)
    requires execution.Valid() && i < |execution.steps|
    modifies execution.steps[i]
    ensures execution.Valid()
    ensures var t := old(execution.Row());
      execution.Row() == t.(steps := t.steps[i := A.FailStep(t.steps[i], code, now)])
  {
    var step := execution.steps[i];
    step.status := StepStatus.Failed;
    step.errorCode := Some(code);
    step.finishedAt := Some(now);
    step.lockVersion := step.lockVersion + 1;
    assert step.Row() == A.FailStep(old(step.Row()), code, now);
    CancellationService.StepReplaced(execution.steps, execution.StepRepr, old(StepRows(execution.steps, execution.StepRepr)), i);
  }

  ghost function Skipped(s: StepRow, now: Time): StepRow {
    if s.status.Pending? then A.StopStep(s, now) else s
  }

  /** skip_all_pending, then cancel_unused_ready_tools. */
  method StopSteps(steps: seq<ExecutionStep>, ghost repr: set<object>, now: Time)
    requires StepsApart(steps, repr)
    modifies repr
    ensures StepRows(steps, repr) == Map(s => A.StopStep(s, now), old(StepRows(steps, repr)))
  {
    hide A.StopStep;
    ghost var was := StepRows(steps, repr);
    for k := 0 to |steps|
      invariant forall j :: 0 <= j < k ==> steps[j].Row() == Skipped(was[j], now)
      invariant forall j :: k <= j < |steps| ==> steps[j].Row() == was[j]
    {
      SkipIfPending(steps[k], now);
    }
    for k := 0 to |steps|
      invariant forall j :: 0 <= j < k ==> steps[j].Row() == A.StopStep(was[j], now)
      invariant forall j :: k <= j < |steps| ==> steps[j].Row() == Skipped(was[j], now)
    {
      CancelIfUnused(steps[k], was[k], now);
    }
  }

  method SkipIfPending(step: ExecutionStep, now: Time)
    requires step.Valid()
    modifies step
    ensures step.Row() == Skipped(old(step.Row()), now)
  {
    if !step.status.Pending? { return; }
    step.status := StepStatus.Skipped;
    step.errorCode := Some(A.UPSTREAM_STOPPED);
    step.finishedAt := Some(now);
    step.lockVersion := step.lockVersion + 1;
  }

  method CancelIfUnused(step: ExecutionStep, ghost was: StepRow, now: Time)
    requires step.Valid() && step.Row() == Skipped(was, now)
    modifies step
    ensures step.Row() == A.StopStep(was, now)
  {
    if !step.kind.Tool? || !step.status.Ready? || step.startedAt.Some? || step.attemptCount != 0 { return; }
    step.status := StepStatus.Cancelled;
    step.errorCode := Some(A.UPSTREAM_STOPPED);
    step.finishedAt := Some(now);
    step.lockVersion := step.lockVersion + 1;
  }

  method FailExecution(execution: Execution, i: nat, code: string, authorable: bool, now: Time)
    requires execution.Valid() && i < |execution.steps|
    modifies execution, execution.StepRepr
    ensures execution.Valid() && execution.requests == old(execution.requests)
    ensures execution.Row() == A.FailExecution(old(execution.Row()), i, code, authorable, now)
  {
    hide StepRows, RequestRows, InputRows, A.FailStep, A.StopStep;
    FailStep(execution, i, code, now);
    if authorable && |execution.steps| > 1 {
      StopAll(execution, now);
    }
    CancellationService.Finish(execution, ExecutionStatus.Failed, Some(code), now);
  }

  method StopAll(execution: Execution, now: Time)
    requires execution.Valid()
    modifies execution.StepRepr
    ensures execution.Valid()
    ensures var t := old(execution.Row()); execution.Row() == t.(steps := Map(s => A.StopStep(s, now), t.steps))
  {
    hide StepRows, RequestRows, InputRows, StepsApart, A.StopStep;
    StopSteps(execution.steps, execution.StepRepr, now);
    assert RequestRows(execution.requests) == old(RequestRows(execution.requests));
    assert InputRows(execution.inputs) == old(InputRows(execution.inputs));
  }

  method ResolveRequest(execution: Execution, q: nat, status: ApprovalStatus, now: Time)
    requires execution.Valid() && q < |execution.requests|
    modifies execution.requests[q]
    ensures execution.Valid()
    ensures execution.Row() == A.ResolveRequest(old(execution.Row()), q, status, now)
  {
    hide StepRows, StepsApart;
    var request := execution.requests[q];
    request.status := status;
    request.resolvedAt := Some(now);
    request.lockVersion := request.lockVersion + 1;
    RequestRowReplaced(execution.requests, old(RequestRows(execution.requests)), q);
    assert StepRows(execution.steps, execution.StepRepr) == old(StepRows(execution.steps, execution.StepRepr));
    assert InputRows(execution.inputs) == old(InputRows(execution.inputs));
  }

  /** Replacing the row of one request. */
  lemma RequestRowReplaced(requests: seq<ApprovalRequest>, was: seq<RequestRow>, q: nat)
    requires |was| == |requests| && q < |requests|
    requires forall j :: 0 <= j < |requests| && j != q ==> requests[j].Row() == was[j]
    ensures RequestRows(requests) == was[q := requests[q].Row()]
  {
  }

  method ExpireRequest(execution: Execution, q: nat, now: Time)
    requires execution.Valid() && q < |execution.requests| && execution.requests[q].step < |execution.steps|
    modifies execution, execution.StepRepr, execution.requests
    ensures execution.Valid() && execution.requests == old(execution.requests)
    ensures execution.Row() == A.ExpireRequest(old(execution.Row()), q, now)
  {
    hide StepRows, InputRows, StepsApart, A.FailExecution;
    var request := execution.requests[q];
    ResolveRequest(execution, q, ApprovalStatus.Expired, now);
    FailExecution(execution, request.step, A.APPROVAL_EXPIRED, request.authorable, now);
  }

  // ---- deciding --------------------------------------------------------------------------

  method RefuseBallot(request: ApprovalRequest, ballot: Ballot) returns (refusal: Option<AppError>)
    ensures refusal == Refusal(request.Row(), ballot)
  {
    if ballot.scopeError.Some? { return ballot.scopeError; }
    if ballot.contextError.Some? { return ballot.contextError; }
    if !ballot.allowSelf && ballot.actor == request.requestedBy { return Some(Forbidden); }
    if ballot.vote.Reject? && ballot.commentRequired && !ballot.commented { return Some(ValidationError); }
    var existing := FindByActor(request.decisions, ballot.actor);
    if existing { return Some(ResourceConflict); }
    refusal := None;
  }

  method FindByActor(decisions: seq<Decision>, actor: UserId) returns (found: bool)
    ensures found == HasVoted(decisions, actor)
  {
    found := false;
    for k := 0 to |decisions|
      invariant found == exists j :: 0 <= j < k && decisions[j].actor == actor
    {
      found := found || decisions[k].actor == actor;
    }
  }

  method RecordVote(execution: Execution, q: nat, decision: Decision)
    requires execution.Valid() && q < |execution.requests|
    modifies execution.requests[q]
    ensures execution.Valid()
    ensures var t := old(execution.Row());
      execution.Row() == t.(requests := t.requests[q := t.requests[q].(decisions := t.requests[q].decisions + [decision])])
  {
    hide StepRows, StepsApart;
    var request := execution.requests[q];
    request.decisions := request.decisions + [decision];
    RequestRowReplaced(execution.requests, old(RequestRows(execution.requests)), q);
    assert StepRows(execution.steps, execution.StepRepr) == old(StepRows(execution.steps, execution.StepRepr));
    assert InputRows(execution.inputs) == old(InputRows(execution.inputs));
  }

  /** The verdict is known before the vote is recorded: an aggregation that raises rolls
      the vote back. */
  method CountVote(execution: Execution, q: nat, ballot: Ballot, now: Time) returns (result: Result<DecisionOutcome>)
    requires execution.Valid() && q < |execution.requests| && execution.requests[q].step < |execution.steps|
    modifies execution, execution.StepRepr, execution.requests
    ensures execution.Valid()
    ensures Reply(execution.Row(), result) == A.CountVote(old(execution.Row()), q, ballot, now)
  {
    hide StepRows, InputRows, StepsApart, A.FailExecution, Aggregate;
    var request := execution.requests[q];
    var terminal := AggregateDecision(request.mode, request.required,
                                      request.decisions + [Decision(ballot.actor, ballot.vote)]);
    if terminal.Err? { return Err(terminal.error); }
    RecordVote(execution, q, Decision(ballot.actor, ballot.vote));
    var enqueued := false;
    if terminal.value.Some? {
      ResolveRequest(execution, q, terminal.value.value, now);
      if terminal.value.value.Approved? {
        enqueued := true;
      } else {
        FailExecution(execution, request.step, A.APPROVAL_REJECTED, request.authorable, now);
      }
    }
    result := Ok(DecisionOutcome(request.status, execution.status, execution.steps[request.step].status, enqueued));
  }

  method Decide(execution: Execution, q: nat, ballot: Ballot, now: Time) returns (result: Result<DecisionOutcome>)
    requires execution.Valid()
    modifies execution, execution.StepRepr, execution.requests
    ensures execution.Valid()
    ensures Reply(execution.Row(), result) == A.Decide(old(execution.Row()), q, ballot, now)
  {
    hide StepRows, InputRows, StepsApart, A.ExpireRequest, A.CountVote, Refusal;
    if q >= |execution.requests| { return Err(NotFound); }
    var request := execution.requests[q];
    if request.step >= |execution.steps| { return Err(ResourceConflict); }
    if !ballot.authorized { return Err(Forbidden); }
    if !request.status.Pending? { return Err(ResourceConflict); }
    if request.expiresAt <= now {
      ExpireRequest(execution, q, now);
      return Err(AppError.ApprovalExpired);
    }
    if !execution.status.WaitingApproval? || !execution.steps[request.step].status.WaitingApproval? {
      return Err(ResourceConflict);
    }
    var refusal := RefuseBallot(request, ballot);
    if refusal.Some? { return Err(refusal.value); }
    result := CountVote(execution, q, ballot, now);
  }

  // ---- expiry ------------------------------------------------------------------------------

  method ExpireDue(execution: Execution, q: nat, now: Time) returns (expired: bool)
    requires execution.Valid()
    modifies execution, execution.StepRepr, execution.requests
    ensures execution.Valid() && execution.requests == old(execution.requests)
    ensures execution.Row() == A.ExpireDue(old(execution.Row()), q, now)
    ensures expired == Due(old(execution.Row()), q, now)
  {
    hide StepRows, InputRows, StepsApart, A.ExpireRequest;
    expired := false;
    if q >= |execution.requests| || execution.requests[q].step >= |execution.steps| { return; }
    var request := execution.requests[q];
    if !request.status.Pending? || request.expiresAt > now { return; }
    if !execution.status.WaitingApproval? || !execution.steps[request.step].status.WaitingApproval? { return; }
    ExpireRequest(execution, q, now);
    expired := true;
  }

  /** Everything one Execution owns lies in its own part of repr. */
  ghost predicate ExecutionsApart(executions: seq<Execution>, parts: seq<set<object>>, repr: set<object>)
    reads executions
    ensures ExecutionsApart(executions, parts, repr) ==> forall e :: 0 <= e < |executions| ==> executions[e].Valid()
  {
    && |parts| == |executions|
    && (forall e :: 0 <= e < |executions| ==> executions[e].Valid() && parts[e] <= repr && executions[e] in parts[e])
    && (forall e :: 0 <= e < |executions| ==> executions[e].StepRepr <= parts[e])
    && (forall e, q :: 0 <= e < |executions| && 0 <= q < |executions[e].requests| ==> executions[e].requests[q] in parts[e])
    && (forall e, m :: 0 <= e < |executions| && 0 <= m < |executions[e].inputs| ==> executions[e].inputs[m] in parts[e])
    && (forall e, f | 0 <= e < |executions| && 0 <= f < |executions| && e != f :: parts[e] !! parts[f])
  }

  /** A candidate whose rows are gone or locked is passed over. */
  method ExpireCandidate(executions: seq<Execution>, c: Candidate, now: Time,
                         ghost parts: seq<set<object>>, ghost repr: set<object>)
    returns (expired: bool)
    requires ExecutionsApart(executions, parts, repr)
    modifies repr
    ensures ExecutionsApart(executions, parts, repr)
    ensures forall e :: 0 <= e < |executions| ==>
      executions[e].Row() == A.ExpireCandidate(old(executions[e].Row()), e, c, now)
    ensures expired == (c.execution < |executions| && Due(old(executions[c.execution].Row()), c.request, now))
  {
    hide Execution.Row, Execution.Valid, A.ExpireDue, Due;
    if c.execution < |executions| {
      expired := ExpireDue(executions[c.execution], c.request, now);
    } else {
      expired := false;
    }
  }

  ghost function RowsOf(executions: seq<Execution>, parts: seq<set<object>>, repr: set<object>): (r: seq<ExecutionRow>)
    requires ExecutionsApart(executions, parts, repr)
    reads executions, repr
    ensures |r| == |executions| && forall e :: 0 <= e < |executions| ==> r[e] == executions[e].Row()
  {
    seq(|executions|, e requires 0 <= e < |executions| && ExecutionsApart(executions, parts, repr) reads executions, repr
        => executions[e].Row())
  }

  lemma NothingSwept(ts: seq<ExecutionRow>, now: Time)
    ensures forall e :: 0 <= e < |ts| ==> Swept(ts[e], e, [], now) == ts[e]
    ensures ApprovalLaws.Changed(ts, [], now) == {}
  {
  }

  lemma SweptOneMore(t: ExecutionRow, e: nat, cs: seq<Candidate>, c: Candidate, now: Time)
    ensures Swept(t, e, cs + [c], now) == A.ExpireCandidate(Swept(t, e, cs, now), e, c, now)
  {
    assert (cs + [c])[..|cs + [c]| - 1] == cs;
  }

  /** The loop body: candidate k, after those before it. */
  method ExpireNext(executions: seq<Execution>, ids: seq<Candidate>, k: nat, now: Time, ghost was: seq<ExecutionRow>,
                    ghost parts: seq<set<object>>, ghost repr: set<object>)
    returns (expired: bool)
    requires ExecutionsApart(executions, parts, repr) && k < |ids| && |was| == |executions|
    requires forall e :: 0 <= e < |executions| ==> executions[e].Row() == Swept(was[e], e, ids[..k], now)
    modifies repr
    ensures ExecutionsApart(executions, parts, repr)
    ensures forall e :: 0 <= e < |executions| ==> executions[e].Row() == Swept(was[e], e, ids[..k + 1], now)
    ensures |ApprovalLaws.Changed(was, ids[..k + 1], now)| ==
      |ApprovalLaws.Changed(was, ids[..k], now)| + if expired then 1 else 0
  {
    hide Execution.Row, Execution.Valid, ExecutionsApart, A.ExpireCandidate, Due, Swept, ApprovalLaws.Changed;
    assert ids[..k + 1] == ids[..k] + [ids[k]];
    ApprovalLaws.ChangedByOne(was, ids[..k], ids[k], now);
    expired := ExpireCandidate(executions, ids[k], now, parts, repr);
    forall e | 0 <= e < |executions| ensures executions[e].Row() == Swept(was[e], e, ids[..k + 1], now) {
      SweptOneMore(was[e], e, ids[..k], ids[k], now);
    }
  }

  /** One committed batch; expired counts the Executions it changed. */
  method ExpireDueBatch(executions: seq<Execution>, candidates: seq<Candidate>, limit: int, now: Time,
                        ghost parts: seq<set<object>>, ghost repr: set<object>)
    returns (result: Result<BatchResult>)
    requires ExecutionsApart(executions, parts, repr)
    modifies repr
    ensures ExecutionsApart(executions, parts, repr)
    ensures result.Err? <==> limit < 1 || limit > MAX_BATCH
    ensures result.Err? ==> result.error.ValidationError?
    ensures forall e :: 0 <= e < |executions| ==>
      executions[e].Row() ==
        (if result.Err? then old(executions[e].Row()) else Swept(old(executions[e].Row()), e, Selected(candidates, limit), now))
    ensures result.Ok? ==> result.value.selected == |Selected(candidates, limit)|
    ensures result.Ok? ==>
      result.value.expired == |set e | 0 <= e < |executions| && executions[e].Row() != old(executions[e].Row())|
  {
    hide Execution.Row, Execution.Valid, ExecutionsApart, Due, Swept;
    if limit < 1 || limit > MAX_BATCH { return Err(ValidationError); }
    var ids, expired := Selected(candidates, limit), 0;
    ghost var was := RowsOf(executions, parts, repr);
    NothingSwept(was, now);
    for k := 0 to |ids|
      invariant ExecutionsApart(executions, parts, repr)
      invariant forall e :: 0 <= e < |executions| ==> executions[e].Row() == Swept(was[e], e, ids[..k], now)
      invariant expired == |ApprovalLaws.Changed(was, ids[..k], now)|
    {
      var done := ExpireNext(executions, ids, k, now, was, parts, repr);
      if done { expired := expired + 1; }
    }
    assert ids[..|ids|] == ids;
    assert ApprovalLaws.Changed(was, ids, now) ==
      set e | 0 <= e < |executions| && executions[e].Row() != old(executions[e].Row());
    result := Ok(BatchResult(|ids|, expired));
  }

  // ---- resuming ----------------------------------------------------------------------------

  method ReadyStep(execution: Execution, i: nat, now: Time)
    requires execution.Valid() && i < |execution.steps|
    modifies execution.steps[i]
    ensures execution.Valid()
    ensures var t := old(execution.Row());
      execution.Row() == t.(steps := t.steps[i := A.ReadyStep(t.steps[i], now)])
  {
    var step := execution.steps[i];
    step.status := StepStatus.Ready;
    if step.readyAt.None? {
      step.readyAt := Some(now);
    }
    step.lockVersion := step.lockVersion + 1;
    assert step.Row() == A.ReadyStep(old(step.Row()), now);
    CancellationService.StepReplaced(execution.steps, execution.StepRepr, old(StepRows(execution.steps, execution.StepRepr)), i);
  }

  method InstallLease(execution: Execution, delivery: Delivery, now: Time)
    requires execution.Valid()
    modifies execution
    ensures execution.Valid() && execution.requests == old(execution.requests)
    ensures var t := old(execution.Row());
      execution.Row() == t.(status := ExecutionStatus.Running, lease := FreshLease(delivery, now), lockVersion := t.lockVersion + 1)
  {
    hide StepRows, RequestRows, InputRows, StepsApart;
    execution.status := ExecutionStatus.Running;
    execution.workerId := Some(delivery.worker);
    execution.leaseToken := Some(delivery.token);
    execution.leaseExpiresAt := Some(now + delivery.leaseSeconds);
    execution.heartbeatAt := Some(now);
    execution.lockVersion := execution.lockVersion + 1;
  }

  method FreshClaim(execution: Execution, i: nat, delivery: Delivery, now: Time) returns (result: Result<ClaimOutcome>)
    requires execution.Valid() && i < |execution.steps|
    modifies execution, execution.steps[i]
    ensures execution.Valid()
    ensures Reply(execution.Row(), result) == A.FreshClaim(old(execution.Row()), i, delivery, now)
  {
    hide StepRows, RequestRows, InputRows, StepsApart;
    InstallLease(execution, delivery, now);
    ReadyStep(execution, i, now);
    result := Ok(Claimed(i, FreshLease(delivery, now)));
  }

  method RefuseResume(execution: Execution, i: nat, authorable: bool, now: Time) returns (result: Result<ClaimOutcome>)
    requires execution.Valid() && i < |execution.steps|
    modifies execution, execution.StepRepr
    ensures execution.Valid()
    ensures Reply(execution.Row(), result) == A.RefuseResume(old(execution.Row()), i, authorable, now)
  {
    FailExecution(execution, i, A.RESUME_FAILED, authorable, now);
    result := Ok(PreconditionRefused);
  }

  method HasResumeShape(execution: Execution, request: ApprovalRequest, kind: StepKind, planIntact: bool)
    returns (ok: bool)
    requires execution.Valid() && request.step < |execution.steps|
    ensures ok == ResumeShape(execution.Row(), request.Row(), kind, planIntact)
  {
    if !request.status.Approved? || request.resolvedAt.None? { return false; }
    var step := execution.steps[request.step];
    if !step.status.WaitingApproval? || step.kind != kind { return false; }
    if execution.workerId.Some? || execution.leaseToken.Some? || execution.leaseExpiresAt.Some? || execution.heartbeatAt.Some? {
      return false;
    }
    ok := planIntact;
  }

  /** Both resume paths, told apart by what a malformed shape does. */
  method ClaimShaped(execution: Execution, delivery: Delivery, step: nat, authorable: bool, now: Time)
    returns (result: Result<ClaimOutcome>)
    requires execution.Valid() && step < |execution.steps|
    modifies execution, execution.StepRepr
    ensures execution.Valid()
    ensures Reply(execution.Row(), result) == A.ClaimShaped(old(execution.Row()), delivery, step, authorable, now)
  {
    hide StepRows, InputRows, A.FreshClaim, A.RefuseResume, A.FindPending;
    var pending := FindPending(execution.requests, step);
    if pending.Some? { return Err(ResourceConflict); }
    if !delivery.preflight {
      result := RefuseResume(execution, step, authorable, now);
    } else {
      result := FreshClaim(execution, step, delivery, now);
    }
  }

  method Claim(execution: Execution, delivery: Delivery, now: Time) returns (result: Result<ClaimOutcome>)
    requires execution.Valid()
    modifies execution, execution.StepRepr
    ensures execution.Valid()
    ensures Reply(execution.Row(), result) == A.Claim(old(execution.Row()), delivery, now)
  {
    hide StepRows, InputRows, StepsApart, A.RefuseResume, A.ClaimShaped, ResumeShape;
    if !execution.status.WaitingApproval? { return Ok(StaleDelivery); }
    if delivery.request >= |execution.requests| { return Err(ResourceConflict); }
    var request := execution.requests[delivery.request];
    if request.step >= |execution.steps| { return Err(ResourceConflict); }
    var authorable := request.authorable || execution.steps[request.step].kind.Approval?;
    var shaped := HasResumeShape(execution, request, if authorable then StepKind.Approval else StepKind.Tool, delivery.planIntact);
    if !authorable {
      if !shaped { return Err(ResourceConflict); }
    } else if !request.authorable || !shaped {
      result := RefuseResume(execution, request.step, true, now);
      return;
    }
    result := ClaimShaped(execution, delivery, request.step, authorable, now);
  }
}
