/** What the approval services decide and leave behind, in terms of the rows before the call
    and of the people who voted. */
module ApprovalOutcomes {
  import opened ExecutionRows
  import opened ApprovalRules
  import opened VotingLaws
  import opened ExecutionInvariants
  import opened ApprovalLaws

  // ---- entering the wait ---------------------------------------------------------

  ghost predicate PendingFor(t: ExecutionRow, i: nat, q: nat) {
    q < |t.requests| && t.requests[q].step == i && t.requests[q].status.Pending?
  }

  /** A new request, open to votes from now on, under the policy's own terms. */
  predicate Asked(r: RequestRow, t: ExecutionRow, i: nat, policy: Policy, authorable: bool, now: Time) {
    && r.step == i && r.mode == policy.mode && r.required == policy.required && r.requestedBy == t.requester
    && r.expiresAt == now + policy.expirySeconds && r.status.Pending? && r.resolvedAt.None? && r.decisions == []
    && r.authorable == authorable && r.lockVersion == 1
  }

  /** Step i waits, the Execution waits without a lease, and one request has been added. */
  ghost predicate Waits(t: ExecutionRow, r: ExecutionRow, i: nat, policy: Policy, authorable: bool, now: Time) {
    && r.status.WaitingApproval? && r.lease == NO_LEASE && r.lockVersion == t.lockVersion + 1
    && |r.steps| == |t.steps| && i < |t.steps|
    && (forall j :: 0 <= j < |t.steps| && j != i ==> r.steps[j] == t.steps[j])
    && (var s, s' := t.steps[i], r.steps[i];
        && s'.status.WaitingApproval? && s'.lockVersion == s.lockVersion + 1
        && s'.readyAt == (if s.status.Pending? && s.readyAt.None? then Some(now) else s.readyAt)
        && s' == s.(status := s'.status, lockVersion := s'.lockVersion, readyAt := s'.readyAt))
    && |r.requests| == |t.requests| + 1 && r.requests[..|t.requests|] == t.requests
    && Asked(r.requests[|t.requests|], t, i, policy, authorable, now)
    && r.inputs == t.inputs && r.cancel == t.cancel && r.finishedAt == t.finishedAt && r.errorCode == t.errorCode
    && r.requester == t.requester
  }

  /** A wait that is there is reused; otherwise the row stays as it is. */
  ghost predicate Reused(t: ExecutionRow, i: nat, reply: Reply<WaitOutcome>)
    requires i < |t.steps|
  {
    && reply.row == t
    && (reply.result.Ok? <==>
          t.status.WaitingApproval? && t.steps[i].status.WaitingApproval? && exists q: nat :: PendingFor(t, i, q))
    && (reply.result.Ok? ==> reply.result.value.reused && PendingFor(t, i, reply.result.value.request))
  }

  lemma EnterForToolLeaves(t: ExecutionRow, i: nat, policy: Policy, matches: bool, known: bool, now: Time)
    requires i < |t.steps|
    ensures var reply := EnterForTool(t, i, policy, matches, known, now);
      var may := t.status.Running? && t.steps[i].status.Ready? && matches && policy.expirySeconds > 0 && known
        && policy.required >= 1 && forall q: nat :: !PendingFor(t, i, q);
      if t.status.WaitingApproval? || t.steps[i].status.WaitingApproval? then Reused(t, i, reply)
      else if may then
        Waits(t, reply.row, i, policy, false, now) && reply.result == Ok(WaitOutcome(|t.requests|, false))
      else reply.row == t && reply.result.Err?
  {
    PendingFound(t.requests, i);
    NoneOrSome(t, i);
  }

  lemma EnterForApprovalLeaves(t: ExecutionRow, i: nat, policy: Policy, refusal: Option<AppError>, now: Time)
    requires i < |t.steps|
    ensures var reply := EnterForApproval(t, i, policy, refusal, now);
      var may := t.status.Running? && (t.steps[i].status.Pending? || t.steps[i].status.Ready?) && t.steps[i].kind.Approval?
        && policy.active && policy.expirySeconds > 0 && refusal.None?
        && policy.required >= 1 && forall q: nat :: !PendingFor(t, i, q);
      if t.status.WaitingApproval? || t.steps[i].status.WaitingApproval? then Reused(t, i, reply)
      else if may then
        Waits(t, reply.row, i, policy, true, now) && reply.result == Ok(WaitOutcome(|t.requests|, false))
      else reply.row == t && reply.result.Err?
  {
    PendingFound(t.requests, i);
    NoneOrSome(t, i);
  }

  lemma NoneOrSome(t: ExecutionRow, i: nat)
    ensures FindPending(t.requests, i).Some? <==> exists q: nat :: PendingFor(t, i, q)
  {
    PendingFound(t.requests, i);
    if FindPending(t.requests, i).Some? { assert PendingFor(t, i, FindPending(t.requests, i).value); }
  }

  // ---- an Execution that an approval ends ------------------------------------------

  /** Step i failed with the code, and so did the Execution, which is held by nobody.  If
      others stops, PENDING Steps were skipped and READY tools that never ran cancelled. */
  ghost predicate FailedAt(t: ExecutionRow, r: ExecutionRow, i: nat, code: string, others: bool, now: Time) {
    && r.status.Failed? && r.errorCode == Some(code) && r.finishedAt == Some(now) && r.lease == NO_LEASE
    && r.lockVersion == t.lockVersion + 1 && r.cancel == t.cancel && r.inputs == t.inputs && r.requester == t.requester
    && |r.steps| == |t.steps| && i < |t.steps|
    && Ended(t.steps[i], r.steps[i], StepStatus.Failed, code, now)
    && forall j :: 0 <= j < |t.steps| && j != i ==>
         var s := t.steps[j];
         if others && s.status.Pending? then Ended(s, r.steps[j], StepStatus.Skipped, "UPSTREAM_EXECUTION_STOPPED", now)
         else if others && s.status.Ready? && s.kind.Tool? && s.startedAt.None? && s.attemptCount == 0 then
           Ended(s, r.steps[j], StepStatus.Cancelled, "UPSTREAM_EXECUTION_STOPPED", now)
         else r.steps[j] == s
  }

  predicate Ended(s: StepRow, r: StepRow, status: StepStatus, code: string, now: Time) {
    r == StepRow(s.kind, status, s.readyAt, s.startedAt, Some(now), Some(code), s.attemptCount, s.lockVersion + 1, s.attempts)
  }

  lemma FailureLeaves(t: ExecutionRow, i: nat, code: string, authorable: bool, now: Time)
    requires i < |t.steps|
    ensures FailedAt(t, FailExecution(t, i, code, authorable, now), i, code, authorable && |t.steps| > 1, now)
    ensures FailExecution(t, i, code, authorable, now).requests == t.requests
  {
  }

  /** Request q got the new row, and no other request changed. */
  ghost predicate OnlyRequest(t: ExecutionRow, r: ExecutionRow, q: nat, request: RequestRow) {
    q < |t.requests| && r.requests == t.requests[q := request]
  }

  function Closed(r: RequestRow, status: ApprovalStatus, now: Time): RequestRow {
    r.(status := status, resolvedAt := Some(now), lockVersion := r.lockVersion + 1)
  }

  // ---- the deadline ------------------------------------------------------------------

  /** Request q ran out: it is EXPIRED, and its Step and Execution failed for it. */
  ghost predicate RanOut(t: ExecutionRow, r: ExecutionRow, q: nat, now: Time) {
    && q < |t.requests|
    && var request := t.requests[q];
    && OnlyRequest(t, r, q, Closed(request, ApprovalStatus.Expired, now))
    && FailedAt(t, r, request.step, "APPROVAL_EXPIRED", request.authorable && |t.steps| > 1, now)
  }

  lemma ExpiryLeaves(t: ExecutionRow, q: nat, now: Time)
    requires q < |t.requests| && t.requests[q].step < |t.steps|
    ensures RanOut(t, ExpireRequest(t, q, now), q, now)
  {
    var m := ResolveRequest(t, q, ApprovalStatus.Expired, now);
    FailureLeaves(m, t.requests[q].step, APPROVAL_EXPIRED, t.requests[q].authorable, now);
  }

  /** A PENDING request stays open to votes until its deadline.  From then on the sweep and
      the decide call both close it, and leave the very same rows. */
  lemma DeadlineSplits(t: ExecutionRow, q: nat, b: Ballot, now: Time)
    requires Inv(t) && q < |t.requests| && t.requests[q].status.Pending? && b.authorized
    ensures var late := t.requests[q].expiresAt <= now;
      && (late ==>
            && RanOut(t, ExpireDue(t, q, now), q, now)
            && Decide(t, q, b, now) == Reply(ExpireDue(t, q, now), Err(AppError.ApprovalExpired)))
      && (!late ==> ExpireDue(t, q, now) == t)
  {
    hide TreeInv, LeaseInv, CancelMarkInv, InputInv;
    var r := t.requests[q];
    assert RequestOk(r, |t.steps|);
    assert t.status.WaitingApproval?;
    assert OnlyWaiting(t, Last(t).step);
    ExpiryLeaves(t, q, now);
  }

  /** A request whose time is up while its Step and its Execution wait for it. */
  predicate Overdue(t: ExecutionRow, q: nat, now: Time) {
    && q < |t.requests| && t.requests[q].step < |t.steps|
    && t.requests[q].status.Pending? && t.requests[q].expiresAt <= now
    && t.status.WaitingApproval? && t.steps[t.requests[q].step].status.WaitingApproval?
  }

  /** Candidate k is the first of an Execution's among the first limit that is overdue. */
  ghost predicate FirstOverdue(t: ExecutionRow, e: nat, cs: seq<Candidate>, limit: nat, k: nat, now: Time) {
    && k < |cs| && k < limit && cs[k].execution == e && Overdue(t, cs[k].request, now)
    && forall j :: 0 <= j < k && cs[j].execution == e ==> !Overdue(t, cs[j].request, now)
  }

  /** One sweep looks at the first candidates up to the limit.  An Execution is left alone when
      none of its own among them is overdue, and otherwise ends for the first that is. */
  lemma SweepLeaves(t: ExecutionRow, e: nat, cs: seq<Candidate>, limit: nat, now: Time)
    ensures var r := Swept(t, e, Selected(cs, limit), now);
      && (r == t || exists k: nat :: FirstOverdue(t, e, cs, limit, k, now) && RanOut(t, r, cs[k].request, now))
      && ((exists k: nat :: FirstOverdue(t, e, cs, limit, k, now)) ==> r.status.Failed?)
    ensures |Selected(cs, limit)| == if limit <= |cs| then limit else |cs|
  {
    var picked := Selected(cs, limit);
    assert forall k :: 0 <= k < |picked| ==> picked[k] == cs[k];
    SweepExpiresOnce(t, e, picked, now);
    hide Swept, RanOut, ExpireRequest;
    if Swept(t, e, picked, now) != t {
      var k :| 0 <= k < |picked| && FirstDue(t, e, picked, k, now)
        && Swept(t, e, picked, now) == ExpireRequest(t, picked[k].request, now);
      ExpiryLeaves(t, cs[k].request, now);
      assert FirstOverdue(t, e, cs, limit, k, now);
      SweptThenFailed(t, e, picked, now);
    }
  }

  // ---- deciding ----------------------------------------------------------------------

  /** Who may cast this vote, and when. */
  ghost predicate MayVote(t: ExecutionRow, q: nat, b: Ballot, now: Time) {
    && q < |t.requests|
    && var r := t.requests[q];
    && r.step < |t.steps| && b.authorized && r.status.Pending? && now < r.expiresAt
    && t.status.WaitingApproval? && t.steps[r.step].status.WaitingApproval?
    && b.scopeError.None? && b.contextError.None?
    && (b.actor == r.requestedBy ==> b.allowSelf)
    && (b.vote.Reject? && b.commentRequired ==> b.commented)
    && (forall k :: 0 <= k < |r.decisions| ==> r.decisions[k].actor != b.actor)
  }

  /** The request with one more vote. */
  function WithVote(r: RequestRow, b: Ballot): RequestRow {
    r.(decisions := r.decisions + [Decision(b.actor, b.vote)])
  }

  /** After a vote that counts.  Only the side it was cast for can have reached its number, and
      then the request is decided: approved, and the resume is on its way, or rejected, and
      Step and Execution have failed.  Until then voting goes on. */
  ghost predicate VoteCounted(t: ExecutionRow, q: nat, b: Ballot, now: Time, reply: Reply<DecisionOutcome>)
    requires q < |t.requests| && t.requests[q].step < |t.steps|
  {
    var request := t.requests[q];
    var voted := WithVote(request, b);
    var r := reply.row;
    && reply.result.Ok? && |r.requests| == |t.requests| && |r.steps| == |t.steps|
    && reply.result.value == DecisionOutcome(r.requests[q].status, r.status, r.steps[request.step].status,
                                             r.requests[q].status.Approved?)
    && if !Reached(request.mode, request.required, voted.decisions, b.vote) then
         r == t.(requests := t.requests[q := voted])
       else if b.vote.Approve? then
         r == t.(requests := t.requests[q := Closed(voted, ApprovalStatus.Approved, now)])
       else
         && OnlyRequest(t, r, q, Closed(voted, ApprovalStatus.Rejected, now))
         && FailedAt(t, r, request.step, "APPROVAL_REJECTED", request.authorable && |t.steps| > 1, now)
  }

  /** The other side has no more voters than before, so it has not reached its number. */
  lemma OtherSideShort(mode: DecisionMode, required: int, ds: seq<Decision>, d: Decision)
    requires History(mode, required, ds) && Aggregate(mode, required, ds) == Ok(None) && !HasVoted(ds, d.actor)
    ensures History(mode, required, ds + [d])
    ensures !Reached(mode, required, ds + [d], if d.vote.Approve? then Reject else Approve)
  {
    HistoryGrows(mode, required, ds, d);
    VerdictByVoters(mode, required, ds);
    var other := if d.vote.Approve? then Reject else Approve;
    VotersCounted(ds, other);
    VotersCounted(ds + [d], other);
    assert (ds + [d])[..|ds|] == ds;
  }

  lemma VoteLeaves(t: ExecutionRow, q: nat, b: Ballot, now: Time)
    requires q < |t.requests| && t.requests[q].step < |t.steps| && t.requests[q].status.Pending?
    requires var r := t.requests[q];
      && History(r.mode, r.required, r.decisions) && Aggregate(r.mode, r.required, r.decisions) == Ok(None)
      && !HasVoted(r.decisions, b.actor)
    ensures VoteCounted(t, q, b, now, CountVote(t, q, b, now))
  {
    var r := t.requests[q];
    var d := Decision(b.actor, b.vote);
    var ds := r.decisions + [d];
    OtherSideShort(r.mode, r.required, r.decisions, d);
    VerdictByVoters(r.mode, r.required, ds);
    hide Aggregate, Reached, History, VoteCounted;
    if !Reached(r.mode, r.required, ds, b.vote) {
      VoteIsOpen(t, q, b, now);
    } else {
      VoteDecides(t, q, b, now);
    }
  }

  lemma VoteIsOpen(t: ExecutionRow, q: nat, b: Ballot, now: Time)
    requires q < |t.requests| && t.requests[q].step < |t.steps| && t.requests[q].status.Pending?
    requires var r := t.requests[q];
      var ds := WithVote(r, b).decisions;
      Aggregate(r.mode, r.required, ds) == Ok(None) && !Reached(r.mode, r.required, ds, b.vote)
    ensures VoteCounted(t, q, b, now, CountVote(t, q, b, now))
  {
    hide Aggregate, Reached;
  }

  lemma VoteDecides(t: ExecutionRow, q: nat, b: Ballot, now: Time)
    requires q < |t.requests| && t.requests[q].step < |t.steps|
    requires var r := t.requests[q];
      var ds := WithVote(r, b).decisions;
      && Aggregate(r.mode, r.required, ds) == Ok(Some(if b.vote.Approve? then ApprovalStatus.Approved else ApprovalStatus.Rejected))
      && Reached(r.mode, r.required, ds, b.vote)
    ensures VoteCounted(t, q, b, now, CountVote(t, q, b, now))
  {
    hide Aggregate, Reached;
    var r := t.requests[q];
    var voted := WithVote(r, b);
    var verdict := if b.vote.Approve? then ApprovalStatus.Approved else ApprovalStatus.Rejected;
    var m := ResolveRequest(t.(requests := t.requests[q := voted]), q, verdict, now);
    assert m == t.(requests := t.requests[q := Closed(voted, verdict, now)]);
    FailureLeaves(m, r.step, APPROVAL_REJECTED, r.authorable, now);
    hide FailExecution;
  }

  /** A vote counts exactly when its actor may cast it; then the voters decide.  A vote that
      comes after the deadline closes the request, and any other refusal changes nothing. */
  lemma DecideLeaves(t: ExecutionRow, q: nat, b: Ballot, now: Time)
    requires Inv(t)
    ensures var reply := Decide(t, q, b, now);
      && (reply.result.Ok? <==> MayVote(t, q, b, now))
      && (MayVote(t, q, b, now) ==> VoteCounted(t, q, b, now, reply))
      && (!MayVote(t, q, b, now) ==> reply.row == t || RanOut(t, reply.row, q, now))
      && (reply.row != t && !MayVote(t, q, b, now) ==>
            reply.result == Err(AppError.ApprovalExpired) && t.requests[q].expiresAt <= now)
  {
    hide TreeInv, LeaseInv, CancelMarkInv, InputInv;
    if q < |t.requests| && t.requests[q].status.Pending? && b.authorized {
      var r := t.requests[q];
      assert RequestOk(r, |t.steps|);
      if r.expiresAt <= now {
        ExpiryLeaves(t, q, now);
      } else if !HasVoted(r.decisions, b.actor) {
        VoteLeaves(t, q, b, now);
      }
      hide CountVote, ExpireRequest, RanOut, VoteCounted, Aggregate, History;
    }
  }

  /** The reason a vote is refused for, when its scope and its context are in order. */
  lemma RefusalTells(t: ExecutionRow, q: nat, b: Ballot, now: Time)
    requires Inv(t) && b.scopeError.None? && b.contextError.None?
    ensures var result := Decide(t, q, b, now).result;
      if q >= |t.requests| then result == Err(NotFound)
      else if !b.authorized then result == Err(Forbidden)
      else
        var r := t.requests[q];
        var open := r.status.Pending? && now < r.expiresAt;
        var self := b.actor == r.requestedBy && !b.allowSelf;
        var silent := b.vote.Reject? && b.commentRequired && !b.commented;
        && (result == Err(AppError.ApprovalExpired) <==> r.status.Pending? && r.expiresAt <= now)
        && (result == Err(Forbidden) <==> open && self)
        && (result == Err(ValidationError) <==> open && !self && silent)
        && (result == Err(ResourceConflict) <==>
              !r.status.Pending? || (open && !self && !silent && exists k :: 0 <= k < |r.decisions| && r.decisions[k].actor == b.actor))
  {
    hide TreeInv, LeaseInv, CancelMarkInv, InputInv;
    if q < |t.requests| {
      var r := t.requests[q];
      assert RequestOk(r, |t.steps|);
      if r.status.Pending? && now < r.expiresAt {
        assert t.status.WaitingApproval? && OnlyWaiting(t, Last(t).step);
        if !HasVoted(r.decisions, b.actor) { VoteLeaves(t, q, b, now); }
      }
      hide CountVote, ExpireRequest, Aggregate, History;
    }
  }

  // ---- resuming ------------------------------------------------------------------------

  /** A delivery that can be claimed: its request is approved, its Step waits for nothing else,
      and everything it relies on is as it was. */
  ghost predicate MayClaim(t: ExecutionRow, d: Delivery) {
    && Resumable(t, d) && d.preflight
  }

  ghost predicate Resumable(t: ExecutionRow, d: Delivery) {
    && t.status.WaitingApproval? && d.request < |t.requests| && t.requests[d.request].step < |t.steps|
    && var r := t.requests[d.request];
    var s := t.steps[r.step];
    && r.status.Approved? && r.resolvedAt.Some? && s.status.WaitingApproval?
    && (if r.authorable then s.kind.Approval? else s.kind.Tool?)
    && t.lease == NO_LEASE && d.planIntact
    && forall q: nat :: !PendingFor(t, r.step, q)
  }

  /** The worker holds the Execution from now on for as long as it asked, and the Step is ready. */
  ghost predicate Resumed(t: ExecutionRow, r: ExecutionRow, i: nat, d: Delivery, now: Time) {
    && r.status.Running? && r.lockVersion == t.lockVersion + 1
    && r.lease.workerId == Some(d.worker) && r.lease.token == Some(d.token)
    && r.lease.expiresAt == Some(now + d.leaseSeconds) && r.lease.heartbeatAt == Some(now)
    && |r.steps| == |t.steps| && i < |t.steps|
    && (forall j :: 0 <= j < |t.steps| && j != i ==> r.steps[j] == t.steps[j])
    && (var s, s' := t.steps[i], r.steps[i];
        && s'.status.Ready? && s'.lockVersion == s.lockVersion + 1
        && s'.readyAt == (if s.readyAt.Some? then s.readyAt else Some(now))
        && s' == s.(status := s'.status, lockVersion := s'.lockVersion, readyAt := s'.readyAt))
    && r == t.(status := r.status, lease := r.lease, lockVersion := r.lockVersion, steps := r.steps)
  }

  /** The shape an authorable delivery needs is there but for a request still pending. */
  ghost predicate Misshapen(t: ExecutionRow, d: Delivery) {
    && t.status.WaitingApproval? && d.request < |t.requests| && t.requests[d.request].step < |t.steps|
    && var r := t.requests[d.request];
    var s := t.steps[r.step];
    && (r.authorable || s.kind.Approval?)
    && !(r.authorable && s.kind.Approval? && r.status.Approved? && r.resolvedAt.Some? && s.status.WaitingApproval?
         && t.lease == NO_LEASE && d.planIntact)
  }

  /** What a delivery does: it resumes exactly what may be claimed; it fails the Execution when
      the preflight refuses, or when an authorable request is not in shape; and in every other
      case, stale deliveries included, it changes nothing. */
  lemma ClaimLeaves(t: ExecutionRow, d: Delivery, now: Time)
    ensures var reply := Claim(t, d, now);
      var fails := (Resumable(t, d) && !d.preflight) || Misshapen(t, d);
      && (reply.result.Ok? && reply.result.value.Claimed? <==> MayClaim(t, d))
      && (MayClaim(t, d) ==>
            var i := t.requests[d.request].step;
            Resumed(t, reply.row, i, d, now) && reply.result == Ok(Claimed(i, reply.row.lease)))
      && (fails ==>
            var r := t.requests[d.request];
            && reply.result == Ok(PreconditionRefused) && reply.row.requests == t.requests
            && FailedAt(t, reply.row, r.step, "APPROVAL_RESUME_PRECONDITION_FAILED",
                        (r.authorable || t.steps[r.step].kind.Approval?) && |t.steps| > 1, now))
      && (!MayClaim(t, d) && !fails ==>
            reply.row == t && (t.status.WaitingApproval? ==> reply.result == Err(ResourceConflict)))
      && (reply.result == Ok(StaleDelivery) <==> !t.status.WaitingApproval?)
  {
    if t.status.WaitingApproval? && d.request < |t.requests| && t.requests[d.request].step < |t.steps| {
      var r := t.requests[d.request];
      NoneOrSome(t, r.step);
      FailureLeaves(t, r.step, RESUME_FAILED, AuthorablePath(t, r), now);
      hide FailExecution, FailedAt, FindPending;
    }
  }
}
