/** What the approval services keep, and where one of them does not. */
module ApprovalLaws {
  import opened ExecutionRows
  import C = CancellationRules
  import opened CancellationLaws
  import opened ApprovalRules
  import opened VotingLaws
  import opened ExecutionInvariants

  // ---- lookups -----------------------------------------------------------------

  lemma {:induction false} PendingFound(rs: seq<RequestRow>, step: nat)
    ensures FindPending(rs, step).Some? <==>
      exists q :: 0 <= q < |rs| && rs[q].step == step && rs[q].status.Pending?
    ensures FindPending(rs, step).Some? ==>
      var q := FindPending(rs, step).value;
      q < |rs| && rs[q].step == step && rs[q].status.Pending?
  {
    if rs != [] {
      var init := rs[..|rs| - 1];
      PendingFound(init, step);
      assert forall q :: 0 <= q < |init| ==> init[q] == rs[q];
    }
  }

  // ---- entering the wait -------------------------------------------------------

  lemma ParkKeeps(t: ExecutionRow, i: nat, s: StepRow, request: RequestRow)
    requires Core(t) && t.status.Running? && i < |t.steps|
    requires t.steps[i].status.Pending? || t.steps[i].status.Ready?
    requires s == t.steps[i].(readyAt := s.readyAt)
    requires request.step == i && request.status.Pending? && request.resolvedAt.None? && request.decisions == []
    ensures var reply := Park(t, i, s, request);
      && KeepsHistory(t, reply.row) && KeepsTerminalSteps(t, reply.row)
      && (reply.result.Err? ==> reply.row == t)
      && (reply.result.Ok? ==> reply.row.status.WaitingApproval? && InFlight(reply.row) == InFlight(t))
      && (reply.result.Ok? ==> (Core(reply.row) <==> !InFlight(t)))
  {
    if request.required >= 1 {
      var r := Park(t, i, s, request).row;
      forall j | 0 <= j < |t.steps|
        ensures StepInFlight(r.steps[j]) == StepInFlight(t.steps[j])
        ensures CallsGuarded(t.steps[j]) && AttemptsGuarded(t.steps[j])
      {
        assert r.steps[j].attempts == t.steps[j].attempts;
      }
      if !InFlight(t) {
        forall j | 0 <= j < |t.steps| ensures CallsGuarded(r.steps[j]) && AttemptsGuarded(r.steps[j]) {
          assert r.steps[j].attempts == t.steps[j].attempts;
          assert !StepInFlight(t.steps[j]);
          NotInFlight(r.steps[j]);
        }
        forall q | 0 <= q < |r.requests| ensures RequestOk(r.requests[q], |r.steps|) {
          if q < |t.requests| { assert RequestOk(t.requests[q], |t.steps|); }
        }
        assert OnlyWaiting(r, i);
      }
    }
  }

  /** A wait is entered with the invariant kept exactly when no call is in flight.  The
      entry itself does not check this: its callers schedule it so. */
  lemma EnterKeeps(t: ExecutionRow, i: nat, policy: Policy, matches: bool, inputKnown: bool, now: Time)
    requires Core(t) && i < |t.steps|
    ensures var reply := EnterForTool(t, i, policy, matches, inputKnown, now);
      && KeepsHistory(t, reply.row) && KeepsTerminalSteps(t, reply.row)
      && (reply.row != t ==> t.status.Running? && reply.row.status.WaitingApproval?)
      && (reply.row != t ==> (Core(reply.row) <==> !InFlight(t)))
  {
    var s := t.steps[i];
    if t.status.Running? && s.status.Ready? {
      ParkKeeps(t, i, s, NewRequest(t, i, policy, false, now));
    }
  }

  lemma EnterApprovalKeeps(t: ExecutionRow, i: nat, policy: Policy, refusal: Option<AppError>, now: Time)
    requires Core(t) && i < |t.steps|
    ensures var reply := EnterForApproval(t, i, policy, refusal, now);
      && KeepsHistory(t, reply.row) && KeepsTerminalSteps(t, reply.row)
      && (reply.row != t ==> t.status.Running? && reply.row.status.WaitingApproval?)
      && (reply.row != t ==> (Core(reply.row) <==> !InFlight(t)))
  {
    var s := t.steps[i];
    if t.status.Running? && (s.status.Pending? || s.status.Ready?) {
      ParkKeeps(t, i, if s.status.Pending? && s.readyAt.None? then s.(readyAt := Some(now)) else s,
                NewRequest(t, i, policy, true, now));
    }
  }

  /** Why the schedule matters: parking over a call in flight lets a later cancellation
      report CANCELLED while the call is still out. */
  lemma ParkedCallIsHidden(t: ExecutionRow, i: nat, policy: Policy, now: Time, actor: Option<UserId>, reason: Option<string>)
    requires i < |t.steps| && InFlight(t)
    requires var reply := EnterForTool(t, i, policy, true, true, now); reply.result.Ok? && reply.row != t
    ensures var parked := EnterForTool(t, i, policy, true, true, now).row;
      var cancelled := C.Apply(parked, now, actor, reason).row;
      cancelled.status.Cancelled? && InFlight(cancelled)
  {
    var parked := EnterForTool(t, i, policy, true, true, now).row;
    var cancelled := C.Apply(parked, now, actor, reason).row;
    var j :| 0 <= j < |t.steps| && StepInFlight(t.steps[j]);
    assert parked.steps[j].attempts == t.steps[j].attempts;
    assert cancelled.steps[j] == C.CancelSafeStep(parked.steps[j], now);
    SweepKeepsCalls(parked.steps[j], now);
  }

  // ---- failing the Execution -----------------------------------------------------

  ghost predicate LeavesNothing(t: ExecutionRow, i: nat) {
    && (forall q :: 0 <= q < |t.requests| ==> !t.requests[q].status.Pending?)
    && (forall j :: 0 <= j < |t.steps| && j != i ==> !t.steps[j].status.WaitingApproval?)
  }

  lemma FailKeeps(t: ExecutionRow, i: nat, code: string, authorable: bool, now: Time)
    requires i < |t.steps| && TreeInv(t) && !InFlight(t)
    requires InputInv(t) && !t.status.WaitingInput? && RequestsInv(t) && OnePending(t)
    requires CancelMarkInv(t) && (t.cancel.at.Some? ==> t.status.Failed?)
    ensures var r := FailExecution(t, i, code, authorable, now);
      && Core(r) && (NothingLeftWaiting(r) <==> LeavesNothing(t, i))
      && (forall j :: 0 <= j < |t.steps| && j != i && TerminalStep(t.steps[j].status) ==> r.steps[j] == t.steps[j])
  {
    var r := FailExecution(t, i, code, authorable, now);
    forall j | 0 <= j < |t.steps|
      ensures !StepInFlight(r.steps[j]) && CallsGuarded(r.steps[j])
      ensures r.steps[j].status.WaitingApproval? <==> j != i && t.steps[j].status.WaitingApproval?
      ensures j != i && TerminalStep(t.steps[j].status) ==> r.steps[j] == t.steps[j]
    {
      assert r.steps[j].attempts == t.steps[j].attempts;
      assert !StepInFlight(t.steps[j]);
      NotInFlight(r.steps[j]);
    }
    forall q | 0 <= q < |r.requests| ensures RequestOk(r.requests[q], |r.steps|) {
      assert RequestOk(t.requests[q], |t.steps|);
    }
  }

  // ---- expiring and deciding -------------------------------------------------------

  lemma ExpireKeeps(t: ExecutionRow, q: nat, now: Time)
    requires Core(t) && q < |t.requests| && t.requests[q].status.Pending?
    ensures t.requests[q].step < |t.steps|
    ensures var r := ExpireRequest(t, q, now);
      && Core(r) && KeepsHistory(t, r) && (Inv(t) ==> Inv(r) && KeepsTerminalSteps(t, r))
  {
    hide StepInFlight, CallsGuarded, AttemptsGuarded, Aggregate, History;
    var request := t.requests[q];
    assert RequestOk(request, |t.steps|);
    var t' := ResolveRequest(t, q, ApprovalStatus.Expired, now);
    assert forall p :: 0 <= p < |t.requests| && p != q ==> t'.requests[p] == t.requests[p];
    forall p | 0 <= p < |t'.requests| ensures RequestOk(t'.requests[p], |t'.steps|) {
      assert RequestOk(t.requests[p], |t.steps|);
    }
    assert t'.steps == t.steps;
    assert InFlight(t') == InFlight(t);
    FailKeeps(t', request.step, APPROVAL_EXPIRED, request.authorable, now);
  }

  /** Replacing one undecided request by a sound row of the same Step. */
  lemma RequestReplaced(t: ExecutionRow, q: nat, request: RequestRow)
    requires Inv(t) && q < |t.requests| && t.requests[q].status.Pending?
    requires request.step == t.requests[q].step && RequestOk(request, |t.steps|)
    ensures var r := t.(requests := t.requests[q := request]);
      && TreeInv(r) && InFlight(r) == InFlight(t) && RequestsInv(r) && OnePending(r)
      && KeepsHistory(t, r) && KeepsTerminalSteps(t, r)
      && (request.status.Pending? || request.status.Approved? ==> Inv(r))
      && (forall p :: 0 <= p < |r.requests| && p != q ==> !r.requests[p].status.Pending?)
  {
    var r := t.(requests := t.requests[q := request]);
    SameTree(t, r);
    forall p | 0 <= p < |r.requests| ensures RequestOk(r.requests[p], |r.steps|) {
      assert RequestOk(t.requests[p], |t.steps|);
    }
  }

  lemma VerdictKeeps(t: ExecutionRow, q: nat, voted: RequestRow, verdict: ApprovalStatus, now: Time)
    requires Inv(t) && q < |t.requests| && t.requests[q].status.Pending? && voted.step == t.requests[q].step
    requires voted.step < |t.steps| && (verdict.Approved? || verdict.Rejected?)
    requires History(voted.mode, voted.required, voted.decisions)
    requires Aggregate(voted.mode, voted.required, voted.decisions) == Ok(Some(verdict))
    ensures var t'' := ResolveRequest(t.(requests := t.requests[q := voted]), q, verdict, now);
      var r := if verdict.Approved? then t'' else FailExecution(t'', voted.step, APPROVAL_REJECTED, voted.authorable, now);
      Inv(r) && KeepsHistory(t, r) && KeepsTerminalSteps(t, r)
  {
    assert OnlyWaiting(t, voted.step);
    var resolved := voted.(status := verdict, resolvedAt := Some(now), lockVersion := voted.lockVersion + 1);
    var t'' := ResolveRequest(t.(requests := t.requests[q := voted]), q, verdict, now);
    assert t'' == t.(requests := t.requests[q := resolved]);
    RequestReplaced(t, q, resolved);
    if verdict.Rejected? {
      FailKeeps(t'', voted.step, APPROVAL_REJECTED, voted.authorable, now);
    }
  }

  lemma CountVoteKeeps(t: ExecutionRow, q: nat, b: Ballot, now: Time)
    requires Inv(t) && q < |t.requests| && t.requests[q].status.Pending?
    requires !HasVoted(t.requests[q].decisions, b.actor)
    ensures t.requests[q].step < |t.steps|
    ensures var r := CountVote(t, q, b, now).row;
      && Inv(r) && KeepsHistory(t, r) && KeepsTerminalSteps(t, r)
  {
    var request := t.requests[q];
    assert RequestOk(request, |t.steps|);
    var d := Decision(b.actor, b.vote);
    var ds := request.decisions + [d];
    HistoryGrows(request.mode, request.required, request.decisions, d);
    var voted := request.(decisions := ds);
    match Aggregate(request.mode, request.required, ds)
    case Err(_) =>
    case Ok(None) => RequestReplaced(t, q, voted);
    case Ok(Some(verdict)) => VerdictKeeps(t, q, voted, verdict, now);
  }

  /** Deciding keeps the invariant; even an Execution that a late resume left failed only
      gets its orphaned request expired. */
  lemma DecideKeeps(t: ExecutionRow, q: nat, b: Ballot, now: Time)
    requires Core(t)
    ensures var r := Decide(t, q, b, now).row;
      && Core(r) && KeepsHistory(t, r) && (Inv(t) ==> Inv(r) && KeepsTerminalSteps(t, r))
  {
    if q < |t.requests| && t.requests[q].step < |t.steps| && b.authorized && t.requests[q].status.Pending? {
      var request := t.requests[q];
      if request.expiresAt <= now {
        ExpireKeeps(t, q, now);
      } else if t.status.WaitingApproval? && Refusal(request, b).None? {
        CountVoteKeeps(t, q, b, now);
      } else {
        assert Decide(t, q, b, now).row == t;
      }
    }
  }

  lemma ExpireDueKeeps(t: ExecutionRow, q: nat, now: Time)
    requires Core(t)
    ensures var r := ExpireDue(t, q, now);
      && Core(r) && KeepsHistory(t, r) && (Inv(t) ==> Inv(r) && KeepsTerminalSteps(t, r))
  {
    if Due(t, q, now) { ExpireKeeps(t, q, now); }
  }

  ghost predicate FirstDue(t: ExecutionRow, e: nat, cs: seq<Candidate>, k: nat, now: Time)
    requires k < |cs|
  {
    && cs[k].execution == e && Due(t, cs[k].request, now)
    && (forall j :: 0 <= j < k && cs[j].execution == e ==> !Due(t, cs[j].request, now))
  }

  /** However many of its requests a batch lists, an Execution expires at most once, by the
      first listed request that is due; it is left alone exactly when none is. */
  lemma {:induction false} SweepExpiresOnce(t: ExecutionRow, e: nat, cs: seq<Candidate>, now: Time)
    ensures Swept(t, e, cs, now) == t <==> forall k :: 0 <= k < |cs| && cs[k].execution == e ==> !Due(t, cs[k].request, now)
    ensures Swept(t, e, cs, now) != t ==>
      exists k :: 0 <= k < |cs| && FirstDue(t, e, cs, k, now) && Swept(t, e, cs, now) == ExpireRequest(t, cs[k].request, now)
  {
    if cs == [] { return; }
    var last := |cs| - 1;
    assert forall k :: 0 <= k < last ==> cs[..last][k] == cs[k];
    SweepExpiresOnce(t, e, cs[..last], now);
    if Swept(t, e, cs[..last], now) == t {
      if cs[last].execution == e && Due(t, cs[last].request, now) {
        assert ExpireRequest(t, cs[last].request, now).status.Failed?;
      }
    } else {
      assert Swept(t, e, cs[..last], now).status.Failed?;
    }
  }

  /** The Executions a batch has changed. */
  ghost function Changed(ts: seq<ExecutionRow>, cs: seq<Candidate>, now: Time): set<nat> {
    set e | 0 <= e < |ts| && Swept(ts[e], e, cs, now) != ts[e]
  }

  /** One more candidate changes one more Execution exactly when it is due. */
  lemma ChangedByOne(ts: seq<ExecutionRow>, cs: seq<Candidate>, c: Candidate, now: Time)
    ensures Changed(ts, cs + [c], now) == Changed(ts, cs, now) +
      (if c.execution < |ts| && Due(Swept(ts[c.execution], c.execution, cs, now), c.request, now) then {c.execution} else {})
    ensures c.execution < |ts| && Due(Swept(ts[c.execution], c.execution, cs, now), c.request, now) ==>
      c.execution !in Changed(ts, cs, now)
  {
    hide Due, ExpireRequest;
    assert (cs + [c])[..|cs + [c]| - 1] == cs;
    if c.execution < |ts| {
      var before := Swept(ts[c.execution], c.execution, cs, now);
      SweepExpiresOnce(ts[c.execution], c.execution, cs, now);
      if Due(before, c.request, now) { DueThenFailed(before, c.request, now); }
      if before != ts[c.execution] { SweptThenFailed(ts[c.execution], c.execution, cs, now); NotDueOnceFailed(before, c.request, now); }
    }
  }

  lemma DueThenFailed(t: ExecutionRow, q: nat, now: Time)
    requires Due(t, q, now)
    ensures t.status.WaitingApproval? && ExpireDue(t, q, now) == ExpireRequest(t, q, now) && ExpireRequest(t, q, now).status.Failed?
  {
  }

  lemma SweptThenFailed(t: ExecutionRow, e: nat, cs: seq<Candidate>, now: Time)
    requires Swept(t, e, cs, now) != t
    ensures Swept(t, e, cs, now).status.Failed?
  {
    SweepExpiresOnce(t, e, cs, now);
    var k :| 0 <= k < |cs| && FirstDue(t, e, cs, k, now) && Swept(t, e, cs, now) == ExpireRequest(t, cs[k].request, now);
    DueThenFailed(t, cs[k].request, now);
  }

  lemma NotDueOnceFailed(t: ExecutionRow, q: nat, now: Time)
    requires t.status.Failed?
    ensures !Due(t, q, now)
  {
  }

  // ---- claiming the resume ---------------------------------------------------------

  /** The delivery that does harm: an authorable request whose shape check fails while
      the wait is about another Step or another, undecided, request. */
  ghost predicate Hazard(t: ExecutionRow, d: Delivery) {
    && t.status.WaitingApproval? && t.requests != []
    && d.request < |t.requests| && t.requests[d.request].step < |t.steps|
    && AuthorablePath(t, t.requests[d.request])
    && !AuthorableShape(t, t.requests[d.request], d.planIntact)
    && (Last(t).status.Pending? || t.requests[d.request].step != Last(t).step)
  }

  lemma RefuseKeeps(t: ExecutionRow, i: nat, authorable: bool, now: Time)
    requires Inv(t) && t.status.WaitingApproval? && i < |t.steps|
    ensures var r := RefuseResume(t, i, authorable, now).row;
      && Core(r) && KeepsHistory(t, r)
      && (Inv(r) <==> !Last(t).status.Pending? && i == Last(t).step)
      && (Inv(r) ==> KeepsTerminalSteps(t, r))
  {
    FailKeeps(t, i, RESUME_FAILED, authorable, now);
    assert OnlyWaiting(t, Last(t).step);
    assert t.steps[Last(t).step].status.WaitingApproval?;
    assert Last(t).status.Pending? ==> t.requests[|t.requests| - 1].status.Pending?;
    assert LeavesNothing(t, i) <==> !Last(t).status.Pending? && i == Last(t).step;
  }

  lemma FreshClaimKeeps(t: ExecutionRow, i: nat, d: Delivery, now: Time)
    requires Inv(t) && t.status.WaitingApproval? && i < |t.steps|
    requires t.steps[i].status.WaitingApproval? && FindPending(t.requests, i).None?
    ensures var r := FreshClaim(t, i, d, now).row;
      && Inv(r) && KeepsHistory(t, r) && KeepsTerminalSteps(t, r)
  {
    PendingFound(t.requests, i);
    assert OnlyWaiting(t, Last(t).step);
    var r := FreshClaim(t, i, d, now).row;
    forall j | 0 <= j < |t.steps|
      ensures !StepInFlight(r.steps[j]) && CallsGuarded(r.steps[j]) && AttemptsGuarded(r.steps[j])
      ensures !r.steps[j].status.WaitingApproval?
    {
      assert r.steps[j].attempts == t.steps[j].attempts;
      assert !StepInFlight(t.steps[j]);
      assert AttemptsGuarded(t.steps[j]);
      NotInFlight(r.steps[j]);
    }
    forall q | 0 <= q < |r.requests| ensures RequestOk(r.requests[q], |r.steps|) {
      assert RequestOk(t.requests[q], |t.steps|);
    }
  }

  /** One delivery of a resume message keeps the invariant exactly when it is not a hazard. */
  lemma ClaimKeeps(t: ExecutionRow, d: Delivery, now: Time)
    requires Core(t)
    ensures var r := Claim(t, d, now).row;
      && Core(r) && KeepsHistory(t, r)
      && (Inv(t) ==> (Inv(r) <==> !Hazard(t, d)))
      && (Inv(t) && Inv(r) ==> KeepsTerminalSteps(t, r))
  {
    if t.status.WaitingApproval? && d.request < |t.requests| && t.requests[d.request].step < |t.steps| {
      var r := t.requests[d.request];
      PendingFound(t.requests, r.step);
      assert OnlyWaiting(t, Last(t).step);
      var i := r.step;
      var shape := if AuthorablePath(t, r) then AuthorableShape(t, r, d.planIntact)
                   else ResumeShape(t, r, StepKind.Tool, d.planIntact);
      if AuthorablePath(t, r) && !shape {
        RefuseKeeps(t, i, true, now);
      } else if shape && FindPending(t.requests, i).None? {
        assert i == Last(t).step && !Last(t).status.Pending?;
        if d.preflight { FreshClaimKeeps(t, i, d, now); } else { RefuseKeeps(t, i, AuthorablePath(t, r), now); }
      } else {
        assert Claim(t, d, now).row == t;
      }
    }
  }

  /** When a claim succeeds, and what it installs. */
  lemma ClaimSucceeds(t: ExecutionRow, d: Delivery, now: Time)
    ensures var reply := Claim(t, d, now);
      var approved :=
        && t.status.WaitingApproval? && d.request < |t.requests| && t.requests[d.request].step < |t.steps|
        && t.requests[d.request].status.Approved?;
      (reply.result.Ok? && reply.result.value.Claimed? ==>
        && approved
        && var i := t.requests[d.request].step;
        && t.steps[i].status.WaitingApproval?
        && (forall q :: 0 <= q < |t.requests| && t.requests[q].step == i ==> !t.requests[q].status.Pending?)
        && reply.row.status.Running? && reply.row.lease == FreshLease(d, now) && FullLease(reply.row.lease)
        && reply.row.steps == t.steps[i := reply.row.steps[i]] && reply.row.steps[i].status.Ready?
        && reply.row.requests == t.requests)
  {
    if t.status.WaitingApproval? && d.request < |t.requests| && t.requests[d.request].step < |t.steps| {
      PendingFound(t.requests, t.requests[d.request].step);
    }
  }
}
