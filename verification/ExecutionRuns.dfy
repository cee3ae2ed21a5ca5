/** Runs of one Execution: every interleaving of cancellation, approval, resume delivery,
    recovery and the workers' own progress, each call atomic under the row lock. */
module ExecutionRuns {
  import opened ExecutionRows
  import opened Runs
  import C = CancellationRules
  import opened ApprovalRules
  import opened ExecutionInvariants
  import opened ApprovalLaws

  datatype Call =
    | Cancel(actor: Option<UserId>, reason: Option<string>)
    | BeforeSend(ref: C.CallRef)
    | SettleInput(ref: C.CallRef)
    | Reconcile
    | RecoverExpired
    | EnterForTool(step: nat, policy: Policy, matches: bool, inputKnown: bool)
    | EnterForApproval(step: nat, policy: Policy, refusal: Option<AppError>)
    | Decide(request: nat, ballot: Ballot)
    | Expire(request: nat)
    | Resume(delivery: Delivery)
    | Work(next: ExecutionRow)

  datatype Event = Event(now: Time, call: Call)

  /** Progress by the queue, the orchestrator and the tool runner, which are not part of
      this model: they may do anything to an Execution they hold, except touch approvals
      or cancel marks, rewrite a terminal Step, enter the wait, leave a malformed tree, or
      record an unknown outcome below a Step without recording it in the Step. */
  ghost predicate RunnerStep(t: ExecutionRow, r: ExecutionRow) {
    && (t.status.Created? || t.status.Queued? || t.status.Running? || t.status.WaitingInput? || t.status.CancelRequested?)
    && (if t.status.CancelRequested? then r.status.CancelRequested? || r.status.Failed?
        else !r.status.WaitingApproval? && !r.status.CancelRequested? && !r.status.Cancelled?)
    && r.requests == t.requests && r.cancel == t.cancel
    && KeepsTerminalSteps(t, r)
    && (forall i :: 0 <= i < |r.steps| ==> !r.steps[i].status.WaitingApproval?)
    && TreeInv(r) && LeaseInv(r) && InputInv(r) && EvidenceShown(r)
  }

  /** What the callers of a service have checked before they call it.  A resume message
      may be delivered at any time and any number of times. */
  ghost predicate Enabled(t: ExecutionRow, e: Event) {
    match e.call
    case BeforeSend(ref) => HoldsCall(t, ref)
    case SettleInput(ref) => HoldsCall(t, ref)
    case RecoverExpired => t.lease.expiresAt.Some? && t.lease.expiresAt.value <= e.now
    case EnterForTool(i, _, _, _) => i < |t.steps| && !InFlight(t)
    case EnterForApproval(i, _, _) => i < |t.steps| && !InFlight(t)
    case Work(r) => RunnerStep(t, r)
    case _ => true
  }

  ghost predicate HoldsCall(t: ExecutionRow, ref: C.CallRef) {
    && (t.status.Running? || t.status.CancelRequested?)
    && (t.status.CancelRequested? || t.cancel.at.Some?)
    && C.HasCall(t, ref) && C.CallAt(t, ref).status.Started?
  }

  ghost function After(t: ExecutionRow, e: Event): ExecutionRow
    requires Enabled(t, e)
  {
    match e.call
    case Cancel(actor, reason) => C.Apply(t, e.now, actor, reason).row
    case BeforeSend(ref) => C.BeforeSend(t, ref, e.now).row
    case SettleInput(ref) => C.Settle(t, ref, e.now).row
    case Reconcile => C.Reconcile(t, e.now).row
    case RecoverExpired => C.Recover(t, e.now).row
    case EnterForTool(i, policy, matches, known) => ApprovalRules.EnterForTool(t, i, policy, matches, known, e.now).row
    case EnterForApproval(i, policy, refusal) => ApprovalRules.EnterForApproval(t, i, policy, refusal, e.now).row
    case Decide(q, ballot) => ApprovalRules.Decide(t, q, ballot, e.now).row
    case Expire(q) => ExpireDue(t, q, e.now)
    case Resume(d) => Claim(t, d, e.now).row
    case Work(r) => r
  }

  ghost predicate HazardEvent(t: ExecutionRow, e: Event) {
    e.call.Resume? && Hazard(t, e.call.delivery)
  }

  // ---- one step -------------------------------------------------------------------

  lemma HistoryChains(t: ExecutionRow, m: ExecutionRow, r: ExecutionRow)
    requires KeepsHistory(t, m) && KeepsHistory(m, r)
    ensures KeepsHistory(t, r)
  {
  }

  lemma ClosingKeeps(t: ExecutionRow, ref: C.CallRef, status: WorkStatus, now: Time)
    requires Core(t) && HoldsCall(t, ref) && !status.Started?
    ensures var s := C.CloseCall(t.steps[ref.step], ref.attempt, ref.call, status, now);
      var r := C.Reconcile(C.EnsureRequested(t.(steps := t.steps[ref.step := s]), now), now).row;
      && Core(r) && KeepsHistory(t, r) && KeepsTerminalSteps(t, r) && (Inv(t) ==> Inv(r))
  {
    var s := C.CloseCall(t.steps[ref.step], ref.attempt, ref.call, status, now);
    var m := C.EnsureRequested(t.(steps := t.steps[ref.step := s]), now);
    CloseKeeps(t, ref, status, now);
    ReconcileKeeps(m, now);
  }

  lemma WorkKeeps(t: ExecutionRow, r: ExecutionRow)
    requires Core(t) && RunnerStep(t, r)
    ensures Core(r) && KeepsHistory(t, r) && KeepsTerminalSteps(t, r) && Inv(r)
  {
    forall q | 0 <= q < |r.requests| ensures RequestOk(r.requests[q], |r.steps|) {
      assert RequestOk(t.requests[q], |t.steps|);
    }
  }

  /** One step of any run: the core invariant survives, history is never rewritten, and
      the full invariant survives exactly the steps that are not hazards. */
  lemma StepKeeps(t: ExecutionRow, e: Event)
    requires Core(t) && Enabled(t, e)
    ensures var r := After(t, e);
      && Core(r) && KeepsHistory(t, r)
      && (Inv(t) ==> (Inv(r) <==> !HazardEvent(t, e)))
      && (Inv(t) && Inv(r) ==> if e.call.RecoverExpired? then PromotesOnly(t, r) else KeepsTerminalSteps(t, r))
  {
    hide Core, KeepsHistory, KeepsTerminalSteps, PromotesOnly;
    match e.call
    case Cancel(actor, reason) => ApplyKeeps(t, e.now, actor, reason);
    case BeforeSend(ref) => ClosingKeeps(t, ref, WorkStatus.Cancelled, e.now);
    case SettleInput(ref) => ClosingKeeps(t, ref, WorkStatus.Succeeded, e.now);
    case Reconcile => ReconcileKeeps(t, e.now);
    case RecoverExpired => RecoverKeeps(t, e.now);
    case EnterForTool(i, policy, matches, known) => EnterKeeps(t, i, policy, matches, known, e.now);
    case EnterForApproval(i, policy, refusal) => EnterApprovalKeeps(t, i, policy, refusal, e.now);
    case Decide(q, ballot) => DecideKeeps(t, q, ballot, e.now);
    case Expire(q) => ExpireDueKeeps(t, q, e.now);
    case Resume(d) => ClaimKeeps(t, d, e.now);
    case Work(r) => WorkKeeps(t, r);
  }

  // ---- whole runs -----------------------------------------------------------------

  ghost predicate Link(t: ExecutionRow, e: Event, r: ExecutionRow) {
    Enabled(t, e) && r == After(t, e)
  }

  ghost predicate IsRun(ss: seq<ExecutionRow>, es: seq<Event>) {
    && |ss| == |es| + 1
    && Inv(ss[0])
    && (forall k :: 0 <= k < |es| ==> Link(ss[k], es[k], ss[k + 1]))
  }

  lemma {:induction false} RunKeepsCore(ss: seq<ExecutionRow>, es: seq<Event>, k: nat)
    requires IsRun(ss, es) && k < |ss|
    ensures Core(ss[k])
  {
    if k > 0 {
      RunKeepsCore(ss, es, k - 1);
      assert Link(ss[k - 1], es[k - 1], ss[k]);
      StepKeeps(ss[k - 1], es[k - 1]);
    }
  }

  /** Over every run: the invariant holds throughout if and only if no hazardous resume
      message is ever processed. */
  lemma RunSafety(ss: seq<ExecutionRow>, es: seq<Event>)
    requires IsRun(ss, es)
    ensures (forall k :: 0 <= k < |ss| ==> Inv(ss[k])) <==> (forall k :: 0 <= k < |es| ==> !HazardEvent(ss[k], es[k]))
  {
    var inv := seq(|ss|, k requires 0 <= k < |ss| => Inv(ss[k]));
    var hazard := seq(|es|, k requires 0 <= k < |es| => HazardEvent(ss[k], es[k]));
    forall k | 0 <= k < |es| ensures inv[k] ==> (inv[k + 1] <==> !hazard[k]) {
      assert Link(ss[k], es[k], ss[k + 1]);
      if Inv(ss[k]) { StepKeeps(ss[k], es[k]); }
    }
    FirstBreach(inv, hazard);
    assert forall k :: 0 <= k < |ss| ==> inv[k] == Inv(ss[k]);
    assert forall k :: 0 <= k < |es| ==> hazard[k] == HazardEvent(ss[k], es[k]);
  }

  lemma {:induction false} HistoryChain(ss: seq<ExecutionRow>, i: nat, j: nat)
    requires i <= j < |ss|
    requires forall k | i <= k < j :: KeepsHistory(ss[k], ss[k + 1])
    ensures KeepsHistory(ss[i], ss[j])
    decreases j
  {
    if i < j {
      HistoryChain(ss, i, j - 1);
      HistoryChains(ss[i], ss[j - 1], ss[j]);
    }
  }

  /** Over every run, hazards included: a terminal Execution keeps its status, the cancel
      mark is written once, and a request never leaves a terminal status. */
  lemma RunHistory(ss: seq<ExecutionRow>, es: seq<Event>, i: nat, j: nat)
    requires IsRun(ss, es) && i <= j < |ss|
    ensures KeepsHistory(ss[i], ss[j])
  {
    forall k | i <= k < j ensures KeepsHistory(ss[k], ss[k + 1]) {
      RunKeepsCore(ss, es, k);
      assert Link(ss[k], es[k], ss[k + 1]);
      StepKeeps(ss[k], es[k]);
    }
    HistoryChain(ss, i, j);
  }

  /** What may happen to Step s between two rows. */
  ghost predicate Fate(t: ExecutionRow, r: ExecutionRow, recovered: bool, s: nat) {
    s < |t.steps| && TerminalStep(t.steps[s].status) ==>
      && s < |r.steps|
      && (r.steps[s] == t.steps[s] || (recovered && r.steps[s].status.UnknownOutcome?))
  }

  lemma StepFate(t: ExecutionRow, e: Event, s: nat)
    requires Inv(t) && Enabled(t, e) && Inv(After(t, e))
    ensures Fate(t, After(t, e), e.call.RecoverExpired?, s)
  {
    StepKeeps(t, e);
  }

  ghost predicate Recovered(es: seq<Event>, i: nat, j: nat) {
    exists k :: i <= k < j && k < |es| && es[k].call.RecoverExpired?
  }

  lemma {:induction false} FateChains(ss: seq<ExecutionRow>, es: seq<Event>, i: nat, j: nat, s: nat)
    requires i <= j <= |es| && |ss| == |es| + 1
    requires forall k | i <= k < j :: Fate(ss[k], ss[k + 1], es[k].call.RecoverExpired?, s)
    ensures Fate(ss[i], ss[j], Recovered(es, i, j), s)
    decreases j
  {
    if i < j {
      FateChains(ss, es, i, j - 1, s);
      assert Fate(ss[j - 1], ss[j], es[j - 1].call.RecoverExpired?, s);
    }
  }

  /** In a run without hazards, a terminal Step changes only when recovery promotes it. */
  lemma RunTerminalSteps(ss: seq<ExecutionRow>, es: seq<Event>, i: nat, j: nat, s: nat)
    requires IsRun(ss, es) && i <= j < |ss|
    requires forall k :: 0 <= k < |es| ==> !HazardEvent(ss[k], es[k])
    ensures Fate(ss[i], ss[j], Recovered(es, i, j), s)
  {
    RunSafety(ss, es);
    forall k | i <= k < j ensures Fate(ss[k], ss[k + 1], es[k].call.RecoverExpired?, s) {
      assert Link(ss[k], es[k], ss[k + 1]);
      StepFate(ss[k], es[k], s);
    }
    FateChains(ss, es, i, j, s);
  }

  // ---- waiting episodes and claims ---------------------------------------------------

  predicate Parked(t: ExecutionRow) { t.status.WaitingApproval? }

  ghost predicate Claims(t: ExecutionRow, e: Event) {
    && e.call.Resume?
    && var reply := Claim(t, e.call.delivery, e.now);
    && reply.result.Ok? && reply.result.value.Claimed?
  }

  ghost function ClaimCount(ss: seq<ExecutionRow>, es: seq<Event>, n: nat): nat
    requires n <= |es| && |ss| == |es| + 1
  {
    if n == 0 then 0 else ClaimCount(ss, es, n - 1) + (if Claims(ss[n - 1], es[n - 1]) then 1 else 0)
  }

  /** Waiting episodes begun so far, counting one the run may start in. */
  ghost function EpisodeCount(ss: seq<ExecutionRow>, es: seq<Event>, n: nat): nat
    requires n <= |es| && |ss| == |es| + 1
  {
    if n == 0 then (if Parked(ss[0]) then 1 else 0)
    else EpisodeCount(ss, es, n - 1) + (if !Parked(ss[n - 1]) && Parked(ss[n]) then 1 else 0)
  }

  lemma ClaimEndsEpisode(t: ExecutionRow, e: Event, r: ExecutionRow)
    requires Link(t, e, r) && Claims(t, e)
    ensures Parked(t) && !Parked(r)
  {
    ClaimSucceeds(t, e.call.delivery, e.now);
  }

  /** However often resume messages are delivered, claims never outnumber waiting
      episodes, and a claim ends the episode it answers. */
  lemma {:induction false} OneClaimPerEpisode(ss: seq<ExecutionRow>, es: seq<Event>, n: nat)
    requires IsRun(ss, es) && n <= |es|
    ensures ClaimCount(ss, es, n) + (if Parked(ss[n]) then 1 else 0) <= EpisodeCount(ss, es, n)
  {
    hide Claims, Link;
    if n > 0 {
      OneClaimPerEpisode(ss, es, n - 1);
      assert Link(ss[n - 1], es[n - 1], ss[n]);
      if Claims(ss[n - 1], es[n - 1]) {
        ClaimEndsEpisode(ss[n - 1], es[n - 1], ss[n]);
        assert Parked(ss[n - 1]) && !Parked(ss[n]);
      }
    }
  }

  // ---- the late duplicate -------------------------------------------------------------

  function ApprovalStep(status: StepStatus, versions: nat): StepRow {
    StepRow(StepKind.Approval, status, Some(0), None, None, None, 0, versions, [])
  }

  const ONE_APPROVER := Policy(true, DecisionMode.Any, 1, 3600)
  const YES := Ballot(7, Approve, false, true, None, None, true, false)
  const FIRST_RESUME := Delivery(0, "worker", 1, 60, true, true)

  function Request(step: nat, now: Time): RequestRow {
    RequestRow(step, ApprovalStatus.Pending, DecisionMode.Any, 1, 3, now + 3600, None, true, 1, [])
  }

  const APPROVED_FIRST :=
    Request(0, 0).(status := ApprovalStatus.Approved, resolvedAt := Some(1), lockVersion := 2, decisions := [Decision(7, Approve)])

  const R0 := ExecutionRow(
    ExecutionStatus.Running, Lease(Some("w"), Some(0), Some(60), None), CancelMark(None, None, None), None, None, 1, 3,
    [ApprovalStep(StepStatus.Ready, 1), ApprovalStep(StepStatus.Ready, 1)], [], [])
  const R1 := R0.(status := ExecutionStatus.WaitingApproval, lease := NO_LEASE, lockVersion := 2,
                  steps := R0.steps[0 := ApprovalStep(StepStatus.WaitingApproval, 2)], requests := [Request(0, 0)])
  const R2 := R1.(requests := [APPROVED_FIRST])
  const R3 := R2.(status := ExecutionStatus.Running, lease := FreshLease(FIRST_RESUME, 2), lockVersion := 3,
                  steps := R0.steps[0 := ApprovalStep(StepStatus.Ready, 3)])
  const R4 := R3.(steps := R0.steps[0 := ApprovalStep(StepStatus.Succeeded, 3)])
  const R5 := R4.(status := ExecutionStatus.WaitingApproval, lease := NO_LEASE, lockVersion := 4,
                  steps := R4.steps[1 := ApprovalStep(StepStatus.WaitingApproval, 2)],
                  requests := [APPROVED_FIRST, Request(1, 4)])

  const E0 := Event(0, Call.EnterForApproval(0, ONE_APPROVER, None))
  const E1 := Event(1, Call.Decide(0, YES))
  const E2 := Event(2, Resume(FIRST_RESUME))
  const E3 := Event(3, Work(R4))
  const E4 := Event(4, Call.EnterForApproval(1, ONE_APPROVER, None))
  const E5 := Event(5, Resume(FIRST_RESUME))

  /** The resume message of a first APPROVAL Step is delivered again while a second one
      waits: the Execution fails, its finished first Step fails, and the second request
      stays PENDING on a FAILED Execution. */
  ghost predicate LateDuplicate(ss: seq<ExecutionRow>, es: seq<Event>) {
    && IsRun(ss, es) && |es| == 6
    && FirstClaim(ss[2], es[2]) && es[5].call == es[2].call
    && SecondStepWaits(ss[5]) && Stranded(ss[6])
  }

  ghost predicate FirstClaim(t: ExecutionRow, e: Event) { e.call.Resume? && Claims(t, e) }

  ghost predicate SecondStepWaits(t: ExecutionRow) {
    && t.status.WaitingApproval? && |t.steps| == 2
    && t.steps[0].status.Succeeded? && t.steps[1].status.WaitingApproval?
  }

  ghost predicate Stranded(t: ExecutionRow) {
    && t.status.Failed? && |t.steps| == 2 && |t.requests| == 2
    && t.steps[0].status.Failed? && t.steps[1].status.WaitingApproval? && t.requests[1].status.Pending?
  }

  lemma StartIsSound()
    ensures Inv(R0)
  {
    assert forall i :: 0 <= i < 2 ==> !StepInFlight(R0.steps[i]);
  }

  lemma FirstWait()
    ensures Link(R0, E0, R1)
  {
    assert FindPending(R0.requests, 0).None?;
    assert [] + [Request(0, 0)] == [Request(0, 0)];
  }

  lemma FirstApproval()
    ensures Link(R1, E1, R2)
  {
    var ds := [Decision(7, Approve)];
    assert ds[..0] == [];
    assert Count(ds, Approve) == 1;
    assert R1.requests[0].decisions + [Decision(7, Approve)] == ds;
    assert Refusal(R1.requests[0], YES).None?;
    assert R1.requests[0 := APPROVED_FIRST] == R2.requests;
  }

  lemma FirstResume()
    ensures Link(R2, E2, R3) && FirstClaim(R2, E2)
  {
    assert FindPending(R2.requests, 0).None?;
    assert R2.steps[0 := ApprovalStep(StepStatus.Ready, 3)] == R3.steps;
  }

  lemma FirstWork()
    ensures Link(R3, E3, R4)
  {
  }

  lemma SecondWait()
    ensures Link(R4, E4, R5) && SecondStepWaits(R5)
    ensures Enabled(R5, E5) && Stranded(After(R5, E5))
  {
    assert FindPending(R4.requests, 1).None?;
    assert R4.requests + [Request(1, 4)] == R5.requests;
  }

  lemma SixLinks(r0: ExecutionRow, r1: ExecutionRow, r2: ExecutionRow, r3: ExecutionRow, r4: ExecutionRow,
                 r5: ExecutionRow, r6: ExecutionRow,
                 e0: Event, e1: Event, e2: Event, e3: Event, e4: Event, e5: Event)
    requires Inv(r0)
    requires Link(r0, e0, r1) && Link(r1, e1, r2) && Link(r2, e2, r3)
    requires Link(r3, e3, r4) && Link(r4, e4, r5) && Link(r5, e5, r6)
    requires FirstClaim(r2, e2) && e5.call == e2.call && SecondStepWaits(r5) && Stranded(r6)
    ensures exists ss, es :: LateDuplicate(ss, es)
  {
    hide Link, FirstClaim, SecondStepWaits, Stranded, Inv;
    assert LateDuplicate([r0, r1, r2, r3, r4, r5, r6], [e0, e1, e2, e3, e4, e5]);
  }

  lemma LateDuplicateBreaksTheWait()
    ensures exists ss, es :: LateDuplicate(ss, es)
  {
    StartIsSound();
    FirstWait();
    FirstApproval();
    FirstResume();
    FirstWork();
    SecondWait();
    SixLinks(R0, R1, R2, R3, R4, R5, After(R5, E5), E0, E1, E2, E3, E4, E5);
  }
}
