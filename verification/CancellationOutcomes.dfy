/** What is found in the tables after a cancellation call, row by row, in terms of the rows
    before it. */
module CancellationOutcomes {
  import opened ExecutionRows
  import opened CancellationRules
  import opened CancellationLaws

  // ---- the words used ---------------------------------------------------------------

  /** What still goes on, and what may have happened outside. */
  lemma StatusesMean(t: ExecutionRow, s: StepRow)
    ensures TerminalStep(s.status) <==> !s.status.Pending? && !s.status.Ready? && !AtWork(s.status)
    ensures TerminalExecution(t.status) <==>
      && !t.status.Created? && !t.status.Queued? && !t.status.Running? && !t.status.WaitingInput?
      && !t.status.WaitingApproval? && !t.status.CancelRequested?
    ensures AmbiguousStep(s) <==>
      || s.status.UnknownOutcome?
      || (exists k :: 0 <= k < |s.attempts| && s.attempts[k].status.UnknownOutcome?)
      || (exists k, c :: 0 <= k < |s.attempts| && 0 <= c < |s.attempts[k].calls|
            && (s.attempts[k].calls[c].status.Started? || s.attempts[k].calls[c].status.UnknownOutcome?))
  {
    if StepInFlight(s) { var k :| 0 <= k < |s.attempts| && AttemptInFlight(s.attempts[k]); }
    if k, c :| 0 <= k < |s.attempts| && 0 <= c < |s.attempts[k].calls| && s.attempts[k].calls[c].status.Started? {
      assert AttemptInFlight(s.attempts[k]);
    }
    if k, c :| 0 <= k < |s.attempts| && 0 <= c < |s.attempts[k].calls| && s.attempts[k].calls[c].status.UnknownOutcome? {
      assert AttemptUnknown(s.attempts[k]);
    }
    if k :| 0 <= k < |s.attempts| && s.attempts[k].status.UnknownOutcome? { assert AttemptUnknown(s.attempts[k]); }
  }

  // ---- single rows ---------------------------------------------------------------

  predicate AtWork(s: StepStatus) {
    s.Running? || s.WaitingInput? || s.WaitingApproval?
  }

  /** An Attempt that ended now: nobody holds it any more. */
  predicate AttemptEnded(a: AttemptRow, b: AttemptRow, status: WorkStatus, code: Option<string>, now: Time) {
    b == AttemptRow(status, Some(now), None, None, code, b.calls)
  }

  /** A Step that was called off now, without an error. */
  predicate StepCalledOff(s: StepRow, r: StepRow, now: Time) {
    r == StepRow(s.kind, StepStatus.Cancelled, s.readyAt, s.startedAt, Some(now), None, s.attemptCount, s.lockVersion + 1, r.attempts)
  }

  /** A Step is left as it was, or called off with the idle Attempts it had under way. */
  ghost predicate StepSwept(s: StepRow, r: StepRow, now: Time) {
    if TerminalStep(s.status) || (s.status.Running? && StepInFlight(s)) then r == s
    else
      && StepCalledOff(s, r, now) && |r.attempts| == |s.attempts|
      && forall k :: 0 <= k < |s.attempts| ==>
           var a, b := s.attempts[k], r.attempts[k];
           if AtWork(s.status) && a.status.Started? && !AttemptInFlight(a)
           then AttemptEnded(a, b, WorkStatus.Cancelled, None, now) && b.calls == a.calls
           else b == a
  }

  /** No question stays open: PENDING requests are cancelled, OPEN inputs rejected by the actor. */
  ghost predicate QuestionsClosed(t: ExecutionRow, r: ExecutionRow, now: Time, actor: Option<UserId>) {
    && |r.requests| == |t.requests| && |r.inputs| == |t.inputs|
    && (forall q :: 0 <= q < |t.requests| ==>
          r.requests[q] == if !t.requests[q].status.Pending? then t.requests[q] else
            t.requests[q].(status := ApprovalStatus.Cancelled, resolvedAt := Some(now), lockVersion := t.requests[q].lockVersion + 1))
    && (forall k :: 0 <= k < |t.inputs| ==>
          r.inputs[k] == if t.inputs[k].status.Open? then InputRow(InputStatus.Rejected, Some(now), actor) else t.inputs[k])
  }

  ghost predicate StepsSwept(t: ExecutionRow, r: ExecutionRow, now: Time) {
    |r.steps| == |t.steps| && forall i :: 0 <= i < |t.steps| ==> StepSwept(t.steps[i], r.steps[i], now)
  }

  /** Ended now, with nothing held. */
  predicate ExecutionEnded(r: ExecutionRow, code: Option<string>, now: Time) {
    r.finishedAt == Some(now) && r.errorCode == code && r.lease == NO_LEASE
  }

  predicate SameWork(t: ExecutionRow, r: ExecutionRow) {
    r.finishedAt == t.finishedAt && r.errorCode == t.errorCode && r.lease == t.lease
  }

  lemma StepIsSwept(s: StepRow, now: Time)
    ensures StepSwept(s, CancelSafeStep(s, now), now)
  {
  }

  // ---- the cancel call -------------------------------------------------------------

  /** After a cancel of a live Execution.  The first cancel leaves its mark; with a call in
      flight the work goes on, otherwise the Execution has ended without an error. */
  lemma CancelLeaves(t: ExecutionRow, now: Time, actor: Option<UserId>, reason: Option<string>)
    requires !TerminalExecution(t.status) && !t.status.CancelRequested?
    ensures var r := Apply(t, now, actor, reason).row;
      && StepsSwept(t, r, now) && QuestionsClosed(t, r, now, actor)
      && r.cancel == (if t.cancel.at.Some? then t.cancel else CancelMark(Some(now), actor, reason))
      && (if t.status.Running? && InFlight(t) then r.status.CancelRequested? && SameWork(t, r)
          else r.status.Cancelled? && ExecutionEnded(r, None, now))
      && r.requester == t.requester && r.lockVersion == t.lockVersion + 1
  {
    hide CancelSafeStep, StepSwept, InFlight;
    forall i | 0 <= i < |t.steps| ensures StepSwept(t.steps[i], CancelSafeStep(t.steps[i], now), now) {
      StepIsSwept(t.steps[i], now);
    }
  }

  /** A repeated cancel changes nothing; one that comes too late is refused. */
  lemma CancelAgain(t: ExecutionRow, now: Time, actor: Option<UserId>, reason: Option<string>,
                    later: Time, other: Option<UserId>, why: Option<string>)
    ensures var first := Apply(t, now, actor, reason);
      var second := Apply(first.row, later, other, why);
      && second.row == first.row
      && (first.result.Ok? ==> second.result == Ok(OutcomeOf(first.row, Idempotent)))
      && (first.result.Err? <==> TerminalExecution(t.status) && !t.status.Cancelled?)
  {
  }

  /** Whatever is answered is what the row says. */
  lemma AnswersTellTheRow(t: ExecutionRow, now: Time, actor: Option<UserId>, reason: Option<string>)
    ensures forall reply | reply in [Apply(t, now, actor, reason), Reconcile(t, now), Recover(t, now)] && reply.result.Ok? ::
      reply.result.value == Outcome(reply.row.status, reply.row.cancel.at, reply.row.finishedAt, reply.result.value.mode)
  {
    hide InFlight, Sweep, FirstUnknown, RecoverSteps;
  }

  // ---- reconciliation --------------------------------------------------------------

  lemma {:induction false} FirstUnknownIsFirst(ss: seq<StepRow>)
    ensures FirstUnknown(ss).Some? ==> exists i ::
      0 <= i < |ss| && ss[i].status.UnknownOutcome? && FirstUnknown(ss) == Some(ss[i])
      && forall j :: 0 <= j < i ==> !ss[j].status.UnknownOutcome?
  {
    if ss != [] && FirstUnknown(ss).Some? {
      if ss[0].status.UnknownOutcome? {
        assert FirstUnknown(ss) == Some(ss[0]);
      } else {
        FirstUnknownIsFirst(ss[1..]);
        var i :| 0 <= i < |ss[1..]| && ss[1..][i].status.UnknownOutcome? && FirstUnknown(ss[1..]) == Some(ss[1..][i])
          && forall j :: 0 <= j < i ==> !ss[1..][j].status.UnknownOutcome?;
        forall j | 0 <= j < i + 1 ensures !ss[j].status.UnknownOutcome? {
          if j > 0 { assert ss[j] == ss[1..][j - 1]; }
        }
        assert ss[i + 1] == ss[1..][i];
      }
    }
  }

  predicate FirstUnknownAt(ss: seq<StepRow>, i: int) {
    0 <= i < |ss| && ss[i].status.UnknownOutcome? && forall j :: 0 <= j < i ==> !ss[j].status.UnknownOutcome?
  }

  /** The code an Execution ends with: that of its first Step of unknown outcome, if any. */
  ghost predicate EndsWithCode(ss: seq<StepRow>, code: Option<string>) {
    && (forall i :: FirstUnknownAt(ss, i) ==> code == ss[i].errorCode)
    && ((forall i :: 0 <= i < |ss| ==> !ss[i].status.UnknownOutcome?) ==> code == None)
  }

  lemma ReconcileLeaves(t: ExecutionRow, now: Time)
    requires t.status.CancelRequested? && !InFlight(t)
    ensures var r := Reconcile(t, now).row;
      && StepsSwept(t, r, now) && QuestionsClosed(t, r, now, t.cancel.actor)
      && EndsWithCode(t.steps, r.errorCode) && ExecutionEnded(r, r.errorCode, now)
      && r.cancel == t.cancel && r.requester == t.requester && r.lockVersion == t.lockVersion + 1
  {
    hide CancelSafeStep, StepSwept, InFlight;
    forall i | 0 <= i < |t.steps| ensures StepSwept(t.steps[i], CancelSafeStep(t.steps[i], now), now) {
      StepIsSwept(t.steps[i], now);
    }
    FirstUnknownIsSome(t.steps);
    FirstUnknownIsFirst(t.steps);
  }

  // ---- settling one call -------------------------------------------------------------

  /** The Step of a call that was settled: the call has ended as given, its Attempt and its
      Step are called off if they were still open, and nothing else below the Step moved. */
  ghost predicate CallClosed(s: StepRow, r: StepRow, attempt: nat, call: nat, status: WorkStatus, now: Time)
    requires attempt < |s.attempts| && call < |s.attempts[attempt].calls|
  {
    && (if TerminalStep(s.status) then r == s.(attempts := r.attempts) else StepCalledOff(s, r, now))
    && |r.attempts| == |s.attempts|
    && (forall k :: 0 <= k < |s.attempts| && k != attempt ==> r.attempts[k] == s.attempts[k])
    && var a, b := s.attempts[attempt], r.attempts[attempt];
    && (if a.status.Started? then AttemptEnded(a, b, WorkStatus.Cancelled, None, now) else b == a.(calls := b.calls))
    && |b.calls| == |a.calls|
    && (forall c :: 0 <= c < |a.calls| && c != call ==> b.calls[c] == a.calls[c])
    && b.calls[call] == CallRow(status, Some(now))
  }

  lemma ClosedAsTold(s: StepRow, attempt: nat, call: nat, status: WorkStatus, now: Time)
    requires attempt < |s.attempts| && call < |s.attempts[attempt].calls|
    ensures var r := CloseCall(s, attempt, call, status, now);
      CallClosed(s, r, attempt, call, status, now) && TerminalStep(r.status)
  {
  }

  /** A cancel mark that is there stays; one that is missing gets the time, and no more. */
  predicate MarkAtLeast(t: ExecutionRow, r: ExecutionRow, now: Time) {
    if t.status.CancelRequested? || t.cancel.at.Some? then r.cancel == t.cancel
    else r.cancel == t.cancel.(at := Some(now))
  }

  /** Reconciling after one Step was closed leaves that Step alone. */
  lemma ClosedThenReconciled(t: ExecutionRow, i: nat, s: StepRow, now: Time)
    requires i < |t.steps| && TerminalStep(s.status)
    ensures var m := EnsureRequested(t.(steps := t.steps[i := s]), now);
      var r := Reconcile(m, now).row;
      && |r.steps| == |t.steps| && r.steps[i] == s && MarkAtLeast(t, r, now)
      && (if InFlight(m) then
            r.status.CancelRequested? && r.steps == t.steps[i := s] && r.requests == t.requests && r.inputs == t.inputs && SameWork(t, r)
          else
            StepsSwept(m, r, now) && QuestionsClosed(t, r, now, r.cancel.actor)
            && EndsWithCode(m.steps, r.errorCode) && ExecutionEnded(r, r.errorCode, now))
  {
    var m := EnsureRequested(t.(steps := t.steps[i := s]), now);
    hide InFlight, StepsSwept, CancelSafeStep, EndsWithCode;
    if !InFlight(m) {
      ReconcileLeaves(m, now);
      StepIsSwept(s, now);
    }
  }

  /** The Step of a call that was to be sent: a prepared call is cancelled, a settled one stays. */
  ghost predicate CallWithheld(s: StepRow, r: StepRow, attempt: nat, call: nat, now: Time)
    requires attempt < |s.attempts| && call < |s.attempts[attempt].calls|
  {
    var c := s.attempts[attempt].calls[call];
    if c.status.Started? then CallClosed(s, r, attempt, call, WorkStatus.Cancelled, now)
    else
      && (if TerminalStep(s.status) then r == s.(attempts := r.attempts) else StepCalledOff(s, r, now))
      && |r.attempts| == |s.attempts|
      && (forall k :: 0 <= k < |s.attempts| && k != attempt ==> r.attempts[k] == s.attempts[k])
      && var a, b := s.attempts[attempt], r.attempts[attempt];
      && b.calls == a.calls
      && (if a.status.Started? then AttemptEnded(a, b, WorkStatus.Cancelled, None, now) else b == a)
  }

  // ---- the calls that settle ----------------------------------------------------------

  predicate CallOut(t: ExecutionRow, other: CallRef) {
    HasCall(t, other) && CallAt(t, other).status.Started?
  }

  ghost predicate OtherCallOut(t: ExecutionRow, ref: CallRef) {
    exists other :: CallOut(t, other) && other != ref
  }

  lemma InFlightMeans(t: ExecutionRow)
    ensures InFlight(t) <==> exists ref :: CallOut(t, ref)
  {
    if InFlight(t) {
      var i :| 0 <= i < |t.steps| && StepInFlight(t.steps[i]);
      var k :| 0 <= k < |t.steps[i].attempts| && AttemptInFlight(t.steps[i].attempts[k]);
      var c :| 0 <= c < |t.steps[i].attempts[k].calls| && t.steps[i].attempts[k].calls[c].status.Started?;
      assert CallOut(t, CallRef(i, k, c));
    }
    if ref :| CallOut(t, ref) {
      assert t.steps[ref.step].attempts[ref.attempt].calls[ref.call].status.Started?;
      assert AttemptInFlight(t.steps[ref.step].attempts[ref.attempt]);
      assert StepInFlight(t.steps[ref.step]);
    }
  }

  /** r is t with the one call settled, and no other call moved. */
  ghost predicate CallSettled(t: ExecutionRow, r: ExecutionRow, ref: CallRef)
    requires HasCall(t, ref)
  {
    && |r.steps| == |t.steps|
    && (forall i :: 0 <= i < |t.steps| && i != ref.step ==> r.steps[i] == t.steps[i])
    && (forall other :: HasCall(t, other) <==> HasCall(r, other))
    && (forall other :: HasCall(t, other) && other != ref ==> CallAt(r, other) == CallAt(t, other))
    && !CallAt(r, ref).status.Started?
    && (r.steps[ref.step].status.UnknownOutcome? <==> t.steps[ref.step].status.UnknownOutcome?)
  }

  lemma OthersStayOut(t: ExecutionRow, r: ExecutionRow, ref: CallRef)
    requires HasCall(t, ref) && CallSettled(t, r, ref)
    ensures InFlight(r) <==> OtherCallOut(t, ref)
  {
    InFlightMeans(r);
    if other :| CallOut(t, other) && other != ref { assert CallOut(r, other); }
    if other :| CallOut(r, other) { assert other != ref && CallOut(t, other); }
  }

  /** While another call is out the Execution waits as it is.  Otherwise every other Step is
      swept, every question closed, and it ends FAILED exactly when some Step has an unknown
      outcome. */
  ghost predicate CancellationAdvanced(t: ExecutionRow, r: ExecutionRow, ref: CallRef, now: Time) {
    && |r.steps| == |t.steps| && MarkAtLeast(t, r, now)
    && if OtherCallOut(t, ref) then
         && r.status.CancelRequested? && SameWork(t, r) && r.requests == t.requests && r.inputs == t.inputs
         && forall i :: 0 <= i < |t.steps| && i != ref.step ==> r.steps[i] == t.steps[i]
       else
         && (forall i :: 0 <= i < |t.steps| && i != ref.step ==> StepSwept(t.steps[i], r.steps[i], now))
         && QuestionsClosed(t, r, now, r.cancel.actor)
         && ExecutionEnded(r, r.errorCode, now)
         && r.status == if (exists i :: 0 <= i < |t.steps| && t.steps[i].status.UnknownOutcome?) then ExecutionStatus.Failed
                        else ExecutionStatus.Cancelled
  }

  lemma ClosedAdvances(t: ExecutionRow, ref: CallRef, s: StepRow, now: Time)
    requires HasCall(t, ref) && TerminalStep(s.status) && CallSettled(t, t.(steps := t.steps[ref.step := s]), ref)
    ensures var r := Reconcile(EnsureRequested(t.(steps := t.steps[ref.step := s]), now), now).row;
      CancellationAdvanced(t, r, ref, now) && r.steps[ref.step] == s
  {
    hide StepSwept, CancelSafeStep, EndsWithCode, QuestionsClosed, Sweep, FirstUnknown;
    var m := EnsureRequested(t.(steps := t.steps[ref.step := s]), now);
    SameSteps(t, t.(steps := m.steps), m, ref);
    hide InFlight, OtherCallOut, HasCall, CallAt, CallSettled;
    ClosedThenReconciled(t, ref.step, s, now);
    if !InFlight(m) { ReconcileEnds(m, now); }
  }

  lemma SameSteps(t: ExecutionRow, r: ExecutionRow, m: ExecutionRow, ref: CallRef)
    requires HasCall(t, ref) && CallSettled(t, r, ref) && m.steps == r.steps
    ensures InFlight(m) <==> OtherCallOut(t, ref)
    ensures (exists i :: 0 <= i < |m.steps| && m.steps[i].status.UnknownOutcome?) <==>
      exists i :: 0 <= i < |t.steps| && t.steps[i].status.UnknownOutcome?
  {
    OthersStayOut(t, r, ref);
    assert forall i :: 0 <= i < |t.steps| ==> (m.steps[i].status.UnknownOutcome? <==> t.steps[i].status.UnknownOutcome?);
  }

  lemma ClosingSettles(t: ExecutionRow, ref: CallRef, s: StepRow, status: WorkStatus, now: Time)
    requires HasCall(t, ref) && !status.Started?
    requires CallClosed(t.steps[ref.step], s, ref.attempt, ref.call, status, now)
    ensures CallSettled(t, t.(steps := t.steps[ref.step := s]), ref)
  {
    var r := t.(steps := t.steps[ref.step := s]);
    forall other | HasCall(t, other) && other != ref ensures CallAt(r, other) == CallAt(t, other) {
      if other.step == ref.step && other.attempt == ref.attempt { assert other.call != ref.call; }
    }
  }

  /** The call that was out has succeeded, on the record, though its Step is called off. */
  lemma SettleLeaves(t: ExecutionRow, ref: CallRef, now: Time)
    requires HasCall(t, ref)
    ensures var r := Settle(t, ref, now).row;
      && CancellationAdvanced(t, r, ref, now)
      && CallClosed(t.steps[ref.step], r.steps[ref.step], ref.attempt, ref.call, WorkStatus.Succeeded, now)
  {
    hide Reconcile, CloseCall, EnsureRequested, CallClosed, CancellationAdvanced, CallSettled;
    var s := CloseCall(t.steps[ref.step], ref.attempt, ref.call, WorkStatus.Succeeded, now);
    ClosedAsTold(t.steps[ref.step], ref.attempt, ref.call, WorkStatus.Succeeded, now);
    ClosingSettles(t, ref, s, WorkStatus.Succeeded, now);
    ClosedAdvances(t, ref, s, now);
  }

  /** A call that was not sent is cancelled; one settled before stays as it is. */
  lemma BeforeSendLeaves(t: ExecutionRow, ref: CallRef, now: Time)
    requires HasCall(t, ref)
    ensures var r := BeforeSend(t, ref, now).row;
      && CancellationAdvanced(t, r, ref, now)
      && CallWithheld(t.steps[ref.step], r.steps[ref.step], ref.attempt, ref.call, now)
  {
    hide Reconcile, EnsureRequested, CancellationAdvanced, CallSettled;
    var s := t.steps[ref.step];
    if CallAt(t, ref).status.Started? {
      var s' := CloseCall(s, ref.attempt, ref.call, WorkStatus.Cancelled, now);
      ClosedAsTold(s, ref.attempt, ref.call, WorkStatus.Cancelled, now);
      ClosingSettles(t, ref, s', WorkStatus.Cancelled, now);
      ClosedAdvances(t, ref, s', now);
    } else {
      var s' := CancelStep(s.(attempts := s.attempts[ref.attempt := CancelAttempt(s.attempts[ref.attempt], now)]), now);
      WithholdingSettles(t, ref, s', now);
      ClosedAdvances(t, ref, s', now);
    }
  }

  lemma WithholdingSettles(t: ExecutionRow, ref: CallRef, s: StepRow, now: Time)
    requires HasCall(t, ref) && !CallAt(t, ref).status.Started?
    requires CallWithheld(t.steps[ref.step], s, ref.attempt, ref.call, now)
    ensures CallSettled(t, t.(steps := t.steps[ref.step := s]), ref)
  {
    var r := t.(steps := t.steps[ref.step := s]);
    forall other | HasCall(t, other) ensures CallAt(r, other) == CallAt(t, other) {
      if other.step == ref.step && other.attempt != ref.attempt {
        assert s.attempts[other.attempt] == t.steps[ref.step].attempts[other.attempt];
      }
    }
  }

  // ---- recovery of an expired lease ----------------------------------------------------

  /** The row's own error code where it has one that says something, and else the one that
      recovery puts on an unknown outcome. */
  predicate OwnCodeOr(own: Option<string>, code: Option<string>) {
    code == if own.Some? && own.value != "" then own else Some("CANCEL_RECOVERY_UNKNOWN_OUTCOME")
  }

  /** One Attempt through recovery, by what was known of it and of its Step. */
  ghost predicate AttemptRecovered(s: StepRow, a: AttemptRow, b: AttemptRow, now: Time) {
    && b.calls == Map((c: CallRow) => if c.status.Started? then CallRow(WorkStatus.UnknownOutcome, Some(now)) else c, a.calls)
    && if AttemptInFlight(a) then
         AttemptEnded(a, b, WorkStatus.UnknownOutcome, Some("CANCEL_RECOVERY_UNKNOWN_OUTCOME"), now)
       else if a.status.Started? && CallsUnknown(a) then
         AttemptEnded(a, b, WorkStatus.UnknownOutcome, b.errorCode, now) && OwnCodeOr(a.errorCode, b.errorCode)
       else if a.status.Started? && !AmbiguousStep(s) && AtWork(s.status) then
         AttemptEnded(a, b, WorkStatus.Cancelled, None, now)
       else b == a
  }

  /** One Step through recovery: ambiguous evidence puts an unknown outcome on it, otherwise it
      is left, if terminal, or called off.  Its version grows when its status changes. */
  ghost predicate StepRecovered(s: StepRow, r: StepRow, now: Time) {
    && r.kind == s.kind && r.readyAt == s.readyAt && r.startedAt == s.startedAt && r.attemptCount == s.attemptCount
    && r.lockVersion == s.lockVersion + (if r.status == s.status then 0 else 1)
    && if AmbiguousStep(s) then
         && r.status.UnknownOutcome?
         && (if s.status.UnknownOutcome? then r.finishedAt == s.finishedAt && r.errorCode == s.errorCode
             else if StepInFlight(s) && !TerminalStep(s.status) then
               r.finishedAt == Some(now) && r.errorCode == Some("CANCEL_RECOVERY_UNKNOWN_OUTCOME")
             else
               OwnCodeOr(s.errorCode, r.errorCode) && r.finishedAt == if s.finishedAt.Some? then s.finishedAt else Some(now))
       else if TerminalStep(s.status) then r == s
       else StepCalledOff(s, r, now)
  }

  lemma LostAttempt(s: StepRow, now: Time, k: nat)
    requires k < |s.attempts|
    ensures |LoseStep(s, now).attempts| == |s.attempts|
    ensures var a, l := s.attempts[k], LoseStep(s, now).attempts[k];
      && !AttemptInFlight(l)
      && (if AttemptInFlight(a) then
            AttemptEnded(a, l, WorkStatus.UnknownOutcome, Some("CANCEL_RECOVERY_UNKNOWN_OUTCOME"), now)
          else l == a)
      && l.calls == Map((c: CallRow) => if c.status.Started? then CallRow(WorkStatus.UnknownOutcome, Some(now)) else c, a.calls)
  {
    LoseStepFacts(s, now);
    var a := s.attempts[k];
    assert LoseStep(s, now).attempts[k] == LoseAttempt(a, now);
    var lost := Map((c: CallRow) => if c.status.Started? then CallRow(WorkStatus.UnknownOutcome, Some(now)) else c, a.calls);
    if AttemptInFlight(a) {
      assert Map(c => LoseCall(c, now), a.calls) == lost;
    } else {
      assert forall c :: 0 <= c < |a.calls| ==> !a.calls[c].status.Started?;
      assert a.calls == lost;
    }
  }

  lemma StepIsRecovered(s: StepRow, now: Time)
    ensures StepRecovered(s, CancelSafeStep(PromoteStep(LoseStep(s, now), now), now), now)
  {
    var l := LoseStep(s, now);
    var u := PromoteStep(l, now);
    LoseStepFacts(s, now);
    PromoteStepFacts(l, now);
    assert StepUnknown(l) == (HasSettledUnknown(l) || l.status.UnknownOutcome?);
    if !AmbiguousStep(s) { UntouchedAttempts(s, now); }
  }

  /** Where nothing is ambiguous both passes leave the Step alone. */
  lemma UntouchedAttempts(s: StepRow, now: Time)
    requires !AmbiguousStep(s)
    ensures PromoteStep(LoseStep(s, now), now) == s
  {
    assert LoseStep(s, now) == s;
    var u := PromoteStep(s, now);
    forall k | 0 <= k < |s.attempts| ensures u.attempts[k] == s.attempts[k] {
      assert !AttemptUnknown(s.attempts[k]);
      assert u.attempts[k] == LiftAttempt(s.attempts[k], now);
    }
    assert u.attempts == s.attempts;
  }

  lemma AttemptIsRecovered(s: StepRow, now: Time, k: nat)
    requires k < |s.attempts|
    ensures var r := CancelSafeStep(PromoteStep(LoseStep(s, now), now), now);
      |r.attempts| == |s.attempts| && AttemptRecovered(s, s.attempts[k], r.attempts[k], now)
  {
    var l := LoseStep(s, now);
    var u := PromoteStep(l, now);
    LoseStepFacts(s, now);
    PromoteStepFacts(l, now);
    LostAttempt(s, now, k);
    SweepKeepsCalls(u, now);
    if AmbiguousStep(s) {
      assert u.status.UnknownOutcome?;
      assert u.attempts[k] == LiftAttempt(l.attempts[k], now);
    } else {
      UntouchedAttempts(s, now);
      StepIsSwept(s, now);
      assert !AttemptUnknown(s.attempts[k]);
    }
  }

  predicate FirstAmbiguousAt(ss: seq<StepRow>, i: int) {
    0 <= i < |ss| && AmbiguousStep(ss[i]) && forall j :: 0 <= j < i ==> !AmbiguousStep(ss[j])
  }

  /** After recovery: every Attempt, every Step, every question, and an Execution that ended
      with the code of its first ambiguous Step. */
  lemma RecoverLeaves(t: ExecutionRow, now: Time)
    requires t.status.CancelRequested?
    ensures var r := Recover(t, now).row;
      && RowsRecovered(t, r, now) && QuestionsClosed(t, r, now, t.cancel.actor)
      && (r.status.Failed? <==> Ambiguous(t))
      && (forall i :: FirstAmbiguousAt(t.steps, i) ==> r.errorCode == r.steps[i].errorCode)
      && (!Ambiguous(t) ==> r.status.Cancelled? && r.errorCode == None)
      && ExecutionEnded(r, r.errorCode, now) && r.cancel == t.cancel && r.requester == t.requester
  {
    hide CancelSafeStep, PromoteStep, LoseStep, AmbiguousStep, RowsRecovered, StepSwept, InFlight, OnlyStartedCallsLost;
    var u := RecoverSteps(t, now);
    RecoveryTerminates(t, now);
    RecoveredSteps(t, now);
    ReconcileLeaves(u, now);
    ReconcileEnds(u, now);
    RecoveredRows(t, Recover(t, now).row, now);
    RecoveredCode(t, Recover(t, now).row, now);
  }

  ghost predicate RowsRecovered(t: ExecutionRow, r: ExecutionRow, now: Time) {
    && |r.steps| == |t.steps|
    && (forall i :: 0 <= i < |t.steps| ==>
          StepRecovered(t.steps[i], r.steps[i], now) && |r.steps[i].attempts| == |t.steps[i].attempts|)
    && (forall i, k :: 0 <= i < |t.steps| && 0 <= k < |t.steps[i].attempts| ==>
          AttemptRecovered(t.steps[i], t.steps[i].attempts[k], r.steps[i].attempts[k], now))
  }

  lemma RecoveredCode(t: ExecutionRow, r: ExecutionRow, now: Time)
    requires var u := RecoverSteps(t, now);
      r.steps == Map(s => CancelSafeStep(s, now), u.steps) && EndsWithCode(u.steps, r.errorCode)
    ensures forall i :: FirstAmbiguousAt(t.steps, i) ==> r.errorCode == r.steps[i].errorCode
    ensures !Ambiguous(t) ==> r.errorCode == None
  {
    hide CancelSafeStep, PromoteStep, LoseStep, AmbiguousStep;
    RecoveredSteps(t, now);
    var u := RecoverSteps(t, now);
    forall i | FirstAmbiguousAt(t.steps, i) ensures r.errorCode == r.steps[i].errorCode {
      assert FirstUnknownAt(u.steps, i);
      UnknownStays(u.steps[i], now);
    }
  }

  lemma RecoveredRows(t: ExecutionRow, r: ExecutionRow, now: Time)
    requires r.steps == Map(s => CancelSafeStep(s, now), RecoverSteps(t, now).steps)
    ensures RowsRecovered(t, r, now)
  {
    hide CancelSafeStep, PromoteStep, LoseStep, AmbiguousStep, StepRecovered, AttemptRecovered;
    forall i | 0 <= i < |t.steps|
      ensures StepRecovered(t.steps[i], r.steps[i], now) && |r.steps[i].attempts| == |t.steps[i].attempts|
      ensures forall k :: 0 <= k < |t.steps[i].attempts| ==>
        AttemptRecovered(t.steps[i], t.steps[i].attempts[k], r.steps[i].attempts[k], now)
    {
      StepIsRecovered(t.steps[i], now);
      RecoveredCount(t.steps[i], now);
      forall k | 0 <= k < |t.steps[i].attempts|
        ensures AttemptRecovered(t.steps[i], t.steps[i].attempts[k], r.steps[i].attempts[k], now)
      {
        AttemptIsRecovered(t.steps[i], now, k);
      }
    }
  }

  lemma RecoveredCount(s: StepRow, now: Time)
    ensures |CancelSafeStep(PromoteStep(LoseStep(s, now), now), now).attempts| == |s.attempts|
  {
    LoseStepFacts(s, now);
    PromoteStepFacts(LoseStep(s, now), now);
    SweepKeepsCalls(PromoteStep(LoseStep(s, now), now), now);
  }

  lemma UnknownStays(s: StepRow, now: Time)
    requires s.status.UnknownOutcome?
    ensures CancelSafeStep(s, now) == s
  {
  }
}
