/** The planning pipeline of an agent request: five stages, each of which reads the rows
    of the stage before it, works for as long as it likes, and then writes its own evidence
    row and moves the request's status in one transaction guarded by the status it expects.
    A stage that lost the race finds another status there and leaves nothing behind. */
module PlanningPipeline {
  import opened ExecutionRows

  type ToolId = nat
  type JobId = nat

  datatype Status =
    | Received | Analyzing | Retrieving | Selecting | BuildingParameters | Planning | Validating
    | WaitingInput | WaitingConfirmation | Ready | Rejected | Failed | Cancelled

  datatype SelectionDecision = AutoSelect | Confirm | Clarify | NoMatch

  datatype Verdict = Accept | AskConfirmation | Reject | Fail

  datatype Question = MissingParameter | ToolConfirmation | PlanConfirmation

  /** Evidence rows; each names the row it was made from by position.  fills: whether the
      request as it reads when the selection is made fills the inputs of the tool.  Until the
      request leaves BUILDING_PARAMETERS neither changes, so every builder of one selection
      finds the same. */
  datatype Selection = Selection(decision: SelectionDecision, tool: Option<ToolId>, fills: bool)
  datatype Build = Build(selection: nat, tool: ToolId, complete: bool)
  datatype PlanRun = PlanRun(build: nat, primary: ToolId)
  datatype Validation = Validation(plan: nat, verdict: Verdict)

  /** open: the question waiting for the requester's answer. */
  datatype Rows = Rows(
    status: Status,
    open: Option<Question>,
    selections: seq<Selection>,
    builds: seq<Build>,
    plans: seq<PlanRun>,
    validations: seq<Validation>)

  predicate Terminal(s: Status) {
    s.Ready? || s.Rejected? || s.Failed? || s.Cancelled?
  }

  function Last<T>(s: seq<T>): T
    requires s != []
  {
    s[|s| - 1]
  }

  /** The guarded write: next with the new status if the status is the expected one; otherwise
      the transaction is rolled back. */
  function Cas(t: Rows, expected: Status, next: Rows): Rows {
    if t.status == expected then next else t
  }

  // ---- what a stage has read -----------------------------------------------------------------

  /** A stage at work, with the row it read.  checked: what it read was consistent. */
  datatype Job = Building(selection: nat) | Generating(build: nat) | Checking(plan: nat, checked: bool)

  predicate BuildSource(t: Rows) {
    && t.open != Some(MissingParameter)
    && t.selections != [] && Last(t.selections).tool.Some?
  }

  predicate PlanSource(t: Rows) {
    && t.builds != [] && Last(t.builds).complete
    && Last(t.builds).selection < |t.selections|
    && t.selections[Last(t.builds).selection].tool == Some(Last(t.builds).tool)
  }

  predicate CheckSource(t: Rows) {
    t.open.None? && t.plans != []
  }

  /** The validator's evidence chain from the plan to its parameter build. */
  predicate PlanAgrees(t: Rows, p: nat) {
    && p < |t.plans| && t.plans[p].build < |t.builds|
    && t.builds[t.plans[p].build].complete
    && t.builds[t.plans[p].build].tool == t.plans[p].primary
  }

  // ---- commits ---------------------------------------------------------------------------------

  function AfterDecision(decision: SelectionDecision): Status {
    match decision
    case AutoSelect => BuildingParameters
    case Confirm => WaitingConfirmation
    case Clarify => Status.WaitingInput
    case NoMatch => Status.Rejected
  }

  function QuestionOf(decision: SelectionDecision): Option<Question> {
    match decision
    case Confirm => Some(ToolConfirmation)
    case Clarify => Some(MissingParameter)
    case _ => None
  }

  /** No tool is recorded for NO_MATCH, and one is for every other decision. */
  function NewSelection(decision: SelectionDecision, tool: ToolId, fills: bool): Selection {
    Selection(decision, if decision.NoMatch? then None else Some(tool), fills)
  }

  function CommitDecision(t: Rows, expected: Status, decision: SelectionDecision, tool: ToolId, fills: bool): Rows {
    Cas(t, expected, t.(status := AfterDecision(decision),
                        open := if QuestionOf(decision).Some? then QuestionOf(decision) else t.open,
                        selections := t.selections + [NewSelection(decision, tool, fills)]))
  }

  function CommitBuild(t: Rows, selection: nat, tool: ToolId, complete: bool): Rows {
    Cas(t, BuildingParameters,
        t.(status := if complete then Planning else Status.WaitingInput,
           open := if complete then t.open else Some(MissingParameter),
           builds := t.builds + [Build(selection, tool, complete)]))
  }

  function CommitPlan(t: Rows, build: nat, tool: ToolId): Rows {
    Cas(t, Planning, t.(status := Validating, plans := t.plans + [PlanRun(build, tool)]))
  }

  function AfterVerdict(verdict: Verdict): Status {
    match verdict
    case Accept => Status.Ready
    case AskConfirmation => WaitingConfirmation
    case Reject => Status.Rejected
    case Fail => Status.Failed
  }

  function CommitValidation(t: Rows, plan: nat, verdict: Verdict): Rows {
    Cas(t, Validating,
        t.(status := AfterVerdict(verdict),
           open := if verdict.AskConfirmation? then Some(PlanConfirmation) else t.open,
           validations := t.validations + [Validation(plan, verdict)]))
  }

  function Move(t: Rows, expected: Status, status: Status): Rows {
    Cas(t, expected, t.(status := status))
  }

  /** An answer closes the question and moves the status in the same transaction. */
  function Answer(t: Rows, question: Question, expected: Status, status: Status): Rows {
    if t.open != Some(question) then t else Cas(t, expected, t.(open := None, status := status))
  }

  // ---- the store as the stages write it -------------------------------------------------------------

  /** The rows of one request.  Evidence is written first and the status last; on a miss the
      session rolls back to what it was. */
  class PlanningStore {
    var status: Status
    var open: Option<Question>
    var selections: seq<Selection>
    var builds: seq<Build>
    var plans: seq<PlanRun>
    var validations: seq<Validation>

    constructor ()
      ensures State() == Rows(Received, None, [], [], [], [])
    {
      status, open, selections, builds, plans, validations := Received, None, [], [], [], [];
    }

    ghost function State(): Rows
      reads this
    {
      Rows(status, open, selections, builds, plans, validations)
    }

    method CompareAndSet(expected: Status, newStatus: Status) returns (ok: bool)
      modifies this`status
      ensures ok == (old(status) == expected)
      ensures status == if ok then newStatus else old(status)
    {
      ok := status == expected;
      if ok { status := newStatus; }
    }

    method PersistDecision(expected: Status, decision: SelectionDecision, tool: ToolId, fills: bool) returns (ok: bool)
      modifies this
      ensures State() == CommitDecision(old(State()), expected, decision, tool, fills)
      ensures !ok ==> State() == old(State())
      ensures ok == (old(status) == expected)
    {
      var savedOpen, savedSelections := open, selections;
      selections := selections + [NewSelection(decision, tool, fills)];
      if QuestionOf(decision).Some? { open := QuestionOf(decision); }
      ok := CompareAndSet(expected, AfterDecision(decision));
      if !ok { open, selections := savedOpen, savedSelections; }
    }

    method PersistBuild(selection: nat, tool: ToolId, complete: bool) returns (ok: bool)
      modifies this
      ensures State() == CommitBuild(old(State()), selection, tool, complete)
      ensures !ok ==> State() == old(State())
      ensures ok == old(status).BuildingParameters?
    {
      var savedOpen, savedBuilds := open, builds;
      builds := builds + [Build(selection, tool, complete)];
      if complete {
        ok := CompareAndSet(BuildingParameters, Planning);
      } else {
        open := Some(MissingParameter);
        ok := CompareAndSet(BuildingParameters, Status.WaitingInput);
      }
      if !ok { open, builds := savedOpen, savedBuilds; }
    }

    method PersistPlan(build: nat, tool: ToolId) returns (ok: bool)
      modifies this
      ensures State() == CommitPlan(old(State()), build, tool)
      ensures !ok ==> State() == old(State())
      ensures ok == old(status).Planning?
    {
      var savedPlans := plans;
      plans := plans + [PlanRun(build, tool)];
      ok := CompareAndSet(Planning, Validating);
      if !ok { plans := savedPlans; }
    }

    method PersistValidation(plan: nat, verdict: Verdict) returns (ok: bool)
      modifies this
      ensures State() == CommitValidation(old(State()), plan, verdict)
      ensures !ok ==> State() == old(State())
      ensures ok == old(status).Validating?
    {
      var savedOpen, savedValidations := open, validations;
      if verdict.AskConfirmation? { open := Some(PlanConfirmation); }
      validations := validations + [Validation(plan, verdict)];
      match verdict {
        case Accept => ok := CompareAndSet(Validating, Status.Ready);
        case AskConfirmation => ok := CompareAndSet(Validating, WaitingConfirmation);
        case Reject => ok := CompareAndSet(Validating, Status.Rejected);
        case Fail => ok := CompareAndSet(Validating, Status.Failed);
      }
      if !ok { open, validations := savedOpen, savedValidations; }
    }

    method FailFrom(expected: Status)
      modifies this`status
      ensures State() == Move(old(State()), expected, Status.Failed)
    {
      var _ := CompareAndSet(expected, Status.Failed);
    }

    /** Both writes or neither; inside the transaction their order does not show. */
    method AnswerOpen(question: Question, expected: Status, newStatus: Status) returns (ok: bool)
      modifies this`open, this`status
      ensures State() == Answer(old(State()), question, expected, newStatus)
      ensures ok <==> old(open == Some(question) && status == expected)
      ensures !ok ==> State() == old(State())
    {
      var asked := open.Some? && open.value == question;
      if !asked { return false; }
      ok := CompareAndSet(expected, newStatus);
      if ok { open := None; }
    }
  }
}

/** Every interleaving of the stages, and what the evidence says at the end. */
module PipelineRuns {
  import opened ExecutionRows
  import opened Runs
  import opened PlanningPipeline

  /** The request's rows and the stages at work on it, any number at a time. */
  datatype State = State(rows: Rows, jobs: map<JobId, Job>)

  datatype Event =
    | Acquire
    | Analyzed(needsClarification: bool)
    | Release
    | NothingRetrieved
    | StartSelecting
    | Decide(decision: SelectionDecision, tool: ToolId, fills: bool)
    | ReadSelection(job: JobId)
    | FinishBuild(job: JobId)
    | ReadBuild(job: JobId)
    | FinishPlan(job: JobId)
    | ReadPlan(job: JobId)
    | FinishValidation(job: JobId, verdict: Verdict)
    | FailStage(expected: Status)
    | AnswerInput
    | AnswerTool(yes: bool)
    | AnswerPlan(yes: bool)
    | Cancel

  predicate StageStatus(s: Status) {
    s.Analyzing? || s.Retrieving? || s.Selecting? || s.BuildingParameters? || s.Planning? || s.Validating?
  }

  /** A stage starts, or finds the rows it needs out of order and fails the request. */
  function Begin(s: State, job: JobId, expected: Status, work: Option<Job>): State {
    if s.rows.status != expected then s
    else if work.None? then s.(rows := Move(s.rows, expected, Status.Failed))
    else s.(jobs := s.jobs[job := work.value])
  }

  function After(s: State, e: Event): State {
    var t := s.rows;
    match e
    case Acquire => s.(rows := Move(t, Received, Analyzing))
    case Analyzed(needs) => s.(rows := Move(t, Analyzing, if needs then Status.WaitingInput else Retrieving))
    case Release => s.(rows := Move(t, Analyzing, Received))
    case NothingRetrieved => s.(rows := CommitDecision(t, Retrieving, NoMatch, 0, false))
    case StartSelecting => s.(rows := Move(t, Retrieving, Selecting))
    case Decide(decision, tool, fills) => s.(rows := CommitDecision(t, Selecting, decision, tool, fills))
    case ReadSelection(job) => Begin(s, job, BuildingParameters, if BuildSource(t) then Some(Building(|t.selections| - 1)) else None)
    case FinishBuild(job) =>
      if job in s.jobs && s.jobs[job].Building? && s.jobs[job].selection < |t.selections|
         && t.selections[s.jobs[job].selection].tool.Some?
      then
        var chosen := t.selections[s.jobs[job].selection];
        State(CommitBuild(t, s.jobs[job].selection, chosen.tool.value, chosen.fills), s.jobs - {job})
      else s
    case ReadBuild(job) => Begin(s, job, Planning, if PlanSource(t) then Some(Generating(|t.builds| - 1)) else None)
    case FinishPlan(job) =>
      if job in s.jobs && s.jobs[job].Generating? && s.jobs[job].build < |t.builds|
      then State(CommitPlan(t, s.jobs[job].build, t.builds[s.jobs[job].build].tool), s.jobs - {job})
      else s
    case ReadPlan(job) =>
      Begin(s, job, Validating, if CheckSource(t) then Some(Checking(|t.plans| - 1, PlanAgrees(t, |t.plans| - 1))) else None)
    case FinishValidation(job, verdict) =>
      if job in s.jobs && s.jobs[job].Checking?
      then State(CommitValidation(t, s.jobs[job].plan, if s.jobs[job].checked then verdict else Fail), s.jobs - {job})
      else s
    case FailStage(expected) => if StageStatus(expected) then s.(rows := Move(t, expected, Status.Failed)) else s
    case AnswerInput => s.(rows := Answer(t, MissingParameter, Status.WaitingInput, Retrieving))
    case AnswerTool(yes) =>
      if t.selections != [] && Last(t.selections).decision.Confirm? && Last(t.selections).tool.Some?
      then s.(rows := Answer(t, ToolConfirmation, WaitingConfirmation, if yes then BuildingParameters else Status.Cancelled))
      else s
    case AnswerPlan(yes) =>
      if !yes then s.(rows := Answer(t, PlanConfirmation, WaitingConfirmation, Status.Cancelled))
      else if t.validations != [] && Last(t.validations).verdict.AskConfirmation? && t.plans != []
              && Last(t.validations).plan == |t.plans| - 1
      then s.(rows := Answer(t, PlanConfirmation, WaitingConfirmation, Validating))
      else s
    case Cancel => if Terminal(t.status) then s else s.(rows := t.(status := Status.Cancelled))
  }

  // ---- what holds throughout ------------------------------------------------------------------------

  /** Every evidence row agrees with the row it names. */
  ghost predicate EvidenceAgrees(t: Rows) {
    && (forall k :: 0 <= k < |t.builds| ==> BuildAgrees(t, k))
    && (forall k :: 0 <= k < |t.plans| ==> PlanAgrees(t, k))
    && (forall k :: 0 <= k < |t.validations| ==> t.validations[k].plan < |t.plans|)
  }

  ghost predicate BuildAgrees(t: Rows, k: nat)
    requires k < |t.builds|
  {
    t.builds[k].selection < |t.selections| &&
    var selection := t.selections[t.builds[k].selection];
    selection.tool == Some(t.builds[k].tool) && selection.fills == t.builds[k].complete
  }

  /** The status says which evidence there is, and questions are open only while waiting. */
  ghost predicate StatusAgrees(t: Rows) {
    && (t.status.BuildingParameters? ==> t.selections != [] && Last(t.selections).tool.Some?)
    && (t.status.Planning? ==> t.builds != [] && Last(t.builds).complete && t.plans == [])
    && (PastPlanning(t) ==> |t.plans| == 1 && t.plans[0].build == |t.builds| - 1)
    && (!PastPlanning(t) && !Terminal(t.status) ==> t.plans == [])
    && (t.open.Some? && !Terminal(t.status) ==>
          t.status == if t.open.value.MissingParameter? then Status.WaitingInput else WaitingConfirmation)
    && (t.status.WaitingConfirmation? ==> t.open == Some(ToolConfirmation) || t.open == Some(PlanConfirmation))
    && (t.builds != [] && Last(t.builds).complete ==> BuildingOver(t))
    && (t.status.Ready? ==> t.validations != [] && Last(t.validations) == Validation(0, Accept))
  }

  predicate PastPlanning(t: Rows) {
    t.status.Validating? || t.status.Ready? || (t.status.WaitingConfirmation? && t.open == Some(PlanConfirmation))
  }

  predicate BuildingOver(t: Rows) {
    t.status.Planning? || PastPlanning(t) || Terminal(t.status)
  }

  /** What a stage at work has read is still there. */
  ghost predicate JobSound(t: Rows, j: Job) {
    match j
    case Building(selection) => selection < |t.selections| && t.selections[selection].tool.Some?
    case Generating(build) => build < |t.builds| && t.builds[build].complete && build == |t.builds| - 1 && BuildingOver(t)
    case Checking(plan, checked) => plan == 0 && t.plans != []
  }

  ghost predicate Inv(s: State) {
    && EvidenceAgrees(s.rows) && StatusAgrees(s.rows)
    && forall job :: job in s.jobs ==> JobSound(s.rows, s.jobs[job])
  }

  lemma Begins(rows: Rows)
    requires rows == Rows(Received, None, [], [], [], [])
    ensures Inv(State(rows, map[]))
  {
  }

  lemma EvidenceKept(s: State, e: Event)
    requires Inv(s)
    ensures EvidenceAgrees(After(s, e).rows)
  {
    BuildsKept(s, e);
    PlansKept(s, e);
    hide StatusAgrees, JobSound, BuildAgrees, PlanAgrees;
  }

  lemma BuildsKept(s: State, e: Event)
    requires Inv(s)
    ensures var r := After(s, e).rows; forall k :: 0 <= k < |r.builds| ==> BuildAgrees(r, k)
  {
    hide StatusAgrees;
    var t, r := s.rows, After(s, e).rows;
    RowsOnlyGrow(s, e);
    forall k | 0 <= k < |r.builds| ensures BuildAgrees(r, k) {
      if k < |t.builds| { assert BuildAgrees(t, k); }
    }
  }

  lemma PlansKept(s: State, e: Event)
    requires Inv(s)
    ensures var r := After(s, e).rows; forall k :: 0 <= k < |r.plans| ==> PlanAgrees(r, k)
  {
    hide StatusAgrees;
    var t, r := s.rows, After(s, e).rows;
    RowsOnlyGrow(s, e);
    forall k | 0 <= k < |r.plans| ensures PlanAgrees(r, k) {
      if k < |t.plans| { assert PlanAgrees(t, k); } else { assert BuildAgrees(t, r.plans[k].build); }
    }
  }

  lemma StatusKept(s: State, e: Event)
    requires Inv(s)
    ensures StatusAgrees(After(s, e).rows)
  {
    hide EvidenceAgrees;
  }

  lemma JobsKept(s: State, e: Event)
    requires Inv(s)
    ensures forall job :: job in After(s, e).jobs ==> JobSound(After(s, e).rows, After(s, e).jobs[job])
  {
    hide After, Inv, JobSound;
    forall job | job in After(s, e).jobs ensures JobSound(After(s, e).rows, After(s, e).jobs[job]) {
      JobKept(s, e, job);
    }
  }

  lemma JobKept(s: State, e: Event, job: JobId)
    requires Inv(s) && job in After(s, e).jobs
    ensures JobSound(After(s, e).rows, After(s, e).jobs[job])
  {
    hide EvidenceAgrees;
    if job in s.jobs { assert JobSound(s.rows, s.jobs[job]); }
  }

  /** Whatever event comes next, the evidence and the status still agree. */
  lemma StepKeeps(s: State, e: Event)
    requires Inv(s)
    ensures Inv(After(s, e))
  {
    hide EvidenceAgrees, StatusAgrees, JobSound, After;
    EvidenceKept(s, e);
    StatusKept(s, e);
    JobsKept(s, e);
  }

  /** Evidence is never rewritten, and a terminal status never left. */
  lemma RowsOnlyGrow(s: State, e: Event)
    ensures var t, r := s.rows, After(s, e).rows;
      && t.selections <= r.selections && t.builds <= r.builds && t.plans <= r.plans && t.validations <= r.validations
      && (Terminal(t.status) ==> r.status == t.status)
      && (r.status == t.status ==> Evidence(r) == Evidence(t))
  {
  }

  function Evidence(t: Rows): (seq<Selection>, seq<Build>, seq<PlanRun>, seq<Validation>) {
    (t.selections, t.builds, t.plans, t.validations)
  }

  // ---- runs ---------------------------------------------------------------------------------------------

  ghost predicate IsRun(ss: seq<State>, es: seq<Event>) {
    && |ss| == |es| + 1
    && ss[0] == State(Rows(Received, None, [], [], [], []), map[])
    && forall k :: 0 <= k < |es| ==> ss[k + 1] == After(ss[k], es[k])
  }

  lemma {:induction false} RunKeeps(ss: seq<State>, es: seq<Event>, k: nat)
    requires IsRun(ss, es) && k < |ss|
    ensures Inv(ss[k])
  {
    if k == 0 {
      Begins(ss[0].rows);
    } else {
      RunKeeps(ss, es, k - 1);
      StepKeeps(ss[k - 1], es[k - 1]);
    }
  }

  /** A READY request has an accepting validation of its only plan; the plan's primary tool is
      the tool of the newest parameter build, which is complete, and of the selection that
      build was made from. */
  lemma ReadyIsEvidenced(ss: seq<State>, es: seq<Event>, k: nat)
    requires IsRun(ss, es) && k < |ss| && ss[k].rows.status.Ready?
    ensures var t := ss[k].rows;
      && t.validations != [] && Last(t.validations).verdict.Accept? && |t.plans| == 1 && Last(t.validations).plan == 0
      && t.plans[0].build == |t.builds| - 1
      && var build := Last(t.builds);
      && build.complete && build.tool == t.plans[0].primary
      && build.selection < |t.selections| && t.selections[build.selection].tool == Some(t.plans[0].primary)
  {
    RunKeeps(ss, es, k);
    var t := ss[k].rows;
    assert PlanAgrees(t, 0);
    assert BuildAgrees(t, t.plans[0].build);
  }

  /** Terminal statuses are for ever, evidence only grows, and a step that leaves the status
      alone leaves no evidence. */
  lemma {:induction false} TerminalForEver(ss: seq<State>, es: seq<Event>, i: nat, j: nat)
    requires IsRun(ss, es) && i <= j < |ss|
    ensures Terminal(ss[i].rows.status) ==> ss[j].rows.status == ss[i].rows.status && Evidence(ss[j].rows) == Evidence(ss[i].rows)
    ensures ss[i].rows.builds <= ss[j].rows.builds && ss[i].rows.plans <= ss[j].rows.plans
    ensures ss[i].rows.selections <= ss[j].rows.selections && ss[i].rows.validations <= ss[j].rows.validations
  {
    hide After;
    if i < j {
      TerminalForEver(ss, es, i, j - 1);
      RowsOnlyGrow(ss[j - 1], es[j - 1]);
    }
  }

  // ---- which selection -------------------------------------------------------------------------------------

  /** A build stage commits a complete build of a selection that has since been superseded. */
  predicate StaleBuild(s: State, e: Event) {
    && e.FinishBuild? && s.rows.status.BuildingParameters?
    && e.job in s.jobs && s.jobs[e.job].Building?
    && var selection := s.jobs[e.job].selection;
    && selection < |s.rows.selections| - 1 && s.rows.selections[selection].fills
  }

  /** A complete build was made from the newest selection. */
  predicate UsesNewest(t: Rows) {
    t.builds != [] && Last(t.builds).complete ==> Last(t.builds).selection == |t.selections| - 1
  }

  /** One step keeps the chosen tool the newest selection's exactly when it commits no stale
      build. */
  lemma StepUsesNewest(s: State, e: Event)
    requires Inv(s) && UsesNewest(s.rows)
    ensures UsesNewest(After(s, e).rows) <==> !StaleBuild(s, e)
  {
    hide EvidenceAgrees;
    if e.FinishBuild? && e.job in s.jobs { assert JobSound(s.rows, s.jobs[e.job]); }
  }

  /** Over every run: builds are made from the newest selection throughout if and only if no
      stale build is ever committed. */
  lemma RunUsesNewest(ss: seq<State>, es: seq<Event>)
    requires IsRun(ss, es)
    ensures (forall k :: 0 <= k < |ss| ==> UsesNewest(ss[k].rows)) <==> (forall k :: 0 <= k < |es| ==> !StaleBuild(ss[k], es[k]))
  {
    hide After, Inv, StaleBuild;
    var newest := seq(|ss|, k requires 0 <= k < |ss| => UsesNewest(ss[k].rows));
    var stale := seq(|es|, k requires 0 <= k < |es| => StaleBuild(ss[k], es[k]));
    forall k | 0 <= k < |es| ensures newest[k] ==> (newest[k + 1] <==> !stale[k]) {
      RunKeeps(ss, es, k);
      if newest[k] { StepUsesNewest(ss[k], es[k]); }
    }
    FirstBreach(newest, stale);
    assert forall k :: 0 <= k < |ss| ==> newest[k] == UsesNewest(ss[k].rows);
    assert forall k :: 0 <= k < |es| ==> stale[k] == StaleBuild(ss[k], es[k]);
  }

  /** Then what becomes READY is the tool of the newest selection. */
  lemma ReadyUsesNewest(ss: seq<State>, es: seq<Event>, k: nat)
    requires IsRun(ss, es) && k < |ss| && ss[k].rows.status.Ready? && UsesNewest(ss[k].rows)
    ensures var t := ss[k].rows; t.selections != [] && t.plans != [] && Last(t.selections).tool == Some(t.plans[0].primary)
  {
    ReadyIsEvidenced(ss, es, k);
  }

  // ---- a stale build that becomes READY -----------------------------------------------------------------------

  const START := State(Rows(Received, None, [], [], [], []), map[])

  function Through(s: State, es: seq<Event>): (ss: seq<State>)
    ensures |ss| == |es| + 1 && ss[0] == s
    ensures forall k :: 0 <= k < |es| ==> ss[k + 1] == After(ss[k], es[k])
    decreases |es|
  {
    hide After;
    if es == [] then [s]
    else
      var front := Through(s, es[..|es| - 1]);
      front + [After(front[|es| - 1], es[|es| - 1])]
  }

  function End(s: State, es: seq<Event>): State
    decreases |es|
  {
    if es == [] then s else After(End(s, es[..|es| - 1]), es[|es| - 1])
  }

  lemma {:induction false} ThroughEnds(s: State, es: seq<Event>)
    ensures Last(Through(s, es)) == End(s, es)
    decreases |es|
  {
    if es != [] { ThroughEnds(s, es[..|es| - 1]); }
  }

  lemma {:induction false} EndJoin(s: State, a: seq<Event>, b: seq<Event>)
    ensures End(s, a + b) == End(End(s, a), b)
    decreases |b|
  {
    if b == [] {
      assert a + b == a;
    } else {
      assert (a + b)[..|a + b| - 1] == a + b[..|b| - 1];
      EndJoin(s, a, b[..|b| - 1]);
    }
  }

  lemma EndFour(s: State, e: Event, f: Event, g: Event, h: Event)
    ensures End(s, [e, f, g, h]) == After(After(After(After(s, e), f), g), h)
  {
    hide After, End;
    EndLast(s, [], e);
    EndLast(s, [e], f);
    EndLast(s, [e, f], g);
    EndLast(s, [e, f, g], h);
    assert [] + [e] == [e] && [e] + [f] == [e, f] && [e, f] + [g] == [e, f, g] && [e, f, g] + [h] == [e, f, g, h];
  }

  lemma EndLast(s: State, es: seq<Event>, e: Event)
    ensures End(s, es + [e]) == After(End(s, es), e) && End(s, []) == s
  {
    assert (es + [e])[..|es + [e]| - 1] == es;
  }

  const ONE := Selection(AutoSelect, Some(1), false)
  const TWO := Selection(AutoSelect, Some(2), true)
  const THREE := Selection(AutoSelect, Some(3), true)

  const INCOMPLETE := Build(0, 1, false)
  const OUTDATED := Build(1, 2, true)

  const SELECTED := [Acquire, Analyzed(false), StartSelecting, Decide(AutoSelect, 1, false)]
  /** Two builders read the first selection, and one asks for the input it lacks. */
  const ASKED := [ReadSelection(0), ReadSelection(1), FinishBuild(0), AnswerInput]
  /** A third reads the second selection; then the other of the two asks again. */
  const ASKED_AGAIN := [StartSelecting, Decide(AutoSelect, 2, true), ReadSelection(2), FinishBuild(1)]
  /** The answer brings a third selection, and only then the third builder commits. */
  const OVERTAKEN := [AnswerInput, StartSelecting, Decide(AutoSelect, 3, true), FinishBuild(2)]
  const PLANNED := [ReadBuild(0), FinishPlan(0), ReadPlan(0), FinishValidation(0, Accept)]

  const S1 := State(Rows(BuildingParameters, None, [ONE], [], [], []), map[])
  const S2 := State(Rows(Retrieving, None, [ONE], [INCOMPLETE], [], []), map[1 := Building(0)])
  const ALL_READ := State(Rows(BuildingParameters, None, [ONE, TWO], [INCOMPLETE], [], []), map[1 := Building(0), 2 := Building(1)])
  const S3 := State(Rows(Status.WaitingInput, Some(MissingParameter), [ONE, TWO], [INCOMPLETE, INCOMPLETE], [], []),
                    map[2 := Building(1)])
  const S4 := State(Rows(Planning, None, [ONE, TWO, THREE], [INCOMPLETE, INCOMPLETE, OUTDATED], [], []), map[])
  const S5 := State(S4.rows.(status := Status.Ready, plans := [PlanRun(2, 2)], validations := [Validation(0, Accept)]), map[])

  lemma FirstSelection()
    ensures End(START, SELECTED) == S1
  {
    EndFour(START, Acquire, Analyzed(false), StartSelecting, Decide(AutoSelect, 1, false));
  }

  lemma InputAsked()
    ensures End(S1, ASKED) == S2
  {
    EndFour(S1, ReadSelection(0), ReadSelection(1), FinishBuild(0), AnswerInput);
    hide After;
    BothRead();
    FirstCommits(After(After(S1, ReadSelection(0)), ReadSelection(1)));
  }

  lemma BothRead()
    ensures After(After(S1, ReadSelection(0)), ReadSelection(1)) == S1.(jobs := map[0 := Building(0), 1 := Building(0)])
  {
  }

  lemma FirstCommits(s: State)
    requires s == S1.(jobs := map[0 := Building(0), 1 := Building(0)])
    ensures After(After(s, FinishBuild(0)), AnswerInput) == S2
  {
    assert s.jobs - {0} == map[1 := Building(0)];
  }

  lemma AskedAgain()
    ensures End(S2, ASKED_AGAIN) == S3
  {
    EndFour(S2, StartSelecting, Decide(AutoSelect, 2, true), ReadSelection(2), FinishBuild(1));
    hide After;
    SecondSelection();
    SecondCommits();
  }

  lemma SecondSelection()
    ensures After(After(After(S2, StartSelecting), Decide(AutoSelect, 2, true)), ReadSelection(2)) == ALL_READ
  {
    assert After(After(S2, StartSelecting), Decide(AutoSelect, 2, true))
      == State(Rows(BuildingParameters, None, [ONE, TWO], [INCOMPLETE], [], []), map[1 := Building(0)]);
  }

  lemma SecondCommits()
    ensures After(ALL_READ, FinishBuild(1)) == S3
  {
    assert ALL_READ.jobs - {1} == map[2 := Building(1)];
  }

  lemma Overtaken()
    ensures End(S3, OVERTAKEN) == S4
  {
    EndFour(S3, AnswerInput, StartSelecting, Decide(AutoSelect, 3, true), FinishBuild(2));
    var r := After(After(After(S3, AnswerInput), StartSelecting), Decide(AutoSelect, 3, true));
    assert r == State(Rows(BuildingParameters, None, [ONE, TWO, THREE], [INCOMPLETE, INCOMPLETE], [], []), map[2 := Building(1)]);
    assert r.jobs - {2} == map[];
  }

  lemma PlanStored()
    ensures var p := After(After(S4, ReadBuild(0)), FinishPlan(0));
      p == State(S4.rows.(status := Validating, plans := [PlanRun(2, 2)]), map[])
  {
    var b := After(S4, ReadBuild(0));
    assert b == S4.(jobs := map[0 := Generating(2)]);
    assert b.jobs - {0} == map[];
  }

  lemma PlanAccepted(s: State)
    requires s == State(S4.rows.(status := Validating, plans := [PlanRun(2, 2)]), map[])
    ensures After(After(s, ReadPlan(0)), FinishValidation(0, Accept)) == S5
  {
    assert PlanAgrees(s.rows, 0);
    var c := After(s, ReadPlan(0));
    assert c == s.(jobs := map[0 := Checking(0, true)]);
    assert c.jobs - {0} == map[];
  }

  lemma Planned()
    ensures End(S4, PLANNED) == S5
  {
    hide After;
    EndFour(S4, ReadBuild(0), FinishPlan(0), ReadPlan(0), FinishValidation(0, Accept));
    PlanStored();
    PlanAccepted(After(After(S4, ReadBuild(0)), FinishPlan(0)));
  }

  /** There is a run that becomes READY with the tool of the second selection although the
      newest chose another. */
  lemma OldSelectionBecomesReady() returns (ss: seq<State>, es: seq<Event>)
    ensures IsRun(ss, es)
    ensures var t := Last(ss).rows;
      t.status.Ready? && t.plans == [PlanRun(2, 2)] && t.selections == [ONE, TWO, THREE] && THREE.tool == Some(3)
  {
    hide End, After, Through;
    es := SELECTED + (ASKED + (ASKED_AGAIN + (OVERTAKEN + PLANNED)));
    ss := Through(START, es);
    ThroughEnds(START, es);
    FirstSelection();
    EndJoin(START, SELECTED, ASKED + (ASKED_AGAIN + (OVERTAKEN + PLANNED)));
    InputAsked();
    EndJoin(S1, ASKED, ASKED_AGAIN + (OVERTAKEN + PLANNED));
    AskedAgain();
    EndJoin(S2, ASKED_AGAIN, OVERTAKEN + PLANNED);
    Overtaken();
    EndJoin(S3, OVERTAKEN, PLANNED);
    Planned();
  }
}
