/** The planning pipeline seen from outside: which status follows which, what brings a request
    into each status, and what the requester is asked. */
module PipelineLaws {
  import opened ExecutionRows
  import opened PlanningPipeline
  import opened PipelineRuns

  /** The documented order of statuses, with its two gates and its four ends. */
  predicate Follows(a: Status, b: Status) {
    match a
    case Received => b.Analyzing? || b.Cancelled?
    case Analyzing => b.Retrieving? || b.WaitingInput? || b.Received? || b.Failed? || b.Cancelled?
    case Retrieving => b.Selecting? || b.Rejected? || b.Failed? || b.Cancelled?
    case Selecting => b.BuildingParameters? || b.WaitingConfirmation? || b.WaitingInput? || b.Rejected? || b.Failed? || b.Cancelled?
    case BuildingParameters => b.Planning? || b.WaitingInput? || b.Failed? || b.Cancelled?
    case Planning => b.Validating? || b.Failed? || b.Cancelled?
    case Validating => b.Ready? || b.WaitingConfirmation? || b.Rejected? || b.Failed? || b.Cancelled?
    case WaitingInput => b.Retrieving? || b.Cancelled?
    case WaitingConfirmation => b.BuildingParameters? || b.Validating? || b.Cancelled?
    case _ => false
  }

  /** No event takes a request anywhere else. */
  lemma StatusesFollow(s: State, e: Event)
    ensures var t, r := s.rows, After(s, e).rows;
      r.status == t.status || Follows(t.status, r.status)
  {
  }

  /** A stage at work whose commit finds the status it expects. */
  predicate OnTime(s: State, e: Event) {
    match e
    case FinishBuild(job) => s.rows.status.BuildingParameters? && job in s.jobs && s.jobs[job].Building?
    case FinishPlan(job) => s.rows.status.Planning? && job in s.jobs && s.jobs[job].Generating?
    case FinishValidation(job, _) => s.rows.status.Validating? && job in s.jobs && s.jobs[job].Checking?
    case _ => false
  }

  /** The selection a build on its way was made from fills the inputs. */
  predicate BuildsComplete(s: State, e: Event) {
    && e.FinishBuild? && e.job in s.jobs && s.jobs[e.job].Building?
    && s.jobs[e.job].selection < |s.rows.selections| && s.rows.selections[s.jobs[e.job].selection].fills
  }

  /** What it takes to bring a request of a sound state into a status it was not in. */
  predicate Brings(s: State, e: Event, b: Status) {
    var t := s.rows;
    match b
    case Received => e.Release?
    case Analyzing => e.Acquire?
    case Retrieving => (e.Analyzed? && !e.needsClarification) || (e.AnswerInput? && t.open == Some(MissingParameter))
    case Selecting => e.StartSelecting?
    case BuildingParameters =>
      || (e.Decide? && e.decision.AutoSelect?)
      || (e.AnswerTool? && e.yes && t.open == Some(ToolConfirmation))
    case Planning => OnTime(s, e) && BuildsComplete(s, e)
    case Validating => (OnTime(s, e) && e.FinishPlan?) || (e.AnswerPlan? && e.yes && t.open == Some(PlanConfirmation))
    case WaitingInput =>
      || (e.Analyzed? && e.needsClarification)
      || (e.Decide? && e.decision.Clarify?)
      || (OnTime(s, e) && e.FinishBuild? && !BuildsComplete(s, e))
    case WaitingConfirmation =>
      (e.Decide? && e.decision.Confirm?) || (OnTime(s, e) && e.FinishValidation? && e.verdict.AskConfirmation?)
    case Ready => OnTime(s, e) && e.FinishValidation? && e.verdict.Accept?
    case Rejected =>
      || e.NothingRetrieved?
      || (e.Decide? && e.decision.NoMatch?)
      || (OnTime(s, e) && e.FinishValidation? && e.verdict.Reject?)
    case Failed => e.FailStage? || (OnTime(s, e) && e.FinishValidation? && e.verdict.Fail?)
    case Cancelled =>
      || e.Cancel?
      || (e.AnswerTool? && !e.yes && t.open == Some(ToolConfirmation))
      || (e.AnswerPlan? && !e.yes && t.open == Some(PlanConfirmation))
  }

  /** In a sound state every stage finds the rows it needs, so no stage fails a request for
      rows out of order, and no plan is found inconsistent with its build. */
  lemma SourcesAreThere(s: State)
    requires Inv(s)
    ensures var t := s.rows;
      && (t.status.BuildingParameters? ==> BuildSource(t))
      && (t.status.Planning? ==> PlanSource(t))
      && (t.status.Validating? ==> CheckSource(t) && PlanAgrees(t, |t.plans| - 1))
  {
    var t := s.rows;
    if t.status.Planning? { assert BuildAgrees(t, |t.builds| - 1); }
    if t.status.Validating? { assert PlanAgrees(t, |t.plans| - 1); }
  }

  /** A request changes its status only by what brings it there, and a commit that is on time
      always changes it. */
  lemma Entering(s: State, e: Event)
    requires Inv(s) && Checked(s)
    ensures var t, r := s.rows, After(s, e).rows;
      && (r.status != t.status ==> Brings(s, e, r.status))
      && (OnTime(s, e) ==> r.status != t.status)
  {
    SourcesAreThere(s);
    if OnTime(s, e) { assert JobSound(s.rows, s.jobs[e.job]); }
    hide EvidenceAgrees, StatusAgrees, BuildSource, PlanSource, CheckSource, PlanAgrees;
  }

  /** Validators at work have found their plan consistent. */
  ghost predicate Checked(s: State) {
    forall job :: job in s.jobs && s.jobs[job].Checking? ==> s.jobs[job].checked
  }

  lemma CheckedKept(s: State, e: Event)
    requires Inv(s) && Checked(s)
    ensures Checked(After(s, e))
  {
    SourcesAreThere(s);
    hide EvidenceAgrees, StatusAgrees, PlanAgrees;
  }

  lemma {:induction false} RunChecked(ss: seq<State>, es: seq<Event>, k: nat)
    requires IsRun(ss, es) && k < |ss|
    ensures Inv(ss[k]) && Checked(ss[k])
  {
    RunKeeps(ss, es, k);
    if k > 0 {
      RunChecked(ss, es, k - 1);
      hide Inv, Checked, After;
      CheckedKept(ss[k - 1], es[k - 1]);
    }
  }

  /** Over every run: each change of status is a listed one, made by what brings it about. */
  lemma RunEnters(ss: seq<State>, es: seq<Event>, k: nat)
    requires IsRun(ss, es) && k < |es| && ss[k + 1].rows.status != ss[k].rows.status
    ensures Follows(ss[k].rows.status, ss[k + 1].rows.status) && Brings(ss[k], es[k], ss[k + 1].rows.status)
  {
    RunChecked(ss, es, k);
    hide After, Inv, Checked, Brings, Follows;
    StatusesFollow(ss[k], es[k]);
    Entering(ss[k], es[k]);
  }

  // ---- what is asked, and what is on record -------------------------------------------------------

  /** The status and the question agree with the newest evidence. */
  ghost predicate Explained(t: Rows) {
    && (t.status.WaitingInput? && t.open == Some(MissingParameter) ==>
          || (t.selections != [] && Last(t.selections).decision.Clarify?)
          || (t.builds != [] && !Last(t.builds).complete))
    && (t.status.WaitingConfirmation? && t.open == Some(ToolConfirmation) ==>
          t.selections != [] && Last(t.selections).decision.Confirm?)
    && (t.status.WaitingConfirmation? && t.open == Some(PlanConfirmation) ==>
          t.validations != [] && Last(t.validations) == Validation(0, AskConfirmation))
    && (t.status.BuildingParameters? ==>
          t.selections != [] && (Last(t.selections).decision.AutoSelect? || Last(t.selections).decision.Confirm?))
    && (t.status.Rejected? ==>
          || (t.selections != [] && Last(t.selections).decision.NoMatch?)
          || (t.validations != [] && Last(t.validations) == Validation(0, Verdict.Reject)))
  }

  lemma ExplainedKept(s: State, e: Event)
    requires Inv(s) && Checked(s) && Explained(s.rows)
    ensures Explained(After(s, e).rows)
  {
    SourcesAreThere(s);
    if OnTime(s, e) { assert JobSound(s.rows, s.jobs[e.job]); }
    hide EvidenceAgrees, BuildSource, PlanSource, CheckSource, PlanAgrees;
  }

  /** Over every run: a question is asked for what the newest evidence lacks or wants confirmed,
      parameters are built for a tool selected or confirmed, and a REJECTED request has the
      refusal on record. */
  lemma {:induction false} RunExplained(ss: seq<State>, es: seq<Event>, k: nat)
    requires IsRun(ss, es) && k < |ss|
    ensures Explained(ss[k].rows)
  {
    if k > 0 {
      RunExplained(ss, es, k - 1);
      RunChecked(ss, es, k - 1);
      hide Inv, Checked, Explained, After;
      ExplainedKept(ss[k - 1], es[k - 1]);
    }
  }

  /** What is asked by each decision and verdict that asks. */
  lemma QuestionsAsked(s: State, e: Event)
    requires Inv(s) && Checked(s)
    ensures var t, r := s.rows, After(s, e).rows;
      r.status != t.status ==>
        && ((e.Decide? && e.decision.Clarify?) || e.FinishBuild? ==>
              r.open == if r.status.WaitingInput? then Some(MissingParameter) else None)
        && (e.Decide? && e.decision.Confirm? ==> r.open == Some(ToolConfirmation))
        && (e.FinishValidation? && e.verdict.AskConfirmation? ==> r.open == Some(PlanConfirmation))
        && (e.AnswerInput? || e.AnswerTool? || e.AnswerPlan? ==> r.open == None)
  {
    hide EvidenceAgrees, PlanAgrees;
  }

  // ---- what is written, and what fails closed -------------------------------------------------------

  /** Evidence written by one event: the row it is about, once, under what was decided, built,
      planned or found; and no other. */
  ghost predicate Writes(s: State, e: Event, r: Rows) {
    var t := s.rows;
    && r.selections == t.selections + (
         if e.Decide? && t.status.Selecting? then [Selection(e.decision, if e.decision.NoMatch? then None else Some(e.tool), e.fills)]
         else if e.NothingRetrieved? && t.status.Retrieving? then [Selection(NoMatch, None, false)]
         else [])
    && r.builds == t.builds + (
         if OnTime(s, e) && e.FinishBuild? && JobSound(t, s.jobs[e.job]) then
           var from := s.jobs[e.job].selection;
           [Build(from, t.selections[from].tool.value, t.selections[from].fills)]
         else [])
    && r.plans == t.plans + (
         if OnTime(s, e) && e.FinishPlan? && JobSound(t, s.jobs[e.job]) then
           [PlanRun(s.jobs[e.job].build, t.builds[s.jobs[e.job].build].tool)]
         else [])
    && r.validations == t.validations + (
         if OnTime(s, e) && e.FinishValidation? then
           [Validation(s.jobs[e.job].plan, if s.jobs[e.job].checked then e.verdict else Verdict.Fail)]
         else [])
  }

  lemma EvidenceWritten(s: State, e: Event)
    requires Inv(s)
    ensures Writes(s, e, After(s, e).rows)
  {
    hide EvidenceAgrees, StatusAgrees, PlanAgrees;
    if OnTime(s, e) { assert JobSound(s.rows, s.jobs[e.job]); }
  }

  /** Rows out of order, whatever brought them about: a stage that meets them fails the request
      instead of starting on them, and a plan found inconsistent fails instead of passing. */
  lemma FailsClosed(s: State, job: JobId, verdict: Verdict)
    ensures var t := s.rows;
      var noTool := t.open == Some(MissingParameter) || t.selections == [] || Last(t.selections).tool.None?;
      t.status.BuildingParameters? ==>
        After(s, ReadSelection(job)) ==
          if noTool then s.(rows := t.(status := Status.Failed)) else s.(jobs := s.jobs[job := Building(|t.selections| - 1)])
    ensures var t := s.rows;
      var noBuild := t.builds == [] || !Last(t.builds).complete || Last(t.builds).selection >= |t.selections|
        || t.selections[Last(t.builds).selection].tool != Some(Last(t.builds).tool);
      t.status.Planning? ==>
        After(s, ReadBuild(job)) ==
          if noBuild then s.(rows := t.(status := Status.Failed)) else s.(jobs := s.jobs[job := Generating(|t.builds| - 1)])
    ensures var t := s.rows;
      t.status.Validating? && (t.open.Some? || t.plans == []) ==>
        After(s, ReadPlan(job)) == s.(rows := t.(status := Status.Failed))
    ensures var t := s.rows;
      t.status.Validating? && t.open.None? && t.plans != [] ==>
        && After(s, ReadPlan(job)).rows == t && job in After(s, ReadPlan(job)).jobs
        && After(s, ReadPlan(job)).jobs[job].Checking? && After(s, ReadPlan(job)).jobs[job].plan == |t.plans| - 1
        && (After(s, ReadPlan(job)).jobs[job].checked <==>
              && Last(t.plans).build < |t.builds| && t.builds[Last(t.plans).build].complete
              && t.builds[Last(t.plans).build].tool == Last(t.plans).primary)
    ensures s.rows.status.Validating? && job in s.jobs && s.jobs[job].Checking? && !s.jobs[job].checked ==>
      After(s, FinishValidation(job, verdict)).rows.status.Failed?
  {
  }
}
