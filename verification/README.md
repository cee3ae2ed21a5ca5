# MCPFlow control plane, modelled in Dafny

MCPFlow plans and runs tool-calling executions. This project models the parts of it whose
correctness does not show in any one function and proves what they promise together:

- **Executions under cancellation and approval.** An Execution owns Steps, Steps own Attempts,
  Attempts own ToolCalls, and ApprovalRequests hang off Steps. `ExecutionRows` has the rows as values;
  `CancellationRules` and `ApprovalRules` say what one locked service call does to them;
  `ExecutionStore`, `CancellationService` and `ApprovalService` have the same rows as mutable objects
  and the services as methods that assign fields in loops, each proved to do exactly what its rule says.
  `CancellationLaws`, `VotingLaws`, `ExecutionInvariants`, `ApprovalLaws`, `ExecutionRuns` and `NeverHides`
  prove the properties: of one call, of every step, and of every run of interleaved calls. `CancellationOutcomes`
  and `ApprovalOutcomes` say what each call leaves, row by row, without the rules.
- **The plan validator.** `PlanModel`, `PlanGraph`, `PlanValidator`, `PlanSchedule` and `PlanRules`: the cycle search,
  the breadth-first search, the two ancestor walks, LOOP bodies and binding visibility, and the
  linear order every accepted plan has (`PlanSchedule.ExampleAccepted` is one with a LOOP),
  and what acceptance means of the Steps alone.
- **JSON Pointers and the list-to-detail pair.** `JsonPointer`, `Handoff` and `PairPlan` (in
  `Handoff.dfy`) and `PairLaws`: RFC 6901 escaping both ways, the one id handed over, and the agreement of the plan
  generator with the plan validator.
- **The planning pipeline.** `PlanningPipeline` and `PipelineRuns` (in `PlanningPipeline.dfy`) and `PipelineLaws`: five stages
  that read, work and commit evidence together with a compare-and-set of the request status.
- **Three algorithms.** `AuditSanitizer` with `SanitizerLaws` and `AuditJson` (the JSON text and its real size),
  `ApproverScope`, and `EntityAlignment` with `AlignmentLaws`. `Text` has the trimming, folding and reading of integers
  they share with the handoff, `Runs` one lemma on runs.

Where the code does not do what it, or a comment beside it, promises, the code is modelled as it is,
a lemma gives an input that shows the gap, and another says exactly when the promise holds:

- `cancellation.py:441-446` says cancellation must never hide ambiguous external side effects, and item 7 of
  `docs/04-agent-mcp-architecture.md:1843` that an unknown outcome outranks it. The immediate branch of a cancel asks only
  for calls in flight. Met by a cancel before its wave is settled, a Step of unknown outcome ends under a
  clean CANCELLED (`NeverHides.CancelHidesUnknown`). A CANCELLED Execution carries no unknown outcome over a run if and
  only if no cancel meets a live Execution that has one while no call is in flight (`NeverHides.RunNeverHides`);
  one call each: `CancellationLaws.ApplyHides`, `CancellationLaws.ReconcileHides`. Recovery never hides one (`CancellationLaws.RecoveryNeverHides`).
- `approval_resume.py:102` calls a late delivery a no-op. Delivered again while another Step of the
  same Execution waits, the resume message of an authorable request fails the Execution, marks its own
  finished Step FAILED and leaves the other request PENDING (`ExecutionRuns.LateDuplicateBreaksTheWait`).
  The invariant holds over a run if and only if no such delivery is processed (`ExecutionRuns.RunSafety`).
- Entering a wait does not look for calls in flight. Entered over one, a later cancellation reports
  CANCELLED while the call is out (`ApprovalLaws.ParkedCallIsHidden`); `ApprovalLaws.EnterKeeps` has the condition.
- The pointer subset carries no empty name and no `#`. A handoff over such a name yields a plan that does
  not parse (`PairPlan.UncleanNameFails`; conditions in `PairPlan.BuiltPairAccepted` and `JsonPointer.PrintParse`).
- The conversion of an explicit id guards `int` with `isdigit` and raises all the same: on `--5`, on a superscript two, on
  4301 nines (`Handoff.TwoDashesRaise`, `Handoff.SuperscriptRaises`, `Handoff.LongDigitsRaise`; condition in `Handoff.CoerceRaises`).
- `json_pointer.py:47-51` says an index out of range is MISSING. An index of more than 4300 digits, or with a digit that
  is not decimal, raises (`JsonPointer.LongIndexRaises`, condition in `JsonPointer.FollowRaises`).
- Sanitizing an audit payload is not idempotent on a value in which a container at the last permitted depth
  has to be collapsed (`AuditJson.IdempotenceFails`, condition on the value in `AuditSanitizer.SanitizeTwice`).
- `visibility_sql.py:3` promises the inbox matches the decide call exactly. It trims spaces and the decide
  call all white space, so they disagree on codes with tabs around them (`ApproverScope.TabsDisagree`, condition in `ApproverScope.InboxAgrees`).
- A planning stage is not locked from read to commit. A parameter build made from a superseded selection
  can become READY although the newest chose another tool (`PipelineRuns.OldSelectionBecomesReady`, condition in `PipelineRuns.RunUsesNewest`).

One more boundary is not a failure of the code: recovery of an expired lease leaves an Attempt STARTED that has
no ambiguous call beside one of unknown outcome (`ExecutionInvariants.AttemptLeftStarted` has the condition,
`ExecutionInvariants.AttemptLeftBehind` a tree). Whoever records an unknown outcome records it in call, Attempt and Step
together (`tool_runner.py:2042-2060`, `recovery.py:501-525`); where that holds no Attempt is left
(`ExecutionInvariants.NoAttemptLeftStarted`), and it holds over every run that starts so (`NeverHides.RunShowsEvidence`).

## Model

| member | source | states |
|---|---|---|
| CancellationService.ApplyCancellation | backend/app/execution/cancellation.py:348-433 | the cancel call, row by row in place, leaves exactly the tree and answer of the rule, for every tree |
| CancellationService.CancelSafeNonterminalSteps | backend/app/execution/cancellation.py:245-270 | every Step is cancelled unless it is terminal or RUNNING with a call in flight; the preserve set adds nothing to what the loop finds |
| CancellationService.Reconcile | backend/app/execution/cancellation.py:436-521 | waits for calls in flight, else ends FAILED with the first unknown Step's code, or CANCELLED |
| CancellationService.SettleInputRequired | backend/app/execution/cancellation.py:305-345 | settles the call as succeeded, closes its Attempt and Step, raises the cancellation if needed and reconciles |
| CancellationService.CancelBeforeSend | backend/app/execution/cancellation.py:524-562 | cancels a prepared call that has not been sent, with its Attempt and Step, and reconciles |
| CancellationService.RecoverExpired | backend/app/execution/cancellation.py:565-742 | both passes over the tree, the reconciliation and the restored cancel mark give the rule's tree |
| CancellationService.SetCancelMetadataOnce | backend/app/execution/cancellation.py:273-284 | the cancel mark is written only where there was none |
| CancellationLaws.CancelSplits | backend/app/execution/cancellation.py:348-433 | where calls are in flight only in RUNNING Steps of RUNNING Executions and Attempts STARTED only in Steps at work or waiting: with no call in flight it ends CANCELLED, all Steps terminal, nothing STARTED, pending, open or leased; otherwise CANCEL_REQUESTED with the lease kept and open exactly the Steps with a call in flight; no call is touched; it ends CANCELLED over an unknown outcome if and only if there was one and no call was in flight |
| CancellationLaws.ApplyHides | backend/app/execution/cancellation.py:395-413 | a cancel neither adds nor removes unknown outcomes, and hides one under CANCELLED if and only if there is one and no call is in flight |
| CancellationLaws.ReconcileHides | backend/app/execution/cancellation.py:436-521 | reconciling hides one if and only if there is one, no call is in flight and no Step status shows it |
| CancellationLaws.RecoveryTerminates | backend/app/execution/cancellation.py:565-742 | recovery always ends: FAILED exactly when some evidence was ambiguous, CANCELLED otherwise; only STARTED calls change; the cancel mark stays; every Step ends terminal |
| CancellationLaws.RecoveryNeverHides | backend/app/execution/cancellation.py:565-742 | recovery ends CANCELLED only where no evidence was ambiguous, and leaves none under it |
| NeverHides.StepIsClean | backend/app/execution/cancellation.py:441-446 | after any call by anyone, the settling of calls included, unknown outcomes still show in Step statuses, and a CANCELLED Execution hides one if and only if the call is a cancel that met one with no call in flight |
| NeverHides.RunNeverHides | backend/app/execution/cancellation.py:348-562 | over every run a CANCELLED Execution carries no unknown outcome if and only if no such cancel occurs |
| NeverHides.RunShowsEvidence | backend/app/execution/tool_runner.py:2042-2060 | over every run unknown outcomes below a Step of a live Execution show in the Step's status |
| NeverHides.CancelHidesUnknown | backend/app/execution/tool_runner.py:222-235 | a run of three events: in a wave one outcome stays unknown, its sibling succeeds, and a cancel ends CANCELLED over it |
| CancellationOutcomes.CancelLeaves | backend/app/execution/cancellation.py:348-433 | every row after a cancel of a live Execution, Attempts, Steps, questions and the mark included, by its row before: what had a call in flight is left, what was over is left, the rest is called off now without an error, and the first cancel leaves time, actor and reason |
| CancellationOutcomes.CancelAgain | backend/app/execution/cancellation.py:362-378 | a cancel repeated by anyone at any time changes nothing and is answered as idempotent; one on an Execution that ended otherwise is refused |
| CancellationOutcomes.ReconcileLeaves | backend/app/execution/cancellation.py:436-521 | every row after a reconciliation with nothing in flight; the Execution ends with the code of its first Step of unknown outcome, or none |
| CancellationOutcomes.SettleLeaves | backend/app/execution/cancellation.py:305-345 | the call is on record as SUCCEEDED though its Attempt and Step are called off; while another call is out all else waits, otherwise it is swept and ends FAILED if and only if some Step has an unknown outcome |
| CancellationOutcomes.BeforeSendLeaves | backend/app/execution/cancellation.py:524-562 | the same for a call not sent, which is CANCELLED; a call settled before keeps its record |
| CancellationOutcomes.RecoverLeaves | backend/app/execution/cancellation.py:565-742 | every row after recovery by the evidence before: an Attempt with a STARTED call ends UNKNOWN_OUTCOME with the recovery code, a STARTED one with a call of unknown outcome so under its own code, held by nobody; one of unknown outcome stays; in a Step without ambiguous evidence STARTED ones end CANCELLED if the Step was at work and all others stay; Steps, questions, mark and the code the Execution ends with likewise |
| CancellationOutcomes.AnswersTellTheRow | backend/app/execution/cancellation.py:91-103 | what a call answers is what the row says |
| CancellationOutcomes.StatusesMean | backend/app/execution/cancellation.py:39-65 | a Step or an Execution is terminal if and only if it is none of the live statuses; ambiguous evidence is an unknown outcome anywhere or a STARTED call |
| ExecutionInvariants.NoAttemptLeftStarted | backend/app/execution/cancellation.py:628-742 | recovery leaves no Attempt STARTED where unknown outcomes show in Step statuses |
| ExecutionInvariants.AttemptLeftStarted | backend/app/execution/cancellation.py:628-742 | an Attempt stays STARTED through recovery if and only if it has no ambiguous call and its Step has ambiguous evidence elsewhere |
| ExecutionInvariants.AttemptLeftBehind | backend/app/execution/cancellation.py:628-742 | a tree within the invariant where one does |
| ExecutionInvariants.InvariantMeans | backend/alembic/versions/20260922_0017_approval_requests.py:109-132 | at most one PENDING request, PENDING only while its Step and Execution wait without a lease, one waiting Step whose newest request is PENDING or APPROVED, RUNNING with a full lease, APPROVED with enough distinct approvers, REJECTED with enough distinct rejecters, PENDING with neither, no more votes than the mode allows |
| ExecutionInvariants.ApplyKeeps | backend/app/execution/cancellation.py:348-433 | cancelling keeps the invariant, the history and every terminal Step |
| ExecutionInvariants.RecoverKeeps | backend/app/execution/cancellation.py:565-742 | recovery keeps the invariant, and a terminal Step changes only by being promoted to UNKNOWN_OUTCOME |
| ApprovalService.AggregateDecision | backend/app/approval/decision.py:105-150 | counts the votes and returns the verdict of the mode, or none yet, or the error for a threshold below one |
| ApprovalService.Decide | backend/app/approval/decision.py:163-441 | the decide call in place: every refusal, the expiry on arrival, the vote and its verdict, as the rule has them |
| ApprovalService.FailExecution | backend/app/approval/decision.py:481-513 | fails the Step and the Execution, clears the lease and, for an authorable request among several Steps, skips and cancels what never started |
| ApprovalService.StopSteps | backend/app/execution/dag.py:1061-1105 | skipping PENDING Steps and then cancelling unused READY tools is one pass that does the right one of both to each Step |
| ApprovalService.EnterForTool | backend/app/approval/wait.py:56-204 | reuses a wait, refuses, or adds one PENDING request and parks Step and Execution without a lease |
| ApprovalService.EnterForApproval | backend/app/approval/wait.py:206-348 | the same for an APPROVAL Step at its checkpoint |
| ApprovalService.ExpireDueBatch | backend/app/approval/expiry.py:34-174 | a sweep over candidates of many Executions leaves each as if its own candidates had been swept alone, and counts as expired exactly the Executions it changed |
| ApprovalLaws.SweepExpiresOnce | backend/app/approval/expiry.py:54-171 | an Execution expires at most once in a batch, by the first listed request that is due, and is left alone if and only if none is |
| ApprovalService.Claim | backend/app/execution/approval_resume.py:77-330 | the resume claim in place, on both paths, as the rule has it |
| ApprovalLaws.ClaimSucceeds | backend/app/execution/approval_resume.py:203-330 | a claim succeeds only for an APPROVED request of a waiting Step with no PENDING request, and installs one fresh full lease |
| ApprovalLaws.ClaimKeeps | backend/app/execution/approval_resume.py:77-330 | a delivery keeps the invariant if and only if it is not a hazard |
| ApprovalLaws.EnterKeeps | backend/app/approval/wait.py:56-204 | entering a wait for a tool keeps the invariant if and only if no call is in flight |
| ApprovalLaws.EnterApprovalKeeps | backend/app/approval/wait.py:206-348 | the same for an APPROVAL Step |
| ApprovalLaws.ParkedCallIsHidden | backend/app/approval/wait.py:400-406 | a wait entered over a call in flight and then cancelled is CANCELLED with the call still out |
| ApprovalLaws.DecideKeeps | backend/app/approval/decision.py:199-441 | a decision keeps the invariant and never changes a terminal status |
| VotingLaws.VotingEnds | backend/app/approval/decision.py:105-150 | ANY takes one vote, ALL at most the threshold, QUORUM at most twice the threshold less one, and then there is a verdict |
| VotingLaws.ThresholdsExclude | backend/app/approval/decision.py:124-150 | the two thresholds are never both crossed |
| VotingLaws.VerdictIgnoresOrder | backend/app/approval/decision.py:118-150 | the verdict depends on the multiset of votes only |
| VotingLaws.ApprovedByEnough | backend/app/approval/decision.py:297-325 | APPROVED means that many distinct approvers, one for ANY |
| VotingLaws.VerdictByVoters | backend/app/approval/decision.py:105-150 | with one vote each, APPROVED if and only if enough different people approved, REJECTED if and only if enough rejected (one for ANY and ALL, the required number for QUORUM), and no verdict if and only if neither |
| VotingLaws.QuorumIsSymmetric | backend/app/approval/decision.py:139-144 | if everyone votes the other way under QUORUM so does the verdict |
| ApprovalOutcomes.DecideLeaves | backend/app/approval/decision.py:199-441 | a vote counts if and only if its actor may cast it then; the request is decided if and only if the voters on its side now reach their number, and then the rows are those of an approval or of a rejection; a vote after the deadline closes the request, and every other refusal changes nothing |
| ApprovalOutcomes.RefusalTells | backend/app/approval/decision.py:222-296 | which error a refused vote gets |
| ApprovalOutcomes.DeadlineSplits | backend/app/approval/decision.py:232-250 | from the deadline on, and not before, sweep and decide call close a request, and leave the very same rows |
| ApprovalOutcomes.SweepLeaves | backend/app/approval/expiry.py:54-171 | a sweep looks at the first candidates up to its limit; an Execution is left alone if none of its own there is overdue, and else ends EXPIRED for the first that is |
| ApprovalOutcomes.EnterForToolLeaves | backend/app/approval/wait.py:56-204 | when a tool wait is entered, reused or refused, and the request it adds, under the policy's mode, number and time |
| ApprovalOutcomes.EnterForApprovalLeaves | backend/app/approval/wait.py:206-348 | the same for an APPROVAL Step |
| ApprovalOutcomes.ClaimLeaves | backend/app/execution/approval_resume.py:77-330 | a delivery resumes if and only if its request is approved, its Step waits for nothing else and everything is intact, and then the worker holds the lease for as long as it asked; it fails the Execution if and only if the preflight refuses or an authorable request is out of shape; in all other cases it changes nothing |
| ExecutionRuns.StepKeeps | backend/app/execution/approval_resume.py:77-330 | any call by anyone keeps the core invariant and the history, and the full invariant if and only if it is not a hazardous delivery |
| ExecutionRuns.RunSafety | backend/app/execution/approval_resume.py:100-330 | over every run of waits, decisions, expiries, resumes, cancellations, recoveries and other work, the invariant holds throughout if and only if no hazardous delivery is processed |
| ExecutionRuns.RunHistory | backend/app/execution/cancellation.py:273-284 | over every run, terminal Executions stay, the cancel mark is written once, requests never leave a terminal status |
| ExecutionRuns.RunTerminalSteps | backend/app/execution/cancellation.py:158-176 | over every run without hazards a terminal Step changes only by recovery, to UNKNOWN_OUTCOME |
| ExecutionRuns.OneClaimPerEpisode | backend/app/execution/approval_resume.py:102-116 | however often messages are delivered, successful claims never outnumber waiting episodes |
| ExecutionRuns.LateDuplicateBreaksTheWait | backend/app/execution/approval_resume.py:203-233 | six events after which the Execution is FAILED, a finished Step is FAILED and a PENDING request is stranded |
| PlanGraph.HasDependencyCycle | backend/app/agent/complex_plan_validator.py:599-623 | true if and only if the dependency graph has a directed cycle, though visited nodes are shared across starts and starts come in any order |
| PlanGraph.CycleSearch.Visit | backend/app/agent/complex_plan_validator.py:610-621 | reports only real cycles; otherwise the node and all below it are finished and the stack is as it was |
| PlanGraph.ReachableFromRoots | backend/app/agent/complex_plan_validator.py:626-649 | returns exactly the Steps reachable from a root, none when there is no root |
| PlanGraph.EveryStepReachable | backend/app/agent/complex_plan_validator.py:128-141 | with unique ids, existing dependencies and no cycle every Step is reachable from a root |
| PlanGraph.AncestorMap.AncestorsOf | backend/app/agent/complex_plan_validator.py:688-700 | memoised and stack-guarded: never more than the transitive dependencies, and all of them when there is no cycle |
| PlanGraph.TransitiveAncestors | backend/app/agent/complex_plan_validator.py:680-702 | on an acyclic plan with unique ids, the transitive closure of the dependencies |
| PlanGraph.AncestorsAreChains | backend/app/agent/complex_plan_validator.py:680-702 | with unique ids, the ancestors of a Step are the ids a chain of dependencies leads from |
| PlanGraph.TransitiveAncestorKeys | backend/app/approval/step_context.py:258-277 | where no cycle lies above the Step, the walk without a cycle guard ends and returns the ancestors in plan order |
| PlanGraph.WalksForEver | backend/app/approval/step_context.py:266-274 | above a cycle there are walks of any length |
| PlanSchedule.AcceptedWalkEnds | backend/app/approval/step_context.py:258-277 | on an accepted plan the walk ends from every Step |
| PlanGraph.PlanOrderKept | backend/app/approval/step_context.py:276-277 | the filtered list has exactly the wanted ids, in plan order |
| PlanValidator.Validate | backend/app/agent/complex_plan_validator.py:61-298 | no issue is reported if and only if the plan satisfies every rule; duplicate ids, dependency faults, cycles and malformed when clauses are reported under their codes if and only if they are there, and so are limit and binding faults wherever ownership is well defined |
| PlanValidator.CollectOwners | backend/app/agent/complex_plan_validator.py:159-200 | accepts the LOOP bodies if and only if each body Step exists, is not its LOOP and has one owner, and then returns the owners |
| PlanValidator.DepthOf | backend/app/agent/complex_plan_validator.py:712-723 | the depth is within the limit if and only if that few LOOPs enclose the Step, rings of LOOPs included |
| PlanValidator.CheckBindings | backend/app/agent/complex_plan_validator.py:484-581 | no issue if and only if every STEP_OUTPUT source is visible from its reader |
| PlanRules.VisibleMeans | backend/app/agent/complex_plan_validator.py:484-581 | on a plan with unique ids and no cycle a Step may read exactly what is upstream of it, both outside every body or both in one; and from inside a body its LOOP and what is upstream of that outside every body |
| PlanRules.AcceptedMeans | backend/app/agent/complex_plan_validator.py:61-298 | acceptance by the Steps alone, without owner map or ancestor table: existing distinct ids, no cycle of names, the documented limits, what each Step may wait for and read, well-formed LOOPs nested at most three deep, responses outside every body |
| PlanRules.EnclosedMeans | backend/app/agent/complex_plan_validator.py:712-723 | counting owners outwards is counting the longest chain of LOOP bodies |
| PlanSchedule.ExampleAccepted | backend/app/agent/complex_plan_validator.py:551-581 | an accepted plan with two Steps in a LOOP body, of which the second reads the first |
| PlanSchedule.AcceptedPlanSchedules | backend/app/agent/complex_plan_validator.py:61-298 | every accepted plan has a linear order of all Steps with dependencies, owning LOOPs and STEP_OUTPUT sources first; where one of these is a LOOP the Step is not inside, everything inside that LOOP comes first too |
| PlanSchedule.EvidenceComesFirst | backend/app/approval/step_context.py:280-299 | in every such order the Steps whose evidence an APPROVAL Step collects precede it |
| JsonPointer.DecodeEscape | backend/app/execution/json_pointer.py:28-30 | the two-pass decoder undoes the two-pass encoder on every name |
| JsonPointer.DecoderIsOnePass | backend/app/execution/json_pointer.py:28-30 | on a reference token the two passes equal one pass of section 4 of RFC 6901 |
| JsonPointer.EncoderIsOnePass | backend/app/agent/sequential_readonly_pair.py:350-352 | the two encoding passes equal one pass of section 3 of RFC 6901 |
| JsonPointer.PrintParse | backend/app/execution/json_pointer.py:33-43 | printing and parsing returns the names if and only if each is nonempty and has no hash |
| JsonPointer.ParsePrint | backend/app/execution/json_pointer.py:33-43 | every accepted pointer is the printed form of the names it parses to |
| JsonPointer.UncleanRefused | backend/app/schemas/plan_binding.py:24-37 | any other list is refused, but for the single empty name, which reads as the root |
| JsonPointer.Resolve | backend/app/execution/json_pointer.py:46-73 | follows one token after another, MISSING apart from null, an error for an invalid pointer or an index that cannot be read |
| JsonPointer.ListMember | backend/app/execution/json_pointer.py:61-70 | in a list an ASCII token finds an item if and only if it is the numeral of its position, without leading zeros |
| JsonPointer.ObjectMember | backend/app/execution/json_pointer.py:55-60 | in an object it finds the value of that name, null included, and elsewhere nothing |
| JsonPointer.FollowRaises | backend/app/execution/json_pointer.py:61-70 | evaluation raises if and only if the tokens lead to a list and the next is an index of more than 4300 digits or with a digit that is not decimal |
| JsonPointer.LongIndexRaises | backend/app/execution/json_pointer.py:61-70 | as for 4301 nines against an empty list |
| Handoff.CoerceIdempotent | backend/app/agent/sequential_readonly_pair.py:257-286 | converting a converted literal changes nothing |
| Handoff.CoerceRaises | backend/app/agent/sequential_readonly_pair.py:257-286 | the conversion raises if and only if, to become an integer, a text of digits has two or more dashes in front, more than 4300 digits or one that is not decimal, or, to become text, an integer has more than 4300 digits |
| Handoff.TwoDashesRaise | backend/app/agent/sequential_readonly_pair.py:268-269 | as for two dashes and a five |
| Handoff.SuperscriptRaises | backend/app/agent/sequential_readonly_pair.py:268-269 | as for a superscript two |
| Handoff.LongDigitsRaise | backend/app/agent/sequential_readonly_pair.py:268-269 | as for 4301 nines |
| PairLaws.NumeralReadsBack | backend/app/agent/sequential_readonly_pair.py:263-285 | the numeral of an integer, white space around it allowed, converts back to that integer, and an integer to its numeral |
| PairLaws.OnlyNumeralsRead | backend/app/agent/sequential_readonly_pair.py:268-269 | and of texts with ASCII digits and no zeros in front only its numeral does |
| PairLaws.CoerceTable | backend/app/agent/sequential_readonly_pair.py:257-286 | what has the type asked for stays, what is converted has that type, and what is unusable |
| PairLaws.WholeNumbersOnly | backend/app/agent/sequential_readonly_pair.py:266-267 | a float becomes an integer if and only if it is that number |
| PairLaws.IdLikeMeans | backend/app/agent/sequential_readonly_pair.py:120-132 | a name is id-like if and only if it spells one of five words, capitals and separators aside, or ends like an id; the listed names with underscores add nothing |
| PairLaws.GivenIdMeans | backend/app/agent/sequential_readonly_pair.py:26-31 | which entities are ids the user gave or confirmed |
| PairLaws.OffersMeans | backend/app/agent/sequential_readonly_pair.py:378-400 | what in an output schema is an id of a list item |
| PairLaws.CompatibleMeans | backend/app/agent/sequential_readonly_pair.py:160-169 | a source type fits if and only if every value of it is one of the target type |
| PairLaws.HandedOverFits | backend/app/agent/sequential_readonly_pair.py:355-421 | so the id handed over is of the type the second Tool asks for |
| PairLaws.ResolvedMeans | backend/app/agent/sequential_readonly_pair.py:319-347 | the generator binds the user's own id converted to the type of the parameter if there is one, the first item's if there is none and it was asked for, and nothing else |
| PairLaws.BindingMeans | backend/app/agent/plan_validator.py:1350-1418 | the validator accepts exactly the outputs of tool_1 and the literals that convert to the same value as the user's own id |
| PairLaws.NamesFitMeans | backend/app/agent/plan_validator.py:1309-1349 | bindings have declared names only and all the required ones |
| PairLaws.PairIsBuilt | backend/app/agent/plan_validator.py:1420-1482 | the validator takes the shape of a two-step plan if and only if the generator could have built it and its bindings parse |
| Handoff.ExtractExplicitId | backend/app/agent/sequential_readonly_pair.py:238-254 | the value of the one entity that is id-like and given or confirmed by the user; nothing when there is none or more than one |
| Handoff.DiscoverIdHandoff | backend/app/agent/sequential_readonly_pair.py:355-421 | finds a handoff if and only if there is exactly one id source and its type fits |
| Handoff.PathFindsFirstId | backend/app/agent/sequential_readonly_pair.py:403-421 | on every conforming result the path gives the first item's id, of the id's schema, or MISSING; it can be evaluated if and only if both names are carried by the subset |
| PairPlan.ValidateShape | backend/app/agent/plan_validator.py:1420-1482 | no issue if and only if the two Steps form the pair and tool_2's config parses |
| PairPlan.ValidateCompanionBindings | backend/app/agent/plan_validator.py:1309-1418 | no issue if and only if names fit the schema and every binding is a tool_1 output or the user's own id; it raises exactly when a conversion does |
| PairPlan.ResolvedBindingsAccepted | backend/app/agent/sequential_readonly_pair.py:319-347 | whatever bindings the generator resolves for a discovered handoff, the validator accepts |
| PairPlan.BuiltPairAccepted | backend/app/agent/sequential_readonly_pair.py:438-487 | the built plan passes the shape check if and only if the id is literal or both names are carried by the subset |
| PairPlan.UncleanNameFails | backend/app/agent/sequential_readonly_pair.py:355-421 | for every collection name that is empty or has a hash, a discovered handoff whose path cannot be evaluated and whose plan is refused |
| PairPlan.AcceptedLiteralIsGrounded | backend/app/agent/plan_validator.py:1381-1408 | an accepted LITERAL converts to the same value as the one id entity the user gave or confirmed |
| PairPlan.CheckFails | backend/app/agent/sequential_readonly_pair.py:289-310 | the check of a binding raises if and only if it is a LITERAL of a typed, id-like parameter beside an id, and the id or the literal cannot be converted |
| PairPlan.ResolutionFails | backend/app/agent/sequential_readonly_pair.py:319-347 | the generator raises on exactly the ids the conversion raises on |
| PlanningPipeline.PlanningStore.CompareAndSet | backend/app/repositories/agent_request.py:85-138 | the status moves if and only if it is the expected one |
| PlanningPipeline.PlanningStore.PersistDecision | backend/app/agent/tool_selector.py:1001-1087 | selection evidence, question and status together, or, when the status is another, no evidence and the state as it was |
| PlanningPipeline.PlanningStore.PersistBuild | backend/app/agent/parameter_builder.py:208-299 | build evidence, question and status together, or, when the status is another, no evidence and the state as it was |
| PlanningPipeline.PlanningStore.PersistPlan | backend/app/agent/plan_generator.py:341-387 | plan evidence and status together, or, when the status is another, no evidence and the state as it was |
| PlanningPipeline.PlanningStore.PersistValidation | backend/app/agent/plan_validator.py:1492-1598 | validation evidence, question and status together, or, when the status is another, no evidence and the state as it was |
| PlanningPipeline.PlanningStore.FailFrom | backend/app/agent/plan_generator.py:626-681 | FAILED if the status is still the expected one, and nothing otherwise |
| PlanningPipeline.PlanningStore.AnswerOpen | backend/app/services/clarification_response.py:327-341 | the question closes and the status moves together, exactly when it was this question at the expected status, or neither |
| PipelineRuns.TerminalForEver | backend/app/domain/enums.py:121-129 | over every interleaving terminal statuses stay with their evidence, and evidence only grows |
| PipelineRuns.StepKeeps | backend/app/agent/parameter_builder.py:98-299 | whatever happens next, any number of stages at once, evidence rows agree with the rows they name, builds of one selection with each other, and the status with the evidence |
| PipelineRuns.ReadyIsEvidenced | backend/app/agent/plan_validator.py:188-500 | READY means an accepting validation of the only plan, whose primary tool is that of the newest build, which is complete, and of the selection that build names |
| PipelineRuns.StepUsesNewest | backend/app/agent/parameter_builder.py:98-130 | one step keeps the build in use made from the newest selection if and only if it commits no build made from a superseded one |
| PipelineRuns.RunUsesNewest | backend/app/agent/parameter_builder.py:98-299 | over every run, builds are made from the newest selection throughout if and only if no such build is committed |
| PipelineRuns.ReadyUsesNewest | backend/app/agent/parameter_builder.py:98-299 | then the tool that becomes READY is the newest selection's |
| PipelineRuns.OldSelectionBecomesReady | backend/app/agent/parameter_builder.py:98-299 | a run, with every builder of one selection finding the same, that becomes READY with the second selection's tool although a third chose another |
| PipelineLaws.RunEnters | docs/04-agent-mcp-architecture.md:88-163 | over every run each change of status is one of the listed moves, in the documented order with its gates and ends, made by the event that is to bring it about |
| PipelineLaws.Entering | docs/04-agent-mcp-architecture.md:88-163 | what brings a request into each status; a commit that is on time always moves it |
| PipelineLaws.RunExplained | backend/app/agent/plan_validator.py:1492-1598 | over every run a question is asked for what the newest evidence lacks or wants confirmed, parameters are built for a selected or confirmed tool only, and a REJECTED request has its refusal on record |
| PipelineLaws.EvidenceWritten | backend/app/agent/tool_selector.py:1001-1087 | each commit writes one row, of what was decided, built, planned or found, and no other |
| PipelineLaws.QuestionsAsked | backend/app/services/clarification_response.py:327-341 | which question each decision, build and verdict opens, and that an answer closes it |
| PipelineLaws.FailsClosed | backend/app/agent/parameter_builder.py:98-130 | a stage that meets rows out of order fails the request instead of starting |
| PipelineLaws.SourcesAreThere | backend/app/agent/parameter_builder.py:98-130 | in a sound state no stage meets such rows |
| AuditSanitizer.SanitizeAuditValue | backend/app/audit/sanitize.py:99-140 | the recursion with its loops computes the sanitized value |
| AuditSanitizer.SanitizeBounded | backend/app/audit/sanitize.py:99-156 | whatever comes in, sensitive keys map to the redaction marker only, and depth, keys, items, text and container size are within bounds |
| SanitizerLaws.SensitiveMeans | backend/app/audit/sanitize.py:29-66 | a key is sensitive if and only if it spells a listed name: the same letters in order, small or capital, with underscores, dashes and spaces anywhere |
| SanitizerLaws.PartedKeyIsSensitive | backend/app/audit/sanitize.py:61-66 | so is every listed name in two parts around a separator, as `api-key` is |
| SanitizerLaws.SecretsRedacted | backend/app/audit/sanitize.py:113-127 | in an object that fits, whatever stands under a key that spells a listed name is the redaction marker |
| SanitizerLaws.DictSanitized | backend/app/audit/sanitize.py:113-156 | an object keeps exactly the last entry for each shortened key among its first 64, each sanitized or redacted, and a marker for more; or its size takes its place |
| SanitizerLaws.KeysInOrder | backend/app/audit/sanitize.py:113-127 | keys stand in the order in which they first came |
| SanitizerLaws.ListSanitized | backend/app/audit/sanitize.py:129-136 | a list keeps its first 64 items in order, each sanitized, and a marker for more; or its size takes its place |
| SanitizerLaws.LeavesSanitized | backend/app/audit/sanitize.py:99-140 | what becomes of null, numbers, text, bytes and other objects, and of everything below depth 8 |
| SanitizerLaws.ColumnHolds | backend/app/audit/sanitize.py:159-166 | null for null, a sanitized object as it is, anything else under one key |
| AuditJson.BytesOfJson | backend/app/audit/sanitize.py:143-156 | the size in use is the UTF-8 length of the compact JSON text, escapes included, and there is none exactly where the text cannot be written |
| AuditSanitizer.SanitizeAgain | backend/app/audit/sanitize.py:99-156 | any value already within the bounds comes back unchanged if and only if it holds no summary object at depth 8 |
| AuditSanitizer.SanitizeTwice | backend/app/audit/sanitize.py:99-156 | a second pass changes nothing if and only if no container that is kept at depth 8 of the value has to be collapsed for its size |
| AuditSanitizer.CollapseShows | backend/app/audit/sanitize.py:113-156 | the result holds a summary object at depth 8 if and only if such a container is reached through surviving, insensitive entries and containers that fit |
| AuditSanitizer.SanitizeThrice | backend/app/audit/sanitize.py:99-156 | a third pass never changes anything |
| AuditJson.JsonReplacementsFit | backend/app/audit/sanitize.py:143-156 | under the real size of compact JSON text the summary and error objects fit, whatever has been built |
| AuditJson.IdempotenceFails | backend/app/audit/sanitize.py:143-156 | under that size, an object with nine keys of a thousand characters, eight lists down, is changed by a second pass |
| AuditSanitizer.EnsureObject | backend/app/audit/sanitize.py:159-166 | a column is null or an object |
| ApproverScope.ValidateApproverScope | backend/app/approval/decision.py:61-102 | open scopes need nothing, a well-formed one its trimmed codes, and exactly the others are refused |
| ApproverScope.CheckScope | backend/app/approval/decision.py:458-468 | the refusal, if any, for an actor's roles |
| ApproverScope.ScopeMeans | backend/app/approval/decision.py:61-102 | a null or empty scope lets everyone past, a list of codes with something in each exactly those with one of the trimmed codes among their roles, and anything else nobody, under another error |
| ApproverScope.InboxAgrees | backend/app/approval/visibility_sql.py:91-131 | inbox and decide call agree for every actor if and only if some code is not valid to the inbox or each reads the same with its spaces trimmed as with all its white space trimmed (or there are no role codes) |
| ApproverScope.TidyAgrees | backend/app/approval/visibility_sql.py:1-12 | for each actor they agree on every such scope |
| ApproverScope.TabsDisagree | backend/app/approval/visibility_sql.py:103-122 | two scopes with tabs on which they disagree, one each way |
| ApproverScope.DecidableMeansDecides | backend/app/approval/query.py:169-185 | on an Execution in order, a decision goes through if and only if the request is visible and decidable, its context is unchanged, and a required comment is given |
| EntityAlignment.ApplyAlignments | backend/app/agent/entity_alignment.py:171-280 | succeeds if and only if the mappings are one to one from the user's own unclaimed names to missing inputs and no name is used twice; then count, order, values and provenance stay and names are distinct |
| AlignmentLaws.AlignableMeans | backend/app/agent/entity_alignment.py:171-280 | an alignment goes through if and only if no name is used twice and each mapping takes a different entity of the user's, the only one of its name and no input's, to a different required input that nothing is named after |
| AlignmentLaws.AlignmentLeaves | backend/app/agent/entity_alignment.py:234-280 | values, provenance and order stay, names change only by the mappings and to the input as the Tool spells it, and every mapping renames an entity |
| EntityAlignment.DuplicateKeys | backend/app/agent/entity_alignment.py:66-84 | exactly the folded names used more than once |
| EntityAlignment.TargetsFree | backend/app/agent/entity_alignment.py:221-232 | the check against remaining names can never refuse |
| EntityAlignment.MissingAfter | backend/app/agent/entity_alignment.py:171-280 | the new missing list is the old one without exactly the mapped inputs |
| EntityAlignment.ComputeCoverage | backend/app/agent/selection_confidence.py:30-46 | coverage is one less the share of required inputs that are missing |
| EntityAlignment.CoverageIsShare | backend/app/agent/selection_confidence.py:30-46 | coverage times the number of required inputs is the number of them that are there; it is one if and only if none is missing |
| EntityAlignment.CoverageRises | backend/app/agent/selection_confidence.py:30-46 | a successful alignment raises coverage |
| EntityAlignment.ChosenMeansNothingMissing | backend/app/agent/tool_selector.py:828-921 | NO_MATCH if and only if every fit is zero or nothing is missing and the confidence is too low; CLARIFY if and only if an input is missing and some fit is not zero; otherwise a tool is chosen, AUTO_SELECT if and only if confidence and margin suffice, its policy is there and allows it, neither agent nor policy wants confirmation and nothing is ambiguous, and CONFIRM in the rest |

## Left out

- The queue, the orchestrator and the tool runner of executions: `ExecutionRuns.RunnerStep` lets them do anything to an Execution they hold, except touch approvals or cancel marks, rewrite a terminal Step, enter a wait, leave a malformed tree, or record an unknown outcome below a Step and not in it. That waits are entered only when no call is in flight is taken from the orchestrator.
- Events, audit rows, outbox rows, result summaries, error messages, log lines and HTTP codes beyond the kind of error.
- Sessions and locks: a locked call is one atomic step and a rollback is no change. Rows of children are listed in the order the repository lists them and named by position; no Attempt or call is added by the calls modelled.
- The context snapshots of approval requests, the plan snapshots checked on resume and the resume preflight: their answers are parameters (`contextError`, `planIntact`, `preflight`). An unsupported decision mode cannot be written.
- Identity and permission of actors, other than the role scope: the answer is a parameter (`authorized`). allow_self_approval is taken as the Boolean the snapshot builder writes.
- Parsing of step configs and predicates: a config parses or does not, and a predicate is the list of its bindings. A FOR_EACH LOOP has no predicate, so the check on predicates of loops that are not WHILE loops has nothing to do.
- PlanValidator.CheckConfig: reports a config that does not parse under the general code; the code for CONDITION and LOOP depends on the text of the parse error.
- PlanValidator.Validate: counts and order of issues are not stated, only which codes occur; limit and binding codes not where a Step has two owners or a body Step is missing, since the checks then work with part of the ownership.
- PlanGraph.TransitiveAncestorKeys: asks that no cycle lies above the Step, because the walk has no cycle guard and does not end otherwise.
- The search for wording that asks for a detail or a first item, the choice among companion tools, and the timeouts and policies of the pair.
- Unicode: case folding is a parameter where it matters; elsewhere lower case is that of ASCII letters and the Kelvin sign, which is all that can spell a name of ASCII letters; white space and digits are those of Unicode 15.0. The limit of 4300 digits is Python's default. Floats are reals; their text form is a parameter.
- Handoff.CoerceIdempotent: takes for granted that a number's text is not blank.
- AuditSanitizer.SanitizeTwice: holds for any size under which the small replacement objects fit; that they do in JSON text is AuditJson.JsonReplacementsFit. There a float's text is taken to have at most 32 bytes, and lone surrogates do not occur.
- PairLaws.HandedOverFits: asks that the output schema spells the id's type without white space around it, because a schema with another spelling promises nothing of the value.
- PairLaws.OnlyNumeralsRead: asks for ASCII digits and no zeros in front, because zeros in front and the digits of other scripts read as well.
- The reason codes of audit rows (`sanitize_reason`).
- Clarification rows other than which question is open; the Analyzer's model calls; retrieval, reranking and confidence arithmetic. Tool, grant and policy checks of the plan stages show as a stage that fails. Whether the request fills the inputs of the chosen tool is a parameter of each selection (`fills`).
- PipelineRuns.StepKeeps: lets a canceller act on any request that is not terminal, which is more than the repository's own calls do.
- The SQLite form of the inbox predicate, which repeats the PostgreSQL one; evaluation order and errors of SQL operators.
