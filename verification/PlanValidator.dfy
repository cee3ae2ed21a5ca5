/** The static validator for multi-step plans, and the rules an accepted plan satisfies. */
module PlanValidator {
  import opened ExecutionRows
  import opened Text
  import opened PlanModel
  import opened PlanGraph

  const HARD_MAX_STEPS := 100
  const HARD_MAX_DURATION_SECONDS := 3600
  const HARD_MAX_PARALLELISM := 32
  const HARD_MAX_LOOP_ITERATIONS := 500
  const MAX_LOOP_NESTING_DEPTH := 3

  datatype Code =
    | SchemaInvalid | StepDuplicate | DependencyMissing | CycleDetected
    | LimitExceeded | ConditionInvalid | BindingInvalid

  datatype Issue = Issue(code: Code, step: Option<Id>)

  type Owners = map<Id, Id>
  type Ancestors = map<Id, set<Id>>

  // ---- what a plan must satisfy -------------------------------------------------------------

  predicate Blank(s: string) {
    AllIn(s, WhiteSpace)
  }

  ghost predicate Distinct(s: seq<Id>) {
    forall i, j | 0 <= i < j < |s| :: s[i] != s[j]
  }

  ghost predicate Identified(plan: Plan) {
    && plan.schemaVersion == "1.0"
    && plan.steps != []
    && (forall i :: 0 <= i < |plan.steps| ==> !Blank(plan.steps[i].id))
    && UniqueIds(plan.steps)
  }

  ghost predicate StepDependenciesExist(step: PlanStep, ids: set<Id>) {
    && (forall k :: 0 <= k < |step.dependsOn| ==> step.dependsOn[k] in ids && step.dependsOn[k] != step.id)
    && Distinct(step.dependsOn)
  }

  ghost predicate DependenciesExist(steps: seq<PlanStep>) {
    forall i :: 0 <= i < |steps| ==> StepDependenciesExist(steps[i], Ids(steps))
  }

  predicate WithinLimits(plan: Plan) {
    && plan.limits.maxSteps <= HARD_MAX_STEPS
    && plan.limits.maxDurationSeconds <= HARD_MAX_DURATION_SECONDS
    && plan.limits.maxParallelism <= HARD_MAX_PARALLELISM
    && plan.limits.maxLoopIterations <= HARD_MAX_LOOP_ITERATIONS
    && |plan.steps| <= plan.limits.maxSteps
  }

  /** What the LOOP config schema asks for. */
  ghost predicate WellFormedLoop(c: LoopConfig) {
    && c.maxIterations >= 1
    && c.body != [] && Distinct(c.body) && (forall k :: 0 <= k < |c.body| ==> !Blank(c.body[k]))
    && (c.mode.ForEach? ==> c.collection.Some? && c.condition.None?)
    && (c.mode.While? ==> c.condition.Some? && c.collection.None?)
  }

  /** Step l is a LOOP with b in its body. */
  ghost predicate Owns(steps: seq<PlanStep>, l: Id, b: Id) {
    exists i :: 0 <= i < |steps| && OwnsAt(steps[i], l, b)
  }

  ghost predicate OwnsAt(step: PlanStep, l: Id, b: Id) {
    step.id == l && b in BodyOf(step)
  }

  ghost function BodyOf(step: PlanStep): seq<Id> {
    if step.config.Looping? && WellFormedLoop(step.config.loop) then step.config.loop.body else []
  }

  /** Every body Step exists and has one owner, other than itself. */
  ghost predicate BodiesExist(steps: seq<PlanStep>, ids: set<Id>) {
    && (forall l, b :: Owns(steps, l, b) ==> b in ids && b != l)
    && (forall l, m, b :: Owns(steps, l, b) && Owns(steps, m, b) ==> l == m)
  }

  ghost predicate IsOwnerMap(steps: seq<PlanStep>, owners: Owners) {
    && (forall b :: b in owners ==> Owns(steps, owners[b], b))
    && (forall l, b :: Owns(steps, l, b) ==> b in owners && owners[b] == l)
  }

  function AncestorsIn(ancestors: Ancestors, x: Id): set<Id> {
    if x in ancestors then ancestors[x] else {}
  }

  /** Whether a STEP_OUTPUT of src may be read by Step x. */
  predicate SourceVisible(x: Id, src: Id, ids: set<Id>, ancestors: Ancestors, owners: Owners) {
    && src != x && src in ids
    && if x !in owners then src !in owners && src in AncestorsIn(ancestors, x)
       else if src in owners then owners[src] == owners[x] && src in AncestorsIn(ancestors, x)
       else src == owners[x] || src in AncestorsIn(ancestors, owners[x])
  }

  ghost predicate SourcesVisible(x: Id, bindings: seq<Binding>, ids: set<Id>, ancestors: Ancestors, owners: Owners) {
    forall k :: 0 <= k < |bindings| && bindings[k].StepOutput? ==>
      SourceVisible(x, bindings[k].source, ids, ancestors, owners)
  }

  ghost predicate WhenAccepted(step: PlanStep, ids: set<Id>, ancestors: Ancestors, owners: Owners) {
    match step.when
    case Always => true
    case MalformedWhen => false
    case When(bindings) =>
      && (Kind(step.config).Loop? ==> LoopContext !in bindings)
      && SourcesVisible(step.id, bindings, ids, ancestors, owners)
  }

  function LoopBindings(c: LoopConfig): seq<Binding> {
    (if c.collection.Some? then [c.collection.value] else []) + (if c.condition.Some? then c.condition.value else [])
  }

  ghost predicate ConfigAccepted(step: PlanStep, limits: Limits, ids: set<Id>, ancestors: Ancestors, owners: Owners) {
    match step.config
    case Malformed(_) => false
    case ToolConfig(bindings) => SourcesVisible(step.id, bindings, ids, ancestors, owners)
    case ConditionConfig(bindings) => SourcesVisible(step.id, bindings, ids, ancestors, owners)
    case JoinConfig => step.dependsOn != []
    case ApprovalConfig => true
    case Looping(c) =>
      && WellFormedLoop(c)
      && c.maxIterations <= limits.maxLoopIterations
      && c.collection != Some(LoopContext)
      && SourcesVisible(step.id, LoopBindings(c), ids, ancestors, owners)
  }

  /** A Step outside every LOOP depends on none inside one; a Step of a LOOP body depends on
      the LOOP or on its fellows only. */
  ghost predicate Scoped(steps: seq<PlanStep>, owners: Owners) {
    && TopLevelScoped(steps, owners)
    && (forall l, i, d :: 0 <= i < |steps| && Owns(steps, l, steps[i].id) && d in steps[i].dependsOn ==>
          d == l || Owns(steps, l, d))
  }

  /** At most n LOOPs enclose x. */
  predicate Enclosed(owners: Owners, x: Id, n: nat)
    decreases n
  {
    x !in owners || (n > 0 && Enclosed(owners, owners[x], n - 1))
  }

  ghost predicate IsLoop(steps: seq<PlanStep>, l: Id) {
    exists i :: 0 <= i < |steps| && steps[i].id == l && steps[i].config.Looping? && WellFormedLoop(steps[i].config.loop)
  }

  ghost predicate Responds(plan: Plan, owners: Owners) {
    && plan.responseStepIds != [] && Distinct(plan.responseStepIds)
    && forall k :: 0 <= k < |plan.responseStepIds| ==>
         plan.responseStepIds[k] in Ids(plan.steps) && plan.responseStepIds[k] !in owners
  }

  ghost function TrueAncestors(steps: seq<PlanStep>): Ancestors {
    map x | x in Ids(steps) :: AllAncestors(steps, x)
  }

  ghost predicate StepsAccepted(plan: Plan, ancestors: Ancestors, owners: Owners) {
    forall i :: 0 <= i < |plan.steps| ==>
      && WhenAccepted(plan.steps[i], Ids(plan.steps), ancestors, owners)
      && ConfigAccepted(plan.steps[i], plan.limits, Ids(plan.steps), ancestors, owners)
  }

  ghost predicate OwnersAccepted(plan: Plan, owners: Owners) {
    && Responds(plan, owners)
    && Scoped(plan.steps, owners)
    && StepsAccepted(plan, TrueAncestors(plan.steps), owners)
    && forall l :: IsLoop(plan.steps, l) ==> Enclosed(owners, l, MAX_LOOP_NESTING_DEPTH - 1)
  }

  ghost predicate Accepted(plan: Plan) {
    && Identified(plan)
    && DependenciesExist(plan.steps)
    && !HasCycle(plan.steps)
    && WithinLimits(plan)
    && BodiesExist(plan.steps, Ids(plan.steps))
    && exists owners :: IsOwnerMap(plan.steps, owners) && OwnersAccepted(plan, owners)
  }

  // ---- the checks, one after the other -------------------------------------------------------

  ghost predicate Has(errors: seq<Issue>, code: Code) {
    exists k :: 0 <= k < |errors| && errors[k].code == code
  }

  lemma HasEither(a: seq<Issue>, b: seq<Issue>, code: Code)
    ensures Has(a + b, code) <==> Has(a, code) || Has(b, code)
  {
    if Has(a, code) {
      var k :| 0 <= k < |a| && a[k].code == code;
      assert (a + b)[k].code == code;
    }
    if Has(b, code) {
      var k :| 0 <= k < |b| && b[k].code == code;
      assert (a + b)[|a| + k].code == code;
    }
  }

  ghost predicate Only(errors: seq<Issue>, codes: set<Code>) {
    forall k :: 0 <= k < |errors| ==> errors[k].code in codes
  }

  method CheckIdentity(plan: Plan) returns (errors: seq<Issue>)
    ensures errors == [] <==> Identified(plan)
    ensures Only(errors, {SchemaInvalid, StepDuplicate})
    ensures Has(errors, StepDuplicate) <==> !UniqueIds(plan.steps)
  {
    errors := [];
    if plan.schemaVersion != "1.0" { errors := errors + [Issue(SchemaInvalid, None)]; }
    if plan.steps == [] { errors := errors + [Issue(SchemaInvalid, None)]; }
    ghost var start := errors;
    for i := 0 to |plan.steps|
      invariant errors == [] <==> start == [] && forall j :: 0 <= j < i ==> !Blank(plan.steps[j].id)
      invariant Only(errors, {SchemaInvalid})
    {
      if Blank(plan.steps[i].id) { errors := errors + [Issue(SchemaInvalid, Some(plan.steps[i].id))]; }
    }
    var duplicates := FindDuplicates(plan.steps);
    HasEither(errors, duplicates, StepDuplicate);
    errors := errors + duplicates;
  }

  method FindDuplicates(steps: seq<PlanStep>) returns (errors: seq<Issue>)
    ensures errors == [] <==> UniqueIds(steps)
    ensures Only(errors, {StepDuplicate})
    ensures Has(errors, StepDuplicate) <==> errors != []
  {
    errors := [];
    var seen: set<Id> := {};
    for i := 0 to |steps|
      invariant seen == set j | 0 <= j < i :: steps[j].id
      invariant errors == [] <==> forall j, k | 0 <= j < k < i :: steps[j].id != steps[k].id
      invariant Only(errors, {StepDuplicate})
    {
      if steps[i].id in seen { errors := errors + [Issue(StepDuplicate, Some(steps[i].id))]; }
      seen := seen + {steps[i].id};
    }
    if errors != [] { assert errors[0].code == StepDuplicate; }
  }

  method CheckStepDependencies(step: PlanStep, ids: set<Id>) returns (errors: seq<Issue>)
    ensures errors == [] <==> StepDependenciesExist(step, ids)
    ensures Only(errors, {DependencyMissing})
  {
    errors := [];
    var seen: set<Id> := {};
    for k := 0 to |step.dependsOn|
      invariant seen == set j | 0 <= j < k :: step.dependsOn[j]
      invariant errors == [] <==>
        && (forall j :: 0 <= j < k ==> step.dependsOn[j] in ids && step.dependsOn[j] != step.id)
        && (forall i, j | 0 <= i < j < k :: step.dependsOn[i] != step.dependsOn[j])
      invariant Only(errors, {DependencyMissing})
    {
      var dep := step.dependsOn[k];
      if dep !in ids { errors := errors + [Issue(DependencyMissing, Some(step.id))]; }
      if dep == step.id { errors := errors + [Issue(DependencyMissing, Some(step.id))]; }
      if dep in seen { errors := errors + [Issue(DependencyMissing, Some(step.id))]; }
      seen := seen + {dep};
    }
  }

  method CheckDependencies(steps: seq<PlanStep>) returns (errors: seq<Issue>)
    ensures errors == [] <==> DependenciesExist(steps)
    ensures Only(errors, {DependencyMissing})
  {
    errors := [];
    for i := 0 to |steps|
      invariant errors == [] <==> forall j :: 0 <= j < i ==> StepDependenciesExist(steps[j], Ids(steps))
      invariant Only(errors, {DependencyMissing})
    {
      var more := CheckStepDependencies(steps[i], Ids(steps));
      errors := errors + more;
    }
  }

  /** The cycle check and the reachability check. */
  method CheckGraph(steps: seq<PlanStep>) returns (errors: seq<Issue>)
    ensures Only(errors, {CycleDetected, SchemaInvalid})
    ensures Has(errors, CycleDetected) <==> HasCycle(steps)
    ensures UniqueIds(steps) && DependenciesExist(steps) ==> (errors == [] <==> !HasCycle(steps))
  {
    hide HasCycle, FromRoot;
    errors := [];
    var found := HasDependencyCycle(steps);
    if found { errors := errors + [Issue(CycleDetected, None)]; }
    ghost var cycle := errors;
    assert found ==> cycle[0].code == CycleDetected;
    if steps != [] {
      var reachable := ReachableFromRoots(steps);
      if UniqueIds(steps) && DependenciesExist(steps) && !found {
        forall x | x in Ids(steps) ensures x in reachable { EveryStepReachable(steps, x); }
      }
      var unreachable := Complaints(Ids(steps) - reachable);
      HasEither(cycle, unreachable, CycleDetected);
      errors := errors + unreachable;
    }
  }

  method Complaints(ids: set<Id>) returns (errors: seq<Issue>)
    ensures errors == [] <==> ids == {}
    ensures Only(errors, {SchemaInvalid})
  {
    errors := [];
    var rest := ids;
    while rest != {}
      invariant rest <= ids && (errors == [] <==> rest == ids)
      invariant Only(errors, {SchemaInvalid})
    {
      var sid :| sid in rest;
      errors := errors + [Issue(SchemaInvalid, Some(sid))];
      rest := rest - {sid};
    }
  }

  method CheckLimits(plan: Plan) returns (errors: seq<Issue>)
    ensures errors == [] <==> WithinLimits(plan)
    ensures Only(errors, {LimitExceeded})
  {
    errors := [];
    if plan.limits.maxSteps > HARD_MAX_STEPS { errors := errors + [Issue(LimitExceeded, None)]; }
    if plan.limits.maxDurationSeconds > HARD_MAX_DURATION_SECONDS { errors := errors + [Issue(LimitExceeded, None)]; }
    if plan.limits.maxParallelism > HARD_MAX_PARALLELISM { errors := errors + [Issue(LimitExceeded, None)]; }
    if plan.limits.maxLoopIterations > HARD_MAX_LOOP_ITERATIONS { errors := errors + [Issue(LimitExceeded, None)]; }
    if |plan.steps| > plan.limits.maxSteps { errors := errors + [Issue(LimitExceeded, None)]; }
  }

  // ---- LOOP bodies -----------------------------------------------------------------------------

  /** Enters the body of LOOP l into the owner map. */
  method AddBody(l: Id, body: seq<Id>, ids: set<Id>, owners: Owners) returns (errors: seq<Issue>, entered: Owners)
    requires Distinct(body)
    ensures errors == [] <==> forall b :: b in body ==> b in ids && b != l && b !in owners
    ensures errors == [] ==> entered.Keys == owners.Keys + set b | b in body
    ensures errors == [] ==> forall b :: b in entered ==> entered[b] == if b in owners then owners[b] else l
    ensures Only(errors, {SchemaInvalid})
  {
    errors, entered := [], owners;
    for k := 0 to |body|
      invariant errors == [] <==> forall j :: 0 <= j < k ==> body[j] in ids && body[j] != l && body[j] !in owners
      invariant entered.Keys <= owners.Keys + set j | 0 <= j < k :: body[j]
      invariant errors == [] ==> entered.Keys == owners.Keys + set j | 0 <= j < k :: body[j]
      invariant forall b :: b in owners ==> b in entered
      invariant forall b :: b in entered ==> entered[b] == if b in owners then owners[b] else l
      invariant Only(errors, {SchemaInvalid})
    {
      var b := body[k];
      if b !in ids || b == l {
        errors := errors + [Issue(SchemaInvalid, Some(l))];
      } else if b in entered {
        assert b in owners;
        errors := errors + [Issue(SchemaInvalid, Some(b))];
      } else {
        entered := entered[b := l];
      }
    }
    assert (set j | 0 <= j < |body| :: body[j]) == (set b | b in body);
    assert forall j :: 0 <= j < |body| ==> body[j] in body;
  }

  lemma OwnsOneMore(steps: seq<PlanStep>, i: nat, l: Id, b: Id)
    requires i < |steps|
    ensures Owns(steps[..i + 1], l, b) <==> Owns(steps[..i], l, b) || OwnsAt(steps[i], l, b)
  {
    assert steps[..i + 1] == steps[..i] + [steps[i]];
    if Owns(steps[..i], l, b) {
      var j :| 0 <= j < i && OwnsAt(steps[..i][j], l, b);
      assert OwnsAt(steps[..i + 1][j], l, b);
    }
    if OwnsAt(steps[i], l, b) { assert OwnsAt(steps[..i + 1][i], l, b); }
  }

  lemma BodiesPrefix(steps: seq<PlanStep>, i: nat, ids: set<Id>)
    requires i < |steps| && BodiesExist(steps[..i + 1], ids)
    ensures BodiesExist(steps[..i], ids)
  {
    forall l, b | Owns(steps[..i], l, b) ensures Owns(steps[..i + 1], l, b) { OwnsOneMore(steps, i, l, b); }
  }

  ghost predicate MayEnter(step: PlanStep, ids: set<Id>, owners: Owners) {
    forall b :: b in BodyOf(step) ==> b in ids && b != step.id && b !in owners
  }

  ghost predicate Entered(step: PlanStep, owners: Owners, entered: Owners) {
    && (forall b :: b in entered <==> b in owners || b in BodyOf(step))
    && (forall b :: b in entered ==> entered[b] == if b in owners then owners[b] else step.id)
  }

  /** What one more Step does to the ownership relation. */
  lemma BodiesOneMore(steps: seq<PlanStep>, i: nat, ids: set<Id>, owners: Owners)
    requires i < |steps| && UniqueIds(steps)
    requires BodiesExist(steps[..i], ids) && IsOwnerMap(steps[..i], owners)
    ensures BodiesExist(steps[..i + 1], ids) <==> MayEnter(steps[i], ids, owners)
  {
    hide Owns, BodyOf;
    var x, more := steps[i].id, steps[..i + 1];
    forall l, b ensures Owns(more, l, b) <==> Owns(steps[..i], l, b) || (l == x && b in BodyOf(steps[i])) {
      OwnsOneMore(steps, i, l, b);
    }
    if BodiesExist(more, ids) {
      forall b | b in BodyOf(steps[i]) ensures b in ids && b != x && b !in owners {
        assert Owns(more, x, b);
        NotYetOwner(steps, i, b);
      }
    }
  }

  lemma NotYetOwner(steps: seq<PlanStep>, i: nat, b: Id)
    requires i < |steps| && UniqueIds(steps)
    ensures !Owns(steps[..i], steps[i].id, b)
  {
  }

  lemma OwnersOneMore(steps: seq<PlanStep>, i: nat, ids: set<Id>, owners: Owners, entered: Owners)
    requires i < |steps| && IsOwnerMap(steps[..i], owners)
    requires MayEnter(steps[i], ids, owners) && Entered(steps[i], owners, entered)
    ensures IsOwnerMap(steps[..i + 1], entered)
  {
    hide Owns, BodyOf;
    var more := steps[..i + 1];
    forall b | b in entered ensures Owns(more, entered[b], b) { OwnsOneMore(steps, i, entered[b], b); }
    forall l, b | Owns(more, l, b) ensures b in entered && entered[b] == l { OwnsOneMore(steps, i, l, b); }
  }

  method EnterStep(step: PlanStep, ids: set<Id>, owners: Owners) returns (errors: seq<Issue>, entered: Owners)
    ensures errors == [] <==> MayEnter(step, ids, owners)
    ensures errors == [] ==> Entered(step, owners, entered)
    ensures Only(errors, {SchemaInvalid})
  {
    if step.config.Looping? && ParsesAsLoop(step.config.loop) {
      assert BodyOf(step) == step.config.loop.body;
      errors, entered := AddBody(step.id, step.config.loop.body, ids, owners);
    } else {
      assert BodyOf(step) == [];
      errors, entered := [], owners;
    }
  }

  method CollectOwners(steps: seq<PlanStep>) returns (errors: seq<Issue>, owners: Owners)
    ensures UniqueIds(steps) ==> (errors == [] <==> BodiesExist(steps, Ids(steps)))
    ensures UniqueIds(steps) && errors == [] ==> IsOwnerMap(steps, owners)
    ensures Only(errors, {SchemaInvalid})
  {
    hide BodiesExist, IsOwnerMap, MayEnter, Entered, UniqueIds;
    errors, owners := [], map[];
    var ids := Ids(steps);
    NoOwners(ids);
    for i := 0 to |steps|
      invariant UniqueIds(steps) ==> (errors == [] <==> BodiesExist(steps[..i], ids))
      invariant UniqueIds(steps) && errors == [] ==> IsOwnerMap(steps[..i], owners)
      invariant Only(errors, {SchemaInvalid})
    {
      var more, entered := EnterStep(steps[i], ids, owners);
      if UniqueIds(steps) && errors == [] {
        BodiesOneMore(steps, i, ids, owners);
        if more == [] { OwnersOneMore(steps, i, ids, owners, entered); }
      } else if BodiesExist(steps[..i + 1], ids) {
        BodiesPrefix(steps, i, ids);
      }
      errors, owners := errors + more, entered;
    }
    assert steps[..|steps|] == steps;
  }

  lemma NoOwners(ids: set<Id>)
    ensures BodiesExist([], ids) && IsOwnerMap([], map[])
  {
  }

  predicate ParsesAsLoop(c: LoopConfig)
    ensures ParsesAsLoop(c) <==> WellFormedLoop(c)
  {
    && c.maxIterations >= 1
    && c.body != [] && (forall k :: 0 <= k < |c.body| ==> !Blank(c.body[k]))
    && (forall i, j | 0 <= i < j < |c.body| :: c.body[i] != c.body[j])
    && (if c.mode.ForEach? then c.collection.Some? && c.condition.None? else c.condition.Some? && c.collection.None?)
  }

  /** The parsed LOOP configs by Step id. */
  method CollectLoops(steps: seq<PlanStep>) returns (loops: map<Id, LoopConfig>)
    ensures UniqueIds(steps) ==> IsLoopMap(steps, loops)
  {
    loops := map[];
    for i := 0 to |steps|
      invariant UniqueIds(steps) ==> IsLoopMap(steps[..i], loops)
    {
      if UniqueIds(steps) { LoopsOneMore(steps, i, loops); }
      if steps[i].config.Looping? && ParsesAsLoop(steps[i].config.loop) {
        loops := loops[steps[i].id := steps[i].config.loop];
      }
    }
    assert steps[..|steps|] == steps;
  }

  ghost predicate IsLoopMap(steps: seq<PlanStep>, loops: map<Id, LoopConfig>) {
    forall l, c :: l in loops && loops[l] == c <==> LoopConfigOf(steps, l, c)
  }

  ghost predicate LoopConfigOf(steps: seq<PlanStep>, l: Id, c: LoopConfig) {
    exists i :: 0 <= i < |steps| && IsLoopAt(steps[i], l, c)
  }

  lemma LoopsOneMore(steps: seq<PlanStep>, i: nat, loops: map<Id, LoopConfig>)
    requires i < |steps| && UniqueIds(steps) && IsLoopMap(steps[..i], loops)
    ensures var step := steps[i];
      if step.config.Looping? && WellFormedLoop(step.config.loop) then IsLoopMap(steps[..i + 1], loops[step.id := step.config.loop])
      else IsLoopMap(steps[..i + 1], loops)
  {
    hide LoopConfigOf, WellFormedLoop;
    var step, more := steps[i], steps[..i + 1];
    forall l, c ensures LoopConfigOf(more, l, c) <==> LoopConfigOf(steps[..i], l, c) || IsLoopAt(step, l, c) {
      LoopConfigOneMore(steps, i, l, c);
    }
    forall c ensures !LoopConfigOf(steps[..i], step.id, c) { LoopConfigOneMore(steps, i, step.id, c); }
  }

  ghost predicate IsLoopAt(step: PlanStep, l: Id, c: LoopConfig) {
    step.id == l && step.config == Looping(c) && WellFormedLoop(c)
  }

  lemma LoopConfigOneMore(steps: seq<PlanStep>, i: nat, l: Id, c: LoopConfig)
    requires i < |steps| && UniqueIds(steps)
    ensures LoopConfigOf(steps[..i + 1], l, c) <==> LoopConfigOf(steps[..i], l, c) || IsLoopAt(steps[i], l, c)
    ensures LoopConfigOf(steps[..i], l, c) ==> l != steps[i].id
  {
    assert steps[..i + 1] == steps[..i] + [steps[i]];
    if LoopConfigOf(steps[..i], l, c) {
      var j :| 0 <= j < i && IsLoopAt(steps[..i][j], l, c);
      assert IsLoopAt(steps[..i + 1][j], l, c) && steps[j].id == l;
    }
  }

  // ---- the scopes LOOP bodies open ---------------------------------------------------------------

  method CheckResponses(plan: Plan, owners: Owners) returns (errors: seq<Issue>)
    ensures errors == [] <==> Responds(plan, owners)
    ensures Only(errors, {SchemaInvalid})
  {
    var responses := plan.responseStepIds;
    errors := [];
    if responses == [] { return [Issue(SchemaInvalid, None)]; }
    if exists i, j :: 0 <= i < j < |responses| && responses[i] == responses[j] { return [Issue(SchemaInvalid, None)]; }
    for k := 0 to |responses|
      invariant errors == [] <==> forall j :: 0 <= j < k ==> responses[j] in Ids(plan.steps) && responses[j] !in owners
      invariant Only(errors, {SchemaInvalid})
    {
      if responses[k] !in Ids(plan.steps) || responses[k] in owners { errors := errors + [Issue(SchemaInvalid, None)]; }
    }
  }

  ghost predicate TopLevelScoped(steps: seq<PlanStep>, owners: Owners) {
    forall i, d :: 0 <= i < |steps| && steps[i].id !in owners && d in steps[i].dependsOn ==> d !in owners
  }

  method CheckTopLevel(steps: seq<PlanStep>, owners: Owners) returns (errors: seq<Issue>)
    ensures errors == [] <==> TopLevelScoped(steps, owners)
    ensures Only(errors, {SchemaInvalid})
  {
    errors := [];
    for i := 0 to |steps|
      invariant errors == [] <==>
        forall j, d :: 0 <= j < i && steps[j].id !in owners && d in steps[j].dependsOn ==> d !in owners
      invariant Only(errors, {SchemaInvalid})
    {
      if steps[i].id !in owners {
        var more := CheckOutside(steps[i].id, steps[i].dependsOn, owners);
        errors := errors + more;
      }
    }
  }

  method CheckOutside(x: Id, deps: seq<Id>, owners: Owners) returns (errors: seq<Issue>)
    ensures errors == [] <==> forall d :: d in deps ==> d !in owners
    ensures Only(errors, {SchemaInvalid})
  {
    errors := [];
    for k := 0 to |deps|
      invariant errors == [] <==> forall j :: 0 <= j < k ==> deps[j] !in owners
      invariant Only(errors, {SchemaInvalid})
    {
      if deps[k] in owners { errors := errors + [Issue(SchemaInvalid, Some(x))]; }
    }
  }

  /** The first Step with the id, as the lookup finds it. */
  method FindStep(steps: seq<PlanStep>, x: Id) returns (found: Option<PlanStep>)
    ensures found.None? ==> x !in Ids(steps)
    ensures found.Some? ==> found.value in steps && found.value.id == x
  {
    for i := 0 to |steps|
      invariant forall j :: 0 <= j < i ==> steps[j].id != x
    {
      if steps[i].id == x { return Some(steps[i]); }
    }
    found := None;
  }

  method CheckInside(x: Id, deps: seq<Id>, l: Id, body: seq<Id>) returns (errors: seq<Issue>)
    ensures errors == [] <==> forall d :: d in deps ==> d == l || d in body
    ensures Only(errors, {SchemaInvalid})
  {
    errors := [];
    for k := 0 to |deps|
      invariant errors == [] <==> forall j :: 0 <= j < k ==> deps[j] == l || deps[j] in body
      invariant Only(errors, {SchemaInvalid})
    {
      if deps[k] != l && deps[k] !in body { errors := errors + [Issue(SchemaInvalid, Some(x))]; }
    }
  }

  ghost predicate BodyScoped(steps: seq<PlanStep>, l: Id, body: seq<Id>) {
    forall i, d :: 0 <= i < |steps| && steps[i].id in body && d in steps[i].dependsOn ==> d == l || d in body
  }

  method CheckBody(steps: seq<PlanStep>, l: Id, body: seq<Id>) returns (errors: seq<Issue>)
    ensures UniqueIds(steps) ==> (errors == [] <==> BodyScoped(steps, l, body))
    ensures Only(errors, {SchemaInvalid})
  {
    errors := [];
    for k := 0 to |body|
      invariant UniqueIds(steps) ==> (errors == [] <==>
        forall i, d :: 0 <= i < |steps| && steps[i].id in body[..k] && d in steps[i].dependsOn ==> d == l || d in body)
      invariant Only(errors, {SchemaInvalid})
    {
      assert body[..k + 1] == body[..k] + [body[k]];
      var found := FindStep(steps, body[k]);
      if found.Some? {
        var more := CheckInside(body[k], found.value.dependsOn, l, body);
        errors := errors + more;
      }
    }
    assert body[..|body|] == body;
  }

  ghost predicate LoopsScoped(steps: seq<PlanStep>, loops: map<Id, LoopConfig>) {
    forall l :: l in loops ==> BodyScoped(steps, l, loops[l].body)
  }

  method CheckBodies(steps: seq<PlanStep>, loops: map<Id, LoopConfig>) returns (errors: seq<Issue>)
    ensures UniqueIds(steps) ==> (errors == [] <==> LoopsScoped(steps, loops))
    ensures Only(errors, {SchemaInvalid})
  {
    errors := [];
    var rest := loops.Keys;
    while rest != {}
      invariant rest <= loops.Keys
      invariant UniqueIds(steps) ==> (errors == [] <==> forall l :: l in loops && l !in rest ==> BodyScoped(steps, l, loops[l].body))
      invariant Only(errors, {SchemaInvalid})
    {
      var l :| l in rest;
      var more := CheckBody(steps, l, loops[l].body);
      errors := errors + more;
      rest := rest - {l};
    }
  }

  /** Read through the owner map, both scope rules are the body rule of every LOOP. */
  lemma BodiesScoped(steps: seq<PlanStep>, loops: map<Id, LoopConfig>)
    requires IsLoopMap(steps, loops)
    ensures LoopsScoped(steps, loops) <==>
      forall l, i, d :: 0 <= i < |steps| && Owns(steps, l, steps[i].id) && d in steps[i].dependsOn ==> d == l || Owns(steps, l, d)
  {
    forall l, b ensures Owns(steps, l, b) <==> l in loops && b in loops[l].body { OwnsByLoop(steps, loops, l, b); }
  }

  lemma OwnsByLoop(steps: seq<PlanStep>, loops: map<Id, LoopConfig>, l: Id, b: Id)
    requires IsLoopMap(steps, loops)
    ensures Owns(steps, l, b) <==> l in loops && b in loops[l].body
  {
    if Owns(steps, l, b) {
      var i :| 0 <= i < |steps| && OwnsAt(steps[i], l, b);
      assert IsLoopAt(steps[i], l, steps[i].config.loop);
      assert LoopConfigOf(steps, l, steps[i].config.loop);
    }
    if l in loops && b in loops[l].body {
      assert LoopConfigOf(steps, l, loops[l]);
      var i :| 0 <= i < |steps| && IsLoopAt(steps[i], l, loops[l]);
      assert OwnsAt(steps[i], l, b);
    }
  }

  // ---- nesting depth -----------------------------------------------------------------------------

  /** The number of LOOPs from l outwards; more than the limit when ownership goes round.
      Bounded says what the LOOPs on the stack know of l. */
  method DepthOf(l: Id, stack: set<Id>, owners: Owners) returns (depth: nat)
    requires forall t :: t in stack ==> Inside(owners, l, t)
    decreases owners.Keys - stack
    ensures forall n: nat :: n < MAX_LOOP_NESTING_DEPTH ==> (depth <= n + 1 <==> Enclosed(owners, l, n))
    ensures depth >= 1
  {
    if l in stack {
      assert forall n: nat :: n < MAX_LOOP_NESTING_DEPTH ==> !Enclosed(owners, l, n) by {
        forall n: nat ensures !Enclosed(owners, l, n) { OwnershipGoesRound(owners, l, n); }
      }
      return MAX_LOOP_NESTING_DEPTH + 1;
    }
    if l !in owners { return 1; }
    forall t | t in stack + {l} ensures Inside(owners, owners[l], t) {
      if t != l { InsideStep(owners, l, t); }
    }
    assert l in owners.Keys - stack && owners.Keys - (stack + {l}) == (owners.Keys - stack) - {l};
    var outer := DepthOf(owners[l], stack + {l}, owners);
    depth := 1 + outer;
    forall n: nat | n < MAX_LOOP_NESTING_DEPTH ensures depth <= n + 1 <==> Enclosed(owners, l, n) {
      if n > 0 { assert outer <= (n - 1) + 1 <==> Enclosed(owners, owners[l], n - 1); }
    }
  }

  /** l encloses t at some distance: whatever encloses t counts l and what is above it. */
  ghost predicate Inside(owners: Owners, l: Id, t: Id) {
    forall n: nat :: Enclosed(owners, t, n) ==> n > 0 && Enclosed(owners, l, n - 1)
  }

  lemma {:induction false} OwnershipGoesRound(owners: Owners, l: Id, n: nat)
    requires Inside(owners, l, l)
    ensures !Enclosed(owners, l, n)
  {
    if Enclosed(owners, l, n) { OwnershipGoesRound(owners, l, n - 1); }
  }

  lemma InsideStep(owners: Owners, l: Id, t: Id)
    requires Inside(owners, l, t) && l in owners
    ensures Inside(owners, owners[l], t)
  {
    forall n: nat | Enclosed(owners, t, n) ensures n > 0 && Enclosed(owners, owners[l], n - 1) {
      assert Enclosed(owners, l, n - 1);
      EnclosedMore(owners, owners[l], n - 2, n - 1);
    }
  }

  lemma {:induction false} EnclosedMore(owners: Owners, x: Id, n: nat, m: nat)
    requires n <= m && Enclosed(owners, x, n)
    ensures Enclosed(owners, x, m)
    decreases n
  {
    if x in owners { EnclosedMore(owners, owners[x], n - 1, m - 1); }
  }

  ghost predicate LoopsShallow(loops: map<Id, LoopConfig>, owners: Owners) {
    forall l :: l in loops ==> Enclosed(owners, l, MAX_LOOP_NESTING_DEPTH - 1)
  }

  method CheckNesting(loops: map<Id, LoopConfig>, owners: Owners) returns (errors: seq<Issue>)
    ensures errors == [] <==> LoopsShallow(loops, owners)
    ensures Only(errors, {LimitExceeded})
  {
    errors := [];
    var rest := loops.Keys;
    while rest != {}
      invariant rest <= loops.Keys
      invariant errors == [] <==> forall l :: l in loops && l !in rest ==> Enclosed(owners, l, MAX_LOOP_NESTING_DEPTH - 1)
      invariant Only(errors, {LimitExceeded})
    {
      var l :| l in rest;
      var depth := DepthOf(l, {}, owners);
      if depth > MAX_LOOP_NESTING_DEPTH { errors := errors + [Issue(LimitExceeded, Some(l))]; }
      rest := rest - {l};
    }
  }

  // ---- one Step at a time ------------------------------------------------------------------------

  method CheckBindings(x: Id, bindings: seq<Binding>, ids: set<Id>, ancestors: Ancestors, owners: Owners)
    returns (errors: seq<Issue>)
    ensures errors == [] <==> SourcesVisible(x, bindings, ids, ancestors, owners)
    ensures Only(errors, {BindingInvalid})
  {
    errors := [];
    for k := 0 to |bindings|
      invariant errors == [] <==>
        forall j :: 0 <= j < k && bindings[j].StepOutput? ==> SourceVisible(x, bindings[j].source, ids, ancestors, owners)
      invariant Only(errors, {BindingInvalid})
    {
      if bindings[k].StepOutput? {
        var src := bindings[k].source;
        var refused;
        if src == x || src !in ids {
          refused := true;
        } else if x !in owners {
          refused := src in owners || src !in AncestorsIn(ancestors, x);
        } else {
          var ownerLoop := owners[x];
          if src in owners {
            refused := owners[src] != ownerLoop || src !in AncestorsIn(ancestors, x);
          } else {
            refused := src != ownerLoop && src !in AncestorsIn(ancestors, ownerLoop);
          }
        }
        if refused { errors := errors + [Issue(BindingInvalid, Some(x))]; }
      }
    }
  }

  /** What is reported as a binding fault of the when clause. */
  ghost predicate WhenFault(step: PlanStep, ids: set<Id>, ancestors: Ancestors, owners: Owners) {
    step.when.When? &&
    ((Kind(step.config).Loop? && LoopContext in step.when.bindings)
      || !SourcesVisible(step.id, step.when.bindings, ids, ancestors, owners))
  }

  /** What is reported as a binding fault of a config that parses. */
  ghost predicate ConfigFault(step: PlanStep, ids: set<Id>, ancestors: Ancestors, owners: Owners) {
    match step.config
    case ToolConfig(bindings) => !SourcesVisible(step.id, bindings, ids, ancestors, owners)
    case ConditionConfig(bindings) => !SourcesVisible(step.id, bindings, ids, ancestors, owners)
    case Looping(c) =>
      WellFormedLoop(c)
      && (c.collection == Some(LoopContext) || !SourcesVisible(step.id, LoopBindings(c), ids, ancestors, owners))
    case _ => false
  }

  ghost predicate StepFault(step: PlanStep, ids: set<Id>, ancestors: Ancestors, owners: Owners) {
    WhenFault(step, ids, ancestors, owners) || ConfigFault(step, ids, ancestors, owners)
  }

  ghost predicate IterationFault(step: PlanStep, limits: Limits) {
    step.config.Looping? && WellFormedLoop(step.config.loop) && step.config.loop.maxIterations > limits.maxLoopIterations
  }

  lemma HasOnly(errors: seq<Issue>, code: Code)
    requires Only(errors, {code})
    ensures Has(errors, code) <==> errors != []
    ensures forall other: Code :: other != code ==> !Has(errors, other)
  {
    if errors != [] { assert errors[0].code == code; }
  }

  method CheckWhen(step: PlanStep, ids: set<Id>, ancestors: Ancestors, owners: Owners) returns (errors: seq<Issue>)
    ensures errors == [] <==> WhenAccepted(step, ids, ancestors, owners)
    ensures Only(errors, {ConditionInvalid, BindingInvalid})
    ensures Has(errors, ConditionInvalid) <==> step.when.MalformedWhen?
    ensures Has(errors, BindingInvalid) <==> WhenFault(step, ids, ancestors, owners)
  {
    match step.when
    case Always => errors := [];
    case MalformedWhen =>
      errors := [Issue(ConditionInvalid, Some(step.id))];
      HasOnly(errors, ConditionInvalid);
    case When(bindings) =>
      errors := [];
      if Kind(step.config).Loop? && LoopContext in bindings {
        errors := [Issue(BindingInvalid, Some(step.id))];
      }
      var more := CheckBindings(step.id, bindings, ids, ancestors, owners);
      errors := errors + more;
      HasOnly(errors, BindingInvalid);
  }

  /** A config that does not parse is reported under one of two codes by the text of the
      parse error; here the code is the general one. */
  method CheckConfig(step: PlanStep, limits: Limits, ids: set<Id>, ancestors: Ancestors, owners: Owners)
    returns (errors: seq<Issue>)
    ensures errors == [] <==> ConfigParsesAndFits(step, limits, ids, ancestors, owners)
    ensures Only(errors, {SchemaInvalid, LimitExceeded, BindingInvalid})
    ensures Has(errors, BindingInvalid) <==> ConfigFault(step, ids, ancestors, owners)
    ensures Has(errors, LimitExceeded) <==> IterationFault(step, limits)
  {
    errors := [];
    match step.config
    case Malformed(_) =>
      errors := [Issue(SchemaInvalid, Some(step.id))];
    case ToolConfig(bindings) =>
      errors := CheckBindings(step.id, bindings, ids, ancestors, owners);
      HasOnly(errors, BindingInvalid);
    case ConditionConfig(bindings) =>
      errors := CheckBindings(step.id, bindings, ids, ancestors, owners);
      HasOnly(errors, BindingInvalid);
    case JoinConfig =>
    case ApprovalConfig =>
    case Looping(c) =>
      if !ParsesAsLoop(c) { return [Issue(SchemaInvalid, Some(step.id))]; }
      var late: seq<Issue> := if c.maxIterations > limits.maxLoopIterations then [Issue(LimitExceeded, Some(step.id))] else [];
      HasOnly(late, LimitExceeded);
      var more := CheckLoopBindings(step.id, c, ids, ancestors, owners);
      HasOnly(more, BindingInvalid);
      HasEither(late, more, LimitExceeded);
      HasEither(late, more, BindingInvalid);
      errors := late + more;
  }

  method CheckLoopBindings(x: Id, c: LoopConfig, ids: set<Id>, ancestors: Ancestors, owners: Owners)
    returns (errors: seq<Issue>)
    ensures errors == [] <==> c.collection != Some(LoopContext) && SourcesVisible(x, LoopBindings(c), ids, ancestors, owners)
    ensures Only(errors, {BindingInvalid})
  {
    errors := [];
    var bindings := [];
    if c.collection.Some? {
      if c.collection.value.LoopContext? {
        errors := errors + [Issue(BindingInvalid, Some(x))];
      } else {
        bindings := bindings + [c.collection.value];
      }
    }
    if c.condition.Some? { bindings := bindings + c.condition.value; }
    assert c.collection != Some(LoopContext) ==> bindings == LoopBindings(c);
    var more := CheckBindings(x, bindings, ids, ancestors, owners);
    errors := errors + more;
  }

  ghost predicate ConfigParsesAndFits(step: PlanStep, limits: Limits, ids: set<Id>, ancestors: Ancestors, owners: Owners) {
    step.config.JoinConfig? || ConfigAccepted(step, limits, ids, ancestors, owners)
  }

  ghost predicate StepsFit(plan: Plan, ancestors: Ancestors, owners: Owners) {
    forall i :: 0 <= i < |plan.steps| ==>
      && WhenAccepted(plan.steps[i], Ids(plan.steps), ancestors, owners)
      && ConfigParsesAndFits(plan.steps[i], plan.limits, Ids(plan.steps), ancestors, owners)
  }

  ghost predicate BindingFault(steps: seq<PlanStep>, ancestors: Ancestors, owners: Owners) {
    exists i :: 0 <= i < |steps| && StepFault(steps[i], Ids(steps), ancestors, owners)
  }

  ghost predicate AnyIterationFault(plan: Plan) {
    exists i :: 0 <= i < |plan.steps| && IterationFault(plan.steps[i], plan.limits)
  }

  ghost predicate AnyMalformedWhen(steps: seq<PlanStep>) {
    exists i :: 0 <= i < |steps| && steps[i].when.MalformedWhen?
  }

  method CheckSteps(plan: Plan, ancestors: Ancestors, owners: Owners) returns (errors: seq<Issue>)
    ensures errors == [] <==> StepsFit(plan, ancestors, owners)
    ensures Only(errors, {SchemaInvalid, LimitExceeded, ConditionInvalid, BindingInvalid})
    ensures Has(errors, ConditionInvalid) <==> AnyMalformedWhen(plan.steps)
    ensures Has(errors, BindingInvalid) <==> BindingFault(plan.steps, ancestors, owners)
    ensures Has(errors, LimitExceeded) <==> AnyIterationFault(plan)
  {
    hide WhenAccepted, ConfigParsesAndFits, Has, WhenFault, ConfigFault, IterationFault, Only;
    NoIssues();
    errors := [];
    for i := 0 to |plan.steps|
      invariant errors == [] <==> forall j :: 0 <= j < i ==>
        && WhenAccepted(plan.steps[j], Ids(plan.steps), ancestors, owners)
        && ConfigParsesAndFits(plan.steps[j], plan.limits, Ids(plan.steps), ancestors, owners)
      invariant Only(errors, {SchemaInvalid, LimitExceeded, ConditionInvalid, BindingInvalid})
      invariant Has(errors, ConditionInvalid) <==> exists j :: 0 <= j < i && plan.steps[j].when.MalformedWhen?
      invariant Has(errors, LimitExceeded) <==> exists j :: 0 <= j < i && IterationFault(plan.steps[j], plan.limits)
      invariant Has(errors, BindingInvalid) <==>
        exists j :: 0 <= j < i && StepFault(plan.steps[j], Ids(plan.steps), ancestors, owners)
    {
      var when := CheckWhen(plan.steps[i], Ids(plan.steps), ancestors, owners);
      var config := CheckConfig(plan.steps[i], plan.limits, Ids(plan.steps), ancestors, owners);
      CodesOfThree(errors, when, config);
      errors := errors + when + config;
    }
  }

  lemma NoIssues()
    ensures forall code: Code :: !Has([], code)
    ensures Only([], {SchemaInvalid, LimitExceeded, ConditionInvalid, BindingInvalid})
  {
  }

  lemma CodesOfThree(errors: seq<Issue>, when: seq<Issue>, config: seq<Issue>)
    requires Only(errors, {SchemaInvalid, LimitExceeded, ConditionInvalid, BindingInvalid})
    requires Only(when, {ConditionInvalid, BindingInvalid}) && Only(config, {SchemaInvalid, LimitExceeded, BindingInvalid})
    ensures var all := errors + when + config;
      && Only(all, {SchemaInvalid, LimitExceeded, ConditionInvalid, BindingInvalid})
      && (Has(all, ConditionInvalid) <==> Has(errors, ConditionInvalid) || Has(when, ConditionInvalid))
      && (Has(all, LimitExceeded) <==> Has(errors, LimitExceeded) || Has(config, LimitExceeded))
      && (Has(all, BindingInvalid) <==> Has(errors, BindingInvalid) || Has(when, BindingInvalid) || Has(config, BindingInvalid))
  {
    forall code: Code ensures Has(errors + when + config, code) <==> Has(errors, code) || Has(when, code) || Has(config, code) {
      HasEither(errors, when, code);
      HasEither(errors + when, config, code);
    }
  }

  ghost predicate JoinsFed(steps: seq<PlanStep>) {
    forall i :: 0 <= i < |steps| && Kind(steps[i].config).Join? ==> steps[i].dependsOn != []
  }

  method CheckJoins(steps: seq<PlanStep>) returns (errors: seq<Issue>)
    ensures errors == [] <==> JoinsFed(steps)
    ensures Only(errors, {SchemaInvalid})
  {
    errors := [];
    for i := 0 to |steps|
      invariant errors == [] <==> forall j :: 0 <= j < i && Kind(steps[j].config).Join? ==> steps[j].dependsOn != []
      invariant Only(errors, {SchemaInvalid})
    {
      if Kind(steps[i].config).Join? && steps[i].dependsOn == [] {
        errors := errors + [Issue(SchemaInvalid, Some(steps[i].id))];
      }
    }
  }

  // ---- the validator -------------------------------------------------------------------------------

  /** The checks that need the owner map, on a plan whose other checks may have failed. */
  method CheckWithOwners(plan: Plan, owners: Owners) returns (errors: seq<Issue>)
    ensures Only(errors, {SchemaInvalid, LimitExceeded, ConditionInvalid, BindingInvalid})
    ensures UniqueIds(plan.steps) && !HasCycle(plan.steps) && IsOwnerMap(plan.steps, owners) ==>
      (errors == [] <==> OwnersAccepted(plan, owners))
    ensures Has(errors, ConditionInvalid) <==> AnyMalformedWhen(plan.steps)
    ensures UniqueIds(plan.steps) && !HasCycle(plan.steps) ==>
      (Has(errors, BindingInvalid) <==> BindingFault(plan.steps, TrueAncestors(plan.steps), owners))
    ensures UniqueIds(plan.steps) ==> (Has(errors, LimitExceeded) <==> AnyIterationFault(plan) || TooDeep(plan.steps, owners))
  {
    hide UniqueIds, HasCycle, Responds, IsOwnerMap, OwnersAccepted, Only, TopLevelScoped, StepsFit, LoopsScoped,
      LoopsShallow, JoinsFed, IsLoopMap, Has, BindingFault, AnyIterationFault, AnyMalformedWhen, TooDeep;
    var ancestors := TransitiveAncestors(plan.steps);
    var loops := CollectLoops(plan.steps);
    var responses := CheckResponses(plan, owners);
    var topLevel := CheckTopLevel(plan.steps, owners);
    var perStep := CheckSteps(plan, ancestors, owners);
    var bodies := CheckBodies(plan.steps, loops);
    var nesting := CheckNesting(loops, owners);
    var joins := CheckJoins(plan.steps);
    errors := responses + topLevel + perStep + bodies + nesting + joins;
    OnlyInAll(responses, topLevel, perStep, bodies, nesting, joins);
    if UniqueIds(plan.steps) { ShallowLoops(plan.steps, loops, owners); }
    if UniqueIds(plan.steps) && !HasCycle(plan.steps) { assert ancestors == TrueAncestors(plan.steps); }
    if UniqueIds(plan.steps) && !HasCycle(plan.steps) && IsOwnerMap(plan.steps, owners) {
      RulesTogether(plan, owners, loops);
    }
  }

  /** Some LOOP lies deeper than the limit. */
  ghost predicate TooDeep(steps: seq<PlanStep>, owners: Owners) {
    exists l :: IsLoop(steps, l) && !Enclosed(owners, l, MAX_LOOP_NESTING_DEPTH - 1)
  }

  lemma ShallowLoops(steps: seq<PlanStep>, loops: map<Id, LoopConfig>, owners: Owners)
    requires IsLoopMap(steps, loops)
    ensures LoopsShallow(loops, owners) <==> !TooDeep(steps, owners)
  {
    hide IsLoop, IsLoopMap;
    LoopsAreIsLoop(steps, loops);
  }

  lemma RulesTogether(plan: Plan, owners: Owners, loops: map<Id, LoopConfig>)
    requires IsLoopMap(plan.steps, loops)
    ensures OwnersAccepted(plan, owners) <==>
      && Responds(plan, owners)
      && TopLevelScoped(plan.steps, owners)
      && StepsFit(plan, TrueAncestors(plan.steps), owners)
      && LoopsScoped(plan.steps, loops)
      && LoopsShallow(loops, owners)
      && JoinsFed(plan.steps)
  {
    hide Responds, TopLevelScoped, WhenAccepted, LoopsScoped, SourcesVisible, IsLoopMap, IsLoop;
    BodiesScoped(plan.steps, loops);
    LoopsAreIsLoop(plan.steps, loops);
  }

  lemma OnlyInAll(a: seq<Issue>, b: seq<Issue>, c: seq<Issue>, d: seq<Issue>, e: seq<Issue>, f: seq<Issue>)
    requires Only(a, {SchemaInvalid}) && Only(b, {SchemaInvalid})
    requires Only(c, {SchemaInvalid, LimitExceeded, ConditionInvalid, BindingInvalid})
    requires Only(d, {SchemaInvalid}) && Only(e, {LimitExceeded}) && Only(f, {SchemaInvalid})
    ensures var all := a + b + c + d + e + f;
      && Only(all, {SchemaInvalid, LimitExceeded, ConditionInvalid, BindingInvalid})
      && (Has(all, ConditionInvalid) <==> Has(c, ConditionInvalid))
      && (Has(all, BindingInvalid) <==> Has(c, BindingInvalid))
      && (Has(all, LimitExceeded) <==> Has(c, LimitExceeded) || e != [])
  {
    HasAny(a, b, c, d, e, f, ConditionInvalid);
    HasAny(a, b, c, d, e, f, BindingInvalid);
    HasAny(a, b, c, d, e, f, LimitExceeded);
    HasOnly(e, LimitExceeded);
  }

  lemma LoopsAreIsLoop(steps: seq<PlanStep>, loops: map<Id, LoopConfig>)
    requires IsLoopMap(steps, loops)
    ensures forall l :: l in loops <==> IsLoop(steps, l)
  {
    forall l ensures l in loops <==> IsLoop(steps, l) {
      if l in loops { assert LoopConfigOf(steps, l, loops[l]); }
      if IsLoop(steps, l) {
        var i :| 0 <= i < |steps| && steps[i].id == l && steps[i].config.Looping? && WellFormedLoop(steps[i].config.loop);
        assert IsLoopAt(steps[i], l, steps[i].config.loop) && LoopConfigOf(steps, l, steps[i].config.loop);
      }
    }
  }

  method Validate(plan: Plan) returns (errors: seq<Issue>)
    ensures errors == [] <==> Accepted(plan)
    ensures Has(errors, StepDuplicate) <==> !UniqueIds(plan.steps)
    ensures Has(errors, DependencyMissing) <==> !DependenciesExist(plan.steps)
    ensures Has(errors, CycleDetected) <==> HasCycle(plan.steps)
    ensures Has(errors, ConditionInvalid) <==> AnyMalformedWhen(plan.steps)
    ensures forall owners :: UniqueIds(plan.steps) && BodiesExist(plan.steps, Ids(plan.steps)) && IsOwnerMap(plan.steps, owners) ==>
      && (Has(errors, LimitExceeded) <==> !WithinLimits(plan) || AnyIterationFault(plan) || TooDeep(plan.steps, owners))
      && (!HasCycle(plan.steps) ==> (Has(errors, BindingInvalid) <==> BindingFault(plan.steps, TrueAncestors(plan.steps), owners)))
  {
    hide Identified, DependenciesExist, UniqueIds, HasCycle, WithinLimits, BodiesExist, OwnersAccepted, Has, Only,
      AnyMalformedWhen, AnyIterationFault, TooDeep, BindingFault;
    var steps := plan.steps;
    var identity := CheckIdentity(plan);
    var dependencies := CheckDependencies(steps);
    var graph := CheckGraph(steps);
    var limits := CheckLimits(plan);
    var bodies, owners := CollectOwners(steps);
    var scopes := CheckWithOwners(plan, owners);
    errors := identity + dependencies + graph + limits + bodies + scopes;
    CodesOfAll(identity, dependencies, graph, limits, bodies, scopes);
    IdentifiedUnique(plan);
    if UniqueIds(steps) {
      forall m | IsOwnerMap(steps, m) && IsOwnerMap(steps, owners) ensures m == owners { OwnerMapUnique(steps, m, owners); }
    }
  }

  lemma IdentifiedUnique(plan: Plan)
    ensures Identified(plan) ==> UniqueIds(plan.steps)
  {
  }

  lemma OwnerMapUnique(steps: seq<PlanStep>, m: Owners, n: Owners)
    requires IsOwnerMap(steps, m) && IsOwnerMap(steps, n)
    ensures m == n
  {
    forall b ensures b in m <==> b in n {
      if b in m { assert Owns(steps, m[b], b); }
      if b in n { assert Owns(steps, n[b], b); }
    }
  }

  lemma CodesOfAll(a: seq<Issue>, b: seq<Issue>, c: seq<Issue>, d: seq<Issue>, e: seq<Issue>, f: seq<Issue>)
    requires Only(a, {SchemaInvalid, StepDuplicate}) && Only(b, {DependencyMissing}) && Only(c, {CycleDetected, SchemaInvalid})
    requires Only(d, {LimitExceeded}) && Only(e, {SchemaInvalid})
    requires Only(f, {SchemaInvalid, LimitExceeded, ConditionInvalid, BindingInvalid})
    ensures var all := a + b + c + d + e + f;
      && (Has(all, StepDuplicate) <==> Has(a, StepDuplicate))
      && (Has(all, DependencyMissing) <==> b != [])
      && (Has(all, CycleDetected) <==> Has(c, CycleDetected))
      && (Has(all, ConditionInvalid) <==> Has(f, ConditionInvalid))
      && (Has(all, BindingInvalid) <==> Has(f, BindingInvalid))
      && (Has(all, LimitExceeded) <==> d != [] || Has(f, LimitExceeded))
      && (all == [] <==> a == b == c == d == e == f == [])
  {
    forall code: Code
      ensures Has(a + b + c + d + e + f, code) <==>
        Has(a, code) || Has(b, code) || Has(c, code) || Has(d, code) || Has(e, code) || Has(f, code)
    {
      HasAny(a, b, c, d, e, f, code);
    }
    HasOnly(b, DependencyMissing);
    HasOnly(d, LimitExceeded);
  }

  lemma HasAny(a: seq<Issue>, b: seq<Issue>, c: seq<Issue>, d: seq<Issue>, e: seq<Issue>, f: seq<Issue>, code: Code)
    ensures Has(a + b + c + d + e + f, code) <==>
      Has(a, code) || Has(b, code) || Has(c, code) || Has(d, code) || Has(e, code) || Has(f, code)
  {
    hide Has;
    HasEither(a, b, code);
    HasEither(a + b, c, code);
    HasEither(a + b + c, d, code);
    HasEither(a + b + c + d, e, code);
    HasEither(a + b + c + d + e, f, code);
  }
}
