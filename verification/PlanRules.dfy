/** What an accepted plan is, said of its Steps alone: who names whom, who owns whom, and
    from where a chain of dependencies leads where. */
module PlanRules {
  import opened ExecutionRows
  import opened PlanModel
  import opened PlanGraph
  import opened PlanValidator
  import opened PlanSchedule

  ghost predicate InSomeBody(steps: seq<PlanStep>, x: Id) {
    exists l :: Owns(steps, l, x)
  }

  /** A chain of dependencies leads from src to x. */
  ghost predicate Upstream(steps: seq<PlanStep>, src: Id, x: Id) {
    exists p :: IsChainBetween(steps, p, src, x)
  }

  // ---- what a Step may read --------------------------------------------------------------

  ghost predicate BothOutside(steps: seq<PlanStep>, x: Id, src: Id) {
    !InSomeBody(steps, x) && !InSomeBody(steps, src) && Upstream(steps, src, x)
  }

  ghost predicate SameBody(steps: seq<PlanStep>, x: Id, src: Id) {
    && (exists l :: Owns(steps, l, x) && Owns(steps, l, src))
    && Upstream(steps, src, x)
  }

  ghost predicate FromAround(steps: seq<PlanStep>, x: Id, src: Id) {
    && !InSomeBody(steps, src)
    && exists l :: Owns(steps, l, x) && (src == l || Upstream(steps, src, l))
  }

  /** A Step reads what lies upstream of it, outside every body or in its own; and from inside
      a body, its LOOP and what lies upstream of that, outside every body. */
  ghost predicate MayRead(steps: seq<PlanStep>, x: Id, src: Id) {
    BothOutside(steps, x, src) || SameBody(steps, x, src) || FromAround(steps, x, src)
  }

  lemma BodyByOwner(steps: seq<PlanStep>, owners: Owners, x: Id)
    requires IsOwnerMap(steps, owners)
    ensures InSomeBody(steps, x) <==> x in owners
    ensures forall l :: Owns(steps, l, x) <==> x in owners && owners[x] == l
  {
    hide Owns;
    if x in owners { assert Owns(steps, owners[x], x); }
  }

  lemma UpstreamMeans(steps: seq<PlanStep>, x: Id, src: Id)
    requires UniqueIds(steps)
    ensures Upstream(steps, src, x) <==> src in AllAncestors(steps, x)
    ensures Upstream(steps, src, x) ==> src in Ids(steps) && x in Ids(steps)
  {
    AncestorsAreChains(steps, x, src);
    if p :| IsChainBetween(steps, p, src, x) {
      assert DependsOn(steps, p[|p| - 1], p[|p| - 2]);
    }
  }

  lemma UpstreamOfItself(steps: seq<PlanStep>, x: Id)
    ensures Upstream(steps, x, x) ==> HasCycle(steps)
  {
    if p :| IsChainBetween(steps, p, x, x) { assert IsChain(steps, p) && |p| >= 2 && p[0] == p[|p| - 1]; }
  }

  /** The validator lets a Step read exactly what it may. */
  lemma VisibleMeans(steps: seq<PlanStep>, owners: Owners, x: Id, src: Id)
    requires UniqueIds(steps) && !HasCycle(steps) && IsOwnerMap(steps, owners) && BodiesExist(steps, Ids(steps))
    requires x in Ids(steps)
    ensures SourceVisible(x, src, Ids(steps), TrueAncestors(steps), owners) <==> MayRead(steps, x, src)
  {
    BodyByOwner(steps, owners, x);
    BodyByOwner(steps, owners, src);
    UpstreamOfItself(steps, x);
    UpstreamMeans(steps, x, src);
    if x in owners {
      OwnerExists(steps, owners[x], x);
      UpstreamMeans(steps, owners[x], src);
    }
    hide IsOwnerMap, InSomeBody, Upstream, Ids, AllAncestors, HasCycle, UniqueIds, Owns;
  }

  lemma OwnerExists(steps: seq<PlanStep>, l: Id, b: Id)
    requires Owns(steps, l, b)
    ensures l in Ids(steps)
  {
  }

  // ---- how deep LOOPs nest ------------------------------------------------------------------

  /** Each is in the body of the one before it. */
  ghost predicate Nested(steps: seq<PlanStep>, chain: seq<Id>) {
    chain != [] && forall k :: 0 <= k < |chain| - 1 ==> Owns(steps, chain[k], chain[k + 1])
  }

  ghost predicate NestedDownTo(steps: seq<PlanStep>, chain: seq<Id>, x: Id) {
    Nested(steps, chain) && chain[|chain| - 1] == x
  }

  /** At most n LOOPs on the way down to x, x counted. */
  ghost predicate NestsWithin(steps: seq<PlanStep>, x: Id, n: nat) {
    forall chain :: NestedDownTo(steps, chain, x) ==> |chain| <= n
  }

  lemma {:induction false} EnclosedMeans(steps: seq<PlanStep>, owners: Owners, x: Id, n: nat)
    requires IsOwnerMap(steps, owners)
    ensures Enclosed(owners, x, n) <==> NestsWithin(steps, x, n + 1)
    decreases n
  {
    hide Owns;
    if x !in owners {
      forall chain | NestedDownTo(steps, chain, x) ensures |chain| == 1 { OwnedBelow(steps, owners, chain, x); }
    } else if n == 0 {
      assert Owns(steps, owners[x], x);
      assert NestedDownTo(steps, [owners[x], x], x);
    } else {
      EnclosedMeans(steps, owners, owners[x], n - 1);
      OneDeeper(steps, owners, x, n);
    }
  }

  lemma OwnedBelow(steps: seq<PlanStep>, owners: Owners, chain: seq<Id>, x: Id)
    requires IsOwnerMap(steps, owners) && NestedDownTo(steps, chain, x)
    ensures |chain| > 1 ==> x in owners
  {
    hide Owns;
    if |chain| > 1 { assert Owns(steps, chain[|chain| - 2], chain[|chain| - 1]); }
  }

  lemma OneDeeper(steps: seq<PlanStep>, owners: Owners, x: Id, n: nat)
    requires IsOwnerMap(steps, owners) && x in owners && n > 0
    ensures NestsWithin(steps, x, n + 1) <==> NestsWithin(steps, owners[x], n)
  {
    hide Owns;
    assert Owns(steps, owners[x], x);
    if NestsWithin(steps, x, n + 1) {
      forall chain | NestedDownTo(steps, chain, owners[x]) ensures |chain| <= n {
        assert NestedDownTo(steps, chain + [x], x);
      }
    }
    if NestsWithin(steps, owners[x], n) {
      forall chain | NestedDownTo(steps, chain, x) ensures |chain| <= n + 1 {
        if |chain| > 1 {
          var m := |chain| - 1;
          assert Owns(steps, chain[m - 1], chain[m]);
          assert NestedDownTo(steps, chain[..m], owners[x]);
        }
      }
    }
  }

  /** Somewhere in its when clause or its config the Step takes the output of src. */
  ghost predicate Reads(step: PlanStep, src: Id) {
    || (step.when.When? && StepOutput(src) in step.when.bindings)
    || ((step.config.ToolConfig? || step.config.ConditionConfig?) && StepOutput(src) in step.config.bindings)
    || (step.config.Looping? && ReadsInLoop(step.config.loop, src))
  }

  ghost predicate ReadsInLoop(c: LoopConfig, src: Id) {
    c.collection == Some(StepOutput(src)) || (c.condition.Some? && StepOutput(src) in c.condition.value)
  }

  lemma ReadsMeans(step: PlanStep, src: Id)
    ensures Reads(step, src) <==> StepOutput(src) in BindingsOf(step)
  {
    if step.config.Looping? {
      var c := step.config.loop;
      var first := if c.collection.Some? then [c.collection.value] else [];
      var more := if c.condition.Some? then c.condition.value else [];
      assert LoopBindings(c) == first + more;
    }
  }

  // ---- the rules ------------------------------------------------------------------------------

  /** What a Step may wait for: inside a body its LOOP and its fellows, outside what is outside. */
  ghost predicate MayDepend(steps: seq<PlanStep>, x: Id, d: Id) {
    && (InSomeBody(steps, d) ==> InSomeBody(steps, x))
    && (forall l :: Owns(steps, l, x) ==> d == l || Owns(steps, l, d))
  }

  ghost predicate LoopObeys(c: LoopConfig, limits: Limits) {
    && 1 <= c.maxIterations <= limits.maxLoopIterations
    && |c.body| >= 1 && Distinct(c.body) && (forall b :: b in c.body ==> !Blank(b))
    && (if c.mode.ForEach? then c.collection.Some? && c.condition.None? && !c.collection.value.LoopContext?
        else c.condition.Some? && c.collection.None?)
  }

  ghost predicate StepObeys(plan: Plan, step: PlanStep) {
    && !step.when.MalformedWhen? && !step.config.Malformed?
    && (step.config.JoinConfig? ==> |step.dependsOn| >= 1)
    && (step.config.Looping? ==>
          LoopObeys(step.config.loop, plan.limits) && (step.when.When? ==> LoopContext !in step.when.bindings))
    && (forall src :: Reads(step, src) ==> MayRead(plan.steps, step.id, src))
    && (forall d :: d in step.dependsOn ==> MayDepend(plan.steps, step.id, d))
  }

  ghost predicate LimitsObey(plan: Plan) {
    && plan.limits.maxSteps <= 100 && plan.limits.maxDurationSeconds <= 3600
    && plan.limits.maxParallelism <= 32 && plan.limits.maxLoopIterations <= 500
    && |plan.steps| <= plan.limits.maxSteps
  }

  ghost predicate Obeys(plan: Plan) {
    && Identified(plan) && DependenciesExist(plan.steps) && !HasCycle(plan.steps) && LimitsObey(plan)
    && BodiesExist(plan.steps, Ids(plan.steps))
    && (forall i :: 0 <= i < |plan.steps| ==> StepObeys(plan, plan.steps[i]))
    && (forall l :: IsLoop(plan.steps, l) ==> NestsWithin(plan.steps, l, 3))
    && plan.responseStepIds != [] && Distinct(plan.responseStepIds)
    && (forall r :: r in plan.responseStepIds ==> r in Ids(plan.steps) && !InSomeBody(plan.steps, r))
  }

  ghost function OwnerOf(steps: seq<PlanStep>, b: Id): Id
    requires InSomeBody(steps, b)
  {
    var l :| Owns(steps, l, b);
    l
  }

  lemma OwnersOf(steps: seq<PlanStep>) returns (owners: Owners)
    requires BodiesExist(steps, Ids(steps))
    ensures IsOwnerMap(steps, owners)
  {
    hide Owns;
    owners := map b | b in Ids(steps) && InSomeBody(steps, b) :: OwnerOf(steps, b);
  }

  lemma SourcesMean(plan: Plan, owners: Owners, step: PlanStep, bindings: seq<Binding>)
    requires UniqueIds(plan.steps) && !HasCycle(plan.steps) && IsOwnerMap(plan.steps, owners)
    requires BodiesExist(plan.steps, Ids(plan.steps)) && step.id in Ids(plan.steps)
    ensures SourcesVisible(step.id, bindings, Ids(plan.steps), TrueAncestors(plan.steps), owners) <==>
      MayReadAll(plan, step, bindings)
  {
    hide SourceVisible, MayRead, UniqueIds, HasCycle, IsOwnerMap, BodiesExist, TrueAncestors;
    forall src
      ensures SourceVisible(step.id, src, Ids(plan.steps), TrueAncestors(plan.steps), owners) <==> MayRead(plan.steps, step.id, src)
    {
      VisibleMeans(plan.steps, owners, step.id, src);
    }
    if SourcesVisible(step.id, bindings, Ids(plan.steps), TrueAncestors(plan.steps), owners) {
      forall src | StepOutput(src) in bindings ensures MayRead(plan.steps, step.id, src) {
        var k :| 0 <= k < |bindings| && bindings[k] == StepOutput(src);
        assert bindings[k].StepOutput? && bindings[k].source == src;
      }
    }
    if MayReadAll(plan, step, bindings) {
      forall k | 0 <= k < |bindings| && bindings[k].StepOutput?
        ensures SourceVisible(step.id, bindings[k].source, Ids(plan.steps), TrueAncestors(plan.steps), owners)
      {
        assert StepOutput(bindings[k].source) in bindings;
      }
    }
  }

  ghost predicate MayReadAll(plan: Plan, step: PlanStep, bindings: seq<Binding>) {
    forall src :: StepOutput(src) in bindings ==> MayRead(plan.steps, step.id, src)
  }

  ghost function WhenBindings(step: PlanStep): seq<Binding> {
    if step.when.When? then step.when.bindings else []
  }

  ghost function ConfigBindings(config: Config): seq<Binding> {
    if config.ToolConfig? || config.ConditionConfig? then config.bindings
    else if config.Looping? then LoopBindings(config.loop)
    else []
  }

  lemma BindingsTogether(plan: Plan, step: PlanStep)
    ensures MayReadAll(plan, step, BindingsOf(step)) <==>
      MayReadAll(plan, step, WhenBindings(step)) && MayReadAll(plan, step, ConfigBindings(step.config))
  {
    hide MayRead;
    assert BindingsOf(step) == WhenBindings(step) + ConfigBindings(step.config);
    assert forall src :: StepOutput(src) in BindingsOf(step) <==>
      StepOutput(src) in WhenBindings(step) || StepOutput(src) in ConfigBindings(step.config);
  }

  lemma LoopMeans(c: LoopConfig, limits: Limits)
    ensures LoopObeys(c, limits) <==>
      WellFormedLoop(c) && c.maxIterations <= limits.maxLoopIterations && c.collection != Some(LoopContext)
  {
    hide Blank;
  }

  /** A Step passes the validator's checks of its when clause and its config exactly when it
      obeys the rules, those on its dependencies aside. */
  lemma StepMeans(plan: Plan, owners: Owners, step: PlanStep)
    requires UniqueIds(plan.steps) && !HasCycle(plan.steps) && IsOwnerMap(plan.steps, owners)
    requires BodiesExist(plan.steps, Ids(plan.steps)) && step.id in Ids(plan.steps)
    ensures StepPasses(plan, owners, step) <==> StepObeys(plan, step)
  {
    SourcesMean(plan, owners, step, WhenBindings(step));
    SourcesMean(plan, owners, step, ConfigBindings(step.config));
    BindingsTogether(plan, step);
    forall src ensures Reads(step, src) <==> StepOutput(src) in BindingsOf(step) { ReadsMeans(step, src); }
    hide Reads, SourcesVisible, MayRead, MayDepend, UniqueIds, HasCycle, IsOwnerMap, BodiesExist, TrueAncestors, Ids, BindingsOf,
      LoopObeys, WellFormedLoop;
    if step.config.Looping? { LoopMeans(step.config.loop, plan.limits); }
  }

  ghost predicate StepPasses(plan: Plan, owners: Owners, step: PlanStep) {
    && WhenAccepted(step, Ids(plan.steps), TrueAncestors(plan.steps), owners)
    && ConfigAccepted(step, plan.limits, Ids(plan.steps), TrueAncestors(plan.steps), owners)
    && forall d :: d in step.dependsOn ==> MayDepend(plan.steps, step.id, d)
  }

  lemma DependenciesMean(plan: Plan, owners: Owners)
    requires IsOwnerMap(plan.steps, owners)
    ensures Scoped(plan.steps, owners) <==>
      forall i, d :: 0 <= i < |plan.steps| && d in plan.steps[i].dependsOn ==> MayDepend(plan.steps, plan.steps[i].id, d)
  {
    forall x ensures InSomeBody(plan.steps, x) <==> x in owners { BodyByOwner(plan.steps, owners, x); }
    hide Owns, InSomeBody, IsOwnerMap;
  }

  lemma NestingMeans(steps: seq<PlanStep>, owners: Owners)
    requires IsOwnerMap(steps, owners)
    ensures (forall l :: IsLoop(steps, l) ==> Enclosed(owners, l, MAX_LOOP_NESTING_DEPTH - 1)) <==>
      (forall l :: IsLoop(steps, l) ==> NestsWithin(steps, l, 3))
  {
    hide Enclosed, NestsWithin, IsLoop, IsOwnerMap;
    forall l | IsLoop(steps, l) ensures Enclosed(owners, l, MAX_LOOP_NESTING_DEPTH - 1) <==> NestsWithin(steps, l, 3) {
      EnclosedMeans(steps, owners, l, MAX_LOOP_NESTING_DEPTH - 1);
    }
  }

  lemma ResponsesMean(plan: Plan, owners: Owners)
    requires IsOwnerMap(plan.steps, owners)
    ensures Responds(plan, owners) <==>
      && plan.responseStepIds != [] && Distinct(plan.responseStepIds)
      && (forall r :: r in plan.responseStepIds ==> r in Ids(plan.steps) && !InSomeBody(plan.steps, r))
  {
    forall x ensures InSomeBody(plan.steps, x) <==> x in owners { BodyByOwner(plan.steps, owners, x); }
    hide InSomeBody, IsOwnerMap;
  }

  /** A plan is accepted exactly when it obeys the rules. */
  lemma AcceptedMeans(plan: Plan)
    ensures Accepted(plan) <==> Obeys(plan)
  {
    if Identified(plan) && DependenciesExist(plan.steps) && !HasCycle(plan.steps) && BodiesExist(plan.steps, Ids(plan.steps)) {
      var owners := OwnersOf(plan.steps);
      forall m | IsOwnerMap(plan.steps, m) ensures m == owners { OwnerMapUnique(plan.steps, m, owners); }
      OwnedMeans(plan, owners);
    }
    hide Identified, DependenciesExist, HasCycle, BodiesExist, IsOwnerMap, StepObeys, NestsWithin, IsLoop, OwnersAccepted;
  }

  lemma OwnedMeans(plan: Plan, owners: Owners)
    requires IsOwnerMap(plan.steps, owners) && UniqueIds(plan.steps) && !HasCycle(plan.steps)
    requires BodiesExist(plan.steps, Ids(plan.steps))
    ensures OwnersAccepted(plan, owners) <==>
      && (forall i :: 0 <= i < |plan.steps| ==> StepObeys(plan, plan.steps[i]))
      && (forall l :: IsLoop(plan.steps, l) ==> NestsWithin(plan.steps, l, 3))
      && plan.responseStepIds != [] && Distinct(plan.responseStepIds)
      && (forall r :: r in plan.responseStepIds ==> r in Ids(plan.steps) && !InSomeBody(plan.steps, r))
  {
    hide WhenAccepted, ConfigAccepted, MayDepend, StepObeys, IsOwnerMap, UniqueIds, HasCycle, BodiesExist,
      NestsWithin, IsLoop, Enclosed, TrueAncestors, Distinct, InSomeBody, Scoped, Responds;
    DependenciesMean(plan, owners);
    NestingMeans(plan.steps, owners);
    ResponsesMean(plan, owners);
    forall i | 0 <= i < |plan.steps| ensures StepPasses(plan, owners, plan.steps[i]) <==> StepObeys(plan, plan.steps[i]) {
      StepMeans(plan, owners, plan.steps[i]);
    }
    PassesEverywhere(plan, owners);
  }

  lemma PassesEverywhere(plan: Plan, owners: Owners)
    ensures (forall i :: 0 <= i < |plan.steps| ==> StepPasses(plan, owners, plan.steps[i])) <==>
      && StepsAccepted(plan, TrueAncestors(plan.steps), owners)
      && forall i, d :: 0 <= i < |plan.steps| && d in plan.steps[i].dependsOn ==> MayDepend(plan.steps, plan.steps[i].id, d)
  {
    hide WhenAccepted, ConfigAccepted, MayDepend;
  }
}
