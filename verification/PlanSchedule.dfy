/** What acceptance buys: every accepted plan can be carried out one Step at a time. */
module PlanSchedule {
  import opened ExecutionRows
  import opened Text
  import opened PlanModel
  import opened PlanGraph
  import opened PlanValidator

  /** All bindings of a Step, in its when clause and in its config. */
  ghost function BindingsOf(step: PlanStep): seq<Binding> {
    (if step.when.When? then step.when.bindings else []) +
    match step.config
    case ToolConfig(bindings) => bindings
    case ConditionConfig(bindings) => bindings
    case Looping(c) => LoopBindings(c)
    case _ => []
  }

  /** Step x has to come before the given Step: it is a dependency, the owning LOOP, or the
      source of a STEP_OUTPUT binding. */
  ghost predicate Needs(steps: seq<PlanStep>, step: PlanStep, x: Id) {
    || x in step.dependsOn
    || Owns(steps, x, step.id)
    || StepOutput(x) in BindingsOf(step)
  }

  /** Step x is in the body of LOOP l, or in that of a LOOP nested in it, n levels down at most. */
  ghost predicate InBody(steps: seq<PlanStep>, l: Id, x: Id, n: nat)
    decreases n
  {
    n > 0 && exists m :: Owns(steps, m, x) && (m == l || InBody(steps, l, m, n - 1))
  }

  ghost predicate Inside(steps: seq<PlanStep>, l: Id, x: Id) {
    exists n: nat :: InBody(steps, l, x, n)
  }

  ghost predicate Precedes(order: seq<Id>, x: Id, y: Id) {
    exists p, q :: 0 <= p < q < |order| && order[p] == x && order[q] == y
  }

  /** order lists every Step once, each after all it needs; and where what it needs is a LOOP
      it is not inside, after everything inside that LOOP. */
  ghost predicate Schedules(plan: Plan, order: seq<Id>) {
    && |order| == |plan.steps|
    && Distinct(order)
    && (forall x :: x in order <==> x in Ids(plan.steps))
    && (forall i, x :: 0 <= i < |plan.steps| && Needs(plan.steps, plan.steps[i], x) ==> Precedes(order, x, plan.steps[i].id))
    && (forall i, l, x | 0 <= i < |plan.steps| && Needs(plan.steps, plan.steps[i], l) && Inside(plan.steps, l, x) ::
          Inside(plan.steps, l, plan.steps[i].id) || Precedes(order, x, plan.steps[i].id))
  }

  // ---- places, compared as in a dictionary ----------------------------------------------------

  type Place = seq<nat>

  /** What is a proper prefix of another comes before it. */
  predicate Before(a: Place, b: Place) {
    b != [] && (a == [] || a[0] < b[0] || (a[0] == b[0] && Before(a[1..], b[1..])))
  }

  lemma {:induction false} BeforeJoins(a: Place, b: Place, c: Place)
    requires Before(a, b) && Before(b, c)
    ensures Before(a, c)
  {
    if a != [] && a[0] == b[0] && b[0] == c[0] { BeforeJoins(a[1..], b[1..], c[1..]); }
  }

  lemma {:induction false} NotBeforeItself(a: Place)
    ensures !Before(a, a)
  {
    if a != [] { NotBeforeItself(a[1..]); }
  }

  lemma {:induction false} SharedPrefix(p: Place, a: Place, b: Place)
    ensures Before(p + a, p + b) <==> Before(a, b)
  {
    if p == [] {
      assert p + a == a && p + b == b;
    } else {
      assert (p + a)[1..] == p[1..] + a && (p + b)[1..] == p[1..] + b;
      SharedPrefix(p[1..], a, b);
    }
  }

  lemma LowerBefore(p: Place, r: nat, t: nat, place: Place)
    requires p + [r] <= place && r < t
    ensures Before(place, p + [t])
  {
    var rest := place[|p|..];
    assert place == p + rest;
    SharedPrefix(p, rest, [t]);
  }

  ghost function Rank(steps: seq<PlanStep>, x: Id): nat {
    |AllAncestors(steps, x)|
  }

  ghost predicate Shallow(owners: Owners) {
    forall x :: Enclosed(owners, x, MAX_LOOP_NESTING_DEPTH)
  }

  ghost predicate Ordered(plan: Plan, owners: Owners) {
    && Accepted(plan) && IsOwnerMap(plan.steps, owners) && OwnersAccepted(plan, owners) && Shallow(owners)
  }

  lemma AcceptedShallow(plan: Plan, owners: Owners)
    requires IsOwnerMap(plan.steps, owners) && OwnersAccepted(plan, owners)
    ensures Shallow(owners)
  {
    forall x ensures Enclosed(owners, x, MAX_LOOP_NESTING_DEPTH) {
      if x in owners {
        assert Owns(plan.steps, owners[x], x);
        assert IsLoop(plan.steps, owners[x]);
      }
    }
  }

  /** The ranks of the LOOPs around x, from the outermost in, and its own. */
  ghost function Trail(steps: seq<PlanStep>, owners: Owners, x: Id, n: nat): Place
    requires Enclosed(owners, x, n)
    decreases n
  {
    (if x in owners then Trail(steps, owners, owners[x], n - 1) else []) + [Rank(steps, x)]
  }

  lemma {:induction false} TrailFixed(steps: seq<PlanStep>, owners: Owners, x: Id, n: nat, m: nat)
    requires Enclosed(owners, x, n) && Enclosed(owners, x, m)
    ensures Trail(steps, owners, x, n) == Trail(steps, owners, x, m)
    decreases n
  {
    if x in owners { TrailFixed(steps, owners, owners[x], n - 1, m - 1); }
  }

  ghost function PlaceOf(steps: seq<PlanStep>, owners: Owners, x: Id): Place
    requires Shallow(owners)
  {
    Trail(steps, owners, x, MAX_LOOP_NESTING_DEPTH)
  }

  lemma PlaceByOwner(steps: seq<PlanStep>, owners: Owners, x: Id)
    requires Shallow(owners)
    ensures PlaceOf(steps, owners, x) ==
      (if x in owners then PlaceOf(steps, owners, owners[x]) else []) + [Rank(steps, x)]
  {
    assert Enclosed(owners, x, MAX_LOOP_NESTING_DEPTH);
    if x in owners {
      assert Enclosed(owners, owners[x], MAX_LOOP_NESTING_DEPTH);
      TrailFixed(steps, owners, owners[x], MAX_LOOP_NESTING_DEPTH - 1, MAX_LOOP_NESTING_DEPTH);
    }
  }

  lemma OwnerFirst(steps: seq<PlanStep>, owners: Owners, l: Id, x: Id)
    requires Shallow(owners) && x in owners && owners[x] == l
    ensures Before(PlaceOf(steps, owners, l), PlaceOf(steps, owners, x))
  {
    hide Shallow, PlaceOf, Rank;
    var p := PlaceOf(steps, owners, l);
    PlaceByOwner(steps, owners, x);
    SharedPrefix(p, [], [Rank(steps, x)]);
    assert p + [] == p;
  }

  /** A dependency is the owning LOOP or has the same owner, if any. */
  lemma DependencyBeside(plan: Plan, owners: Owners, i: nat, d: Id)
    requires Ordered(plan, owners) && i < |plan.steps| && d in plan.steps[i].dependsOn
    ensures var x := plan.steps[i].id;
      || (x in owners && owners[x] == d)
      || (x in owners && d in owners && owners[d] == owners[x])
      || (x !in owners && d !in owners)
  {
    var x := plan.steps[i].id;
    if x in owners && owners[x] != d {
      assert Owns(plan.steps, owners[x], plan.steps[i].id);
      assert Owns(plan.steps, owners[x], d);
    }
  }

  /** Of two Steps side by side the one of lower rank comes first, with all that extends it. */
  lemma BesideFirst(steps: seq<PlanStep>, owners: Owners, d: Id, x: Id, place: Place)
    requires Shallow(owners) && Rank(steps, d) < Rank(steps, x)
    requires (d in owners <==> x in owners) && (x in owners ==> owners[d] == owners[x])
    requires PlaceOf(steps, owners, d) <= place
    ensures Before(place, PlaceOf(steps, owners, x))
  {
    PlaceByOwner(steps, owners, d);
    PlaceByOwner(steps, owners, x);
    hide *;
    var p := if x in owners then PlaceOf(steps, owners, owners[x]) else [];
    LowerBefore(p, Rank(steps, d), Rank(steps, x), place);
  }

  lemma DependencyFirst(plan: Plan, owners: Owners, i: nat, d: Id)
    requires Ordered(plan, owners) && i < |plan.steps| && d in plan.steps[i].dependsOn
    ensures Before(PlaceOf(plan.steps, owners, d), PlaceOf(plan.steps, owners, plan.steps[i].id))
  {
    var x := plan.steps[i].id;
    DependencyBeside(plan, owners, i, d);
    if x in owners && owners[x] == d {
      OwnerFirst(plan.steps, owners, d, x);
    } else {
      RankGrows(plan, i, d);
      BesideFirst(plan.steps, owners, d, x, PlaceOf(plan.steps, owners, d));
    }
  }

  lemma RankGrows(plan: Plan, i: nat, d: Id)
    requires Accepted(plan) && i < |plan.steps| && d in plan.steps[i].dependsOn
    ensures d in Ids(plan.steps) && Edge(Direct(plan.steps, Ids(plan.steps)), plan.steps[i].id, d)
    ensures Rank(plan.steps, d) < Rank(plan.steps, plan.steps[i].id)
  {
    var steps := plan.steps;
    var ids := Ids(steps);
    assert StepDependenciesExist(steps[i], ids);
    CycleInDirect(steps);
    hide HasCycle, Reaches, ReachSet, DependenciesExist, BodiesExist, OwnersAccepted, IsOwnerMap;
    assert Names(steps, steps[i].id, d);
    DirectEdges(steps, ids);
    DirectWithin(steps, ids);
    EdgeLowersRank(Direct(steps, ids), ids, steps[i].id, d);
  }

  /** The first dependency on the way from x to one of its ancestors. */
  lemma FirstDependency(plan: Plan, x: Id, a: Id) returns (i: nat, d: Id)
    requires Accepted(plan) && Reaches(Direct(plan.steps, Ids(plan.steps)), x, a)
    ensures i < |plan.steps| && plan.steps[i].id == x && d in plan.steps[i].dependsOn
    ensures Rank(plan.steps, d) < Rank(plan.steps, x)
    ensures d == a || Reaches(Direct(plan.steps, Ids(plan.steps)), d, a)
  {
    d := ReachesSplit(Direct(plan.steps, Ids(plan.steps)), x, a);
    DirectEdges(plan.steps, Ids(plan.steps));
    assert Names(plan.steps, x, d);
    i :| 0 <= i < |plan.steps| && plan.steps[i].id == x && d in plan.steps[i].dependsOn;
    RankGrows(plan, i, d);
  }

  lemma {:induction false} AncestorFirst(plan: Plan, owners: Owners, x: Id, a: Id)
    requires Ordered(plan, owners) && Reaches(Direct(plan.steps, Ids(plan.steps)), x, a)
    ensures Before(PlaceOf(plan.steps, owners, a), PlaceOf(plan.steps, owners, x))
    decreases Rank(plan.steps, x)
  {
    var i, d := FirstDependency(plan, x, a);
    DependencyFirst(plan, owners, i, d);
    if d != a {
      AncestorFirst(plan, owners, d, a);
      BeforeJoins(PlaceOf(plan.steps, owners, a), PlaceOf(plan.steps, owners, d), PlaceOf(plan.steps, owners, x));
    }
  }

  lemma SourceFirst(plan: Plan, owners: Owners, i: nat, src: Id)
    requires Ordered(plan, owners) && i < |plan.steps| && StepOutput(src) in BindingsOf(plan.steps[i])
    ensures src in Ids(plan.steps)
    ensures Before(PlaceOf(plan.steps, owners, src), PlaceOf(plan.steps, owners, plan.steps[i].id))
  {
    var x := plan.steps[i].id;
    SourceAbove(plan, owners, i, src);
    hide Ordered, PlaceOf, BindingsOf, Reaches, Shallow, Direct, Enclosed;
    if Reaches(Direct(plan.steps, Ids(plan.steps)), x, src) {
      AncestorFirst(plan, owners, x, src);
    } else {
      OwnerFirst(plan.steps, owners, owners[x], x);
      if src != owners[x] {
        AncestorFirst(plan, owners, owners[x], src);
        BeforeJoins(PlaceOf(plan.steps, owners, src), PlaceOf(plan.steps, owners, owners[x]), PlaceOf(plan.steps, owners, x));
      }
    }
  }

  /** A source is an ancestor of its reader, the LOOP around the reader, or an ancestor of that. */
  lemma SourceAbove(plan: Plan, owners: Owners, i: nat, src: Id)
    requires Ordered(plan, owners) && i < |plan.steps| && StepOutput(src) in BindingsOf(plan.steps[i])
    ensures src in Ids(plan.steps)
    ensures var direct := Direct(plan.steps, Ids(plan.steps));
      var x := plan.steps[i].id;
      || Reaches(direct, x, src)
      || (x in owners && (src == owners[x] || Reaches(direct, owners[x], src)))
  {
    BindingChecked(plan, owners, i, src);
    hide Ordered, BindingsOf, TrueAncestors, Reaches, Shallow, Direct, Enclosed;
    var x := plan.steps[i].id;
    if src in AncestorsIn(TrueAncestors(plan.steps), x) {
      AncestorReaches(plan.steps, x, src);
    } else if src != owners[x] {
      AncestorReaches(plan.steps, owners[x], src);
    }
  }

  lemma AncestorReaches(steps: seq<PlanStep>, x: Id, a: Id)
    requires a in AncestorsIn(TrueAncestors(steps), x)
    ensures Reaches(Direct(steps, Ids(steps)), x, a)
  {
  }

  lemma BindingChecked(plan: Plan, owners: Owners, i: nat, src: Id)
    requires OwnersAccepted(plan, owners) && i < |plan.steps| && StepOutput(src) in BindingsOf(plan.steps[i])
    ensures SourceVisible(plan.steps[i].id, src, Ids(plan.steps), TrueAncestors(plan.steps), owners)
  {
    hide SourceVisible;
    var step := plan.steps[i];
    assert WhenAccepted(step, Ids(plan.steps), TrueAncestors(plan.steps), owners);
    assert ConfigAccepted(step, plan.limits, Ids(plan.steps), TrueAncestors(plan.steps), owners);
  }

  // ---- what needs a LOOP comes after all that is inside it ---------------------------------------

  lemma InsideByOwner(steps: seq<PlanStep>, owners: Owners, l: Id, x: Id)
    requires IsOwnerMap(steps, owners)
    ensures Inside(steps, l, x) <==> x in owners && (owners[x] == l || Inside(steps, l, owners[x]))
  {
    hide Owns;
    if n: nat :| InBody(steps, l, x, n) {
      var m :| Owns(steps, m, x) && (m == l || InBody(steps, l, m, n - 1));
      assert owners[x] == m;
    }
    if x in owners {
      if owners[x] == l {
        assert InBody(steps, l, x, 1);
      } else if n: nat :| InBody(steps, l, owners[x], n) {
        assert InBody(steps, l, x, n + 1);
      }
    }
  }

  /** The place of what is inside a LOOP extends the LOOP's. */
  lemma {:induction false} InsideExtends(steps: seq<PlanStep>, owners: Owners, l: Id, x: Id, n: nat)
    requires IsOwnerMap(steps, owners) && Shallow(owners) && InBody(steps, l, x, n)
    ensures PlaceOf(steps, owners, l) <= PlaceOf(steps, owners, x)
    decreases n
  {
    hide Owns, Shallow, PlaceOf, Rank;
    var m :| Owns(steps, m, x) && (m == l || InBody(steps, l, m, n - 1));
    assert x in owners && owners[x] == m;
    PlaceByOwner(steps, owners, x);
    if m != l { InsideExtends(steps, owners, l, m, n - 1); }
  }

  lemma BodyFirst(plan: Plan, owners: Owners, l: Id, x: Id, i: nat)
    requires Ordered(plan, owners) && Inside(plan.steps, l, x)
    requires i < |plan.steps| && l in plan.steps[i].dependsOn && !Inside(plan.steps, l, plan.steps[i].id)
    ensures Before(PlaceOf(plan.steps, owners, x), PlaceOf(plan.steps, owners, plan.steps[i].id))
  {
    var n: nat :| InBody(plan.steps, l, x, n);
    hide Accepted, OwnersAccepted, Shallow, PlaceOf, Rank, IsOwnerMap, InBody;
    InsideExtends(plan.steps, owners, l, x, n);
    DependencyBeside(plan, owners, i, l);
    InsideByOwner(plan.steps, owners, l, plan.steps[i].id);
    RankGrows(plan, i, l);
    BesideFirst(plan.steps, owners, l, plan.steps[i].id, PlaceOf(plan.steps, owners, x));
  }

  lemma {:induction false} AncestorBodyFirst(plan: Plan, owners: Owners, l: Id, x: Id, y: Id)
    requires Ordered(plan, owners) && Inside(plan.steps, l, x) && !Inside(plan.steps, l, y)
    requires Reaches(Direct(plan.steps, Ids(plan.steps)), y, l)
    ensures Before(PlaceOf(plan.steps, owners, x), PlaceOf(plan.steps, owners, y))
    decreases Rank(plan.steps, y)
  {
    var i, d := FirstDependency(plan, y, l);
    if d == l {
      BodyFirst(plan, owners, l, x, i);
    } else {
      DependencyBeside(plan, owners, i, d);
      DependencyFirst(plan, owners, i, d);
      InsideByOwner(plan.steps, owners, l, y);
      InsideByOwner(plan.steps, owners, l, d);
      AncestorBodyFirst(plan, owners, l, x, d);
      BeforeJoins(PlaceOf(plan.steps, owners, x), PlaceOf(plan.steps, owners, d), PlaceOf(plan.steps, owners, y));
    }
  }

  lemma NeededBodyFirst(plan: Plan, owners: Owners, i: nat, l: Id, x: Id)
    requires Ordered(plan, owners) && i < |plan.steps| && Needs(plan.steps, plan.steps[i], l)
    requires Inside(plan.steps, l, x) && !Inside(plan.steps, l, plan.steps[i].id)
    ensures x in Ids(plan.steps)
    ensures Before(PlaceOf(plan.steps, owners, x), PlaceOf(plan.steps, owners, plan.steps[i].id))
  {
    var y := plan.steps[i].id;
    InsideByOwner(plan.steps, owners, l, x);
    InsideByOwner(plan.steps, owners, l, y);
    assert Owns(plan.steps, owners[x], x);
    if l in plan.steps[i].dependsOn {
      BodyFirst(plan, owners, l, x, i);
    } else {
      SourceAbove(plan, owners, i, l);
      hide Ordered, PlaceOf, Inside, Reaches, Direct, Shallow, BindingsOf;
      if Reaches(Direct(plan.steps, Ids(plan.steps)), y, l) {
        AncestorBodyFirst(plan, owners, l, x, y);
      } else {
        AncestorBodyFirst(plan, owners, l, x, owners[y]);
        OwnerFirst(plan.steps, owners, owners[y], y);
        BeforeJoins(PlaceOf(plan.steps, owners, x), PlaceOf(plan.steps, owners, owners[y]), PlaceOf(plan.steps, owners, y));
      }
    }
  }

  // ---- from places to an order -----------------------------------------------------------------

  lemma {:induction false} LastPlace(nodes: set<Id>, place: map<Id, Place>) returns (m: Id)
    requires nodes != {} && nodes <= place.Keys
    ensures m in nodes && forall x :: x in nodes ==> !Before(place[m], place[x])
  {
    var y :| y in nodes;
    NotBeforeItself(place[y]);
    if nodes == {y} { return y; }
    assert nodes == (nodes - {y}) + {y};
    m := LastPlace(nodes - {y}, place);
    if Before(place[m], place[y]) {
      forall x | x in nodes ensures !Before(place[y], place[x]) {
        if Before(place[y], place[x]) { BeforeJoins(place[m], place[y], place[x]); }
      }
      m := y;
    }
  }

  lemma {:induction false} SortByPlace(nodes: set<Id>, place: map<Id, Place>) returns (order: seq<Id>)
    requires nodes <= place.Keys
    ensures |order| == |nodes| && Distinct(order)
    ensures forall x :: x in order <==> x in nodes
    ensures forall i, j | 0 <= i < j < |order| :: !Before(place[order[j]], place[order[i]])
  {
    if nodes == {} { return []; }
    var m := LastPlace(nodes, place);
    var rest := SortByPlace(nodes - {m}, place);
    order := rest + [m];
  }

  lemma SortedPrecedes(nodes: set<Id>, place: map<Id, Place>, order: seq<Id>, x: Id, y: Id)
    requires nodes <= place.Keys && x in order && y in order
    requires forall z :: z in order <==> z in nodes
    requires forall i, j | 0 <= i < j < |order| :: !Before(place[order[j]], place[order[i]])
    requires x in nodes && y in nodes && Before(place[x], place[y])
    ensures Precedes(order, x, y)
  {
    var p :| 0 <= p < |order| && order[p] == x;
    var q :| 0 <= q < |order| && order[q] == y;
    if p == q { NotBeforeItself(place[x]); }
  }

  lemma {:induction false} CountIds(steps: seq<PlanStep>)
    requires UniqueIds(steps)
    ensures |Ids(steps)| == |steps|
  {
    if steps != [] {
      var n := |steps| - 1;
      CountIds(steps[..n]);
      assert Ids(steps) == Ids(steps[..n]) + {steps[n].id};
      assert steps[n].id !in Ids(steps[..n]);
    }
  }

  lemma NeededFirst(plan: Plan, owners: Owners, i: nat, x: Id)
    requires Ordered(plan, owners) && i < |plan.steps| && Needs(plan.steps, plan.steps[i], x)
    ensures x in Ids(plan.steps)
    ensures Before(PlaceOf(plan.steps, owners, x), PlaceOf(plan.steps, owners, plan.steps[i].id))
  {
    if x in plan.steps[i].dependsOn {
      RankGrows(plan, i, x);
      DependencyFirst(plan, owners, i, x);
    } else if Owns(plan.steps, x, plan.steps[i].id) {
      OwnerFirst(plan.steps, owners, x, plan.steps[i].id);
    } else {
      SourceFirst(plan, owners, i, x);
    }
  }

  /** Every accepted plan has a linear order in which each Step comes after its dependencies,
      after the LOOP whose body it is in, after the source of every STEP_OUTPUT it reads, and
      after all the Steps inside a LOOP that it needs and is not inside itself. */
  lemma AcceptedPlanSchedules(plan: Plan) returns (order: seq<Id>)
    requires Accepted(plan)
    ensures Schedules(plan, order)
  {
    hide Needs, Inside, PlaceOf, Precedes, IsOwnerMap, OwnersAccepted, Shallow, DependenciesExist, BodiesExist, WithinLimits, HasCycle;
    var owners :| IsOwnerMap(plan.steps, owners) && OwnersAccepted(plan, owners);
    AcceptedShallow(plan, owners);
    var steps, ids := plan.steps, Ids(plan.steps);
    var place := map x | x in ids :: PlaceOf(steps, owners, x);
    order := SortByPlace(ids, place);
    CountIds(steps);
    forall i, x | 0 <= i < |steps| && Needs(steps, steps[i], x) ensures Precedes(order, x, steps[i].id) {
      NeededFirst(plan, owners, i, x);
      SortedPrecedes(ids, place, order, x, steps[i].id);
    }
    forall i, l, x | 0 <= i < |steps| && Needs(steps, steps[i], l) && Inside(steps, l, x) && !Inside(steps, l, steps[i].id)
      ensures Precedes(order, x, steps[i].id)
    {
      NeededBodyFirst(plan, owners, i, l, x);
      SortedPrecedes(ids, place, order, x, steps[i].id);
    }
  }

  // ---- what the approval checkpoint may rely on ------------------------------------------------

  lemma PrecedesJoin(order: seq<Id>, x: Id, y: Id, z: Id)
    requires Distinct(order) && Precedes(order, x, y) && Precedes(order, y, z)
    ensures Precedes(order, x, z)
  {
    var p, q :| 0 <= p < q < |order| && order[p] == x && order[q] == y;
    var r, t :| 0 <= r < t < |order| && order[r] == y && order[t] == z;
    assert q == r;
  }

  /** On an accepted plan the walk for the evidence always ends. */
  lemma AcceptedWalkEnds(plan: Plan, x: Id)
    requires Accepted(plan)
    ensures AcyclicBelow(Direct(plan.steps, Ids(plan.steps)), x)
  {
    CycleInDirect(plan.steps);
  }

  /** Whatever the schedule, the Steps whose evidence an APPROVAL Step collects come before it. */
  lemma {:induction false} EvidenceComesFirst(plan: Plan, order: seq<Id>, x: Id, a: Id)
    requires Accepted(plan) && Schedules(plan, order)
    requires a in InPlanOrder(plan.steps, AllAncestors(plan.steps, x))
    ensures Precedes(order, a, x)
  {
    PlanOrderMember(plan.steps, AllAncestors(plan.steps, x), a);
    ReachedPrecedes(plan, order, x, a);
  }

  lemma {:induction false} ReachedPrecedes(plan: Plan, order: seq<Id>, x: Id, a: Id)
    requires Accepted(plan) && Schedules(plan, order) && Reaches(Direct(plan.steps, Ids(plan.steps)), x, a)
    ensures Precedes(order, a, x)
    decreases Rank(plan.steps, x)
  {
    var steps := plan.steps;
    var d := ReachesSplit(Direct(steps, Ids(steps)), x, a);
    DirectEdges(steps, Ids(steps));
    assert Names(steps, x, d);
    var i :| 0 <= i < |steps| && steps[i].id == x && d in steps[i].dependsOn;
    assert Needs(steps, steps[i], d) && Precedes(order, d, x);
    RankGrows(plan, i, d);
    if d != a {
      ReachedPrecedes(plan, order, d, a);
      PrecedesJoin(order, a, d, x);
    }
  }

  // ---- a plan that is accepted --------------------------------------------------------------------

  const LISTING := PlanStep("a", [], Always, ToolConfig([]))
  const EACH := PlanStep("l", ["a"], Always, Looping(LoopConfig(ForEach, 5, ["b", "c"], Some(StepOutput("a")), None)))
  const DETAIL := PlanStep("b", ["l"], Always, ToolConfig([StepOutput("a"), LoopContext]))
  const REPORT := PlanStep("c", ["b"], Always, ToolConfig([StepOutput("b")]))
  const EXAMPLE := Plan("1.0", Limits(20, 300, 4, 50), [LISTING, EACH, DETAIL, REPORT], ["l"])

  lemma ExampleParts()
    ensures EXAMPLE.steps == [LISTING, EACH, DETAIL, REPORT] && UniqueIds(EXAMPLE.steps)
    ensures Ids(EXAMPLE.steps) == {"a", "l", "b", "c"}
  {
    var steps := EXAMPLE.steps;
    assert steps[0].id == "a" && steps[1].id == "l" && steps[2].id == "b" && steps[3].id == "c";
    assert "a"[0] != "l"[0] && "a"[0] != "b"[0] && "a"[0] != "c"[0] && "l"[0] != "b"[0] && "l"[0] != "c"[0] && "b"[0] != "c"[0];
  }

  lemma ExampleGraph()
    ensures var steps := EXAMPLE.steps; !HasCycle(steps) && "a" in AllAncestors(steps, "l") && "b" in AllAncestors(steps, "c")
  {
    ExampleParts();
    var steps := EXAMPLE.steps;
    var g, order := Direct(steps, Ids(steps)), ["a", "l", "b", "c"];
    DirectEdges(steps, Ids(steps));
    DirectWithin(steps, Ids(steps));
    assert steps[1].dependsOn == ["a"] && Names(steps, "l", "a");
    assert steps[3].dependsOn == ["b"] && Names(steps, "c", "b");
    assert Edge(g, "l", "a") && Edge(g, "c", "b");
    assert order[..1] == ["a"] && order[..2] == ["a", "l"] && order[..3] == ["a", "l", "b"];
    forall k, x | 0 <= k < 4 && Edge(g, order[k], x) ensures x in order[..k] {
      ExampleNames(order[k], x);
    }
    FinishedAcyclic(g, Ids(steps), order);
    CycleInDirect(steps);
    ReachSetOfEdge(g, Ids(steps), "l", "a");
    ReachSetOfEdge(g, Ids(steps), "c", "b");
  }

  lemma ExampleNames(b: Id, a: Id)
    requires Names(EXAMPLE.steps, b, a)
    ensures (b == "l" && a == "a") || (b == "b" && a == "l") || (b == "c" && a == "b")
  {
    ExampleParts();
  }

  const EXAMPLE_OWNERS: Owners := map["b" := "l", "c" := "l"]

  lemma ExampleOwns(l: Id, b: Id)
    ensures Owns(EXAMPLE.steps, l, b) <==> l == "l" && (b == "b" || b == "c")
    ensures IsLoop(EXAMPLE.steps, l) ==> l == "l"
  {
    var steps := EXAMPLE.steps;
    ExampleParts();
    assert BodyOf(LISTING) == [] && BodyOf(DETAIL) == [] && BodyOf(REPORT) == [];
    NotBlank("b");
    NotBlank("c");
    assert BodyOf(EACH) == ["b", "c"] by { assert "b"[0] != "c"[0]; }
    if l == "l" && (b == "b" || b == "c") { assert OwnsAt(steps[1], l, b); }
  }

  lemma ExampleScopes()
    ensures IsOwnerMap(EXAMPLE.steps, EXAMPLE_OWNERS) && BodiesExist(EXAMPLE.steps, Ids(EXAMPLE.steps))
    ensures Scoped(EXAMPLE.steps, EXAMPLE_OWNERS)
    ensures forall l :: IsLoop(EXAMPLE.steps, l) ==> Enclosed(EXAMPLE_OWNERS, l, MAX_LOOP_NESTING_DEPTH - 1)
  {
    ExampleParts();
    hide Owns, IsLoop;
    forall l, b ensures Owns(EXAMPLE.steps, l, b) <==> l == "l" && (b == "b" || b == "c") { ExampleOwns(l, b); }
    forall l | IsLoop(EXAMPLE.steps, l) ensures l == "l" { ExampleOwns(l, "b"); }
    assert "l"[0] != "b"[0] && "l"[0] != "c"[0] && "l"[0] != "a"[0];
  }

  lemma ExampleSteps()
    ensures StepsAccepted(EXAMPLE, TrueAncestors(EXAMPLE.steps), EXAMPLE_OWNERS)
  {
    ExampleParts();
    ExampleGraph();
    hide HasCycle, AllAncestors, Blank, UniqueIds;
    var steps, ancestors := EXAMPLE.steps, TrueAncestors(EXAMPLE.steps);
    assert "l"[0] != "a"[0] && "l"[0] != "b"[0] && "l"[0] != "c"[0] && "a"[0] != "b"[0] && "a"[0] != "c"[0] && "b"[0] != "c"[0];
    assert SourceVisible("l", "a", Ids(steps), ancestors, EXAMPLE_OWNERS);
    assert SourceVisible("b", "a", Ids(steps), ancestors, EXAMPLE_OWNERS);
    assert SourceVisible("c", "b", Ids(steps), ancestors, EXAMPLE_OWNERS);
    NotBlank("b");
    NotBlank("c");
    assert ConfigAccepted(EACH, EXAMPLE.limits, Ids(steps), ancestors, EXAMPLE_OWNERS);
  }

  lemma NotBlank(s: string)
    requires s != "" && !IsBlank(s[0], WhiteSpace)
    ensures !Blank(s)
  {
  }

  /** A LOOP over a listing, with two Steps in its body: the first reads the listing again, the
      second the first. */
  lemma ExampleAccepted()
    ensures Accepted(EXAMPLE)
  {
    ExampleParts();
    ExampleGraph();
    ExampleScopes();
    ExampleSteps();
    hide HasCycle, AllAncestors, StepsAccepted, IsOwnerMap, BodiesExist, Scoped, IsLoop, Blank, UniqueIds;
    NotBlank("a");
    NotBlank("l");
    NotBlank("b");
    NotBlank("c");
    assert OwnersAccepted(EXAMPLE, EXAMPLE_OWNERS) by {
      assert EXAMPLE.responseStepIds == ["l"] && "l" !in EXAMPLE_OWNERS by { assert "l"[0] != "b"[0] && "l"[0] != "c"[0]; }
    }
  }
}
