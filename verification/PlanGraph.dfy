/** The dependency graph of a plan and the four walks over it: cycle search, breadth-first
    reachability, memoised ancestors and the unguarded ancestor walk. */
module PlanGraph {
  import opened PlanModel

  // ---- walks in a graph given by neighbour lists -----------------------------------------

  type Links = map<Id, seq<Id>>

  function Next(g: Links, a: Id): seq<Id> {
    if a in g then g[a] else []
  }

  predicate Edge(g: Links, a: Id, b: Id) {
    b in Next(g, a)
  }

  ghost predicate IsWalk(g: Links, p: seq<Id>) {
    |p| >= 1 && forall k :: 0 <= k < |p| - 1 ==> Edge(g, p[k], p[k + 1])
  }

  ghost predicate IsWalkBetween(g: Links, p: seq<Id>, a: Id, b: Id) {
    IsWalk(g, p) && p[0] == a && p[|p| - 1] == b
  }

  /** There is a walk of at least one edge from a to b. */
  ghost predicate Reaches(g: Links, a: Id, b: Id) {
    exists p :: IsWalkBetween(g, p, a, b) && |p| >= 2
  }

  ghost predicate Acyclic(g: Links) {
    forall a :: !Reaches(g, a, a)
  }

  ghost predicate Within(g: Links, nodes: set<Id>) {
    forall a, b :: Edge(g, a, b) ==> a in nodes && b in nodes
  }

  lemma EdgeReaches(g: Links, a: Id, b: Id)
    requires Edge(g, a, b)
    ensures Reaches(g, a, b)
  {
    assert IsWalkBetween(g, [a, b], a, b);
  }

  lemma ReachesJoin(g: Links, a: Id, b: Id, c: Id)
    requires Reaches(g, a, b) && Reaches(g, b, c)
    ensures Reaches(g, a, c)
  {
    var p :| IsWalkBetween(g, p, a, b) && |p| >= 2;
    var q :| IsWalkBetween(g, q, b, c) && |q| >= 2;
    assert IsWalkBetween(g, p + q[1..], a, c);
  }

  /** The first edge of a walk, and what is left of it. */
  lemma ReachesSplit(g: Links, a: Id, c: Id) returns (b: Id)
    requires Reaches(g, a, c)
    ensures Edge(g, a, b) && (b == c || Reaches(g, b, c))
  {
    var p :| IsWalkBetween(g, p, a, c) && |p| >= 2;
    b := p[1];
    assert Edge(g, p[0], p[1]);
    if |p| > 2 {
      assert IsWalkBetween(g, p[1..], b, c);
    }
  }

  lemma ReachesWithin(g: Links, nodes: set<Id>, a: Id, b: Id)
    requires Within(g, nodes) && Reaches(g, a, b)
    ensures a in nodes && b in nodes
  {
    var p :| IsWalkBetween(g, p, a, b) && |p| >= 2;
    assert Edge(g, p[0], p[1]) && Edge(g, p[|p| - 2], p[|p| - 1]);
  }

  ghost function ReachSet(g: Links, nodes: set<Id>, a: Id): set<Id> {
    set b | b in nodes && Reaches(g, a, b)
  }

  lemma ReachSetOfEdge(g: Links, nodes: set<Id>, a: Id, b: Id)
    requires Within(g, nodes) && Edge(g, a, b)
    ensures b in ReachSet(g, nodes, a) && ReachSet(g, nodes, b) <= ReachSet(g, nodes, a)
  {
    EdgeReaches(g, a, b);
    forall c | c in ReachSet(g, nodes, b) ensures c in ReachSet(g, nodes, a) { ReachesJoin(g, a, b, c); }
  }

  /** What a step along an edge adds: to the nodes known to reach its start, and to what its
      start reaches. */
  lemma EdgeExtends(g: Links, nodes: set<Id>, from: set<Id>, a: Id, b: Id)
    requires Within(g, nodes) && Edge(g, a, b) && forall t :: t in from ==> Reaches(g, t, a)
    ensures forall t :: t in from + {a} ==> Reaches(g, t, b)
    ensures b in nodes && b in ReachSet(g, nodes, a) && ReachSet(g, nodes, b) <= ReachSet(g, nodes, a)
  {
    EdgeReaches(g, a, b);
    ReachSetOfEdge(g, nodes, a, b);
    forall t | t in from ensures Reaches(g, t, b) { ReachesJoin(g, t, a, b); }
  }

  lemma ReachSetOfAll(g: Links, nodes: set<Id>, a: Id, all: set<Id>)
    requires forall k :: 0 <= k < |Next(g, a)| ==> Next(g, a)[k] in all && ReachSet(g, nodes, Next(g, a)[k]) <= all
    ensures ReachSet(g, nodes, a) <= all
  {
    forall c | c in ReachSet(g, nodes, a) ensures c in all {
      var b := ReachesSplit(g, a, c);
      assert b in Next(g, a);
    }
  }

  /** The number of nodes below a node shrinks along every edge that leads to no cycle. */
  lemma EdgeLowersRank(g: Links, nodes: set<Id>, a: Id, b: Id)
    requires Within(g, nodes) && !Reaches(g, b, b) && Edge(g, a, b)
    ensures |ReachSet(g, nodes, b)| < |ReachSet(g, nodes, a)|
  {
    ReachSetOfEdge(g, nodes, a, b);
    assert b !in ReachSet(g, nodes, b);
    Shrinks(ReachSet(g, nodes, b), ReachSet(g, nodes, a), b);
  }

  /** No cycle can be reached from a. */
  ghost predicate AcyclicBelow(g: Links, a: Id) {
    !Reaches(g, a, a) && forall b :: Reaches(g, a, b) ==> !Reaches(g, b, b)
  }

  lemma AcyclicBelowEdge(g: Links, a: Id, b: Id)
    requires AcyclicBelow(g, a) && Edge(g, a, b)
    ensures AcyclicBelow(g, b) && !Reaches(g, b, b)
  {
    EdgeReaches(g, a, b);
    forall c | Reaches(g, b, c) ensures !Reaches(g, c, c) { ReachesJoin(g, a, b, c); }
  }

  /** From a node above a cycle there are walks of any length: a walk of the graph that only
      ends when it runs out of neighbours does not end. */
  lemma {:induction false} WalksForEver(g: Links, a: Id, c: Id, n: nat) returns (p: seq<Id>)
    requires Reaches(g, c, c) && (a == c || Reaches(g, a, c))
    ensures IsWalk(g, p) && |p| == n + 1 && p[0] == a
    decreases n
  {
    if n == 0 { return [a]; }
    var b := ReachesSplit(g, a, c);
    var rest := WalksForEver(g, b, c, n - 1);
    p := [a] + rest;
  }

  lemma Shrinks(s: set<Id>, t: set<Id>, x: Id)
    requires s <= t && x in t && x !in s
    ensures |s| < |t|
  {
    assert s <= t - {x};
    Smaller(s, t - {x});
  }

  lemma {:induction false} Smaller(s: set<Id>, t: set<Id>)
    requires s <= t
    ensures |s| <= |t|
  {
    if x :| x in s {
      Smaller(s - {x}, t - {x});
    }
  }

  // ---- the two neighbour tables of a plan -------------------------------------------------

  ghost predicate Names(steps: seq<PlanStep>, b: Id, a: Id) {
    exists i :: 0 <= i < |steps| && steps[i].id == b && a in steps[i].dependsOn
  }

  /** Step b of the plan names a, which exists, among its dependencies. */
  ghost predicate DependsOn(steps: seq<PlanStep>, b: Id, a: Id) {
    a in Ids(steps) && Names(steps, b, a)
  }

  /** Every id of the chain but the first depends on the one before it. */
  ghost predicate IsChain(steps: seq<PlanStep>, p: seq<Id>) {
    |p| >= 1 && forall k :: 0 <= k < |p| - 1 ==> DependsOn(steps, p[k + 1], p[k])
  }

  ghost predicate HasCycle(steps: seq<PlanStep>) {
    exists p :: IsChain(steps, p) && |p| >= 2 && p[0] == p[|p| - 1]
  }

  /** Table from a Step to its dependents. */
  ghost predicate IsDependents(steps: seq<PlanStep>, adj: Links) {
    forall a, b :: Edge(adj, a, b) <==> DependsOn(steps, b, a)
  }

  lemma DependentsWithin(steps: seq<PlanStep>, adj: Links)
    requires IsDependents(steps, adj)
    ensures Within(adj, Ids(steps))
  {
    forall a, b | Edge(adj, a, b) ensures a in Ids(steps) && b in Ids(steps) {
      assert DependsOn(steps, b, a);
    }
  }

  lemma CycleInDependents(steps: seq<PlanStep>, adj: Links)
    requires IsDependents(steps, adj)
    ensures HasCycle(steps) <==> !Acyclic(adj)
  {
    if HasCycle(steps) {
      var p :| IsChain(steps, p) && |p| >= 2 && p[0] == p[|p| - 1];
      assert IsWalkBetween(adj, p, p[0], p[0]);
      assert Reaches(adj, p[0], p[0]);
    }
    if !Acyclic(adj) {
      var x :| Reaches(adj, x, x);
      var p :| IsWalkBetween(adj, p, x, x) && |p| >= 2;
      assert IsChain(steps, p);
    }
  }

  method Dependents(steps: seq<PlanStep>) returns (adj: Links)
    ensures IsDependents(steps, adj)
  {
    var ids := Ids(steps);
    adj := map[];
    for i := 0 to |steps|
      invariant forall a, b :: Edge(adj, a, b) <==>
        a in ids && exists j :: 0 <= j < i && steps[j].id == b && a in steps[j].dependsOn
    {
      ghost var before := adj;
      var deps := steps[i].dependsOn;
      for k := 0 to |deps|
        invariant forall a, b :: Edge(adj, a, b) <==>
          Edge(before, a, b) || (a in ids && b == steps[i].id && a in deps[..k])
      {
        assert deps[..k + 1] == deps[..k] + [deps[k]];
        if deps[k] in ids {
          adj := adj[deps[k] := Next(adj, deps[k]) + [steps[i].id]];
        }
      }
      assert deps[..|deps|] == deps;
    }
  }

  function Existing(deps: seq<Id>, ids: set<Id>): (r: seq<Id>)
    ensures forall d :: d in r <==> d in deps && d in ids
  {
    if deps == [] then []
    else (if deps[0] in ids then [deps[0]] else []) + Existing(deps[1..], ids)
  }

  /** Table from a Step to its existing dependencies; of two Steps with one id the later wins. */
  function Direct(steps: seq<PlanStep>, ids: set<Id>): Links {
    if steps == [] then map[]
    else
      var last := steps[|steps| - 1];
      Direct(steps[..|steps| - 1], ids)[last.id := Existing(last.dependsOn, ids)]
  }

  lemma {:induction false} DirectEdges(steps: seq<PlanStep>, ids: set<Id>)
    requires UniqueIds(steps)
    ensures Direct(steps, ids).Keys == Ids(steps)
    ensures forall a, b :: Edge(Direct(steps, ids), b, a) <==>
      a in ids && Names(steps, b, a)
  {
    if steps != [] {
      var n := |steps| - 1;
      DirectEdges(steps[..n], ids);
      assert Ids(steps) == Ids(steps[..n]) + {steps[n].id};
      assert steps[n].id !in Ids(steps[..n]);
      var g, h := Direct(steps, ids), Direct(steps[..n], ids);
      forall a, b ensures Edge(g, b, a) <==> a in ids && Names(steps, b, a) {
        NamesOneMore(steps, b, a);
        if b == steps[n].id {
          assert Next(g, b) == Existing(steps[n].dependsOn, ids);
        } else {
          assert Edge(g, b, a) <==> Edge(h, b, a);
        }
      }
    }
  }

  lemma NamesOneMore(steps: seq<PlanStep>, b: Id, a: Id)
    requires steps != []
    ensures var n := |steps| - 1;
      && (Names(steps, b, a) <==> Names(steps[..n], b, a) || (b == steps[n].id && a in steps[n].dependsOn))
      && (Names(steps[..n], b, a) ==> b in Ids(steps[..n]))
  {
    var n := |steps| - 1;
    if Names(steps[..n], b, a) {
      var i :| 0 <= i < n && steps[..n][i].id == b && a in steps[..n][i].dependsOn;
      assert steps[i].id == b;
    }
  }

  lemma CycleInDirect(steps: seq<PlanStep>)
    requires UniqueIds(steps)
    ensures HasCycle(steps) <==> !Acyclic(Direct(steps, Ids(steps)))
  {
    var g := Direct(steps, Ids(steps));
    DirectEdges(steps, Ids(steps));
    if HasCycle(steps) {
      var p :| IsChain(steps, p) && |p| >= 2 && p[0] == p[|p| - 1];
      var q := Backwards(p);
      forall k | 0 <= k < |p| - 1 ensures Edge(g, q[k], q[k + 1]) {
        assert DependsOn(steps, p[|p| - 2 - k + 1], p[|p| - 2 - k]);
      }
      assert IsWalkBetween(g, q, p[0], p[0]);
      assert Reaches(g, p[0], p[0]);
    }
    if !Acyclic(g) {
      var x :| Reaches(g, x, x);
      var p :| IsWalkBetween(g, p, x, x) && |p| >= 2;
      var q := Backwards(p);
      forall k | 0 <= k < |p| - 1 ensures DependsOn(steps, q[k + 1], q[k]) {
        assert Edge(g, p[|p| - 2 - k], p[|p| - 2 - k + 1]);
      }
      assert IsChain(steps, q);
    }
  }

  function Backwards(p: seq<Id>): (q: seq<Id>)
    ensures |q| == |p| && forall k :: 0 <= k < |p| ==> q[k] == p[|p| - 1 - k]
  {
    seq(|p|, k requires 0 <= k < |p| => p[|p| - 1 - k])
  }

  // ---- cycle search --------------------------------------------------------------------------

  /** Every neighbour of a listed node is listed before it. */
  ghost predicate Finished(g: Links, order: seq<Id>) {
    forall k, b :: 0 <= k < |order| && Edge(g, order[k], b) ==> b in order[..k]
  }

  lemma FinishedOneMore(g: Links, order: seq<Id>, node: Id)
    requires Finished(g, order) && forall b :: Edge(g, node, b) ==> b in order
    ensures Finished(g, order + [node])
    ensures (set x | x in order + [node]) == (set x | x in order) + {node}
  {
    var longer := order + [node];
    forall k, b | 0 <= k < |longer| && Edge(g, longer[k], b) ensures b in longer[..k] {
      assert longer[..k] == order[..k];
      if k < |order| { assert longer[k] == order[k]; }
    }
  }

  lemma {:induction false} FinishedBelow(g: Links, order: seq<Id>, k: nat, b: Id)
    requires Finished(g, order) && k < |order| && Reaches(g, order[k], b)
    ensures b in order[..k]
  {
    var c := ReachesSplit(g, order[k], b);
    var j :| 0 <= j < k && order[j] == c;
    if c != b { FinishedBelow(g, order, j, b); }
  }

  lemma FinishedAcyclic(g: Links, nodes: set<Id>, order: seq<Id>)
    requires Finished(g, order) && Within(g, nodes) && forall x :: x in nodes ==> x in order
    ensures Acyclic(g)
  {
    forall a | Reaches(g, a, a) ensures false {
      ReachesWithin(g, nodes, a, a);
      var k: nat := FirstIndex(order, a);
      FinishedBelow(g, order, k, a);
    }
  }

  ghost function FirstIndex(s: seq<Id>, x: Id): (k: nat)
    requires x in s
    ensures k < |s| && s[k] == x && x !in s[..k]
  {
    if s[0] == x then 0 else 1 + FirstIndex(s[1..], x)
  }

  lemma ClosesCycle(g: Links, walk: seq<Id>, node: Id)
    requires IsWalk(g, walk + [node]) && node in walk
    ensures !Acyclic(g)
  {
    var i :| 0 <= i < |walk| && walk[i] == node;
    var p := walk[i..] + [node];
    forall k | 0 <= k < |p| - 1 ensures Edge(g, p[k], p[k + 1]) {
      assert Edge(g, (walk + [node])[i + k], (walk + [node])[i + k + 1]);
    }
    assert IsWalkBetween(g, p, node, node);
    assert Reaches(g, node, node);
  }

  /** visited and stack are shared by all start nodes.  order lists the nodes the search has
      left, in the order it left them. */
  class CycleSearch {
    const adj: Links
    ghost const ids: set<Id>
    var visited: set<Id>
    var stack: set<Id>
    ghost var order: seq<Id>

    constructor (adj: Links, ghost ids: set<Id>)
      requires Within(adj, ids)
      ensures Valid() && visited == stack == {}
      ensures this.adj == adj && this.ids == ids
    {
      this.adj, this.ids, visited, stack, order := adj, ids, {}, {}, [];
    }

    ghost predicate Valid()
      reads this
    {
      && Within(adj, ids)
      && stack <= visited <= ids
      && visited - stack == (set x | x in order)
      && Finished(adj, order)
    }

    /** walk is how the search came to node: its nodes are those on the stack. */
    method Visit(node: Id, ghost walk: seq<Id>) returns (found: bool)
      requires Valid() && node in ids
      requires stack == set x | x in walk
      requires IsWalk(adj, walk + [node])
      modifies this
      decreases ids - visited, 0
      ensures found ==> !Acyclic(adj)
      ensures !found ==> Valid() && stack == old(stack) && old(visited) <= visited && node in visited - stack
    {
      if node in stack {
        ClosesCycle(adj, walk, node);
        return true;
      }
      if node in visited { return false; }
      visited := visited + {node};
      stack := stack + {node};
      assert old(ids - visited) - {node} == ids - visited && node in old(ids - visited);
      found := VisitAll(Next(adj, node), walk + [node]);
      if found { return; }
      label left:
      stack := stack - {node};
      FinishedOneMore(adj, order, node);
      order := order + [node];
      assert visited - stack == old@left(visited - stack) + {node};
    }

    /** The loop over the dependents of the last node of the walk. */
    method VisitAll(nodes: seq<Id>, ghost walk: seq<Id>) returns (found: bool)
      requires Valid() && stack == set x | x in walk
      requires IsWalk(adj, walk) && nodes == Next(adj, walk[|walk| - 1])
      modifies this
      decreases ids - visited, 1
      ensures found ==> !Acyclic(adj)
      ensures !found ==> Valid() && stack == old(stack) && old(visited) <= visited
      ensures !found ==> forall k :: 0 <= k < |nodes| ==> nodes[k] in visited - stack
    {
      for k := 0 to |nodes|
        invariant Valid() && stack == old(stack) && old(visited) <= visited
        invariant forall j :: 0 <= j < k ==> nodes[j] in visited - stack
      {
        assert Edge(adj, walk[|walk| - 1], nodes[k]);
        found := Visit(nodes[k], walk);
        if found { return; }
      }
      found := false;
    }
  }

  /** Exactly the plans whose dependencies form a cycle, in whatever order the ids come. */
  method HasDependencyCycle(steps: seq<PlanStep>) returns (found: bool)
    ensures found <==> HasCycle(steps)
  {
    var adj := Dependents(steps);
    var ids := Ids(steps);
    CycleInDependents(steps, adj);
    DependentsWithin(steps, adj);
    var search := new CycleSearch(adj, ids);
    var rest := ids;
    while rest != {}
      invariant search.Valid() && search.stack == {} && fresh(search) && search.adj == adj && search.ids == ids
      invariant rest <= ids && ids - rest <= search.visited
    {
      var node :| node in rest;
      found := search.Visit(node, []);
      if found { return; }
      rest := rest - {node};
    }
    assert ids <= search.visited - search.stack;
    FinishedAcyclic(search.adj, ids, search.order);
    found := false;
  }

  // ---- breadth-first reachability -----------------------------------------------------------

  ghost predicate IsRoot(steps: seq<PlanStep>, r: Id) {
    exists i :: 0 <= i < |steps| && steps[i].id == r && steps[i].dependsOn == []
  }

  /** A chain leads from a root to x. */
  ghost predicate FromRoot(steps: seq<PlanStep>, x: Id) {
    exists p :: IsChain(steps, p) && IsRoot(steps, p[0]) && p[|p| - 1] == x
  }

  lemma RootFromRoot(steps: seq<PlanStep>, r: Id)
    requires IsRoot(steps, r)
    ensures FromRoot(steps, r)
  {
    assert IsChain(steps, [r]);
  }

  function Roots(steps: seq<PlanStep>): (roots: seq<Id>)
    ensures forall r :: r in roots <==> IsRoot(steps, r)
  {
    if steps == [] then []
    else
      assert forall r :: IsRoot(steps, r) <==>
        IsRoot(steps[..|steps| - 1], r) || (r == steps[|steps| - 1].id && steps[|steps| - 1].dependsOn == []);
      Roots(steps[..|steps| - 1]) + (if steps[|steps| - 1].dependsOn == [] then [steps[|steps| - 1].id] else [])
  }

  method Enqueue(queue: seq<Id>, nodes: seq<Id>, seen: set<Id>) returns (longer: seq<Id>)
    ensures forall x :: x in longer <==> x in queue || (x in nodes && x !in seen)
  {
    longer := queue;
    for k := 0 to |nodes|
      invariant forall x :: x in longer <==> x in queue || (x in nodes[..k] && x !in seen)
    {
      assert nodes[..k + 1] == nodes[..k] + [nodes[k]];
      if nodes[k] !in seen {
        longer := longer + [nodes[k]];
      }
    }
    assert nodes[..|nodes|] == nodes;
  }

  method ReachableFromRoots(steps: seq<PlanStep>) returns (seen: set<Id>)
    ensures forall x :: x in seen <==> FromRoot(steps, x)
  {
    hide FromRoot, DependsOn;
    var adj := Dependents(steps);
    DependentsWithin(steps, adj);
    var roots := Roots(steps);
    seen := {};
    forall r | IsRoot(steps, r) ensures FromRoot(steps, r) { RootFromRoot(steps, r); }
    var queue := roots;
    ghost var ids := Ids(steps);
    if roots != [] {
      while queue != []
        invariant seen <= ids
        invariant forall x :: x in queue || x in seen ==> x in ids && FromRoot(steps, x)
        invariant forall r :: IsRoot(steps, r) ==> r in seen || r in queue
        invariant forall a, b :: a in seen && Edge(adj, a, b) ==> b in seen || b in queue
        decreases ids - seen, |queue|
      {
        ghost var before := queue;
        var node := queue[0];
        queue := queue[1..];
        assert [node] + queue == before;
        if node in seen { continue; }
        assert node in ids - seen && ids - (seen + {node}) == (ids - seen) - {node};
        seen := seen + {node};
        queue := Enqueue(queue, Next(adj, node), seen);
        forall x | Edge(adj, node, x) ensures x in ids && FromRoot(steps, x) { RootStep(steps, node, x); }
      }
    }
    forall x | FromRoot(steps, x) ensures x in seen { ClosedFromRoot(steps, adj, seen, x); }
  }

  lemma RootStep(steps: seq<PlanStep>, a: Id, b: Id)
    requires FromRoot(steps, a) && DependsOn(steps, b, a)
    ensures FromRoot(steps, b)
  {
    var p :| IsChain(steps, p) && IsRoot(steps, p[0]) && p[|p| - 1] == a;
    assert IsChain(steps, p + [b]);
    assert (p + [b])[|p|] == b;
  }

  lemma ClosedFromRoot(steps: seq<PlanStep>, adj: Links, nodes: set<Id>, x: Id)
    requires IsDependents(steps, adj) && FromRoot(steps, x)
    requires forall r :: IsRoot(steps, r) ==> r in nodes
    requires forall a, b :: a in nodes && Edge(adj, a, b) ==> b in nodes
    ensures x in nodes
  {
    var p :| IsChain(steps, p) && IsRoot(steps, p[0]) && p[|p| - 1] == x;
    ChainStays(steps, adj, nodes, p, |p| - 1);
  }

  lemma {:induction false} ChainStays(steps: seq<PlanStep>, adj: Links, nodes: set<Id>, p: seq<Id>, k: nat)
    requires IsDependents(steps, adj) && IsChain(steps, p) && p[0] in nodes && k < |p|
    requires forall a, b :: a in nodes && Edge(adj, a, b) ==> b in nodes
    ensures p[k] in nodes
  {
    if k > 0 {
      ChainStays(steps, adj, nodes, p, k - 1);
      assert Edge(adj, p[k - 1], p[k - 1 + 1]);
    }
  }

  /** With unique ids, existing dependencies and no cycle, no Step is out of reach: the
      reachability check can only repeat what the other checks say. */
  lemma {:induction false} EveryStepReachable(steps: seq<PlanStep>, x: Id)
    requires UniqueIds(steps) && !HasCycle(steps) && x in Ids(steps)
    requires forall i, d :: 0 <= i < |steps| && d in steps[i].dependsOn ==> d in Ids(steps)
    ensures FromRoot(steps, x)
    decreases |ReachSet(Direct(steps, Ids(steps)), Ids(steps), x)|
  {
    var i :| 0 <= i < |steps| && steps[i].id == x;
    if steps[i].dependsOn == [] {
      assert IsRoot(steps, x);
      RootFromRoot(steps, x);
    } else {
      var d := steps[i].dependsOn[0];
      var direct := Direct(steps, Ids(steps));
      CycleInDirect(steps);
      DirectEdges(steps, Ids(steps));
      DirectWithin(steps, Ids(steps));
      assert DependsOn(steps, x, d);
      EdgeLowersRank(direct, Ids(steps), x, d);
      EveryStepReachable(steps, d);
      RootStep(steps, d, x);
    }
  }

  // ---- memoised ancestors ----------------------------------------------------------------------

  /** The validator's ancestor walk, guarded by a stack. */
  class AncestorMap {
    const direct: Links
    ghost const ids: set<Id>
    var cache: map<Id, set<Id>>

    constructor (direct: Links, ghost ids: set<Id>)
      requires Within(direct, ids)
      ensures Valid() && this.direct == direct && this.ids == ids
    {
      this.direct, this.ids, cache := direct, ids, map[];
    }

    ghost predicate Exact(sid: Id, result: set<Id>) {
      && result <= ReachSet(direct, ids, sid)
      && (Acyclic(direct) ==> result == ReachSet(direct, ids, sid))
    }

    ghost predicate Valid()
      reads this
    {
      && Within(direct, ids)
      && forall k :: k in cache ==> Exact(k, cache[k])
    }

    /** Never more than the transitive dependencies; all of them when there is no cycle. */
    method AncestorsOf(sid: Id, stack: set<Id>) returns (result: set<Id>)
      requires Valid() && sid in ids && stack <= ids
      requires forall t :: t in stack ==> Reaches(direct, t, sid)
      modifies this
      decreases ids - stack, 1
      ensures Valid() && Exact(sid, result)
    {
      if sid in cache { return cache[sid]; }
      if sid in stack { return {}; }
      result := AncestorsVia(sid, stack + {sid});
      cache := cache[sid := result];
    }

    /** The loop over the direct dependencies of sid, which is on the stack. */
    method AncestorsVia(sid: Id, stack: set<Id>) returns (result: set<Id>)
      requires Valid() && sid in stack && stack <= ids
      requires forall t :: t in stack ==> t == sid || Reaches(direct, t, sid)
      modifies this
      decreases ids - stack, 2
      ensures Valid() && Exact(sid, result)
    {
      hide Reaches, Acyclic, ReachSet, Within;
      var deps := Next(direct, sid);
      result := {};
      for k := 0 to |deps|
        invariant Valid() && result <= ReachSet(direct, ids, sid)
        invariant Acyclic(direct) ==> forall j :: 0 <= j < k ==> deps[j] in result && ReachSet(direct, ids, deps[j]) <= result
      {
        assert Edge(direct, sid, deps[k]);
        EdgeExtends(direct, ids, stack - {sid}, sid, deps[k]);
        var above := AncestorsOf(deps[k], stack);
        result := result + {deps[k]} + above;
      }
      if Acyclic(direct) { ReachSetOfAll(direct, ids, sid, result); }
    }
  }

  /** Everything a Step depends on, directly or through others. */
  ghost function AllAncestors(steps: seq<PlanStep>, x: Id): set<Id> {
    ReachSet(Direct(steps, Ids(steps)), Ids(steps), x)
  }

  ghost predicate IsChainBetween(steps: seq<PlanStep>, p: seq<Id>, a: Id, x: Id) {
    IsChain(steps, p) && |p| >= 2 && p[0] == a && p[|p| - 1] == x
  }

  /** With unique ids, the Steps from which a chain of dependencies leads to x. */
  lemma AncestorsAreChains(steps: seq<PlanStep>, x: Id, a: Id)
    requires UniqueIds(steps)
    ensures a in AllAncestors(steps, x) <==> exists p :: IsChainBetween(steps, p, a, x)
  {
    var g := Direct(steps, Ids(steps));
    DirectEdges(steps, Ids(steps));
    if a in AllAncestors(steps, x) {
      var p :| IsWalkBetween(g, p, x, a) && |p| >= 2;
      var q := Backwards(p);
      forall k | 0 <= k < |p| - 1 ensures DependsOn(steps, q[k + 1], q[k]) {
        assert Edge(g, p[|p| - 2 - k], p[|p| - 2 - k + 1]);
      }
      assert IsChainBetween(steps, q, a, x);
    }
    if p :| IsChainBetween(steps, p, a, x) {
      var q := Backwards(p);
      forall k | 0 <= k < |p| - 1 ensures Edge(g, q[k], q[k + 1]) {
        assert DependsOn(steps, p[|p| - 2 - k + 1], p[|p| - 2 - k]);
      }
      assert IsWalkBetween(g, q, x, a);
      DirectWithin(steps, Ids(steps));
      ReachesWithin(g, Ids(steps), x, a);
    }
  }

  method TransitiveAncestors(steps: seq<PlanStep>) returns (ancestors: map<Id, set<Id>>)
    ensures ancestors.Keys == Ids(steps)
    ensures UniqueIds(steps) && !HasCycle(steps) ==> forall x :: x in ancestors ==> ancestors[x] == AllAncestors(steps, x)
  {
    var ids := Ids(steps);
    var direct := Direct(steps, ids);
    DirectWithin(steps, ids);
    var walk := new AncestorMap(direct, ids);
    ancestors := map[];
    for i := 0 to |steps|
      invariant walk.Valid() && fresh(walk) && walk.direct == direct && walk.ids == ids
      invariant ancestors.Keys == set j | 0 <= j < i :: steps[j].id
      invariant forall x :: x in ancestors ==> walk.Exact(x, ancestors[x])
    {
      var above := walk.AncestorsOf(steps[i].id, {});
      ancestors := ancestors[steps[i].id := above];
    }
    if UniqueIds(steps) { CycleInDirect(steps); }
  }

  lemma {:induction false} DirectWithin(steps: seq<PlanStep>, ids: set<Id>)
    requires Ids(steps) <= ids
    ensures Within(Direct(steps, ids), ids)
  {
    if steps != [] {
      var n := |steps| - 1;
      assert steps[n].id in Ids(steps);
      assert Ids(steps[..n]) <= ids by {
        forall x | x in Ids(steps[..n]) ensures x in Ids(steps) {}
      }
      DirectWithin(steps[..n], ids);
      var g, h := Direct(steps, ids), Direct(steps[..n], ids);
      forall a, b | Edge(g, a, b) ensures a in ids && b in ids {
        if a != steps[n].id { assert Edge(h, a, b); }
      }
    }
  }

  // ---- the walk without a guard ------------------------------------------------------------------

  /** The approval checkpoint's walk.  It has no cycle guard; what makes it end on an accepted
      plan is that the set of transitive dependencies shrinks at every call. */
  class EvidenceWalk {
    const deps: Links
    ghost const ids: set<Id>
    var cache: map<Id, set<Id>>

    constructor (deps: Links, ghost ids: set<Id>)
      requires Within(deps, ids)
      ensures Valid() && this.deps == deps && this.ids == ids
    {
      this.deps, this.ids, cache := deps, ids, map[];
    }

    ghost predicate Valid()
      reads this
    {
      && Within(deps, ids)
      && forall k :: k in cache ==> cache[k] == ReachSet(deps, ids, k)
    }

    method Walk(sid: Id) returns (out: set<Id>)
      requires Valid() && AcyclicBelow(deps, sid)
      modifies this
      decreases |ReachSet(deps, ids, sid)|, 1
      ensures Valid() && out == ReachSet(deps, ids, sid)
    {
      if sid in cache { return cache[sid]; }
      out := WalkVia(sid);
      cache := cache[sid := out];
    }

    /** The loop over the direct dependencies of sid. */
    method WalkVia(sid: Id) returns (out: set<Id>)
      requires Valid() && AcyclicBelow(deps, sid)
      modifies this
      decreases |ReachSet(deps, ids, sid)|, 0
      ensures Valid() && out == ReachSet(deps, ids, sid)
    {
      hide Reaches, AcyclicBelow, ReachSet, Within;
      out := {};
      var list := Next(deps, sid);
      for k := 0 to |list|
        invariant Valid() && out <= ReachSet(deps, ids, sid)
        invariant forall j :: 0 <= j < k ==> list[j] in out && ReachSet(deps, ids, list[j]) <= out
      {
        assert Edge(deps, sid, list[k]);
        AcyclicBelowEdge(deps, sid, list[k]);
        EdgeLowersRank(deps, ids, sid, list[k]);
        ReachSetOfEdge(deps, ids, sid, list[k]);
        var above := Walk(list[k]);
        out := out + {list[k]} + above;
      }
      ReachSetOfAll(deps, ids, sid, out);
    }
  }

  function InPlanOrder(steps: seq<PlanStep>, keys: set<Id>): seq<Id> {
    if steps == [] then []
    else (if steps[0].id in keys then [steps[0].id] else []) + InPlanOrder(steps[1..], keys)
  }

  ghost predicate Earlier(steps: seq<PlanStep>, x: Id, y: Id) {
    exists p, q :: 0 <= p < q < |steps| && steps[p].id == x && steps[q].id == y
  }

  /** The list holds exactly the wanted keys, each once and in plan order. */
  lemma {:induction false} PlanOrderKept(steps: seq<PlanStep>, keys: set<Id>)
    requires UniqueIds(steps) && keys <= Ids(steps)
    ensures forall x :: x in InPlanOrder(steps, keys) <==> x in keys
    ensures var r := InPlanOrder(steps, keys); forall i, j | 0 <= i < j < |r| :: Earlier(steps, r[i], r[j])
  {
    PlanOrderSorted(steps, keys);
    forall x ensures x in InPlanOrder(steps, keys) <==> x in keys && x in Ids(steps) { PlanOrderMember(steps, keys, x); }
  }

  lemma {:induction false} PlanOrderMember(steps: seq<PlanStep>, keys: set<Id>, x: Id)
    ensures x in InPlanOrder(steps, keys) <==> x in keys && x in Ids(steps)
  {
    if steps != [] {
      PlanOrderMember(steps[1..], keys, x);
      assert Ids(steps) == {steps[0].id} + Ids(steps[1..]);
    }
  }

  lemma {:induction false} PlanOrderSorted(steps: seq<PlanStep>, keys: set<Id>)
    ensures var r := InPlanOrder(steps, keys); forall i, j | 0 <= i < j < |r| :: Earlier(steps, r[i], r[j])
  {
    if steps == [] { return; }
    var rest := InPlanOrder(steps[1..], keys);
    PlanOrderSorted(steps[1..], keys);
    var all := InPlanOrder(steps, keys);
    var shift := |all| - |rest|;
    forall i, j | 0 <= i < j < |all|
      ensures Earlier(steps, all[i], all[j])
    {
      assert all[j] == rest[j - shift];
      if i < shift {
        PlanOrderMember(steps[1..], keys, all[j]);
        var q :| 0 <= q < |steps| - 1 && steps[1..][q].id == all[j];
        assert steps[q + 1].id == all[j];
      } else {
        assert all[i] == rest[i - shift] && Earlier(steps[1..], rest[i - shift], rest[j - shift]);
        var p, q :| 0 <= p < q < |steps| - 1 && steps[1..][p].id == rest[i - shift] && steps[1..][q].id == rest[j - shift];
        assert steps[p + 1].id == all[i] && steps[q + 1].id == all[j];
      }
    }
  }

  /** The caller is to hand it a plan on which the walk ends: no cycle above the Step. */
  method TransitiveAncestorKeys(steps: seq<PlanStep>, key: Id) returns (keys: seq<Id>)
    requires AcyclicBelow(Direct(steps, Ids(steps)), key)
    ensures keys == InPlanOrder(steps, AllAncestors(steps, key))
  {
    var ids := Ids(steps);
    DirectWithin(steps, ids);
    var walk := new EvidenceWalk(Direct(steps, ids), ids);
    var ancestors := walk.Walk(key);
    keys := InPlanOrder(steps, ancestors);
  }
}
