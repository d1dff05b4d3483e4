/**
 The import-cycle finder: a depth-first search that keeps the path being visited
 and reports each cycle it closes, once per set of modules.
 */
module Cycles {
  import opened Ordering
  import opened Graphs

  /** A simple directed cycle, listed from any of its members. */
  ghost predicate IsCycle(g: Graph, c: seq<Id>) {
    IsWalk(g, c) && Distinct(c) && Edge(g, c[|c| - 1], c[0])
  }

  /** Some reported cycle goes through both `a` and `b`. */
  ghost predicate Covered(cycles: seq<seq<Id>>, a: Id, b: Id) {
    exists c :: c in cycles && a in c && b in c
  }

  ghost predicate DistinctSignatures(cycles: seq<seq<Id>>) {
    forall i, j | 0 <= i < j < |cycles| :: Elements(cycles[i]) != Elements(cycles[j])
  }

  /** Every closed walk has an edge whose two ends lie on one reported cycle. */
  ghost predicate CoversClosedWalks(g: Graph, cycles: seq<seq<Id>>) {
    forall p | IsWalk(g, p) && |p| >= 2 && p[0] == p[|p| - 1] ::
      exists i :: 0 <= i < |p| - 1 && Covered(cycles, p[i], p[i + 1])
  }

  ghost predicate IsCycleReport(g: Graph, cycles: seq<seq<Id>>) {
    && (forall c | c in cycles :: IsCycle(g, c))
    && DistinctSignatures(cycles)
    && CoversClosedWalks(g, cycles)
  }

  // ---------------------------------------------------------------- what a report means

  lemma CycleIsClosedWalk(g: Graph, c: seq<Id>)
    requires IsCycle(g, c)
    ensures IsWalk(g, c + [c[0]])
  {
    var p := c + [c[0]];
    forall i | 0 <= i < |p| - 1 ensures Edge(g, p[i], p[i + 1]) {
      if i < |c| - 1 { assert Edge(g, c[i], c[i + 1]); }
    }
  }

  /** Any two members of a cycle reach each other. */
  lemma CycleMembersReach(g: Graph, c: seq<Id>, a: Id, b: Id)
    requires IsCycle(g, c) && a in c && b in c
    ensures Reaches(g, a, b)
  {
    var p := c + [c[0]];
    CycleIsClosedWalk(g, c);
    var i :| 0 <= i < |c| && c[i] == a;
    var j :| 0 <= j < |c| && c[j] == b;
    ReachesAlongWalk(g, p, i, |c|);
    if j > 0 {
      ReachesAlongWalk(g, p, 0, j);
      ReachesIsTransitive(g, a, c[0], b);
    }
  }

  /** Nothing is reported exactly when there are no cycles. */
  lemma EmptyReportIffAcyclic(g: Graph, cycles: seq<seq<Id>>)
    requires IsCycleReport(g, cycles)
    ensures cycles == [] <==> Acyclic(g)
  {
    if cycles != [] {
      var c := cycles[0];
      assert c in cycles;
      CycleMembersReach(g, c, c[0], c[0]);
    }
    if !Acyclic(g) {
      var a :| Reaches(g, a, a);
      var c := EveryCyclicComponentIsReported(g, cycles, a);
    }
  }

  ghost predicate StronglyConnected(g: Graph, a: Id, b: Id) {
    a == b || (Reaches(g, a, b) && Reaches(g, b, a))
  }

  /** Every cyclic strongly connected component contains a reported cycle. */
  lemma EveryCyclicComponentIsReported(g: Graph, cycles: seq<seq<Id>>, a: Id) returns (c: seq<Id>)
    requires IsCycleReport(g, cycles) && Reaches(g, a, a)
    ensures c in cycles && forall x | x in c :: StronglyConnected(g, a, x)
  {
    var p :| WalkBetween(g, p, a, a) && |p| >= 2;
    var i :| 0 <= i < |p| - 1 && Covered(cycles, p[i], p[i + 1]);
    c :| c in cycles && p[i] in c && p[i + 1] in c;
    OnClosedWalk(g, p, i);
    forall x | x in c ensures StronglyConnected(g, a, x) {
      CycleMembersReach(g, c, p[i], x);
      CycleMembersReach(g, c, x, p[i]);
      JoinComponents(g, a, p[i], x);
    }
  }

  lemma OnClosedWalk(g: Graph, p: seq<Id>, i: nat)
    requires IsWalk(g, p) && |p| >= 2 && p[0] == p[|p| - 1] && i < |p|
    ensures StronglyConnected(g, p[0], p[i])
  {
    if 0 < i < |p| - 1 {
      ReachesAlongWalk(g, p, 0, i);
      ReachesAlongWalk(g, p, i, |p| - 1);
    }
  }

  lemma JoinComponents(g: Graph, a: Id, b: Id, c: Id)
    requires StronglyConnected(g, a, b) && StronglyConnected(g, b, c)
    ensures StronglyConnected(g, a, c)
  {
    if a != b && b != c {
      ReachesIsTransitive(g, a, b, c);
      ReachesIsTransitive(g, c, b, a);
    }
  }

  // ---------------------------------------------------------------- the search state

  /**
   `state` maps a module to 1 while it is on the path `visiting` and to 2 once
   left. `finished` is the order in which modules were left.
   */
  datatype Search = Search(cycles: seq<seq<Id>>, signatures: set<set<Id>>, visiting: seq<Id>,
                           state: map<Id, int>, finished: seq<Id>)

  ghost predicate IsPath(g: Graph, p: seq<Id>) {
    p == [] || IsWalk(g, p)
  }

  /** Colours, path and finishing order agree. */
  ghost predicate Coloured(g: Graph, s: Search) {
    && IsPath(g, s.visiting) && Distinct(s.visiting)
    && (forall x :: x in s.visiting <==> x in s.state && s.state[x] == 1)
    && (forall x :: x in s.finished <==> x in s.state && s.state[x] == 2)
    && (forall x | x in s.state :: s.state[x] == 1 || s.state[x] == 2)
  }

  ghost predicate Sound(g: Graph, s: Search) {
    && (forall c | c in s.cycles :: IsCycle(g, c))
    && DistinctSignatures(s.cycles)
    && (forall e :: e in s.signatures <==> exists i :: 0 <= i < |s.cycles| && Elements(s.cycles[i]) == e)
  }

  /** `v` has been met: finished before the module finished as number `j`, or on a reported cycle with it. */
  ghost predicate ExploredAt(s: Search, j: nat, v: Id)
    requires j < |s.finished|
  {
    v in s.state && (v in s.finished[..j] || Covered(s.cycles, s.finished[j], v))
  }

  /** That holds of each edge out of a finished module. */
  ghost predicate Explored(g: Graph, s: Search) {
    forall j, v | 0 <= j < |s.finished| && Edge(g, s.finished[j], v) :: ExploredAt(s, j, v)
  }

  /** The edge from `m` to `v` has been dealt with. */
  ghost predicate Handled(s: Search, m: Id, v: Id) {
    v in s.state && (v in s.finished || Covered(s.cycles, m, v))
  }

  ghost predicate Good(g: Graph, s: Search) {
    Coloured(g, s) && Sound(g, s) && Explored(g, s)
  }

  /** Later states keep what was reported and finished. */
  ghost predicate Extends(s: Search, t: Search) {
    s.cycles <= t.cycles && s.finished <= t.finished && s.state.Keys <= t.state.Keys
  }

  /** Every edge out of `m` has. */
  ghost predicate AllHandled(g: Graph, s: Search, m: Id) {
    forall v | Edge(g, m, v) :: Handled(s, m, v)
  }

  lemma CoveredGrows(a: seq<seq<Id>>, b: seq<seq<Id>>, x: Id, y: Id)
    requires a <= b && Covered(a, x, y)
    ensures Covered(b, x, y)
  {
    var c :| c in a && x in c && y in c;
    assert c in b;
  }

  /** Entering a module. */
  ghost function Enter(s: Search, m: Id): Search {
    s.(state := s.state[m := 1], visiting := s.visiting + [m])
  }

  lemma EnterIsGood(g: Graph, s: Search, m: Id)
    requires Good(g, s) && m !in s.state
    requires s.visiting != [] ==> Edge(g, s.visiting[|s.visiting| - 1], m)
    ensures Good(g, Enter(s, m))
  {
    var p := Enter(s, m).visiting;
    forall i | 0 <= i < |p| - 1 ensures Edge(g, p[i], p[i + 1]) {
      if i < |s.visiting| - 1 { assert Edge(g, s.visiting[i], s.visiting[i + 1]); }
    }
  }

  /** Leaving the last module of the path. */
  ghost function Leave(s: Search): Search
    requires s.visiting != []
  {
    var m := s.visiting[|s.visiting| - 1];
    s.(state := s.state[m := 2], visiting := s.visiting[..|s.visiting| - 1], finished := s.finished + [m])
  }

  lemma LeaveIsGood(g: Graph, s: Search)
    requires Good(g, s) && s.visiting != []
    requires AllHandled(g, s, s.visiting[|s.visiting| - 1])
    ensures Good(g, Leave(s))
  {
    var t, m := Leave(s), s.visiting[|s.visiting| - 1];
    LeaveIsColoured(g, s);
    forall j, v | 0 <= j < |t.finished| && Edge(g, t.finished[j], v)
      ensures ExploredAt(t, j, v)
    {
      if j < |s.finished| {
        assert ExploredAt(s, j, v);
        assert t.finished[..j] == s.finished[..j];
      } else {
        assert t.finished[..j] == s.finished && Handled(s, m, v);
      }
    }
  }

  lemma LeaveIsColoured(g: Graph, s: Search)
    requires Coloured(g, s) && s.visiting != []
    ensures Coloured(g, Leave(s))
  {
    var t, m := Leave(s), s.visiting[|s.visiting| - 1];
    assert s.visiting == t.visiting + [m];
    forall i | 0 <= i < |t.visiting| - 1 ensures Edge(g, t.visiting[i], t.visiting[i + 1]) {
      assert Edge(g, s.visiting[i], s.visiting[i + 1]);
    }
  }

  /** The cycle closed by an edge from the end of the path back to `target`. */
  ghost function Report(s: Search, k: nat): Search
    requires k < |s.visiting|
  {
    var cycle := s.visiting[k..];
    if Elements(cycle) in s.signatures then s
    else s.(cycles := s.cycles + [cycle], signatures := s.signatures + {Elements(cycle)})
  }

  lemma ReportIsGood(g: Graph, s: Search, k: nat)
    requires Good(g, s) && k < |s.visiting|
    requires Edge(g, s.visiting[|s.visiting| - 1], s.visiting[k])
    ensures Good(g, Report(s, k)) && s.cycles <= Report(s, k).cycles
    ensures Covered(Report(s, k).cycles, s.visiting[|s.visiting| - 1], s.visiting[k])
  {
    var t, cycle := Report(s, k), s.visiting[k..];
    PathSuffixIsCycle(g, s.visiting, k);
    var m, target := s.visiting[|s.visiting| - 1], s.visiting[k];
    assert cycle[0] == target && cycle[|cycle| - 1] == m;
    if Elements(cycle) in s.signatures {
      var i :| 0 <= i < |s.cycles| && Elements(s.cycles[i]) == Elements(cycle);
      assert m in Elements(s.cycles[i]) && target in Elements(s.cycles[i]);
      assert s.cycles[i] in s.cycles;
    } else {
      AppendIsSound(g, s, cycle);
      assert cycle in t.cycles;
      forall j, v | 0 <= j < |t.finished| && Edge(g, t.finished[j], v)
        ensures ExploredAt(t, j, v)
      {
        assert ExploredAt(s, j, v);
        if v !in t.finished[..j] { CoveredGrows(s.cycles, t.cycles, t.finished[j], v); }
      }
    }
  }

  lemma PathSuffixIsCycle(g: Graph, p: seq<Id>, k: nat)
    requires IsWalk(g, p) && Distinct(p) && k < |p| && Edge(g, p[|p| - 1], p[k])
    ensures IsCycle(g, p[k..])
  {
    var c := p[k..];
    forall i | 0 <= i < |c| - 1 ensures Edge(g, c[i], c[i + 1]) {
      assert Edge(g, p[k + i], p[k + i + 1]);
    }
  }

  lemma AppendIsSound(g: Graph, s: Search, cycle: seq<Id>)
    requires Sound(g, s) && IsCycle(g, cycle) && Elements(cycle) !in s.signatures
    ensures Sound(g, s.(cycles := s.cycles + [cycle], signatures := s.signatures + {Elements(cycle)}))
  {
    var cycles := s.cycles + [cycle];
    forall e ensures e in s.signatures + {Elements(cycle)} <==> exists i :: 0 <= i < |cycles| && Elements(cycles[i]) == e {
      if e == Elements(cycle) { assert Elements(cycles[|s.cycles|]) == e; }
      if e in s.signatures {
        var i :| 0 <= i < |s.cycles| && Elements(s.cycles[i]) == e;
        assert Elements(cycles[i]) == e;
      }
      if i :| 0 <= i < |cycles| && Elements(cycles[i]) == e {
        if i < |s.cycles| { assert Elements(s.cycles[i]) == e; }
      }
    }
  }

  // ---------------------------------------------------------------- completeness

  /** Along a walk from a finished module, some edge is covered or the finishing order falls. */
  lemma {:induction false} FallsOrCovered(g: Graph, s: Search, p: seq<Id>, j: nat) returns (i: nat, j': nat)
    requires Explored(g, s) && IsWalk(g, p) && |p| >= 2
    requires j < |s.finished| && s.finished[j] == p[0]
    ensures i < |p| - 1
    ensures Covered(s.cycles, p[i], p[i + 1]) || (j' < j && s.finished[j'] == p[|p| - 1])
  {
    i, j' := 0, 0;
    assert Edge(g, p[0], p[1]);
    if !Covered(s.cycles, p[0], p[1]) {
      assert ExploredAt(s, j, p[1]);
      j' :| 0 <= j' < j && s.finished[j'] == p[1];
      if |p| > 2 {
        TailIsWalk(g, p);
        i, j' := FallsOrCovered(g, s, p[1..], j');
        i := i + 1;
      }
    }
  }

  /** Round a closed walk the finishing order cannot fall all the way. */
  lemma {:induction false} ClosedWalkIsCovered(g: Graph, s: Search, p: seq<Id>, j: nat) returns (i: nat)
    requires Explored(g, s) && IsWalk(g, p) && |p| >= 2 && p[0] == p[|p| - 1]
    requires j < |s.finished| && s.finished[j] == p[0]
    ensures i < |p| - 1 && Covered(s.cycles, p[i], p[i + 1])
    decreases j
  {
    var j';
    i, j' := FallsOrCovered(g, s, p, j);
    if !Covered(s.cycles, p[i], p[i + 1]) {
      i := ClosedWalkIsCovered(g, s, p, j');
    }
  }

  lemma FinishedSearchIsReport(g: Graph, s: Search)
    requires Good(g, s) && forall x | x in g :: x in s.finished
    ensures IsCycleReport(g, s.cycles)
  {
    forall p | IsWalk(g, p) && |p| >= 2 && p[0] == p[|p| - 1]
      ensures exists i :: 0 <= i < |p| - 1 && Covered(s.cycles, p[i], p[i + 1])
    {
      assert Edge(g, p[0], p[1]);
      var j :| 0 <= j < |s.finished| && s.finished[j] == p[0];
      var i := ClosedWalkIsCovered(g, s, p, j);
    }
  }

  /** A walk through modules that the search has not met. */
  ghost predicate IsWhite(g: Graph, s: Search, p: seq<Id>) {
    IsWalk(g, p) && forall x | x in p :: x !in s.state
  }

  /** Everything that `m` reaches through modules white in `s` is finished in `t`. */
  ghost predicate FinishesWhite(g: Graph, s: Search, t: Search, m: Id) {
    forall p | IsWhite(g, s, p) && p[0] == m :: p[|p| - 1] in t.finished
  }

  lemma {:induction false} WhiteWalkIsFinished(g: Graph, s: Search, t: Search, p: seq<Id>)
    requires Coloured(g, s) && Good(g, t) && s.visiting == t.visiting
    requires IsWhite(g, s, p) && p[0] in t.finished
    ensures p[|p| - 1] in t.finished
  {
    if |p| > 1 {
      var front, v := p[..|p| - 1], p[|p| - 1];
      assert forall x | x in front :: x in p;
      WhiteWalkIsFinished(g, s, t, front);
      var j :| 0 <= j < |t.finished| && t.finished[j] == front[|front| - 1];
      assert Edge(g, p[|p| - 2], p[|p| - 1]);
      assert v in t.state && v in p;
    }
  }

  lemma WhiteIsFinished(g: Graph, s: Search, t: Search, m: Id)
    requires Coloured(g, s) && Good(g, t) && s.visiting == t.visiting && m in t.finished
    ensures FinishesWhite(g, s, t, m)
  {
    forall p | IsWhite(g, s, p) && p[0] == m ensures p[|p| - 1] in t.finished {
      WhiteWalkIsFinished(g, s, t, p);
    }
  }

  /** What a visit achieves, put together from its three parts: entering, exploring, leaving. */
  lemma VisitIsComplete(g: Graph, s: Search, explored: Search, t: Search, m: Id)
    requires Good(g, s) && m !in s.state
    requires Extends(Enter(s, m), explored) && explored.visiting == s.visiting + [m]
    requires Good(g, t) && t == Leave(explored)
    ensures Extends(s, t) && t.visiting == s.visiting && m in t.finished
    ensures FinishesWhite(g, s, t, m)
  {
    WhiteIsFinished(g, s, t, m);
  }

  // ---------------------------------------------------------------- the search

  /** All modules, imported ones outside the graph included. */
  ghost function Modules(g: Graph): set<Id> {
    g.Keys + set a, b | a in g && b in g[a] :: b
  }

  function Targets(g: Graph, m: Id): seq<Id> {
    if m in g then Sorted(g[m]) else []
  }

  lemma TargetsAreEdges(g: Graph, m: Id)
    ensures forall v :: v in Targets(g, m) <==> Edge(g, m, v)
    ensures forall v | v in Targets(g, m) :: v in Modules(g)
  {
    forall v ensures v in Targets(g, m) <==> Edge(g, m, v) {
      if m in g { SortedContains(g[m], v); }
    }
  }

  function IndexOf(q: seq<Id>, x: Id): (k: nat)
    requires x in q
    ensures k < |q| && q[k] == x
  {
    if q[0] == x then 0 else 1 + IndexOf(q[1..], x)
  }

  class CycleFinder {
    const graph: Graph
    var cycles: seq<seq<Id>>
    var signatures: set<set<Id>>
    var visiting: seq<Id>
    var state: map<Id, int>
    ghost var finished: seq<Id>

    ghost function View(): Search
      reads this
    {
      Search(cycles, signatures, visiting, state, finished)
    }

    constructor (g: Graph)
      ensures graph == g && View() == Search([], {}, [], map[], [])
    {
      graph := g;
      cycles, signatures, visiting, state, finished := [], {}, [], map[], [];
    }

    /** Reports the cycle closed by an edge back to `target`, unless its module set was seen. */
    method CloseCycle(target: Id)
      requires Good(graph, View()) && target in visiting
      requires Edge(graph, visiting[|visiting| - 1], target)
      modifies this`cycles, this`signatures
      ensures View() == Report(old(View()), IndexOf(visiting, target))
      ensures Good(graph, View()) && old(cycles) <= cycles
      ensures Covered(cycles, visiting[|visiting| - 1], target)
    {
      var k := IndexOf(visiting, target);
      ReportIsGood(graph, View(), k);
      var cycle := visiting[k..];
      var signature := Elements(cycle);
      if signature !in signatures {
        signatures := signatures + {signature};
        cycles := cycles + [cycle];
      }
    }

    /** Visits a white module: explores everything reachable from it that is still white. */
    method Visit(m: Id)
      requires Good(graph, View()) && m !in state && m in Modules(graph)
      requires visiting != [] ==> Edge(graph, visiting[|visiting| - 1], m)
      modifies this
      ensures Good(graph, View()) && Extends(old(View()), View())
      ensures visiting == old(visiting) && m in finished
      ensures FinishesWhite(graph, old(View()), View(), m)
      decreases Modules(graph) - state.Keys, 0
    {
      ghost var before := View();
      Push(m);
      VisitTargets(m);
      ghost var explored := View();
      Pop();
      VisitIsComplete(graph, before, explored, View(), m);
    }

    method Push(m: Id)
      requires Good(graph, View()) && m !in state
      requires visiting != [] ==> Edge(graph, visiting[|visiting| - 1], m)
      modifies this`state, this`visiting
      ensures Good(graph, View()) && View() == Enter(old(View()), m)
    {
      EnterIsGood(graph, View(), m);
      state := state[m := 1];
      visiting := visiting + [m];
    }

    method Pop()
      requires Good(graph, View()) && visiting != []
      requires AllHandled(graph, View(), visiting[|visiting| - 1])
      modifies this`state, this`visiting, this`finished
      ensures Good(graph, View()) && View() == Leave(old(View()))
    {
      var m := visiting[|visiting| - 1];
      LeaveIsGood(graph, View());
      assert m in visiting;
      visiting := visiting[..|visiting| - 1];
      state := state[m := 2];
      finished := finished + [m];
    }

    /** The loop over the imports of the module at the end of the path. */
    method VisitTargets(m: Id)
      requires Good(graph, View()) && visiting != [] && visiting[|visiting| - 1] == m
      modifies this
      ensures Good(graph, View()) && Extends(old(View()), View())
      ensures visiting == old(visiting)
      ensures AllHandled(graph, View(), m)
      decreases Modules(graph) - state.Keys, 2
    {
      var targets := Targets(graph, m);
      TargetsAreEdges(graph, m);
      for i := 0 to |targets|
        invariant Good(graph, View()) && Extends(old(View()), View())
        invariant visiting == old(visiting)
        invariant forall v | v in targets[..i] :: Handled(View(), m, v)
      {
        ghost var before := View();
        VisitTarget(m, targets[i]);
        KeepProcessed(before, View(), m, targets[..i]);
      }
    }

    /** The body of that loop: descends into a white import, closes a cycle on one that is on the path. */
    method VisitTarget(m: Id, target: Id)
      requires Good(graph, View()) && visiting != [] && visiting[|visiting| - 1] == m
      requires Edge(graph, m, target) && target in Modules(graph)
      modifies this
      ensures Good(graph, View()) && Extends(old(View()), View())
      ensures visiting == old(visiting) && Handled(View(), m, target)
      decreases Modules(graph) - state.Keys, 1
    {
      if target !in state {
        Visit(target);
      } else if state[target] == 1 {
        CloseCycle(target);
      }
    }
  }

  lemma KeepProcessed(s: Search, t: Search, m: Id, processed: seq<Id>)
    requires Extends(s, t) && forall v | v in processed :: Handled(s, m, v)
    ensures forall v | v in processed :: Handled(t, m, v)
  {
    forall v | v in processed ensures Handled(t, m, v) {
      assert Handled(s, m, v);
      if v !in s.finished { CoveredGrows(s.cycles, t.cycles, m, v); }
    }
  }

  /** Finds the import cycles of a graph. */
  method FindCycles(g: Graph) returns (cycles: seq<seq<Id>>)
    ensures IsCycleReport(g, cycles)
  {
    var finder := new CycleFinder(g);
    var roots := Sorted(g.Keys);
    assert forall j | 0 <= j < |roots| :: roots[j] in g by {
      forall j | 0 <= j < |roots| ensures roots[j] in g { SortedContains(g.Keys, roots[j]); }
    }
    for i := 0 to |roots|
      invariant finder.graph == g && Good(g, finder.View()) && finder.visiting == []
      invariant forall j | 0 <= j < i :: roots[j] in finder.finished
    {
      if roots[i] !in finder.state {
        finder.Visit(roots[i]);
      }
    }
    assert forall x | x in g :: x in finder.finished by {
      forall x | x in g ensures x in finder.finished { SortedContains(g.Keys, x); }
    }
    FinishedSearchIsReport(g, finder.View());
    cycles := finder.cycles;
  }
}
