/**
 The dependency graph of a workflow: construction checks, level-by-level
 scheduling with an in-degree table, and the closure of dependents.
 */
module Dags {
  import opened Wrappers
  import opened Ordering
  import opened Graphs

  datatype DagNode = DagNode(stepId: Id, needs: seq<Id>)

  datatype GraphError =
    | DuplicateStepIds(ids: seq<Id>)
    | SelfDependency(stepId: Id)
    | UnknownNeed(stepId: Id, need: Id)
    | CycleInvolving(ids: seq<Id>)

  /** `order` is the insertion order of the Python dict `nodes`. */
  datatype Dag = Dag(order: seq<Id>, nodes: map<Id, DagNode>, levels: seq<seq<Id>>)

  function Ids(nodes: seq<DagNode>): (ids: seq<Id>)
    ensures |ids| == |nodes| && forall i | 0 <= i < |ids| :: ids[i] == nodes[i].stepId
  {
    seq(|nodes|, i requires 0 <= i < |nodes| => nodes[i].stepId)
  }

  /** Ids that occur more than once. */
  ghost function Repeated(ids: seq<Id>): set<Id> {
    set i, j | 0 <= i < j < |ids| && ids[i] == ids[j] :: ids[i]
  }

  /** The graph with an edge from each step to every step it needs. */
  function NeedsGraph(nodes: map<Id, DagNode>): Graph {
    map id | id in nodes :: set n | n in nodes[id].needs
  }

  ghost predicate Indexed(order: seq<Id>, nodes: map<Id, DagNode>) {
    && Distinct(order)
    && Elements(order) == nodes.Keys
    && forall id | id in nodes :: nodes[id].stepId == id
  }

  ghost predicate GoodReference(nodes: map<Id, DagNode>, id: Id, need: Id) {
    need != id && need in nodes
  }

  ghost predicate GoodReferences(nodes: map<Id, DagNode>) {
    forall id, need | id in nodes && need in nodes[id].needs :: GoodReference(nodes, id, need)
  }

  /** The steps whose longest dependency chain has `k` edges, in sorted order. */
  ghost function Layer(g: Graph, k: nat): seq<Id> {
    Sorted(Settled(g, k + 1) - Settled(g, k))
  }

  ghost predicate AreLayers(g: Graph, levels: seq<seq<Id>>) {
    forall k | 0 <= k < |levels| :: IsLayer(g, levels, k)
  }

  ghost predicate IsLayer(g: Graph, levels: seq<seq<Id>>, k: nat)
    requires k < |levels|
  {
    levels[k] == Layer(g, k) && levels[k] != []
  }

  /** Every layer up to the first empty one. */
  ghost predicate IsLayering(g: Graph, levels: seq<seq<Id>>) {
    && AreLayers(g, levels)
    && Settled(g, |levels|) == Settled(g, |levels| + 1)
  }

  /** What construction establishes and every user of a graph relies on. */
  ghost predicate ValidDag(d: Dag) {
    && Indexed(d.order, d.nodes)
    && GoodReferences(d.nodes)
    && Acyclic(NeedsGraph(d.nodes))
    && IsLayering(NeedsGraph(d.nodes), d.levels)
  }

  lemma NeedsGraphIsClosed(nodes: map<Id, DagNode>)
    requires GoodReferences(nodes)
    ensures Closed(NeedsGraph(nodes))
  {
    var g := NeedsGraph(nodes);
    forall a, b | Edge(g, a, b) ensures b in g {
      assert GoodReference(nodes, a, b);
    }
  }

  // ---------------------------------------------------------------- counting

  /** How many entries of `needs`, counted with repetition, are not in `done`. */
  ghost function Pending(needs: seq<Id>, done: set<Id>): nat {
    if needs == [] then 0
    else Pending(needs[..|needs| - 1], done) + if needs[|needs| - 1] in done then 0 else 1
  }

  lemma {:induction false} PendingZero(needs: seq<Id>, done: set<Id>)
    ensures Pending(needs, done) == 0 <==> forall n | n in needs :: n in done
    ensures done == {} ==> Pending(needs, done) == |needs|
  {
    if needs != [] {
      var front := needs[..|needs| - 1];
      PendingZero(front, done);
      assert needs == front + [needs[|needs| - 1]];
    }
  }

  /** Completing `x` settles every occurrence of `x`. */
  lemma {:induction false} PendingStep(needs: seq<Id>, done: set<Id>, x: Id)
    requires x !in done
    ensures Pending(needs, done) == Pending(needs, done + {x}) + Count(needs, x)
  {
    if needs != [] {
      var front := needs[..|needs| - 1];
      PendingStep(front, done, x);
      assert needs == front + [needs[|needs| - 1]];
    }
  }

  // ---------------------------------------------------------------- construction

  /** The set of already seen ids catches exactly the repeated ones. */
  method ValidateUnique(nodes: seq<DagNode>) returns (r: Option<GraphError>)
    ensures r.None? <==> Distinct(Ids(nodes))
    ensures r.Some? ==> r.value == DuplicateStepIds(Sorted(Repeated(Ids(nodes))))
  {
    var seen: set<Id>, duplicates: set<Id> := {}, {};
    ghost var ids := Ids(nodes);
    for i := 0 to |nodes|
      invariant seen == Elements(ids[..i])
      invariant duplicates == Repeated(ids[..i])
    {
      RepeatedOfAppend(ids, i);
      if nodes[i].stepId in seen {
        duplicates := duplicates + {nodes[i].stepId};
      }
      seen := seen + {nodes[i].stepId};
      assert ids[..i + 1] == ids[..i] + [ids[i]];
    }
    assert ids[..|nodes|] == ids;
    if duplicates != {} {
      r := Some(DuplicateStepIds(Sorted(duplicates)));
    } else {
      r := None;
    }
    NoneRepeated(ids);
  }

  lemma NoneRepeated(ids: seq<Id>)
    ensures Repeated(ids) == {} <==> Distinct(ids)
  {
    assert forall i, j | 0 <= i < j < |ids| && ids[i] == ids[j] :: ids[i] in Repeated(ids);
    if Repeated(ids) != {} {
      var x :| x in Repeated(ids);
    }
  }

  lemma RepeatedOfAppend(ids: seq<Id>, i: nat)
    requires i < |ids|
    ensures Repeated(ids[..i + 1]) == Repeated(ids[..i]) + if ids[i] in ids[..i] then {ids[i]} else {}
  {
    var p, q := ids[..i], ids[..i + 1];
    forall x | x in Repeated(q) ensures x in Repeated(p) || (x == ids[i] && ids[i] in p) {
      var a, b :| 0 <= a < b < |q| && q[a] == q[b] && x == q[a];
      if b < i { assert p[a] == p[b]; } else { assert p[a] == ids[i]; }
    }
    forall x | x in Repeated(p) ensures x in Repeated(q) {
      var a, b :| 0 <= a < b < |p| && p[a] == p[b] && x == p[a];
      assert q[a] == q[b];
    }
    if ids[i] in p {
      var a :| 0 <= a < |p| && p[a] == ids[i];
      assert q[a] == q[i];
    }
  }

  /** The error names the first bad reference in declaration order, and in which of the two ways it is bad. */
  ghost predicate IsFirstBadReference(order: seq<Id>, nodes: map<Id, DagNode>, error: GraphError)
    requires Indexed(order, nodes)
  {
    assert forall id | id in order :: id in Elements(order);
    exists i, j | 0 <= i < |order| && 0 <= j < |nodes[order[i]].needs| ::
      var need := nodes[order[i]].needs[j];
      && (forall k, n | 0 <= k < i && n in nodes[order[k]].needs :: GoodReference(nodes, order[k], n))
      && (forall l | 0 <= l < j :: GoodReference(nodes, order[i], nodes[order[i]].needs[l]))
      && error == (if need == order[i] then SelfDependency(order[i]) else UnknownNeed(order[i], need))
      && !GoodReference(nodes, order[i], need)
  }

  /** The first offending reference in declaration order, if any. */
  method ValidateReferences(order: seq<Id>, nodes: map<Id, DagNode>) returns (r: Option<GraphError>)
    requires Indexed(order, nodes)
    ensures r.None? <==> GoodReferences(nodes)
    ensures r.Some? ==> IsFirstBadReference(order, nodes, r.value)
  {
    assert forall id | id in order :: id in Elements(order);
    for i := 0 to |order|
      invariant forall k, n | 0 <= k < i && n in nodes[order[k]].needs :: GoodReference(nodes, order[k], n)
    {
      var id := order[i];
      var needs := nodes[id].needs;
      for j := 0 to |needs|
        invariant forall l | 0 <= l < j :: GoodReference(nodes, id, needs[l])
      {
        if needs[j] == id {
          assert !GoodReference(nodes, id, needs[j]);
          return Some(SelfDependency(id));
        }
        if needs[j] !in nodes {
          assert !GoodReference(nodes, id, needs[j]);
          return Some(UnknownNeed(id, needs[j]));
        }
      }
    }
    forall id, need | id in nodes && need in nodes[id].needs ensures GoodReference(nodes, id, need) {
      assert id in Elements(order);
      var k :| 0 <= k < |order| && order[k] == id;
    }
    r := None;
  }

  /** If `s` is done it is listed under `n` as often as it needs `n`; otherwise it is not listed. */
  ghost predicate MirrorsAt(dependents: map<Id, seq<Id>>, nodes: map<Id, DagNode>, done: set<Id>, n: Id, s: Id)
    requires n in dependents
  {
    Count(dependents[n], s) == if s in done && s in nodes then Count(nodes[s].needs, n) else 0
  }

  ghost predicate MirrorsPart(dependents: map<Id, seq<Id>>, nodes: map<Id, DagNode>, done: set<Id>) {
    && dependents.Keys == nodes.Keys
    && forall n, s | n in dependents :: MirrorsAt(dependents, nodes, done, n, s)
  }

  ghost predicate Mirrors(dependents: map<Id, seq<Id>>, nodes: map<Id, DagNode>) {
    MirrorsPart(dependents, nodes, nodes.Keys)
  }

  lemma MirrorOfNothing(dependents: map<Id, seq<Id>>, nodes: map<Id, DagNode>)
    requires dependents.Keys == nodes.Keys && forall n | n in dependents :: dependents[n] == []
    ensures MirrorsPart(dependents, nodes, {})
  {
  }

  lemma MirrorStep(before: map<Id, seq<Id>>, after: map<Id, seq<Id>>, nodes: map<Id, DagNode>,
                   done: set<Id>, id: Id)
    requires MirrorsPart(before, nodes, done) && id in nodes && id !in done
    requires after.Keys == before.Keys
    requires forall n | n in before :: after[n] == before[n] + Copies(id, Count(nodes[id].needs, n))
    ensures MirrorsPart(after, nodes, done + {id})
  {
    forall n, s | n in after ensures MirrorsAt(after, nodes, done + {id}, n, s) {
      assert MirrorsAt(before, nodes, done, n, s);
      CountCopies(before[n], id, Count(nodes[id].needs, n), s);
    }
  }

  function Copies(x: Id, k: nat): seq<Id> {
    seq(k, _ => x)
  }

  lemma {:induction false} CountCopies(q: seq<Id>, y: Id, k: nat, x: Id)
    ensures Count(q + Copies(y, k), x) == Count(q, x) + if x == y then k else 0
  {
    if k == 0 {
      assert q + Copies(y, 0) == q;
    } else {
      CountCopies(q, y, k - 1, x);
      assert q + Copies(y, k) == (q + Copies(y, k - 1)) + [y];
      CountAppend(q + Copies(y, k - 1), y, x);
    }
  }

  /** Lists `id` once under each entry of its `needs`. */
  method AddDependent(dependents: map<Id, seq<Id>>, id: Id, needs: seq<Id>)
    returns (r: map<Id, seq<Id>>)
    requires forall n | n in needs :: n in dependents
    ensures r.Keys == dependents.Keys
    ensures forall n | n in dependents :: r[n] == dependents[n] + Copies(id, Count(needs, n))
  {
    r := dependents;
    for j := 0 to |needs|
      invariant r.Keys == dependents.Keys
      invariant forall n | n in dependents :: r[n] == dependents[n] + Copies(id, Count(needs[..j], n))
    {
      assert needs[..j + 1] == needs[..j] + [needs[j]];
      forall n ensures Count(needs[..j + 1], n) == Count(needs[..j], n) + if n == needs[j] then 1 else 0 {
        CountAppend(needs[..j], needs[j], n);
      }
      r := r[needs[j] := r[needs[j]] + [id]];
    }
    assert needs[..|needs|] == needs;
  }

  /** The reverse adjacency lists, with repetition. */
  method CollectDependents(order: seq<Id>, nodes: map<Id, DagNode>) returns (dependents: map<Id, seq<Id>>)
    requires Indexed(order, nodes) && GoodReferences(nodes)
    ensures Mirrors(dependents, nodes)
  {
    dependents := map id | id in nodes :: [];
    assert forall id | id in order :: id in Elements(order);
    MirrorOfNothing(dependents, nodes);
    for i := 0 to |order|
      invariant MirrorsPart(dependents, nodes, Elements(order[..i]))
    {
      var id := order[i];
      ghost var before := dependents;
      assert forall n | n in nodes[id].needs :: GoodReference(nodes, id, n);
      dependents := AddDependent(dependents, id, nodes[id].needs);
      PrefixStep(order, i);
      MirrorStep(before, dependents, nodes, Elements(order[..i]), id);
    }
    assert order[..|order|] == order;
  }

  /** Decrements the in-degree of each listed dependent and queues the ones that drop to zero. */
  method Release(waiting: seq<Id>, indegree: map<Id, int>, queued: seq<Id>)
    returns (left: map<Id, int>, ready: seq<Id>)
    requires forall s | s in waiting :: s in indegree && Count(waiting, s) <= indegree[s]
    requires Distinct(queued) && forall s | s in queued :: s in indegree && indegree[s] == 0
    ensures left.Keys == indegree.Keys
    ensures forall s | s in indegree :: left[s] == indegree[s] - Count(waiting, s)
    ensures Distinct(ready)
    ensures forall s :: s in ready <==> s in queued || (s in waiting && left[s] == 0)
  {
    left, ready := indegree, queued;
    for j := 0 to |waiting|
      invariant left.Keys == indegree.Keys
      invariant forall s | s in indegree :: left[s] == indegree[s] - Count(waiting[..j], s)
      invariant Distinct(ready)
      invariant forall s :: s in ready <==> s in queued || (s in waiting[..j] && left[s] == 0)
    {
      var s := waiting[j];
      CountPrefix(waiting, j);
      forall t ensures Count(waiting[..j + 1], t) == Count(waiting[..j], t) + if t == s then 1 else 0 {
        assert waiting[..j + 1] == waiting[..j] + [s];
        CountAppend(waiting[..j], s, t);
      }
      assert left[s] > 0;
      assert s !in ready;
      left := left[s := left[s] - 1];
      if left[s] == 0 {
        ready := ready + [s];
      }
      assert waiting[..j + 1] == waiting[..j] + [s];
    }
    assert waiting[..|waiting|] == waiting;
  }

  /** The in-degrees that remain once the steps in `done` are complete. */
  ghost predicate Remaining(nodes: map<Id, DagNode>, indegree: map<Id, int>, done: set<Id>) {
    && indegree.Keys == nodes.Keys
    && forall s | s in nodes :: indegree[s] == Pending(nodes[s].needs, done)
  }

  /** What one completed step releases. */
  lemma ReleaseIsPending(nodes: map<Id, DagNode>, dependents: map<Id, seq<Id>>, done: set<Id>, x: Id, s: Id)
    requires Mirrors(dependents, nodes) && x in nodes && s in nodes && x !in done
    ensures Pending(nodes[s].needs, done) == Pending(nodes[s].needs, done + {x}) + Count(dependents[x], s)
    ensures s in dependents[x] <==> x in nodes[s].needs
  {
    assert MirrorsAt(dependents, nodes, nodes.Keys, x, s);
    PendingStep(nodes[s].needs, done, x);
    CountMember(dependents[x], s);
    CountMember(nodes[s].needs, x);
  }

  /** Remaining in-degree zero means every need is settled. */
  lemma ZeroIsSettled(nodes: map<Id, DagNode>, k: nat, s: Id)
    requires s in nodes
    ensures Pending(nodes[s].needs, Settled(NeedsGraph(nodes), k)) == 0 <==> s in Settled(NeedsGraph(nodes), k + 1)
  {
    PendingZero(nodes[s].needs, Settled(NeedsGraph(nodes), k));
  }

  /** Completes one step. */
  method ReleaseStep(nodes: map<Id, DagNode>, dependents: map<Id, seq<Id>>, indegree: map<Id, int>, queued: seq<Id>,
                     x: Id, ghost done: set<Id>)
    returns (left: map<Id, int>, ready: seq<Id>)
    requires Mirrors(dependents, nodes) && Remaining(nodes, indegree, done)
    requires x in nodes && x !in done
    requires Distinct(queued) && forall s | s in queued :: s in nodes && indegree[s] == 0
    ensures Remaining(nodes, left, done + {x})
    ensures Distinct(ready)
    ensures forall s :: s in ready <==> s in queued || (s in nodes && x in nodes[s].needs && left[s] == 0)
  {
    forall s | s in dependents[x] ensures s in nodes {
      assert MirrorsAt(dependents, nodes, nodes.Keys, x, s);
      CountMember(dependents[x], s);
    }
    forall s | s in nodes
      ensures indegree[s] == Pending(nodes[s].needs, done + {x}) + Count(dependents[x], s)
      ensures s in dependents[x] <==> x in nodes[s].needs
    {
      ReleaseIsPending(nodes, dependents, done, x, s);
    }
    left, ready := Release(dependents[x], indegree, queued);
  }

  /** Processes one whole level, producing the unsorted next one. */
  method ReleaseLevel(nodes: map<Id, DagNode>, dependents: map<Id, seq<Id>>, indegree: map<Id, int>,
                      level: seq<Id>, ghost done: set<Id>)
    returns (left: map<Id, int>, ready: seq<Id>)
    requires Mirrors(dependents, nodes) && Remaining(nodes, indegree, done)
    requires Distinct(level) && forall x | x in level :: x in nodes && x !in done
    requires forall x, s | x in level && s in nodes && x in nodes[s].needs :: indegree[s] > 0
    ensures Remaining(nodes, left, done + Elements(level))
    ensures Distinct(ready)
    ensures forall s :: s in ready <==> s in nodes && indegree[s] > 0 && left[s] == 0
  {
    left, ready := indegree, [];
    ghost var finished := done;
    assert Elements(level[..0]) == {};
    for i := 0 to |level|
      invariant finished == done + Elements(level[..i])
      invariant Remaining(nodes, left, finished)
      invariant Distinct(ready)
      invariant forall s :: s in ready <==> s in nodes && indegree[s] > 0 && left[s] == 0
    {
      var x := level[i];
      PrefixStep(level, i);
      assert x in level;
      assert x !in finished;
      ghost var before := left;
      left, ready := ReleaseStep(nodes, dependents, left, ready, x, finished);
      ZeroStaysZero(nodes, before, left, finished, x);
      finished := finished + {x};
    }
    assert level[..|level|] == level;
  }

  /** Only a step that needs `x` can drop to zero when `x` completes. */
  lemma ZeroStaysZero(nodes: map<Id, DagNode>, before: map<Id, int>, after: map<Id, int>, done: set<Id>, x: Id)
    requires Remaining(nodes, before, done) && Remaining(nodes, after, done + {x}) && x !in done
    ensures forall s | s in nodes :: 0 <= after[s] <= before[s]
    ensures forall s | s in nodes && x !in nodes[s].needs :: after[s] == before[s]
  {
    forall s | s in nodes
      ensures 0 <= after[s] <= before[s]
      ensures x !in nodes[s].needs ==> after[s] == before[s]
    {
      PendingStep(nodes[s].needs, done, x);
      CountMember(nodes[s].needs, x);
    }
  }

  /**
   Level-by-level scheduling. It succeeds exactly on acyclic graphs; a failure
   names exactly the steps whose `needs` chains run into a cycle.
   */
  method ComputeLevels(order: seq<Id>, nodes: map<Id, DagNode>) returns (r: Result<seq<seq<Id>>, GraphError>)
    requires Indexed(order, nodes) && GoodReferences(nodes)
    ensures r.Ok? <==> Acyclic(NeedsGraph(nodes))
    ensures r.Ok? ==> IsLayering(NeedsGraph(nodes), r.value)
    ensures r.Err? ==>
      r.error == CycleInvolving(Sorted(set s | s in nodes && LeadsToCycle(NeedsGraph(nodes), s)))
  {
    var dependents := CollectDependents(order, nodes);
    var levels, indegree, resolved := DrainLevels(nodes, dependents);
    WhenDone(nodes, levels, indegree, resolved);
    if resolved != |nodes| {
      var unresolved := set s | s in nodes && indegree[s] > 0;
      r := Err(CycleInvolving(Sorted(unresolved)));
    } else {
      r := Ok(levels);
    }
  }

  /** The scheduling loop: takes off one level after another until no step is ready. */
  method DrainLevels(nodes: map<Id, DagNode>, dependents: map<Id, seq<Id>>)
    returns (levels: seq<seq<Id>>, indegree: map<Id, int>, resolved: int)
    requires Mirrors(dependents, nodes)
    ensures Levelling(nodes, levels, [], indegree, resolved)
  {
    levels, resolved := [], 0;
    var ready;
    indegree, ready := FirstReady(nodes);
    while ready != []
      invariant Levelling(nodes, levels, ready, indegree, resolved)
      decreases |nodes| - resolved
    {
      ghost var done := Settled(NeedsGraph(nodes), |levels|);
      LevelFits(nodes, levels, ready, indegree, resolved);
      LayerIsReleasable(nodes, indegree, |levels|);
      var left, released := ReleaseLevel(nodes, dependents, indegree, ready, done);
      LevellingStep(nodes, levels, ready, indegree, left, resolved, released);
      levels, ready, indegree, resolved := levels + [ready], Sort(released), left, resolved + |ready|;
    }
  }

  /** The loop state of `ComputeLevels` after `|levels|` levels. */
  ghost predicate Levelling(nodes: map<Id, DagNode>, levels: seq<seq<Id>>, ready: seq<Id>,
                            indegree: map<Id, int>, resolved: int) {
    var g := NeedsGraph(nodes);
    && ready == Layer(g, |levels|)
    && AreLayers(g, levels)
    && Remaining(nodes, indegree, Settled(g, |levels|))
    && resolved == |Settled(g, |levels|)|
  }

  /** The in-degree table counts `needs` entries; the steps without any come first. */
  method FirstReady(nodes: map<Id, DagNode>) returns (indegree: map<Id, int>, ready: seq<Id>)
    ensures Levelling(nodes, [], ready, indegree, 0)
  {
    indegree := map id | id in nodes :: |nodes[id].needs|;
    assert Remaining(nodes, indegree, {}) by {
      forall s | s in nodes ensures indegree[s] == Pending(nodes[s].needs, {}) { PendingZero(nodes[s].needs, {}); }
    }
    ready := Sorted(set id | id in nodes && indegree[id] == 0);
    FirstLayer(nodes, indegree);
  }

  lemma LevellingStep(nodes: map<Id, DagNode>, levels: seq<seq<Id>>, level: seq<Id>,
                      before: map<Id, int>, after: map<Id, int>, resolved: int, released: seq<Id>)
    requires Levelling(nodes, levels, level, before, resolved) && level != []
    requires Remaining(nodes, after, Settled(NeedsGraph(nodes), |levels|) + Elements(level))
    requires Distinct(released) && forall s :: s in released <==> s in nodes && before[s] > 0 && after[s] == 0
    ensures Levelling(nodes, levels + [level], Sort(released), after, resolved + |level|)
  {
    var g := NeedsGraph(nodes);
    var k := |levels|;
    LayerAddsUp(g, k);
    assert Remaining(nodes, after, Settled(g, k + 1));
    assert Sort(released) == Layer(g, k + 1) by { NextLayer(nodes, before, after, released, k); }
    assert AreLayers(g, levels + [level]) by { AddLayer(g, levels); }
    assert |levels + [level]| == k + 1;
  }

  /** What the tables say once a level comes out empty. */
  lemma LevelFits(nodes: map<Id, DagNode>, levels: seq<seq<Id>>, level: seq<Id>, indegree: map<Id, int>, resolved: int)
    requires Levelling(nodes, levels, level, indegree, resolved)
    ensures resolved + |level| <= |nodes|
  {
    var g := NeedsGraph(nodes);
    LayerAddsUp(g, |levels|);
    assert g.Keys == nodes.Keys;
    SubsetSize(Settled(g, |levels| + 1), g.Keys);
  }

  lemma WhenDone(nodes: map<Id, DagNode>, levels: seq<seq<Id>>, indegree: map<Id, int>, resolved: int)
    requires GoodReferences(nodes)
    requires Levelling(nodes, levels, [], indegree, resolved)
    ensures resolved == |nodes| <==> Acyclic(NeedsGraph(nodes))
    ensures IsLayering(NeedsGraph(nodes), levels)
    ensures (set s | s in nodes && indegree[s] > 0) == (set s | s in nodes && LeadsToCycle(NeedsGraph(nodes), s))
  {
    var g, k := NeedsGraph(nodes), |levels|;
    LayerAddsUp(g, k);
    NeedsGraphIsClosed(nodes);
    AllSettledIffAcyclic(g, k);
    assert g.Keys == nodes.Keys;
    if |Settled(g, k)| == |nodes.Keys| { FullSubset(Settled(g, k), g.Keys); }
    LeftoverLeadsToCycle(nodes, indegree, k);
  }

  lemma FirstLayer(nodes: map<Id, DagNode>, indegree: map<Id, int>)
    requires Remaining(nodes, indegree, {})
    ensures Sorted(set id | id in nodes && indegree[id] == 0) == Layer(NeedsGraph(nodes), 0)
  {
    var g := NeedsGraph(nodes);
    forall s | s in nodes ensures s in Settled(g, 1) <==> indegree[s] == 0 { ZeroIsSettled(nodes, 0, s); }
    assert (set id | id in nodes && indegree[id] == 0) == Settled(g, 1) - Settled(g, 0);
  }

  lemma LayerIsReleasable(nodes: map<Id, DagNode>, indegree: map<Id, int>, k: nat)
    requires Remaining(nodes, indegree, Settled(NeedsGraph(nodes), k))
    ensures Distinct(Layer(NeedsGraph(nodes), k))
    ensures forall x | x in Layer(NeedsGraph(nodes), k) :: x in nodes && x !in Settled(NeedsGraph(nodes), k)
    ensures forall x, s | x in Layer(NeedsGraph(nodes), k) && s in nodes && x in nodes[s].needs :: indegree[s] > 0
  {
    var g := NeedsGraph(nodes);
    var added := Settled(g, k + 1) - Settled(g, k);
    SettledGrows(g, k + 1, k + 1);
    SortedIsSorted(added);
    forall x | x in Layer(g, k) ensures x in nodes && x !in Settled(g, k) { SortedContains(added, x); }
    forall x, s | x in Layer(g, k) && s in nodes && x in nodes[s].needs ensures indegree[s] > 0 {
      PendingZero(nodes[s].needs, Settled(g, k));
    }
  }

  lemma NextLayer(nodes: map<Id, DagNode>, before: map<Id, int>, after: map<Id, int>, ready: seq<Id>, k: nat)
    requires Remaining(nodes, before, Settled(NeedsGraph(nodes), k))
    requires Remaining(nodes, after, Settled(NeedsGraph(nodes), k + 1))
    requires Distinct(ready) && forall s :: s in ready <==> s in nodes && before[s] > 0 && after[s] == 0
    ensures Sort(ready) == Layer(NeedsGraph(nodes), k + 1)
  {
    var g := NeedsGraph(nodes);
    var layer := Settled(g, k + 2) - Settled(g, k + 1);
    forall s ensures s in ready <==> s in layer { InNextLayer(nodes, before, after, k, s); }
    assert Elements(ready) == layer;
    SortOfDistinct(ready);
  }

  lemma InNextLayer(nodes: map<Id, DagNode>, before: map<Id, int>, after: map<Id, int>, k: nat, s: Id)
    requires Remaining(nodes, before, Settled(NeedsGraph(nodes), k))
    requires Remaining(nodes, after, Settled(NeedsGraph(nodes), k + 1))
    ensures s in nodes && before[s] > 0 && after[s] == 0 <==>
      s in Settled(NeedsGraph(nodes), k + 2) && s !in Settled(NeedsGraph(nodes), k + 1)
  {
    if s in nodes {
      ZeroIsSettled(nodes, k, s);
      ZeroIsSettled(nodes, k + 1, s);
    }
    SettledGrows(NeedsGraph(nodes), k + 2, k + 2);
  }

  lemma LeftoverLeadsToCycle(nodes: map<Id, DagNode>, indegree: map<Id, int>, k: nat)
    requires GoodReferences(nodes)
    requires Settled(NeedsGraph(nodes), k) == Settled(NeedsGraph(nodes), k + 1)
    requires Remaining(nodes, indegree, Settled(NeedsGraph(nodes), k))
    ensures (set s | s in nodes && indegree[s] > 0) == (set s | s in nodes && LeadsToCycle(NeedsGraph(nodes), s))
  {
    NeedsGraphIsClosed(nodes);
    forall s | s in nodes ensures indegree[s] > 0 <==> LeadsToCycle(NeedsGraph(nodes), s) {
      UnsettledLeadsToCycle(NeedsGraph(nodes), k, s);
      ZeroIsSettled(nodes, k, s);
    }
  }

  lemma FullSubset(s: set<Id>, t: set<Id>)
    requires s <= t && |s| == |t|
    ensures s == t
  {
    assert t == s + (t - s);
  }

  lemma AddLayer(g: Graph, levels: seq<seq<Id>>)
    requires AreLayers(g, levels) && Layer(g, |levels|) != []
    ensures AreLayers(g, levels + [Layer(g, |levels|)])
  {
    var longer := levels + [Layer(g, |levels|)];
    forall k | 0 <= k < |longer| ensures IsLayer(g, longer, k) {
      assert k < |levels| ==> IsLayer(g, levels, k);
    }
  }

  lemma LayerAddsUp(g: Graph, k: nat)
    ensures Settled(g, k) <= Settled(g, k + 1) <= g.Keys
    ensures Settled(g, k + 1) == Settled(g, k) + Elements(Layer(g, k))
    ensures |Settled(g, k + 1)| == |Settled(g, k)| + |Layer(g, k)|
    ensures Layer(g, k) != [] ==> Settled(g, k) < Settled(g, k + 1)
    ensures Layer(g, k) == [] ==> Settled(g, k) == Settled(g, k + 1)
  {
    SortedIsSorted(Settled(g, k + 1) - Settled(g, k));
    SettledGrows(g, k, k + 1);
    SettledGrows(g, k + 1, k + 1);
    assert Settled(g, k + 1) == Settled(g, k) + (Settled(g, k + 1) - Settled(g, k));
  }

  /** The dict keyed by id; with distinct ids nothing is overwritten. */
  function NodeMap(nodes: seq<DagNode>): map<Id, DagNode> {
    if nodes == [] then map[]
    else NodeMap(nodes[..|nodes| - 1])[nodes[|nodes| - 1].stepId := nodes[|nodes| - 1]]
  }

  lemma {:induction false} NodeMapIsIndexed(nodes: seq<DagNode>)
    requires Distinct(Ids(nodes))
    ensures Indexed(Ids(nodes), NodeMap(nodes))
    ensures forall i | 0 <= i < |nodes| :: NodeMap(nodes)[nodes[i].stepId] == nodes[i]
  {
    if nodes != [] {
      var front, last := nodes[..|nodes| - 1], nodes[|nodes| - 1];
      assert Ids(nodes) == Ids(front) + [last.stepId];
      forall i, j | 0 <= i < j < |front| ensures Ids(front)[i] != Ids(front)[j] {
        assert Ids(nodes)[i] != Ids(nodes)[j];
      }
      NodeMapIsIndexed(front);
      forall i | 0 <= i < |front| ensures front[i].stepId != last.stepId {
        assert Ids(nodes)[i] != Ids(nodes)[|nodes| - 1];
      }
    }
  }

  /** The error is that of the first check that these nodes fail, and names what the check found. */
  ghost predicate IsGraphError(nodes: seq<DagNode>, error: GraphError) {
    match error
    case DuplicateStepIds(ids) => !Distinct(Ids(nodes)) && ids == Sorted(Repeated(Ids(nodes)))
    case CycleInvolving(ids) =>
      && Distinct(Ids(nodes)) && GoodReferences(NodeMap(nodes)) && !Acyclic(NeedsGraph(NodeMap(nodes)))
      && ids == Sorted(set s | s in NodeMap(nodes) && LeadsToCycle(NeedsGraph(NodeMap(nodes)), s))
    case _ => Indexed(Ids(nodes), NodeMap(nodes)) && IsFirstBadReference(Ids(nodes), NodeMap(nodes), error)
  }

  /**
   Construction runs its checks in order: repeated ids, then bad references,
   then cycles. It succeeds exactly when all three find nothing.
   */
  method Build(nodes: seq<DagNode>) returns (r: Result<Dag, GraphError>)
    ensures r.Ok? <==>
      Distinct(Ids(nodes)) && GoodReferences(NodeMap(nodes)) && Acyclic(NeedsGraph(NodeMap(nodes)))
    ensures r.Ok? ==> ValidDag(r.value) && r.value.order == Ids(nodes) && r.value.nodes == NodeMap(nodes)
    ensures r.Err? ==> IsGraphError(nodes, r.error)
  {
    var duplicate := ValidateUnique(nodes);
    if duplicate.Some? { return Err(duplicate.value); }
    var order, byId := Ids(nodes), NodeMap(nodes);
    NodeMapIsIndexed(nodes);
    var dangling := ValidateReferences(order, byId);
    if dangling.Some? { return Err(dangling.value); }
    var levels := ComputeLevels(order, byId);
    match levels
    case Ok(value) => r := Ok(Dag(order, byId, value));
    case Err(error) => r := Err(error);
  }

  // ---------------------------------------------------------------- what levels mean

  /** A step's level is the length of its longest dependency chain. */
  lemma LevelIsLongestChain(d: Dag, k: nat, s: Id)
    requires ValidDag(d)
    ensures k < |d.levels| && s in d.levels[k] <==> s in d.nodes && LongestWalk(NeedsGraph(d.nodes), s, k)
  {
    var g := NeedsGraph(d.nodes);
    NeedsGraphIsClosed(d.nodes);
    LayerIsLongestWalk(g, k, s);
    if k < |d.levels| {
      assert IsLayer(NeedsGraph(d.nodes), d.levels, k);
      SortedContains(Settled(g, k + 1) - Settled(g, k), s);
    } else {
      SettledIsStable(g, |d.levels|, k);
      SettledIsStable(g, |d.levels|, k + 1);
    }
  }

  /** Position of a step in the schedule. */
  ghost predicate AtLevel(d: Dag, s: Id, k: nat) {
    k < |d.levels| && s in d.levels[k]
  }

  /** Every step is scheduled, in one level only, and every level is sorted. */
  lemma LevelsPartitionSteps(d: Dag, s: Id)
    requires ValidDag(d)
    ensures s in d.nodes <==> exists k :: AtLevel(d, s, k)
    ensures forall j, k | AtLevel(d, s, j) && AtLevel(d, s, k) :: j == k
    ensures forall k | 0 <= k < |d.levels| :: StrictlySorted(d.levels[k])
  {
    if s in d.nodes {
      var k := ScheduledSomewhere(d, s);
    }
    forall j, k | AtLevel(d, s, j) && AtLevel(d, s, k) ensures j == k && s in d.nodes {
      LevelIsLongestChain(d, j, s);
      LevelIsLongestChain(d, k, s);
      assert LongestWalk(NeedsGraph(d.nodes), s, j) && LongestWalk(NeedsGraph(d.nodes), s, k);
    }
    forall k | 0 <= k < |d.levels| ensures StrictlySorted(d.levels[k]) {
      assert IsLayer(NeedsGraph(d.nodes), d.levels, k);
      SortedIsSorted(Settled(NeedsGraph(d.nodes), k + 1) - Settled(NeedsGraph(d.nodes), k));
    }
  }

  lemma ScheduledSomewhere(d: Dag, s: Id) returns (k: nat)
    requires ValidDag(d) && s in d.nodes
    ensures AtLevel(d, s, k)
  {
    var g := NeedsGraph(d.nodes);
    NeedsGraphIsClosed(d.nodes);
    AllSettledIffAcyclic(g, |d.levels|);
    k := LeastRound(g, |d.levels|, s);
    LayerIsLongestWalk(g, k, s);
    LevelIsLongestChain(d, k, s);
  }

  /** Dependencies lie in strictly earlier levels. */
  lemma NeedsComeEarlier(d: Dag, s: Id, k: nat, n: Id) returns (j: nat)
    requires ValidDag(d) && s in d.nodes && AtLevel(d, s, k) && n in d.nodes[s].needs
    ensures j < k && AtLevel(d, n, j)
  {
    var g := NeedsGraph(d.nodes);
    assert GoodReference(d.nodes, s, n);
    j := ScheduledSomewhere(d, n);
    LevelIsLongestChain(d, k, s);
    LevelIsLongestChain(d, j, n);
    ChainExtends(g, s, n, j);
  }

  lemma ChainExtends(g: Graph, a: Id, b: Id, k: nat)
    requires Edge(g, a, b) && LongestWalk(g, b, k)
    ensures forall j | LongestWalk(g, a, j) :: k < j
  {
    var p :| IsWalk(g, p) && p[0] == b && |p| == k + 1;
    var q := [a] + p;
    forall i | 0 <= i < |q| - 1 ensures Edge(g, q[i], q[i + 1]) {
      if i > 0 { assert Edge(g, p[i - 1], p[i]); }
    }
    assert IsWalk(g, q) && q[0] == a;
  }

  /** The round in which an id settles. */
  lemma {:induction false} LeastRound(g: Graph, k: nat, a: Id) returns (j: nat)
    requires a in Settled(g, k)
    ensures j < k && a in Settled(g, j + 1) - Settled(g, j)
  {
    if a in Settled(g, k - 1) {
      j := LeastRound(g, k - 1, a);
    } else {
      j := k - 1;
    }
  }

  /** A schedule of the steps into numbered slots that runs dependencies strictly earlier. */
  ghost predicate IsSchedule(nodes: map<Id, DagNode>, slot: map<Id, nat>) {
    && slot.Keys == nodes.Keys
    && forall s, n | Edge(NeedsGraph(nodes), s, n) && s in slot && n in slot :: slot[n] < slot[s]
  }

  /** No schedule runs a step earlier than its level, so none uses fewer slots than there are levels. */
  lemma NoScheduleHasFewerLevels(d: Dag, slot: map<Id, nat>, s: Id, k: nat)
    requires ValidDag(d) && IsSchedule(d.nodes, slot) && AtLevel(d, s, k)
    ensures s in slot && k <= slot[s]
    ensures exists t :: t in slot && slot[t] >= |d.levels| - 1
  {
    var g := NeedsGraph(d.nodes);
    LevelIsEarliest(d, slot, s, k);
    var last := |d.levels| - 1;
    assert IsLayer(NeedsGraph(d.nodes), d.levels, last);
    var t := d.levels[last][0];
    LevelIsEarliest(d, slot, t, last);
  }

  lemma LevelIsEarliest(d: Dag, slot: map<Id, nat>, s: Id, k: nat)
    requires ValidDag(d) && IsSchedule(d.nodes, slot) && AtLevel(d, s, k)
    ensures s in slot && k <= slot[s]
  {
    var g := NeedsGraph(d.nodes);
    NeedsGraphIsClosed(d.nodes);
    LevelIsLongestChain(d, k, s);
    LayerIsLongestWalk(g, k, s);
    NoScheduleIsShorter(g, k, s, slot);
  }

  // ---------------------------------------------------------------- dependents

  /** The steps that need `s`, directly or through others. */
  ghost function Dependents(nodes: map<Id, DagNode>, s: Id): set<Id> {
    set t | t in nodes && Reaches(NeedsGraph(nodes), t, s)
  }

  /** One pass over all steps: blocks and queues those that need `current`. */
  method BlockNeeders(d: Dag, current: Id, blocked: set<Id>, queue: seq<Id>)
    returns (blocked': set<Id>, queue': seq<Id>)
    requires Indexed(d.order, d.nodes)
    ensures blocked' == blocked + Needers(d.nodes, current)
    ensures forall c :: c in queue' <==> c in queue || (c in blocked' && c !in blocked)
    ensures blocked' == blocked ==> queue' == queue
  {
    blocked', queue' := blocked, queue;
    for i := 0 to |d.order|
      invariant blocked' == blocked + (Needers(d.nodes, current) * Elements(d.order[..i]))
      invariant forall c :: c in queue' <==> c in queue || (c in blocked' && c !in blocked)
      invariant blocked' == blocked ==> queue' == queue
    {
      var candidate := d.order[i];
      NeedersStep(d, current, i);
      if current in d.nodes[candidate].needs && candidate !in blocked' {
        blocked' := blocked' + {candidate};
        queue' := queue' + [candidate];
      }
    }
    assert d.order[..|d.order|] == d.order;
    assert Needers(d.nodes, current) * Elements(d.order) == Needers(d.nodes, current);
  }

  lemma NeedersStep(d: Dag, current: Id, i: nat)
    requires Indexed(d.order, d.nodes) && i < |d.order|
    ensures d.order[i] in d.nodes
    ensures Needers(d.nodes, current) * Elements(d.order[..i + 1]) ==
      Needers(d.nodes, current) * Elements(d.order[..i]) +
      if current in d.nodes[d.order[i]].needs then {d.order[i]} else {}
  {
    PrefixStep(d.order, i);
    assert d.order[i] in Elements(d.order);
  }

  /** The steps that list `s` among their needs. */
  ghost function Needers(nodes: map<Id, DagNode>, s: Id): set<Id> {
    set t | t in nodes && s in nodes[t].needs
  }

  /** `blocked` is closed under needing a member or the origin, apart from ids still queued. */
  ghost predicate ClosedUpTo(g: Graph, origin: Id, blocked: set<Id>, queue: seq<Id>) {
    forall t, c | (c == origin || c in blocked) && c !in queue && Edge(g, t, c) :: t in blocked
  }

  /** Breadth-first search for everything downstream of `stepId`. */
  method TransitiveDependents(d: Dag, stepId: Id) returns (r: Option<seq<Id>>)
    requires Indexed(d.order, d.nodes)
    ensures r.None? <==> stepId !in d.nodes
    ensures r.Some? ==> r.value == Sorted(Dependents(d.nodes, stepId))
  {
    if stepId !in d.nodes { return None; }
    ghost var g := NeedsGraph(d.nodes);
    var blocked: set<Id> := {};
    var queue := [stepId];
    while queue != []
      invariant blocked <= Dependents(d.nodes, stepId)
      invariant forall c | c in queue :: c == stepId || c in blocked
      invariant ClosedUpTo(g, stepId, blocked, queue)
      decreases d.nodes.Keys - blocked, |queue|
    {
      var current := queue[0];
      ghost var before, waiting := blocked, queue;
      assert queue == [current] + queue[1..];
      blocked, queue := BlockNeeders(d, current, blocked, queue[1..]);
      DependentsGrow(d.nodes, stepId, current);
      assert forall c | c in waiting :: c == current || c in queue;
      assert blocked != before ==> d.nodes.Keys - blocked < d.nodes.Keys - before;
    }
    DependentsAreBlocked(d.nodes, stepId, blocked);
    r := Some(Sorted(blocked));
  }

  lemma DependentsGrow(nodes: map<Id, DagNode>, s: Id, current: Id)
    requires current == s || current in Dependents(nodes, s)
    ensures Needers(nodes, current) <= Dependents(nodes, s)
  {
    forall t | t in nodes && current in nodes[t].needs ensures t in Dependents(nodes, s) {
      ExtendDependents(NeedsGraph(nodes), t, current, s);
    }
  }

  lemma DependentsAreBlocked(nodes: map<Id, DagNode>, s: Id, blocked: set<Id>)
    requires blocked <= Dependents(nodes, s) && ClosedUpTo(NeedsGraph(nodes), s, blocked, [])
    ensures blocked == Dependents(nodes, s)
  {
    var g := NeedsGraph(nodes);
    forall t | t in Dependents(nodes, s) ensures t in blocked {
      var p :| WalkBetween(g, p, t, s) && |p| >= 2;
      ClosedUnderEdges(g, blocked, p);
    }
  }

  lemma ExtendDependents(g: Graph, a: Id, b: Id, c: Id)
    requires Edge(g, a, b) && (b == c || Reaches(g, b, c))
    ensures Reaches(g, a, c)
  {
    EdgeReaches(g, a, b);
    if b != c { ReachesIsTransitive(g, a, b, c); }
  }

  /** A set that contains every source of an edge into itself or the target contains every walk to the target. */
  lemma {:induction false} ClosedUnderEdges(g: Graph, s: set<Id>, p: seq<Id>)
    requires IsWalk(g, p) && |p| >= 2
    requires forall t, c | (c == p[|p| - 1] || c in s) && Edge(g, t, c) :: t in s
    ensures p[0] in s
  {
    assert Edge(g, p[0], p[1]);
    if |p| > 2 {
      TailIsWalk(g, p);
      ClosedUnderEdges(g, s, p[1..]);
    }
  }
}
