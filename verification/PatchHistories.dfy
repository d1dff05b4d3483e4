/**
 What a patched workflow consists of, told by the operations of the patch: each
 node, parameter and edge is there because of the last operation that concerns it.
 */
module PatchHistories {
  import opened Wrappers
  import opened WorkflowPatch

  // ---------------------------------------------------------------- which operations concern what

  /** The operation adds or removes the node. */
  function NodeWrite(registry: Registry, op: Operation, id: NodeId): Option<Operation> {
    match op
    case AddNode(nodeId, serviceRef, _) => if nodeId == id && serviceRef in registry then Some(op) else None
    case RemoveNode(nodeId) => if nodeId == id then Some(op) else None
    case _ => None
  }

  /** The operation sets the node's parameters. */
  function ParameterWrite(op: Operation, id: NodeId): Option<nat> {
    match op
    case AddNode(nodeId, _, parameters) => if nodeId == id then Some(Or(parameters, NO_PARAMETERS)) else None
    case UpdateParams(nodeId, parameters) => if nodeId == id then Some(parameters) else None
    case _ => None
  }

  /** The operation adds the edge, or removes it, itself or with one of its ends. */
  function EdgeWrite(op: Operation, e: Edge): Option<bool> {
    match op
    case AddEdge(from, to) => if Edge(from, to) == e then Some(true) else None
    case RemoveEdge(from, to) => if Edge(from, to) == e then Some(false) else None
    case RemoveNode(id) => if id == e.from || id == e.to then Some(false) else None
    case _ => None
  }

  function NodeWrites(registry: Registry, patch: seq<Operation>, n: nat, id: NodeId): (writes: seq<Option<Operation>>)
    requires n <= |patch|
    ensures |writes| == n && forall i | 0 <= i < n :: writes[i] == NodeWrite(registry, patch[i], id)
  {
    seq(n, i requires 0 <= i < n => NodeWrite(registry, patch[i], id))
  }

  function ParameterWrites(patch: seq<Operation>, n: nat, id: NodeId): (writes: seq<Option<nat>>)
    requires n <= |patch|
    ensures |writes| == n && forall i | 0 <= i < n :: writes[i] == ParameterWrite(patch[i], id)
  {
    seq(n, i requires 0 <= i < n => ParameterWrite(patch[i], id))
  }

  function EdgeWrites(patch: seq<Operation>, n: nat, e: Edge): (writes: seq<Option<bool>>)
    requires n <= |patch|
    ensures |writes| == n && forall i | 0 <= i < n :: writes[i] == EdgeWrite(patch[i], e)
  {
    seq(n, i requires 0 <= i < n => EdgeWrite(patch[i], e))
  }

  // ---------------------------------------------------------------- accepted patches

  /** The node is what the operation that added it last asked for, or what it was before the patch. */
  ghost predicate NodeTells(registry: Registry, before: map<NodeId, Node>, after: map<NodeId, Node>, id: NodeId,
                            made: Option<Operation>, parameters: Option<nat>) {
    match made
    case None =>
      && (id in after <==> id in before)
      && (id in after ==> after[id] == before[id].(parameters := Or(parameters, before[id].parameters)))
    case Some(op) =>
      && (id in after <==> op.AddNode?)
      && (op.AddNode? ==>
          && op.serviceRef in registry && parameters.Some?
          && after[id].id == id
          && after[id].serviceRef == op.serviceRef
          && after[id].kind == registry[op.serviceRef]
          && after[id].parameters == parameters.value)
  }

  /**
   After a valid patch a node is there exactly if it was added last and not removed
   since. It then has the service it was added with, the type the registry gives
   that service, and the parameters set last: by an update, or when it was added.
   */
  lemma {:induction false} NodeTellsLastOperation(registry: Registry, g: Graph, patch: seq<Operation>, n: nat, id: NodeId)
    requires n <= |patch| && ValidPatch(registry, g, patch, n)
    ensures NodeTells(registry, g.nodes, GraphAfter(registry, g, patch, n).nodes, id,
                      Last(NodeWrites(registry, patch, n, id)), Last(ParameterWrites(patch, n, id)))
  {
    if n > 0 {
      NodeTellsLastOperation(registry, g, patch, n - 1, id);
      OneMoreNodeWrite(registry, patch, n, id);
      NodeStep(registry, g.nodes, GraphAfter(registry, g, patch, n - 1), patch[n - 1], id,
               Last(NodeWrites(registry, patch, n - 1, id)), Last(ParameterWrites(patch, n - 1, id)));
    }
  }

  lemma OneMoreNodeWrite(registry: Registry, patch: seq<Operation>, n: nat, id: NodeId)
    requires 0 < n <= |patch|
    ensures var write := NodeWrite(registry, patch[n - 1], id);
      Last(NodeWrites(registry, patch, n, id)) == if write.Some? then write else Last(NodeWrites(registry, patch, n - 1, id))
    ensures var write := ParameterWrite(patch[n - 1], id);
      Last(ParameterWrites(patch, n, id)) == if write.Some? then write else Last(ParameterWrites(patch, n - 1, id))
  {
    LastStep(NodeWrites(registry, patch, n - 1, id), NodeWrites(registry, patch, n, id));
    LastStep(ParameterWrites(patch, n - 1, id), ParameterWrites(patch, n, id));
  }

  lemma NodeStep(registry: Registry, before: map<NodeId, Node>, h: Graph, op: Operation, id: NodeId,
                 made: Option<Operation>, parameters: Option<nat>)
    requires ValidOn(registry, h, op) && NodeTells(registry, before, h.nodes, id, made, parameters)
    ensures NodeTells(registry, before, Effect(registry, h, op).nodes, id,
                      if NodeWrite(registry, op, id).Some? then NodeWrite(registry, op, id) else made,
                      if ParameterWrite(op, id).Some? then ParameterWrite(op, id) else parameters)
  {
  }

  /** After a valid patch an edge is there exactly if the last operation that concerns it added it. */
  lemma {:induction false} EdgeTellsLastOperation(registry: Registry, g: Graph, patch: seq<Operation>, n: nat, e: Edge)
    requires n <= |patch| && ValidPatch(registry, g, patch, n)
    ensures e in GraphAfter(registry, g, patch, n).edges <==> Or(Last(EdgeWrites(patch, n, e)), e in g.edges)
  {
    if n > 0 {
      EdgeTellsLastOperation(registry, g, patch, n - 1, e);
      LastStep(EdgeWrites(patch, n - 1, e), EdgeWrites(patch, n, e));
    }
  }

  /** Every node has the type that the registry gives its service. */
  ghost predicate IsTyped(registry: Registry, nodes: seq<Node>) {
    forall node | node in nodes :: node.serviceRef in registry && node.kind == registry[node.serviceRef]
  }

  /** A patch keeps a definition typed: no operation can give a node a type other than its service's. */
  lemma PatchKeepsTypes(registry: Registry, d: Definition, patch: seq<Operation>, candidate: Definition)
    requires WellFormed(d) && IsTyped(registry, d.nodes) && ValidPatch(registry, GraphOf(d), patch, |patch|)
    requires Represents(candidate, GraphAfter(registry, GraphOf(d), patch, |patch|))
    ensures IsTyped(registry, candidate.nodes)
  {
    BaseIsRepresented(d);
    forall node | node in candidate.nodes ensures node.serviceRef in registry && node.kind == registry[node.serviceRef] {
      NodeTellsLastOperation(registry, GraphOf(d), patch, |patch|, node.id);
    }
  }

  // ---------------------------------------------------------------- any patch, valid or not

  /** What is wrong with an operation in a simulated state, as the issue's code says it. */
  predicate IsWrong(registry: Registry, s: Sim, op: Operation, code: Code) {
    match code
    case UnknownServiceRef => op.AddNode? && op.serviceRef !in registry
    case DuplicateNodeId => op.AddNode? && op.serviceRef in registry && op.nodeId in s.services
    case UnknownNodeId => (op.RemoveNode? || op.UpdateParams?) && op.nodeId !in s.services
    case UnknownEdge => op.RemoveEdge? && EdgeKey(op.from, op.to) !in s.edges
    case DuplicateEdge => op.AddEdge? && EdgeKey(op.from, op.to) in s.edges
    case UnknownNodeReference =>
      op.AddEdge? && EdgeKey(op.from, op.to) !in s.edges && (op.from !in s.services || op.to !in s.services)
  }

  /** An issue is raised exactly for an operation that is wrong, in that way, in the state simulated so far. */
  lemma {:induction false} IssueTellsWhatIsWrong(registry: Registry, s: Sim, patch: seq<Operation>, n: nat, issue: Issue)
    requires n <= |patch|
    ensures issue in Simulate(registry, s, patch, n).1 <==>
      issue.index < n && IsWrong(registry, Simulate(registry, s, patch, issue.index).0, patch[issue.index], issue.code)
  {
    if n > 0 {
      IssueTellsWhatIsWrong(registry, s, patch, n - 1, issue);
      StepIssues(registry, Simulate(registry, s, patch, n - 1).0, patch[n - 1], n - 1, issue);
    }
  }

  lemma StepIssues(registry: Registry, s: Sim, op: Operation, index: nat, issue: Issue)
    ensures issue in SimStep(registry, s, op, index).1 <==> issue.index == index && IsWrong(registry, s, op, issue.code)
  {
  }

  /** Issues come in the order of the operations. */
  ghost predicate InOrder(issues: seq<Issue>, n: nat) {
    && (forall i, j | 0 <= i < j < |issues| :: issues[i].index <= issues[j].index)
    && (forall i | 0 <= i < |issues| :: issues[i].index < n)
  }

  lemma AppendInOrder(issues: seq<Issue>, more: seq<Issue>, n: nat)
    requires InOrder(issues, n) && forall i | 0 <= i < |more| :: more[i].index == n
    ensures InOrder(issues + more, n + 1)
  {
  }

  lemma {:induction false} IssuesAreInOrder(registry: Registry, s: Sim, patch: seq<Operation>, n: nat)
    requires n <= |patch|
    ensures InOrder(Simulate(registry, s, patch, n).1, n)
  {
    if n > 0 {
      IssuesAreInOrder(registry, s, patch, n - 1);
      var (before, earlier) := Simulate(registry, s, patch, n - 1);
      AppendInOrder(earlier, SimStep(registry, before, patch[n - 1], n - 1).1, n - 1);
    }
  }

  /** Whether the simulation knows a node depends on the last operation to add it, with a registered service, or remove it. */
  lemma {:induction false} KnownNodeTellsLastOperation(registry: Registry, s: Sim, patch: seq<Operation>, n: nat, id: NodeId)
    requires n <= |patch|
    ensures id in Simulate(registry, s, patch, n).0.services <==>
      var made := Last(NodeWrites(registry, patch, n, id));
      if made.Some? then made.value.AddNode? else id in s.services
  {
    if n > 0 {
      KnownNodeTellsLastOperation(registry, s, patch, n - 1, id);
      OneMoreNodeWrite(registry, patch, n, id);
      SimulateStep(registry, s, patch, n);
      KnownNodeStep(registry, Simulate(registry, s, patch, n - 1).0, patch[n - 1], n - 1, id);
    }
  }

  lemma KnownNodeStep(registry: Registry, s: Sim, op: Operation, index: nat, id: NodeId)
    ensures id in SimStep(registry, s, op, index).0.services <==>
      var write := NodeWrite(registry, op, id);
      if write.Some? then write.value.AddNode? else id in s.services
  {
  }

  /** The simulation knows the edge. */
  predicate KnowsEdge(s: Sim, e: Edge) {
    match e
    case Edge(from, to) => EdgeKey(from, to) in s.edges
  }

  /** The same for an edge; an edge is remembered even if its ends are unknown, and goes with the removal of a known end. */
  ghost function KnownEdgeWrites(registry: Registry, s: Sim, patch: seq<Operation>, n: nat, e: Edge): (writes: seq<Option<bool>>)
    requires n <= |patch|
    ensures |writes| == n
    ensures forall i | 0 <= i < n :: writes[i] == KnownEdgeWrite(Simulate(registry, s, patch, i).0, patch[i], e)
  {
    seq(n, i requires 0 <= i < n => KnownEdgeWrite(Simulate(registry, s, patch, i).0, patch[i], e))
  }

  function KnownEdgeWrite(s: Sim, op: Operation, e: Edge): Option<bool> {
    if op.RemoveNode? && op.nodeId !in s.services then None else EdgeWrite(op, e)
  }

  lemma {:induction false} KnownEdgeTellsLastOperation(registry: Registry, s: Sim, patch: seq<Operation>, n: nat, e: Edge)
    requires n <= |patch| && NulFree(e.from) && NulFree(e.to) && forall i | 0 <= i < |patch| :: NulFreeOp(patch[i])
    ensures KnowsEdge(Simulate(registry, s, patch, n).0, e) <==>
      var known := Last(KnownEdgeWrites(registry, s, patch, n, e));
      if known.Some? then known.value else KnowsEdge(s, e)
  {
    if n > 0 {
      KnownEdgeTellsLastOperation(registry, s, patch, n - 1, e);
      OneMoreEdgeWrite(registry, s, patch, n, e);
      SimulateStep(registry, s, patch, n);
      KnownEdgeStep(registry, Simulate(registry, s, patch, n - 1).0, patch[n - 1], n - 1, e);
    }
  }

  lemma SimulateStep(registry: Registry, s: Sim, patch: seq<Operation>, n: nat)
    requires 0 < n <= |patch|
    ensures Simulate(registry, s, patch, n).0 == SimStep(registry, Simulate(registry, s, patch, n - 1).0, patch[n - 1], n - 1).0
  {
  }

  lemma OneMoreEdgeWrite(registry: Registry, s: Sim, patch: seq<Operation>, n: nat, e: Edge)
    requires 0 < n <= |patch|
    ensures var write := KnownEdgeWrite(Simulate(registry, s, patch, n - 1).0, patch[n - 1], e);
      Last(KnownEdgeWrites(registry, s, patch, n, e)) ==
        if write.Some? then write else Last(KnownEdgeWrites(registry, s, patch, n - 1, e))
  {
    LastStep(KnownEdgeWrites(registry, s, patch, n - 1, e), KnownEdgeWrites(registry, s, patch, n, e));
  }

  lemma KnownEdgeStep(registry: Registry, s: Sim, op: Operation, index: nat, e: Edge)
    requires NulFree(e.from) && NulFree(e.to) && NulFreeOp(op)
    ensures KnowsEdge(SimStep(registry, s, op, index).0, e) <==>
      var write := KnownEdgeWrite(s, op, e);
      if write.Some? then write.value else KnowsEdge(s, e)
  {
    SplitOfKey(e.from, e.to);
    if op.AddEdge? || op.RemoveEdge? { SplitOfKey(op.from, op.to); }
  }
}
