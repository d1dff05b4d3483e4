/**
 Validation of a proposed workflow patch: the operations are first simulated on a
 map of nodes and a set of edge keys, and only if that finds no issue applied to
 the node and edge lists.
 */
module WorkflowPatch {
  import opened Wrappers

  datatype NodeId = NodeId(text: string)

  datatype Node = Node(id: NodeId, kind: nat, serviceRef: nat, parameters: nat)

  datatype Edge = Edge(from: NodeId, to: NodeId)

  datatype Definition = Definition(nodes: seq<Node>, edges: seq<Edge>)

  datatype Operation =
    | AddNode(nodeId: NodeId, serviceRef: nat, parameters: Option<nat>)
    | RemoveNode(nodeId: NodeId)
    | UpdateParams(nodeId: NodeId, newParameters: nat)
    | AddEdge(from: NodeId, to: NodeId)
    | RemoveEdge(from: NodeId, to: NodeId)

  datatype Code = UnknownServiceRef | DuplicateNodeId | UnknownNodeId | UnknownEdge | DuplicateEdge | UnknownNodeReference

  datatype Issue = Issue(code: Code, index: nat)

  /** The registered services and the node type each belongs to. */
  type Registry = map<nat, nat>

  const NO_PARAMETERS: nat := 0

  // ---------------------------------------------------------------- edge keys

  const NUL: char := '\0'

  /** The string `from`, a NUL, then `to`. */
  datatype Key = Key(text: string)

  function EdgeKey(from: NodeId, to: NodeId): Key {
    Key(from.text + [NUL] + to.text)
  }

  /** The text before the first NUL, and what follows it. */
  function Cut(text: string): (string, string) {
    if text == "" then ("", "")
    else if text[0] == NUL then ("", text[1..])
    else var (head, tail) := Cut(text[1..]); ([text[0]] + head, tail)
  }

  /** The first two parts of splitting the key at NULs. */
  function Split(key: Key): (NodeId, NodeId) {
    var (from, rest) := Cut(key.text);
    (NodeId(from), NodeId(Cut(rest).0))
  }

  ghost predicate NulFree(id: NodeId) {
    NUL !in id.text
  }

  lemma {:induction false} CutAtNul(head: string, tail: string)
    requires NUL !in head
    ensures Cut(head + [NUL] + tail) == (head, tail)
  {
    if head == "" {
      assert head + [NUL] + tail == [NUL] + tail;
    } else {
      assert (head + [NUL] + tail)[1..] == head[1..] + [NUL] + tail;
      CutAtNul(head[1..], tail);
      assert [head[0]] + head[1..] == head;
    }
  }

  lemma {:induction false} CutWithoutNul(text: string)
    requires NUL !in text
    ensures Cut(text).0 == text
  {
    if text != "" {
      CutWithoutNul(text[1..]);
      assert [text[0]] + text[1..] == text;
    }
  }

  /** Splitting a key gives back its two ends. */
  lemma SplitOfKey(from: NodeId, to: NodeId)
    requires NulFree(from) && NulFree(to)
    ensures Split(EdgeKey(from, to)) == (from, to)
  {
    CutAtNul(from.text, to.text);
    CutWithoutNul(to.text);
  }

  // ---------------------------------------------------------------- the reference semantics

  datatype Graph = Graph(nodes: map<NodeId, Node>, edges: set<Edge>)

  /** The operation makes sense on this graph. */
  predicate ValidOn(registry: Registry, g: Graph, op: Operation) {
    match op
    case AddNode(id, serviceRef, _) => serviceRef in registry && id !in g.nodes
    case RemoveNode(id) => id in g.nodes
    case UpdateParams(id, _) => id in g.nodes
    case AddEdge(from, to) => Edge(from, to) !in g.edges && from in g.nodes && to in g.nodes
    case RemoveEdge(from, to) => Edge(from, to) in g.edges
  }

  function NewNode(registry: Registry, op: Operation): Node
    requires op.AddNode? && op.serviceRef in registry
  {
    Node(op.nodeId, registry[op.serviceRef], op.serviceRef, if op.parameters.Some? then op.parameters.value else NO_PARAMETERS)
  }

  ghost function Effect(registry: Registry, g: Graph, op: Operation): Graph
    requires ValidOn(registry, g, op)
  {
    match op
    case AddNode(id, _, _) => Graph(g.nodes[id := NewNode(registry, op)], g.edges)
    case RemoveNode(id) => Graph(g.nodes - {id}, set e | e in g.edges && e.from != id && e.to != id)
    case UpdateParams(id, parameters) => Graph(g.nodes[id := g.nodes[id].(parameters := parameters)], g.edges)
    case AddEdge(from, to) => Graph(g.nodes, g.edges + {Edge(from, to)})
    case RemoveEdge(from, to) => Graph(g.nodes, g.edges - {Edge(from, to)})
  }

  /** The first `n` operations are each valid on the graph the earlier ones produce. */
  ghost predicate ValidPatch(registry: Registry, g: Graph, patch: seq<Operation>, n: nat)
    requires n <= |patch|
    decreases n, 0
  {
    n == 0 || (ValidPatch(registry, g, patch, n - 1) && ValidOn(registry, GraphAfter(registry, g, patch, n - 1), patch[n - 1]))
  }

  ghost function GraphAfter(registry: Registry, g: Graph, patch: seq<Operation>, n: nat): Graph
    requires n <= |patch| && ValidPatch(registry, g, patch, n)
    decreases n, 1
  {
    if n == 0 then g else Effect(registry, GraphAfter(registry, g, patch, n - 1), patch[n - 1])
  }

  function NodeMap(nodes: seq<Node>): map<NodeId, Node> {
    if nodes == [] then map[] else NodeMap(nodes[..|nodes| - 1])[nodes[|nodes| - 1].id := nodes[|nodes| - 1]]
  }

  ghost function GraphOf(d: Definition): Graph {
    Graph(NodeMap(d.nodes), set e | e in d.edges)
  }

  // ---------------------------------------------------------------- the simulation

  /** Node id to service, and the keys of the known edges. */
  datatype Sim = Sim(services: map<NodeId, nat>, edges: set<Key>)

  /** The simulation stands for the graph. */
  ghost predicate Simulates(s: Sim, g: Graph) {
    && s.services.Keys == g.nodes.Keys
    && (forall e | e in g.edges :: EdgeKey(e.from, e.to) in s.edges)
    && (forall k | k in s.edges :: exists e :: e in g.edges && EdgeKey(e.from, e.to) == k)
  }

  ghost predicate NulFreeGraph(g: Graph) {
    && (forall id | id in g.nodes :: NulFree(id))
    && (forall e | e in g.edges :: NulFree(e.from) && NulFree(e.to))
  }

  ghost predicate NulFreeOp(op: Operation) {
    match op
    case AddNode(id, _, _) => NulFree(id)
    case RemoveNode(id) => NulFree(id)
    case UpdateParams(id, _) => NulFree(id)
    case AddEdge(from, to) => NulFree(from) && NulFree(to)
    case RemoveEdge(from, to) => NulFree(from) && NulFree(to)
  }

  lemma KeyIsKnownIffEdge(s: Sim, g: Graph, from: NodeId, to: NodeId)
    requires Simulates(s, g) && NulFreeGraph(g) && NulFree(from) && NulFree(to)
    ensures EdgeKey(from, to) in s.edges <==> Edge(from, to) in g.edges
  {
    if EdgeKey(from, to) in s.edges {
      var e :| e in g.edges && EdgeKey(e.from, e.to) == EdgeKey(from, to);
      SplitOfKey(from, to);
      SplitOfKey(e.from, e.to);
    }
  }

  /** The keys that survive the removal of a node. */
  function WithoutNode(edges: set<Key>, id: NodeId): set<Key> {
    set k | k in edges && Split(k).0 != id && Split(k).1 != id
  }

  /** One simulated operation: the new state and the issues it raises. */
  function SimStep(registry: Registry, s: Sim, op: Operation, index: nat): (Sim, seq<Issue>) {
    match op
    case AddNode(id, serviceRef, _) =>
      if serviceRef !in registry then (s, [Issue(UnknownServiceRef, index)])
      else if id in s.services then (s, [Issue(DuplicateNodeId, index)])
      else (s.(services := s.services[id := serviceRef]), [])
    case RemoveNode(id) =>
      if id !in s.services then (s, [Issue(UnknownNodeId, index)])
      else (Sim(s.services - {id}, WithoutNode(s.edges, id)), [])
    case UpdateParams(id, _) =>
      (s, if id !in s.services then [Issue(UnknownNodeId, index)] else [])
    case RemoveEdge(from, to) =>
      if EdgeKey(from, to) !in s.edges then (s, [Issue(UnknownEdge, index)])
      else (s.(edges := s.edges - {EdgeKey(from, to)}), [])
    case AddEdge(from, to) =>
      if EdgeKey(from, to) in s.edges then (s, [Issue(DuplicateEdge, index)])
      else
        (s.(edges := s.edges + {EdgeKey(from, to)}),
         (if from !in s.services then [Issue(UnknownNodeReference, index)] else []) +
         (if to !in s.services then [Issue(UnknownNodeReference, index)] else []))
  }

  function Simulate(registry: Registry, s: Sim, patch: seq<Operation>, n: nat): (Sim, seq<Issue>)
    requires n <= |patch|
  {
    if n == 0 then (s, [])
    else
      var (before, issues) := Simulate(registry, s, patch, n - 1);
      var (after, more) := SimStep(registry, before, patch[n - 1], n - 1);
      (after, issues + more)
  }

  /** A step raises no issue exactly if the operation is valid, and then follows its effect. */
  lemma StepAgrees(registry: Registry, s: Sim, g: Graph, op: Operation, index: nat)
    requires Simulates(s, g) && NulFreeGraph(g) && NulFreeOp(op)
    ensures SimStep(registry, s, op, index).1 == [] <==> ValidOn(registry, g, op)
    ensures ValidOn(registry, g, op) ==>
      Simulates(SimStep(registry, s, op, index).0, Effect(registry, g, op)) && NulFreeGraph(Effect(registry, g, op))
  {
    match op
    case AddEdge(from, to) =>
      KeyIsKnownIffEdge(s, g, from, to);
      if ValidOn(registry, g, op) { AddKeepsSimulation(s, g, Edge(from, to)); }
    case RemoveEdge(from, to) =>
      KeyIsKnownIffEdge(s, g, from, to);
      if ValidOn(registry, g, op) { RemoveKeepsSimulation(s, g, Edge(from, to)); }
    case RemoveNode(id) =>
      if ValidOn(registry, g, op) { RemoveNodeKeepsSimulation(s, g, id); }
    case AddNode(id, serviceRef, _) =>
    case UpdateParams(id, parameters) =>
      if ValidOn(registry, g, op) {
        assert g.nodes[id := g.nodes[id].(parameters := parameters)].Keys == g.nodes.Keys;
      }
  }

  lemma AddKeepsSimulation(s: Sim, g: Graph, e: Edge)
    requires Simulates(s, g)
    ensures Simulates(s.(edges := s.edges + {EdgeKey(e.from, e.to)}), Graph(g.nodes, g.edges + {e}))
  {
    forall k | k in s.edges + {EdgeKey(e.from, e.to)}
      ensures exists d :: d in g.edges + {e} && EdgeKey(d.from, d.to) == k
    {
      if k in s.edges {
        var d :| d in g.edges && EdgeKey(d.from, d.to) == k;
        assert d in g.edges + {e};
      } else {
        assert e in g.edges + {e};
      }
    }
  }

  lemma RemoveKeepsSimulation(s: Sim, g: Graph, e: Edge)
    requires Simulates(s, g) && NulFreeGraph(g) && e in g.edges
    ensures Simulates(s.(edges := s.edges - {EdgeKey(e.from, e.to)}), Graph(g.nodes, g.edges - {e}))
  {
    forall k | k in s.edges - {EdgeKey(e.from, e.to)}
      ensures exists d :: d in g.edges - {e} && EdgeKey(d.from, d.to) == k
    {
      var d :| d in g.edges && EdgeKey(d.from, d.to) == k;
      assert d in g.edges - {e};
    }
    forall d | d in g.edges - {e} ensures EdgeKey(d.from, d.to) in s.edges - {EdgeKey(e.from, e.to)} {
      SplitOfKey(d.from, d.to);
      SplitOfKey(e.from, e.to);
    }
  }

  lemma RemoveNodeKeepsSimulation(s: Sim, g: Graph, id: NodeId)
    requires Simulates(s, g) && NulFreeGraph(g)
    ensures Simulates(Sim(s.services - {id}, WithoutNode(s.edges, id)),
                      Graph(g.nodes - {id}, set e | e in g.edges && e.from != id && e.to != id))
  {
    var edges := set e | e in g.edges && e.from != id && e.to != id;
    forall k | k in WithoutNode(s.edges, id) ensures exists e :: e in edges && EdgeKey(e.from, e.to) == k {
      var e :| e in g.edges && EdgeKey(e.from, e.to) == k;
      SplitOfKey(e.from, e.to);
      assert e in edges;
    }
    forall e | e in edges ensures EdgeKey(e.from, e.to) in WithoutNode(s.edges, id) {
      SplitOfKey(e.from, e.to);
    }
  }

  /** The simulation finds no issue exactly if every operation is valid where it stands. */
  lemma {:induction false} SimulationDecidesValidity(registry: Registry, s: Sim, g: Graph, patch: seq<Operation>, n: nat)
    requires n <= |patch| && Simulates(s, g) && NulFreeGraph(g)
    requires forall i | 0 <= i < |patch| :: NulFreeOp(patch[i])
    ensures Simulate(registry, s, patch, n).1 == [] <==> ValidPatch(registry, g, patch, n)
    ensures ValidPatch(registry, g, patch, n) ==>
      && Simulates(Simulate(registry, s, patch, n).0, GraphAfter(registry, g, patch, n))
      && NulFreeGraph(GraphAfter(registry, g, patch, n))
  {
    if n > 0 {
      SimulationDecidesValidity(registry, s, g, patch, n - 1);
      if ValidPatch(registry, g, patch, n - 1) {
        StepAgrees(registry, Simulate(registry, s, patch, n - 1).0, GraphAfter(registry, g, patch, n - 1), patch[n - 1], n - 1);
      }
    }
  }

  // ---------------------------------------------------------------- list application

  function DropNode(nodes: seq<Node>, id: NodeId): seq<Node> {
    if nodes == [] then []
    else
      var front, last := DropNode(nodes[..|nodes| - 1], id), nodes[|nodes| - 1];
      if last.id != id then front + [last] else front
  }

  function DropEdgesOf(edges: seq<Edge>, id: NodeId): seq<Edge> {
    if edges == [] then []
    else
      var front, last := DropEdgesOf(edges[..|edges| - 1], id), edges[|edges| - 1];
      if last.from != id && last.to != id then front + [last] else front
  }

  function DropEdge(edges: seq<Edge>, from: NodeId, to: NodeId): seq<Edge> {
    if edges == [] then []
    else
      var front, last := DropEdge(edges[..|edges| - 1], from, to), edges[|edges| - 1];
      if !(last.from == from && last.to == to) then front + [last] else front
  }

  function SetParameters(nodes: seq<Node>, id: NodeId, parameters: nat): (r: seq<Node>)
    ensures |r| == |nodes|
    ensures forall i | 0 <= i < |nodes| :: r[i] == if nodes[i].id == id then nodes[i].(parameters := parameters) else nodes[i]
  {
    seq(|nodes|, i requires 0 <= i < |nodes| =>
      if nodes[i].id == id then nodes[i].(parameters := parameters) else nodes[i])
  }

  /** One operation applied to the lists. An unregistered service cannot get here. */
  function ApplyToLists(registry: Registry, d: Definition, op: Operation): Definition
    requires op.AddNode? ==> op.serviceRef in registry
  {
    match op
    case AddNode(_, _, _) => Definition(d.nodes + [NewNode(registry, op)], d.edges)
    case RemoveNode(id) => Definition(DropNode(d.nodes, id), DropEdgesOf(d.edges, id))
    case RemoveEdge(from, to) => Definition(d.nodes, DropEdge(d.edges, from, to))
    case UpdateParams(id, parameters) => Definition(SetParameters(d.nodes, id, parameters), d.edges)
    case AddEdge(from, to) => Definition(d.nodes, d.edges + [Edge(from, to)])
  }

  /** No id and no edge is listed twice, and no edge dangles. */
  ghost predicate WellFormed(d: Definition) {
    && UniqueIds(d.nodes)
    && DistinctEdges(d.edges)
    && (forall e | e in d.edges :: Lists(d.nodes, e.from) && Lists(d.nodes, e.to))
  }

  ghost predicate UniqueIds(nodes: seq<Node>) {
    forall i, j | 0 <= i < j < |nodes| :: nodes[i].id != nodes[j].id
  }

  ghost predicate DistinctEdges(edges: seq<Edge>) {
    forall i, j | 0 <= i < j < |edges| :: edges[i] != edges[j]
  }

  ghost predicate Lists(nodes: seq<Node>, id: NodeId) {
    exists n :: n in nodes && n.id == id
  }

  /** The lists hold exactly the graph's nodes, records included, and its edges. */
  ghost predicate Represents(d: Definition, g: Graph) {
    && (forall n :: n in d.nodes <==> n.id in g.nodes && g.nodes[n.id] == n)
    && (forall id | id in g.nodes :: g.nodes[id].id == id)
    && (forall e :: e in d.edges <==> e in g.edges)
  }

  lemma UniqueIdsSplit(nodes: seq<Node>)
    requires UniqueIds(nodes) && nodes != []
    ensures UniqueIds(nodes[..|nodes| - 1])
    ensures forall n | n in nodes[..|nodes| - 1] :: n.id != nodes[|nodes| - 1].id
  {
  }

  lemma UniqueIdsExtend(nodes: seq<Node>, last: Node)
    requires UniqueIds(nodes) && forall n | n in nodes :: n.id != last.id
    ensures UniqueIds(nodes + [last])
  {
  }

  lemma {:induction false} InDropNode(nodes: seq<Node>, id: NodeId)
    ensures forall n :: n in DropNode(nodes, id) <==> n in nodes && n.id != id
  {
    if nodes != [] {
      InDropNode(nodes[..|nodes| - 1], id);
      assert nodes == nodes[..|nodes| - 1] + [nodes[|nodes| - 1]];
    }
  }

  lemma {:induction false} DropNodeStaysUnique(nodes: seq<Node>, id: NodeId)
    requires UniqueIds(nodes)
    ensures UniqueIds(DropNode(nodes, id))
  {
    if nodes != [] {
      var front := nodes[..|nodes| - 1];
      UniqueIdsSplit(nodes);
      DropNodeStaysUnique(front, id);
      InDropNode(front, id);
      UniqueIdsExtend(DropNode(front, id), nodes[|nodes| - 1]);
    }
  }

  lemma {:induction false} InDropEdgesOf(edges: seq<Edge>, id: NodeId)
    ensures forall e :: e in DropEdgesOf(edges, id) <==> e in edges && e.from != id && e.to != id
    ensures DistinctEdges(edges) ==> DistinctEdges(DropEdgesOf(edges, id))
  {
    if edges != [] {
      var front, last := edges[..|edges| - 1], edges[|edges| - 1];
      InDropEdgesOf(front, id);
      assert edges == front + [last];
      if DistinctEdges(edges) { assert last !in front; }
    }
  }

  lemma {:induction false} InDropEdge(edges: seq<Edge>, from: NodeId, to: NodeId)
    ensures forall e :: e in DropEdge(edges, from, to) <==> e in edges && e != Edge(from, to)
    ensures DistinctEdges(edges) ==> DistinctEdges(DropEdge(edges, from, to))
  {
    if edges != [] {
      var front, last := edges[..|edges| - 1], edges[|edges| - 1];
      InDropEdge(front, from, to);
      assert edges == front + [last];
      if DistinctEdges(edges) { assert last !in front; }
    }
  }

  lemma InSetParameters(nodes: seq<Node>, id: NodeId, parameters: nat, n: Node)
    requires UniqueIds(nodes)
    ensures n in SetParameters(nodes, id, parameters) <==>
      if n.id == id then n.parameters == parameters && exists m :: m in nodes && m.id == id && m.(parameters := parameters) == n
      else n in nodes
  {
    var r := SetParameters(nodes, id, parameters);
    if n in r {
      var i :| 0 <= i < |r| && r[i] == n;
      assert nodes[i] in nodes;
    }
    if n.id == id {
      if m :| m in nodes && m.id == id && m.(parameters := parameters) == n {
        var i :| 0 <= i < |nodes| && nodes[i] == m;
        assert r[i] == n;
      }
    } else if n in nodes {
      var i :| 0 <= i < |nodes| && nodes[i] == n;
      assert r[i] == n;
    }
  }

  lemma {:induction false} MapOfNodes(nodes: seq<Node>)
    ensures forall id | id in NodeMap(nodes) :: NodeMap(nodes)[id].id == id && NodeMap(nodes)[id] in nodes
    ensures forall n | n in nodes :: n.id in NodeMap(nodes)
  {
    if nodes != [] {
      var front, last := nodes[..|nodes| - 1], nodes[|nodes| - 1];
      MapOfNodes(front);
      assert nodes == front + [last];
    }
  }

  /** When no id is listed twice, every node is found under its own id. */
  lemma MapFindsNode(nodes: seq<Node>, i: nat)
    requires UniqueIds(nodes)
    requires i < |nodes|
    ensures nodes[i].id in NodeMap(nodes) && NodeMap(nodes)[nodes[i].id] == nodes[i]
  {
    MapOfNodes(nodes);
    var found := NodeMap(nodes)[nodes[i].id];
    assert found in nodes && found.id == nodes[i].id;
  }

  lemma BaseIsRepresented(d: Definition)
    requires WellFormed(d)
    ensures Represents(d, GraphOf(d))
  {
    MapOfNodes(d.nodes);
    forall n | n in d.nodes ensures NodeMap(d.nodes)[n.id] == n {
      var i :| 0 <= i < |d.nodes| && d.nodes[i] == n;
      MapFindsNode(d.nodes, i);
    }
  }

  /** An applied operation keeps the lists well formed and in step with the graph. */
  lemma ApplyFollowsEffect(registry: Registry, d: Definition, g: Graph, op: Operation)
    requires WellFormed(d) && Represents(d, g) && ValidOn(registry, g, op)
    ensures WellFormed(ApplyToLists(registry, d, op))
    ensures Represents(ApplyToLists(registry, d, op), Effect(registry, g, op))
  {
    match op
    case AddNode(id, _, _) => AddNodeFollows(registry, d, g, op);
    case RemoveNode(id) => RemoveNodeFollows(registry, d, g, id);
    case UpdateParams(id, parameters) => UpdateFollows(registry, d, g, id, parameters);
    case AddEdge(from, to) => AddEdgeFollows(d, g, Edge(from, to));
    case RemoveEdge(from, to) => InDropEdge(d.edges, from, to);
  }

  lemma AddEdgeFollows(d: Definition, g: Graph, e: Edge)
    requires WellFormed(d) && Represents(d, g) && e !in g.edges && e.from in g.nodes && e.to in g.nodes
    ensures WellFormed(Definition(d.nodes, d.edges + [e]))
    ensures Represents(Definition(d.nodes, d.edges + [e]), Graph(g.nodes, g.edges + {e}))
  {
    assert g.nodes[e.from] in d.nodes && g.nodes[e.to] in d.nodes;
    assert Lists(d.nodes, e.from) && Lists(d.nodes, e.to);
  }

  lemma AddNodeFollows(registry: Registry, d: Definition, g: Graph, op: Operation)
    requires WellFormed(d) && Represents(d, g) && op.AddNode? && ValidOn(registry, g, op)
    ensures WellFormed(ApplyToLists(registry, d, op))
    ensures Represents(ApplyToLists(registry, d, op), Effect(registry, g, op))
  {
    var added := NewNode(registry, op);
    var nodes := d.nodes + [added];
    forall i | 0 <= i < |d.nodes| ensures d.nodes[i].id != added.id {
      assert d.nodes[i] in d.nodes;
    }
    forall id | Lists(d.nodes, id) ensures Lists(nodes, id) {
      var n :| n in d.nodes && n.id == id;
      assert n in nodes;
    }
  }

  lemma RemoveNodeFollows(registry: Registry, d: Definition, g: Graph, id: NodeId)
    requires WellFormed(d) && Represents(d, g) && id in g.nodes
    ensures WellFormed(ApplyToLists(registry, d, RemoveNode(id)))
    ensures Represents(ApplyToLists(registry, d, RemoveNode(id)), Effect(registry, g, RemoveNode(id)))
  {
    InDropNode(d.nodes, id);
    DropNodeStaysUnique(d.nodes, id);
    InDropEdgesOf(d.edges, id);
    forall x | x != id && Lists(d.nodes, x) ensures Lists(DropNode(d.nodes, id), x) {
      var n :| n in d.nodes && n.id == x;
      assert n in DropNode(d.nodes, id);
    }
  }

  lemma UpdateFollows(registry: Registry, d: Definition, g: Graph, id: NodeId, parameters: nat)
    requires WellFormed(d) && Represents(d, g) && id in g.nodes
    ensures WellFormed(ApplyToLists(registry, d, UpdateParams(id, parameters)))
    ensures Represents(ApplyToLists(registry, d, UpdateParams(id, parameters)), Effect(registry, g, UpdateParams(id, parameters)))
  {
    var updated := SetParameters(d.nodes, id, parameters);
    var nodes := g.nodes[id := g.nodes[id].(parameters := parameters)];
    forall n ensures n in updated <==> n.id in nodes && nodes[n.id] == n {
      InSetParameters(d.nodes, id, parameters, n);
      if n.id == id && n == nodes[id] { assert g.nodes[id] in d.nodes; }
    }
    forall x | Lists(d.nodes, x) ensures Lists(updated, x) {
      var n :| n in d.nodes && n.id == x;
      var i :| 0 <= i < |d.nodes| && d.nodes[i] == n;
      assert updated[i] in updated;
    }
  }

  /** The lists after the first `n` operations of a valid patch. */
  ghost function ListsAfter(registry: Registry, d: Definition, patch: seq<Operation>, n: nat): Definition
    requires n <= |patch| && forall i | 0 <= i < n :: patch[i].AddNode? ==> patch[i].serviceRef in registry
  {
    if n == 0 then d else ApplyToLists(registry, ListsAfter(registry, d, patch, n - 1), patch[n - 1])
  }

  lemma {:induction false} ValidPatchIsRegistered(registry: Registry, g: Graph, patch: seq<Operation>, n: nat)
    requires n <= |patch| && ValidPatch(registry, g, patch, n)
    ensures forall i | 0 <= i < n :: patch[i].AddNode? ==> patch[i].serviceRef in registry
  {
    if n > 0 { ValidPatchIsRegistered(registry, g, patch, n - 1); }
  }

  /**
   Applying a valid patch to a well-formed definition gives exactly the nodes and
   edges of the reference graph, with unique ids and no duplicate or dangling edge.
   */
  lemma {:induction false} ApplicationRefinesEffect(registry: Registry, d: Definition, patch: seq<Operation>, n: nat)
    requires n <= |patch| && WellFormed(d) && ValidPatch(registry, GraphOf(d), patch, n)
    ensures forall i | 0 <= i < n :: patch[i].AddNode? ==> patch[i].serviceRef in registry
    ensures WellFormed(ListsAfter(registry, d, patch, n))
    ensures Represents(ListsAfter(registry, d, patch, n), GraphAfter(registry, GraphOf(d), patch, n))
  {
    ValidPatchIsRegistered(registry, GraphOf(d), patch, n);
    if n == 0 {
      BaseIsRepresented(d);
    } else {
      ApplicationRefinesEffect(registry, d, patch, n - 1);
      ApplyFollowsEffect(registry, ListsAfter(registry, d, patch, n - 1), GraphAfter(registry, GraphOf(d), patch, n - 1), patch[n - 1]);
    }
  }

  // ---------------------------------------------------------------- the validator

  function InitialSim(d: Definition): Sim {
    Sim(ServiceMap(d.nodes), set e | e in d.edges :: EdgeKey(e.from, e.to))
  }

  function ServiceMap(nodes: seq<Node>): map<NodeId, nat> {
    if nodes == [] then map[]
    else ServiceMap(nodes[..|nodes| - 1])[nodes[|nodes| - 1].id := nodes[|nodes| - 1].serviceRef]
  }

  lemma {:induction false} ServicesOfNodes(nodes: seq<Node>)
    ensures ServiceMap(nodes).Keys == NodeMap(nodes).Keys
  {
    if nodes != [] { ServicesOfNodes(nodes[..|nodes| - 1]); }
  }

  lemma InitialSimulates(d: Definition)
    ensures Simulates(InitialSim(d), GraphOf(d))
  {
    ServicesOfNodes(d.nodes);
  }

  /** Deletes, key by key, the edges that touch a node. */
  method RemoveNodeAt(s: Sim, id: NodeId) returns (s': Sim)
    ensures s' == Sim(s.services - {id}, WithoutNode(s.edges, id))
  {
    var known, rest := s.edges, s.edges;
    while rest != {}
      invariant rest <= known <= s.edges
      invariant forall k | k in s.edges - rest :: k in known <==> Split(k).0 != id && Split(k).1 != id
      decreases |rest|
    {
      var k :| k in rest;
      var (from, to) := Split(k);
      rest := rest - {k};
      if from == id || to == id {
        known := known - {k};
      }
    }
    assert known == WithoutNode(s.edges, id);
    s' := Sim(s.services - {id}, known);
  }

  /** The loop over the operations that collects issues in the simulated node map and edge set. */
  method CollectIssues(registry: Registry, base: Sim, patch: seq<Operation>) returns (s: Sim, issues: seq<Issue>)
    ensures (s, issues) == Simulate(registry, base, patch, |patch|)
  {
    s, issues := base, [];
    for index := 0 to |patch|
      invariant (s, issues) == Simulate(registry, base, patch, index)
    {
      var op := patch[index];
      if op.RemoveNode? && op.nodeId in s.services {
        s := RemoveNodeAt(s, op.nodeId);
        assert issues + [] == issues;
      } else {
        var (after, more) := SimStep(registry, s, op, index);
        s, issues := after, issues + more;
      }
    }
  }

  /**
   Rejects the patch with all its issues, or returns the patched definition. It is
   rejected exactly if some operation is invalid on the graph the earlier ones
   produce; an accepted one yields that graph, as well-formed lists.
   */
  method ValidatePatch(registry: Registry, d: Definition, patch: seq<Operation>) returns (r: Result<Definition, seq<Issue>>)
    requires NulFreeGraph(GraphOf(d)) && forall i | 0 <= i < |patch| :: NulFreeOp(patch[i])
    ensures r.Ok? <==> ValidPatch(registry, GraphOf(d), patch, |patch|)
    ensures r.Err? ==> r.error == Simulate(registry, InitialSim(d), patch, |patch|).1
    ensures r.Ok? && WellFormed(d) ==>
      WellFormed(r.value) && Represents(r.value, GraphAfter(registry, GraphOf(d), patch, |patch|))
  {
    InitialSimulates(d);
    SimulationDecidesValidity(registry, InitialSim(d), GraphOf(d), patch, |patch|);
    var s, issues := CollectIssues(registry, InitialSim(d), patch);
    if issues != [] { return Err(issues); }
    ValidPatchIsRegistered(registry, GraphOf(d), patch, |patch|);
    var candidate := d;
    for n := 0 to |patch|
      invariant candidate == ListsAfter(registry, d, patch, n)
    {
      candidate := ApplyToLists(registry, candidate, patch[n]);
    }
    if WellFormed(d) { ApplicationRefinesEffect(registry, d, patch, |patch|); }
    r := Ok(candidate);
  }
}
