/**
 * The specification of one workflow run: the graph indexer (node map,
 * children map, roots), the change a single visit makes to the run's state
 * (outcome map, per-node ledger, visit count), the depth-first walk as a
 * composition of such changes, and the status derived from the ledger.
 *
 * The source has no cycle check and recurses forever on a cycle; the model
 * covers acyclic graphs, witnessed by a rank that decreases along every
 * edge between two existing nodes.
 */
module Traversal {
  import opened Wrappers
  import opened Values
  import opened Executors
  import opened History

  /** The fields of an edge that the engine reads. */
  datatype Edge = Edge(source: string, target: string)

  // ------------------------------------------------------------- graph indexer

  /** `new Map(nodes.map(n => [n.id, n]))`: for a repeated id the last node wins. */
  function NodeMap(nodes: seq<Node>): (m: map<string, Node>)
    ensures forall id :: id in m ==> m[id].id == id && m[id] in nodes
    ensures forall i :: 0 <= i < |nodes| ==> nodes[i].id in m
  {
    if nodes == [] then map[]
    else
      var last := nodes[|nodes| - 1];
      NodeMap(nodes[..|nodes| - 1])[last.id := last]
  }

  /** A node whose id does not occur later in the array is the one the map holds. */
  lemma {:induction false} NodeMapLastWins(nodes: seq<Node>, i: nat)
    requires i < |nodes|
    requires forall j :: i < j < |nodes| ==> nodes[j].id != nodes[i].id
    ensures NodeMap(nodes)[nodes[i].id] == nodes[i]
  {
    if i < |nodes| - 1 {
      var init := nodes[..|nodes| - 1];
      assert init[i] == nodes[i];
      NodeMapLastWins(init, i);
    }
  }

  /** The targets of the edges leaving `parent`, in edge order. */
  function ChildrenOf(edges: seq<Edge>, parent: string): (r: seq<string>)
    ensures forall c :: c in r <==> exists e :: e in edges && e.source == parent && e.target == c
  {
    if edges == [] then []
    else
      var last := edges[|edges| - 1];
      assert edges == edges[..|edges| - 1] + [last];
      ChildrenOf(edges[..|edges| - 1], parent) + (if last.source == parent then [last.target] else [])
  }

  /** The children after one more edge: its target joins the list of its source. */
  lemma ChildrenOfSnoc(edges: seq<Edge>, e: Edge, parent: string)
    ensures ChildrenOf(edges + [e], parent) == ChildrenOf(edges, parent) + (if e.source == parent then [e.target] else [])
  {
    assert (edges + [e])[..|edges|] == edges;
  }

  /** Some edge leaves `parent`. */
  ghost predicate HasOutgoing(edges: seq<Edge>, parent: string) {
    exists e :: e in edges && e.source == parent
  }

  /** Some edge enters `id`. */
  predicate Targeted(edges: seq<Edge>, id: string) {
    exists e :: e in edges && e.target == id
  }

  /** `childrenMap.get(id) || []`. */
  function Lookup(children: map<string, seq<string>>, id: string): seq<string> {
    if id in children then children[id] else []
  }

  /** The children map that the edge loop builds. */
  ghost predicate IsChildrenMap(children: map<string, seq<string>>, edges: seq<Edge>) {
    && (forall p :: p in children <==> HasOutgoing(edges, p))
    && (forall p :: p in children ==> children[p] == ChildrenOf(edges, p))
  }

  /** Reading the built map gives every node's children, the empty list for a node without any. */
  lemma LookupIsChildrenOf(children: map<string, seq<string>>, edges: seq<Edge>, id: string)
    requires IsChildrenMap(children, edges)
    ensures Lookup(children, id) == ChildrenOf(edges, id)
  {
    if id !in children && ChildrenOf(edges, id) != [] {
      var c := ChildrenOf(edges, id)[0];
      assert c in ChildrenOf(edges, id);
      assert HasOutgoing(edges, id);
    }
  }

  /** `nodes.filter(n => !edges.some(e => e.target === n.id))`. */
  function Roots(nodes: seq<Node>, edges: seq<Edge>): (r: seq<Node>)
    ensures |r| <= |nodes|
  {
    if nodes == [] then []
    else (if Targeted(edges, nodes[0].id) then [] else [nodes[0]]) + Roots(nodes[1..], edges)
  }

  /** The roots are exactly the nodes that no edge targets. */
  lemma {:induction false} RootsMembers(nodes: seq<Node>, edges: seq<Edge>)
    ensures forall n :: n in Roots(nodes, edges) <==> n in nodes && !Targeted(edges, n.id)
  {
    if nodes != [] {
      RootsMembers(nodes[1..], edges);
      assert nodes == [nodes[0]] + nodes[1..];
    }
  }

  /** Roots keep node-array order: the roots of a concatenation are the concatenated roots. */
  lemma {:induction false} RootsOfConcat(a: seq<Node>, b: seq<Node>, edges: seq<Edge>)
    ensures Roots(a + b, edges) == Roots(a, edges) + Roots(b, edges)
  {
    if a == [] {
      assert a + b == b;
    } else {
      assert (a + b)[0] == a[0];
      assert (a + b)[1..] == a[1..] + b;
      RootsOfConcat(a[1..], b, edges);
    }
  }

  /** With no edges every node is a root, in array order. */
  lemma {:induction false} NoEdgesAllRoots(nodes: seq<Node>)
    ensures Roots(nodes, []) == nodes
  {
    if nodes != [] {
      NoEdgesAllRoots(nodes[1..]);
    }
  }

  function Ids(nodes: seq<Node>): (r: seq<string>)
    ensures |r| == |nodes| && forall i :: 0 <= i < |nodes| ==> r[i] == nodes[i].id
  {
    if nodes == [] then [] else [nodes[0].id] + Ids(nodes[1..])
  }

  // --------------------------------------------------------------- the run

  /** The indexed graph. */
  datatype Graph = Graph(nodeMap: map<string, Node>, edges: seq<Edge>)

  function GraphOf(nodes: seq<Node>, edges: seq<Edge>): Graph {
    Graph(NodeMap(nodes), edges)
  }

  /** `rank` decreases along every edge between two existing nodes: the graph has no cycle. */
  ghost predicate Ranked(g: Graph, rank: string -> nat) {
    forall e :: e in g.edges && e.source in g.nodeMap && e.target in g.nodeMap ==> rank(e.target) < rank(e.source)
  }

  /** Termination measure of a visit: ids that are not nodes end at once. */
  function Measure(g: Graph, rank: string -> nat, id: string): nat {
    if id in g.nodeMap then rank(id) + 1 else 0
  }

  /** Every child of an existing node has a smaller measure. */
  lemma ChildrenMeasure(g: Graph, rank: string -> nat, parent: string)
    requires Ranked(g, rank) && parent in g.nodeMap
    ensures forall c :: c in ChildrenOf(g.edges, parent) ==> Measure(g, rank, c) < Measure(g, rank, parent)
  {
  }

  /**
   * Everything a run observes from outside: the uuid, the clock readings
   * (visit k reads `nodeClock(k)` in its executor and `recordClock(k)` for
   * the ledger), the email configuration, the serialisers and the answers the
   * transport and `fetch` give on visit k.
   */
  datatype World = World(
    executionId: string,
    startTime: string,
    endTime: string,
    nodeClock: nat -> string,
    recordClock: nat -> string,
    env: EmailEnv,
    codec: Codec,
    send: (nat, EmailRequest) -> SendReply,
    fetch: (nat, HttpRequest) -> FetchReply)

  /** The capabilities seen by visit number `k`. */
  function IoAt(w: World, k: nat): Io {
    Io(w.env, w.codec, req => w.send(k, req), req => w.fetch(k, req))
  }

  /**
   * What the traversal needs of a visit: the executor's outcome for a node,
   * its input and the visit number, and the ledger's clock reading.
   */
  datatype Oracle = Oracle(execute: (Node, Value, nat) -> Outcome, recordClock: nat -> string)

  /** The orchestrator's calls of `executeNode` in the world `w`. */
  function OracleOf(w: World): Oracle {
    Oracle((node: Node, parentData: Value, k: nat) => ExecuteNode(node, parentData, IoAt(w, k), w.nodeClock(k)), w.recordClock)
  }

  /** One visit: which node ran, on what input, with what outcome, at what ledger time. */
  datatype Event = Event(nodeId: string, kind: string, parentData: Value, outcome: Outcome, time: string)

  /** The event of visiting node `id` as visit number `k`. */
  function VisitEvent(g: Graph, o: Oracle, id: string, parentData: Value, k: nat): Event
    requires id in g.nodeMap
  {
    var node := g.nodeMap[id];
    Event(id, node.kind, parentData, o.execute(node, parentData, k), o.recordClock(k))
  }

  // ------------------------------------------------------ ledger and results

  /** `nodeResults.find(r => r.nodeId === id)`, as the index of the first match. */
  function FindRecord(ledger: seq<NodeRecord>, id: string): (r: Option<nat>)
    ensures r.Some? ==> r.value < |ledger| && ledger[r.value].nodeId == id
    ensures r.Some? ==> forall j :: 0 <= j < r.value ==> ledger[j].nodeId != id
    ensures r.None? ==> forall j :: 0 <= j < |ledger| ==> ledger[j].nodeId != id
  {
    if ledger == [] then None
    else if ledger[0].nodeId == id then Some(0)
    else match FindRecord(ledger[1..], id)
      case None => None
      case Some(i) => Some(i + 1)
  }

  /** A visit written into the ledger: an existing record gets a timestamp and the new outcome, otherwise a record is appended. */
  function Absorb(ledger: seq<NodeRecord>, ev: Event): seq<NodeRecord> {
    match FindRecord(ledger, ev.nodeId)
    case Some(i) =>
      ledger[i := ledger[i].(timestamps := ledger[i].timestamps + [ev.time],
                             success := ev.outcome.success, data := ev.outcome.data, error := ev.outcome.error)]
    case None =>
      ledger + [NodeRecord(ev.nodeId, ev.kind, ev.outcome.success, [ev.time], ev.outcome.data, ev.outcome.error)]
  }

  /** What the run has built so far: `results`, `nodeResults` and the number of visits made. */
  datatype RunState = RunState(results: map<string, Outcome>, ledger: seq<NodeRecord>, visits: nat)

  /** The state before the first visit. */
  const Init := RunState(map[], [], 0)

  /** One visit recorded: `results.set`, the ledger update, one visit more. */
  function Apply(s: RunState, ev: Event): RunState {
    RunState(s.results[ev.nodeId := ev.outcome], Absorb(s.ledger, ev), s.visits + 1)
  }

  // ------------------------------------------------- the run as a state change

  /** The state after `executeNode(id, parentData)` starting from state `s`. */
  function VisitState(g: Graph, o: Oracle, rank: string -> nat, s: RunState, id: string, parentData: Value): RunState
    requires Ranked(g, rank)
    decreases Measure(g, rank, id), 1, 0
  {
    if id !in g.nodeMap then s
    else
      var ev := VisitEvent(g, o, id, parentData, s.visits);
      ChildrenMeasure(g, rank, id);
      ChildrenState(g, o, rank, Apply(s, ev), id, ChildrenOf(g.edges, id), ev.outcome.data)
  }

  /** The state after the loop over `kids`, each child receiving `data`. */
  function ChildrenState(g: Graph, o: Oracle, rank: string -> nat, s: RunState, parent: string, kids: seq<string>, data: Value)
    : RunState
    requires Ranked(g, rank)
    requires forall c :: c in kids ==> Measure(g, rank, c) < Measure(g, rank, parent)
    decreases Measure(g, rank, parent), 0, |kids|
  {
    if kids == [] then s
    else VisitState(g, o, rank, ChildrenState(g, o, rank, s, parent, kids[..|kids| - 1], data), kids[|kids| - 1], data)
  }

  /** The state after the loop over the roots. */
  function RootsState(g: Graph, o: Oracle, rank: string -> nat, s: RunState, roots: seq<string>): RunState
    requires Ranked(g, rank)
    decreases |roots|
  {
    if roots == [] then s
    else VisitState(g, o, rank, RootsState(g, o, rank, s, roots[..|roots| - 1]), roots[|roots| - 1], Undefined)
  }

  /** `nodeResults.every(r => r.success) ? 'completed' : 'failed'`. */
  function StatusOf(ledger: seq<NodeRecord>): (r: Status)
    ensures r == Completed <==> forall i :: 0 <= i < |ledger| ==> ledger[i].success
  {
    if forall i :: 0 <= i < |ledger| ==> ledger[i].success then Completed else Failed
  }

  /** The state at the end of `executeWorkflow`'s loop over the roots. */
  function FinalState(nodes: seq<Node>, edges: seq<Edge>, w: World, rank: string -> nat): RunState
    requires Ranked(GraphOf(nodes, edges), rank)
  {
    RootsState(GraphOf(nodes, edges), OracleOf(w), rank, Init, Ids(Roots(nodes, edges)))
  }

  /** The execution record a run stores. */
  function ExecutionOf(workflowId: string, w: World, ledger: seq<NodeRecord>): Execution {
    Execution(w.executionId, workflowId, w.startTime, w.endTime, StatusOf(ledger), ledger)
  }

  function RunExecution(workflowId: string, nodes: seq<Node>, edges: seq<Edge>, w: World, rank: string -> nat): Execution
    requires Ranked(GraphOf(nodes, edges), rank)
  {
    ExecutionOf(workflowId, w, FinalState(nodes, edges, w, rank).ledger)
  }
}
