/**
 * `executeWorkflow`: the orchestrator that builds the children map, finds the
 * roots, visits every node depth-first, records each visit in the per-node
 * ledger and stores one execution record in the history store.
 *
 * The nested `executeNode` closure and the state it captures (`results`,
 * `nodeResults`, the visit count that indexes the clocks and the transports)
 * are the class `Run`. Each method is proved against the state-transformer specification
 * of module Traversal.
 */
module Engine {
  import opened Wrappers
  import opened Values
  import opened Executors
  import opened History
  import opened Traversal

  /** `nodeResults.find(r => r.nodeId === id)`, returning the index of the record. */
  method Find(ledger: seq<NodeRecord>, id: string) returns (found: Option<nat>)
    ensures found == FindRecord(ledger, id)
  {
    var i := 0;
    while i < |ledger|
      invariant 0 <= i <= |ledger|
      invariant forall j :: 0 <= j < i ==> ledger[j].nodeId != id
    {
      if ledger[i].nodeId == id {
        return Some(i);
      }
      i := i + 1;
    }
    return None;
  }

  /** The `edges.forEach` loop: each edge's target is pushed onto its source's list. */
  method BuildChildren(edges: seq<Edge>) returns (children: map<string, seq<string>>)
    ensures IsChildrenMap(children, edges)
  {
    children := map[];
    var i := 0;
    while i < |edges|
      invariant 0 <= i <= |edges|
      invariant children == ChildrenMapOf(edges[..i])
    {
      var e := edges[i];
      EdgesTakeOneMore(edges, i);
      if e.source !in children {
        children := children[e.source := []];
      }
      children := children[e.source := children[e.source] + [e.target]];
      i := i + 1;
    }
    assert edges[..|edges|] == edges;
    ChildrenMapOfIsChildrenMap(edges);
  }

  /** The record a visit leaves in `nodeResults`: a timestamp more on the node's record, or a new record. */
  method Absorbed(ledger: seq<NodeRecord>, ev: Event) returns (r: seq<NodeRecord>)
    ensures r == Absorb(ledger, ev)
  {
    var found := Find(ledger, ev.nodeId);
    match found {
      case Some(i) =>
        r := ledger[i := ledger[i].(timestamps := ledger[i].timestamps + [ev.time],
                                    success := ev.outcome.success, data := ev.outcome.data, error := ev.outcome.error)];
      case None =>
        r := ledger + [NodeRecord(ev.nodeId, ev.kind, ev.outcome.success, [ev.time], ev.outcome.data, ev.outcome.error)];
    }
  }

  /** The first `i + 1` edges are the first `i` and then edge `i`. */
  lemma EdgesTakeOneMore(edges: seq<Edge>, i: nat)
    requires i < |edges|
    ensures edges[..i + 1] == edges[..i] + [edges[i]]
    ensures edges[..i + 1][..i] == edges[..i]
  {
  }

  /** The map the edge loop holds after `edges`, one edge at a time. */
  ghost function ChildrenMapOf(edges: seq<Edge>): map<string, seq<string>> {
    if edges == [] then map[]
    else
      var m := ChildrenMapOf(edges[..|edges| - 1]);
      var e := edges[|edges| - 1];
      m[e.source := Lookup(m, e.source) + [e.target]]
  }

  /** The loop's map has a key for each node with an outgoing edge, holding its children in edge order. */
  lemma {:induction false} ChildrenMapOfIsChildrenMap(edges: seq<Edge>)
    ensures IsChildrenMap(ChildrenMapOf(edges), edges)
  {
    if edges != [] {
      var prefix := edges[..|edges| - 1];
      ChildrenMapOfIsChildrenMap(prefix);
      assert edges == prefix + [edges[|edges| - 1]];
      ChildrenMapSnoc(ChildrenMapOf(prefix), prefix, edges[|edges| - 1]);
    }
  }

  /** One more edge: its target goes at the end of its source's list, which is created empty if absent. */
  lemma ChildrenMapSnoc(children: map<string, seq<string>>, done: seq<Edge>, e: Edge)
    requires IsChildrenMap(children, done)
    ensures IsChildrenMap(children[e.source := Lookup(children, e.source) + [e.target]], done + [e])
  {
    var next := children[e.source := Lookup(children, e.source) + [e.target]];
    if e.source !in children {
      NoOutgoingNoChildren(done, e.source);
    }
    forall p ensures p in next <==> HasOutgoing(done + [e], p) {
      if HasOutgoing(done, p) {
        var x :| x in done && x.source == p;
        assert x in done + [e];
      }
      if p == e.source {
        assert e in done + [e];
      }
      if HasOutgoing(done + [e], p) && p != e.source {
        var x :| x in done + [e] && x.source == p;
        assert x in done;
      }
    }
    forall p | p in next ensures next[p] == ChildrenOf(done + [e], p) {
      ChildrenOfSnoc(done, e, p);
    }
  }

  /** One more root of the loop: the state after `i + 1` roots is a visit of root `i` after the first `i`. */
  lemma RootsPrefixStep(g: Graph, o: Oracle, rank: string -> nat, roots: seq<string>, i: nat)
    requires Ranked(g, rank) && i < |roots|
    ensures RootsState(g, o, rank, Init, roots[..i + 1])
         == VisitState(g, o, rank, RootsState(g, o, rank, Init, roots[..i]), roots[i], Undefined)
  {
    var p := roots[..i + 1];
    assert p[..|p| - 1] == roots[..i];
    assert p[|p| - 1] == roots[i];
  }

  /** A parent with no outgoing edge has no children. */
  lemma NoOutgoingNoChildren(edges: seq<Edge>, p: string)
    requires !HasOutgoing(edges, p)
    ensures ChildrenOf(edges, p) == []
  {
    if ChildrenOf(edges, p) != [] {
      assert ChildrenOf(edges, p)[0] in ChildrenOf(edges, p);
    }
  }

  /** The state of one run of `executeWorkflow`, shared by every visit. */
  class Run {
    const g: Graph
    const children: map<string, seq<string>>
    /** The executor and the ledger clock, as seen by each visit. */
    const oracle: Oracle
    ghost const rank: string -> nat

    /** `results`: the latest outcome of every visited node. */
    var results: map<string, Outcome>
    /** `nodeResults`: one record per node, in first-visit order. */
    var ledger: seq<NodeRecord>
    /** Visits made so far; visit number `visits` reads the clocks and transports next. */
    var visits: nat

    /** The graph is acyclic and the children map is the one its edges give. */
    ghost predicate Valid() {
      Ranked(g, rank) && IsChildrenMap(children, g.edges)
    }

    constructor (g: Graph, children: map<string, seq<string>>, oracle: Oracle, ghost rank: string -> nat)
      requires Ranked(g, rank) && IsChildrenMap(children, g.edges)
      ensures Valid()
      ensures this.g == g && this.children == children && this.oracle == oracle && this.rank == rank
      ensures results == map[] && ledger == [] && visits == 0
    {
      this.g := g;
      this.children := children;
      this.oracle := oracle;
      this.rank := rank;
      results := map[];
      ledger := [];
      visits := 0;
    }

    /** The fields the run has built so far. */
    function State(): RunState
      reads this
    {
      RunState(results, ledger, visits)
    }

    /**
     * First half of the closure `executeNode(nodeId, parentResult)` for an
     * existing node: run its executor, `results.set`, and update or append
     * its ledger record. Returns `result.data`.
     */
    method Step(id: string, parentData: Value) returns (data: Value)
      requires id in g.nodeMap
      modifies this
      ensures State() == Apply(old(State()), VisitEvent(g, oracle, id, parentData, old(visits)))
      ensures data == VisitEvent(g, oracle, id, parentData, old(visits)).outcome.data
    {
      var node := g.nodeMap[id];
      var result := oracle.execute(node, parentData, visits);
      var ev := Event(id, node.kind, parentData, result, oracle.recordClock(visits));
      results := results[id := result];
      ledger := Absorbed(ledger, ev);
      visits := visits + 1;
      data := result.data;
    }

    /** `for (const childId of children) await executeNode(childId, result.data)`. */
    method VisitChildren(parent: string, kids: seq<string>, data: Value)
      requires Valid()
      requires forall c :: c in kids ==> Measure(g, rank, c) < Measure(g, rank, parent)
      modifies this
      ensures State() == ChildrenState(g, oracle, rank, old(State()), parent, kids, data)
      decreases Measure(g, rank, parent), 0
    {
      var i := 0;
      while i < |kids|
        invariant 0 <= i <= |kids|
        invariant State() == ChildrenState(g, oracle, rank, old(State()), parent, kids[..i], data)
      {
        assert kids[i] in kids;
        assert kids[..i + 1][..i] == kids[..i];
        Visit(kids[i], data);
        i := i + 1;
      }
      assert kids[..|kids|] == kids;
    }

    /** The closure `executeNode(nodeId, parentResult)`: an unknown id does nothing. */
    method Visit(id: string, parentData: Value)
      requires Valid()
      modifies this
      ensures State() == VisitState(g, oracle, rank, old(State()), id, parentData)
      decreases Measure(g, rank, id), 1
    {
      if id !in g.nodeMap {
        return;
      }
      var data := Step(id, parentData);
      var kids := Lookup(children, id);
      LookupIsChildrenOf(children, g.edges, id);
      ChildrenMeasure(g, rank, id);
      VisitChildren(id, kids, data);
    }
  }

  /**
   * `executeWorkflow(workflowId, nodes, edges)`: visits the roots in node
   * order, stores the execution with the ledger and its status as the newest
   * entry of `workflowId`'s history, and returns the outcome map.
   */
  method ExecuteWorkflow(store: ExecutionStore, workflowId: string, nodes: seq<Node>, edges: seq<Edge>,
                         w: World, ghost rank: string -> nat)
    returns (results: map<string, Outcome>)
    requires store.Valid()
    requires Ranked(GraphOf(nodes, edges), rank)
    modifies store
    ensures store.Valid()
    ensures results == FinalState(nodes, edges, w, rank).results
    ensures store.executions
         == old(store.executions)[workflowId := Prepend(RunExecution(workflowId, nodes, edges, w, rank),
                                                        old(store.GetExecutions(workflowId)))]
  {
    var children := BuildChildren(edges);
    var g := GraphOf(nodes, edges);
    var run := new Run(g, children, OracleOf(w), rank);
    var roots := Ids(Roots(nodes, edges));
    var i := 0;
    while i < |roots|
      invariant 0 <= i <= |roots|
      invariant run.Valid() && run.g == g && run.oracle == OracleOf(w) && run.rank == rank
      invariant run.State() == RootsState(g, OracleOf(w), rank, Init, roots[..i])
      invariant store.executions == old(store.executions)
    {
      RootsPrefixStep(g, OracleOf(w), rank, roots, i);
      run.Visit(roots[i], Undefined);
      i := i + 1;
    }
    assert roots[..|roots|] == roots;
    store.AddExecution(workflowId, Execution(w.executionId, workflowId, w.startTime, w.endTime,
                                             StatusOf(run.ledger), run.ledger));
    results := run.results;
  }
}
