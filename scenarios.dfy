/**
 * Whole runs of `executeWorkflow` on particular shapes of graph: isolated
 * nodes, the children of a failed node, and the start, text, end chain
 * with a placeholder in the text.
 */
module Scenarios {
  import opened Wrappers
  import opened Values
  import opened Strings
  import opened Executors
  import opened History
  import opened Traversal
  import opened Ledger

  /** A rank that makes every graph without edges acyclic. */
  function Flat(id: string): nat {
    0
  }

  /** The record of a node that ran once, as visit number `k`, on no parent data. */
  function OnlyRecord(o: Oracle, n: Node, k: nat): NodeRecord {
    var out := o.execute(n, Undefined, k);
    NodeRecord(n.id, n.kind, out.success, [o.recordClock(k)], out.data, out.error)
  }

  /** Node ids are distinct. */
  predicate DistinctIds(nodes: seq<Node>) {
    forall i, j :: 0 <= i < j < |nodes| ==> nodes[i].id != nodes[j].id
  }

  /** The first `m` nodes each ran once, in order, as visits 0 to m - 1, on no parent data. */
  predicate RanOnce(o: Oracle, nodes: seq<Node>, s: RunState, m: nat)
    requires m <= |nodes|
  {
    && s.visits == m && |s.ledger| == m
    && forall i :: 0 <= i < m ==>
         && s.ledger[i] == OnlyRecord(o, nodes[i], i)
         && nodes[i].id in s.results && s.results[nodes[i].id] == o.execute(nodes[i], Undefined, i)
  }

  /** Running one more node with a fresh id extends the prefix by it. */
  lemma RanOnceStep(o: Oracle, nodes: seq<Node>, s: RunState, m: nat)
    requires 0 < m <= |nodes| && DistinctIds(nodes) && RanOnce(o, nodes, s, m - 1)
    ensures var n := nodes[m - 1];
            RanOnce(o, nodes, Apply(s, Event(n.id, n.kind, Undefined, o.execute(n, Undefined, s.visits), o.recordClock(s.visits))), m)
  {
    var n := nodes[m - 1];
    var ev := Event(n.id, n.kind, Undefined, o.execute(n, Undefined, s.visits), o.recordClock(s.visits));
    assert FindRecord(s.ledger, n.id).None? by {
      forall i | 0 <= i < m - 1 ensures s.ledger[i].nodeId != n.id {
        assert s.ledger[i] == OnlyRecord(o, nodes[i], i);
      }
    }
    var t := Apply(s, ev);
    assert t.ledger == s.ledger + [OnlyRecord(o, n, m - 1)];
    forall i | 0 <= i < m
      ensures t.ledger[i] == OnlyRecord(o, nodes[i], i)
      ensures nodes[i].id in t.results && t.results[nodes[i].id] == o.execute(nodes[i], Undefined, i)
    {
      if i < m - 1 {
        assert t.ledger[i] == s.ledger[i];
        assert nodes[i].id != n.id;
      }
    }
  }

  /** In an edgeless graph with distinct ids, each node is the one its id maps to, and it has no children. */
  lemma EdgelessLeaf(nodes: seq<Node>, i: nat)
    requires i < |nodes| && DistinctIds(nodes)
    ensures nodes[i].id in GraphOf(nodes, []).nodeMap && GraphOf(nodes, []).nodeMap[nodes[i].id] == nodes[i]
    ensures ChildrenOf(GraphOf(nodes, []).edges, nodes[i].id) == []
  {
    NodeMapLastWins(nodes, i);
  }

  /** A last root without children: the root loop's last step is its one recorded event. */
  lemma LeafRootStep(g: Graph, o: Oracle, rank: string -> nat, roots: seq<string>)
    requires Ranked(g, rank) && roots != []
    requires roots[|roots| - 1] in g.nodeMap && ChildrenOf(g.edges, roots[|roots| - 1]) == []
    ensures var s := RootsState(g, o, rank, Init, roots[..|roots| - 1]);
            RootsState(g, o, rank, Init, roots) == Apply(s, VisitEvent(g, o, roots[|roots| - 1], Undefined, s.visits))
  {
    RootsStep(g, o, rank, Init, roots);
    VisitLeaf(g, o, rank, RootsState(g, o, rank, Init, roots[..|roots| - 1]), roots[|roots| - 1], Undefined);
  }

  /** The first `m` elements are the first `m - 1` and then element `m - 1`. */
  lemma TakeOneMore(s: seq<string>, m: nat)
    requires 0 < m <= |s|
    ensures s[..m] == s[..m - 1] + [s[m - 1]]
  {
  }

  /** A root without children appended to the roots: its visit is the one event recorded after the others. */
  lemma LeafRootEvent(g: Graph, o: Oracle, rank: string -> nat, prefix: seq<string>, n: Node)
    requires Ranked(g, rank)
    requires n.id in g.nodeMap && g.nodeMap[n.id] == n && ChildrenOf(g.edges, n.id) == []
    ensures var s := RootsState(g, o, rank, Init, prefix);
            RootsState(g, o, rank, Init, prefix + [n.id])
            == Apply(s, Event(n.id, n.kind, Undefined, o.execute(n, Undefined, s.visits), o.recordClock(s.visits)))
  {
    var roots := prefix + [n.id];
    assert roots[..|roots| - 1] == prefix;
    LeafRootStep(g, o, rank, roots);
  }

  /** After the first `m` roots of an edgeless graph, each of them ran exactly once, in order, on no parent data. */
  lemma {:induction false} NoEdgesPrefix(nodes: seq<Node>, o: Oracle, m: nat)
    requires m <= |nodes| && DistinctIds(nodes)
    ensures RanOnce(o, nodes, RootsState(GraphOf(nodes, []), o, Flat, Init, Ids(nodes)[..m]), m)
  {
    if m > 0 {
      NoEdgesPrefix(nodes, o, m - 1);
      EdgelessLeaf(nodes, m - 1);
      TakeOneMore(Ids(nodes), m);
      LeafRootEvent(GraphOf(nodes, []), o, Flat, Ids(nodes)[..m - 1], nodes[m - 1]);
      RanOnceStep(o, nodes, RootsState(GraphOf(nodes, []), o, Flat, Init, Ids(nodes)[..m - 1]), m);
    }
  }

  /**
   * With no edges every node is a root and runs exactly once, in array
   * order, with no parent data, as visit number i; its record has one timestamp.
   */
  lemma NoEdgesEachRunsOnce(nodes: seq<Node>, o: Oracle)
    requires DistinctIds(nodes)
    ensures RanOnce(o, nodes, RootsState(GraphOf(nodes, []), o, Flat, Init, Ids(Roots(nodes, []))), |nodes|)
  {
    NoEdgesAllRoots(nodes);
    assert Ids(nodes)[..|nodes|] == Ids(nodes);
    NoEdgesPrefix(nodes, o, |nodes|);
  }

  // -------------------------------------------------------- data flow

  /**
   * Each child of a node receives the node's `result.data`, which is
   * `null` when the node failed.
   */
  lemma FailedParentPassesNull(g: Graph, w: World, rank: string -> nat, s: RunState, id: string, parentData: Value)
    requires Ranked(g, rank) && id in g.nodeMap
    requires !VisitEvent(g, OracleOf(w), id, parentData, s.visits).outcome.success
    ensures forall c :: c in ChildrenOf(g.edges, id) ==> Measure(g, rank, c) < Measure(g, rank, id)
    ensures VisitState(g, OracleOf(w), rank, s, id, parentData)
         == ChildrenState(g, OracleOf(w), rank, Apply(s, VisitEvent(g, OracleOf(w), id, parentData, s.visits)),
                          id, ChildrenOf(g.edges, id), Null)
  {
    var ev := VisitEvent(g, OracleOf(w), id, parentData, s.visits);
    assert ev.outcome == ExecuteNode(g.nodeMap[id], parentData, IoAt(w, s.visits), w.nodeClock(s.visits));
    assert ev.outcome.data == Null;
    VisitStep(g, OracleOf(w), rank, s, id, parentData);
  }

  /**
   * A text node after a start node, its text holding the placeholder with
   * no earlier occurrence: it succeeds, and its text carries the serialised
   * start payload, with `replace`'s `$` patterns expanded, in place of the
   * placeholder.
   */
  lemma TextAfterStart(node: Node, pre: string, post: string, io: Io, t0: string, t1: string)
    requires node.kind == "text" && node.data == Obj(map["text" := Str(pre + Placeholder + post)])
    requires forall j :: 0 <= j < |pre| ==> !OccursAt(pre + Placeholder + post, Placeholder, j)
    ensures var text := ExecuteNode(node, ExecuteStart(t0).data, io, t1);
            && text.success
            && Field(text.data, "text") == Str(pre + Expand(io.codec.stringify(StartData(t0)), Placeholder, pre, post) + post)
  {
    assert ExecuteNode(node, ExecuteStart(t0).data, io, t1) == ExecuteText(node, StartData(t0), io.codec, t1);
    TextSubstitutesPlaceholder(pre, post, StartData(t0), io.codec);
  }

  /**
   * The chain start → text → end, with the text as above: all three nodes
   * succeed and the end node's `finalData` is the text node's output.
   */
  lemma StartTextEndChain(s: Node, t: Node, e: Node, pre: string, post: string, io: Io, t0: string, t1: string, t2: string)
    requires s.kind == "start" && e.kind == "end"
    requires t.kind == "text" && t.data == Obj(map["text" := Str(pre + Placeholder + post)])
    requires forall j :: 0 <= j < |pre| ==> !OccursAt(pre + Placeholder + post, Placeholder, j)
    ensures var start := ExecuteNode(s, Undefined, io, t0);
            var text := ExecuteNode(t, start.data, io, t1);
            var end := ExecuteNode(e, text.data, io, t2);
            && start.success && text.success && end.success
            && Field(text.data, "text") == Str(pre + Expand(io.codec.stringify(StartData(t0)), Placeholder, pre, post) + post)
            && Field(end.data, "finalData") == text.data
  {
    assert ExecuteNode(s, Undefined, io, t0) == ExecuteStart(t0);
    TextAfterStart(t, pre, post, io, t0, t1);
  }

  // ------------------------------------------------------ a whole linear run

  /** The edges start → text → end. */
  function ChainEdges(s: Node, t: Node, e: Node): seq<Edge> {
    [Edge(s.id, t.id), Edge(t.id, e.id)]
  }

  /** Each id of the chain names its node. */
  lemma ChainNodeMap(s: Node, t: Node, e: Node)
    requires s.id != t.id && t.id != e.id && s.id != e.id
    ensures var m := NodeMap([s, t, e]);
            && s.id in m && m[s.id] == s && t.id in m && m[t.id] == t && e.id in m && m[e.id] == e
  {
    NodeMapLastWins([s, t, e], 0);
    NodeMapLastWins([s, t, e], 1);
    NodeMapLastWins([s, t, e], 2);
  }

  /** Each node of the chain has the next one as its only child, and end has none. */
  lemma ChainChildren(s: Node, t: Node, e: Node)
    requires s.id != t.id && t.id != e.id && s.id != e.id
    ensures ChildrenOf(ChainEdges(s, t, e), s.id) == [t.id]
    ensures ChildrenOf(ChainEdges(s, t, e), t.id) == [e.id]
    ensures ChildrenOf(ChainEdges(s, t, e), e.id) == []
  {
    var first := Edge(s.id, t.id);
    var second := Edge(t.id, e.id);
    assert [] + [first] == [first];
    assert [first] + [second] == ChainEdges(s, t, e);
    ChildrenOfSnoc([], first, s.id);
    ChildrenOfSnoc([], first, t.id);
    ChildrenOfSnoc([], first, e.id);
    ChildrenOfSnoc([first], second, s.id);
    ChildrenOfSnoc([first], second, t.id);
    ChildrenOfSnoc([first], second, e.id);
  }

  /** Only start is a root of the chain. */
  lemma ChainRoots(s: Node, t: Node, e: Node)
    requires s.id != t.id && t.id != e.id && s.id != e.id
    ensures Ids(Roots([s, t, e], ChainEdges(s, t, e))) == [s.id]
  {
    var edges := ChainEdges(s, t, e);
    assert !Targeted(edges, s.id) by {
      forall x | x in edges ensures x.target != s.id {
        assert x == edges[0] || x == edges[1];
      }
    }
    assert Targeted(edges, t.id) by { assert edges[0] in edges; }
    assert Targeted(edges, e.id) by { assert edges[1] in edges; }
    assert [s, t, e][1..] == [t, e];
    assert [t, e][1..] == [e];
    assert [e][1..] == [];
    assert Roots([e], edges) == [];
    assert Roots([t, e], edges) == [];
    assert Roots([s, t, e], edges) == [s];
  }

  /** A node with one child: its visit records it, then visits the child on its `result.data`. */
  lemma OnlyChildStep(g: Graph, o: Oracle, rank: string -> nat, st: RunState, id: string, child: string, data: Value)
    requires Ranked(g, rank) && id in g.nodeMap && ChildrenOf(g.edges, id) == [child]
    ensures var ev := VisitEvent(g, o, id, data, st.visits);
            VisitState(g, o, rank, st, id, data) == VisitState(g, o, rank, Apply(st, ev), child, ev.outcome.data)
  {
    VisitStep(g, o, rank, st, id, data);
    var ev := VisitEvent(g, o, id, data, st.visits);
    ChildrenStep(g, o, rank, Apply(st, ev), id, [child], ev.outcome.data);
    assert [child][..0] == [];
  }

  /** A run whose one root has one child, which has one leaf child: three recorded visits, in that order. */
  lemma ChainRunEvents(g: Graph, o: Oracle, rank: string -> nat, first: string, second: string, third: string)
    requires Ranked(g, rank) && first in g.nodeMap && second in g.nodeMap && third in g.nodeMap
    requires ChildrenOf(g.edges, first) == [second] && ChildrenOf(g.edges, second) == [third]
    requires ChildrenOf(g.edges, third) == []
    ensures var ev1 := VisitEvent(g, o, first, Undefined, 0);
            var ev2 := VisitEvent(g, o, second, ev1.outcome.data, 1);
            var ev3 := VisitEvent(g, o, third, ev2.outcome.data, 2);
            RootsState(g, o, rank, Init, [first]) == Apply(Apply(Apply(Init, ev1), ev2), ev3)
  {
    RootsStep(g, o, rank, Init, [first]);
    assert [first][..0] == [];
    var ev1 := VisitEvent(g, o, first, Undefined, 0);
    OnlyChildStep(g, o, rank, Init, first, second, Undefined);
    var s1 := Apply(Init, ev1);
    var ev2 := VisitEvent(g, o, second, ev1.outcome.data, 1);
    OnlyChildStep(g, o, rank, s1, second, third, ev1.outcome.data);
    VisitLeaf(g, o, rank, Apply(s1, ev2), third, ev2.outcome.data);
  }

  /** The record a first visit appends to the ledger. */
  function FirstRecord(ev: Event): NodeRecord {
    NodeRecord(ev.nodeId, ev.kind, ev.outcome.success, [ev.time], ev.outcome.data, ev.outcome.error)
  }

  /** Three visits of three different nodes: three records in visit order, and each node's outcome in `results`. */
  lemma ThreeFirstVisits(ev1: Event, ev2: Event, ev3: Event)
    requires ev1.nodeId != ev2.nodeId && ev2.nodeId != ev3.nodeId && ev1.nodeId != ev3.nodeId
    ensures var f := Apply(Apply(Apply(Init, ev1), ev2), ev3);
            && f.results == map[ev1.nodeId := ev1.outcome, ev2.nodeId := ev2.outcome, ev3.nodeId := ev3.outcome]
            && f.ledger == [FirstRecord(ev1), FirstRecord(ev2), FirstRecord(ev3)]
  {
    var l1 := [FirstRecord(ev1)];
    assert Absorb([], ev1) == l1;
    assert l1[1..] == [];
    assert FindRecord(l1, ev2.nodeId).None?;
    var l2 := l1 + [FirstRecord(ev2)];
    assert Absorb(l1, ev2) == l2;
    assert FindRecord(l2, ev3.nodeId).None?;
    assert Absorb(l2, ev3) == [FirstRecord(ev1), FirstRecord(ev2), FirstRecord(ev3)];
  }

  /** The same run, as the final state: three records in visit order, and each node's outcome in `results`. */
  lemma ChainFinal(g: Graph, o: Oracle, rank: string -> nat, first: string, second: string, third: string)
    requires Ranked(g, rank) && first in g.nodeMap && second in g.nodeMap && third in g.nodeMap
    requires first != second && second != third && first != third
    requires ChildrenOf(g.edges, first) == [second] && ChildrenOf(g.edges, second) == [third]
    requires ChildrenOf(g.edges, third) == []
    ensures var ev1 := VisitEvent(g, o, first, Undefined, 0);
            var ev2 := VisitEvent(g, o, second, ev1.outcome.data, 1);
            var ev3 := VisitEvent(g, o, third, ev2.outcome.data, 2);
            var f := RootsState(g, o, rank, Init, [first]);
            && f.results == map[first := ev1.outcome, second := ev2.outcome, third := ev3.outcome]
            && f.ledger == [FirstRecord(ev1), FirstRecord(ev2), FirstRecord(ev3)]
  {
    ChainRunEvents(g, o, rank, first, second, third);
    var ev1 := VisitEvent(g, o, first, Undefined, 0);
    var ev2 := VisitEvent(g, o, second, ev1.outcome.data, 1);
    ThreeFirstVisits(ev1, ev2, VisitEvent(g, o, third, ev2.outcome.data, 2));
  }

  /** The outcomes of start, then text on start's data, then end on text's data, in a world `w`. */
  lemma ChainOutcomes(g: Graph, s: Node, t: Node, e: Node, pre: string, post: string, w: World)
    requires s.id in g.nodeMap && g.nodeMap[s.id] == s && t.id in g.nodeMap && g.nodeMap[t.id] == t
    requires e.id in g.nodeMap && g.nodeMap[e.id] == e
    requires s.kind == "start" && e.kind == "end"
    requires t.kind == "text" && t.data == Obj(map["text" := Str(pre + Placeholder + post)])
    requires forall j :: 0 <= j < |pre| ==> !OccursAt(pre + Placeholder + post, Placeholder, j)
    ensures var ev1 := VisitEvent(g, OracleOf(w), s.id, Undefined, 0);
            var ev2 := VisitEvent(g, OracleOf(w), t.id, ev1.outcome.data, 1);
            var ev3 := VisitEvent(g, OracleOf(w), e.id, ev2.outcome.data, 2);
            && ev1.outcome.success && ev2.outcome.success && ev3.outcome.success
            && Field(ev2.outcome.data, "text")
               == Str(pre + Expand(w.codec.stringify(StartData(w.nodeClock(0))), Placeholder, pre, post) + post)
            && Field(ev3.outcome.data, "finalData") == ev2.outcome.data
  {
    var ev1 := VisitEvent(g, OracleOf(w), s.id, Undefined, 0);
    var ev2 := VisitEvent(g, OracleOf(w), t.id, ev1.outcome.data, 1);
    assert ev1.outcome == ExecuteStart(w.nodeClock(0));
    assert ev2.outcome == ExecuteNode(t, ExecuteStart(w.nodeClock(0)).data, IoAt(w, 1), w.nodeClock(1));
    TextAfterStart(t, pre, post, IoAt(w, 1), w.nodeClock(0), w.nodeClock(1));
    assert VisitEvent(g, OracleOf(w), e.id, ev2.outcome.data, 2).outcome
        == ExecuteNode(e, ev2.outcome.data, IoAt(w, 2), w.nodeClock(2));
  }

  /** A ledger of three successful records has status 'completed'. */
  lemma ThreeSucceeded(r1: NodeRecord, r2: NodeRecord, r3: NodeRecord)
    requires r1.success && r2.success && r3.success
    ensures StatusOf([r1, r2, r3]) == Completed
  {
    var l := [r1, r2, r3];
    assert forall i :: 0 <= i < |l| ==> l[i].success by {
      forall i | 0 <= i < |l| ensures l[i].success {
        assert i == 0 || i == 1 || i == 2;
      }
    }
  }

  /**
   * A run of `executeWorkflow` on start → text → end, the text holding the
   * placeholder with no earlier occurrence: the text node succeeds and its
   * output carries the start payload in place of the placeholder.
   */
  lemma StartTextEndRun(s: Node, t: Node, e: Node, pre: string, post: string, w: World, rank: string -> nat)
    requires s.id != t.id && t.id != e.id && s.id != e.id
    requires s.kind == "start" && e.kind == "end"
    requires t.kind == "text" && t.data == Obj(map["text" := Str(pre + Placeholder + post)])
    requires forall j :: 0 <= j < |pre| ==> !OccursAt(pre + Placeholder + post, Placeholder, j)
    requires Ranked(GraphOf([s, t, e], ChainEdges(s, t, e)), rank)
    ensures var f := FinalState([s, t, e], ChainEdges(s, t, e), w, rank);
            && t.id in f.results && f.results[t.id].success
            && Field(f.results[t.id].data, "text")
               == Str(pre + Expand(w.codec.stringify(StartData(w.nodeClock(0))), Placeholder, pre, post) + post)
  {
    var g := GraphOf([s, t, e], ChainEdges(s, t, e));
    ChainNodeMap(s, t, e);
    ChainChildren(s, t, e);
    ChainRoots(s, t, e);
    ChainFinal(g, OracleOf(w), rank, s.id, t.id, e.id);
    ChainOutcomes(g, s, t, e, pre, post, w);
  }

  /** In the same run every node, and no other id, has an outcome. */
  lemma StartTextEndVisitsAll(s: Node, t: Node, e: Node, w: World, rank: string -> nat)
    requires s.id != t.id && t.id != e.id && s.id != e.id
    requires s.kind == "start"
    requires Ranked(GraphOf([s, t, e], ChainEdges(s, t, e)), rank)
    ensures FinalState([s, t, e], ChainEdges(s, t, e), w, rank).results.Keys == {s.id, t.id, e.id}
  {
    var g := GraphOf([s, t, e], ChainEdges(s, t, e));
    ChainNodeMap(s, t, e);
    ChainChildren(s, t, e);
    ChainRoots(s, t, e);
    ChainFinal(g, OracleOf(w), rank, s.id, t.id, e.id);
  }

  /** In the same run the end node's `finalData` is the text node's output. */
  lemma StartTextEndDelivers(s: Node, t: Node, e: Node, pre: string, post: string, w: World, rank: string -> nat)
    requires s.id != t.id && t.id != e.id && s.id != e.id
    requires s.kind == "start" && e.kind == "end"
    requires t.kind == "text" && t.data == Obj(map["text" := Str(pre + Placeholder + post)])
    requires forall j :: 0 <= j < |pre| ==> !OccursAt(pre + Placeholder + post, Placeholder, j)
    requires Ranked(GraphOf([s, t, e], ChainEdges(s, t, e)), rank)
    ensures var f := FinalState([s, t, e], ChainEdges(s, t, e), w, rank);
            && t.id in f.results && e.id in f.results
            && Field(f.results[e.id].data, "finalData") == f.results[t.id].data
  {
    var g := GraphOf([s, t, e], ChainEdges(s, t, e));
    ChainNodeMap(s, t, e);
    ChainChildren(s, t, e);
    ChainRoots(s, t, e);
    ChainFinal(g, OracleOf(w), rank, s.id, t.id, e.id);
    ChainOutcomes(g, s, t, e, pre, post, w);
  }

  /** The same run stores a 'completed' execution whose results are the three nodes in visit order. */
  lemma StartTextEndCompletes(workflowId: string, s: Node, t: Node, e: Node, pre: string, post: string, w: World,
                              rank: string -> nat)
    requires s.id != t.id && t.id != e.id && s.id != e.id
    requires s.kind == "start" && e.kind == "end"
    requires t.kind == "text" && t.data == Obj(map["text" := Str(pre + Placeholder + post)])
    requires forall j :: 0 <= j < |pre| ==> !OccursAt(pre + Placeholder + post, Placeholder, j)
    requires Ranked(GraphOf([s, t, e], ChainEdges(s, t, e)), rank)
    ensures var x := RunExecution(workflowId, [s, t, e], ChainEdges(s, t, e), w, rank);
            && x.status == Completed
            && |x.results| == 3 && x.results[0].nodeId == s.id && x.results[1].nodeId == t.id && x.results[2].nodeId == e.id
  {
    var g := GraphOf([s, t, e], ChainEdges(s, t, e));
    ChainNodeMap(s, t, e);
    ChainChildren(s, t, e);
    ChainRoots(s, t, e);
    ChainFinal(g, OracleOf(w), rank, s.id, t.id, e.id);
    ChainOutcomes(g, s, t, e, pre, post, w);
    var ev1 := VisitEvent(g, OracleOf(w), s.id, Undefined, 0);
    var ev2 := VisitEvent(g, OracleOf(w), t.id, ev1.outcome.data, 1);
    ThreeSucceeded(FirstRecord(ev1), FirstRecord(ev2), FirstRecord(VisitEvent(g, OracleOf(w), e.id, ev2.outcome.data, 2)));
  }
}
