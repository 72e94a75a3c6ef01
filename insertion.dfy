/**
 * `NodeInsertionHandler`: the editor component whose mount effect inserts a
 * node of a given type on a selected edge. Unlike the pages' own insertion it
 * moves no node, and the new node's data is an empty object.
 */
module Insertion {
  import opened Wrappers
  import opened Values
  import opened Editor

  /** The node the handler creates at `at`: `{id, type, position, data: {}}`. */
  function HandlerNode(newNodeType: string, newId: string, at: Position): FlowNode {
    FlowNode(newId, newNodeType, at, Obj(map[]))
  }

  /** One more edge of the `filter` loop: it stays exactly when its id is not the removed one. */
  lemma FilterStep(edges: seq<FlowEdge>, i: nat, k: Keep)
    requires i < |edges|
    ensures Filter(edges[..i + 1], k) == Filter(edges[..i], k) + (if Keeps(k, edges[i]) then [edges[i]] else [])
  {
    assert edges[..i + 1] == edges[..i] + [edges[i]];
    FilterConcat(edges[..i], [edges[i]], k);
    assert [edges[i]][1..] == [];
  }

  /**
   * The effect: when the selected edge's source and target are both among
   * the nodes, the new node goes at their midpoint and is appended, the
   * original edge is filtered out and two edges through the new node are
   * pushed, and the new node's configuration opens. Otherwise no callback
   * runs and nothing changes.
   */
  method HandleInsertion(selectedEdge: FlowEdge, nodes: seq<FlowNode>, edges: seq<FlowEdge>, newNodeType: string,
                         newId: string)
    returns (r: Edit)
    ensures r.dialog.Some? <==> FindNode(nodes, selectedEdge.source).Some? && FindNode(nodes, selectedEdge.target).Some?
    ensures r.dialog.None? ==> r.nodes == nodes && r.edges == edges
    ensures r.dialog.Some? ==>
      && r.dialog.value == HandlerNode(newNodeType, newId,
                                       Midpoint(FindNode(nodes, selectedEdge.source).value.position,
                                                FindNode(nodes, selectedEdge.target).value.position))
      && r.nodes == nodes + [r.dialog.value]
      && r.edges == SplitEdges(edges, selectedEdge, newId)
  {
    var sourceNode := FindNode(nodes, selectedEdge.source);
    var targetNode := FindNode(nodes, selectedEdge.target);
    if sourceNode.None? || targetNode.None? {
      return Edit(nodes, edges, None);
    }
    var newPosition := Midpoint(sourceNode.value.position, targetNode.value.position);
    var newNode := HandlerNode(newNodeType, newId, newPosition);
    var updatedEdges: seq<FlowEdge> := [];
    var i := 0;
    while i < |edges|
      invariant 0 <= i <= |edges|
      invariant updatedEdges == Filter(edges[..i], NotId(selectedEdge.id))
    {
      FilterStep(edges, i, NotId(selectedEdge.id));
      if edges[i].id != selectedEdge.id {
        updatedEdges := updatedEdges + [edges[i]];
      }
      i := i + 1;
    }
    assert edges[..|edges|] == edges;
    updatedEdges := updatedEdges
      + [FlowEdge("e-" + selectedEdge.source + "-" + newId, selectedEdge.source, newId, EdgeKind),
         FlowEdge("e-" + newId + "-" + selectedEdge.target, newId, selectedEdge.target, EdgeKind)];
    r := Edit(nodes + [newNode], updatedEdges, Some(newNode));
  }

  /**
   * Against the pages' own insertion on the same edge: the edges come out
   * the same, the new node sits at the same place, and the existing nodes
   * keep their positions where the pages move the ones below it.
   */
  lemma HandlerMatchesPageEdges(nodes: seq<FlowNode>, edges: seq<FlowEdge>, selected: FlowEdge, t: NodeType,
                                newId: string, handled: Edit)
    requires FindNode(nodes, selected.source).Some? && FindNode(nodes, selected.target).Some?
    requires handled.dialog.Some? && handled.nodes == nodes + [handled.dialog.value]
    requires handled.dialog.value.position == Midpoint(FindNode(nodes, selected.source).value.position,
                                                      FindNode(nodes, selected.target).value.position)
    requires handled.edges == SplitEdges(edges, selected, newId)
    ensures var page := InsertNode(nodes, edges, Some(selected), t, newId);
            && page.edges == handled.edges
            && page.dialog.value.position == handled.dialog.value.position
            && |page.nodes| == |handled.nodes|
            && forall i :: 0 <= i < |nodes| && (Fixed(nodes[i].id) || nodes[i].position.y <= handled.dialog.value.position.y)
                 ==> page.nodes[i] == handled.nodes[i]
  {
  }

  /**
   * A node inserted by the handler with a fresh id and then deleted by the
   * page: the edges around the split edge stay in order, followed by an edge
   * with the split edge's endpoints. The handler moved no node down, but the
   * page's deletion still moves up every node below the new one, so the node
   * list comes back only where no node lies below it (with the corrected
   * deletion, start and end stay where they are).
   */
  lemma HandlerThenDeleteRestores(nodes: seq<FlowNode>, edges: seq<FlowEdge>, i: nat, newNodeType: string,
                                  newId: string, handled: Edit)
    requires i < |edges|
    requires forall j :: 0 <= j < |edges| && j != i ==> edges[j].id != edges[i].id
    requires FreshId(nodes, edges, newId)
    requires handled.dialog.Some? && handled.dialog.value.id == newId
    requires handled.nodes == nodes + [handled.dialog.value]
    requires handled.edges == SplitEdges(edges, edges[i], newId)
    ensures var e := edges[i];
            DeleteNode(handled.nodes, handled.edges, newId).edges
            == edges[..i] + edges[i + 1..] + [FlowEdge("e-" + e.source + "-" + e.target, e.source, e.target, EdgeKind)]
    ensures DeleteNode(handled.nodes, handled.edges, newId).nodes
         == ShiftForDeleteAsWritten(nodes, handled.dialog.value.position.y)
    ensures DeleteNodeCorrected(handled.nodes, handled.edges, newId).nodes
         == ShiftForDelete(nodes, handled.dialog.value.position.y)
  {
    var e := edges[i];
    SplitReplacesEdge(edges, i, newId);
    assert forall x :: x in edges[..i] + edges[i + 1..] ==> x in edges;
    DeleteUndoesDetour(edges[..i] + edges[i + 1..], FlowEdge("e-" + e.source + "-" + newId, e.source, newId, EdgeKind),
                       FlowEdge("e-" + newId + "-" + e.target, newId, e.target, EdgeKind), newId);
    FindNodeFirst(handled.nodes, |nodes|);
    WithoutNodeAppend(nodes, handled.dialog.value);
  }

  /**
   * On a new workflow the handler's round trip moves the end node up: the
   * handler puts the new node at y = 325 without moving end down, and the
   * deletion then moves end from y = 600 to y = 500.
   */
  lemma HandlerRoundTripRaisesEnd(newNodeType: string, newId: string, handled: Edit)
    requires !Fixed(newId)
    requires handled.dialog.Some? && handled.dialog.value.id == newId
    requires handled.dialog.value.position == Midpoint(InitialNodes[0].position, InitialNodes[1].position)
    requires handled.nodes == InitialNodes + [handled.dialog.value]
    requires handled.edges == SplitEdges(InitialEdges, InitialEdges[0], newId)
    ensures var after := DeleteNode(handled.nodes, handled.edges, newId).nodes;
            |after| == 2 && after[1].position == Position(300.0, 500.0)
  {
    assert FreshId(InitialNodes, InitialEdges, newId);
    HandlerThenDeleteRestores(InitialNodes, InitialEdges, 0, newNodeType, newId, handled);
  }
}
