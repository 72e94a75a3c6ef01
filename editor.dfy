/**
 * The graph edits of the workflow editor pages (`WorkflowCreate` and
 * `WorkflowEdit`, which share these algorithms line for line): the initial
 * graph, inserting a node on an edge, deleting a node with reconnection, and
 * saving a node's configuration. Each edit is the pure function that the
 * page's `setNodes`/`setEdges` updaters apply to the current lists.
 */
module Editor {
  import opened Wrappers
  import opened Values

  /** A canvas position; the edits only take midpoints and add or subtract 100. */
  datatype Position = Position(x: real, y: real)

  /** A node on the canvas: `{id, type, position, data}`. */
  datatype FlowNode = FlowNode(id: string, kind: string, position: Position, data: Value)

  /** An edge on the canvas: `{id, source, target, type}`. */
  datatype FlowEdge = FlowEdge(id: string, source: string, target: string, kind: string)

  /** The kinds a user can insert. */
  datatype NodeType = Email | Api | Text

  /** What one edit leaves: the node list, the edge list and the node whose configuration dialog opens. */
  datatype Edit = Edit(nodes: seq<FlowNode>, edges: seq<FlowEdge>, dialog: Option<FlowNode>)

  const VerticalOffset: real := 100.0

  const EdgeKind: string := "plusicon"

  /** The two fixed nodes that are never deleted. */
  predicate Fixed(id: string) {
    id == "start" || id == "end"
  }

  // ------------------------------------------------------------ the initial graph

  const InitialNodes: seq<FlowNode> := [
    FlowNode("start", "start", Position(300.0, 50.0), Obj(map["label" := Str("Start")])),
    FlowNode("end", "end", Position(300.0, 600.0), Obj(map["label" := Str("End")]))]

  const InitialEdges: seq<FlowEdge> := [FlowEdge("e1-2", "start", "end", EdgeKind)]

  /** A new workflow holds only the start and end nodes, joined by one edge. */
  lemma InitialGraphIsStartToEnd()
    ensures |InitialNodes| == 2 && InitialNodes[0].id == "start" && InitialNodes[1].id == "end"
    ensures forall n :: n in InitialNodes ==> Fixed(n.id)
    ensures |InitialEdges| == 1 && InitialEdges[0].source == "start" && InitialEdges[0].target == "end"
  {
  }

  // ------------------------------------------------------------------ lookups

  /** `nodes.find(node => node.id === id)`. */
  function FindNode(nodes: seq<FlowNode>, id: string): (r: Option<FlowNode>)
    ensures r.Some? ==> r.value in nodes && r.value.id == id
    ensures r.None? <==> forall n :: n in nodes ==> n.id != id
  {
    if nodes == [] then None
    else if nodes[0].id == id then Some(nodes[0])
    else FindNode(nodes[1..], id)
  }

  /** The first node with a given id is the one found. */
  lemma {:induction false} FindNodeFirst(nodes: seq<FlowNode>, i: nat)
    requires i < |nodes|
    requires forall j :: 0 <= j < i ==> nodes[j].id != nodes[i].id
    ensures FindNode(nodes, nodes[i].id) == Some(nodes[i])
  {
    if i > 0 {
      FindNodeFirst(nodes[1..], i - 1);
    }
  }

  /** Appending nodes with other ids does not change what is found. */
  lemma {:induction false} FindNodeAppend(nodes: seq<FlowNode>, more: seq<FlowNode>, id: string)
    requires FindNode(nodes, id).Some?
    ensures FindNode(nodes + more, id) == FindNode(nodes, id)
  {
    if nodes[0].id != id {
      assert (nodes + more)[1..] == nodes[1..] + more;
      FindNodeAppend(nodes[1..], more, id);
    }
  }

  // ---------------------------------------------------------------- filters

  /** The conditions the edits filter edges by. */
  datatype Keep = NotId(id: string) | Entering(node: string) | Leaving(node: string) | Apart(node: string)

  predicate Keeps(k: Keep, e: FlowEdge) {
    match k
    case NotId(id) => e.id != id
    case Entering(n) => e.target == n
    case Leaving(n) => e.source == n
    case Apart(n) => e.source != n && e.target != n
  }

  /** `edges.filter(...)`: the edges that satisfy `k`, in their order. */
  function Filter(edges: seq<FlowEdge>, k: Keep): (r: seq<FlowEdge>)
    ensures forall e :: e in r <==> e in edges && Keeps(k, e)
    ensures |r| <= |edges|
  {
    if edges == [] then []
    else (if Keeps(k, edges[0]) then [edges[0]] else []) + Filter(edges[1..], k)
  }

  lemma {:induction false} FilterConcat(a: seq<FlowEdge>, b: seq<FlowEdge>, k: Keep)
    ensures Filter(a + b, k) == Filter(a, k) + Filter(b, k)
  {
    if a == [] {
      assert a + b == b;
    } else {
      assert (a + b)[0] == a[0];
      assert (a + b)[1..] == a[1..] + b;
      FilterConcat(a[1..], b, k);
    }
  }

  /** Filtering keeps a list whose every edge passes. */
  lemma {:induction false} FilterKeepsAll(edges: seq<FlowEdge>, k: Keep)
    requires forall e :: e in edges ==> Keeps(k, e)
    ensures Filter(edges, k) == edges
  {
    if edges != [] {
      FilterKeepsAll(edges[1..], k);
    }
  }

  /** Filtering a list none of whose edges passes gives the empty list. */
  lemma FilterKeepsNone(edges: seq<FlowEdge>, k: Keep)
    requires forall e :: e in edges ==> !Keeps(k, e)
    ensures Filter(edges, k) == []
  {
  }

  /** Dropping element `i > 0` keeps the head in front of the tail with element `i - 1` dropped. */
  lemma DropAfterHead(edges: seq<FlowEdge>, i: nat)
    requires 0 < i < |edges|
    ensures edges[..i] + edges[i + 1..] == [edges[0]] + (edges[1..][..i - 1] + edges[1..][i..])
  {
  }

  /** Filtering out the one edge with a given id leaves the edges around it, in order. */
  lemma {:induction false} FilterOneId(edges: seq<FlowEdge>, i: nat)
    requires i < |edges|
    requires forall j :: 0 <= j < |edges| && j != i ==> edges[j].id != edges[i].id
    ensures Filter(edges, NotId(edges[i].id)) == edges[..i] + edges[i + 1..]
  {
    var tail := edges[1..];
    if i == 0 {
      assert forall e :: e in tail ==> Keeps(NotId(edges[0].id), e);
      FilterKeepsAll(tail, NotId(edges[0].id));
      assert edges[..0] + edges[1..] == tail;
    } else {
      assert forall j :: 0 <= j < |tail| && j != i - 1 ==> tail[j].id != tail[i - 1].id;
      FilterOneId(tail, i - 1);
      DropAfterHead(edges, i);
    }
  }

  /** The (source, target) pairs of an edge list, as a multiset. */
  function Links(edges: seq<FlowEdge>): multiset<(string, string)> {
    if edges == [] then multiset{} else multiset{(edges[0].source, edges[0].target)} + Links(edges[1..])
  }

  lemma {:induction false} LinksConcat(a: seq<FlowEdge>, b: seq<FlowEdge>)
    ensures Links(a + b) == Links(a) + Links(b)
  {
    if a == [] {
      assert a + b == b;
    } else {
      assert (a + b)[0] == a[0];
      assert (a + b)[1..] == a[1..] + b;
      LinksConcat(a[1..], b);
    }
  }

  // ------------------------------------------------------------------ insertion

  function KindName(t: NodeType): string {
    match t
    case Email => "email"
    case Api => "api"
    case Text => "text"
  }

  /** `toUpperCase` on one character, for the ASCII letters the kind names use. */
  function Upper(c: char): char {
    if 'a' <= c <= 'z' then (c as int - 32) as char else c
  }

  /** `` `${type.charAt(0).toUpperCase() + type.slice(1)} Node` ``. */
  function Label(t: NodeType): string {
    var name := KindName(t);
    [Upper(name[0])] + name[1..] + " Node"
  }

  /** The labels of the three insertable kinds. */
  lemma LabelsOfKinds()
    ensures Label(Email) == "Email Node" && Label(Api) == "Api Node" && Label(Text) == "Text Node"
  {
  }

  /** The point halfway between two positions. */
  function Midpoint(a: Position, b: Position): (m: Position)
    ensures m.x - a.x == b.x - m.x && m.y - a.y == b.y - m.y
  {
    Position((a.x + b.x) / 2.0, (a.y + b.y) / 2.0)
  }

  function MovedBy(n: FlowNode, dy: real): FlowNode {
    n.(position := n.position.(y := n.position.y + dy))
  }

  /** Insertion's shift: every node below `y`, except start and end, moves down by 100. */
  function ShiftForInsert(nodes: seq<FlowNode>, y: real): (r: seq<FlowNode>)
    ensures |r| == |nodes|
    ensures forall i :: 0 <= i < |nodes| ==>
      r[i] == if !Fixed(nodes[i].id) && nodes[i].position.y > y then MovedBy(nodes[i], VerticalOffset) else nodes[i]
  {
    if nodes == [] then []
    else
      [if !Fixed(nodes[0].id) && nodes[0].position.y > y then MovedBy(nodes[0], VerticalOffset) else nodes[0]]
        + ShiftForInsert(nodes[1..], y)
  }

  /** The edge list after splitting `selected` with the node `newId`. */
  function SplitEdges(edges: seq<FlowEdge>, selected: FlowEdge, newId: string): seq<FlowEdge> {
    Filter(edges, NotId(selected.id))
      + [FlowEdge("e-" + selected.source + "-" + newId, selected.source, newId, EdgeKind),
         FlowEdge("e-" + newId + "-" + selected.target, newId, selected.target, EdgeKind)]
  }

  /** The node `handleNodeSelect` creates; its `onDelete` callback is not part of the model. */
  function NewNode(t: NodeType, newId: string, at: Position): FlowNode {
    FlowNode(newId, KindName(t), at, Obj(map["label" := Str(Label(t))]))
  }

  /**
   * `handleNodeSelect(type)`: with a selected edge whose source and target
   * are both on the canvas, a new node goes at their midpoint, the nodes
   * below it move down, and the edge is replaced by two through the new
   * node, whose configuration then opens. Otherwise nothing changes.
   */
  function InsertNode(nodes: seq<FlowNode>, edges: seq<FlowEdge>, selected: Option<FlowEdge>, t: NodeType, newId: string)
    : (r: Edit)
    ensures r.dialog.Some? <==>
      selected.Some? && FindNode(nodes, selected.value.source).Some? && FindNode(nodes, selected.value.target).Some?
    ensures r.dialog.None? ==> r.nodes == nodes && r.edges == edges
    ensures r.dialog.Some? ==>
      var n := r.dialog.value;
      && n.id == newId && n.kind == KindName(t) && n.data == Obj(map["label" := Str(Label(t))])
      && n.position == Midpoint(FindNode(nodes, selected.value.source).value.position,
                                FindNode(nodes, selected.value.target).value.position)
      && r.nodes == ShiftForInsert(nodes, n.position.y) + [n]
      && r.edges == SplitEdges(edges, selected.value, newId)
  {
    match selected
    case None => Edit(nodes, edges, None)
    case Some(e) =>
      match (FindNode(nodes, e.source), FindNode(nodes, e.target))
      case (Some(s), Some(g)) =>
        var n := NewNode(t, newId, Midpoint(s.position, g.position));
        Edit(ShiftForInsert(nodes, n.position.y) + [n], SplitEdges(edges, e, newId), Some(n))
      case _ => Edit(nodes, edges, None)
  }

  /** Splitting an edge whose id is unique: the other edges keep their order, and the two new ones follow. */
  lemma SplitReplacesEdge(edges: seq<FlowEdge>, i: nat, newId: string)
    requires i < |edges|
    requires forall j :: 0 <= j < |edges| && j != i ==> edges[j].id != edges[i].id
    ensures var e := edges[i];
            SplitEdges(edges, e, newId)
            == edges[..i] + edges[i + 1..]
               + [FlowEdge("e-" + e.source + "-" + newId, e.source, newId, EdgeKind),
                  FlowEdge("e-" + newId + "-" + e.target, newId, e.target, EdgeKind)]
  {
    FilterOneId(edges, i);
  }

  // ------------------------------------------------------------------ deletion

  /** `nds.filter(node => node.id !== id)`. */
  function WithoutNode(nodes: seq<FlowNode>, id: string): (r: seq<FlowNode>)
    ensures forall n :: n in r <==> n in nodes && n.id != id
  {
    if nodes == [] then []
    else (if nodes[0].id != id then [nodes[0]] else []) + WithoutNode(nodes[1..], id)
  }

  lemma {:induction false} WithoutNodeAppend(nodes: seq<FlowNode>, n: FlowNode)
    requires forall m :: m in nodes ==> m.id != n.id
    ensures WithoutNode(nodes + [n], n.id) == nodes
  {
    if nodes == [] {
      assert [n][1..] == [];
    } else {
      assert (nodes + [n])[1..] == nodes[1..] + [n];
      WithoutNodeAppend(nodes[1..], n);
    }
  }

  /** The delete handler's shift as the source writes it: every node below `y` moves up by 100, start and end included. */
  function ShiftForDeleteAsWritten(nodes: seq<FlowNode>, y: real): (r: seq<FlowNode>)
    ensures |r| == |nodes|
    ensures forall i :: 0 <= i < |nodes| ==>
      r[i] == if nodes[i].position.y > y then MovedBy(nodes[i], -VerticalOffset) else nodes[i]
  {
    if nodes == [] then []
    else
      [if nodes[0].position.y > y then MovedBy(nodes[0], -VerticalOffset) else nodes[0]]
        + ShiftForDeleteAsWritten(nodes[1..], y)
  }

  /** `handleDeleteNodeById`'s node update as the source writes it. */
  function DeleteNodesAsWritten(nodes: seq<FlowNode>, id: string): (r: seq<FlowNode>)
    ensures Fixed(id) || FindNode(nodes, id).None? ==> r == nodes
    ensures !Fixed(id) && FindNode(nodes, id).Some? ==>
      r == ShiftForDeleteAsWritten(WithoutNode(nodes, id), FindNode(nodes, id).value.position.y)
    ensures forall n :: n in r ==> n.id != id || Fixed(id) || FindNode(nodes, id).None?
  {
    if Fixed(id) then nodes
    else
      match FindNode(nodes, id)
      case None => nodes
      case Some(doomed) =>
        var rest := WithoutNode(nodes, doomed.id);
        var r := ShiftForDeleteAsWritten(rest, doomed.position.y);
        assert forall n :: n in r ==> n.id != id by {
          forall n | n in r ensures n.id != id {
            var i :| 0 <= i < |r| && r[i] == n;
            assert rest[i] in rest;
          }
        }
        r
  }

  /** The delete handler's shift mirroring insertion's: start and end stay where they are. */
  function ShiftForDelete(nodes: seq<FlowNode>, y: real): (r: seq<FlowNode>)
    ensures |r| == |nodes|
    ensures forall i :: 0 <= i < |nodes| ==>
      r[i] == if !Fixed(nodes[i].id) && nodes[i].position.y > y then MovedBy(nodes[i], -VerticalOffset) else nodes[i]
  {
    if nodes == [] then []
    else
      [if !Fixed(nodes[0].id) && nodes[0].position.y > y then MovedBy(nodes[0], -VerticalOffset) else nodes[0]]
        + ShiftForDelete(nodes[1..], y)
  }

  /** `handleDeleteNodeById`'s node update, with the start and end nodes kept in place as insertion keeps them. */
  function DeleteNodes(nodes: seq<FlowNode>, id: string): (r: seq<FlowNode>)
    ensures Fixed(id) || FindNode(nodes, id).None? ==> r == nodes
    ensures !Fixed(id) && FindNode(nodes, id).Some? ==>
      r == ShiftForDelete(WithoutNode(nodes, id), FindNode(nodes, id).value.position.y)
    ensures forall n :: n in r ==> n.id != id || Fixed(id) || FindNode(nodes, id).None?
  {
    if Fixed(id) then nodes
    else
      match FindNode(nodes, id)
      case None => nodes
      case Some(doomed) =>
        var rest := WithoutNode(nodes, doomed.id);
        var r := ShiftForDelete(rest, doomed.position.y);
        assert forall n :: n in r ==> n.id != id by {
          forall n | n in r ensures n.id != id {
            var i :| 0 <= i < |r| && r[i] == n;
            assert rest[i] in rest;
          }
        }
        r
  }

  /** The edge joining the deleted node's only parent to its only child, when it has exactly one of each. */
  function Reconnection(edges: seq<FlowEdge>, id: string): (r: Option<FlowEdge>)
    ensures r.Some? <==> |Filter(edges, Entering(id))| == 1 && |Filter(edges, Leaving(id))| == 1
    ensures r.Some? ==>
      var p := Filter(edges, Entering(id))[0].source;
      var c := Filter(edges, Leaving(id))[0].target;
      r.value == FlowEdge("e-" + p + "-" + c, p, c, EdgeKind)
  {
    var incoming := Filter(edges, Entering(id));
    var outgoing := Filter(edges, Leaving(id));
    if |incoming| == 1 && |outgoing| == 1 then
      Some(FlowEdge("e-" + incoming[0].source + "-" + outgoing[0].target, incoming[0].source, outgoing[0].target, EdgeKind))
    else None
  }

  /**
   * `handleDeleteNodeById`'s edge update: every edge touching the node goes,
   * and a node with exactly one parent and one child has them joined by a
   * new last edge. This runs whether or not the node is on the canvas.
   */
  function DeleteEdges(edges: seq<FlowEdge>, id: string): (r: seq<FlowEdge>)
    ensures Fixed(id) ==> r == edges
    ensures !Fixed(id) ==>
      r == Filter(edges, Apart(id)) + (if Reconnection(edges, id).Some? then [Reconnection(edges, id).value] else [])
  {
    if Fixed(id) then edges
    else
      var kept := Filter(edges, Apart(id));
      match Reconnection(edges, id)
      case Some(e) => kept + [e]
      case None => kept
  }

  /**
   * `handleDeleteNodeById(id)` as the source writes it: start and end are
   * refused, and otherwise no node with the id is left.
   */
  function DeleteNode(nodes: seq<FlowNode>, edges: seq<FlowEdge>, id: string): (r: Edit)
    ensures Fixed(id) ==> r == Edit(nodes, edges, None)
    ensures FindNode(nodes, id).None? ==> r.nodes == nodes
    ensures !Fixed(id) ==> forall n :: n in r.nodes ==> n.id != id
  {
    Edit(DeleteNodesAsWritten(nodes, id), DeleteEdges(edges, id), None)
  }

  /** `handleDeleteNodeById(id)` with the corrected shift, which keeps start and end in place. */
  function DeleteNodeCorrected(nodes: seq<FlowNode>, edges: seq<FlowEdge>, id: string): (r: Edit)
    ensures Fixed(id) ==> r == Edit(nodes, edges, None)
    ensures FindNode(nodes, id).None? ==> r.nodes == nodes
    ensures !Fixed(id) ==> forall n :: n in r.nodes ==> n.id != id
  {
    Edit(DeleteNodes(nodes, id), DeleteEdges(edges, id), None)
  }

  /** Both deletions differ only in the node list, and agree on every node that is neither start nor end. */
  lemma DeletionsAgreeOffFixed(nodes: seq<FlowNode>, edges: seq<FlowEdge>, id: string)
    ensures DeleteNode(nodes, edges, id).edges == DeleteNodeCorrected(nodes, edges, id).edges
    ensures |DeleteNode(nodes, edges, id).nodes| == |DeleteNodeCorrected(nodes, edges, id).nodes|
    ensures forall i :: 0 <= i < |DeleteNode(nodes, edges, id).nodes| && !Fixed(DeleteNode(nodes, edges, id).nodes[i].id)
              ==> DeleteNode(nodes, edges, id).nodes[i] == DeleteNodeCorrected(nodes, edges, id).nodes[i]
  {
  }

  /** The start and end nodes are never deleted, and an unknown id leaves the nodes alone, in both versions. */
  lemma DeleteKeepsFixedNodes(nodes: seq<FlowNode>, edges: seq<FlowEdge>, id: string)
    ensures Fixed(id) ==> DeleteNode(nodes, edges, id) == Edit(nodes, edges, None)
    ensures Fixed(id) ==> DeleteNodeCorrected(nodes, edges, id) == Edit(nodes, edges, None)
    ensures FindNode(nodes, id).None? ==> DeleteNode(nodes, edges, id).nodes == nodes
    ensures FindNode(nodes, id).None? ==> DeleteNodeCorrected(nodes, edges, id).nodes == nodes
  {
  }

  /** After a deletion no remaining edge touches the node, except a reconnection that the node's own self-loop produces. */
  lemma DeleteDetachesNode(edges: seq<FlowEdge>, id: string)
    requires !Fixed(id)
    ensures forall e :: e in DeleteEdges(edges, id) && e.source == id ==> Filter(edges, Entering(id))[0].source == id
    ensures forall e :: e in DeleteEdges(edges, id) && e.target == id ==> Filter(edges, Leaving(id))[0].target == id
  {
  }

  // ------------------------------------------------------------------ round trip

  /** The node list is free of `id`, and so is every edge. */
  predicate FreshId(nodes: seq<FlowNode>, edges: seq<FlowEdge>, id: string) {
    && !Fixed(id)
    && (forall n :: n in nodes ==> n.id != id)
    && (forall e :: e in edges ==> e.source != id && e.target != id)
  }

  /** Moving down the nodes below `y` and then up again the ones below `y` gives back the list. */
  lemma ShiftsCancel(nodes: seq<FlowNode>, y: real)
    ensures ShiftForDelete(ShiftForInsert(nodes, y), y) == nodes
  {
    var down := ShiftForInsert(nodes, y);
    var back := ShiftForDelete(down, y);
    forall i | 0 <= i < |nodes| ensures back[i] == nodes[i] {
      if !Fixed(nodes[i].id) && nodes[i].position.y > y {
        assert down[i] == MovedBy(nodes[i], VerticalOffset);
      }
    }
  }

  /** Shifting keeps the ids, so a fresh id stays fresh. */
  lemma ShiftKeepsFresh(nodes: seq<FlowNode>, y: real, id: string)
    requires forall n :: n in nodes ==> n.id != id
    ensures forall m :: m in ShiftForInsert(nodes, y) ==> m.id != id
  {
    var down := ShiftForInsert(nodes, y);
    forall m | m in down ensures m.id != id {
      var i :| 0 <= i < |down| && down[i] == m;
      assert nodes[i] in nodes;
    }
  }

  /** After inserting a node with a fresh id, deletion finds that node and filtering it out leaves the shifted list. */
  lemma InsertedNodeIsFound(nodes: seq<FlowNode>, edges: seq<FlowEdge>, selected: FlowEdge, t: NodeType, newId: string)
    requires FreshId(nodes, edges, newId)
    requires FindNode(nodes, selected.source).Some? && FindNode(nodes, selected.target).Some?
    ensures var r := InsertNode(nodes, edges, Some(selected), t, newId);
            && FindNode(r.nodes, newId) == r.dialog
            && WithoutNode(r.nodes, newId) == ShiftForInsert(nodes, r.dialog.value.position.y)
  {
    var r := InsertNode(nodes, edges, Some(selected), t, newId);
    var n := r.dialog.value;
    var down := ShiftForInsert(nodes, n.position.y);
    ShiftKeepsFresh(nodes, n.position.y, newId);
    FindNodeFirst(down + [n], |down|);
    WithoutNodeAppend(down, n);
  }

  /** Inserting a node with a fresh id and deleting it again leaves the node list as it was. */
  lemma InsertThenDeleteRestoresNodes(nodes: seq<FlowNode>, edges: seq<FlowEdge>, selected: FlowEdge, t: NodeType, newId: string)
    requires FreshId(nodes, edges, newId)
    requires FindNode(nodes, selected.source).Some? && FindNode(nodes, selected.target).Some?
    ensures DeleteNodes(InsertNode(nodes, edges, Some(selected), t, newId).nodes, newId) == nodes
  {
    var r := InsertNode(nodes, edges, Some(selected), t, newId);
    InsertedNodeIsFound(nodes, edges, selected, t, newId);
    ShiftsCancel(nodes, r.dialog.value.position.y);
  }

  /** The detour's two edges, as the deletion of its middle node filters them. */
  lemma DetourEdges(a: FlowEdge, b: FlowEdge, id: string)
    requires a.target == id && a.source != id && b.source == id && b.target != id
    ensures Filter([a, b], Entering(id)) == [a] && Filter([a, b], Leaving(id)) == [b]
    ensures Filter([a, b], Apart(id)) == []
  {
    assert [a, b][1..] == [b] && [b][1..] == [];
  }

  /** The three filters of a deletion, on a detour appended to edges that do not touch its middle node. */
  lemma DetourFilters(rest: seq<FlowEdge>, a: FlowEdge, b: FlowEdge, id: string)
    requires forall x :: x in rest ==> x.source != id && x.target != id
    requires a.target == id && a.source != id && b.source == id && b.target != id
    ensures Filter(rest + [a, b], Entering(id)) == [a] && Filter(rest + [a, b], Leaving(id)) == [b]
    ensures Filter(rest + [a, b], Apart(id)) == rest
  {
    FilterConcat(rest, [a, b], Entering(id));
    FilterConcat(rest, [a, b], Leaving(id));
    FilterConcat(rest, [a, b], Apart(id));
    FilterKeepsNone(rest, Entering(id));
    FilterKeepsNone(rest, Leaving(id));
    FilterKeepsAll(rest, Apart(id));
    DetourEdges(a, b, id);
  }

  /**
   * Deleting the middle node of a two-edge detour appended to edges that do
   * not touch it removes the detour and appends the edge that bypasses it.
   */
  lemma DeleteUndoesDetour(rest: seq<FlowEdge>, a: FlowEdge, b: FlowEdge, id: string)
    requires !Fixed(id)
    requires forall x :: x in rest ==> x.source != id && x.target != id
    requires a.target == id && a.source != id && b.source == id && b.target != id
    ensures DeleteEdges(rest + [a, b], id) == rest + [FlowEdge("e-" + a.source + "-" + b.target, a.source, b.target, EdgeKind)]
  {
    DetourFilters(rest, a, b, id);
  }

  /** The pairs of a list are those of the list without its `i`-th edge, and that edge's pair. */
  lemma {:induction false} LinksRemove(edges: seq<FlowEdge>, i: nat)
    requires i < |edges|
    ensures Links(edges[..i] + edges[i + 1..]) + multiset{(edges[i].source, edges[i].target)} == Links(edges)
  {
    var rest := edges[..i] + edges[i + 1..];
    if i == 0 {
      assert rest == edges[1..];
    } else {
      var tail := edges[1..];
      LinksRemove(tail, i - 1);
      assert rest[0] == edges[0];
      assert rest[1..] == tail[..i - 1] + tail[i..];
    }
  }

  /** Removing the edge at `i` and appending one with the same endpoints keeps the (source, target) pairs. */
  lemma LinksMoveToEnd(edges: seq<FlowEdge>, i: nat, moved: FlowEdge)
    requires i < |edges| && moved.source == edges[i].source && moved.target == edges[i].target
    ensures Links(edges[..i] + edges[i + 1..] + [moved]) == Links(edges)
  {
    LinksConcat(edges[..i] + edges[i + 1..], [moved]);
    assert [moved][1..] == [];
    LinksRemove(edges, i);
  }

  /**
   * Inserting a node on an edge with a unique id and deleting the node again
   * leaves the other edges in order, followed by an edge with the split
   * edge's endpoints: the same (source, target) pairs as before.
   */
  lemma InsertThenDeleteRestoresLinks(nodes: seq<FlowNode>, edges: seq<FlowEdge>, i: nat, t: NodeType, newId: string)
    requires i < |edges|
    requires forall j :: 0 <= j < |edges| && j != i ==> edges[j].id != edges[i].id
    requires FreshId(nodes, edges, newId)
    requires FindNode(nodes, edges[i].source).Some? && FindNode(nodes, edges[i].target).Some?
    ensures var e := edges[i];
            var after := DeleteEdges(InsertNode(nodes, edges, Some(e), t, newId).edges, newId);
            && after == edges[..i] + edges[i + 1..] + [FlowEdge("e-" + e.source + "-" + e.target, e.source, e.target, EdgeKind)]
            && Links(after) == Links(edges)
  {
    var e := edges[i];
    var rest := edges[..i] + edges[i + 1..];
    SplitReplacesEdge(edges, i, newId);
    assert forall x :: x in rest ==> x in edges;
    DeleteUndoesDetour(rest, FlowEdge("e-" + e.source + "-" + newId, e.source, newId, EdgeKind),
                       FlowEdge("e-" + newId + "-" + e.target, newId, e.target, EdgeKind), newId);
    LinksMoveToEnd(edges, i, FlowEdge("e-" + e.source + "-" + e.target, e.source, e.target, EdgeKind));
  }

  /**
   * As the source writes it, the same round trip moves every start or end
   * node below the inserted one up by 100: insertion left them in place but
   * deletion moves them.
   */
  lemma InsertThenDeleteAsWrittenMovesFixed(nodes: seq<FlowNode>, edges: seq<FlowEdge>, selected: FlowEdge, t: NodeType,
                                            newId: string, k: nat)
    requires FreshId(nodes, edges, newId)
    requires FindNode(nodes, selected.source).Some? && FindNode(nodes, selected.target).Some?
    requires k < |nodes| && Fixed(nodes[k].id)
    requires nodes[k].position.y
           > Midpoint(FindNode(nodes, selected.source).value.position, FindNode(nodes, selected.target).value.position).y
    ensures var after := DeleteNodesAsWritten(InsertNode(nodes, edges, Some(selected), t, newId).nodes, newId);
            |after| == |nodes| && after[k] == MovedBy(nodes[k], -VerticalOffset) && after[k] != nodes[k]
  {
    var r := InsertNode(nodes, edges, Some(selected), t, newId);
    var y := r.dialog.value.position.y;
    InsertedNodeIsFound(nodes, edges, selected, t, newId);
    var down := ShiftForInsert(nodes, y);
    assert down[k] == nodes[k];
    assert DeleteNodesAsWritten(r.nodes, newId) == ShiftForDeleteAsWritten(down, y);
  }

  /** On a new workflow: inserting on the only edge and deleting the new node moves the end node from y = 600 to y = 500. */
  lemma EndNodeDriftsOnNewWorkflow(t: NodeType, newId: string)
    requires !Fixed(newId)
    ensures var after := DeleteNodesAsWritten(InsertNode(InitialNodes, InitialEdges, Some(InitialEdges[0]), t, newId).nodes, newId);
            |after| == 2 && after[1].position == Position(300.0, 500.0)
  {
    assert FindNode(InitialNodes, "start") == Some(InitialNodes[0]);
    assert FindNode(InitialNodes, "end") == Some(InitialNodes[1]);
    assert FreshId(InitialNodes, InitialEdges, newId);
    InsertThenDeleteAsWrittenMovesFixed(InitialNodes, InitialEdges, InitialEdges[0], t, newId, 1);
  }

  // ------------------------------------------------------------------ config save

  /** `handleSaveNodeConfig`: the node with the edited node's id takes its data; with nothing selected, nothing changes. */
  function SaveNodeConfig(nodes: seq<FlowNode>, selected: Option<FlowNode>): (r: seq<FlowNode>)
    ensures |r| == |nodes|
    ensures forall i :: 0 <= i < |nodes| ==>
      && r[i].id == nodes[i].id && r[i].kind == nodes[i].kind && r[i].position == nodes[i].position
      && r[i].data == (if selected.Some? && nodes[i].id == selected.value.id then selected.value.data else nodes[i].data)
  {
    if nodes == [] then []
    else
      [if selected.Some? && nodes[0].id == selected.value.id then nodes[0].(data := selected.value.data) else nodes[0]]
        + SaveNodeConfig(nodes[1..], selected)
  }

  /** Saving the same configuration twice is saving it once. */
  lemma SaveNodeConfigIdempotent(nodes: seq<FlowNode>, selected: Option<FlowNode>)
    ensures SaveNodeConfig(SaveNodeConfig(nodes, selected), selected) == SaveNodeConfig(nodes, selected)
  {
    var once := SaveNodeConfig(nodes, selected);
    var twice := SaveNodeConfig(once, selected);
    assert forall i :: 0 <= i < |nodes| ==> twice[i] == once[i];
  }

  /** After a save, looking up the edited node finds the saved data. */
  lemma {:induction false} SaveThenFind(nodes: seq<FlowNode>, edited: FlowNode)
    requires FindNode(nodes, edited.id).Some?
    ensures FindNode(SaveNodeConfig(nodes, Some(edited)), edited.id)
         == Some(FindNode(nodes, edited.id).value.(data := edited.data))
  {
    if nodes[0].id != edited.id {
      SaveThenFind(nodes[1..], edited);
    }
  }
}
