/**
 * What every run of `executeWorkflow` keeps true of its state: one ledger
 * record per visited node, in first-visit order, each holding the latest
 * outcome of its node and one timestamp per visit; the outcome map keyed by
 * exactly the recorded ids; and the status that follows from both.
 */
module Ledger {
  import opened Wrappers
  import opened Values
  import opened Executors
  import opened History
  import opened Traversal

  // ------------------------------------------------------ facts about records

  /** The number of timestamps in the whole ledger. */
  function Stamps(ledger: seq<NodeRecord>): nat {
    if ledger == [] then 0 else Stamps(ledger[..|ledger| - 1]) + |ledger[|ledger| - 1].timestamps|
  }

  /** The timestamps recorded for `id` so far (none for an id without a record). */
  function TimesOf(ledger: seq<NodeRecord>, id: string): seq<string> {
    match FindRecord(ledger, id)
    case Some(i) => ledger[i].timestamps
    case None => []
  }

  /** A record carries the outcome's `success`, `data` and `error`. */
  predicate Mirrors(r: NodeRecord, out: Outcome) {
    r.success == out.success && r.data == out.data && r.error == out.error
  }

  /** Replacing one record changes the timestamp total by the difference. */
  lemma {:induction false} StampsUpdate(ledger: seq<NodeRecord>, i: nat, r: NodeRecord)
    requires i < |ledger|
    ensures Stamps(ledger[i := r]) + |ledger[i].timestamps| == Stamps(ledger) + |r.timestamps|
  {
    var n := |ledger|;
    var l2 := ledger[i := r];
    if i == n - 1 {
      assert l2[..n - 1] == ledger[..n - 1];
    } else {
      assert l2[..n - 1] == ledger[..n - 1][i := r];
      StampsUpdate(ledger[..n - 1], i, r);
    }
  }

  /** Appending a record adds its timestamps to the total. */
  lemma StampsAppend(ledger: seq<NodeRecord>, r: NodeRecord)
    ensures Stamps(ledger + [r]) == Stamps(ledger) + |r.timestamps|
  {
    assert (ledger + [r])[..|ledger|] == ledger;
  }

  // ---------------------------------------------------------- the invariant

  /** The ids that have a record. */
  function RecordedIds(ledger: seq<NodeRecord>): set<string> {
    set i | 0 <= i < |ledger| :: ledger[i].nodeId
  }

  /** No two records share an id. */
  predicate UniqueIds(ledger: seq<NodeRecord>) {
    forall i, j :: 0 <= i < j < |ledger| ==> ledger[i].nodeId != ledger[j].nodeId
  }

  /** Every record carries the latest outcome of its node. */
  predicate Latest(results: map<string, Outcome>, ledger: seq<NodeRecord>) {
    forall i :: 0 <= i < |ledger| ==> ledger[i].nodeId in results && Mirrors(ledger[i], results[ledger[i].nodeId])
  }

  /** Every record belongs to a node of the graph, has its type and at least one timestamp. */
  predicate OfGraph(g: Graph, ledger: seq<NodeRecord>) {
    forall i :: 0 <= i < |ledger| ==>
      && ledger[i].nodeId in g.nodeMap
      && ledger[i].kind == g.nodeMap[ledger[i].nodeId].kind
      && |ledger[i].timestamps| >= 1
  }

  /**
   * The run's state as `executeWorkflow` keeps it: every record is the only
   * one with its id, the outcome map has a key exactly for each recorded
   * id, each record carries that id's latest outcome, each record belongs to
   * a node of the graph and has its type, and there is one timestamp per visit.
   */
  predicate Consistent(g: Graph, s: RunState) {
    && UniqueIds(s.ledger)
    && s.results.Keys == RecordedIds(s.ledger)
    && Latest(s.results, s.ledger)
    && OfGraph(g, s.ledger)
    && Stamps(s.ledger) == s.visits
  }

  /** The invariant, one conjunct at a time. */
  lemma ConsistentOf(g: Graph, s: RunState)
    requires UniqueIds(s.ledger) && s.results.Keys == RecordedIds(s.ledger)
    requires Latest(s.results, s.ledger) && OfGraph(g, s.ledger) && Stamps(s.ledger) == s.visits
    ensures Consistent(g, s)
  {
  }

  /** The empty state is consistent. */
  lemma InitConsistent(g: Graph)
    ensures Consistent(g, Init)
  {
  }

  /** Replacing a record by one with the same id and type keeps the ids, their uniqueness and their nodes. */
  lemma RevisitLedger(g: Graph, l: seq<NodeRecord>, i: nat, r: NodeRecord)
    requires i < |l| && r.nodeId == l[i].nodeId && r.kind == l[i].kind && |r.timestamps| >= 1
    ensures RecordedIds(l[i := r]) == RecordedIds(l)
    ensures UniqueIds(l) ==> UniqueIds(l[i := r])
    ensures OfGraph(g, l) ==> OfGraph(g, l[i := r])
  {
    var l2 := l[i := r];
    forall x | x in RecordedIds(l) ensures x in RecordedIds(l2) {
      var j :| 0 <= j < |l| && l[j].nodeId == x;
      assert l2[j].nodeId == x;
    }
    assert forall j :: 0 <= j < |l| ==> l2[j].nodeId == l[j].nodeId && l2[j].kind == l[j].kind;
  }

  /** The revisited record takes the new outcome; the others keep theirs. */
  lemma RevisitLatest(res: map<string, Outcome>, l: seq<NodeRecord>, i: nat, r: NodeRecord, out: Outcome)
    requires i < |l| && r.nodeId == l[i].nodeId && Mirrors(r, out)
    requires UniqueIds(l) && Latest(res, l)
    ensures Latest(res[r.nodeId := out], l[i := r])
  {
    var l2 := l[i := r];
    var res2 := res[r.nodeId := out];
    forall j | 0 <= j < |l2| ensures l2[j].nodeId in res2 && Mirrors(l2[j], res2[l2[j].nodeId]) {
      if j != i {
        assert l[j].nodeId != l[i].nodeId;
      }
    }
  }

  /** Appending a record with a new id of a node of the graph. */
  lemma FirstVisitLedger(g: Graph, l: seq<NodeRecord>, r: NodeRecord)
    requires forall j :: 0 <= j < |l| ==> l[j].nodeId != r.nodeId
    requires r.nodeId in g.nodeMap && r.kind == g.nodeMap[r.nodeId].kind && |r.timestamps| >= 1
    ensures RecordedIds(l + [r]) == RecordedIds(l) + {r.nodeId}
    ensures UniqueIds(l) ==> UniqueIds(l + [r])
    ensures OfGraph(g, l) ==> OfGraph(g, l + [r])
  {
    var l2 := l + [r];
    assert l2[|l|] == r;
    forall x | x in RecordedIds(l) ensures x in RecordedIds(l2) {
      var j :| 0 <= j < |l| && l[j].nodeId == x;
      assert l2[j].nodeId == x;
    }
    assert forall j :: 0 <= j < |l| ==> l2[j] == l[j];
  }

  /** The new record takes the outcome; the others keep theirs. */
  lemma FirstVisitLatest(res: map<string, Outcome>, l: seq<NodeRecord>, r: NodeRecord, out: Outcome)
    requires forall j :: 0 <= j < |l| ==> l[j].nodeId != r.nodeId
    requires Mirrors(r, out) && Latest(res, l)
    ensures Latest(res[r.nodeId := out], l + [r])
  {
    var l2 := l + [r];
    var res2 := res[r.nodeId := out];
    forall j | 0 <= j < |l2| ensures l2[j].nodeId in res2 && Mirrors(l2[j], res2[l2[j].nodeId]) {
      if j < |l| {
        assert l2[j] == l[j];
      }
    }
  }

  /** Recording another visit of a node that already has a record. */
  lemma ApplyRevisit(g: Graph, s: RunState, ev: Event, i: nat)
    requires Consistent(g, s)
    requires FindRecord(s.ledger, ev.nodeId) == Some(i)
    ensures Consistent(g, Apply(s, ev))
  {
    var l := s.ledger;
    var r := l[i].(timestamps := l[i].timestamps + [ev.time],
                   success := ev.outcome.success, data := ev.outcome.data, error := ev.outcome.error);
    var res := s.results[ev.nodeId := ev.outcome];
    assert Apply(s, ev) == RunState(res, l[i := r], s.visits + 1);
    RevisitLedger(g, l, i, r);
    RevisitLatest(s.results, l, i, r, ev.outcome);
    StampsUpdate(l, i, r);
    assert res.Keys == s.results.Keys;
    ConsistentOf(g, RunState(res, l[i := r], s.visits + 1));
  }

  /** Recording the first visit of a node. */
  lemma ApplyFirstVisit(g: Graph, s: RunState, ev: Event)
    requires Consistent(g, s)
    requires ev.nodeId in g.nodeMap && ev.kind == g.nodeMap[ev.nodeId].kind
    requires FindRecord(s.ledger, ev.nodeId).None?
    ensures Consistent(g, Apply(s, ev))
  {
    var l := s.ledger;
    var r := NodeRecord(ev.nodeId, ev.kind, ev.outcome.success, [ev.time], ev.outcome.data, ev.outcome.error);
    var res := s.results[ev.nodeId := ev.outcome];
    assert Apply(s, ev) == RunState(res, l + [r], s.visits + 1);
    assert forall j :: 0 <= j < |l| ==> l[j].nodeId != r.nodeId;
    FirstVisitLedger(g, l, r);
    FirstVisitLatest(s.results, l, r, ev.outcome);
    StampsAppend(l, r);
    assert res.Keys == s.results.Keys + {ev.nodeId};
    ConsistentOf(g, RunState(res, l + [r], s.visits + 1));
  }

  /** Recording a visit of a node of the graph keeps the state consistent. */
  lemma ApplyConsistent(g: Graph, s: RunState, ev: Event)
    requires Consistent(g, s)
    requires ev.nodeId in g.nodeMap && ev.kind == g.nodeMap[ev.nodeId].kind
    ensures Consistent(g, Apply(s, ev))
  {
    match FindRecord(s.ledger, ev.nodeId)
    case Some(i) => ApplyRevisit(g, s, ev, i);
    case None => ApplyFirstVisit(g, s, ev);
  }

  /** A visit keeps the state consistent. */
  lemma {:induction false} VisitConsistent(g: Graph, o: Oracle, rank: string -> nat, s: RunState, id: string, parentData: Value)
    requires Ranked(g, rank) && Consistent(g, s)
    ensures Consistent(g, VisitState(g, o, rank, s, id, parentData))
    decreases Measure(g, rank, id), 1, 0
  {
    if id in g.nodeMap {
      var ev := VisitEvent(g, o, id, parentData, s.visits);
      ApplyConsistent(g, s, ev);
      ChildrenMeasure(g, rank, id);
      ChildrenConsistent(g, o, rank, Apply(s, ev), id, ChildrenOf(g.edges, id), ev.outcome.data);
    }
  }

  /** Visiting a list of children keeps the state consistent. */
  lemma {:induction false} ChildrenConsistent(g: Graph, o: Oracle, rank: string -> nat, s: RunState, parent: string,
                                              kids: seq<string>, data: Value)
    requires Ranked(g, rank) && Consistent(g, s)
    requires forall c :: c in kids ==> Measure(g, rank, c) < Measure(g, rank, parent)
    ensures Consistent(g, ChildrenState(g, o, rank, s, parent, kids, data))
    decreases Measure(g, rank, parent), 0, |kids|
  {
    if kids != [] {
      var init := kids[..|kids| - 1];
      var last := kids[|kids| - 1];
      assert forall c :: c in init ==> c in kids;
      assert last in kids;
      ChildrenConsistent(g, o, rank, s, parent, init, data);
      VisitConsistent(g, o, rank, ChildrenState(g, o, rank, s, parent, init, data), last, data);
    }
  }

  /** Visiting a list of roots keeps the state consistent. */
  lemma {:induction false} RootsConsistent(g: Graph, o: Oracle, rank: string -> nat, s: RunState, roots: seq<string>)
    requires Ranked(g, rank) && Consistent(g, s)
    ensures Consistent(g, RootsState(g, o, rank, s, roots))
    decreases |roots|
  {
    if roots != [] {
      var init := roots[..|roots| - 1];
      RootsConsistent(g, o, rank, s, init);
      VisitConsistent(g, o, rank, RootsState(g, o, rank, s, init), roots[|roots| - 1], Undefined);
    }
  }

  /** In a consistent state the status is 'completed' iff every latest outcome succeeded. */
  lemma StatusOfConsistent(g: Graph, s: RunState)
    requires Consistent(g, s)
    ensures StatusOf(s.ledger) == Completed <==> forall id :: id in s.results ==> s.results[id].success
  {
    if forall id :: id in s.results ==> s.results[id].success {
      forall i | 0 <= i < |s.ledger| ensures s.ledger[i].success {
        assert s.ledger[i].nodeId in s.results;
      }
    } else {
      var id :| id in s.results && !s.results[id].success;
      var i := FindRecord(s.ledger, id).value;
      assert !s.ledger[i].success;
    }
  }

  /** A visit appends one timestamp to its node's timestamps, or starts them; every other node's stay. */
  lemma AbsorbTimes(l: seq<NodeRecord>, ev: Event, id: string)
    requires UniqueIds(l)
    ensures TimesOf(Absorb(l, ev), id) == TimesOf(l, id) + (if id == ev.nodeId then [ev.time] else [])
  {
    var l2 := Absorb(l, ev);
    var here := FindRecord(l, id);
    if FindRecord(l, ev.nodeId).Some? {
      var i := FindRecord(l, ev.nodeId).value;
      assert |l2| == |l| && forall j :: 0 <= j < |l| ==> l2[j].nodeId == l[j].nodeId;
      if here.Some? {
        assert l2[here.value].nodeId == id;
        assert FindRecord(l2, id) == here;
        assert id == ev.nodeId ==> i == here.value;
      } else {
        assert FindRecord(l2, id).None?;
      }
    } else {
      var r := NodeRecord(ev.nodeId, ev.kind, ev.outcome.success, [ev.time], ev.outcome.data, ev.outcome.error);
      assert l2 == l + [r];
      assert forall j :: 0 <= j < |l| ==> l2[j] == l[j];
      if here.Some? {
        assert l2[here.value].nodeId == id;
        assert FindRecord(l2, id) == here;
      } else if id == ev.nodeId {
        assert l2[|l|].nodeId == id;
        assert FindRecord(l2, id) == Some(|l|);
      } else {
        assert FindRecord(l2, id).None?;
      }
    }
  }

  // -------------------------------------------------------------- growth

  /**
   * `t` grew from `s`: the records of `s` keep their places, ids and types
   * (new ids only join at the end, so the ledger is in first-visit order),
   * their timestamps only get more entries, no outcome disappears from the
   * map, and no visit is undone.
   */
  ghost predicate Extends(s: RunState, t: RunState) {
    && |s.ledger| <= |t.ledger|
    && (forall i :: 0 <= i < |s.ledger| ==>
          && t.ledger[i].nodeId == s.ledger[i].nodeId
          && t.ledger[i].kind == s.ledger[i].kind
          && s.ledger[i].timestamps <= t.ledger[i].timestamps)
    && s.results.Keys <= t.results.Keys
    && s.visits <= t.visits
  }

  lemma ExtendsTransitive(a: RunState, b: RunState, c: RunState)
    requires Extends(a, b) && Extends(b, c)
    ensures Extends(a, c)
  {
    forall i | 0 <= i < |a.ledger| ensures a.ledger[i].timestamps <= c.ledger[i].timestamps {
      assert b.ledger[i].timestamps <= c.ledger[i].timestamps;
    }
  }

  /** One recorded visit extends the state by exactly one visit and keeps the visited node's outcome. */
  lemma ApplyExtends(s: RunState, ev: Event)
    ensures Extends(s, Apply(s, ev))
    ensures Apply(s, ev).visits == s.visits + 1
    ensures Apply(s, ev).results[ev.nodeId] == ev.outcome
  {
    var l := s.ledger;
    match FindRecord(l, ev.nodeId)
    case Some(i) =>
      var r := l[i].(timestamps := l[i].timestamps + [ev.time],
                     success := ev.outcome.success, data := ev.outcome.data, error := ev.outcome.error);
      assert Absorb(l, ev) == l[i := r];
      assert l[i].timestamps <= r.timestamps;
    case None =>
      var r := NodeRecord(ev.nodeId, ev.kind, ev.outcome.success, [ev.time], ev.outcome.data, ev.outcome.error);
      assert Absorb(l, ev) == l + [r];
  }

  /** A visit only extends the state. */
  lemma {:induction false} VisitExtends(g: Graph, o: Oracle, rank: string -> nat, s: RunState, id: string, parentData: Value)
    requires Ranked(g, rank)
    ensures Extends(s, VisitState(g, o, rank, s, id, parentData))
    decreases Measure(g, rank, id), 1, 0
  {
    if id in g.nodeMap {
      var ev := VisitEvent(g, o, id, parentData, s.visits);
      ApplyExtends(s, ev);
      ChildrenMeasure(g, rank, id);
      ChildrenExtends(g, o, rank, Apply(s, ev), id, ChildrenOf(g.edges, id), ev.outcome.data);
      ExtendsTransitive(s, Apply(s, ev), VisitState(g, o, rank, s, id, parentData));
    }
  }

  /** Visiting a list of children only extends the state. */
  lemma {:induction false} ChildrenExtends(g: Graph, o: Oracle, rank: string -> nat, s: RunState, parent: string,
                                           kids: seq<string>, data: Value)
    requires Ranked(g, rank)
    requires forall c :: c in kids ==> Measure(g, rank, c) < Measure(g, rank, parent)
    ensures Extends(s, ChildrenState(g, o, rank, s, parent, kids, data))
    decreases Measure(g, rank, parent), 0, |kids|
  {
    if kids != [] {
      var init := kids[..|kids| - 1];
      var last := kids[|kids| - 1];
      assert forall c :: c in init ==> c in kids;
      assert last in kids;
      var mid := ChildrenState(g, o, rank, s, parent, init, data);
      ChildrenExtends(g, o, rank, s, parent, init, data);
      VisitExtends(g, o, rank, mid, last, data);
      ExtendsTransitive(s, mid, VisitState(g, o, rank, mid, last, data));
    }
  }

  /** Visiting a list of roots only extends the state. */
  lemma {:induction false} RootsExtends(g: Graph, o: Oracle, rank: string -> nat, s: RunState, roots: seq<string>)
    requires Ranked(g, rank)
    ensures Extends(s, RootsState(g, o, rank, s, roots))
    decreases |roots|
  {
    if roots != [] {
      var init := roots[..|roots| - 1];
      var mid := RootsState(g, o, rank, s, init);
      RootsExtends(g, o, rank, s, init);
      VisitExtends(g, o, rank, mid, roots[|roots| - 1], Undefined);
      ExtendsTransitive(s, mid, VisitState(g, o, rank, mid, roots[|roots| - 1], Undefined));
    }
  }

  /** One step of the loop over the roots: the last root is visited with no parent data. */
  lemma RootsStep(g: Graph, o: Oracle, rank: string -> nat, s: RunState, roots: seq<string>)
    requires Ranked(g, rank) && roots != []
    ensures RootsState(g, o, rank, s, roots)
         == VisitState(g, o, rank, RootsState(g, o, rank, s, roots[..|roots| - 1]), roots[|roots| - 1], Undefined)
  {
  }

  /** One step of the loop over the children: the last child is visited with the parent's data. */
  lemma ChildrenStep(g: Graph, o: Oracle, rank: string -> nat, s: RunState, parent: string, kids: seq<string>, data: Value)
    requires Ranked(g, rank) && kids != []
    requires forall c :: c in kids ==> Measure(g, rank, c) < Measure(g, rank, parent)
    ensures forall c :: c in kids[..|kids| - 1] ==> Measure(g, rank, c) < Measure(g, rank, parent)
    ensures ChildrenState(g, o, rank, s, parent, kids, data)
         == VisitState(g, o, rank, ChildrenState(g, o, rank, s, parent, kids[..|kids| - 1], data), kids[|kids| - 1], data)
  {
    assert forall c :: c in kids[..|kids| - 1] ==> c in kids;
  }

  /**
   * A visit of a node runs it on the parent data, records the outcome and
   * then visits its children in edge order, each on this node's `result.data`.
   */
  lemma VisitStep(g: Graph, o: Oracle, rank: string -> nat, s: RunState, id: string, parentData: Value)
    requires Ranked(g, rank) && id in g.nodeMap
    ensures forall c :: c in ChildrenOf(g.edges, id) ==> Measure(g, rank, c) < Measure(g, rank, id)
    ensures var ev := VisitEvent(g, o, id, parentData, s.visits);
            VisitState(g, o, rank, s, id, parentData)
            == ChildrenState(g, o, rank, Apply(s, ev), id, ChildrenOf(g.edges, id), ev.outcome.data)
  {
    ChildrenMeasure(g, rank, id);
  }

  /** A node without children: the visit is the one recorded event. */
  lemma VisitLeaf(g: Graph, o: Oracle, rank: string -> nat, s: RunState, id: string, parentData: Value)
    requires Ranked(g, rank) && id in g.nodeMap && ChildrenOf(g.edges, id) == []
    ensures VisitState(g, o, rank, s, id, parentData) == Apply(s, VisitEvent(g, o, id, parentData, s.visits))
  {
  }

  /** Visiting an id that is not a node changes nothing: no record, no outcome, no visit. */
  lemma UnknownIdSkipped(g: Graph, o: Oracle, rank: string -> nat, s: RunState, id: string, parentData: Value)
    requires Ranked(g, rank) && id !in g.nodeMap
    ensures VisitState(g, o, rank, s, id, parentData) == s
  {
  }

  // --------------------------------------------------------- a whole run

  /** The state at the end of a run is consistent. */
  lemma FinalStateConsistent(nodes: seq<Node>, edges: seq<Edge>, w: World, rank: string -> nat)
    requires Ranked(GraphOf(nodes, edges), rank)
    ensures Consistent(GraphOf(nodes, edges), FinalState(nodes, edges, w, rank))
  {
    var g := GraphOf(nodes, edges);
    InitConsistent(g);
    RootsConsistent(g, OracleOf(w), rank, Init, Ids(Roots(nodes, edges)));
  }

  /**
   * The stored execution: its id, workflow id and times are the run's, its
   * results are the final ledger, and its status is 'completed' exactly
   * when every node's latest outcome in the returned map succeeded.
   */
  lemma RunExecutionStatus(workflowId: string, nodes: seq<Node>, edges: seq<Edge>, w: World, rank: string -> nat)
    requires Ranked(GraphOf(nodes, edges), rank)
    ensures var e := RunExecution(workflowId, nodes, edges, w, rank);
            var f := FinalState(nodes, edges, w, rank);
            && e.executionId == w.executionId && e.workflowId == workflowId
            && e.startTime == w.startTime && e.endTime == w.endTime
            && e.results == f.ledger
            && (e.status == Completed <==> forall id :: id in f.results ==> f.results[id].success)
  {
    FinalStateConsistent(nodes, edges, w, rank);
    StatusOfConsistent(GraphOf(nodes, edges), FinalState(nodes, edges, w, rank));
  }

  // ------------------------------------------------------- visit counting

  /** The number of paths from `source` to `id` that the walk follows (the empty path when they are equal). */
  function PathCount(g: Graph, rank: string -> nat, source: string, id: string): nat
    requires Ranked(g, rank)
    decreases Measure(g, rank, source), 1, 0
  {
    if source !in g.nodeMap then 0
    else
      ChildrenMeasure(g, rank, source);
      (if source == id then 1 else 0) + PathsVia(g, rank, source, ChildrenOf(g.edges, source), id)
  }

  /** The number of such paths that start at one of `kids`. */
  function PathsVia(g: Graph, rank: string -> nat, parent: string, kids: seq<string>, id: string): nat
    requires Ranked(g, rank)
    requires forall c :: c in kids ==> Measure(g, rank, c) < Measure(g, rank, parent)
    decreases Measure(g, rank, parent), 0, |kids|
  {
    if kids == [] then 0
    else PathsVia(g, rank, parent, kids[..|kids| - 1], id) + PathCount(g, rank, kids[|kids| - 1], id)
  }

  /** The number of such paths that start at one of `roots`. */
  function PathsFromRoots(g: Graph, rank: string -> nat, roots: seq<string>, id: string): nat
    requires Ranked(g, rank)
  {
    if roots == [] then 0
    else PathsFromRoots(g, rank, roots[..|roots| - 1], id) + PathCount(g, rank, roots[|roots| - 1], id)
  }

  /**
   * A visit of `source` adds to `id`'s record one timestamp per path from
   * `source` to `id`: a node with several parents is run, and stamped,
   * once for each way the walk reaches it.
   */
  lemma {:induction false} VisitCounts(g: Graph, o: Oracle, rank: string -> nat, s: RunState, source: string,
                                       parentData: Value, id: string)
    requires Ranked(g, rank) && Consistent(g, s)
    ensures |TimesOf(VisitState(g, o, rank, s, source, parentData).ledger, id)|
         == |TimesOf(s.ledger, id)| + PathCount(g, rank, source, id)
    decreases Measure(g, rank, source), 1, 0
  {
    if source in g.nodeMap {
      var ev := VisitEvent(g, o, source, parentData, s.visits);
      AbsorbTimes(s.ledger, ev, id);
      ApplyConsistent(g, s, ev);
      ChildrenMeasure(g, rank, source);
      ChildrenCounts(g, o, rank, Apply(s, ev), source, ChildrenOf(g.edges, source), ev.outcome.data, id);
    }
  }

  /** The loop over `kids` adds one timestamp per path from one of them. */
  lemma {:induction false} ChildrenCounts(g: Graph, o: Oracle, rank: string -> nat, s: RunState, parent: string,
                                          kids: seq<string>, data: Value, id: string)
    requires Ranked(g, rank) && Consistent(g, s)
    requires forall c :: c in kids ==> Measure(g, rank, c) < Measure(g, rank, parent)
    ensures |TimesOf(ChildrenState(g, o, rank, s, parent, kids, data).ledger, id)|
         == |TimesOf(s.ledger, id)| + PathsVia(g, rank, parent, kids, id)
    decreases Measure(g, rank, parent), 0, |kids|
  {
    if kids != [] {
      var init := kids[..|kids| - 1];
      var last := kids[|kids| - 1];
      assert forall c :: c in init ==> c in kids;
      assert last in kids;
      ChildrenCounts(g, o, rank, s, parent, init, data, id);
      ChildrenConsistent(g, o, rank, s, parent, init, data);
      VisitCounts(g, o, rank, ChildrenState(g, o, rank, s, parent, init, data), last, data, id);
    }
  }

  /** The loop over the roots adds one timestamp per path from one of them. */
  lemma {:induction false} RootsCounts(g: Graph, o: Oracle, rank: string -> nat, s: RunState, roots: seq<string>, id: string)
    requires Ranked(g, rank) && Consistent(g, s)
    ensures |TimesOf(RootsState(g, o, rank, s, roots).ledger, id)| == |TimesOf(s.ledger, id)| + PathsFromRoots(g, rank, roots, id)
    decreases |roots|
  {
    if roots != [] {
      var init := roots[..|roots| - 1];
      RootsCounts(g, o, rank, s, init, id);
      RootsConsistent(g, o, rank, s, init);
      VisitCounts(g, o, rank, RootsState(g, o, rank, s, init), roots[|roots| - 1], Undefined, id);
    }
  }

  /** In the stored execution each node has one timestamp per path from a root to it. */
  lemma FinalTimestamps(nodes: seq<Node>, edges: seq<Edge>, w: World, rank: string -> nat, id: string)
    requires Ranked(GraphOf(nodes, edges), rank)
    ensures |TimesOf(FinalState(nodes, edges, w, rank).ledger, id)|
         == PathsFromRoots(GraphOf(nodes, edges), rank, Ids(Roots(nodes, edges)), id)
  {
    var g := GraphOf(nodes, edges);
    InitConsistent(g);
    RootsCounts(g, OracleOf(w), rank, Init, Ids(Roots(nodes, edges)), id);
  }
}
