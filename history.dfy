/**
 * The execution history store: per workflow id, the runs newest first,
 * at most 50 of them. The store's record of executions is the field that
 * `addExecution` and `clearExecutions` replace.
 */
module History {
  import opened Wrappers
  import opened Values

  /** One node's summary within one run; `timestamps` has one entry per visit. */
  datatype NodeRecord = NodeRecord(
    nodeId: string,
    kind: string,
    success: bool,
    timestamps: seq<string>,
    data: Value,
    error: Option<string>)

  datatype Status = Completed | Failed

  /** One full run of a workflow. */
  datatype Execution = Execution(
    executionId: string,
    workflowId: string,
    startTime: string,
    endTime: string,
    status: Status,
    results: seq<NodeRecord>)

  /** How many executions are kept per workflow. */
  const MaxExecutions: nat := 50

  function Min(a: nat, b: nat): nat {
    if a < b then a else b
  }

  /** `[execution, ...list].slice(0, 50)`. */
  function Prepend(e: Execution, list: seq<Execution>): (r: seq<Execution>)
    ensures |r| == Min(|list| + 1, MaxExecutions)
    ensures r[0] == e
    ensures r[1..] == list[..|r| - 1]
  {
    ([e] + list)[..Min(|list| + 1, MaxExecutions)]
  }

  /** The list after `addExecution` was called with each of `es` in turn. */
  function AddAll(list: seq<Execution>, es: seq<Execution>): seq<Execution>
    decreases |es|
  {
    if es == [] then list else AddAll(Prepend(es[0], list), es[1..])
  }

  function Reverse(s: seq<Execution>): (r: seq<Execution>)
    ensures |r| == |s|
  {
    if s == [] then [] else Reverse(s[1..]) + [s[0]]
  }

  lemma {:induction false} ReverseAt(s: seq<Execution>, i: nat)
    requires i < |s|
    ensures Reverse(s)[i] == s[|s| - 1 - i]
  {
    if i < |s| - 1 {
      ReverseAt(s[1..], i);
    }
  }

  /**
   * After a sequence of additions, the list holds the newest 50 executions,
   * newest first, followed by as much of the earlier list as still fits.
   */
  lemma {:induction false} AddAllKeepsNewest(list: seq<Execution>, es: seq<Execution>)
    requires |list| <= MaxExecutions
    ensures AddAll(list, es) == (Reverse(es) + list)[..Min(|es| + |list|, MaxExecutions)]
    decreases |es|
  {
    if es != [] {
      var p := Prepend(es[0], list);
      AddAllKeepsNewest(p, es[1..]);
      var n := Min(|es| + |list|, MaxExecutions);
      var lhs := (Reverse(es[1..]) + p)[..Min(|es[1..]| + |p|, MaxExecutions)];
      var rhs := (Reverse(es) + list)[..n];
      assert Reverse(es) == Reverse(es[1..]) + [es[0]];
      assert Reverse(es) + list == Reverse(es[1..]) + ([es[0]] + list);
      assert |lhs| == |rhs|;
      forall i | 0 <= i < |lhs| ensures lhs[i] == rhs[i] {
        if i < |es| - 1 {
        } else {
          assert p == ([es[0]] + list)[..|p|];
        }
      }
    }
  }

  /** Sixty runs of one workflow leave exactly the newest fifty, newest first. */
  lemma SixtyAdditions(es: seq<Execution>)
    requires |es| == 60
    ensures |AddAll([], es)| == 50
    ensures forall i :: 0 <= i < 50 ==> AddAll([], es)[i] == es[59 - i]
  {
    AddAllKeepsNewest([], es);
    forall i | 0 <= i < 50 ensures AddAll([], es)[i] == es[59 - i] {
      ReverseAt(es, i);
    }
  }

  /** The in-memory store of execution histories. */
  class ExecutionStore {
    var executions: map<string, seq<Execution>>

    /** No workflow's history ever holds more than 50 executions. */
    ghost predicate Valid()
      reads this
    {
      forall id :: id in executions ==> |executions[id]| <= MaxExecutions
    }

    constructor ()
      ensures Valid() && executions == map[]
    {
      executions := map[];
    }

    /** `getExecutions`: the list for `id`, or the empty list when `id` has none. */
    function GetExecutions(workflowId: string): (r: seq<Execution>)
      reads this
      ensures workflowId in executions ==> r == executions[workflowId]
      ensures workflowId !in executions ==> r == []
      ensures Valid() ==> |r| <= MaxExecutions
    {
      if workflowId in executions then executions[workflowId] else []
    }

    /** `addExecution`: prepend and keep the first 50; every other workflow is untouched. */
    method AddExecution(workflowId: string, e: Execution)
      requires Valid()
      modifies this
      ensures Valid()
      ensures executions == old(executions)[workflowId := Prepend(e, old(GetExecutions(workflowId)))]
      ensures GetExecutions(workflowId)[0] == e
      ensures GetExecutions(workflowId)[1..] == old(GetExecutions(workflowId))[..|GetExecutions(workflowId)| - 1]
      ensures forall id :: id != workflowId ==> GetExecutions(id) == old(GetExecutions(id))
    {
      executions := executions[workflowId := Prepend(e, GetExecutions(workflowId))];
    }

    /** `clearExecutions`: the list for `id` becomes empty; every other workflow is untouched. */
    method ClearExecutions(workflowId: string)
      requires Valid()
      modifies this
      ensures Valid()
      ensures executions == old(executions)[workflowId := []]
      ensures GetExecutions(workflowId) == []
      ensures forall id :: id != workflowId ==> GetExecutions(id) == old(GetExecutions(id))
    {
      executions := executions[workflowId := []];
    }
  }
}
