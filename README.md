# Workflow execution and workflow editing, modelled in Dafny

The modelled system is a browser-side workflow builder. A workflow is a list of
nodes (`start`, `end`, `text`, `email`, `api`) and a list of directed edges.
The model covers three parts of it:

- **Execution service** (`workflowExecutionService.ts`).
  - The per-kind executors and the `executeNode` switch are pure functions over a JavaScript value model (module `Values`).
  - `executeWorkflow` is imperative Dafny: a `BuildChildren` loop, a class `Run` whose fields are `results`, `nodeResults` (the *ledger*) and the visit count, a recursive `Visit`, and the root loop.
  - Each method is proved equal to a state-transformer function (module `Traversal`).
  - The promised properties are proved about that function (modules `Ledger` and `Scenarios`): roots, child order, data flow, unknown ids, one record per id, one timestamp per path, latest outcome, and status.
- **History store** (`workflowExecutionStore.ts`).
  - A class `ExecutionStore` with a `map<string, seq<Execution>>` field and the three store actions.
  - Prepend-and-truncate is capped at 50.
- **Graph editor** (`WorkflowCreate.tsx`, and `WorkflowEdit.tsx`, whose handlers are identical: `handleNodeSelect` at src/pages/WorkflowEdit.tsx:172-230 (src/pages/WorkflowCreate.tsx:149-213), `handleDeleteNodeById` at 233-268 (216-255) and `handleSaveNodeConfig` at 290-298 (278-286); the table cites the create page).
  - The editor edits are pure functions (module `Editor`): the initial graph, inserting a node on an edge, deleting a node with reconnection, and saving a node's configuration.
  - `NodeInsertionHandler.tsx` is a method with the edge-filter loop and the push, proved against those functions (module `Insertion`).

Side effects are parameters:

- **Clocks, transports and serialisation.**
  - A `World` supplies each visit `k` with a node clock, a ledger clock and the email and `fetch` transports.
  - It also supplies the execution id and the start and end times.
  - An `Io` record carries the environment, `JSON.stringify`, the pretty `JSON.stringify`, `URLSearchParams` (its text or the message of the TypeError it throws) and number formatting as uninterpreted functions.
- **Fresh node ids.** The editor's new uuid is an input.
- **Termination.** The engine does not check for cycles, so the model requires a ghost rank that decreases along every edge between existing nodes. This excludes every graph with a cycle among its nodes, including a cycle that no root reaches, on which the source does terminate.

## Model

| member | source | states |
|---|---|---|
| Values.Or | src/services/workflowExecutionService.ts:41-43 | `a \|\| b` is `a` when `a` is truthy and `b` otherwise, so it is truthy iff `a` or `b` is |
| Values.OwnEntries | src/services/workflowExecutionService.ts:106-109 | an object spread copies an object's fields, one entry per index of a string (its characters) or an array (its items) under the keys `0`, `1`, …, and nothing from any other value |
| Values.IndexEntries | src/services/workflowExecutionService.ts:106-109 | each item is stored under its own index key, and no other key appears |
| Values.Prop | src/services/workflowExecutionService.ts:36 | reading a property throws exactly on `null`/`undefined`, with the TypeError message; an absent key reads as `undefined` |
| Values.NatToString | src/services/workflowExecutionService.ts:73 | the decimal rendering of a natural is a non-empty string of digits, with a leading `0` only for zero |
| Values.NatToStringRoundTrip | src/services/workflowExecutionService.ts:73 | reading the digits back gives the number |
| Values.IntToString | src/services/workflowExecutionService.ts:73 | the rendering of the status is non-empty, begins with `-` iff it is negative, and is digits otherwise |
| Values.IntToStringRoundTrip | src/services/workflowExecutionService.ts:73 | reading the rendering back, sign included, gives the number |
| Strings.IndexOf | src/services/workflowExecutionService.ts:144 | the index found is an occurrence with none before it; no index means no occurrence anywhere (`includes`) |
| Strings.Expand | src/services/workflowExecutionService.ts:145 | the replacement's `$` patterns with no capture groups: `$$`, `$&`, `` $` `` and `$'`; a replacement without `$` is inserted verbatim |
| Strings.ExpandSpecials | src/services/workflowExecutionService.ts:145 | `$$` gives `$`, `` $` `` and `$'` give the text before and after the match, and `$1` stays literal when there are no groups |
| Strings.ReplaceFirst | src/services/workflowExecutionService.ts:145 | `replace` with a string pattern: unchanged when the pattern is absent, otherwise the first occurrence is replaced by the expanded replacement, the text around it kept |
| Strings.ReplaceByMatchIsIdentity | src/services/workflowExecutionService.ts:145 | replacing by `$&` leaves every string unchanged |
| Strings.ReplaceAtUniqueOccurrence | src/services/workflowExecutionService.ts:145 | with no occurrence inside `pre`, replacing in `pre + pat + post` gives `pre`, the expanded replacement and `post`, and `pre + rep + post` when `rep` has no `$` |
| Strings.OccurrenceIsContained | src/services/workflowExecutionService.ts:144 | any occurrence makes `includes` true, and the first index found is no later |
| Executors.Serialized | src/services/workflowExecutionService.ts:110 | `JSON.stringify` yields `undefined` exactly for `undefined` and a string otherwise |
| Executors.ExecuteStart | src/services/workflowExecutionService.ts:159-167 | start always succeeds, with message "Workflow started" and the clock's timestamp |
| Executors.ExecuteEnd | src/services/workflowExecutionService.ts:169-178 | end always succeeds, with message "Workflow completed" and `finalData` equal to the parent data |
| Executors.ProcessedText | src/services/workflowExecutionService.ts:143-146 | without the placeholder or without truthy parent data the text is unchanged |
| Executors.ExecuteText | src/services/workflowExecutionService.ts:135-157 | succeeds iff `data` is truthy and `data.text` is a string; otherwise it returns the fixed invalid-data failure; on success `originalText` is the input text, `text` is the processed text and `parentData` is passed through |
| Executors.TextSubstitutesPlaceholder | src/services/workflowExecutionService.ts:144-145 | with truthy parent data, the first placeholder is replaced by the parent data (as-is when a string, serialised otherwise) with `replace`'s `$` patterns expanded, verbatim when it has no `$`, and the rest of the text is kept |
| Executors.DollarAmpersandKeepsPlaceholder | src/services/workflowExecutionService.ts:144-145 | the parent string `"$&"` puts the placeholder back, so the text is unchanged |
| Executors.PrepareEmail | src/services/workflowExecutionService.ts:35-62 | validation in source order: nullish data throws on the `email` read, then a missing recipient, then the configuration falling back to the environment, then an empty message with no parent data; `subject` defaults to "Workflow Email" |
| Executors.DefinedParentDataIsAMessage | src/services/workflowExecutionService.ts:51-62 | with a serialiser that never yields the empty string for a defined value, any parent data other than `undefined` and `""` passes the message check |
| Executors.ExecuteEmail | src/services/workflowExecutionService.ts:33-97 | every result is well formed; success iff validation passes and the transport replies with status 200; a validation failure is returned without sending; after a send, status 200 gives the template fields with the reply's status and text, another status fails with "Email sending failed with status: {status} - {text}", and a rejection fails with the error's message or "Failed to send email" |
| Executors.MissingRecipientSendsNothing | src/services/workflowExecutionService.ts:36-38 | a missing recipient fails with "Recipient email address is required" whatever the transport would answer |
| Executors.EmailValidationPrecedesSend | src/services/workflowExecutionService.ts:35-65 | when validation fails the transport is never consulted: any transport gives the same result |
| Executors.MergeHeaders | src/services/workflowExecutionService.ts:106-109 | `Content-Type` is always present and defaults to JSON; every entry the spread of `headers` copies is kept and overrides the default (for headers typed as text, one entry per character index); no other key appears |
| Executors.TextSpreadsByIndex | src/services/workflowExecutionService.ts:106-109 | spreading the text `"ab"` copies `0: "a"` and `1: "b"` |
| Executors.TextHeadersSpreadByIndex | src/services/workflowExecutionService.ts:106-109 | headers typed as the text `"ab"` are sent as `Content-Type`, `0: a` and `1: b` |
| Executors.RequestBody | src/services/workflowExecutionService.ts:110 | no body for GET; otherwise the serialised parent data |
| Executors.FinalUrl | src/services/workflowExecutionService.ts:114-116 | a GET with truthy parent data appends the query to a string URL after `&` when it contains `?` and after `?` otherwise, and to an array URL (its items joined by commas) after `&` exactly when an item is `"?"`; any other URL throws on `includes`; a `URLSearchParams` TypeError is passed on; every other request keeps the URL; the result is an error iff the request is such a GET and the URL is neither a string nor an array or `URLSearchParams` throws |
| Executors.ArrayUrlIgnoresInnerQuestionMark | src/services/workflowExecutionService.ts:114-116 | a one-item array URL is fetched as its text followed by `?` and the query, even when the text already contains `?` |
| Executors.PrepareRequest | src/services/workflowExecutionService.ts:101-116 | nullish data throws on the destructuring; otherwise the request is built iff the URL is, failing with the URL's error; a built request has the method defaulted to GET and the headers (by the spread above), body and URL built as above |
| Executors.ExecuteApi | src/services/workflowExecutionService.ts:99-133 | every result is well formed; success iff the request is built, `fetch` resolves and the body parses, with the parsed body as data; a request that is not built fails with its error, unsent; a rejected `fetch` or an unparsable body fails with the error's message or "API call failed" |
| Executors.RecordArrayParentFailsGet | src/services/workflowExecutionService.ts:114-132 | a GET api node whose parent returned an array of records fails with the `URLSearchParams` TypeError |
| Executors.ApiIgnoresStatus | src/services/workflowExecutionService.ts:119-125 | two `fetch` answers that differ only in the HTTP status give the same result |
| Executors.ExecuteNode | src/services/workflowExecutionService.ts:180-199 | every result is well formed; an unknown kind fails with "Unsupported node type: " and the kind; start and end always succeed; end passes the parent data on as `finalData` |
| History.Prepend | src/store/workflowExecutionStore.ts:41-44 | the new list is the first 50 of `[e] ++ old`: its length is min(old + 1, 50), `e` is first and the rest is the prefix of the old list |
| History.AddAllKeepsNewest | src/store/workflowExecutionStore.ts:37-45 | a sequence of additions leaves the newest 50, newest first, with older entries in their relative order |
| History.SixtyAdditions | src/store/workflowExecutionStore.ts:44 | after 60 additions to an empty history exactly the last 50 remain, newest first |
| History.ExecutionStore.constructor | src/store/workflowExecutionStore.ts:36 | the store starts empty and valid |
| History.ExecutionStore.GetExecutions | src/store/workflowExecutionStore.ts:47-48 | a never-added id gives the empty list; no list of a valid store exceeds 50; the function reads the store and changes nothing |
| History.ExecutionStore.AddExecution | src/store/workflowExecutionStore.ts:37-46 | the id's list becomes `Prepend(e, old)` while validity holds; `e` is at index 0; every other id's list is unchanged |
| History.ExecutionStore.ClearExecutions | src/store/workflowExecutionStore.ts:49-55 | the id's list becomes empty; every other id's list is unchanged |
| Traversal.NodeMap | src/services/workflowExecutionService.ts:205 | every node id maps to a node with that id from the list |
| Traversal.NodeMapLastWins | src/services/workflowExecutionService.ts:205 | with duplicate ids the last node wins, as in `new Map` |
| Traversal.ChildrenOf | src/services/workflowExecutionService.ts:217-224 | the children of a parent are exactly the targets of its edges |
| Traversal.ChildrenOfSnoc | src/services/workflowExecutionService.ts:217-224 | one more edge appends its target to its source's children, in edge order |
| Traversal.LookupIsChildrenOf | src/services/workflowExecutionService.ts:260 | `childrenMap.get(id) \|\| []` is the parent's children in edge order |
| Traversal.RootsMembers | src/services/workflowExecutionService.ts:227-229 | the roots are exactly the nodes that no edge targets |
| Traversal.RootsOfConcat | src/services/workflowExecutionService.ts:227-229 | the roots keep node-array order |
| Traversal.NoEdgesAllRoots | src/services/workflowExecutionService.ts:227-229 | with no edges every node is a root |
| Traversal.StatusOf | src/services/workflowExecutionService.ts:272 | 'completed' iff every ledger record succeeded |
| Engine.Find | src/services/workflowExecutionService.ts:240 | the loop returns the first record for the id, or none |
| Engine.BuildChildren | src/services/workflowExecutionService.ts:216-224 | the `forEach` loop builds a map holding exactly the parents that have an edge, with their children in edge order |
| Engine.Absorbed | src/services/workflowExecutionService.ts:240-257 | a revisit pushes a timestamp and overwrites `success`, `data` and `error` in place; a first visit appends a record |
| Engine.Run.Step | src/services/workflowExecutionService.ts:236-257 | `results.set` and the ledger update of one visit, the visit count advanced |
| Engine.Run.VisitChildren | src/services/workflowExecutionService.ts:260-263 | the children are visited in order, each with the parent's `result.data` |
| Engine.Run.Visit | src/services/workflowExecutionService.ts:232-264 | the closure's effect on the run state is the transformer's |
| Engine.ExecuteWorkflow | src/services/workflowExecutionService.ts:201-285 | roots are visited in order; exactly one execution (this run's id and times, the ledger and its status) is prepended to the workflow's history; the returned map is the final `results` |
| Ledger.AbsorbTimes | src/services/workflowExecutionService.ts:243-256 | a visit adds exactly one timestamp, to the visited node's record only |
| Ledger.ApplyConsistent | src/services/workflowExecutionService.ts:236-257 | one visit keeps ids unique, record kinds those of the graph, `results` mirroring each record, and the timestamp count equal to the visit count |
| Ledger.VisitConsistent | src/services/workflowExecutionService.ts:232-264 | a whole visit keeps that invariant |
| Ledger.RootsConsistent | src/services/workflowExecutionService.ts:266-269 | the root loop keeps that invariant |
| Ledger.StatusOfConsistent | src/services/workflowExecutionService.ts:272 | status is 'completed' iff every latest outcome in the returned map succeeded |
| Ledger.VisitExtends | src/services/workflowExecutionService.ts:243-257 | records are never removed or reordered, ids and kinds never change, timestamps only grow: one record per id in first-visit order |
| Ledger.UnknownIdSkipped | src/services/workflowExecutionService.ts:233-234 | an id not among the nodes changes nothing and leaves no record |
| Ledger.VisitStep | src/services/workflowExecutionService.ts:236-263 | an existing node runs on the parent data, then its children run in edge order on its `result.data` |
| Ledger.FinalStateConsistent | src/services/workflowExecutionService.ts:266-269 | the invariant holds at the end of a run |
| Ledger.RunExecutionStatus | src/services/workflowExecutionService.ts:271-282 | the stored execution carries the run's id and times and the final ledger, and its status is 'completed' iff every final result succeeded |
| Ledger.VisitCounts | src/services/workflowExecutionService.ts:243-263 | a visit adds to a node's timestamps the number of paths to it from the visited node |
| Ledger.FinalTimestamps | src/services/workflowExecutionService.ts:243-269 | at the end each node has one timestamp per path from a root, so a fan-in node has one per incoming path |
| Scenarios.NoEdgesEachRunsOnce | src/services/workflowExecutionService.ts:227-269 | with no edges every node runs once, in array order, without parent data |
| Scenarios.FailedParentPassesNull | src/services/workflowExecutionService.ts:262 | the children of a failed node receive `null` |
| Scenarios.StartTextEndChain | src/services/workflowExecutionService.ts:135-199 | executing start, then text on start's data, then end on text's data, node by node: all succeed, the text carries the serialised start payload, and the end's `finalData` is the text node's output |
| Scenarios.ChainRunEvents | src/services/workflowExecutionService.ts:232-269 | on a chain of three nodes the run is the root's visit, then its child's on its data, then the grandchild's |
| Scenarios.StartTextEndVisitsAll | src/services/workflowExecutionService.ts:227-269 | a whole run of the graph start → text → end records an outcome for exactly the three nodes |
| Scenarios.StartTextEndRun | src/services/workflowExecutionService.ts:135-269 | in that run the text node succeeds and its text carries the serialised start payload in place of the placeholder |
| Scenarios.StartTextEndDelivers | src/services/workflowExecutionService.ts:169-269 | in that run the end node's `finalData` is the text node's output |
| Scenarios.StartTextEndCompletes | src/services/workflowExecutionService.ts:227-282 | that run stores a 'completed' execution with three records, for start, text and end in that order |
| Editor.InitialGraphIsStartToEnd | src/pages/WorkflowCreate.tsx:110-127 | the initial graph is the start and end nodes joined by one edge |
| Editor.FindNode | src/pages/WorkflowCreate.tsx:154-155 | `find` returns a node with the id, the first one, and nothing exactly when none has it |
| Editor.Filter | src/pages/WorkflowCreate.tsx:237-240 | `filter` keeps exactly the edges satisfying the condition, in order |
| Editor.LabelsOfKinds | src/pages/WorkflowCreate.tsx:171 | the labels are "Email Node", "Api Node" and "Text Node" |
| Editor.Midpoint | src/pages/WorkflowCreate.tsx:160-163 | the new position is equidistant from source and target on both axes |
| Editor.ShiftForInsert | src/pages/WorkflowCreate.tsx:177-183 | nodes other than start and end strictly below the new y move down by 100; all others are unchanged |
| Editor.InsertNode | src/pages/WorkflowCreate.tsx:153-210 | nothing changes unless the selected edge's source and target are both found; otherwise the new node, with the kind and the kind's label as its data, at the midpoint is appended after the shifted nodes, the selected edge is replaced by source→new and new→target, and the new node's configuration opens |
| Editor.SplitReplacesEdge | src/pages/WorkflowCreate.tsx:188-205 | the other edges keep their order and the two new edges, with ids `e-{s}-{new}` and `e-{new}-{t}`, follow |
| Editor.DeleteNodesAsWritten | src/pages/WorkflowCreate.tsx:217-233 | start, end and unknown ids leave the nodes unchanged; otherwise the node is removed and every node below it moves up by 100, start and end included |
| Editor.DeleteNodes | src/pages/WorkflowCreate.tsx:217-233 | the same, except that start and end stay in place; no node with the deleted id remains |
| Editor.Reconnection | src/pages/WorkflowCreate.tsx:237-253 | a reconnection exists iff exactly one edge enters and one leaves the node, and it joins the parent to the child with id `e-{p}-{c}` |
| Editor.DeleteEdges | src/pages/WorkflowCreate.tsx:217-255 | start and end are refused; otherwise the incident edges are removed and the reconnection, if any, is appended last |
| Editor.DeleteNode | src/pages/WorkflowCreate.tsx:216-255 | `handleDeleteNodeById` as written: start and end change nothing, an unknown id leaves the nodes unchanged, and otherwise no node with the id remains |
| Editor.DeleteNodeCorrected | src/pages/WorkflowCreate.tsx:216-255 | the same handler with start and end kept in place by the shift, with the same guarantees |
| Editor.DeletionsAgreeOffFixed | src/pages/WorkflowCreate.tsx:224-232 | both deletions give the same edges and node count, and agree on every node other than start and end |
| Editor.DeleteKeepsFixedNodes | src/pages/WorkflowCreate.tsx:217-222 | in both versions, deleting start or end changes nothing and an unknown id leaves the nodes unchanged |
| Editor.DeleteDetachesNode | src/pages/WorkflowCreate.tsx:236-254 | no remaining edge touches the deleted node, unless the node's own self-loop is what got reconnected |
| Editor.ShiftsCancel | src/pages/WorkflowCreate.tsx:176-232 | the corrected deletion shift undoes the insertion shift |
| Editor.InsertThenDeleteRestoresNodes | src/pages/WorkflowCreate.tsx:149-233 | with the corrected shift, inserting a node with a fresh id and deleting it again restores the node list exactly |
| Editor.InsertThenDeleteRestoresLinks | src/pages/WorkflowCreate.tsx:188-254 | splitting an edge with a unique id and deleting the new node leaves the other edges in order followed by an edge with the split edge's endpoints: the same multiset of (source, target) pairs |
| Editor.InsertThenDeleteAsWrittenMovesFixed | src/pages/WorkflowCreate.tsx:178-232 | as written, the same round trip moves a start or end node below the new node up by 100 |
| Editor.EndNodeDriftsOnNewWorkflow | src/pages/WorkflowCreate.tsx:110-233 | on a new workflow, inserting on the only edge and deleting the new node leaves the end node at y = 500 instead of 600 |
| Editor.SaveNodeConfig | src/pages/WorkflowCreate.tsx:278-286 | only the node whose id matches the edited node's takes its data; with nothing selected nothing changes; ids, kinds and positions are kept |
| Editor.SaveNodeConfigIdempotent | src/pages/WorkflowCreate.tsx:278-286 | saving twice is saving once |
| Editor.SaveThenFind | src/pages/WorkflowCreate.tsx:278-286 | after a save, looking up the edited id finds the saved data |
| Insertion.HandleInsertion | src/components/NodeInsertionHandler.tsx:25-70 | nothing changes unless both endpoints are found; otherwise the new node has type `newNodeType`, empty data and the midpoint position, and is appended without shifting any node; the filter loop keeps the other edges in order and the two new edges are pushed; the node that opens is the one appended |
| Insertion.HandlerMatchesPageEdges | src/components/NodeInsertionHandler.tsx:32-65 | the handler and the page produce the same edges, the same new position and node lists of one length; they agree on every old node the page does not move (the appended nodes differ in type and data) |
| Insertion.HandlerThenDeleteRestores | src/components/NodeInsertionHandler.tsx:47-65 | deleting the handler's node with the page's handler reconnects the split edge's endpoints after the other edges; the node list is the old one with the as-written deletion shift (the corrected deletion's shift for the corrected handler) |
| Insertion.HandlerRoundTripRaisesEnd | src/components/NodeInsertionHandler.tsx:32-65 | on a new workflow, inserting through the handler and deleting the new node moves the end node from y = 600 to 500 |

## Left out

- Cycles. Every engine member requires a ghost rank that decreases along every edge between existing nodes, so no graph with a cycle is modelled. That covers the cycles a root reaches, on which `executeWorkflow` recurses without bound, and also the cycles no root reaches (for example a graph whose every node is targeted, which has no roots), on which the source terminates and stores a run that never visits them.
- Numbers and canvas positions are exact reals (`Values.Num`, `Editor.Position`). IEEE double rounding is not modelled: a dragged node can sit at any double, where `y + 100 - 100` need not be `y`, so `Editor.ShiftsCancel` and `Editor.InsertThenDeleteRestoresNodes` hold in exact arithmetic only. `String(n)` of a number is a parameter (`Codec.numberText`).
- Values.OwnEntries: a string is spread by Dafny character (a Unicode scalar value), where JavaScript spreads by UTF-16 code unit; the two differ for characters outside the Basic Multilingual Plane.
- Executors.FinalUrl: which `URLSearchParams` calls throw is stated as the hypothesis `SoundSearchParams` (an array with an item that is not a two-item array), used by `RecordArrayParentFailsGet`; the text of the TypeError and of the query are parameters.
- The clocks, `uuidv4`, `emailjs.send`, `fetch`, `response.json()`, `JSON.stringify` and `URLSearchParams` are inputs: a `World` indexed by visit number, and an `Io` record of uninterpreted functions. Their real behaviour is not modelled.
- `emailjs.init`, the constructor's environment check and every `console` call are not modelled.
- `async`/`await`. Every await in a run is sequential, so the run is a sequential method. Concurrent runs are not modelled.
- The zustand `persist`/`localStorage` layer of the store is not modelled.
- Rendering, modals, `setState` batching, the `useEffect` mount timing and the `onDelete` callback stored in a new node's data are not modelled.
- Traversal.OracleOf: the same `World` answers every visit. No per-visit mutable transport state beyond the visit index is modelled.
- Traversal.GraphOf: the engine's edges keep only `source` and `target`, which are the only fields it reads.
- Editor.Label: `toUpperCase` is modelled only on ASCII letters, which is all the three kind names use.
- Editor.InsertNode: the callback inside the new node's data is left out, so its data holds only the label.
- The save model takes the selected node as an option. The keystroke handler that edits that node before the save is not modelled.

## Findings

| source | as written | input that shows it | evidently intended | confidence | as-written member | corrected member |
|---|---|---|---|---|---|---|
| src/pages/WorkflowCreate.tsx:227-232 (and src/pages/WorkflowEdit.tsx:242-247) | deletion moves every node below the deleted one up by 100, start and end included, although insertion never moves start or end down | a new workflow; insert on edge `e1-2` (new node at y = 325), then delete it: the end node goes from y = 600 to y = 500, and each further insert/delete pair moves it up again | deletion excludes start and end from the shift, as insertion does, so a round trip restores every position | medium (not executed) | Editor.EndNodeDriftsOnNewWorkflow | Editor.InsertThenDeleteRestoresNodes |
