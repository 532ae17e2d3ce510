# Workflow engine core, modelled in Dafny

This project models the core of the quanxiang-cloud `workflow` service and proves properties of the model.

The core is the pipeline-run engine. A queue hands a run id to the runner. The runner loads the run and picks the next node of its frozen pipeline, which means resuming a Pending node or scanning forward past nodes whose dependencies or `When` condition fail. It resolves the node's `$(params.x)`, `$(communal.x)` and `$(task.N.output.k)` parameters and calls the node's executor. It then folds the result into the run's last node record and merges communal values. Finally it stores the run and re-queues it unless the node is left Pending. A failed executor call stores nothing; instead the id goes to the retarder. The retarder is a ring of buckets that hands each id back to the queue a fixed number of ticks later.

Around the engine sit several pieces:

- the two built-in executors, `None` and `Null`;
- the process-branch executor, which rewrites a rule, evaluates it and reports `ok=true/false`;
- the rule-expression splitter `ParseExpr`;
- the `trim` helper;
- the approval ("examine") executor, with its record table and the decision, urge and recall operations on it;
- the form trigger service, which maps form changes to pipeline executions.

Model layout, one module per file:

| module | file | models |
|---|---|---|
| `Wrappers` | wrappers.dfy | `Option` |
| `GoStrings` | go_strings.dfy | the parts of Go's `strings` package the code uses (`Index`, `Split`, `ReplaceAll`, `TrimPrefix`, ...) |
| `V1alpha1` | v1alpha1.dfy | the API types and `IsFinish` |
| `NodeInterface` | node_interface.dfy | `Result`, `Request`, `None.Do`, `Null.Do`, executor dispatch |
| `Retarder` | retarder.dfy | the ring buffer: a `Wheel` value specification and a `Retarder` class over an array |
| `Resolve` | resolve.dfy | `parseParams` |
| `Gating` | gating.dfy | `getNodeToExecute` with `skipByDependency`/`skipByWhen`, as functions |
| `Engine` | engine.dfy | `exec` and `run` as the classes `PipelineRun` and `Runner`, proved against the functions `ExecSpec` and `Advance` |
| `ProcessBranch` | process_branch.dfy | `genRule`, the rewrite loop and `ProcessBranch.Do` |
| `FormExpr` | form_expr.dfy | `ParseExpr` |
| `NodesHelper` | nodes_helper.dfy | `trim`, as written and as intended |
| `Examine` | examine.dfy | `task.Do`, `resolutionDealObjects`, `do`, `examineTask`, `Urge`, `Recall` over a `TaskStore` class |
| `FormTrigger` | form_trigger.dfy | `form.Add`, `form.Remove`, `form.Exec`, `processQuanxiangFrom`, `oneOf` over a `FormService` class |

Things outside the program are parameters of the model:

- the current time (`now`);
- the executors (`remote`, a function from node type and request to outcome);
- the expression library (`evaluate`);
- the form service (`fetch`/`fetched`);
- the user service (`users`);
- the UUID generator (`uuids`);
- the form trigger's duplicate-suppression cache (`compliant`).

The SQL repositories are in-memory values:

- the run store is a `map<int, RunRecord>`;
- the approval table is a `seq<Task>`;
- the form-trigger table is a `seq<Trigger>` with its auto-increment counter.

Each repository call becomes the query or update its SQL statement performs.

## Model

| member | source | states |
|---|---|---|
| V1alpha1.IsFinish | core/pkg/apis/v1alpha1/pipeline_run_types.go:41-49 | a run status is terminal exactly when it is Finish or Kill; Running, the empty status and any other value are not |
| V1alpha1.FirstValue | internal/service/pipeline_run.go:288-296 | `getValueFromKV`: None exactly when no entry has the key; otherwise the value of the first entry with the key |
| V1alpha1.LastValue | core/pkg/node/nodes/process_branch/main.go:106-119 | what a loop that assigns on every match leaves: None exactly when no entry has the key; otherwise the value of the last entry with the key |
| NodeInterface.NoneDo | pkg/node/interface.go:28-37 | `None.Do` always fails with "Illegal node type", while the result it carries says Finish |
| NodeInterface.NullDo | pkg/node/interface.go:40-46 | `Null.Do` always succeeds with status Finish, no outputs, no communal pairs and no message |
| NodeInterface.Dispatch | internal/service/pipeline_run.go:153-160 | `getNode`: "null" always runs `Null` (registered after the configured types), a configured type runs its executor, anything else runs `None` |
| Retarder.GoRem | pkg/helper/retarder/retarder.go:52 | Go's truncating `%`: the remainder is in [0, n) for a non-negative dividend and in (-n, 0] for a negative one |
| Retarder.AddRejects | pkg/helper/retarder/retarder.go:44-50 | a delay over the ring length is "over maximum length" (checked first); a zero delay is "invalid time"; both leave the buffer unchanged |
| Retarder.AddAccepts | pkg/helper/retarder/retarder.go:52-62 | an accepted delay appends the payload to the end of bucket (cursor+delay) mod N; the cursor and every other bucket are unchanged |
| Retarder.AddNegativeDelay | pkg/helper/retarder/retarder.go:44-56 | a negative delay passes both checks: it lands behind the cursor while cursor+delay ≥ 0, and is an index panic just below that |
| Retarder.TotalAccounting | pkg/helper/retarder/retarder.go:60-74 | stored payloads grow by one per accepted `Add`, a rejected `Add` changes nothing, and a tick removes exactly the drained bucket |
| Retarder.TickDrainsCursor | pkg/helper/retarder/retarder.go:72-76 | a tick hands out the cursor's bucket, empties it, leaves the other buckets alone and moves the cursor one step around the ring |
| Retarder.TicksReachBucket | pkg/helper/retarder/retarder.go:73-75 | until the cursor reaches a bucket, ticks leave that bucket alone, and the cursor advances by one per tick |
| Retarder.DrainedAfterDelay | pkg/helper/retarder/retarder.go:52-75 | a payload added with delay 1 ≤ d < N is handed out on the (d+1)-th tick, and one added with d = N on the next tick; the earlier ticks drain other buckets |
| Retarder.Retarder.constructor | pkg/helper/retarder/retarder.go:11-42 | `New`: a zero length means 100 buckets; all buckets start empty with the cursor at 0 |
| Retarder.Retarder.Add | pkg/helper/retarder/retarder.go:44-65 | the array and the error are those of the `AddSpec` specification, whose properties are the lemmas above |
| Retarder.Retarder.Tick | pkg/helper/retarder/retarder.go:72-88 | the array, the cursor and the payloads passed to the callback, in order, are those of `TickSpec` |
| Resolve.ParseParams | internal/service/pipeline_run.go:287-371 | one pair per input, with the same keys in the same order; resolution never fails |
| Resolve.LiteralPassesThrough | internal/service/pipeline_run.go:358-359 | a value that starts with none of the three reference prefixes is passed through unchanged |
| Resolve.DeclaredLookup | internal/service/pipeline_run.go:298-316 | `genKV`: an undeclared name is absent; a declared name takes the first same-key override, else the default of its first declaration |
| Resolve.ParamsReference | internal/service/pipeline_run.go:318-344 | `$(params.x)` sees only names declared as params or communal variables, valued by the run's first same-key param or else the declared default; anything else is "" |
| Resolve.CommunalReference | internal/service/pipeline_run.go:319-357 | `$(communal.x)` sees only declared communal names, valued by the run's first same-key communal value or else the declared default; anything else is "" |
| Resolve.TaskReference | internal/service/pipeline_run.go:345-354 | `$(task.N.output.k)` is the value of `k` in the first record named `N`, or "" when there is no such record or key, for every `N` and `k` (dotted ones included) that the split at ".output." cuts apart again |
| Resolve.OutputSplit | internal/service/pipeline_run.go:346-347 | `N.output.k` splits at ".output." into exactly `N` and `k` whenever neither holds the separator and `N` does not end in ".output" |
| Resolve.DotFreeSplitsAtOutput | internal/service/pipeline_run.go:346-347 | dot-free names always split back apart |
| Resolve.TaskOutputOf | internal/service/pipeline_run.go:346-353 | `N.output.k` looks up `k` in the first record named `N`, for every pair the split cuts apart again |
| Resolve.TaskReferenceWithoutOutput | internal/service/pipeline_run.go:346-365 | a task reference without ".output." resolves to "" |
| Gating.Unfinished | internal/service/pipeline_run.go:383-390 | the inner closure is true exactly when no record with the dependency's name is Finished |
| Gating.AnyUnfinished | internal/service/pipeline_run.go:382-395 | the dependency loop is true exactly when some dependency has no Finished record |
| Gating.SkipByDependency | internal/service/pipeline_run.go:374-396 | skip exactly when the node has dependencies and one of them has no Finished record |
| Gating.NotAmong | internal/service/pipeline_run.go:415-421 | the `in` loop is true exactly when no resolved value equals the resolved input |
| Gating.SkipByWhen | internal/service/pipeline_run.go:398-428 | only the first condition counts: no values never skips; `eq` skips unless the input equals the first value; `in` skips unless the input is among the values; any other operator skips |
| Gating.ScanKeepsPrefix | internal/service/pipeline_run.go:450-465 | the scan keeps the existing records and appends at most one per remaining node; a chosen node is the last one examined, has a fresh record and failed the skip test |
| Gating.ScanSkips | internal/service/pipeline_run.go:451-461 | every record the scan appends before the chosen one is a Skip record, and the skip test held for the run as it stood, including the record just appended |
| Gating.ResumePending | internal/service/pipeline_run.go:432-438 | a Pending last record is resumed: nothing is appended and that record's node is chosen |
| Gating.ScannedNodeIsReady | internal/service/pipeline_run.go:442-462 | a node reached by the scan runs only when each of its dependencies has a Finished record and its first condition lets it through |
| Gating.SelectKeepsAligned | internal/service/pipeline_run.go:431-465 | choosing a node keeps record i named after node i, never creates more records than nodes, and keeps every earlier record |
| Gating.ExhaustedScanSkipsAll | internal/service/pipeline_run.go:450-465 | a scan that finds nothing has given every remaining node a Skip record |
| Engine.KeyIndex | internal/service/pipeline_run.go:468-475 | `getKV`: the position of the first entry with the key, or none when no entry has it |
| Engine.MergeOneLookup | internal/service/pipeline_run.go:263-271 | one merge step: the pair's key reads the new value, other keys read as before, and existing entries keep their keys and positions |
| Engine.MergeCommunalLookup | internal/service/pipeline_run.go:263-271 | after the merge, a reported key reads the value reported last for it, and other keys read what they read before; the list grows by at most one entry per pair |
| Engine.Normalize | internal/service/pipeline_run.go:273-280 | Finish and Kill stand; every other status becomes Pending |
| Engine.SelectionShape | internal/service/pipeline_run.go:373-466 | on a well-formed run, selection keeps old records and alignment, leaves only Skip or Finish before the last record, and a chosen node is the last record |
| Engine.ApplyResultWellFormed | internal/service/pipeline_run.go:227-283 | storing a successful result keeps the run well formed and changes only the last record |
| Engine.AdvanceKeepsWellFormed | internal/service/pipeline_run.go:202-229 | a stored run stays well formed: id and pipeline kept, no record other than the last one rewritten, the last record Skip, Finish, Kill or Pending |
| Engine.AdvanceExhausted | internal/service/pipeline_run.go:221-229 | when no node is left, both the state and the status become Finish and every node has a record |
| Engine.AdvanceExecutes | internal/service/pipeline_run.go:205-285 | an executor error is retried and stores nothing; otherwise Kill kills the run, Finish stamps the completion time, and any other status leaves the node Pending |
| Engine.AdvanceProgress | internal/service/pipeline_run.go:227-239 | each automatic re-queue lowers a non-negative measure, so a run is re-queued only finitely often without outside help |
| Engine.EmptyPipelineStoresNoRecord | internal/service/pipeline_run.go:221-236 | a pipeline without nodes is stored finished with no records, and `run` then reads the last record of an empty list |
| Engine.PipelineRun.Load | core/internal/database/mysql/pipeline_run.go:83-119 | loading a stored run gives a fresh object holding exactly its values |
| Engine.PipelineRun.GetNodeToExecute | internal/service/pipeline_run.go:373-466 | the records afterwards and the node returned are those `SelectNode` chooses; spec and state are unchanged |
| Engine.PipelineRun.Exec | internal/service/pipeline_run.go:242-285 | the run afterwards and the error are those of `ExecSpec`: the executor's error updates only the last record's message; a success is folded in as `ApplyResult` says |
| Engine.PipelineRun.Step | internal/service/pipeline_run.go:202-229 | the error, or the run afterwards, is what `Advance` decides |
| Engine.Runner.constructor | internal/service/pipeline_run.go:58-77 | a runner over a store of well-formed runs, with an empty queue and the given retarder and delay |
| Engine.Runner.Set | internal/service/pipeline_run.go:149-151 | `set` appends the id to the queue and touches nothing else |
| Engine.Runner.Run | internal/service/pipeline_run.go:181-240 | an unknown or finished run changes nothing; an executor error leaves store and queue alone and adds the id to the retarder; otherwise the run is stored and re-queued unless its last record is Pending |
| Engine.StepRun | internal/service/pipeline_run.go:183-229 | loading a stored run and stepping it yields the error, or the run to store back, that `Advance` decides |
| Engine.Runner.Postpone | internal/service/pipeline_run.go:208-216 | with a retarder the id is added with the configured delay and the retarder reports what `Add` reports; without one nothing happens |
| Engine.Runner.Store | internal/service/pipeline_run.go:231-239 | the run replaces the stored one; it is re-queued unless its last record is Pending, and a run without records is the index panic |
| Engine.Runner.TickRetarder | internal/service/pipeline_run.go:69-72 | one retarder tick: every drained id is handed to `set`, queued in drain order |
| ProcessBranch.CommunalOfLookup | core/pkg/node/nodes/process_branch/main.go:102-122 | a key lands in the communal map exactly when it is not one of the four rule keys, with the value of its last occurrence |
| ProcessBranch.GenRule | core/pkg/node/nodes/process_branch/main.go:102-122 | appID/tableID/dataID/rule take the last same-key value and every other key goes to the communal map |
| ProcessBranch.CloseOnlyInserts | core/pkg/node/nodes/process_branch/main.go:61-74 | for any input, the rewrite only inserts ']': deleting every ']' from input and output gives the same text, and the output is longer by the number of ']'s added |
| ProcessBranch.CloseWithoutSpace | core/pkg/node/nodes/process_branch/main.go:61-74 | a stretch without a space is copied unchanged, whatever the flag |
| ProcessBranch.CloseAtFirstSpace | core/pkg/node/nodes/process_branch/main.go:61-74 | up to the first space the text is copied; a ']' is put in front of that space exactly when a '$' was pending or occurs before it, and the flag is then cleared for the rest |
| ProcessBranch.CloserBeforeSpace | core/pkg/node/nodes/process_branch/main.go:64-71 | for input with no ']' of its own, every ']' in the output stands right before a space |
| ProcessBranch.CloseWithoutReference | core/pkg/node/nodes/process_branch/main.go:63-74 | without a '$', the rewrite changes nothing |
| ProcessBranch.CloseReferences | core/pkg/node/nodes/process_branch/main.go:61-74 | the character loop leaves in the buffer the `Close` rewrite, whose properties are the lemmas above |
| ProcessBranch.Verdict | core/pkg/node/nodes/process_branch/main.go:48-91 | Finish with `ok` = "true" exactly for the boolean true, and "false" for an error or any other value |
| ProcessBranch.Do | core/pkg/node/nodes/process_branch/main.go:27-92 | the form is fetched only for a rule starting with `$field_`, and a fetch error is the only failure; every other path finishes with the verdict on the rewritten rule |
| FormExpr.Subsection | pkg/node/nodes/quanxiang_form/helper.go:19-26 | no piece contains the symbol, and there are at least as many pieces as strings |
| FormExpr.SubsectionAppend | pkg/node/nodes/quanxiang_form/helper.go:19-26 | the pieces of a list of strings are those of each string, in order |
| FormExpr.SubsectionOne | pkg/node/nodes/quanxiang_form/helper.go:19-26 | the pieces of one string joined back with the symbol give the string |
| FormExpr.OperatorOf | pkg/node/nodes/quanxiang_form/helper.go:33-52 | the chosen operator is one the piece contains, no operator earlier in the `switch` order occurs in it, and there is none exactly when it contains none of them |
| FormExpr.ParseOneSpec | pkg/node/nodes/quanxiang_form/helper.go:28-63 | a triple exists exactly when the space-free piece has an operator and that first operator occurs once; its operator is that one, key + operator + value is the space-free piece, and neither key nor value contains the operator |
| FormExpr.ParseAll | pkg/node/nodes/quanxiang_form/helper.go:68-76 | at most one triple per piece; `ParseAllEveryPiece`, `ParseAllAppend` and `ParseAllFromPieces` state which triples and in what order |
| FormExpr.ParseAllEveryPiece | pkg/node/nodes/quanxiang_form/helper.go:68-76 | when every piece parses there is exactly one triple per piece |
| FormExpr.ParseAllAppend | pkg/node/nodes/quanxiang_form/helper.go:68-76 | the triples keep the pieces' order: those of a concatenation are those of each part, in turn |
| FormExpr.ParseAllFromPieces | pkg/node/nodes/quanxiang_form/helper.go:65-76 | every triple is what one of the pieces parses to, and every piece that parses contributes its triple |
| FormExpr.ParseAllComplete | pkg/node/nodes/quanxiang_form/helper.go:68-76 | a piece that parses has its triple in the result |
| FormExpr.ParseExprMembers | pkg/node/nodes/quanxiang_form/helper.go:18-77 | a triple is in `ParseExpr`'s result exactly when one of the pieces cut at "\|\|" and then "&&" parses to it |
| FormExpr.NoCompoundOperator | pkg/node/nodes/quanxiang_form/helper.go:40-51 | ">=" and "<=" are never reported, because ">" and "<" are tested first |
| FormExpr.CompoundOperatorMisread | pkg/node/nodes/quanxiang_form/helper.go:40-59 | for a key and value free of spaces and operator characters, "key>=value" is read as key, operator ">" and value "=value", and "key<=value" as key, operator "<" and value "=value" |
| NodesHelper.Trim | pkg/node/nodes/helper.go:31-41 | the loop over the shrinking string computes `TrimAsWritten` |
| NodesHelper.TrimNeedsInnerReference | pkg/node/nodes/helper.go:32 | without `sub`, or with `sub` at index 0, `trim` returns its input |
| NodesHelper.TrimWithoutDot | pkg/node/nodes/helper.go:33-37 | with no '.' at or after the first `sub`, `trim` returns its input |
| NodesHelper.TrimFirstDot | pkg/node/nodes/helper.go:33-36 | the first '.' removes every occurrence of the segment from `sub` to it, keeps the text before `sub`, and the scan goes on after it |
| NodesHelper.TrimEatsDecimalLiteral | pkg/node/nodes/helper.go:33-36 | `[$x.a]>1.5` trimmed of `$x` becomes `[5` |
| NodesHelper.TrimOnceStripsQualifier | pkg/node/nodes/helper.go:31-41 | the corrected trim strips `sub.` from every reference and keeps everything else |
| NodesHelper.TrimOnceSingle | pkg/node/nodes/helper.go:31-41 | with a single reference, the corrected trim strips just its qualifier |
| NodesHelper.TrimOnceKeepsDecimalLiteral | pkg/node/nodes/helper.go:31-41 | the corrected trim turns `[$x.a]>1.5` into `[a]>1.5` |
| Examine.ListByMembers | core/pkg/node/nodes/examine/db/mysql/examine.go:133-175 | a node's list holds exactly the table's records with that run and node key |
| Examine.FindById | core/pkg/node/nodes/examine/db/mysql/examine.go:263-296 | `GetByID`: the first record with the id, or none when no record has it |
| Examine.FindByUser | core/pkg/node/nodes/examine/db/mysql/examine.go:216-249 | `GetByUserIDAndTaskID`: a record of that user in that run, or none when there is none |
| Examine.Aggregate | core/pkg/node/nodes/examine/service/examine.go:343-369 | Pending while any record is Pending; otherwise Finish with "false" when some record was rejected or recalled, else "true" |
| Examine.GatherRequest | core/pkg/node/nodes/examine/service/examine.go:114-154 | each known parameter takes the value of its last occurrence; the run id and node name come from the request |
| Examine.CheckAudit | core/pkg/node/nodes/examine/service/examine.go:141-150 | true exactly when some parameter keyed by the SYS_AUDIT_BOOL value holds "false" |
| Examine.ResolveEntryKinds | core/pkg/node/nodes/examine/service/examine.go:232-298 | "person.<id>" yields `<id>`, a bare "person" panics, and an unknown kind yields nothing |
| Examine.ResolveAllConcat | core/pkg/node/nodes/examine/service/examine.go:229-302 | when every entry resolves, the ids are those of the entries concatenated in order |
| Examine.PersonEntry | core/pkg/node/nodes/examine/service/examine.go:278-279 | "person.<id>" contributes the text of `<id>` up to its first '.', so exactly `<id>` when it has no '.' |
| Examine.BarePersonPanics | core/pkg/node/nodes/examine/service/examine.go:278-279 | "person" without an id indexes past the split |
| Examine.PersonsInOrder | core/pkg/node/nodes/examine/service/examine.go:229-302 | a list of "person.<id>" entries with dot-free ids resolves to exactly those ids, in order |
| Examine.ResolveDealUsers | core/pkg/node/nodes/examine/service/examine.go:204-227 | no dealUsers, a failed fetch and an empty form are errors; on success the form's creator id is returned |
| Examine.ResolveRequest | core/pkg/node/nodes/examine/service/examine.go:204-227 | the resolution step of `Do` computes `ResolveDealUsers` |
| Examine.ResolveEntries | core/pkg/node/nodes/examine/service/examine.go:229-302 | the entry loop computes `ResolveAll` |
| Examine.ResolveAllStops | core/pkg/node/nodes/examine/service/examine.go:243-287 | once an entry fails, the whole resolution fails the same way |
| Examine.NewTask | core/pkg/node/nodes/examine/service/examine.go:316-329 | an inserted record is Pending with no result, belongs to the user, run and node, and has not been urged |
| Examine.FinishAnswer | core/pkg/node/nodes/examine/service/examine.go:176-196 | on Finish, `Out` is [agree=result] and `Communal` maps the SYS_AUDIT_BOOL code to "true" exactly when the result is "true" |
| Examine.AuditFalseFinishes | core/pkg/node/nodes/examine/service/examine.go:141-150 | an earlier "false" verdict finishes at once with no output and no record written |
| Examine.NobodyToDecideKills | core/pkg/node/nodes/examine/service/examine.go:156-207 | no dealUsers kills the node with an error; users resolving to nobody kill it with a message and no error |
| Examine.FirstVisitCreatesRecords | core/pkg/node/nodes/examine/service/examine.go:313-341 | the first visit inserts one Pending record per resolved user, in order, answers Pending and keeps the old records |
| Examine.LaterVisitAggregates | core/pkg/node/nodes/examine/service/examine.go:171-196 | a later visit writes nothing, answers Pending while a record is Pending, and otherwise finishes with agree = "false" exactly when some record was rejected or recalled (the aggregation is at lines 343-369 of the same file) |
| Examine.Decide | core/pkg/node/nodes/examine/db/mysql/examine.go:68-80 | `UpdateResult` keeps every record's identity, run and node |
| Examine.CloseRun | core/pkg/node/nodes/examine/db/mysql/examine.go:81-91 | `UpdateByTaskID` keeps every record's identity, run, node and result |
| Examine.ExamineEffect | core/pkg/node/nodes/examine/service/examine.go:565-603 | an unknown or already finished record is refused and nothing changes; otherwise that record gets the result, the remark and Finish, and no other run is touched |
| Examine.CompletingDecision | core/pkg/node/nodes/examine/service/examine.go:584-601 | an "or" decision, or an "and" rejection, leaves no record of the node Pending; after a rejection the node reads as rejected |
| Examine.AndAgreeKeepsOthers | core/pkg/node/nodes/examine/service/examine.go:588-596 | an "and" agreement changes no record other than the decided one |
| Examine.Urged | core/pkg/node/nodes/examine/db/mysql/examine.go:251-261 | every record with the id gets the one given urge count, records with other ids are unchanged, and no other field changes |
| Examine.UrgeKeepsVerdict | core/pkg/node/nodes/examine/service/examine.go:641-656 | urging changes no node's Pending or rejected state, so the next `Do` answers the same |
| Examine.UrgedListBy | core/pkg/node/nodes/examine/service/examine.go:649-651 | urging keeps each node's list, its statuses and its results |
| Examine.TaskStore.constructor | core/pkg/node/nodes/examine/db/mysql/examine.go:14-18 | an empty record table |
| Examine.TaskStore.Record | core/pkg/node/nodes/examine/service/examine.go:305-371 | `do`: on the first visit one new Pending record per user is appended; otherwise nothing is written and the answer aggregates the node's records |
| Examine.TaskStore.Do | core/pkg/node/nodes/examine/service/examine.go:108-202 | the answer and the table afterwards are those of `DoSpec` on the gathered request, whose cases are the lemmas above |
| Examine.TaskStore.ExamineTask | core/pkg/node/nodes/examine/service/examine.go:565-603 | the error and the table afterwards are those of `ExamineSpec` |
| Examine.TaskStore.Urge | core/pkg/node/nodes/examine/service/examine.go:641-656 | an unknown user and run pair is an error and nothing changes; otherwise the found record's urge count plus one is written to every record sharing its id |
| Examine.TaskStore.Recall | core/pkg/node/nodes/examine/service/examine.go:519-538 | the recall as written: the run's records become Finish and their results stay as they were |
| Examine.TaskStore.RecallIntended | core/pkg/node/nodes/examine/service/examine.go:519-538 | the corrected recall: the run's records become Finish with result "recall" |
| Examine.RecallAsWritten | core/pkg/node/nodes/examine/service/examine.go:519-538 | the recall as written keeps the number of records |
| Examine.RecallFixed | core/pkg/node/nodes/examine/service/examine.go:519-538 | the corrected recall keeps the number of records |
| Examine.RecallReadsAsApproval | core/pkg/node/nodes/examine/service/examine.go:519-538 | after the recall as written, an undecided node has no Pending and no rejected record, so its next `Do` finishes with agree = "true" |
| Examine.RecallIntendedRejects | core/pkg/node/nodes/examine/service/examine.go:519-538 | after the corrected recall the node has no Pending record and reads as rejected, so its next `Do` finishes with agree = "false" |
| FormTrigger.OneOf | trigger/cmd/form/form.go:277-284 | true exactly when `src` is an element of `dst` |
| FormTrigger.ByTable | trigger/internal/database/mysql/form.go:107-134 | `GetByTableID`: exactly the stored triggers of that table and type |
| FormTrigger.ByTableAppend | trigger/internal/database/mysql/form.go:107-134 | the selection keeps table order |
| FormTrigger.FindByName | trigger/internal/database/mysql/form.go:50-77 | `Get`: a trigger with the name, or none when no trigger has it |
| FormTrigger.MethodKind | trigger/cmd/form/form.go:155-172 | "post" is CREATE and needs `creator_id`; "put" is UPDATE and needs `modifier_id`; any other method maps to nothing |
| FormTrigger.ExecFor | trigger/cmd/form/form.go:232-246 | an execution names the trigger's pipeline with params appID, tableID, dataID in that order |
| FormTrigger.DispatchesUpToBlock | trigger/cmd/form/form.go:214-250 | the triggers before the first blocking UPDATE trigger are each executed in order, and nothing after it |
| FormTrigger.BlockingKinds | trigger/cmd/form/form.go:215-228 | an UPDATE trigger with no filters blocks every change; a CREATE trigger never blocks |
| FormTrigger.ExecSelects | trigger/cmd/form/form.go:143-196 | a non-map entity is an error; other methods, or a missing or empty id field, execute nothing; every execution comes from a trigger of the changed table and of the action the method stands for |
| FormTrigger.DispatchesFrom | trigger/cmd/form/form.go:214-250 | every execution sent comes from one of the triggers |
| FormTrigger.WithoutMembers | trigger/internal/database/mysql/form.go:136-142 | `Delete` keeps exactly the triggers of other ids |
| FormTrigger.FormService.constructor | trigger/internal/database/mysql/form.go:16-20 | an empty trigger table |
| FormTrigger.FormService.Add | trigger/cmd/form/form.go:72-107 | a type other than CREATE or UPDATE is 400 and a taken name is 409, both changing nothing; otherwise exactly one trigger with the given fields is appended, and names stay unique |
| FormTrigger.FormService.Remove | trigger/cmd/form/form.go:108-126 | an unknown name changes nothing; a known one is deleted by id, and afterwards no trigger has the name while every other trigger is kept |
| FormTrigger.FormService.Exec | trigger/cmd/form/form.go:143-196 | the error and the executions sent are those of `ExecSpec`, whose cases are `ExecSelects` |
| FormTrigger.ProcessQuanxiangForm | trigger/cmd/form/form.go:198-253 | no triggers is no error; a missing or non-string `_id` is an error; otherwise the executions are `Dispatches` |

## Left out

- Goroutines, channels and tickers are left out; only the state changes are modelled. This covers the worker loop of `runner.Run`, the 10-second recovery of running runs at start-up and the retarder's `Run` loop. Enqueueing is an append to `Runner.queue`, and a tick is `Retarder.Tick`/`Runner.TickRetarder`.
- Engine.Runner.TickRetarder: queues the drained ids in drain order, whereas the source starts one goroutine per id (internal/service/pipeline_run.go:69-72), so their order in the queue is not fixed.
- Timestamps are the `now` parameter. The `CreatedAt`/`UpdatedAt` fields of runs, approval records and triggers are not modelled.
- Storage errors from every repository are left out, because the in-memory stores do not fail. The run store's `Get`, which returns nil for an unknown id, is `Dropped`.
- The run `Update` statement has no WHERE clause, so it rewrites every row (core/internal/database/mysql/pipeline_run.go:69-76). The model stores only the run being updated.
- `PipelineRun.Step` is lines 202-229 of `run` taken out as a method. `Runner.Run` calls it, and the surrounding load, store and re-queue are in `Runner.Run`.
- The executors, the expression library, the form service, the user service and the UUID generator are parameters: their code is not part of this model. The "leader" and "formApplyUserID" entries of `resolutionDealObjects` ask the user service, which is the `users` parameter.
- Examine.ResolveEntry: the "field.<name>" case reads the `fieldUsers` of the fetched form rather than walking the JSON list of `{value: id}` maps.
- JSON handling of the form entity is reduced to a string-or-other value type.
- `GuessCommunal` and `Evaluate` (pkg/node/nodes/helper.go:10-29, 43-56) are not part of this model; the process-branch executor's expression evaluation is the `evaluate` parameter.
- `errors.Wrap` is modelled as "message: cause", because the helper error package is not part of this model.
- The form trigger's duplicate-suppression cache (`isCompliance`/`addCache`) is the `compliant` parameter.
- FormTrigger.FindByName returns the first trigger with the name. The SQL `QueryRow` returns whichever row the database yields, and names are unique in the model (`FormService.Valid`).
- The examine service's list queries, `Transfer`, `Agree`/`Reject` wrappers, email notifications and HTTP endpoints are outside the modelled core.
- `GetByUserIDAndTaskID`, like every single-row query, is the first matching record.
- FormTrigger.ByTable: returns the triggers in table order; the SQL query has no ORDER BY, so the database may return them in any order.
- The retarder constructor requires a non-negative length, because Go's `make` panics on a negative one.

## Findings

| source | as written | input that shows it | evidently intended | confidence | as-written member | corrected member |
|---|---|---|---|---|---|---|
| pkg/node/nodes/helper.go:31-41 | after the first `sub`, every later '.' removes every occurrence of the text from `sub` to that '.' | `trim("[$x.a]>1.5", "$x")` gives `"[5"` | strip the qualifier `$x.` once, giving `"[a]>1.5"` | high, not executed | NodesHelper.TrimEatsDecimalLiteral | NodesHelper.TrimOnceKeepsDecimalLiteral |
| core/pkg/node/nodes/examine/service/examine.go:519-538 | `Recall` sets result "recall", but `UpdateByTaskID` (core/pkg/node/nodes/examine/db/mysql/examine.go:81-91) stores only `node_result` | a recalled approval with no decisions: every record Finish with an empty result, so the next `Do` answers agree = "true" | the recalled records carry "recall", and `do` (line 356) reads the node as rejected | medium, not executed | Examine.RecallReadsAsApproval | Examine.RecallIntendedRejects |
