# A verified model of FileAutomation

This Dafny project models the parts of FileAutomation whose correctness depends on whole runs and on
whole inputs, and proves what they promise. Code that changes objects step by step is a class or a method
here; beside each stands a value-level function for what it computes, and the laws are proved of that.

- **DAG executor** (`DagGraph`, `DagState`, `DagSteps`, `DagOutcome`, `DagExecutor`, on `Graphs`): Kahn's
  algorithm, and a scheduler whose ready queue, running actions, indegrees and recursive skips agree for
  every order in which actions end.
- **Pipeline drafts** (`DraftReferences`, `DraftModel`, `DraftEffects`, `DraftLevels`, `PipelineDraft`, on
  `GraphEdits`): every sequence of edits keeps the dependency graph acyclic and closed; renaming follows
  placeholders in arguments; the in-place relaxation finds longest paths.
- **Unified diffs** (`PatchText`, `UnifiedDiff`, `PatchApply`, `PatchRoundTrip`, `PatchResult`,
  `PatchEndings`): the patch reader and applier against a printer for any edit script, in the format of
  POSIX.1-2017, utility `diff`, section "Diff -u or -U Output Format".
- **Audit stores** (`SqlLike`, `AuditQuery`, `AuditStores`): escaped `LIKE` patterns, the `WHERE` clause and
  the order of answers make the table and the in-memory list indistinguishable, but for three stated
  cases.
- **Integrity** (`Snapshot`, `Detector`, `ChangeFacts`, `Monitor`, `QuickPass`, `Announcements`): bisected
  path ranges, the change list and its replay, partial and quick passes against full ones, and when drift is
  announced.
- **Throttles and coordination** (`RateLimiter`, `CircuitBreaker`, `SqliteLock`, `ActionQueue`, `Router`,
  `RouterMemory`, `RouterFlood`, `RouterStale`, `NotificationRouter`): locked or transactional sections in
  every interleaving, with bounds over whole runs.

`Collections`, `Wrappers` and `Text` hold what several of these share.

Conventions. Time and tokens are `real`; clock readings, generated identifiers, hashes, what an action or a
sink does and what other processes leave in a table are parameters. Threads are the order in which locked
sections or transactions take place: a run is any sequence of them, and a theorem about a run is about every
interleaving. A table is a map or a sequence. A result that raises is an `Option` or a `Result`.

## Where the code differs from its documentation

The model follows the code. The named lemmas state each difference with its exact condition.

- `fail_fast=False` is documented to run dependents regardless; the dependents of a node without an action
  list get no result at all (`DependentOfNoActionIsLost`, `AllSettledIff`).
- `set_dependencies` can be refused and still have dropped or added edges (`RefusedSetCanDrop`,
  `RefusedSetIsCleanIff`).
- A task renamed and renamed back is not always what it was: placeholders that named the new id before, of a
  task the draft did not have, are taken over (`DanglingReferenceIsTaken`, `RenameBackIff`, `TextBackIff`).
- A printed patch does not always give the new text back. A hunk without old lines is applied one line early,
  lines that look like file names are skipped, and lines without an ending run together
  (`BareAdditionIsOneLineEarly`, `SkippedDeletionIsLost`, `UnterminatedDeletionMisfits`). The new text comes
  back exactly if there are none of these (`RoundTripIff`); the lines are found again exactly under
  `LinesFoundIff`, and the hunks are read back exactly under `ReadUndoesPrintIff`.
- A patch that does not match is documented to raise `DiffException`; it is an `IndexError` exactly if a hunk
  that is reached starts beyond the file (`ShortFileIsIndexError`, `PatchOutcome`, `OvershootIff`), and a
  malformed one is a `ValueError` exactly if the first header that cannot be read has the form of one and more
  digits than `int` takes (`LongNumberIsValueError`, `PatchOutcome`, `ReadingErrorIff`).
- The stores of the audit trail answer alike, except exactly in three cases (`StepAgrees`, `RunAgrees`): a
  closed SQLite store still answers a search with `limit=0` (`ClosedStoreAnswers`); an `offset` of 2^63 or
  more passes the checks and is an `OverflowError` there (`HugeOffsetRaises`); a duration that is not a number
  comes back from it as absent (`NoNumberComesBackAbsent`).
- Verifying a path at which there is a file leaves out files below it, which object stores can have, and
  reports them as deleted (`FileBelowFileLooksDeleted`). A partial pass finds what a full one finds, and its
  report can be accepted as the baseline, exactly if there is no such file below the paths
  (`PartialFindsAllIff`, `MergedIsCurrentIff`, `AcceptedPartialIsQuietIff`).
- Watch mode reports an unchanged drift again after a clean pass over other paths
  (`PassesBetweenAlertAgain`, `AlertsIff`). Failures are recorded outside the lock that passes hold: each one
  recorded can make an unchanged drift be reported once more, and none that a pass under way covers does
  (`RepeatsNeedFailures`, `FailureIsCovered`).
- A half-open breaker is documented to try one call; it admits every call until an outcome is recorded
  (`TrialsUnbounded`, `TrialsAreEntries`).
- `is_held` can be true of two instances of a lock. `release` deletes the row before it clears `_held`, so it
  tells of an owner exactly if nobody else was granted the lock since and no release of its own is under way
  (`ReleaseStillReports`, `HeldOwnsIff`, `TwoWithoutTtl`); outside releases two can report one name exactly if
  one of them has a `ttl` (`TwoReportHeldIff`). A refresh of a lost lease does nothing (`RefreshExtendsIff`).
  Where clocks differ, a lease ends by the clock that is furthest ahead (`ClockAheadSharesLease`,
  `MutualExclusion`).
- `nack` and `ack` are documented for claimed rows; they act on any row, so a claim lasts in a run exactly
  until anyone names its row or purges the queue (`LateNackFreesOthersClaim`, `ClaimLastsIff`).
- A row of the queue that holds no valid JSON is claimed before it is read, and stays in flight (`Dequeue`).
- A flood is to forget the oldest part of the router's memory; a key let through again before the timed
  pruning keeps its old place and goes first (`FloodForgetsNewest`). The memory is in the order of the last
  admissions exactly if that does not happen (`OrderFollowsIff`).
- A route is to let through at most `rate_limit` messages in a period. A delivery under way keeps the edition
  of the route it started with, and goes on when the route is removed, while pruning drops what no registered
  route accounts for; the limit fails in these two ways and no other (`RemovedRouteExceeds`, `LimitHoldsIff`).
  Threads read the clock before they take the lock, which costs a window as much as a reading can be behind
  (`WindowBound`).
- `sync_routes` documents that routes of other origins stay; one with the name of a wanted route is replaced
  (`SyncTakesOver`, `SyncIff`).

## Model

| member | source | states |
|---|---|---|
| DagBuilder.CollectIds | automation_file/core/dag_executor.py:140-148 | every node gets an id of its own in list order, or the first node without one, or with one already used, is the error |
| DagBuilder.LinkAll | automation_file/core/dag_executor.py:150-161 | graph and indegree hold one entry per dependency slot, repeated entries of `depends_on` included, or the first node whose dependencies are unsound is the error |
| DagBuilder.ListedDeps | automation_file/core/dag_executor.py:152-161 | the dependency relation is entry by entry what the nodes list in `depends_on`, and nothing for a node that lists none |
| DagBuilder.DetectCycle | automation_file/core/dag_executor.py:174-189 | raises exactly if the dependency relation has a cycle; otherwise the visit order puts dependencies first |
| DagBuilder.LeftoversAreCyclic | automation_file/core/dag_executor.py:174-189 | if the queue runs dry before every node is visited, the rest wait for each other and contain a cycle |
| DagBuilder.KahnVerdict | automation_file/core/dag_executor.py:188-189 | the count of visited nodes falls short exactly if the graph is cyclic |
| DagBuilder.BuildGraph | automation_file/core/dag_executor.py:136-164 | succeeds exactly for distinct ids, known dependencies and an acyclic relation, and then wires the relation that the nodes list; every error is justified by the node list |
| DagExecutor.DagRun.constructor | automation_file/core/dag_executor.py:37-52 | a run starts with the nodes without dependencies ready, and the scheduling invariant holds |
| DagExecutor.DagRun.MarkSkipped | automation_file/core/dag_executor.py:54-61 | skipping recurses to everything downstream that has no result yet, each exactly once, and keeps the scheduling invariant |
| DagExecutor.DagRun.SkipDependents | automation_file/core/dag_executor.py:63-66 | every dependent of a node that blocks loses a count and ends with a result |
| DagExecutor.DagRun.Submit | automation_file/core/dag_executor.py:68-78 | a node without an action list gets its error at once and spreads it only under `fail_fast`; any other node is launched once, after all it depends on has a result |
| DagExecutor.DagRun.Complete | automation_file/core/dag_executor.py:80-88 | a finished node closes its slots at its dependents; each becomes ready exactly when its last count goes, or is skipped, never both |
| DagExecutor.DagRun.DrainCompleted | automation_file/core/dag_executor.py:90-100 | any non-empty set of running actions may end, in any order, and the scheduling invariant holds again |
| DagExecutor.ExecuteActionDag | automation_file/core/dag_executor.py:103-126 | the loop ends; it fails exactly on a static error, and otherwise every node ends as those it lists in `depends_on` make it end and the launches are each once and after those |
| DagSteps.SkipsMakeQuiet | automation_file/core/dag_executor.py:54-66 | after the skips of a blocking node the indegrees again count exactly the open slots and no node is forgotten or in two places |
| DagSteps.PassesMakeQuiet | automation_file/core/dag_executor.py:80-88 | so they do after a finished node has let its dependents run |
| DagSteps.LogLaunched | automation_file/core/dag_executor.py:68-78 | a launch keeps the launch log free of repeats and after all dependencies |
| DagOutcome.EmptyQueuesSettleAll | automation_file/core/dag_executor.py:118-125 | with nothing ready and nothing in flight every node is settled: it ran, failed, was skipped or is lost exactly as its dependencies say |
| DagOutcome.RunIsSettled | automation_file/core/dag_executor.py:103-126 | a finished run is settled and exactly the nodes that ran were launched, in dependency order |
| DagOutcome.SettledAsListed | automation_file/core/dag_executor.py:54-126 | read off the node list: a node whose listed dependencies all let it run gets the outcome of its action, any other is a skip that names one of them, or without `fail_fast` has no result |
| DagOutcome.OrderDoesNotMatter | automation_file/core/dag_executor.py:90-126 | any two completion orders give the same results, but for which failed dependency a skip names |
| DagOutcome.SkipTracesToFailure | automation_file/core/dag_executor.py:54-66 | following skips back ends at a node that raised or had no action list |
| DagOutcome.SkippedIffDependencyFailed | automation_file/core/dag_executor.py:16-18 | under `fail_fast` every node has a result, and it is a skip exactly if something it transitively depends on failed |
| DagOutcome.AllSettledIff | automation_file/core/dag_executor.py:68-76 | every node gets a result exactly if `fail_fast` is on or nothing depends on a node without an action list |
| DagOutcome.DependentOfNoActionIsLost | automation_file/core/dag_executor.py:17-18 | without `fail_fast` the dependent of a node without an action list gets no result at all |
| PipelineDraft.PipelineDraft.Reaches | automation_file/app/pipeline_draft.py:494-506 | the worklist search ends and answers true exactly if a dependency path exists |
| PipelineDraft.PipelineDraft.AddTask | automation_file/app/pipeline_draft.py:350-374 | one task comes last, as asked for and without dependencies, under the given id or an unused one, at the given place or the free one; the first of a bad id, a taken id and arguments of another kind is the error and changes nothing |
| PipelineDraft.PipelineDraft.UnusedId | automation_file/app/pipeline_draft.py:640-656 | a valid name that no task has: the one derived from the action if free, else the least free number after it |
| PipelineDraft.BaseNameOf | automation_file/app/pipeline_draft.py:648-650 | whatever white space is around it, an action `FA_x` gives `x`, any other its own name, and `task` where that is no name |
| PipelineDraft.PipelineDraft.RemoveTask | automation_file/app/pipeline_draft.py:376-383 | the task goes, and of every other task its dependency on it and nothing else; all orders stay |
| PipelineDraft.PipelineDraft.RenameTask | automation_file/app/pipeline_draft.py:385-399 | the task keeps its place, and every dependency on it and placeholder for it follows; a taken or bad name changes nothing |
| PipelineDraft.PipelineDraft.Connect | automation_file/app/pipeline_draft.py:454-473 | adds exactly the one edge, or refuses and changes nothing, or finds the edge already there |
| PipelineDraft.PipelineDraft.Disconnect | automation_file/app/pipeline_draft.py:475-482 | takes away exactly the one edge |
| PipelineDraft.PipelineDraft.SetDependencies | automation_file/app/pipeline_draft.py:484-492 | the two loops have the effect of the value-level edit, up to a refused edge |
| PipelineDraft.PipelineDraft.AutoLayout | automation_file/app/pipeline_draft.py:522-531 | every task keeps what it is and is placed by its level, 240 to a column, and by the number of earlier tasks of that level, 110 to a row, from 40; nothing else changes |
| DraftModel.AddKeepsGood | automation_file/app/pipeline_draft.py:350-374 | adding keeps a draft acyclic, closed and free of repeated dependencies |
| DraftModel.RemoveKeepsGood | automation_file/app/pipeline_draft.py:376-383 | removing a task, and every dependency on it, keeps the draft so |
| DraftEffects.RemovedEdges | automation_file/app/pipeline_draft.py:376-383 | the dependencies left are exactly those between the tasks left |
| DraftModel.RenameKeepsGood | automation_file/app/pipeline_draft.py:385-399 | renaming a task, and following it in every dependency, keeps the draft so |
| DraftEffects.RenameEffect | automation_file/app/pipeline_draft.py:385-399 | every task stays in its place and what it was, and every dependency is replaced where it stands; a missing, bad or taken id is the error in that order |
| DraftModel.RenameBackIff | automation_file/app/pipeline_draft.py:385-399 | renaming back restores the draft exactly if no dependency and no placeholder named the new id before |
| DraftModel.DanglingReferenceIsTaken | automation_file/app/pipeline_draft.py:385-399 | a task whose argument refers to a task that is gone, renamed to that and back, refers to itself |
| DraftModel.FreePositionIsBelow | automation_file/app/pipeline_draft.py:576-579 | a task without a given place goes a row below the lowest one |
| DraftReferences.CountsFollow | automation_file/app/pipeline_draft.py:152-160 | in a text all references to the old id, and no others, become references to the new one |
| DraftReferences.ReferencesFollow | automation_file/app/pipeline_draft.py:152-160 | so they do in nested arguments |
| DraftReferences.TextBackIff | automation_file/app/pipeline_draft.py:152-155 | replacing back restores a text exactly if it held no reference to the new id |
| DraftModel.ConnectKeepsGood | automation_file/app/pipeline_draft.py:454-473 | an added edge keeps the draft so, because one that would close a cycle is refused |
| DraftModel.SetDependenciesKeepsGood | automation_file/app/pipeline_draft.py:484-492 | the edit keeps the draft so even when it is refused half way |
| DraftModel.SessionStaysGood | automation_file/app/pipeline_draft.py:350-506 | every draft grown from an empty one by any sequence of edits stays acyclic, closed and free of repeats |
| DraftModel.ConnectRefusedIff | automation_file/app/pipeline_draft.py:454-473 | apart from a repeat, an edge is refused exactly if it names an unknown task or would close a cycle |
| DraftModel.SetDependenciesEffect | automation_file/app/pipeline_draft.py:484-492 | succeeds exactly if no wanted dependency is unknown, the task itself or dependent on it; then the list is exactly what is wanted, kept ones first in their order |
| DraftModel.DedupKeepsFirst | automation_file/app/pipeline_draft.py:484-492 | of repeated wanted dependencies the first ones count, in their order |
| DraftModel.RefusedSetIsCleanIff | automation_file/app/pipeline_draft.py:484-492 | a refused call leaves the tasks unchanged exactly if nothing had to be dropped and nothing new precedes the refused dependency |
| DraftModel.RefusedSetCanDrop | automation_file/app/pipeline_draft.py:484-492 | for instance, a task asked to depend on itself loses all its dependencies |
| GraphEdits.NewEdgeAcyclic | automation_file/app/pipeline_draft.py:454-473 | a new edge keeps a graph acyclic exactly if its upstream does not reach its downstream |
| DraftLevels.RelaxRound | automation_file/app/pipeline_draft.py:559-574 | one in-place round leaves every level between the longest chains of the rounds before and after |
| DraftLevels.Levels | automation_file/app/pipeline_draft.py:559-574 | ends on any graph with values in 0..n-1, equal to the clamped longest-path depth |
| DraftLevels.LevelIsLongestPath | automation_file/app/pipeline_draft.py:559-574 | on an acyclic graph the level is the length of the longest dependency path, and the clamp never takes effect |
| DraftLevels.EdgeRaisesLevel | automation_file/app/pipeline_draft.py:559-574 | on an acyclic graph every edge strictly raises the level |
| DraftLevels.ClampedIff | automation_file/app/pipeline_draft.py:559-574 | on any graph the clamp takes effect exactly on the tasks of a cycle and those that depend on one, which are put last |
| DraftLevels.FixedPointIsEnough | automation_file/app/pipeline_draft.py:559-574 | a round without a change may end the loop early |
| DraftLayout.NoTwoInOnePlace | automation_file/app/pipeline_draft.py:522-531 | the automatic layout puts no two tasks in one place |
| DraftLayout.DependenciesToTheLeft | automation_file/app/pipeline_draft.py:522-531 | on an acyclic draft it puts every task to the right of what it depends on |
| DiffOps.HunkParseState.ConsumePatchLine | automation_file/local/diff_ops.py:209-228 | one raw line changes the parse state, completes a hunk or is refused, as the value-level parser says |
| DiffOps.CopyUpTo | automation_file/local/diff_ops.py:152-156 | the lines from the cursor up to the hunk are copied, or the list index runs out |
| DiffOps.ApplyHunkOps | automation_file/local/diff_ops.py:159-174 | the hunk consumes its old lines and emits its new ones, or reports the first line that does not match |
| DiffOps.ApplyUnifiedPatch | automation_file/local/diff_ops.py:142-149 | hunks applied as they are parsed give what parsing all and then applying gives |
| UnifiedDiff.HeaderReads | automation_file/local/diff_ops.py:231-236 | a printed header reads as the old start it was printed for, except that an empty old range after the first line reads one line too early, and that a number of more than 4300 digits is refused |
| UnifiedDiff.HeaderIff | automation_file/local/diff_ops.py:228-236 | a line reads as a header with the given digits exactly if it has the form of one: two at signs, the old range, the new range and two at signs, with white space in between and anything after |
| UnifiedDiff.ParseHeaderIff | automation_file/local/diff_ops.py:231-236 | then it gives the old start counted from 0, or a `ValueError` for more than 4300 digits; any other line is a `DiffException` |
| Text.DecimalRoundTrip | automation_file/local/diff_ops.py:231-236 | the digits printed for a number read as that number |
| Text.NoLeadingZero | automation_file/app/pipeline_draft.py:650-656 | and there is no zero in front of them |
| PatchModel.MisfitIff | automation_file/local/diff_ops.py:159-184 | a hunk fits exactly where its old lines are found |
| PatchModel.MisfitNames | automation_file/local/diff_ops.py:177-184 | the error names the place of the first old line that is not there, and whether it was to be kept or deleted |
| PatchModel.HunkOutcome | automation_file/local/diff_ops.py:152-184 | at any cursor a hunk is an `IndexError` exactly if it starts beyond the file, and else applies exactly if its old lines stand where it says |
| PatchModel.OvershootIff | automation_file/local/diff_ops.py:142-156 | the hunks run out of the file at a given one exactly if it starts beyond the file and all hunks before it apply |
| PatchModel.PatchOutcome | automation_file/local/diff_ops.py:117-149 | a whole patch ends in `IndexError` exactly if some parsed hunk starts beyond the file and all before it apply; in the error of a header exactly if all hunks before that apply; and succeeds otherwise exactly if all apply |
| PatchModel.ReadingErrorIff | automation_file/local/diff_ops.py:192-236 | reading ends with the error of the first line that starts like a header and cannot be read as one: a `DiffException`, or a `ValueError` if its old start has too many digits for `int` |
| PatchModel.PatchReads | automation_file/local/diff_ops.py:192-228 | a patch reads as one hunk for every header with operations below it, each line an operation by its first character unless it looks like a file name; lines before the first header are passed over |
| PatchModel.PatchReadsUpTo | automation_file/local/diff_ops.py:192-228 | a header that cannot be read ends that, and the hunk before it is lost too |
| PatchResult.LongNumberIsValueError | automation_file/local/diff_ops.py:231-236 | a header with an old start of more than 4300 digits is a `ValueError` on any file |
| PatchModel.ScriptApplies | automation_file/local/diff_ops.py:142-174 | across all hunks the cursor stays aligned with the old offset of the script, and the result is the new text |
| PatchModel.AppliedIsScript | automation_file/local/diff_ops.py:142-174 | whatever hunks apply, the result comes from the old text by an edit script with the very lines of the hunks |
| PatchRoundTrip.ReadUndoesPrintIff | automation_file/local/diff_ops.py:192-228 | reading a printed patch gives the printed hunks exactly if no line is skipped and every hunk has an old line or starts the file |
| PatchRoundTrip.ContextLeavesOnlyNames | automation_file/local/diff_ops.py:192-228 | with context around every change only deleted lines starting `--` and added lines starting `++` are in the way |
| PatchRoundTrip.LinesFoundIff | automation_file/local/diff_ops.py:194 | the printed lines are found again exactly if none but the last lacks its ending |
| PatchEndings.RoundTripIff | automation_file/local/diff_ops.py:117-149 | printing any edit script of two texts and applying the patch to the old one gives the new one exactly if all its lines but the last have their endings, no line is skipped and every hunk without old lines is in place |
| PatchEndings.TogetherShows | automation_file/local/diff_ops.py:192-228 | lines without an ending that run together never give the new text, whatever they are read as |
| PatchEndings.SkippedTogether | automation_file/local/diff_ops.py:209-228 | but for a last line starting with `--` that is deleted and added again: then they are skipped together and do no harm |
| PatchResult.SeparateRoundTripIff | automation_file/local/diff_ops.py:117-149 | where the endings are there, the new text comes back exactly if no line is skipped and every hunk without old lines is in place |
| PatchResult.ContextIsInPlace | automation_file/local/diff_ops.py:231-236 | with an old line in every hunk all of them are in place |
| PatchResult.SkippedDeletionIsLost | automation_file/local/diff_ops.py:192-228 | the deletion of a last line that starts with `--` applies without an error and leaves the file as it was |
| PatchResult.UnterminatedDeletionMisfits | automation_file/local/diff_ops.py:192-228 | the deletion of a last line without a line break, with a line added in its place, is reported as not found in the file |
| PatchResult.ShortFileIsIndexError | automation_file/local/diff_ops.py:152-156 | a patch whose second hunk starts beyond a shorter file is an `IndexError` |
| PatchRoundTrip.BareAdditionIsOneLineEarly | automation_file/local/diff_ops.py:231-236 | lines added without context end up one line too early |
| PatchText.SplitJoinIff | automation_file/local/diff_ops.py:194 | splitting at line ends undoes joining exactly if no line but the last lacks its ending |
| PatchText.SplitLinesLaw | automation_file/local/diff_ops.py:194 | splitting loses nothing and cuts after every line end and nowhere else, a carriage return and the line feed after it being one |
| SqlLike.LikeEscaped | automation_file/audit/store.py:70-76 | an escaped text matches itself, letter case aside, and nothing else |
| SqlLike.LikePrefix | automation_file/audit/store.py:147-150 | `LIKE` with the escaped prefix and `%` holds exactly if the folded value starts with the folded prefix |
| SqlLike.LikeContains | automation_file/audit/store.py:152-158 | `LIKE` with the escaped text between `%` holds exactly if the folded value contains the folded text |
| AuditQuery.Where | automation_file/audit/sqlite_store.py:109-130 | the clauses select a row exactly if its record passes every filter that is given, absent columns included |
| AuditQuery.MatchesIff | automation_file/audit/store.py:135-158 | the memory predicate accepts a record exactly if it passes each filter that is given, named one by one |
| NewestFirst.OneOrder | automation_file/audit/store.py:255-262 | the order by time and then number leaves one possible list |
| StoreModel.SearchAgrees | automation_file/audit/sqlite_store.py:239-245 | whatever order the engine builds its answer in, it is the answer of the memory store |
| StoreModel.PageAnswers | automation_file/audit/store.py:255-262 | a page of the sorted matches has at each place the record that as many accepted ones precede |
| StoreModel.KeptParts | automation_file/audit/store.py:241-249 | purging keeps exactly the records at or after the cutoff, in order, and works part by part |
| StoreModel.StepAgrees | automation_file/audit/store.py:224-253 | one call on both stores keeps them in agreement, and the answers are equal exactly if it is not a search in one of three cases stated of the records and the query |
| StoreModel.RunAgrees | automation_file/audit/store.py:215-262 | for every history of calls each answer of the two stores is the same exactly outside those cases |
| StoreModel.ClosedStoreAnswers | automation_file/audit/sqlite_store.py:239-242 | closed and asked for no records, the table answers and the list raises |
| StoreModel.HugeOffsetRaises | automation_file/audit/store.py:89-94 | an offset of 2^63 or more, which no check refuses, is an `OverflowError` of the table and an empty answer of the list |
| StoreModel.NoNumberComesBackAbsent | automation_file/audit/sqlite_store.py:228-237 | a duration that is not a number comes back from the table as absent and from the list as it was |
| AuditStores.MemoryAuditStore.Append | automation_file/audit/store.py:224-231 | refuses a closed store or a known id, else adds the record |
| AuditStores.MemoryAuditStore.Search | automation_file/audit/store.py:233-236 | the answer is the page: from the offset on and up to the limit the records that pass every filter given, by time and then the later appended, newest first |
| AuditStores.MemoryAuditStore.Purge | automation_file/audit/store.py:241-249 | drops what is older than the cutoff and says how much |
| AuditStores.SqliteAuditStore.Append | automation_file/audit/sqlite_store.py:228-237 | refuses a closed table or a known id, else adds one row after all others |
| AuditStores.SqliteAuditStore.Search | automation_file/audit/sqlite_store.py:239-245 | the answer is the page of the rows that pass every filter given, newest first, or an error if closed or beyond the integers of the engine |
| AuditStores.SqliteAuditStore.Count | automation_file/audit/sqlite_store.py:247-249 | counts the rows that pass every filter given |
| AuditStores.SqliteAuditStore.Purge | automation_file/audit/sqlite_store.py:251-257 | drops the rows older than the cutoff and says how many |
| PathOrder.PrefixIsRange | automation_file/integrity/snapshot.py:28 | a path lies between `p/` and `p0` exactly if it starts with `p/` |
| PathOrder.LessIff | automation_file/integrity/detector.py:174-175 | one path goes before another if it is the start of it or has the lower character at the first difference |
| Snapshots.MakeSnapshot | automation_file/integrity/snapshot.py:156-162 | the entries in path order, or an error exactly if a path occurs twice |
| Snapshots.BisectLeft | automation_file/integrity/snapshot.py:172-179 | the first place whose path is not below the bound |
| Snapshots.Below | automation_file/integrity/snapshot.py:172-179 | two bisects give exactly the entry at the path and the entries under it, in order |
| Snapshots.Merged | automation_file/integrity/snapshot.py:181-190 | the entries without those removed, with those added on top, in order |
| QuickPass.QuickMatches | automation_file/integrity/snapshot.py:233-253 | trusts exactly the listed files whose sizes are known and equal and whose time and etag are those recorded, one of them at least |
| QuickPass.QuickMissesIff | automation_file/integrity/snapshot.py:233-253 | where it does not trust a file a quick pass finds the changes, of every kind, that a deep one finds; where it does it finds no modification |
| QuickPass.TrustedFindsIff | automation_file/integrity/snapshot.py:233-253 | of a trusted file it finds every change of mode, and a change of metadata exactly if the listing itself tells another version or content type |
| Detector.CompareCommon | automation_file/integrity/detector.py:108-135 | collects each change of a file in both trees once |
| Detector.ByContent | automation_file/integrity/detector.py:138-147 | groups the files of one tree only by content, every group by path |
| Detector.PairGroups | automation_file/integrity/detector.py:150-171 | collects each deletion, creation and rename once |
| Detector.AllCollected | automation_file/integrity/detector.py:178-196 | once every path and group had its turn, all changes are collected |
| Detector.DetectChanges | automation_file/integrity/detector.py:178-196 | the one list of all changes, each once, in order, unless the algorithms differ |
| Changes.OneList | automation_file/integrity/detector.py:174-175 | there is only one such list |
| Changes.ReplayGivesCurrent | automation_file/integrity/detector.py:178-196 | replaying the list on the baseline gives the current paths, checksums, and whatever else both sides recorded |
| Changes.VanishedOnce | automation_file/integrity/detector.py:150-171 | each vanished path is deleted or a rename source, exactly once |
| Changes.ArrivedOnce | automation_file/integrity/detector.py:150-171 | each new path is created or a rename target, exactly once |
| Changes.RenameIff | automation_file/integrity/detector.py:150-171 | a rename is reported exactly if one vanished and one new file, and no others, share a non-empty checksum and the size |
| ChangeFacts.CommonFileIff | automation_file/integrity/detector.py:93-135 | a file of both trees is modified exactly if the checksums or two known sizes differ, otherwise of changed metadata exactly if one of four facts known on both sides does, and of changed permissions exactly if the modes do |
| ChangeFacts.CommonChangeSays | automation_file/integrity/detector.py:108-135 | such a change carries both entries and names the facts that differ |
| ChangeFacts.VanishedFileIff | automation_file/integrity/detector.py:150-171 | a vanished file is deleted exactly if it did not move, with its entry, and a note of how many files of its content left and arrived if some did |
| ChangeFacts.ArrivedFileIff | automation_file/integrity/detector.py:150-171 | a new file is created exactly if none moved there, likewise |
| ChangeFacts.RenameSays | automation_file/integrity/detector.py:150-162 | a rename carries both entries |
| ChangeFacts.OrderSays | automation_file/integrity/detector.py:174-175 | the list is by path, and of one path only permissions come second |
| Changes.NothingIff | automation_file/integrity/detector.py:178-196 | the list is empty exactly if the paths are the same and no recorded fact differs |
| Legacy.SummaryOf | automation_file/integrity/legacy.py:37-59 | the loops compute the value-level summary |
| Legacy.SummaryIsComparison | automation_file/integrity/legacy.py:37-59 | missing, extra, modified and matched are the plain comparison of the two trees; pairing renames never shows |
| Legacy.DriftIff | automation_file/integrity/legacy.py:131-135 | there is drift exactly if a recorded file is gone or differs, or a new one exists and extras alert |
| Monitor.Collect | automation_file/integrity/monitor.py:464-468 | the loop collects what the baseline and the target hold at the paths, overlapping ones included |
| Monitor.VerifyPaths | automation_file/integrity/monitor.py:457-483 | all changes between those parts, and the baseline with those parts replaced |
| Monitor.MergedIsCurrentIff | automation_file/integrity/monitor.py:475-477 | with the rest as recorded, the merged tree is the current one exactly if no file below a path is missed |
| Monitor.FileSystemMissesNothing | automation_file/integrity/target.py:122-136 | where no file has files below it, none is missed |
| Monitor.PartialFindsAllIff | automation_file/integrity/monitor.py:334-343 | a partial pass then finds the changes of a full deep pass exactly if no file below a path is missed |
| Monitor.FileBelowFileLooksDeleted | automation_file/integrity/monitor.py:464-468 | an unchanged file below another file is reported as deleted |
| Monitor.Accept | automation_file/integrity/monitor.py:302-320 | the tree of the report becomes the baseline unless something was remediated or nothing was seen; then, or without a report, it is the tree as read again, under the algorithm of the baseline |
| Monitor.AcceptedPartialIsQuietIff | automation_file/integrity/monitor.py:429-438 | after the report of a partial pass is accepted the next full pass finds nothing exactly if that pass missed no file |
| Announcements.Announcer.Conclude | automation_file/integrity/monitor.py:489-521 | whether a pass alerts, by what is remembered when it looks, and what it remembers, whatever was recorded meanwhile |
| Announcements.Announcer.RecordFailure | automation_file/integrity/monitor.py:544-560 | the same of a pass that could not run, which holds no lock between its look and its record |
| Announcements.AlertsIff | automation_file/integrity/monitor.py:489-499 | in watch mode a pass alerts exactly if it finds drift and the pass concluded last did not find the same, or a failure was recorded or a baseline approved since |
| Announcements.FailureAlertsIff | automation_file/integrity/monitor.py:544-560 | a failure in watch mode alerts exactly if what was recorded last is not the same failure |
| Announcements.RepeatsAlert | automation_file/integrity/monitor.py:322-352 | a pass that is asked for alerts exactly if it finds drift, and then a failure always |
| Announcements.RepeatsNeedFailures | automation_file/integrity/monitor.py:544-560 | in every interleaving in which all passes find the same drift it is reported at most once, and once more for every failure recorded |
| Announcements.FailureIsCovered | automation_file/integrity/monitor.py:544-560 | a failure recorded while a later pass is under way is covered by what that pass records, and neither it nor the next one alerts |
| Announcements.StableDriftAlertsOnce | automation_file/integrity/monitor.py:366-368 | a drift that every pass finds is reported once |
| Announcements.PassesBetweenAlertAgain | automation_file/integrity/monitor.py:366-368 | clean passes over other paths in between make an unchanged drift be reported every time |
| RateLimiting.RateLimiter.RefillLocked | automation_file/core/rate_limit.py:41-46 | the refill of the value-level bucket |
| RateLimiting.RateLimiter.TryAcquire | automation_file/core/rate_limit.py:48-57 | takes the tokens exactly if the refilled balance holds them; not more than nothing is an error |
| RateLimiting.RateLimiter.Acquire | automation_file/core/rate_limit.py:59-85 | the wait loop: how it ends, the balance it leaves and every wait it makes |
| TokenBucket.BalanceInRange | automation_file/core/rate_limit.py:41-57 | over any run the balance stays within 0 and the capacity |
| TokenBucket.WindowBound | automation_file/core/rate_limit.py:41-57 | tokens granted between two clock readings never exceed the capacity plus the rate times the time between |
| TokenBucket.GrantedIff | automation_file/core/rate_limit.py:48-57 | a request is granted exactly if no window ending now would exceed that bound |
| RateLimiting.OneWaitIsEnough | automation_file/core/rate_limit.py:72-85 | an uncontended request within the capacity and without a timeout succeeds after one full wait |
| RateLimiting.NoShorterWait | automation_file/core/rate_limit.py:76-77 | no shorter wait would do |
| RateLimiting.TimeoutIff | automation_file/core/rate_limit.py:59-85 | uncontended, a request is granted exactly if the tokens are there or the timeout is no shorter than they take to come, and waits just that long; else it is given up when the timeout is over |
| RateLimiting.ExceededIsLate | automation_file/core/rate_limit.py:78-84 | it gives up only past the deadline and still short; with timeout 0 it never waits |
| CircuitBreaking.CircuitBreaker.MaybeTransition | automation_file/core/circuit_breaker.py:61-66 | open turns half open once the timeout has passed |
| CircuitBreaking.CircuitBreaker.OnFailure | automation_file/core/circuit_breaker.py:74-81 | counts, and opens at the threshold or when half open |
| CircuitBreaking.CircuitBreaker.Call | automation_file/core/circuit_breaker.py:83-97 | one call alone: refused, or run with its outcome recorded, other errors recording nothing |
| BreakerModel.OpenIffThreshold | automation_file/core/circuit_breaker.py:68-81 | in every interleaving the counter is the failures since the last success or reset, and the breaker is not closed exactly if they number the threshold |
| BreakerModel.OpenedByLastFailure | automation_file/core/circuit_breaker.py:74-81 | while not closed it was opened by the latest failure |
| BreakerModel.RefusedIff | automation_file/core/circuit_breaker.py:83-88 | a call is refused exactly if those failures number the threshold and the latest is less than the timeout ago, late outcomes included |
| BreakerModel.TrialsAreEntries | automation_file/core/circuit_breaker.py:1-7 | half open, calls are admitted until an outcome: one trial exactly if one call enters |
| BreakerModel.TrialsUnbounded | automation_file/core/circuit_breaker.py:1-7 | so any number of trials can be under way |
| SqliteLocking.SqliteLock.TryClaim | automation_file/core/sqlite_lock.py:97-120 | takes the row exactly if it is absent or expired at the clock reading; an operational error in the transaction is a refusal, one in opening the database is raised |
| SqliteLocking.SqliteLock.Acquire | automation_file/core/sqlite_lock.py:81-95 | the first attempt that succeeds, cannot open the database or fails past the deadline ends the loop, each in its own way |
| SqliteLocking.LeftBy | automation_file/core/sqlite_lock.py:97-120 | what each kind of attempt leaves of the table, and when it ends the loop |
| SqliteLocking.SqliteLock.ReleaseLease | automation_file/core/sqlite_lock.py:122-132 | deletes only an own row and clears `_held` after that, whatever others have made of the table by then; a database error leaves both and is raised |
| SqliteLocking.SqliteLock.RefreshLease | automation_file/core/sqlite_lock.py:134-146 | changes only an own row; a database error leaves it and is raised |
| Leases.HolderOwnsRow | automation_file/core/sqlite_lock.py:81-146 | in every interleaving, whatever the clocks read and at any time the claims have reached, a lease is unexpired exactly if its instance owns an unexpired row |
| Leases.MutualExclusion | automation_file/core/sqlite_lock.py:81-146 | at no such time do two instances hold unexpired leases of one name |
| Leases.ClockAheadSharesLease | automation_file/core/sqlite_lock.py:97-120 | before that time they can: a claim whose clock runs ahead takes a lease that has time left by its own clock |
| Leases.ClaimSeesLeases | automation_file/core/sqlite_lock.py:97-120 | a granted claim finds all leases of the name run out; a refused one finds one that had not when it read the clock |
| Leases.GrantedLasts | automation_file/core/sqlite_lock.py:97-120 | a granted lease lasts its `ttl` from the reading of its claim, and without one for good |
| Leases.RefusedMeanwhile | automation_file/core/sqlite_lock.py:97-120 | until then the row stays whatever other instances do, and every claim of the name that reads less is refused |
| Leases.RefreshLasts | automation_file/core/sqlite_lock.py:134-146 | a refresh by the owner of the row makes the lease last the `ttl` from its own reading |
| Leases.OthersAreUntouched | automation_file/core/sqlite_lock.py:122-146 | refreshing or releasing never touches the lease of another instance |
| Leases.RefreshExtendsIff | automation_file/core/sqlite_lock.py:134-146 | a refresh extends the lease exactly if the instance still owns the row |
| Leases.HeldOwnsIff | automation_file/core/sqlite_lock.py:66-68 | an instance that reports `is_held` owns the row exactly if no other instance was granted the name since its own last grant and no release of its own is under way |
| Leases.WithoutTtlHeldOwnsIff | automation_file/core/sqlite_lock.py:122-132 | one without a `ttl` that reports it owns the row exactly if no release of its own is under way |
| Leases.TwoWithoutTtl | automation_file/core/sqlite_lock.py:122-132 | two instances without a `ttl` report one name held only while one of them is in a release |
| Leases.ReleaseStillReports | automation_file/core/sqlite_lock.py:122-132 | a release deletes the row before it clears `_held`: in between an instance reports a name that nobody owns, and once another is granted it both report it |
| Leases.TwoReportHeldIff | automation_file/core/sqlite_lock.py:66-68 | with no release under way, two instances of a name can both report `is_held` in some run exactly if one of them has a `ttl` |
| ActionQueues.ActionQueue.Enqueue | automation_file/core/action_queue.py:73-94 | one new ready row under the next identifier with the action, the priority and the times given, or an error for what is no list or dict |
| ActionQueues.ActionQueue.Dequeue | automation_file/core/action_queue.py:96-128 | claims the next row, or finds none exactly if none is ready and due; a row that holds no valid JSON is claimed all the same and then an error |
| ActionQueues.ActionQueue.Nack | automation_file/core/action_queue.py:135-150 | the row, whatever it was, is ready again or dead, due after the delay and with the reason; nothing else changes |
| ActionQueues.ActionQueue.Purge | automation_file/core/action_queue.py:160-164 | deletes and counts every row |
| ActionQueues.ActionQueue.DeadLetters | automation_file/core/action_queue.py:166-187 | exactly the dead rows |
| QueueModel.NextIff | automation_file/core/action_queue.py:101-107 | a row is claimed exactly if it is ready and due and before every other such row by priority, then by identifier |
| QueueModel.AttemptsAreClaims | automation_file/core/action_queue.py:112-115 | over any run `attempts` is the number of claims of the row |
| QueueModel.ClaimedWhenDue | automation_file/core/action_queue.py:96-150 | a row is claimed no earlier than it was asked to run or, sent back, than its delay is over |
| QueueModel.KeepsWhatWasEnqueued | automation_file/core/action_queue.py:73-150 | as long as it is there a row keeps the action, the priority and the time it was enqueued with |
| QueueModel.RequeueBetweenClaims | automation_file/core/action_queue.py:96-150 | between two claims of one row there is a `nack` of it with `requeue` |
| QueueModel.NoOvertaking | automation_file/core/action_queue.py:54-55 | a due row of no lower priority enqueued earlier is not claimed after a later one unless it was sent back |
| QueueModel.RowsConserved | automation_file/core/action_queue.py:73-164 | rows enqueued are rows deleted plus those ready, in flight and dead |
| QueueModel.ClaimLastsIff | automation_file/core/action_queue.py:96-164 | in any run a claimed row is still in flight by that claim exactly if no operation since purged the table or acknowledged or sent back that row |
| QueueModel.LateNackFreesOthersClaim | automation_file/core/action_queue.py:135-150 | a second `nack` by an earlier consumer frees the claim of the next one |
| NotificationRouting.NotificationRouter.AdmitMessage | automation_file/notify/router.py:401-418 | the throttling decision and the memory it leaves |
| NotificationRouting.NotificationRouter.PruneMemory | automation_file/notify/router.py:468-480 | eviction over the bound, then the timed pruning |
| NotificationRouting.NotificationRouter.PutRoute | automation_file/notify/router.py:450-454 | registers the route and forgets its memory exactly if it changed |
| NotificationRouting.NotificationRouter.DropRoute | automation_file/notify/router.py:456-459 | removes the route with its memory |
| NotificationRouting.NotificationRouter.SyncRoutes | automation_file/notify/router.py:325-350 | the loops drop the stale routes and put the wanted ones, in one section |
| NotificationRouting.NotificationRouter.Handle | automation_file/notify/router.py:369-395 | the loops have the effect of the rounds one after the other; a sink has an outcome exactly if a matching route names it, or names none and the sink is registered |
| RouterRate.LimitWithin | automation_file/notify/router.py:401-418 | held back by the limit only if, of what is remembered, the sink got as many within the period and the most a clock reading can be behind, whatever editions of the route other callers hold; never let through if it got as many within the period less that |
| RouterRate.RateLimitedIff | automation_file/notify/router.py:410-416 | with readings in the order of the lock, and whether the route is registered or not, held back exactly if the sink already got as many within the period since its memory was last forgotten or pruned away |
| RouterRate.UpToDateRespects | automation_file/notify/router.py:397-399 | callers that have the route as it is registered respect its limit |
| RouterRate.WindowBound | automation_file/notify/router.py:410-416 | of those, no window of the period, less what readings can be behind, ever holds more than the limit |
| RouterStale.LimitHoldsIff | automation_file/notify/router.py:397-416 | the limit can be exceeded in two ways and no other: a caller holds an edition of the route that lets more through, or deliveries outlive its registration and a timed pruning drops their memory |
| RouterStale.RemovedRouteExceeds | automation_file/notify/router.py:468-480 | a route with a limit of one in 60 seconds, removed while deliveries are under way, sends two in 30 |
| RouterMemory.RepeatWithin | automation_file/notify/router.py:401-409 | in every run, refused as a repeat only if the last admission of the event still bars it; without a flood, always if it bars it for longer than readings can be behind |
| RouterMemory.RepeatIff | automation_file/notify/router.py:408-409 | without a flood and with no earlier reading later, refused exactly if the last admission still bars it |
| RouterMemory.SeenIsBounded | automation_file/notify/router.py:468-473 | the memory never holds more than the bound plus one key |
| RouterFlood.OrderFollowsIff | automation_file/notify/router.py:468-473 | all along a run the memory is in the order of the last admissions exactly if no key is admitted again while an old entry of it, not the last, is left |
| RouterFlood.EvictedIff | automation_file/notify/router.py:469-473 | over the bound, exactly the entries beyond the first tenth of the bound are kept |
| RouterFlood.FloodForgetsNewest | automation_file/notify/router.py:469-473 | a flood of 10 000 messages in which a message admitted again at 12 is let through at 14 in spite of its window of 10, while one admitted at 5 is still refused |
| RouterSync.SyncIff | automation_file/notify/router.py:325-350 | after a sync the wanted routes are all there are of the origin; one of another origin stays exactly if none has its name |
| RouterSync.SyncTakesOver | automation_file/notify/router.py:325-350 | a route added by hand is replaced by a loaded one of its name, and the next load without that name removes it |
| RouterSync.SyncKeepsMemory | automation_file/notify/router.py:450-454 | loading the same route again keeps what was remembered of its messages |
| RouterDelivery.SinkIsServedOnce | automation_file/notify/router.py:369-395 | a sink gets the event at most once; its outcome is that of the sending, or throttled exactly if no route may send |
| RouterDelivery.PairsAreListed | automation_file/notify/router.py:382-383 | routes and sinks are tried route by route as they match, and for each in the order of its sinks, or of the registered ones if it names none |
| RouterDelivery.FirstRefusalStands | automation_file/notify/router.py:383-390 | a sink that no route sent to is reported as the first route that reached it was refused |
| RouterDelivery.SendsIff | automation_file/notify/router.py:372-375 | a route sends exactly if it is admitted in its turn and no earlier route sent to the sink |

## Left out

- Threads, pools and sleeping: actions end in any order and sections interleave in any order; the size of the pool, and the recursion limit of the interpreter, play no part.
- DagOutcome.OrderDoesNotMatter: says nothing about which failed dependency the text of a skip names, because that does depend on the order.
- DagBuilder.LinkAll: an entry of `depends_on` is a string; other entries are unknown ids in the source, and unhashable ones a `TypeError` that is not modelled.
- PipelineDraft.PipelineDraft.AddTask: arguments are JSON values, with anything else a scalar; listeners, batches, other task settings and the fields of the schedule are not modelled.
- Drafts loaded by `from_definition`: they may be cyclic or name unknown tasks; `_levels` and renaming are proved for those, the rest for drafts grown from an empty one.
- PatchEndings.RoundTripIff: quantifies over edit scripts and hunks in which no line without an ending is both deleted and added (`SkippedTogether` shows why; a script that aligns equal last lines keeps them) and over files whose line numbers have at most 4300 digits; which script `difflib` chooses is not modelled.
- DiffOps.ApplyUnifiedPatch: digits and white space in a header are the ASCII ones, where the regular expression takes those of any script; the digit limit of `int` is its default; reading and writing the file are left out.
- PatchText.SplitJoinIff: lines end where Python's `splitlines` ends them; encodings and the newline translation of text files are left out.
- AuditStores.SqliteAuditStore.Search: the engine is a filter, some sorted list and a page; its limits on pattern length, its handling of NUL characters and its refusal of lone surrogates are left out, as are write errors, the schema and the import of older logs.
- AuditQuery.Where: the metadata of a record is the JSON text that both stores keep; validating the filters is left out.
- Detector.DetectChanges: the order of dictionary iteration does not show in the sorted list and is left out; hashing is a given checksum per file.
- Monitor.VerifyPaths: reading and hashing the target is a given tree; case folding of paths, exclusions, remediation and the report itself are left out.
- Monitor.Accept: ends before the baseline is saved.
- QuickPass.QuickMissesIff: a file that vanishes during the pass is left out, and an empty version or type counts as present.
- Announcements.AlertsIff: a pass that raises after its comparison, in its remediation, counts as one that could not run.
- Leases.HeldOwnsIff: a release that raises after its transaction, when the connection is closed, is left out.
- TokenBucket.WindowBound: rounding of floating-point numbers is left out.
- RateLimiting.RateLimiter.Acquire: describes one caller; others interleave only in the run-level lemmas, where a waiting caller is one that asks again.
- CircuitBreaking.CircuitBreaker.Call: which errors are retriable is a parameter of the outcome.
- ActionQueues.ActionQueue.Dequeue: whether a row holds valid JSON is a parameter; errors of the database are left out.
- RouterMemory.RepeatWithin: after a flood only one direction holds, because the flood is meant to forget.
- NotificationRouting.NotificationRouter.Handle: describes one caller; matching of types, sources and severities, the order of the routes, the text of messages and the report of failed deliveries are left out.
- Quarantine and restore, watchers, storage backends, servers, user interfaces, configuration, secrets, archives and metrics: wrappers that add assumptions about other systems rather than proofs.
