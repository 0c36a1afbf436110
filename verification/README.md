# A verified model of the data-modelling server

This project models the parts of the server's Python backend where state changes
step by step and later steps depend on earlier ones, and proves what those parts
keep.

* **Undoable tables** (`QueryBuilder`, `Repository`, `Diffs`, `UndoRuns`,
  `Merging`, `TableActions`, `ConceptReducer`, `ResponseReducer`, `AllResponses`,
  `ResponsePasses`, `GroupedCodes`, `EditSessions`, `BucketRuns`, `BucketExport`,
  `BucketRestore`, `ConceptRows`, `ResponseRows`, `BucketRows`). A
  table is a map from row id to typed cells held by a mutable repository. Filters
  are rendered to SQL clauses, which are given their three-valued meaning. Every
  action returns a diff; `Faithful` says that a diff describes the change from one
  table to another. Undo and redo are proved for every run of faithful diffs, and
  `EditSessions` runs the reducers themselves with their diffs on two stacks. The
  modules named `Rows` say what each action leaves in the table, row by row.
* **The job scheduler** (`Scheduler`, `SchedulerSafety`, `SchedulerResults`,
  `SchedulerCounts`, `SchedulerRows`, `QueueManager`, `RateLimit`, `CallRebuild`). One labelled step
  is what runs between two awaits, or one lock section of a submitting thread; the
  results hold for every interleaving. `QueueManager` has the same state as an object whose
  methods are those atomic sections, each proved equal to its step.
* **The reference-counted daemon** (`Daemon`, `DaemonManager`): any number of
  tasks, two locks, and a failure or cancellation at any await.
* **Packing and adaptive splitting** (`Packing`, `AdaptiveSplit`, `SummaryChunks`):
  greedy packers and loops driven by a language model that may answer anything.
* **Comments, transcripts and streams** (`CommentForest`, `CommentTrees`,
  `CommentLabels`, `TranscriptWriter`, `LineStream`).

Outside services are parameters: token counts, truncation, decoding and stripping
are functions; the language model's answers are an arbitrary list; uuids are ids
that are new; clock readings are arguments that never go back.

Assumptions taken over from the design: one server process, database calls
succeed unless a constraint fails, a scheduler `stop` finishes before the next
`start`, ids are unique.

## What the code does that its names and comments do not suggest

* A restore looks each updated row up without asking for silent failure, so a
  missing row raises in the middle and leaves the table partly restored
  (`Diffs.RestoreDiff`, a table and a payload in `Diffs.HalfRestored`; it goes through
  exactly under `UndoRuns.CanRestoreIff`).
  For the same reason the insert branch of the response `RESTORE_STATE` is never
  reached.
* `RESTORE_STATE` of grouped codes records several updates for one row and does
  not coalesce them; restoring that diff then leaves the last old value
  (`BucketRestore.RestoreStateNotUndone`, exact condition on table and payload in
  `BucketRestore.RestoreStateUndoneIff`).
* `ADD_MANY` filters with a list holding a null, which matches nothing, so unmarked
  concepts stay (`ConceptReducer.AddManyKeepsUnmarked`).
* `SET_ALL_INCORRECT_BY_FILTER` compares database integers with `is False`, which
  never holds, so it never toggles back (`ResponseReducer.MarkIncorrectBy`).
* A response without a mark is meant to be marked true in the final codebook, but
  the type is compared as text with a member of a plain enumeration, so it stays
  unmarked everywhere (`ResponseReducer.DefaultMark`).
* `SET_ALL_CORRECT` and `SET_ALL_INCORRECT` sent to both codebooks are forced: the marks
  are read after the update, so the diff is empty and cannot undo the change
  (`ResponsePasses.ForcedExample`, exact condition `ResponsePasses.ForcedDescribedIff`).
* A removal by id sent to both codebooks may remove a row of the first codebook, which the
  two filtered passes of the restore never put back (`ResponsePasses.ForeignExample`,
  exact condition in `ResponsePasses.PassesDescribe`). A response that brings its own id
  is inserted by the first pass and makes the second raise
  (`ResponsePasses.GivenIdRaises`).
* The empty filter selects everything in `find` and cannot run in `update` and
  `delete` (`QueryBuilder.EmptyFilterDiffers`); a queued `where(column, None)`
  always raises (`QueryBuilder.QueuedNoneAlwaysRaises`).
* A job cancelled before it starts does not lower its function's count
  (`SchedulerResults.DiscardedNeverRetired`, a run in which it happens
  `SchedulerResults.DiscardedRun`), nor does a submission that fails
  after registering, a job whose worker is killed before it starts, a waiting job
  cancelled with its siblings, or a cancelled row dropped from the batch; there is
  no other cause (`SchedulerCounts.CachedIdleIff`).
* A job that is cancelled after a worker has taken it still runs, and its row stays in
  progress, unless its function was cancelled with it (`SchedulerRows.RunEndWrites`).
* A call with cached arguments loses its last arguments unless the last one is
  cached (`CallRebuild.RebuiltIsPrefix`).
* The cache belongs to the function, not to the call, so a later call changes the
  cached arguments of one still waiting (`CallRebuild.LaterCallOverwrites`,
  `CallRebuild.LaterKeywordsOverwrite`); the exact conditions for a call to come back
  are `CallRebuild.EveryCallRebuilt`, `CallRebuild.WholeCallRebuilt` and
  `CallRebuild.KeywordsRestored`. A cached null is taken for an empty slot
  (`CallRebuild.NullArgumentReplaced`).
* A task cancelled while it waits to leave the daemon context never lowers the
  count (`Daemon.LostContextKeepsDaemon`, a run in which it happens `Daemon.LostRun`);
  without one the count returns to zero
  (`Daemon.EndsAtZeroIff`).
* Two new clusters of one name in one answer are both appended
  (`AdaptiveSplit.RepeatedNewName`, exact condition `AdaptiveSplit.NamesDistinctIff`).
* Summaries that do not fit in pairs are summarised for ever
  (`SummaryChunks.NoProgress`, exact condition for a constant summary
  `SummaryChunks.EndsIff`, an input `SummaryChunks.StuckExample`).

## Model

| member | source | states |
|---|---|---|
| QueryBuilder.FormatFilter | backend/data_modeling_server/database/query_builder.py:80-104 | a filter that renders names a known column and has one placeholder per parameter |
| QueryBuilder.ClauseMeans | backend/data_modeling_server/database/query_builder.py:80-104 | under three-valued logic a rendered clause is true exactly when the cell meets the condition the filter states |
| QueryBuilder.RenderedMeans | backend/data_modeling_server/database/query_builder.py:171-196 | the rendered clauses together are true exactly for the rows that meet every condition, and placeholders match parameters in number |
| QueryBuilder.SameRows | backend/data_modeling_server/database/query_builder.py:171-275 | for every non-empty filter map find (empty builder), update and delete succeed together, line placeholders up with parameters and select the same rows |
| QueryBuilder.FindMeans | backend/data_modeling_server/database/query_builder.py:171-196 | find with queued conditions selects exactly the rows that meet all of them and the filter map |
| QueryBuilder.WritesGiven | backend/data_modeling_server/database/query_builder.py:203-254 | update and insert name the given columns in order, each mark standing for the converted value of its column |
| QueryBuilder.EmptyFilterDiffers | backend/data_modeling_server/database/query_builder.py:171-275 | the empty filter map is where the three differ: find selects every row, update renders a statement that cannot run, delete raises |
| QueryBuilder.NullInListNeverMatches | backend/data_modeling_server/database/query_builder.py:91-101 | a null inside an IN list matches no row, and one inside a NOT IN list excludes every row |
| QueryBuilder.QueuedNoneAlwaysRaises | backend/data_modeling_server/database/query_builder.py:121-145 | a null queued with where turns into IS or IS NOT, which find then always refuses |
| QueryBuilder.RenderNeedsAll | backend/data_modeling_server/database/query_builder.py:171-196 | one filter that cannot be rendered makes the whole statement raise |
| QueryBuilder.Builder.AddWhere | backend/data_modeling_server/database/query_builder.py:121-145 | where queues exactly the condition it describes, or raises and leaves the builder as it was |
| QueryBuilder.Builder.Find | backend/data_modeling_server/database/query_builder.py:171-196 | the loop over queued and given filters builds the statement of FindStatement |
| QueryBuilder.Builder.RenderUpdate | backend/data_modeling_server/database/query_builder.py:233-254 | the loops over updates and filters build the statement of UpdateStatement |
| QueryBuilder.Builder.RenderInsert | backend/data_modeling_server/database/query_builder.py:203-212 | the loop over a row checks and converts every cell, and raises at the first of the wrong type |
| QueryBuilder.Builder.RenderDelete | backend/data_modeling_server/database/query_builder.py:256-275 | the loop over filters builds the statement of DeleteStatement, which refuses an empty filter |
| Repositories.Repository.Find | backend/data_modeling_server/database/base_class.py:220-242 | find returns each row its filter matches once, and raises exactly when the filter does not run |
| Repositories.Repository.UpdateReturning | backend/data_modeling_server/database/base_class.py:318-322 | exactly the matching rows get the new cells and are returned; a new id moves the one matching row or raises; on failure nothing changes |
| Repositories.Repository.DeleteReturning | backend/data_modeling_server/database/base_class.py:325-329 | exactly the matching rows go and are returned with their old cells |
| Repositories.Repository.InsertReturning | backend/data_modeling_server/database/base_class.py:309-314 | a row is added, its cells converted, and returned exactly when its id is new and every cell is of its column's type |
| Diffs.FindOne | backend/data_modeling_server/database/base_class.py:244-260 | looking one row up by id raises exactly when no row has it: a missing row, a null or an ill-typed id |
| Diffs.RevertUpdates | backend/data_modeling_server/utils/reducers.py:55-70 | the loop over updated entries sets back what differs, logs it, and stops at the first entry whose row is gone, that names no column, or whose old value has the wrong type; the table stays typed |
| Diffs.RestoreDiff | backend/data_modeling_server/utils/reducers.py:52-81 | for any payload: updates are reverted first, then inserted ids deleted, then deleted rows inserted; it returns exactly when no step raises, and when one does the table holds what was done so far |
| Diffs.RevertsStop | backend/data_modeling_server/utils/reducers.py:55-58 | an entry that raises ends the replay with everything after it undone |
| Diffs.HalfRestored | backend/data_modeling_server/utils/reducers.py:52-81 | two rows renamed, the second then deleted: restoring the renaming puts the first back and raises, leaving neither table |
| UndoRuns.CanRestoreIff | backend/data_modeling_server/utils/reducers.py:52-81 | a restore goes through exactly when the payload is of the table's types, every updated row is there, and the deleted rows are distinct and their ids free once the inserted ones are gone |
| UndoRuns.RevertOneSays | backend/data_modeling_server/utils/reducers.py:55-70 | of any entry played back: exactly the columns named whose value differs from the old one get it, converted, and the log has those columns with both values; no other row changes |
| UndoRuns.RestoredRows | backend/data_modeling_server/utils/reducers.py:52-81 | after a restore of any payload that goes through: inserted rows are gone, deleted ones are there as given, and every other row is as the updates played back left it |
| UndoRuns.FaithfulTyped | backend/data_modeling_server/utils/reducers.py:52-81 | a diff between typed tables is a payload of their types, so what an action returns can be sent back |
| UndoRuns.RestoreUndoes | backend/data_modeling_server/utils/reducers.py:52-81 | restoring a diff that describes the change from one table to another gives the first table back, and the diff it returns describes the way forward |
| UndoRuns.MovesEnabled | backend/data_modeling_server/utils/reducers.py:52-81 | along a timeline the last diff of either stack can always be restored without raising |
| UndoRuns.SessionsTrack | backend/data_modeling_server/utils/reducers.py:52-244 | any mix of edits, undos and redos keeps the table and both stacks on the timeline of tables |
| UndoRuns.UndoAllRedoAll | backend/data_modeling_server/utils/reducers.py:52-244 | restoring all diffs of a run last-first gives the first table, and restoring what those undos returned gives the last one, also when a diff deletes and inserts the same id |
| EditSessions.UndoLast | backend/data_modeling_server/utils/reducers.py:52-81 | sending the last diff back never raises, and the diff that returns goes on the redo stack |
| EditSessions.UndoAll | backend/data_modeling_server/utils/reducers.py:52-81 | sending all diffs back last-first ends on the first table |
| EditSessions.RedoAll | backend/data_modeling_server/utils/reducers.py:52-81 | sending back what those returned, last-first, ends on the last table |
| EditSessions.EditConcepts | backend/data_modeling_server/utils/reducers.py:83-244 | a concept action that returns extends the timeline by the table it leaves |
| EditSessions.EditResponses | backend/data_modeling_server/utils/reducers.py:637-1030 | so does a response action |
| EditSessions.EditBuckets | backend/data_modeling_server/utils/reducers.py:333-436 | so does a bucket action other than RESTORE_STATE |
| EditSessions.Send | backend/data_modeling_server/utils/reducers.py:83-1030 | an action of any of the three kinds returns exactly under its stated condition and then extends the timeline |
| EditSessions.RunCommands | backend/data_modeling_server/utils/reducers.py:52-1069 | on the concept, response or bucket table, any list of actions, undos and redos runs until one action raises, each action with its stated outcome, on a timeline that starts at the first table |
| EditSessions.RunAndUndo | backend/data_modeling_server/utils/reducers.py:52-1069 | such a run, then undoing all of it last-first: the table is the one it began with, and the diffs that returned lead back along the timeline |
| EditSessions.RunUndoRedo | backend/data_modeling_server/utils/reducers.py:52-1069 | running any list of actions, undoing all and redoing all ends on the table the actions led to |
| Merging.MergeDiffs | backend/data_modeling_server/utils/reducers.py:25-50 | the dictionary loop computes the composition: lists joined, one entry per row with its fields folded |
| Merging.MergedField | backend/data_modeling_server/utils/reducers.py:29-42 | a merged field has the old value of its first entry and the new value of its last, and only recorded fields appear |
| Merging.MergeFaithful | backend/data_modeling_server/utils/reducers.py:25-50 | the merged diff of two passes describes both exactly when the second deletes and updates nothing the first inserted and deletes nothing it updated; one restore then undoes both |
| Merging.CoalescedIsFaithful | backend/data_modeling_server/utils/reducers.py:25-81 | any sequence of updates made one after the other, once coalesced, describes the whole change, and restoring it gives the start back |
| Merging.RawRestoreIff | backend/data_modeling_server/utils/reducers.py:55-70 | restoring such a sequence of typed updates as it stands gives the start back exactly when every field has the same old value in its first and last entry |
| TableActions.UpdateRecorded | backend/data_modeling_server/utils/reducers.py:660-669 | an update recorded with the old values read before it lists exactly the updated rows, each with its old and new cells |
| TableActions.ReplaceRecorded | backend/data_modeling_server/utils/reducers.py:87-98 | delete then insert succeeds exactly when the new ids are free and the rows of the columns' types, leaves the stated table either way, and the diff describes the change |
| TableActions.InsertRecorded | backend/data_modeling_server/utils/reducers.py:173-195 | insertions stop at the first id already there or cell of the wrong type; otherwise the diff describes them |
| TableActions.DeleteRecorded | backend/data_modeling_server/utils/reducers.py:222-223 | a recorded deletion removes exactly the matching rows and describes it |
| TableActions.FilterRunsIff | backend/data_modeling_server/database/query_builder.py:171-196 | a filter map runs exactly when each of its entries does |
| ConceptReducer.Process | backend/data_modeling_server/utils/reducers.py:83-244 | every concept action succeeds exactly under the stated condition, leaves exactly the stated table, still typed, and returns a diff that describes the change |
| ConceptReducer.OneFits | backend/data_modeling_server/utils/reducers.py:173-195 | a single row is added exactly when its id is free, its description text or missing, and its mark a number or missing |
| ConceptReducer.RewriteAt | backend/data_modeling_server/utils/reducers.py:143-171 | an index in range rewrites exactly one row of the workspace; an index out of range changes nothing |
| ConceptReducer.PickAt | backend/data_modeling_server/utils/reducers.py:144-146 | an index picks a row of the workspace exactly when it is in range |
| ConceptReducer.Filter | backend/data_modeling_server/utils/reducers.py:130 | the entries added are exactly those whose word is not yet in the workspace, in their order |
| ConceptReducer.AddManyKeepsUnmarked | backend/data_modeling_server/utils/reducers.py:127-131 | the filter written to remove rejected and unmarked entries matches only rejected ones |
| ConceptRows.InitializeRows | backend/data_modeling_server/utils/reducers.py:87-98 | afterwards the workspace holds exactly one row for each entry, with its word, description and mark; no other row changes |
| ConceptRows.RestoreStateRows | backend/data_modeling_server/utils/reducers.py:225-236 | the same, every mark made true or false |
| ConceptRows.AddManyRows | backend/data_modeling_server/utils/reducers.py:127-141 | the rows of the workspace marked false are gone, and exactly the entries whose word no row of the workspace had are there with their cells |
| ConceptRows.OneMoreRow | backend/data_modeling_server/utils/reducers.py:173-195 | one more row with the entry's cells, marked true when added and as given when brought back |
| ConceptRows.SetAllRows | backend/data_modeling_server/utils/reducers.py:100-125 | every row of the workspace gets the mark and keeps its other cells; no other row changes |
| ConceptRows.ToggleMarkRow | backend/data_modeling_server/utils/reducers.py:158-171 | an index in range gives one row of the workspace the mark and changes nothing else |
| ConceptRows.UpdateFieldsRow | backend/data_modeling_server/utils/reducers.py:204-220 | an index in range gives one row of the workspace the given cells and changes nothing else |
| ConceptRows.UpdateFieldRow | backend/data_modeling_server/utils/reducers.py:143-156 | the same for one column |
| ConceptRows.DeletedRows | backend/data_modeling_server/utils/reducers.py:197-223 | an index in range removes one row of the workspace, RESET all of them; every other row stays |
| ResponseReducer.Process | backend/data_modeling_server/utils/reducers.py:637-1069 | every modelled response action returns exactly under the stated condition, leaves exactly the stated table, still typed, and a diff that describes the change (for RESTORE_STATE a chain of updates), listing rows of the pass's codebook type only unless it removes by id |
| ResponseReducer.WriteRuns | backend/data_modeling_server/utils/reducers.py:714-1000 | a single-update action runs exactly when ids, marks and markers are of their types |
| ResponseReducer.UpdateResponse | backend/data_modeling_server/utils/reducers.py:660-669 | the shared update helper succeeds exactly when filter and updates run, and lists exactly the rows it changed |
| ResponseReducer.ProcessMarks | backend/data_modeling_server/utils/reducers.py:675-834 | marking all rows in scope returns exactly when the filter runs, leaves the stated marks with the toggle to unmarked, and a diff that describes them |
| ResponseReducer.MarkIncorrectBy | backend/data_modeling_server/utils/reducers.py:794-834 | the count of marks that are the constant False stays zero whatever the rows hold, so the mark becomes false and never toggles back |
| ResponseReducer.ProcessRows | backend/data_modeling_server/utils/reducers.py:851-968 | adding, replacing and removing responses returns exactly under the stated condition and leaves the stated table and a diff that describes it |
| ResponseReducer.NoOther | backend/data_modeling_server/utils/reducers.py:687-691 | the grouped query decides whether every row in scope already carries the mark |
| ResponseReducer.Keep | backend/data_modeling_server/utils/reducers.py:871-893 | exactly the responses with a code and a quote are kept, in their order |
| ResponseReducer.DefaultMark | backend/data_modeling_server/utils/reducers.py:865-936 | a response without a mark is stored unmarked for every codebook type |
| ResponseReducer.EmptyListRaises | backend/data_modeling_server/utils/reducers.py:942-951 | removing an empty list of ids is a filter that does not run |
| ResponseReducer.RewriteEach | backend/data_modeling_server/utils/reducers.py:1031-1067 | restoring a state returns exactly when every id given is there with values of their types, leaves the fold of the payload's rows over the table, and returns the chain of updates made |
| ResponseRows.SetIncorrectRows | backend/data_modeling_server/utils/reducers.py:706-708 | the row with the id is marked false; every other cell and row stays |
| ResponseRows.MarkResponseRows | backend/data_modeling_server/utils/reducers.py:840-842 | the row with the id gets the mark; every other cell and row stays |
| ResponseRows.MarkByTextRows | backend/data_modeling_server/utils/reducers.py:844-849 | a row gets the mark exactly when it is of the workspace and codebook type and has the code, quote and post; nothing else changes |
| ResponseRows.EditCodeRows | backend/data_modeling_server/utils/reducers.py:957-960 | a row changes exactly when it is in scope with the current code; its code is then the new one and its other cells stay |
| ResponseRows.EditCodeRenames | backend/data_modeling_server/utils/reducers.py:957-960 | afterwards no row in scope has the old code, and the rows in scope with the new code are those that had either |
| ResponseRows.UpdateCodeRows | backend/data_modeling_server/utils/reducers.py:986-990 | a row gets the new code exactly when it is in scope with the quote and the previous code; nothing else changes |
| ResponseRows.SetChatHistoryRows | backend/data_modeling_server/utils/reducers.py:979-984 | a row gets the history exactly when it is in scope with the post, sentence and code; nothing else changes |
| ResponseRows.UpsertMarkerRows | backend/data_modeling_server/utils/reducers.py:992-997 | a row gets the range exactly when it is in scope with the code, quote and post; nothing else changes |
| ResponseRows.EditHighlightRows | backend/data_modeling_server/utils/reducers.py:968-977 | a row gets the new sentence, and the range if one is given, exactly when it is in scope with the post, sentence and code; nothing else changes |
| ResponseRows.MarkAllRows | backend/data_modeling_server/utils/reducers.py:675-749 | every row in scope gets the mark, or null when all had it already; no other cell or row changes |
| ResponseRows.MarkByFilterRows | backend/data_modeling_server/utils/reducers.py:751-834 | the same for the rows in scope with a code or a post; marking incorrect never gives null |
| ResponseRows.DeleteCodeRows | backend/data_modeling_server/utils/reducers.py:953-955 | exactly the rows in scope with the code go |
| ResponseRows.DeleteHighlightRows | backend/data_modeling_server/utils/reducers.py:962-966 | exactly the rows in scope with the post, quote and code go |
| ResponseRows.RemoveIdsRows | backend/data_modeling_server/utils/reducers.py:942-951 | exactly the rows named go |
| ResponseRows.ResetRows | backend/data_modeling_server/utils/reducers.py:1028-1030 | no row in scope is left and every other row stays |
| ResponseRows.AddResponsesRows | backend/data_modeling_server/utils/reducers.py:919-940 | a row for every response with a code and a quote, with its cells under the workspace and codebook type; every other row stays |
| ResponseRows.SetResponsesRows | backend/data_modeling_server/utils/reducers.py:871-893 | the same, after every row in scope has gone |
| ResponseRows.SetPartialResponsesRows | backend/data_modeling_server/utils/reducers.py:895-917 | the same, after exactly the rows in scope of the posts the responses are about have gone |
| ResponseRows.ItemRows | backend/data_modeling_server/utils/reducers.py:1031-1067 | one payload response of RESTORE_STATE rewrites the row it names: the workspace always, the codebook type as given or that of the pass, every other column read as given or kept |
| ResponseRows.RestoreStateRow | backend/data_modeling_server/utils/reducers.py:1031-1067 | after RESTORE_STATE a row is what the last payload response that names it makes of what the earlier ones left |
| ResponseRows.UnnamedStays | backend/data_modeling_server/utils/reducers.py:1031-1067 | a row that no payload response names stays as it is |
| AllResponses.RestoreAll | backend/data_modeling_server/utils/reducers.py:1110-1173 | the two filtered passes return exactly when neither raises, leave the table both make, and their merged diff comes back |
| AllResponses.TwoPassIff | backend/data_modeling_server/utils/reducers.py:1113-1151 | two passes restore the table exactly when the passes stay apart: a condition on the payload alone |
| AllResponses.TwoPassReturns | backend/data_modeling_server/utils/reducers.py:1113-1173 | then the merged diff returned describes the way back, so it can be restored in turn |
| ResponsePasses.ProcessAll | backend/data_modeling_server/utils/reducers.py:1152-1172 | an action sent to both codebooks returns exactly when both passes do, leaves the table both make, and the merged diff describes the whole change; sent back to the same endpoint it gives the first table exactly when no row removed by id was of another codebook type |
| ResponsePasses.PassesDescribe | backend/data_modeling_server/utils/reducers.py:1110-1172 | that, for any two diffs the passes may return |
| ResponsePasses.ForeignExample | backend/data_modeling_server/utils/reducers.py:942-951 | a response of the first codebook that is removed by position and not put back |
| ResponsePasses.GivenIdRaises | backend/data_modeling_server/utils/reducers.py:1152-1170 | an id that both passes read makes the second pass raise |
| ResponsePasses.ForceMarks | backend/data_modeling_server/utils/reducers.py:675-683 | a forced marking marks the rows of both types and returns an empty diff |
| ResponsePasses.ForcedRows | backend/data_modeling_server/utils/reducers.py:675-683 | a row gets the mark exactly when it is of the workspace and of either codebook; nothing else changes |
| ResponsePasses.ForceAll | backend/data_modeling_server/utils/reducers.py:1152-1172 | both passes together do the same |
| ResponsePasses.ForcedDescribedIff | backend/data_modeling_server/utils/reducers.py:675-683 | that diff describes the change exactly when every row in scope had the mark already |
| ResponsePasses.ForcedExample | backend/data_modeling_server/utils/reducers.py:675-683 | it does not for an unmarked response of the initial copy |
| GroupedCodes.Process | backend/data_modeling_server/utils/reducers.py:333-485 | every bucket action raises exactly when stated, leaves exactly the stated table, still typed, and returns a diff (for RESTORE_STATE the list it recorded) that describes the change |
| GroupedCodes.FiltersSelect | backend/data_modeling_server/utils/reducers.py:353-477 | the filters address the rows of a workspace, of a bucket, with a code, or outside every bucket |
| GroupedCodes.LookUpName | backend/data_modeling_server/utils/reducers.py:377-381 | a move takes the name of some row of the target bucket, or null when there is none; a number as target raises |
| GroupedCodes.PlaceAll | backend/data_modeling_server/utils/reducers.py:438-477 | RESTORE_STATE clears the workspace and places each payload bucket in order, recording a chain of updates whose last old values lead each row to where it was before its last one |
| GroupedCodes.PlayRecords | backend/data_modeling_server/utils/reducers.py:448-477 | recorded rewrites appended to a chain of updates keep it a chain from the first table |
| BucketRows.AddBucketRow | backend/data_modeling_server/utils/reducers.py:341-351 | one more row, of the workspace, without a code, in the new bucket |
| BucketRows.DeleteBucketRows | backend/data_modeling_server/utils/reducers.py:353-371 | exactly the rows of the workspace in the bucket are in none afterwards; other cells and rows stay |
| BucketRows.MoveCodeRows | backend/data_modeling_server/utils/reducers.py:373-397 | exactly the rows of the workspace with the code are in the target bucket, under the name some row of it has, or null when it has none |
| BucketRows.MoveUnplacedRows | backend/data_modeling_server/utils/reducers.py:399-417 | exactly the rows of the workspace in no bucket are in the miscellaneous one afterwards |
| BucketRows.UpdateNameRows | backend/data_modeling_server/utils/reducers.py:419-436 | exactly the rows of the workspace in the bucket have the new name |
| BucketRows.RestoreListedRow | backend/data_modeling_server/utils/reducers.py:438-477 | after RESTORE_STATE a row of the workspace is in the last payload bucket that lists its code |
| BucketRows.RestoreOtherRow | backend/data_modeling_server/utils/reducers.py:438-477 | any other row of the workspace is in no bucket, and rows of other workspaces stay |
| BucketRows.Refusals | backend/data_modeling_server/utils/reducers.py:341-446 | what is refused: no bucket to delete, no payload to restore, a row id in use, a number where the table holds text |
| BucketRuns.StepIff | backend/data_modeling_server/utils/reducers.py:341-477 | every action but the restore of a diff keeps one name per bucket id, null id with null name and the miscellaneous name exactly when its guard holds |
| BucketRuns.RestoredIff | backend/data_modeling_server/utils/reducers.py:438-477 | RESTORE_STATE keeps that invariant exactly when the places its payload gives to existing codes agree with each other and with other workspaces |
| BucketRuns.BucketsKeep | backend/data_modeling_server/utils/reducers.py:438-477 | in particular when the payload names each id once, keeps the miscellaneous name and agrees with other workspaces |
| BucketRuns.StepCodes | backend/data_modeling_server/utils/reducers.py:341-477 | no action but the restore of a diff changes which code a row holds; adding a bucket adds one row without a code |
| BucketRuns.RunsKeepBuckets | backend/data_modeling_server/utils/reducers.py:333-485 | over any run of guarded actions, undos and redos the invariant holds at every table, each row keeps its code, and the only other rows are those of added buckets |
| BucketExport.LoadGroupedCodes | backend/data_modeling_server/controllers/state_controller.py:535-543 | codes are collected per bucket id with the first row's name |
| BucketExport.FormatGroupedCodes | backend/data_modeling_server/controllers/state_controller.py:555-563 | codes are collected per bucket id with the last row's name, blank codes dropped |
| BucketExport.NamesServed | backend/data_modeling_server/controllers/state_controller.py:535-563 | a bucket is loaded under the name of its first row and formatted under that of its last |
| BucketExport.CodesServed | backend/data_modeling_server/controllers/state_controller.py:535-563 | its codes are those of its rows, in row order |
| BucketExport.PresentAre | backend/data_modeling_server/controllers/state_controller.py:555-563 | the formatter keeps those that are not null or empty, in order |
| BucketExport.GroupsInOrder | backend/data_modeling_server/controllers/state_controller.py:535-563 | buckets are listed once each, in the order of their first rows |
| BucketExport.SameGroupsIff | backend/data_modeling_server/controllers/state_controller.py:535-563 | the two exports agree exactly when every id has the same name in its first and its last row |
| BucketExport.ConsistentSameGroups | backend/data_modeling_server/controllers/state_controller.py:535-563 | so they agree in every table that keeps the bucket invariant |
| BucketRestore.ExportRoundTrip | backend/data_modeling_server/utils/reducers.py:438-477 | restoring an export leaves rows without a code outside every bucket, leaves other workspaces alone, and puts every coded row back exactly when no code is in two buckets |
| BucketRestore.RestoreStateUndoneIff | backend/data_modeling_server/utils/reducers.py:448-477 | restoring the diff of a RESTORE_STATE as it stands gives the table back exactly when every listed row was, before, where it is just before its last listing |
| BucketRestore.RestoreStateNotUndone | backend/data_modeling_server/utils/reducers.py:448-477 | a concrete payload that fails that condition, the list it records, and that coalescing makes it undoable |
| SchedulerSafety.StepKeeps | backend/data_modeling_server/services/llm_service.py:197-515 | every step of submitters, enqueuer, workers, status check and stop keeps the scheduler invariant, and no function's surplus count ever falls |
| SchedulerSafety.Reachable | backend/data_modeling_server/services/llm_service.py:121-515 | the invariant holds in every state of every interleaving |
| SchedulerResults.BranchesDead | backend/data_modeling_server/services/llm_service.py:274-288 | the branches for a missing future and for a missing cached function are never taken |
| SchedulerResults.CountsCover | backend/data_modeling_server/services/llm_service.py:470-478 | a function's count is at least its pending, read, queued and held jobs, and every pending row has a local future |
| SchedulerResults.PutNeverWaits | backend/data_modeling_server/services/llm_service.py:209-270 | the queue never exceeds its maximum and the next put always finds room |
| SchedulerResults.HandedAtMostOnce | backend/data_modeling_server/services/llm_service.py:307-330 | over a whole run no job is taken from the queue twice |
| SchedulerResults.HeldByOne | backend/data_modeling_server/services/llm_service.py:307-430 | no two workers hold the same job |
| SchedulerResults.StopsWhenIdle | backend/data_modeling_server/services/llm_service.py:178-197 | the status check stops the scheduler only when no row is pending, nothing is queued and no worker holds a job, and nothing is queued or held until the stop |
| SchedulerResults.SiblingsCancelled | backend/data_modeling_server/services/llm_service.py:389-402 | at the threshold every other job of the function still in play is cancelled, future and row |
| SchedulerResults.CancelledNeverStarted | backend/data_modeling_server/services/llm_service.py:312-326 | once its future is cancelled a job is never started: taking it from the queue discards it |
| SchedulerResults.DiscardedNeverRetired | backend/data_modeling_server/services/llm_service.py:312-326 | a discarded job never gives its count back, so its function stays cached for the rest of the run |
| SchedulerResults.DiscardedRun | backend/data_modeling_server/services/llm_service.py:312-326 | a run of eight steps, for any job and function, after which nothing is pending, queued or held and the function is cached |
| SchedulerCounts.StepAccount | backend/data_modeling_server/services/llm_service.py:197-515 | every step raises a function's surplus by exactly the jobs it takes out of play without giving their count back, and one for a submission that fails after registering |
| SchedulerCounts.CountIs | backend/data_modeling_server/services/llm_service.py:405-429 | in every run a function's count is its jobs in play plus those lost that way, and it is cached exactly when that is not zero |
| SchedulerCounts.CachedIdleIff | backend/data_modeling_server/services/llm_service.py:405-429 | a function with no job in play is still cached exactly when some step before lost one of its jobs |
| SchedulerRows.RowsReachable | backend/data_modeling_server/services/llm_service.py:121-515 | in every state of every run the row of a job read, queued, taken or run says where the job is, or cancelled, and then its future is not open |
| SchedulerRows.RunEndWrites | backend/data_modeling_server/services/llm_service.py:355-409 | in every reachable state: when a run ends that was not interrupted and the future is open, the future is answered and the row says completed exactly when the function returned and failed otherwise; else the future and the row stay, in progress or cancelled with the function; every other row and future is as before |
| SchedulerRows.StepWrites | backend/data_modeling_server/services/llm_service.py:250-359 | a row taken next says enqueued and its job is last in the queue, a job started says in progress, a job with a cancelled future says cancelled and is not held |
| SchedulerRows.RowChanges | backend/data_modeling_server/services/llm_service.py:197-515 | a row changes only when the step takes its job, discards it, starts it, ends it with its future open, or cancels it with its function |
| SchedulerRows.TakeWrites | backend/data_modeling_server/services/llm_service.py:209-288 | in any state: with a local future a row is queued and marked, without one it fails |
| SchedulerRows.DequeueWrites | backend/data_modeling_server/services/llm_service.py:309-342 | in any state: a cancelled job is forgotten without giving its count back, a job of an unknown function fails with its future, any other is held |
| SchedulerRows.SubmissionWrites | backend/data_modeling_server/services/llm_service.py:439-515 | a submission opens a future, then lists the job, counts it and writes a pending row, or raises with count and list raised |
| SchedulerRows.CancelledRunWrites | backend/data_modeling_server/services/llm_service.py:383-402 | the job's row says cancelled and its open future is answered; at the threshold exactly the function's other jobs known here are cancelled, row and open future |
| SchedulerRows.CancelsCounted | backend/data_modeling_server/services/llm_service.py:389-401 | over any run, for a positive threshold, the count of a function's cancelled runs is the number of them less whole rounds of the threshold, and below it |
| SchedulerRows.RetireWrites | backend/data_modeling_server/services/llm_service.py:410-430 | a worker done with a job forgets its future, lists it once less and counts one less, and the function is kept exactly when more remain |
| SchedulerRows.FinishWrites | backend/data_modeling_server/services/llm_service.py:410-430 | whenever a worker finishes the function is still cached, so that is what happens |
| SchedulerRows.StatusCheckStopsIff | backend/data_modeling_server/services/llm_service.py:178-197 | the verdict to stop falls exactly when nothing is queued, no row is pending, and no worker is busy or no future is left |
| SchedulerRows.CallerWrites | backend/data_modeling_server/services/llm_service.py:451-456 | cancelling drops an open future, giving up after a failed submission answers it and forgets the job; no other job is touched |
| SchedulerRows.LifecycleWrites | backend/data_modeling_server/services/llm_service.py:121-215 | a start brings up the configured workers, and the enqueuer reads distinct pending rows, all of them or as many as the queue has room for |
| SchedulerRows.FirstInFirstOut | backend/data_modeling_server/services/llm_service.py:209-330 | jobs are handed out in the order they were put into the queue |
| QueueManager.GlobalQueueManager.constructor | backend/data_modeling_server/services/llm_service.py:81-99 | a new process marks stray rows failed and starts with nothing under way |
| QueueManager.GlobalQueueManager.AddFuture | backend/data_modeling_server/services/llm_service.py:441-445 | a submission first records its future |
| QueueManager.GlobalQueueManager.SubmitTaskSync | backend/data_modeling_server/services/llm_service.py:468-515 | registering a call raises its count, lists the job and inserts the row; a failure leaves the count and list raised |
| QueueManager.GlobalQueueManager.EnqueueNext | backend/data_modeling_server/services/llm_service.py:221-288 | the next row read is queued and marked, or failed without a local future |
| QueueManager.GlobalQueueManager.TakeJob | backend/data_modeling_server/services/llm_service.py:309-342 | a dequeued job is discarded, failed or held |
| QueueManager.GlobalQueueManager.StartJob | backend/data_modeling_server/services/llm_service.py:355-359 | the row says in progress before the function is called |
| QueueManager.GlobalQueueManager.FinishRun | backend/data_modeling_server/services/llm_service.py:361-409 | the end of a run equals the step: the future is answered first, and the row is written only when that did not raise |
| QueueManager.GlobalQueueManager.FinishCancelled | backend/data_modeling_server/services/llm_service.py:383-402 | a cancelled run counts up and at the threshold cancels its siblings |
| QueueManager.GlobalQueueManager.CancelSiblings | backend/data_modeling_server/services/llm_service.py:393-400 | the loop cancels exactly the function's other jobs with a local future |
| QueueManager.GlobalQueueManager.Finish | backend/data_modeling_server/services/llm_service.py:410-429 | a finished job gives up its future and its place and lowers the count, deleting the function at zero |
| QueueManager.GlobalQueueManager.CheckStatus | backend/data_modeling_server/services/llm_service.py:178-197 | the status check decides to stop under either of its two conditions |
| RateLimit.StartsSpaced | backend/data_modeling_server/services/llm_service.py:344-353 | recorded starts are never closer than the interval, across all workers and for every limit but zero |
| RateLimit.GapValue | backend/data_modeling_server/services/llm_service.py:54-57 | the interval is 60/r + 0.1 seconds, so r of them exceed a minute |
| RateLimit.WakesLater | backend/data_modeling_server/services/llm_service.py:344-353 | the section is left at the later of now and the last start plus the interval |
| RateLimit.WindowBound | backend/data_modeling_server/services/llm_service.py:344-353 | any sixty seconds of any run hold at most r recorded starts |
| RateLimit.RateGate.Delay | backend/data_modeling_server/services/llm_service.py:344-353 | the sleep asked for ends exactly when the interval is over; without a limit there is none |
| CallRebuild.Remember | backend/data_modeling_server/services/llm_service.py:486-491 | a submission caches exactly the arguments at the given positions |
| CallRebuild.Store | backend/data_modeling_server/services/llm_service.py:499 | the stored arguments are those outside the given positions |
| CallRebuild.Rebuild | backend/data_modeling_server/services/llm_service.py:237-245 | the rebuilding loop |
| CallRebuild.RebuiltIsPrefix | backend/data_modeling_server/services/llm_service.py:237-245 | a rebuilt call is a prefix of the original, as long as the longer of cache and stored list, and the whole call exactly when nothing positional or the last argument is cached |
| CallRebuild.EveryCallRebuilt | backend/data_modeling_server/services/llm_service.py:229-245 | whatever calls of any length were submitted, if no cached position was last given a null: a call is rebuilt as a prefix of itself exactly when at each cached position the last call that has it gave the same argument and no call has one that this call lacks, and as itself exactly when also nothing or its last position is cached |
| CallRebuild.WholeCallRebuilt | backend/data_modeling_server/services/llm_service.py:229-245 | nulls included, for calls of which none has a cached position this one lacks: it comes back whole exactly when the cache still holds its arguments, none is a null, and nothing or its last position is cached |
| CallRebuild.LastArgumentLost | backend/data_modeling_server/services/llm_service.py:237-245 | caching only the first of three arguments loses the last |
| CallRebuild.LaterCallOverwrites | backend/data_modeling_server/services/llm_service.py:486-491 | a later call with another cached argument changes a call still waiting |
| CallRebuild.NullArgumentReplaced | backend/data_modeling_server/services/llm_service.py:237-245 | a call with a cached null gets its next stored argument in that place |
| CallRebuild.NullHidesChange | backend/data_modeling_server/services/llm_service.py:237-245 | with a null given last, a call may come back although the cache has changed |
| CallRebuild.KeywordsRestored | backend/data_modeling_server/services/llm_service.py:229-247 | a call's keyword arguments come back unchanged exactly when for every cached name the last call that gives it gave the same value and no call gives one that this call lacks |
| CallRebuild.LaterKeywordsOverwrite | backend/data_modeling_server/services/llm_service.py:493-500 | a later call that changes one cached keyword of a waiting call and adds another |
| Daemon.StepKeeps | backend/data_modeling_server/services/transmission_service.py:222-285 | every step, failures and cancellations included, keeps the lock, count and process invariant |
| Daemon.CountIsEntered | backend/data_modeling_server/services/transmission_service.py:222-268 | the count is the number of contexts entered and not left, and while positive a live process is held |
| Daemon.OneDaemon | backend/data_modeling_server/services/transmission_service.py:222-285 | at most one daemon of ours is alive, the one whose handle is held |
| Daemon.StartStopAtZero | backend/data_modeling_server/services/transmission_service.py:225-285 | killing, spawning and stopping happen only at count zero, by the holder of the lock, with nobody inside |
| Daemon.NoneWithout | backend/data_modeling_server/services/transmission_service.py:225-229 | without the program no daemon ever runs and no context is ever entered |
| Daemon.NoDeadlock | backend/data_modeling_server/services/transmission_service.py:222-285 | as long as a task is unfinished some task can take a step that is not a failure |
| Daemon.RunsEnd | backend/data_modeling_server/services/transmission_service.py:222-285 | every run of n tasks ends within ten steps per task |
| Daemon.CleanEnd | backend/data_modeling_server/services/transmission_service.py:222-285 | when all tasks finish without failure the count is zero and no daemon is left |
| Daemon.LostContextKeepsDaemon | backend/data_modeling_server/services/transmission_service.py:264-268 | a task cancelled while it waits to leave keeps the count positive and the daemon running from then on |
| Daemon.LostRun | backend/data_modeling_server/services/transmission_service.py:222-268 | a run of eight steps of one task that ends with count one and the daemon running |
| Daemon.EndsAtZeroIff | backend/data_modeling_server/services/transmission_service.py:222-285 | when all tasks are finished the count is zero exactly when no task was cancelled while it waited to leave |
| DaemonManager.GlobalTransmissionDaemonManager.EnterLocked | backend/data_modeling_server/services/transmission_service.py:225-229 | the first context starts the daemon, later ones only count |
| DaemonManager.GlobalTransmissionDaemonManager.Spawn | backend/data_modeling_server/services/transmission_service.py:231-256 | the new process becomes the handle held |
| DaemonManager.GlobalTransmissionDaemonManager.Started | backend/data_modeling_server/services/transmission_service.py:258-262 | once the process answers the context is counted and the lock given back |
| DaemonManager.GlobalTransmissionDaemonManager.ExitLocked | backend/data_modeling_server/services/transmission_service.py:264-267 | the last context keeps the lock to stop the daemon |
| DaemonManager.GlobalTransmissionDaemonManager.Terminate | backend/data_modeling_server/services/transmission_service.py:268-284 | stopping finds a live handle and leaves no daemon alive |
| Packing.GreedyOptimal | backend/data_modeling_server/controllers/coding_controller.py:674-702 | a split in which no part could take the next element has no more parts than any other, for every guarantee that stretches inherit |
| Packing.Pack | backend/data_modeling_server/controllers/coding_controller.py:674-702 | the loop returns all codes in order in batches that fit or hold one oversized code, none of which could take the next code |
| Packing.SplitIntoBatches | backend/data_modeling_server/controllers/coding_controller.py:674-702 | no split with the same guarantee has fewer batches, and half the batches times the free budget is at most the whole cost |
| Packing.GenerateChunks | backend/data_modeling_server/utils/coding_helpers.py:50-87 | all comments in order, each chunk within the limit or a single comment, and as few as possible when stretches cost no more than the whole |
| Packing.BatchSays | backend/data_modeling_server/controllers/coding_controller.py:674-702 | of two neighbouring batches: the tokens of the first fit beside the prompt unless it is one code, and with the code that opens the second they do not |
| Packing.ChunkSays | backend/data_modeling_server/utils/coding_helpers.py:50-87 | of two neighbouring chunks: the first fits unless it is one comment, and with the next comment it does not |
| AdaptiveSplit.FixedChunksCover | backend/data_modeling_server/controllers/coding_controller.py:352-353 | fixed slices cover the items in order, none empty, their number the rounded-up quotient |
| AdaptiveSplit.FixedChunksSlices | backend/data_modeling_server/controllers/coding_controller.py:352-353 | slice k holds the items from k times the size on: exactly size of them, the last between one and size |
| AdaptiveSplit.HalvedSame | backend/data_modeling_server/controllers/coding_controller.py:508-517 | halving a chunk splits it in two of its items each, the sizes differing by at most one, and keeps the items, their order and non-empty chunks |
| AdaptiveSplit.MergeInto | backend/data_modeling_server/controllers/coding_controller.py:498-506 | merging extends known topics and adds new ones |
| AdaptiveSplit.MergedSays | backend/data_modeling_server/controllers/coding_controller.py:498-506 | a topic holds exactly the words all accepted answers gave it, in order |
| AdaptiveSplit.ClusterWords | backend/data_modeling_server/controllers/coding_controller.py:459-522 | for every model behaviour at most 2n - m calls for n words in m first chunks; the chunks sent with usable answers are, in order, exactly the chunks the words flatten from, every other chunk sent was cut in half and its left half sent next, no chunk sent is longer than the chunk size, the fixed slices are only ever halved, and an error means a single word was refused |
| AdaptiveSplit.MergeClusters | backend/data_modeling_server/controllers/coding_controller.py:429-438 | the last cluster of a name gets, behind its codes and in order, all the answer gives that name, every other old cluster stays, those with names not there before follow in order, and every (name, code) pair is kept |
| AdaptiveSplit.GivenSays | backend/data_modeling_server/controllers/coding_controller.py:429-438 | what an answer gives a name is the codes of its clusters of that name, one after the other |
| AdaptiveSplit.AbsentSays | backend/data_modeling_server/controllers/coding_controller.py:429-438 | the clusters appended are those whose name no old cluster has, in order |
| AdaptiveSplit.NamesDistinctIff | backend/data_modeling_server/controllers/coding_controller.py:429-438 | the names stay distinct exactly when they were and the answer repeats none of its new ones |
| AdaptiveSplit.RepeatedNewName | backend/data_modeling_server/controllers/coding_controller.py:429-438 | two new clusters of one name are both appended |
| AdaptiveSplit.BatchHierarchy | backend/data_modeling_server/controllers/coding_controller.py:372-443 | the same bound, log, cover and chunk size when calls raise; the clusters returned hold exactly the pairs of all accepted answers |
| SummaryChunks.BuildChunk | backend/data_modeling_server/controllers/coding_controller.py:589-610 | each text of the chunk is the original when fixed cost, a separator if it is not the first, and its tokens are within the limit, and otherwise the original cut to what they leave of the limit; a chunk is not empty, within the limit exactly when the bare prompt is, so full that the next text does not fit, and one text when the bare prompt is over the limit |
| SummaryChunks.GoodTexts | backend/data_modeling_server/controllers/coding_controller.py:589-610 | that, of every chunk of a chunking |
| SummaryChunks.GoodNext | backend/data_modeling_server/controllers/coding_controller.py:596-606 | the text after a chunk, whole or cut to what prompt and separator leave, is too much for what the chunk leaves |
| SummaryChunks.LongTextFills | backend/data_modeling_server/controllers/coding_controller.py:596-598 | with a tokenizer whose cut to n leaves exactly n tokens of a longer text, a first text too long fills the limit exactly |
| SummaryChunks.PairFitsIff | backend/data_modeling_server/controllers/coding_controller.py:589-610 | two texts fit together exactly when the prompt, a separator and the two, each cut when it is longer than what is left for it alone, are within the limit |
| SummaryChunks.ChunkTexts | backend/data_modeling_server/controllers/coding_controller.py:634-640 | the outer loop ends with every text in exactly one chunk |
| SummaryChunks.ChunksCover | backend/data_modeling_server/controllers/coding_controller.py:589-640 | laid end to end the chunks are the texts in order, whole or truncated |
| SummaryChunks.TakesTwoIff | backend/data_modeling_server/controllers/coding_controller.py:589-610 | a chunk takes a second text exactly when the first two, cut as they must be, fit together |
| SummaryChunks.HalvesAll | backend/data_modeling_server/controllers/coding_controller.py:589-640 | texts of which neighbours fit are chunked at least two by two |
| SummaryChunks.SameCountIff | backend/data_modeling_server/controllers/coding_controller.py:589-640 | there are as many chunks as texts exactly when no two neighbours fit together |
| SummaryChunks.Summarize | backend/data_modeling_server/controllers/coding_controller.py:634-672 | for any answers, one for each chunk of each level: the levels are chunked and summarised one from the other until a single summary is left, which is returned |
| SummaryChunks.EndsSoon | backend/data_modeling_server/controllers/coding_controller.py:650-672 | when neighbouring summaries fit, every level has at most half as many texts as the one before, rounded up |
| SummaryChunks.NoProgress | backend/data_modeling_server/controllers/coding_controller.py:634-672 | when no neighbouring summaries fit, every level has as many texts as the first |
| SummaryChunks.SameCostLevels | backend/data_modeling_server/controllers/coding_controller.py:650-672 | summaries of one cost that need no cutting get fewer at every level when fixed cost, two summaries and a separator are within the limit, and never fewer when not |
| SummaryChunks.EndsIff | backend/data_modeling_server/controllers/coding_controller.py:650-672 | with a constant summary the recursion from several texts ends exactly when two of them fit together |
| SummaryChunks.StuckExample | backend/data_modeling_server/controllers/coding_controller.py:650-672 | a tokenizer, a limit and a summary for which two texts stay two at every level |
| CommentForest.CommentTree | backend/data_modeling_server/database/comments_table.py:53-93 | the recursive query ends and yields distinct rows, parents first, closed under replies |
| CommentForest.FoundIff | backend/data_modeling_server/database/comments_table.py:53-93 | it finds exactly the rows whose parents lead to the post, so none on orphan chains or parent cycles |
| CommentForest.Attach | backend/data_modeling_server/controllers/collection_controller.py:482-489 | each row is appended to its parent's list, in order |
| CommentForest.BothForms | backend/data_modeling_server/controllers/collection_controller.py:477-491 | the recursive and the flat form have the same top comments and the same replies under every comment found, up to sibling order |
| CommentForest.FoundRoots | backend/data_modeling_server/controllers/collection_controller.py:491 | the roots kept are exactly the top comments of the post |
| CommentForest.RepliesAt | backend/data_modeling_server/controllers/collection_controller.py:477-489 | a comment's list is its replies, in the order of the rows |
| CommentForest.RootsAt | backend/data_modeling_server/controllers/collection_controller.py:491 | the roots kept are the rows without a parent or with the post as parent, in the order of the rows |
| CommentTrees.CountComments | backend/data_modeling_server/controllers/collection_controller.py:457-461 | the recursive count is the number of comments at all depths |
| CommentTrees.ForestHoldsAll | backend/data_modeling_server/controllers/collection_controller.py:457-491 | every row of the query is in the forest exactly once, so the count is the row count |
| CommentTrees.GetComments | backend/data_modeling_server/controllers/collection_controller.py:477-491 | the list returned is the tops of the forest the attached lists make up, the top comments of the post, and the forest holds every row found once |
| CommentLabels.DecodeRender | backend/data_modeling_server/utils/coding_helpers.py:14-16 | reading a dotted path gives it back, so different paths never look alike |
| CommentLabels.LabelReads | backend/data_modeling_server/utils/coding_helpers.py:14-16 | the second reply to the twelfth comment is labelled comment 12.2 |
| CommentLabels.ProcessComments | backend/data_modeling_server/utils/coding_helpers.py:6-32 | the copied list mirrors the comments, labels name exactly the paths to comments, and there are as many as comments |
| CommentLabels.LabelsDecode | backend/data_modeling_server/utils/coding_helpers.py:14-29 | decoding a label leads to the comment whose id it maps to |
| CommentLabels.EveryCommentLabelled | backend/data_modeling_server/utils/coding_helpers.py:14-29 | every comment has a label, and different comments have different ones |
| TranscriptWriter.RowsArePrefix | backend/data_modeling_server/controllers/collection_controller.py:1549-1586 | for every completion order the rows written are the first posts in order, each once with its own transcript |
| TranscriptWriter.AllWritten | backend/data_modeling_server/controllers/collection_controller.py:1549-1586 | when all tasks are done every post has been written |
| TranscriptWriter.WritesReady | backend/data_modeling_server/controllers/collection_controller.py:1574-1579 | a write goes on up to the first post whose transcript is missing |
| TranscriptWriter.Writer.WriteConsecutive | backend/data_modeling_server/controllers/collection_controller.py:1574-1579 | equals the write step: the writer advances to the first missing transcript and writes everything before it |
| TranscriptWriter.Writer.StoreTranscript | backend/data_modeling_server/controllers/collection_controller.py:1557-1571 | equals the store step: a task stores its transcript, or an empty one after any exception |
| TranscriptWriter.Writer.Fetch | backend/data_modeling_server/controllers/collection_controller.py:1554-1579 | a whole task keeps the rows written the first posts in order with their own transcripts |
| LineStream.SegmentsJoin | backend/data_modeling_server/controllers/collection_controller.py:797-806 | the stream is cut at every newline and nowhere else |
| LineStream.JoinedSegments | backend/data_modeling_server/controllers/collection_controller.py:797-806 | joining segments without newlines and cutting again gives them back |
| LineStream.ReadOn | backend/data_modeling_server/controllers/collection_controller.py:789-806 | what has been read can be cut into lines before the rest arrives |
| LineStream.Drain | backend/data_modeling_server/controllers/collection_controller.py:799-806 | the inner loop yields the cleaned ended segments that are not empty, in order and at the positions it names, and keeps the unterminated rest |
| LineStream.ReadLines | backend/data_modeling_server/controllers/collection_controller.py:789-806 | the lines yielded are those of the concatenated bytes: the cleaned ended segments that are not empty, in order, then the rest if any, however reads cut them |
| LineStream.SameBytesSameLines | backend/data_modeling_server/controllers/collection_controller.py:789-806 | however bytes are cut into reads, the lines are the segments of their unique cut at newlines: position i of the ended ones is yielded exactly when it is not empty once cleaned, in order, and then the rest |
| LineStream.StreamJoins | backend/data_modeling_server/controllers/collection_controller.py:789-806 | the bytes read are the pieces laid end to end, up to the first empty one |
| LineStream.BlankLineDropped | backend/data_modeling_server/controllers/collection_controller.py:805-806 | a blank line between two others is dropped |

## Left out

- ConceptReducer.Process: takes no update of the id column and no restored payload that rewrites ids; `Repositories.Repository.UpdateReturning` says what such an update does to the table, but no diff describes a row that changes its id.
- Diffs.RestoreDiff: a payload's deleted rows name every column, as the database returns them, and no entry rewrites an id; filling in a dataclass's defaults for missing columns is not modelled.
- Diffs.RevertUpdates: takes no entry that rewrites the id column.
- AllResponses.RestoreAll: takes the same payloads as `Diffs.RestoreDiff`.
- ResponseReducer.Process: takes the same payloads as `Diffs.RestoreDiff`.
- GroupedCodes.Process: takes the same payloads as `Diffs.RestoreDiff`; the id the database picks for an added row is a parameter, so a row without an id is not inserted.
- SummaryChunks.EndsIff: is about a summary that is always the same text; for summaries that differ, `SummaryChunks.SameCostLevels` and `SummaryChunks.EndsSoon` give the two outcomes.
- CommentForest.BothForms: takes the query's queue order as first in, first out, over any scan order of the table.
- Row order after an undo: only the map from id to cells is restored, so actions addressed by index pick some row of the workspace.
- Datetime text is left as it is.
- Aliasing of inner change dictionaries between `merge_diffs` inputs and result: diffs are values here.
- `SET_CORRECT` and `UPDATE_COMMENT` (they name columns the table lacks), `SYNC_CHAT_STATE`, `RERUN_CODING` and `ADD_RESPONSE` as a separate branch.
- Theme and initial-codebook actions: the same shapes as grouped codes and concepts.
- Stripping white space when responses are filtered: space, tab, newline and carriage return only.
- SQL text: clauses are kept as column, operator and number of placeholders.
- The scheduler's row read is any set of pending rows of the size the limit allows; job results, timeouts' durations and the clearing of cached arguments on stop are not modelled.
- Overlapping stop and start, several processes on one database, and every job reaching a final status: the code gives no such guarantee.
- Negative positions in a cache specification, and calls of one function that name different positions or keywords to cache.
- CallRebuild.WholeCallRebuilt: says nothing of a call when another call has a cached position it lacks and a null was given last at one; `CallRebuild.NullHidesChange` shows what can happen then.
- A daemon process that dies on its own, and the process a cancelled spawn may leave behind without a handle: a process stops only through the steps modelled.
- SchedulerResults.StopsWhenIdle: the status check may fall between two rows of the enqueuer's batch, so rows read earlier that are no longer pending may still be in the batch at the verdict; stopping drops them.
- Platform branches of the daemon (Windows commands, pipe readers), and daemons of other programs.
- Comment bodies and authors, which are copied unchanged.
- Routes, web sockets, prompts, model providers, torrent and archive tools, JSON and CSV encoding.
