# A verified model of the code-indexing server

The server indexes repositories, keeps the index in step with moving files, answers
searches, and counts its own calls. This project models the parts of it that keep derived
state in agreement with a source of truth, in Dafny 4.11, and proves what they promise.

`dafny verify dfyconfig.toml` checks everything.

| file | what it models |
|---|---|
| `RemoteIndex.dfy` | indexing a remote repository again: blob-id comparison, fetch plan, merge, and the handler's shortcuts, against a full rescan, over any sequence of trees and filters |
| `FastPath.dfy` | patching a folder's index from a list of changed paths, against the file system and against a walk over the folder |
| `LiveIndex.dfy` | polling, debouncing and the fast path together, with late reads and failing batches: when the index agrees with the folder |
| `VectorSync.dfy` | vector records against the chunks of the indexed files, with failing and retried calls |
| `RemoteSync.dfy` | remote runs and the vector sync together: the records follow the index |
| `IndexFiles.dfy` | what the indexing paths share: listing comparison and language counts |
| `WatcherEvents.dfy`, `FolderLoop.dfy` | snapshot diffs, collapsing of pending changes, the debounce loop |
| `BatchFanout.dfy` | batch items run by a serial loop or by workers in any interleaving |
| `TelemetryRuntime.dfy`, `Tracker.dfy`, `Trends.dfy`, `CallCounters.dfy` | call totals, their persistence under failing saves, and trend windows |
| `Freshness.dfy`, `ReindexLifecycle.dfy` | freshness state and wait channels; the mutex and the marks around a reindex |
| `DependencyGraph.dfy`, `HybridRanking.dfy`, `Chunking.dfy` | import-graph search, ranking of merged search results, chunk windows |
| `Framing.dfy`, `Jsonc.dfy` | Content-Length framing; comments and trailing commas in configuration files |
| `Common.dfy`, `Text.dfy` | string order, sorted listings, ASCII string helpers |

Code that changes things step by step is a class or a method with loops, proved against a
function or predicate of its inputs or old state; the lemmas are about those. Protocols with
several actors (fan-out workers, telemetry callers and flushes, reindex handlers, the folder
loop's `select`) are state machines over single steps, and their theorems hold for every
sequence of steps.

Inputs from outside are parameters: the file system is a function from paths to what `stat`
and `read` answer, the remote a map of files, the embedder and the vector store oracles that
may fail at any call (also after taking effect in part), the clock an integer. Filters,
language tables and hashes are uninterpreted functions. Where a theorem needs equal ids to
mean equal content, it says so in a `requires` (`RemoteIndex.Honest`, `RemoteIndex.Injective`,
`LiveIndex.ScansTell`).

## What turned out false, and what is proved instead

- An incremental run does not always end up with what a rescan finds. When the tree has no
  source file left, the stored index stays exactly as it was. And a run that trusts an unchanged
  tree id does not see that the ignore file or the patterns of the call have changed since the
  index was stored. `RemoteIndex.TreeShortcutExact` and `RemoteIndex.IndexFollowsTrees` state the
  conditions, both ways; `RemoteIndex.IgnoredFileStaysIndexed` gives an input.
- The fast path does not always give the index of a full walk: it does not look at the filters,
  the size and the kind of content that make the walk refuse a file, and keeps what it cannot
  read. `FastPath.PatchIsWalk` is the exact condition, `FastPath.RefusedFileIsIndexed` gives two
  folders that fail.
- The watched index does not always agree with the folder once everything is quiet. A file that
  is back when the batch for its deletion is read, and gone again before the next scan, stays
  indexed (`LiveIndex.ReappearedFileStays`), and a batch that fails is not tried again
  (`LiveIndex.FailedBatchLeavesEntries`). `LiveIndex.EntryAgreesExactly` says exactly when an
  entry agrees, at any moment of any run; `LiveIndex.QuietMeansIndexed` what quiet has to mean.
- `normalizeCumulativeSnapshot` and `normalizeToolBreakdown` are not idempotent: a negative
  stored total over positive parts becomes 0 on the first pass and the sum of the parts on
  the second. `Tracker.NormalizeTwice` and `Tracker.RestoredIsReported` give the exact condition.
- The trailing-comma pass is not idempotent: it leaves the first of two commas before a
  bracket. `Jsonc.CommaPassIdempotent` gives the exact condition, `Jsonc.RepeatedCommaNeedsTwoPasses`
  a concrete text.
- Hybrid scores stay in [0, 1] only for weights that are not negative; normalizing the weights
  to sum to one does not ensure that by itself (`HybridRanking.HybridRange`). Weights resolved
  from a valid configuration are never negative (`HybridRanking.WeightsSumToOne`).
- Deleting stale vector ids would remove live ones if a path were both upserted and deleted;
  `VectorSync.StaleIsNotLive` says exactly when, and `VectorSync.DiffIsEnough` that the hash
  comparison never produces such lists.

## Model

| member | source | states |
|---|---|---|
| IndexFiles.DiffFileHashes | src/internal/orchestration/handlers_indexing.go:3457-3482 | the three sorted lists name exactly the differing, the new and the vanished files, in whatever order the maps are walked |
| IndexFiles.NoDifference | src/internal/orchestration/handlers_indexing.go:263-276 | three empty lists if and only if the two listings are equal |
| IndexFiles.IncrementCounts | src/internal/orchestration/handlers_indexing.go:3025-3031 | counting one file more gives the language counts of the larger set of files |
| IndexFiles.DecrementCounts | src/internal/orchestration/handlers_indexing.go:3033-3044 | counting one file less gives the counts of the smaller set, with no zero entry |
| IndexFiles.LanguageCountsFromIndexedFiles | src/internal/orchestration/handlers_indexing.go:1252-1262 | for every language with a file the number of its files, and nothing else |
| RemoteIndex.DiscoverRemoteSourceMetadata | src/internal/orchestration/handlers_indexing.go:851-954 | the listing holds exactly the eligible paths within the size limit, with their normalized blob ids or a path hash in place of a blank one |
| RemoteIndex.ListingExact | src/internal/orchestration/handlers_indexing.go:851-954 | a path is listed if and only if it is in the tree, not skipped, in a known language and of at most 512000 bytes, with its trimmed lower-case blob id or a path hash in place of a blank one |
| RemoteIndex.DiscoverRemoteSourceFiles | src/internal/orchestration/handlers_indexing.go:956-1088 | hashes, blob ids, zero times and language counts of exactly the files a scan keeps |
| RemoteIndex.ScanExact | src/internal/orchestration/handlers_indexing.go:999-1051 | a scan keeps a path if and only if it is in the tree, not skipped, in a known language, of at most 512000 bytes and not binary, by the hash of its content |
| RemoteIndex.BuildRemoteIncrementalFetchPaths | src/internal/orchestration/handlers_indexing.go:1090-1117 | the sorted list of exactly the listed paths whose blob id is not the stored one, or without a usable stored hash |
| RemoteIndex.PlanRemoteTreeFetch | src/internal/orchestration/handlers_indexing.go:1125-1152 | merging is planned exactly for an index with blob ids; otherwise every listed file is fetched |
| RemoteIndex.NormalizedStays | src/internal/orchestration/handlers_indexing.go:1264-1266 | normalizing a blob id twice changes nothing |
| RemoteIndex.CarryOver | src/internal/orchestration/handlers_indexing.go:1189-1210 | carried over are exactly the listed paths' blob ids and, for paths not fetched, their usable hashes and times |
| RemoteIndex.DropUnhashed | src/internal/orchestration/handlers_indexing.go:1227-1232 | exactly the blob ids without a hash disappear, with their times |
| RemoteIndex.FillDefaults | src/internal/orchestration/handlers_indexing.go:1234-1241 | exactly the hashed files without blob id or time get their hash and time zero |
| RemoteIndex.MergeRemoteIncrementalIndexState | src/internal/orchestration/handlers_indexing.go:1180-1250 | path by path, a fetched entry wins over a carried one, a path without hash is gone, every other has blob id and time |
| RemoteIndex.RemoteIndexer.IndexRepo | src/internal/orchestration/handlers_indexing.go:191-455 | the stored index and the outcome are those of the specified step, for every combination of failing calls and the filters of this call; a first run stores exactly the small text source files; the returned lists are the difference between the stored listings |
| RemoteIndex.RemoteIndexer.Update | src/internal/orchestration/handlers_indexing.go:207-419 | the same for a run on a loaded index, shortcuts included |
| RemoteIndex.StoredFilesExact | src/internal/orchestration/handlers_indexing.go:191-455 | whatever a run stores holds exactly the files of the tree that its filters do not skip, in a known language, of at most 512000 bytes and not binary, by the hashes of their contents |
| RemoteIndex.StoredHeadExact | src/internal/orchestration/handlers_indexing.go:226-244 | and the tree's own id, or the hash of the listing |
| RemoteIndex.FaultsStoreNothing | src/internal/orchestration/handlers_indexing.go:191-455 | a failing load, listing, fetch or save stores nothing, and only a run that creates or updates does |
| RemoteIndex.FetchAndMerge | src/internal/orchestration/handlers_indexing.go:279-329 | no call is made for an empty plan; otherwise the scan is what was fetched, merged with what was stored |
| RemoteIndex.MergeIsRescan | src/internal/orchestration/handlers_indexing.go:1180-1250 | merging fetched files with a consistent index gives exactly the full rescan of the current tree |
| RemoteIndex.IncrementalIsRescan | src/internal/orchestration/handlers_indexing.go:279-329 | so does every incremental run, also for an index from before blob ids |
| RemoteIndex.CreatedIsSound | src/internal/orchestration/handlers_indexing.go:421-436 | what a first run stores satisfies the invariant the next run needs |
| RemoteIndex.ShortcutsAreSafe | src/internal/orchestration/handlers_indexing.go:263-356 | unchanged blob ids or hashes mean that the index holds what a rescan finds, whatever filters it was stored under |
| RemoteIndex.TreeShortcutExact | src/internal/orchestration/handlers_indexing.go:250-261 | when the tree id is the stored one, the index holds what a rescan finds if and only if the filters agree, on every small text source file of the tree, with those it was stored under |
| RemoteIndex.FilterChangeGoesUnseen | src/internal/orchestration/handlers_indexing.go:250-261 | a changed filter for such a file is enough for a report of no change that is wrong |
| RemoteIndex.IgnoredFileStaysIndexed | src/internal/orchestration/handlers_indexing.go:178-261 | for example a tree of two indexed files, one of them ignored from now on: the run reports no change and the file stays indexed |
| RemoteIndex.RefreshKeepsUp | src/internal/orchestration/handlers_indexing.go:207-419 | one incremental run, from an index stored under any filters: an update holds the rescan under the filters of the run and keeps the invariant "stored hash = hash of the content the stored blob id names, one key set"; a report of no change is right exactly unless it trusts the tree id under other filters; nothing else touches the index |
| RemoteIndex.StaysSound | src/internal/orchestration/handlers_indexing.go:191-455 | the invariant, for the filters the index was stored under, holds after any sequence of runs, failing ones included, each with filters of its own |
| RemoteIndex.RunExact | src/internal/orchestration/handlers_indexing.go:191-455 | what one run without faults leaves, from any sound store: the rescan if and only if it finds anything and no tree id is trusted under other filters |
| RemoteIndex.IndexFollowsTrees | src/internal/orchestration/handlers_indexing.go:191-455 | over any sequence of trees, calls and filters, after a run without faults the index equals the rescan (content hashes standing in for blob ids after a full fetch) if and only if the rescan finds anything and the run did not trust an unchanged tree id under other filters; an empty rescan leaves the index untouched |
| FastPath.RepoIndex.MarkDeleted | src/internal/orchestration/handlers_indexing.go:2117-2127 | the path leaves files, times and language count together, and is marked deleted only if it was indexed |
| FastPath.RepoIndex.VisitPath | src/internal/orchestration/handlers_indexing.go:2129-2184 | one path's entry becomes what the file system calls for: removed when the file is missing, not regular or in no known language, kept when it cannot be looked at or read, and otherwise its hash and time; no other path, mark or count changes |
| FastPath.RepoIndex.IndexFolderFromChangedPaths | src/internal/orchestration/handlers_indexing.go:2084-2236 | for any list of paths, repeated or not, exactly the paths before the end of the context follow what the file system answers; unless cancelled, deleted are exactly the indexed ones that are missing, not regular or in no known language, created and changed the readable ones that were not there or had another hash; language counts stay exact, and no save is tried exactly when nothing changed |
| FastPath.PatchedEntry | src/internal/orchestration/handlers_indexing.go:2134-2184 | what each answer of the file system does to the entry of a visited path |
| FastPath.VisitAgrees | src/internal/orchestration/handlers_indexing.go:2117-2184 | whatever the index held, a visited path agrees with the file system afterwards, if and only if it had no time without a hash, nor a hash without a time at time zero |
| FastPath.PatchAgrees | src/internal/orchestration/handlers_indexing.go:2129-2184 | the patched index agrees with the file system everywhere, by the fast path's own test, if and only if it did outside the given paths |
| FastPath.WalkUnique | src/internal/orchestration/handlers_indexing.go:3168-3343 | a folder has one walk: skipped paths, unclassified, unreadable, large and binary files are left out, every other file has its hash and time |
| FastPath.OneFileWalk | src/internal/orchestration/handlers_indexing.go:3168-3343 | a source file is walked to exactly up to 500 KiB |
| FastPath.PatchIsWalk | src/internal/orchestration/handlers_indexing.go:2084-2236 | the fast path gives the index of a full walk if and only if the old index was the walk's outside the given paths, the walk takes every given path at which the fast path finds a file, and no given path that cannot be looked at was indexed |
| FastPath.RefusedFileIsIndexed | src/internal/orchestration/handlers_indexing.go:2134-2184 | three folders with one file that a walk refuses, by its path, by its size of 600 KiB or by its binary content, and that the fast path indexes |
| LiveIndex.EntryIsLastRead | src/internal/orchestration/watcher_batch_processor.go:13-54 | at every moment of every run an entry is what the last batch that settled its path read there, each path read at a moment of its own |
| LiveIndex.EntryAgreesExactly | src/internal/orchestration/handlers_indexing.go:2134-2160 | so an entry agrees with the file system if and only if the file system still says what it said to that read |
| LiveIndex.EntryStaysUnsettled | src/internal/orchestration/handlers_indexing.go:2134-2184 | an entry stays as it is until the next batch that names its path, reaches the index and gets an answer |
| LiveIndex.FailedBatchLeavesEntries | src/internal/watcher/embedded_worker.go:308-335 | a batch that fails before its save is not tried again, and the entries it names stay until a later batch settles them |
| LiveIndex.NothingSinceNamed | src/internal/watcher/embedded_worker.go:284-335 | what the changes say of a path at the last flush is what they said when a batch last named it |
| LiveIndex.QuietMeansIndexed | src/internal/orchestration/watcher_batch_processor.go:13-54 | when nothing about a path is pending, a scan shows no more of it than was reported, and its last batch settled it, the entry agrees with the file system, unless that batch read the path after it had changed again from what it shows now |
| LiveIndex.ReappearedFileStays | src/internal/orchestration/handlers_indexing.go:2134-2160 | a run that ends quiet with a file in the index that is not in the folder: deleted, polled, back when its batch is read, and deleted again |
| VectorSync.RunVectorOperationWithRetry | src/internal/orchestration/vector_resilience.go:22-86 | at most three attempts, none after the context has ended, another only after a retryable error, success exactly when the last attempt succeeds, and no harm done by attempts in vain |
| VectorSync.SplitBatches | src/internal/orchestration/vector_resilience.go:158-194 | the batches joined are the input; none is empty, none too long, only the last may be short, and there are as many as that takes |
| VectorSync.PerformBatches | src/internal/orchestration/handlers_indexing.go:2765-2787 | after success the store has changed by exactly the given ids, after failure by some of them; without a failed call or an ended context it succeeds, with one call for each batch |
| VectorSync.BuildChunks | src/internal/orchestration/chunking.go:43-89 | exactly the chunks of the readable files among the given paths, and as many |
| VectorSync.CollectChunkIDsByPath | src/internal/orchestration/handlers_indexing.go:2863-2881 | every chunk under its own path, no path without chunks |
| VectorSync.UpsertIndexedVectorFiles | src/internal/orchestration/handlers_indexing.go:2532-2620 | success stores all chunks of the readable files and returns their ids by path, and needs an embedding of exactly as many vectors; with that, no failed call and no ended context it succeeds, in batches of 128; failure removes nothing and stores nothing else; without embedder or store nothing happens |
| VectorSync.CollectStale | src/internal/orchestration/handlers_indexing.go:2718-2727 | exactly all ids of deleted paths and the ids upserted paths have lost |
| VectorSync.VectorIndex.SyncVectorIndexMetadata | src/internal/orchestration/handlers_indexing.go:2700-2789 | success deletes exactly the stale ids, in batches of 256, and remembers the new ones; a failing deletion changes nothing that is remembered; without a failed call or an ended context it succeeds |
| VectorSync.VectorIndex.SyncIndexVectors | src/internal/orchestration/handlers_indexing.go:2622-2672 | a successful sync keeps the store equal to what the index remembers; it succeeds if the embedder returns as many vectors as there are chunks, no call fails and the context does not end, and only with so many vectors; even a failing one loses no id that its path still has |
| VectorSync.StaleIsNotLive | src/internal/orchestration/handlers_indexing.go:2718-2732 | the deletion hits no live id, of any path, if and only if no path that is both upserted and deleted keeps an id |
| VectorSync.SyncKeepsEqual | src/internal/orchestration/handlers_indexing.go:2700-2747 | store = union of the ids remembered per path is kept by upsert and deletion together |
| VectorSync.DiffIsEnough | src/internal/orchestration/handlers_indexing.go:3457-3482 | the lists of the hash comparison never overlap, and every file left out has the content it had |
| VectorSync.SyncMirrors | src/internal/orchestration/handlers_indexing.go:2622-2747 | a sync of at least the files that the hash comparison names takes the chunks of the old files to the chunks of the new files |
| VectorSync.StoreMirrorsFiles | src/internal/orchestration/handlers_indexing.go:2622-2747 | after any sequence of such syncs, all successful, the records are exactly the chunks of the indexed files |
| RemoteSync.UpdateCovers | src/internal/orchestration/handlers_indexing.go:279-419 | the lists of a remote run, by blob ids or by hashes, cover every file whose content changed, its fetched files hold what is to be upserted, and exactly the files that leave the index are deleted |
| RemoteSync.UpdateMirrors | src/internal/orchestration/handlers_indexing.go:2622-2646 | so the records after an update and its sync are the chunks of the files of the new index |
| RemoteSync.CreateMirrors | src/internal/orchestration/handlers_indexing.go:421-455 | and so they are after a first run |
| RemoteSync.RecordsMirrorIndex | src/internal/orchestration/handlers_indexing.go:191-455 | after any sequence of incremental runs, over any trees, filters and failures, with successful syncs, the records are exactly the chunks of the contents that the stored index stands for |
| WatcherEvents.CollapseTracksPresence | src/internal/watcher/embedded_worker.go:420-452 | for every pair of change types the collapsed type says whether the file was there before and is there after, and is dropped only when it is absent at both ends |
| WatcherEvents.MergeIsNetEffect | src/internal/watcher/embedded_worker.go:396-418 | merging a well-formed change keeps the pending map the net effect between two snapshots |
| WatcherEvents.NoEntryNoChange | src/internal/watcher/embedded_worker.go:396-452 | a path without an entry is as it was |
| WatcherEvents.FirstHashStays | src/internal/watcher/embedded_worker.go:409-417 | the first old hash reported for a path survives later changes |
| WatcherEvents.DiffFolderSnapshots | src/internal/watcher/polling_source.go:135-172 | one change for every path that differs, of the right type, in path order, whatever order the maps are walked in |
| WatcherEvents.DiffIsWellFormed | src/internal/watcher/polling_source.go:135-172 | the changes of a poll lead, one by one, from the earlier snapshot to exactly the later one |
| WatcherEvents.PollingIsWellFormed | src/internal/watcher/polling_source.go:39-84 | every stream of any number of polls is well formed and leads from the first snapshot to the last |
| FolderLoop.FolderLoop.MergePendingChange | src/internal/watcher/embedded_worker.go:396-418 | the map updated in place is the merge whose meaning the lemmas state |
| FolderLoop.FolderLoop.SortedPendingChanges | src/internal/watcher/embedded_worker.go:454-466 | every entry once, in path order |
| FolderLoop.FolderLoop.Handle | src/internal/watcher/embedded_worker.go:259-336 | one turn of the loop takes the state to the specified next state, for every signal |
| FolderLoop.TimerArmedIffPending | src/internal/watcher/embedded_worker.go:225-336 | at every loop head the timer is armed if and only if something is pending, and no batch delivered so far is empty |
| FolderLoop.EveryFiringDelivers | src/internal/watcher/embedded_worker.go:308-312 | the branch for a firing timer with nothing pending is dead |
| FolderLoop.PendingIsNetEffect | src/internal/watcher/embedded_worker.go:284-307 | at every moment the pending map is the net effect since the last batch |
| FolderLoop.BatchIsNetEffect | src/internal/watcher/embedded_worker.go:308-335 | every delivered batch is the net effect since the batch before it |
| FolderLoop.StopsOnlyAtTheEnd | src/internal/watcher/embedded_worker.go:259-292 | the loop stops only with its context, a source error or both channels closed, and what is pending then is never delivered |
| FolderLoop.StepEffects | src/internal/watcher/embedded_worker.go:259-336 | a step stops the loop exactly if it is the context's end, an error of the source or the closing of the last open channel; the last error is the source's or that of the last batch |
| FolderLoop.WhatCanHappen | src/internal/watcher/embedded_worker.go:259-336 | the context can end at any time, a batch can be delivered whenever something is pending, and an open channel is read |
| BatchFanout.DecideFacts | src/internal/orchestration/batch_fanout.go:25-64 | a batch runs in parallel exactly if configured so, with two workers or more, for two items or more and within the depth limit, with as many workers as configured but at most one for each item; it is refused exactly for an overload that may not degrade |
| BatchFanout.OwnStep | src/internal/orchestration/batch_fanout.go:69-111 | every step of every worker keeps each received index owned by exactly one worker |
| BatchFanout.AtMostOnce | src/internal/orchestration/batch_fanout.go:62-121 | no index is run twice, in any interleaving |
| BatchFanout.NoErrorMeansAllRan | src/internal/orchestration/batch_fanout.go:62-121 | a run without an error ran every index exactly once, and every one succeeded |
| BatchFanout.NoErrorMeansNoneMet | src/internal/orchestration/batch_fanout.go:62-121 | and in such a run no item failed, no deadline was found passed and the caller's context did not end |
| BatchFanout.ErrorOrigin | src/internal/orchestration/batch_fanout.go:62-121 | the error returned is the very error with which an item was run, an item deadline found passed, or the caller's end, each at a step of the run; never the internal cancellation |
| BatchFanout.OnlyItemErrors | src/internal/orchestration/batch_fanout.go:62-121 | with a living context and no expired deadline it is the error of an item that ran, with the item's own code |
| BatchFanout.RunsAreFinite | src/internal/orchestration/batch_fanout.go:62-121 | every interleaving ends within eight steps an item, one a worker and two more |
| BatchFanout.SomeWorkerCanGoOn | src/internal/orchestration/batch_fanout.go:62-121 | no interleaving gets stuck before all workers have exited |
| BatchFanout.RunSerial | src/internal/orchestration/batch_fanout.go:25-60 | items run in order up to the first failure, the first item deadline that has passed before or after its item, or the end of the context; what was filled stays, and success means all slots are filled |
| BatchFanout.SerialMeetsNoError | src/internal/orchestration/batch_fanout.go:25-60 | a serial run returns no error exactly if no item fails, no deadline passes and no look finds the caller's context ended |
| BatchFanout.ParallelIsSerial | src/internal/orchestration/batch_fanout.go:20-121 | a parallel run without error leaves the slots of any serial run of the same items without error |
| TelemetryRuntime.TotalsAlways | src/internal/telemetry/runtime.go:170-216 | the invariant that ties revisions, flags and the saved snapshot together holds in every reachable state |
| TelemetryRuntime.PersistedRevisionMeansSaved | src/internal/telemetry/runtime.go:170-216 | when the persisted revision is the tracker's, the store holds the current totals, so the early return skips nothing |
| TelemetryRuntime.FlushSavesEarlierCalls | src/internal/telemetry/runtime.go:170-216 | a flush without error leaves totals in the store that include every call recorded before it began |
| TelemetryRuntime.EventsKept | src/internal/telemetry/runtime.go:170-277 | persisted, in-flight and pending events are an ordered selection of the queued ones without repeats, within the cap, and all of them if and only if no action overflowed it |
| TelemetryRuntime.LostOnlyByOverflow | src/internal/telemetry/runtime.go:237-277 | nothing is lost exactly while nothing overflows |
| TelemetryRuntime.RoomKeepsEvents | src/internal/telemetry/runtime.go:237-277 | room before each new event is enough, across any failed saves and requeues |
| TelemetryRuntime.Runtime.EnqueueCallEvent | src/internal/telemetry/runtime.go:237-260 | the queue keeps the newest events up to the cap, as the protocol step says |
| TelemetryRuntime.Runtime.RequeueCallEvents | src/internal/telemetry/runtime.go:262-277 | events put back come before the newer ones, and the oldest are dropped |
| TelemetryRuntime.Runtime.RecordCall | src/internal/telemetry/runtime.go:109-117 | a call takes the two protocol steps, with the normalized record |
| TelemetryRuntime.Runtime.Flush | src/internal/telemetry/runtime.go:170-216 | a flush is a sequence of protocol steps from its beginning to idle, and fails exactly when a save it needs fails |
| Tracker.NormalizedCall | src/internal/telemetry/tracker.go:242-274 | of a recorded call every value that is in range is kept, any other becomes 0 tokens or one call, and totals are the sums of their parts |
| Tracker.NormalizedBalances | src/internal/telemetry/tracker.go:242-274 | so a recorded call is balanced, not negative and counts at least once |
| Tracker.NormalizedTool | src/internal/telemetry/tracker.go:296-302 | a recorded call has its trimmed tool name, or the name unknown |
| Tracker.Tracker.RecordCall | src/internal/telemetry/tracker.go:156-214 | session, cumulative totals, tool entries and revision change by exactly this call |
| Tracker.Tracker.RestoreCumulative | src/internal/telemetry/tracker.go:144-153 | the restored totals are the normalized stored ones; nothing else changes |
| Tracker.RestoredCounters | src/internal/telemetry/tracker.go:378-399 | a stored total of zero is restored as the sum of its parts, a positive one as it is, and nothing negative |
| Tracker.RestoredExact | src/internal/telemetry/tracker.go:378-441 | so it is in total and for every tool, and the session count is not negative |
| Tracker.SessionTotals | src/internal/telemetry/tracker.go:156-214 | over any calls, session counters are the sums over the calls, in total and for each tool |
| Tracker.SessionBalances | src/internal/telemetry/tracker.go:242-274 | total = request + response and saved = input + output, for the session and each tool |
| Tracker.SessionIsReported | src/internal/telemetry/tracker.go:415-441 | so reporting the session normalizes nothing away |
| Tracker.CumulativeTotals | src/internal/telemetry/tracker.go:144-214 | cumulative = normalized restored + session for every counter and tool; the session count rises by one if and only if something was recorded |
| Tracker.NormalizeTwice | src/internal/telemetry/tracker.go:378-399 | normalizing is idempotent if and only if no total is negative over positive parts |
| Tracker.RestoredIsReported | src/internal/telemetry/tracker.go:415-441 | restored totals are reported unchanged if and only if no tool entry has such a total |
| CallCounters.SumToolsMerge | src/internal/telemetry/tracker.go:354-376 | merging a call into the tool breakdown adds exactly its counters to the sum over the tools |
| CallCounters.SumFields | src/internal/telemetry/tracker.go:354-376 | adding up calls adds up each of their counters |
| Trends.AlignFacts | src/internal/telemetry/trends.go:449-454 | the bucket start is a multiple of the step, at most one step before the instant |
| Trends.BucketExists | src/internal/telemetry/trends.go:302-314 | every instant of a window has a bucket, and only one, so the not-found branch is dead |
| Trends.TrendAccumulator.constructor | src/internal/telemetry/trends.go:269-300 | contiguous empty buckets cover the window |
| Trends.TrendAccumulator.AddEvent | src/internal/telemetry/trends.go:302-314 | window and bucket show the sums over the events added so far, in total and for each tool |
| Trends.FeedEvent | src/internal/telemetry/trends.go:242-252 | an event reaches exactly the windows whose range holds it |
| Trends.NormalizedEvent | src/internal/telemetry/trends.go:397-447 | the instant, the tool and the counters that an event counts with, field by field |
| Trends.AggregateTrends | src/internal/telemetry/trends.go:218-259 | every window reports the sums over the events in its range, and each of its points the sums over its bucket, for any events and any now, the zero one standing for the clock's |
| Trends.ReportedRange | src/internal/telemetry/trends.go:269-300 | a window ends now and is 24 hours, 7 days or 30 days long; its buckets are aligned hours or days, from the one that holds its start to the last that begins before now |
| Trends.SelectExact | src/internal/telemetry/trends.go:242-252 | an event counts as often as it is there, exactly if it lies in the range |
| Trends.WindowIsSumOfPoints | src/internal/telemetry/trends.go:302-358 | a window's counters, and each tool's, are the sums over its points |
| Trends.ShorterWindowsReportLess | src/internal/telemetry/trends.go:218-259 | a shorter window never reports more than a longer one |
| Freshness.StateController.EnsureState | src/internal/watcher/state_controller.go:300-311 | an unknown repository gets a state whose channel is closed already |
| Freshness.StateController.CloseSignal | src/internal/watcher/state_controller.go:357-367 | an open channel is closed, a closed one left alone |
| Freshness.StateController.MarkReindexStart | src/internal/watcher/state_controller.go:219-239 | the shared state after a start, for a blank name unchanged |
| Freshness.StateController.MarkReindexDone | src/internal/watcher/state_controller.go:242-266 | the shared state after a success |
| Freshness.StateController.MarkReindexFailed | src/internal/watcher/state_controller.go:269-298 | the shared state after a failure |
| Freshness.StateController.Query | src/internal/watcher/state_controller.go:101-121 | an error for a blank name, the unknown status or the repository's |
| Freshness.StateController.StartWait | src/internal/watcher/state_controller.go:124-159 | a wait is refused, answered, given up or put to sleep on the channel it saw, by the state at its start |
| Freshness.StateController.FinishWait | src/internal/watcher/state_controller.go:160-176 | only a wait woken by its channel ends without an error, and it reports the state of that moment |
| Freshness.ReachableInv | src/internal/watcher/state_controller.go:219-311 | in every reachable state a repository is reindexing if and only if its count is positive and its channel open, channels are not shared, and none was closed twice |
| Freshness.AgreesAlways | src/internal/watcher/state_controller.go:219-298 | the stored fields, the last error and the start of the staleness included, are functions of the repository's history of marks |
| Freshness.QueryMeaning | src/internal/watcher/state_controller.go:313-355 | fresh if and only if nothing started or failed since the last success that left nothing running; the failures since then and the last message are reported from the second failure on |
| Freshness.WaitMeaning | src/internal/watcher/state_controller.go:313-355 | a wait reports fresh if and only if nothing runs and fewer than two failures happened since then, and otherwise what a query does |
| Freshness.UnknownIsFresh | src/internal/watcher/state_controller.go:134-146 | an unknown repository counts as fresh, at once |
| Freshness.WaitersAreReleased | src/internal/watcher/state_controller.go:124-176 | a waiter's channel is closed if and only if the repository was idle at some moment since it entered |
| Freshness.AnswerMeansIdle | src/internal/watcher/state_controller.go:124-176 | a wait is answered at once, given up or put to sleep exactly by what runs at its start and its timeout; one answered without error had a moment with nothing running between its start and its answer, and one that sleeps is woken by its channel exactly from such a moment on |
| ReindexLifecycle.RunWithReindexLifecycle | src/internal/orchestration/watcher_lifecycle.go:11-50 | the work is skipped exactly when the folder watcher cannot start, a newly watched folder gets its state, and the work is bracketed by a start mark and one outcome mark exactly when there is a repository and a lifecycle; an idle repository is fresh afterwards exactly if the work answered no error and a payload that says success, or neither success nor error |
| ReindexLifecycle.BracketBalances | src/internal/orchestration/watcher_lifecycle.go:35-49 | whatever the work answers, every repository's count of running reindexes is back where it was, and an idle repository ends with nothing in progress and its waiters released |
| ReindexLifecycle.RepoLocks.RepoReindexMutex | src/internal/orchestration/watcher_lifecycle.go:63-75 | one mutex for each repository, the same at every later call |
| ReindexLifecycle.OutcomeEnds | src/internal/orchestration/watcher_lifecycle.go:37-94 | the work ends in exactly one mark: a success exactly for no error and a payload whose success field is true, or absent with no error field; else a failure with the error, the payload's error, its message or a default text |
| ReindexLifecycle.BracketIsFresh | src/internal/orchestration/watcher_lifecycle.go:31-61 | an idle repository is reported fresh after a bracket exactly after a success; a failure counts once and leaves its message |
| ReindexLifecycle.ReindexingMeansWorking | src/internal/orchestration/watcher_lifecycle.go:11-50 | in any interleaving at most one handler reindexes a repository, and it counts as reindexing if and only if one does |
| ReindexLifecycle.SomeoneCanGoOn | src/internal/orchestration/watcher_lifecycle.go:11-50 | the per-repository mutexes never leave all unfinished handlers waiting |
| DependencyGraph.RowMembers | src/internal/orchestration/handlers_retrieval.go:5088-5108 | a row lists each imported target once, and exactly the targets of usable records |
| DependencyGraph.BuildAdjacency | src/internal/orchestration/handlers_retrieval.go:5088-5108 | the rows are those of the records, and only sources with a target have one |
| DependencyGraph.Invert | src/internal/orchestration/handlers_retrieval.go:5110-5128 | an edge is in the result exactly when its reverse is in the input; no row repeats a node |
| DependencyGraph.InvertedDistance | src/internal/orchestration/handlers_retrieval.go:5110-5128 | within d of a node in the graph if and only if within d from it in the inverted graph |
| DependencyGraph.VisitRow | src/internal/orchestration/handlers_retrieval.go:5150-5159 | a row is listed once and its new nodes queued one level deeper |
| DependencyGraph.Bfs | src/internal/orchestration/handlers_retrieval.go:5130-5163 | exactly the nodes within the depth and exactly the out-edges of nodes below it, each as often as the graph holds it, on cyclic graphs too |
| DependencyGraph.Importers | src/internal/orchestration/handlers_retrieval.go:5088-5163 | searching the inverted graph finds exactly the files that reach the start within the depth |
| Chunking.SplitContentLines | src/internal/orchestration/handlers_retrieval.go:5063-5076 | the lines of the text as the lemmas below describe them |
| Chunking.LinesRejoin | src/internal/orchestration/handlers_retrieval.go:5063-5076 | the lines joined again, with the final newline, are the text |
| Chunking.LinesHaveNoNewline | src/internal/orchestration/handlers_retrieval.go:5063-5076 | no line holds a newline |
| Chunking.CrlfParity | src/internal/orchestration/handlers_retrieval.go:5063-5076 | CRLF endings give the same lines as LF endings |
| Chunking.EndChunkWindow | src/internal/orchestration/chunking.go:143-170 | the window is one line or keeps both limits, and no longer window from its start does |
| Chunking.GreedyWindow | src/internal/orchestration/chunking.go:143-170 | a greedy window has one line, or keeps both limits, and one line more would break one of them |
| Chunking.GreedyTiles | src/internal/orchestration/chunking.go:67-86 | the windows tile the lines in order without gap or overlap |
| Chunking.GreedyIsMinimal | src/internal/orchestration/chunking.go:67-86 | no tiling within the limits has fewer windows |
| Chunking.WindowsRejoin | src/internal/orchestration/chunking.go:67-86 | the window texts joined are the lines joined |
| Chunking.ChunkFile | src/internal/orchestration/chunking.go:43-89 | one chunk for each window of the greedy tiling that is not blank, with its line numbers and text |
| Chunking.ChunkLimits | src/internal/orchestration/chunking.go:43-89 | a chunk is the text of its lines, is not blank, and with more than one line keeps the limit on lines and the one on characters |
| Chunking.DefaultLimits | src/internal/orchestration/chunking.go:48-53 | limits that are not positive mean 80 lines and 3000 characters |
| Chunking.ChunksCover | src/internal/orchestration/chunking.go:43-89 | the chunks follow each other, so their ids differ, and cover every line that is not blank |
| HybridRanking.MergeMatches | src/internal/orchestration/handlers_retrieval.go:4499-4545 | one entry for each (file, line) with the first text and context found, and the best positive score of each |
| HybridRanking.BestIsBest | src/internal/orchestration/handlers_retrieval.go:4499-4545 | the kept score is attained and no match of the place has a higher one |
| HybridRanking.NormalizeScores | src/internal/orchestration/handlers_retrieval.go:4584-4613 | the scores stretched between their extremes, all one when they are equal |
| HybridRanking.NormalizedRange | src/internal/orchestration/handlers_retrieval.go:4584-4613 | normalized scores lie in [0, 1], the best is 1 and order is kept |
| HybridRanking.NormalizedLinear | src/internal/orchestration/handlers_retrieval.go:4605-4611 | in between, normalizing is linear |
| HybridRanking.WeightsSumToOne | src/internal/orchestration/handlers_retrieval.go:4470-4491 | resolved weights sum to one and are not negative for a valid configuration |
| HybridRanking.WeightsExact | src/internal/orchestration/handlers_retrieval.go:4470-4491 | the weights are in the proportion of the arguments that are not negative, or else of the configuration; even when these do not add up to anything |
| HybridRanking.HybridRange | src/internal/orchestration/handlers_retrieval.go:4547-4556 | scores stay in [0, 1] if and only if neither weight is negative |
| HybridRanking.PrecedesOrders | src/internal/orchestration/handlers_retrieval.go:4558-4575 | the comparison is a strict total order on entries of different places |
| HybridRanking.RankCandidates | src/internal/orchestration/handlers_retrieval.go:4493-4578 | one entry for each place mentioned, sorted by the comparison |
| HybridRanking.RankingOrder | src/internal/orchestration/handlers_retrieval.go:4558-4575 | scores go down: hybrid, then lexical and semantic as far as they have a weight; then file and line go up |
| HybridRanking.RankingEntry | src/internal/orchestration/handlers_retrieval.go:4499-4556 | the hybrid score is the weighted sum; the place of the best lexical and of the best semantic match has 1, a place without a positive one 0 |
| HybridRanking.RankingContext | src/internal/orchestration/handlers_retrieval.go:4499-4545 | the text and the lines before and after are the first found, lexical matches first |
| HybridRanking.RankingPlaces | src/internal/orchestration/handlers_retrieval.go:4493-4578 | no place twice, and exactly the places that some match names |
| HybridRanking.RankingUnique | src/internal/orchestration/handlers_retrieval.go:4493-4578 | the matches determine the result, so map order cannot show |
| HybridRanking.RankingScores | src/internal/orchestration/handlers_retrieval.go:4470-4578 | all scores of a result lie in [0, 1] for the weights of a valid configuration |
| Jsonc.StripComments | src/internal/config/config.go:1395-1454 | the byte loop returns the text without its comment tokens |
| Jsonc.StrippingRemovesOnlyComments | src/internal/config/config.go:1395-1454 | the tokens of the result are the other tokens of the text, byte for byte |
| Jsonc.StrippingIsIdempotent | src/internal/config/config.go:1395-1454 | stripping twice is stripping once |
| Jsonc.StrippingFixesCommentFree | src/internal/config/config.go:1395-1454 | the text is unchanged if and only if it has no comment |
| Jsonc.StrippingKeepsLiterals | src/internal/config/config.go:1395-1454 | every string literal survives with its escapes, none is invented |
| Jsonc.PlainByteStays | src/internal/config/config.go:1395-1454 | a byte that starts no literal and no comment stays, followed by the stripped rest |
| Jsonc.LineCommentGoes | src/internal/config/config.go:1426-1436 | a `//` comment goes, up to its newline |
| Jsonc.BlockCommentGoes | src/internal/config/config.go:1437-1446 | a `/*` comment goes, up to the first `*/` after its start |
| Jsonc.UnclosedBlockGoes | src/internal/config/config.go:1437-1446 | and to the end of the text if it is never closed |
| Jsonc.LiteralStays | src/internal/config/config.go:1404-1424 | a literal stays byte for byte, whatever it holds and with its escapes |
| Jsonc.StripTrailingCommas | src/internal/config/config.go:1456-1498 | the byte loop drops exactly the commas outside literals whose next non-blank byte closes a bracket |
| Jsonc.CommaGoes | src/internal/config/config.go:1485-1498 | a comma goes exactly when the next byte that is not a space, tab or line end is `}` or `]` |
| Jsonc.OtherByteStays | src/internal/config/config.go:1456-1498 | any other byte outside literals stays |
| Jsonc.LiteralKeepsCommas | src/internal/config/config.go:1465-1483 | a literal stays, with its commas |
| Jsonc.CommaPassDropsTrailing | src/internal/config/config.go:1456-1510 | in comment-free text exactly the trailing comma tokens go |
| Jsonc.LoaderPipeline | src/internal/config/config.go:1395-1510 | after both passes every token but comments and trailing commas is there, and every literal byte for byte |
| Jsonc.CommaPassIdempotent | src/internal/config/config.go:1456-1498 | on comment-free text, a second pass changes nothing if and only if no two commas stand in a row before a bracket |
| Jsonc.RepeatedCommaNeedsTwoPasses | src/internal/config/config.go:1456-1498 | the text `[1,,]`, on which the second pass changes something |
| Framing.Reader.ReadField | src/internal/transport/mcp/codec.go:90-106 | the branches on one line answer other field, length, or the kind of malformed length |
| Framing.Reader.ReadContentLength | src/internal/transport/mcp/codec.go:71-116 | the header loop consumes and answers what the header scan says, for any bytes |
| Framing.Reader.ReadMessage | src/internal/transport/mcp/codec.go:32-51 | one message or its error, and what is left unread |
| Framing.Writer.WriteMessage | src/internal/transport/mcp/codec.go:53-69 | exactly one frame is appended: `Content-Length: `, the length in decimals, two line ends and the payload |
| Framing.DecimalParses | src/internal/transport/mcp/codec.go:59-61 | a printed length is read back as the same number |
| Framing.DecimalDigits | src/internal/transport/mcp/codec.go:59-61 | the last digit is the remainder by ten, after the digits of the rest |
| Framing.AtoiExact | src/internal/transport/mcp/codec.go:99-106 | digits with or without a sign are the number they stand for, if it fits an `int` |
| Framing.NotANumber | src/internal/transport/mcp/codec.go:99-102 | any other text is malformed |
| Framing.FieldLineParses | src/internal/transport/mcp/codec.go:90-107 | a header field is recognized in any letter case and spacing |
| Framing.FieldLine | src/internal/transport/mcp/codec.go:90-106 | a line is about the length exactly if its trimmed name is content-length in any letter case; then it is a length, or malformed in one of two ways |
| Framing.HeaderBlock | src/internal/transport/mcp/codec.go:71-116 | in any header block the last announced length counts and the first malformed one is an error |
| Framing.SilentBlock | src/internal/transport/mcp/codec.go:109-115 | a block that announces nothing has no length; an empty one reads as the end of the stream |
| Framing.HeaderScans | src/internal/transport/mcp/codec.go:71-116 | a written header is consumed exactly |
| Framing.FramesRoundTrip | src/internal/transport/mcp/codec.go:32-116 | any list of frames is read back, whatever bytes the payloads hold, and what follows is left unread |
| Framing.ReadAllFrames | src/internal/transport/mcp/codec.go:32-116 | a stream of whole frames is read to its last byte and then ends |
| Framing.FramesInjective | src/internal/transport/mcp/codec.go:53-69 | different lists of payloads are different bytes |
| Framing.TruncatedFrame | src/internal/transport/mcp/codec.go:32-116 | a stream cut inside a frame yields the whole frames before it and an error, an unexpected end exactly if part of the payload was read; never a shortened payload |
| Common.SortedMembers | src/internal/orchestration/handlers_indexing.go:3013-3023 | the sorted listing of a set |
| Common.SortedListingUnique | src/internal/orchestration/handlers_indexing.go:3013-3023 | a set has one sorted listing, so sorted results do not depend on map order |

## Left out

- Filesystem walking, symlinks, git, HTTP clients, SQL statements, file locks and the Qdrant, Ollama and GitHub protocols.
- Path normalization, ignore patterns and language tables: paths are taken as normalized, the filters and the classifier are functions.
- Unicode: blank space and letter case are the ASCII ones, and a string is its bytes.
- Machine integers: counters, lengths above the header's limit and nanosecond times do not overflow here.
- The cap on indexed files: discovery and the walk never truncate, so the priority order of files is not modelled.
- Scalar fields of a stored index (times, display name, symbols) and, in the fast path, everything but the three maps, which are all that reaches its caller.
- A remote tree that changes between the listing of a run and its fetch: each run finds one tree.
- RemoteIndex.DiscoverRemoteSourceMetadata: without the cap on indexed files and the normalization of paths, as above.
- RemoteIndex.DiscoverRemoteSourceFiles: without the cap on indexed files and the normalization of paths, as above.
- RemoteIndex.RemoteIndexer.IndexRepo: ends with the first save of the index. The vector sync after it is `VectorSync`, put together with it in `RemoteSync`; the second save, which stores the remembered vector ids, is not modelled. A cancelled discovery counts as a failing fetch.
- RemoteIndex.RemoteIndexer.Update: ends with the first save of the index, as above.
- LiveIndex.QuietMeansIndexed: asks that equal sizes and times in a scan mean equal content, since the polling source sees no more of a file.
- VectorSync.BuildChunks: without path normalization, languages and the extra fields of a file.
- VectorSync.VectorIndex.SyncIndexVectors: after a failure it states which ids may be lost or added, not that the next sync removes ids left behind, because the program does not.
- Vector stores after a non-incremental reindex, which forgets the ids it remembered, and the order of ids inside a request.
- Chunking.ChunkFile: one file at a time, without language and extra fields; paths are distinct and sorted where several files meet, and the chunk hash is taken to be injective.
- HybridRanking.RankCandidates: exact reals instead of floating point, so no rounding, NaN or infinity, and no bound on scores such as MaxFloat64.
- Tracker.Tracker.RecordCall: without costs, prices and the timestamps of calls.
- TelemetryRuntime.Runtime.RecordCall: for a runtime with an event log and a tracker.
- TelemetryRuntime.Runtime.Flush: a save that fails has no effect on the store here; one that fails after taking effect is not modelled.
- Trends.AggregateTrends: for windows that are parsed, sorted and deduplicated already; the time filters of the SQL stores are not modelled.
- Freshness.StateController.Query: without the age of the staleness; the clock behind a wait's timeout is a signal.
- Framing.Reader.ReadMessage: up to the payload's bytes, without JSON decoding and its errors.
- Framing.Writer.WriteMessage: from the payload's bytes, without JSON encoding and failing writes.
- Panics in tool handlers, which end a reindex without a mark.
- Fairness: no interleaving gets stuck, but nothing says that a particular worker or waiter goes next.
- Tool payloads, rendering, command-line flags and display handlers.
