# A verified model of the IDE's analysis core

The IDE keeps what it knows about a C workspace in a handful of in-memory stores, refreshes them
incrementally from a background worker, and hands the results to a single UI thread. This project
models that machinery in Dafny, in the form the C code has (fields and buffers changed in place,
explicit stacks, loops), and proves what each part is for.

What is modelled, by module:

- `CStrings`, `PathTable`, `Filters`, `Sorting`, `PathList`, `Decimal`: `strcmp` as a total order,
  linear tables keyed by a path, order-preserving filters, `qsort`, duplicate-free path lists,
  decimal printing and reading.
- `Snapshot`: file fingerprints, the two-index merge that compares two snapshots, the saved-file hint filter.
- `WorkspaceTree`: the directory tree, the explicit-stack scan and the recursive scan.
- `RecencyStore`, `IncludeGraph`, `LibraryIndex`: the newest-first stores with stamps, the include
  graph with reverse lookup, the library index with its in-place compaction.
- `BuildFlags`: the flags gathered at the start of each run, and the tree scan that switches the units overlay on.
- `Frontend`, `AnalysisJob`: one run of the analysis worker over those stores. The compiler frontend is
  an arbitrary function of the flags, the path and the disk.
- `Refinement`: the incremental run against the full scan it stands in for.
- `RefinementLimits`: exactly which changes no frontend can get wrong, with complete runs that go wrong.
- `StartupAudit`: the counts and the refresh decision made at start-up.
- `Scheduler`, `SchedulerRuns`: the job slots as a class, and what holds over every run of requests and ticks.
- `DiagnosticsCache`: the two-slot cache as a state machine over every interleaving of the UI thread's sections,
  the readers' completions and clears, which come without the lock and from client threads too.
- `LineSplitter`: the bounded-buffer byte splitter of build output.
- `InputCoalescing`, `CompletedResults`: mouse-motion coalescing, the three-lane result queue, the stale filter.
- `ConfigFile`, `AuthoringPayload`, `TargetSpec`, `TokenSubstitution`: the codecs.

## How to read it

Each class is proved against a function on values: a method's `ensures` equates the object's new
value with that function of its old value, and the lemmas are about the function. What such a function
means is said once more without its own helpers, in bytes, fields and numbers, by a lemma whose name ends in
`Exactly`, `ByFields`, `ByBytes` or the like. A string holds the bytes before the terminator, one `char` per byte.

The main results:

1. `Refinement.IncrementalRefinesFull`: start from stores that agree with the old disk, and let every file be
   steady: the tree scan heeds its request for the overlay, and it is dirty or the run's flags are those of the
   last run (a run before which nothing at all changed is steady too). Then an incremental run ends in stores
   that agree with the new disk if and only if no analysed file has turned into one the scan passes over.
   The condition can be checked from the files and flags before the run, and it is exact for runs:
   `RefinementLimits.NoneGoesWrongIff` says that no frontend meeting the assumptions makes the run after a full
   scan go wrong if and only if the files are steady and none became one the scan passes over, or the run falls
   back to a full scan whatever the frontend. `RefinementLimits.AlwaysFullIff` says when the latter happens: a
   header is in the diff and no file was readable before, or nothing differs, there are sources, and no symbols
   are recorded or no file is readable.
   `Refinement.ChangedFlagsExact` says, for a given frontend, exactly when changed flags do no harm.
   `Refinement.EveryRunAgrees` carries the result over any number of runs, each with flags of its own, from
   any starting stores.
2. `SchedulerRuns`: accounting over all runs, dispatches that carry everything asked for, at most four
   overtakings plus one for each priority request that arrives, starvation while they keep arriving, and an
   editor save that starts next from any state. `LibraryIndex.StampCountsChanges`: in every run the index stamp
   counts the finalizes that had a change to announce.
3. `Snapshot.MergeIsExact`, `Refinement.TargetsExact`, `WorkspaceTree.WorklistEqualsRecursion`:
   exact descriptions of the diff, the target list and the difference between the two scans.
4. `DiagnosticsCache.NextIsSafe` and `PublishedBytesAreCurrent`: what is published was read for the latest load,
   fresh and once, and comes out after a clear if and only if a clear fell between the load's own clear and its
   claim, or between the take and the apply; `ClearedLoadIsPublished` gives the runs in which it does.
   `PollPublishes` is the other half: bytes that are due come out, from either slot, unless there is a clear.
5. `LineSplitter.CuttingIsUnique`; `CompletedResults.QueueIsFifo`; the round trips of the four codecs.

What the refinement takes as given, each stated as a predicate in `Refinement`:

- `Framed`: the frontend's answer depends on the flags, on the file's contents, on the recorded includes and,
  for a frontend that `probes`, on which files exist. Include resolution does probe: an unresolved
  `#include "x.h"` is not recorded, so creating `x.h` does not make its includer a target. For such a frontend
  steadiness also asks, of every file that is not dirty, that no file was created or deleted.
- `FingerprintsFaithful`: equal fingerprints mean equal contents.
- `DepsAreWatched`: recorded includes are files the snapshot covers.
- `NothingHidden` (full scans only): nothing to analyse lies below an entry named `.DS_Store`, which
  only one of the two scans skips.

Where the code differs from what one would expect, the model follows the code:

- A file that becomes a generated gperf source or outgrows 32 MB keeps its old rows after an
  incremental run (`src/core/Analysis/project_scan.c:571-572`).
- The overlay is switched on for a whole run when any source of the project asks for it
  (`src/core/Analysis/include_path_resolver.c:725-727`). An incremental run after the first request, or after
  the last one went, leaves the rows of all files that are no target as they were under the old flags.
- The tree scan reads 8192 bytes at a time and takes only lower-case `.c` and `.h`, so it misses a request in
  `a.C` or one cut by a read. For such a file the per-file scan has the overlay on and the index build has not.
- A build request of a client clears the diagnostics from its own thread, without the lock
  (`src/core/Ipc/ide_ipc_build_helpers.c:500`, `src/core/BuildSystem/build_diagnostics.c:142`). A clear that falls
  between a load's own clear and its claim, or while bytes are being applied, does not stop the old diagnostics.
- Reloading the diagnostics store reverses its order; the build-graph store keeps its order.
- A configuration key is accepted when it is any prefix of a known key.
- The zoom step is written even when it was never set, so it always comes back as set.

## Model

| member | source | states |
|---|---|---|
| CStrings.StrcmpZeroIffEqual | src/core/Analysis/analysis_snapshot.c:121-127 | `strcmp` gives 0 exactly on equal strings |
| CStrings.StrcmpAntisymmetric | src/core/Analysis/analysis_snapshot.c:121-127 | swapping the arguments negates the sign |
| CStrings.StrcmpTransitive | src/core/Analysis/analysis_snapshot.c:121-127 | the order is transitive, strictly if one step is strict |
| PathTable.WithoutForgetsOne | src/core/Analysis/analysis_store.c:177-199 | removing a row by shifting the tail forgets that path, keeps every other lookup and keeps paths distinct |
| PathTable.InsertFresh | src/core/Analysis/include_graph.c:145-174 | putting a new row in front or at the end adds exactly that lookup |
| PathTable.FindRow | src/core/Analysis/include_graph.c:44-52 | the linear scan finds the row to remove, or reports that there is none |
| PathTable.ShiftOut | src/core/Analysis/analysis_store.c:188-194 | the shifting loop takes out one row and keeps the order of the others |
| Sorting.SortSorts | src/core/Analysis/analysis_snapshot.c:129-132 | sorting orders by any total preorder |
| Sorting.SortKeepsElements | src/core/Analysis/analysis_snapshot.c:129-132 | sorting is a permutation |
| Sorting.SortedIsUnique | src/core/Analysis/analysis_snapshot.c:129-132 | when no two different elements tie, any two sorted arrangements of the same elements are equal, so an unstable sort has one outcome |
| Snapshot.SortedSnapshot | src/core/Analysis/analysis_snapshot.c:121-132 | sorting files with distinct paths gives a strictly sorted snapshot with the same lookups |
| Snapshot.MergeIsExact | src/core/Analysis/analysis_snapshot.c:338-393 | on strictly sorted snapshots, dirty is the in-order filter of current paths that are new or changed, removed is cached minus current, and cached + new = current + removed |
| Snapshot.MatchedPlusDirty | src/core/Analysis/analysis_startup_audit.c:188-209 | current = hash-matched + dirty |
| Snapshot.ComputeDirtySets | src/core/Analysis/analysis_snapshot.c:338-393 | the two-index loop produces the merge, field by field for files of both snapshots, and fails exactly when an empty path would be listed |
| Snapshot.DiffMembership | src/core/Analysis/analysis_snapshot.c:338-393 | membership in dirty and removed, read off lookups in the two snapshots |
| Snapshot.HintAcceptedIffDirty | src/core/Analysis/analysis_incremental_policy.c:55-71 | a saved-file hint is accepted exactly when the merge calls that path dirty |
| Snapshot.DirtyByFields | src/core/Analysis/analysis_snapshot.c:47-58 | a file of both snapshots is dirty, and its hint accepted, if and only if the hashes differ when both sides have one, else if time or size differs |
| Snapshot.OneSided | src/core/Analysis/analysis_snapshot.c:338-393 | a file of one snapshot alone is dirty when it is new and removed when it is gone |
| Snapshot.HeaderByLastBytes | src/core/Analysis/analysis_incremental_policy.c:29-43 | the policy's header test asks for a name whose last two bytes are `.h`, lower case |
| WorkspaceTree.ReadDirectory | src/core/Analysis/project_scan.c:438-476 | one directory read moves its files to the visited list and its subdirectories to the stack, losing and repeating nothing |
| WorkspaceTree.ScanDir | src/core/Analysis/project_scan.c:423-477 | the stack traversal terminates and visits each file the recursion reaches, as often as it does |
| WorkspaceTree.CountScannable | src/core/Analysis/project_scan.c:195-248 | the pre-count is the number of files the scan then visits |
| WorkspaceTree.LibraryScanDir | src/core/Analysis/library_index_build.c:174-260 | the recursive traversal visits the same files in depth-first order |
| WorkspaceTree.RecursionFindsHidden | src/core/Analysis/library_index_build.c:127-133 | the recursion finds the stack scan's files plus exactly those below an entry named `.DS_Store` |
| WorkspaceTree.WorklistEqualsRecursion | src/core/Analysis/project_scan.c:423-477 | the two scans visit the same multiset of files if and only if nothing to analyse is hidden that way |
| WorkspaceTree.WalkIsDistinct | src/core/Analysis/project_scan.c:438-476 | on a well-formed tree no path is visited twice |
| WorkspaceTree.FilesExactly | src/core/Analysis/project_scan.c:423-477 | the files walked are exactly those below `src` and `include`, at any depth, with no name on the way that is skipped |
| WorkspaceTree.SourcesExactly | src/core/Analysis/project_scan.c:56-73 | of these the snapshot takes exactly the names that end in `.c`, `.C`, `.h` or `.H`, and the frontend sees those of at most 33554432 bytes that are no generated `.c` file |
| WorkspaceTree.LibraryFilesExactly | src/core/Analysis/library_index_build.c:101-260 | the same for the recursive scan, which enters `.DS_Store` |
| RecencyStore.FallingMeans | src/core/Analysis/analysis_store.c:100-166 | the recursive form of the order is the plain one: stamps strictly fall from front to back and none is above the bound |
| RecencyStore.UpsertCorrect | src/core/Analysis/analysis_store.c:100-166 | an upsert keeps paths distinct and stamps falling from front to back, sets one path, keeps the others and raises the combined stamp |
| RecencyStore.RemoveCorrect | src/core/Analysis/analysis_store.c:177-199 | a removal keeps the order, forgets one path, and raises the combined stamp exactly when the path was there |
| RecencyStore.RunCorrect | src/core/Analysis/analysis_store.c:100-215 | after any run of upserts and removals the order holds and each path holds the last thing said about it |
| RecencyStore.BackwardKeepsOrder | src/core/Analysis/analysis_build_graph_store.c:422-454 | reloading from the last record to the first restores the saved order |
| RecencyStore.ForwardReverses | src/core/Analysis/analysis_store.c:323-384 | reloading in file order reverses the saved order and lifts the counter above every saved stamp |
| RecencyStore.ReloadOrder | src/core/Analysis/analysis_build_graph_store.c:404-454 | both reloads of a saved store, against the store itself |
| RecencyStore.Store.Upsert | src/core/Analysis/analysis_store.c:100-166 | the path moves to the front with the new content and a fresh stamp, the published stamp untouched |
| RecencyStore.Store.Remove | src/core/Analysis/analysis_store.c:177-199 | the path goes and the stamp advances, or nothing changes when it was not there |
| RecencyStore.Store.LoadInFileOrder | src/core/Analysis/analysis_store.c:323-384 | the store becomes the forward reload of the records, whatever it held, with nothing published |
| RecencyStore.Store.LoadFromLastRecord | src/core/Analysis/analysis_build_graph_store.c:422-454 | the store becomes the backward reload of the records, whatever it held |
| PathList.Added | src/core/Analysis/analysis_job.c:245-261 | adding keeps the list duplicate-free, keeps what was there as a prefix, and ignores empty paths |
| PathList.List.AddUnique | src/core/Analysis/analysis_job.c:235-261 | the array list adds a path unless it is empty or known, and fails only on an empty one |
| IncludeGraph.RecordedDeps | src/core/Analysis/include_graph.c:134-175 | the recorded includes are duplicate-free and exactly the resolved paths under the root |
| IncludeGraph.ReplacedLookup | src/core/Analysis/include_graph.c:134-175 | replacing a file's includes sets that file's row and no other |
| IncludeGraph.RemovedLookup | src/core/Analysis/include_graph.c:119-132 | removing a source forgets that row and no other |
| IncludeGraph.DependentsExact | src/core/Analysis/include_graph.c:177-205 | a file is a dependent exactly when its recorded includes name the changed file and it is not that file |
| IncludeGraph.UnderRootExactly | src/core/Analysis/include_graph.c:92-97 | under the root are the root and the paths that continue it with a separator |
| IncludeGraph.StampMoves | src/core/Analysis/include_graph.c:103-175 | the stamp moves by one with every replacement, every removal that finds its row and every clearing that drops one |
| IncludeGraph.Graph.Clear | src/core/Analysis/include_graph.c:103-117 | clearing drops all rows and moves the stamp only if there were any |
| IncludeGraph.Graph.RemoveSource | src/core/Analysis/include_graph.c:119-132 | that row goes and the stamp moves, or nothing changes when there is no such row |
| IncludeGraph.Graph.ReplaceFromResult | src/core/Analysis/include_graph.c:134-175 | the file's row is replaced by one holding its deduplicated includes under the root, and the stamp moves |
| IncludeGraph.Graph.CollectDependents | src/core/Analysis/include_graph.c:177-205 | the result is exactly the rows that name the file, in row order |
| LibraryIndex.WithoutSourceFilters | src/core/Analysis/library_index.c:206-249 | removing a source keeps, in order, exactly the usages of the other sources |
| LibraryIndex.WithoutSourceHeaders | src/core/Analysis/library_index.c:206-249 | exactly the headers with a usage elsewhere survive, in order, none of them empty |
| LibraryIndex.AddUsageAddsOne | src/core/Analysis/library_index.c:124-191 | recording an include adds that one usage |
| LibraryIndex.AddUsageKeeps | src/core/Analysis/library_index.c:114-191 | header names stay distinct and no header is empty |
| LibraryIndex.AddUsageLookup | src/core/Analysis/library_index.c:114-191 | the named header keeps its kind, origin and any resolved path, takes the include's path when it has none, and the other headers stay |
| LibraryIndex.OriginsByBucket | src/core/Analysis/library_index_build.c:140-149 | project, system, external and unresolved includes are counted in buckets 0, 1, 2 and 3, and nowhere else |
| LibraryIndex.RelativePathExactly | src/core/Analysis/library_index.c:98-107 | a source is recorded without the root and one separator, unless nothing would be left |
| LibraryIndex.IncludeAddedCorrect | src/core/Analysis/library_index.c:165-191 | adding an include counts one more of that usage in its bucket and changes no other count |
| LibraryIndex.SourceRemovedCorrect | src/core/Analysis/library_index.c:206-249 | removing a source brings its usages to zero in every bucket and changes no other count |
| LibraryIndex.FinalizedCorrect | src/core/Analysis/library_index.c:274-298 | finalizing reorders headers and usages and loses none |
| LibraryIndex.FinalizedIsSorted | src/core/Analysis/library_index.c:251-290 | after finalizing, every bucket is sorted by header name and every header's usages by source, line and column |
| LibraryIndex.SortedBucketIsUnique | src/core/Analysis/library_index.c:274-290 | any sort of the headers by name and of each header's usages ends in the same bucket |
| LibraryIndex.UsagesByFields | src/core/Analysis/library_index.c:261-272 | usages are ordered by source, then line, then column, all rising |
| LibraryIndex.StampCountsChanges | src/core/Analysis/library_index.c:165-328 | in every run the combined stamp is the number of finalizes, since the last begin, that came after some include was recorded or some count fell |
| LibraryIndex.FinalizeAnnouncesChanges | src/core/Analysis/library_index.c:274-298 | from a finalized index, any adds and removes and one finalize raise the stamp by one if something was recorded or some count fell, and leave it otherwise |
| LibraryIndex.PublishedIsClamped | src/core/Analysis/library_index.c:316-328 | the published mark is the smaller of the stamp given and the combined one |
| LibraryIndex.ReachableIsValid | src/core/Analysis/library_index.c:165-328 | in every reachable state names are distinct per bucket, no header is empty, published stamp <= combined stamp |
| LibraryIndex.Index.AddToBucket | src/core/Analysis/library_index.c:114-191 | the named header, new or old, gets one more usage, and a resolved path if it had none |
| LibraryIndex.Index.CompactUsages | src/core/Analysis/library_index.c:219-234 | the inner in-place loop is the order-preserving filter of the usages |
| LibraryIndex.Index.CompactHeaders | src/core/Analysis/library_index.c:214-244 | the outer in-place loop filters every header and drops the emptied ones |
| LibraryIndex.Index.RemoveSource | src/core/Analysis/library_index.c:206-249 | all buckets compacted, the index marked changed exactly when a usage went |
| LibraryIndex.Index.Finalize | src/core/Analysis/library_index.c:274-298 | the index becomes the finalized one, every bucket and every header in sorted order; one new stamp if anything changed |
| LibraryIndex.Index.MarkPublished | src/core/Analysis/library_index.c:316-328 | the published watermark, clamped to the combined stamp |
| BuildFlags.ChunksAgainstWhole | src/core/Analysis/include_path_resolver.c:268-282 | a request found in one read is a request of the file; in a file of at most 8192 bytes every request is found |
| BuildFlags.TreeSeesFile | src/core/Analysis/include_path_resolver.c:284-305 | a scanned file with a lower-case extension and a request inside one read switches the overlay on |
| BuildFlags.RequestsExactly | src/core/Analysis/include_path_resolver.c:198-215 | contents ask for the overlay exactly when one of the four markers occurs in them |
| BuildFlags.ChunksExactly | src/core/Analysis/include_path_resolver.c:268-282 | the tree scan sees exactly the markers that lie within one read of 8192 bytes |
| BuildFlags.OverlayExactly | src/core/Analysis/include_path_resolver.c:252-305 | a run's overlay is on if and only if it was given or some lower-case `.c` or `.h` file anywhere in the project, with no skipped name on the way, has such a marker |
| BuildFlags.ScanSourceFile | src/core/Analysis/include_path_resolver.c:268-282 | the read loop finds a request exactly when one chunk holds it whole |
| BuildFlags.ScanSourceTree | src/core/Analysis/include_path_resolver.c:284-305 | the recursion with early exit finds a request exactly when some file of the tree has one |
| BuildFlags.GatherBuildFlags | src/core/Analysis/include_path_resolver.c:679-757 | the overlay is on exactly when it was asked for by the flags or by some source of the tree |
| AnalysisJob.AddThenRemoveRestores | src/core/Analysis/library_index.c:165-249 | on the whole index: recording any includes of a new source, over all origins, label fallbacks and relative paths, and removing it restores every bucket's names and usages |
| AnalysisJob.ScanGivesSnapshot | src/core/Analysis/analysis_snapshot.c:171-234 | whatever order the scan used, its sorted fingerprints are the snapshot of the workspace |
| AnalysisJob.SnapshotWatches | src/core/Analysis/analysis_snapshot.c:62-234 | a snapshot has a row for a path exactly when a walked file of that path ends in `.c`, `.C`, `.h` or `.H`, with that file's fingerprint |
| AnalysisJob.LabelExactly | src/core/Analysis/project_scan.c:166-183 | an include goes by its name, else by what follows the last separator of its path, cut to 511 bytes, else it is not recorded |
| AnalysisJob.QuestionsExactly | src/core/Analysis/project_scan.c:266-421 | a file's own scan has the overlay on by the run's flags or its own request, the index build by the run's flags alone |
| AnalysisJob.Job.AnalyzeFile | src/core/Analysis/project_scan.c:266-421 | per-file update of diagnostics, include graph and, when asked, the library index |
| AnalysisJob.Job.RemoveDeletedFileEntries | src/core/Analysis/analysis_job.c:299-311 | every removed path is dropped from the three stores |
| AnalysisJob.Job.ScanFiles | src/core/Analysis/project_scan.c:537-590 | each target is dropped if gone, passed over if not analysable, else re-analysed |
| AnalysisJob.Job.CollectDependents | src/core/Analysis/analysis_job.c:278-297 | the includers of the seeds join the targets; seeds added on the way are not expanded |
| AnalysisJob.Job.AddFileHints | src/core/Analysis/analysis_job.c:263-276 | exactly the accepted hints are added |
| AnalysisJob.Job.PrepareTargets | src/core/Analysis/analysis_job.c:378-428 | the target list of one run, or the refusal that leads to a full scan |
| AnalysisJob.Job.ScanTargets | src/core/Analysis/analysis_job.c:399-456 | targets are collected before deleted files are dropped and scanned after; a refusal leaves the drops in place |
| AnalysisJob.Job.RunIncrementalScan | src/core/Analysis/analysis_job.c:325-468 | the incremental run: its outcome, and the snapshot saved only on success |
| AnalysisJob.Job.ScanWorkspace | src/core/Analysis/project_scan.c:506-535 | the full scan clears the stores and refills them from the stack traversal |
| AnalysisJob.Job.BuildIndex | src/core/Analysis/library_index_build.c:262-320 | the index is rebuilt from the recursive traversal |
| AnalysisJob.Job.RunFullScan | src/core/Analysis/analysis_job.c:530-535 | the result is the full scan of the workspace in the two orders the traversals gave |
| AnalysisJob.Job.RunWorkspace | src/core/Analysis/analysis_job.c:526-541 | incremental unless forced or refused, else full; a fresh snapshot is saved either way |
| Refinement.FullScanAgrees | src/core/Analysis/project_scan.c:506-535 | a full scan makes the stores agree with the disk, whatever they held before |
| Refinement.DroppedAllAt | src/core/Analysis/analysis_job.c:299-311 | dropping deleted files forgets exactly them in the diagnostics and the include graph |
| Refinement.DroppedAllIndex | src/core/Analysis/analysis_job.c:299-311 | and brings exactly their usages to zero in the library index |
| Refinement.RescannedAllAt | src/core/Analysis/project_scan.c:537-590 | re-analysing a target list leaves, for each target the scan does not pass over, what the frontend now says, and every other row as it was |
| Refinement.RescannedAllIndex | src/core/Analysis/project_scan.c:376-389 | the same for the library index |
| Refinement.HintsAddNothing | src/core/Analysis/analysis_job.c:263-276 | hints never enlarge or reorder the seed list |
| Refinement.TargetsExact | src/core/Analysis/analysis_job.c:378-428 | the target list is duplicate-free and is the dirty files, the direct includers of dirty files and the direct includers of removed files |
| Refinement.MissedOnlyIf | src/core/Analysis/include_path_resolver.c:252-282 | a request is missed only in a file with an upper-case extension or longer than one read with no read holding the marker |
| Refinement.UntouchedAnswer | src/core/Analysis/analysis_job.c:325-468 | what is recorded for a file that is no target is still the frontend's answer on the new disk, under the flags of the last run |
| Refinement.IncrementalAt | src/core/Analysis/analysis_job.c:325-468 | path by path, what an incremental run leaves: the new answer for a refreshed target, nothing for a deleted file, else the old row |
| Refinement.IncrementalCount | src/core/Analysis/analysis_job.c:325-468 | usage by usage, the count an incremental run leaves: the per-file scan's for a refreshed target, zero for a deleted file, else the old one |
| Refinement.AgreesIffAllHold | src/core/Analysis/analysis_job.c:325-468 | agreement with the full scan, decided file by file for the frontend at hand |
| Refinement.IncrementalRefinesFull | src/core/Analysis/analysis_job.c:325-468 | when every file is steady, the incremental result agrees with a full scan of the new disk under the new run's flags if and only if no analysed file became one the scan passes over |
| Refinement.ChangedFlagsExact | src/core/Analysis/analysis_job.c:493-535 | whatever the two runs' flags, when no request is missed and, for a frontend that probes, no file was created or deleted: agreement holds if and only if, besides, the frontend records the same under both for every readable file that is no target |
| Refinement.FullRunAgrees | src/core/Analysis/analysis_job.c:530-535 | a run that falls back repairs everything, even after it has dropped rows |
| Refinement.RowsExactly | src/core/Analysis/project_scan.c:56-73 | stores that agree have rows for exactly the walked sources of at most 33554432 bytes that are no generated `.c` file, and usages of no other file |
| Refinement.FullRunRows | src/core/Analysis/analysis_job.c:530-535 | so after any full run |
| Refinement.RunKeepsAgreement | src/core/Analysis/analysis_job.c:526-541 | one run that is full or steady keeps agreement if and only if it was full or no analysed file became one the scan passes over |
| Refinement.ChainAgrees | src/core/Analysis/analysis_job.c:470-541 | agreement is kept over any sequence of runs, each with its own flags and forced or steady |
| Refinement.EveryRunAgrees | src/core/Analysis/analysis_job.c:470-541 | from any stores and no saved snapshot, after any number of such runs the stores are a full scan of the last disk under the last flags |
| RefinementLimits.OutcomeExact | src/core/Analysis/analysis_job.c:313-428 | when the incremental scan falls back, and that otherwise it ends in the incremental result |
| RefinementLimits.AlwaysFullIff | src/core/Analysis/analysis_incremental_policy.c:73-91 | the run falls back for every frontend if and only if a header is in the diff and no file was readable before, or nothing differs, there are sources, and no symbols are recorded or no file was readable |
| RefinementLimits.UnsteadyBreaksSome | src/core/Analysis/analysis_job.c:325-468 | after any other change that is not steady there is a frontend meeting every assumption whose run is incremental and disagrees with the full scan |
| RefinementLimits.NoneGoesWrongIff | src/core/Analysis/analysis_job.c:325-468 | no frontend meeting the assumptions gets a change wrong if and only if every run over it is full, or it is steady and makes no analysed file one the scan passes over |
| RefinementLimits.EditIsIncremental | src/core/Analysis/analysis_job.c:325-468 | for the failing runs below: the incremental scan accepts the edit and does not fall back |
| RefinementLimits.GeneratedFileLeavesStaleRow | src/core/Analysis/project_scan.c:56-73 | a complete run that leaves a stale row, whatever the frontend: a source becomes a generated gperf file |
| RefinementLimits.MarkerElsewhereLeavesStaleRows | src/core/Analysis/include_path_resolver.c:725-727 | a complete run of two sources: one starts to ask for the overlay, and the other, no target, keeps what was recorded without it |
| RefinementLimits.UpperCaseSourceSplitsTheIndex | src/core/Analysis/include_path_resolver.c:252-256 | a complete run with unchanged flags: a source named `a.C` starts to ask, and its usage is counted with the overlay where the index build is without |
| StartupAudit.NothingChangedIffSameFiles | src/core/Analysis/analysis_startup_audit.c:169-260 | the diff is empty exactly when the two snapshots list the same files with matching fingerprints |
| StartupAudit.HeadersInDiff | src/core/Analysis/analysis_startup_audit.c:89-103 | a header is in the diff exactly when some header was added, changed or deleted |
| StartupAudit.IntentExact | src/core/Analysis/analysis_startup_audit.c:212-260 | exactly when each refresh intent is chosen, in terms of the two snapshots |
| StartupAudit.Evaluate | src/core/Analysis/analysis_startup_audit.c:169-260 | the counts, the two balance equations, and the intent |
| Scheduler.Scheduler.AddFileHint | src/core/Analysis/analysis_scheduler.c:65-79 | the first 32 distinct hints are kept |
| Scheduler.Scheduler.AcceptInto | src/core/Analysis/analysis_scheduler.c:256-301 | what accepting a request does to its slot, the sequence number and the counters |
| Scheduler.Scheduler.Submit | src/core/Analysis/analysis_scheduler.c:240-423 | the three kinds of request: refused, routed to a slot, and whether the active run is told to stop |
| Scheduler.Scheduler.SelectNextPendingKey | src/core/Analysis/analysis_scheduler.c:115-137 | editor saves first, then the live buffer, else the pending slot with the smallest sequence number |
| SchedulerRuns.KeyRequestExactly | src/core/Analysis/analysis_scheduler.c:240-307 | a request by key: refused for a key outside 1..5 or without a reason, the index slot for the library panel's reason alone, else its own slot; which fields grow and which stay |
| SchedulerRuns.FileRequestExactly | src/core/Analysis/analysis_scheduler.c:309-361 | a request for a file: refused without path or reason, else the diagnostics slot grows and the file joins its hints |
| SchedulerRuns.LiveRequestExactly | src/core/Analysis/analysis_scheduler.c:363-423 | a request for a live buffer: refused without path or reason or above 2097152 bytes, else the live slot grows and holds this buffer |
| SchedulerRuns.CancelsExactly | src/core/Analysis/analysis_scheduler.c:139-149 | the active run is told to stop exactly by a reload of its own key, or by an editor save while a workspace, symbols or index job runs |
| SchedulerRuns.TickExactly | src/core/Analysis/analysis_scheduler.c:457-526 | what a tick does to the active run, the counters and the slots, and exactly when it starts something |
| SchedulerRuns.EditorSaveStartsNext | src/core/Analysis/analysis_scheduler.c:115-119 | from any state, an accepted editor save is what the next tick that can start anything starts, whatever is asked for in between |
| Scheduler.Scheduler.RunTick | src/core/Analysis/analysis_scheduler.c:457-559 | a tick notes a finished worker and starts at most one job |
| SchedulerRuns.StepKeepsValid | src/core/Analysis/analysis_scheduler.c:240-526 | every request and tick keeps the invariant and the balance of the counters |
| SchedulerRuns.RunAccounting | src/core/Analysis/analysis_scheduler.c:240-526 | started + pending <= scheduled <= started + pending + coalesced; ids are started and completed as 1, 2, 3, ...; at most one run is unfinished |
| SchedulerRuns.CountersExactly | src/core/Analysis/analysis_scheduler.c:256-301 | over all runs the scheduled counter is the number of accepted requests, the coalesced one the number that found their slot pending or its job running |
| SchedulerRuns.SlotsHold | src/core/Analysis/analysis_scheduler.c:309-423 | every slot always holds exactly what was asked of its key since that key's last dispatch |
| SchedulerRuns.DispatchCarriesEverything | src/core/Analysis/analysis_scheduler.c:493-525 | a dispatch carries the union of the reasons, the disjunction of the force flags, the latest live buffer, and the first 32 hints stored: cut to the buffer, and the first 32 distinct ones when all fit it |
| SchedulerRuns.SelectedIffNothingAhead | src/core/Analysis/analysis_scheduler.c:115-137 | a slot is selected exactly when it is pending with no pending slot ahead of it |
| SchedulerRuns.TickShrinksAhead | src/core/Analysis/analysis_scheduler.c:457-526 | each dispatch takes one slot off the set ahead of a waiting job |
| SchedulerRuns.CalmRequestKeepsAhead | src/core/Analysis/analysis_scheduler.c:240-361 | a request outside the priority lanes never adds to that set |
| SchedulerRuns.BoundedOvertaking | src/core/Analysis/analysis_scheduler.c:115-137 | whatever arrives, the jobs started before a pending one number at most those ahead of it (at most four) and one for each new editor-save or live-buffer request |
| SchedulerRuns.NothingNewGetsAhead | src/core/Analysis/analysis_scheduler.c:115-137 | without such requests the set ahead of a pending job never grows |
| SchedulerRuns.StartedByFifthIdleTick | src/core/Analysis/analysis_scheduler.c:457-526 | so it starts by the fifth tick that finds the worker idle, one later for each such request |
| SchedulerRuns.LiveFloodStarves | src/core/Analysis/analysis_scheduler.c:115-137 | live requests keep any other job waiting for as long as they come, one dispatch each; only an editor save that already waits goes first |
| DiagnosticsCache.NextIsSafe | src/core/BuildSystem/build_diagnostics.c:103-147 | every interleaving of poll, load, claim, apply, reader completion and clears at any moment keeps the invariant |
| DiagnosticsCache.OwnedSlotIsNeverReused | src/core/BuildSystem/build_diagnostics.c:267-287 | a slot with an unfinished reader is touched by nobody else; at most one slot is of the current generation; at most two readers run |
| DiagnosticsCache.PollSlotExactly | src/core/BuildSystem/build_diagnostics.c:250-262 | one turn of a poll takes bytes if and only if the slot polled is busy, done, current, under 2000000000 ns old and holds bytes, and then exactly those; a finished slot ends free |
| DiagnosticsCache.PollPublishes | src/core/BuildSystem/build_diagnostics.c:247-265 | bytes that are due when a poll starts, in either slot, are published by the time it is over, whatever readers do, unless there is a clear |
| DiagnosticsCache.ClaimExactly | src/core/BuildSystem/build_diagnostics.c:271-286 | a claim starts a reader on the first free slot if and only if one is free, the path has less than 4096 bytes and the thread could be created |
| DiagnosticsCache.CallsExactly | src/core/BuildSystem/build_diagnostics.c:267-270 | a load clears, polls both slots and claims unless its root is empty; a poll ends after both slots |
| DiagnosticsCache.LatestLoadByProgress | src/core/BuildSystem/build_diagnostics.c:141-147 | the latest load stands exactly when no clear fell before or after its claim |
| DiagnosticsCache.RunsAreSafe | src/core/BuildSystem/build_diagnostics.c:141-147 | in every run a slot of the current generation belongs to the latest load, with no clear since its claim |
| DiagnosticsCache.TakenBytesAreCurrent | src/core/BuildSystem/build_diagnostics.c:250-262 | bytes leave the lock only for the latest load and with no clear since its claim; the load was cleared exactly if a clear fell before its claim |
| DiagnosticsCache.PublishedBytesAreCurrent | src/core/BuildSystem/build_diagnostics.c:247-265 | only an apply publishes; the bytes were read for the latest load, under two seconds old when taken, and are published once; they come out after a clear if and only if one fell between the load's own clear and its claim, or between the take and the apply |
| DiagnosticsCache.ClearedLoadIsPublished | src/core/Ipc/ide_ipc_build_helpers.c:500-500 | for any root, times and bytes: the runs in which a client's clear falls into either gap, and what is published all the same |
| DiagnosticsCache.DiagnosticsReads.PollOne | src/core/BuildSystem/build_diagnostics.c:250-263 | a finished slot is freed; its bytes come out only if its generation is current and it is under two seconds old |
| DiagnosticsCache.DiagnosticsReads.ClaimSlot | src/core/BuildSystem/build_diagnostics.c:271-286 | the first free slot is taken, and freed again if no reader could be started |
| DiagnosticsCache.DiagnosticsReads.Finish | src/core/BuildSystem/build_diagnostics.c:134-137 | only the reader's own slot changes: it gets the bytes and is marked done, and stays busy until a poll |
| LineSplitter.FedCuts | src/core/BuildSystem/build_diagnostics.c:149-167 | pieces and residue together are the stream; each piece ends at its only newline or is 2047 newline-free bytes; the residue is at most 2047 bytes |
| LineSplitter.PiecesInNumbers | src/core/BuildSystem/build_diagnostics.c:149-167 | a piece is a whole line of at most 2047 bytes or 2047 bytes of a longer one, and at most 2047 bytes are held back |
| LineSplitter.CuttingIsUnique | src/core/BuildSystem/build_diagnostics.c:149-167 | those properties determine the pieces: nothing else satisfies them |
| LineSplitter.ChunkingIsIrrelevant | src/core/BuildSystem/build_diagnostics.c:149-167 | any division of the input into chunks ends in the same state |
| LineSplitter.Splitter.Clear | src/core/BuildSystem/build_diagnostics.c:141-147 | clearing forgets the residue |
| LineSplitter.Splitter.FeedChunk | src/core/BuildSystem/build_diagnostics.c:149-167 | feeding a chunk byte by byte through the 2048-byte buffer hands on and keeps exactly what the stream model says |
| InputCoalescing.ProcessInputEvents | src/app/GlobalInfo/event_loop.c:578-616 | the events dispatched are the input without each motion directly followed by a motion |
| InputCoalescing.CoalescingKeepsOthers | src/app/GlobalInfo/event_loop.c:578-616 | no other event is lost or moved, and the last event survives |
| InputCoalescing.CoalescingIsIdempotent | src/app/GlobalInfo/event_loop.c:578-616 | no two motions are left side by side, so coalescing again changes nothing |
| CompletedResults.PushAppends | src/core/LoopResults/completed_results_queue.c:205-230 | an accepted result goes to the end of the one abstract queue, a refused one changes nothing |
| CompletedResults.PopTakesOldest | src/core/LoopResults/completed_results_queue.c:253-282 | a pop takes the oldest result of all three lanes |
| CompletedResults.PushRefusedIff | src/core/LoopResults/completed_results_queue.c:205-230 | a lane refuses a result exactly when 512 wait in its queue |
| CompletedResults.QueueIsFifo | src/core/LoopResults/completed_results_queue.c:205-282 | over any run, what was popped and then what waits is what was accepted, in order |
| CompletedResults.ResultsQueue.Push | src/core/LoopResults/completed_results_queue.c:205-230 | the item joins the end of its own lane unless that lane is full; the sequence number is spent either way |
| CompletedResults.ResultsQueue.PopAny | src/core/LoopResults/completed_results_queue.c:253-282 | the head with the smallest sequence number of the three refilled lanes is taken, the other heads stay |
| CompletedResults.AppliedIffFresh | src/app/GlobalInfo/event_loop.c:187-333 | a result is applied if and only if no later run was applied, it is of this project, the stamp of its own kind is still the one it carries and its document is open at its revision; else it only counts as dropped |
| CompletedResults.DrainCountsAndOrders | src/app/GlobalInfo/event_loop.c:187-346 | each popped result counts once as applied or stale, and the non-zero run ids applied never decrease |
| CompletedResults.EventLoop.ApplyCompletedResult | src/app/GlobalInfo/event_loop.c:187-333 | a result outdated by run id, project, the stamp of its kind or document revision only counts as dropped; any other counts as applied and raises the latest run id |
| CompletedResults.EventLoop.DrainCompletedResults | src/app/GlobalInfo/event_loop.c:335-346 | the oldest results of the three lanes, at most 64, are popped and applied in push order, and the rest stay queued |
| Decimal.PrintReads | src/app/GlobalInfo/workspace_prefs.c:197-203 | printing and reading a 32-bit integer loses nothing |
| Decimal.StrtolReads | src/app/GlobalInfo/workspace_prefs.c:197-201 | white space, at most one sign and digits read as their value, held within 64 bits, whatever follows |
| Decimal.StrtolReadsNothing | src/app/GlobalInfo/workspace_prefs.c:197-201 | without a digit nothing is read |
| Decimal.CastKeepsLowBits | src/app/GlobalInfo/workspace_prefs.c:200 | the cast to `int` keeps the low 32 bits |
| ConfigFile.KeyNames | src/app/GlobalInfo/workspace_prefs.c:107-124 | the sixteen names |
| ConfigFile.LineFormat | src/app/GlobalInfo/workspace_prefs.c:103-126 | one line: name, `=`, the text or the printed number, newline; the four authoring lines only when the presentation was set |
| ConfigFile.FileFormat | src/app/GlobalInfo/workspace_prefs.c:103-126 | the file is the sixteen lines, each in its place |
| ConfigFile.TrimmedExactly | src/app/GlobalInfo/workspace_prefs.c:62-75 | the trimmed text is the only prefix that drops blanks, tabs, carriage returns and newlines and leaves none at the end |
| ConfigFile.FgetsExactly | src/app/GlobalInfo/workspace_prefs.c:174-175 | a read ends after the first newline, at the end of the file, or when the buffer is full |
| ConfigFile.LongLineIsSplit | src/app/GlobalInfo/workspace_prefs.c:174-175 | a longer line is read 4607 bytes at a time, each piece as a line of its own |
| ConfigFile.EmptyFile | src/app/GlobalInfo/workspace_prefs.c:149-160 | what an empty file leaves: no text, visible panels, nothing set |
| ConfigFile.BranchExactly | src/app/GlobalInfo/workspace_prefs.c:184-240 | a key on a line stands for the first known name that begins with it |
| ConfigFile.LineIgnored | src/app/GlobalInfo/workspace_prefs.c:176-180 | a line without `=`, or whose key begins no known name, changes nothing |
| ConfigFile.LineSets | src/app/GlobalInfo/workspace_prefs.c:182-240 | what one line sets: the text cut to its field, the number if one can be read, a visibility flag in any case |
| ConfigFile.Trimmed | src/app/GlobalInfo/workspace_prefs.c:62-75 | what is dropped is trailing white space only, and all of it |
| ConfigFile.NameFindsItself | src/app/GlobalInfo/workspace_prefs.c:174-240 | though keys match by prefix, every written key takes its own branch |
| ConfigFile.LineReadsBack | src/app/GlobalInfo/workspace_prefs.c:174-242 | one written line is read as one line and sets its own key only |
| ConfigFile.ConfigRoundTrip | src/app/GlobalInfo/workspace_prefs.c:103-126 | loading what was written gives every text right-trimmed, every integer unchanged (visibility flags as 0 or 1), and the zoom step as set |
| ConfigFile.RoundTripBySizes | src/app/GlobalInfo/workspace_prefs.c:103-245 | the round trip for any texts without newlines of at most 127, 255, 511 or 4095 bytes and any 32-bit numbers, value by value |
| ConfigFile.UnchangedIffCanonical | src/app/GlobalInfo/workspace_prefs.c:103-242 | saving and loading is the identity exactly on preferences with trimmed texts, a set zoom step, 0/1 flags, and defaults where nothing was set |
| ConfigFile.Preferences.WriteConfigContents | src/app/GlobalInfo/workspace_prefs.c:103-126 | the file is every key's line in table order, the four authoring lines only once the presentation was set |
| ConfigFile.Preferences.ApplyLine | src/app/GlobalInfo/workspace_prefs.c:176-240 | a line assigns at most the first known key that its text before the first `=` is a prefix of |
| ConfigFile.Preferences.LoadConfigFile | src/app/GlobalInfo/workspace_prefs.c:143-245 | the preferences become the defaults overridden line by line, whatever they were |
| AuthoringPayload.Word16 | src/app/GlobalInfo/workspace_authoring_profile.c:14-19 | the two-byte codec is a bijection |
| AuthoringPayload.Word32 | src/app/GlobalInfo/workspace_authoring_profile.c:15-22 | the four-byte codec is a bijection |
| AuthoringPayload.PayloadIsCanonical | src/app/GlobalInfo/workspace_authoring_profile.c:129-134 | a payload decodes to a projection if and only if it is byte for byte that valid projection's encoding |
| AuthoringPayload.RecordIsCanonical | src/app/GlobalInfo/workspace_authoring_profile.c:97-99 | twelve bytes read as a record if and only if they are its encoding |
| AuthoringPayload.TableIsCanonical | src/app/GlobalInfo/workspace_authoring_profile.c:95-140 | a byte string reads as a table if and only if it is that table's encoding, for any number of records |
| AuthoringPayload.ImportExact | src/app/GlobalInfo/workspace_authoring_profile.c:109-145 | an import succeeds with a projection if and only if the payload is its encoding and the table encodes compatible requirements |
| AuthoringPayload.ExportImports | src/app/GlobalInfo/workspace_authoring_profile.c:77-107 | what is exported imports back to the same projection |
| AuthoringPayload.PayloadByBytes | src/app/GlobalInfo/workspace_authoring_profile.c:88-94 | the sixteen bytes of a payload; valid are the active tools 0 to 6 |
| AuthoringPayload.RecordByBytes | src/app/GlobalInfo/workspace_authoring_profile.c:95-100 | the twelve little-endian bytes of a record |
| AuthoringPayload.ExportedModules | src/app/GlobalInfo/workspace_authoring_profile.c:24-31 | an export's table is the encoding of the module ids 0x49445001 to 0x49445007, each at 1.0 |
| AuthoringPayload.ImportErrors | src/app/GlobalInfo/workspace_authoring_profile.c:109-145 | which error an import ends with, byte by byte and in order |
| AuthoringPayload.Put32 | src/app/GlobalInfo/workspace_authoring_profile.c:15-18 | four bytes are overwritten in place, no other |
| AuthoringPayload.WritePayload | src/app/GlobalInfo/workspace_authoring_profile.c:88-94 | the in-place writes fill the zeroed buffer with the encoding |
| AuthoringPayload.WriteTable | src/app/GlobalInfo/workspace_authoring_profile.c:95-100 | the buffer ends as the encoding of the whole table, twelve bytes a record |
| AuthoringPayload.ReadRecords | src/app/GlobalInfo/workspace_authoring_profile.c:136-140 | the records read are the only table whose encoding the buffer is |
| AuthoringPayload.Export | src/app/GlobalInfo/workspace_authoring_profile.c:77-107 | export with its error cases, up to the container writer |
| AuthoringPayload.Import | src/app/GlobalInfo/workspace_authoring_profile.c:109-145 | import with its error cases in order, from the container reader on |
| TargetSpec.SplitIsUnique | tools/idebridge/idebridge.c:185-205 | a target splits at its last two colons in one way only, colons in the path or not |
| TargetSpec.ParseTargetSpec | tools/idebridge/idebridge.c:185-214 | succeeds exactly on specs that split into parts that fit, with the floor of 1 on both numbers |
| TargetSpec.PositionExactly | tools/idebridge/idebridge.c:205-214 | a number is read as at least 1 |
| TargetSpec.PositionsFromOne | tools/idebridge/idebridge.c:185-214 | a printed target with any 32-bit line and column parses back with both raised to at least 1 |
| TargetSpec.PrintedSplits | tools/mcp/runtime.py:154-159 | a printed target splits into its own parts, and they fit |
| TargetSpec.PrintedParsesBack | tools/mcp/runtime.py:154-159 | the round trip, for every non-empty path of at most 1023 bytes and any positions from 1 on that fit 32 bits |
| TokenSubstitution.ReplaceToken | src/core/BuildSystem/run_build.c:53-80 | the buffer receives the longest prefix of the unbounded substitution that leaves room for the terminator |
| TokenSubstitution.FirstOccurrence | src/core/BuildSystem/run_build.c:53-80 | text before the first occurrence is kept, the occurrence becomes the replacement, and the search goes on after it |
| TokenSubstitution.NoOccurrence | src/core/BuildSystem/run_build.c:53-80 | without an occurrence nothing changes |
| TokenSubstitution.SubstitutingItself | src/core/BuildSystem/run_build.c:53-80 | substituting a token by itself changes nothing |

## Left out

- The compiler frontend: any function is allowed in its place, subject to the predicates named above.
- Symbol, token, units and provenance stores: the full scan does not clear the first two, so they do not take part in the agreement. Whether the symbol store is empty is an input of a run.
- Cancelled runs and live-buffer runs: a cancelled run still saves its snapshot and a live-buffer run stores unsaved contents, so the agreement does not hold of them.
- BuildFlags.GatherBuildFlags: include paths and macro definitions are one value given to each run; the parsing of manifests, makefiles and command lines behind it is not modelled.
- RefinementLimits.NoneGoesWrongIff: about the run after one full scan; runs over longer histories are covered in one direction by Refinement.EveryRunAgrees.
- The disk changing while a run reads it: one workspace value stands for the disk during a run. Unreadable files and failing `stat` calls are covered only by the 32 MB limit and the gperf test.
- AnalysisJob.Job.ScanWorkspace: the model collects the files and then analyses them; the original does both in one traversal.
- Refinement.EveryRunAgrees: agreement is about the content per path and the usage counts per bucket; row order and stamps of the stores are described separately in RecencyStore and LibraryIndex.
- Scheduler.Scheduler.RunTick: the worker's finish is one step, and a start always succeeds. A live dispatch without contents counts as a run although the worker returns at once.
- Reason masks are sets of reasons; their printed names and the scheduler's snapshot getters are not modelled.
- JSON and file formats of the stores, the snapshot and the cache: records are values.
- The build-graph store's combined stamp (an exclusive-or of count and row stamps) and its JSON parser.
- Field-by-field mapping of frontend diagnostics to stored ones.
- DiagnosticsCache.NextIsSafe: the unlocked increment of a clear is one step, so two clears at once that lose one increment are not modelled; neither is the array of diagnostics that clears and applies both write.
- LineSplitter.Splitter.FeedChunk: one feeding thread is assumed. Client threads (`src/core/Ipc/ide_ipc_build_helpers.c:311`, `:369`), the terminal (`src/ide/Panes/Terminal/terminal_session_runtime.c:78`) and a clear share the buffer without a lock.
- The line parser behind the splitter, `strip_ansi` and the limit on the number of build diagnostics.
- CompletedResults.ResultsQueue.Push: the queue's lock is not modelled; a push and a pop are single steps.
- What an applied result does to panels and caches beyond the counters, and the order of SDL event handling.
- ConfigFile.ConfigRoundTrip: for values without newlines that fit their fields, with `PATH_MAX` fixed at 4096; file access and permissions are not modelled.
- The container format and the pane registry behind the authoring profile: compatibility of a requirement table is an arbitrary predicate.
- Allocation failure, truncation of over-long paths (scheduler hints excepted), and wrap-around of 64-bit counters.
- User interface, rendering, git, sockets and command dispatch: plumbing around the parts above.
