/** One workspace run of the analysis worker (analysis_job.c, project_scan.c,
    library_index_build.c): the incremental scan with its fallback to a full scan. */
module AnalysisJob {
  import opened CStrings
  import opened PathTable
  import opened Filters
  import opened Frontend
  import opened Snapshot
  import opened WorkspaceTree
  import opened BuildFlags
  import PathList
  import RecencyStore
  import IncludeGraph
  import LibraryIndex

  type Diagnostics = seq<Diagnostic>

  datatype Stores = Stores(diags: RecencyStore.State<Diagnostics>, graph: IncludeGraph.State,
                           index: LibraryIndex.State)

  /** The frontend, `analyze(flags, path, contents)` with `contents` the disk, and the flags
      one run is given. */
  datatype Tool = Tool(analyze: (Flags, string, map<string, string>) -> Analysis, given: Flags)

  // ---------------------------------------------------------------------------------------
  // What the frontend is asked.

  function Disk(files: seq<Visited>): (disk: map<string, string>)
    ensures forall p :: p in disk <==> Lookup(files, p).Some?
    ensures forall p :: p in disk ==> disk[p] == Lookup(files, p).value.contents
  {
    if files == [] then map[] else Disk(files[1..])[files[0].path := files[0].value.contents]
  }

  /** The per-file scan turns the overlay on for a source that asks for it ... */
  function ScanFlags(tool: Tool, ws: Workspace, contents: string): Flags {
    var base := BaseFlags(tool.given, ws);
    base.(overlay := base.overlay || RequestsUnits(contents))
  }

  function ScanAnalysis(tool: Tool, ws: Workspace, file: Visited): Analysis {
    tool.analyze(ScanFlags(tool, ws, file.value.contents), file.path, Disk(Files(ws)))
  }

  /** ... the library-index build uses the run's flags as they are. */
  function IndexAnalysis(tool: Tool, ws: Workspace, file: Visited): Analysis {
    tool.analyze(BaseFlags(tool.given, ws), file.path, Disk(Files(ws)))
  }

  /** `include_label_or_fallback`: the name as written, else the base name of the resolved path. */
  function Label(inc: Include): Option<string> {
    if inc.name != "" then Some(inc.name)
    else if inc.resolved == "" then None
    else
      var base := inc.resolved[AfterLast(inc.resolved, '/', '\\')..];
      if base == "" then None else Some(if |base| < 512 then base else base[..511])
  }

  /** An include goes by the name as written; without one by what follows the last separator of its
      resolved path, cut to 511 bytes; and without that it is not recorded. */
  lemma LabelExactly(inc: Include, dir: string, base: string)
    requires inc.resolved == dir + base && '/' !in base && '\\' !in base
    requires dir == "" || dir[|dir| - 1] == '/' || dir[|dir| - 1] == '\\'
    ensures Label(inc) == if inc.name != "" then Some(inc.name)
                          else if base == "" then None
                          else Some(if |base| <= 511 then base else base[..511])
  {
    var n := AfterLast(inc.resolved, '/', '\\');
    assert inc.resolved[|dir|..] == base;
    assert forall i :: |dir| <= i < |inc.resolved| ==> inc.resolved[i] == base[i - |dir|];
    if dir != "" {
      assert inc.resolved[|dir| - 1] == dir[|dir| - 1];
    }
    assert n == |dir|;
  }

  /** The overlay reaches a file's own scan by the run's flags or by its own request, and the index
      build by the run's flags alone. */
  lemma QuestionsExactly(tool: Tool, ws: Workspace, file: Visited)
    ensures var given, own := BaseFlags(tool.given, ws), RequestsUnits(file.value.contents);
            && ScanAnalysis(tool, ws, file) ==
               tool.analyze(Flags(given.options, given.overlay || own), file.path, Disk(Files(ws)))
            && IndexAnalysis(tool, ws, file) == tool.analyze(given, file.path, Disk(Files(ws)))
  {
  }

  // ---------------------------------------------------------------------------------------
  // Store updates.

  function AddIncludes(index: LibraryIndex.State, source: string, includes: seq<Include>): (r: LibraryIndex.State)
    requires |index.buckets| == LibraryIndex.BUCKET_COUNT
    ensures |r.buckets| == LibraryIndex.BUCKET_COUNT
    decreases includes
  {
    if includes == [] then index
    else match Label(includes[0])
      case None => AddIncludes(index, source, includes[1..])
      case Some(name) => AddIncludes(LibraryIndex.IncludeAdded(index, source, name, includes[0]), source, includes[1..])
  }

  lemma RemovalUndoesInclude(index: LibraryIndex.State, source: string, name: string, inc: Include, b: nat)
    requires |index.buckets| == LibraryIndex.BUCKET_COUNT && source != "" && b < LibraryIndex.BUCKET_COUNT
    ensures LibraryIndex.Skeleton(LibraryIndex.SourceRemoved(
              LibraryIndex.IncludeAdded(index, source, name, inc), source).buckets[b]) ==
            LibraryIndex.Skeleton(LibraryIndex.SourceRemoved(index, source).buckets[b])
  {
    var usage := LibraryIndex.Usage(LibraryIndex.RelativePath(index.root, source), inc.line, inc.column);
    LibraryIndex.RemovalUndoesOne(index.buckets[b], name, inc, usage);
  }

  lemma {:induction false} RemovalUndoesIncludes(index: LibraryIndex.State, source: string,
                                                 includes: seq<Include>, b: nat)
    requires |index.buckets| == LibraryIndex.BUCKET_COUNT && source != "" && b < LibraryIndex.BUCKET_COUNT
    ensures LibraryIndex.Skeleton(
              LibraryIndex.SourceRemoved(AddIncludes(index, source, includes), source).buckets[b]) ==
            LibraryIndex.Skeleton(LibraryIndex.SourceRemoved(index, source).buckets[b])
    decreases includes
  {
    if includes != [] {
      match Label(includes[0]) {
        case None => RemovalUndoesIncludes(index, source, includes[1..], b);
        case Some(name) =>
          RemovalUndoesInclude(index, source, name, includes[0], b);
          RemovalUndoesIncludes(LibraryIndex.IncludeAdded(index, source, name, includes[0]), source, includes[1..], b);
      }
    }
  }

  /** Recording any includes of a source the index does not know and removing that source again
      leaves every bucket with the names and usages it had. */
  lemma AddThenRemoveRestores(index: LibraryIndex.State, source: string, includes: seq<Include>)
    requires LibraryIndex.Valid(index) && source != ""
    requires forall b, e :: 0 <= b < LibraryIndex.BUCKET_COUNT && e in LibraryIndex.Entries(index.buckets[b]) ==>
               e.usage.source != LibraryIndex.RelativePath(index.root, source)
    ensures forall b :: 0 <= b < LibraryIndex.BUCKET_COUNT ==>
              LibraryIndex.Skeleton(
                LibraryIndex.SourceRemoved(AddIncludes(index, source, includes), source).buckets[b]) ==
              LibraryIndex.Skeleton(index.buckets[b])
  {
    forall b | 0 <= b < LibraryIndex.BUCKET_COUNT
      ensures LibraryIndex.Skeleton(
                LibraryIndex.SourceRemoved(AddIncludes(index, source, includes), source).buckets[b]) ==
              LibraryIndex.Skeleton(index.buckets[b])
    {
      RemovalUndoesIncludes(index, source, includes, b);
      LibraryIndex.NothingToRemove(index.buckets[b], LibraryIndex.RelativePath(index.root, source));
    }
  }

  ghost predicate Shaped(st: Stores) {
    |st.index.buckets| == LibraryIndex.BUCKET_COUNT
  }

  /** `analyze_buffer_with_active_flags`: replace everything known about one file. */
  function Stored(st: Stores, root: string, path: string, a: Analysis, updateIndex: bool): (r: Stores)
    requires Shaped(st)
    ensures Shaped(r)
  {
    Stores(RecencyStore.Upserted(st.diags, path, a.diagnostics),
           IncludeGraph.Replaced(st.graph, path, a.includes, root),
           if updateIndex then AddIncludes(LibraryIndex.SourceRemoved(st.index, path), path, a.includes) else st.index)
  }

  function Analyzed(tool: Tool, ws: Workspace, st: Stores, file: Visited, updateIndex: bool): (r: Stores)
    requires Shaped(st)
    ensures Shaped(r)
  {
    if Analyzable(file) then Stored(st, ws.root, file.path, ScanAnalysis(tool, ws, file), updateIndex) else st
  }

  function Dropped(st: Stores, path: string): (r: Stores)
    requires Shaped(st)
    ensures Shaped(r)
  {
    Stores(RecencyStore.Removed(st.diags, path), IncludeGraph.Removed(st.graph, path),
           LibraryIndex.SourceRemoved(st.index, path))
  }

  function DroppedAll(st: Stores, paths: seq<string>): (r: Stores)
    requires Shaped(st)
    ensures Shaped(r)
    decreases paths
  {
    if paths == [] then st
    else DroppedAll(if paths[0] == "" then st else Dropped(st, paths[0]), paths[1..])
  }

  /** `analysis_scan_files_with_flags`: one target. */
  function Rescanned(tool: Tool, ws: Workspace, st: Stores, path: string): (r: Stores)
    requires Shaped(st)
    ensures Shaped(r)
  {
    if path == "" then st
    else match Lookup(Files(ws), path)
      case None => Dropped(st, path)
      case Some(info) => Analyzed(tool, ws, st, Row(path, info), true)
  }

  function RescannedAll(tool: Tool, ws: Workspace, st: Stores, targets: seq<string>): (r: Stores)
    requires Shaped(st)
    ensures Shaped(r)
    decreases targets
  {
    if targets == [] then st else RescannedAll(tool, ws, Rescanned(tool, ws, st, targets[0]), targets[1..])
  }

  // ---------------------------------------------------------------------------------------
  // The full scan. The visiting orders are whatever the two directory walks produce.

  function ScannedAll(tool: Tool, ws: Workspace, st: Stores, order: seq<Visited>): (r: Stores)
    requires Shaped(st)
    ensures Shaped(r)
    decreases order
  {
    if order == [] then st else ScannedAll(tool, ws, Analyzed(tool, ws, st, order[0], false), order[1..])
  }

  function IndexedAll(tool: Tool, ws: Workspace, index: LibraryIndex.State, order: seq<Visited>)
    : (r: LibraryIndex.State)
    requires |index.buckets| == LibraryIndex.BUCKET_COUNT
    ensures |r.buckets| == LibraryIndex.BUCKET_COUNT
    decreases order
  {
    if order == [] then index
    else IndexedAll(tool, ws,
                    if Analyzable(order[0])
                    then AddIncludes(index, order[0].path, IndexAnalysis(tool, ws, order[0]).includes)
                    else index,
                    order[1..])
  }

  lemma NextIndexed(tool: Tool, ws: Workspace, index: LibraryIndex.State, order: seq<Visited>, i: nat)
    requires |index.buckets| == LibraryIndex.BUCKET_COUNT && i < |order|
    ensures IndexedAll(tool, ws, index, order[i..]) ==
            IndexedAll(tool, ws,
                       if Analyzable(order[i])
                       then AddIncludes(index, order[i].path, IndexAnalysis(tool, ws, order[i]).includes)
                       else index,
                       order[i + 1..])
  {
    assert order[i..][1..] == order[i + 1..];
  }

  function FullScan(tool: Tool, ws: Workspace, st: Stores, scanOrder: seq<Visited>, indexOrder: seq<Visited>)
    : (r: Stores)
    requires Shaped(st)
    ensures Shaped(r)
  {
    var cleared := Stores(RecencyStore.State([], 0), IncludeGraph.Cleared(st.graph), st.index);
    ScannedAll(tool, ws, cleared, scanOrder)
    .(index := LibraryIndex.Finalized(IndexedAll(tool, ws, LibraryIndex.Begun(ws.root), indexOrder)))
  }

  // ---------------------------------------------------------------------------------------
  // The incremental scan.

  datatype Outcome = Done(stores: Stores) | Fallback(stores: Stores)

  function DependentsOfAll(rows: seq<Row<seq<string>>>, changed: seq<string>): seq<string> {
    if changed == [] then []
    else IncludeGraph.Dependents(rows, changed[0]) + DependentsOfAll(rows, changed[1..])
  }

  /** The dependents of the first `i` files are `done`. */
  ghost predicate Collected(rows: seq<Row<seq<string>>>, changed: seq<string>, i: nat, done: seq<string>)
    requires i <= |changed|
  {
    "" !in done && DependentsOfAll(rows, changed) == done + DependentsOfAll(rows, changed[i..])
  }

  lemma NextCollected(rows: seq<Row<seq<string>>>, changed: seq<string>, i: nat, done: seq<string>, deps: seq<string>)
    requires i < |changed| && Collected(rows, changed, i, done) && deps == IncludeGraph.Dependents(rows, changed[i])
    ensures if "" in deps then "" in DependentsOfAll(rows, changed) else Collected(rows, changed, i + 1, done + deps)
  {
    NextDependents(rows, changed, i);
    Regroup(done, deps, DependentsOfAll(rows, changed[i + 1..]));
  }

  lemma Regroup<T>(a: seq<T>, b: seq<T>, c: seq<T>)
    ensures a + (b + c) == (a + b) + c
  {
  }

  lemma NextDependents(rows: seq<Row<seq<string>>>, changed: seq<string>, i: nat)
    requires i < |changed|
    ensures DependentsOfAll(rows, changed[i..]) ==
            IncludeGraph.Dependents(rows, changed[i]) + DependentsOfAll(rows, changed[i + 1..])
  {
    assert changed[i..][1..] == changed[i + 1..];
  }

  lemma AllCollected(rows: seq<Row<seq<string>>>, changed: seq<string>, done: seq<string>)
    requires Collected(rows, changed, |changed|, done)
    ensures done == DependentsOfAll(rows, changed)
  {
    assert done + [] == done;
  }

  lemma NothingCollected(rows: seq<Row<seq<string>>>, changed: seq<string>)
    ensures Collected(rows, changed, 0, [])
  {
    assert changed[0..] == changed;
  }

  lemma GrownTwice(items: seq<string>, done: seq<string>, once: seq<string>, deps: seq<string>, twice: seq<string>)
    requires once == PathList.AddedAll(items, done) && twice == PathList.AddedAll(once, deps)
    ensures twice == PathList.AddedAll(items, done + deps)
  {
    PathList.AddedAllAppend(items, done, deps);
  }

  /** The dirty files plus every accepted saved-file hint. */
  function Seeds(cached: seq<Fingerprint>, current: seq<Fingerprint>, dirty: seq<string>, hints: seq<string>)
    : seq<string>
  {
    PathList.AddedAll(PathList.AddedAll([], dirty), Filter(hints, h => ShouldAnalyzeHint(cached, current, h)))
  }

  /** The files to re-analyse: the seeds, then their direct includers, then the direct
      includers of the removed files. */
  function Targets(rows: seq<Row<seq<string>>>, seeds: seq<string>, removed: seq<string>): seq<string> {
    PathList.AddedAll(PathList.AddedAll(seeds, DependentsOfAll(rows, seeds)), DependentsOfAll(rows, removed))
  }

  /** `analysis_incremental_policy_requires_full_for_missing_include_graph`, without hints. */
  predicate NeedsIncludeGraph(rows: seq<Row<seq<string>>>, seeds: seq<string>, removed: seq<string>) {
    rows == [] && (HasHeader(seeds) || HasHeader(removed))
  }

  predicate BaselineInvalid(st: Stores, current: seq<Fingerprint>, symbolsEmpty: bool) {
    current != []
    && (st.diags.rows == [] || symbolsEmpty
        || !exists b :: 0 <= b < |st.index.buckets| && st.index.buckets[b] != [])
  }

  /** From the diff to the refreshed stores. */
  function TargetsScan(tool: Tool, ws: Workspace, st: Stores, seeds: seq<string>, removed: seq<string>): (r: Outcome)
    requires Shaped(st)
    ensures Shaped(r.stores)
  {
    var rows := st.graph.rows;
    var kept := DroppedAll(st, removed);
    if NeedsIncludeGraph(rows, seeds, removed) then Fallback(kept)
    else if "" in DependentsOfAll(rows, seeds) || "" in DependentsOfAll(rows, removed) then Fallback(kept)
    else
      var scanned := RescannedAll(tool, ws, kept, Targets(rows, seeds, removed));
      Done(scanned.(index := LibraryIndex.Finalized(scanned.index)))
  }

  function IncrementalScan(tool: Tool, ws: Workspace, st: Stores, cached: seq<Fingerprint>, current: seq<Fingerprint>,
                           hints: seq<string>, symbolsEmpty: bool): (r: Outcome)
    requires Shaped(st)
    ensures Shaped(r.stores)
  {
    var (dirty, removed) := Merge(cached, current);
    if "" in dirty || "" in removed then Fallback(st)
    else if dirty == [] && removed == [] && BaselineInvalid(st, current, symbolsEmpty) then Fallback(st)
    else TargetsScan(tool, ws, st, Seeds(cached, current, dirty, hints), removed)
  }

  /** The body of `analysis_thread_fn` for an uncancelled workspace run. */
  function WorkspaceRun(tool: Tool, ws: Workspace, st: Stores, saved: Option<seq<Fingerprint>>,
                        current: seq<Fingerprint>, forceFull: bool, hints: seq<string>, symbolsEmpty: bool,
                        scanOrder: seq<Visited>, indexOrder: seq<Visited>): (r: Stores)
    requires Shaped(st)
    ensures Shaped(r)
  {
    if forceFull || saved.None? then FullScan(tool, ws, st, scanOrder, indexOrder)
    else match IncrementalScan(tool, ws, st, saved.value, current, hints, symbolsEmpty)
      case Done(st') => st'
      case Fallback(st') => FullScan(tool, ws, st', scanOrder, indexOrder)
  }

  function Fingerprints(files: seq<Visited>): (r: seq<Fingerprint>)
    ensures |r| == |files|
    ensures forall i :: 0 <= i < |files| ==> r[i] == Row(files[i].path, files[i].value.mark)
  {
    seq(|files|, i requires 0 <= i < |files| => Row(files[i].path, files[i].value.mark))
  }

  /** A snapshot of a workspace: sorted, and answering every path as the disk does. */
  ghost predicate IsSnapshot(snapshot: seq<Fingerprint>, ws: Workspace) {
    && StrictlySorted(snapshot)
    && (forall p :: Lookup(snapshot, p).Some? <==> Lookup(Sources(ws), p).Some?)
    && (forall p :: Lookup(snapshot, p).Some? ==> Lookup(snapshot, p).value == Lookup(Sources(ws), p).value.mark)
  }

  lemma {:induction false} LookupFingerprint(files: seq<Visited>, p: string)
    ensures Lookup(Fingerprints(files), p) ==
            if Lookup(files, p).Some? then Some(Lookup(files, p).value.mark) else None
  {
    if files != [] {
      LookupFingerprint(files[1..], p);
      assert Fingerprints(files)[1..] == Fingerprints(files[1..]);
    }
  }

  lemma {:induction false} FilterKeepsDistinct(files: seq<Visited>, keep: Visited -> bool)
    requires DistinctPaths(files)
    ensures DistinctPaths(Filter(files, keep))
  {
    if files != [] {
      var rest := Filter(files[1..], keep);
      FilterKeepsDistinct(files[1..], keep);
      assert forall i :: 0 <= i < |rest| ==> rest[i] in files[1..];
    }
  }

  /** Sorting the scan's fingerprints gives a snapshot, whatever order the scan used. */
  lemma ScanGivesSnapshot(ws: Workspace, scanned: seq<Visited>)
    requires WellFormed(ws.entries) && multiset(scanned) == multiset(Sources(ws))
    ensures IsSnapshot(SortByPath(Fingerprints(scanned)), ws)
  {
    WalkIsDistinct(ws.root, ws.entries, 0, true);
    FilterKeepsDistinct(Files(ws), IsSource);
    PermutedDistinct(Sources(ws), scanned);
    var marks := Fingerprints(scanned);
    SortedSnapshot(marks);
    forall p
      ensures Lookup(SortByPath(marks), p) ==
              if Lookup(Sources(ws), p).Some? then Some(Lookup(Sources(ws), p).value.mark) else None
    {
      LookupFingerprint(scanned, p);
      PermutedLookup(Sources(ws), scanned, p);
    }
  }

  /** The snapshot has a row for a path exactly when a walked file of that path has a name that
      ends in `.c`, `.C`, `.h` or `.H`, and the row holds that file's fingerprint. */
  ghost predicate WatchesSources(snapshot: seq<Fingerprint>, ws: Workspace) {
    && (forall p :: Lookup(snapshot, p).Some? <==>
                    |p| >= 2 && p[|p| - 2] == '.' && p[|p| - 1] in {'c', 'C', 'h', 'H'}
                    && exists info :: Row(p, info) in Files(ws))
    && (forall p, info :: Lookup(snapshot, p).Some? && Row(p, info) in Files(ws) ==>
                            Lookup(snapshot, p).value == info.mark)
  }

  lemma LookupOfMember<V>(rows: seq<Row<V>>, row: Row<V>)
    requires DistinctPaths(rows) && row in rows
    ensures Lookup(rows, row.path) == Some(row.value)
  {
    var i :| 0 <= i < |rows| && rows[i] == row;
    LookupIsUnique(rows, i);
  }

  lemma SnapshotWatches(snapshot: seq<Fingerprint>, ws: Workspace)
    requires WellFormed(ws.entries) && IsSnapshot(snapshot, ws)
    ensures WatchesSources(snapshot, ws)
  {
    WalkIsDistinct(ws.root, ws.entries, 0, true);
    FilterKeepsDistinct(Files(ws), IsSource);
    forall p, info | Row(p, info) in Files(ws)
      ensures Row(p, info) in Sources(ws) <==> NamesSource(p)
      ensures NamesSource(p) ==> Lookup(Sources(ws), p) == Some(info)
    {
      SourcesExactly(ws, Row(p, info));
      if NamesSource(p) {
        LookupOfMember(Sources(ws), Row(p, info));
      }
    }
    forall p | Lookup(Sources(ws), p).Some?
      ensures Row(p, Lookup(Sources(ws), p).value) in Files(ws) && NamesSource(p)
    {
      SourcesExactly(ws, Row(p, Lookup(Sources(ws), p).value));
    }
  }

  // ---------------------------------------------------------------------------------------

  class Job {
    const store: RecencyStore.Store<Diagnostics>
    const graph: IncludeGraph.Graph
    const index: LibraryIndex.Index
    var saved: Option<seq<Fingerprint>>  // the snapshot file

    function Value(): Stores
      reads this, store, graph, index
    {
      Stores(store.Value(), graph.Value(), index.Value())
    }

    constructor ()
      ensures fresh(store) && fresh(graph) && fresh(index)
      ensures Value() == Stores(RecencyStore.State([], 0), IncludeGraph.State([], 0), LibraryIndex.Begun(""))
      ensures saved == None
    {
      store := new RecencyStore.Store<Diagnostics>();
      graph := new IncludeGraph.Graph();
      index := new LibraryIndex.Index();
      saved := None;
    }

    method AddAllIncludes(source: string, includes: seq<Include>)
      requires Shaped(Value())
      modifies index
      ensures index.Value() == AddIncludes(old(index.Value()), source, includes)
    {
      var i := 0;
      while i < |includes|
        invariant i <= |includes| && Shaped(Value())
        invariant AddIncludes(old(index.Value()), source, includes) == AddIncludes(index.Value(), source, includes[i..])
      {
        assert includes[i..][1..] == includes[i + 1..];
        match Label(includes[i]) {
          case None =>
          case Some(name) => index.AddInclude(source, name, includes[i]);
        }
        i := i + 1;
      }
    }

    method AnalyzeFile(tool: Tool, ws: Workspace, file: Visited, updateIndex: bool)
      requires Shaped(Value())
      modifies store, graph, index
      ensures Value() == Analyzed(tool, ws, old(Value()), file, updateIndex)
    {
      if !Analyzable(file) { return; }
      var result := ScanAnalysis(tool, ws, file);
      store.Upsert(file.path, result.diagnostics);
      graph.ReplaceFromResult(file.path, result.includes, ws.root);
      if updateIndex {
        index.RemoveSource(file.path);
        AddAllIncludes(file.path, result.includes);
      }
    }

    method DropFile(path: string)
      requires Shaped(Value())
      modifies store, graph, index
      ensures Value() == Dropped(old(Value()), path)
    {
      store.Remove(path);
      graph.RemoveSource(path);
      index.RemoveSource(path);
    }

    method RemoveDeletedFileEntries(removed: seq<string>)
      requires Shaped(Value())
      modifies store, graph, index
      ensures Value() == DroppedAll(old(Value()), removed)
    {
      var i := 0;
      while i < |removed|
        invariant i <= |removed| && Shaped(Value())
        invariant DroppedAll(old(Value()), removed) == DroppedAll(Value(), removed[i..])
      {
        assert removed[i..][1..] == removed[i + 1..];
        if removed[i] != "" {
          DropFile(removed[i]);
        }
        i := i + 1;
      }
    }

    method ScanFiles(tool: Tool, ws: Workspace, targets: seq<string>)
      requires Shaped(Value())
      modifies store, graph, index
      ensures Value() == RescannedAll(tool, ws, old(Value()), targets)
    {
      var i := 0;
      while i < |targets|
        invariant i <= |targets| && Shaped(Value())
        invariant RescannedAll(tool, ws, old(Value()), targets) == RescannedAll(tool, ws, Value(), targets[i..])
      {
        assert targets[i..][1..] == targets[i + 1..];
        var path := targets[i];
        if path != "" {
          match Lookup(Files(ws), path) {
            case None => DropFile(path);
            case Some(info) => AnalyzeFile(tool, ws, Row(path, info), true);
          }
        }
        i := i + 1;
      }
    }

    /** The direct includers of one file go on both lists. */
    method AddDependentsOf(path: string, targets: PathList.List, dependents: PathList.List)
      returns (ok: bool, ghost deps: seq<string>)
      requires targets != dependents
      modifies targets, dependents
      ensures deps == IncludeGraph.Dependents(graph.rows, path)
      ensures ok <==> "" !in deps
      ensures ok ==> targets.items == PathList.AddedAll(old(targets.items), deps)
      ensures ok ==> dependents.items == PathList.AddedAll(old(dependents.items), deps)
    {
      var found := graph.CollectDependents(path);
      deps := found;
      ok := dependents.AddAll(found);
      if ok {
        ok := targets.AddAll(found);
      }
    }

    /** The dependents of every listed file, in order; fails on an empty path. */
    method CollectDependents(changed: seq<string>, targets: PathList.List, dependents: PathList.List) returns (ok: bool)
      requires targets != dependents
      modifies targets, dependents
      ensures ok <==> "" !in DependentsOfAll(graph.rows, changed)
      ensures ok ==> targets.items == PathList.AddedAll(old(targets.items), DependentsOfAll(graph.rows, changed))
      ensures ok ==> dependents.items == PathList.AddedAll(old(dependents.items), DependentsOfAll(graph.rows, changed))
    {
      ghost var rows, done := graph.rows, [];
      var i := 0;
      NothingCollected(rows, changed);
      while i < |changed|
        invariant i <= |changed| && graph.rows == rows && Collected(rows, changed, i, done)
        invariant targets.items == PathList.AddedAll(old(targets.items), done)
        invariant dependents.items == PathList.AddedAll(old(dependents.items), done)
      {
        ghost var t, d := targets.items, dependents.items;
        var added, deps := AddDependentsOf(changed[i], targets, dependents);
        NextCollected(rows, changed, i, done, deps);
        if !added { return false; }
        GrownTwice(old(targets.items), done, t, deps, targets.items);
        GrownTwice(old(dependents.items), done, d, deps, dependents.items);
        done := done + deps;
        i := i + 1;
      }
      AllCollected(rows, changed, done);
      ok := true;
    }

    method ScanSnapshot(ws: Workspace) returns (current: seq<Fingerprint>)
      requires WellFormed(ws.entries)
      ensures IsSnapshot(current, ws)
    {
      var scanned := ScanDir(ws, IsSource);
      ScanGivesSnapshot(ws, scanned);
      current := SortByPath(Fingerprints(scanned));
    }

    /** `path_list_add_file_hints`. */
    method AddFileHints(targets: PathList.List, cached: seq<Fingerprint>, current: seq<Fingerprint>, hints: seq<string>)
      modifies targets
      ensures targets.items ==
              PathList.AddedAll(old(targets.items), Filter(hints, h => ShouldAnalyzeHint(cached, current, h)))
    {
      var i := 0;
      var accept := h => ShouldAnalyzeHint(cached, current, h);
      while i < |hints|
        invariant i <= |hints|
        invariant PathList.AddedAll(old(targets.items), Filter(hints, accept)) ==
                  PathList.AddedAll(targets.items, Filter(hints[i..], accept))
      {
        assert hints[i..][1..] == hints[i + 1..];
        if ShouldAnalyzeHint(cached, current, hints[i]) {
          var _ := targets.AddUnique(hints[i]);
          assert Filter(hints[i..], accept)[1..] == Filter(hints[i + 1..], accept);
        }
        i := i + 1;
      }
    }

    /** The target list of one incremental run, before anything is dropped or re-analysed. */
    method PrepareTargets(cached: seq<Fingerprint>, current: seq<Fingerprint>, dirty: seq<string>,
                          removed: seq<string>, hints: seq<string>)
      returns (pathsOk: bool, targets: seq<string>)
      requires "" !in dirty
      ensures var rows, seeds := graph.rows, Seeds(cached, current, dirty, hints);
              && (pathsOk <==> !NeedsIncludeGraph(rows, seeds, removed)
                               && "" !in DependentsOfAll(rows, seeds) && "" !in DependentsOfAll(rows, removed))
              && (pathsOk ==> targets == Targets(rows, seeds, removed))
    {
      var list := new PathList.List();
      var dependents := new PathList.List();
      var seeded := list.AddAll(dirty);
      AddFileHints(list, cached, current, hints);
      pathsOk, targets := !NeedsIncludeGraph(graph.rows, list.items, removed), [];
      if pathsOk {
        pathsOk := CollectDependents(list.items, list, dependents);
      }
      if pathsOk {
        pathsOk := CollectDependents(removed, list, dependents);
      }
      targets := list.items;
    }

    /** The targets are collected before the deleted files are dropped, and scanned after. */
    method ScanTargets(tool: Tool, ws: Workspace, cached: seq<Fingerprint>, current: seq<Fingerprint>,
                       dirty: seq<string>, removed: seq<string>, hints: seq<string>)
      returns (ok: bool)
      requires Shaped(Value()) && "" !in dirty
      modifies store, graph, index
      ensures TargetsScan(tool, ws, old(Value()), Seeds(cached, current, dirty, hints), removed) ==
              if ok then Done(Value()) else Fallback(Value())
    {
      var pathsOk, targets := PrepareTargets(cached, current, dirty, removed, hints);
      RemoveDeletedFileEntries(removed);
      if !pathsOk { return false; }
      ScanFiles(tool, ws, targets);
      index.Finalize();
      ok := true;
    }

    method RunIncrementalScan(tool: Tool, ws: Workspace, hints: seq<string>, symbolsEmpty: bool)
      returns (ok: bool, ghost current: seq<Fingerprint>)
      requires WellFormed(ws.entries) && Shaped(Value())
      modifies this`saved, store, graph, index
      ensures IsSnapshot(current, ws)
      ensures old(saved).None? ==> !ok && Value() == old(Value()) && saved == old(saved)
      ensures old(saved).Some? ==>
                IncrementalScan(tool, ws, old(Value()), old(saved).value, current, hints, symbolsEmpty)
                == if ok then Done(Value()) else Fallback(Value())
      ensures saved == if ok then Some(current) else old(saved)
    {
      var now := ScanSnapshot(ws);
      current := now;
      if saved.None? { return false, current; }
      var cached := saved.value;
      var diffOk, dirty, removed := ComputeDirtySets(cached, now);
      if !diffOk { return false, current; }
      if dirty == [] && removed == [] {
        var indexed := index.HasEntries();
        if now != [] && (store.files == [] || symbolsEmpty || !indexed) { return false, current; }
      }
      ok := ScanTargets(tool, ws, cached, now, dirty, removed, hints);
      if ok {
        saved := Some(now);
      }
    }

    /** `analysis_scan_workspace_with_flags`: the stores are cleared and refilled. */
    method ScanWorkspace(tool: Tool, ws: Workspace) returns (ghost scanOrder: seq<Visited>)
      requires Shaped(Value())
      modifies store, graph, index
      ensures Shaped(Value())
      ensures multiset(scanOrder) == multiset(Filter(Files(ws), ShouldAnalyze))
      ensures Value() == ScannedAll(tool, ws,
                                    Stores(RecencyStore.State([], 0), IncludeGraph.Cleared(old(graph.Value())),
                                           old(index.Value())),
                                    scanOrder)
    {
      store.Clear();
      graph.Clear();
      var order := ScanDir(ws, ShouldAnalyze);
      scanOrder := order;
      ghost var cleared := Value();
      var i := 0;
      while i < |order|
        invariant i <= |order| && Shaped(Value())
        invariant ScannedAll(tool, ws, cleared, order) == ScannedAll(tool, ws, Value(), order[i..])
      {
        assert order[i..][1..] == order[i + 1..];
        AnalyzeFile(tool, ws, order[i], false);
        i := i + 1;
      }
    }

    /** `library_index_build_workspace_with_flags`: the index is rebuilt by recursion. */
    method BuildIndex(tool: Tool, ws: Workspace) returns (ghost indexOrder: seq<Visited>)
      modifies index
      ensures indexOrder == LibraryFiles(ws.root, ws.entries, 0)
      ensures index.Value() == LibraryIndex.Finalized(IndexedAll(tool, ws, LibraryIndex.Begun(ws.root), indexOrder))
    {
      index.Begin(ws.root);
      var files := LibraryScanDir(ws.root, ws.entries, 0);
      indexOrder := files;
      var i := 0;
      while i < |files|
        invariant i <= |files| && Shaped(Value())
        invariant IndexedAll(tool, ws, LibraryIndex.Begun(ws.root), files) ==
                  IndexedAll(tool, ws, index.Value(), files[i..])
      {
        NextIndexed(tool, ws, index.Value(), files, i);
        if Analyzable(files[i]) {
          var result := IndexAnalysis(tool, ws, files[i]);
          AddAllIncludes(files[i].path, result.includes);
        }
        i := i + 1;
      }
      index.Finalize();
    }

    method RunFullScan(tool: Tool, ws: Workspace)
      returns (ghost scanOrder: seq<Visited>, ghost indexOrder: seq<Visited>)
      requires Shaped(Value())
      modifies store, graph, index
      ensures multiset(scanOrder) == multiset(Filter(Files(ws), ShouldAnalyze))
      ensures indexOrder == LibraryFiles(ws.root, ws.entries, 0)
      ensures Value() == FullScan(tool, ws, old(Value()), scanOrder, indexOrder)
    {
      scanOrder := ScanWorkspace(tool, ws);
      indexOrder := BuildIndex(tool, ws);
    }

    /** `analysis_thread_fn`: incremental unless forced or impossible, else full. */
    method RunWorkspace(tool: Tool, ws: Workspace, forceFull: bool, hints: seq<string>, symbolsEmpty: bool)
      returns (ghost current: seq<Fingerprint>, ghost scanOrder: seq<Visited>, ghost indexOrder: seq<Visited>)
      requires WellFormed(ws.entries) && Shaped(Value())
      modifies this`saved, store, graph, index
      ensures IsSnapshot(current, ws) && saved.Some? && IsSnapshot(saved.value, ws)
      ensures multiset(scanOrder) == multiset(Filter(Files(ws), ShouldAnalyze))
      ensures indexOrder == LibraryFiles(ws.root, ws.entries, 0)
      ensures Value() == WorkspaceRun(tool, ws, old(Value()), old(saved), current, forceFull, hints, symbolsEmpty,
                                      scanOrder, indexOrder)
    {
      scanOrder, indexOrder := Filter(Files(ws), ShouldAnalyze), LibraryFiles(ws.root, ws.entries, 0);
      var incrementalOk := false;
      if !forceFull {
        incrementalOk, current := RunIncrementalScan(tool, ws, hints, symbolsEmpty);
      }
      if !incrementalOk {
        scanOrder, indexOrder := RunFullScan(tool, ws);
        var refreshed := ScanSnapshot(ws);
        saved := Some(refreshed);
        if forceFull {
          current := refreshed;
        }
      }
    }
  }
}
