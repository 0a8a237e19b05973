/** The incremental run against the full scan it stands in for. */
module Refinement {
  import opened PathTable
  import opened Filters
  import opened Frontend
  import opened Snapshot
  import opened WorkspaceTree
  import opened BuildFlags
  import opened AnalysisJob
  import PathList
  import RecencyStore
  import IncludeGraph
  import LibraryIndex

  // ---------------------------------------------------------------------------------------
  // What a full scan of a workspace says about each path and each usage.

  /** The file at `path`, if the frontend gets to see it. */
  function Readable(ws: Workspace, path: string): Option<Visited> {
    match Lookup(Files(ws), path)
    case None => None
    case Some(info) => if Analyzable(Row(path, info)) then Some(Row(path, info)) else None
  }

  function ExpectedDiagnostics(tool: Tool, ws: Workspace, path: string): Option<Diagnostics> {
    match Readable(ws, path)
    case None => None
    case Some(file) => Some(ScanAnalysis(tool, ws, file).diagnostics)
  }

  function ExpectedDeps(tool: Tool, ws: Workspace, path: string): Option<seq<string>> {
    match Readable(ws, path)
    case None => None
    case Some(file) => Some(IncludeGraph.RecordedDeps(ScanAnalysis(tool, ws, file).includes, ws.root))
  }

  predicate Matches(inc: Include, b: nat, e: LibraryIndex.Entry) {
    Label(inc) == Some(e.name) && LibraryIndex.BucketOf(inc.origin) == b
    && inc.line == e.usage.line && inc.column == e.usage.column
  }

  function UsesIn(includes: seq<Include>, b: nat, e: LibraryIndex.Entry): nat {
    if includes == [] then 0
    else (if Matches(includes[0], b, e) then 1 else 0) + UsesIn(includes[1..], b, e)
  }

  /** The file a usage belongs to. */
  function Owner(root: string, e: LibraryIndex.Entry): string {
    Child(root, e.usage.source)
  }

  function ScanUses(tool: Tool, ws: Workspace, b: nat, e: LibraryIndex.Entry): nat {
    match Readable(ws, Owner(ws.root, e))
    case None => 0
    case Some(file) => UsesIn(ScanAnalysis(tool, ws, file).includes, b, e)
  }

  function ExpectedUses(tool: Tool, ws: Workspace, b: nat, e: LibraryIndex.Entry): nat {
    match Readable(ws, Owner(ws.root, e))
    case None => 0
    case Some(file) => UsesIn(IndexAnalysis(tool, ws, file).includes, b, e)
  }

  ghost predicate Consistent(st: Stores, root: string) {
    && RecencyStore.NewestFirst(st.diags)
    && DistinctPaths(st.graph.rows)
    && LibraryIndex.Valid(st.index)
    && st.index.root == root
  }

  /** The stores say exactly what a full scan of `ws` would. */
  ghost predicate Agrees(tool: Tool, ws: Workspace, st: Stores) {
    && Consistent(st, ws.root)
    && (forall p :: RecencyStore.Content(st.diags, p) == ExpectedDiagnostics(tool, ws, p))
    && (forall p :: Lookup(st.graph.rows, p) == ExpectedDeps(tool, ws, p))
    && (forall b, e :: 0 <= b < LibraryIndex.BUCKET_COUNT ==>
          LibraryIndex.Count(st.index, b, e) == ExpectedUses(tool, ws, b, e))
  }

  // ---------------------------------------------------------------------------------------
  // Paths below the root.

  predicate UnderRoot(root: string, path: string) {
    |path| > |root| + 1 && path[..|root| + 1] == root + "/"
  }

  lemma RelativeIffOwner(root: string, path: string, e: LibraryIndex.Entry)
    requires root != "" && UnderRoot(root, path)
    ensures LibraryIndex.RelativePath(root, path) == e.usage.source <==> path == Owner(root, e)
  {
    assert path[..|root|] == path[..|root| + 1][..|root|] == root;
    assert path[|root|] == path[..|root| + 1][|root|] == '/';
    assert path == path[..|root| + 1] + path[|root| + 1..];
    if path == Owner(root, e) {
      assert path[|root| + 1..] == e.usage.source;
    }
  }

  lemma FilesAreUnderRoot(ws: Workspace, path: string)
    requires WellFormed(ws.entries) && Lookup(Files(ws), path).Some?
    ensures UnderRoot(ws.root, path) && path != ""
  {
    var i :| 0 <= i < |Files(ws)| && Files(ws)[i] == Row(path, Lookup(Files(ws), path).value);
    WalkLiesIn(ws.root, ws.entries, 0, true, Files(ws)[i]);
  }

  // ---------------------------------------------------------------------------------------
  // One store update, one path or usage at a time.

  lemma {:induction false} AddIncludesCounts(index: LibraryIndex.State, source: string, includes: seq<Include>,
                                             b: nat, e: LibraryIndex.Entry)
    requires LibraryIndex.Valid(index) && b < LibraryIndex.BUCKET_COUNT
    ensures var after := AddIncludes(index, source, includes);
            && LibraryIndex.Valid(after) && after.root == index.root
            && LibraryIndex.Count(after, b, e) == LibraryIndex.Count(index, b, e)
               + if LibraryIndex.RelativePath(index.root, source) == e.usage.source then UsesIn(includes, b, e) else 0
    decreases includes
  {
    if includes != [] {
      match Label(includes[0]) {
        case None => AddIncludesCounts(index, source, includes[1..], b, e);
        case Some(name) =>
          LibraryIndex.IncludeAddedCorrect(index, source, name, includes[0], b, e);
          AddIncludesCounts(LibraryIndex.IncludeAdded(index, source, name, includes[0]), source, includes[1..], b, e);
      }
    }
  }

  lemma StoredAt(st: Stores, root: string, path: string, a: Analysis, updateIndex: bool, p: string)
    requires Consistent(st, root) && path != ""
    ensures var after := Stored(st, root, path, a, updateIndex);
            && Consistent(after, root)
            && RecencyStore.Content(after.diags, p) ==
               (if p == path then Some(a.diagnostics) else RecencyStore.Content(st.diags, p))
            && Lookup(after.graph.rows, p) ==
               if p == path then Some(IncludeGraph.RecordedDeps(a.includes, root)) else Lookup(st.graph.rows, p)
  {
    RecencyStore.UpsertCorrect(st.diags, path, a.diagnostics, p);
    IncludeGraph.ReplacedLookup(st.graph, path, a.includes, root, p);
    if updateIndex {
      var e := LibraryIndex.Entry("", LibraryIndex.Usage("", 0, 0));
      LibraryIndex.SourceRemovedCorrect(st.index, path, 0, e);
      AddIncludesCounts(LibraryIndex.SourceRemoved(st.index, path), path, a.includes, 0, e);
    }
  }

  lemma StoredIndex(st: Stores, root: string, path: string, a: Analysis, b: nat, e: LibraryIndex.Entry)
    requires Consistent(st, root) && root != "" && UnderRoot(root, path) && b < LibraryIndex.BUCKET_COUNT
    ensures LibraryIndex.Count(Stored(st, root, path, a, true).index, b, e) ==
            if path == Owner(root, e) then UsesIn(a.includes, b, e) else LibraryIndex.Count(st.index, b, e)
  {
    RelativeIffOwner(root, path, e);
    LibraryIndex.SourceRemovedCorrect(st.index, path, b, e);
    AddIncludesCounts(LibraryIndex.SourceRemoved(st.index, path), path, a.includes, b, e);
  }

  lemma DroppedAt(st: Stores, root: string, path: string, p: string)
    requires Consistent(st, root) && path != ""
    ensures var after := Dropped(st, path);
            && Consistent(after, root)
            && RecencyStore.Content(after.diags, p) == (if p == path then None else RecencyStore.Content(st.diags, p))
            && Lookup(after.graph.rows, p) == if p == path then None else Lookup(st.graph.rows, p)
  {
    RecencyStore.RemoveCorrect(st.diags, path, p);
    IncludeGraph.RemovedLookup(st.graph, path, p);
    LibraryIndex.SourceRemovedCorrect(st.index, path, 0, LibraryIndex.Entry("", LibraryIndex.Usage("", 0, 0)));
  }

  lemma DroppedIndex(st: Stores, root: string, path: string, b: nat, e: LibraryIndex.Entry)
    requires Consistent(st, root) && root != "" && UnderRoot(root, path) && b < LibraryIndex.BUCKET_COUNT
    ensures LibraryIndex.Count(Dropped(st, path).index, b, e) ==
            if path == Owner(root, e) then 0 else LibraryIndex.Count(st.index, b, e)
  {
    RelativeIffOwner(root, path, e);
    LibraryIndex.SourceRemovedCorrect(st.index, path, b, e);
  }

  // ---------------------------------------------------------------------------------------
  // Whole loops.

  lemma {:induction false} DroppedAllAt(st: Stores, root: string, paths: seq<string>, p: string)
    requires Consistent(st, root)
    ensures var after := DroppedAll(st, paths);
            && Consistent(after, root)
            && RecencyStore.Content(after.diags, p) ==
               (if p in paths && p != "" then None else RecencyStore.Content(st.diags, p))
            && Lookup(after.graph.rows, p) == if p in paths && p != "" then None else Lookup(st.graph.rows, p)
    decreases paths
  {
    if paths != [] {
      var next := if paths[0] == "" then st else Dropped(st, paths[0]);
      if paths[0] != "" {
        DroppedAt(st, root, paths[0], p);
      }
      DroppedAllAt(next, root, paths[1..], p);
    }
  }

  lemma {:induction false} DroppedAllIndex(st: Stores, root: string, paths: seq<string>, b: nat, e: LibraryIndex.Entry)
    requires Consistent(st, root) && root != "" && b < LibraryIndex.BUCKET_COUNT
    requires forall q :: q in paths ==> UnderRoot(root, q)
    ensures LibraryIndex.Count(DroppedAll(st, paths).index, b, e) ==
            if Owner(root, e) in paths then 0 else LibraryIndex.Count(st.index, b, e)
    decreases paths
  {
    if paths != [] {
      assert paths[0] in paths;
      DroppedAt(st, root, paths[0], "");
      DroppedIndex(st, root, paths[0], b, e);
      DroppedAllIndex(Dropped(st, paths[0]), root, paths[1..], b, e);
    }
  }

  /** A target is refreshed unless it exists but the scan passes it over. */
  predicate Refreshed(ws: Workspace, path: string) {
    path != "" && (Lookup(Files(ws), path).Some? ==> Readable(ws, path).Some?)
  }

  lemma RescannedAt(tool: Tool, ws: Workspace, st: Stores, path: string, p: string)
    requires Consistent(st, ws.root)
    ensures var after := Rescanned(tool, ws, st, path);
            && Consistent(after, ws.root)
            && RecencyStore.Content(after.diags, p) ==
               (if p == path && Refreshed(ws, p) then ExpectedDiagnostics(tool, ws, p)
                else RecencyStore.Content(st.diags, p))
            && Lookup(after.graph.rows, p) ==
               if p == path && Refreshed(ws, p) then ExpectedDeps(tool, ws, p) else Lookup(st.graph.rows, p)
  {
    if path != "" {
      match Lookup(Files(ws), path) {
        case None => DroppedAt(st, ws.root, path, p);
        case Some(info) =>
          if Analyzable(Row(path, info)) {
            StoredAt(st, ws.root, path, ScanAnalysis(tool, ws, Row(path, info)), true, p);
          }
      }
    }
  }

  lemma {:induction false} RescannedAllAt(tool: Tool, ws: Workspace, st: Stores, targets: seq<string>, p: string)
    requires Consistent(st, ws.root)
    ensures var after := RescannedAll(tool, ws, st, targets);
            && Consistent(after, ws.root)
            && RecencyStore.Content(after.diags, p) ==
               (if p in targets && Refreshed(ws, p) then ExpectedDiagnostics(tool, ws, p)
                else RecencyStore.Content(st.diags, p))
            && Lookup(after.graph.rows, p) ==
               if p in targets && Refreshed(ws, p) then ExpectedDeps(tool, ws, p) else Lookup(st.graph.rows, p)
    decreases targets
  {
    if targets != [] {
      RescannedAt(tool, ws, st, targets[0], p);
      RescannedAllAt(tool, ws, Rescanned(tool, ws, st, targets[0]), targets[1..], p);
    }
  }

  lemma RescannedIndex(tool: Tool, ws: Workspace, st: Stores, path: string, b: nat, e: LibraryIndex.Entry)
    requires Consistent(st, ws.root) && ws.root != "" && UnderRoot(ws.root, path) && b < LibraryIndex.BUCKET_COUNT
    ensures LibraryIndex.Count(Rescanned(tool, ws, st, path).index, b, e) ==
            if path == Owner(ws.root, e) && Refreshed(ws, path) then ScanUses(tool, ws, b, e)
            else LibraryIndex.Count(st.index, b, e)
  {
    match Lookup(Files(ws), path) {
      case None => DroppedIndex(st, ws.root, path, b, e);
      case Some(info) =>
        if Analyzable(Row(path, info)) {
          StoredIndex(st, ws.root, path, ScanAnalysis(tool, ws, Row(path, info)), b, e);
        }
    }
  }

  lemma {:induction false} RescannedAllIndex(tool: Tool, ws: Workspace, st: Stores, targets: seq<string>,
                                             b: nat, e: LibraryIndex.Entry)
    requires Consistent(st, ws.root) && ws.root != "" && b < LibraryIndex.BUCKET_COUNT
    requires forall q :: q in targets ==> UnderRoot(ws.root, q)
    ensures LibraryIndex.Count(RescannedAll(tool, ws, st, targets).index, b, e) ==
            if Owner(ws.root, e) in targets && Refreshed(ws, Owner(ws.root, e)) then ScanUses(tool, ws, b, e)
            else LibraryIndex.Count(st.index, b, e)
    decreases targets
  {
    if targets != [] {
      assert targets[0] in targets;
      RescannedAt(tool, ws, st, targets[0], "");
      RescannedIndex(tool, ws, st, targets[0], b, e);
      RescannedAllIndex(tool, ws, Rescanned(tool, ws, st, targets[0]), targets[1..], b, e);
    }
  }

  // ---------------------------------------------------------------------------------------
  // The full scan agrees with its workspace, from any state.

  lemma {:induction false} ScannedAllAt(tool: Tool, ws: Workspace, st: Stores, order: seq<Visited>, p: string)
    requires Consistent(st, st.index.root) && DistinctPaths(order)
    requires forall f :: f in order ==> f.path != ""
    ensures var after := ScannedAll(tool, ws, st, order);
            var file := Lookup(order, p);
            var seen := file.Some? && Analyzable(Row(p, file.value));
            && RecencyStore.NewestFirst(after.diags) && DistinctPaths(after.graph.rows)
            && RecencyStore.Content(after.diags, p) ==
               (if seen then Some(ScanAnalysis(tool, ws, Row(p, file.value)).diagnostics)
                else RecencyStore.Content(st.diags, p))
            && Lookup(after.graph.rows, p) ==
               if seen
               then Some(IncludeGraph.RecordedDeps(ScanAnalysis(tool, ws, Row(p, file.value)).includes, ws.root))
               else Lookup(st.graph.rows, p)
    decreases order
  {
    if order != [] {
      var file := order[0];
      assert order == [file] + order[1..];
      AnalyzedAt(tool, ws, st, file, p);
      ScannedAllAt(tool, ws, Analyzed(tool, ws, st, file, false), order[1..], p);
      if p == file.path {
        assert Lookup(order[1..], p).None?;
      }
    }
  }

  lemma AnalyzedAt(tool: Tool, ws: Workspace, st: Stores, file: Visited, p: string)
    requires Consistent(st, st.index.root) && file.path != ""
    ensures var after := Analyzed(tool, ws, st, file, false);
            var seen := p == file.path && Analyzable(file);
            && Consistent(after, after.index.root)
            && RecencyStore.Content(after.diags, p) ==
               (if seen then Some(ScanAnalysis(tool, ws, file).diagnostics) else RecencyStore.Content(st.diags, p))
            && Lookup(after.graph.rows, p) ==
               if seen then Some(IncludeGraph.RecordedDeps(ScanAnalysis(tool, ws, file).includes, ws.root))
               else Lookup(st.graph.rows, p)
  {
    if Analyzable(file) {
      StoreOnly(st, ws.root, file.path, ScanAnalysis(tool, ws, file), p);
    }
  }

  /** `StoredAt` without the index, whose root may still be the previous workspace's. */
  lemma StoreOnly(st: Stores, root: string, path: string, a: Analysis, p: string)
    requires Consistent(st, st.index.root) && path != ""
    ensures var after := Stored(st, root, path, a, false);
            && Consistent(after, after.index.root)
            && RecencyStore.Content(after.diags, p) ==
               (if p == path then Some(a.diagnostics) else RecencyStore.Content(st.diags, p))
            && Lookup(after.graph.rows, p) ==
               if p == path then Some(IncludeGraph.RecordedDeps(a.includes, root)) else Lookup(st.graph.rows, p)
  {
    RecencyStore.UpsertCorrect(st.diags, path, a.diagnostics, p);
    IncludeGraph.ReplacedLookup(st.graph, path, a.includes, root, p);
  }

  lemma {:induction false} IndexedAllCounts(tool: Tool, ws: Workspace, index: LibraryIndex.State, order: seq<Visited>,
                                            b: nat, e: LibraryIndex.Entry)
    requires LibraryIndex.Valid(index) && index.root == ws.root != "" && b < LibraryIndex.BUCKET_COUNT
    requires DistinctPaths(order) && forall f :: f in order ==> UnderRoot(ws.root, f.path)
    ensures var after := IndexedAll(tool, ws, index, order);
            var file := Lookup(order, Owner(ws.root, e));
            && LibraryIndex.Valid(after) && after.root == ws.root
            && LibraryIndex.Count(after, b, e) == LibraryIndex.Count(index, b, e)
               + if file.Some? && Analyzable(Row(Owner(ws.root, e), file.value))
                 then UsesIn(IndexAnalysis(tool, ws, Row(Owner(ws.root, e), file.value)).includes, b, e) else 0
    decreases order
  {
    if order != [] {
      var file := order[0];
      assert order == [file] + order[1..];
      IndexedCounts(tool, ws, index, file, b, e);
      IndexedAllCounts(tool, ws, Indexed(tool, ws, index, file), order[1..], b, e);
      if Owner(ws.root, e) == file.path {
        assert Lookup(order[1..], file.path).None?;
      }
    }
  }

  function Indexed(tool: Tool, ws: Workspace, index: LibraryIndex.State, file: Visited): LibraryIndex.State
    requires |index.buckets| == LibraryIndex.BUCKET_COUNT
  {
    if Analyzable(file) then AddIncludes(index, file.path, IndexAnalysis(tool, ws, file).includes) else index
  }

  lemma IndexedCounts(tool: Tool, ws: Workspace, index: LibraryIndex.State, file: Visited, b: nat,
                      e: LibraryIndex.Entry)
    requires LibraryIndex.Valid(index) && index.root == ws.root != "" && b < LibraryIndex.BUCKET_COUNT
    requires UnderRoot(ws.root, file.path)
    ensures var after := Indexed(tool, ws, index, file);
            && LibraryIndex.Valid(after) && after.root == ws.root
            && LibraryIndex.Count(after, b, e) == LibraryIndex.Count(index, b, e)
               + if Owner(ws.root, e) == file.path && Analyzable(file)
                 then UsesIn(IndexAnalysis(tool, ws, file).includes, b, e) else 0
  {
    if Analyzable(file) {
      AddIncludesCounts(index, file.path, IndexAnalysis(tool, ws, file).includes, b, e);
      RelativeIffOwner(ws.root, file.path, e);
    }
  }

  lemma {:induction false} LookupFiltered(files: seq<Visited>, keep: Visited -> bool, p: string)
    requires DistinctPaths(files)
    ensures Lookup(Filter(files, keep), p) ==
            if Lookup(files, p).Some? && keep(Row(p, Lookup(files, p).value)) then Lookup(files, p) else None
  {
    if files != [] {
      LookupFiltered(files[1..], keep, p);
      if files[0].path == p {
        assert files[0] == Row(p, files[0].value);
        assert Lookup(files[1..], p).None?;
      }
    }
  }

  /** Any order a directory walk may produce answers lookups like the workspace. */
  lemma OrderLookup(ws: Workspace, order: seq<Visited>, p: string)
    requires WellFormed(ws.entries) && multiset(order) == multiset(Filter(Files(ws), ShouldAnalyze))
    ensures DistinctPaths(order)
    ensures forall f :: f in order ==> UnderRoot(ws.root, f.path) && f.path != ""
    ensures (Lookup(order, p).Some? && Analyzable(Row(p, Lookup(order, p).value))) == Readable(ws, p).Some?
    ensures Readable(ws, p).Some? ==> Readable(ws, p).value == Row(p, Lookup(order, p).value)
  {
    var kept := Filter(Files(ws), ShouldAnalyze);
    WalkIsDistinct(ws.root, ws.entries, 0, true);
    FilterKeepsDistinct(Files(ws), ShouldAnalyze);
    PermutedDistinct(kept, order);
    PermutedLookup(kept, order, p);
    LookupFiltered(Files(ws), ShouldAnalyze, p);
    forall f | f in order
      ensures UnderRoot(ws.root, f.path) && f.path != ""
    {
      assert f in multiset(order);
      assert f in Files(ws);
      FilesAreUnderRoot(ws, f.path);
    }
  }

  ghost predicate NothingHidden(ws: Workspace) {
    Filter(Hidden(ws.root, ws.entries, 0), ShouldAnalyze) == []
  }

  lemma FullScanAt(tool: Tool, ws: Workspace, st: Stores, scanOrder: seq<Visited>, indexOrder: seq<Visited>, p: string)
    requires Shaped(st) && LibraryIndex.Valid(st.index) && WellFormed(ws.entries)
    requires multiset(scanOrder) == multiset(Filter(Files(ws), ShouldAnalyze))
    ensures var after := FullScan(tool, ws, st, scanOrder, indexOrder);
            && RecencyStore.NewestFirst(after.diags) && DistinctPaths(after.graph.rows)
            && RecencyStore.Content(after.diags, p) == ExpectedDiagnostics(tool, ws, p)
            && Lookup(after.graph.rows, p) == ExpectedDeps(tool, ws, p)
  {
    OrderLookup(ws, scanOrder, p);
    ScannedAllAt(tool, ws, Stores(RecencyStore.State([], 0), IncludeGraph.Cleared(st.graph), st.index), scanOrder, p);
  }

  lemma IndexOrder(ws: Workspace)
    requires NothingHidden(ws)
    ensures multiset(LibraryFiles(ws.root, ws.entries, 0)) == multiset(Filter(Files(ws), ShouldAnalyze))
  {
    WorklistEqualsRecursion(ws, ShouldAnalyze);
  }

  lemma BegunIsEmpty(root: string, b: nat, e: LibraryIndex.Entry)
    requires b < LibraryIndex.BUCKET_COUNT
    ensures LibraryIndex.Valid(LibraryIndex.Begun(root)) && LibraryIndex.Begun(root).root == root
    ensures LibraryIndex.Count(LibraryIndex.Begun(root), b, e) == 0
  {
  }

  lemma OrderedIndex(tool: Tool, ws: Workspace, order: seq<Visited>, b: nat, e: LibraryIndex.Entry)
    requires ws.root != "" && WellFormed(ws.entries) && b < LibraryIndex.BUCKET_COUNT
    requires multiset(order) == multiset(Filter(Files(ws), ShouldAnalyze))
    ensures var built := IndexedAll(tool, ws, LibraryIndex.Begun(ws.root), order);
            && LibraryIndex.Valid(built) && built.root == ws.root
            && LibraryIndex.Count(built, b, e) == ExpectedUses(tool, ws, b, e)
  {
    BegunIsEmpty(ws.root, b, e);
    OrderLookup(ws, order, Owner(ws.root, e));
    IndexedAllCounts(tool, ws, LibraryIndex.Begun(ws.root), order, b, e);
  }

  lemma BuiltIndex(tool: Tool, ws: Workspace, indexOrder: seq<Visited>, b: nat, e: LibraryIndex.Entry)
    requires ws.root != "" && WellFormed(ws.entries) && NothingHidden(ws) && b < LibraryIndex.BUCKET_COUNT
    requires indexOrder == LibraryFiles(ws.root, ws.entries, 0)
    ensures var built := IndexedAll(tool, ws, LibraryIndex.Begun(ws.root), indexOrder);
            && LibraryIndex.Valid(built) && built.root == ws.root
            && LibraryIndex.Count(built, b, e) == ExpectedUses(tool, ws, b, e)
  {
    IndexOrder(ws);
    OrderedIndex(tool, ws, indexOrder, b, e);
  }

  lemma FullScanIndex(tool: Tool, ws: Workspace, st: Stores, scanOrder: seq<Visited>, indexOrder: seq<Visited>,
                      b: nat, e: LibraryIndex.Entry)
    requires Shaped(st) && ws.root != "" && WellFormed(ws.entries) && NothingHidden(ws) && b < LibraryIndex.BUCKET_COUNT
    requires indexOrder == LibraryFiles(ws.root, ws.entries, 0)
    ensures var after := FullScan(tool, ws, st, scanOrder, indexOrder).index;
            && LibraryIndex.Valid(after) && after.root == ws.root
            && LibraryIndex.Count(after, b, e) == ExpectedUses(tool, ws, b, e)
  {
    BuiltIndex(tool, ws, indexOrder, b, e);
    LibraryIndex.FinalizedCorrect(IndexedAll(tool, ws, LibraryIndex.Begun(ws.root), indexOrder), b, e);
  }

  /** A full scan makes the stores agree with the workspace, whatever they held before. */
  lemma FullScanAgrees(tool: Tool, ws: Workspace, st: Stores, scanOrder: seq<Visited>, indexOrder: seq<Visited>)
    requires Shaped(st) && LibraryIndex.Valid(st.index)
    requires ws.root != "" && WellFormed(ws.entries) && NothingHidden(ws)
    requires multiset(scanOrder) == multiset(Filter(Files(ws), ShouldAnalyze))
    requires indexOrder == LibraryFiles(ws.root, ws.entries, 0)
    ensures Agrees(tool, ws, FullScan(tool, ws, st, scanOrder, indexOrder))
  {
    FullScanAt(tool, ws, st, scanOrder, indexOrder, "");
    FullScanIndex(tool, ws, st, scanOrder, indexOrder, 0, LibraryIndex.Entry("", LibraryIndex.Usage("", 0, 0)));
    forall p { FullScanAt(tool, ws, st, scanOrder, indexOrder, p); }
    forall b, e | 0 <= b < LibraryIndex.BUCKET_COUNT { FullScanIndex(tool, ws, st, scanOrder, indexOrder, b, e); }
  }

  // ---------------------------------------------------------------------------------------
  // The incremental scan.

  /** The frontend's answer depends on the flags, on the file, on the workspace files it records
      as included and, if it `probes`, on which files exist; on nothing else on disk. */
  ghost predicate Framed(analyze: (Flags, string, map<string, string>) -> Analysis, root: string, probes: bool) {
    forall flags, path, c1: map<string, string>, c2: map<string, string> ::
      && path in c1 && path in c2 && c1[path] == c2[path]
      && (probes ==> c1.Keys == c2.Keys)
      && (forall d :: d in IncludeGraph.RecordedDeps(analyze(flags, path, c1).includes, root) ==>
            d in c1 && d in c2 && c1[d] == c2[d])
      ==> analyze(flags, path, c1) == analyze(flags, path, c2)
  }

  /** Equal fingerprints mean equal contents between two states of one workspace. */
  ghost predicate FingerprintsFaithful(before: Workspace, after: Workspace) {
    forall p :: Lookup(Files(before), p).Some? && Lookup(Files(after), p).Some?
      && ContentEqual(Lookup(Files(before), p).value.mark, Lookup(Files(after), p).value.mark)
      ==> Lookup(Files(before), p).value.contents == Lookup(Files(after), p).value.contents
  }

  /** Every recorded include is a file the snapshot watches. */
  ghost predicate DepsAreWatched(tool: Tool, ws: Workspace) {
    forall p, d :: ExpectedDeps(tool, ws, p).Some? && d in ExpectedDeps(tool, ws, p).value
      ==> Lookup(Sources(ws), d).Some?
  }

  ghost predicate Follows(before: Workspace, after: Workspace) {
    && before.root == after.root != ""
    && WellFormed(before.entries) && WellFormed(after.entries)
    && FingerprintsFaithful(before, after)
  }

  predicate StaysReadable(before: Workspace, after: Workspace, p: string) {
    Readable(before, p).Some? && Lookup(Files(after), p).Some? ==> Readable(after, p).Some?
  }

  /** No file that was analysed and still exists has become one the scan passes over (a
      generated gperf source, or over 32 MB). */
  ghost predicate NoneBecameUnreadable(before: Workspace, after: Workspace) {
    forall p :: StaysReadable(before, after, p)
  }

  /** A file whose request for the overlay the run's flags do not heed: the per-file scan has
      the overlay on for it, the index build has not. */
  predicate Missed(given: Flags, ws: Workspace, p: string) {
    && Readable(ws, p).Some? && RequestsUnits(Readable(ws, p).value.value.contents)
    && !BaseFlags(given, ws).overlay
  }

  /** Nothing has happened since the last run. */
  ghost predicate Idle(was: Flags, before: Workspace, cached: seq<Fingerprint>,
                       given: Flags, after: Workspace, current: seq<Fingerprint>) {
    && Merge(cached, current) == ([], []) && Disk(Files(before)) == Disk(Files(after))
    && BaseFlags(was, before) == BaseFlags(given, after)
  }

  /** What a caller can check of one file before an incremental run: the tree scan heeds its
      request, and it is dirty or the flags (and for a frontend that probes for files, the set
      of files) are the same as last time. */
  ghost predicate SteadyAt(was: Flags, before: Workspace, cached: seq<Fingerprint>,
                           given: Flags, after: Workspace, current: seq<Fingerprint>, probes: bool, p: string) {
    && !Missed(given, after, p)
    && (p in Merge(cached, current).0
        || (BaseFlags(was, before) == BaseFlags(given, after)
            && (probes ==> Disk(Files(before)).Keys == Disk(Files(after)).Keys)))
  }

  ghost predicate Steady(was: Flags, before: Workspace, cached: seq<Fingerprint>,
                         given: Flags, after: Workspace, current: seq<Fingerprint>, probes: bool) {
    Idle(was, before, cached, given, after, current)
    || forall p :: Readable(after, p).Some? ==> SteadyAt(was, before, cached, given, after, current, probes, p)
  }

  /** A request is missed only in a file with an upper-case extension, or when no 8192-byte
      read holds the marker whole. */
  lemma MissedOnlyIf(given: Flags, ws: Workspace, p: string)
    requires Missed(given, ws, p)
    ensures !HasSourceExtension(p)
            || (!ChunksRequest(Readable(ws, p).value.value.contents)
                && |Readable(ws, p).value.value.contents| > CHUNK)
  {
    var file := Readable(ws, p).value;
    ChunksAgainstWhole(file.value.contents);
    if HasSourceExtension(p) && ChunksRequest(file.value.contents) {
      TreeSeesFile(ws.root, ws.entries, 0, file);
    }
  }

  lemma SourceLookup(ws: Workspace, p: string)
    requires WellFormed(ws.entries)
    ensures Lookup(Sources(ws), p) ==
            if Lookup(Files(ws), p).Some? && IsSource(Row(p, Lookup(Files(ws), p).value))
            then Lookup(Files(ws), p) else None
  {
    WalkIsDistinct(ws.root, ws.entries, 0, true);
    LookupFiltered(Files(ws), IsSource, p);
  }

  /** Where a path stands in the comparison of two snapshots. */
  lemma DiffOfWorkspaces(before: Workspace, after: Workspace, cached: seq<Fingerprint>, current: seq<Fingerprint>,
                         p: string)
    requires WellFormed(before.entries) && WellFormed(after.entries)
    requires IsSnapshot(cached, before) && IsSnapshot(current, after) && FingerprintsFaithful(before, after)
    ensures p in Merge(cached, current).1 <==> Lookup(Sources(before), p).Some? && Lookup(Sources(after), p).None?
    ensures p in Merge(cached, current).0 ==> Lookup(Sources(after), p).Some?
    ensures Lookup(Sources(after), p).Some? && p !in Merge(cached, current).0 ==>
              Lookup(Files(before), p).Some? && Lookup(Files(after), p).Some?
              && Lookup(Files(before), p).value.contents == Lookup(Files(after), p).value.contents
  {
    DiffMembership(cached, current, p);
    SourceLookup(before, p);
    SourceLookup(after, p);
  }

  lemma {:induction false} DependentsOfAllExact(rows: seq<Row<seq<string>>>, changed: seq<string>, source: string)
    requires DistinctPaths(rows)
    ensures source in DependentsOfAll(rows, changed) <==>
            exists d :: d in changed && source in IncludeGraph.Dependents(rows, d)
  {
    if changed != [] {
      assert changed == [changed[0]] + changed[1..];
      DependentsOfAllExact(rows, changed[1..], source);
    }
  }

  lemma HintsAddNothing(cached: seq<Fingerprint>, current: seq<Fingerprint>, hints: seq<string>)
    requires StrictlySorted(cached) && StrictlySorted(current)
    ensures Seeds(cached, current, Merge(cached, current).0, hints) == PathList.AddedAll([], Merge(cached, current).0)
  {
    var dirty := Merge(cached, current).0;
    var accepted := Filter(hints, h => ShouldAnalyzeHint(cached, current, h));
    forall h | h in accepted
      ensures h in PathList.AddedAll([], dirty)
    {
      HintAcceptedIffDirty(cached, current, h);
    }
    PathList.AddedAllKnown(PathList.AddedAll([], dirty), accepted);
  }

  /** The target list is duplicate-free and is exactly: the dirty files, the direct includers
      of a dirty file, and the direct includers of a removed file. Hints add nothing. */
  lemma TargetsExact(rows: seq<Row<seq<string>>>, cached: seq<Fingerprint>, current: seq<Fingerprint>,
                     hints: seq<string>, p: string)
    requires DistinctPaths(rows) && StrictlySorted(cached) && StrictlySorted(current) && p != ""
    ensures var (dirty, removed) := Merge(cached, current);
            var targets := Targets(rows, Seeds(cached, current, dirty, hints), removed);
            && PathList.NoDuplicates(targets)
            && (p in targets <==>
                  p in dirty
                  || (exists d :: (d in dirty || d in removed) && p != d && d != ""
                                  && Lookup(rows, p).Some? && d in Lookup(rows, p).value))
  {
    var (dirty, removed) := Merge(cached, current);
    var seeds := Seeds(cached, current, dirty, hints);
    HintsAddNothing(cached, current, hints);
    DependentsOfAllExact(rows, seeds, p);
    DependentsOfAllExact(rows, removed, p);
    forall d { IncludeGraph.DependentsExact(rows, d, p); }
  }

  /** One incremental step, with everything it starts from: the tool and disk of the last run,
      and those of this one. */
  datatype Step = Step(was: Tool, tool: Tool, before: Workspace, after: Workspace, st: Stores, cached: seq<Fingerprint>,
                       current: seq<Fingerprint>, hints: seq<string>)
  {
    function Dirty(): seq<string> { Merge(cached, current).0 }

    function Deleted(): seq<string> { Merge(cached, current).1 }

    function Goals(): seq<string> {
      Targets(st.graph.rows, Seeds(cached, current, Dirty(), hints), Deleted())
    }

    ghost predicate Grounded() {
      && Agrees(was, before, st) && Follows(before, after)
      && IsSnapshot(cached, before) && IsSnapshot(current, after)
    }

    /** The same frontend in both runs, and one whose includes the snapshot watches. */
    ghost predicate Sound(probes: bool) {
      && Grounded() && DepsAreWatched(was, before)
      && was.analyze == tool.analyze && Framed(tool.analyze, before.root, probes)
    }

    ghost predicate IsSteady(probes: bool) {
      Steady(was.given, before, cached, tool.given, after, current, probes)
    }

    function Result(): Stores
      requires Shaped(st)
    {
      var scanned := RescannedAll(tool, after, DroppedAll(st, Deleted()), Goals());
      scanned.(index := LibraryIndex.Finalized(scanned.index))
    }
  }

  lemma DirtyIsGoal(s: Step, p: string)
    requires p in s.Dirty() && p != ""
    ensures p in s.Goals()
  {
  }

  lemma CleanReadable(before: Workspace, after: Workspace, cached: seq<Fingerprint>, current: seq<Fingerprint>,
                      p: string)
    requires WellFormed(before.entries) && WellFormed(after.entries)
    requires IsSnapshot(cached, before) && IsSnapshot(current, after) && FingerprintsFaithful(before, after)
    requires p !in Merge(cached, current).0
    ensures Readable(after, p).Some? <==> Readable(before, p).Some? && p !in Merge(cached, current).1
    ensures Readable(after, p).Some? ==>
              Readable(before, p).value.value.contents == Readable(after, p).value.value.contents
  {
    DiffOfWorkspaces(before, after, cached, current, p);
    SourceLookup(before, p);
    SourceLookup(after, p);
    if Lookup(Sources(after), p).Some? {
      var a, b := Row(p, Lookup(Files(before), p).value), Row(p, Lookup(Files(after), p).value);
      assert Analyzable(a) <==> Analyzable(b);
    }
  }

  lemma UntouchedReadable(s: Step, p: string)
    requires s.Grounded() && p !in s.Goals()
    ensures Readable(s.after, p).Some? <==> Readable(s.before, p).Some? && p !in s.Deleted()
    ensures Readable(s.after, p).Some? ==>
              p !in s.Dirty()
              && Readable(s.before, p).value.value.contents == Readable(s.after, p).value.value.contents
  {
    if p in s.Dirty() {
      DiffOfWorkspaces(s.before, s.after, s.cached, s.current, p);
      SourceLookup(s.after, p);
      FilesAreUnderRoot(s.after, p);
      DirtyIsGoal(s, p);
    }
    CleanReadable(s.before, s.after, s.cached, s.current, p);
  }

  // ---------------------------------------------------------------------------------------
  // What an incremental run leaves behind, path by path and usage by usage.

  lemma IncrementalAt(s: Step, p: string)
    requires s.Grounded()
    ensures var result := s.Result();
            && RecencyStore.NewestFirst(result.diags) && DistinctPaths(result.graph.rows)
            && RecencyStore.Content(result.diags, p) ==
               (if p in s.Goals() && Refreshed(s.after, p) then ExpectedDiagnostics(s.tool, s.after, p)
                else if p in s.Deleted() && p != "" then None else ExpectedDiagnostics(s.was, s.before, p))
            && Lookup(result.graph.rows, p) ==
               (if p in s.Goals() && Refreshed(s.after, p) then ExpectedDeps(s.tool, s.after, p)
                else if p in s.Deleted() && p != "" then None else ExpectedDeps(s.was, s.before, p))
  {
    var kept := DroppedAll(s.st, s.Deleted());
    DroppedAllAt(s.st, s.before.root, s.Deleted(), p);
    RescannedAllAt(s.tool, s.after, kept, s.Goals(), p);
    assert RecencyStore.Content(s.st.diags, p) == ExpectedDiagnostics(s.was, s.before, p);
    assert Lookup(s.st.graph.rows, p) == ExpectedDeps(s.was, s.before, p);
  }

  lemma GoalsAreUnderRoot(s: Step, q: string)
    requires s.Grounded() && (q in s.Goals() || q in s.Deleted())
    ensures UnderRoot(s.before.root, q)
  {
    DiffOfWorkspaces(s.before, s.after, s.cached, s.current, q);
    SourceLookup(s.before, q);
    SourceLookup(s.after, q);
    if q in s.Dirty() {
      FilesAreUnderRoot(s.after, q);
    } else if q in s.Deleted() {
      FilesAreUnderRoot(s.before, q);
    } else {
      assert q != "";
      TargetsExact(s.st.graph.rows, s.cached, s.current, s.hints, q);
      assert Lookup(s.st.graph.rows, q) == ExpectedDeps(s.was, s.before, q);
      FilesAreUnderRoot(s.before, q);
    }
  }

  lemma IncrementalCount(s: Step, b: nat, e: LibraryIndex.Entry)
    requires s.Grounded() && b < LibraryIndex.BUCKET_COUNT
    ensures var p, index := Owner(s.after.root, e), s.Result().index;
            && LibraryIndex.Valid(index) && index.root == s.after.root
            && LibraryIndex.Count(index, b, e) ==
               if p in s.Goals() && Refreshed(s.after, p) then ScanUses(s.tool, s.after, b, e)
               else if p in s.Deleted() then 0 else ExpectedUses(s.was, s.before, b, e)
  {
    var kept := DroppedAll(s.st, s.Deleted());
    forall q | q in s.Goals() || q in s.Deleted() { GoalsAreUnderRoot(s, q); }
    DroppedAllAt(s.st, s.before.root, s.Deleted(), "");
    DroppedAllIndex(s.st, s.before.root, s.Deleted(), b, e);
    RescannedAllAt(s.tool, s.after, kept, s.Goals(), "");
    RescannedAllIndex(s.tool, s.after, kept, s.Goals(), b, e);
    LibraryIndex.FinalizedCorrect(RescannedAll(s.tool, s.after, kept, s.Goals()).index, b, e);
    assert LibraryIndex.Count(s.st.index, b, e) == ExpectedUses(s.was, s.before, b, e);
  }

  // ---------------------------------------------------------------------------------------
  // When that is what a full scan of the new disk would say.

  /** What the stores keep of two answers for one file is the same. */
  ghost predicate SameRecord(a: Analysis, b: Analysis, root: string) {
    && a.diagnostics == b.diagnostics
    && IncludeGraph.RecordedDeps(a.includes, root) == IncludeGraph.RecordedDeps(b.includes, root)
    && forall c, e :: 0 <= c < LibraryIndex.BUCKET_COUNT ==> UsesIn(a.includes, c, e) == UsesIn(b.includes, c, e)
  }

  /** The record kept for a file that is no target is the one a full scan would make now. */
  ghost predicate RecordHolds(s: Step, p: string) {
    Readable(s.after, p).Some? && Readable(s.before, p).Some? ==>
      var was, now := Readable(s.before, p).value, Readable(s.after, p).value;
      && ScanAnalysis(s.was, s.before, was).diagnostics == ScanAnalysis(s.tool, s.after, now).diagnostics
      && IncludeGraph.RecordedDeps(ScanAnalysis(s.was, s.before, was).includes, s.before.root) ==
         IncludeGraph.RecordedDeps(ScanAnalysis(s.tool, s.after, now).includes, s.after.root)
      && forall c, e :: 0 <= c < LibraryIndex.BUCKET_COUNT ==>
           UsesIn(IndexAnalysis(s.was, s.before, was).includes, c, e) ==
           UsesIn(IndexAnalysis(s.tool, s.after, now).includes, c, e)
  }

  /** A target is recorded by the per-file scan as the index build would record it. */
  ghost predicate PassesMatch(s: Step, p: string) {
    Readable(s.after, p).Some? ==>
      forall c, e :: 0 <= c < LibraryIndex.BUCKET_COUNT ==>
        UsesIn(ScanAnalysis(s.tool, s.after, Readable(s.after, p).value).includes, c, e) ==
        UsesIn(IndexAnalysis(s.tool, s.after, Readable(s.after, p).value).includes, c, e)
  }

  ghost predicate Holds(s: Step, p: string) {
    if p in s.Goals() then PassesMatch(s, p) else RecordHolds(s, p)
  }

  lemma TargetRowsRight(s: Step, p: string)
    requires s.Grounded() && p in s.Goals() && StaysReadable(s.before, s.after, p)
    ensures RecencyStore.Content(s.Result().diags, p) == ExpectedDiagnostics(s.tool, s.after, p)
    ensures Lookup(s.Result().graph.rows, p) == ExpectedDeps(s.tool, s.after, p)
  {
    IncrementalAt(s, p);
    PassedOver(s, p);
    if p in s.Deleted() { GoneIsNamed(s, p); }
  }

  lemma OtherRowsRight(s: Step, p: string)
    requires s.Grounded() && p !in s.Goals() && RecordHolds(s, p)
    ensures RecencyStore.Content(s.Result().diags, p) == ExpectedDiagnostics(s.tool, s.after, p)
    ensures Lookup(s.Result().graph.rows, p) == ExpectedDeps(s.tool, s.after, p)
  {
    IncrementalAt(s, p);
    UntouchedReadable(s, p);
    if p in s.Deleted() { GoneIsNamed(s, p); }
  }

  lemma RowsRight(s: Step, p: string)
    requires s.Grounded() && Holds(s, p) && StaysReadable(s.before, s.after, p)
    ensures RecencyStore.Content(s.Result().diags, p) == ExpectedDiagnostics(s.tool, s.after, p)
    ensures Lookup(s.Result().graph.rows, p) == ExpectedDeps(s.tool, s.after, p)
  {
    if p in s.Goals() { TargetRowsRight(s, p); } else { OtherRowsRight(s, p); }
  }

  /** A target that still exists but is passed over, and was not analysed before either. */
  lemma PassedOver(s: Step, p: string)
    requires s.Grounded() && p in s.Goals() && StaysReadable(s.before, s.after, p)
    ensures !Refreshed(s.after, p) ==> Readable(s.before, p).None? && Readable(s.after, p).None?
  {
    GoalsAreUnderRoot(s, p);
  }

  lemma GoneIsNamed(s: Step, p: string)
    requires s.Grounded() && p in s.Deleted()
    ensures p != ""
  {
    GoalsAreUnderRoot(s, p);
  }

  lemma UsesRight(s: Step, b: nat, e: LibraryIndex.Entry)
    requires s.Grounded() && b < LibraryIndex.BUCKET_COUNT
    requires Holds(s, Owner(s.after.root, e)) && StaysReadable(s.before, s.after, Owner(s.after.root, e))
    ensures LibraryIndex.Count(s.Result().index, b, e) == ExpectedUses(s.tool, s.after, b, e)
  {
    var p := Owner(s.after.root, e);
    IncrementalCount(s, b, e);
    if p in s.Goals() {
      PassedOver(s, p);
    } else {
      UntouchedReadable(s, p);
    }
  }

  /** A file that became unreadable keeps its old row. */
  lemma StaleIfUnreadable(s: Step, p: string)
    requires s.Grounded() && !StaysReadable(s.before, s.after, p)
    ensures RecencyStore.Content(s.Result().diags, p).Some? && ExpectedDiagnostics(s.tool, s.after, p).None?
  {
    IncrementalAt(s, p);
    DiffOfWorkspaces(s.before, s.after, s.cached, s.current, p);
    SourceLookup(s.before, p);
    SourceLookup(s.after, p);
  }

  lemma AgreesIfAllHold(s: Step)
    requires s.Grounded() && NoneBecameUnreadable(s.before, s.after) && forall p :: Holds(s, p)
    ensures Agrees(s.tool, s.after, s.Result())
  {
    IncrementalAt(s, "");
    IncrementalCount(s, 0, LibraryIndex.Entry("", LibraryIndex.Usage("", 0, 0)));
    forall p { RowsRight(s, p); }
    forall b, e | 0 <= b < LibraryIndex.BUCKET_COUNT { UsesRight(s, b, e); }
  }

  /** Whether one usage is counted depends on the file only through the name of its owner. */
  lemma {:induction false} UsesIgnoreOwner(includes: seq<Include>, b: nat, e: LibraryIndex.Entry, source: string)
    ensures UsesIn(includes, b, e) ==
            UsesIn(includes, b, LibraryIndex.Entry(e.name, LibraryIndex.Usage(source, e.usage.line, e.usage.column)))
  {
    if includes != [] {
      UsesIgnoreOwner(includes[1..], b, e, source);
    }
  }

  /** The usage `e` as one of the file `p`. */
  function OwnedBy(root: string, p: string, e: LibraryIndex.Entry): (r: LibraryIndex.Entry)
    requires UnderRoot(root, p)
    ensures Owner(root, r) == p
  {
    assert p == p[..|root| + 1] + p[|root| + 1..];
    LibraryIndex.Entry(e.name, LibraryIndex.Usage(p[|root| + 1..], e.usage.line, e.usage.column))
  }

  lemma UsesHold(s: Step, p: string, b: nat, e: LibraryIndex.Entry)
    requires s.Grounded() && Agrees(s.tool, s.after, s.Result()) && Readable(s.after, p).Some?
    requires b < LibraryIndex.BUCKET_COUNT
    ensures p in s.Goals() ==>
              UsesIn(ScanAnalysis(s.tool, s.after, Readable(s.after, p).value).includes, b, e) ==
              UsesIn(IndexAnalysis(s.tool, s.after, Readable(s.after, p).value).includes, b, e)
    ensures p !in s.Goals() ==>
              Readable(s.before, p).Some?
              && UsesIn(IndexAnalysis(s.was, s.before, Readable(s.before, p).value).includes, b, e) ==
                 UsesIn(IndexAnalysis(s.tool, s.after, Readable(s.after, p).value).includes, b, e)
  {
    FilesAreUnderRoot(s.after, p);
    var own := OwnedBy(s.after.root, p, e);
    var now := Readable(s.after, p).value;
    IncrementalCount(s, b, own);
    UsesIgnoreOwner(IndexAnalysis(s.tool, s.after, now).includes, b, e, own.usage.source);
    assert LibraryIndex.Count(s.Result().index, b, own) == ExpectedUses(s.tool, s.after, b, own);
    if p in s.Goals() {
      UsesIgnoreOwner(ScanAnalysis(s.tool, s.after, now).includes, b, e, own.usage.source);
    } else {
      UntouchedReadable(s, p);
      UsesIgnoreOwner(IndexAnalysis(s.was, s.before, Readable(s.before, p).value).includes, b, e, own.usage.source);
    }
  }

  lemma RowsHold(s: Step, p: string)
    requires s.Grounded() && Agrees(s.tool, s.after, s.Result())
    requires Readable(s.after, p).Some? && p !in s.Goals() && Readable(s.before, p).Some?
    ensures var was, now := Readable(s.before, p).value, Readable(s.after, p).value;
            && ScanAnalysis(s.was, s.before, was).diagnostics == ScanAnalysis(s.tool, s.after, now).diagnostics
            && IncludeGraph.RecordedDeps(ScanAnalysis(s.was, s.before, was).includes, s.before.root) ==
               IncludeGraph.RecordedDeps(ScanAnalysis(s.tool, s.after, now).includes, s.after.root)
  {
    IncrementalAt(s, p);
    UntouchedReadable(s, p);
    assert RecencyStore.Content(s.Result().diags, p) == ExpectedDiagnostics(s.tool, s.after, p);
    assert Lookup(s.Result().graph.rows, p) == ExpectedDeps(s.tool, s.after, p);
  }

  lemma StaysReadableIfAgrees(s: Step, p: string)
    requires s.Grounded() && Agrees(s.tool, s.after, s.Result())
    ensures StaysReadable(s.before, s.after, p)
  {
    assert RecencyStore.Content(s.Result().diags, p) == ExpectedDiagnostics(s.tool, s.after, p);
    if !StaysReadable(s.before, s.after, p) {
      StaleIfUnreadable(s, p);
    }
  }

  lemma TargetHolds(s: Step, p: string)
    requires s.Grounded() && Agrees(s.tool, s.after, s.Result()) && p in s.Goals()
    ensures PassesMatch(s, p)
  {
    if Readable(s.after, p).Some? {
      forall b, e | 0 <= b < LibraryIndex.BUCKET_COUNT { UsesHold(s, p, b, e); }
    }
  }

  lemma OtherHolds(s: Step, p: string)
    requires s.Grounded() && Agrees(s.tool, s.after, s.Result()) && p !in s.Goals()
    ensures RecordHolds(s, p)
  {
    if Readable(s.after, p).Some? && Readable(s.before, p).Some? {
      forall b, e | 0 <= b < LibraryIndex.BUCKET_COUNT { UsesHold(s, p, b, e); }
      RowsHold(s, p);
    }
  }

  lemma AllHoldIfAgrees(s: Step, p: string)
    requires s.Grounded() && Agrees(s.tool, s.after, s.Result())
    ensures StaysReadable(s.before, s.after, p) && Holds(s, p)
  {
    StaysReadableIfAgrees(s, p);
    if p in s.Goals() { TargetHolds(s, p); } else { OtherHolds(s, p); }
  }

  /** Exactly when the result agrees, file by file and for the frontend at hand. */
  lemma AgreesIffAllHold(s: Step)
    requires s.Grounded()
    ensures Agrees(s.tool, s.after, s.Result()) <==>
            NoneBecameUnreadable(s.before, s.after) && forall p :: Holds(s, p)
  {
    if Agrees(s.tool, s.after, s.Result()) {
      forall p { AllHoldIfAgrees(s, p); }
    } else if NoneBecameUnreadable(s.before, s.after) && forall p :: Holds(s, p) {
      AgreesIfAllHold(s);
    }
  }

  // ---------------------------------------------------------------------------------------
  // The frame condition, and the main results.

  /** A watched file that is neither dirty nor an includer of a changed file is unchanged. */
  lemma UntouchedContents(s: Step, p: string)
    requires s.Grounded() && p !in s.Dirty() && p !in s.Deleted()
    requires Lookup(Sources(s.before), p).Some? || Lookup(Sources(s.after), p).Some?
    ensures Lookup(Files(s.before), p).Some? && Lookup(Files(s.after), p).Some?
    ensures Lookup(Files(s.before), p).value.contents == Lookup(Files(s.after), p).value.contents
  {
    DiffOfWorkspaces(s.before, s.after, s.cached, s.current, p);
  }

  lemma IncludesOfTargets(s: Step, p: string, d: string)
    requires s.Grounded() && DepsAreWatched(s.was, s.before)
    requires Readable(s.before, p).Some? && p !in s.Goals() && p !in s.Deleted()
    requires d in ExpectedDeps(s.was, s.before, p).value
    ensures d in Disk(Files(s.before)) && d in Disk(Files(s.after))
    ensures Disk(Files(s.before))[d] == Disk(Files(s.after))[d]
  {
    FilesAreUnderRoot(s.before, p);
    TargetsExact(s.st.graph.rows, s.cached, s.current, s.hints, p);
    assert Lookup(s.st.graph.rows, p) == ExpectedDeps(s.was, s.before, p);
    assert d != "";
    assert Lookup(Sources(s.before), d).Some?;
    UntouchedContents(s, d);
  }

  lemma SameAnswer(analyze: (Flags, string, map<string, string>) -> Analysis, root: string, probes: bool,
                   flags: Flags, p: string, c1: map<string, string>, c2: map<string, string>)
    requires Framed(analyze, root, probes) && (probes ==> c1.Keys == c2.Keys)
    requires p in c1 && p in c2 && c1[p] == c2[p]
    requires forall d :: d in IncludeGraph.RecordedDeps(analyze(flags, p, c1).includes, root) ==>
                           d in c1 && d in c2 && c1[d] == c2[d]
    ensures analyze(flags, p, c1) == analyze(flags, p, c2)
  {
  }

  lemma RecordedIncludesStay(s: Step, p: string)
    requires s.Grounded() && DepsAreWatched(s.was, s.before)
    requires Readable(s.before, p).Some? && p !in s.Goals() && p !in s.Deleted()
    ensures forall d :: d in IncludeGraph.RecordedDeps(
              ScanAnalysis(s.was, s.before, Readable(s.before, p).value).includes, s.before.root) ==>
              d in Disk(Files(s.before)) && d in Disk(Files(s.after))
              && Disk(Files(s.before))[d] == Disk(Files(s.after))[d]
  {
    forall d | d in ExpectedDeps(s.was, s.before, p).value
      ensures d in Disk(Files(s.before)) && d in Disk(Files(s.after))
              && Disk(Files(s.before))[d] == Disk(Files(s.after))[d]
    {
      IncludesOfTargets(s, p, d);
    }
  }

  /** The answer recorded for a file that is no target is still the frontend's answer, under
      the flags it was given then. */
  lemma UntouchedAnswer(s: Step, p: string, probes: bool)
    requires s.Sound(probes) && p !in s.Goals() && Readable(s.after, p).Some?
    requires probes ==> Disk(Files(s.before)).Keys == Disk(Files(s.after)).Keys
    ensures Readable(s.before, p).Some?
    ensures ScanAnalysis(s.was, s.before, Readable(s.before, p).value) ==
            s.tool.analyze(ScanFlags(s.was, s.before, Readable(s.after, p).value.value.contents), p,
                           Disk(Files(s.after)))
  {
    UntouchedReadable(s, p);
    RecordedIncludesStay(s, p);
    SameAnswer(s.tool.analyze, s.before.root, probes,
               ScanFlags(s.was, s.before, Readable(s.before, p).value.value.contents), p,
               Disk(Files(s.before)), Disk(Files(s.after)));
  }

  /** Without a missed request the two passes ask the same of the frontend. */
  lemma PassesAskTheSame(tool: Tool, ws: Workspace, p: string)
    requires Readable(ws, p).Some? && !Missed(tool.given, ws, p)
    ensures ScanFlags(tool, ws, Readable(ws, p).value.value.contents) == BaseFlags(tool.given, ws)
    ensures ScanAnalysis(tool, ws, Readable(ws, p).value) == IndexAnalysis(tool, ws, Readable(ws, p).value)
  {
  }

  lemma IdleHasNoGoals(s: Step)
    requires s.Grounded() && s.Dirty() == [] && s.Deleted() == []
    ensures s.Goals() == []
  {
    HintsAddNothing(s.cached, s.current, s.hints);
    assert PathList.AddedAll([], []) == [];
  }

  lemma SameQuestion(was: Tool, before: Workspace, tool: Tool, after: Workspace, a: Visited, b: Visited)
    requires was.analyze == tool.analyze && BaseFlags(was.given, before) == BaseFlags(tool.given, after)
    requires Disk(Files(before)) == Disk(Files(after)) && a.path == b.path && a.value.contents == b.value.contents
    ensures ScanAnalysis(was, before, a) == ScanAnalysis(tool, after, b)
    ensures IndexAnalysis(was, before, a) == IndexAnalysis(tool, after, b)
  {
  }

  lemma IdleHolds(s: Step, p: string)
    requires s.Grounded() && s.was.analyze == s.tool.analyze
    requires Idle(s.was.given, s.before, s.cached, s.tool.given, s.after, s.current)
    ensures Holds(s, p)
  {
    IdleHasNoGoals(s);
    UntouchedReadable(s, p);
    if Readable(s.after, p).Some? {
      SameQuestion(s.was, s.before, s.tool, s.after, Readable(s.before, p).value, Readable(s.after, p).value);
    }
  }

  lemma SteadyHolds(s: Step, p: string, probes: bool)
    requires s.Sound(probes)
    requires Readable(s.after, p).Some? ==>
               SteadyAt(s.was.given, s.before, s.cached, s.tool.given, s.after, s.current, probes, p)
    ensures Holds(s, p)
  {
    if Readable(s.after, p).Some? {
      PassesAskTheSame(s.tool, s.after, p);
      if p !in s.Goals() {
        UntouchedReadable(s, p);
        UntouchedAnswer(s, p, probes);
        assert !Missed(s.was.given, s.before, p);
        PassesAskTheSame(s.was, s.before, p);
      }
    }
  }

  /** Main result, one run: when every file is steady, an incremental run leaves the
      diagnostics, the include graph and the library index as a full scan would, exactly when no
      analysed file has become one the scan passes over. */
  lemma IncrementalRefinesFull(s: Step, probes: bool)
    requires s.Sound(probes) && s.IsSteady(probes)
    ensures Agrees(s.tool, s.after, s.Result()) <==> NoneBecameUnreadable(s.before, s.after)
  {
    forall p
      ensures Holds(s, p)
    {
      if Idle(s.was.given, s.before, s.cached, s.tool.given, s.after, s.current) {
        IdleHolds(s, p);
      } else {
        SteadyHolds(s, p, probes);
      }
    }
    AgreesIffAllHold(s);
  }

  ghost predicate NoneMissed(given: Flags, ws: Workspace) {
    forall p :: !Missed(given, ws, p)
  }

  /** The frontend would record the same for `p` under the old flags as under the new. */
  ghost predicate SameUnderBothFlags(s: Step, p: string) {
    SameRecord(s.tool.analyze(BaseFlags(s.was.given, s.before), p, Disk(Files(s.after))),
               s.tool.analyze(BaseFlags(s.tool.given, s.after), p, Disk(Files(s.after))), s.after.root)
  }

  /** For a frontend that probes for files, that none was created or deleted. */
  ghost predicate SameFilesIfProbed(s: Step, probes: bool) {
    probes ==> Disk(Files(s.before)).Keys == Disk(Files(s.after)).Keys
  }

  lemma RecordUnderNewFlags(s: Step, p: string, probes: bool)
    requires s.Sound(probes) && SameFilesIfProbed(s, probes)
    requires !Missed(s.was.given, s.before, p) && !Missed(s.tool.given, s.after, p)
    requires p !in s.Goals() && Readable(s.after, p).Some?
    ensures RecordHolds(s, p) <==> SameUnderBothFlags(s, p)
  {
    UntouchedReadable(s, p);
    UntouchedAnswer(s, p, probes);
    PassesAskTheSame(s.was, s.before, p);
    PassesAskTheSame(s.tool, s.after, p);
  }

  lemma HoldsUnderNewFlags(s: Step, p: string, probes: bool)
    requires s.Sound(probes) && SameFilesIfProbed(s, probes)
    requires !Missed(s.was.given, s.before, p) && !Missed(s.tool.given, s.after, p)
    ensures Holds(s, p) <==> (Readable(s.after, p).Some? && p !in s.Goals() ==> SameUnderBothFlags(s, p))
  {
    if Readable(s.after, p).Some? {
      PassesAskTheSame(s.tool, s.after, p);
      if p !in s.Goals() {
        RecordUnderNewFlags(s, p, probes);
      }
    }
  }

  /** When the flags change: agreement holds exactly when, besides, the frontend records the
      same under the old flags as under the new for every readable file that is no target. */
  lemma ChangedFlagsExact(s: Step, probes: bool)
    requires s.Sound(probes) && SameFilesIfProbed(s, probes)
    requires NoneMissed(s.was.given, s.before) && NoneMissed(s.tool.given, s.after)
    ensures Agrees(s.tool, s.after, s.Result()) <==>
            && NoneBecameUnreadable(s.before, s.after)
            && forall p :: Readable(s.after, p).Some? && p !in s.Goals() ==> SameUnderBothFlags(s, p)
  {
    forall p
      ensures Holds(s, p) <==> (Readable(s.after, p).Some? && p !in s.Goals() ==> SameUnderBothFlags(s, p))
    {
      HoldsUnderNewFlags(s, p, probes);
    }
    AgreesIffAllHold(s);
  }

  // ---------------------------------------------------------------------------------------
  // Whole runs, and sequences of runs.

  /** One run's tool and workspace, and everything the environment chooses for it. */
  datatype Run = Run(tool: Tool, ws: Workspace, forceFull: bool, hints: seq<string>, symbolsEmpty: bool,
                     current: seq<Fingerprint>, scanOrder: seq<Visited>, indexOrder: seq<Visited>)
  {
    ghost predicate Possible() {
      && ws.root != "" && WellFormed(ws.entries) && NothingHidden(ws) && IsSnapshot(current, ws)
      && multiset(scanOrder) == multiset(Filter(Files(ws), ShouldAnalyze))
      && indexOrder == LibraryFiles(ws.root, ws.entries, 0)
    }

    function After(st: Stores, saved: Option<seq<Fingerprint>>): (r: Stores)
      requires Shaped(st)
      ensures Shaped(r)
    {
      WorkspaceRun(tool, ws, st, saved, current, forceFull, hints, symbolsEmpty, scanOrder, indexOrder)
    }

    /** Whether the run ends up doing the full scan. */
    predicate IsFull(st: Stores, saved: Option<seq<Fingerprint>>)
      requires Shaped(st)
    {
      forceFull || saved.None?
      || IncrementalScan(tool, ws, st, saved.value, current, hints, symbolsEmpty).Fallback?
    }

    /** The same frontend as in the run before, its includes watched, on the next disk. */
    ghost predicate Continues(was: Tool, before: Workspace, probes: bool) {
      && Follows(before, ws) && DepsAreWatched(was, before)
      && was.analyze == tool.analyze && Framed(tool.analyze, before.root, probes)
    }

    ghost predicate IsSteady(was: Flags, before: Workspace, cached: seq<Fingerprint>, probes: bool) {
      Steady(was, before, cached, tool.given, ws, current, probes)
    }
  }

  /** A run that falls back repairs everything, even files that became unreadable. */
  lemma FullRunAgrees(st: Stores, saved: Option<seq<Fingerprint>>, run: Run)
    requires Consistent(st, st.index.root) && run.Possible() && run.IsFull(st, saved)
    ensures Agrees(run.tool, run.ws, run.After(st, saved))
  {
    if run.forceFull || saved.None? {
      FullScanAgrees(run.tool, run.ws, st, run.scanOrder, run.indexOrder);
    } else {
      var st' := IncrementalScan(run.tool, run.ws, st, saved.value, run.current, run.hints, run.symbolsEmpty).stores;
      FallbackConsistent(st, saved.value, run);
      FullScanAgrees(run.tool, run.ws, st', run.scanOrder, run.indexOrder);
    }
  }

  lemma FallbackConsistent(st: Stores, cached: seq<Fingerprint>, run: Run)
    requires Consistent(st, st.index.root)
    requires IncrementalScan(run.tool, run.ws, st, cached, run.current, run.hints, run.symbolsEmpty).Fallback?
    ensures LibraryIndex.Valid(
              IncrementalScan(run.tool, run.ws, st, cached, run.current, run.hints, run.symbolsEmpty).stores.index)
  {
    DroppedAllAt(st, st.index.root, Merge(cached, run.current).1, "");
  }

  /** The paths stores that agree have rows for, by name and contents: the walked sources of at
      most 33554432 bytes that are no generated `.c` file. Any usage belongs to one of them. */
  lemma RowsExactly(tool: Tool, ws: Workspace, st: Stores, p: string)
    requires Agrees(tool, ws, st) && WellFormed(ws.entries)
    ensures var seen := exists info :: && Row(p, info) in Files(ws)
                                       && |p| >= 2 && p[|p| - 2] == '.' && p[|p| - 1] in {'c', 'C', 'h', 'H'}
                                       && |info.contents| <= 33_554_432
                                       && !(p[|p| - 1] in {'c', 'C'}
                                            && "/* C code produced by gperf version" <= info.contents);
            && (RecencyStore.Content(st.diags, p).Some? <==> seen)
            && (Lookup(st.graph.rows, p).Some? <==> seen)
            && (forall b, e :: 0 <= b < LibraryIndex.BUCKET_COUNT && Owner(ws.root, e) == p ==>
                                 LibraryIndex.Count(st.index, b, e) == 0 || seen)
  {
    WalkIsDistinct(ws.root, ws.entries, 0, true);
    assert RecencyStore.Content(st.diags, p) == ExpectedDiagnostics(tool, ws, p);
    assert Lookup(st.graph.rows, p) == ExpectedDeps(tool, ws, p);
    forall info | Row(p, info) in Files(ws)
      ensures Lookup(Files(ws), p) == Some(info)
      ensures Analyzable(Row(p, info)) <==> IsSeen(p, info.contents)
    {
      LookupOfMember(Files(ws), Row(p, info));
      SourcesExactly(ws, Row(p, info));
    }
    if Readable(ws, p).Some? {
      assert Row(p, Readable(ws, p).value.value) in Files(ws);
    }
  }

  /** So a full run has rows for those paths and for no other. */
  lemma FullRunRows(st: Stores, saved: Option<seq<Fingerprint>>, run: Run, p: string)
    requires Consistent(st, st.index.root) && run.Possible() && run.IsFull(st, saved)
    ensures RecencyStore.Content(run.After(st, saved).diags, p).Some? <==>
            exists info :: Row(p, info) in Files(run.ws) && IsSeen(p, info.contents)
  {
    FullRunAgrees(st, saved, run);
    RowsExactly(run.tool, run.ws, run.After(st, saved), p);
  }

  /** One uncancelled run of a steady workspace keeps the stores in agreement with the disk
      exactly when it was a full one or no analysed file became one the scan passes over. */
  lemma RunKeepsAgreement(was: Tool, before: Workspace, st: Stores, cached: seq<Fingerprint>, run: Run, probes: bool)
    requires Agrees(was, before, st) && IsSnapshot(cached, before)
    requires run.Possible() && run.Continues(was, before, probes)
    requires run.IsFull(st, Some(cached)) || run.IsSteady(was.given, before, cached, probes)
    ensures Agrees(run.tool, run.ws, run.After(st, Some(cached))) <==>
            run.IsFull(st, Some(cached)) || NoneBecameUnreadable(before, run.ws)
  {
    if run.IsFull(st, Some(cached)) {
      FullRunAgrees(st, Some(cached), run);
    } else {
      IncrementalRefinesFull(Step(was, run.tool, before, run.ws, st, cached, run.current, run.hints), probes);
    }
  }

  function AfterAll(st: Stores, saved: Option<seq<Fingerprint>>, runs: seq<Run>): Stores
    requires Shaped(st)
    decreases runs
  {
    if runs == [] then st
    else AfterAll(runs[0].After(st, saved), Some(runs[0].current), runs[1..])
  }

  lemma AfterAllStep(st: Stores, saved: Option<seq<Fingerprint>>, runs: seq<Run>)
    requires Shaped(st) && runs != []
    ensures AfterAll(st, saved, runs) == AfterAll(runs[0].After(st, saved), Some(runs[0].current), runs[1..])
    ensures |runs| == 1 ==> AfterAll(st, saved, runs) == runs[0].After(st, saved)
  {
  }

  lemma FirstRunAgrees(st: Stores, run: Run)
    requires Consistent(st, st.index.root) && run.Possible()
    ensures Agrees(run.tool, run.ws, run.After(st, None))
  {
    FullRunAgrees(st, None, run);
  }

  /** What a caller checks before the next run: it is forced to be full, or every file is
      steady and none became unreadable. */
  ghost predicate Safe(was: Tool, before: Workspace, cached: seq<Fingerprint>, run: Run, probes: bool) {
    && run.Possible() && run.Continues(was, before, probes)
    && (run.forceFull
        || (run.IsSteady(was.given, before, cached, probes) && NoneBecameUnreadable(before, run.ws)))
  }

  lemma NextRunAgrees(was: Tool, before: Workspace, st: Stores, cached: seq<Fingerprint>, run: Run, probes: bool)
    requires Agrees(was, before, st) && IsSnapshot(cached, before) && Safe(was, before, cached, run, probes)
    ensures Agrees(run.tool, run.ws, run.After(st, Some(cached)))
  {
    RunKeepsAgreement(was, before, st, cached, run, probes);
  }

  /** Consecutive runs, each safe after the one before. */
  ghost predicate Chain(was: Tool, before: Workspace, cached: seq<Fingerprint>, runs: seq<Run>, probes: bool)
    decreases runs
  {
    runs == []
    || (Safe(was, before, cached, runs[0], probes)
        && Chain(runs[0].tool, runs[0].ws, runs[0].current, runs[1..], probes))
  }

  lemma ChainHead(was: Tool, before: Workspace, cached: seq<Fingerprint>, runs: seq<Run>, probes: bool)
    requires runs != [] && Chain(was, before, cached, runs, probes)
    ensures Safe(was, before, cached, runs[0], probes) && IsSnapshot(runs[0].current, runs[0].ws)
    ensures Chain(runs[0].tool, runs[0].ws, runs[0].current, runs[1..], probes)
    ensures |runs| > 1 ==> runs[1..] != [] && runs[1..][|runs| - 2] == runs[|runs| - 1]
  {
  }

  lemma {:induction false} ChainAgrees(was: Tool, before: Workspace, st: Stores, cached: seq<Fingerprint>,
                                       runs: seq<Run>, probes: bool)
    requires Agrees(was, before, st) && IsSnapshot(cached, before)
    requires runs != [] && Chain(was, before, cached, runs, probes)
    ensures Agrees(runs[|runs| - 1].tool, runs[|runs| - 1].ws, AfterAll(st, Some(cached), runs))
    decreases runs
  {
    ChainHead(was, before, cached, runs, probes);
    NextRunAgrees(was, before, st, cached, runs[0], probes);
    AfterAllStep(st, Some(cached), runs);
    if |runs| > 1 {
      ChainAgrees(runs[0].tool, runs[0].ws, runs[0].After(st, Some(cached)), runs[0].current, runs[1..], probes);
    }
  }

  lemma LastOfRest<T>(runs: seq<T>)
    requires |runs| > 1
    ensures runs[1..][|runs[1..]| - 1] == runs[|runs| - 1]
  {
  }

  /** Main result, all runs: with no snapshot saved, whatever the stores hold at first, after
      any number of safe runs they are what a full scan of the last workspace gives. */
  lemma EveryRunAgrees(st: Stores, runs: seq<Run>, probes: bool)
    requires Consistent(st, st.index.root)
    requires runs != [] && runs[0].Possible()
    requires Chain(runs[0].tool, runs[0].ws, runs[0].current, runs[1..], probes)
    ensures Agrees(runs[|runs| - 1].tool, runs[|runs| - 1].ws, AfterAll(st, None, runs))
  {
    var first, rest := runs[0], runs[1..];
    FirstRunAgrees(st, first);
    AfterAllStep(st, None, runs);
    if |runs| > 1 {
      LastOfRest(runs);
      RestAgrees(first, first.After(st, None), rest, probes);
    }
  }

  lemma RestAgrees(first: Run, st: Stores, rest: seq<Run>, probes: bool)
    requires Agrees(first.tool, first.ws, st) && first.Possible() && rest != []
    requires Chain(first.tool, first.ws, first.current, rest, probes)
    ensures Agrees(rest[|rest| - 1].tool, rest[|rest| - 1].ws, AfterAll(st, Some(first.current), rest))
  {
    ChainAgrees(first.tool, first.ws, st, first.current, rest, probes);
  }
}
