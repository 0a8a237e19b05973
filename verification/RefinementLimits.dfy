/** Why the conditions of the refinement cannot be dropped: exactly which changes every frontend
    survives, and three complete runs that go wrong. */
module RefinementLimits {
  import opened CStrings
  import opened PathTable
  import opened Filters
  import opened Frontend
  import opened Snapshot
  import opened WorkspaceTree
  import opened BuildFlags
  import opened AnalysisJob
  import opened Refinement
  import PathList
  import RecencyStore
  import IncludeGraph
  import LibraryIndex

  type Analyzer = (Flags, string, map<string, string>) -> Analysis

  function Nothing(): (st: Stores)
    ensures Shaped(st)
  {
    Stores(RecencyStore.State([], 0), IncludeGraph.State([], 0), LibraryIndex.Begun(""))
  }

  /** The stores a full scan fills, with both passes in one order. */
  function Filled(tool: Tool, ws: Workspace): (st: Stores)
    ensures Shaped(st)
  {
    var order := Filter(Files(ws), ShouldAnalyze);
    FullScan(tool, ws, Nothing(), order, order)
  }

  lemma FilledIndex(tool: Tool, ws: Workspace, b: nat, e: LibraryIndex.Entry)
    requires ws.root != "" && WellFormed(ws.entries) && b < LibraryIndex.BUCKET_COUNT
    ensures LibraryIndex.Valid(Filled(tool, ws).index) && Filled(tool, ws).index.root == ws.root
    ensures LibraryIndex.Count(Filled(tool, ws).index, b, e) == ExpectedUses(tool, ws, b, e)
  {
    var order := Filter(Files(ws), ShouldAnalyze);
    OrderedIndex(tool, ws, order, b, e);
    LibraryIndex.FinalizedCorrect(IndexedAll(tool, ws, LibraryIndex.Begun(ws.root), order), b, e);
  }

  lemma FilledAgrees(tool: Tool, ws: Workspace)
    requires ws.root != "" && WellFormed(ws.entries)
    ensures Agrees(tool, ws, Filled(tool, ws))
  {
    var order := Filter(Files(ws), ShouldAnalyze);
    FullScanAt(tool, ws, Nothing(), order, order, "");
    FilledIndex(tool, ws, 0, LibraryIndex.Entry("", LibraryIndex.Usage("", 0, 0)));
    forall p { FullScanAt(tool, ws, Nothing(), order, order, p); }
    forall b, e | 0 <= b < LibraryIndex.BUCKET_COUNT { FilledIndex(tool, ws, b, e); }
  }

  // ---------------------------------------------------------------------------------------
  // Whenever the files are not steady, some frontend goes wrong.

  /** Two states of one workspace, the flags given to the run on each, and the snapshots. */
  datatype Change = Change(was: Flags, before: Workspace, cached: seq<Fingerprint>,
                           given: Flags, after: Workspace, current: seq<Fingerprint>)
  {
    ghost predicate Possible() {
      Follows(before, after) && IsSnapshot(cached, before) && IsSnapshot(current, after)
    }

    ghost predicate IsSteady(probes: bool) {
      Steady(was, before, cached, given, after, current, probes)
    }

    /** The incremental run over this change, after a full scan of the old state. */
    function With(analyze: Analyzer, hints: seq<string>): Step {
      var tool := Tool(analyze, was);
      Step(tool, Tool(analyze, given), before, after, Filled(tool, before), cached, current, hints)
    }
  }

  // What the incremental scan does with a change.

  /** The changes after which every run is a full one: nothing differs between two snapshots that
      are not empty, and no symbols are recorded or no file was readable; or a header is in the
      diff and no file was readable. */
  ghost predicate AlwaysFull(c: Change, symbolsEmpty: bool) {
    var (dirty, removed) := Merge(c.cached, c.current);
    || (dirty == [] && removed == [] && c.current != [] && (symbolsEmpty || NoneReadable(c.before)))
    || ((HasHeader(dirty) || HasHeader(removed)) && NoneReadable(c.before))
  }

  ghost predicate NoneReadable(ws: Workspace) {
    forall p :: Readable(ws, p).None?
  }

  function ScanOutcome(s: Step, symbolsEmpty: bool): Outcome
    requires Shaped(s.st)
  {
    IncrementalScan(s.tool, s.after, s.st, s.cached, s.current, s.hints, symbolsEmpty)
  }

  lemma NoEmptyPaths(s: Step)
    requires s.Grounded()
    ensures "" !in s.Dirty() && "" !in s.Deleted() && Lookup(s.st.graph.rows, "").None?
  {
    DiffOfWorkspaces(s.before, s.after, s.cached, s.current, "");
    SourceLookup(s.before, "");
    SourceLookup(s.after, "");
    if Lookup(Files(s.before), "").Some? { FilesAreUnderRoot(s.before, ""); }
    if Lookup(Files(s.after), "").Some? { FilesAreUnderRoot(s.after, ""); }
    assert Lookup(s.st.graph.rows, "") == ExpectedDeps(s.was, s.before, "");
  }

  lemma SeedsHaveHeader(s: Step)
    requires s.Grounded()
    ensures HasHeader(Seeds(s.cached, s.current, s.Dirty(), s.hints)) <==> HasHeader(s.Dirty())
  {
    var dirty, seeds := s.Dirty(), Seeds(s.cached, s.current, s.Dirty(), s.hints);
    NoEmptyPaths(s);
    HintsAddNothing(s.cached, s.current, s.hints);
    assert forall i :: 0 <= i < |dirty| ==> dirty[i] in seeds;
    assert forall i :: 0 <= i < |seeds| ==> seeds[i] in dirty;
  }

  lemma NoRowsIffNoneReadable(s: Step)
    requires s.Grounded()
    ensures s.st.graph.rows == [] <==> NoneReadable(s.before)
    ensures s.st.diags.rows == [] <==> NoneReadable(s.before)
  {
    var rows, diags := s.st.graph.rows, s.st.diags.rows;
    forall p
      ensures Lookup(rows, p).Some? <==> Readable(s.before, p).Some?
      ensures Lookup(diags, p).Some? <==> Readable(s.before, p).Some?
    {
      assert Lookup(rows, p) == ExpectedDeps(s.was, s.before, p);
      assert RecencyStore.Content(s.st.diags, p) == ExpectedDiagnostics(s.was, s.before, p);
    }
    assert rows != [] ==> Lookup(rows, rows[0].path).Some?;
    assert diags != [] ==> Lookup(diags, diags[0].path).Some?;
  }

  /** With a row for every readable file no collected includer is nameless. */
  lemma NoEmptyDependent(s: Step, changed: seq<string>)
    requires s.Grounded()
    ensures "" !in DependentsOfAll(s.st.graph.rows, changed)
  {
    NoEmptyPaths(s);
    DependentsOfAllExact(s.st.graph.rows, changed, "");
    forall d { IncludeGraph.DependentsExact(s.st.graph.rows, d, ""); }
  }

  predicate FallsBack(s: Step, symbolsEmpty: bool) {
    || (s.Dirty() == [] && s.Deleted() == [] && BaselineInvalid(s.st, s.current, symbolsEmpty))
    || (s.st.graph.rows == [] && (HasHeader(s.Dirty()) || HasHeader(s.Deleted())))
  }

  lemma OutcomeDecided(s: Step, symbolsEmpty: bool)
    requires s.Grounded()
    ensures if FallsBack(s, symbolsEmpty) then ScanOutcome(s, symbolsEmpty).Fallback?
            else ScanOutcome(s, symbolsEmpty) == Done(s.Result())
  {
    var seeds := Seeds(s.cached, s.current, s.Dirty(), s.hints);
    NoEmptyPaths(s);
    SeedsHaveHeader(s);
    NoEmptyDependent(s, seeds);
    NoEmptyDependent(s, s.Deleted());
  }

  lemma BaselineByStores(s: Step, symbolsEmpty: bool)
    requires s.Grounded()
    ensures BaselineInvalid(s.st, s.current, symbolsEmpty) <==>
            && s.current != []
            && (s.st.diags.rows == [] || symbolsEmpty || s.st.index.buckets == [[], [], [], []])
  {
    var buckets := s.st.index.buckets;
    assert |buckets| == 4;
    if buckets != [[], [], [], []] {
      assert buckets[0] != [] || buckets[1] != [] || buckets[2] != [] || buckets[3] != [];
    }
  }

  /** What decides between the incremental outcome and the fallback: with nothing in the diff, an
      empty store, whether of diagnostics, of symbols or of included headers; with a header in the
      diff, an empty include graph. */
  lemma OutcomeExact(s: Step, symbolsEmpty: bool)
    requires s.Grounded()
    ensures var idle := s.Dirty() == [] && s.Deleted() == [] && s.current != [];
            var empty := s.st.diags.rows == [] || symbolsEmpty || s.st.index.buckets == [[], [], [], []];
            var header := exists p :: (p in s.Dirty() || p in s.Deleted())
                                      && |p| >= 2 && p[|p| - 2] == '.' && p[|p| - 1] == 'h';
            if (idle && empty) || (header && s.st.graph.rows == []) then ScanOutcome(s, symbolsEmpty).Fallback?
            else ScanOutcome(s, symbolsEmpty) == Done(s.Result())
  {
    OutcomeDecided(s, symbolsEmpty);
    BaselineByStores(s, symbolsEmpty);
    HeaderByLastBytes(s.Dirty());
    HeaderByLastBytes(s.Deleted());
  }

  lemma AlwaysFullFallsBack(c: Change, analyze: Analyzer, hints: seq<string>, symbolsEmpty: bool)
    requires c.Possible() && AlwaysFull(c, symbolsEmpty)
    ensures ScanOutcome(c.With(analyze, hints), symbolsEmpty).Fallback?
  {
    var s := c.With(analyze, hints);
    StepIsGrounded(c, analyze, hints);
    NoRowsIffNoneReadable(s);
    OutcomeDecided(s, symbolsEmpty);
  }

  lemma UsedMeansIndexed(st: Stores, b: nat, e: LibraryIndex.Entry)
    requires Shaped(st) && b < LibraryIndex.BUCKET_COUNT && LibraryIndex.Count(st.index, b, e) > 0
    ensures exists i :: 0 <= i < |st.index.buckets| && st.index.buckets[i] != []
  {
    assert st.index.buckets[b] != [];
  }

  /** An analysed file with a recorded include makes the stores a baseline. */
  lemma BaselineHolds(s: Step, p: string, b: nat, e: LibraryIndex.Entry)
    requires s.Grounded() && b < LibraryIndex.BUCKET_COUNT && Owner(s.before.root, e) == p
    requires Readable(s.before, p).Some? && ExpectedUses(s.was, s.before, b, e) > 0
    ensures !BaselineInvalid(s.st, s.current, false) && s.st.graph.rows != []
  {
    assert RecencyStore.Content(s.st.diags, p) == ExpectedDiagnostics(s.was, s.before, p);
    assert LibraryIndex.Count(s.st.index, b, e) == ExpectedUses(s.was, s.before, b, e);
    UsedMeansIndexed(s.st, b, e);
    NoRowsIffNoneReadable(s);
  }

  // Frontends that go wrong. Each leaves a trace in the library index before the change.

  const UNITS := Include("units.h", "", SystemInclude, System, 1, 1)
  const STD := Include("std.h", "", SystemInclude, System, 1, 1)

  function StdUse(root: string, p: string): (e: LibraryIndex.Entry)
    requires UnderRoot(root, p)
    ensures Owner(root, e) == p
  {
    OwnedBy(root, p, LibraryIndex.Entry("std.h", LibraryIndex.Usage("", 1, 1)))
  }

  function UnitsUse(c: Change, p: string): (e: LibraryIndex.Entry)
    requires UnderRoot(c.after.root, p)
    ensures Owner(c.after.root, e) == p
  {
    OwnedBy(c.after.root, p, LibraryIndex.Entry("units.h", LibraryIndex.Usage("", 1, 1)))
  }

  lemma UnitsCount(rest: seq<Include>, e: LibraryIndex.Entry)
    requires e.name == "units.h" && e.usage.line == 1 && e.usage.column == 1
    ensures UsesIn([UNITS] + rest, 1, e) == 1 + UsesIn(rest, 1, e)
    ensures UsesIn([], 1, e) == 0
  {
    assert ([UNITS] + rest)[1..] == rest;
  }

  lemma StepIsGrounded(c: Change, analyze: Analyzer, hints: seq<string>)
    requires c.Possible()
    ensures c.With(analyze, hints).Grounded()
  {
    FilledAgrees(Tool(analyze, c.was), c.before);
  }

  /** A frontend that includes `std.h`, and before it `units.h` exactly where `mark` says. */
  function Marked(mark: (Flags, string, map<string, string>) -> bool): Analyzer {
    (flags, path, disk) => Analysis([], (if mark(flags, path, disk) then [UNITS] else []) + [STD])
  }

  lemma UnitsAreForeign(root: string)
    ensures IncludeGraph.RecordedDeps([UNITS], root) == [] && IncludeGraph.RecordedDeps([], root) == []
  {
    assert [UNITS][..0] == [];
  }

  lemma MarkedRecordsNothing(some: seq<Include>, root: string)
    requires some == [] || some == [UNITS]
    ensures IncludeGraph.RecordedDeps(some + [STD], root) == []
  {
    UnitsAreForeign(root);
    assert (some + [STD])[..|some|] == some;
  }

  lemma MarkedDepsAreWatched(tool: Tool, mark: (Flags, string, map<string, string>) -> bool, ws: Workspace)
    requires tool.analyze == Marked(mark)
    ensures DepsAreWatched(tool, ws)
  {
    MarkedRecordsNothing([], ws.root);
    MarkedRecordsNothing([UNITS], ws.root);
  }

  lemma MarkedIsFramed(mark: (Flags, string, map<string, string>) -> bool, root: string, probes: bool)
    requires forall flags, path, c1: map<string, string>, c2: map<string, string> ::
               (probes ==> c1.Keys == c2.Keys) ==> mark(flags, path, c1) == mark(flags, path, c2)
    ensures Framed(Marked(mark), root, probes)
  {
  }

  lemma MarkedIsSound(c: Change, mark: (Flags, string, map<string, string>) -> bool, hints: seq<string>, probes: bool)
    requires c.Possible()
    requires forall flags, path, c1: map<string, string>, c2: map<string, string> ::
               (probes ==> c1.Keys == c2.Keys) ==> mark(flags, path, c1) == mark(flags, path, c2)
    ensures c.With(Marked(mark), hints).Sound(probes)
  {
    StepIsGrounded(c, Marked(mark), hints);
    MarkedDepsAreWatched(Tool(Marked(mark), c.was), mark, c.before);
    MarkedIsFramed(mark, c.before.root, probes);
  }

  lemma MarkedUses(mark: (Flags, string, map<string, string>) -> bool, flags: Flags, path: string,
                   disk: map<string, string>, e: LibraryIndex.Entry)
    requires e.name == "units.h" && e.usage.line == 1 && e.usage.column == 1
    ensures UsesIn(Marked(mark)(flags, path, disk).includes, 1, e) == if mark(flags, path, disk) then 1 else 0
  {
    UnitsCount([STD], e);
    assert [STD][1..] == [] && [] + [STD] == [STD];
  }

  lemma MarkedUsesStd(mark: (Flags, string, map<string, string>) -> bool, flags: Flags, path: string,
                      disk: map<string, string>, e: LibraryIndex.Entry)
    requires e.name == "std.h" && e.usage.line == 1 && e.usage.column == 1
    ensures UsesIn(Marked(mark)(flags, path, disk).includes, 1, e) == 1
  {
    assert [STD][1..] == [] && UsesIn([STD], 1, e) == 1 && [] + [STD] == [STD];
    assert ([UNITS] + [STD])[1..] == [STD] && UsesIn([UNITS] + [STD], 1, e) == 1;
  }

  /** So its runs are full ones only after the changes that leave no choice. */
  lemma MarkedOutcome(c: Change, mark: (Flags, string, map<string, string>) -> bool, hints: seq<string>,
                      symbolsEmpty: bool)
    requires c.Possible() && !AlwaysFull(c, symbolsEmpty)
    ensures var s := c.With(Marked(mark), hints); ScanOutcome(s, symbolsEmpty) == Done(s.Result())
  {
    var s := c.With(Marked(mark), hints);
    StepIsGrounded(c, Marked(mark), hints);
    NoRowsIffNoneReadable(s);
    OutcomeDecided(s, symbolsEmpty);
    if p :| Readable(c.before, p).Some? {
      FilesAreUnderRoot(c.before, p);
      var e := StdUse(c.before.root, p);
      MarkedUsesStd(mark, BaseFlags(c.was, c.before), p, Disk(Files(c.before)), e);
      BaselineHolds(s, p, 1, e);
    }
  }

  /** With no workspace file recorded as included, only dirty files are targets. */
  lemma MarkedTargetsAreDirty(c: Change, mark: (Flags, string, map<string, string>) -> bool, hints: seq<string>,
                              p: string)
    requires c.Possible() && p != ""
    ensures p in c.With(Marked(mark), hints).Goals() <==> p in Merge(c.cached, c.current).0
  {
    var s := c.With(Marked(mark), hints);
    StepIsGrounded(c, Marked(mark), hints);
    TargetsExact(s.st.graph.rows, s.cached, s.current, s.hints, p);
    assert Lookup(s.st.graph.rows, p) == ExpectedDeps(s.was, s.before, p);
    MarkedRecordsNothing([], c.before.root);
    MarkedRecordsNothing([UNITS], c.before.root);
  }

  /** Exactly when every frontend's run falls back. */
  lemma AlwaysFullIff(c: Change, hints: seq<string>, symbolsEmpty: bool)
    requires c.Possible()
    ensures AlwaysFull(c, symbolsEmpty) <==>
            forall analyze: Analyzer :: ScanOutcome(c.With(analyze, hints), symbolsEmpty).Fallback?
  {
    if AlwaysFull(c, symbolsEmpty) {
      forall analyze: Analyzer { AlwaysFullFallsBack(c, analyze, hints, symbolsEmpty); }
    } else {
      var mark := (flags: Flags, path: string, disk: map<string, string>) => false;
      MarkedOutcome(c, mark, hints, symbolsEmpty);
      assert !ScanOutcome(c.With(Marked(mark), hints), symbolsEmpty).Fallback?;
    }
  }

  /** A count the index build would make differently breaks the agreement. */
  lemma WrongCountBreaks(s: Step, e: LibraryIndex.Entry)
    requires s.Grounded()
    requires LibraryIndex.Count(s.Result().index, 1, e) != ExpectedUses(s.tool, s.after, 1, e)
    ensures !Agrees(s.tool, s.after, s.Result())
  {
  }

  lemma UndirtyIsNoTarget(s: Step, p: string)
    requires s.Grounded() && Readable(s.after, p).Some? && p !in s.Goals()
    ensures Readable(s.before, p).Some? && p !in s.Deleted()
    ensures Readable(s.before, p).value.value.contents == Readable(s.after, p).value.value.contents
  {
    UntouchedReadable(s, p);
  }

  /** A file that is not dirty keeps the count of the old answer. */
  lemma UndirtyBreaks(c: Change, mark: (Flags, string, map<string, string>) -> bool, hints: seq<string>, p: string)
    requires c.Possible() && Readable(c.after, p).Some? && p !in Merge(c.cached, c.current).0
    requires !mark(BaseFlags(c.was, c.before), p, Disk(Files(c.before)))
    requires mark(BaseFlags(c.given, c.after), p, Disk(Files(c.after)))
    ensures var s := c.With(Marked(mark), hints); !Agrees(s.tool, s.after, s.Result())
  {
    var s := c.With(Marked(mark), hints);
    FilesAreUnderRoot(c.after, p);
    var e := UnitsUse(c, p);
    StepIsGrounded(c, Marked(mark), hints);
    MarkedTargetsAreDirty(c, mark, hints, p);
    UndirtyIsNoTarget(s, p);
    IncrementalCount(s, 1, e);
    MarkedUses(mark, BaseFlags(c.was, c.before), p, Disk(Files(c.before)), e);
    MarkedUses(mark, BaseFlags(c.given, c.after), p, Disk(Files(c.after)), e);
    WrongCountBreaks(s, e);
  }

  /** A dirty file whose request is missed is counted with the overlay, not without. */
  lemma MissedDirtyBreaks(c: Change, mark: (Flags, string, map<string, string>) -> bool, hints: seq<string>, p: string)
    requires c.Possible() && Missed(c.given, c.after, p) && p in Merge(c.cached, c.current).0
    requires forall flags, path, disk :: mark(flags, path, disk) == flags.overlay
    ensures var s := c.With(Marked(mark), hints); !Agrees(s.tool, s.after, s.Result())
  {
    var s := c.With(Marked(mark), hints);
    FilesAreUnderRoot(c.after, p);
    var e := UnitsUse(c, p);
    StepIsGrounded(c, Marked(mark), hints);
    DirtyIsGoal(s, p);
    IncrementalCount(s, 1, e);
    MarkedUses(mark, ScanFlags(s.tool, c.after, Readable(c.after, p).value.value.contents), p, Disk(Files(c.after)), e);
    MarkedUses(mark, BaseFlags(c.given, c.after), p, Disk(Files(c.after)), e);
    WrongCountBreaks(s, e);
  }

  // A missed file that is not dirty, on a disk that is not the same ...

  /** Without the overlay `own` includes the root itself, which is no file, and `units.h` on one
      disk only. */
  function Secretive(own: string, root: string, there: map<string, string>): Analyzer {
    (flags: Flags, path: string, disk: map<string, string>) =>
      if path == own && !flags.overlay
      then Analysis([], (if disk == there then [UNITS] else []) + [RootInclude(root)])
      else Analysis([], [])
  }

  function RootInclude(path: string): Include {
    Include("x", path, LocalInclude, Project, 1, 1)
  }

  lemma {:induction false} UnitsThenLocal(some: seq<Include>, path: string, root: string)
    requires IsUnder(path, root) && (some == [] || some == [UNITS])
    ensures IncludeGraph.RecordedDeps(some + [RootInclude(path)], root) == [path]
  {
    var all := some + [RootInclude(path)];
    UnitsAreForeign(root);
    assert all[..|all| - 1] == some;
    assert IncludeGraph.RecordedDeps(all, root) == PathList.Added([], path);
  }

  predicate IsUnder(path: string, root: string) {
    IncludeGraph.IsUnderRoot(path, root)
  }

  lemma RootIsNoFile(ws: Workspace)
    requires WellFormed(ws.entries)
    ensures ws.root !in Disk(Files(ws))
  {
    if ws.root in Disk(Files(ws)) {
      FilesAreUnderRoot(ws, ws.root);
    }
  }

  lemma SecretiveIsFramed(own: string, root: string, there: map<string, string>, probes: bool)
    requires root != "" && root !in there
    ensures Framed(Secretive(own, root, there), root, probes)
  {
    var analyze := Secretive(own, root, there);
    forall flags, path, c1: map<string, string>, c2: map<string, string> |
      (forall d :: d in IncludeGraph.RecordedDeps(analyze(flags, path, c1).includes, root) ==>
         d in c1 && d in c2 && c1[d] == c2[d])
      ensures analyze(flags, path, c1) == analyze(flags, path, c2)
    {
      if path == own && !flags.overlay {
        UnitsThenLocal(if c1 == there then [UNITS] else [], root, root);
        assert root in IncludeGraph.RecordedDeps(analyze(flags, path, c1).includes, root);
      }
    }
  }

  lemma SecretiveRecordsNothing(c: Change, own: string)
    requires c.Possible()
    requires Readable(c.before, own).Some? ==> RequestsUnits(Readable(c.before, own).value.value.contents)
    ensures var tool := Tool(Secretive(own, c.before.root, Disk(Files(c.after))), c.was);
            && DepsAreWatched(tool, c.before)
            && forall p :: ExpectedDeps(tool, c.before, p).Some? ==> ExpectedDeps(tool, c.before, p).value == []
  {
  }

  lemma SecretiveUses(own: string, root: string, there: map<string, string>, flags: Flags, disk: map<string, string>,
                      e: LibraryIndex.Entry)
    requires !flags.overlay && e.name == "units.h" && e.usage.line == 1 && e.usage.column == 1
    ensures UsesIn(Secretive(own, root, there)(flags, own, disk).includes, 1, e) == if disk == there then 1 else 0
  {
    var last := [RootInclude(root)];
    assert last[1..] == [] && UsesIn(last, 1, e) == 0;
    UnitsCount(last, e);
    assert [] + last == last;
  }

  lemma MissedUndirtyBreaks(c: Change, hints: seq<string>, p: string, probes: bool)
    requires c.Possible() && Missed(c.given, c.after, p) && p !in Merge(c.cached, c.current).0
    requires BaseFlags(c.was, c.before) == BaseFlags(c.given, c.after)
    requires Disk(Files(c.before)) != Disk(Files(c.after))
    ensures var s := c.With(Secretive(p, c.before.root, Disk(Files(c.after))), hints);
            s.Sound(probes) && !Agrees(s.tool, s.after, s.Result())
  {
    var there := Disk(Files(c.after));
    var analyze := Secretive(p, c.before.root, there);
    var s := c.With(analyze, hints);
    FilesAreUnderRoot(c.after, p);
    var e := UnitsUse(c, p);
    StepIsGrounded(c, analyze, hints);
    CleanReadable(c.before, c.after, c.cached, c.current, p);
    RootIsNoFile(c.after);
    SecretiveIsFramed(p, c.before.root, there, probes);
    SecretiveRecordsNothing(c, p);
    assert Lookup(s.st.graph.rows, p) == ExpectedDeps(s.was, s.before, p);
    TargetsExact(s.st.graph.rows, s.cached, s.current, s.hints, p);
    UndirtyIsNoTarget(s, p);
    IncrementalCount(s, 1, e);
    SecretiveUses(p, c.before.root, there, BaseFlags(c.given, c.after), Disk(Files(c.before)), e);
    SecretiveUses(p, c.before.root, there, BaseFlags(c.given, c.after), there, e);
    WrongCountBreaks(s, e);
  }

  // ... or on the same disk, where some file looks dirty all the same.

  /** With the overlay `own` includes `dep` and `units.h`. */
  function Dependent(own: string, dep: string): Analyzer {
    (flags: Flags, path: string, disk: map<string, string>) =>
      if path == own && flags.overlay then Analysis([], [UNITS] + [RootInclude(dep)]) else Analysis([], [])
  }

  lemma DependentIsFramed(own: string, dep: string, root: string, probes: bool)
    ensures Framed(Dependent(own, dep), root, probes)
  {
  }

  lemma DependentRecords(tool: Tool, ws: Workspace, own: string, dep: string, p: string)
    requires tool.analyze == Dependent(own, dep) && IsUnder(dep, ws.root)
    ensures ExpectedDeps(tool, ws, p).Some? ==>
              ExpectedDeps(tool, ws, p).value ==
              if p == own && ScanFlags(tool, ws, Readable(ws, p).value.value.contents).overlay then [dep] else []
  {
    UnitsThenLocal([UNITS], dep, ws.root);
    UnitsAreForeign(ws.root);
  }

  lemma DependentUses(own: string, dep: string, flags: Flags, disk: map<string, string>, e: LibraryIndex.Entry)
    requires e.name == "units.h" && e.usage.line == 1 && e.usage.column == 1
    ensures UsesIn(Dependent(own, dep)(flags, own, disk).includes, 1, e) == if flags.overlay then 1 else 0
  {
    var last := [RootInclude(dep)];
    assert last[1..] == [] && UsesIn(last, 1, e) == 0;
    UnitsCount(last, e);
  }

  lemma SameDiskSameSources(before: Workspace, after: Workspace, p: string)
    requires WellFormed(before.entries) && WellFormed(after.entries) && Disk(Files(before)) == Disk(Files(after))
    ensures Lookup(Sources(before), p).Some? == Lookup(Sources(after), p).Some?
  {
    SourceLookup(before, p);
    SourceLookup(after, p);
    assert p in Disk(Files(before)) <==> p in Disk(Files(after));
  }

  lemma UnderRootIsUnder(root: string, d: string)
    requires root != "" && UnderRoot(root, d)
    ensures IsUnder(d, root)
  {
    assert d[..|root|] == d[..|root| + 1][..|root|] == root;
    assert d[|root|] == d[..|root| + 1][|root|] == '/';
  }

  lemma DirtyOnSameDisk(c: Change, d: string)
    requires c.Possible() && d in Merge(c.cached, c.current).0 && Disk(Files(c.before)) == Disk(Files(c.after))
    ensures Lookup(Sources(c.before), d).Some? && IsUnder(d, c.before.root) && d != ""
  {
    DiffOfWorkspaces(c.before, c.after, c.cached, c.current, d);
    SameDiskSameSources(c.before, c.after, d);
    SourceLookup(c.before, d);
    FilesAreUnderRoot(c.before, d);
    UnderRootIsUnder(c.before.root, d);
  }

  lemma DependentIsSound(c: Change, hints: seq<string>, p: string, d: string, probes: bool)
    requires c.Possible() && d in Merge(c.cached, c.current).0 && Disk(Files(c.before)) == Disk(Files(c.after))
    ensures c.With(Dependent(p, d), hints).Sound(probes)
  {
    var was := Tool(Dependent(p, d), c.was);
    StepIsGrounded(c, Dependent(p, d), hints);
    DirtyOnSameDisk(c, d);
    DependentIsFramed(p, d, c.before.root, probes);
    DependentIsWatched(was, c.before, p, d);
  }

  lemma DependentIsWatched(tool: Tool, ws: Workspace, own: string, dep: string)
    requires tool.analyze == Dependent(own, dep) && IsUnder(dep, ws.root) && Lookup(Sources(ws), dep).Some?
    ensures DepsAreWatched(tool, ws)
  {
    forall p, d | ExpectedDeps(tool, ws, p).Some? && d in ExpectedDeps(tool, ws, p).value
      ensures d == dep
    {
      DependentRecords(tool, ws, own, dep, p);
    }
  }

  lemma DependentIsTarget(c: Change, hints: seq<string>, p: string, d: string)
    requires c.Possible() && Missed(c.given, c.after, p) && p !in Merge(c.cached, c.current).0
    requires Disk(Files(c.before)) == Disk(Files(c.after)) && d in Merge(c.cached, c.current).0
    ensures p in c.With(Dependent(p, d), hints).Goals()
  {
    var s := c.With(Dependent(p, d), hints);
    StepIsGrounded(c, Dependent(p, d), hints);
    FilesAreUnderRoot(c.after, p);
    DirtyOnSameDisk(c, d);
    NotDeleted(s, p);
    DependentRecords(s.was, c.before, p, d, p);
    assert Lookup(s.st.graph.rows, p) == ExpectedDeps(s.was, s.before, p) == Some([d]);
    TargetsExact(s.st.graph.rows, s.cached, s.current, s.hints, p);
  }

  lemma MissedSameDiskBreaks(c: Change, hints: seq<string>, p: string, d: string)
    requires c.Possible() && Missed(c.given, c.after, p) && p !in Merge(c.cached, c.current).0
    requires Disk(Files(c.before)) == Disk(Files(c.after)) && d in Merge(c.cached, c.current).0
    ensures var s := c.With(Dependent(p, d), hints); !Agrees(s.tool, s.after, s.Result())
  {
    var s := c.With(Dependent(p, d), hints);
    FilesAreUnderRoot(c.after, p);
    var e := UnitsUse(c, p);
    StepIsGrounded(c, Dependent(p, d), hints);
    DependentIsTarget(c, hints, p, d);
    IncrementalCount(s, 1, e);
    var contents := Readable(c.after, p).value.value.contents;
    DependentUses(p, d, ScanFlags(s.tool, c.after, contents), Disk(Files(c.after)), e);
    DependentUses(p, d, BaseFlags(c.given, c.after), Disk(Files(c.after)), e);
    WrongCountBreaks(s, e);
  }

  lemma NotDeleted(s: Step, p: string)
    requires s.Grounded() && Readable(s.after, p).Some? && p !in s.Dirty()
    ensures Readable(s.before, p).Some?
    ensures Readable(s.before, p).value.value.contents == Readable(s.after, p).value.value.contents
  {
    CleanReadable(s.before, s.after, s.cached, s.current, p);
  }

  /** Nothing is dirty and the disk is the same: then nothing is removed either. */
  lemma SameDiskRemovesNothing(c: Change)
    requires c.Possible() && Disk(Files(c.before)) == Disk(Files(c.after))
    ensures Merge(c.cached, c.current).1 == []
  {
    var removed := Merge(c.cached, c.current).1;
    assert removed == [] || removed[0] in removed;
    forall p
      ensures p !in removed
    {
      DiffOfWorkspaces(c.before, c.after, c.cached, c.current, p);
      SameDiskSameSources(c.before, c.after, p);
    }
  }

  lemma MissedUndirtyOutcome(c: Change, hints: seq<string>, symbolsEmpty: bool, p: string)
    requires c.Possible() && Missed(c.given, c.after, p) && p !in Merge(c.cached, c.current).0
    requires BaseFlags(c.was, c.before) == BaseFlags(c.given, c.after) && !AlwaysFull(c, symbolsEmpty)
    ensures var s := c.With(Secretive(p, c.before.root, Disk(Files(c.after))), hints);
            ScanOutcome(s, symbolsEmpty) == Done(s.Result())
  {
    var there := Disk(Files(c.after));
    var s := c.With(Secretive(p, c.before.root, there), hints);
    StepIsGrounded(c, Secretive(p, c.before.root, there), hints);
    NotDeleted(s, p);
    FilesAreUnderRoot(c.before, p);
    var e := OwnedBy(c.before.root, p, LibraryIndex.Entry("x", LibraryIndex.Usage("", 1, 1)));
    SecretiveUsesRoot(p, c.before.root, there, BaseFlags(c.was, c.before), Disk(Files(c.before)), e);
    BaselineHolds(s, p, 0, e);
    OutcomeDecided(s, symbolsEmpty);
  }

  lemma SecretiveUsesRoot(own: string, root: string, there: map<string, string>, flags: Flags,
                          disk: map<string, string>, e: LibraryIndex.Entry)
    requires !flags.overlay && e.name == "x" && e.usage.line == 1 && e.usage.column == 1
    ensures UsesIn(Secretive(own, root, there)(flags, own, disk).includes, 0, e) == 1
  {
    var last := [RootInclude(root)];
    assert last[1..] == [] && UsesIn(last, 0, e) == 1 && [] + last == last;
    assert ([UNITS] + last)[1..] == last;
  }

  lemma DependentOutcome(c: Change, hints: seq<string>, symbolsEmpty: bool, p: string, d: string)
    requires c.Possible() && Readable(c.after, p).Some? && p !in Merge(c.cached, c.current).0
    requires d in Merge(c.cached, c.current).0
    ensures var s := c.With(Dependent(p, d), hints); ScanOutcome(s, symbolsEmpty) == Done(s.Result())
  {
    var s := c.With(Dependent(p, d), hints);
    StepIsGrounded(c, Dependent(p, d), hints);
    NotDeleted(s, p);
    NoRowsIffNoneReadable(s);
    OutcomeDecided(s, symbolsEmpty);
  }

  /** What makes a run go wrong: the incremental scan answers, and the answer is not a full
      scan's. */
  ghost predicate GoesWrong(s: Step, symbolsEmpty: bool, probes: bool) {
    && s.Sound(probes) && ScanOutcome(s, symbolsEmpty).Done?
    && !Agrees(s.tool, s.after, ScanOutcome(s, symbolsEmpty).stores)
  }

  lemma UndirtyGoesWrong(c: Change, mark: (Flags, string, map<string, string>) -> bool, hints: seq<string>,
                         symbolsEmpty: bool, probes: bool, p: string)
    requires c.Possible() && !AlwaysFull(c, symbolsEmpty)
    requires Readable(c.after, p).Some? && p !in Merge(c.cached, c.current).0
    requires forall flags, path, c1: map<string, string>, c2: map<string, string> ::
               (probes ==> c1.Keys == c2.Keys) ==> mark(flags, path, c1) == mark(flags, path, c2)
    requires !mark(BaseFlags(c.was, c.before), p, Disk(Files(c.before)))
    requires mark(BaseFlags(c.given, c.after), p, Disk(Files(c.after)))
    ensures GoesWrong(c.With(Marked(mark), hints), symbolsEmpty, probes)
  {
    MarkedIsSound(c, mark, hints, probes);
    MarkedOutcome(c, mark, hints, symbolsEmpty);
    UndirtyBreaks(c, mark, hints, p);
  }

  lemma MissedDirtyGoesWrong(c: Change, mark: (Flags, string, map<string, string>) -> bool, hints: seq<string>,
                             symbolsEmpty: bool, probes: bool, p: string)
    requires c.Possible() && !AlwaysFull(c, symbolsEmpty)
    requires Missed(c.given, c.after, p) && p in Merge(c.cached, c.current).0
    requires forall flags, path, disk :: mark(flags, path, disk) == flags.overlay
    ensures GoesWrong(c.With(Marked(mark), hints), symbolsEmpty, probes)
  {
    MarkedIsSound(c, mark, hints, probes);
    MarkedOutcome(c, mark, hints, symbolsEmpty);
    MissedDirtyBreaks(c, mark, hints, p);
  }

  /** A missed file that is not dirty goes wrong for one of two frontends. */
  lemma MissedUndirtyGoesWrong(c: Change, hints: seq<string>, symbolsEmpty: bool, probes: bool, p: string)
    returns (s: Step)
    requires c.Possible() && !c.IsSteady(probes) && !AlwaysFull(c, symbolsEmpty)
    requires Missed(c.given, c.after, p) && p !in Merge(c.cached, c.current).0
    requires BaseFlags(c.was, c.before) == BaseFlags(c.given, c.after)
    ensures s == c.With(s.tool.analyze, hints) && GoesWrong(s, symbolsEmpty, probes)
  {
    if Disk(Files(c.before)) != Disk(Files(c.after)) {
      MissedUndirtyBreaks(c, hints, p, probes);
      MissedUndirtyOutcome(c, hints, symbolsEmpty, p);
      s := c.With(Secretive(p, c.before.root, Disk(Files(c.after))), hints);
    } else {
      SameDiskRemovesNothing(c);
      var dirty := Merge(c.cached, c.current).0;
      assert dirty != [];
      DependentIsSound(c, hints, p, dirty[0], probes);
      DependentOutcome(c, hints, symbolsEmpty, p, dirty[0]);
      MissedSameDiskBreaks(c, hints, p, dirty[0]);
      s := c.With(Dependent(p, dirty[0]), hints);
    }
  }

  /** If the files are not steady, and the run is not a full one in any case, there is a frontend
      that meets every assumption and for which the run goes wrong. */
  lemma UnsteadyBreaksSome(c: Change, hints: seq<string>, symbolsEmpty: bool, probes: bool) returns (s: Step)
    requires c.Possible() && !c.IsSteady(probes) && !AlwaysFull(c, symbolsEmpty)
    ensures s == c.With(s.tool.analyze, hints) && GoesWrong(s, symbolsEmpty, probes)
  {
    var p :| Readable(c.after, p).Some?
             && !SteadyAt(c.was, c.before, c.cached, c.given, c.after, c.current, probes, p);
    var base, keys := BaseFlags(c.given, c.after), Disk(Files(c.after)).Keys;
    if p in Merge(c.cached, c.current).0 {
      var mark := (flags: Flags, path: string, disk: map<string, string>) => flags.overlay;
      MissedDirtyGoesWrong(c, mark, hints, symbolsEmpty, probes, p);
      s := c.With(Marked(mark), hints);
    } else if BaseFlags(c.was, c.before) != base {
      var mark := (flags: Flags, path: string, disk: map<string, string>) => flags == base;
      UndirtyGoesWrong(c, mark, hints, symbolsEmpty, probes, p);
      s := c.With(Marked(mark), hints);
    } else if probes && Disk(Files(c.before)).Keys != keys {
      var mark := (flags: Flags, path: string, disk: map<string, string>) => disk.Keys == keys;
      UndirtyGoesWrong(c, mark, hints, symbolsEmpty, probes, p);
      s := c.With(Marked(mark), hints);
    } else {
      s := MissedUndirtyGoesWrong(c, hints, symbolsEmpty, probes, p);
    }
  }

  /** A file that became unreadable breaks every run that is not a full one. */
  lemma UnreadableBreaksSome(c: Change, hints: seq<string>, symbolsEmpty: bool, probes: bool) returns (s: Step)
    requires c.Possible() && !NoneBecameUnreadable(c.before, c.after) && !AlwaysFull(c, symbolsEmpty)
    ensures s == c.With(s.tool.analyze, hints) && GoesWrong(s, symbolsEmpty, probes)
  {
    var p :| !StaysReadable(c.before, c.after, p);
    var mark := (flags: Flags, path: string, disk: map<string, string>) => false;
    MarkedIsSound(c, mark, hints, probes);
    MarkedOutcome(c, mark, hints, symbolsEmpty);
    s := c.With(Marked(mark), hints);
    StaleIfUnreadable(s, p);
  }

  /** No frontend goes wrong over a change that is steady and makes no file unreadable, nor over
      one that leads to a full run in any case. */
  lemma SteadyBreaksNone(c: Change, analyze: Analyzer, hints: seq<string>, symbolsEmpty: bool, probes: bool)
    requires c.Possible()
    requires AlwaysFull(c, symbolsEmpty) || (c.IsSteady(probes) && NoneBecameUnreadable(c.before, c.after))
    ensures !GoesWrong(c.With(analyze, hints), symbolsEmpty, probes)
  {
    var s := c.With(analyze, hints);
    if AlwaysFull(c, symbolsEmpty) {
      AlwaysFullFallsBack(c, analyze, hints, symbolsEmpty);
    } else if s.Sound(probes) {
      OutcomeDecided(s, symbolsEmpty);
      IncrementalRefinesFull(s, probes);
    }
  }

  /** Main result: exactly which changes no frontend can get wrong. */
  lemma NoneGoesWrongIff(c: Change, hints: seq<string>, symbolsEmpty: bool, probes: bool)
    requires c.Possible()
    ensures (forall analyze: Analyzer :: !GoesWrong(c.With(analyze, hints), symbolsEmpty, probes)) <==>
            AlwaysFull(c, symbolsEmpty) || (c.IsSteady(probes) && NoneBecameUnreadable(c.before, c.after))
  {
    if AlwaysFull(c, symbolsEmpty) || (c.IsSteady(probes) && NoneBecameUnreadable(c.before, c.after)) {
      forall analyze: Analyzer { SteadyBreaksNone(c, analyze, hints, symbolsEmpty, probes); }
    } else {
      var s: Step;
      if !c.IsSteady(probes) {
        s := UnsteadyBreaksSome(c, hints, symbolsEmpty, probes);
      } else {
        s := UnreadableBreaksSome(c, hints, symbolsEmpty, probes);
      }
      assert GoesWrong(c.With(s.tool.analyze, hints), symbolsEmpty, probes);
    }
  }

  // ---------------------------------------------------------------------------------------
  // Three complete runs that go wrong. A project of two sources; the first one is edited.

  predicate IsName(name: string) {
    name == "a.c" || name == "a.C"
  }

  function Info(contents: string): FileInfo {
    FileInfo(contents, Mark(0, |contents|, 0))
  }

  function Pair(name: string, a: string, b: string): Workspace {
    Workspace("w", [Dir("src", [File(name, Info(a)), File("b.c", Info(b))])])
  }

  function PathOf(name: string): string {
    "w/src/" + name
  }

  const B_C := "w/src/b.c"

  function PairRows(name: string, a: string, b: string): seq<Visited> {
    [Row(PathOf(name), Info(a)), Row(B_C, Info(b))]
  }

  function PairSnapshot(name: string, a: string, b: string): seq<Fingerprint> {
    [Row(PathOf(name), Mark(0, |a|, 0)), Row(B_C, Mark(0, |b|, 0))]
  }

  lemma PairChildren(name: string)
    ensures Child("w", "src") == "w/src" && Child("w/src", name) == PathOf(name) && Child("w/src", "b.c") == B_C
  {
  }

  lemma WalkTwo(dir: string, depth: nat, x: Node, y: Node)
    ensures Walk(dir, [x, y], depth, true) == WalkNode(dir, x, depth, true) + WalkNode(dir, y, depth, true)
  {
    WalkOne(dir, depth, y);
    assert [x, y][1..] == [y];
  }

  lemma WalkOne(dir: string, depth: nat, x: Node)
    ensures Walk(dir, [x], depth, true) == WalkNode(dir, x, depth, true)
  {
    assert [x][1..] == [];
  }

  lemma PairIsAdmitted(name: string)
    requires IsName(name)
    ensures Admitted("src", 0, true) && Admitted(name, 1, true) && Admitted("b.c", 1, true)
    ensures name != "" && '/' !in name && name != "b.c"
  {
  }

  lemma PairWalk(name: string, a: string, b: string)
    requires IsName(name)
    ensures Files(Pair(name, a, b)) == PairRows(name, a, b)
  {
    var first, second := File(name, Info(a)), File("b.c", Info(b));
    PairChildren(name);
    PairIsAdmitted(name);
    WalkOne("w", 0, Dir("src", [first, second]));
    WalkTwo("w/src", 1, first, second);
  }

  lemma PairIsWellFormed(name: string, a: string, b: string)
    requires IsName(name)
    ensures WellFormed(Pair(name, a, b).entries)
  {
    PairIsAdmitted(name);
    assert WellFormed(Pair(name, a, b).entries[0].entries);
  }

  lemma PairOrder(name: string)
    requires IsName(name)
    ensures Strcmp(PathOf(name), B_C) < 0
  {
    assert B_C == "w/src/" + "b.c";
    assert Strcmp(name, "b.c") == -1;
    StrcmpAfterPrefix("w/src/", name, "b.c");
  }

  lemma PairPaths(name: string)
    requires IsName(name)
    ensures Strcmp(PathOf(name), B_C) < 0 && PathOf(name) != B_C && PathOf(name) != "" && B_C != ""
    ensures HasExt(PathOf(name), ".c") && HasExt(B_C, ".c")
    ensures !EndsWith(PathOf(name), ".h")
  {
    assert PathOf("a.c") == "w/src/a.c" && PathOf("a.C") == "w/src/a.C";
    PairOrder(name);
    StrcmpZeroIffEqual(PathOf(name), B_C);
  }

  lemma PairExtensions(name: string)
    requires IsName(name)
    ensures HasSourceExtension(PathOf(name)) <==> name == "a.c"
    ensures HasSourceExtension(B_C)
  {
    assert PathOf("a.c") == "w/src/a.c" && PathOf("a.C") == "w/src/a.C";
  }

  lemma {:induction false} StrcmpAfterPrefix(prefix: string, a: string, b: string)
    ensures Strcmp(prefix + a, prefix + b) == Strcmp(a, b)
  {
    if prefix == [] {
      assert prefix + a == a && prefix + b == b;
    } else {
      assert (prefix + a)[1..] == prefix[1..] + a && (prefix + b)[1..] == prefix[1..] + b;
      StrcmpAfterPrefix(prefix[1..], a, b);
    }
  }

  lemma PairLookup(name: string, a: string, b: string, p: string)
    requires IsName(name)
    ensures Lookup(Files(Pair(name, a, b)), p) ==
            if p == PathOf(name) then Some(Info(a)) else if p == B_C then Some(Info(b)) else None
    ensures Lookup(PairSnapshot(name, a, b), p) ==
            if p == PathOf(name) then Some(Info(a).mark) else if p == B_C then Some(Info(b).mark) else None
  {
    PairWalk(name, a, b);
    PairPaths(name);
    var rows, marks := PairRows(name, a, b), PairSnapshot(name, a, b);
    assert rows[1..] == [rows[1]] && rows[1..][1..] == [] && marks[1..] == [marks[1]] && marks[1..][1..] == [];
  }

  lemma PairIsSnapshot(name: string, a: string, b: string)
    requires IsName(name)
    ensures IsSnapshot(PairSnapshot(name, a, b), Pair(name, a, b))
  {
    PairPaths(name);
    PairIsWellFormed(name, a, b);
    forall p
      ensures Lookup(PairSnapshot(name, a, b), p) ==
              if Lookup(Sources(Pair(name, a, b)), p).Some?
              then Some(Lookup(Sources(Pair(name, a, b)), p).value.mark) else None
    {
      PairLookup(name, a, b, p);
      SourceLookup(Pair(name, a, b), p);
    }
  }

  /** The first source is edited; nobody gives the overlay. */
  function Edit(name: string, was: string, now: string, other: string): Change {
    Change(Flags("", false), Pair(name, was, other), PairSnapshot(name, was, other),
           Flags("", false), Pair(name, now, other), PairSnapshot(name, now, other))
  }

  lemma SameContentsIfSameMark(name: string, was: string, now: string, other: string)
    requires IsName(name) && |was| != |now|
    ensures FingerprintsFaithful(Pair(name, was, other), Pair(name, now, other))
  {
    forall p
      ensures Lookup(Files(Pair(name, was, other)), p) ==
              if p == PathOf(name) then Some(Info(was)) else if p == B_C then Some(Info(other)) else None
      ensures Lookup(Files(Pair(name, now, other)), p) ==
              if p == PathOf(name) then Some(Info(now)) else if p == B_C then Some(Info(other)) else None
    {
      PairLookup(name, was, other, p);
      PairLookup(name, now, other, p);
    }
  }

  lemma EditIsPossible(name: string, was: string, now: string, other: string)
    requires IsName(name) && |was| != |now|
    ensures Edit(name, was, now, other).Possible()
  {
    PairIsWellFormed(name, was, other);
    PairIsWellFormed(name, now, other);
    PairIsSnapshot(name, was, other);
    PairIsSnapshot(name, now, other);
    SameContentsIfSameMark(name, was, now, other);
  }

  lemma EditDiff(name: string, was: string, now: string, other: string)
    requires IsName(name) && |was| != |now|
    ensures Merge(PairSnapshot(name, was, other), PairSnapshot(name, now, other)) == ([PathOf(name)], [])
  {
    var cached, current := PairSnapshot(name, was, other), PairSnapshot(name, now, other);
    StrcmpZeroIffEqual(PathOf(name), PathOf(name));
    StrcmpZeroIffEqual(B_C, B_C);
    var c1, d1 := cached[1..], current[1..];
    assert c1[1..] == [] && d1[1..] == [];
    assert Merge(c1[1..], d1[1..]) == ([], []);
    assert Merge(c1, d1) == ([], []);
    assert Merge(cached, current).0 == [PathOf(name)] + [] == [PathOf(name)];
  }

  /** The edit really is an incremental run, with `Result` as its outcome. */
  lemma EditIsIncremental(name: string, was: string, now: string, other: string, analyze: Analyzer)
    requires IsName(name) && |was| != |now|
    ensures var s := Edit(name, was, now, other).With(analyze, []);
            IncrementalScan(s.tool, s.after, s.st, s.cached, s.current, [], false) == Done(s.Result())
  {
    var c := Edit(name, was, now, other);
    var s := c.With(analyze, []);
    EditDiff(name, was, now, other);
    EditIsPossible(name, was, now, other);
    StepIsGrounded(c, analyze, []);
    PairPaths(name);
    assert s.Dirty() == [PathOf(name)] && !HasHeader([PathOf(name)]) && s.Deleted() == [] && !HasHeader([]);
    OutcomeDecided(s, false);
  }

  lemma PairReadable(name: string, a: string, b: string)
    requires IsName(name) && |a| <= MAX_SOURCE_BYTES && |b| <= MAX_SOURCE_BYTES && !StartsWith(b, GPERF_BANNER)
    ensures Readable(Pair(name, a, b), B_C) == Some(Row(B_C, Info(b)))
    ensures Readable(Pair(name, a, b), PathOf(name)) ==
            if StartsWith(a, GPERF_BANNER) then None else Some(Row(PathOf(name), Info(a)))
    ensures forall p :: p != PathOf(name) && p != B_C ==> Readable(Pair(name, a, b), p).None?
  {
    PairPaths(name);
    forall p { PairLookup(name, a, b, p); }
  }

  lemma {:induction false} ContainsNeedsRoom(text: string, needle: string)
    requires |text| < |needle|
    ensures !Contains(text, needle)
  {
    if text != "" {
      ContainsNeedsRoom(text[1..], needle);
    }
  }

  lemma ShortRequestsNothing(contents: string)
    requires |contents| < 12
    ensures !RequestsUnits(contents) && !ChunksRequest(contents)
  {
    ContainsNeedsRoom(contents, "[[fisics::dim");
    ContainsNeedsRoom(contents, "[[fisics::unit");
    ContainsNeedsRoom(contents, "fisics::dim(");
    ContainsNeedsRoom(contents, "fisics::unit(");
    ChunksAgainstWhole(contents);
  }

  lemma TreeOne(dir: string, x: Node)
    ensures TreeRequests(dir, [x]) <==> NodeRequests(dir, x)
  {
    assert [x][1..] == [];
  }

  lemma TreeTwo(dir: string, x: Node, y: Node)
    ensures TreeRequests(dir, [x, y]) <==> NodeRequests(dir, x) || NodeRequests(dir, y)
  {
    assert [x, y][1..] == [y];
    TreeOne(dir, y);
  }

  lemma PairBase(name: string, a: string, b: string)
    requires IsName(name)
    ensures BaseFlags(Flags("", false), Pair(name, a, b)).overlay <==>
            (name == "a.c" && ChunksRequest(a)) || ChunksRequest(b)
  {
    var first, second := File(name, Info(a)), File("b.c", Info(b));
    PairChildren(name);
    PairIsAdmitted(name);
    PairExtensions(name);
    TreeOne("w", Dir("src", [first, second]));
    TreeTwo("w/src", first, second);
  }

  /** Contents the scan does not pass over. */
  predicate IsPlain(contents: string) {
    |contents| <= MAX_SOURCE_BYTES && !StartsWith(contents, GPERF_BANNER)
  }

  /** The first of two sources becomes a generated gperf file. Whatever the frontend, the
      incremental run passes it over and its old row stays behind. */
  lemma GeneratedFileLeavesStaleRow(was: string, now: string, other: string, analyze: Analyzer) returns (s: Step)
    requires IsPlain(was) && IsPlain(other) && |was| != |now|
    requires StartsWith(now, GPERF_BANNER) && |now| <= MAX_SOURCE_BYTES
    ensures s.Grounded() && s.tool.analyze == analyze
    ensures IncrementalScan(s.tool, s.after, s.st, s.cached, s.current, [], false) == Done(s.Result())
    ensures RecencyStore.Content(s.Result().diags, PathOf("a.c")).Some?
    ensures ExpectedDiagnostics(s.tool, s.after, PathOf("a.c")).None?
  {
    var c := Edit("a.c", was, now, other);
    s := c.With(analyze, []);
    EditIsPossible("a.c", was, now, other);
    StepIsGrounded(c, analyze, []);
    EditIsIncremental("a.c", was, now, other, analyze);
    GeneratedIsPassedOver(was, now, other);
    StaleIfUnreadable(s, PathOf("a.c"));
  }

  lemma GeneratedIsPassedOver(was: string, now: string, other: string)
    requires IsPlain(was) && IsPlain(other) && StartsWith(now, GPERF_BANNER) && |now| <= MAX_SOURCE_BYTES
    ensures !StaysReadable(Pair("a.c", was, other), Pair("a.c", now, other), PathOf("a.c"))
  {
    PairReadable("a.c", was, other);
    PairReadable("a.c", now, other);
    PairLookup("a.c", now, other, PathOf("a.c"));
  }

  predicate UnderOverlay(flags: Flags, path: string, disk: map<string, string>) {
    flags.overlay
  }

  lemma PlainEditKeepsReadable(name: string, was: string, now: string, other: string)
    requires IsName(name) && IsPlain(was) && IsPlain(now) && IsPlain(other)
    ensures NoneBecameUnreadable(Pair(name, was, other), Pair(name, now, other))
  {
    PairReadable(name, was, other);
    PairReadable(name, now, other);
    forall p
      ensures StaysReadable(Pair(name, was, other), Pair(name, now, other), p)
    {
      PairLookup(name, now, other, p);
    }
  }

  lemma SecondIsUndirty(name: string, was: string, now: string, other: string)
    requires IsName(name) && IsPlain(now) && IsPlain(other) && |was| != |now|
    ensures var c := Edit(name, was, now, other);
            Readable(c.after, B_C).Some? && B_C !in Merge(c.cached, c.current).0
  {
    EditDiff(name, was, now, other);
    PairReadable(name, now, other);
    PairPaths(name);
  }

  /** The edit of the second source's neighbour changes the flags, the second source is not
      dirty, and a frontend that minds the flags is wrong about it. */
  lemma FlagsEditBreaks(name: string, was: string, now: string, other: string)
    requires IsName(name) && IsPlain(now) && IsPlain(other) && |was| != |now|
    requires var c := Edit(name, was, now, other);
             !BaseFlags(c.was, c.before).overlay && BaseFlags(c.given, c.after).overlay
    ensures var s := Edit(name, was, now, other).With(Marked(UnderOverlay), []);
            !Agrees(s.tool, s.after, s.Result())
  {
    EditIsPossible(name, was, now, other);
    SecondIsUndirty(name, was, now, other);
    UndirtyBreaks(Edit(name, was, now, other), UnderOverlay, [], B_C);
  }

  /** The first of two sources starts to ask for the overlay, which switches it on for the whole
      run. The other source is no target and keeps what was recorded without the overlay. */
  lemma MarkerElsewhereLeavesStaleRows(was: string, now: string, other: string) returns (s: Step)
    requires IsPlain(was) && IsPlain(now) && IsPlain(other) && |was| != |now|
    requires ChunksRequest(now) && !ChunksRequest(was) && !ChunksRequest(other)
    ensures s.Sound(false) && NoneBecameUnreadable(s.before, s.after)
    ensures IncrementalScan(s.tool, s.after, s.st, s.cached, s.current, [], false) == Done(s.Result())
    ensures !Agrees(s.tool, s.after, s.Result())
  {
    var c := Edit("a.c", was, now, other);
    s := c.With(Marked(UnderOverlay), []);
    EditIsPossible("a.c", was, now, other);
    EditIsIncremental("a.c", was, now, other, Marked(UnderOverlay));
    MarkedIsSound(c, UnderOverlay, [], false);
    PlainEditKeepsReadable("a.c", was, now, other);
    PairBase("a.c", was, other);
    PairBase("a.c", now, other);
    FlagsEditBreaks("a.c", was, now, other);
  }

  /** A source with an upper-case extension starts to ask for the overlay. The tree scan does
      not look at it, so the index build is without the overlay and the per-file scan is not. */
  lemma UpperCaseSourceSplitsTheIndex(was: string, now: string, other: string) returns (s: Step)
    requires IsPlain(was) && IsPlain(now) && IsPlain(other) && |was| != |now|
    requires RequestsUnits(now) && !ChunksRequest(other)
    ensures s.Sound(false) && NoneBecameUnreadable(s.before, s.after)
    ensures BaseFlags(s.was.given, s.before) == BaseFlags(s.tool.given, s.after)
    ensures IncrementalScan(s.tool, s.after, s.st, s.cached, s.current, [], false) == Done(s.Result())
    ensures !Agrees(s.tool, s.after, s.Result())
  {
    var c := Edit("a.C", was, now, other);
    s := c.With(Marked(UnderOverlay), []);
    EditIsPossible("a.C", was, now, other);
    EditDiff("a.C", was, now, other);
    EditIsIncremental("a.C", was, now, other, Marked(UnderOverlay));
    MarkedIsSound(c, UnderOverlay, [], false);
    PlainEditKeepsReadable("a.C", was, now, other);
    PairReadable("a.C", now, other);
    PairBase("a.C", was, other);
    PairBase("a.C", now, other);
    MissedDirtyBreaks(c, UnderOverlay, [], PathOf("a.C"));
  }

  /** There are such contents. */
  lemma SampleContents()
    ensures IsPlain("int x;") && IsPlain("fisics::dim(") && StartsWith(GPERF_BANNER, GPERF_BANNER)
    ensures ChunksRequest("fisics::dim(") && RequestsUnits("fisics::dim(") && !ChunksRequest("int x;")
  {
    var quiet, asking := "int x;", "fisics::dim(";
    assert quiet[0] != GPERF_BANNER[0] && asking[0] != GPERF_BANNER[0];
    assert StartsWith(asking, "fisics::dim(");
    ChunksAgainstWhole(asking);
    ShortRequestsNothing(quiet);
  }
}
