/** The workspace on disk and the two ways the IDE walks it: an explicit stack
    (project_scan.c, analysis_snapshot.c) and plain recursion (library_index_build.c). */
module WorkspaceTree {
  import opened CStrings
  import opened PathTable
  import opened Filters
  import opened Snapshot

  datatype FileInfo = FileInfo(contents: string, mark: Mark)

  datatype Node = File(name: string, info: FileInfo) | Dir(name: string, entries: seq<Node>)

  datatype Workspace = Workspace(root: string, entries: seq<Node>)

  type Visited = Row<FileInfo>

  const MAX_SOURCE_BYTES: nat := 32 * 1024 * 1024
  const GPERF_BANNER := "/* C code produced by gperf version"

  predicate IsSource(file: Visited) {
    HasExt(file.path, ".c") || HasExt(file.path, ".h")
  }

  /** `should_analyze_source_path`: generated gperf sources are left alone. */
  predicate ShouldAnalyze(file: Visited) {
    IsSource(file) && !(HasExt(file.path, ".c") && StartsWith(file.value.contents, GPERF_BANNER))
  }

  /** Files that reach the frontend: `read_file` also refuses anything over 32 MB. */
  predicate Analyzable(file: Visited) {
    ShouldAnalyze(file) && |file.value.contents| <= MAX_SOURCE_BYTES
  }

  /** `should_skip_dir`. Only the project scan skips `.DS_Store`. */
  predicate Skipped(name: string, skipDsStore: bool) {
    name == "." || name == ".." || name == "build" || name == "ide_files" || name == ".git"
    || (skipDsStore && name == ".DS_Store")
  }

  predicate Admitted(name: string, depth: nat, skipDsStore: bool) {
    !Skipped(name, skipDsStore) && (depth == 0 ==> name == "src" || name == "include")
  }

  function Child(dir: string, name: string): string {
    dir + "/" + name
  }

  /** The regular files below `dir`, in the order plain recursion meets them. */
  function Walk(dir: string, entries: seq<Node>, depth: nat, skipDsStore: bool): seq<Visited>
    decreases entries, 1
  {
    if entries == [] then []
    else WalkNode(dir, entries[0], depth, skipDsStore) + Walk(dir, entries[1..], depth, skipDsStore)
  }

  function WalkNode(dir: string, node: Node, depth: nat, skipDsStore: bool): seq<Visited>
    decreases node, 0
  {
    if !Admitted(node.name, depth, skipDsStore) then []
    else match node
      case File(name, info) => [Row(Child(dir, name), info)]
      case Dir(name, entries) => Walk(Child(dir, name), entries, depth + 1, skipDsStore)
  }

  /** The files of a workspace, as the project scan sees them. */
  function Files(ws: Workspace): seq<Visited> {
    Walk(ws.root, ws.entries, 0, true)
  }

  function Sources(ws: Workspace): seq<Visited> {
    Filter(Files(ws), IsSource)
  }

  // ---------------------------------------------------------------------------------------
  // Which files these are, told by names and bytes alone.

  /** The names lead from `entries` down to a regular file. */
  ghost predicate Reaches(entries: seq<Node>, names: seq<string>, info: FileInfo)
    decreases names
  {
    && names != []
    && exists i :: 0 <= i < |entries| && Leads(entries[i], names, info)
  }

  ghost predicate Leads(node: Node, names: seq<string>, info: FileInfo)
    requires names != []
    decreases names, 0
  {
    && node.name == names[0]
    && if |names| == 1 then node == File(names[0], info)
       else node.Dir? && Reaches(node.entries, names[1..], info)
  }

  function Joined(dir: string, names: seq<string>): string
    decreases names
  {
    if names == [] then dir else Joined(dir + "/" + names[0], names[1..])
  }

  /** No name on the way is one the scans pass over; only one of them minds `.DS_Store`. */
  ghost predicate Open(names: seq<string>, skipDsStore: bool) {
    && (forall i :: 0 <= i < |names| ==> names[i] !in {".", "..", "build", "ide_files", ".git"})
    && (skipDsStore ==> ".DS_Store" !in names)
  }

  /** ... and the first is one of the two directories a scan starts from. */
  ghost predicate Starts(names: seq<string>, depth: nat) {
    depth == 0 && names != [] ==> names[0] == "src" || names[0] == "include"
  }

  lemma {:induction false} WalkedIsReached(dir: string, entries: seq<Node>, depth: nat, skipDsStore: bool,
                                           file: Visited) returns (names: seq<string>)
    requires file in Walk(dir, entries, depth, skipDsStore)
    ensures Reaches(entries, names, file.value) && file.path == Joined(dir, names)
    ensures Open(names, skipDsStore) && Starts(names, depth)
    decreases entries, 1
  {
    if file in WalkNode(dir, entries[0], depth, skipDsStore) {
      names := NodeIsReached(dir, entries[0], depth, skipDsStore, file);
    } else {
      names := WalkedIsReached(dir, entries[1..], depth, skipDsStore, file);
      var i :| 0 <= i < |entries[1..]| && Leads(entries[1..][i], names, file.value);
      assert entries[i + 1] == entries[1..][i];
    }
  }

  lemma {:induction false} NodeIsReached(dir: string, node: Node, depth: nat, skipDsStore: bool, file: Visited)
    returns (names: seq<string>)
    requires file in WalkNode(dir, node, depth, skipDsStore)
    ensures names != [] && Leads(node, names, file.value) && file.path == Joined(dir, names)
    ensures Open(names, skipDsStore) && Starts(names, depth)
    decreases node, 0
  {
    match node {
      case File(name, info) =>
        names := [name];
        assert names[1..] == [];
      case Dir(name, entries) =>
        var below := WalkedIsReached(Child(dir, name), entries, depth + 1, skipDsStore, file);
        names := [name] + below;
        assert names[1..] == below;
    }
  }

  lemma {:induction false} ReachedIsWalked(dir: string, entries: seq<Node>, depth: nat, skipDsStore: bool,
                                           names: seq<string>, info: FileInfo)
    requires Reaches(entries, names, info) && Open(names, skipDsStore) && Starts(names, depth)
    ensures Row(Joined(dir, names), info) in Walk(dir, entries, depth, skipDsStore)
    decreases names
  {
    var i :| 0 <= i < |entries| && Leads(entries[i], names, info);
    var node, rest := entries[i], names[1..];
    assert names[0] in names;
    assert Admitted(node.name, depth, skipDsStore);
    if |names| == 1 {
      assert rest == [] && Joined(dir, names) == Child(dir, node.name);
    } else {
      assert forall k :: 0 <= k < |rest| ==> rest[k] == names[k + 1];
      ReachedIsWalked(Child(dir, node.name), node.entries, depth + 1, skipDsStore, rest, info);
    }
    assert Row(Joined(dir, names), info) in WalkNode(dir, node, depth, skipDsStore);
    NodeIsInWalk(dir, entries, depth, skipDsStore, i, Row(Joined(dir, names), info));
  }

  lemma {:induction false} NodeIsInWalk(dir: string, entries: seq<Node>, depth: nat, skipDsStore: bool, i: nat,
                                        file: Visited)
    requires i < |entries| && file in WalkNode(dir, entries[i], depth, skipDsStore)
    ensures file in Walk(dir, entries, depth, skipDsStore)
  {
    if i > 0 {
      NodeIsInWalk(dir, entries[1..], depth, skipDsStore, i - 1, file);
    }
  }

  lemma WalkExactly(dir: string, entries: seq<Node>, skipDsStore: bool, file: Visited)
    ensures file in Walk(dir, entries, 0, skipDsStore) <==>
            exists names :: && Reaches(entries, names, file.value) && file.path == Joined(dir, names)
                            && Open(names, skipDsStore) && Starts(names, 0)
  {
    if file in Walk(dir, entries, 0, skipDsStore) {
      var names := WalkedIsReached(dir, entries, 0, skipDsStore, file);
    }
    forall names | Reaches(entries, names, file.value) && Open(names, skipDsStore) && Starts(names, 0)
      ensures Row(Joined(dir, names), file.value) in Walk(dir, entries, 0, skipDsStore)
    {
      ReachedIsWalked(dir, entries, 0, skipDsStore, names, file.value);
    }
  }

  /** The files of a workspace are those below `src` and `include`, at any depth, with no name
      on the way that a scan passes over. */
  lemma FilesExactly(ws: Workspace, file: Visited)
    ensures file in Files(ws) <==>
            exists names :: && Reaches(ws.entries, names, file.value) && file.path == Joined(ws.root, names)
                            && (names[0] == "src" || names[0] == "include")
                            && forall i :: 0 <= i < |names| ==>
                                 names[i] !in {".", "..", "build", "ide_files", ".git", ".DS_Store"}
  {
    WalkExactly(ws.root, ws.entries, true, file);
    forall names | Reaches(ws.entries, names, file.value)
      ensures Open(names, true) <==> forall i :: 0 <= i < |names| ==>
                                       names[i] !in {".", "..", "build", "ide_files", ".git", ".DS_Store"}
    {
    }
  }

  /** The name of a source ends in `.c` or `.h`, in either case. */
  ghost predicate NamesSource(path: string) {
    |path| >= 2 && path[|path| - 2] == '.' && path[|path| - 1] in {'c', 'C', 'h', 'H'}
  }

  /** The frontend sees sources of at most 32 MB, and no generated `.c` file. */
  ghost predicate IsSeen(path: string, contents: string) {
    && NamesSource(path) && |contents| <= 33_554_432
    && !(path[|path| - 1] in {'c', 'C'} && "/* C code produced by gperf version" <= contents)
  }

  lemma ExtensionByLastBytes(path: string)
    ensures HasExt(path, ".c") <==>
            |path| >= 2 && path[|path| - 2] == '.' && (path[|path| - 1] == 'c' || path[|path| - 1] == 'C')
    ensures HasExt(path, ".h") <==>
            |path| >= 2 && path[|path| - 2] == '.' && (path[|path| - 1] == 'h' || path[|path| - 1] == 'H')
  {
    assert ".c"[0] == '.' && ".c"[1] == 'c' && ".h"[0] == '.' && ".h"[1] == 'h';
    assert forall c :: ToLower(c) == '.' <==> c == '.';
    if |path| >= 2 {
      assert path[|path| - 2 + 0] == path[|path| - 2] && path[|path| - 2 + 1] == path[|path| - 1];
    }
  }

  /** What the snapshot watches and what the frontend sees, of the files a scan walks. */
  lemma SourcesExactly(ws: Workspace, file: Visited)
    ensures file in Sources(ws) <==>
            && file in Files(ws) && |file.path| >= 2 && file.path[|file.path| - 2] == '.'
            && file.path[|file.path| - 1] in {'c', 'C', 'h', 'H'}
    ensures file in Filter(Files(ws), Analyzable) <==> file in Files(ws) && IsSeen(file.path, file.value.contents)
    ensures file in Filter(Files(ws), ShouldAnalyze) && |file.value.contents| <= 33_554_432 <==>
            file in Files(ws) && IsSeen(file.path, file.value.contents)
  {
    ExtensionByLastBytes(file.path);
  }

  // ---------------------------------------------------------------------------------------
  // The explicit stack.

  datatype Pending = Pending(path: string, entries: seq<Node>, depth: nat)

  ghost function Below(dir: Pending, from: nat): multiset<Visited>
    requires from <= |dir.entries|
  {
    multiset(Walk(dir.path, dir.entries[from..], dir.depth, true))
  }

  ghost function BelowAll(stack: seq<Pending>): multiset<Visited> {
    if stack == [] then multiset{}
    else BelowAll(stack[..|stack| - 1]) + Below(stack[|stack| - 1], 0)
  }

  ghost function NodeSize(node: Node): nat
    decreases node, 0
  {
    match node
    case File(_, _) => 0
    case Dir(_, entries) => 1 + Size(entries)
  }

  ghost function Size(entries: seq<Node>): nat
    decreases entries, 1
  {
    if entries == [] then 0 else NodeSize(entries[0]) + Size(entries[1..])
  }

  ghost function StackSize(stack: seq<Pending>): nat {
    if stack == [] then 0
    else StackSize(stack[..|stack| - 1]) + 1 + Size(stack[|stack| - 1].entries)
  }

  lemma Push(stack: seq<Pending>, top: Pending)
    ensures BelowAll(stack + [top]) == BelowAll(stack) + Below(top, 0)
    ensures StackSize(stack + [top]) == StackSize(stack) + 1 + Size(top.entries)
  {
    assert (stack + [top])[..|stack|] == stack;
  }

  /** The files of one entry, and the files of the entries after it. */
  lemma NextEntry(dir: Pending, i: nat)
    requires i < |dir.entries|
    ensures Below(dir, i) == multiset(WalkNode(dir.path, dir.entries[i], dir.depth, true)) + Below(dir, i + 1)
    ensures Size(dir.entries[i..]) == NodeSize(dir.entries[i]) + Size(dir.entries[i + 1..])
  {
    assert dir.entries[i..][1..] == dir.entries[i + 1..];
  }

  lemma SubdirectoryBelow(dir: Pending, node: Node)
    requires node.Dir? && Admitted(node.name, dir.depth, true)
    ensures multiset(WalkNode(dir.path, node, dir.depth, true))
            == Below(Pending(Child(dir.path, node.name), node.entries, dir.depth + 1), 0)
  {
    assert node.entries[0..] == node.entries;
  }

  /** What is met, stacked or still to read stays the same at each entry. */
  ghost function Total(met: seq<Visited>, stack: seq<Pending>, dir: Pending, i: nat): multiset<Visited>
    requires i <= |dir.entries|
  {
    multiset(met) + BelowAll(stack) + Below(dir, i)
  }

  ghost function Remaining(stack: seq<Pending>, dir: Pending, i: nat): nat
    requires i <= |dir.entries|
  {
    StackSize(stack) + Size(dir.entries[i..])
  }

  lemma SkipEntry(met: seq<Visited>, stack: seq<Pending>, dir: Pending, i: nat)
    requires i < |dir.entries| && !Admitted(dir.entries[i].name, dir.depth, true)
    ensures Total(met, stack, dir, i + 1) == Total(met, stack, dir, i)
    ensures Remaining(stack, dir, i + 1) <= Remaining(stack, dir, i)
  {
    NextEntry(dir, i);
  }

  lemma MeetFile(met: seq<Visited>, stack: seq<Pending>, dir: Pending, i: nat)
    requires i < |dir.entries| && Admitted(dir.entries[i].name, dir.depth, true) && dir.entries[i].File?
    ensures var file := Row(Child(dir.path, dir.entries[i].name), dir.entries[i].info);
            Total(met + [file], stack, dir, i + 1) == Total(met, stack, dir, i)
    ensures Remaining(stack, dir, i + 1) <= Remaining(stack, dir, i)
  {
    NextEntry(dir, i);
  }

  lemma StackDirectory(met: seq<Visited>, stack: seq<Pending>, dir: Pending, i: nat)
    requires i < |dir.entries| && Admitted(dir.entries[i].name, dir.depth, true) && dir.entries[i].Dir?
    ensures var next := Pending(Child(dir.path, dir.entries[i].name), dir.entries[i].entries, dir.depth + 1);
            && Total(met, stack + [next], dir, i + 1) == Total(met, stack, dir, i)
            && Remaining(stack + [next], dir, i + 1) == Remaining(stack, dir, i)
  {
    var next := Pending(Child(dir.path, dir.entries[i].name), dir.entries[i].entries, dir.depth + 1);
    NextEntry(dir, i);
    SubdirectoryBelow(dir, dir.entries[i]);
    Push(stack, next);
  }

  /** At the start nothing is met; at the end nothing is left to read. */
  lemma WholeDirectory(met: seq<Visited>, stack: seq<Pending>, grown: seq<Pending>, dir: Pending)
    ensures Total([], stack, dir, 0) == BelowAll(stack) + Below(dir, 0)
    ensures Total(met, grown, dir, |dir.entries|) == multiset(met) + BelowAll(grown)
    ensures Remaining(stack, dir, 0) == StackSize(stack) + Size(dir.entries)
    ensures Remaining(grown, dir, |dir.entries|) == StackSize(grown)
  {
    assert dir.entries[0..] == dir.entries;
  }

  /** One `readdir` loop: regular files are met at once, directories go on the stack. */
  method ReadDirectory(dir: Pending, stack: seq<Pending>) returns (met: seq<Visited>, grown: seq<Pending>)
    ensures multiset(met) + BelowAll(grown) == BelowAll(stack) + Below(dir, 0)
    ensures StackSize(grown) <= StackSize(stack) + Size(dir.entries)
  {
    met, grown := [], stack;
    var i := 0;
    while i < |dir.entries|
      invariant i <= |dir.entries|
      invariant Total(met, grown, dir, i) == Total([], stack, dir, 0)
      invariant Remaining(grown, dir, i) <= Remaining(stack, dir, 0)
    {
      var node := dir.entries[i];
      if !Admitted(node.name, dir.depth, true) {
        SkipEntry(met, grown, dir, i);
      } else if node.Dir? {
        StackDirectory(met, grown, dir, i);
        grown := grown + [Pending(Child(dir.path, node.name), node.entries, dir.depth + 1)];
      } else {
        MeetFile(met, grown, dir, i);
        met := met + [Row(Child(dir.path, node.name), node.info)];
      }
      i := i + 1;
    }
    WholeDirectory(met, stack, grown, dir);
  }

  /** The stack traversal of `scan_dir`: visits exactly the recursion's files, each once. */
  method ScanDir(ws: Workspace, keep: Visited -> bool) returns (visited: seq<Visited>)
    ensures multiset(visited) == multiset(Filter(Files(ws), keep))
  {
    visited := [];
    ghost var all := [];  // every regular file met so far, kept or not
    var stack := [Pending(ws.root, ws.entries, 0)];
    StackStart(ws);
    while stack != []
      invariant multiset(all) + BelowAll(stack) == multiset(Files(ws))
      invariant visited == Filter(all, keep)
      decreases StackSize(stack)
    {
      var cur := stack[|stack| - 1];
      var met, grown := ReadDirectory(cur, stack[..|stack| - 1]);
      FilterAppend(all, met, keep);
      visited := visited + Filter(met, keep);
      all := all + met;
      stack := grown;
    }
    FilterPermutes(all, Files(ws), keep);
  }

  /** `count_scannable_files_in_dir`: the progress total announced before the scan. */
  method CountScannable(ws: Workspace) returns (total: nat)
    ensures total == |Filter(Files(ws), ShouldAnalyze)|
  {
    total := 0;
    ghost var all := [];
    var stack := [Pending(ws.root, ws.entries, 0)];
    StackStart(ws);
    while stack != []
      invariant multiset(all) + BelowAll(stack) == multiset(Files(ws))
      invariant total == |Filter(all, ShouldAnalyze)|
      decreases StackSize(stack)
    {
      var cur := stack[|stack| - 1];
      var met, grown := ReadDirectory(cur, stack[..|stack| - 1]);
      FilterAppend(all, met, ShouldAnalyze);
      total := total + |Filter(met, ShouldAnalyze)|;
      all := all + met;
      stack := grown;
    }
    FilterPermutes(all, Files(ws), ShouldAnalyze);
    SameBagSameLength(Filter(all, ShouldAnalyze), Filter(Files(ws), ShouldAnalyze));
  }

  lemma StackStart(ws: Workspace)
    ensures BelowAll([Pending(ws.root, ws.entries, 0)]) == multiset(Files(ws))
  {
    assert ws.entries[0..] == ws.entries;
    assert [Pending(ws.root, ws.entries, 0)][..0] == [];
  }

  lemma SameBagSameLength<T>(a: seq<T>, b: seq<T>)
    requires multiset(a) == multiset(b)
    ensures |a| == |b|
  {
    assert |multiset(a)| == |a| && |multiset(b)| == |b|;
  }

  // ---------------------------------------------------------------------------------------
  // The recursive traversal of library_index_build.c.

  ghost function LibraryFiles(dir: string, entries: seq<Node>, depth: nat): seq<Visited> {
    Filter(Walk(dir, entries, depth, false), ShouldAnalyze)
  }

  lemma LibraryEntry(dir: string, entries: seq<Node>, i: nat, depth: nat)
    requires i < |entries|
    ensures var node, later := entries[i], LibraryFiles(dir, entries[i + 1..], depth);
            && (!Admitted(node.name, depth, false) ==> LibraryFiles(dir, entries[i..], depth) == later)
            && (Admitted(node.name, depth, false) && node.Dir? ==>
                  LibraryFiles(dir, entries[i..], depth)
                  == LibraryFiles(Child(dir, node.name), node.entries, depth + 1) + later)
            && (Admitted(node.name, depth, false) && node.File? ==>
                  LibraryFiles(dir, entries[i..], depth)
                  == (var file := Row(Child(dir, node.name), node.info);
                      if ShouldAnalyze(file) then [file] else []) + later)
  {
    assert entries[i..][1..] == entries[i + 1..];
    FilterAppend(WalkNode(dir, entries[i], depth, false), Walk(dir, entries[i + 1..], depth, false), ShouldAnalyze);
  }

  method LibraryScanDir(dir: string, entries: seq<Node>, depth: nat) returns (visited: seq<Visited>)
    ensures visited == LibraryFiles(dir, entries, depth)
    decreases entries
  {
    visited := [];
    var i := 0;
    assert entries[0..] == entries;
    while i < |entries|
      invariant i <= |entries|
      invariant visited + LibraryFiles(dir, entries[i..], depth) == LibraryFiles(dir, entries, depth)
    {
      LibraryEntry(dir, entries, i, depth);
      var node := entries[i];
      if Admitted(node.name, depth, false) {
        match node {
          case Dir(name, below) =>
            var deeper := LibraryScanDir(Child(dir, name), below, depth + 1);
            visited := visited + deeper;
          case File(name, info) =>
            if ShouldAnalyze(Row(Child(dir, name), info)) {
              visited := visited + [Row(Child(dir, name), info)];
            }
        }
      }
      i := i + 1;
    }
  }

  /** The recursion enters `.DS_Store`, and takes the sources that are not generated. */
  lemma LibraryFilesExactly(dir: string, entries: seq<Node>, file: Visited)
    ensures file in LibraryFiles(dir, entries, 0) <==>
            && NamesSource(file.path)
            && !(file.path[|file.path| - 1] in {'c', 'C'}
                 && "/* C code produced by gperf version" <= file.value.contents)
            && exists names :: && Reaches(entries, names, file.value) && file.path == Joined(dir, names)
                               && (names[0] == "src" || names[0] == "include")
                               && forall i :: 0 <= i < |names| ==>
                                    names[i] !in {".", "..", "build", "ide_files", ".git"}
  {
    WalkExactly(dir, entries, false, file);
    ExtensionByLastBytes(file.path);
  }

  /** The files only the recursive scan reaches: everything below a `.DS_Store` entry. */
  function Hidden(dir: string, entries: seq<Node>, depth: nat): seq<Visited>
    decreases entries, 1
  {
    if entries == [] then [] else HiddenNode(dir, entries[0], depth) + Hidden(dir, entries[1..], depth)
  }

  function HiddenNode(dir: string, node: Node, depth: nat): seq<Visited>
    decreases node, 0
  {
    if !Admitted(node.name, depth, false) then []
    else if node.name == ".DS_Store" then WalkNode(dir, node, depth, false)
    else match node
      case File(_, _) => []
      case Dir(name, entries) => Hidden(Child(dir, name), entries, depth + 1)
  }

  lemma {:induction false} RecursionFindsHidden(dir: string, entries: seq<Node>, depth: nat)
    ensures multiset(Walk(dir, entries, depth, false)) ==
            multiset(Walk(dir, entries, depth, true)) + multiset(Hidden(dir, entries, depth))
    decreases entries, 1
  {
    if entries != [] {
      RecursionFindsHidden(dir, entries[1..], depth);
      NodeFindsHidden(dir, entries[0], depth);
    }
  }

  lemma {:induction false} NodeFindsHidden(dir: string, node: Node, depth: nat)
    ensures multiset(WalkNode(dir, node, depth, false)) ==
            multiset(WalkNode(dir, node, depth, true)) + multiset(HiddenNode(dir, node, depth))
    decreases node, 0
  {
    if node.Dir? {
      RecursionFindsHidden(Child(dir, node.name), node.entries, depth + 1);
    }
  }

  /** Worklist against recursion: the scan that fills the stores and the scan that fills the
      library index visit the same files exactly when no analyzable file hides in `.DS_Store`. */
  lemma WorklistEqualsRecursion(ws: Workspace, keep: Visited -> bool)
    ensures multiset(Filter(Files(ws), keep)) == multiset(Filter(Walk(ws.root, ws.entries, 0, false), keep))
            <==> Filter(Hidden(ws.root, ws.entries, 0), keep) == []
  {
    var project, hidden := Files(ws), Hidden(ws.root, ws.entries, 0);
    var library := Walk(ws.root, ws.entries, 0, false);
    RecursionFindsHidden(ws.root, ws.entries, 0);
    FilterPermutes(library, project + hidden, keep);
    FilterAppend(project, hidden, keep);
    assert multiset(Filter(library, keep)) == multiset(Filter(project, keep)) + multiset(Filter(hidden, keep));
    if Filter(hidden, keep) != [] {
      assert |multiset(Filter(library, keep))| != |multiset(Filter(project, keep))|;
    }
  }

  // ---------------------------------------------------------------------------------------
  // Paths are distinct on a well-formed tree.

  ghost predicate WellFormed(entries: seq<Node>)
    decreases entries, 1
  {
    && (forall i :: 0 <= i < |entries| ==> entries[i].name != "" && '/' !in entries[i].name)
    && (forall i, j :: 0 <= i < j < |entries| ==> entries[i].name != entries[j].name)
    && (forall i :: 0 <= i < |entries| && entries[i].Dir? ==> WellFormed(entries[i].entries))
  }

  function FirstComponent(path: string): string {
    if path == [] || path[0] == '/' then [] else [path[0]] + FirstComponent(path[1..])
  }

  lemma {:induction false} ComponentOf(name: string, rest: string)
    requires '/' !in name && (rest == [] || rest[0] == '/')
    ensures FirstComponent(name + rest) == name
  {
    if name == [] {
      assert name + rest == rest;
    } else {
      assert name[0] in name && forall c :: c in name[1..] ==> c in name;
      assert (name + rest)[1..] == name[1..] + rest;
      ComponentOf(name[1..], rest);
    }
  }

  /** Which entry of `dir` a file lies in can be read off its path. */
  ghost predicate LiesIn(path: string, dir: string, name: string) {
    |dir| < |path| && path[..|dir| + 1] == dir + "/" && FirstComponent(path[|dir| + 1..]) == name
  }

  lemma {:induction false} WalkLiesIn(dir: string, entries: seq<Node>, depth: nat, skipDsStore: bool, file: Visited)
    requires WellFormed(entries) && file in Walk(dir, entries, depth, skipDsStore)
    ensures exists i :: 0 <= i < |entries| && LiesIn(file.path, dir, entries[i].name)
    decreases entries, 1
  {
    if file in WalkNode(dir, entries[0], depth, skipDsStore) {
      WalkNodeLiesIn(dir, entries[0], depth, skipDsStore, file);
    } else {
      WalkLiesIn(dir, entries[1..], depth, skipDsStore, file);
      var i :| 0 <= i < |entries[1..]| && LiesIn(file.path, dir, entries[1..][i].name);
      assert entries[1..][i] == entries[i + 1];
    }
  }

  lemma {:induction false} WalkNodeLiesIn(dir: string, node: Node, depth: nat, skipDsStore: bool, file: Visited)
    requires '/' !in node.name && (node.Dir? ==> WellFormed(node.entries))
    requires file in WalkNode(dir, node, depth, skipDsStore)
    ensures LiesIn(file.path, dir, node.name)
    decreases node, 0
  {
    var base := Child(dir, node.name);
    match node {
      case File(name, _) =>
        ComponentOf(name, []);
        assert file.path[|dir| + 1..] == name + [];
      case Dir(name, entries) =>
        WalkLiesIn(base, entries, depth + 1, skipDsStore, file);
        var i :| 0 <= i < |entries| && LiesIn(file.path, base, entries[i].name);
        BelowChild(dir, name, file.path);
    }
  }

  /** What lies below `dir/name` lies in `dir` under that name. */
  lemma BelowChild(dir: string, name: string, path: string)
    requires '/' !in name && |path| > |dir| + |name| + 1
    requires path[..|dir| + |name| + 2] == Child(dir, name) + "/"
    ensures LiesIn(path, dir, name)
  {
    var base := Child(dir, name);
    var rest := path[|base| + 1..];
    assert path == path[..|base| + 1] + rest;
    assert path == (dir + "/") + (name + ("/" + rest));
    ComponentOf(name, "/" + rest);
  }

  lemma {:induction false} WalkIsDistinct(dir: string, entries: seq<Node>, depth: nat, skipDsStore: bool)
    requires WellFormed(entries)
    ensures DistinctPaths(Walk(dir, entries, depth, skipDsStore))
    decreases entries
  {
    if entries != [] {
      var first, rest := WalkNode(dir, entries[0], depth, skipDsStore), Walk(dir, entries[1..], depth, skipDsStore);
      WalkIsDistinct(dir, entries[1..], depth, skipDsStore);
      if entries[0].Dir? {
        WalkIsDistinct(Child(dir, entries[0].name), entries[0].entries, depth + 1, skipDsStore);
      }
      forall a, b | a in first && b in rest
        ensures a.path != b.path
      {
        WalkNodeLiesIn(dir, entries[0], depth, skipDsStore, a);
        WalkLiesIn(dir, entries[1..], depth, skipDsStore, b);
      }
      DistinctAppend(first, rest);
    }
  }

  lemma DistinctAppend<V>(a: seq<Row<V>>, b: seq<Row<V>>)
    requires DistinctPaths(a) && DistinctPaths(b)
    requires forall x, y :: x in a && y in b ==> x.path != y.path
    ensures DistinctPaths(a + b)
  {
    var ab := a + b;
    forall i, j | 0 <= i < j < |ab|
      ensures ab[i].path != ab[j].path
    {
      if i < |a| <= j {
        assert ab[i] in a && ab[j] in b;
      }
    }
  }
}
