/** The flags of one run (include_path_resolver.c): include paths and macros as given, and the
    units overlay, which is on when it is asked for or when some source of the project asks. */
module BuildFlags {
  import opened CStrings
  import opened WorkspaceTree

  /** `options` stands for the include paths and macro definitions. */
  datatype Flags = Flags(options: string, overlay: bool)

  const CHUNK: nat := 8192

  predicate Contains(text: string, needle: string) {
    StartsWith(text, needle) || (text != "" && Contains(text[1..], needle))
  }

  /** `build_flags_source_requests_physics_units`. */
  predicate RequestsUnits(contents: string) {
    Contains(contents, "[[fisics::dim") || Contains(contents, "[[fisics::unit")
    || Contains(contents, "fisics::dim(") || Contains(contents, "fisics::unit(")
  }

  function FirstChunk(contents: string): nat {
    if |contents| < CHUNK then |contents| else CHUNK
  }

  /** `scan_source_file_for_overlay`: each read of 8192 bytes is searched by itself. */
  predicate ChunksRequest(contents: string)
    decreases |contents|
  {
    contents != ""
    && (RequestsUnits(contents[..FirstChunk(contents)]) || ChunksRequest(contents[FirstChunk(contents)..]))
  }

  /** `has_source_extension`: unlike the scans' test it minds the case. */
  predicate HasSourceExtension(path: string) {
    EndsWith(path, ".c") || EndsWith(path, ".h")
  }

  /** `scan_source_tree_for_overlays`: the whole tree, not only `src` and `include`. */
  predicate TreeRequests(dir: string, entries: seq<Node>)
    decreases entries, 1
  {
    entries != [] && (NodeRequests(dir, entries[0]) || TreeRequests(dir, entries[1..]))
  }

  predicate NodeRequests(dir: string, node: Node)
    decreases node, 0
  {
    !Skipped(node.name, true)
    && match node
       case File(name, info) => HasSourceExtension(Child(dir, name)) && ChunksRequest(info.contents)
       case Dir(name, entries) => TreeRequests(Child(dir, name), entries)
  }

  /** `gather_build_flags`, as far as the overlay goes. */
  function BaseFlags(given: Flags, ws: Workspace): Flags {
    given.(overlay := given.overlay || TreeRequests(ws.root, ws.entries))
  }

  // ---------------------------------------------------------------------------------------
  // What the tree scan sees of one file.

  lemma {:induction false} ContainsInMiddle(a: string, b: string, c: string, needle: string)
    requires Contains(b, needle)
    ensures Contains(a + b + c, needle)
    decreases |a|, |b|
  {
    var all := a + b + c;
    if a != "" {
      assert all[1..] == a[1..] + b + c;
      ContainsInMiddle(a[1..], b, c, needle);
    } else if StartsWith(b, needle) {
      assert all == b + c;
    } else {
      assert all[1..] == a + b[1..] + c;
      ContainsInMiddle(a, b[1..], c, needle);
    }
  }

  lemma RequestInMiddle(a: string, b: string, c: string)
    requires RequestsUnits(b)
    ensures RequestsUnits(a + b + c)
  {
    if Contains(b, "[[fisics::dim") { ContainsInMiddle(a, b, c, "[[fisics::dim"); }
    if Contains(b, "[[fisics::unit") { ContainsInMiddle(a, b, c, "[[fisics::unit"); }
    if Contains(b, "fisics::dim(") { ContainsInMiddle(a, b, c, "fisics::dim("); }
    if Contains(b, "fisics::unit(") { ContainsInMiddle(a, b, c, "fisics::unit("); }
  }

  lemma EmptyRequestsNothing()
    ensures !RequestsUnits("")
  {
  }

  /** A request found in a chunk is a request of the file; for a file read in one chunk the
      converse holds too. Only a marker cut by a chunk boundary is missed. */
  lemma {:induction false} ChunksAgainstWhole(contents: string)
    ensures ChunksRequest(contents) ==> RequestsUnits(contents)
    ensures |contents| <= CHUNK && RequestsUnits(contents) ==> ChunksRequest(contents)
    decreases |contents|
  {
    EmptyRequestsNothing();
    if contents != "" {
      var n := FirstChunk(contents);
      var head, tail := contents[..n], contents[n..];
      ChunksAgainstWhole(tail);
      assert contents == "" + head + tail == head + tail + "";
      if RequestsUnits(head) { RequestInMiddle("", head, tail); }
      if RequestsUnits(tail) { RequestInMiddle(head, tail, ""); }
      assert |contents| <= CHUNK ==> head == contents;
    }
  }

  /** Every file of the scan with a lower-case extension and a request in one chunk is seen. */
  lemma {:induction false} TreeSeesFile(dir: string, entries: seq<Node>, depth: nat, file: Visited)
    requires file in Walk(dir, entries, depth, true)
    requires HasSourceExtension(file.path) && ChunksRequest(file.value.contents)
    ensures TreeRequests(dir, entries)
    decreases entries, 1
  {
    if file in WalkNode(dir, entries[0], depth, true) {
      NodeSeesFile(dir, entries[0], depth, file);
    } else {
      TreeSeesFile(dir, entries[1..], depth, file);
    }
  }

  lemma {:induction false} NodeSeesFile(dir: string, node: Node, depth: nat, file: Visited)
    requires file in WalkNode(dir, node, depth, true)
    requires HasSourceExtension(file.path) && ChunksRequest(file.value.contents)
    ensures NodeRequests(dir, node)
    decreases node, 0
  {
    if node.Dir? {
      TreeSeesFile(Child(dir, node.name), node.entries, depth + 1, file);
    }
  }

  // ---------------------------------------------------------------------------------------
  // The overlay, told by bytes and names alone.

  ghost predicate HasAt(text: string, needle: string, i: nat) {
    i <= |text| && needle <= text[i..]
  }

  lemma {:induction false} ContainsExactly(text: string, needle: string)
    ensures Contains(text, needle) <==> exists i :: HasAt(text, needle, i)
  {
    assert text[0..] == text;
    if needle <= text {
      assert HasAt(text, needle, 0);
    } else if text != "" {
      ContainsExactly(text[1..], needle);
      if i: nat :| HasAt(text[1..], needle, i) {
        assert text[1..][i..] == text[i + 1..];
        assert HasAt(text, needle, i + 1);
      }
      if i: nat :| HasAt(text, needle, i) {
        assert i > 0 && text[1..][i - 1..] == text[i..];
        assert HasAt(text[1..], needle, i - 1);
      }
    }
  }

  /** Four markers ask for the overlay. */
  lemma RequestsExactly(contents: string)
    ensures RequestsUnits(contents) <==>
            exists i :: || HasAt(contents, "[[fisics::dim", i) || HasAt(contents, "[[fisics::unit", i)
                        || HasAt(contents, "fisics::dim(", i) || HasAt(contents, "fisics::unit(", i)
  {
    ContainsExactly(contents, "[[fisics::dim");
    ContainsExactly(contents, "[[fisics::unit");
    ContainsExactly(contents, "fisics::dim(");
    ContainsExactly(contents, "fisics::unit(");
  }

  /** The `k`-th read of a file. */
  function Read(contents: string, k: nat): string {
    if |contents| <= 8192 * k then ""
    else if |contents| <= 8192 * (k + 1) then contents[8192 * k..]
    else contents[8192 * k..8192 * (k + 1)]
  }

  /** The first read, and the reads after it. */
  lemma ReadsShift(contents: string, k: nat)
    requires contents != ""
    ensures Read(contents, 0) == contents[..FirstChunk(contents)]
    ensures Read(contents, k + 1) == Read(contents[FirstChunk(contents)..], k)
  {
  }

  lemma {:induction false} ChunksExactly(contents: string)
    ensures ChunksRequest(contents) <==> exists k :: RequestsUnits(Read(contents, k))
    decreases |contents|
  {
    EmptyRequestsNothing();
    if contents != "" {
      var rest := contents[FirstChunk(contents)..];
      ChunksExactly(rest);
      ReadsShift(contents, 0);
      if k: nat :| RequestsUnits(Read(rest, k)) {
        ReadsShift(contents, k);
      }
      if k: nat :| RequestsUnits(Read(contents, k)) && k > 0 {
        ReadsShift(contents, k - 1);
      }
    }
  }

  ghost predicate IsLowerCaseSource(path: string) {
    |path| >= 2 && path[|path| - 2] == '.' && path[|path| - 1] in {'c', 'h'}
  }

  /** The file the names lead to asks for the overlay, as far as the tree scan can see. */
  ghost predicate Asks(dir: string, entries: seq<Node>, names: seq<string>, info: FileInfo) {
    && Reaches(entries, names, info) && Open(names, true)
    && IsLowerCaseSource(Joined(dir, names))
    && exists k :: RequestsUnits(Read(info.contents, k))
  }

  lemma LowerCaseByLastBytes(path: string)
    ensures HasSourceExtension(path) <==> IsLowerCaseSource(path)
  {
    if |path| >= 2 {
      assert path[|path| - 2..] == [path[|path| - 2], path[|path| - 1]];
    }
  }

  lemma {:induction false} TreeIsAsked(dir: string, entries: seq<Node>) returns (names: seq<string>, info: FileInfo)
    requires TreeRequests(dir, entries)
    ensures Asks(dir, entries, names, info)
    decreases entries, 1
  {
    if NodeRequests(dir, entries[0]) {
      names, info := NodeIsAsked(dir, entries[0]);
    } else {
      names, info := TreeIsAsked(dir, entries[1..]);
      var i :| 0 <= i < |entries[1..]| && Leads(entries[1..][i], names, info);
      assert entries[i + 1] == entries[1..][i];
    }
  }

  lemma {:induction false} NodeIsAsked(dir: string, node: Node) returns (names: seq<string>, info: FileInfo)
    requires NodeRequests(dir, node)
    ensures Asks(dir, [node], names, info) && Leads(node, names, info)
    decreases node, 0
  {
    match node {
      case File(name, there) =>
        names, info := [name], there;
        assert names[1..] == [];
        LowerCaseByLastBytes(Child(dir, name));
        ChunksExactly(there.contents);
        assert Leads([node][0], names, info);
      case Dir(name, entries) =>
        var below;
        below, info := TreeIsAsked(Child(dir, name), entries);
        names := [name] + below;
        assert names[1..] == below;
        assert Leads([node][0], names, info);
    }
  }

  lemma {:induction false} AskedTree(dir: string, entries: seq<Node>, names: seq<string>, info: FileInfo)
    requires Asks(dir, entries, names, info)
    ensures TreeRequests(dir, entries)
    decreases names
  {
    var i :| 0 <= i < |entries| && Leads(entries[i], names, info);
    var node, rest := entries[i], names[1..];
    assert names[0] in names;
    if |names| == 1 {
      assert rest == [] && Joined(dir, names) == Child(dir, node.name);
      LowerCaseByLastBytes(Child(dir, node.name));
      ChunksExactly(info.contents);
    } else {
      assert forall k :: 0 <= k < |rest| ==> rest[k] == names[k + 1];
      AskedTree(Child(dir, node.name), node.entries, rest, info);
    }
    NodeAsksForTree(dir, entries, i);
  }

  lemma {:induction false} NodeAsksForTree(dir: string, entries: seq<Node>, i: nat)
    requires i < |entries| && NodeRequests(dir, entries[i])
    ensures TreeRequests(dir, entries)
  {
    if i > 0 {
      NodeAsksForTree(dir, entries[1..], i - 1);
    }
  }

  /** The overlay of a run is on when it was given, or when some lower-case `.c` or `.h` file
      anywhere in the project, not only below `src` and `include`, has a marker in one read. */
  lemma OverlayExactly(given: Flags, ws: Workspace)
    ensures BaseFlags(given, ws).options == given.options
    ensures BaseFlags(given, ws).overlay <==>
            given.overlay || exists names, info :: Asks(ws.root, ws.entries, names, info)
  {
    if TreeRequests(ws.root, ws.entries) {
      var names, info := TreeIsAsked(ws.root, ws.entries);
    }
    forall names, info | Asks(ws.root, ws.entries, names, info) { AskedTree(ws.root, ws.entries, names, info); }
  }

  // ---------------------------------------------------------------------------------------

  /** The read loop over one file. */
  method ScanSourceFile(contents: string) returns (found: bool)
    ensures found <==> ChunksRequest(contents)
  {
    var at := 0;
    assert contents[0..] == contents;
    while at < |contents|
      invariant at <= |contents|
      invariant ChunksRequest(contents) <==> ChunksRequest(contents[at..])
    {
      var rest := contents[at..];
      var n := FirstChunk(rest);
      if RequestsUnits(rest[..n]) { return true; }
      assert rest[n..] == contents[at + n..];
      at := at + n;
    }
    found := false;
  }

  /** The directory loop: stops as soon as the overlay is on. */
  method ScanSourceTree(dir: string, entries: seq<Node>, overlay: bool) returns (found: bool)
    ensures found <==> overlay || TreeRequests(dir, entries)
    decreases entries
  {
    found := overlay;
    var i := 0;
    assert entries[0..] == entries;
    while i < |entries| && !found
      invariant i <= |entries|
      invariant (overlay || TreeRequests(dir, entries)) <==> found || TreeRequests(dir, entries[i..])
    {
      assert entries[i..][1..] == entries[i + 1..];
      var node := entries[i];
      if !Skipped(node.name, true) {
        match node {
          case Dir(name, below) => found := ScanSourceTree(Child(dir, name), below, found);
          case File(name, info) =>
            if HasSourceExtension(Child(dir, name)) {
              found := ScanSourceFile(info.contents);
            }
        }
      }
      i := i + 1;
    }
  }

  method GatherBuildFlags(given: Flags, ws: Workspace) returns (flags: Flags)
    ensures flags == BaseFlags(given, ws)
  {
    var overlay := ScanSourceTree(ws.root, ws.entries, given.overlay);
    flags := given.(overlay := overlay);
  }
}
