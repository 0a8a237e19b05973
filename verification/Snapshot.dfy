/** File-fingerprint snapshots and the sorted merge that compares two of them
    (analysis_snapshot.c), with the saved-file hint filter that repeats the comparison
    one path at a time (analysis_incremental_policy.c). */
module Snapshot {
  import opened CStrings
  import opened PathTable
  import opened Sorting

  datatype Mark = Mark(mtime: int, size: int, hash: nat)

  type Fingerprint = Row<Mark>

  /** Content hashes decide when both sides have one; otherwise time and size do. */
  predicate ContentEqual(a: Mark, b: Mark) {
    if a.hash != 0 && b.hash != 0 then a.hash == b.hash
    else a.mtime == b.mtime && a.size == b.size
  }

  predicate ByPath(a: Fingerprint, b: Fingerprint) {
    Strcmp(a.path, b.path) <= 0
  }

  function SortByPath(files: seq<Fingerprint>): seq<Fingerprint> {
    Sort(files, ByPath)
  }

  ghost predicate StrictlySorted(files: seq<Fingerprint>) {
    forall i, j :: 0 <= i < j < |files| ==> Strcmp(files[i].path, files[j].path) < 0
  }

  /** What the two-index loop produces: (dirty paths, removed paths). */
  function Merge(cached: seq<Fingerprint>, current: seq<Fingerprint>): (seq<string>, seq<string>) {
    if cached == [] then (Paths(current), [])
    else if current == [] then ([], Paths(cached))
    else
      var a, b := cached[0], current[0];
      var cmp := Strcmp(a.path, b.path);
      if cmp == 0 then
        var rest := Merge(cached[1..], current[1..]);
        (if ContentEqual(a.value, b.value) then rest.0 else [b.path] + rest.0, rest.1)
      else if cmp < 0 then
        var rest := Merge(cached[1..], current);
        (rest.0, [a.path] + rest.1)
      else
        var rest := Merge(cached, current[1..]);
        ([b.path] + rest.0, rest.1)
  }

  // ---------------------------------------------------------------------------------------
  // The reference definition: each list is a filter of one snapshot by lookups in the other.

  predicate Unchanged(cached: seq<Fingerprint>, f: Fingerprint) {
    var was := Lookup(cached, f.path);
    was.Some? && ContentEqual(was.value, f.value)
  }

  function DirtyPaths(cached: seq<Fingerprint>, current: seq<Fingerprint>): seq<string> {
    Select(current, f => !Unchanged(cached, f))
  }

  function RemovedPaths(cached: seq<Fingerprint>, current: seq<Fingerprint>): seq<string> {
    Select(cached, (f: Fingerprint) => Lookup(current, f.path).None?)
  }

  function NewPaths(cached: seq<Fingerprint>, current: seq<Fingerprint>): seq<string> {
    Select(current, (f: Fingerprint) => Lookup(cached, f.path).None?)
  }

  function MatchedPaths(cached: seq<Fingerprint>, current: seq<Fingerprint>): seq<string> {
    Select(current, f => Unchanged(cached, f))
  }

  // ---------------------------------------------------------------------------------------

  lemma SortedIsDistinct(files: seq<Fingerprint>)
    requires StrictlySorted(files)
    ensures DistinctPaths(files)
  {
    forall i, j | 0 <= i < j < |files|
      ensures files[i].path != files[j].path
    {
      StrcmpZeroIffEqual(files[i].path, files[j].path);
    }
  }

  /** A path below every row of a sorted snapshot is not in it. */
  lemma BelowAllIsAbsent(path: string, files: seq<Fingerprint>)
    requires StrictlySorted(files)
    requires files != [] ==> Strcmp(path, files[0].path) < 0
    ensures forall i :: 0 <= i < |files| ==> files[i].path != path
    ensures Lookup(files, path).None?
  {
    forall i | 0 <= i < |files|
      ensures files[i].path != path
    {
      if i > 0 {
        StrcmpTransitive(path, files[0].path, files[i].path);
      }
      StrcmpZeroIffEqual(path, files[i].path);
    }
  }

  /** Dropping the smallest cached row changes no filter when that row is not in `current`. */
  lemma DropCachedHead(cached: seq<Fingerprint>, current: seq<Fingerprint>)
    requires cached != []
    requires forall i :: 0 <= i < |current| ==> current[i].path != cached[0].path
    ensures DirtyPaths(cached, current) == DirtyPaths(cached[1..], current)
    ensures NewPaths(cached, current) == NewPaths(cached[1..], current)
  {
    SelectAgree(current, f => !Unchanged(cached, f), f => !Unchanged(cached[1..], f));
    SelectAgree(current, (f: Fingerprint) => Lookup(cached, f.path).None?,
                (f: Fingerprint) => Lookup(cached[1..], f.path).None?);
  }

  lemma DropCurrentHead(cached: seq<Fingerprint>, current: seq<Fingerprint>)
    requires current != []
    requires forall i :: 0 <= i < |cached| ==> cached[i].path != current[0].path
    ensures RemovedPaths(cached, current) == RemovedPaths(cached, current[1..])
  {
    SelectAgree(cached, (f: Fingerprint) => Lookup(current, f.path).None?,
                (f: Fingerprint) => Lookup(current[1..], f.path).None?);
  }

  ghost predicate MergeExact(cached: seq<Fingerprint>, current: seq<Fingerprint>) {
    && Merge(cached, current) == (DirtyPaths(cached, current), RemovedPaths(cached, current))
    && |cached| + |NewPaths(cached, current)| == |current| + |RemovedPaths(cached, current)|
  }

  lemma MergeSameHead(cached: seq<Fingerprint>, current: seq<Fingerprint>)
    requires StrictlySorted(cached) && StrictlySorted(current) && cached != [] && current != []
    requires cached[0].path == current[0].path && MergeExact(cached[1..], current[1..])
    ensures MergeExact(cached, current)
  {
    var a, b := cached[0], current[0];
    StrcmpZeroIffEqual(a.path, b.path);
    BelowAllIsAbsent(a.path, cached[1..]);
    BelowAllIsAbsent(b.path, current[1..]);
    DropCachedHead(cached, current[1..]);
    DropCurrentHead(cached[1..], current);
  }

  lemma MergeCachedHead(cached: seq<Fingerprint>, current: seq<Fingerprint>)
    requires StrictlySorted(current) && cached != [] && current != []
    requires Strcmp(cached[0].path, current[0].path) < 0 && MergeExact(cached[1..], current)
    ensures MergeExact(cached, current)
  {
    BelowAllIsAbsent(cached[0].path, current);
    DropCachedHead(cached, current);
  }

  lemma MergeCurrentHead(cached: seq<Fingerprint>, current: seq<Fingerprint>)
    requires StrictlySorted(cached) && cached != [] && current != []
    requires Strcmp(cached[0].path, current[0].path) > 0 && MergeExact(cached, current[1..])
    ensures MergeExact(cached, current)
  {
    StrcmpAntisymmetric(cached[0].path, current[0].path);
    BelowAllIsAbsent(current[0].path, cached);
    DropCurrentHead(cached, current);
  }

  /** The merge is exact: dirty is the filter of `current`, removed the filter of `cached`,
      and the two snapshots' sizes are accounted for. */
  lemma {:induction false} MergeIsExact(cached: seq<Fingerprint>, current: seq<Fingerprint>)
    requires StrictlySorted(cached) && StrictlySorted(current)
    ensures Merge(cached, current) == (DirtyPaths(cached, current), RemovedPaths(cached, current))
    ensures |cached| + |NewPaths(cached, current)| == |current| + |RemovedPaths(cached, current)|
    decreases |cached| + |current|
  {
    if cached == [] {
      SelectAll(current, f => !Unchanged(cached, f));
      SelectAll(current, (f: Fingerprint) => Lookup(cached, f.path).None?);
    } else if current == [] {
      SelectAll(cached, (f: Fingerprint) => Lookup(current, f.path).None?);
    } else {
      var cmp := Strcmp(cached[0].path, current[0].path);
      StrcmpZeroIffEqual(cached[0].path, current[0].path);
      if cmp == 0 {
        MergeIsExact(cached[1..], current[1..]);
        MergeSameHead(cached, current);
      } else if cmp < 0 {
        MergeIsExact(cached[1..], current);
        MergeCachedHead(cached, current);
      } else {
        MergeIsExact(cached, current[1..]);
        MergeCurrentHead(cached, current);
      }
    }
  }

  /** current = matched + dirty, for any two snapshots. */
  lemma MatchedPlusDirty(cached: seq<Fingerprint>, current: seq<Fingerprint>)
    ensures |MatchedPaths(cached, current)| + |DirtyPaths(cached, current)| == |current|
  {
    SelectSplits(current, f => Unchanged(cached, f), f => !Unchanged(cached, f));
  }

  lemma ByPathIsTotal()
    ensures TotalPreorder(ByPath)
  {
    forall x: Fingerprint, y: Fingerprint
      ensures ByPath(x, y) || ByPath(y, x)
    {
      StrcmpAntisymmetric(x.path, y.path);
    }
    forall x: Fingerprint, y: Fingerprint, z: Fingerprint | ByPath(x, y) && ByPath(y, z)
      ensures ByPath(x, z)
    {
      StrcmpTransitive(x.path, y.path, z.path);
    }
  }

  /** Sorting files with distinct paths gives the strictly sorted snapshot the merge needs,
      with every lookup unchanged. */
  lemma SortedSnapshot(files: seq<Fingerprint>)
    requires DistinctPaths(files)
    ensures StrictlySorted(SortByPath(files))
    ensures forall p :: Lookup(SortByPath(files), p) == Lookup(files, p)
  {
    var sorted := SortByPath(files);
    ByPathIsTotal();
    SortSorts(files, ByPath);
    SortKeepsElements(files, ByPath);
    PermutedDistinct(files, sorted);
    forall i, j | 0 <= i < j < |sorted|
      ensures Strcmp(sorted[i].path, sorted[j].path) < 0
    {
      assert ByPath(sorted[i], sorted[j]);
      StrcmpZeroIffEqual(sorted[i].path, sorted[j].path);
    }
    forall p
      ensures Lookup(sorted, p) == Lookup(files, p)
    {
      PermutedLookup(files, sorted, p);
    }
  }

  // ---------------------------------------------------------------------------------------

  /** What one turn of the merge loop adds: (to dirty, to removed), and how far each index moves. */
  function Step(a: Fingerprint, b: Fingerprint): (r: (seq<string>, seq<string>, nat, nat))
    ensures r.2 + r.3 > 0
  {
    var cmp := Strcmp(a.path, b.path);
    if cmp == 0 then (if ContentEqual(a.value, b.value) then [] else [b.path], [], 1, 1)
    else if cmp < 0 then ([], [a.path], 1, 0)
    else ([b.path], [], 0, 1)
  }

  lemma MergeTurns(cached: seq<Fingerprint>, current: seq<Fingerprint>, i: nat, j: nat)
    requires i < |cached| && j < |current|
    ensures var s := Step(cached[i], current[j]);
            && i + s.2 <= |cached| && j + s.3 <= |current|
            && Merge(cached[i..], current[j..]).0 == s.0 + Merge(cached[i + s.2..], current[j + s.3..]).0
            && Merge(cached[i..], current[j..]).1 == s.1 + Merge(cached[i + s.2..], current[j + s.3..]).1
  {
    assert cached[i..][1..] == cached[i + 1..] && current[j..][1..] == current[j + 1..];
  }

  /** `append_path` refuses an empty path. */
  method AppendRest(list: seq<string>, files: seq<Fingerprint>, from: nat) returns (ok: bool, grown: seq<string>)
    requires from <= |files|
    ensures ok <==> "" !in Paths(files[from..])
    ensures ok ==> grown == list + Paths(files[from..])
  {
    grown := list;
    var i := from;
    while i < |files|
      invariant from <= i <= |files|
      invariant grown == list + Paths(files[from..i])
      invariant "" !in Paths(files[from..i])
    {
      var path := files[i].path;
      assert Paths(files[from..i + 1]) == Paths(files[from..i]) + [path];
      if path == "" {
        assert Paths(files[from..])[i - from] == "";
        return false, grown;
      }
      grown := grown + [path];
      i := i + 1;
    }
    assert files[from..i] == files[from..];
    ok := true;
  }

  /** `analysis_snapshot_compute_dirty_sets`: an empty path makes the whole comparison fail. */
  method ComputeDirtySets(cached: seq<Fingerprint>, current: seq<Fingerprint>)
    returns (ok: bool, dirty: seq<string>, removed: seq<string>)
    ensures ok <==> "" !in Merge(cached, current).0 && "" !in Merge(cached, current).1
    ensures ok ==> (dirty, removed) == Merge(cached, current)
    ensures ok && StrictlySorted(cached) && StrictlySorted(current) ==>
              forall p :: Lookup(cached, p).Some? && Lookup(current, p).Some? ==>
                            var a, b := Lookup(cached, p).value, Lookup(current, p).value;
                            p in dirty <==> if a.hash != 0 && b.hash != 0 then a.hash != b.hash
                                            else a.mtime != b.mtime || a.size != b.size
  {
    dirty, removed := [], [];
    var i, j := 0, 0;
    while i < |cached| && j < |current|
      invariant i <= |cached| && j <= |current|
      invariant "" !in dirty && "" !in removed
      invariant Merge(cached, current).0 == dirty + Merge(cached[i..], current[j..]).0
      invariant Merge(cached, current).1 == removed + Merge(cached[i..], current[j..]).1
      decreases |cached| - i + |current| - j
    {
      var a, b := cached[i], current[j];
      MergeTurns(cached, current, i, j);
      var cmp := Strcmp(a.path, b.path);
      if cmp == 0 {
        if !ContentEqual(a.value, b.value) {
          if b.path == "" { return false, dirty, removed; }
          dirty := dirty + [b.path];
        }
        i, j := i + 1, j + 1;
      } else if cmp < 0 {
        if a.path == "" { return false, dirty, removed; }
        removed := removed + [a.path];
        i := i + 1;
      } else {
        if b.path == "" { return false, dirty, removed; }
        dirty := dirty + [b.path];
        j := j + 1;
      }
    }
    ok, removed := AppendRest(removed, cached, i);
    if ok {
      ok, dirty := AppendRest(dirty, current, j);
    }
    ChangesByFields(cached, current);
  }

  lemma ChangesByFields(cached: seq<Fingerprint>, current: seq<Fingerprint>)
    ensures StrictlySorted(cached) && StrictlySorted(current) ==>
              forall p :: Lookup(cached, p).Some? && Lookup(current, p).Some? ==>
                            var a, b := Lookup(cached, p).value, Lookup(current, p).value;
                            p in Merge(cached, current).0 <==>
                              if a.hash != 0 && b.hash != 0 then a.hash != b.hash
                              else a.mtime != b.mtime || a.size != b.size
  {
    if StrictlySorted(cached) && StrictlySorted(current) {
      forall p | Lookup(cached, p).Some? && Lookup(current, p).Some? { DirtyByFields(cached, current, p); }
    }
  }

  // ---------------------------------------------------------------------------------------

  /** `path_list_has_header`. */
  predicate HasHeader(paths: seq<string>) {
    exists i :: 0 <= i < |paths| && EndsWith(paths[i], ".h")
  }

  /** `analysis_incremental_policy_should_analyze_hint`. */
  predicate ShouldAnalyzeHint(cached: seq<Fingerprint>, current: seq<Fingerprint>, path: string) {
    path != "" && Lookup(current, path).Some?
    && (Lookup(cached, path).Some? ==> !ContentEqual(Lookup(cached, path).value, Lookup(current, path).value))
  }

  /** A saved-file hint is accepted exactly when the merge already calls the file dirty. */
  lemma HintAcceptedIffDirty(cached: seq<Fingerprint>, current: seq<Fingerprint>, path: string)
    requires StrictlySorted(cached) && StrictlySorted(current)
    ensures ShouldAnalyzeHint(cached, current, path) <==> path != "" && path in Merge(cached, current).0
  {
    MergeIsExact(cached, current);
    SortedIsDistinct(current);
    if Lookup(current, path).Some? {
      var i :| 0 <= i < |current| && current[i] == Row(path, Lookup(current, path).value);
      forall k | 0 <= k < |current| && current[k].path == path
        ensures k == i
      {
      }
    }
  }

  /** Membership in the two lists, read off the snapshots. */
  lemma DiffMembership(cached: seq<Fingerprint>, current: seq<Fingerprint>, path: string)
    requires StrictlySorted(cached) && StrictlySorted(current)
    ensures path in Merge(cached, current).0 <==>
            Lookup(current, path).Some? && !Unchanged(cached, Row(path, Lookup(current, path).value))
    ensures path in Merge(cached, current).1 <==> Lookup(cached, path).Some? && Lookup(current, path).None?
  {
    MergeIsExact(cached, current);
    SortedIsDistinct(current);
    if Lookup(current, path).Some? {
      var i :| 0 <= i < |current| && current[i] == Row(path, Lookup(current, path).value);
      forall k | 0 <= k < |current| && current[k].path == path
        ensures k == i
      {
      }
    }
  }

  /** When a file of both snapshots counts as changed, field by field: content hashes decide if
      both sides have one, whatever the times and sizes; otherwise time or size must differ. */
  lemma DirtyByFields(cached: seq<Fingerprint>, current: seq<Fingerprint>, path: string)
    requires StrictlySorted(cached) && StrictlySorted(current)
    requires Lookup(cached, path).Some? && Lookup(current, path).Some?
    ensures var a, b := Lookup(cached, path).value, Lookup(current, path).value;
            var dirty := path in Merge(cached, current).0;
            && (a.hash != 0 && b.hash != 0 ==> (dirty <==> a.hash != b.hash))
            && (a.hash == 0 || b.hash == 0 ==> (dirty <==> a.mtime != b.mtime || a.size != b.size))
            && (ShouldAnalyzeHint(cached, current, path) <==> path != "" && dirty)
  {
    DiffMembership(cached, current, path);
    HintAcceptedIffDirty(cached, current, path);
  }

  /** A file of one snapshot alone is new, and then dirty, or removed. */
  lemma OneSided(cached: seq<Fingerprint>, current: seq<Fingerprint>, path: string)
    requires StrictlySorted(cached) && StrictlySorted(current)
    requires Lookup(cached, path).None? || Lookup(current, path).None?
    ensures path in Merge(cached, current).0 <==> Lookup(current, path).Some?
    ensures path in Merge(cached, current).1 <==> Lookup(cached, path).Some?
    ensures ShouldAnalyzeHint(cached, current, path) <==> path != "" && Lookup(current, path).Some?
  {
    DiffMembership(cached, current, path);
  }

  /** The policy asks for a name that ends in `.h`, lower case. */
  lemma HeaderByLastBytes(paths: seq<string>)
    ensures HasHeader(paths) <==>
            exists p :: p in paths && |p| >= 2 && p[|p| - 2] == '.' && p[|p| - 1] == 'h'
  {
    forall p: string | |p| >= 2
      ensures EndsWith(p, ".h") <==> p[|p| - 2] == '.' && p[|p| - 1] == 'h'
    {
      assert p[|p| - 2..] == [p[|p| - 2], p[|p| - 1]];
    }
    if i :| 0 <= i < |paths| && EndsWith(paths[i], ".h") {
      assert paths[i] in paths;
    }
  }
}
