/** Duplicate-free growable path lists (analysis_job.c, include_graph.c). */
module PathList {

  predicate NoDuplicates(items: seq<string>) {
    forall i, j :: 0 <= i < j < |items| ==> items[i] != items[j]
  }

  function Added(items: seq<string>, path: string): (r: seq<string>)
    ensures items <= r
    ensures NoDuplicates(items) ==> NoDuplicates(r)
    ensures forall p :: p in r <==> p in items || (p == path && path != "")
  {
    if path == "" || path in items then items else items + [path]
  }

  function AddedAll(items: seq<string>, paths: seq<string>): (r: seq<string>)
    ensures items <= r
    ensures NoDuplicates(items) ==> NoDuplicates(r)
    ensures forall p :: p in r <==> p in items || (p in paths && p != "")
    decreases paths
  {
    if paths == [] then items
    else
      assert paths == [paths[0]] + paths[1..];
      AddedAll(Added(items, paths[0]), paths[1..])
  }

  lemma {:induction false} AddedAllAppend(items: seq<string>, a: seq<string>, b: seq<string>)
    ensures AddedAll(items, a + b) == AddedAll(AddedAll(items, a), b)
    decreases a
  {
    if a == [] {
      assert a + b == b;
    } else {
      assert (a + b)[1..] == a[1..] + b;
      AddedAllAppend(Added(items, a[0]), a[1..], b);
    }
  }

  lemma {:induction false} AddedAllKnown(items: seq<string>, paths: seq<string>)
    requires forall p :: p in paths ==> p in items
    ensures AddedAll(items, paths) == items
    decreases paths
  {
    if paths != [] {
      AddedAllKnown(items, paths[1..]);
    }
  }

  class List {
    var items: seq<string>

    constructor ()
      ensures items == []
    {
      items := [];
    }

    method Contains(path: string) returns (found: bool)
      ensures found <==> path != "" && path in items
    {
      if path == "" { return false; }
      var i := 0;
      while i < |items|
        invariant i <= |items|
        invariant path !in items[..i]
      {
        if items[i] == path { return true; }
        i := i + 1;
      }
      found := false;
    }

    /** `path_list_add_unique`: fails only on an empty path. */
    method AddUnique(path: string) returns (ok: bool)
      modifies this
      ensures items == Added(old(items), path)
      ensures ok <==> path != ""
    {
      if path == "" { return false; }
      var known := Contains(path);
      if !known {
        items := items + [path];
      }
      ok := true;
    }

    method AddAll(paths: seq<string>) returns (ok: bool)
      modifies this
      ensures ok <==> "" !in paths
      ensures ok ==> items == AddedAll(old(items), paths)
    {
      var i := 0;
      while i < |paths|
        invariant i <= |paths| && "" !in paths[..i]
        invariant AddedAll(old(items), paths) == AddedAll(items, paths[i..])
      {
        assert paths[i..][1..] == paths[i + 1..];
        var added := AddUnique(paths[i]);
        if !added { return false; }
        i := i + 1;
      }
      ok := true;
    }
  }
}
