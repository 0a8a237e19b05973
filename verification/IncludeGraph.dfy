/** The include graph (include_graph.c): which workspace files each analysed file includes. */
module IncludeGraph {
  import opened CStrings
  import opened PathTable
  import opened Frontend
  import PathList

  datatype State = State(rows: seq<Row<seq<string>>>, stamp: nat)

  predicate IsUnderRoot(path: string, root: string) {
    path != "" && root != "" && StartsWith(path, root)
    && (|path| == |root| || path[|root|] == '/' || path[|root|] == '\\')
  }

  /** The deduplicated includes that resolve inside the workspace, in order. */
  function RecordedDeps(includes: seq<Include>, root: string): (deps: seq<string>)
    ensures PathList.NoDuplicates(deps)
    ensures forall d :: d in deps <==>
                        exists i :: 0 <= i < |includes| && includes[i].resolved == d && IsUnderRoot(d, root)
  {
    if includes == [] then []
    else
      var last := includes[|includes| - 1];
      var before := RecordedDeps(includes[..|includes| - 1], root);
      assert includes == includes[..|includes| - 1] + [last];
      if IsUnderRoot(last.resolved, root) then PathList.Added(before, last.resolved) else before
  }

  function Replaced(st: State, source: string, includes: seq<Include>, root: string): State {
    if source == "" then st
    else State(Without(st.rows, source) + [Row(source, RecordedDeps(includes, root))], st.stamp + 1)
  }

  function Removed(st: State, source: string): State {
    if source != "" && Lookup(st.rows, source).Some? then State(Without(st.rows, source), st.stamp + 1) else st
  }

  function Cleared(st: State): State {
    State([], if st.rows == [] then st.stamp else st.stamp + 1)
  }

  /** The files that directly include `changed`, other than itself. */
  function Dependents(rows: seq<Row<seq<string>>>, changed: string): seq<string> {
    if changed == "" then []
    else Select(rows, (r: Row<seq<string>>) => r.path != changed && changed in r.value)
  }

  /** The root itself, or what lies below it. */
  lemma UnderRootExactly(path: string, root: string)
    ensures IsUnderRoot(path, root) <==>
            && root != ""
            && (path == root || root + "/" <= path || root + "\\" <= path)
  {
    if |path| > |root| && StartsWith(path, root) {
      assert path[..|root| + 1] == root + [path[|root|]];
      assert root + "/" <= path <==> path[|root|] == '/';
      assert root + "\\" <= path <==> path[|root|] == '\\';
    }
    assert root + "/" <= path ==> path[..|root|] == root;
    assert root + "\\" <= path ==> path[..|root|] == root;
  }

  /** The stamp moves by one with every replacement, with every removal that finds its row, and
      with every clearing that drops one; a replaced row goes to the end. */
  lemma StampMoves(st: State, source: string, includes: seq<Include>, root: string)
    requires DistinctPaths(st.rows)
    ensures source != "" ==> Replaced(st, source, includes, root).stamp == st.stamp + 1
    ensures source != "" ==>
              var rows := Replaced(st, source, includes, root).rows; rows != [] && rows[|rows| - 1].path == source
    ensures source == "" ==> Replaced(st, source, includes, root) == st && Removed(st, source) == st
    ensures source != "" ==>
              Removed(st, source).stamp == if Lookup(st.rows, source).Some? then st.stamp + 1 else st.stamp
    ensures Cleared(st).rows == [] && Cleared(st).stamp == if |st.rows| > 0 then st.stamp + 1 else st.stamp
  {
  }

  lemma ReplacedLookup(st: State, source: string, includes: seq<Include>, root: string, other: string)
    requires DistinctPaths(st.rows) && source != ""
    ensures var st' := Replaced(st, source, includes, root);
            && DistinctPaths(st'.rows)
            && Lookup(st'.rows, other) ==
               if other == source then Some(RecordedDeps(includes, root)) else Lookup(st.rows, other)
  {
    WithoutForgetsOne(st.rows, source, source);
    WithoutForgetsOne(st.rows, source, other);
    InsertFresh(Without(st.rows, source), Row(source, RecordedDeps(includes, root)), other);
  }

  lemma RemovedLookup(st: State, source: string, other: string)
    requires DistinctPaths(st.rows) && source != ""
    ensures DistinctPaths(Removed(st, source).rows)
    ensures Lookup(Removed(st, source).rows, other) == if other == source then None else Lookup(st.rows, other)
  {
    WithoutForgetsOne(st.rows, source, other);
  }

  /** Reverse lookup is exact: a file is a dependent exactly when its recorded includes name
      the changed file. */
  lemma DependentsExact(rows: seq<Row<seq<string>>>, changed: string, source: string)
    requires DistinctPaths(rows)
    ensures source in Dependents(rows, changed) <==>
            && changed != "" && source != changed
            && Lookup(rows, source).Some? && changed in Lookup(rows, source).value
  {
    var keep := (r: Row<seq<string>>) => r.path != changed && changed in r.value;
    if Lookup(rows, source).Some? {
      var row := Row(source, Lookup(rows, source).value);
      var i :| 0 <= i < |rows| && rows[i] == row;
      forall k | 0 <= k < |rows| && rows[k].path == source
        ensures k == i
      {
      }
    }
  }

  class Graph {
    var rows: seq<Row<seq<string>>>
    var stamp: nat

    function Value(): State
      reads this
    {
      State(rows, stamp)
    }

    constructor ()
      ensures Value() == State([], 0)
    {
      rows, stamp := [], 0;
    }

    method Clear()
      modifies this
      ensures Value() == Cleared(old(Value()))
    {
      if rows != [] {
        stamp := stamp + 1;
      }
      rows := [];
    }

    method RemoveSource(source: string)
      modifies this
      ensures Value() == Removed(old(Value()), source)
    {
      if source == "" { return; }
      var at, found := FindRow(rows, source);
      if found {
        rows := ShiftOut(rows, at);
        stamp := stamp + 1;
      }
    }

    method ReplaceFromResult(source: string, includes: seq<Include>, root: string)
      modifies this
      ensures Value() == Replaced(old(Value()), source, includes, root)
    {
      if source == "" { return; }
      var at, found := FindRow(rows, source);
      if found {
        rows := ShiftOut(rows, at);
      }
      var deps := new PathList.List();
      var i := 0;
      while i < |includes|
        invariant i <= |includes| && fresh(deps)
        invariant deps.items == RecordedDeps(includes[..i], root)
        invariant rows == Without(old(rows), source) && stamp == old(stamp)
      {
        assert includes[..i + 1][..i] == includes[..i];
        if IsUnderRoot(includes[i].resolved, root) {
          var _ := deps.AddUnique(includes[i].resolved);
        }
        i := i + 1;
      }
      assert includes[..i] == includes;
      rows := rows + [Row(source, deps.items)];
      stamp := stamp + 1;
    }

    method CollectDependents(changed: string) returns (paths: seq<string>)
      ensures paths == Dependents(rows, changed)
    {
      paths := [];
      if changed == "" { return; }
      var keep := (r: Row<seq<string>>) => r.path != changed && changed in r.value;
      var i := 0;
      while i < |rows|
        invariant i <= |rows|
        invariant paths + Select(rows[i..], keep) == Select(rows, keep)
      {
        assert rows[i..][1..] == rows[i + 1..];
        if rows[i].path != changed && changed in rows[i].value {
          paths := paths + [rows[i].path];
        }
        i := i + 1;
      }
    }
  }
}
