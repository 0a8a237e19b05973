/** Growable arrays keyed by a path, as the analysis stores keep them: found by a linear
    scan, removed by shifting the tail down. */
module PathTable {

  datatype Option<+T> = None | Some(value: T)

  datatype Row<+V> = Row(path: string, value: V)

  function Lookup<V>(rows: seq<Row<V>>, path: string): (r: Option<V>)
    ensures r.None? <==> forall i :: 0 <= i < |rows| ==> rows[i].path != path
    ensures r.Some? ==> exists i :: 0 <= i < |rows| && rows[i] == Row(path, r.value)
  {
    if rows == [] then None
    else if rows[0].path == path then
      assert rows[0] == Row(path, rows[0].value);
      Some(rows[0].value)
    else
      var r := Lookup(rows[1..], path);
      assert forall i :: 0 <= i < |rows| - 1 ==> rows[1..][i] == rows[i + 1];
      r
  }

  /** The rows without the first one for `path`. */
  function Without<V>(rows: seq<Row<V>>, path: string): seq<Row<V>> {
    if rows == [] then []
    else if rows[0].path == path then rows[1..]
    else [rows[0]] + Without(rows[1..], path)
  }

  ghost predicate DistinctPaths<V>(rows: seq<Row<V>>) {
    forall i, j :: 0 <= i < j < |rows| ==> rows[i].path != rows[j].path
  }

  function Paths<V>(rows: seq<Row<V>>): (ps: seq<string>)
    ensures |ps| == |rows|
    ensures forall i :: 0 <= i < |rows| ==> ps[i] == rows[i].path
  {
    seq(|rows|, i requires 0 <= i < |rows| => rows[i].path)
  }

  lemma {:induction false} LookupIsUnique<V>(rows: seq<Row<V>>, i: nat)
    requires DistinctPaths(rows) && i < |rows|
    ensures Lookup(rows, rows[i].path) == Some(rows[i].value)
  {
    if i > 0 {
      assert rows[0].path != rows[i].path;
      LookupIsUnique(rows[1..], i - 1);
    }
  }

  lemma ConsFresh<V>(row: Row<V>, rows: seq<Row<V>>, other: string)
    requires DistinctPaths(rows) && Lookup(rows, row.path).None?
    ensures DistinctPaths([row] + rows)
    ensures Lookup([row] + rows, other) == if other == row.path then Some(row.value) else Lookup(rows, other)
  {
    assert ([row] + rows)[1..] == rows;
  }

  /** Removal forgets one path and nothing else. */
  lemma {:induction false} WithoutForgetsOne<V>(rows: seq<Row<V>>, path: string, other: string)
    requires DistinctPaths(rows)
    ensures DistinctPaths(Without(rows, path))
    ensures Lookup(Without(rows, path), other) == if other == path then None else Lookup(rows, other)
  {
    if rows != [] && rows[0].path != path {
      WithoutForgetsOne(rows[1..], path, other);
      WithoutForgetsOne(rows[1..], path, rows[0].path);
      ConsFresh(rows[0], Without(rows[1..], path), other);
    }
  }

  /** Both ways the stores put a row back: in front (newest first) or at the end. */
  lemma InsertFresh<V>(rows: seq<Row<V>>, row: Row<V>, other: string)
    requires DistinctPaths(rows) && Lookup(rows, row.path).None?
    ensures DistinctPaths([row] + rows) && DistinctPaths(rows + [row])
    ensures Lookup([row] + rows, other) == if other == row.path then Some(row.value) else Lookup(rows, other)
    ensures Lookup(rows + [row], other) == if other == row.path then Some(row.value) else Lookup(rows, other)
  {
    ConsFresh(row, rows, other);
    LookupAppend(rows, row, other);
  }

  lemma {:induction false} LookupAppend<V>(rows: seq<Row<V>>, row: Row<V>, other: string)
    ensures Lookup(rows + [row], other) ==
            if Lookup(rows, other).Some? then Lookup(rows, other)
            else if other == row.path then Some(row.value) else None
  {
    if rows == [] {
      assert rows + [row] == [row];
    } else {
      assert (rows + [row])[1..] == rows[1..] + [row];
      LookupAppend(rows[1..], row, other);
    }
  }

  /** A reordering of distinct rows answers every lookup the same way. */
  lemma PermutedLookup<V>(a: seq<Row<V>>, b: seq<Row<V>>, path: string)
    requires DistinctPaths(a) && DistinctPaths(b) && multiset(a) == multiset(b)
    ensures Lookup(a, path) == Lookup(b, path)
  {
    assert forall row :: row in a <==> row in multiset(a);
    assert forall row :: row in b <==> row in multiset(b);
    if Lookup(a, path).Some? {
      var row := Row(path, Lookup(a, path).value);
      assert row in a && row in b;
      var k :| 0 <= k < |b| && b[k] == row;
      LookupIsUnique(b, k);
    } else {
      assert forall k :: 0 <= k < |b| ==> b[k] in a;
    }
  }

  lemma {:induction false} PermutedDistinct<V>(a: seq<Row<V>>, b: seq<Row<V>>)
    requires DistinctPaths(a) && multiset(a) == multiset(b)
    ensures DistinctPaths(b)
  {
    if b != [] {
      var k, others := TakeOut(a, b);
      RemovedRowIsGone(a, k);
      PermutedDistinct(others, b[1..]);
      forall i | 1 <= i < |b|
        ensures b[i].path != b[0].path
      {
        assert b[1..][i - 1] in multiset(others);
      }
    }
  }

  lemma TakeOut<T>(a: seq<T>, b: seq<T>) returns (k: nat, others: seq<T>)
    requires multiset(a) == multiset(b) && b != []
    ensures k < |a| && a[k] == b[0] && others == a[..k] + a[k + 1..]
    ensures multiset(others) == multiset(b[1..])
  {
    assert b[0] in multiset(b);
    assert b[0] in multiset(a);
    k :| 0 <= k < |a| && a[k] == b[0];
    others := a[..k] + a[k + 1..];
    MultisetWithout(a, k);
    assert b == [b[0]] + b[1..];
  }

  lemma MultisetWithout<T>(a: seq<T>, k: nat)
    requires k < |a|
    ensures multiset(a[..k] + a[k + 1..]) == multiset(a) - multiset{a[k]}
  {
    assert a == a[..k] + [a[k]] + a[k + 1..];
  }

  lemma RemovedRowIsGone<V>(a: seq<Row<V>>, k: nat)
    requires DistinctPaths(a) && k < |a|
    ensures DistinctPaths(a[..k] + a[k + 1..])
    ensures forall row :: row in a[..k] + a[k + 1..] ==> row.path != a[k].path
  {
    var others := a[..k] + a[k + 1..];
    assert forall i :: 0 <= i < |others| ==> others[i] == a[if i < k then i else i + 1];
  }

  /** The paths of the rows that satisfy `keep`, in order. */
  function Select<V(!new)>(rows: seq<Row<V>>, keep: Row<V> -> bool): (r: seq<string>)
    ensures |r| <= |rows|
    ensures forall p :: p in r ==> exists i :: 0 <= i < |rows| && rows[i].path == p && keep(rows[i])
    ensures forall i :: 0 <= i < |rows| && keep(rows[i]) ==> rows[i].path in r
  {
    if rows == [] then []
    else
      var rest := Select(rows[1..], keep);
      assert forall i :: 1 <= i < |rows| ==> rows[i] == rows[1..][i - 1];
      if keep(rows[0]) then [rows[0].path] + rest else rest
  }

  lemma {:induction false} SelectAgree<V(!new)>(rows: seq<Row<V>>, p: Row<V> -> bool, q: Row<V> -> bool)
    requires forall i :: 0 <= i < |rows| ==> p(rows[i]) == q(rows[i])
    ensures Select(rows, p) == Select(rows, q)
  {
    if rows != [] {
      SelectAgree(rows[1..], p, q);
    }
  }

  lemma {:induction false} SelectAll<V(!new)>(rows: seq<Row<V>>, p: Row<V> -> bool)
    requires forall i :: 0 <= i < |rows| ==> p(rows[i])
    ensures Select(rows, p) == Paths(rows)
  {
    if rows != [] {
      SelectAll(rows[1..], p);
    }
  }

  lemma {:induction false} SelectSplits<V(!new)>(rows: seq<Row<V>>, p: Row<V> -> bool, q: Row<V> -> bool)
    requires forall i :: 0 <= i < |rows| ==> p(rows[i]) == !q(rows[i])
    ensures |Select(rows, p)| + |Select(rows, q)| == |rows|
  {
    if rows != [] {
      SelectSplits(rows[1..], p, q);
    }
  }

  /** The linear scan the stores start with. */
  method FindRow<V>(rows: seq<Row<V>>, path: string) returns (existing: nat, found: bool)
    ensures found == Lookup(rows, path).Some?
    ensures found ==> existing < |rows| && rows[existing].path == path
    ensures found ==> Without(rows, path) == rows[..existing] + rows[existing + 1..]
    ensures !found ==> Without(rows, path) == rows
  {
    existing := 0;
    while existing < |rows|
      invariant existing <= |rows|
      invariant forall i :: 0 <= i < existing ==> rows[i].path != path
      invariant Without(rows, path) == rows[..existing] + Without(rows[existing..], path)
    {
      if rows[existing].path == path {
        assert rows[existing..][1..] == rows[existing + 1..];
        return existing, true;
      }
      assert rows[existing..][1..] == rows[existing + 1..];
      assert rows[..existing + 1] == rows[..existing] + [rows[existing]];
      existing := existing + 1;
    }
    found := false;
  }

  /** The in-place removal: every later row moves one place down, then the count drops. */
  method ShiftOut<T>(rows: seq<T>, existing: nat) returns (shifted: seq<T>)
    requires existing < |rows|
    ensures shifted == rows[..existing] + rows[existing + 1..]
  {
    shifted := rows;
    var j := existing + 1;
    while j < |shifted|
      invariant existing < j <= |shifted| == |rows|
      invariant forall k :: 0 <= k < existing ==> shifted[k] == rows[k]
      invariant forall k :: existing <= k < j - 1 ==> shifted[k] == rows[k + 1]
      invariant forall k :: j <= k < |rows| ==> shifted[k] == rows[k]
    {
      shifted := shifted[j - 1 := shifted[j]];
      j := j + 1;
    }
    shifted := shifted[..|shifted| - 1];
  }
}
