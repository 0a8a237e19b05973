/** The newest-first stores: analysis_store.c keeps one row of diagnostics per file,
    analysis_build_graph_store.c one summary per graph. Both insert in front with a fresh
    stamp, remove by shifting, and differ in how they reload what they saved. */
module RecencyStore {
  import opened PathTable

  datatype Stamped<+V> = Stamped(content: V, stamp: nat)

  datatype State<V> = State(rows: seq<Row<Stamped<V>>>, counter: nat)

  function Upserted<V>(st: State<V>, path: string, content: V): State<V> {
    State([Row(path, Stamped(content, st.counter + 1))] + Without(st.rows, path), st.counter + 1)
  }

  function Removed<V>(st: State<V>, path: string): State<V> {
    if Lookup(st.rows, path).Some? then State(Without(st.rows, path), st.counter + 1) else st
  }

  function Content<V>(st: State<V>, path: string): Option<V> {
    var row := Lookup(st.rows, path);
    if row.Some? then Some(row.value.content) else None
  }

  /** Stamps strictly fall from front to back, from `bound` down. */
  ghost predicate Falling<V>(rows: seq<Row<Stamped<V>>>, bound: int) {
    rows == [] || (rows[0].value.stamp <= bound && Falling(rows[1..], rows[0].value.stamp - 1))
  }

  /** Distinct paths, stamps strictly falling from front to back, none above the counter. */
  ghost predicate NewestFirst<V>(st: State<V>) {
    DistinctPaths(st.rows) && Falling(st.rows, st.counter)
  }

  lemma {:induction false} FallingMeans<V>(rows: seq<Row<Stamped<V>>>, bound: int)
    ensures Falling(rows, bound) <==>
            && (forall i, j :: 0 <= i < j < |rows| ==> rows[i].value.stamp > rows[j].value.stamp)
            && (forall i :: 0 <= i < |rows| ==> rows[i].value.stamp <= bound)
  {
    if rows != [] {
      FallingMeans(rows[1..], rows[0].value.stamp - 1);
      assert forall i :: 1 <= i < |rows| ==> rows[i] == rows[1..][i - 1];
    }
  }

  lemma FallingBelow<V>(rows: seq<Row<Stamped<V>>>, low: int, high: int)
    requires Falling(rows, low) && low <= high
    ensures Falling(rows, high)
  {
  }

  lemma {:induction false} WithoutFalls<V>(rows: seq<Row<Stamped<V>>>, path: string, bound: int)
    requires Falling(rows, bound)
    ensures Falling(Without(rows, path), bound)
  {
    if rows != [] {
      if rows[0].path == path {
        FallingBelow(rows[1..], rows[0].value.stamp - 1, bound);
      } else {
        WithoutFalls(rows[1..], path, rows[0].value.stamp - 1);
        assert Without(rows, path)[1..] == Without(rows[1..], path);
      }
    }
  }

  lemma WithoutKeepsNewestFirst<V>(st: State<V>, path: string)
    requires NewestFirst(st)
    ensures NewestFirst(State(Without(st.rows, path), st.counter))
    ensures Lookup(Without(st.rows, path), path).None?
  {
    WithoutForgetsOne(st.rows, path, path);
    WithoutFalls(st.rows, path, st.counter);
  }

  /** A row in front with a stamp above the counter. */
  lemma FrontKeepsNewestFirst<V>(rows: seq<Row<Stamped<V>>>, counter: nat, path: string, content: V)
    requires NewestFirst(State(rows, counter)) && Lookup(rows, path).None?
    ensures NewestFirst(State([Row(path, Stamped(content, counter + 1))] + rows, counter + 1))
  {
    var row := Row(path, Stamped(content, counter + 1));
    ConsFresh(row, rows, path);
    assert ([row] + rows)[1..] == rows;
  }

  lemma UpsertKeepsNewestFirst<V>(st: State<V>, path: string, content: V)
    requires NewestFirst(st)
    ensures NewestFirst(Upserted(st, path, content))
  {
    WithoutKeepsNewestFirst(st, path);
    FrontKeepsNewestFirst(Without(st.rows, path), st.counter, path, content);
  }

  lemma UpsertedContent<V>(st: State<V>, path: string, content: V, other: string)
    requires DistinctPaths(st.rows)
    ensures Content(Upserted(st, path, content), other) == if other == path then Some(content) else Content(st, other)
  {
    WithoutForgetsOne(st.rows, path, path);
    WithoutForgetsOne(st.rows, path, other);
    ConsFresh(Row(path, Stamped(content, st.counter + 1)), Without(st.rows, path), other);
  }

  /** One upsert keeps the order, replaces one path's content, leaves the others, and moves
      the combined stamp strictly up. */
  lemma UpsertCorrect<V>(st: State<V>, path: string, content: V, other: string)
    requires NewestFirst(st)
    ensures var st' := Upserted(st, path, content);
            && NewestFirst(st') && st'.counter == st.counter + 1
            && st'.rows[0].path == path && st'.rows[0].value.stamp == st'.counter
            && Content(st', other) == if other == path then Some(content) else Content(st, other)
  {
    UpsertKeepsNewestFirst(st, path, content);
    UpsertedContent(st, path, content, other);
  }

  /** One removal keeps the order and the other paths; the combined stamp moves exactly when
      something was there to remove. */
  lemma RemoveCorrect<V>(st: State<V>, path: string, other: string)
    requires NewestFirst(st)
    ensures var st' := Removed(st, path);
            && NewestFirst(st')
            && st'.counter == st.counter + (if Content(st, path).Some? then 1 else 0)
            && Content(st', other) == if other == path then None else Content(st, other)
  {
    WithoutKeepsNewestFirst(st, path);
    WithoutForgetsOne(st.rows, path, other);
  }

  // ---------------------------------------------------------------------------------------
  // Whole runs.

  datatype Op<V> = UpsertOp(path: string, content: V) | RemoveOp(path: string)

  function Run<V>(st: State<V>, ops: seq<Op<V>>): State<V>
    decreases ops
  {
    if ops == [] then st
    else match ops[0]
      case UpsertOp(path, content) => Run(Upserted(st, path, content), ops[1..])
      case RemoveOp(path) => Run(Removed(st, path), ops[1..])
  }

  /** What a path should hold after a run: the last thing said about it. */
  function LastWord<V>(ops: seq<Op<V>>, path: string, before: Option<V>): Option<V> {
    if ops == [] then before
    else if ops[0].path != path then LastWord(ops[1..], path, before)
    else match ops[0]
      case UpsertOp(_, content) => LastWord(ops[1..], path, Some(content))
      case RemoveOp(_) => LastWord(ops[1..], path, None)
  }

  lemma {:induction false} RunCorrect<V>(st: State<V>, ops: seq<Op<V>>, path: string)
    requires NewestFirst(st)
    ensures NewestFirst(Run(st, ops)) && Run(st, ops).counter >= st.counter
    ensures Content(Run(st, ops), path) == LastWord(ops, path, Content(st, path))
    decreases ops
  {
    if ops != [] {
      match ops[0] {
        case UpsertOp(p, content) =>
          UpsertCorrect(st, p, content, path);
          RunCorrect(Upserted(st, p, content), ops[1..], path);
        case RemoveOp(p) =>
          RemoveCorrect(st, p, path);
          RunCorrect(Removed(st, p), ops[1..], path);
      }
    }
  }

  // ---------------------------------------------------------------------------------------
  // Save and reload. `Save` writes the rows front to back.

  function Max(a: nat, b: nat): nat {
    if a < b then b else a
  }

  /** `analysis_store_load`: upserts the records in file order, then lifts the counter. */
  function LoadForward<V>(records: seq<Row<Stamped<V>>>, st: State<V>): State<V> {
    if records == [] then st
    else
      var st' := Upserted(st, records[0].path, records[0].value.content);
      LoadForward(records[1..], st'.(counter := Max(st'.counter, records[0].value.stamp)))
  }

  /** `analysis_build_graph_store_load`: upserts the records from the last to the first. */
  function LoadBackward<V>(records: seq<Row<Stamped<V>>>, st: State<V>): State<V> {
    if records == [] then st
    else
      var last := records[|records| - 1];
      LoadBackward(records[..|records| - 1], Upserted(st, last.path, last.value.content))
  }

  function Shown<V>(rows: seq<Row<Stamped<V>>>): (r: seq<(string, V)>)
    ensures |r| == |rows|
    ensures forall i :: 0 <= i < |rows| ==> r[i] == (rows[i].path, rows[i].value.content)
  {
    seq(|rows|, i requires 0 <= i < |rows| => (rows[i].path, rows[i].value.content))
  }

  function Reversed<T>(s: seq<T>): (r: seq<T>)
    ensures |r| == |s|
  {
    if s == [] then [] else Reversed(s[1..]) + [s[0]]
  }

  ghost predicate Disjoint<V>(records: seq<Row<Stamped<V>>>, st: State<V>) {
    forall i :: 0 <= i < |records| ==> Lookup(st.rows, records[i].path).None?
  }

  lemma {:induction false} WithoutAbsent<V>(rows: seq<Row<V>>, path: string)
    requires Lookup(rows, path).None?
    ensures Without(rows, path) == rows
  {
    if rows != [] {
      WithoutAbsent(rows[1..], path);
    }
  }

  lemma ShownCons<V>(row: Row<Stamped<V>>, rows: seq<Row<Stamped<V>>>)
    ensures Shown([row] + rows) == [(row.path, row.value.content)] + Shown(rows)
  {
  }

  lemma UpsertFreshShown<V>(st: State<V>, path: string, content: V)
    requires Lookup(st.rows, path).None?
    ensures Shown(Upserted(st, path, content).rows) == [(path, content)] + Shown(st.rows)
  {
    WithoutAbsent(st.rows, path);
    ShownCons(Row(path, Stamped(content, st.counter + 1)), st.rows);
  }

  lemma OthersStayDisjoint<V>(records: seq<Row<Stamped<V>>>, st: State<V>, path: string, content: V)
    requires DistinctPaths(st.rows) && Disjoint(records, st)
    requires forall i :: 0 <= i < |records| ==> records[i].path != path
    ensures Disjoint(records, Upserted(st, path, content))
  {
    forall i | 0 <= i < |records|
      ensures Lookup(Upserted(st, path, content).rows, records[i].path).None?
    {
      UpsertedContent(st, path, content, records[i].path);
    }
  }

  lemma ShownLast<V>(records: seq<Row<Stamped<V>>>)
    requires records != []
    ensures var last := records[|records| - 1];
            Shown(records) == Shown(records[..|records| - 1]) + [(last.path, last.value.content)]
  {
  }

  lemma LastRecordIsNew<V>(records: seq<Row<Stamped<V>>>, st: State<V>)
    requires records != [] && DistinctPaths(records) && Disjoint(records, st) && NewestFirst(st)
    ensures var front, last := records[..|records| - 1], records[|records| - 1];
            var st' := Upserted(st, last.path, last.value.content);
            && DistinctPaths(front) && Disjoint(front, st') && NewestFirst(st')
            && Shown(records) == Shown(front) + [(last.path, last.value.content)]
            && Shown(st'.rows) == [(last.path, last.value.content)] + Shown(st.rows)
  {
    var front, last := records[..|records| - 1], records[|records| - 1];
    UpsertKeepsNewestFirst(st, last.path, last.value.content);
    UpsertFreshShown(st, last.path, last.value.content);
    OthersStayDisjoint(front, st, last.path, last.value.content);
    ShownLast(records);
  }

  lemma {:induction false} BackwardKeepsOrder<V>(records: seq<Row<Stamped<V>>>, st: State<V>)
    requires DistinctPaths(records) && Disjoint(records, st) && NewestFirst(st)
    ensures Shown(LoadBackward(records, st).rows) == Shown(records) + Shown(st.rows)
    ensures NewestFirst(LoadBackward(records, st))
    ensures LoadBackward(records, st).counter == st.counter + |records|
  {
    if records == [] {
      assert Shown(st.rows) == Shown<V>([]) + Shown(st.rows);
    } else {
      var front, last := records[..|records| - 1], records[|records| - 1];
      var st' := Upserted(st, last.path, last.value.content);
      LastRecordIsNew(records, st);
      BackwardKeepsOrder(front, st');
      assert LoadBackward(records, st) == LoadBackward(front, st');
      MoveAcross(Shown(front), (last.path, last.value.content), Shown(st.rows));
    }
  }

  lemma MoveAcross<T>(a: seq<T>, x: T, b: seq<T>)
    ensures (a + [x]) + b == a + ([x] + b)
  {
  }

  /** The state after the first record of a forward load. */
  function AfterFirst<V>(records: seq<Row<Stamped<V>>>, st: State<V>): State<V>
    requires records != []
  {
    var st' := Upserted(st, records[0].path, records[0].value.content);
    st'.(counter := Max(st'.counter, records[0].value.stamp))
  }

  /** The counter a forward load ends with: each record takes the next stamp, and lifts the counter
      to its own saved one if that is higher. */
  function Lifted<V>(records: seq<Row<Stamped<V>>>, counter: nat): nat
    decreases records
  {
    if records == [] then counter
    else Lifted(records[1..], if records[0].value.stamp > counter + 1 then records[0].value.stamp else counter + 1)
  }

  lemma FirstRecordIsNew<V>(records: seq<Row<Stamped<V>>>, st: State<V>)
    requires records != [] && DistinctPaths(records) && Disjoint(records, st) && NewestFirst(st)
    ensures var rest, st' := records[1..], AfterFirst(records, st);
            && DistinctPaths(rest) && Disjoint(rest, st') && NewestFirst(st')
            && Shown(records) == [(records[0].path, records[0].value.content)] + Shown(rest)
            && Shown(st'.rows) == [(records[0].path, records[0].value.content)] + Shown(st.rows)
            && records[0].value.stamp <= st'.counter && st.counter <= st'.counter
  {
    var first := records[0];
    AfterFirstKeepsNewestFirst(records, st);
    UpsertFreshShown(st, first.path, first.value.content);
    OthersStayDisjoint(records[1..], st, first.path, first.value.content);
    ShownFirst(records);
  }

  lemma AfterFirstKeepsNewestFirst<V>(records: seq<Row<Stamped<V>>>, st: State<V>)
    requires records != [] && NewestFirst(st)
    ensures NewestFirst(AfterFirst(records, st))
    ensures records[0].value.stamp <= AfterFirst(records, st).counter && st.counter <= AfterFirst(records, st).counter
  {
    var up := Upserted(st, records[0].path, records[0].value.content);
    UpsertKeepsNewestFirst(st, records[0].path, records[0].value.content);
    FallingBelow(up.rows, up.counter, AfterFirst(records, st).counter);
  }

  lemma ShownFirst<V>(records: seq<Row<Stamped<V>>>)
    requires records != []
    ensures Shown(records) == [(records[0].path, records[0].value.content)] + Shown(records[1..])
  {
    assert records == [records[0]] + records[1..];
    ShownCons(records[0], records[1..]);
  }

  lemma {:induction false} ForwardReverses<V>(records: seq<Row<Stamped<V>>>, st: State<V>)
    requires DistinctPaths(records) && Disjoint(records, st) && NewestFirst(st)
    ensures Shown(LoadForward(records, st).rows) == Reversed(Shown(records)) + Shown(st.rows)
    ensures NewestFirst(LoadForward(records, st))
    ensures forall i :: 0 <= i < |records| ==> records[i].value.stamp <= LoadForward(records, st).counter
    ensures st.counter <= LoadForward(records, st).counter
    ensures LoadForward(records, st).counter == Lifted(records, st.counter)
  {
    if records == [] {
      assert Shown(st.rows) == Reversed(Shown<V>([])) + Shown(st.rows);
    } else {
      var rest, st' := records[1..], AfterFirst(records, st);
      FirstRecordIsNew(records, st);
      ForwardReverses(rest, st');
      assert LoadForward(records, st) == LoadForward(rest, st');
      ReversedCons(Shown(records)[0], Shown(rest), Shown(st.rows));
      assert forall i :: 1 <= i < |records| ==> records[i] == rest[i - 1];
    }
  }

  lemma ReversedCons<T>(x: T, s: seq<T>, t: seq<T>)
    ensures Reversed([x] + s) + t == Reversed(s) + ([x] + t)
  {
    assert ([x] + s)[1..] == s;
  }

  /** Reloading a saved store: the build-graph store comes back in its own order, the
      diagnostics store comes back reversed; neither loses or changes a row. */
  lemma ReloadOrder<V>(st: State<V>)
    requires NewestFirst(st)
    ensures var back := LoadBackward(st.rows, State([], 0));
            NewestFirst(back) && Shown(back.rows) == Shown(st.rows) && back.counter == |st.rows|
    ensures var forth := LoadForward(st.rows, State([], 0));
            NewestFirst(forth) && Shown(forth.rows) == Reversed(Shown(st.rows))
    ensures st.rows != [] ==> LoadForward(st.rows, State([], 0)).counter >= st.rows[0].value.stamp
  {
    BackwardKeepsOrder(st.rows, State([], 0));
    ForwardReverses(st.rows, State([], 0));
  }

  // ---------------------------------------------------------------------------------------

  class Store<V> {
    var files: seq<Row<Stamped<V>>>
    var stampCounter: nat
    var publishedStamp: nat

    function Value(): State<V>
      reads this
    {
      State(files, stampCounter)
    }

    constructor ()
      ensures Value() == State([], 0) && publishedStamp == 0
    {
      files, stampCounter, publishedStamp := [], 0, 0;
    }

    method Clear()
      modifies this
      ensures Value() == State([], 0) && publishedStamp == 0
    {
      files, stampCounter, publishedStamp := [], 0, 0;
    }

    method Upsert(path: string, content: V)
      modifies this
      ensures Value() == Upserted(old(Value()), path, content)
      ensures publishedStamp == old(publishedStamp)
    {
      var existing, found := FindRow(files, path);
      if found {
        files := ShiftOut(files, existing);
      }
      stampCounter := stampCounter + 1;
      files := [Row(path, Stamped(content, stampCounter))] + files;
    }

    method Remove(path: string)
      modifies this
      ensures Value() == Removed(old(Value()), path)
      ensures publishedStamp == old(publishedStamp)
    {
      var existing, found := FindRow(files, path);
      if found {
        files := ShiftOut(files, existing);
        stampCounter := stampCounter + 1;
      }
    }

    method MarkPublished(stamp: nat)
      modifies this`publishedStamp
      ensures publishedStamp == stamp
    {
      publishedStamp := stamp;
    }

    /** The diagnostics store's reload. */
    method LoadInFileOrder(records: seq<Row<Stamped<V>>>)
      modifies this
      ensures Value() == LoadForward(records, State([], 0)) && publishedStamp == 0
    {
      Clear();
      var i := 0;
      while i < |records|
        invariant i <= |records|
        invariant LoadForward(records, State([], 0)) == LoadForward(records[i..], Value())
        invariant publishedStamp == 0
      {
        assert records[i..][1..] == records[i + 1..];
        Upsert(records[i].path, records[i].value.content);
        if records[i].value.stamp > stampCounter {
          stampCounter := records[i].value.stamp;
        }
        i := i + 1;
      }
    }

    /** The build-graph store's reload. */
    method LoadFromLastRecord(records: seq<Row<Stamped<V>>>)
      modifies this
      ensures Value() == LoadBackward(records, State([], 0))
    {
      Clear();
      var i := |records|;
      assert records[..i] == records;
      while i > 0
        invariant i <= |records|
        invariant LoadBackward(records, State([], 0)) == LoadBackward(records[..i], Value())
      {
        assert records[..i][..i - 1] == records[..i - 1];
        Upsert(records[i - 1].path, records[i - 1].value.content);
        i := i - 1;
      }
    }
  }
}
