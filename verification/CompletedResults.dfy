/** Results on their way from the worker to the UI: the three-lane queue
    (completed_results_queue.c) and the filter that drops outdated ones (event_loop.c). */
module CompletedResults {
  import opened PathTable
  import opened Filters

  datatype Lane = AnalysisLane | SymbolsLane | DiagnosticsLane

  datatype Kind = AnalysisFinished | SymbolsUpdated | DiagnosticsUpdated | AnalysisProgress | AnalysisStatusUpdate

  datatype Revision = Revision(path: string, revision: nat)

  datatype Result = Result(lane: Lane, kind: Kind, runId: nat, projectRoot: string, stamp: nat,
                           document: Option<Revision>)

  const QUEUE_CAPACITY: nat := 512

  datatype Item = Item(seqNo: nat, result: Result)

  // ---------------------------------------------------------------------------------------
  // The queue. Each lane is a bounded FIFO with one result already taken out as its head.

  datatype Fifo = Fifo(head: Option<Item>, queue: seq<Item>)

  function Waiting(f: Fifo): seq<Item> {
    (if f.head.Some? then [f.head.value] else []) + f.queue
  }

  /** `refill_head_from_queue`. */
  function Refilled(f: Fifo): Fifo {
    if f.head.Some? || f.queue == [] then f else Fifo(Some(f.queue[0]), f.queue[1..])
  }

  datatype Lanes = Lanes(analysis: Fifo, symbols: Fifo, diagnostics: Fifo, nextSeq: nat)

  function LaneOf(q: Lanes, lane: Lane): Fifo {
    match lane
    case AnalysisLane => q.analysis
    case SymbolsLane => q.symbols
    case DiagnosticsLane => q.diagnostics
  }

  function WithLane(q: Lanes, lane: Lane, f: Fifo): Lanes {
    match lane
    case AnalysisLane => q.(analysis := f)
    case SymbolsLane => q.(symbols := f)
    case DiagnosticsLane => q.(diagnostics := f)
  }

  /** A full lane refuses the result; its sequence number is spent all the same. */
  function Pushed(q: Lanes, result: Result): (Lanes, bool) {
    var f := LaneOf(q, result.lane);
    var item := Item(q.nextSeq, result);
    var q' := q.(nextSeq := q.nextSeq + 1);
    if |f.queue| >= QUEUE_CAPACITY then (q', false)
    else (WithLane(q', result.lane, f.(queue := f.queue + [item])), true)
  }

  predicate Earlier(a: Option<Item>, b: Option<Item>) {
    a.Some? && (b.None? || a.value.seqNo < b.value.seqNo)
  }

  /** The lane whose head is oldest; ties cannot happen. */
  function ChosenLane(q: Lanes): Option<Lane> {
    var first := q.analysis.head;
    var second := if Earlier(q.symbols.head, first) then q.symbols.head else first;
    if Earlier(q.diagnostics.head, second) then Some(DiagnosticsLane)
    else if Earlier(q.symbols.head, first) then Some(SymbolsLane)
    else if first.Some? then Some(AnalysisLane)
    else None
  }

  function RefilledAll(q: Lanes): Lanes {
    Lanes(Refilled(q.analysis), Refilled(q.symbols), Refilled(q.diagnostics), q.nextSeq)
  }

  /** `completed_results_queue_pop_any`. */
  function PoppedAny(q: Lanes): (Lanes, Option<Item>) {
    var r := RefilledAll(q);
    match ChosenLane(r)
    case None => (r, None)
    case Some(lane) => (WithLane(r, lane, LaneOf(r, lane).(head := None)), LaneOf(r, lane).head)
  }

  function InLane(all: seq<Item>, lane: Lane): seq<Item> {
    Filter(all, (x: Item) => x.result.lane == lane)
  }

  ghost predicate InOrder(all: seq<Item>) {
    forall i, j :: 0 <= i < j < |all| ==> all[i].seqNo < all[j].seqNo
  }

  /** The abstract queue: everything accepted and not yet popped, in push order. */
  ghost predicate Represents(q: Lanes, all: seq<Item>) {
    && InOrder(all)
    && (forall i :: 0 <= i < |all| ==> all[i].seqNo < q.nextSeq)
    && (forall lane :: Waiting(LaneOf(q, lane)) == InLane(all, lane))
  }

  lemma InLaneAppend(all: seq<Item>, item: Item, lane: Lane)
    ensures InLane(all + [item], lane) == InLane(all, lane) + if item.result.lane == lane then [item] else []
  {
    FilterAppend(all, [item], (x: Item) => x.result.lane == lane);
    assert [item][1..] == [];
  }

  lemma PushAppends(q: Lanes, all: seq<Item>, result: Result)
    requires Represents(q, all)
    ensures var (q', ok) := Pushed(q, result);
            Represents(q', if ok then all + [Item(q.nextSeq, result)] else all)
  {
    var (q', ok) := Pushed(q, result);
    if ok {
      forall lane
        ensures Waiting(LaneOf(q', lane)) == InLane(all + [Item(q.nextSeq, result)], lane)
      {
        InLaneAppend(all, Item(q.nextSeq, result), lane);
        assert Waiting(LaneOf(q, lane)) == InLane(all, lane);
      }
    } else {
      assert forall lane :: LaneOf(q', lane) == LaneOf(q, lane);
    }
  }

  /** A lane refuses a result exactly when 512 wait in its queue, whatever the others hold; the
      sequence number is spent either way. */
  lemma PushRefusedIff(q: Lanes, result: Result)
    ensures Pushed(q, result).1 <==> |LaneOf(q, result.lane).queue| < 512
    ensures Pushed(q, result).0.nextSeq == q.nextSeq + 1
  {
  }

  lemma RefillKeepsWaiting(f: Fifo)
    ensures Waiting(Refilled(f)) == Waiting(f)
    ensures Waiting(f) == [] ==> Refilled(f).head.None?
    ensures Waiting(f) != [] ==> Refilled(f).head == Some(Waiting(f)[0]) && Refilled(f).queue == Waiting(f)[1..]
  {
  }

  /** The head of a lane, against the oldest item of all. */
  lemma LaneHead(all: seq<Item>, lane: Lane)
    requires InOrder(all) && all != []
    ensures all[0].result.lane == lane ==> InLane(all, lane) == [all[0]] + InLane(all[1..], lane)
    ensures all[0].result.lane != lane ==> InLane(all, lane) == InLane(all[1..], lane)
    ensures all[0].result.lane != lane && InLane(all, lane) != [] ==> InLane(all, lane)[0].seqNo > all[0].seqNo
  {
    var there := InLane(all[1..], lane);
    if there != [] {
      assert there[0] in there;
      var k :| 0 <= k < |all| - 1 && all[1..][k] == there[0];
      assert all[k + 1].seqNo > all[0].seqNo;
    }
  }

  lemma OldestLaneIsChosen(q: Lanes, all: seq<Item>)
    requires Represents(q, all)
    ensures var r := RefilledAll(q);
            && ChosenLane(r) == (if all == [] then None else Some(all[0].result.lane))
            && (all != [] ==> LaneOf(r, all[0].result.lane).head == Some(all[0]))
  {
    var r := RefilledAll(q);
    forall lane
      ensures LaneOf(r, lane) == Refilled(LaneOf(q, lane))
      ensures if InLane(all, lane) == [] then LaneOf(r, lane).head.None?
              else LaneOf(r, lane).head == Some(InLane(all, lane)[0])
    {
      RefillKeepsWaiting(LaneOf(q, lane));
      assert Waiting(LaneOf(q, lane)) == InLane(all, lane);
    }
    assert r.analysis == LaneOf(r, AnalysisLane) && r.symbols == LaneOf(r, SymbolsLane)
           && r.diagnostics == LaneOf(r, DiagnosticsLane);
    if all != [] {
      LaneHead(all, AnalysisLane);
      LaneHead(all, SymbolsLane);
      LaneHead(all, DiagnosticsLane);
    }
  }

  /** A pop takes the head off one refilled lane and only refills the others. */
  lemma PoppedLane(q: Lanes, chosen: Lane, lane: Lane)
    requires ChosenLane(RefilledAll(q)) == Some(chosen)
    ensures LaneOf(PoppedAny(q).0, lane) ==
            if lane == chosen then Refilled(LaneOf(q, lane)).(head := None) else Refilled(LaneOf(q, lane))
    ensures PoppedAny(q).1 == Refilled(LaneOf(q, chosen)).head
  {
  }

  lemma PopKeepsLane(q: Lanes, all: seq<Item>, lane: Lane)
    requires Represents(q, all) && all != []
    requires ChosenLane(RefilledAll(q)) == Some(all[0].result.lane)
    ensures Waiting(LaneOf(PoppedAny(q).0, lane)) == InLane(all[1..], lane)
  {
    PoppedLane(q, all[0].result.lane, lane);
    RefillKeepsWaiting(LaneOf(q, lane));
    assert Waiting(LaneOf(q, lane)) == InLane(all, lane);
    LaneHead(all, lane);
  }

  lemma PopOfNothing(q: Lanes)
    requires Represents(q, []) && ChosenLane(RefilledAll(q)) == None
    ensures PoppedAny(q).1 == None && Represents(PoppedAny(q).0, [])
  {
    forall lane
      ensures Waiting(LaneOf(PoppedAny(q).0, lane)) == InLane([], lane)
    {
      RefillKeepsWaiting(LaneOf(q, lane));
      assert LaneOf(RefilledAll(q), lane) == Refilled(LaneOf(q, lane));
      assert Waiting(LaneOf(q, lane)) == InLane([], lane);
    }
  }

  /** The three lanes together are one FIFO: whatever the lanes, pops come in push order. */
  lemma PopTakesOldest(q: Lanes, all: seq<Item>)
    requires Represents(q, all)
    ensures var (q', item) := PoppedAny(q);
            if all == [] then item == None && Represents(q', [])
            else item == Some(all[0]) && Represents(q', all[1..])
  {
    OldestLaneIsChosen(q, all);
    if all == [] {
      PopOfNothing(q);
    } else {
      forall lane { PopKeepsLane(q, all, lane); }
    }
  }

  datatype QueueOp = PushOp(result: Result) | PopOp

  function AfterOp(q: Lanes, op: QueueOp): Lanes {
    match op
    case PushOp(result) => Pushed(q, result).0
    case PopOp => PoppedAny(q).0
  }

  function AfterOps(q: Lanes, ops: seq<QueueOp>): Lanes
    decreases ops
  {
    if ops == [] then q else AfterOps(AfterOp(q, ops[0]), ops[1..])
  }

  function Accepted(q: Lanes, op: QueueOp): seq<Item> {
    if op.PushOp? && Pushed(q, op.result).1 then [Item(q.nextSeq, op.result)] else []
  }

  function Popped(q: Lanes, op: QueueOp): seq<Item> {
    if op.PopOp? && PoppedAny(q).1.Some? then [PoppedAny(q).1.value] else []
  }

  function AcceptedBy(q: Lanes, ops: seq<QueueOp>): seq<Item>
    decreases ops
  {
    if ops == [] then [] else Accepted(q, ops[0]) + AcceptedBy(AfterOp(q, ops[0]), ops[1..])
  }

  function PoppedBy(q: Lanes, ops: seq<QueueOp>): seq<Item>
    decreases ops
  {
    if ops == [] then [] else Popped(q, ops[0]) + PoppedBy(AfterOp(q, ops[0]), ops[1..])
  }

  lemma OnePop(q: Lanes, all: seq<Item>) returns (next: seq<Item>)
    requires Represents(q, all)
    ensures Represents(PoppedAny(q).0, next)
    ensures (if PoppedAny(q).1.Some? then [PoppedAny(q).1.value] else []) + next == all
  {
    PopTakesOldest(q, all);
    next := if all == [] then [] else all[1..];
  }

  lemma OneOp(q: Lanes, all: seq<Item>, op: QueueOp) returns (next: seq<Item>)
    requires Represents(q, all)
    ensures Represents(AfterOp(q, op), next) && Popped(q, op) + next == all + Accepted(q, op)
  {
    if op.PushOp? {
      PushAppends(q, all, op.result);
      next := all + Accepted(q, op);
      assert Pushed(q, op.result).1 || next == all;
    } else {
      next := OnePop(q, all);
      assert all + [] == all;
    }
  }

  lemma Telescopes<T>(a: seq<T>, b: seq<T>, left: seq<T>, next: seq<T>, all: seq<T>, c: seq<T>, d: seq<T>)
    requires a + next == all + c && b + left == next + d
    ensures (a + b) + left == all + (c + d)
  {
    calc {
      (a + b) + left;
      a + (b + left);
      (a + next) + d;
      all + (c + d);
    }
  }

  /** Over any run: what was popped, then what still waits, is what was accepted, in order. */
  lemma {:induction false} QueueIsFifo(q: Lanes, all: seq<Item>, ops: seq<QueueOp>) returns (left: seq<Item>)
    requires Represents(q, all)
    ensures Represents(AfterOps(q, ops), left)
    ensures PoppedBy(q, ops) + left == all + AcceptedBy(q, ops)
    decreases ops
  {
    if ops == [] {
      left := all;
    } else {
      var q', rest := AfterOp(q, ops[0]), ops[1..];
      var next := OneOp(q, all, ops[0]);
      left := QueueIsFifo(q', next, rest);
      Telescopes(Popped(q, ops[0]), PoppedBy(q', rest), left, next, all, Accepted(q, ops[0]), AcceptedBy(q', rest));
    }
  }

  class ResultsQueue {
    var analysis: Fifo
    var symbols: Fifo
    var diagnostics: Fifo
    var nextSeq: nat

    function Value(): Lanes
      reads this
    {
      Lanes(analysis, symbols, diagnostics, nextSeq)
    }

    constructor ()
      ensures Value() == Lanes(Fifo(None, []), Fifo(None, []), Fifo(None, []), 1)
    {
      analysis, symbols, diagnostics, nextSeq := Fifo(None, []), Fifo(None, []), Fifo(None, []), 1;
    }

    method Push(result: Result) returns (ok: bool)
      modifies this
      ensures (Value(), ok) == Pushed(old(Value()), result)
    {
      var item := Item(nextSeq, result);
      nextSeq := nextSeq + 1;
      var lane := LaneOf(Value(), result.lane);
      if |lane.queue| >= QUEUE_CAPACITY { return false; }
      lane := lane.(queue := lane.queue + [item]);
      match result.lane {
        case AnalysisLane => analysis := lane;
        case SymbolsLane => symbols := lane;
        case DiagnosticsLane => diagnostics := lane;
      }
      ok := true;
    }

    method PopAny() returns (item: Option<Item>)
      modifies this
      ensures (Value(), item) == PoppedAny(old(Value()))
    {
      analysis, symbols, diagnostics := Refilled(analysis), Refilled(symbols), Refilled(diagnostics);
      var choice: Option<Lane>, chosenSeq := None, 0;
      if analysis.head.Some? {
        choice, chosenSeq := Some(AnalysisLane), analysis.head.value.seqNo;
      }
      if symbols.head.Some? && (choice.None? || symbols.head.value.seqNo < chosenSeq) {
        choice, chosenSeq := Some(SymbolsLane), symbols.head.value.seqNo;
      }
      if diagnostics.head.Some? && (choice.None? || diagnostics.head.value.seqNo < chosenSeq) {
        choice := Some(DiagnosticsLane);
      }
      if choice.None? { return None; }
      item := LaneOf(Value(), choice.value).head;
      match choice.value {
        case AnalysisLane => analysis := analysis.(head := None);
        case SymbolsLane => symbols := symbols.(head := None);
        case DiagnosticsLane => diagnostics := diagnostics.(head := None);
      }
    }
  }

  // ---------------------------------------------------------------------------------------
  // The stale filter.

  /** What the UI thread sees of the world when it applies a result. */
  datatype World = World(projectPath: string, symbolsStamp: nat, diagnosticsStamp: nat, libraryStamp: nat,
                         openRevisions: map<string, nat>)

  datatype Loop = Loop(latestRunId: nat, progressStamp: nat, statusStamp: nat, applied: nat, staleDropped: nat)

  /** `completed_result_is_stale`: the document moved on or is no longer open. */
  predicate DocumentMoved(r: Result, w: World) {
    r.document.Some?
    && (r.document.value.path == "" || r.document.value.path !in w.openRevisions
        || w.openRevisions[r.document.value.path] != r.document.value.revision)
  }

  predicate StampOutdated(r: Result, w: World) {
    match r.kind
    case SymbolsUpdated => w.symbolsStamp != r.stamp
    case DiagnosticsUpdated => w.diagnosticsStamp != r.stamp
    case AnalysisFinished => w.libraryStamp != r.stamp
    case AnalysisProgress => false
    case AnalysisStatusUpdate => false
  }

  predicate IsStale(l: Loop, w: World, r: Result) {
    (0 < r.runId < l.latestRunId)
    || (r.projectRoot != "" && r.projectRoot != w.projectPath)
    || StampOutdated(r, w)
    || DocumentMoved(r, w)
  }

  function AppliedTo(l: Loop, w: World, r: Result): Loop {
    if IsStale(l, w, r) then l.(staleDropped := l.staleDropped + 1)
    else Loop(if r.runId > l.latestRunId then r.runId else l.latestRunId,
              if r.kind.AnalysisProgress? then l.progressStamp + 1 else l.progressStamp,
              if r.kind.AnalysisStatusUpdate? then l.statusStamp + 1 else l.statusStamp,
              l.applied + 1, l.staleDropped)
  }

  /** Nothing has overtaken the result: no later run was applied, it is of this project, the stamp
      of what it updated is still the one it carries, and its document is open at its revision. */
  ghost predicate IsFresh(l: Loop, w: World, r: Result) {
    && (r.runId == 0 || r.runId >= l.latestRunId)
    && (r.projectRoot == "" || r.projectRoot == w.projectPath)
    && (r.kind == SymbolsUpdated ==> r.stamp == w.symbolsStamp)
    && (r.kind == DiagnosticsUpdated ==> r.stamp == w.diagnosticsStamp)
    && (r.kind == AnalysisFinished ==> r.stamp == w.libraryStamp)
    && (r.document.Some? ==>
          && r.document.value.path != "" && r.document.value.path in w.openRevisions
          && w.openRevisions[r.document.value.path] == r.document.value.revision)
  }

  /** A result is applied if and only if nothing has overtaken it; the latest run id follows it,
      and the progress and status stamps move for their own kind alone. Otherwise it only counts
      as dropped. */
  lemma AppliedIffFresh(l: Loop, w: World, r: Result)
    ensures var l' := AppliedTo(l, w, r);
            if IsFresh(l, w, r) then
              && l'.applied == l.applied + 1 && l'.staleDropped == l.staleDropped
              && l'.latestRunId == (if r.runId == 0 then l.latestRunId else r.runId)
              && l'.progressStamp == l.progressStamp + (if r.kind == AnalysisProgress then 1 else 0)
              && l'.statusStamp == l.statusStamp + (if r.kind == AnalysisStatusUpdate then 1 else 0)
            else l' == l.(staleDropped := l.staleDropped + 1)
  {
  }

  function Drained(l: Loop, items: seq<(Result, World)>): Loop
    decreases items
  {
    if items == [] then l else Drained(AppliedTo(l, items[0].1, items[0].0), items[1..])
  }

  /** The non-zero run ids of the results applied, in order. */
  function AppliedIds(l: Loop, items: seq<(Result, World)>): seq<nat>
    decreases items
  {
    if items == [] then []
    else
      var (r, w) := items[0];
      (if !IsStale(l, w, r) && r.runId > 0 then [r.runId] else []) + AppliedIds(AppliedTo(l, w, r), items[1..])
  }

  /** Every popped result is counted once, as applied or as stale, and the run ids applied
      never go back. */
  lemma {:induction false} DrainCountsAndOrders(l: Loop, items: seq<(Result, World)>)
    ensures var l' := Drained(l, items);
            && l'.applied + l'.staleDropped == l.applied + l.staleDropped + |items|
            && l'.latestRunId >= l.latestRunId
    ensures var ids := AppliedIds(l, items);
            && (forall i :: 0 <= i < |ids| ==> l.latestRunId <= ids[i] <= Drained(l, items).latestRunId)
            && (forall i, j :: 0 <= i < j < |ids| ==> ids[i] <= ids[j])
            && Drained(l, items).latestRunId == if ids == [] then l.latestRunId else ids[|ids| - 1]
    decreases items
  {
    if items != [] {
      var (r, w) := items[0];
      DrainCountsAndOrders(AppliedTo(l, w, r), items[1..]);
    }
  }

  const DRAIN_BUDGET: nat := 64

  class EventLoop {
    var latestRunId: nat
    var progressStamp: nat
    var statusStamp: nat
    var resultsApplied: nat
    var resultsStaleDropped: nat

    function Value(): Loop
      reads this
    {
      Loop(latestRunId, progressStamp, statusStamp, resultsApplied, resultsStaleDropped)
    }

    method NoteStaleDrop()
      modifies this
      ensures Value() == old(Value()).(staleDropped := old(resultsStaleDropped) + 1)
    {
      resultsStaleDropped := resultsStaleDropped + 1;
    }

    /** `apply_completed_result`. */
    method ApplyCompletedResult(r: Result, w: World)
      modifies this
      ensures Value() == AppliedTo(old(Value()), w, r)
      ensures resultsApplied == old(resultsApplied) + if old(IsFresh(Value(), w, r)) then 1 else 0
      ensures resultsStaleDropped == old(resultsStaleDropped) + if old(IsFresh(Value(), w, r)) then 0 else 1
    {
      AppliedIffFresh(Value(), w, r);
      if r.runId > 0 && r.runId < latestRunId { NoteStaleDrop(); return; }
      if r.projectRoot != "" && r.projectRoot != w.projectPath { NoteStaleDrop(); return; }
      if StampOutdated(r, w) { NoteStaleDrop(); return; }
      if DocumentMoved(r, w) { NoteStaleDrop(); return; }
      match r.kind {
        case AnalysisProgress => progressStamp := progressStamp + 1;
        case AnalysisStatusUpdate => statusStamp := statusStamp + 1;
        case _ =>
      }
      resultsApplied := resultsApplied + 1;
      if r.runId > latestRunId {
        latestRunId := r.runId;
      }
    }

    /** `drain_completed_results`: at most 64 results a frame are popped and applied, oldest
        first; the rest stay queued. `worlds` is what the UI thread finds at each result. */
    method DrainCompletedResults(queue: ResultsQueue, worlds: nat -> World, ghost all: seq<Item>)
      returns (popped: nat)
      requires Represents(queue.Value(), all)
      modifies this, queue
      ensures popped == if |all| < 64 then |all| else 64
      ensures Represents(queue.Value(), all[popped..])
      ensures Value() == Drained(old(Value()), Met(all[..popped], worlds))
    {
      popped := 0;
      ghost var start := Value();
      var more := true;
      assert all[0..] == all;
      while more && popped < DRAIN_BUDGET
        invariant popped <= |all| && popped <= DRAIN_BUDGET
        invariant Represents(queue.Value(), all[popped..])
        invariant Value() == Drained(start, Met(all[..popped], worlds))
        invariant !more ==> popped == |all|
        decreases DRAIN_BUDGET - popped, more
      {
        PopTakesOldest(queue.Value(), all[popped..]);
        var item := queue.PopAny();
        if item.None? {
          more := false;
        } else {
          ghost var before := Value();
          ApplyCompletedResult(item.value.result, worlds(popped));
          MetNext(start, before, all, popped, worlds);
          assert all[popped..][1..] == all[popped + 1..];
          popped := popped + 1;
        }
      }
    }
  }

  /** The results of `items` with the world each one meets. */
  function Met(items: seq<Item>, worlds: nat -> World): (r: seq<(Result, World)>)
    ensures |r| == |items|
    ensures forall i :: 0 <= i < |items| ==> r[i] == (items[i].result, worlds(i))
  {
    seq(|items|, i requires 0 <= i < |items| => (items[i].result, worlds(i)))
  }

  lemma {:induction false} DrainedAppend(l: Loop, a: seq<(Result, World)>, last: (Result, World))
    ensures Drained(l, a + [last]) == AppliedTo(Drained(l, a), last.1, last.0)
    decreases a
  {
    if a == [] {
      assert [last][1..] == [] && a + [last] == [last];
    } else {
      assert (a + [last])[1..] == a[1..] + [last];
      DrainedAppend(AppliedTo(l, a[0].1, a[0].0), a[1..], last);
    }
  }

  lemma MetNext(start: Loop, before: Loop, all: seq<Item>, popped: nat, worlds: nat -> World)
    requires popped < |all| && before == Drained(start, Met(all[..popped], worlds))
    ensures Drained(start, Met(all[..popped + 1], worlds)) == AppliedTo(before, worlds(popped), all[popped].result)
  {
    assert Met(all[..popped + 1], worlds) == Met(all[..popped], worlds) + [(all[popped].result, worlds(popped))];
    DrainedAppend(start, Met(all[..popped], worlds), (all[popped].result, worlds(popped)));
  }
}
