/** What the scheduler keeps over whole runs: accounting, consecutive run ids, coalescing
    that loses nothing, bounded fairness, and how the priority lanes can starve the rest. */
module SchedulerRuns {
  import opened PathTable
  import opened Scheduler
  import PathList

  // ---------------------------------------------------------------------------------------
  // The state invariant and the counters.

  function PendingKeys(st: State): set<nat>
    requires |st.slots| == SLOT_COUNT
  {
    set k | 1 <= k < SLOT_COUNT && st.slots[k].pending
  }

  ghost predicate Valid(st: State) {
    && Shaped(st)
    && !st.slots[NO_KEY].pending
    && (forall k :: 1 <= k < SLOT_COUNT && st.slots[k].pending ==> st.slots[k].enqueueSeq < st.nextSeq)
    && (forall j, k :: 1 <= j < k < SLOT_COUNT && st.slots[j].pending && st.slots[k].pending ==>
          st.slots[j].enqueueSeq != st.slots[k].enqueueSeq)
    && (if st.running
        then st.activeRunId + 1 == st.nextRunId && st.lastCompleted + 2 == st.nextRunId && IsKey(st.activeKey)
        else st.activeRunId == 0 && st.lastCompleted + 1 == st.nextRunId && st.activeKey == NO_KEY)
    && st.nextRunId >= 1
  }

  /** started + pending <= scheduled <= started + pending + coalesced. */
  ghost predicate Accounted(st: State)
    requires |st.slots| == SLOT_COUNT && st.nextRunId >= 1
  {
    var owed := st.nextRunId - 1 + |PendingKeys(st)|;
    owed <= st.scheduled <= owed + st.coalesced
  }

  lemma AcceptPending(st: State, key: nat, req: Request)
    requires |st.slots| == SLOT_COUNT && IsKey(key)
    ensures PendingKeys(Accept(st, key, req)) == PendingKeys(st) + {key}
    ensures |PendingKeys(Accept(st, key, req))| == |PendingKeys(st)| + if st.slots[key].pending then 0 else 1
  {
    var keys := PendingKeys(st);
    assert PendingKeys(Accept(st, key, req)) == keys + {key};
    assert if st.slots[key].pending then keys + {key} == keys else key !in keys;
  }

  lemma AcceptKeepsValid(st: State, key: nat, req: Request)
    requires Valid(st) && IsKey(key)
    ensures Valid(Accept(st, key, req))
    ensures Accounted(st) ==> Accounted(Accept(st, key, req))
  {
    AcceptPending(st, key, req);
  }

  lemma CompletedKeepsValid(st: State, workerRunning: bool)
    requires Valid(st)
    ensures var idle := Completed(st, workerRunning);
            && Valid(idle) && idle.slots == st.slots && PendingKeys(idle) == PendingKeys(st)
            && (Accounted(st) ==> Accounted(idle))
  {
    assert PendingKeys(Completed(st, workerRunning)) == PendingKeys(st);
  }

  lemma EmptyingOneSlot(st: State, st': State, key: nat)
    requires |st.slots| == SLOT_COUNT && IsKey(key) && st.slots[key].pending && st'.slots == st.slots[key := EMPTY_SLOT]
    ensures PendingKeys(st') == PendingKeys(st) - {key} && |PendingKeys(st)| == |PendingKeys(st')| + 1
  {
    assert PendingKeys(st') == PendingKeys(st) - {key};
    assert key in PendingKeys(st);
  }

  lemma TickKeepsValid(st: State, workerRunning: bool, hasRoot: bool)
    requires Valid(st)
    ensures var (st', started) := Ticked(st, workerRunning, hasRoot);
            && Valid(st')
            && PendingKeys(st') == PendingKeys(st) - (if started.Some? then {started.value.key} else {})
            && (Accounted(st) ==> Accounted(st'))
  {
    var (st', started) := Ticked(st, workerRunning, hasRoot);
    CompletedKeepsValid(st, workerRunning);
    if started.Some? {
      EmptyingOneSlot(Completed(st, workerRunning), st', started.value.key);
    }
  }

  lemma StepKeepsValid(st: State, ev: Event)
    requires Valid(st)
    ensures Valid(Step(st, ev)) && (Accounted(st) ==> Accounted(Step(st, ev)))
  {
    match ev {
      case Tick(workerRunning, hasRoot) => TickKeepsValid(st, workerRunning, hasRoot);
      case _ =>
        if Routed(ev).Some? {
          AcceptKeepsValid(st, Routed(ev).value.0, Routed(ev).value.1);
        }
    }
  }

  function Run(events: seq<Event>): (st: State)
    ensures |st.slots| == SLOT_COUNT
  {
    if events == [] then INITIAL else Step(Run(events[..|events| - 1]), events[|events| - 1])
  }

  /** The ids of the runs started, and of the runs seen to finish, in order. */
  function StartedIds(events: seq<Event>): seq<nat> {
    if events == [] then []
    else
      var front, last := events[..|events| - 1], events[|events| - 1];
      var d := Started(Run(front), last);
      StartedIds(front) + if d.Some? then [d.value.runId] else []
  }

  function FinishedIds(events: seq<Event>): seq<nat> {
    if events == [] then []
    else
      var front, last := events[..|events| - 1], events[|events| - 1];
      FinishedIds(front) +
      if last.Tick? && !last.workerRunning && Run(front).running then [Run(front).activeRunId] else []
  }

  function FromOne(n: nat): (r: seq<nat>)
    ensures |r| == n
  {
    seq(n, i => i + 1)
  }

  lemma StepNumbers(st: State, ev: Event)
    requires Valid(st)
    ensures var d := Started(st, ev);
            && Step(st, ev).nextRunId == st.nextRunId + (if d.Some? then 1 else 0)
            && (d.Some? ==> d.value.runId == st.nextRunId)
    ensures Step(st, ev).lastCompleted ==
            if ev.Tick? && !ev.workerRunning && st.running then st.lastCompleted + 1 else st.lastCompleted
    ensures st.running ==> st.activeRunId == st.lastCompleted + 1
  {
  }

  lemma FromOneNext(n: nat)
    ensures FromOne(n + 1) == FromOne(n) + [n + 1]
  {
  }

  /** The ids handed out and completed so far are 1, 2, 3, ... */
  ghost predicate Numbered(events: seq<Event>) {
    && Run(events).nextRunId >= 1
    && StartedIds(events) == FromOne(Run(events).nextRunId - 1)
    && FinishedIds(events) == FromOne(Run(events).lastCompleted)
  }

  lemma NumberedNext(events: seq<Event>)
    requires events != [] && Valid(Run(events[..|events| - 1])) && Numbered(events[..|events| - 1])
    ensures Numbered(events)
  {
    var st := Run(events[..|events| - 1]);
    StepNumbers(st, events[|events| - 1]);
    FromOneNext(st.nextRunId - 1);
    FromOneNext(st.lastCompleted);
  }

  /** Over every run: the counters balance, run ids are given out and completed as
      1, 2, 3, ... with no gap, and at most one started run is unfinished. */
  lemma {:induction false} RunAccounting(events: seq<Event>)
    ensures Valid(Run(events)) && Accounted(Run(events)) && Numbered(events)
    ensures |StartedIds(events)| == |FinishedIds(events)| + if Run(events).running then 1 else 0
  {
    if events == [] {
      assert PendingKeys(INITIAL) == {};
    } else {
      var front, last := events[..|events| - 1], events[|events| - 1];
      RunAccounting(front);
      StepKeepsValid(Run(front), last);
      NumberedNext(events);
    }
  }

  /** The requests accepted, and those that found their slot pending or its job running. */
  function AcceptedCount(events: seq<Event>): nat {
    if events == [] then 0
    else AcceptedCount(events[..|events| - 1]) + if Routed(events[|events| - 1]).Some? then 1 else 0
  }

  function JoinedCount(events: seq<Event>): nat {
    if events == [] then 0
    else
      var front, req := events[..|events| - 1], Routed(events[|events| - 1]);
      var st := Run(front);
      JoinedCount(front)
      + if req.Some? && (st.slots[req.value.0].pending || (st.running && st.activeKey == req.value.0)) then 1 else 0
  }

  /** Over every run the two counters are exactly those numbers, and an idle scheduler remembers
      neither reasons nor a force flag. */
  lemma {:induction false} CountersExactly(events: seq<Event>)
    ensures var st := Run(events);
            && st.scheduled == AcceptedCount(events) && st.coalesced == JoinedCount(events)
            && (!st.running ==> st.activeReasons == {} && !st.activeForce)
  {
    if events != [] {
      CountersExactly(events[..|events| - 1]);
    }
  }

  // ---------------------------------------------------------------------------------------
  // What each kind of request does, and each tick.

  /** Slot `k` is pending with these reasons and this flag added, in its old place in the queue or
      in a new one at the end, counted once; the other slots and the active run are untouched. */
  ghost predicate Grows(st: State, st': State, k: nat, reasons: Reasons, forceFull: bool)
    requires |st.slots| == |st'.slots| == SLOT_COUNT && k < SLOT_COUNT
  {
    var was, now := st.slots[k], st'.slots[k];
    var again := was.pending || (st.running && st.activeKey == k);
    && now.pending && now.reasons == was.reasons + reasons && now.forceFull == (was.forceFull || forceFull)
    && now.enqueueSeq == (if was.pending then was.enqueueSeq else st.nextSeq)
    && now.coalesced == was.coalesced + (if again then 1 else 0)
    && (forall j :: 0 <= j < SLOT_COUNT && j != k ==> st'.slots[j] == st.slots[j])
    && st'.nextSeq == (if was.pending then st.nextSeq else st.nextSeq + 1)
    && st'.scheduled == st.scheduled + 1 && st'.coalesced == st.coalesced + (if again then 1 else 0)
    && st'.nextRunId == st.nextRunId && st'.lastCompleted == st.lastCompleted
    && SameActiveRun(st, st')
  }

  ghost predicate SameActiveRun(st: State, st': State) {
    && st'.running == st.running && st'.activeRunId == st.activeRunId && st'.activeKey == st.activeKey
    && st'.activeReasons == st.activeReasons && st'.activeForce == st.activeForce
  }

  /** A request by key: refused for a key outside 1..5 or without a reason; the library panel's
      own reason alone always goes to the index slot (4). */
  lemma KeyRequestExactly(st: State, key: int, reasons: Reasons, forceFull: bool)
    requires Valid(st)
    ensures var st' := Step(st, KeyRequest(key, reasons, forceFull));
            if 1 <= key <= 5 && reasons != {} then
              var k := if reasons == {LibraryPanelRefresh} then 4 else key;
              && Grows(st, st', k, reasons, forceFull)
              && st'.slots[k].hints == st.slots[k].hints && st'.slots[k].live == st.slots[k].live
            else st' == st
  {
  }

  /** A path as the 1024-byte buffer keeps it, and the hints of a slot with one more. */
  ghost predicate HintJoins(was: seq<string>, now: seq<string>, path: string) {
    now == if path in was || |was| >= 32 then was
           else was + [if |path| <= 1023 then path else path[..1023]]
  }

  /** A request for a file: refused without a path or a reason; otherwise the diagnostics slot
      (3) grows and the file joins its hints. */
  lemma FileRequestExactly(st: State, path: string, reasons: Reasons, forceFull: bool)
    requires Valid(st)
    ensures var st' := Step(st, FileRequest(path, reasons, forceFull));
            if path != "" && reasons != {} then
              && Grows(st, st', 3, reasons, forceFull)
              && HintJoins(st.slots[3].hints, st'.slots[3].hints, path) && st'.slots[3].live == st.slots[3].live
            else st' == st
  {
  }

  /** A request for a live buffer: refused without a path or a reason or above 2097152 bytes;
      otherwise the live slot (5) grows, takes the buffer over and the file joins its hints. */
  lemma LiveRequestExactly(st: State, path: string, contents: string, revision: nat, reasons: Reasons, forceFull: bool)
    requires Valid(st)
    ensures var st' := Step(st, LiveRequest(path, contents, revision, reasons, forceFull));
            if path != "" && reasons != {} && |contents| <= 2_097_152 then
              && Grows(st, st', 5, reasons, forceFull)
              && HintJoins(st.slots[5].hints, st'.slots[5].hints, path)
              && st'.slots[5].live ==
                 Some(LiveBuffer(if |path| <= 1023 then path else path[..1023], contents, revision))
            else st' == st
  {
  }

  /** When a request asks the active run to stop: a reload of the slot that runs, or an editor
      save while the workspace (1), symbols (2) or index (4) job runs; a live buffer never. */
  lemma CancelsExactly(st: State, ev: Event)
    ensures Cancels(st, ev) <==>
            && st.running
            && match ev
               case KeyRequest(key, reasons, _) => 1 <= key <= 5 && WorkspaceReload in reasons && st.activeKey == key
               case FileRequest(path, reasons, _) =>
                 path != "" && EditorSave in reasons && st.activeKey in {1, 2, 4}
               case LiveRequest(_, _, _, _, _) => false
               case Tick(_, _) => false
  {
  }

  /** A tick: a finished worker leaves no active run behind and its id as the last completed one;
      then, if none is active, there is a root and something is pending, one slot is emptied and
      becomes the active run. */
  lemma TickExactly(st: State, workerRunning: bool, hasRoot: bool)
    requires Valid(st)
    ensures var (st', d) := Ticked(st, workerRunning, hasRoot);
            var busy := st.running && workerRunning;
            && (d.Some? <==> !busy && hasRoot && PendingKeys(st) != {})
            && st'.lastCompleted == (if st.running && !workerRunning then st.activeRunId else st.lastCompleted)
            && st'.nextSeq == st.nextSeq && st'.scheduled == st.scheduled && st'.coalesced == st.coalesced
            && (d.None? ==>
                  && st'.slots == st.slots && st'.nextRunId == st.nextRunId
                  && if busy then SameActiveRun(st, st')
                     else !st'.running && st'.activeRunId == 0 && st'.activeKey == 0
                          && (st.running ==> st'.activeReasons == {} && !st'.activeForce))
            && (d.Some? ==> StartedExactly(st, st', d.value))
  {
    var key := SelectNext(st.slots);
    assert key != NO_KEY ==> key in PendingKeys(st);
    assert Completed(st, workerRunning).slots == st.slots;
  }

  ghost predicate StartedExactly(st: State, st': State, d: Dispatch)
    requires |st.slots| == |st'.slots| == SLOT_COUNT
  {
    && 1 <= d.key <= 5 && st.slots[d.key].pending
    && var slot := st.slots[d.key];
       && d.runId == st.nextRunId && d.reasons == slot.reasons && d.forceFull == slot.forceFull
       && d.coalesced == slot.coalesced && d.hints == slot.hints && d.live == (if d.key == 5 then slot.live else None)
       && st'.running && st'.activeRunId == d.runId && st'.activeKey == d.key && st'.activeReasons == d.reasons
       && st'.activeForce == d.forceFull && st'.nextRunId == st.nextRunId + 1
       && st'.slots == st.slots[d.key := Slot(false, false, {}, 0, 0, [], None)]
  }

  // ---------------------------------------------------------------------------------------
  // Coalescing loses nothing.

  /** The requests accepted for `key` since its last dispatch, oldest first. */
  function Since(events: seq<Event>, key: nat): seq<Request> {
    if events == [] then []
    else
      var front, last := events[..|events| - 1], events[|events| - 1];
      var d := Started(Run(front), last);
      if d.Some? && d.value.key == key then []
      else if Routed(last).Some? && Routed(last).value.0 == key then Since(front, key) + [Routed(last).value.1]
      else Since(front, key)
  }

  function AllReasons(reqs: seq<Request>): Reasons {
    set i, r | 0 <= i < |reqs| && r in reqs[i].reasons :: r
  }

  predicate AnyForce(reqs: seq<Request>) {
    exists i :: 0 <= i < |reqs| && reqs[i].forceFull
  }

  /** The file hints in the requests, oldest first. */
  function HintPaths(reqs: seq<Request>): seq<string> {
    if reqs == [] then []
    else
      var last := reqs[|reqs| - 1];
      HintPaths(reqs[..|reqs| - 1]) + if last.hint.Some? then [last.hint.value] else []
  }

  function LatestLive(reqs: seq<Request>): Option<LiveBuffer> {
    if reqs == [] then None
    else if reqs[|reqs| - 1].live.Some? then reqs[|reqs| - 1].live
    else LatestLive(reqs[..|reqs| - 1])
  }

  function Capped(hints: seq<string>): seq<string> {
    if |hints| <= MAX_HINTS then hints else hints[..MAX_HINTS]
  }

  function FirstHints(paths: seq<string>): seq<string> {
    Capped(PathList.AddedAll([], paths))
  }

  /** The hints as stored, before the cap: cut to the buffer, but compared uncut. */
  function StoredHints(paths: seq<string>): seq<string> {
    if paths == [] then []
    else
      var stored, path := StoredHints(paths[..|paths| - 1]), paths[|paths| - 1];
      if path == "" || path in stored then stored else stored + [Fit(path)]
  }

  ghost predicate AllFit(reqs: seq<Request>) {
    forall p :: p in HintPaths(reqs) ==> |p| < PATH_BUFFER
  }

  /** The slot holds exactly what was asked of it. */
  ghost predicate Holds(slot: Slot, reqs: seq<Request>) {
    && (slot.pending <==> reqs != [])
    && slot.reasons == AllReasons(reqs)
    && (slot.forceFull <==> AnyForce(reqs))
    && slot.live == LatestLive(reqs)
    && slot.hints == Capped(StoredHints(HintPaths(reqs)))
  }

  lemma CappedStore(paths: seq<string>, path: string)
    ensures HintAdded(Capped(StoredHints(paths)), path) == Capped(StoredHints(paths + [path]))
  {
    var stored := StoredHints(paths);
    assert (paths + [path])[..|paths|] == paths;
    if |stored| > MAX_HINTS {
      assert Capped(stored + [Fit(path)]) == Capped(stored);
    }
  }

  /** Hints that fit are stored as the first 32 distinct ones. */
  lemma {:induction false} StoredIfFit(paths: seq<string>)
    requires forall p :: p in paths ==> |p| < PATH_BUFFER
    ensures StoredHints(paths) == PathList.AddedAll([], paths)
  {
    if paths != [] {
      var front, path := paths[..|paths| - 1], paths[|paths| - 1];
      StoredIfFit(front);
      assert front + [path] == paths;
      AddedLast(front, path);
      assert path in paths;
    }
  }

  lemma AddedLast(front: seq<string>, path: string)
    ensures PathList.AddedAll([], front + [path]) == PathList.Added(PathList.AddedAll([], front), path)
  {
    PathList.AddedAllAppend([], front, [path]);
    assert [path][1..] == [];
  }

  lemma AcceptedHolds(slot: Slot, nextSeq: nat, reqs: seq<Request>, req: Request, coalesce: bool)
    requires Holds(slot, reqs)
    ensures Holds(Accepted(slot, nextSeq, req, coalesce), reqs + [req])
  {
    var all := reqs + [req];
    var slot' := Accepted(slot, nextSeq, req, coalesce);
    assert all[..|reqs|] == reqs;
    assert slot'.reasons == AllReasons(all) by {
      forall r
        ensures r in AllReasons(all) <==> r in AllReasons(reqs) || r in req.reasons
      {
        if r in req.reasons { assert r in all[|reqs|].reasons; }
        if r in AllReasons(reqs) {
          var i :| 0 <= i < |reqs| && r in reqs[i].reasons;
          assert all[i] == reqs[i];
        }
      }
    }
    assert slot'.forceFull <==> AnyForce(all) by {
      if AnyForce(reqs) {
        var i :| 0 <= i < |reqs| && reqs[i].forceFull;
        assert all[i].forceFull;
      }
      assert all[|reqs|] == req;
    }
    HintsHold(slot, nextSeq, reqs, req, coalesce);
  }

  lemma HintsHold(slot: Slot, nextSeq: nat, reqs: seq<Request>, req: Request, coalesce: bool)
    requires slot.hints == Capped(StoredHints(HintPaths(reqs)))
    ensures Accepted(slot, nextSeq, req, coalesce).hints == Capped(StoredHints(HintPaths(reqs + [req])))
  {
    var all := reqs + [req];
    assert all[..|reqs|] == reqs;
    if req.hint.Some? {
      assert HintPaths(all) == HintPaths(reqs) + [req.hint.value];
      CappedStore(HintPaths(reqs), req.hint.value);
    } else {
      assert HintPaths(all) == HintPaths(reqs) + [];
      assert HintPaths(all) == HintPaths(reqs);
    }
  }

  /** One event, seen from one slot. */
  lemma SlotAfter(st: State, ev: Event, key: nat)
    requires Valid(st) && IsKey(key)
    ensures Started(st, ev).Some? && Started(st, ev).value.key == key ==> Step(st, ev).slots[key] == EMPTY_SLOT
    ensures !(Started(st, ev).Some? && Started(st, ev).value.key == key) ==>
              Step(st, ev).slots[key] ==
              if Routed(ev).Some? && Routed(ev).value.0 == key
              then Accepted(st.slots[key], st.nextSeq, Routed(ev).value.1,
                            st.slots[key].pending || (st.running && st.activeKey == key))
              else st.slots[key]
    ensures Started(st, ev).Some? ==> Routed(ev).None?
  {
  }

  lemma EmptyHolds()
    ensures Holds(EMPTY_SLOT, [])
  {
    assert PathList.AddedAll([], []) == [];
  }

  /** Every slot, at every moment, holds the requests since its last dispatch. */
  lemma {:induction false} SlotsHold(events: seq<Event>, key: nat)
    requires IsKey(key)
    ensures Holds(Run(events).slots[key], Since(events, key))
  {
    EmptyHolds();
    if events != [] {
      var front, last := events[..|events| - 1], events[|events| - 1];
      var st := Run(front);
      SlotsHold(front, key);
      RunAccounting(front);
      SlotAfter(st, last, key);
      if Routed(last).Some? && Routed(last).value.0 == key {
        AcceptedHolds(st.slots[key], st.nextSeq, Since(front, key), Routed(last).value.1,
                      st.slots[key].pending || (st.running && st.activeKey == key));
      }
    }
  }

  /** A dispatched run carries exactly the union of the reasons, the disjunction of the
      force flags and the latest live buffer of everything accepted for its key since that
      key's last dispatch, and the first 32 hints stored: the first 32 distinct ones if all fit
      the buffer. */
  lemma DispatchCarriesEverything(events: seq<Event>, ev: Event)
    requires Started(Run(events), ev).Some?
    ensures var d := Started(Run(events), ev).value;
            var reqs := Since(events, d.key);
            && reqs != []
            && d.reasons == AllReasons(reqs)
            && (d.forceFull <==> AnyForce(reqs))
            && d.hints == Capped(StoredHints(HintPaths(reqs)))
            && (AllFit(reqs) ==> d.hints == FirstHints(HintPaths(reqs)))
            && d.live == (if d.key == LIVE then LatestLive(reqs) else None)
            && Since(events + [ev], d.key) == []
  {
    var d := Started(Run(events), ev).value;
    var reqs := Since(events, d.key);
    SlotsHold(events, d.key);
    if AllFit(reqs) {
      StoredIfFit(HintPaths(reqs));
    }
    assert (events + [ev])[..|events|] == events;
  }

  // ---------------------------------------------------------------------------------------
  // Fairness.

  function Priority(st: State, k: nat): nat
    requires |st.slots| == SLOT_COUNT && k < SLOT_COUNT
  {
    if k == DIAGNOSTICS && EditorSave in st.slots[k].reasons then 0
    else if k == LIVE then 1
    else 2
  }

  predicate IsBefore(st: State, j: nat, k: nat)
    requires |st.slots| == SLOT_COUNT && j < SLOT_COUNT && k < SLOT_COUNT
  {
    Priority(st, j) < Priority(st, k)
    || (Priority(st, j) == Priority(st, k) && st.slots[j].enqueueSeq < st.slots[k].enqueueSeq)
  }

  /** The pending slots that will be started before `k`. */
  function Ahead(st: State, k: nat): set<nat>
    requires |st.slots| == SLOT_COUNT && k < SLOT_COUNT
  {
    set j | 1 <= j < SLOT_COUNT && st.slots[j].pending && j != k && IsBefore(st, j, k)
  }

  lemma AheadIsSmall(st: State, k: nat)
    requires |st.slots| == SLOT_COUNT && IsKey(k)
    ensures |Ahead(st, k)| <= 4
  {
    var others := {WORKSPACE, SYMBOLS, DIAGNOSTICS, INDEX, LIVE} - {k};
    assert Ahead(st, k) <= others;
    SubsetSize(Ahead(st, k), others);
  }

  lemma SubsetSize(a: set<nat>, b: set<nat>)
    requires a <= b
    ensures |a| <= |b|
  {
    assert b == a + (b - a);
  }

  /** The selection is the pending slot with nothing ahead of it. */
  lemma SelectedIffNothingAhead(st: State, k: nat)
    requires Valid(st) && IsKey(k)
    ensures SelectNext(st.slots) == k <==> st.slots[k].pending && Ahead(st, k) == {}
  {
    var s := SelectNext(st.slots);
    if s == k {
      forall j | 1 <= j < SLOT_COUNT && st.slots[j].pending && j != k
        ensures !IsBefore(st, j, k)
      {
      }
    } else if st.slots[k].pending {
      assert st.slots[s].pending && s != NO_KEY;
      assert IsBefore(st, s, k);
      assert s in Ahead(st, k);
    }
  }

  /** A request that uses neither priority lane. */
  predicate Calm(ev: Event) {
    var r := Routed(ev);
    r.Some? ==> r.value.0 != LIVE && !(r.value.0 == DIAGNOSTICS && EditorSave in r.value.1.reasons)
  }

  lemma CalmRequestKeepsAhead(st: State, key: nat, req: Request, k: nat)
    requires Valid(st) && IsKey(key) && IsKey(k) && st.slots[k].pending
    requires key != LIVE && !(key == DIAGNOSTICS && EditorSave in req.reasons)
    ensures Accept(st, key, req).slots[k].pending
    ensures Ahead(Accept(st, key, req), k) <= Ahead(st, k)
  {
    var st' := Accept(st, key, req);
    assert Priority(st', k) == Priority(st, k);
    assert !st.slots[key].pending ==> Priority(st', key) == 2 && st'.slots[key].enqueueSeq == st.nextSeq;
    assert !st.slots[key].pending ==> !IsBefore(st', key, k);
    assert st.slots[key].pending ==> Priority(st', key) == Priority(st, key);
    forall j | j in Ahead(st', k)
      ensures j in Ahead(st, k)
    {
    }
  }

  lemma TickShrinksAhead(st: State, workerRunning: bool, hasRoot: bool, k: nat)
    requires Valid(st) && IsKey(k) && st.slots[k].pending
    ensures var (st', started) := Ticked(st, workerRunning, hasRoot);
            && (started.None? ==> st'.slots[k].pending && Ahead(st', k) == Ahead(st, k))
            && (started.Some? && started.value.key != k ==>
                  st'.slots[k].pending && started.value.key in Ahead(st, k)
                  && Ahead(st', k) == Ahead(st, k) - {started.value.key})
  {
    var (st', started) := Ticked(st, workerRunning, hasRoot);
    assert Completed(st, workerRunning).slots == st.slots;
    if started.Some? {
      var s := started.value.key;
      assert st'.slots == st.slots[s := EMPTY_SLOT];
      if s != k {
        SelectedFirst(st, s, k);
        EmptyingShrinks(st, st', s, k);
      }
    } else {
      SameSlotsSameAhead(st, st', k);
    }
  }

  lemma SameSlotsSameAhead(st: State, st': State, k: nat)
    requires |st.slots| == SLOT_COUNT && st'.slots == st.slots && IsKey(k)
    ensures Ahead(st', k) == Ahead(st, k)
  {
    assert forall j :: 1 <= j < SLOT_COUNT ==> IsBefore(st', j, k) == IsBefore(st, j, k);
  }

  lemma EmptyingShrinks(st: State, st': State, s: nat, k: nat)
    requires |st.slots| == SLOT_COUNT && IsKey(s) && IsKey(k) && s != k && st'.slots == st.slots[s := EMPTY_SLOT]
    ensures Ahead(st', k) == Ahead(st, k) - {s}
  {
    assert forall j :: 1 <= j < SLOT_COUNT && j != s ==> IsBefore(st', j, k) == IsBefore(st, j, k);
  }

  lemma SelectedFirst(st: State, s: nat, k: nat)
    requires Valid(st) && IsKey(s) && IsKey(k) && s != k && st.slots[k].pending && SelectNext(st.slots) == s
    ensures s in Ahead(st, k)
  {
    SelectedIffNothingAhead(st, s);
    assert k !in Ahead(st, s);
  }

  function RunFrom(st: State, events: seq<Event>): (r: State)
    requires |st.slots| == SLOT_COUNT
    ensures |r.slots| == SLOT_COUNT
    decreases events
  {
    if events == [] then st else RunFrom(Step(st, events[0]), events[1..])
  }

  /** The keys started along the way. */
  function StartedKeys(st: State, events: seq<Event>): seq<nat>
    requires |st.slots| == SLOT_COUNT
    decreases events
  {
    if events == [] then []
    else
      var d := Started(st, events[0]);
      (if d.Some? then [d.value.key] else []) + StartedKeys(Step(st, events[0]), events[1..])
  }

  /** A priority request puts at most its own slot ahead of a waiting job. */
  lemma RequestAddsItself(st: State, key: nat, req: Request, k: nat)
    requires Valid(st) && IsKey(key) && IsKey(k) && st.slots[k].pending
    ensures Accept(st, key, req).slots[k].pending
    ensures |Ahead(Accept(st, key, req), k)| <= |Ahead(st, k)| + 1
  {
    var st' := Accept(st, key, req);
    forall j | j in Ahead(st', k)
      ensures j in Ahead(st, k) + {key}
    {
    }
    SubsetSize(Ahead(st', k), Ahead(st, k) + {key});
  }

  predicate SaveWaits(st: State)
    requires |st.slots| == SLOT_COUNT
  {
    st.slots[3].pending && EditorSave in st.slots[3].reasons
  }

  lemma {:induction false} SaveWaitsUntilStart(st: State, events: seq<Event>)
    requires Valid(st) && SaveWaits(st) && StartedKeys(st, events) == []
    ensures Valid(RunFrom(st, events)) && SaveWaits(RunFrom(st, events))
    decreases events
  {
    if events != [] {
      StepKeepsValid(st, events[0]);
      assert Started(st, events[0]).None?;
      SlotAfter(st, events[0], 3);
      SaveWaitsUntilStart(Step(st, events[0]), events[1..]);
    }
  }

  /** Wherever the scheduler stands, an accepted editor save is what the next tick that can start
      anything starts, whatever is asked for in between. */
  lemma EditorSaveStartsNext(st: State, path: string, reasons: Reasons, forceFull: bool, between: seq<Event>)
    requires Valid(st) && path != "" && EditorSave in reasons
    requires StartedKeys(Step(st, FileRequest(path, reasons, forceFull)), between) == []
    ensures var asked := Step(st, FileRequest(path, reasons, forceFull));
            var d := Started(RunFrom(asked, between), Tick(false, true));
            d.Some? && d.value.key == 3 && EditorSave in d.value.reasons
  {
    var asked := Step(st, FileRequest(path, reasons, forceFull));
    StepKeepsValid(st, FileRequest(path, reasons, forceFull));
    SaveWaitsUntilStart(asked, between);
    var last := RunFrom(asked, between);
    assert Completed(last, false).slots == last.slots;
  }

  function PriorityRequests(events: seq<Event>): nat {
    if events == [] then 0 else (if Calm(events[0]) then 0 else 1) + PriorityRequests(events[1..])
  }

  lemma EventAddsAhead(st: State, ev: Event, k: nat)
    requires Valid(st) && IsKey(k) && st.slots[k].pending
    requires Started(st, ev).Some? ==> Started(st, ev).value.key != k
    ensures Step(st, ev).slots[k].pending
    ensures |Ahead(Step(st, ev), k)| + (if Started(st, ev).Some? then 1 else 0) <=
            |Ahead(st, k)| + if Calm(ev) then 0 else 1
    ensures Calm(ev) ==> Ahead(Step(st, ev), k) <= Ahead(st, k)
  {
    match ev {
      case Tick(workerRunning, hasRoot) =>
        TickShrinksAhead(st, workerRunning, hasRoot, k);
      case _ =>
        if Routed(ev).Some? {
          var (key, req) := Routed(ev).value;
          RequestAddsItself(st, key, req, k);
          if Calm(ev) {
            CalmRequestKeepsAhead(st, key, req, k);
            SubsetSize(Ahead(Step(st, ev), k), Ahead(st, k));
          }
        }
    }
  }

  /** Whatever arrives, the jobs started while `k` waits number at most those ahead of it at
      first (at most four) and one for each new editor-save or live-buffer request. */
  lemma {:induction false} BoundedOvertaking(st: State, events: seq<Event>, k: nat)
    requires Valid(st) && IsKey(k) && st.slots[k].pending
    requires k !in StartedKeys(st, events)
    ensures |Ahead(st, k)| <= 4
    ensures |StartedKeys(st, events)| + |Ahead(RunFrom(st, events), k)| <= |Ahead(st, k)| + PriorityRequests(events)
    decreases events
  {
    AheadIsSmall(st, k);
    if events != [] {
      StepKeepsValid(st, events[0]);
      EventAddsAhead(st, events[0], k);
      BoundedOvertaking(Step(st, events[0]), events[1..], k);
    }
  }

  /** Without such requests nothing new gets ahead of `k` at all. */
  lemma {:induction false} NothingNewGetsAhead(st: State, events: seq<Event>, k: nat)
    requires Valid(st) && IsKey(k) && st.slots[k].pending
    requires forall i :: 0 <= i < |events| ==> Calm(events[i])
    requires k !in StartedKeys(st, events)
    ensures PriorityRequests(events) == 0 && Ahead(RunFrom(st, events), k) <= Ahead(st, k)
    decreases events
  {
    if events != [] {
      StepKeepsValid(st, events[0]);
      EventAddsAhead(st, events[0], k);
      NothingNewGetsAhead(Step(st, events[0]), events[1..], k);
    }
  }

  predicate Idle(ev: Event) {
    ev.Tick? && !ev.workerRunning && ev.hasRoot
  }

  function IdleTicks(events: seq<Event>): nat {
    if events == [] then 0 else (if Idle(events[0]) then 1 else 0) + IdleTicks(events[1..])
  }

  lemma {:induction false} IdleTicksStart(st: State, events: seq<Event>, k: nat)
    requires Valid(st) && IsKey(k) && st.slots[k].pending && k !in StartedKeys(st, events)
    ensures IdleTicks(events) <= |StartedKeys(st, events)|
    decreases events
  {
    if events != [] {
      StepKeepsValid(st, events[0]);
      assert Step(st, events[0]).slots[k].pending;
      IdleTicksStart(Step(st, events[0]), events[1..], k);
    }
  }

  /** So a pending job is started by the fifth tick that finds the worker idle, and one tick
      later for each priority request that comes meanwhile. */
  lemma StartedByFifthIdleTick(st: State, events: seq<Event>, k: nat)
    requires Valid(st) && IsKey(k) && st.slots[k].pending
    requires IdleTicks(events) >= 5 + PriorityRequests(events)
    ensures k in StartedKeys(st, events)
  {
    if k !in StartedKeys(st, events) {
      BoundedOvertaking(st, events, k);
      IdleTicksStart(st, events, k);
      assert false;
    }
  }

  // ---------------------------------------------------------------------------------------
  // Without that condition there is no bound.

  function Flood(n: nat): seq<Event> {
    if n == 0 then []
    else [LiveRequest("f", "", 1, {EditorLiveBuffer}, false), Tick(false, true)] + Flood(n - 1)
  }

  function AllLive(n: nat): (r: seq<nat>)
    ensures |r| == n
  {
    seq(n, _ => LIVE)
  }

  /** One request and one tick: the live job starts, or a waiting editor save before it. */
  lemma FloodRound(st: State, k: nat)
    requires Valid(st) && IsKey(k) && k != LIVE && st.slots[k].pending && !(k == DIAGNOSTICS && SaveWaits(st))
    ensures var asked := Step(st, Flood(1)[0]);
            var after := Step(asked, Flood(1)[1]);
            && Valid(after) && after.slots[k] == st.slots[k] && !SaveWaits(after)
            && Started(asked, Flood(1)[1]).Some?
            && Started(asked, Flood(1)[1]).value.key == if SaveWaits(st) then DIAGNOSTICS else LIVE
  {
    var asked := Step(st, Flood(1)[0]);
    StepKeepsValid(st, Flood(1)[0]);
    StepKeepsValid(asked, Flood(1)[1]);
    assert asked.slots[LIVE].pending && asked.slots[DIAGNOSTICS] == st.slots[DIAGNOSTICS];
  }

  lemma FloodNext(st: State, n: nat)
    requires n > 0 && |st.slots| == SLOT_COUNT
    ensures Flood(n)[0] == Flood(1)[0] && Flood(n)[1] == Flood(1)[1]
    ensures var asked := Step(st, Flood(1)[0]);
            var after := Step(asked, Flood(1)[1]);
            && RunFrom(st, Flood(n)) == RunFrom(after, Flood(n - 1))
            && (Started(asked, Flood(1)[1]).Some? ==>
                  StartedKeys(st, Flood(n)) ==
                  [Started(asked, Flood(1)[1]).value.key] + StartedKeys(after, Flood(n - 1)))
  {
    var events := Flood(n);
    assert Flood(1) == [Flood(1)[0], Flood(1)[1]];
    assert events[1..][0] == events[1] && events[1..][1..] == Flood(n - 1);
    assert StartedKeys(st, events) == StartedKeys(Step(st, events[0]), events[1..]);
  }

  lemma {:induction false} LiveFloodAlone(st: State, n: nat, k: nat)
    requires Valid(st) && IsKey(k) && k != LIVE && st.slots[k].pending && !SaveWaits(st)
    ensures StartedKeys(st, Flood(n)) == AllLive(n)
    ensures RunFrom(st, Flood(n)).slots[k] == st.slots[k]
    decreases n
  {
    if n > 0 {
      var after := Step(Step(st, Flood(1)[0]), Flood(1)[1]);
      FloodRound(st, k);
      FloodNext(st, n);
      LiveFloodAlone(after, n - 1, k);
      assert AllLive(n) == [LIVE] + AllLive(n - 1);
    }
  }

  /** A stream of live-buffer requests keeps any other waiting job waiting for as long as it
      lasts, one dispatch per request; only an editor save that waits already goes first. */
  lemma LiveFloodStarves(st: State, n: nat, k: nat)
    requires Valid(st) && IsKey(k) && k != LIVE && st.slots[k].pending && !(k == DIAGNOSTICS && SaveWaits(st))
    ensures StartedKeys(st, Flood(n)) == if SaveWaits(st) && n > 0 then [DIAGNOSTICS] + AllLive(n - 1) else AllLive(n)
    ensures RunFrom(st, Flood(n)).slots[k] == st.slots[k]
  {
    if n == 0 || !SaveWaits(st) {
      FloodOfNone(st);
      if n > 0 { LiveFloodAlone(st, n, k); }
    } else {
      FloodRound(st, k);
      FloodNext(st, n);
      LiveFloodAlone(Step(Step(st, Flood(1)[0]), Flood(1)[1]), n - 1, k);
    }
  }

  lemma FloodOfNone(st: State)
    requires |st.slots| == SLOT_COUNT
    ensures StartedKeys(st, Flood(0)) == AllLive(0) && RunFrom(st, Flood(0)) == st
  {
  }
}
