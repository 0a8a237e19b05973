/** The analysis scheduler (analysis_scheduler.c): five coalescing job slots, two priority
    lanes, first-come-first-served otherwise, and one active run at a time. */
module Scheduler {
  import opened PathTable

  datatype Reason = Startup | WorkspaceReload | WatcherChange | ManualRefresh | ProjectMutation
                  | LibraryPanelRefresh | EditorEditTransaction | EditorSave | EditorLiveBuffer

  /** A reason mask is the set of its bits. */
  type Reasons = set<Reason>

  const NO_KEY: nat := 0
  const WORKSPACE: nat := 1
  const SYMBOLS: nat := 2
  const DIAGNOSTICS: nat := 3
  const INDEX: nat := 4
  const LIVE: nat := 5
  const SLOT_COUNT: nat := 6

  const MAX_HINTS: nat := 32
  const PATH_BUFFER: nat := 1024
  const MAX_LIVE_BYTES: nat := 2 * 1024 * 1024

  predicate IsKey(key: int) {
    NO_KEY < key <= LIVE
  }

  datatype LiveBuffer = LiveBuffer(path: string, contents: string, revision: nat)

  datatype Slot = Slot(pending: bool, forceFull: bool, reasons: Reasons, enqueueSeq: nat, coalesced: nat,
                       hints: seq<string>, live: Option<LiveBuffer>)

  const EMPTY_SLOT := Slot(false, false, {}, 0, 0, [], None)

  datatype State = State(slots: seq<Slot>, nextRunId: nat, activeRunId: nat, lastCompleted: nat, activeReasons: Reasons,
                         activeForce: bool, activeKey: nat, running: bool, nextSeq: nat, scheduled: nat, coalesced: nat)

  const INITIAL := State([EMPTY_SLOT, EMPTY_SLOT, EMPTY_SLOT, EMPTY_SLOT, EMPTY_SLOT, EMPTY_SLOT],
                         1, 0, 0, {}, false, NO_KEY, false, 1, 0, 0)

  /** What a request asks of the slot it is accepted into. */
  datatype Request = Request(reasons: Reasons, forceFull: bool, hint: Option<string>, live: Option<LiveBuffer>)

  /** What one tick hands to the worker. */
  datatype Dispatch = Dispatch(runId: nat, key: nat, reasons: Reasons, forceFull: bool, coalesced: nat,
                               hints: seq<string>, live: Option<LiveBuffer>)

  /** `snprintf` into a 1024-byte buffer. */
  function Fit(path: string): string {
    if |path| < PATH_BUFFER then path else path[..PATH_BUFFER - 1]
  }

  function HintAdded(hints: seq<string>, path: string): seq<string> {
    if path == "" || path in hints || |hints| >= MAX_HINTS then hints else hints + [Fit(path)]
  }

  function Accepted(slot: Slot, nextSeq: nat, req: Request, coalesce: bool): Slot {
    Slot(true,
         slot.forceFull || req.forceFull,
         slot.reasons + req.reasons,
         if slot.pending then slot.enqueueSeq else nextSeq,
         slot.coalesced + if coalesce then 1 else 0,
         if req.hint.Some? then HintAdded(slot.hints, req.hint.value) else slot.hints,
         if req.live.Some? then req.live else slot.live)
  }

  ghost predicate Shaped(st: State) {
    |st.slots| == SLOT_COUNT && forall k :: 0 <= k < SLOT_COUNT && !st.slots[k].pending ==> st.slots[k] == EMPTY_SLOT
  }

  function Accept(st: State, key: nat, req: Request): State
    requires IsKey(key) && |st.slots| == SLOT_COUNT
  {
    var slot := st.slots[key];
    var coalesce := slot.pending || (st.running && st.activeKey == key);
    st.(slots := st.slots[key := Accepted(slot, st.nextSeq, req, coalesce)],
        nextSeq := if slot.pending then st.nextSeq else st.nextSeq + 1,
        scheduled := st.scheduled + 1,
        coalesced := st.coalesced + if coalesce then 1 else 0)
  }

  // ---------------------------------------------------------------------------------------
  // Selection.

  /** The earliest pending slot among the first `n`, or NO_KEY. */
  function Earliest(slots: seq<Slot>, n: nat): (k: nat)
    requires 1 <= n <= |slots|
    ensures k < n
    ensures k == NO_KEY <==> forall j :: 1 <= j < n ==> !slots[j].pending
    ensures k != NO_KEY ==> slots[k].pending
    ensures k != NO_KEY ==> forall j :: 1 <= j < n && slots[j].pending ==> slots[k].enqueueSeq <= slots[j].enqueueSeq
  {
    if n == 1 then NO_KEY
    else
      var k := Earliest(slots, n - 1);
      if slots[n - 1].pending && (k == NO_KEY || slots[n - 1].enqueueSeq < slots[k].enqueueSeq) then n - 1 else k
  }

  function SelectNext(slots: seq<Slot>): (k: nat)
    requires |slots| == SLOT_COUNT
    ensures k < SLOT_COUNT
    ensures k == NO_KEY <==> forall j :: 1 <= j < SLOT_COUNT ==> !slots[j].pending
    ensures k != NO_KEY ==> slots[k].pending
  {
    if slots[DIAGNOSTICS].pending && EditorSave in slots[DIAGNOSTICS].reasons then DIAGNOSTICS
    else if slots[LIVE].pending then LIVE
    else Earliest(slots, SLOT_COUNT)
  }

  function Completed(st: State, workerRunning: bool): State {
    if st.running && !workerRunning then
      st.(lastCompleted := st.activeRunId, activeRunId := 0, activeReasons := {}, activeForce := false,
          activeKey := NO_KEY, running := false)
    else st
  }

  function Ticked(st: State, workerRunning: bool, hasRoot: bool): (r: (State, Option<Dispatch>))
    requires |st.slots| == SLOT_COUNT
    ensures |r.0.slots| == SLOT_COUNT
  {
    var idle := Completed(st, workerRunning);
    var key := SelectNext(idle.slots);
    if idle.running || !hasRoot || key == NO_KEY then (idle, None)
    else
      var slot := idle.slots[key];
      (idle.(slots := idle.slots[key := EMPTY_SLOT], nextRunId := idle.nextRunId + 1, activeRunId := idle.nextRunId,
             activeReasons := slot.reasons, activeForce := slot.forceFull, activeKey := key, running := true),
       Some(Dispatch(idle.nextRunId, key, slot.reasons, slot.forceFull, slot.coalesced, slot.hints,
                     if key == LIVE then slot.live else None)))
  }

  // ---------------------------------------------------------------------------------------
  // Events.

  datatype Event = KeyRequest(key: int, reasons: Reasons, forceFull: bool)
                 | FileRequest(path: string, reasons: Reasons, forceFull: bool)
                 | LiveRequest(path: string, contents: string, revision: nat, reasons: Reasons, forceFull: bool)
                 | Tick(workerRunning: bool, hasRoot: bool)

  /** Which slot a request goes to and what it adds there; None when it is refused. */
  function Routed(ev: Event): (r: Option<(nat, Request)>)
    ensures r.Some? ==> IsKey(r.value.0)
  {
    match ev
    case KeyRequest(key, reasons, forceFull) =>
      if !IsKey(key) || reasons == {} then None
      else Some((if reasons == {LibraryPanelRefresh} then INDEX else key, Request(reasons, forceFull, None, None)))
    case FileRequest(path, reasons, forceFull) =>
      if path == "" || reasons == {} then None
      else Some((DIAGNOSTICS, Request(reasons, forceFull, Some(path), None)))
    case LiveRequest(path, contents, revision, reasons, forceFull) =>
      if path == "" || reasons == {} || |contents| > MAX_LIVE_BYTES then None
      else Some((LIVE, Request(reasons, forceFull, Some(path), Some(LiveBuffer(Fit(path), contents, revision)))))
    case Tick(_, _) => None
  }

  function Step(st: State, ev: Event): (r: State)
    requires |st.slots| == SLOT_COUNT
    ensures |r.slots| == SLOT_COUNT
  {
    match ev
    case Tick(workerRunning, hasRoot) => Ticked(st, workerRunning, hasRoot).0
    case _ => if Routed(ev).Some? then Accept(st, Routed(ev).value.0, Routed(ev).value.1) else st
  }

  function Started(st: State, ev: Event): (d: Option<Dispatch>)
    requires |st.slots| == SLOT_COUNT
    ensures d.Some? ==> ev.Tick? && IsKey(d.value.key)
  {
    match ev
    case Tick(workerRunning, hasRoot) => Ticked(st, workerRunning, hasRoot).1
    case _ => None
  }

  /** Whether the active run is asked to stop for this request. */
  predicate Cancels(st: State, ev: Event) {
    match ev
    case KeyRequest(_, reasons, _) =>
      Routed(ev).Some? && st.running && st.activeKey == Routed(ev).value.0 && WorkspaceReload in reasons
    case FileRequest(_, reasons, _) =>
      Routed(ev).Some? && EditorSave in reasons && st.running
      && (st.activeKey == WORKSPACE || st.activeKey == SYMBOLS || st.activeKey == INDEX)
    case _ => false
  }

  // ---------------------------------------------------------------------------------------

  class Scheduler {
    const pendingJobs: array<Slot>
    var nextRunId: nat
    var activeRunId: nat
    var lastCompletedRunId: nat
    var activeReasons: Reasons
    var activeForceFull: bool
    var activeJobKey: nat
    var running: bool
    var nextEnqueueSeq: nat
    var jobsScheduled: nat
    var jobsCoalescedReplaced: nat

    function Value(): State
      reads this, pendingJobs
    {
      State(pendingJobs[..], nextRunId, activeRunId, lastCompletedRunId, activeReasons, activeForceFull, activeJobKey,
            running, nextEnqueueSeq, jobsScheduled, jobsCoalescedReplaced)
    }

    ghost predicate Valid()
      reads this, pendingJobs
    {
      pendingJobs.Length == SLOT_COUNT
    }

    constructor ()
      ensures Valid() && Value() == INITIAL && fresh(pendingJobs)
    {
      pendingJobs := new Slot[SLOT_COUNT](_ => EMPTY_SLOT);
      nextRunId, activeRunId, lastCompletedRunId := 1, 0, 0;
      activeReasons, activeForceFull, activeJobKey, running := {}, false, NO_KEY, false;
      nextEnqueueSeq, jobsScheduled, jobsCoalescedReplaced := 1, 0, 0;
      new;
      assert pendingJobs[..] == INITIAL.slots;
    }

    static method AddFileHint(hints: seq<string>, path: string) returns (grown: seq<string>)
      ensures grown == HintAdded(hints, path)
    {
      if path == "" { return hints; }
      var i := 0;
      while i < |hints|
        invariant i <= |hints| && path !in hints[..i]
      {
        if hints[i] == path { return hints; }
        i := i + 1;
      }
      if |hints| >= MAX_HINTS { return hints; }
      grown := hints + [Fit(path)];
    }

    /** What a request changes in its slot. */
    static method Filled(empty: Slot, nextSeq: nat, req: Request, coalesce: bool) returns (slot: Slot)
      ensures slot == Accepted(empty, nextSeq, req, coalesce)
    {
      slot := empty;
      if !slot.pending {
        slot := slot.(pending := true, enqueueSeq := nextSeq);
      }
      slot := slot.(reasons := slot.reasons + req.reasons, forceFull := slot.forceFull || req.forceFull);
      if req.live.Some? {
        slot := slot.(live := req.live);
      }
      if req.hint.Some? {
        var hints := AddFileHint(slot.hints, req.hint.value);
        slot := slot.(hints := hints);
      }
      if coalesce {
        slot := slot.(coalesced := slot.coalesced + 1);
      }
    }

    /** The locked section shared by the three kinds of request. */
    method AcceptInto(key: nat, req: Request)
      requires Valid() && IsKey(key)
      modifies this, pendingJobs
      ensures Valid() && Value() == Accept(old(Value()), key, req)
    {
      var pending := pendingJobs[key].pending;
      var coalesce := pending || (running && activeJobKey == key);
      var slot := Filled(pendingJobs[key], nextEnqueueSeq, req, coalesce);
      if !pending {
        nextEnqueueSeq := nextEnqueueSeq + 1;
      }
      jobsScheduled := jobsScheduled + 1;
      if coalesce {
        jobsCoalescedReplaced := jobsCoalescedReplaced + 1;
      }
      pendingJobs[key] := slot;
    }

    /** `analysis_scheduler_request_key`, `_request_file` and `_request_live_buffer`. */
    method Submit(ev: Event) returns (cancel: bool)
      requires Valid() && !ev.Tick?
      modifies this, pendingJobs
      ensures Valid() && Value() == Step(old(Value()), ev)
      ensures cancel == Cancels(old(Value()), ev)
    {
      cancel := Cancels(Value(), ev);
      match Routed(ev) {
        case None =>
        case Some((key, req)) => AcceptInto(key, req);
      }
    }

    method SelectNextPendingKey() returns (key: nat)
      requires Valid()
      ensures key == SelectNext(pendingJobs[..])
    {
      if pendingJobs[DIAGNOSTICS].pending && EditorSave in pendingJobs[DIAGNOSTICS].reasons {
        return DIAGNOSTICS;
      }
      if pendingJobs[LIVE].pending { return LIVE; }
      key := NO_KEY;
      var i := WORKSPACE;
      while i <= LIVE
        invariant WORKSPACE <= i <= SLOT_COUNT
        invariant key == Earliest(pendingJobs[..], i)
      {
        if pendingJobs[i].pending
           && (key == NO_KEY || pendingJobs[i].enqueueSeq < pendingJobs[key].enqueueSeq)
        {
          key := i;
        }
        i := i + 1;
      }
    }

    method NoteCompletion(workerRunning: bool)
      requires Valid()
      modifies this
      ensures Valid() && Value() == Completed(old(Value()), workerRunning)
    {
      if running && !workerRunning {
        lastCompletedRunId, activeRunId := activeRunId, 0;
        activeReasons, activeForceFull, activeJobKey, running := {}, false, NO_KEY, false;
      }
    }

    /** `analysis_scheduler_tick`: notice a finished worker, then start the next job. */
    method RunTick(workerRunning: bool, hasRoot: bool) returns (started: Option<Dispatch>)
      requires Valid()
      modifies this, pendingJobs
      ensures Valid() && (Value(), started) == Ticked(old(Value()), workerRunning, hasRoot)
    {
      NoteCompletion(workerRunning);
      var key := SelectNextPendingKey();
      if running || !hasRoot || key == NO_KEY { return None; }
      var slot := pendingJobs[key];
      pendingJobs[key] := EMPTY_SLOT;
      running, activeRunId, nextRunId := true, nextRunId, nextRunId + 1;
      activeReasons, activeForceFull, activeJobKey := slot.reasons, slot.forceFull, key;
      started := Some(Dispatch(activeRunId, key, slot.reasons, slot.forceFull, slot.coalesced, slot.hints,
                               if key == LIVE then slot.live else None));
    }
  }
}
