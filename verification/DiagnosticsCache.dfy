/** The optional build-diagnostics cache (build_diagnostics.c): two slots, detached reader
    threads, and a generation number that outdates every read before a clear. Each function
    on `Cache` is one section the program runs under the lock, or a clear, which takes no
    lock and may come from a client thread at any moment. */
module DiagnosticsCache {
  import opened PathTable

  datatype Slot = Slot(busy: bool, done: bool, generation: nat, started: int, path: string, bytes: Option<string>)

  const FREE := Slot(false, false, 0, 0, "", None)
  const SLOT_COUNT: nat := 2
  const PATH_MAX: nat := 4096
  const FRESH_FOR: int := 2_000_000_000  // nanoseconds

  datatype Cache = Cache(slots: seq<Slot>, generation: nat)

  function CachePath(root: string): string {
    root + "/ide_files/build_output.json"
  }

  function Cleared(c: Cache): Cache {
    c.(generation := c.generation + 1)
  }

  /** One turn of the poll loop: a finished slot is emptied; its bytes are handed out when
      they are current and less than two seconds old. */
  function Polled(c: Cache, i: nat, now: int): (Cache, Option<string>)
    requires i < |c.slots|
  {
    var slot := c.slots[i];
    if slot.busy && slot.done then
      (c.(slots := c.slots[i := FREE]),
       if slot.generation == c.generation && now - slot.started < FRESH_FOR then slot.bytes else None)
    else (c, None)
  }

  function FirstFree(slots: seq<Slot>): (i: nat)
    ensures i <= |slots|
    ensures i < |slots| ==> !slots[i].busy
    ensures forall j :: 0 <= j < i ==> slots[j].busy
  {
    if slots == [] || !slots[0].busy then 0 else 1 + FirstFree(slots[1..])
  }

  /** The end of `load`: take a free slot and start a reader on it, if all goes well. */
  function Claimed(c: Cache, root: string, started: int, created: bool): (r: (Cache, Option<nat>))
    ensures r.1.Some? ==> r.1.value < |c.slots| && !c.slots[r.1.value].busy
  {
    var i := FirstFree(c.slots);
    if i == |c.slots| then (c, None)
    else if |CachePath(root)| < PATH_MAX && created then
      (c.(slots := c.slots[i := Slot(true, false, c.generation, started, CachePath(root), None)]), Some(i))
    else (c.(slots := c.slots[i := FREE]), None)
  }

  /** The last act of a reader thread. */
  function Finished(c: Cache, i: nat, bytes: Option<string>): Cache
    requires i < |c.slots|
  {
    c.(slots := c.slots[i := c.slots[i].(bytes := bytes, done := true)])
  }

  // ---------------------------------------------------------------------------------------
  // The threads. The UI thread runs one call at a time, but readers finish and clients clear
  // between any two of its steps.

  /** A running reader thread: the slot it will write, and the load that started it. */
  datatype Reader = Reader(slot: nat, generation: nat, path: string)

  datatype Call = Idle
                | Polling(next: nat, now: int, loading: Option<string>)
                | Claiming(root: string)

  /** Bytes handed out, and how old their read then was. */
  datatype Publication = Publication(generation: nat, path: string, bytes: string, age: int)

  /** `taken` was handed out under the lock and is not yet applied. `outcomes` and `published`
      are the record of what happened, kept for the statements. */
  datatype System = System(cache: Cache, readers: seq<Reader>, call: Call, taken: Option<Publication>,
                           outcomes: map<nat, Option<string>>, published: seq<Publication>)

  const START := System(Cache([FREE, FREE], 0), [], Idle, None, map[], [])

  datatype Action = Clear
                  | Poll(now: int)
                  | Load(root: string, now: int)
                  | PollSlot
                  | Apply
                  | Claim(started: int, created: bool)
                  | ReaderDone(reader: nat, bytes: Option<string>)

  /** The UI thread applies what it has taken before it goes on; clients may clear whenever. */
  predicate Enabled(s: System, a: Action) {
    match a
    case Clear => true
    case Poll(_) => s.call.Idle? && s.taken.None?
    case Load(_, _) => s.call.Idle? && s.taken.None?
    case PollSlot => s.call.Polling? && s.taken.None?
    case Apply => s.taken.Some?
    case Claim(_, _) => s.call.Claiming? && s.taken.None?
    case ReaderDone(r, _) => r < |s.readers|
  }

  /** After the second slot a poll ends, and a load goes on to claim unless its root is empty. */
  function AfterSlot(call: Call): Call
    requires call.Polling?
  {
    if call.next + 1 < SLOT_COUNT then call.(next := call.next + 1)
    else if call.loading.Some? && call.loading.value != "" then Claiming(call.loading.value)
    else Idle
  }

  function Next(s: System, a: Action): System
    requires |s.cache.slots| == SLOT_COUNT && Enabled(s, a)
    requires s.call.Polling? ==> s.call.next < SLOT_COUNT
    requires forall r :: 0 <= r < |s.readers| ==> s.readers[r].slot < SLOT_COUNT
  {
    match a
    case Clear => s.(cache := Cleared(s.cache))
    case Poll(now) => s.(call := Polling(0, now, None))
    case Load(root, now) => s.(cache := Cleared(s.cache), call := Polling(0, now, Some(root)))
    case PollSlot =>
      var slot := s.cache.slots[s.call.next];
      var (cache, bytes) := Polled(s.cache, s.call.next, s.call.now);
      s.(cache := cache, call := AfterSlot(s.call),
         taken := if bytes.None? then None
                  else Some(Publication(slot.generation, slot.path, bytes.value, s.call.now - slot.started)))
    case Apply => s.(taken := None, published := s.published + [s.taken.value])
    case Claim(started, created) =>
      var (cache, slot) := Claimed(s.cache, s.call.root, started, created);
      s.(cache := cache, call := Idle,
         readers := s.readers +
                    if slot.Some? then [Reader(slot.value, s.cache.generation, CachePath(s.call.root))] else [])
    case ReaderDone(r, bytes) =>
      var reader := s.readers[r];
      s.(cache := Finished(s.cache, reader.slot, bytes), readers := s.readers[..r] + s.readers[r + 1..],
         outcomes := s.outcomes[reader.generation := bytes])
  }

  /** Every running reader owns its slot: busy, unfinished, still carrying its load's data. */
  ghost predicate ReadersOwnSlots(s: System) {
    && |s.cache.slots| == SLOT_COUNT
    && (forall r :: 0 <= r < |s.readers| ==>
          var reader := s.readers[r];
          && reader.slot < SLOT_COUNT
          && var slot := s.cache.slots[reader.slot];
             slot.busy && !slot.done && slot.generation == reader.generation && slot.path == reader.path)
    && (forall q, r :: 0 <= q < r < |s.readers| ==> s.readers[q].slot != s.readers[r].slot)
  }

  ghost predicate SlotsInOrder(s: System) {
    && |s.cache.slots| == SLOT_COUNT
    && (forall i :: 0 <= i < SLOT_COUNT && s.cache.slots[i].busy ==>
          var slot := s.cache.slots[i];
          && slot.generation <= s.cache.generation
          && (s.call.Claiming? || (s.call.Polling? && s.call.loading.Some?) ==> slot.generation < s.cache.generation)
          && (slot.done <==> slot.generation in s.outcomes)
          && (slot.done ==> s.outcomes[slot.generation] == slot.bytes))
    && (s.cache.slots[0].busy && s.cache.slots[1].busy ==> s.cache.slots[0].generation != s.cache.slots[1].generation)
    && (s.call.Polling? ==> s.call.next < SLOT_COUNT)
    && (forall g :: g in s.outcomes ==> g <= s.cache.generation)
    && (s.call.Claiming? || (s.call.Polling? && s.call.loading.Some?) ==> s.cache.generation !in s.outcomes)
  }

  /** Everything handed out so far, applied or about to be. */
  function HandedOut(s: System): seq<Publication> {
    s.published + if s.taken.Some? then [s.taken.value] else []
  }

  /** What was handed out is what its reader read, was fresh, left its slot, and came out once. */
  ghost predicate OutOnce(out: seq<Publication>, outcomes: map<nat, Option<string>>, slots: seq<Slot>) {
    && (forall p :: 0 <= p < |out| ==>
          && out[p].generation in outcomes && outcomes[out[p].generation] == Some(out[p].bytes)
          && out[p].age < FRESH_FOR)
    && (forall p, i :: 0 <= p < |out| && 0 <= i < |slots| && slots[i].busy ==>
          slots[i].generation != out[p].generation)
    && (forall p, q :: 0 <= p < q < |out| ==> out[p].generation != out[q].generation)
  }

  ghost predicate PublishedOnce(s: System) {
    OutOnce(HandedOut(s), s.outcomes, s.cache.slots)
  }

  ghost predicate Safe(s: System) {
    ReadersOwnSlots(s) && SlotsInOrder(s) && PublishedOnce(s)
  }

  lemma ReaderDoneKeepsReaders(s: System, r: nat, bytes: Option<string>)
    requires ReadersOwnSlots(s) && SlotsInOrder(s) && r < |s.readers|
    ensures ReadersOwnSlots(Next(s, ReaderDone(r, bytes)))
  {
    var s' := Next(s, ReaderDone(r, bytes));
    assert forall k :: 0 <= k < |s'.readers| ==> s'.readers[k] == s.readers[if k < r then k else k + 1];
  }

  lemma ReaderDoneKeepsOrder(s: System, r: nat, bytes: Option<string>)
    requires ReadersOwnSlots(s) && SlotsInOrder(s) && r < |s.readers|
    ensures s.readers[r].generation !in s.outcomes
    ensures SlotsInOrder(Next(s, ReaderDone(r, bytes)))
  {
    var own := s.readers[r];
    var slots := Next(s, ReaderDone(r, bytes)).cache.slots;
    assert forall i :: 0 <= i < SLOT_COUNT && i != own.slot ==> slots[i] == s.cache.slots[i];
  }

  lemma ReaderDoneIsSafe(s: System, r: nat, bytes: Option<string>)
    requires Safe(s) && r < |s.readers|
    ensures Safe(Next(s, ReaderDone(r, bytes)))
  {
    var s' := Next(s, ReaderDone(r, bytes));
    ReaderDoneKeepsReaders(s, r, bytes);
    ReaderDoneKeepsOrder(s, r, bytes);
    assert PublishedOnce(s') by {
      assert HandedOut(s') == HandedOut(s);
    }
  }

  lemma PollSlotIsSafe(s: System)
    requires Safe(s) && s.call.Polling? && s.taken.None?
    ensures Safe(Next(s, PollSlot))
  {
    var s' := Next(s, PollSlot);
    assert HandedOut(s) == s.published;
    assert HandedOut(s') == if s'.taken.Some? then s.published + [s'.taken.value] else s.published;
  }

  lemma ClaimKeepsReaders(s: System, started: int, created: bool)
    requires Safe(s) && s.call.Claiming? && s.taken.None?
    ensures ReadersOwnSlots(Next(s, Claim(started, created)))
  {
    var i := FirstFree(s.cache.slots);
    assert forall r :: 0 <= r < |s.readers| ==> s.readers[r].slot != i;
  }

  lemma ClaimKeepsOrder(s: System, started: int, created: bool)
    requires Safe(s) && s.call.Claiming? && s.taken.None?
    ensures SlotsInOrder(Next(s, Claim(started, created)))
  {
  }

  lemma ClaimPublishesNothing(s: System, started: int, created: bool)
    requires Safe(s) && s.call.Claiming? && s.taken.None?
    ensures PublishedOnce(Next(s, Claim(started, created)))
  {
    assert HandedOut(Next(s, Claim(started, created))) == HandedOut(s);
  }

  lemma ClaimIsSafe(s: System, started: int, created: bool)
    requires Safe(s) && s.call.Claiming? && s.taken.None?
    ensures Safe(Next(s, Claim(started, created)))
  {
    ClaimKeepsReaders(s, started, created);
    ClaimKeepsOrder(s, started, created);
    ClaimPublishesNothing(s, started, created);
  }

  lemma ApplyIsSafe(s: System)
    requires Safe(s) && s.taken.Some?
    ensures Safe(Next(s, Apply)) && HandedOut(Next(s, Apply)) == HandedOut(s)
  {
    assert HandedOut(Next(s, Apply)) == HandedOut(s);
  }

  /** Every interleaving of clear, poll, load, claim, apply and reader completion is safe. */
  lemma NextIsSafe(s: System, a: Action)
    requires Safe(s) && Enabled(s, a)
    ensures Safe(Next(s, a))
  {
    match a {
      case PollSlot => PollSlotIsSafe(s);
      case Apply => ApplyIsSafe(s);
      case Claim(started, created) => ClaimIsSafe(s, started, created);
      case ReaderDone(r, bytes) => ReaderDoneIsSafe(s, r, bytes);
      case _ => assert HandedOut(Next(s, a)) == HandedOut(s);
    }
  }

  /** Only its own reader touches a slot that has one, and at most one slot is current. */
  lemma OwnedSlotIsNeverReused(s: System, a: Action, r: nat)
    requires Safe(s) && Enabled(s, a) && r < |s.readers| && !(a.ReaderDone? && a.reader == r)
    ensures Next(s, a).cache.slots[s.readers[r].slot] == s.cache.slots[s.readers[r].slot]
    ensures s.cache.slots[0].busy && s.cache.slots[0].generation == s.cache.generation ==>
              !(s.cache.slots[1].busy && s.cache.slots[1].generation == s.cache.generation)
    ensures |s.readers| <= SLOT_COUNT
  {
    if |s.readers| > SLOT_COUNT {
      var a0, a1, a2 := s.readers[0].slot, s.readers[1].slot, s.readers[2].slot;
      assert false;
    }
  }

  // ---------------------------------------------------------------------------------------
  // Whole runs.

  /** The state after a sequence of actions, if every one of them was possible in its turn. */
  function After(actions: seq<Action>): (r: Option<System>)
  {
    if actions == [] then Some(START)
    else
      var before, a := After(actions[..|actions| - 1]), actions[|actions| - 1];
      if before.None? || !Enabled(before.value, a) || !Steppable(before.value) then None
      else Some(Next(before.value, a))
  }

  predicate Steppable(s: System) {
    |s.cache.slots| == SLOT_COUNT && (s.call.Polling? ==> s.call.next < SLOT_COUNT)
    && forall r :: 0 <= r < |s.readers| ==> s.readers[r].slot < SLOT_COUNT
  }

  /** The root of the latest load, if nothing was cleared since. */
  function LatestLoad(actions: seq<Action>): Option<string> {
    if actions == [] then None
    else match actions[|actions| - 1]
      case Clear => None
      case Load(root, _) => Some(root)
      case _ => LatestLoad(actions[..|actions| - 1])
  }

  /** How far the latest load has come, and how many clears fell on the way. */
  datatype Progress = NoLoad
                    | Loading(root: string, before: nat)
                    | Loaded(root: string, before: nat, after: nat)

  /** Read off the actions alone: `before` counts the clears between the load's own and its
      claim, `after` those since the claim. */
  function ProgressOf(actions: seq<Action>): Progress {
    if actions == [] then NoLoad
    else NextProgress(ProgressOf(actions[..|actions| - 1]), actions[|actions| - 1])
  }

  function NextProgress(p: Progress, a: Action): Progress {
    match a
    case Load(root, _) => Loading(root, 0)
    case Clear =>
      (match p
       case NoLoad => NoLoad
       case Loading(root, before) => Loading(root, before + 1)
       case Loaded(root, before, after) => Loaded(root, before, after + 1))
    case Claim(_, _) => if p.Loading? then Loaded(p.root, p.before, 0) else p
    case _ => p
  }

  /** The latest load still stands exactly when no clear fell after it. */
  lemma {:induction false} LatestLoadByProgress(actions: seq<Action>)
    ensures LatestLoad(actions) ==
            match ProgressOf(actions)
            case NoLoad => None
            case Loading(root, before) => if before == 0 then Some(root) else None
            case Loaded(root, before, after) => if before == 0 && after == 0 then Some(root) else None
  {
    if actions != [] {
      LatestLoadByProgress(actions[..|actions| - 1]);
    }
  }

  /** A current slot, and what was taken from one, belong to the latest load. The generation
      counts the clears after the claim, and knows nothing of those before it. */
  ghost predicate CurrentIsLatest(s: System, p: Progress) {
    && (forall i :: 0 <= i < |s.cache.slots|
                    && s.cache.slots[i].busy && s.cache.slots[i].generation == s.cache.generation ==>
          p.Loaded? && p.after == 0 && s.cache.slots[i].path == CachePath(p.root))
    && (s.call.Polling? && s.call.loading.Some? ==> p.Loading? && s.call.loading == Some(p.root))
    && (s.call.Claiming? ==> p.Loading? && s.call.root == p.root)
    && (s.taken.Some? ==>
          && p.Loaded? && s.taken.value.path == CachePath(p.root)
          && s.taken.value.generation + p.after == s.cache.generation)
  }

  lemma NextKeepsLatest(s: System, a: Action, p: Progress)
    requires Safe(s) && Enabled(s, a) && CurrentIsLatest(s, p)
    ensures CurrentIsLatest(Next(s, a), NextProgress(p, a))
  {
  }

  lemma {:induction false} RunsAreSafe(actions: seq<Action>)
    requires After(actions).Some?
    ensures Safe(After(actions).value) && CurrentIsLatest(After(actions).value, ProgressOf(actions))
  {
    if actions != [] {
      var front, a := actions[..|actions| - 1], actions[|actions| - 1];
      var s := After(front).value;
      RunsAreSafe(front);
      NextIsSafe(s, a);
      NextKeepsLatest(s, a, ProgressOf(front));
    }
  }

  lemma AfterStep(actions: seq<Action>, a: Action)
    requires After(actions).Some? && Enabled(After(actions).value, a) && Steppable(After(actions).value)
    ensures After(actions + [a]) == Some(Next(After(actions).value, a))
    ensures ProgressOf(actions + [a]) == NextProgress(ProgressOf(actions), a)
  {
    assert (actions + [a])[..|actions|] == actions;
  }

  /** In every run, bytes leave the lock only for the latest load, with no clear since its
      claim; a clear between the load's own and its claim is not noticed. */
  lemma TakenBytesAreCurrent(actions: seq<Action>)
    requires After(actions).Some? && After(actions + [PollSlot]).Some? && After(actions + [PollSlot]).value.taken.Some?
    ensures var p, pub := ProgressOf(actions), After(actions + [PollSlot]).value.taken.value;
            && p.Loaded? && p.after == 0 && pub.path == CachePath(p.root)
            && pub.generation == After(actions).value.cache.generation
            && (LatestLoad(actions).None? <==> p.before > 0)
  {
    RunsAreSafe(actions);
    LatestLoadByProgress(actions);
    assert (actions + [PollSlot])[..|actions|] == actions;
  }

  /** In every run, a step publishes only what the reader of the latest load read, less than two
      seconds old, and never a second time. The bytes come out after a clear if and only if one
      fell between the load's own clear and its claim, or between the take and this step. */
  lemma PublishedBytesAreCurrent(actions: seq<Action>, a: Action)
    requires After(actions).Some? && After(actions + [a]).Some?
    requires After(actions + [a]).value.published != After(actions).value.published
    ensures var s, p := After(actions).value, ProgressOf(actions);
            && a.Apply? && s.taken.Some?
            && var pub := s.taken.value;
            && After(actions + [a]).value.published == s.published + [pub]
            && p.Loaded? && pub.path == CachePath(p.root) && pub.generation + p.after == s.cache.generation
            && pub.generation in s.outcomes && s.outcomes[pub.generation] == Some(pub.bytes)
            && pub.age < FRESH_FOR
            && (forall k :: 0 <= k < |s.published| ==> s.published[k].generation != pub.generation)
            && (LatestLoad(actions).None? <==> p.before > 0 || p.after > 0)
  {
    var s := After(actions).value;
    assert (actions + [a])[..|actions|] == actions;
    RunsAreSafe(actions);
    LatestLoadByProgress(actions);
    var out, n := HandedOut(s), |s.published|;
    assert out[n] == s.taken.value;
    assert forall k :: 0 <= k < n ==> out[k] == s.published[k];
  }

  /** A load, its read and the poll that publishes it, with room for a client's clear before
      the claim and before the apply. */
  function ReadRun(root: string, t0: int, early: bool, started: int, bytes: string, now: int, late: bool): seq<Action> {
    Taking(root, t0, early, started, bytes, now) + (if late then [Clear] else []) + [Apply]
  }

  function Opening(root: string, t0: int, early: bool): seq<Action> {
    [] + [Load(root, t0)] + [PollSlot] + [PollSlot] + if early then [Clear] else []
  }

  function Reading(root: string, t0: int, early: bool, started: int, bytes: string): seq<Action> {
    Opening(root, t0, early) + [Claim(started, true)] + [ReaderDone(0, Some(bytes))]
  }

  function Taking(root: string, t0: int, early: bool, started: int, bytes: string, now: int): seq<Action> {
    Reading(root, t0, early, started, bytes) + [Poll(now)] + [PollSlot]
  }

  lemma Opens(root: string, t0: int, early: bool)
    requires root != ""
    ensures After(Opening(root, t0, early)) ==
            Some(START.(cache := START.cache.(generation := if early then 2 else 1), call := Claiming(root)))
    ensures ProgressOf(Opening(root, t0, early)) == Loading(root, if early then 1 else 0)
  {
    var a1 := [] + [Load(root, t0)];
    AfterStep([], Load(root, t0));
    AfterStep(a1, PollSlot);
    AfterStep(a1 + [PollSlot], PollSlot);
    var a3 := a1 + [PollSlot] + [PollSlot];
    if early {
      AfterStep(a3, Clear);
    } else {
      assert a3 + [] == a3;
    }
  }

  /** The state in which the first slot holds bytes read at generation `g`. */
  function HoldingBytes(root: string, g: nat, started: int, bytes: string): System {
    System(Cache([Slot(true, true, g, started, CachePath(root), Some(bytes)), FREE], g), [], Idle, None,
           map[g := Some(bytes)], [])
  }

  lemma ClaimAndRead(s: System, root: string, started: int, bytes: string)
    requires |CachePath(root)| < PATH_MAX
    requires s == START.(cache := Cache([FREE, FREE], s.cache.generation), call := Claiming(root))
    ensures var c := Next(s, Claim(started, true));
            && c == START.(cache := Cache([Slot(true, false, s.cache.generation, started, CachePath(root), None), FREE],
                                          s.cache.generation),
                           readers := [Reader(0, s.cache.generation, CachePath(root))])
            && Next(c, ReaderDone(0, Some(bytes))) == HoldingBytes(root, s.cache.generation, started, bytes)
  {
    var c := Next(s, Claim(started, true));
    assert [FREE, FREE][0 := Slot(true, false, s.cache.generation, started, CachePath(root), None)] == c.cache.slots;
    assert c.readers == [Reader(0, s.cache.generation, CachePath(root))];
    assert c.readers[..0] + c.readers[1..] == [];
  }

  lemma Reads(root: string, t0: int, early: bool, started: int, bytes: string)
    requires root != "" && |CachePath(root)| < PATH_MAX
    ensures After(Reading(root, t0, early, started, bytes)) ==
            Some(HoldingBytes(root, if early then 2 else 1, started, bytes))
    ensures ProgressOf(Reading(root, t0, early, started, bytes)) == Loaded(root, if early then 1 else 0, 0)
  {
    Opens(root, t0, early);
    var a := Opening(root, t0, early);
    ClaimAndRead(After(a).value, root, started, bytes);
    AfterStep(a, Claim(started, true));
    AfterStep(a + [Claim(started, true)], ReaderDone(0, Some(bytes)));
  }

  lemma Takes(root: string, t0: int, early: bool, started: int, bytes: string, now: int)
    requires root != "" && |CachePath(root)| < PATH_MAX && now - started < FRESH_FOR
    ensures var g := if early then 2 else 1;
            var r := After(Taking(root, t0, early, started, bytes, now));
            && r.Some? && r.value.taken == Some(Publication(g, CachePath(root), bytes, now - started))
            && r.value.published == [] && Steppable(r.value)
    ensures ProgressOf(Taking(root, t0, early, started, bytes, now)) == Loaded(root, if early then 1 else 0, 0)
  {
    Reads(root, t0, early, started, bytes);
    var a := Reading(root, t0, early, started, bytes);
    AfterStep(a, Poll(now));
    AfterStep(a + [Poll(now)], PollSlot);
  }

  /** Either clear is missed: whatever the cache file holds is published, though the latest
      load was cleared after it began. */
  lemma ClearedLoadIsPublished(root: string, t0: int, early: bool, started: int, bytes: string, now: int, late: bool)
    requires root != "" && |CachePath(root)| < PATH_MAX && now - started < FRESH_FOR
    ensures var run := ReadRun(root, t0, early, started, bytes, now, late);
            && After(run).Some?
            && After(run).value.published ==
               [Publication(if early then 2 else 1, CachePath(root), bytes, now - started)]
            && (LatestLoad(run).None? <==> early || late)
  {
    Takes(root, t0, early, started, bytes, now);
    var a := Taking(root, t0, early, started, bytes, now);
    if late {
      AfterStep(a, Clear);
      AfterStep(a + [Clear], Apply);
    } else {
      assert a + [] == a;
      AfterStep(a, Apply);
    }
    LatestLoadByProgress(ReadRun(root, t0, early, started, bytes, now, late));
  }

  // ---------------------------------------------------------------------------------------
  // What should come out does.

  /** The bytes in a slot that a poll at `now` has to hand out. */
  ghost predicate Deliverable(c: Cache, i: nat, now: int, pub: Publication) {
    && i < |c.slots|
    && var slot := c.slots[i];
       && slot.busy && slot.done && slot.generation == c.generation && now - slot.started < 2_000_000_000
       && slot.bytes == Some(pub.bytes) && pub.generation == slot.generation && pub.path == slot.path
       && pub.age == now - slot.started
  }

  /** One turn of a poll takes bytes if and only if the slot polled is busy, done, current, under
      two seconds old and holds bytes, and then those. A finished slot ends free in any case, and
      nothing else in the cache changes. */
  lemma PollSlotExactly(s: System, pub: Publication)
    requires Safe(s) && Enabled(s, PollSlot)
    ensures var i, s' := s.call.next, Next(s, PollSlot);
            var slot := s.cache.slots[i];
            && (s'.taken.Some? <==>
                  slot.busy && slot.done && slot.generation == s.cache.generation
                  && s.call.now - slot.started < 2_000_000_000 && slot.bytes.Some?)
            && (s'.taken == Some(pub) <==> Deliverable(s.cache, i, s.call.now, pub))
            && s'.cache.generation == s.cache.generation && |s'.cache.slots| == |s.cache.slots|
            && (slot.busy && slot.done ==> s'.cache.slots[i] == Slot(false, false, 0, 0, "", None))
            && (!(slot.busy && slot.done) ==> s'.cache.slots[i] == slot)
            && forall j :: 0 <= j < |s.cache.slots| && j != i ==> s'.cache.slots[j] == s.cache.slots[j]
  {
  }

  /** The actions carried out one after another, if each is possible in its turn. */
  function RunFrom(s: System, actions: seq<Action>): Option<System>
    decreases actions
  {
    if actions == [] then Some(s)
    else if !Enabled(s, actions[0]) || !Steppable(s) then None
    else RunFrom(Next(s, actions[0]), actions[1..])
  }

  /** Bytes that are due: still in a slot the running poll will come to, or handed out. */
  ghost predicate Due(s: System, i: nat, now: int, pub: Publication) {
    || pub in HandedOut(s)
    || (s.call.Polling? && s.call.next <= i && s.call.now == now && Deliverable(s.cache, i, now, pub))
  }

  lemma HandedOutStays(s: System, a: Action, pub: Publication)
    requires Safe(s) && Enabled(s, a) && pub in HandedOut(s)
    ensures pub in HandedOut(Next(s, a))
  {
    var s' := Next(s, a);
    match a {
      case PollSlot => assert HandedOut(s) == s.published && s'.published == s.published;
      case Apply => ApplyIsSafe(s);
      case _ => assert HandedOut(s') == HandedOut(s);
    }
  }

  lemma DueStays(s: System, a: Action, i: nat, now: int, pub: Publication)
    requires Safe(s) && Enabled(s, a) && !a.Clear? && Due(s, i, now, pub)
    ensures Due(Next(s, a), i, now, pub)
  {
    if pub in HandedOut(s) {
      HandedOutStays(s, a, pub);
    } else if a.PollSlot? {
      PollSlotExactly(s, pub);
      if s.call.next == i {
        var s' := Next(s, a);
        assert HandedOut(s') == s'.published + [pub];
      }
    } else if a.ReaderDone? {
      assert s.readers[a.reader].slot != i;
    }
  }

  lemma {:induction false} DueThroughout(s: System, actions: seq<Action>, i: nat, now: int, pub: Publication)
    requires Safe(s) && Due(s, i, now, pub) && Clear !in actions && RunFrom(s, actions).Some?
    ensures Safe(RunFrom(s, actions).value) && Due(RunFrom(s, actions).value, i, now, pub)
    decreases actions
  {
    if actions != [] {
      var s' := Next(s, actions[0]);
      NextIsSafe(s, actions[0]);
      DueStays(s, actions[0], i, now, pub);
      DueThroughout(s', actions[1..], i, now, pub);
    }
  }

  /** Bytes that are due when a poll starts, in either slot, are published by the time it is
      over, whatever the readers do meanwhile, unless there is a clear. */
  lemma PollPublishes(s: System, actions: seq<Action>, i: nat, pub: Publication)
    requires Safe(s) && s.call.Polling? && s.call.next == 0 && s.taken.None?
    requires Deliverable(s.cache, i, s.call.now, pub)
    requires Clear !in actions && RunFrom(s, actions).Some?
    requires !RunFrom(s, actions).value.call.Polling? && RunFrom(s, actions).value.taken.None?
    ensures pub in RunFrom(s, actions).value.published
  {
    DueThroughout(s, actions, i, s.call.now, pub);
    var end := RunFrom(s, actions).value;
    assert HandedOut(end) == end.published;
  }

  /** A claim takes the first free slot if and only if there is one, the path fits the buffer and
      the thread could be created; then it is read for this root, and otherwise the cache stays
      as it is. */
  lemma ClaimExactly(s: System, started: int, created: bool)
    requires Safe(s) && Enabled(s, Claim(started, created))
    ensures var s', path := Next(s, Claim(started, created)), s.call.root + "/ide_files/build_output.json";
            var free := exists i :: 0 <= i < 2 && !s.cache.slots[i].busy;
            && s'.call == Idle && s'.taken == None && s'.published == s.published && s'.outcomes == s.outcomes
            && s'.cache.generation == s.cache.generation
            && if free && |path| < 4096 && created then
                 && |s'.readers| == |s.readers| + 1 && s'.readers[..|s.readers|] == s.readers
                 && var reader := s'.readers[|s.readers|];
                    && reader.generation == s.cache.generation && reader.path == path
                    && reader.slot == (if s.cache.slots[0].busy then 1 else 0)
                    && s'.cache.slots[reader.slot] == Slot(true, false, s.cache.generation, started, path, None)
                    && s'.cache.slots[1 - reader.slot] == s.cache.slots[1 - reader.slot]
               else
                 && s'.readers == s.readers
                 && forall i :: 0 <= i < 2 ==> if s.cache.slots[i].busy then s'.cache.slots[i] == s.cache.slots[i]
                                               else !s'.cache.slots[i].busy
  {
    var slots := s.cache.slots;
    var i := FirstFree(slots);
    assert slots[0].busy ==> i == if slots[1].busy then 2 else 1;
  }

  /** A load clears first, polls both slots, and goes on to its claim unless its root is empty; a
      plain poll ends there. */
  lemma CallsExactly(s: System, root: string, now: int)
    requires Safe(s) && s.call.Idle? && s.taken.None?
    ensures Next(s, Load(root, now)).cache == s.cache.(generation := s.cache.generation + 1)
    ensures Next(s, Load(root, now)).call == Polling(0, now, Some(root))
    ensures Next(s, Poll(now)) == s.(call := Polling(0, now, None))
    ensures AfterSlot(Polling(0, now, Some(root))) == Polling(1, now, Some(root))
    ensures AfterSlot(Polling(0, now, None)) == Polling(1, now, None) && AfterSlot(Polling(1, now, None)) == Idle
    ensures AfterSlot(Polling(1, now, Some(root))) == if root == "" then Idle else Claiming(root)
  {
  }

  // ---------------------------------------------------------------------------------------

  class DiagnosticsReads {
    const cacheReads: array<Slot>
    var cacheGeneration: nat

    function Value(): Cache
      reads this, cacheReads
    {
      Cache(cacheReads[..], cacheGeneration)
    }

    constructor ()
      ensures cacheReads.Length == SLOT_COUNT && Value() == START.cache && fresh(cacheReads)
    {
      cacheReads := new Slot[SLOT_COUNT](_ => FREE);
      cacheGeneration := 0;
      new;
      assert cacheReads[..] == [FREE, FREE];
    }

    method Clear()
      modifies this
      ensures Value() == Cleared(old(Value()))
    {
      cacheGeneration := cacheGeneration + 1;
    }

    /** One locked section of `build_diagnostics_poll`. */
    method PollOne(i: nat, now: int) returns (bytes: Option<string>)
      requires i < cacheReads.Length
      modifies cacheReads
      ensures (Value(), bytes) == Polled(old(Value()), i, now)
    {
      bytes := None;
      var request := cacheReads[i];
      if request.busy && request.done {
        if request.generation == cacheGeneration && now - request.started < FRESH_FOR {
          bytes := request.bytes;
        }
        cacheReads[i] := FREE;
      }
    }

    /** The locked loop at the end of `build_diagnostics_load`. */
    method ClaimSlot(root: string, started: int, created: bool) returns (launched: Option<nat>)
      modifies cacheReads
      ensures (Value(), launched) == Claimed(old(Value()), root, started, created)
    {
      launched := None;
      var i := 0;
      while i < cacheReads.Length
        invariant i <= cacheReads.Length && launched == None
        invariant cacheReads[..] == old(cacheReads[..])
        invariant FirstFree(cacheReads[..]) == i + FirstFree(cacheReads[i..])
      {
        assert cacheReads[i..][1..] == cacheReads[i + 1..];
        if !cacheReads[i].busy {
          cacheReads[i] := Slot(true, false, cacheGeneration, started, CachePath(root), None);
          if |CachePath(root)| < PATH_MAX && created {
            launched := Some(i);
          } else {
            cacheReads[i] := FREE;
          }
          assert cacheReads[..] == old(cacheReads[..])[i := cacheReads[i]];
          return;
        }
        i := i + 1;
      }
    }

    /** The locked section at the end of the reader thread. */
    method Finish(i: nat, bytes: Option<string>)
      requires i < cacheReads.Length
      modifies cacheReads
      ensures Value() == Finished(old(Value()), i, bytes)
    {
      cacheReads[i] := cacheReads[i].(bytes := bytes, done := true);
    }
  }
}
