/** Mouse-motion coalescing in the event loop (event_loop.c). */
module InputCoalescing {
  import opened PathTable
  import opened Filters

  datatype Event = Motion(x: int, y: int) | Other(id: int)

  /** The reference: an event is left out exactly when it is a motion directly followed by
      another motion. */
  predicate Superseded(events: seq<Event>, i: nat)
    requires i < |events|
  {
    events[i].Motion? && i + 1 < |events| && events[i + 1].Motion?
  }

  function Surviving(events: seq<Event>, n: nat): seq<Event>
    requires n <= |events|
  {
    if n == 0 then []
    else Surviving(events, n - 1) + if Superseded(events, n - 1) then [] else [events[n - 1]]
  }

  function Coalesced(events: seq<Event>): seq<Event> {
    Surviving(events, |events|)
  }

  lemma {:induction false} SurvivingPrefix(events: seq<Event>, more: seq<Event>, n: nat)
    requires n < |events|
    ensures Surviving(events + more, n) == Surviving(events, n)
  {
    if n > 0 {
      SurvivingPrefix(events, more, n - 1);
      assert (events + more)[n - 1] == events[n - 1] && (events + more)[n] == events[n];
    }
  }

  /** What has been dispatched, and the motion still held back. */
  ghost predicate Holds(events: seq<Event>, dispatched: seq<Event>, pending: Option<Event>) {
    match pending
    case None => dispatched == Coalesced(events) && (events != [] ==> !events[|events| - 1].Motion?)
    case Some(m) => events != [] && m.Motion? && m == events[|events| - 1] && Coalesced(events) == dispatched + [m]
  }

  lemma HoldsNext(events: seq<Event>, dispatched: seq<Event>, pending: Option<Event>, e: Event)
    requires Holds(events, dispatched, pending)
    ensures e.Motion? ==> Holds(events + [e], dispatched, Some(e))
    ensures !e.Motion? ==> Holds(events + [e], dispatched + (if pending.Some? then [pending.value] else []) + [e], None)
  {
    var all := events + [e];
    if events != [] {
      SurvivingPrefix(events, [e], |events| - 1);
      assert Surviving(all, |all|) ==
             Surviving(all, |events|) + [e];
      assert Surviving(all, |events|) ==
             Surviving(events, |events| - 1) + if Superseded(all, |events| - 1) then [] else [events[|events| - 1]];
      var before := Surviving(events, |events| - 1);
      assert Coalesced(events) == before + [events[|events| - 1]];
      if pending.Some? {
        assert dispatched == (dispatched + [pending.value])[..|dispatched|] == before;
      }
    } else {
      assert Surviving(all, 1) == Surviving(all, 0) + [e];
    }
  }

  /** `processInputEvents`: dispatches exactly the events that are not superseded. */
  method ProcessInputEvents(first: Option<Event>, polled: seq<Event>) returns (dispatched: seq<Event>)
    ensures dispatched == Coalesced((if first.Some? then [first.value] else []) + polled)
  {
    dispatched := [];
    var pending: Option<Event> := None;
    ghost var seen: seq<Event> := [];
    if first.Some? {
      HoldsNext([], [], None, first.value);
      assert [] + [first.value] == [first.value];
      if first.value.Motion? {
        pending := first;
      } else {
        dispatched := dispatched + [first.value];
      }
      seen := [first.value];
    }
    ghost var start := seen;
    var i := 0;
    while i < |polled|
      invariant i <= |polled| && seen == start + polled[..i]
      invariant Holds(seen, dispatched, pending)
    {
      var e := polled[i];
      HoldsNext(seen, dispatched, pending, e);
      seen := seen + [e];
      i := i + 1;
      if e.Motion? {
        pending := Some(e);
        continue;
      }
      if pending.Some? {
        dispatched := dispatched + [pending.value];
        pending := None;
      }
      dispatched := dispatched + [e];
    }
    assert polled[..i] == polled;
    if pending.Some? {
      dispatched := dispatched + [pending.value];
    }
  }

  predicate NotMotion(e: Event) {
    e.Other?
  }

  lemma {:induction false} SurvivingKeepsOthers(events: seq<Event>, n: nat)
    requires n <= |events|
    ensures Filter(Surviving(events, n), NotMotion) == Filter(events[..n], NotMotion)
  {
    if n > 0 {
      SurvivingKeepsOthers(events, n - 1);
      assert events[..n] == events[..n - 1] + [events[n - 1]];
      FilterAppend(events[..n - 1], [events[n - 1]], NotMotion);
      FilterAppend(Surviving(events, n - 1), [events[n - 1]], NotMotion);
      assert Superseded(events, n - 1) ==> Filter([events[n - 1]], NotMotion) == [];
      assert Surviving(events, n - 1) + [] == Surviving(events, n - 1);
    }
  }

  /** No other event is lost or moved, and the last event always survives. */
  lemma CoalescingKeepsOthers(events: seq<Event>)
    ensures Filter(Coalesced(events), NotMotion) == Filter(events, NotMotion)
    ensures events != [] ==>
              Coalesced(events) != [] && Coalesced(events)[|Coalesced(events)| - 1] == events[|events| - 1]
  {
    SurvivingKeepsOthers(events, |events|);
    assert events[..|events|] == events;
  }

  ghost predicate NoMotionPairs(events: seq<Event>) {
    forall i, j :: 0 <= i < |events| && j == i + 1 && j < |events| ==> !(events[i].Motion? && events[j].Motion?)
  }

  /** The first `n` survivors end with event n-1, or that event was superseded by event n. */
  lemma {:induction false} NoAdjacentMotions(events: seq<Event>, n: nat)
    requires n <= |events|
    ensures var kept := Surviving(events, n);
            && NoMotionPairs(kept)
            && (n > 0 && kept != [] && kept[|kept| - 1].Motion? ==> n == |events| || !events[n].Motion?)
    decreases n
  {
    if n > 0 {
      NoAdjacentMotions(events, n - 1);
    }
  }

  lemma {:induction false} NothingToCoalesce(events: seq<Event>, n: nat)
    requires n <= |events| && NoMotionPairs(events)
    ensures Surviving(events, n) == events[..n]
  {
    if n > 0 {
      NothingToCoalesce(events, n - 1);
      assert events[..n] == events[..n - 1] + [events[n - 1]];
    }
  }

  /** One motion per group is left, and coalescing again changes nothing. */
  lemma CoalescingIsIdempotent(events: seq<Event>)
    ensures NoMotionPairs(Coalesced(events))
    ensures Coalesced(Coalesced(events)) == Coalesced(events)
  {
    NoAdjacentMotions(events, |events|);
    NothingToCoalesce(Coalesced(events), |Coalesced(events)|);
  }
}
