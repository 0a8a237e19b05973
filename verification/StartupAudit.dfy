/** The startup audit (analysis_startup_audit.c): counts what changed since the cached
    snapshot and decides which refresh to schedule. */
module StartupAudit {
  import opened CStrings
  import opened PathTable
  import opened Snapshot

  datatype Intent = FullRequired | IncrementalTargets | IncrementalVerifyNoop

  datatype Artifacts = Artifacts(metaTrusted: bool, diagnostics: bool, symbols: bool, library: bool, includeGraph: bool)

  datatype Audit = Audit(cachedCount: nat, currentCount: nat, matched: nat, dirty: nat, removed: nat, added: nat,
                         intent: Intent)

  ghost predicate Proper(files: seq<Fingerprint>) {
    StrictlySorted(files) && forall i :: 0 <= i < |files| ==> files[i].path != ""
  }

  predicate Ready(a: Artifacts) {
    a.metaTrusted && a.diagnostics && a.symbols && a.library
  }

  /** The two snapshots list the same files with matching fingerprints. */
  ghost predicate SameFiles(cached: seq<Fingerprint>, current: seq<Fingerprint>) {
    forall p :: Lookup(cached, p).Some? == Lookup(current, p).Some?
                && (Lookup(cached, p).Some? ==> ContentEqual(Lookup(cached, p).value, Lookup(current, p).value))
  }

  /** Some header was added, changed or deleted. */
  ghost predicate HeaderChanged(cached: seq<Fingerprint>, current: seq<Fingerprint>) {
    exists p :: EndsWith(p, ".h") && (Lookup(current, p).Some? || Lookup(cached, p).Some?)
                && !(Lookup(cached, p).Some? && Lookup(current, p).Some?
                     && ContentEqual(Lookup(cached, p).value, Lookup(current, p).value))
  }

  lemma NothingChangedIffSameFiles(cached: seq<Fingerprint>, current: seq<Fingerprint>)
    requires StrictlySorted(cached) && StrictlySorted(current)
    ensures Merge(cached, current) == ([], []) <==> SameFiles(cached, current)
  {
    var (dirty, removed) := Merge(cached, current);
    forall p { DiffMembership(cached, current, p); }
    assert dirty != [] ==> dirty[0] in dirty;
    assert removed != [] ==> removed[0] in removed;
  }

  lemma HeadersInDiff(cached: seq<Fingerprint>, current: seq<Fingerprint>)
    requires StrictlySorted(cached) && StrictlySorted(current)
    ensures HasHeader(Merge(cached, current).0) || HasHeader(Merge(cached, current).1) <==>
              HeaderChanged(cached, current)
  {
    var (dirty, removed) := Merge(cached, current);
    forall p { DiffMembership(cached, current, p); }
    if HasHeader(dirty) {
      var i :| 0 <= i < |dirty| && EndsWith(dirty[i], ".h");
      assert dirty[i] in dirty;
    } else if HasHeader(removed) {
      var i :| 0 <= i < |removed| && EndsWith(removed[i], ".h");
      assert removed[i] in removed;
    }
  }

  /** The refresh decision, from the artifacts and the two lists of the diff. */
  function IntentFor(ready: Artifacts, dirty: seq<string>, removed: seq<string>): Intent {
    if !ready.metaTrusted then FullRequired
    else if !ready.diagnostics || !ready.symbols || !ready.library then FullRequired
    else if (HasHeader(dirty) || HasHeader(removed)) && !ready.includeGraph then FullRequired
    else if |dirty| > 0 || |removed| > 0 then IncrementalTargets
    else IncrementalVerifyNoop
  }

  /** When each intent is chosen, in terms of the two snapshots. */
  lemma IntentExact(ready: Artifacts, cached: seq<Fingerprint>, current: seq<Fingerprint>)
    requires StrictlySorted(cached) && StrictlySorted(current)
    ensures var intent := IntentFor(ready, Merge(cached, current).0, Merge(cached, current).1);
            && (intent.IncrementalVerifyNoop? <==> Ready(ready) && SameFiles(cached, current))
            && (intent.IncrementalTargets? <==>
                  Ready(ready) && !SameFiles(cached, current)
                  && (HeaderChanged(cached, current) ==> ready.includeGraph))
  {
    NothingChangedIffSameFiles(cached, current);
    HeadersInDiff(cached, current);
  }

  ghost predicate Balanced(audit: Audit, cached: seq<Fingerprint>, current: seq<Fingerprint>) {
    && audit.cachedCount == |cached| && audit.currentCount == |current|
    && audit.dirty == |DirtyPaths(cached, current)|
    && audit.removed == |RemovedPaths(cached, current)|
    && audit.added == |NewPaths(cached, current)|
    && audit.currentCount == audit.matched + audit.dirty
    && audit.cachedCount + audit.added == audit.currentCount + audit.removed
  }

  /** The loop that counts current files with a matching, or with no, cached fingerprint. */
  method CountCurrent(cached: seq<Fingerprint>, current: seq<Fingerprint>) returns (matched: nat, added: nat)
    ensures Proper(current) ==> matched == |MatchedPaths(cached, current)| && added == |NewPaths(cached, current)|
  {
    matched, added := 0, 0;
    var i := 0;
    assert current[0..] == current;
    while i < |current|
      invariant i <= |current|
      invariant Proper(current) ==> added + |NewPaths(cached, current[i..])| == |NewPaths(cached, current)|
      invariant Proper(current) ==> matched + |MatchedPaths(cached, current[i..])| == |MatchedPaths(cached, current)|
    {
      assert current[i..][1..] == current[i + 1..];
      var found := if current[i].path == "" then None else Lookup(cached, current[i].path);
      if found.None? {
        added := added + 1;
      } else if ContentEqual(found.value, current[i].value) {
        matched := matched + 1;
      }
      i := i + 1;
    }
  }

  /** `analysis_startup_audit_evaluate`, given what was loaded and scanned. */
  method Evaluate(ready: Artifacts, cached: Option<seq<Fingerprint>>, current: Option<seq<Fingerprint>>)
    returns (audit: Audit)
    ensures cached.Some? && current.Some? && Proper(cached.value) && Proper(current.value) ==>
              && Balanced(audit, cached.value, current.value)
              && (audit.intent.IncrementalVerifyNoop? <==> Ready(ready) && SameFiles(cached.value, current.value))
              && (audit.intent.IncrementalTargets? <==>
                    Ready(ready) && !SameFiles(cached.value, current.value)
                    && (HeaderChanged(cached.value, current.value) ==> ready.includeGraph))
    ensures cached.None? || current.None? || !Ready(ready) ==> audit.intent.FullRequired?
  {
    audit := Audit(if cached.Some? then |cached.value| else 0, if current.Some? then |current.value| else 0,
                   0, 0, 0, 0, FullRequired);
    if cached.None? || current.None? { return; }
    var before, now := cached.value, current.value;
    var ok, dirty, removed := ComputeDirtySets(before, now);
    NoEmptyPaths(before, now);
    if !ok { return; }
    var matched, added := CountCurrent(before, now);
    audit := Audit(|before|, |now|, matched, |dirty|, |removed|, added, IntentFor(ready, dirty, removed));
    if StrictlySorted(before) && StrictlySorted(now) {
      MergeIsExact(before, now);
      MatchedPlusDirty(before, now);
      IntentExact(ready, before, now);
    }
  }

  lemma NoEmptyPaths(cached: seq<Fingerprint>, current: seq<Fingerprint>)
    ensures Proper(cached) && Proper(current) ==>
              "" !in Merge(cached, current).0 && "" !in Merge(cached, current).1
  {
    if Proper(cached) && Proper(current) {
      DiffMembership(cached, current, "");
    }
  }
}
