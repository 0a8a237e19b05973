/** The library index (library_index.c): for each bucket, the headers included from it and
    every place that includes them. Headers are rows keyed by their name as written. */
module LibraryIndex {
  import opened CStrings
  import opened PathTable
  import opened Filters
  import opened Sorting
  import opened Frontend

  datatype Usage = Usage(source: string, line: int, column: int)

  datatype Header = Header(resolved: string, kind: IncludeKind, origin: Origin, usages: seq<Usage>)

  type Bucket = seq<Row<Header>>

  /** One usage as a reader of the index sees it. */
  datatype Entry = Entry(name: string, usage: Usage)

  const BUCKET_COUNT: nat := 4

  datatype State = State(root: string, buckets: seq<Bucket>, combined: nat, published: nat, dirty: bool)

  function BucketOf(origin: Origin): (b: nat)
    ensures b < BUCKET_COUNT
  {
    match origin
    case Project => 0
    case System => 1
    case External => 2
    case Unresolved => 3
  }

  /** `skip_root_prefix`, with the fallback to the whole path when nothing is left. */
  function RelativePath(root: string, path: string): string {
    if root != "" && StartsWith(path, root) && |path| > |root| + 1
       && (path[|root|] == '/' || path[|root|] == '\\')
    then path[|root| + 1..] else path
  }

  function Begun(root: string): State {
    State(root, [[], [], [], []], 0, 0, false)
  }

  // ---------------------------------------------------------------------------------------
  // One bucket.

  /** A concrete resolved path is taken over when one turns up later. */
  function WithUsage(h: Header, inc: Include, usage: Usage): Header {
    h.(resolved := if h.resolved == "" then inc.resolved else h.resolved, usages := h.usages + [usage])
  }

  function AddUsage(bucket: Bucket, name: string, inc: Include, usage: Usage): Bucket {
    if bucket == [] then [Row(name, Header(inc.resolved, inc.kind, inc.origin, [usage]))]
    else if bucket[0].path == name then
      [Row(name, WithUsage(bucket[0].value, inc, usage))] + bucket[1..]
    else [bucket[0]] + AddUsage(bucket[1..], name, inc, usage)
  }

  function KeptUsages(usages: seq<Usage>, source: string): seq<Usage> {
    Filter(usages, (u: Usage) => u.source != source)
  }

  function KeptEntries(entries: seq<Entry>, source: string): seq<Entry> {
    Filter(entries, (e: Entry) => e.usage.source != source)
  }

  /** The specification of source removal: filter every header, drop the emptied ones. */
  function WithoutSource(bucket: Bucket, source: string): Bucket {
    if bucket == [] then []
    else
      var kept := KeptUsages(bucket[0].value.usages, source);
      if kept == [] then WithoutSource(bucket[1..], source)
      else [bucket[0].(value := bucket[0].value.(usages := kept))] + WithoutSource(bucket[1..], source)
  }

  function Named(name: string, usages: seq<Usage>): (r: seq<Entry>)
    ensures |r| == |usages|
    ensures forall i :: 0 <= i < |usages| ==> r[i] == Entry(name, usages[i])
  {
    seq(|usages|, i requires 0 <= i < |usages| => Entry(name, usages[i]))
  }

  /** Everything a bucket records, header by header. */
  function Entries(bucket: Bucket): seq<Entry> {
    if bucket == [] then [] else Named(bucket[0].path, bucket[0].value.usages) + Entries(bucket[1..])
  }

  /** Distinct header names, no header without a usage. */
  ghost predicate WellKept(bucket: Bucket) {
    DistinctPaths(bucket) && forall i :: 0 <= i < |bucket| ==> bucket[i].value.usages != []
  }

  lemma {:induction false} NamedFilter(name: string, usages: seq<Usage>, source: string)
    ensures Named(name, KeptUsages(usages, source)) == KeptEntries(Named(name, usages), source)
  {
    if usages != [] {
      NamedFilter(name, usages[1..], source);
      assert Named(name, usages)[1..] == Named(name, usages[1..]);
    }
  }

  /** Removal is exactly an order-preserving filter of what the bucket records. */
  lemma {:induction false} WithoutSourceFilters(bucket: Bucket, source: string)
    ensures Entries(WithoutSource(bucket, source)) == KeptEntries(Entries(bucket), source)
  {
    if bucket != [] {
      var name, usages := bucket[0].path, bucket[0].value.usages;
      var rest := WithoutSource(bucket[1..], source);
      WithoutSourceFilters(bucket[1..], source);
      NamedFilter(name, usages, source);
      FilterAppend(Named(name, usages), Entries(bucket[1..]), (e: Entry) => e.usage.source != source);
      if KeptUsages(usages, source) == [] {
        assert Named(name, []) + Entries(rest) == Entries(rest);
      } else {
        assert WithoutSource(bucket, source)[1..] == rest;
      }
    }
  }

  predicate UsedElsewhere(row: Row<Header>, source: string) {
    exists u :: u in row.value.usages && u.source != source
  }

  lemma KeptIffUsedElsewhere(row: Row<Header>, source: string)
    ensures KeptUsages(row.value.usages, source) != [] <==> UsedElsewhere(row, source)
  {
    var kept := KeptUsages(row.value.usages, source);
    if kept != [] {
      assert kept[0] in kept;
    }
  }

  lemma PathsCons<V>(row: Row<V>, rows: seq<Row<V>>)
    ensures Paths([row] + rows) == [row.path] + Paths(rows)
  {
  }

  /** The headers that survive are those with a usage elsewhere, in their old order. */
  lemma {:induction false} WithoutSourceHeaders(bucket: Bucket, source: string)
    ensures Paths(WithoutSource(bucket, source)) == Select(bucket, (r: Row<Header>) => UsedElsewhere(r, source))
    ensures forall i :: 0 <= i < |WithoutSource(bucket, source)| ==> WithoutSource(bucket, source)[i].value.usages != []
  {
    if bucket != [] {
      var kept := KeptUsages(bucket[0].value.usages, source);
      WithoutSourceHeaders(bucket[1..], source);
      KeptIffUsedElsewhere(bucket[0], source);
      PathsCons(bucket[0].(value := bucket[0].value.(usages := kept)), WithoutSource(bucket[1..], source));
    }
  }

  lemma {:induction false} WithoutSourceKeeps(bucket: Bucket, source: string)
    requires DistinctPaths(bucket)
    ensures WellKept(WithoutSource(bucket, source))
    ensures forall row :: row in WithoutSource(bucket, source) ==>
              exists i :: 0 <= i < |bucket| && bucket[i].path == row.path
  {
    if bucket != [] {
      var after, rest := WithoutSource(bucket, source), WithoutSource(bucket[1..], source);
      WithoutSourceKeeps(bucket[1..], source);
      forall row | row in rest
        ensures exists i :: 1 <= i < |bucket| && bucket[i].path == row.path
      {
        var i :| 0 <= i < |bucket| - 1 && bucket[1..][i].path == row.path;
        assert bucket[i + 1].path == row.path;
      }
      if after != rest {
        assert after == [after[0]] + rest;
        assert forall i :: 0 <= i < |rest| ==> rest[i] in rest;
      }
    }
  }

  /** Recording a usage adds that usage and nothing else. */
  lemma {:induction false} AddUsageAddsOne(bucket: Bucket, name: string, inc: Include, usage: Usage)
    ensures multiset(Entries(AddUsage(bucket, name, inc, usage))) ==
            multiset(Entries(bucket)) + multiset{Entry(name, usage)}
  {
    var after := AddUsage(bucket, name, inc, usage);
    if bucket == [] {
      assert Named(name, [usage]) == [Entry(name, usage)];
    } else if bucket[0].path == name {
      var us := bucket[0].value.usages;
      assert Named(name, us + [usage]) == Named(name, us) + [Entry(name, usage)];
      assert after[1..] == bucket[1..];
    } else {
      AddUsageAddsOne(bucket[1..], name, inc, usage);
      assert after[1..] == AddUsage(bucket[1..], name, inc, usage);
    }
  }

  lemma {:induction false} AddUsageKeeps(bucket: Bucket, name: string, inc: Include, usage: Usage)
    requires WellKept(bucket)
    ensures WellKept(AddUsage(bucket, name, inc, usage))
    ensures forall row :: row in AddUsage(bucket, name, inc, usage) ==> row.path == name || row in bucket
  {
    if bucket != [] && bucket[0].path != name {
      var rest := AddUsage(bucket[1..], name, inc, usage);
      AddUsageKeeps(bucket[1..], name, inc, usage);
      forall i | 0 <= i < |rest|
        ensures rest[i].path != bucket[0].path
      {
        assert rest[i] in rest;
      }
    }
  }

  /** The header that gets the usage keeps its kind, its origin and any resolved path it has; it
      takes the include's path over when it has none. The other headers stay. */
  lemma {:induction false} AddUsageLookup(bucket: Bucket, name: string, inc: Include, usage: Usage, other: string)
    ensures var was, now := Lookup(bucket, other), Lookup(AddUsage(bucket, name, inc, usage), other);
            if other != name then now == was
            else if was.None? then now == Some(Header(inc.resolved, inc.kind, inc.origin, [usage]))
            else
              && now.Some? && now.value.kind == was.value.kind && now.value.origin == was.value.origin
              && now.value.usages == was.value.usages + [usage]
              && (was.value.resolved != "" ==> now.value.resolved == was.value.resolved)
              && (was.value.resolved == "" ==> now.value.resolved == inc.resolved)
  {
    var after := AddUsage(bucket, name, inc, usage);
    if bucket != [] {
      assert after[1..] == if bucket[0].path == name then bucket[1..] else AddUsage(bucket[1..], name, inc, usage);
      if bucket[0].path != name {
        AddUsageLookup(bucket[1..], name, inc, usage, other);
      }
    }
  }

  // ---------------------------------------------------------------------------------------
  // Adding a usage of a source and removing that source again.

  /** Names and usages, without the resolved path a header may pick up on the way. */
  function Skeleton(bucket: Bucket): (r: seq<(string, seq<Usage>)>)
    ensures |r| == |bucket|
    ensures forall i :: 0 <= i < |bucket| ==> r[i] == (bucket[i].path, bucket[i].value.usages)
  {
    seq(|bucket|, i requires 0 <= i < |bucket| => (bucket[i].path, bucket[i].value.usages))
  }

  lemma {:induction false} RemovalUndoesOne(bucket: Bucket, name: string, inc: Include, usage: Usage)
    ensures Skeleton(WithoutSource(AddUsage(bucket, name, inc, usage), usage.source)) ==
            Skeleton(WithoutSource(bucket, usage.source))
  {
    var after := AddUsage(bucket, name, inc, usage);
    SkeletonCons(after, usage.source);
    if bucket == [] {
      OwnUsageIsNotKept([], usage);
      assert [] + [usage] == [usage];
    } else {
      SkeletonCons(bucket, usage.source);
      if bucket[0].path == name {
        OwnUsageIsNotKept(bucket[0].value.usages, usage);
        assert after[1..] == bucket[1..];
      } else {
        RemovalUndoesOne(bucket[1..], name, inc, usage);
        assert after[1..] == AddUsage(bucket[1..], name, inc, usage);
      }
    }
  }

  lemma OwnUsageIsNotKept(usages: seq<Usage>, usage: Usage)
    ensures KeptUsages(usages + [usage], usage.source) == KeptUsages(usages, usage.source)
  {
    FilterAppend(usages, [usage], (u: Usage) => u.source != usage.source);
    assert [usage][1..] == [];
  }

  lemma SkeletonCons(bucket: Bucket, source: string)
    requires bucket != []
    ensures var kept := KeptUsages(bucket[0].value.usages, source);
            Skeleton(WithoutSource(bucket, source)) ==
            (if kept == [] then [] else [(bucket[0].path, kept)]) + Skeleton(WithoutSource(bucket[1..], source))
  {
  }

  lemma {:induction false} NothingToRemove(bucket: Bucket, source: string)
    requires WellKept(bucket)
    requires forall e :: e in Entries(bucket) ==> e.usage.source != source
    ensures WithoutSource(bucket, source) == bucket
  {
    if bucket != [] {
      var us := bucket[0].value.usages;
      forall u | u in us
        ensures u.source != source
      {
        var k :| 0 <= k < |us| && us[k] == u;
        assert Named(bucket[0].path, us)[k] in Entries(bucket);
      }
      FilterAll(us, (u: Usage) => u.source != source);
      NothingToRemove(bucket[1..], source);
      assert [bucket[0]] + bucket[1..] == bucket;
    }
  }

  // ---------------------------------------------------------------------------------------
  // The whole index.

  ghost predicate Valid(st: State) {
    && |st.buckets| == BUCKET_COUNT
    && (forall b :: 0 <= b < BUCKET_COUNT ==> WellKept(st.buckets[b]))
    && st.published <= st.combined
  }

  function IncludeAdded(st: State, source: string, name: string, inc: Include): State
    requires |st.buckets| == BUCKET_COUNT
  {
    var b := BucketOf(inc.origin);
    var usage := Usage(RelativePath(st.root, source), inc.line, inc.column);
    st.(buckets := st.buckets[b := AddUsage(st.buckets[b], name, inc, usage)], dirty := true)
  }

  /** Whether removal will find anything: what sets the dirty flag. */
  predicate Mentions(bucket: Bucket, source: string) {
    bucket != []
    && (KeptUsages(bucket[0].value.usages, source) != bucket[0].value.usages || Mentions(bucket[1..], source))
  }

  function SourceRemoved(st: State, source: string): State {
    if source == "" then st
    else
      var rel := RelativePath(st.root, source);
      st.(buckets := seq(|st.buckets|, b requires 0 <= b < |st.buckets| => WithoutSource(st.buckets[b], rel)),
          dirty := st.dirty || exists b :: 0 <= b < |st.buckets| && Mentions(st.buckets[b], rel))
  }

  predicate HeaderOrder(a: Row<Header>, b: Row<Header>) {
    Strcmp(a.path, b.path) <= 0
  }

  /** `cmp_usages`: by source, then line, then column. */
  predicate UsageOrder(a: Usage, b: Usage) {
    var cmp := Strcmp(a.source, b.source);
    if cmp != 0 then cmp < 0
    else if a.line != b.line then a.line < b.line
    else a.column <= b.column
  }

  function SortedUsages(row: Row<Header>): Row<Header> {
    row.(value := row.value.(usages := Sort(row.value.usages, UsageOrder)))
  }

  function SortedBucket(bucket: Bucket): Bucket {
    var byName := Sort(bucket, HeaderOrder);
    seq(|byName|, h requires 0 <= h < |byName| => SortedUsages(byName[h]))
  }

  function Finalized(st: State): State {
    st.(buckets := seq(|st.buckets|, b requires 0 <= b < |st.buckets| => SortedBucket(st.buckets[b])),
        combined := if st.dirty then st.combined + 1 else st.combined,
        dirty := false)
  }

  function MarkedPublished(st: State, stamp: nat): State {
    st.(published := if stamp > st.combined then st.combined else stamp)
  }

  /** How often bucket `b` records `e`. */
  function Count(st: State, b: nat, e: Entry): nat
    requires b < |st.buckets|
  {
    multiset(Entries(st.buckets[b]))[e]
  }

  lemma IncludeAddedCorrect(st: State, source: string, name: string, inc: Include, b: nat, e: Entry)
    requires Valid(st) && b < BUCKET_COUNT
    ensures Valid(IncludeAdded(st, source, name, inc))
    ensures Count(IncludeAdded(st, source, name, inc), b, e) ==
            Count(st, b, e) +
            if b == BucketOf(inc.origin) && e == Entry(name, Usage(RelativePath(st.root, source), inc.line, inc.column))
            then 1 else 0
  {
    var usage := Usage(RelativePath(st.root, source), inc.line, inc.column);
    AddUsageAddsOne(st.buckets[BucketOf(inc.origin)], name, inc, usage);
    AddUsageKeeps(st.buckets[BucketOf(inc.origin)], name, inc, usage);
  }

  lemma SourceRemovedCorrect(st: State, source: string, b: nat, e: Entry)
    requires Valid(st) && b < BUCKET_COUNT && source != ""
    ensures Valid(SourceRemoved(st, source))
    ensures Count(SourceRemoved(st, source), b, e) ==
            if e.usage.source == RelativePath(st.root, source) then 0 else Count(st, b, e)
  {
    var rel := RelativePath(st.root, source);
    WithoutSourceFilters(st.buckets[b], rel);
    FilterCount(Entries(st.buckets[b]), (x: Entry) => x.usage.source != rel, e);
    forall c | 0 <= c < BUCKET_COUNT
      ensures WellKept(SourceRemoved(st, source).buckets[c])
    {
      WithoutSourceKeeps(st.buckets[c], rel);
    }
  }

  // Finalizing reorders and changes nothing else.

  lemma {:induction false} EntriesAppend(a: Bucket, b: Bucket)
    ensures Entries(a + b) == Entries(a) + Entries(b)
  {
    if a == [] {
      assert a + b == b;
    } else {
      assert (a + b)[1..] == a[1..] + b;
      EntriesAppend(a[1..], b);
    }
  }

  lemma {:induction false} InsertKeepsEntries(row: Row<Header>, bucket: Bucket)
    ensures multiset(Entries(Insert(row, bucket, HeaderOrder))) ==
            multiset(Named(row.path, row.value.usages)) + multiset(Entries(bucket))
  {
    var after := Insert(row, bucket, HeaderOrder);
    if bucket == [] || HeaderOrder(row, bucket[0]) {
      assert after[1..] == bucket;
    } else {
      InsertKeepsEntries(row, bucket[1..]);
      assert after[1..] == Insert(row, bucket[1..], HeaderOrder);
    }
  }

  lemma {:induction false} SortKeepsEntries(bucket: Bucket)
    ensures multiset(Entries(Sort(bucket, HeaderOrder))) == multiset(Entries(bucket))
  {
    if bucket != [] {
      SortKeepsEntries(bucket[1..]);
      InsertKeepsEntries(bucket[0], Sort(bucket[1..], HeaderOrder));
    }
  }

  lemma {:induction false} NamedCount(name: string, usages: seq<Usage>, e: Entry)
    ensures multiset(Named(name, usages))[e] == if e.name == name then multiset(usages)[e.usage] else 0
  {
    if usages != [] {
      var rest := Named(name, usages[1..]);
      NamedCount(name, usages[1..], e);
      NamedCons(name, usages);
      HeadCount(Entry(name, usages[0]), rest, e);
      HeadCount(usages[0], usages[1..], e.usage);
    }
  }

  lemma NamedCons(name: string, usages: seq<Usage>)
    requires usages != []
    ensures Named(name, usages) == [Entry(name, usages[0])] + Named(name, usages[1..])
    ensures usages == [usages[0]] + usages[1..]
  {
  }

  lemma HeadCount<T>(x: T, rest: seq<T>, y: T)
    ensures multiset([x] + rest)[y] == multiset(rest)[y] + if x == y then 1 else 0
  {
  }

  lemma {:induction false} SortUsagesKeepsEntries(bucket: Bucket, e: Entry)
    ensures multiset(Entries(seq(|bucket|, h requires 0 <= h < |bucket| => SortedUsages(bucket[h]))))[e] ==
            multiset(Entries(bucket))[e]
  {
    if bucket != [] {
      var after := seq(|bucket|, h requires 0 <= h < |bucket| => SortedUsages(bucket[h]));
      var rest := bucket[1..];
      assert after[1..] == seq(|rest|, h requires 0 <= h < |rest| => SortedUsages(rest[h]));
      SortUsagesKeepsEntries(rest, e);
      SortKeepsElements(bucket[0].value.usages, UsageOrder);
      NamedCount(bucket[0].path, bucket[0].value.usages, e);
      NamedCount(bucket[0].path, Sort(bucket[0].value.usages, UsageOrder), e);
    }
  }

  lemma SortedBucketKeeps(bucket: Bucket)
    requires WellKept(bucket)
    ensures WellKept(SortedBucket(bucket))
  {
    var byName := Sort(bucket, HeaderOrder);
    SortKeepsElements(bucket, HeaderOrder);
    PermutedDistinct(bucket, byName);
    forall h | 0 <= h < |byName|
      ensures SortedBucket(bucket)[h].value.usages != []
    {
      assert byName[h] in multiset(bucket);
    }
  }

  lemma FinalizedCorrect(st: State, b: nat, e: Entry)
    requires Valid(st) && b < BUCKET_COUNT
    ensures Valid(Finalized(st))
    ensures Count(Finalized(st), b, e) == Count(st, b, e)
  {
    SortKeepsEntries(st.buckets[b]);
    SortUsagesKeepsEntries(Sort(st.buckets[b], HeaderOrder), e);
    forall c | 0 <= c < BUCKET_COUNT
      ensures WellKept(Finalized(st).buckets[c])
    {
      SortedBucketKeeps(st.buckets[c]);
    }
  }

  lemma HeaderOrderIsTotal()
    ensures TotalPreorder(HeaderOrder)
  {
    forall x: Row<Header>, y: Row<Header>
      ensures HeaderOrder(x, y) || HeaderOrder(y, x)
    {
      StrcmpAntisymmetric(x.path, y.path);
    }
    forall x: Row<Header>, y: Row<Header>, z: Row<Header> | HeaderOrder(x, y) && HeaderOrder(y, z)
      ensures HeaderOrder(x, z)
    {
      StrcmpTransitive(x.path, y.path, z.path);
    }
  }

  lemma UsageOrderIsAntisymmetric(x: Usage, y: Usage)
    ensures UsageOrder(x, y) || UsageOrder(y, x)
    ensures UsageOrder(x, y) && UsageOrder(y, x) ==> x == y
  {
    StrcmpAntisymmetric(x.source, y.source);
    StrcmpZeroIffEqual(x.source, y.source);
  }

  lemma UsageOrderIsTransitive(x: Usage, y: Usage, z: Usage)
    requires UsageOrder(x, y) && UsageOrder(y, z)
    ensures UsageOrder(x, z)
  {
    StrcmpTransitive(x.source, y.source, z.source);
    StrcmpZeroIffEqual(x.source, y.source);
    StrcmpZeroIffEqual(y.source, z.source);
  }

  lemma UsageOrderIsTotal()
    ensures TotalPreorder(UsageOrder)
  {
    forall x, y { UsageOrderIsAntisymmetric(x, y); }
    forall x, y, z | UsageOrder(x, y) && UsageOrder(y, z) { UsageOrderIsTransitive(x, y, z); }
  }

  ghost predicate InOrder(bucket: Bucket) {
    && SortedBy(bucket, HeaderOrder)
    && forall h :: 0 <= h < |bucket| ==> SortedBy(bucket[h].value.usages, UsageOrder)
  }

  lemma SortedBucketIsInOrder(bucket: Bucket)
    ensures InOrder(SortedBucket(bucket))
  {
    var byName := Sort(bucket, HeaderOrder);
    HeaderOrderIsTotal();
    UsageOrderIsTotal();
    SortSorts(bucket, HeaderOrder);
    forall h | 0 <= h < |byName| {
      SortSorts(byName[h].value.usages, UsageOrder);
    }
  }

  /** What finalizing is for: every bucket is sorted by name, every header by place of use. */
  lemma FinalizedIsSorted(st: State, b: nat)
    requires b < |st.buckets|
    ensures InOrder(Finalized(st).buckets[b])
  {
    SortedBucketIsInOrder(st.buckets[b]);
  }

  /** `sorted` is what some sort made of `usages`. */
  ghost predicate Rearranged(usages: seq<Usage>, sorted: seq<Usage>) {
    multiset(sorted) == multiset(usages) && SortedBy(sorted, UsageOrder)
  }

  lemma UsagesAreUnique(usages: seq<Usage>, sorted: seq<Usage>)
    requires Rearranged(usages, sorted)
    ensures sorted == Sort(usages, UsageOrder)
  {
    UsageOrderIsTotal();
    SortSorts(usages, UsageOrder);
    SortKeepsElements(usages, UsageOrder);
    forall x, y { UsageOrderIsAntisymmetric(x, y); }
    SortedIsUnique(sorted, Sort(usages, UsageOrder), UsageOrder);
  }

  lemma HeadersAreUnique(bucket: Bucket, byName: Bucket)
    requires DistinctPaths(bucket) && multiset(byName) == multiset(bucket) && SortedBy(byName, HeaderOrder)
    ensures byName == Sort(bucket, HeaderOrder)
  {
    HeaderOrderIsTotal();
    SortSorts(bucket, HeaderOrder);
    SortKeepsElements(bucket, HeaderOrder);
    forall x, y | x in byName && y in byName && HeaderOrder(x, y) && HeaderOrder(y, x)
      ensures x == y
    {
      StrcmpAntisymmetric(x.path, y.path);
      StrcmpZeroIffEqual(x.path, y.path);
      assert x in multiset(bucket) && y in multiset(bucket);
    }
    SortedIsUnique(byName, Sort(bucket, HeaderOrder), HeaderOrder);
  }

  /** Any two passes of sorting, stable or not, end in the same bucket. */
  lemma SortedBucketIsUnique(bucket: Bucket, byName: Bucket, result: Bucket)
    requires DistinctPaths(bucket) && multiset(byName) == multiset(bucket) && SortedBy(byName, HeaderOrder)
    requires |result| == |byName|
    requires forall h :: 0 <= h < |byName| ==>
               && result[h] == byName[h].(value := byName[h].value.(usages := result[h].value.usages))
               && Rearranged(byName[h].value.usages, result[h].value.usages)
    ensures result == SortedBucket(bucket)
  {
    HeadersAreUnique(bucket, byName);
    forall h | 0 <= h < |byName|
      ensures result[h] == SortedUsages(byName[h])
    {
      UsagesAreUnique(byName[h].value.usages, result[h].value.usages);
    }
  }

  // Every reachable index.

  datatype Op = AddOp(source: string, name: string, inc: Include) | RemoveOp(source: string)
              | FinalizeOp | PublishOp(stamp: nat) | BeginOp(root: string)

  function Apply(st: State, op: Op): State
    requires |st.buckets| == BUCKET_COUNT
  {
    match op
    case AddOp(source, name, inc) => IncludeAdded(st, source, name, inc)
    case RemoveOp(source) => SourceRemoved(st, source)
    case FinalizeOp => Finalized(st)
    case PublishOp(stamp) => MarkedPublished(st, stamp)
    case BeginOp(root) => Begun(root)
  }

  function Run(st: State, ops: seq<Op>): State
    requires |st.buckets| == BUCKET_COUNT
    decreases ops
  {
    if ops == [] then st else Run(Apply(st, ops[0]), ops[1..])
  }

  lemma ApplyKeepsValid(st: State, op: Op)
    requires Valid(st)
    ensures Valid(Apply(st, op))
  {
    var e := Entry("", Usage("", 0, 0));
    match op {
      case AddOp(source, name, inc) => IncludeAddedCorrect(st, source, name, inc, 0, e);
      case RemoveOp(source) => if source != "" { SourceRemovedCorrect(st, source, 0, e); }
      case FinalizeOp => FinalizedCorrect(st, 0, e);
      case PublishOp(_) =>
      case BeginOp(_) =>
    }
  }

  /** In every reachable state header names are distinct per bucket, no header is empty, and
      the published stamp is not ahead of the combined one. */
  lemma {:induction false} ReachableIsValid(st: State, ops: seq<Op>)
    requires Valid(st)
    ensures Valid(Run(st, ops))
    decreases ops
  {
    if ops != [] {
      ApplyKeepsValid(st, ops[0]);
      ReachableIsValid(Apply(st, ops[0]), ops[1..]);
    }
  }

  // When the combined stamp moves, told by what readers of the index see.

  /** Recording an include always changes what is recorded; a removal, when some count falls. */
  ghost predicate Changes(st: State, op: Op)
    requires |st.buckets| == BUCKET_COUNT
  {
    match op
    case AddOp(_, _, _) => true
    case RemoveOp(_) => exists b, e :: 0 <= b < BUCKET_COUNT && Count(Apply(st, op), b, e) < Count(st, b, e)
    case _ => false
  }

  lemma KeptAllIffNone(usages: seq<Usage>, source: string)
    ensures KeptUsages(usages, source) == usages <==> forall u :: u in usages ==> u.source != source
  {
    if forall u :: u in usages ==> u.source != source {
      FilterAll(usages, (u: Usage) => u.source != source);
    }
  }

  lemma {:induction false} MentionsExactly(bucket: Bucket, source: string)
    ensures Mentions(bucket, source) <==> exists e :: e in Entries(bucket) && e.usage.source == source
  {
    if bucket != [] {
      var name, usages := bucket[0].path, bucket[0].value.usages;
      MentionsExactly(bucket[1..], source);
      KeptAllIffNone(usages, source);
      assert forall k :: 0 <= k < |usages| ==> Named(name, usages)[k].usage == usages[k];
      if u :| u in usages && u.source == source {
        var k :| 0 <= k < |usages| && usages[k] == u;
        assert Named(name, usages)[k] in Entries(bucket);
      }
    }
  }

  lemma RemovalChangesIff(st: State, source: string)
    requires Valid(st)
    ensures Changes(st, RemoveOp(source)) <==>
            source != ""
            && exists b :: 0 <= b < BUCKET_COUNT && Mentions(st.buckets[b], RelativePath(st.root, source))
  {
    var rel := RelativePath(st.root, source);
    if source != "" {
      forall b, e | 0 <= b < BUCKET_COUNT { SourceRemovedCorrect(st, source, b, e); }
      forall b | 0 <= b < BUCKET_COUNT { MentionsExactly(st.buckets[b], rel); }
      if b :| 0 <= b < BUCKET_COUNT && Mentions(st.buckets[b], rel) {
        var e :| e in Entries(st.buckets[b]) && e.usage.source == rel;
        assert e in multiset(Entries(st.buckets[b]));
        assert Count(Apply(st, RemoveOp(source)), b, e) < Count(st, b, e);
      }
      if b, e :| 0 <= b < BUCKET_COUNT && Count(Apply(st, RemoveOp(source)), b, e) < Count(st, b, e) {
        assert e in multiset(Entries(st.buckets[b]));
        assert Mentions(st.buckets[b], rel);
      }
    }
  }

  /** The number of finalizes that come after some change, counted from the last begin. */
  ghost function Moves(st: State, ops: seq<Op>, before: nat, changed: bool): nat
    requires |st.buckets| == BUCKET_COUNT
    decreases ops
  {
    if ops == [] then before
    else
      var next, rest := Apply(st, ops[0]), ops[1..];
      match ops[0]
      case FinalizeOp => Moves(next, rest, before + if changed then 1 else 0, false)
      case BeginOp(_) => Moves(next, rest, 0, false)
      case _ => Moves(next, rest, before, changed || Changes(st, ops[0]))
  }

  /** In every run the combined stamp counts the finalizes that had something to announce. */
  lemma {:induction false} StampCountsChanges(st: State, ops: seq<Op>)
    requires Valid(st)
    ensures Run(st, ops).combined == Moves(st, ops, st.combined, st.dirty)
    decreases ops
  {
    if ops != [] {
      if ops[0].RemoveOp? { RemovalChangesIff(st, ops[0].source); }
      ApplyKeepsValid(st, ops[0]);
      StampCountsChanges(Apply(st, ops[0]), ops[1..]);
    }
  }

  ghost predicate AnyChange(st: State, ops: seq<Op>)
    requires |st.buckets| == BUCKET_COUNT
    decreases ops
  {
    ops != [] && (Changes(st, ops[0]) || AnyChange(Apply(st, ops[0]), ops[1..]))
  }

  lemma {:induction false} AddsAndRemovesThenFinalize(st: State, ops: seq<Op>, before: nat, changed: bool)
    requires |st.buckets| == BUCKET_COUNT && forall i :: 0 <= i < |ops| ==> ops[i].AddOp? || ops[i].RemoveOp?
    ensures Moves(st, ops + [FinalizeOp], before, changed) ==
            before + if changed || AnyChange(st, ops) then 1 else 0
    decreases ops
  {
    var all := ops + [FinalizeOp];
    if ops == [] {
      assert all[1..] == [];
    } else {
      assert all[1..] == ops[1..] + [FinalizeOp];
      AddsAndRemovesThenFinalize(Apply(st, ops[0]), ops[1..], before, changed || Changes(st, ops[0]));
    }
  }

  /** From a finalized index, any adds and removes and one finalize raise the combined stamp by
      one if something was recorded or some count fell, and leave it otherwise. */
  lemma FinalizeAnnouncesChanges(st: State, ops: seq<Op>)
    requires Valid(st) && !st.dirty
    requires forall i :: 0 <= i < |ops| ==> ops[i].AddOp? || ops[i].RemoveOp?
    ensures Run(st, ops + [FinalizeOp]).combined == st.combined + if AnyChange(st, ops) then 1 else 0
  {
    StampCountsChanges(st, ops + [FinalizeOp]);
    AddsAndRemovesThenFinalize(st, ops, st.combined, false);
  }

  /** The reader's watermark is the stamp it was given, or the combined one if that is less. */
  lemma PublishedIsClamped(st: State, stamp: nat)
    ensures var mark := MarkedPublished(st, stamp).published;
            mark <= st.combined && mark <= stamp && (mark == st.combined || mark == stamp)
    ensures MarkedPublished(st, stamp).(published := st.published) == st
  {
  }

  /** The order of two usages, field by field. */
  lemma UsagesByFields(a: Usage, b: Usage)
    ensures a.source == b.source && a.line < b.line ==> UsageOrder(a, b) && !UsageOrder(b, a)
    ensures a.source == b.source && a.line == b.line && a.column < b.column ==> UsageOrder(a, b) && !UsageOrder(b, a)
    ensures Strcmp(a.source, b.source) < 0 ==> UsageOrder(a, b) && !UsageOrder(b, a)
  {
    StrcmpZeroIffEqual(a.source, b.source);
    StrcmpZeroIffEqual(b.source, a.source);
    StrcmpAntisymmetric(a.source, b.source);
  }

  /** Where an include of each origin is recorded, and under which name of its source. */
  lemma OriginsByBucket(st: State, source: string, name: string, inc: Include, e: Entry)
    requires Valid(st) && e == Entry(name, Usage(RelativePath(st.root, source), inc.line, inc.column))
    ensures var b := match inc.origin case Project => 0 case System => 1 case External => 2 case Unresolved => 3;
            forall c :: 0 <= c < BUCKET_COUNT ==>
              Count(IncludeAdded(st, source, name, inc), c, e) == Count(st, c, e) + if c == b then 1 else 0
  {
    forall c | 0 <= c < BUCKET_COUNT { IncludeAddedCorrect(st, source, name, inc, c, e); }
  }

  /** A path is recorded without the root and one separator, unless nothing would be left. */
  lemma RelativePathExactly(root: string, path: string)
    ensures RelativePath(root, path) ==
            if root != "" && |path| > |root| + 1 && path[..|root|] == root && path[|root|] in {'/', '\\'}
            then path[|root| + 1..] else path
  {
  }

  // ---------------------------------------------------------------------------------------

  lemma NextUsage(usages: seq<Usage>, u: nat, rel: string)
    requires u < |usages|
    ensures usages[..u] + KeptUsages(usages[u..], rel) ==
            if usages[u].source == rel then usages[..u] + KeptUsages(usages[u + 1..], rel)
            else usages[..u + 1] + KeptUsages(usages[u + 1..], rel)
  {
    assert usages[u..][1..] == usages[u + 1..];
    assert usages[..u + 1] == usages[..u] + [usages[u]];
  }

  lemma CutAt<T>(s: seq<T>, k: nat)
    requires k < |s|
    ensures var cut := s[..k] + s[k + 1..];
            cut[..k] == s[..k] && cut[k..] == s[k + 1..]
  {
  }

  lemma PutAt<T>(s: seq<T>, k: nat, x: T)
    requires k < |s|
    ensures var put := s[k := x];
            put[..k + 1] == s[..k] + [x] && put[k + 1..] == s[k + 1..]
  {
  }

  /** What removal does to header `h` and to the headers after it. */
  lemma NextHeader(bucket: Bucket, h: nat, rel: string)
    requires h < |bucket|
    ensures var kept, later := KeptUsages(bucket[h].value.usages, rel), WithoutSource(bucket[h + 1..], rel);
            bucket[..h] + WithoutSource(bucket[h..], rel) ==
            if kept == [] then bucket[..h] + later
            else bucket[..h] + [bucket[h].(value := bucket[h].value.(usages := kept))] + later
    ensures Mentions(bucket[h..], rel) <==>
            KeptUsages(bucket[h].value.usages, rel) != bucket[h].value.usages || Mentions(bucket[h + 1..], rel)
  {
    assert bucket[h..][1..] == bucket[h + 1..];
  }

  /** With no header of that name before `h`, the usage goes to `h`, or to a new header at the end. */
  lemma {:induction false} NotYetFound(bucket: Bucket, name: string, inc: Include, usage: Usage, h: nat)
    requires h <= |bucket| && (forall i :: 0 <= i < h ==> bucket[i].path != name)
    ensures h == |bucket| ==>
              AddUsage(bucket, name, inc, usage) ==
              bucket + [Row(name, Header(inc.resolved, inc.kind, inc.origin, [usage]))]
    ensures h < |bucket| && bucket[h].path == name ==>
              AddUsage(bucket, name, inc, usage) ==
              bucket[h := Row(name, WithUsage(bucket[h].value, inc, usage))]
    decreases h
  {
    if h > 0 {
      NotYetFound(bucket[1..], name, inc, usage, h - 1);
      assert bucket == [bucket[0]] + bucket[1..];
    }
  }

  class Index {
    var projectRoot: string
    var buckets: seq<Bucket>
    var combinedStamp: nat
    var publishedStamp: nat
    var mutationDirty: bool

    function Value(): State
      reads this
    {
      State(projectRoot, buckets, combinedStamp, publishedStamp, mutationDirty)
    }

    constructor ()
      ensures Value() == Begun("")
    {
      projectRoot, buckets := "", [[], [], [], []];
      combinedStamp, publishedStamp, mutationDirty := 0, 0, false;
    }

    method Begin(root: string)
      modifies this
      ensures Value() == Begun(root)
    {
      projectRoot, buckets := root, [[], [], [], []];
      combinedStamp, publishedStamp, mutationDirty := 0, 0, false;
    }

    /** `find_header`, then a new header or one more usage of the one found. */
    static method AddToBucket(bucket: Bucket, name: string, inc: Include, usage: Usage) returns (grown: Bucket)
      ensures grown == AddUsage(bucket, name, inc, usage)
    {
      var h := 0;
      while h < |bucket| && bucket[h].path != name
        invariant h <= |bucket| && forall i :: 0 <= i < h ==> bucket[i].path != name
      {
        h := h + 1;
      }
      NotYetFound(bucket, name, inc, usage, h);
      if h == |bucket| {
        grown := bucket + [Row(name, Header(inc.resolved, inc.kind, inc.origin, [usage]))];
      } else {
        var header := bucket[h].value;
        if header.resolved == "" && inc.resolved != "" {
          header := header.(resolved := inc.resolved);
        }
        header := header.(usages := header.usages + [usage]);
        grown := bucket[h := Row(name, header)];
      }
    }

    method AddInclude(source: string, name: string, inc: Include)
      requires |buckets| == BUCKET_COUNT
      modifies this
      ensures Value() == IncludeAdded(old(Value()), source, name, inc)
    {
      var rel := RelativePath(projectRoot, source);
      var b := BucketOf(inc.origin);
      var bucket := AddToBucket(buckets[b], name, inc, Usage(rel, inc.line, inc.column));
      buckets := buckets[b := bucket];
      mutationDirty := true;
    }

    /** The inner in-place loop: usages of `rel` are shifted out one by one. */
    static method CompactUsages(all: seq<Usage>, rel: string) returns (usages: seq<Usage>, removedAny: bool)
      ensures usages == KeptUsages(all, rel)
      ensures removedAny <==> usages != all
    {
      usages, removedAny := all, false;
      var u := 0;
      while u < |usages|
        invariant u <= |usages| <= |all|
        invariant KeptUsages(all, rel) == usages[..u] + KeptUsages(usages[u..], rel)
        invariant removedAny <==> |usages| < |all|
        invariant !removedAny ==> usages == all
        decreases |usages| - u
      {
        NextUsage(usages, u, rel);
        if usages[u].source == rel {
          ghost var before := usages;
          usages := ShiftOut(usages, u);
          CutAt(before, u);
          removedAny := true;
        } else {
          u := u + 1;
        }
      }
    }

    /** The outer in-place loop over one bucket's headers. */
    static method CompactHeaders(all: Bucket, rel: string) returns (headers: Bucket, removedAny: bool)
      ensures headers == WithoutSource(all, rel)
      ensures removedAny <==> Mentions(all, rel)
    {
      headers, removedAny := all, false;
      var h := 0;
      while h < |headers|
        invariant h <= |headers|
        invariant WithoutSource(all, rel) == headers[..h] + WithoutSource(headers[h..], rel)
        invariant Mentions(all, rel) <==> removedAny || Mentions(headers[h..], rel)
        decreases |headers| - h
      {
        ghost var before := headers;
        NextHeader(before, h, rel);
        var header := headers[h];
        var usages, some := CompactUsages(header.value.usages, rel);
        removedAny := removedAny || some;
        if usages == [] {
          headers := ShiftOut(headers, h);
          CutAt(before, h);
        } else {
          var kept := header.(value := header.value.(usages := usages));
          headers := headers[h := kept];
          PutAt(before, h, kept);
          h := h + 1;
        }
      }
    }

    method RemoveSource(source: string)
      modifies this
      ensures Value() == SourceRemoved(old(Value()), source)
    {
      if source == "" { return; }
      var rel := RelativePath(projectRoot, source);
      var removedAny := false;
      var b := 0;
      while b < |buckets|
        invariant b <= |buckets| == |old(buckets)|
        invariant forall c :: 0 <= c < b ==> buckets[c] == WithoutSource(old(buckets)[c], rel)
        invariant forall c :: b <= c < |buckets| ==> buckets[c] == old(buckets)[c]
        invariant removedAny <==> exists c :: 0 <= c < b && Mentions(old(buckets)[c], rel)
        invariant projectRoot == old(projectRoot) && mutationDirty == old(mutationDirty)
        invariant combinedStamp == old(combinedStamp) && publishedStamp == old(publishedStamp)
      {
        var headers, some := CompactHeaders(buckets[b], rel);
        buckets := buckets[b := headers];
        removedAny := removedAny || some;
        b := b + 1;
      }
      if removedAny {
        mutationDirty := true;
      }
    }

    method Finalize()
      modifies this
      ensures Value() == Finalized(old(Value()))
      ensures forall b :: 0 <= b < |buckets| ==> InOrder(buckets[b])
    {
      var b := 0;
      while b < |buckets|
        invariant b <= |buckets| == |old(buckets)|
        invariant forall c :: 0 <= c < b ==> buckets[c] == SortedBucket(old(buckets)[c])
        invariant forall c :: b <= c < |buckets| ==> buckets[c] == old(buckets)[c]
        invariant projectRoot == old(projectRoot) && mutationDirty == old(mutationDirty)
        invariant combinedStamp == old(combinedStamp) && publishedStamp == old(publishedStamp)
      {
        buckets := buckets[b := SortedBucket(buckets[b])];
        b := b + 1;
      }
      if mutationDirty {
        combinedStamp := combinedStamp + 1;
        mutationDirty := false;
      }
      forall b | 0 <= b < |buckets|
        ensures InOrder(buckets[b])
      {
        SortedBucketIsInOrder(old(buckets)[b]);
      }
    }

    method MarkPublished(stamp: nat)
      modifies this
      ensures Value() == MarkedPublished(old(Value()), stamp)
    {
      publishedStamp := if stamp > combinedStamp then combinedStamp else stamp;
    }

    method HasEntries() returns (some: bool)
      ensures some <==> exists b :: 0 <= b < |buckets| && buckets[b] != []
    {
      var b := 0;
      while b < |buckets|
        invariant b <= |buckets| && forall c :: 0 <= c < b ==> buckets[c] == []
      {
        if buckets[b] != [] { return true; }
        b := b + 1;
      }
      some := false;
    }
  }
}
