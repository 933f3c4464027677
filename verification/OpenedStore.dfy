/** A store that has just been opened, asked about what is on disk: the answer is the newest matches first. */
module OpenedStore {
  import opened GoText
  import opened LogEntries
  import opened Blocks
  import opened StoreScan
  import opened StorePartitions
  import opened StoreState
  import opened StoreIntegrity
  import opened BlockStore
  import opened NewestAnswers
  import opened StoreSequences
  import C = Coordinator

  // ---------------------------------------------------------------- what is on disk

  /** Either index names the block. */
  predicate Indexed(p: Partition, h: BlockHeader) {
    h in p.legacy || h in p.index
  }

  /** The entry is in a block that an index names. */
  ghost predicate InBlock(p: Partition, e: LogEntry) {
    exists h :: Indexed(p, h) && h.fileName in p.files && e in p.files[h.fileName]
  }

  ghost predicate StoredMatch(disk: Disk, q: Query, e: LogEntry) {
    Matches(e, q) && exists hour :: hour in disk && InBlock(disk[hour], e)
  }

  /** Every header describes its block, blocks hold their entries in time order, and the time ranges of different
      blocks do not meet. */
  ghost predicate TimeApart(p: Partition, hour: int) {
    && (forall h :: Indexed(p, h) ==> Sound(p, hour, h) && OldestFirst(BlockEntries(p, h)))
    && (forall g, h :: Indexed(p, g) && Indexed(p, h) && g.fileName != h.fileName ==>
          g.maxNano < h.minNano || h.maxNano < g.minNano)
  }

  ghost predicate DiskApart(disk: Disk) {
    forall hour :: hour in disk ==> TimeApart(disk[hour], hour)
  }

  /** Names in the index that the query means are spelled as in the query. */
  predicate SpelledBy(p: Partition, q: Query) {
    && (forall h, x :: h in p.legacy + p.index && x in h.hosts && EqualFold(x, q.host) ==> x == q.host)
    && (forall h, x :: h in p.legacy + p.index && x in h.sources && EqualFold(x, q.source) ==> x == q.source)
  }

  // ---------------------------------------------------------------- loading puts blocks in time order

  lemma LoadedIsIndexed(p: Partition, h: BlockHeader)
    requires h in LoadIndex(p)
    ensures Indexed(p, h)
  {
    LoadIndexMembers(p, h);
  }

  lemma LoadedBlocksInOrder(p: Partition, hour: int)
    requires TimeApart(p, hour)
    ensures BlocksInOrder(p, LoadIndex(p))
  {
    var loaded := LoadIndex(p);
    LoadIndexSorted(p);
    forall i | 0 <= i < |loaded| ensures OldestFirst(BlockEntries(p, loaded[i])) { LoadedIsIndexed(p, loaded[i]); }
    forall i, j | 0 <= i < j < |loaded| ensures NotAfter(BlockEntries(p, loaded[i]), BlockEntries(p, loaded[j])) {
      LoadedIsIndexed(p, loaded[i]);
      LoadedIsIndexed(p, loaded[j]);
      assert loaded[i].minNano <= loaded[j].minNano && loaded[i].fileName != loaded[j].fileName;
      RangesApart(p, hour, loaded[i], loaded[j]);
    }
  }

  lemma RangesApart(p: Partition, hour: int, g: BlockHeader, h: BlockHeader)
    requires Sound(p, hour, g) && Sound(p, hour, h) && g.minNano <= h.minNano
    requires g.maxNano < h.minNano || h.maxNano < g.minNano
    ensures NotAfter(BlockEntries(p, g), BlockEntries(p, h))
  {
  }

  /** What loading reads is what the blocks hold. */
  lemma LoadedHolds(p: Partition, e: LogEntry)
    ensures e in PartitionEntries(p, LoadIndex(p)) <==> InBlock(p, e)
  {
    if e in PartitionEntries(p, LoadIndex(p)) {
      var h := PartitionMember(p, LoadIndex(p), e);
      LoadedIsIndexed(p, h);
    }
    if InBlock(p, e) {
      var h :| Indexed(p, h) && h.fileName in p.files && e in p.files[h.fileName];
      var g := LoadedUnderName(p, h);
      EntriesHold(p, LoadIndex(p), g, e);
    }
  }

  lemma {:induction false} FirstWithName(headers: seq<BlockHeader>, k: nat) returns (i: nat)
    requires k < |headers|
    ensures FirstOfName(headers, i) && headers[i].fileName == headers[k].fileName
    decreases k
  {
    if j: nat :| j < k && headers[j].fileName == headers[k].fileName {
      i := FirstWithName(headers, j);
    } else {
      i := k;
    }
  }

  lemma LoadedUnderName(p: Partition, h: BlockHeader) returns (g: BlockHeader)
    requires Indexed(p, h)
    ensures g in LoadIndex(p) && g.fileName == h.fileName
  {
    var all := p.legacy + p.index;
    assert h in all;
    var k :| 0 <= k < |all| && all[k] == h;
    var i := FirstWithName(all, k);
    g := all[i];
    assert IsFirst(all, g);
    LoadedIffFirst(p, g);
  }

  // ---------------------------------------------------------------- spelling

  lemma {:induction false} SummaryNames(headers: seq<BlockHeader>)
    requires headers != []
    ensures Summarize(headers).Some?
    ensures forall x :: x in Summarize(headers).value.hosts ==> exists h :: h in headers && x in h.hosts
    ensures forall x :: x in Summarize(headers).value.sources ==> exists h :: h in headers && x in h.sources
  {
    var n := |headers| - 1;
    var init, last := headers[..n], headers[n];
    assert last in headers && forall h :: h in init ==> h in headers;
    if init != [] { SummaryNames(init); }
  }

  lemma LoadedSpelled(p: Partition, q: Query)
    requires SpelledBy(p, q) && LoadIndex(p) != []
    ensures Summarize(LoadIndex(p)).Some? && SpelledAsStored(Summarize(LoadIndex(p)).value, q)
  {
    SummaryNames(LoadIndex(p));
    var s := Summarize(LoadIndex(p)).value;
    forall x | x in s.hosts && EqualFold(x, q.host) ensures x == q.host {
      var h :| h in LoadIndex(p) && x in h.hosts;
      LoadIndexMembers(p, h);
    }
    forall x | x in s.sources && EqualFold(x, q.source) ensures x == q.source {
      var h :| h in LoadIndex(p) && x in h.sources;
      LoadIndexMembers(p, h);
    }
  }

  lemma OpenedSpelled(disk: Disk, q: Query)
    requires forall hour :: hour in disk ==> SpelledBy(disk[hour], q)
    ensures SpelledEverywhere(LoadedSummaries(disk), q)
  {
    forall hour | hour in LoadedSummaries(disk) ensures SpelledAsStored(LoadedSummaries(disk)[hour], q) {
      LoadedSpelled(disk[hour], q);
    }
  }

  // ---------------------------------------------------------------- the answer

  /** `answer` is the newest matches on disk, newest first, and misses one only when it is full of others at
      least as new. */
  ghost predicate NewestOnDisk(disk: Disk, q: Query, answer: seq<LogEntry>) {
    && C.NewestFirst(answer) && |answer| <= q.limit
    && (forall e :: e in answer ==> StoredMatch(disk, q, e))
    && (forall e :: StoredMatch(disk, q, e) && e !in answer ==>
          |answer| == q.limit && forall x :: x in answer ==> x.timestamp.nano >= e.timestamp.nano)
  }

  lemma OpenedView(disk: Disk)
    ensures ViewOf(disk, LoadedCache(disk)) == IndexView(disk)
  {
  }

  lemma OpenedInPlace(disk: Disk)
    requires DiskApart(disk)
    ensures AllInPlace(disk, IndexView(disk))
  {
    var view := IndexView(disk);
    forall hour, e | hour in disk && hour in view && e in PartitionEntries(disk[hour], view[hour]) ensures InPlace(e, hour) {
      var h := PartitionMember(disk[hour], view[hour], e);
      LoadedIsIndexed(disk[hour], h);
    }
  }

  lemma ScanFinds(disk: Disk, hours: seq<int>, q: Query, e: LogEntry)
    requires AllHours(hours, disk)
    ensures e in Filter(Scan(disk, IndexView(disk), hours), q) <==> StoredMatch(disk, q, e)
  {
    var view := IndexView(disk);
    FilterMembers(Scan(disk, view, hours), q);
    if e in Scan(disk, view, hours) {
      var hour := ScanIn(disk, view, hours, e);
      LoadedHolds(disk[hour], e);
    }
    if StoredMatch(disk, q, e) {
      var hour :| hour in disk && InBlock(disk[hour], e);
      LoadedHolds(disk[hour], e);
      assert hour in disk.Keys;
      ScanHolds(disk, view, hours, hour, e);
    }
  }

  lemma PrefixIsNewest(found: seq<LogEntry>, limit: nat, e: LogEntry)
    requires C.NewestFirst(found) && e in found && e !in Take(found, limit)
    ensures |Take(found, limit)| == limit && forall x :: x in Take(found, limit) ==> x.timestamp.nano >= e.timestamp.nano
  {
    var first := Take(found, limit);
    assert forall k :: 0 <= k < |first| ==> first[k] == found[k] && first[k] in first;
    var i :| 0 <= i < |found| && found[i] == e;
    assert |first| <= i;
    forall x | x in first ensures x.timestamp.nano >= e.timestamp.nano {
      var k :| 0 <= k < |first| && first[k] == x;
      assert found[k] == x;
    }
  }

  /** On a disk whose blocks do not overlap in time, the naive scan of the loaded indexes is the newest matches. */
  lemma NaiveIsNewest(disk: Disk, hours: seq<int>, q: Query)
    requires DiskApart(disk) && AllHours(hours, disk) && q.limit >= 0
    ensures NewestOnDisk(disk, q, NaiveQuery(disk, IndexView(disk), hours, q))
  {
    var view := IndexView(disk);
    var scan := Scan(disk, view, hours);
    OpenedInPlace(disk);
    forall i | 0 <= i < |hours| ensures BlocksInOrder(disk[hours[i]], view[hours[i]]) { LoadedBlocksInOrder(disk[hours[i]], hours[i]); }
    ScanInOrderIff(disk, view, hours);
    FilterInOrder(scan, q);
    TakenIsNewest(disk, hours, q);
  }

  lemma TakenIsNewest(disk: Disk, hours: seq<int>, q: Query)
    requires AllHours(hours, disk) && q.limit >= 0 && C.NewestFirst(Filter(Scan(disk, IndexView(disk), hours), q))
    ensures NewestOnDisk(disk, q, NaiveQuery(disk, IndexView(disk), hours, q))
  {
    var found := Filter(Scan(disk, IndexView(disk), hours), q);
    var answer := Take(found, q.limit);
    forall e | e in answer ensures StoredMatch(disk, q, e) {
      assert e in found;
      ScanFinds(disk, hours, q, e);
    }
    forall e | StoredMatch(disk, q, e) && e !in answer
      ensures |answer| == q.limit && forall x :: x in answer ==> x.timestamp.nano >= e.timestamp.nano
    {
      ScanFinds(disk, hours, q, e);
      PrefixIsNewest(found, q.limit, e);
    }
  }

  /** A store opened over such a disk answers with the newest matches on disk, newest first. */
  method OpenThenQuery(disk: Disk, totalBytes: int, query: Query) returns (r: Result<seq<LogEntry>>)
    requires DiskApart(disk) && ComparableBounds(Normalize(query))
    requires forall hour :: hour in disk ==> SpelledBy(disk[hour], Normalize(query))
    ensures r.Ok? && NewestOnDisk(disk, Normalize(query), r.value)
  {
    forall hour, h | hour in disk && h in LoadIndex(disk[hour]) ensures Sound(disk[hour], hour, h) {
      LoadedIsIndexed(disk[hour], h);
    }
    var store := new FileStore(disk, totalBytes);
    ghost var q := Normalize(query);
    ghost var hours := AllHoursExist(disk);
    OpenedView(disk);
    OpenedSpelled(disk, q);
    NaiveIsNewest(disk, hours, q);
    r := store.Query(query);
  }
}
