/** Store operations one after another: what a query finds after an append, and what it misses when the
    append follows a pruning. */
module StoreSequences {
  import opened GoText
  import opened LogEntries
  import opened Blocks
  import opened StoreScan
  import opened Compaction
  import opened Retention
  import opened StorePartitions
  import opened StoreState
  import opened StoreIntegrity
  import opened BlockStore

  // ---------------------------------------------------------------- finding what was appended

  lemma {:induction false} HoursExist(existing: set<int>) returns (hours: seq<int>)
    ensures HoursDescend(hours) && forall h :: h in hours <==> h in existing
    decreases |existing|
  {
    if existing == {} {
      hours := [];
    } else {
      SomeMember(existing);
      var h :| h in existing;
      var rest := HoursExist(existing - {h});
      InsertHourKeeps(rest, h);
      hours := InsertHour(rest, h);
    }
  }

  lemma AllHoursExist(disk: Disk) returns (hours: seq<int>)
    ensures AllHours(hours, disk)
  {
    hours := HoursExist(disk.Keys);
    assert forall h :: h in disk.Keys ==> h in hours;
    forall i | 0 <= i < |hours| ensures hours[i] in disk { assert hours[i] in hours; }
  }

  lemma {:induction false} ScanHolds(disk: Disk, view: map<int, seq<BlockHeader>>, hours: seq<int>, hour: int, e: LogEntry)
    requires forall i :: 0 <= i < |hours| ==> hours[i] in disk && hours[i] in view
    requires hour in hours && e in PartitionEntries(disk[hour], view[hour])
    ensures e in Scan(disk, view, hours)
  {
    var entries := PartitionEntries(disk[hours[0]], view[hours[0]]);
    if hours[0] == hour {
      ReverseMembers(entries, e);
    } else {
      ScanHolds(disk, view, hours[1..], hour, e);
    }
  }

  /** A matching entry in a block that the index names is among the stored matches. */
  lemma StoredIfNamed(disk: Disk, hours: seq<int>, hour: int, e: LogEntry, q: Query)
    requires AllHours(hours, disk) && hour in disk && e in PartitionEntries(disk[hour], LoadIndex(disk[hour])) && Matches(e, q)
    ensures e in StoredMatches(disk, hours, q)
  {
    assert hour in disk.Keys;
    ScanHolds(disk, IndexView(disk), hours, hour, e);
    FilterCounts(Scan(disk, IndexView(disk), hours), q, e);
  }

  lemma AppendedIsNamed(before: Disk, disk: Disk, entries: seq<LogEntry>, names: int -> nat, sizes: int -> nat, now: int, e: LogEntry)
    requires e in entries && FreshName(before, map[], PartitionDir(e, now), names(PartitionDir(e, now)))
    requires PartitionAfterAppend(before, disk, PartitionDir(e, now), entries, names, sizes, now)
    ensures var hour := PartitionDir(e, now); hour in disk && e in PartitionEntries(disk[hour], LoadIndex(disk[hour]))
  {
    var hour := PartitionDir(e, now);
    var g := Group(entries, hour, now);
    GroupHolds(entries, now, e);
    var header := HeaderOf(g, names(hour), sizes(hour), now);
    var p := if hour in before then before[hour] else EMPTY_PARTITION;
    LoadIndexAppend(p, header, p.files[names(hour) := g]);
    assert header in multiset(LoadIndex(disk[hour]));
    EntriesHold(disk[hour], LoadIndex(disk[hour]), header, e);
  }

  lemma AnswerHolds(answer: seq<LogEntry>, stored: multiset<LogEntry>, limit: int, e: LogEntry)
    requires Answers(answer, stored, limit) && e in stored
    ensures e in answer || |answer| == limit
  {
    assert e in answer <==> e in multiset(answer);
  }

  /** Every appended entry that matches is in the answer, unless the answer is full. */
  method AppendThenQuery(store: FileStore, entries: seq<LogEntry>, names: int -> nat, sizes: int -> nat, now: int,
                         writable: int -> bool, query: Query)
    returns (ok: bool, r: Result<seq<LogEntry>>)
    requires store.Valid() && store.Current()
    requires forall hour :: FreshName(store.disk, store.cache, hour, names(hour))
    requires forall e :: e in entries ==> InPlace(e, PartitionDir(e, now))
    modifies store
    ensures store.Valid() && store.Current() && (r.Ok? <==> !store.closed)
    ensures ok <==> entries == [] || (!old(store.closed) && AllWritable(entries, now, writable))
    ensures ok && r.Ok? && store.Faithful(Normalize(query)) ==>
      forall e :: e in entries && Matches(e, Normalize(query)) ==> e in r.value || |r.value| == Normalize(query).limit
  {
    ghost var before := store.disk;
    forall hour ensures FreshName(before, map[], hour, names(hour)) {
      assert FreshName(store.disk, store.cache, hour, names(hour));
    }
    ghost var missed;
    ok, missed := store.Append(entries, names, sizes, now, writable);
    CurrentIsCoherent(store.disk, store.cache);
    ghost var hours := AllHoursExist(store.disk);
    r := store.Query(query);
    ghost var q := Normalize(query);
    if ok && r.Ok? && store.Faithful(q) {
      forall e | e in entries && Matches(e, q) ensures e in r.value || |r.value| == q.limit {
        assert Written(before, store.disk, PartitionDir(e, now), missed, entries, names, sizes, now);
        AppendedIsNamed(before, store.disk, entries, names, sizes, now, e);
        StoredIfNamed(store.disk, hours, PartitionDir(e, now), e, q);
        AnswerHolds(r.value, StoredMatches(store.disk, hours, q), q.limit, e);
      }
    }
  }

  // ---------------------------------------------------------------- after a pruning

  /** Entries found in one partition are in place there. */
  lemma FoundInPlace(disk: Disk, cache: map<int, seq<BlockHeader>>, summaries: map<int, Summary>, hour: int, e: LogEntry)
    requires StateValid(disk, cache, summaries) && hour in disk
    requires e in PartitionEntries(disk[hour], ViewOf(disk, cache)[hour]) || e in PartitionEntries(disk[hour], LoadIndex(disk[hour]))
    ensures InPlace(e, hour)
  {
    var headers := if e in PartitionEntries(disk[hour], LoadIndex(disk[hour])) then LoadIndex(disk[hour]) else ViewOf(disk, cache)[hour];
    var h := PartitionMember(disk[hour], headers, e);
    assert KnownHeader(disk, cache, hour, h) && HeaderOk(disk, summaries, hour, h);
  }

  /** A cache that lists one block of a partition hides every entry in the others. */
  lemma StaleCacheHides(disk: Disk, cache: map<int, seq<BlockHeader>>, summaries: map<int, Summary>, hour: int,
                        header: BlockHeader, e: LogEntry)
    requires StateValid(disk, cache, summaries)
    requires hour in disk && hour in cache && cache[hour] == [header]
    requires e in PartitionEntries(disk[hour], LoadIndex(disk[hour])) && e !in BlockEntries(disk[hour], header)
    ensures !InView(disk, ViewOf(disk, cache), e)
  {
    var view := ViewOf(disk, cache);
    FoundInPlace(disk, cache, summaries, hour, e);
    OneBlock(disk[hour], header);
    forall other | other in disk && other in view ensures e !in PartitionEntries(disk[other], view[other]) {
      if e in PartitionEntries(disk[other], view[other]) { FoundInPlace(disk, cache, summaries, other, e); }
    }
  }

  /** After a pruning that deleted something, an append to a surviving partition hides everything else that
      the partition's index names: no query returns any of it, whatever its limit. */
  method PruneAppendQuery(store: FileStore, files: seq<DataFile>, maxSizeBytes: int, indexBytes: nat, hour: int,
                          entries: seq<LogEntry>, fileName: nat, size: nat, now: int, query: Query)
    returns (deleted: nat, r: Result<seq<LogEntry>>)
    requires store.Valid() && !store.closed && FreshName(store.disk, store.cache, hour, fileName)
    requires entries != [] && forall e :: e in entries ==> InPlace(e, hour)
    modifies store
    ensures store.Valid() && hour in store.disk && r.Ok?
    ensures deleted == Count(PruneAll(files, old(store.totalBytes), maxSizeBytes).deleted)
    ensures deleted > 0 ==> store.disk == DiskWith(
      WithData(Purged(old(store.disk), files, PruneAll(files, old(store.totalBytes), maxSizeBytes).deleted)),
      hour, entries, HeaderOf(entries, fileName, size, now))
    ensures deleted > 0 ==>
      forall e :: e in PartitionEntries(store.disk[hour], LoadIndex(store.disk[hour])) && e !in entries ==> e !in r.value
  {
    var ok, freed;
    ok, deleted, freed := store.Prune(files, maxSizeBytes, indexBytes);
    store.AppendGroup(hour, entries, fileName, size, now);
    ghost var disk, cache, summaries := store.disk, store.cache, store.summaries;
    ghost var header := HeaderOf(entries, fileName, size, now);
    assert deleted > 0 ==> cache[hour] == [header];
    r := store.Query(query);
    if deleted > 0 {
      forall e | e in PartitionEntries(disk[hour], LoadIndex(disk[hour])) && e !in entries ensures e !in r.value {
        StaleCacheHides(disk, cache, summaries, hour, header, e);
      }
    }
  }

  // ---------------------------------------------------------------- one such run

  const EVERYTHING: Query := Query([], [], [], ZERO_TIME, ZERO_TIME, [], 10)

  lemma MatchesEverything(e: LogEntry)
    ensures Matches(e, Normalize(EVERYTHING))
  {
    assert TrimSpace([]) == [] && ToUpper([]) == [];
  }

  function OneBlockPartition(e: LogEntry, name: nat): Partition {
    Partition([HeaderOf([e], name, 1, 0)], [], map[name := [e]])
  }

  function TwoHours(a: LogEntry, b: LogEntry): Disk {
    map[0 := OneBlockPartition(a, 0), 1 := OneBlockPartition(b, 1)]
  }

  lemma LoadsOne(e: LogEntry, name: nat)
    ensures LoadIndex(OneBlockPartition(e, name)) == [HeaderOf([e], name, 1, 0)]
  {
    var headers := [HeaderOf([e], name, 1, 0)];
    EmptyPrefix(headers);
    DistinctFilesIdentity(headers);
    assert headers[..0] == [] && SortByMin([]) == [];
    assert SortByMin(headers) == InsertByMin([], headers[0]);
  }

  lemma OneBlockSound(e: LogEntry, name: nat, hour: int)
    requires InPlace(e, hour)
    ensures forall h :: h in LoadIndex(OneBlockPartition(e, name)) ==> Sound(OneBlockPartition(e, name), hour, h)
  {
    LoadsOne(e, name);
    HeaderCovers([e], name, 1, 0, 0);
    OneEntrySound(OneBlockPartition(e, name), hour, HeaderOf([e], name, 1, 0), e);
  }

  lemma OneEntrySound(p: Partition, hour: int, h: BlockHeader, e: LogEntry)
    requires p.files == map[h.fileName := [e]] && CoversEntry(h, e) && InPlace(e, hour)
    ensures Sound(p, hour, h)
  {
  }

  lemma FreeBeside(disk: Disk, cache: map<int, seq<BlockHeader>>, hour: int, h: BlockHeader, name: nat)
    requires hour in disk && disk[hour].legacy == [] && disk[hour].index == [h] && name !in disk[hour].files
    requires h.fileName != name && (hour in cache ==> cache[hour] == [h])
    ensures FreshName(disk, cache, hour, name)
  {
  }

  const GONE := DataFile(0, 0, 1, true, true)

  lemma OneDeleted(disk: Disk)
    ensures PruneAll([GONE], 2, 0) == Progress(1, 1, [true]) && Count([true]) == 1
    ensures Purged(disk, [GONE], [true]) == WithoutFile(disk, 0, 0)
  {
    assert [GONE][..0] == [] && [true][..0] == [];
    assert PruneAll([], 2, 0) == Progress(2, 0, []);
    assert PruneAll([GONE], 2, 0) == PruneFile(PruneAll([GONE][..0], 2, 0), GONE, 0);
  }

  /** What is left of the two hours, with one more block in the newer one. */
  lemma StillNamed(a: LogEntry, b: LogEntry, c: LogEntry)
    ensures var disk := DiskWith(WithData(WithoutFile(TwoHours(a, b), 0, 0)), 1, [c], HeaderOf([c], 2, 1, 0));
      1 in disk && b in PartitionEntries(disk[1], LoadIndex(disk[1]))
  {
    var p, header, added := OneBlockPartition(b, 1), HeaderOf([b], 1, 1, 0), HeaderOf([c], 2, 1, 0);
    var left := WithoutFile(TwoHours(a, b), 0, 0);
    assert left[1] == p && 1 in p.files;
    assert 1 in WithData(left) && WithData(left)[1] == p;
    LoadsOne(b, 1);
    assert p.legacy + p.index == [header];
    LoadIndexAppend(p, added, p.files[2 := [c]]);
    var q := Appended(p, [c], added);
    assert header in multiset(LoadIndex(q));
    EntriesHold(q, LoadIndex(q), header, b);
  }

  lemma NameIsFree(a: LogEntry, b: LogEntry)
    ensures FreshName(TwoHours(a, b), LoadedCache(TwoHours(a, b)), 1, 2)
  {
    LoadsOne(b, 1);
    FreeBeside(TwoHours(a, b), LoadedCache(TwoHours(a, b)), 1, HeaderOf([b], 1, 1, 0), 2);
  }

  method OpenTwoHours(a: LogEntry, b: LogEntry) returns (store: FileStore)
    requires InPlace(a, 0) && InPlace(b, 1)
    ensures fresh(store) && store.Valid() && !store.closed && store.disk == TwoHours(a, b) && store.totalBytes == 2
    ensures FreshName(store.disk, store.cache, 1, 2)
  {
    OneBlockSound(a, 0, 0);
    OneBlockSound(b, 1, 1);
    store := new FileStore(TwoHours(a, b), 2);
    NameIsFree(a, b);
  }

  /** Two hours hold a block each. The older one is pruned, and an entry is appended to the newer one. The
      older entry of that hour is named by the index and matches, and the query does not return it. */
  method LostAfterPrune(a: LogEntry, b: LogEntry, c: LogEntry) returns (store: FileStore, r: Result<seq<LogEntry>>)
    requires InPlace(a, 0) && InPlace(b, 1) && InPlace(c, 1) && b != c
    ensures fresh(store) && r.Ok? && 1 in store.disk
    ensures b in PartitionEntries(store.disk[1], LoadIndex(store.disk[1])) && Matches(b, Normalize(EVERYTHING))
    ensures b !in r.value
  {
    store := OpenTwoHours(a, b);
    OneDeleted(TwoHours(a, b));
    var deleted;
    deleted, r := PruneAppendQuery(store, [GONE], 0, 0, 1, [c], 2, 1, 0, EVERYTHING);
    StillNamed(a, b, c);
    MatchesEverything(b);
  }
}
