/** The block store: hour partitions on disk, cached headers and summaries in memory. */
module BlockStore {
  import opened GoText
  import opened LogEntries
  import opened Blocks
  import opened StoreScan
  import opened Compaction
  import opened Retention
  import opened StorePartitions
  import opened StoreState
  import opened StoreIntegrity

  /** What a query found when it began. */
  datatype Snapshot = Snapshot(view: map<int, seq<BlockHeader>>, coherent: bool, current: bool,
                               cache: map<int, seq<BlockHeader>>, summaries: map<int, Summary>)

  /** What held before a batch and is to hold after it, the total before it and its partitions. */
  datatype Carried = Carried(valid: bool, current: bool, intact: bool, totalBytes: int, groups: set<int>)

  class FileStore {
    var closed: bool
    var disk: Disk
    var cache: map<int, seq<BlockHeader>>
    var summaries: map<int, Summary>
    var totalBytes: int

    /** Every header describes its block, and every partition's summary covers its headers. */
    ghost predicate Valid()
      reads this
    {
      StateValid(disk, cache, summaries)
    }

    function View(): map<int, seq<BlockHeader>>
      reads this
    {
      ViewOf(disk, cache)
    }

    ghost predicate Coherent()
      reads this
    {
      CoherentCache(disk, cache)
    }

    /** Every partition with an index is cached, with the same headers. */
    ghost predicate Current()
      reads this
    {
      CurrentCache(disk, cache)
    }

    /** Cache, summaries and index agree, and every header says exactly what its block holds. */
    ghost predicate Intact()
      reads this
    {
      IntactState(disk, cache, summaries)
    }

    /** `NewFileStore` and `scanInitial`: every partition's index is loaded and summarised. */
    constructor (disk: Disk, totalBytes: int)
      requires forall hour, h :: hour in disk && h in LoadIndex(disk[hour]) ==> Sound(disk[hour], hour, h)
      ensures Valid() && Coherent() && !closed && this.disk == disk && this.totalBytes == totalBytes
      ensures Current() && (ExactDisk(disk) ==> Intact()) && cache == LoadedCache(disk) && summaries == LoadedSummaries(disk)
    {
      closed := false;
      this.disk, this.totalBytes := disk, totalBytes;
      cache, summaries := LoadedCache(disk), LoadedSummaries(disk);
      new;
      OpenedIsValid(disk);
      OpenedIsCurrent(disk);
      CurrentIsCoherent(disk, cache);
      if ExactDisk(disk) { OpenedIsIntact(disk); }
    }

    /** The body of `Append`'s second loop: one new block in one partition. */
    method AppendGroup(hour: int, entries: seq<LogEntry>, fileName: nat, size: nat, now: int)
      requires cache.Keys <= disk.Keys && FreshName(disk, cache, hour, fileName) && entries != []
      modifies this
      ensures cache.Keys <= disk.Keys && closed == old(closed)
      ensures old(Valid()) && (forall e :: e in entries ==> InPlace(e, hour)) ==> Valid()
      ensures disk == DiskWith(old(disk), hour, entries, HeaderOf(entries, fileName, size, now))
      ensures cache == CacheWith(old(cache), hour, HeaderOf(entries, fileName, size, now))
      ensures summaries == SummariesWith(old(summaries), hour, HeaderOf(entries, fileName, size, now))
      ensures totalBytes == old(totalBytes) + size
      ensures old(Coherent()) ==>
        (Coherent() <==> hour in old(cache) || hour !in old(disk) || LoadIndex(old(disk)[hour]) == [])
      ensures old(Current()) ==> Current()
      ensures old(Intact()) && (forall e :: e in entries ==> InPlace(e, hour)) ==> Intact()
    {
      var header := EncodeBlock(entries, fileName, size, now);
      AppendOutcome(disk, cache, summaries, hour, entries, fileName, size, now);
      RecordBlock(hour, entries, header, size);
    }

    /** Writes a block and its header to disk, cache, summary and total. */
    method RecordBlock(hour: int, entries: seq<LogEntry>, header: BlockHeader, size: nat)
      modifies this
      ensures closed == old(closed) && totalBytes == old(totalBytes) + size
      ensures disk == DiskWith(old(disk), hour, entries, header)
      ensures cache == CacheWith(old(cache), hour, header)
      ensures summaries == SummariesWith(old(summaries), hour, header)
    {
      disk := DiskWith(disk, hour, entries, header);
      cache := CacheWith(cache, hour, header);
      summaries := SummariesWith(summaries, hour, header);
      totalBytes := totalBytes + size;
    }

    /** `Append`: entries are grouped by the hour their own clock shows, then written group by group until one
        fails. `missed` are the partitions that get nothing. */
    method Append(entries: seq<LogEntry>, names: int -> nat, sizes: int -> nat, now: int, writable: int -> bool)
      returns (ok: bool, ghost missed: set<int>)
      requires cache.Keys <= disk.Keys && forall hour :: FreshName(disk, cache, hour, names(hour))
      modifies this
      ensures cache.Keys <= disk.Keys && closed == old(closed)
      ensures old(Current()) ==> Current() && Coherent()
      ensures (forall e :: e in entries ==> InPlace(e, PartitionDir(e, now))) ==>
        (old(Valid()) ==> Valid()) && (old(Intact()) ==> Intact())
      ensures closed ==> disk == old(disk)
      ensures ok <==> entries == [] || (!closed && AllWritable(entries, now, writable))
      ensures missed <= HoursOf(entries, now) && (ok <==> missed == {})
      ensures forall hour :: hour in HoursOf(entries, now) && !writable(hour) ==> hour in missed
      ensures AllWritten(old(disk), disk, missed, entries, names, sizes, now)
      ensures totalBytes == old(totalBytes) + SumOver(HoursOf(entries, now) - missed, sizes)
    {
      if Current() { CurrentIsCoherent(disk, cache); }
      NothingToWrite(disk, entries, names, sizes, now);
      missed := HoursOf(entries, now);
      assert missed - missed == {};
      if |entries| == 0 { return true, missed; }
      assert PartitionDir(entries[0], now) in missed;
      if closed { return false, missed; }
      var grouped := GroupByHour(entries, now);
      GroupedKeys(grouped, entries, now);
      ok, missed := WriteGroups(grouped, entries, names, sizes, now, writable);
      if Current() { CurrentIsCoherent(disk, cache); }
    }

    /** What a batch keeps group by group; `pending` groups are still to be written. */
    ghost predicate Underway(start: Disk, pending: set<int>, entries: seq<LogEntry>, names: int -> nat, sizes: int -> nat, now: int, kept: Carried)
      reads this
    {
      && (kept.valid ==> Valid()) && (kept.current ==> Current()) && (kept.intact ==> Intact())
      && cache.Keys <= disk.Keys && AllWritten(start, disk, pending, entries, names, sizes, now)
      && AllFresh(disk, cache, pending, names)
      && pending <= kept.groups && totalBytes == kept.totalBytes + SumOver(kept.groups - pending, sizes)
    }

    method WriteGroups(grouped: map<int, seq<LogEntry>>, ghost entries: seq<LogEntry>, names: int -> nat, sizes: int -> nat,
                       now: int, writable: int -> bool)
      returns (ok: bool, ghost pending: set<int>)
      requires cache.Keys <= disk.Keys && forall hour :: FreshName(disk, cache, hour, names(hour))
      requires GroupedBy(grouped, entries, now)
      modifies this
      ensures cache.Keys <= disk.Keys && closed == old(closed)
      ensures old(Current()) ==> Current()
      ensures (forall e :: e in entries ==> InPlace(e, PartitionDir(e, now))) ==>
        (old(Valid()) ==> Valid()) && (old(Intact()) ==> Intact())
      ensures AllWritten(old(disk), disk, pending, entries, names, sizes, now) && pending <= grouped.Keys
      ensures ok <==> forall hour :: hour in grouped ==> writable(hour)
      ensures (ok <==> pending == {}) && forall hour :: hour in grouped && !writable(hour) ==> hour in pending
      ensures totalBytes == old(totalBytes) + SumOver(grouped.Keys - pending, sizes)
    {
      ghost var tame := forall e :: e in entries ==> InPlace(e, PartitionDir(e, now));
      ghost var kept := Carried(tame && Valid(), Current(), tame && Intact(), totalBytes, grouped.Keys);
      var todo := grouped.Keys;
      NothingWritten(disk, grouped, entries, names, sizes, now);
      assert grouped.Keys - todo == {};
      while todo != {}
        invariant todo <= grouped.Keys && closed == old(closed)
        invariant Underway(old(disk), todo, entries, names, sizes, now, kept)
        invariant forall hour :: hour in grouped && !writable(hour) ==> hour in todo
        decreases |todo|
      {
        SomeMember(todo);
        var hour :| hour in todo;
        if !writable(hour) { return false, todo; }
        GroupBelongs(grouped, entries, now, hour);
        WriteGroup(hour, grouped[hour], entries, names, sizes, now, old(disk), todo, kept);
        todo := todo - {hour};
      }
      ok, pending := true, {};
    }

    /** One round of the loop. */
    method WriteGroup(hour: int, group: seq<LogEntry>, ghost entries: seq<LogEntry>, names: int -> nat, sizes: int -> nat, now: int,
                      ghost start: Disk, ghost pending: set<int>, ghost kept: Carried)
      requires Underway(start, pending, entries, names, sizes, now, kept) && hour in pending
      requires group == Group(entries, hour, now) != []
      requires kept.valid || kept.intact ==> forall e :: e in group ==> InPlace(e, hour)
      modifies this
      ensures Underway(start, pending - {hour}, entries, names, sizes, now, kept) && closed == old(closed)
    {
      WrittenNext(start, disk, hour, pending, entries, names, sizes, now);
      FreshRest(disk, cache, hour, group, HeaderOf(group, names(hour), sizes(hour), now), pending, names);
      SumOverNext(kept.groups, pending, sizes, hour);
      AppendGroup(hour, group, names(hour), sizes(hour), now);
    }

    /** `CompactPartition`: whatever the chunk size, the partition's entries in scan order do not change, and a
        block that cannot be read or an index that cannot be rewritten leaves everything alone. Otherwise blocks
        that can be merged are. */
    method CompactPartition(hour: int, maxBlockRecords: int, names: nat -> nat, sizes: nat -> nat, now: int, rewriteOk: bool)
      returns (ok: bool, reduced: int, freed: int, ghost blocks: seq<NewBlock>)
      requires Valid() && (forall i: nat, j: nat :: i != j ==> names(i) != names(j))
      requires forall i: nat :: FreshName(disk, cache, hour, names(i))
      modifies this
      ensures Valid() && closed == old(closed)
      ensures OnlyHour(old(disk), old(cache), disk, cache, hour)
      ensures old(Coherent()) ==> Coherent() && SameEntries(old(disk), old(cache), disk, cache, hour)
      ensures old(Current()) ==> Current()
      ensures old(Intact()) ==> Intact() && SameExtent(old(summaries), summaries, hour)
      ensures totalBytes == old(totalBytes) - freed
      ensures ok <==> !closed && (hour in old(disk) && |ToCompact(old(disk), old(cache), hour)| >= 2 ==>
        Readable(old(disk)[hour], ToCompact(old(disk), old(cache), hour)) && (Mergeable(old(disk), old(cache), hour) ==> rewriteOk))
      ensures if ok && Mergeable(old(disk), old(cache), hour)
        then MergedTo(old(disk), old(cache), disk, cache, hour, if maxBlockRecords <= 0 then 5000 else maxBlockRecords, reduced, freed)
        else disk == old(disk) && cache == old(cache) && summaries == old(summaries) && reduced == freed == 0
      ensures ok && Mergeable(old(disk), old(cache), hour) ==>
        && WellFormed(blocks, now) && cache == old(cache)[hour := Headers(blocks)]
        && disk == old(disk)[hour := Compacted(old(disk)[hour], ToCompact(old(disk), old(cache), hour), blocks)]
    {
      NothingCompacted(disk, cache, summaries, hour);
      if closed || hour !in disk { return !closed, 0, 0, []; }
      var max := if maxBlockRecords <= 0 then 5000 else maxBlockRecords;
      var headers, merged;
      ok, headers, merged := PlanCompaction(hour, max, names, sizes, now);
      if merged == [] || !rewriteOk { return ok && merged == [], 0, 0, merged; }
      if Intact() { FromView(disk, cache, summaries, hour, headers); }
      ChunksMerge(disk[hour], headers, merged, now, max);
      freed := Install(hour, headers, merged, now);
      reduced := |headers| - |merged|;
      blocks := merged;
    }

    /** Reads the blocks and forms the new ones; nothing to install if there is nothing to gain. */
    method PlanCompaction(hour: int, max: nat, names: nat -> nat, sizes: nat -> nat, now: int)
      returns (ok: bool, headers: seq<BlockHeader>, blocks: seq<NewBlock>)
      requires hour in disk && max > 0 && (forall i: nat, j: nat :: i != j ==> names(i) != names(j))
      requires forall i: nat :: FreshName(disk, cache, hour, names(i))
      ensures headers == ToCompact(disk, cache, hour) && (ok <==> |headers| < 2 || Readable(disk[hour], headers))
      ensures blocks != [] <==> Mergeable(disk, cache, hour)
      ensures (hour in cache && headers == cache[hour]) || headers == LoadIndex(disk[hour])
      ensures Coherent() && |headers| >= 2 ==> headers == View()[hour]
      ensures blocks != [] ==>
        && |headers| >= 2 && WellFormed(blocks, now) && Chunked(blocks, max) && FreshNames(disk[hour], headers, blocks)
        && Flatten(blocks) == PartitionEntries(disk[hour], headers)
        && (Coherent() ==> Rewrites(disk[hour], headers, blocks, now))
    {
      headers := HeadersToCompact(hour);
      if |headers| < 2 { return true, headers, []; }
      var readable, all := ReadAll(disk[hour], headers);
      if !readable { return false, headers, []; }
      if all == [] { return true, headers, []; }
      blocks := WriteChunks(all, max, names, sizes, now);
      FreshChunks(disk, cache, hour, headers, blocks, names);
      if Coherent() { PlanRewrites(disk, cache, hour, headers, blocks, now); }
      ok := true;
    }

    /** The cached headers if there are at least two, else those on disk. */
    method HeadersToCompact(hour: int) returns (headers: seq<BlockHeader>)
      requires hour in disk
      ensures headers == ToCompact(disk, cache, hour)
      ensures Coherent() && |headers| >= 2 ==> headers == View()[hour]
    {
      if hour in cache && |cache[hour]| >= 2 { return cache[hour]; }
      headers := LoadIndex(disk[hour]);
      assert Coherent() ==> CoherentAt(disk, cache, hour);
      assert hour in cache ==> |multiset(cache[hour])| == |cache[hour]|;
      assert |multiset(headers)| == |headers|;
    }

    /** Replaces a partition's blocks, cached headers and summary. */
    method Install(hour: int, headers: seq<BlockHeader>, blocks: seq<NewBlock>, now: int) returns (freed: int)
      requires Valid() && hour in disk && WellFormed(blocks, now) && blocks != []
      requires FreshNames(disk[hour], headers, blocks) && Flatten(blocks) == PartitionEntries(disk[hour], headers)
      requires (hour in cache && headers == cache[hour]) || headers == LoadIndex(disk[hour])
      modifies this
      ensures Valid() && closed == old(closed)
      ensures disk == old(disk)[hour := Compacted(old(disk)[hour], headers, blocks)]
      ensures cache == old(cache)[hour := Headers(blocks)]
      ensures OnlyHour(old(disk), old(cache), disk, cache, hour)
      ensures PartitionEntries(disk[hour], View()[hour]) == PartitionEntries(old(disk)[hour], headers)
      ensures old(Coherent()) ==> Coherent()
      ensures old(Current()) ==> Current()
      ensures old(Intact()) && hour in old(cache) && headers == old(cache)[hour] && headers != [] ==>
        Intact() && SameExtent(old(summaries), summaries, hour)
      ensures totalBytes == old(totalBytes) - freed && freed == TotalBytes(headers) - TotalBytes(Headers(blocks))
    {
      InstallOutcome(disk, cache, summaries, hour, headers, blocks, now);
      freed := TotalBytes(headers) - TotalBytes(Headers(blocks));
      Replace(hour, Compacted(disk[hour], headers, blocks), Headers(blocks), Summarize(Headers(blocks)).value, freed);
    }

    method Replace(hour: int, p: Partition, headers: seq<BlockHeader>, summary: Summary, freed: int)
      modifies this
      ensures closed == old(closed) && totalBytes == old(totalBytes) - freed
      ensures disk == old(disk)[hour := p] && cache == old(cache)[hour := headers] && summaries == old(summaries)[hour := summary]
    {
      disk, cache, summaries := disk[hour := p], cache[hour := headers], summaries[hour := summary];
      totalBytes := totalBytes - freed;
    }

    /** `Prune`: deletes files by age or budget, then forgets every cached header and drops partitions
        that hold no data. `indexBytes` is what the indexes of those partitions took. */
    method Prune(files: seq<DataFile>, maxSizeBytes: int, indexBytes: nat) returns (ok: bool, deleted: nat, freed: nat)
      requires Valid()
      modifies this
      ensures Valid() && closed == old(closed)
      ensures ok == !closed
      ensures closed ==> disk == old(disk) && cache == old(cache) && totalBytes == old(totalBytes)
      ensures !closed ==>
        && freed == PruneAll(files, old(totalBytes), maxSizeBytes).freed
        && deleted == Count(PruneAll(files, old(totalBytes), maxSizeBytes).deleted)
        && totalBytes == PruneAll(files, old(totalBytes), maxSizeBytes).totalBytes - (if deleted > 0 then indexBytes else 0)
      ensures !closed && deleted == 0 ==> disk == old(disk) && cache == old(cache)
      ensures !closed && deleted > 0 ==>
        cache == map[] && disk == WithData(Purged(old(disk), files, PruneAll(files, old(totalBytes), maxSizeBytes).deleted))
      ensures forall hour :: hour in disk ==> hour in old(disk) && SameIndex(old(disk)[hour], disk[hour])
    {
      if closed { return false, 0, 0; }
      deleted, freed := DeleteFiles(files, maxSizeBytes);
      if deleted > 0 {
        ghost var before := disk;
        cache := map[];
        disk := WithData(disk);
        summaries := map hour | hour in summaries && hour in disk :: summaries[hour];
        totalBytes := totalBytes - indexBytes;
        forall x, h | x in disk && KnownHeader(disk, cache, x, h) ensures HeaderOk(disk, summaries, x, h) {
          assert x in before;
          LoadedIsKnown(before, old(cache), x, h);
          assert HeaderOk(before, old(summaries), x, h);
        }
      }
      ok := true;
    }

    /** Runs the deletion loop on the store. */
    method DeleteFiles(files: seq<DataFile>, maxSizeBytes: int) returns (deleted: nat, freed: nat)
      requires Valid()
      modifies this`disk, this`totalBytes
      ensures Valid()
      ensures Deleting(old(disk), files, old(totalBytes), maxSizeBytes, disk, totalBytes, deleted, freed)
      ensures SameIndexes(old(disk), disk) && (deleted == 0 ==> disk == old(disk))
    {
      ghost var r := PruneAll(files, totalBytes, maxSizeBytes);
      PurgedKeepsIndexes(disk, files, r.deleted);
      PurgedKeepsValid(disk, cache, summaries, files, r.deleted);
      disk, totalBytes, deleted, freed := DeletionLoop(disk, files, totalBytes, maxSizeBytes);
    }

    /** Pruning and then appending to a surviving partition leaves a cache that has forgotten the
        partition's older blocks. */
    method PruneThenAppend(files: seq<DataFile>, maxSizeBytes: int, indexBytes: nat, hour: int,
                           entries: seq<LogEntry>, fileName: nat, size: nat, now: int)
      requires Valid() && Coherent() && !closed && FreshName(disk, cache, hour, fileName) && entries != []
      modifies this
      ensures Count(PruneAll(files, old(totalBytes), maxSizeBytes).deleted) > 0 && LongIndex(disk, hour) ==> !Coherent()
    {
      var ok, deleted, freed := Prune(files, maxSizeBytes, indexBytes);
      AppendGroup(hour, entries, fileName, size, now);
      if deleted > 0 && LongIndex(disk, hour) {
        ForgottenIndex(disk[hour]);
        assert cache[hour] == [HeaderOf(entries, fileName, size, now)];
        assert |multiset(cache[hour])| == 1;
        assert !CoherentAt(disk, cache, hour);
      }
    }

    /** `getPartitionHeaders`. */
    method GetPartitionHeaders(hour: int) returns (headers: seq<BlockHeader>)
      requires Valid() && hour in disk
      modifies this`cache, this`summaries
      ensures Valid() && View() == old(View()) && (old(Coherent()) ==> Coherent())
      ensures old(Current()) ==> cache == old(cache) && summaries == old(summaries)
      ensures headers == View()[hour]
      ensures OnlySummary(old(summaries), summaries, hour)
      ensures cache == if hour in old(cache) || LoadIndex(disk[hour]) == [] then old(cache) else old(cache)[hour := LoadIndex(disk[hour])]
    {
      if hour in cache { return cache[hour]; }
      headers := LoadIndex(disk[hour]);
      if headers == [] { return; }
      LoadOutcome(disk, cache, summaries, hour);
      Remember(hour, headers, Summarize(headers).value);
    }

    method Remember(hour: int, headers: seq<BlockHeader>, summary: Summary)
      modifies this`cache, this`summaries
      ensures cache == old(cache)[hour := headers] && summaries == old(summaries)[hour := summary]
    {
      cache, summaries := cache[hour := headers], summaries[hour := summary];
    }

    /** A partition skipped by its summary holds no match. */
    lemma PrunedPartition(hour: int, q: Query)
      requires Valid() && hour in disk && hour in summaries
      requires !SummaryMatches(summaries[hour], q) && SpelledAsStored(summaries[hour], q)
      ensures forall e :: e in Reverse(PartitionEntries(disk[hour], View()[hour])) ==> !Matches(e, q)
    {
      var entries := PartitionEntries(disk[hour], View()[hour]);
      forall e | e in Reverse(entries) ensures !Matches(e, q) {
        ReverseMembers(entries, e);
        var h := PartitionMember(disk[hour], View()[hour], e);
        assert KnownHeader(disk, cache, hour, h) && HeaderOk(disk, summaries, hour, h);
        if Matches(e, q) { SummaryPruningSound(summaries[hour], h, e, q); }
      }
    }

    /** Step 2 of `Query` for one partition. */
    method QueryPartition(hour: int, q: Query, limit: nat, found: seq<LogEntry>) returns (matched: seq<LogEntry>)
      requires Valid() && hour in disk && |found| <= limit
      modifies this`cache, this`summaries
      ensures Valid() && View() == old(View()) && (old(Coherent()) ==> Coherent())
      ensures old(Current()) ==> cache == old(cache) && summaries == old(summaries)
      ensures |matched| <= limit && GrownFrom(found, matched, PartitionEntries(disk[hour], View()[hour]), q)
      ensures ComparableBounds(q) && (hour in old(summaries) ==> SpelledAsStored(old(summaries)[hour], q)) ==>
        matched == Extend(found, Reverse(PartitionEntries(disk[hour], View()[hour])), q, limit)
      ensures OnlySummary(old(summaries), summaries, hour)
    {
      if hour in summaries && !SummaryMatches(summaries[hour], q) {
        if SpelledAsStored(summaries[hour], q) {
          PrunedPartition(hour, q);
          ExtendNone(found, Reverse(PartitionEntries(disk[hour], View()[hour])), q, limit);
        }
        return found;
      }
      var headers := GetPartitionHeaders(hour);
      forall h | h in headers ensures Sound(disk[hour], hour, h) {
        assert KnownHeader(disk, cache, hour, h) && HeaderOk(disk, summaries, hour, h);
      }
      matched := ScanPartition(disk[hour], hour, headers, q, limit, found);
    }

    /** The query's bounds compare faithfully and it spells host and source as stored. */
    predicate Faithful(q: Query)
      reads this
    {
      ComparableBounds(q) && SpelledEverywhere(summaries, q)
    }

    /** `Query` returns matches only and at most the limit; for a faithful query it returns exactly the
        first matches of the naive scan over everything stored. */
    method Query(query: Query) returns (r: Result<seq<LogEntry>>)
      requires Valid()
      modifies this`cache, this`summaries
      ensures Valid() && View() == old(View()) && (old(Coherent()) ==> Coherent())
      ensures old(Current()) ==> cache == old(cache) && summaries == old(summaries)
      ensures r.Err? <==> closed
      ensures r.Ok? ==> |r.value| <= Normalize(query).limit && AllFound(disk, View(), r.value, Normalize(query))
      ensures r.Ok? && old(Faithful(Normalize(query))) ==>
        forall hours :: AllHours(hours, disk) ==> r.value == NaiveQuery(disk, View(), hours, Normalize(query))
      ensures r.Ok? && old(Faithful(Normalize(query)) && Coherent()) ==>
        forall hours :: AllHours(hours, disk) ==>
          Answers(r.value, StoredMatches(disk, hours, Normalize(query)), Normalize(query).limit)
    {
      var q := Normalize(query);
      if closed { return Err; }
      var dirs := CollectCandidateDirs(disk.Keys, q);
      CandidatesAnswer(dirs, q);
      if Coherent() { StoredAnswer(q); }
      var matched := QueryPartitions(dirs, q);
      r := Ok(matched);
    }

    /** From a coherent cache the naive answer is one about what the index files name. */
    lemma StoredAnswer(q: Query)
      requires Coherent() && q.limit >= 0
      ensures forall hours :: AllHours(hours, disk) ==>
        Answers(NaiveQuery(disk, View(), hours, q), StoredMatches(disk, hours, q), q.limit)
    {
      forall hours | AllHours(hours, disk)
        ensures Answers(NaiveQuery(disk, View(), hours, q), StoredMatches(disk, hours, q), q.limit)
      {
        NaiveAnswersStored(disk, cache, hours, q);
      }
    }

    /** What a query may rely on from round to round. */
    ghost predicate Good(before: Snapshot)
      reads this
    {
      && Valid() && View() == before.view && (before.coherent ==> Coherent())
      && (before.current ==> cache == before.cache && summaries == before.summaries && Current())
    }

    ghost function Now(): Snapshot
      reads this
    {
      Snapshot(View(), Coherent(), Current(), cache, summaries)
    }

    /** The loop over the candidate partitions. */
    method QueryPartitions(dirs: seq<int>, q: Query) returns (matched: seq<LogEntry>)
      requires Valid() && q.limit > 0 && HoursDescend(dirs) && InStore(disk, View(), dirs)
      modifies this`cache, this`summaries
      ensures Valid() && View() == old(View()) && (old(Coherent()) ==> Coherent())
      ensures old(Current()) ==> cache == old(cache) && summaries == old(summaries)
      ensures |matched| <= q.limit && AllFound(disk, View(), matched, q)
      ensures old(Faithful(q)) ==> matched == Extend([], Scan(disk, View(), dirs), q, q.limit)
    {
      ghost var before, faithful := Now(), Faithful(q);
      matched := QueryAll(dirs, q, before, faithful);
    }

    /** What is known after `k` of the candidate partitions. */
    ghost predicate Searched(dirs: seq<int>, k: nat, q: Query, matched: seq<LogEntry>, before: Snapshot, faithful: bool)
      requires q.limit >= 0 && k <= |dirs| && InStore(disk, before.view, dirs)
      reads this
    {
      && Good(before) && |matched| <= q.limit && AllFound(disk, before.view, matched, q)
      && (faithful ==> ComparableBounds(q) && Answered(disk, before.view, dirs, k, q, matched) && SpelledFrom(summaries, dirs, k, q))
    }

    method QueryAll(dirs: seq<int>, q: Query, ghost before: Snapshot, ghost faithful: bool) returns (matched: seq<LogEntry>)
      requires Good(before) && q.limit > 0 && HoursDescend(dirs) && InStore(disk, before.view, dirs)
      requires faithful ==> Faithful(q)
      modifies this`cache, this`summaries
      ensures Good(before) && |matched| <= q.limit && AllFound(disk, before.view, matched, q)
      ensures faithful ==> matched == Extend([], Scan(disk, before.view, dirs), q, q.limit)
    {
      matched := [];
      AnsweredNone(disk, before.view, dirs, summaries, q);
      var k := 0;
      while k < |dirs| && |matched| < q.limit
        invariant 0 <= k <= |dirs| && Searched(dirs, k, q, matched, before, faithful)
      {
        matched := QueryNext(dirs, k, q, matched, before, faithful);
        k := k + 1;
      }
      if faithful { AnsweredAll(disk, before.view, dirs, k, q, matched); }
    }

    /** One round of the loop. */
    method QueryNext(dirs: seq<int>, k: nat, q: Query, found: seq<LogEntry>, ghost before: Snapshot, ghost faithful: bool)
      returns (matched: seq<LogEntry>)
      requires q.limit >= 0 && k < |dirs| && HoursDescend(dirs) && InStore(disk, before.view, dirs)
      requires Searched(dirs, k, q, found, before, faithful)
      modifies this`cache, this`summaries
      ensures Searched(dirs, k + 1, q, matched, before, faithful)
    {
      matched := QueryPartition(dirs[k], q, q.limit, found);
      FoundGrows(disk, before.view, dirs[k], found, matched, q);
      if faithful {
        AnsweredNext(disk, before.view, dirs, k, q, found, matched);
        SpelledRest(old(summaries), summaries, dirs, k, q);
      }
    }

    lemma CandidatesAnswer(dirs: seq<int>, q: Query)
      requires Valid() && Candidates(dirs, disk.Keys, q) && q.limit >= 0
      ensures forall hours :: AllHours(hours, disk) ==>
        Extend([], Scan(disk, View(), dirs), q, q.limit) == NaiveQuery(disk, View(), hours, q)
    {
      forall hours | AllHours(hours, disk)
        ensures Extend([], Scan(disk, View(), dirs), q, q.limit) == NaiveQuery(disk, View(), hours, q)
      {
        CandidatesSuffice(dirs, hours, q);
      }
    }

    /** Hours that are no candidates hold no match, so the candidates give the naive answer. */
    lemma CandidatesSuffice(dirs: seq<int>, hours: seq<int>, q: Query)
      requires Valid() && Candidates(dirs, disk.Keys, q) && q.limit >= 0
      requires AllHours(hours, disk)
      ensures Extend([], Scan(disk, View(), dirs), q, q.limit) == NaiveQuery(disk, View(), hours, q)
    {
      var view := View();
      forall i | 0 <= i < |hours| && hours[i] !in dirs ensures NoMatchIn(disk, view, hours[i], q) {
        var hour := hours[i];
        forall e | e in PartitionEntries(disk[hour], view[hour]) ensures !Matches(e, q) {
          var h := PartitionMember(disk[hour], view[hour], e);
          assert KnownHeader(disk, cache, hour, h) && HeaderOk(disk, summaries, hour, h);
          assert HourOf(e.timestamp.nano) == hour;
        }
      }
      forall i | 0 <= i < |dirs| ensures dirs[i] in hours {
        assert dirs[i] in disk.Keys && dirs[i] in disk;
      }
      SkippingHours(disk, view, hours, dirs, q);
      var all := Filter(Scan(disk, view, hours), q);
      assert [] + all == all;
    }
  }
}
