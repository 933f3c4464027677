/** Cache, summaries and index in agreement: what the store keeps as long as nothing is pruned. */
module StoreIntegrity {
  import opened GoText
  import opened LogEntries
  import opened Blocks
  import opened StoreScan
  import opened Compaction
  import opened StorePartitions
  import opened StoreState

  // ---------------------------------------------------------------- the agreement, partition by partition

  /** A partition with an index is cached, with the same headers. */
  predicate CurrentAt(disk: Disk, cache: map<int, seq<BlockHeader>>, hour: int) {
    CoherentAt(disk, cache, hour) && (hour in disk && LoadIndex(disk[hour]) != [] ==> hour in cache)
  }

  ghost predicate CurrentCache(disk: Disk, cache: map<int, seq<BlockHeader>>) {
    forall hour :: CurrentAt(disk, cache, hour)
  }

  lemma CurrentIsCoherent(disk: Disk, cache: map<int, seq<BlockHeader>>)
    requires CurrentCache(disk, cache)
    ensures CoherentCache(disk, cache)
  {
    forall hour ensures CoherentAt(disk, cache, hour) { assert CurrentAt(disk, cache, hour); }
  }

  /** The summary of a partition is that of its cached headers. */
  predicate SummarizedAt(cache: map<int, seq<BlockHeader>>, summaries: map<int, Summary>, hour: int) {
    Summarize(if hour in cache then cache[hour] else []) == if hour in summaries then Some(summaries[hour]) else None
  }

  /** What a header says about times, levels, hosts and sources. */
  function HeaderExtent(h: BlockHeader): Extent {
    Extent(h.minNano, h.maxNano, h.levelMask, h.hosts, h.sources)
  }

  /** The header says exactly what its block holds. */
  predicate ExactHeader(p: Partition, h: BlockHeader) {
    h.fileName in p.files && p.files[h.fileName] != [] && HeaderExtent(h) == EntriesExtent(p.files[h.fileName], 0)
  }

  predicate ExactIndex(p: Partition) {
    forall h :: h in LoadIndex(p) ==> ExactHeader(p, h)
  }

  predicate IntactAt(disk: Disk, cache: map<int, seq<BlockHeader>>, summaries: map<int, Summary>, hour: int) {
    CurrentAt(disk, cache, hour) && SummarizedAt(cache, summaries, hour) && (hour in disk ==> ExactIndex(disk[hour]))
  }

  ghost predicate IntactState(disk: Disk, cache: map<int, seq<BlockHeader>>, summaries: map<int, Summary>) {
    StateValid(disk, cache, summaries) && forall hour :: IntactAt(disk, cache, summaries, hour)
  }

  lemma IntactIsCurrent(disk: Disk, cache: map<int, seq<BlockHeader>>, summaries: map<int, Summary>)
    requires IntactState(disk, cache, summaries)
    ensures CurrentCache(disk, cache)
  {
    forall hour ensures CurrentAt(disk, cache, hour) { assert IntactAt(disk, cache, summaries, hour); }
  }

  // ---------------------------------------------------------------- appending

  lemma AppendKeepsCurrent(disk: Disk, cache: map<int, seq<BlockHeader>>, hour: int, entries: seq<LogEntry>, header: BlockHeader)
    requires cache.Keys <= disk.Keys && FreshName(disk, cache, hour, header.fileName) && CurrentCache(disk, cache)
    ensures CurrentCache(DiskWith(disk, hour, entries, header), CacheWith(cache, hour, header))
  {
    var disk', cache' := DiskWith(disk, hour, entries, header), CacheWith(cache, hour, header);
    CurrentIsCoherent(disk, cache);
    CoherenceAfterAppend(disk, cache, hour, entries, header);
    assert CurrentAt(disk, cache, hour);
    forall x ensures CurrentAt(disk', cache', x) {
      assert CurrentAt(disk, cache, x) && CoherentAt(disk', cache', x);
    }
  }

  lemma SummarizeSnocHeader(headers: seq<BlockHeader>, h: BlockHeader)
    ensures Summarize(headers + [h]) == Some(AddBlock(Summarize(headers), h))
  {
    assert (headers + [h])[..|headers|] == headers;
  }

  lemma AppendKeepsSummarized(cache: map<int, seq<BlockHeader>>, summaries: map<int, Summary>, hour: int, header: BlockHeader, x: int)
    requires SummarizedAt(cache, summaries, hour) && SummarizedAt(cache, summaries, x)
    ensures SummarizedAt(CacheWith(cache, hour, header), SummariesWith(summaries, hour, header), x)
  {
    SummarizeSnocHeader(if hour in cache then cache[hour] else [], header);
  }

  lemma {:induction false} ExtentOfIndexable(entries: seq<LogEntry>, now: int)
    requires forall e :: e in entries ==> Indexable(e.timestamp)
    ensures EntriesExtent(entries, now) == EntriesExtent(entries, 0)
  {
    if entries != [] {
      var n := |entries| - 1;
      assert entries[n] in entries && forall e :: e in entries[..n] ==> e in entries;
      ExtentOfIndexable(entries[..n], now);
    }
  }

  lemma NewHeaderExact(entries: seq<LogEntry>, fileName: nat, size: nat, now: int, files: map<nat, seq<LogEntry>>)
    requires entries != [] && forall e :: e in entries ==> Indexable(e.timestamp)
    requires fileName in files && files[fileName] == entries
    ensures ExactHeader(Partition([], [], files), HeaderOf(entries, fileName, size, now))
  {
    ExtentOfIndexable(entries, now);
  }

  lemma SameFileSameExact(p: Partition, p': Partition, h: BlockHeader)
    requires ExactHeader(p, h) && h.fileName in p'.files && p'.files[h.fileName] == p.files[h.fileName]
    ensures ExactHeader(p', h)
  {
  }

  lemma AppendKeepsExact(disk: Disk, cache: map<int, seq<BlockHeader>>, hour: int, entries: seq<LogEntry>, fileName: nat, size: nat, now: int)
    requires FreshName(disk, cache, hour, fileName) && entries != [] && forall e :: e in entries ==> Indexable(e.timestamp)
    requires hour in disk ==> ExactIndex(disk[hour])
    ensures ExactIndex(DiskWith(disk, hour, entries, HeaderOf(entries, fileName, size, now))[hour])
  {
    var header := HeaderOf(entries, fileName, size, now);
    var p := DiskWith(disk, hour, entries, header)[hour];
    NewHeaderExact(entries, fileName, size, now, p.files);
    forall h | h in LoadIndex(p) ensures ExactHeader(p, h) {
      KnownAfterAppend(disk, map[], hour, entries, header, h);
      if h != header { SameFileSameExact(disk[hour], p, h); }
    }
  }

  /** A block of entries in their own hour keeps cache, summaries and index in agreement. */
  lemma AppendKeepsIntact(disk: Disk, cache: map<int, seq<BlockHeader>>, summaries: map<int, Summary>, hour: int,
                          entries: seq<LogEntry>, fileName: nat, size: nat, now: int)
    requires IntactState(disk, cache, summaries) && FreshName(disk, cache, hour, fileName)
    requires entries != [] && forall e :: e in entries ==> InPlace(e, hour)
    ensures var header := HeaderOf(entries, fileName, size, now);
      IntactState(DiskWith(disk, hour, entries, header), CacheWith(cache, hour, header), SummariesWith(summaries, hour, header))
  {
    var header := HeaderOf(entries, fileName, size, now);
    var disk', cache', summaries' :=
      DiskWith(disk, hour, entries, header), CacheWith(cache, hour, header), SummariesWith(summaries, hour, header);
    AppendKeepsValid(disk, cache, summaries, hour, entries, fileName, size, now);
    IntactIsCurrent(disk, cache, summaries);
    AppendKeepsCurrent(disk, cache, hour, entries, header);
    assert IntactAt(disk, cache, summaries, hour);
    AppendKeepsExact(disk, cache, hour, entries, fileName, size, now);
    forall x ensures IntactAt(disk', cache', summaries', x) {
      assert IntactAt(disk, cache, summaries, x) && CurrentAt(disk', cache', x);
      AppendKeepsSummarized(cache, summaries, hour, header, x);
      if x != hour && x in disk' { assert disk'[x] == disk[x]; }
    }
  }

  /** Everything one new block keeps. */
  lemma AppendOutcome(disk: Disk, cache: map<int, seq<BlockHeader>>, summaries: map<int, Summary>, hour: int,
                      entries: seq<LogEntry>, fileName: nat, size: nat, now: int)
    requires cache.Keys <= disk.Keys && FreshName(disk, cache, hour, fileName) && entries != []
    ensures var header := HeaderOf(entries, fileName, size, now);
      var disk', cache', summaries' :=
        DiskWith(disk, hour, entries, header), CacheWith(cache, hour, header), SummariesWith(summaries, hour, header);
      var inPlace := forall e :: e in entries ==> InPlace(e, hour);
      && cache'.Keys <= disk'.Keys
      && (StateValid(disk, cache, summaries) && inPlace ==> StateValid(disk', cache', summaries'))
      && (CoherentCache(disk, cache) ==>
            (CoherentCache(disk', cache') <==> hour in cache || hour !in disk || LoadIndex(disk[hour]) == []))
      && (CurrentCache(disk, cache) ==> CurrentCache(disk', cache'))
      && (IntactState(disk, cache, summaries) && inPlace ==> IntactState(disk', cache', summaries'))
  {
    var header := HeaderOf(entries, fileName, size, now);
    if forall e :: e in entries ==> InPlace(e, hour) {
      if StateValid(disk, cache, summaries) { AppendKeepsValid(disk, cache, summaries, hour, entries, fileName, size, now); }
      if IntactState(disk, cache, summaries) { AppendKeepsIntact(disk, cache, summaries, hour, entries, fileName, size, now); }
    }
    if CurrentCache(disk, cache) { AppendKeepsCurrent(disk, cache, hour, entries, header); }
    CoherenceAfterAppend(disk, cache, hour, entries, header);
  }

  // ---------------------------------------------------------------- compacting

  /** A summary of exact headers says exactly what the entries say. */
  lemma {:induction false} SummaryOfExact(p: Partition, headers: seq<BlockHeader>)
    requires headers != [] && forall h :: h in headers ==> ExactHeader(p, h)
    ensures Summarize(headers).Some? && ExtentOf(Summarize(headers).value) == EntriesExtent(PartitionEntries(p, headers), 0)
  {
    var n := |headers| - 1;
    var init, h := headers[..n], headers[n];
    assert h in headers;
    SplitLast(headers);
    SummarizeSnocHeader(init, h);
    PartitionConcat(p, init, [h]);
    OneBlock(p, h);
    if n == 0 {
      assert init == [] && PartitionEntries(p, init) == [];
      FirstExact(p, h);
    } else {
      assert forall x :: x in init ==> x in headers;
      SummaryOfExact(p, init);
      JoinExact(p, Summarize(init).value, PartitionEntries(p, init), h);
    }
  }

  lemma NamesNonEmpty(entries: seq<LogEntry>)
    ensures NonEmpty(HostSet(entries)) == HostSet(entries) && NonEmpty(SourceSet(entries)) == SourceSet(entries)
  {
  }

  lemma FirstExact(p: Partition, h: BlockHeader)
    requires ExactHeader(p, h)
    ensures ExtentOf(AddBlock(None, h)) == EntriesExtent([] + BlockEntries(p, h), 0)
  {
    assert [] + BlockEntries(p, h) == BlockEntries(p, h);
    NamesNonEmpty(BlockEntries(p, h));
  }

  lemma JoinExact(p: Partition, s: Summary, entries: seq<LogEntry>, h: BlockHeader)
    requires ExtentOf(s) == EntriesExtent(entries, 0) && ExactHeader(p, h)
    ensures ExtentOf(AddBlock(Some(s), h)) == EntriesExtent(entries + BlockEntries(p, h), 0)
  {
    ExtentConcat(entries, BlockEntries(p, h), 0);
    NamesNonEmpty(BlockEntries(p, h));
  }

  /** A compaction from all the blocks of a partition. */
  predicate CompactsAll(disk: Disk, cache: map<int, seq<BlockHeader>>, hour: int, headers: seq<BlockHeader>, blocks: seq<NewBlock>, now: int) {
    && hour in disk && hour in cache && headers == cache[hour] && headers != [] && blocks != []
    && WellFormed(blocks, now) && FreshNames(disk[hour], headers, blocks)
    && Flatten(blocks) == PartitionEntries(disk[hour], headers)
  }

  lemma CachedExact(disk: Disk, cache: map<int, seq<BlockHeader>>, summaries: map<int, Summary>, hour: int)
    requires IntactState(disk, cache, summaries) && hour in disk && hour in cache
    ensures forall h :: h in cache[hour] ==> ExactHeader(disk[hour], h)
  {
    assert IntactAt(disk, cache, summaries, hour);
    forall h | h in cache[hour] ensures ExactHeader(disk[hour], h) {
      assert h in multiset(cache[hour]);
      assert h in multiset(LoadIndex(disk[hour]));
    }
  }

  lemma BlocksInPlace(disk: Disk, cache: map<int, seq<BlockHeader>>, summaries: map<int, Summary>, hour: int,
                      headers: seq<BlockHeader>, e: LogEntry)
    requires StateValid(disk, cache, summaries) && hour in disk && hour in cache && headers == cache[hour]
    requires e in PartitionEntries(disk[hour], headers)
    ensures InPlace(e, hour)
  {
    var g := PartitionMember(disk[hour], headers, e);
    assert KnownHeader(disk, cache, hour, g) && HeaderOk(disk, summaries, hour, g);
  }

  /** The rebuilt summary says the same about times, levels, hosts and sources as the one it replaces. */
  lemma CompactionKeepsSummary(disk: Disk, cache: map<int, seq<BlockHeader>>, summaries: map<int, Summary>, hour: int,
                               headers: seq<BlockHeader>, blocks: seq<NewBlock>, now: int)
    requires IntactState(disk, cache, summaries) && CompactsAll(disk, cache, hour, headers, blocks, now)
    ensures hour in summaries && Summarize(Headers(blocks)).Some?
    ensures ExtentOf(Summarize(Headers(blocks)).value) == ExtentOf(summaries[hour])
  {
    assert IntactAt(disk, cache, summaries, hour);
    CachedExact(disk, cache, summaries, hour);
    SummaryOfExact(disk[hour], headers);
    SummaryOfBlocks(blocks, now);
    forall e | e in Flatten(blocks) ensures Indexable(e.timestamp) {
      BlocksInPlace(disk, cache, summaries, hour, headers, e);
    }
    ExtentOfIndexable(Flatten(blocks), now);
  }

  lemma CompactedExact(disk: Disk, cache: map<int, seq<BlockHeader>>, summaries: map<int, Summary>, hour: int,
                       headers: seq<BlockHeader>, blocks: seq<NewBlock>, now: int, i: nat)
    requires IntactState(disk, cache, summaries) && CompactsAll(disk, cache, hour, headers, blocks, now) && i < |blocks|
    ensures ExactHeader(Compacted(disk[hour], headers, blocks), blocks[i].header)
  {
    var p, b := Compacted(disk[hour], headers, blocks), blocks[i];
    NewFilesHold(blocks, now, i);
    forall e | e in b.entries ensures Indexable(e.timestamp) {
      FlattenMember(blocks, i, e);
      BlocksInPlace(disk, cache, summaries, hour, headers, e);
    }
    NewHeaderExact(b.entries, b.header.fileName, b.header.compressedBytes, now, p.files);
  }

  lemma CompactedIndexExact(disk: Disk, cache: map<int, seq<BlockHeader>>, summaries: map<int, Summary>, hour: int,
                            headers: seq<BlockHeader>, blocks: seq<NewBlock>, now: int)
    requires IntactState(disk, cache, summaries) && CompactsAll(disk, cache, hour, headers, blocks, now)
    ensures ExactIndex(Compacted(disk[hour], headers, blocks))
  {
    var p := Compacted(disk[hour], headers, blocks);
    CompactedIndex(disk[hour], headers, blocks, now);
    forall h | h in LoadIndex(p) ensures ExactHeader(p, h) {
      assert h in multiset(LoadIndex(p));
      assert h in Headers(blocks);
      HeadersMember(blocks, h);
      var i :| 0 <= i < |blocks| && blocks[i].header == h;
      CompactedExact(disk, cache, summaries, hour, headers, blocks, now, i);
    }
  }

  lemma CompactKeepsCurrent(disk: Disk, cache: map<int, seq<BlockHeader>>, hour: int, headers: seq<BlockHeader>,
                            blocks: seq<NewBlock>, now: int)
    requires hour in disk && WellFormed(blocks, now) && CurrentCache(disk, cache)
    ensures CurrentCache(disk[hour := Compacted(disk[hour], headers, blocks)], cache[hour := Headers(blocks)])
  {
    var disk', cache' := disk[hour := Compacted(disk[hour], headers, blocks)], cache[hour := Headers(blocks)];
    CurrentIsCoherent(disk, cache);
    CompactKeepsCoherent(disk, cache, hour, headers, blocks, now);
    forall x ensures CurrentAt(disk', cache', x) {
      assert CurrentAt(disk, cache, x) && CoherentAt(disk', cache', x);
    }
  }

  /** Compacting a partition keeps cache, summaries and index in agreement. */
  lemma CompactKeepsIntact(disk: Disk, cache: map<int, seq<BlockHeader>>, summaries: map<int, Summary>, hour: int,
                           headers: seq<BlockHeader>, blocks: seq<NewBlock>, now: int)
    requires IntactState(disk, cache, summaries) && CompactsAll(disk, cache, hour, headers, blocks, now)
    ensures Summarize(Headers(blocks)).Some?
    ensures IntactState(disk[hour := Compacted(disk[hour], headers, blocks)], cache[hour := Headers(blocks)],
                        summaries[hour := Summarize(Headers(blocks)).value])
  {
    CompactKeepsValid(disk, cache, summaries, hour, headers, blocks, now);
    IntactIsCurrent(disk, cache, summaries);
    CompactKeepsCurrent(disk, cache, hour, headers, blocks, now);
    CompactedIndexExact(disk, cache, summaries, hour, headers, blocks, now);
    var disk', cache', summaries' := disk[hour := Compacted(disk[hour], headers, blocks)], cache[hour := Headers(blocks)],
      summaries[hour := Summarize(Headers(blocks)).value];
    forall x ensures IntactAt(disk', cache', summaries', x) {
      assert IntactAt(disk, cache, summaries, x) && CurrentAt(disk', cache', x);
    }
  }

  /** Nothing about a partition's summary has changed but the number and size of its blocks. */
  predicate SameExtent(before: map<int, Summary>, after: map<int, Summary>, hour: int) {
    (hour in before <==> hour in after) && (hour in before ==> ExtentOf(after[hour]) == ExtentOf(before[hour]))
  }

  /** Everything the replacement of a partition's blocks keeps. */
  lemma InstallOutcome(disk: Disk, cache: map<int, seq<BlockHeader>>, summaries: map<int, Summary>, hour: int,
                       headers: seq<BlockHeader>, blocks: seq<NewBlock>, now: int)
    requires StateValid(disk, cache, summaries) && hour in disk && WellFormed(blocks, now) && blocks != []
    requires FreshNames(disk[hour], headers, blocks) && Flatten(blocks) == PartitionEntries(disk[hour], headers)
    requires (hour in cache && headers == cache[hour]) || headers == LoadIndex(disk[hour])
    ensures Summarize(Headers(blocks)).Some?
    ensures var disk', cache', summaries' := disk[hour := Compacted(disk[hour], headers, blocks)], cache[hour := Headers(blocks)],
        summaries[hour := Summarize(Headers(blocks)).value];
      && StateValid(disk', cache', summaries') && OnlyHour(disk, cache, disk', cache', hour)
      && PartitionEntries(disk'[hour], ViewOf(disk', cache')[hour]) == PartitionEntries(disk[hour], headers)
      && (CoherentCache(disk, cache) ==> CoherentCache(disk', cache'))
      && (CurrentCache(disk, cache) ==> CurrentCache(disk', cache'))
      && (IntactState(disk, cache, summaries) && hour in cache && headers == cache[hour] && headers != [] ==>
            IntactState(disk', cache', summaries') && SameExtent(summaries, summaries', hour))
  {
    CompactionKeepsEntries(disk[hour], headers, blocks, now);
    CompactKeepsValid(disk, cache, summaries, hour, headers, blocks, now);
    if CoherentCache(disk, cache) { CompactKeepsCoherent(disk, cache, hour, headers, blocks, now); }
    if CurrentCache(disk, cache) { CompactKeepsCurrent(disk, cache, hour, headers, blocks, now); }
    if IntactState(disk, cache, summaries) && hour in cache && headers == cache[hour] && headers != [] {
      CompactKeepsIntact(disk, cache, summaries, hour, headers, blocks, now);
      CompactionKeepsSummary(disk, cache, summaries, hour, headers, blocks, now);
    }
  }

  lemma NothingCompacted(disk: Disk, cache: map<int, seq<BlockHeader>>, summaries: map<int, Summary>, hour: int)
    ensures OnlyHour(disk, cache, disk, cache, hour) && SameEntries(disk, cache, disk, cache, hour)
    ensures SameExtent(summaries, summaries, hour)
  {
  }

  /** From an intact state the headers of a query are the cached ones. */
  lemma FromView(disk: Disk, cache: map<int, seq<BlockHeader>>, summaries: map<int, Summary>, hour: int, headers: seq<BlockHeader>)
    requires IntactState(disk, cache, summaries) && hour in disk && headers != []
    ensures CoherentCache(disk, cache)
    ensures headers == ViewOf(disk, cache)[hour] ==> hour in cache && headers == cache[hour]
  {
    assert IntactAt(disk, cache, summaries, hour);
    IntactIsCurrent(disk, cache, summaries);
    CurrentIsCoherent(disk, cache);
  }

  /** Everything the loading of a partition's index keeps. */
  lemma LoadOutcome(disk: Disk, cache: map<int, seq<BlockHeader>>, summaries: map<int, Summary>, hour: int)
    requires StateValid(disk, cache, summaries) && hour in disk && hour !in cache && LoadIndex(disk[hour]) != []
    ensures var headers := LoadIndex(disk[hour]);
      && Summarize(headers).Some?
      && var cache', summaries' := cache[hour := headers], summaries[hour := Summarize(headers).value];
      && StateValid(disk, cache', summaries')
      && ViewOf(disk, cache') == ViewOf(disk, cache) && ViewOf(disk, cache')[hour] == headers
      && (CoherentCache(disk, cache) ==> CoherentCache(disk, cache'))
      && !CurrentCache(disk, cache) && OnlySummary(summaries, summaries', hour)
  {
    SummaryOfIndex(disk, cache, summaries, hour);
    assert !CurrentAt(disk, cache, hour);
  }

  // ---------------------------------------------------------------- opening

  ghost predicate ExactDisk(disk: Disk) {
    forall hour :: hour in disk ==> ExactIndex(disk[hour])
  }

  function LoadedCache(disk: Disk): map<int, seq<BlockHeader>> {
    map hour | hour in disk && LoadIndex(disk[hour]) != [] :: LoadIndex(disk[hour])
  }

  lemma SummarizeDefined(headers: seq<BlockHeader>)
    ensures Summarize(headers).Some? <==> headers != []
  {
  }

  function LoadedSummaries(disk: Disk): map<int, Summary> {
    map hour | hour in disk && Summarize(LoadIndex(disk[hour])).Some? :: Summarize(LoadIndex(disk[hour])).value
  }

  lemma OpenedIsValid(disk: Disk)
    requires forall hour, h :: hour in disk && h in LoadIndex(disk[hour]) ==> Sound(disk[hour], hour, h)
    ensures StateValid(disk, LoadedCache(disk), LoadedSummaries(disk))
  {
    var cache, summaries := LoadedCache(disk), LoadedSummaries(disk);
    forall hour, h | hour in disk && KnownHeader(disk, cache, hour, h) ensures HeaderOk(disk, summaries, hour, h) {
      SummarizeAll(LoadIndex(disk[hour]));
    }
  }

  lemma OpenedIsCurrent(disk: Disk)
    ensures CurrentCache(disk, LoadedCache(disk))
  {
    forall hour ensures CurrentAt(disk, LoadedCache(disk), hour) {}
  }

  lemma OpenedIsIntact(disk: Disk)
    requires StateValid(disk, LoadedCache(disk), LoadedSummaries(disk)) && ExactDisk(disk)
    ensures IntactState(disk, LoadedCache(disk), LoadedSummaries(disk))
  {
    OpenedIsCurrent(disk);
    forall hour ensures IntactAt(disk, LoadedCache(disk), LoadedSummaries(disk), hour) {
      assert CurrentAt(disk, LoadedCache(disk), hour);
      if hour in disk { SummarizeDefined(LoadIndex(disk[hour])); }
    }
  }

  // ---------------------------------------------------------------- what the index on disk names

  /** The headers the index files name, whatever is cached. */
  function IndexView(disk: Disk): map<int, seq<BlockHeader>> {
    map hour | hour in disk :: LoadIndex(disk[hour])
  }

  lemma {:induction false} ReverseMultiset<T>(s: seq<T>)
    ensures multiset(Reverse(s)) == multiset(s)
  {
    if s != [] {
      ReverseMultiset(s[1..]);
      assert s == [s[0]] + s[1..];
    }
  }

  /** With a coherent cache, what queries scan is what the index files name. */
  lemma {:induction false} ScanIsIndexed(disk: Disk, cache: map<int, seq<BlockHeader>>, hours: seq<int>)
    requires CoherentCache(disk, cache) && forall i :: 0 <= i < |hours| ==> hours[i] in disk
    ensures multiset(Scan(disk, ViewOf(disk, cache), hours)) == multiset(Scan(disk, IndexView(disk), hours))
  {
    if hours != [] {
      var hour, rest := hours[0], hours[1..];
      assert hour in disk && CoherentAt(disk, cache, hour);
      ScanIsIndexed(disk, cache, rest);
      var p, seen, named := disk[hour], ViewOf(disk, cache)[hour], LoadIndex(disk[hour]);
      PermutedEntries(p, seen, named);
      ReverseMultiset(PartitionEntries(p, seen));
      ReverseMultiset(PartitionEntries(p, named));
    }
  }

  lemma {:induction false} FilterCounts(s: seq<LogEntry>, q: Query, e: LogEntry)
    ensures multiset(Filter(s, q))[e] == if Matches(e, q) then multiset(s)[e] else 0
  {
    if s != [] {
      FilterCounts(s[1..], q, e);
      assert s == [s[0]] + s[1..];
    }
  }

  lemma FilterPermuted(a: seq<LogEntry>, b: seq<LogEntry>, q: Query)
    requires multiset(a) == multiset(b)
    ensures multiset(Filter(a, q)) == multiset(Filter(b, q))
  {
    forall e ensures multiset(Filter(a, q))[e] == multiset(Filter(b, q))[e] {
      FilterCounts(a, q, e);
      FilterCounts(b, q, e);
    }
  }

  /** All matches in the blocks that the index files name. */
  function StoredMatches(disk: Disk, hours: seq<int>, q: Query): multiset<LogEntry>
    requires forall i :: 0 <= i < |hours| ==> hours[i] in disk
  {
    multiset(Filter(Scan(disk, IndexView(disk), hours), q))
  }

  /** `answer` holds stored matches, all of them unless it is full. */
  predicate Answers(answer: seq<LogEntry>, stored: multiset<LogEntry>, limit: int) {
    && multiset(answer) <= stored && |answer| <= limit
    && (|answer| < limit ==> multiset(answer) == stored)
  }

  /** From a coherent cache, the naive answer holds the stored matches, all of them unless it is full. */
  lemma NaiveAnswersStored(disk: Disk, cache: map<int, seq<BlockHeader>>, hours: seq<int>, q: Query)
    requires CoherentCache(disk, cache) && q.limit >= 0 && forall i :: 0 <= i < |hours| ==> hours[i] in disk
    ensures Answers(NaiveQuery(disk, ViewOf(disk, cache), hours, q), StoredMatches(disk, hours, q), q.limit)
  {
    var scan := Scan(disk, ViewOf(disk, cache), hours);
    ScanIsIndexed(disk, cache, hours);
    FilterPermuted(scan, Scan(disk, IndexView(disk), hours), q);
    TakeSub(Filter(scan, q), q.limit);
  }

  lemma TakeSub<T>(s: seq<T>, n: nat)
    ensures multiset(Take(s, n)) <= multiset(s) && |Take(s, n)| <= n && (|Take(s, n)| < n ==> Take(s, n) == s)
  {
    if |s| > n { assert s == s[..n] + s[n..]; }
  }
}
