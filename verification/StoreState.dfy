/** The block store as values: what is on disk, cached and summarised, and what each operation keeps. */
module StoreState {
  import opened GoText
  import opened LogEntries
  import opened Blocks
  import opened StoreScan
  import opened Compaction
  import opened Retention
  import opened StorePartitions

  // ---------------------------------------------------------------- the store

  lemma LoadIndexAppend(p: Partition, h: BlockHeader, files: map<nat, seq<LogEntry>>)
    requires !NamesFile(p.legacy + p.index, h.fileName)
    ensures multiset(LoadIndex(Partition(p.index + [h], p.legacy, files))) == multiset(LoadIndex(p)) + multiset{h}
  {
    var before := p.legacy + p.index;
    AppendAssoc(p.legacy, p.index, h);
    DistinctSnoc(before, h);
    SortByMinMultiset(DistinctFiles(before));
    SortByMinMultiset(DistinctFiles(before + [h]));
  }

  lemma AppendAssoc<T>(a: seq<T>, b: seq<T>, x: T)
    ensures a + (b + [x]) == a + b + [x]
  {
  }

  lemma DistinctSnoc(headers: seq<BlockHeader>, h: BlockHeader)
    requires !NamesFile(headers, h.fileName)
    ensures DistinctFiles(headers + [h]) == DistinctFiles(headers) + [h]
  {
    assert (headers + [h])[..|headers|] == headers;
  }

  const EMPTY_PARTITION := Partition([], [], map[])

  function Appended(p: Partition, entries: seq<LogEntry>, header: BlockHeader): Partition {
    Partition(p.index + [header], p.legacy, p.files[header.fileName := entries])
  }

  /** One new block on disk, in the cached headers and in the summary. */
  function DiskWith(disk: Disk, hour: int, entries: seq<LogEntry>, header: BlockHeader): Disk {
    disk[hour := Appended(if hour in disk then disk[hour] else EMPTY_PARTITION, entries, header)]
  }

  function CacheWith(cache: map<int, seq<BlockHeader>>, hour: int, header: BlockHeader): map<int, seq<BlockHeader>> {
    cache[hour := (if hour in cache then cache[hour] else []) + [header]]
  }

  function SummariesWith(summaries: map<int, Summary>, hour: int, header: BlockHeader): map<int, Summary> {
    summaries[hour := AddBlock(if hour in summaries then Some(summaries[hour]) else None, header)]
  }

  /** Block names carry a generated id: not in use in the partition, on disk or in any header. */
  predicate FreshName(disk: Disk, cache: map<int, seq<BlockHeader>>, hour: int, name: nat) {
    && (hour in disk ==> name !in disk[hour].files && !NamesFile(disk[hour].legacy + disk[hour].index, name))
    && (hour in cache ==> !NamesFile(cache[hour], name))
  }

  /** The directory of an entry: the hour on the timestamp's own clock, or now if it has none. */
  function PartitionDir(e: LogEntry, now: int): int {
    if IsZero(e.timestamp) then HourOf(now) else HourOf(e.timestamp.nano + e.timestamp.zone)
  }

  predicate Bounded(q: Query) {
    !IsZero(q.startTime) && !IsZero(q.endTime)
  }

  /** Whatever partitions exist, the query looks in the one that holds the entry. */
  ghost predicate LookedFor(e: LogEntry, now: int, q: Query) {
    forall existing, hours :: CandidateDirs(hours, existing, q) && PartitionDir(e, now) in existing ==> PartitionDir(e, now) in hours
  }

  lemma LookedForIff(e: LogEntry, now: int, q: Query)
    ensures LookedFor(e, now, q) <==> LooksIn(PartitionDir(e, now), q)
  {
    var dir := PartitionDir(e, now);
    if !LooksIn(dir, q) {
      var none: seq<int> := [];
      assert CandidateDirs(none, {dir}, q);
      assert dir in {dir} && dir !in none;
    }
  }

  /** Every bounded query that an entry matches looks where the entry is stored if and only if its zone offset
      does not carry the instant across the edge of its UTC hour. */
  lemma OwnZoneHidesIff(e: LogEntry, now: int)
    requires Indexable(e.timestamp)
    ensures (forall q :: Bounded(q) && Matches(e, q) ==> LookedFor(e, now, q))
       <==> 0 <= e.timestamp.nano % HOUR + e.timestamp.zone < HOUR
  {
    var nano, dir := e.timestamp.nano, PartitionDir(e, now);
    HourBounds(nano);
    HourBounds(nano + e.timestamp.zone);
    if dir == HourOf(nano) {
      forall q | Bounded(q) && Matches(e, q) ensures LookedFor(e, now, q) {
        HourBounds(q.startTime.nano);
        HourBounds(q.endTime.nano);
        LookedForIff(e, now, q);
      }
    } else {
      var q := Query([], [], [], Time(nano, 0), Time(nano, 0), [], 1);
      LookedForIff(e, now, q);
      assert Bounded(q) && Matches(e, q);
    }
  }

  /** With a start or an end only, one more case is harmless: an instant on the hour that its zone carries
      into the hour before. */
  lemma OneBoundHidesIff(e: LogEntry, now: int)
    requires Indexable(e.timestamp)
    ensures (forall q :: !Bounded(q) && Matches(e, q) ==> LookedFor(e, now, q))
       <==> var past, zone := e.timestamp.nano % HOUR, e.timestamp.zone;
            0 <= past + zone < HOUR || (past == 0 && -HOUR <= zone < 0)
  {
    var nano, dir := e.timestamp.nano, PartitionDir(e, now);
    HourBounds(nano);
    HourBounds(nano + e.timestamp.zone);
    if dir * HOUR <= nano <= dir * HOUR + HOUR {
      forall q | !Bounded(q) && Matches(e, q) ensures LookedFor(e, now, q) { LookedForIff(e, now, q); }
    } else {
      var since := Query([], [], [], Time(nano, 0), ZERO_TIME, [], 1);
      var until := Query([], [], [], ZERO_TIME, Time(nano, 0), [], 1);
      LookedForIff(e, now, since);
      LookedForIff(e, now, until);
      assert !Bounded(since) && Matches(e, since) && !Bounded(until) && Matches(e, until);
    }
  }

  lemma FirstIsMember(hours: seq<int>)
    ensures hours == [] || hours[0] in hours
  {
  }

  /** Half past midnight, written in a zone one hour ahead: a query for that hour matches the entry and finds
      no partition to look in. */
  lemma ZoneHidesEntry()
    ensures var e := LogEntry([1], Time(HOUR / 2, HOUR), [2], [3], [], [4], map[]);
      var q := Query([], [], [], Time(1, 0), Time(HOUR - 1, 0), [], 1);
      Matches(e, q) && PartitionDir(e, 0) == 1 && forall hours :: CandidateDirs(hours, {PartitionDir(e, 0)}, q) ==> hours == []
  {
    var e := LogEntry([1], Time(HOUR / 2, HOUR), [2], [3], [], [4], map[]);
    var q := Query([], [], [], Time(1, 0), Time(HOUR - 1, 0), [], 1);
    forall hours | CandidateDirs(hours, {PartitionDir(e, 0)}, q) ensures hours == [] {
      FirstIsMember(hours);
    }
  }

  /** The entries of a batch that go to one partition, in order. */
  function Group(entries: seq<LogEntry>, hour: int, now: int): seq<LogEntry> {
    if entries == [] then []
    else if PartitionDir(entries[0], now) == hour then [entries[0]] + Group(entries[1..], hour, now)
    else Group(entries[1..], hour, now)
  }

  lemma {:induction false} GroupConcat(a: seq<LogEntry>, b: seq<LogEntry>, hour: int, now: int)
    ensures Group(a + b, hour, now) == Group(a, hour, now) + Group(b, hour, now)
  {
    if a == [] {
      assert a + b == b;
    } else {
      assert (a + b)[1..] == a[1..] + b;
      GroupConcat(a[1..], b, hour, now);
    }
  }

  lemma {:induction false} GroupMember(entries: seq<LogEntry>, hour: int, now: int, e: LogEntry)
    requires e in Group(entries, hour, now)
    ensures e in entries && PartitionDir(e, now) == hour
  {
    if !(PartitionDir(entries[0], now) == hour && e == entries[0]) {
      GroupMember(entries[1..], hour, now, e);
    }
  }

  predicate GroupAt(grouped: map<int, seq<LogEntry>>, entries: seq<LogEntry>, now: int, hour: int) {
    && Group(entries, hour, now) == (if hour in grouped then grouped[hour] else [])
    && (hour in grouped ==> grouped[hour] != [])
  }

  /** The grouping map holds every partition's entries. */
  ghost predicate GroupedBy(grouped: map<int, seq<LogEntry>>, entries: seq<LogEntry>, now: int) {
    forall hour :: GroupAt(grouped, entries, now, hour)
  }

  lemma GroupedStep(grouped: map<int, seq<LogEntry>>, entries: seq<LogEntry>, now: int, e: LogEntry)
    requires GroupedBy(grouped, entries, now)
    ensures var dir := PartitionDir(e, now);
      GroupedBy(grouped[dir := (if dir in grouped then grouped[dir] else []) + [e]], entries + [e], now)
  {
    var dir := PartitionDir(e, now);
    var grouped' := grouped[dir := (if dir in grouped then grouped[dir] else []) + [e]];
    forall hour ensures GroupAt(grouped', entries + [e], now, hour) {
      assert GroupAt(grouped, entries, now, hour);
      GroupConcat(entries, [e], hour, now);
      assert [e][1..] == [];
    }
  }

  /** `Append`'s first loop. */
  method GroupByHour(entries: seq<LogEntry>, now: int) returns (grouped: map<int, seq<LogEntry>>)
    ensures GroupedBy(grouped, entries, now)
  {
    grouped := map[];
    var i := 0;
    while i < |entries|
      invariant 0 <= i <= |entries| && GroupedBy(grouped, entries[..i], now)
    {
      var dir := PartitionDir(entries[i], now);
      GroupedStep(grouped, entries[..i], now, entries[i]);
      assert entries[..i + 1] == entries[..i] + [entries[i]];
      grouped := grouped[dir := (if dir in grouped then grouped[dir] else []) + [entries[i]]];
      i := i + 1;
    }
    assert entries[..i] == entries;
  }

  predicate SamePartition(before: Disk, after: Disk, hour: int) {
    (hour in before <==> hour in after) && (hour in before ==> after[hour] == before[hour])
  }

  /** The partition holds one new block with exactly the batch's entries of that hour. */
  predicate PartitionAfterAppend(before: Disk, after: Disk, hour: int, entries: seq<LogEntry>, names: int -> nat, sizes: int -> nat, now: int) {
    var g := Group(entries, hour, now);
    if g == [] then SamePartition(before, after, hour)
    else
      && hour in after
      && after[hour] == Appended(if hour in before then before[hour] else EMPTY_PARTITION, g,
                                 HeaderOf(g, names(hour), sizes(hour), now))
  }

  /** Groups no longer pending are written, the others are untouched. */
  predicate Written(before: Disk, after: Disk, hour: int, pending: set<int>, entries: seq<LogEntry>, names: int -> nat, sizes: int -> nat, now: int) {
    if hour in pending then SamePartition(before, after, hour)
    else PartitionAfterAppend(before, after, hour, entries, names, sizes, now)
  }

  ghost predicate AllWritten(start: Disk, disk: Disk, pending: set<int>, entries: seq<LogEntry>, names: int -> nat, sizes: int -> nat, now: int) {
    forall hour :: Written(start, disk, hour, pending, entries, names, sizes, now)
  }

  lemma NothingWritten(disk: Disk, grouped: map<int, seq<LogEntry>>, entries: seq<LogEntry>, names: int -> nat, sizes: int -> nat, now: int)
    requires GroupedBy(grouped, entries, now)
    ensures AllWritten(disk, disk, grouped.Keys, entries, names, sizes, now)
  {
    forall hour ensures Written(disk, disk, hour, grouped.Keys, entries, names, sizes, now) {
      assert GroupAt(grouped, entries, now, hour);
    }
  }

  lemma NothingToWrite(disk: Disk, entries: seq<LogEntry>, names: int -> nat, sizes: int -> nat, now: int)
    ensures AllWritten(disk, disk, HoursOf(entries, now), entries, names, sizes, now)
  {
    forall hour ensures Written(disk, disk, hour, HoursOf(entries, now), entries, names, sizes, now) {
      if Group(entries, hour, now) != [] { GroupMember(entries, hour, now, Group(entries, hour, now)[0]); }
    }
  }

  /** The names of the groups still to be written are fresh. */
  predicate AllFresh(disk: Disk, cache: map<int, seq<BlockHeader>>, pending: set<int>, names: int -> nat) {
    forall hour :: hour in pending ==> FreshName(disk, cache, hour, names(hour))
  }

  lemma FreshRest(disk: Disk, cache: map<int, seq<BlockHeader>>, hour: int, group: seq<LogEntry>, header: BlockHeader,
                  pending: set<int>, names: int -> nat)
    requires AllFresh(disk, cache, pending, names)
    ensures AllFresh(DiskWith(disk, hour, group, header), CacheWith(cache, hour, header), pending - {hour}, names)
  {
    var disk', cache' := DiskWith(disk, hour, group, header), CacheWith(cache, hour, header);
    forall x | x in pending - {hour} ensures FreshName(disk', cache', x, names(x)) {
      assert FreshName(disk, cache, x, names(x));
      assert (x in disk' <==> x in disk) && (x in cache' <==> x in cache);
    }
  }

  lemma {:induction false} GroupHolds(entries: seq<LogEntry>, now: int, e: LogEntry)
    requires e in entries
    ensures e in Group(entries, PartitionDir(e, now), now)
  {
    if entries[0] != e { GroupHolds(entries[1..], now, e); }
  }

  /** The partitions a batch goes to. */
  function HoursOf(entries: seq<LogEntry>, now: int): set<int> {
    set e | e in entries :: PartitionDir(e, now)
  }

  predicate AllWritable(entries: seq<LogEntry>, now: int, writable: int -> bool) {
    forall e :: e in entries ==> writable(PartitionDir(e, now))
  }

  lemma GroupedKeys(grouped: map<int, seq<LogEntry>>, entries: seq<LogEntry>, now: int)
    requires GroupedBy(grouped, entries, now)
    ensures grouped.Keys == HoursOf(entries, now)
  {
    forall hour ensures hour in grouped <==> hour in HoursOf(entries, now) {
      assert GroupAt(grouped, entries, now, hour);
      if hour in grouped {
        GroupMember(entries, hour, now, grouped[hour][0]);
      }
      if hour in HoursOf(entries, now) {
        var e :| e in entries && PartitionDir(e, now) == hour;
        GroupHolds(entries, now, e);
      }
    }
  }

  ghost function SumOver(hours: set<int>, sizes: int -> nat): nat {
    if hours == {} then 0
    else
      SomeMember(hours);
      var h :| h in hours;
      sizes(h) + SumOver(hours - {h}, sizes)
  }

  lemma {:induction false} SumOverRemove(hours: set<int>, sizes: int -> nat, h: int)
    requires h in hours
    ensures SumOver(hours, sizes) == sizes(h) + SumOver(hours - {h}, sizes)
  {
    var x :| x in hours && SumOver(hours, sizes) == sizes(x) + SumOver(hours - {x}, sizes);
    if x != h {
      SumOverRemove(hours - {x}, sizes, h);
      SumOverRemove(hours - {h}, sizes, x);
      assert hours - {x} - {h} == hours - {h} - {x};
    }
  }

  /** One more group is written. */
  lemma SumOverNext(groups: set<int>, pending: set<int>, sizes: int -> nat, hour: int)
    requires hour in pending && pending <= groups
    ensures SumOver(groups - (pending - {hour}), sizes) == SumOver(groups - pending, sizes) + sizes(hour)
  {
    SumOverRemove(groups - (pending - {hour}), sizes, hour);
    assert groups - (pending - {hour}) - {hour} == groups - pending;
  }

  lemma GroupBelongs(grouped: map<int, seq<LogEntry>>, entries: seq<LogEntry>, now: int, hour: int)
    requires GroupedBy(grouped, entries, now) && hour in grouped
    ensures grouped[hour] == Group(entries, hour, now) != []
    ensures forall e :: e in grouped[hour] ==> e in entries && PartitionDir(e, now) == hour
  {
    assert GroupAt(grouped, entries, now, hour);
    forall e | e in grouped[hour] ensures e in entries && PartitionDir(e, now) == hour {
      GroupMember(entries, hour, now, e);
    }
  }

  lemma WrittenNext(start: Disk, before: Disk, hour: int, pending: set<int>, entries: seq<LogEntry>, names: int -> nat, sizes: int -> nat, now: int)
    requires AllWritten(start, before, pending, entries, names, sizes, now)
    requires hour in pending && Group(entries, hour, now) != []
    ensures var g := Group(entries, hour, now);
      AllWritten(start, DiskWith(before, hour, g, HeaderOf(g, names(hour), sizes(hour), now)), pending - {hour}, entries, names, sizes, now)
  {
    var g := Group(entries, hour, now);
    var after := DiskWith(before, hour, g, HeaderOf(g, names(hour), sizes(hour), now));
    forall x ensures Written(start, after, x, pending - {hour}, entries, names, sizes, now) {
      assert Written(start, before, x, pending, entries, names, sizes, now);
      if x != hour { assert SamePartition(before, after, x); }
    }
  }

  lemma KnownAfterAppend(disk: Disk, cache: map<int, seq<BlockHeader>>, hour: int, entries: seq<LogEntry>, header: BlockHeader, h: BlockHeader)
    requires FreshName(disk, cache, hour, header.fileName)
    requires var p := if hour in disk then disk[hour] else EMPTY_PARTITION;
      (hour in cache && h in cache[hour]) || h == header || h in LoadIndex(Appended(p, entries, header))
    ensures h == header || (h.fileName != header.fileName && ((hour in cache && h in cache[hour]) || (hour in disk && h in LoadIndex(disk[hour]))))
  {
    var p := if hour in disk then disk[hour] else EMPTY_PARTITION;
    LoadIndexAppend(p, header, p.files[header.fileName := entries]);
    var now := LoadIndex(Appended(p, entries, header));
    assert h in now ==> h in multiset(now);
    assert h in multiset(LoadIndex(p)) ==> h in LoadIndex(p);
    if h != header {
      if hour in cache && h in cache[hour] {
        var i :| 0 <= i < |cache[hour]| && cache[hour][i] == h;
        assert cache[hour][i].fileName == h.fileName;
      } else {
        LoadIndexMembers(p, h);
        var all := p.legacy + p.index;
        assert h in all;
        var i :| 0 <= i < |all| && all[i] == h;
        assert all[i].fileName == h.fileName;
      }
    }
  }

  lemma CoherentAfterAppend(disk: Disk, cache: map<int, seq<BlockHeader>>, hour: int, header: BlockHeader, now: seq<BlockHeader>)
    requires hour in cache && hour in disk ==> multiset(cache[hour]) == multiset(LoadIndex(disk[hour]))
    requires hour in cache ==> hour in disk
    requires var p := if hour in disk then disk[hour] else EMPTY_PARTITION;
      multiset(now) == multiset(LoadIndex(p)) + multiset{header}
    ensures multiset((if hour in cache then cache[hour] else []) + [header]) == multiset(now)
      <==> hour in cache || hour !in disk || LoadIndex(disk[hour]) == []
  {
    var p := if hour in disk then disk[hour] else EMPTY_PARTITION;
    var mine := (if hour in cache then cache[hour] else []) + [header];
    assert LoadIndex(EMPTY_PARTITION) == [] by {
      assert EMPTY_PARTITION.legacy + EMPTY_PARTITION.index == [];
    }
    if hour !in cache {
      assert mine == [header];
      assert |multiset(now)| == |LoadIndex(p)| + 1;
      assert |multiset(mine)| == 1;
    }
  }

  /** `hours` lists every partition, newest first. */
  predicate AllHours(hours: seq<int>, disk: Disk) {
    && HoursDescend(hours)
    && (forall i :: 0 <= i < |hours| ==> hours[i] in disk)
    && disk.Keys <= set h | h in hours
  }

  /** Headers the store may ever consult for a partition: the cached ones and those on disk. */
  predicate KnownHeader(disk: Disk, cache: map<int, seq<BlockHeader>>, hour: int, h: BlockHeader)
    requires hour in disk
  {
    (hour in cache && h in cache[hour]) || h in LoadIndex(disk[hour])
  }

  /** A header describes its block, and the partition's summary covers it. */
  predicate HeaderOk(disk: Disk, summaries: map<int, Summary>, hour: int, h: BlockHeader)
    requires hour in disk
  {
    Sound(disk[hour], hour, h) && hour in summaries && SummaryCovers(summaries[hour], h)
  }

  ghost predicate StateValid(disk: Disk, cache: map<int, seq<BlockHeader>>, summaries: map<int, Summary>) {
    && cache.Keys <= disk.Keys
    && forall hour, h :: hour in disk && KnownHeader(disk, cache, hour, h) ==> HeaderOk(disk, summaries, hour, h)
  }

  /** The header list that queries use: the cached one, else the one on disk. */
  function ViewOf(disk: Disk, cache: map<int, seq<BlockHeader>>): map<int, seq<BlockHeader>> {
    map hour | hour in disk :: if hour in cache then cache[hour] else LoadIndex(disk[hour])
  }

  predicate CoherentAt(disk: Disk, cache: map<int, seq<BlockHeader>>, hour: int) {
    hour in cache && hour in disk ==> multiset(cache[hour]) == multiset(LoadIndex(disk[hour]))
  }

  /** The cache agrees with the index on disk. */
  ghost predicate CoherentCache(disk: Disk, cache: map<int, seq<BlockHeader>>) {
    forall hour :: CoherentAt(disk, cache, hour)
  }

  lemma SummaryOfIndex(disk: Disk, cache: map<int, seq<BlockHeader>>, summaries: map<int, Summary>, hour: int)
    requires StateValid(disk, cache, summaries) && hour in disk && hour !in cache && LoadIndex(disk[hour]) != []
    ensures var headers := LoadIndex(disk[hour]);
      && Summarize(headers).Some?
      && StateValid(disk, cache[hour := headers], summaries[hour := Summarize(headers).value])
      && (CoherentCache(disk, cache) ==> CoherentCache(disk, cache[hour := headers]))
  {
    var headers := LoadIndex(disk[hour]);
    SummarizeAll(headers);
    var cache', summaries' := cache[hour := headers], summaries[hour := Summarize(headers).value];
    forall x, h | x in disk && KnownHeader(disk, cache', x, h) ensures HeaderOk(disk, summaries', x, h) {
      assert KnownHeader(disk, cache, x, h);
      assert HeaderOk(disk, summaries, x, h);
    }
    if CoherentCache(disk, cache) {
      forall x ensures CoherentAt(disk, cache', x) { assert CoherentAt(disk, cache, x); }
    }
  }

  /** Appending keeps cache and index in agreement exactly when the partition was cached or had no index. */
  lemma CoherenceAfterAppend(disk: Disk, cache: map<int, seq<BlockHeader>>, hour: int, entries: seq<LogEntry>, header: BlockHeader)
    requires cache.Keys <= disk.Keys && FreshName(disk, cache, hour, header.fileName)
    ensures CoherentCache(disk, cache) ==>
      (CoherentCache(DiskWith(disk, hour, entries, header), CacheWith(cache, hour, header))
       <==> hour in cache || hour !in disk || LoadIndex(disk[hour]) == [])
  {
    var p := if hour in disk then disk[hour] else EMPTY_PARTITION;
    var disk' := disk[hour := Appended(p, entries, header)];
    var cache' := cache[hour := (if hour in cache then cache[hour] else []) + [header]];
    if CoherentCache(disk, cache) {
      LoadIndexAppend(p, header, p.files[header.fileName := entries]);
      assert CoherentAt(disk, cache, hour);
      CoherentAfterAppend(disk, cache, hour, header, LoadIndex(disk'[hour]));
      forall x | x != hour ensures CoherentAt(disk', cache', x) { assert CoherentAt(disk, cache, x); }
      assert CoherentAt(disk', cache', hour) <==> hour in cache || hour !in disk || LoadIndex(disk[hour]) == [];
    }
  }

  /** Nothing changed outside one partition. */
  predicate OnlyHour(disk: Disk, cache: map<int, seq<BlockHeader>>, disk': Disk, cache': map<int, seq<BlockHeader>>, hour: int) {
    && disk'.Keys == disk.Keys
    && (disk' == disk || (hour in disk' && disk' == disk[hour := disk'[hour]]))
    && (cache' == cache || (hour in cache' && cache' == cache[hour := cache'[hour]]))
  }

  /** One partition holds the same entries, in the same order. */
  predicate SameEntries(disk: Disk, cache: map<int, seq<BlockHeader>>, disk': Disk, cache': map<int, seq<BlockHeader>>, hour: int) {
    hour in disk && hour in disk' ==>
      PartitionEntries(disk'[hour], ViewOf(disk', cache')[hour]) == PartitionEntries(disk[hour], ViewOf(disk, cache)[hour])
  }

  /** After a compaction every query with every limit returns the identical sequence. */
  lemma CompactionKeepsAnswers(disk: Disk, cache: map<int, seq<BlockHeader>>, disk': Disk, cache': map<int, seq<BlockHeader>>,
                               hour: int, hours: seq<int>)
    requires OnlyHour(disk, cache, disk', cache', hour) && SameEntries(disk, cache, disk', cache', hour)
    requires forall i :: 0 <= i < |hours| ==> hours[i] in disk
    ensures forall i :: 0 <= i < |hours| ==> hours[i] in disk'
    ensures forall q: Query :: q.limit >= 0 ==>
      NaiveQuery(disk', ViewOf(disk', cache'), hours, q) == NaiveQuery(disk, ViewOf(disk, cache), hours, q)
  {
    forall i | 0 <= i < |hours| ensures hours[i] in disk' {
      assert hours[i] in disk.Keys;
    }
    SameEntriesSameAnswers(disk, ViewOf(disk, cache), disk', ViewOf(disk', cache'), hours);
  }

  function Count(flags: seq<bool>): nat {
    if flags == [] then 0 else Count(flags[..|flags| - 1]) + if flags[|flags| - 1] then 1 else 0
  }

  lemma {:induction false} CountsTrue(flags: seq<bool>)
    ensures Count(flags) == multiset(flags)[true]
  {
    if flags != [] {
      var n := |flags| - 1;
      CountsTrue(flags[..n]);
      assert flags == flags[..n] + [flags[n]];
    }
  }

  lemma CountAppend(flags: seq<bool>)
    ensures Count(flags + [true]) == Count(flags) + 1 && Count(flags + [false]) == Count(flags)
  {
    assert (flags + [true])[..|flags|] == flags && (flags + [false])[..|flags|] == flags;
  }

  /** Indexes are left as they are when block files go. */
  predicate SameIndexes(before: Disk, after: Disk) {
    && after.Keys == before.Keys
    && forall hour :: hour in before ==> SameIndex(before[hour], after[hour])
  }

  predicate SameIndex(before: Partition, after: Partition) {
    after == before.(files := after.files) && after.files.Keys <= before.files.Keys
  }

  function WithoutFile(disk: Disk, hour: int, name: nat): Disk {
    if hour in disk then disk[hour := disk[hour].(files := disk[hour].files - {name})] else disk
  }

  /** The disk without the files marked as deleted. */
  function Purged(disk: Disk, files: seq<DataFile>, deleted: seq<bool>): Disk
    requires |deleted| == |files|
  {
    if files == [] then disk
    else
      var n := |files| - 1;
      var before := Purged(disk, files[..n], deleted[..n]);
      if deleted[n] then WithoutFile(before, files[n].hour, files[n].name) else before
  }

  /** One round of the deletion loop. */
  lemma DeletionStep(before: Disk, files: seq<DataFile>, i: nat, total: int, maxSizeBytes: int)
    requires i < |files|
    ensures var s, t, f := PruneAll(files[..i], total, maxSizeBytes), PruneAll(files[..i + 1], total, maxSizeBytes), files[i];
      var goes := (f.expired || (maxSizeBytes > 0 && s.totalBytes - s.freed > maxSizeBytes)) && f.removable;
      && t.totalBytes == s.totalBytes - (if goes then f.size else 0)
      && t.freed == s.freed + (if goes then f.size else 0)
      && Count(t.deleted) == Count(s.deleted) + (if goes then 1 else 0)
      && Purged(before, files[..i + 1], t.deleted)
         == if goes then WithoutFile(Purged(before, files[..i], s.deleted), f.hour, f.name) else Purged(before, files[..i], s.deleted)
  {
    var s := PruneAll(files[..i], total, maxSizeBytes);
    PruneNext(files, i, total, maxSizeBytes);
    CountAppend(s.deleted);
    assert files[..i + 1][..i] == files[..i] && (s.deleted + [true])[..i] == s.deleted && (s.deleted + [false])[..i] == s.deleted;
  }

  /** Deleting files leaves the indexes alone, and deleting none leaves everything alone. */
  lemma {:induction false} PurgedKeepsIndexes(disk: Disk, files: seq<DataFile>, deleted: seq<bool>)
    requires |deleted| == |files|
    ensures SameIndexes(disk, Purged(disk, files, deleted))
    ensures Count(deleted) == 0 ==> Purged(disk, files, deleted) == disk
  {
    if files != [] {
      var n := |files| - 1;
      PurgedKeepsIndexes(disk, files[..n], deleted[..n]);
    }
  }

  /** The deletion loop of `Prune`. */
  method DeletionLoop(before: Disk, files: seq<DataFile>, total: int, maxSizeBytes: int)
    returns (disk: Disk, totalBytes: int, deleted: nat, freed: nat)
    ensures Deleting(before, files, total, maxSizeBytes, disk, totalBytes, deleted, freed)
  {
    disk, totalBytes, deleted, freed := before, total, 0, 0;
    for i := 0 to |files|
      invariant Deleting(before, files[..i], total, maxSizeBytes, disk, totalBytes, deleted, freed)
    {
      DeletionStep(before, files, i, total, maxSizeBytes);
      var f := files[i];
      if (f.expired || (maxSizeBytes > 0 && totalBytes - freed > maxSizeBytes)) && f.removable {
        disk := WithoutFile(disk, f.hour, f.name);
        deleted, freed := deleted + 1, freed + f.size;
        totalBytes := totalBytes - f.size;
      }
    }
    assert files[..|files|] == files;
  }

  predicate Deleting(before: Disk, files: seq<DataFile>, total: int, maxSizeBytes: int,
                     disk: Disk, totalBytes: int, deleted: nat, freed: nat) {
    var r := PruneAll(files, total, maxSizeBytes);
    freed == r.freed && deleted == Count(r.deleted) && totalBytes == r.totalBytes && disk == Purged(before, files, r.deleted)
  }

  predicate HasFile(disk: Disk, hour: int, name: nat) {
    hour in disk && name in disk[hour].files
  }

  predicate Lists(files: seq<DataFile>, hour: int, name: nat) {
    exists i :: 0 <= i < |files| && files[i].hour == hour && files[i].name == name
  }

  /** The list `Prune` works through: every data file on disk, the partitions in order of their paths. */
  ghost predicate DataFiles(files: seq<DataFile>, disk: Disk) {
    && (forall hour, name :: HasFile(disk, hour, name) ==> Lists(files, hour, name))
    && (forall i, j :: 0 <= i < j < |files| ==> files[i].hour <= files[j].hour)
  }

  /** A file is gone if and only if it was marked. */
  lemma {:induction false} PurgedHolds(disk: Disk, files: seq<DataFile>, deleted: seq<bool>, hour: int, name: nat)
    requires |deleted| == |files|
    ensures HasFile(Purged(disk, files, deleted), hour, name) <==>
      HasFile(disk, hour, name) && forall i :: 0 <= i < |files| && deleted[i] ==> !(files[i].hour == hour && files[i].name == name)
  {
    if files != [] {
      var n := |files| - 1;
      PurgedHolds(disk, files[..n], deleted[..n], hour, name);
      assert forall i :: 0 <= i < n ==> files[..n][i] == files[i] && deleted[..n][i] == deleted[i];
    }
  }

  /** Budget-only pruning takes the oldest partitions first: while a file of an hour is left, no file of a
      later hour goes. */
  lemma OldestHoursFirst(disk: Disk, files: seq<DataFile>, total: int, budget: nat, hour: int, name: nat, later: int, name': nat)
    requires DataFiles(files, disk) && BudgetOnly(files) && budget > 0 && hour < later && HasFile(disk, later, name')
    requires HasFile(Purged(disk, files, PruneAll(files, total, budget).deleted), hour, name)
    ensures HasFile(Purged(disk, files, PruneAll(files, total, budget).deleted), later, name')
  {
    var deleted := PruneAll(files, total, budget).deleted;
    var k := PrunesShortestPrefix(files, total, budget);
    PurgedHolds(disk, files, deleted, hour, name);
    PurgedHolds(disk, files, deleted, later, name');
    assert Lists(files, hour, name);
    var i :| 0 <= i < |files| && files[i].hour == hour && files[i].name == name;
    assert !deleted[i] && k <= i;
  }

  /** Partitions that still hold data. */
  function WithData(disk: Disk): Disk {
    map hour | hour in disk && disk[hour].files != map[] :: disk[hour]
  }

  /** A partition is kept, as it is, if and only if a data file is left in it. */
  lemma KeptIffData(disk: Disk, hour: int)
    ensures hour in WithData(disk) <==> exists name :: HasFile(disk, hour, name)
    ensures hour in WithData(disk) ==> WithData(disk)[hour] == disk[hour]
  {
    if hour in disk && disk[hour].files != map[] {
      assert disk[hour].files.Keys != {};
      var name :| name in disk[hour].files.Keys;
      assert HasFile(disk, hour, name);
    }
  }

  lemma RemoveKeepsValid(disk: Disk, cache: map<int, seq<BlockHeader>>, summaries: map<int, Summary>, hour: int, name: nat)
    requires StateValid(disk, cache, summaries)
    ensures StateValid(WithoutFile(disk, hour, name), cache, summaries)
  {
    var disk' := WithoutFile(disk, hour, name);
    forall x, h | x in disk' && KnownHeader(disk', cache, x, h) ensures HeaderOk(disk', summaries, x, h) {
      assert KnownHeader(disk, cache, x, h);
      assert HeaderOk(disk, summaries, x, h);
    }
  }

  lemma {:induction false} PurgedKeepsValid(disk: Disk, cache: map<int, seq<BlockHeader>>, summaries: map<int, Summary>,
                                            files: seq<DataFile>, deleted: seq<bool>)
    requires |deleted| == |files| && StateValid(disk, cache, summaries)
    ensures StateValid(Purged(disk, files, deleted), cache, summaries)
  {
    if files != [] {
      var n := |files| - 1;
      PurgedKeepsValid(disk, cache, summaries, files[..n], deleted[..n]);
      RemoveKeepsValid(Purged(disk, files[..n], deleted[..n]), cache, summaries, files[n].hour, files[n].name);
    }
  }

  lemma LoadedIsKnown(disk: Disk, cache: map<int, seq<BlockHeader>>, hour: int, h: BlockHeader)
    requires hour in disk && h in LoadIndex(disk[hour])
    ensures KnownHeader(disk, cache, hour, h)
  {
  }

  /** A partition whose index names at least two blocks. */
  predicate LongIndex(disk: Disk, hour: int) {
    hour in disk && |disk[hour].index| >= 2 && disk[hour].legacy == [] && NamesOnce(disk[hour].index)
  }

  /** Without a legacy index, loading permutes the index. */
  lemma ForgottenLegacy(p: Partition)
    requires p.legacy == [] && NamesOnce(p.index)
    ensures multiset(LoadIndex(p)) == multiset(p.index)
  {
    EmptyPrefix(p.index);
    DistinctFilesIdentity(p.index);
    SortByMinMultiset(p.index);
  }

  lemma EmptyPrefix<T>(s: seq<T>)
    ensures [] + s == s
  {
  }

  lemma DistinctHeaders(blocks: seq<NewBlock>, now: int)
    requires WellFormed(blocks, now)
    ensures NamesOnce(Headers(blocks))
  {
  }

  lemma ForgottenIndex(p: Partition)
    requires p.legacy == [] && NamesOnce(p.index)
    ensures |multiset(LoadIndex(p))| == |p.index|
  {
    ForgottenLegacy(p);
  }

  function TotalBytes(headers: seq<BlockHeader>): nat {
    if headers == [] then 0 else headers[0].compressedBytes + TotalBytes(headers[1..])
  }

  /** The headers a compaction works on: the cached ones if there are at least two, else those on disk. */
  function ToCompact(disk: Disk, cache: map<int, seq<BlockHeader>>, hour: int): seq<BlockHeader>
    requires hour in disk
  {
    if hour in cache && |cache[hour]| >= 2 then cache[hour] else LoadIndex(disk[hour])
  }

  predicate Readable(p: Partition, headers: seq<BlockHeader>) {
    forall i :: 0 <= i < |headers| ==> headers[i].fileName in p.files
  }

  /** There are blocks to merge: at least two, all readable, and not all empty. */
  predicate Mergeable(disk: Disk, cache: map<int, seq<BlockHeader>>, hour: int) {
    && hour in disk && |ToCompact(disk, cache, hour)| >= 2 && Readable(disk[hour], ToCompact(disk, cache, hour))
    && PartitionEntries(disk[hour], ToCompact(disk, cache, hour)) != []
  }

  /** `count` blocks of at most `max` entries are needed for `n` entries, and no fewer do. */
  predicate Needed(count: nat, n: nat, max: nat) {
    (count - 1) * max < n <= count * max
  }

  /** What a compaction leaves: as few blocks as hold the entries, all full but the last, none of the old files,
      and the counts of what it saved. */
  predicate MergedTo(before: Disk, cache: map<int, seq<BlockHeader>>, after: Disk, cache': map<int, seq<BlockHeader>>, hour: int,
                   max: nat, reduced: int, freed: int)
    requires hour in before
  {
    var headers := ToCompact(before, cache, hour);
    && hour in after && hour in cache' && cache'[hour] == after[hour].index && after[hour].legacy == []
    && MergedInto(headers, after[hour], |PartitionEntries(before[hour], headers)|, max)
    && reduced == |headers| - |after[hour].index| && freed == TotalBytes(headers) - TotalBytes(after[hour].index)
  }

  predicate MergedInto(headers: seq<BlockHeader>, p: Partition, n: nat, max: nat) {
    && Needed(|p.index|, n, max)
    && (forall i :: 0 <= i < |p.index| - 1 ==> |BlockEntries(p, p.index[i])| == max)
    && (forall i :: 0 <= i < |headers| ==> headers[i].fileName !in p.files)
  }

  lemma {:induction false} FullBlocks(blocks: seq<NewBlock>, max: nat)
    requires forall i :: 0 <= i < |blocks| ==> |blocks[i].entries| == max
    ensures |Flatten(blocks)| == |blocks| * max
  {
    if blocks != [] {
      var n := |blocks| - 1;
      FullBlocks(blocks[..n], max);
      assert |blocks| * max == n * max + max;
    }
  }

  lemma ChunksNeeded(blocks: seq<NewBlock>, now: int, max: nat)
    requires WellFormed(blocks, now) && Chunked(blocks, max) && blocks != []
    ensures Needed(|blocks|, |Flatten(blocks)|, max)
  {
    var n := |blocks| - 1;
    FullBlocks(blocks[..n], max);
    assert Described(blocks[n], now);
    assert |blocks| * max == n * max + max;
  }

  lemma ChunksMerge(p: Partition, headers: seq<BlockHeader>, blocks: seq<NewBlock>, now: int, max: nat)
    requires WellFormed(blocks, now) && Chunked(blocks, max) && blocks != [] && FreshNames(p, headers, blocks)
    ensures MergedInto(headers, Compacted(p, headers, blocks), |Flatten(blocks)|, max)
  {
    var q := Compacted(p, headers, blocks);
    ChunksNeeded(blocks, now, max);
    forall i | 0 <= i < |blocks| ensures BlockEntries(q, q.index[i]) == blocks[i].entries { NewFilesHold(blocks, now, i); }
    forall i | 0 <= i < |headers| ensures headers[i].fileName !in q.files {
      assert headers[i].fileName in FileNames(headers);
    }
  }

  /** Reads every named block, or reports that one is missing. */
  method ReadAll(p: Partition, headers: seq<BlockHeader>) returns (ok: bool, all: seq<LogEntry>)
    ensures ok <==> Readable(p, headers)
    ensures ok ==> all == PartitionEntries(p, headers)
  {
    all := [];
    var i := 0;
    while i < |headers|
      invariant 0 <= i <= |headers| && all == PartitionEntries(p, headers[..i])
      invariant forall k :: 0 <= k < i ==> headers[k].fileName in p.files
    {
      if headers[i].fileName !in p.files { return false, []; }
      assert headers[..i + 1] == headers[..i] + [headers[i]];
      PartitionConcat(p, headers[..i], [headers[i]]);
      OneBlock(p, headers[i]);
      all := all + p.files[headers[i].fileName];
      i := i + 1;
    }
    assert headers[..i] == headers;
    ok := true;
  }

  lemma FreshChunks(disk: Disk, cache: map<int, seq<BlockHeader>>, hour: int, headers: seq<BlockHeader>, blocks: seq<NewBlock>, names: nat -> nat)
    requires hour in disk && NamedBy(blocks, names) && forall i: nat :: FreshName(disk, cache, hour, names(i))
    requires (hour in cache && headers == cache[hour]) || headers == LoadIndex(disk[hour])
    ensures FreshNames(disk[hour], headers, blocks)
  {
    forall i | 0 <= i < |blocks| ensures blocks[i].header.fileName !in disk[hour].files && blocks[i].header.fileName !in FileNames(headers) {
      assert FreshName(disk, cache, hour, names(i));
      forall k | 0 <= k < |headers| ensures headers[k].fileName != names(i) {
        if !(hour in cache && headers == cache[hour]) {
          LoadIndexMembers(disk[hour], headers[k]);
          var all := disk[hour].legacy + disk[hour].index;
          assert headers[k] in all;
          var m :| 0 <= m < |all| && all[m] == headers[k];
          assert all[m].fileName == headers[k].fileName;
        }
      }
    }
  }

  lemma HeadersMember(blocks: seq<NewBlock>, h: BlockHeader)
    requires h in Headers(blocks)
    ensures exists i :: 0 <= i < |blocks| && blocks[i].header == h
  {
    var i :| 0 <= i < |Headers(blocks)| && Headers(blocks)[i] == h;
    assert blocks[i].header == h;
  }

  lemma {:induction false} FlattenMember(blocks: seq<NewBlock>, i: nat, e: LogEntry)
    requires i < |blocks| && e in blocks[i].entries
    ensures e in Flatten(blocks)
  {
    if i < |blocks| - 1 { FlattenMember(blocks[..|blocks| - 1], i, e); }
  }

  /** The index written by compaction loads as the new headers. */
  lemma CompactedIndex(p: Partition, headers: seq<BlockHeader>, blocks: seq<NewBlock>, now: int)
    requires WellFormed(blocks, now)
    ensures multiset(LoadIndex(Compacted(p, headers, blocks))) == multiset(Headers(blocks))
  {
    DistinctHeaders(blocks, now);
    ForgottenLegacy(Compacted(p, headers, blocks));
  }

  /** Compaction keeps the metadata valid and the cache in agreement with the index. */
  lemma CompactKeepsValid(disk: Disk, cache: map<int, seq<BlockHeader>>, summaries: map<int, Summary>, hour: int,
                          headers: seq<BlockHeader>, blocks: seq<NewBlock>, now: int)
    requires StateValid(disk, cache, summaries) && hour in disk && WellFormed(blocks, now) && blocks != []
    requires FreshNames(disk[hour], headers, blocks) && Flatten(blocks) == PartitionEntries(disk[hour], headers)
    requires (hour in cache && headers == cache[hour]) || headers == LoadIndex(disk[hour])
    ensures Summarize(Headers(blocks)).Some?
    ensures StateValid(disk[hour := Compacted(disk[hour], headers, blocks)], cache[hour := Headers(blocks)],
                       summaries[hour := Summarize(Headers(blocks)).value])
  {
    var p := Compacted(disk[hour], headers, blocks);
    SummarizeAll(Headers(blocks));
    var disk', cache', summaries' :=
      disk[hour := p], cache[hour := Headers(blocks)], summaries[hour := Summarize(Headers(blocks)).value];
    CompactedIndex(disk[hour], headers, blocks, now);
    forall x, h | x in disk' && KnownHeader(disk', cache', x, h) ensures HeaderOk(disk', summaries', x, h) {
      if x != hour {
        assert KnownHeader(disk, cache, x, h);
        assert HeaderOk(disk, summaries, x, h);
      } else {
        assert h in LoadIndex(p) ==> h in multiset(LoadIndex(p));
        assert h in Headers(blocks);
        HeadersMember(blocks, h);
        var i :| 0 <= i < |blocks| && blocks[i].header == h;
        CompactedBlockSound(disk, cache, summaries, hour, headers, blocks, now, i);
      }
    }
  }

  lemma CompactKeepsCoherent(disk: Disk, cache: map<int, seq<BlockHeader>>, hour: int, headers: seq<BlockHeader>,
                             blocks: seq<NewBlock>, now: int)
    requires hour in disk && WellFormed(blocks, now) && CoherentCache(disk, cache)
    ensures CoherentCache(disk[hour := Compacted(disk[hour], headers, blocks)], cache[hour := Headers(blocks)])
  {
    var disk', cache' := disk[hour := Compacted(disk[hour], headers, blocks)], cache[hour := Headers(blocks)];
    CompactedIndex(disk[hour], headers, blocks, now);
    forall x ensures CoherentAt(disk', cache', x) { assert CoherentAt(disk, cache, x); }
  }

  /** From a coherent cache a compaction of the headers a query uses rewrites what the index names. */
  lemma PlanRewrites(disk: Disk, cache: map<int, seq<BlockHeader>>, hour: int, headers: seq<BlockHeader>, blocks: seq<NewBlock>, now: int)
    requires hour in disk && CoherentCache(disk, cache) && headers == ViewOf(disk, cache)[hour]
    requires WellFormed(blocks, now) && FreshNames(disk[hour], headers, blocks)
    requires Flatten(blocks) == PartitionEntries(disk[hour], headers)
    ensures Rewrites(disk[hour], headers, blocks, now)
  {
    assert CoherentAt(disk, cache, hour);
  }

  lemma CompactedBlockSound(disk: Disk, cache: map<int, seq<BlockHeader>>, summaries: map<int, Summary>, hour: int,
                            headers: seq<BlockHeader>, blocks: seq<NewBlock>, now: int, i: nat)
    requires StateValid(disk, cache, summaries) && hour in disk && WellFormed(blocks, now) && i < |blocks|
    requires FreshNames(disk[hour], headers, blocks) && Flatten(blocks) == PartitionEntries(disk[hour], headers)
    requires (hour in cache && headers == cache[hour]) || headers == LoadIndex(disk[hour])
    ensures Sound(Compacted(disk[hour], headers, blocks), hour, blocks[i].header)
  {
    var entries, h := blocks[i].entries, blocks[i].header;
    NewFilesHold(blocks, now, i);
    forall e | e in entries ensures InPlace(e, hour) {
      FlattenMember(blocks, i, e);
      var g := PartitionMember(disk[hour], headers, e);
      assert KnownHeader(disk, cache, hour, g) && HeaderOk(disk, summaries, hour, g);
    }
    NewHeaderSound(entries, hour, h.fileName, h.compressedBytes, now);
  }

  /** One more block keeps the metadata valid. */
  lemma AppendKeepsValid(disk: Disk, cache: map<int, seq<BlockHeader>>, summaries: map<int, Summary>, hour: int,
                         entries: seq<LogEntry>, fileName: nat, size: nat, now: int)
    requires StateValid(disk, cache, summaries) && FreshName(disk, cache, hour, fileName)
    requires forall e :: e in entries ==> InPlace(e, hour)
    ensures var header := HeaderOf(entries, fileName, size, now);
      StateValid(DiskWith(disk, hour, entries, header), CacheWith(cache, hour, header), SummariesWith(summaries, hour, header))
  {
    var header := HeaderOf(entries, fileName, size, now);
    var p := if hour in disk then disk[hour] else EMPTY_PARTITION;
    var before := if hour in summaries then Some(summaries[hour]) else None;
    var disk', cache', summaries' :=
      disk[hour := Appended(p, entries, header)],
      cache[hour := (if hour in cache then cache[hour] else []) + [header]],
      summaries[hour := AddBlock(before, header)];
    AddBlockCovers(before, header);
    forall x, h | x in disk' && KnownHeader(disk', cache', x, h) ensures HeaderOk(disk', summaries', x, h) {
      if x != hour {
        assert KnownHeader(disk, cache, x, h);
        assert HeaderOk(disk, summaries, x, h);
      } else {
        KnownAfterAppend(disk, cache, hour, entries, header, h);
        if h == header {
          NewHeaderSound(entries, hour, fileName, size, now);
        } else {
          assert KnownHeader(disk, cache, hour, h);
          assert HeaderOk(disk, summaries, hour, h);
        }
      }
    }
  }

  lemma NewHeaderSound(entries: seq<LogEntry>, hour: int, fileName: nat, size: nat, now: int)
    requires forall e :: e in entries ==> InPlace(e, hour)
    ensures forall e :: e in entries ==> CoversEntry(HeaderOf(entries, fileName, size, now), e)
  {
    forall e | e in entries ensures CoversEntry(HeaderOf(entries, fileName, size, now), e) {
      var i :| 0 <= i < |entries| && entries[i] == e;
      HeaderCovers(entries, fileName, size, now, i);
    }
  }

  /** The partitions from the `k`-th on are summarised with the query's spelling. */
  predicate SpelledFrom(summaries: map<int, Summary>, dirs: seq<int>, k: nat, q: Query) {
    forall j :: k <= j < |dirs| && dirs[j] in summaries ==> SpelledAsStored(summaries[dirs[j]], q)
  }

  /** No summary changed but that of one partition. */
  predicate OnlySummary(before: map<int, Summary>, after: map<int, Summary>, hour: int) {
    after - {hour} == before - {hour}
  }

  lemma SpelledRest(before: map<int, Summary>, after: map<int, Summary>, dirs: seq<int>, k: nat, q: Query)
    requires k < |dirs| && HoursDescend(dirs) && SpelledFrom(before, dirs, k, q)
    requires OnlySummary(before, after, dirs[k])
    ensures SpelledFrom(after, dirs, k + 1, q)
  {
    forall j | k + 1 <= j < |dirs| && dirs[j] in after ensures SpelledAsStored(after[dirs[j]], q) {
      assert dirs[j] != dirs[k];
      assert dirs[j] in after - {dirs[k]} && (after - {dirs[k]})[dirs[j]] == (before - {dirs[k]})[dirs[j]];
    }
  }

  predicate InStore(disk: Disk, view: map<int, seq<BlockHeader>>, dirs: seq<int>) {
    forall i :: 0 <= i < |dirs| ==> dirs[i] in disk && dirs[i] in view
  }

  /** `matched` is the answer of the first `k` partitions. */
  predicate Answered(disk: Disk, view: map<int, seq<BlockHeader>>, dirs: seq<int>, k: nat, q: Query, matched: seq<LogEntry>)
    requires InStore(disk, view, dirs) && k <= |dirs| && q.limit >= 0
  {
    matched == Extend([], Scan(disk, view, dirs[..k]), q, q.limit)
  }

  lemma AnsweredNone(disk: Disk, view: map<int, seq<BlockHeader>>, dirs: seq<int>, summaries: map<int, Summary>, q: Query)
    requires InStore(disk, view, dirs) && q.limit >= 0
    ensures Answered(disk, view, dirs, 0, q, []) && AllFound(disk, view, [], q)
    ensures SpelledEverywhere(summaries, q) ==> SpelledFrom(summaries, dirs, 0, q)
  {
    assert Scan(disk, view, dirs[..0]) == [] && Filter([], q) == [];
    if SpelledEverywhere(summaries, q) {
      forall j | 0 <= j < |dirs| && dirs[j] in summaries ensures SpelledAsStored(summaries[dirs[j]], q) {
        var hour := dirs[j];
        assert hour in summaries && SpelledAsStored(summaries[hour], q);
      }
    }
  }

  lemma AnsweredNext(disk: Disk, view: map<int, seq<BlockHeader>>, dirs: seq<int>, k: nat, q: Query,
                     found: seq<LogEntry>, matched: seq<LogEntry>)
    requires InStore(disk, view, dirs) && k < |dirs| && q.limit >= 0 && Answered(disk, view, dirs, k, q, found)
    requires matched == Extend(found, Reverse(PartitionEntries(disk[dirs[k]], view[dirs[k]])), q, q.limit)
    ensures Answered(disk, view, dirs, k + 1, q, matched)
  {
    ScanNext(disk, view, dirs, k, q);
  }

  lemma AnsweredAll(disk: Disk, view: map<int, seq<BlockHeader>>, dirs: seq<int>, k: nat, q: Query, matched: seq<LogEntry>)
    requires InStore(disk, view, dirs) && k <= |dirs| && q.limit >= 0 && Answered(disk, view, dirs, k, q, matched)
    requires k == |dirs| || |matched| >= q.limit
    ensures matched == Extend([], Scan(disk, view, dirs), q, q.limit)
  {
    if k == |dirs| {
      assert dirs[..k] == dirs;
    } else {
      ScanRest(disk, view, dirs, k, q);
    }
  }

  /** The entry is in a block that the store sees. */
  predicate InView(disk: Disk, view: map<int, seq<BlockHeader>>, e: LogEntry) {
    exists hour :: hour in disk && hour in view && e in PartitionEntries(disk[hour], view[hour])
  }

  /** Matches only, all of them from blocks that the store sees. */
  predicate AllFound(disk: Disk, view: map<int, seq<BlockHeader>>, s: seq<LogEntry>, q: Query) {
    forall e :: e in s ==> Matches(e, q) && InView(disk, view, e)
  }

  lemma FoundGrows(disk: Disk, view: map<int, seq<BlockHeader>>, hour: int, found: seq<LogEntry>, matched: seq<LogEntry>, q: Query)
    requires hour in disk && hour in view && AllFound(disk, view, found, q)
    requires GrownFrom(found, matched, PartitionEntries(disk[hour], view[hour]), q)
    ensures AllFound(disk, view, matched, q)
  {
  }

  predicate SpelledEverywhere(summaries: map<int, Summary>, q: Query) {
    forall hour :: hour in summaries ==> SpelledAsStored(summaries[hour], q)
  }

  lemma {:induction false} SummarizeAll(headers: seq<BlockHeader>)
    requires headers != []
    ensures Summarize(headers).Some?
    ensures forall h :: h in headers ==> SummaryCovers(Summarize(headers).value, h)
  {
    forall h | h in headers ensures SummaryCovers(Summarize(headers).value, h) {
      var i :| 0 <= i < |headers| && headers[i] == h;
      SummarizeCovers(headers, i);
    }
  }

  lemma ScanNext(disk: Disk, view: map<int, seq<BlockHeader>>, dirs: seq<int>, k: nat, q: Query)
    requires (forall i :: 0 <= i < |dirs| ==> dirs[i] in disk && dirs[i] in view) && k < |dirs| && q.limit >= 0
    ensures Extend([], Scan(disk, view, dirs[..k + 1]), q, q.limit)
         == Extend(Extend([], Scan(disk, view, dirs[..k]), q, q.limit),
                   Reverse(PartitionEntries(disk[dirs[k]], view[dirs[k]])), q, q.limit)
  {
    var one := [dirs[k]];
    assert dirs[..k + 1] == dirs[..k] + one;
    ScanConcat(disk, view, dirs[..k], one);
    assert one[1..] == [];
    assert Scan(disk, view, one) == Reverse(PartitionEntries(disk[dirs[k]], view[dirs[k]])) + Scan(disk, view, []);
    assert Scan(disk, view, one) == Reverse(PartitionEntries(disk[dirs[k]], view[dirs[k]]));
    ExtendConcat([], Scan(disk, view, dirs[..k]), Scan(disk, view, one), q, q.limit);
  }

  lemma ScanRest(disk: Disk, view: map<int, seq<BlockHeader>>, dirs: seq<int>, k: nat, q: Query)
    requires (forall i :: 0 <= i < |dirs| ==> dirs[i] in disk && dirs[i] in view) && k <= |dirs| && q.limit >= 0
    requires |Extend([], Scan(disk, view, dirs[..k]), q, q.limit)| >= q.limit
    ensures Extend([], Scan(disk, view, dirs), q, q.limit) == Extend([], Scan(disk, view, dirs[..k]), q, q.limit)
  {
    assert dirs == dirs[..k] + dirs[k..];
    ScanConcat(disk, view, dirs[..k], dirs[k..]);
    ExtendConcat([], Scan(disk, view, dirs[..k]), Scan(disk, view, dirs[k..]), q, q.limit);
    ExtendFull(Extend([], Scan(disk, view, dirs[..k]), q, q.limit), Scan(disk, view, dirs[k..]), q, q.limit);
  }

  // ---------------------------------------------------------------- order of appending

  /** In a running store the entries appended last are scanned first, last to first. */
  lemma AppendedScannedFirst(disk: Disk, cache: map<int, seq<BlockHeader>>, hour: int, entries: seq<LogEntry>, header: BlockHeader)
    requires hour in disk && hour in cache && FreshName(disk, cache, hour, header.fileName)
    ensures var disk', cache' := DiskWith(disk, hour, entries, header), CacheWith(cache, hour, header);
      Reverse(PartitionEntries(disk'[hour], ViewOf(disk', cache')[hour]))
        == Reverse(entries) + Reverse(PartitionEntries(disk[hour], ViewOf(disk, cache)[hour]))
  {
    var disk', cache' := DiskWith(disk, hour, entries, header), CacheWith(cache, hour, header);
    var was := cache[hour];
    forall i | 0 <= i < |was| ensures BlockEntries(disk[hour], was[i]) == BlockEntries(disk'[hour], was[i]) {
      assert was[i].fileName != header.fileName;
    }
    SameFilesSameEntries(disk[hour], disk'[hour], was);
    PartitionConcat(disk'[hour], was, [header]);
    OneBlock(disk'[hour], header);
    ReverseConcat(PartitionEntries(disk[hour], was), entries);
  }
}
