/** Compaction of a partition: many small blocks become few large ones, and nothing else changes. */
module Compaction {
  import opened GoText
  import opened LogEntries
  import opened Blocks
  import opened StoreScan

  // ---------------------------------------------------------------- rewriting

  /** New blocks: a header and the entries it stands for. */
  datatype NewBlock = NewBlock(header: BlockHeader, entries: seq<LogEntry>)

  function Flatten(blocks: seq<NewBlock>): seq<LogEntry> {
    if blocks == [] then [] else Flatten(blocks[..|blocks| - 1]) + blocks[|blocks| - 1].entries
  }

  function Headers(blocks: seq<NewBlock>): (r: seq<BlockHeader>)
    ensures |r| == |blocks|
  {
    seq(|blocks|, i requires 0 <= i < |blocks| => blocks[i].header)
  }

  predicate Described(b: NewBlock, now: int) {
    b.entries != [] && b.header == HeaderOf(b.entries, b.header.fileName, b.header.compressedBytes, now)
  }

  /** Each header is computed from its entries and no two share a file. */
  predicate WellFormed(blocks: seq<NewBlock>, now: int) {
    && (forall i :: 0 <= i < |blocks| ==> Described(blocks[i], now))
    && (forall i, j :: 0 <= i < j < |blocks| ==> blocks[i].header.fileName != blocks[j].header.fileName)
  }

  /** The chunk loop of `CompactPartition`; `names` and `sizes` stand for generated ids and the codec. */
  method WriteChunks(all: seq<LogEntry>, maxBlockRecords: nat, names: nat -> nat, sizes: nat -> nat, now: int)
    returns (blocks: seq<NewBlock>)
    requires maxBlockRecords > 0 && forall i: nat, j: nat :: i != j ==> names(i) != names(j)
    ensures Flatten(blocks) == all && WellFormed(blocks, now) && NamedBy(blocks, names)
    ensures Chunked(blocks, maxBlockRecords)
  {
    blocks := [];
    var i := 0;
    while i < |all|
      invariant 0 <= i <= |all| && Cut(blocks, all[..i], maxBlockRecords, names, now)
      invariant blocks != [] && i < |all| ==> |blocks[|blocks| - 1].entries| == maxBlockRecords
    {
      var end := if i + maxBlockRecords > |all| then |all| else i + maxBlockRecords;
      var chunk := all[i..end];
      var header := EncodeBlock(chunk, names(|blocks|), sizes(|blocks|), now);
      WriteOne(blocks, all[..i], NewBlock(header, chunk), maxBlockRecords, names, now);
      assert all[..end] == all[..i] + chunk;
      blocks := blocks + [NewBlock(header, chunk)];
      i := end;
    }
    assert all[..i] == all;
  }

  /** `blocks` hold exactly `entries`. */
  predicate Cut(blocks: seq<NewBlock>, entries: seq<LogEntry>, max: nat, names: nat -> nat, now: int) {
    Flatten(blocks) == entries && WellFormed(blocks, now) && NamedBy(blocks, names) && Chunked(blocks, max)
  }

  lemma WriteOne(blocks: seq<NewBlock>, entries: seq<LogEntry>, b: NewBlock, max: nat, names: nat -> nat, now: int)
    requires Cut(blocks, entries, max, names, now) && Described(b, now) && |b.entries| <= max
    requires b.header.fileName == names(|blocks|) && forall i: nat, j: nat :: i != j ==> names(i) != names(j)
    requires blocks != [] ==> |blocks[|blocks| - 1].entries| == max
    ensures Cut(blocks + [b], entries + b.entries, max, names, now)
  {
    AppendWellFormed(blocks, b, names, now);
    FlattenAppend(blocks, b);
    ChunkedAppend(blocks, b, max);
  }

  /** Every block is full but the last, which may be shorter. */
  predicate Chunked(blocks: seq<NewBlock>, max: nat) {
    && (forall i :: 0 <= i < |blocks| - 1 ==> |blocks[i].entries| == max)
    && (blocks != [] ==> |blocks[|blocks| - 1].entries| <= max)
  }

  lemma ChunkedAppend(blocks: seq<NewBlock>, b: NewBlock, max: nat)
    requires Chunked(blocks, max) && |b.entries| <= max && (blocks != [] ==> |blocks[|blocks| - 1].entries| == max)
    ensures Chunked(blocks + [b], max)
  {
  }

  predicate NamedBy(blocks: seq<NewBlock>, names: nat -> nat) {
    forall i :: 0 <= i < |blocks| ==> blocks[i].header.fileName == names(i)
  }

  lemma AppendWellFormed(blocks: seq<NewBlock>, b: NewBlock, names: nat -> nat, now: int)
    requires WellFormed(blocks, now) && NamedBy(blocks, names) && Described(b, now)
    requires b.header.fileName == names(|blocks|) && forall i: nat, j: nat :: i != j ==> names(i) != names(j)
    ensures WellFormed(blocks + [b], now) && NamedBy(blocks + [b], names)
  {
  }

  lemma FlattenAppend(blocks: seq<NewBlock>, b: NewBlock)
    ensures Flatten(blocks + [b]) == Flatten(blocks) + b.entries
  {
    assert (blocks + [b])[..|blocks|] == blocks;
  }

  function NewFiles(blocks: seq<NewBlock>): map<nat, seq<LogEntry>> {
    if blocks == [] then map[]
    else
      var b := blocks[|blocks| - 1];
      NewFiles(blocks[..|blocks| - 1])[b.header.fileName := b.entries]
  }

  function FileNames(headers: seq<BlockHeader>): set<nat> {
    set i | 0 <= i < |headers| :: headers[i].fileName
  }

  /** The partition when compaction is done. */
  function Compacted(p: Partition, replaced: seq<BlockHeader>, blocks: seq<NewBlock>): Partition {
    Partition(Headers(blocks), [], (p.files + NewFiles(blocks)) - FileNames(replaced))
  }

  lemma {:induction false} NewFilesHold(blocks: seq<NewBlock>, now: int, i: nat)
    requires WellFormed(blocks, now) && i < |blocks|
    ensures blocks[i].header.fileName in NewFiles(blocks) && NewFiles(blocks)[blocks[i].header.fileName] == blocks[i].entries
  {
    var n := |blocks| - 1;
    if i < n {
      assert forall k :: 0 <= k < n ==> blocks[..n][k] == blocks[k];
      NewFilesHold(blocks[..n], now, i);
    }
  }

  /** Reading blocks through headers gives back what was written. */
  lemma {:induction false} ReadNewBlocks(p: Partition, blocks: seq<NewBlock>, k: nat)
    requires k <= |blocks|
    requires forall i :: 0 <= i < |blocks| ==> BlockEntries(p, blocks[i].header) == blocks[i].entries
    ensures PartitionEntries(p, Headers(blocks[..k])) == Flatten(blocks[..k])
  {
    if k == 0 {
      assert Headers(blocks[..0]) == [];
    } else {
      ReadNewBlocks(p, blocks, k - 1);
      var b := blocks[k - 1];
      assert blocks[..k][..k - 1] == blocks[..k - 1];
      assert Headers(blocks[..k]) == Headers(blocks[..k - 1]) + [b.header];
      PartitionConcat(p, Headers(blocks[..k - 1]), [b.header]);
      OneBlock(p, b.header);
    }
  }

  lemma OneBlock(p: Partition, h: BlockHeader)
    ensures PartitionEntries(p, [h]) == BlockEntries(p, h)
  {
    assert [h][1..] == [];
    assert BlockEntries(p, h) + [] == BlockEntries(p, h);
  }

  /** New names are not in use. */
  predicate FreshNames(p: Partition, replaced: seq<BlockHeader>, blocks: seq<NewBlock>) {
    forall i :: 0 <= i < |blocks| ==>
      blocks[i].header.fileName !in p.files && blocks[i].header.fileName !in FileNames(replaced)
  }

  /** Compaction preserves meaning: the entries of the partition, in scan order, stay the same. */
  lemma CompactionKeepsEntries(p: Partition, replaced: seq<BlockHeader>, blocks: seq<NewBlock>, now: int)
    requires WellFormed(blocks, now) && FreshNames(p, replaced, blocks)
    requires Flatten(blocks) == PartitionEntries(p, replaced)
    ensures PartitionEntries(Compacted(p, replaced, blocks), Headers(blocks)) == PartitionEntries(p, replaced)
  {
    var p' := Compacted(p, replaced, blocks);
    forall i | 0 <= i < |blocks| ensures BlockEntries(p', blocks[i].header) == blocks[i].entries {
      NewFilesHold(blocks, now, i);
    }
    ReadNewBlocks(p', blocks, |blocks|);
    assert blocks[..|blocks|] == blocks;
  }

  // ---------------------------------------------------------------- the summary

  /** What a summary says about times, levels, hosts and sources. */
  datatype Extent = Extent(minNano: int, maxNano: int, levelMask: Mask, hosts: set<Str>, sources: set<Str>)

  function ExtentOf(s: Summary): Extent {
    Extent(s.minNano, s.maxNano, s.levelMask, s.hosts, s.sources)
  }

  function EntriesExtent(entries: seq<LogEntry>, now: int): Extent {
    Extent(MinNano(entries, now), MaxNano(entries, now), LevelMask(entries), HostSet(entries), SourceSet(entries))
  }

  function ExtentUnion(a: Extent, b: Extent): Extent {
    Extent(if b.minNano < a.minNano then b.minNano else a.minNano,
           if b.maxNano > a.maxNano then b.maxNano else a.maxNano,
           a.levelMask + b.levelMask, a.hosts + b.hosts, a.sources + b.sources)
  }

  lemma {:induction false} ExtentConcat(a: seq<LogEntry>, b: seq<LogEntry>, now: int)
    ensures EntriesExtent(a + b, now) == ExtentUnion(EntriesExtent(a, now), EntriesExtent(b, now))
  {
    SetsConcat(a, b);
    BoundsConcat(a, b, now);
  }

  lemma {:induction false} BoundsConcat(a: seq<LogEntry>, b: seq<LogEntry>, now: int)
    ensures MinNano(a + b, now) == if MinNano(b, now) < MinNano(a, now) then MinNano(b, now) else MinNano(a, now)
    ensures MaxNano(a + b, now) == if MaxNano(b, now) > MaxNano(a, now) then MaxNano(b, now) else MaxNano(a, now)
    ensures LevelMask(a + b) == LevelMask(a) + LevelMask(b)
  {
    if b == [] {
      assert a + b == a;
      BoundsRange(a, now);
    } else {
      var n := |b| - 1;
      assert (a + b)[..|a + b| - 1] == a + b[..n];
      BoundsConcat(a, b[..n], now);
    }
  }

  lemma {:induction false} BoundsRange(a: seq<LogEntry>, now: int)
    ensures MinNano(a, now) <= MAX_INT64 && MaxNano(a, now) >= -1
  {
    if a != [] { BoundsRange(a[..|a| - 1], now); }
  }

  /** A summary built from headers says exactly what the entries say, however they are cut into blocks. */
  lemma {:induction false} SummaryOfBlocks(blocks: seq<NewBlock>, now: int)
    requires WellFormed(blocks, now) && blocks != []
    ensures Summarize(Headers(blocks)).Some?
    ensures ExtentOf(Summarize(Headers(blocks)).value) == EntriesExtent(Flatten(blocks), now)
  {
    var n := |blocks| - 1;
    var init, b := blocks[..n], blocks[n];
    SummarizeSnoc(blocks);
    if n == 0 {
      assert Headers(init) == [] && Flatten(init) == [];
      FirstExtent(b, now);
    } else {
      SummaryOfBlocks(init, now);
      JoinExtent(Summarize(Headers(init)).value, Flatten(init), b, now);
    }
  }

  lemma SummarizeSnoc(blocks: seq<NewBlock>)
    requires blocks != []
    ensures var n := |blocks| - 1;
      Summarize(Headers(blocks)) == Some(AddBlock(Summarize(Headers(blocks[..n])), blocks[n].header))
  {
    var n := |blocks| - 1;
    assert Headers(blocks)[..n] == Headers(blocks[..n]);
  }

  lemma FirstExtent(b: NewBlock, now: int)
    requires Described(b, now)
    ensures ExtentOf(AddBlock(None, b.header)) == EntriesExtent([] + b.entries, now)
  {
    assert [] + b.entries == b.entries;
    assert NonEmpty(b.header.hosts) == b.header.hosts && NonEmpty(b.header.sources) == b.header.sources;
  }

  lemma JoinExtent(s: Summary, entries: seq<LogEntry>, b: NewBlock, now: int)
    requires ExtentOf(s) == EntriesExtent(entries, now) && Described(b, now)
    ensures ExtentOf(AddBlock(Some(s), b.header)) == EntriesExtent(entries + b.entries, now)
  {
    ExtentConcat(entries, b.entries, now);
    assert NonEmpty(b.header.hosts) == b.header.hosts && NonEmpty(b.header.sources) == b.header.sources;
  }

  // ---------------------------------------------------------------- stopping half way

  /** The file operations of a compaction, in order. */
  datatype FileOp =
    | WriteBlock(name: nat, entries: seq<LogEntry>)
    | ReplaceIndex(headers: seq<BlockHeader>)
    | RemoveLegacy
    | RemoveBlock(name: nat)

  function ApplyOp(p: Partition, op: FileOp): Partition {
    match op
    case WriteBlock(name, entries) => p.(files := p.files[name := entries])
    case ReplaceIndex(headers) => p.(index := headers)
    case RemoveLegacy => p.(legacy := [])
    case RemoveBlock(name) => p.(files := p.files - {name})
  }

  function ApplyOps(p: Partition, ops: seq<FileOp>): Partition {
    if ops == [] then p else ApplyOp(ApplyOps(p, ops[..|ops| - 1]), ops[|ops| - 1])
  }

  function WriteOps(blocks: seq<NewBlock>): (r: seq<FileOp>)
    ensures |r| == |blocks|
  {
    seq(|blocks|, i requires 0 <= i < |blocks| => WriteBlock(blocks[i].header.fileName, blocks[i].entries))
  }

  function RemoveOps(replaced: seq<BlockHeader>): (r: seq<FileOp>)
    ensures |r| == |replaced|
  {
    seq(|replaced|, i requires 0 <= i < |replaced| => RemoveBlock(replaced[i].fileName))
  }

  function CompactionOps(replaced: seq<BlockHeader>, blocks: seq<NewBlock>): seq<FileOp> {
    WriteOps(blocks) + [ReplaceIndex(Headers(blocks)), RemoveLegacy] + RemoveOps(replaced)
  }

  lemma {:induction false} HeaderRemoved(p: Partition, headers: seq<BlockHeader>, i: nat)
    requires i < |headers|
    ensures multiset(PartitionEntries(p, headers))
         == multiset(PartitionEntries(p, headers[..i] + headers[i + 1..])) + multiset(BlockEntries(p, headers[i]))
  {
    var a, h, b := headers[..i], headers[i], headers[i + 1..];
    SplitAround(headers, i);
    PartitionConcat(p, a + [h], b);
    PartitionConcat(p, a, [h]);
    PartitionConcat(p, a, b);
    OneBlock(p, h);
  }

  lemma SplitAround<T>(s: seq<T>, i: nat)
    requires i < |s|
    ensures s == s[..i] + [s[i]] + s[i + 1..]
    ensures multiset(s[..i] + s[i + 1..]) == multiset(s) - multiset{s[i]}
  {
    assert s == s[..i] + [s[i]] + s[i + 1..];
  }

  /** Reading the same headers in another order reads the same entries. */
  lemma {:induction false} PermutedEntries(p: Partition, a: seq<BlockHeader>, b: seq<BlockHeader>)
    requires multiset(a) == multiset(b)
    ensures multiset(PartitionEntries(p, a)) == multiset(PartitionEntries(p, b))
    decreases |a|
  {
    if a == [] {
      assert |multiset(b)| == 0;
    } else {
      var n := |a| - 1;
      assert a[n] in multiset(b);
      var i :| 0 <= i < |b| && b[i] == a[n];
      HeaderRemoved(p, a, n);
      HeaderRemoved(p, b, i);
      SplitAround(a, n);
      SplitAround(b, i);
      PermutedEntries(p, a[..n] + a[n + 1..], b[..i] + b[i + 1..]);
    }
  }

  /** Headers read the same from partitions that agree on the files they name. */
  lemma {:induction false} SameFilesSameEntries(p: Partition, p': Partition, headers: seq<BlockHeader>)
    requires forall i :: 0 <= i < |headers| ==> BlockEntries(p, headers[i]) == BlockEntries(p', headers[i])
    ensures PartitionEntries(p', headers) == PartitionEntries(p, headers)
  {
    if headers != [] { SameFilesSameEntries(p, p', headers[1..]); }
  }

  /** Writing the first `k` new blocks touches nothing the old index names. */
  lemma {:induction false} WritesInvisible(p: Partition, replaced: seq<BlockHeader>, blocks: seq<NewBlock>, k: nat)
    requires k <= |blocks| && FreshNames(p, replaced, blocks)
    ensures var p' := ApplyOps(p, WriteOps(blocks)[..k]);
      && p'.index == p.index && p'.legacy == p.legacy
      && (forall name :: name in p.files ==> name in p'.files && p'.files[name] == p.files[name])
      && (forall name :: name in FileNames(replaced) && name !in p.files ==> name !in p'.files)
  {
    if k > 0 {
      var ops := WriteOps(blocks)[..k];
      assert ops[..k - 1] == WriteOps(blocks)[..k - 1];
      WritesInvisible(p, replaced, blocks, k - 1);
    }
  }

  lemma {:induction false} WritesHold(p: Partition, blocks: seq<NewBlock>, now: int, k: nat, i: nat)
    requires WellFormed(blocks, now) && i < k <= |blocks|
    ensures var p' := ApplyOps(p, WriteOps(blocks)[..k]);
      blocks[i].header.fileName in p'.files && p'.files[blocks[i].header.fileName] == blocks[i].entries
  {
    var ops := WriteOps(blocks)[..k];
    assert ops[..k - 1] == WriteOps(blocks)[..k - 1];
    if i < k - 1 { WritesHold(p, blocks, now, k - 1, i); }
  }

  lemma {:induction false} RemovesHarmless(p: Partition, replaced: seq<BlockHeader>, k: nat, name: nat)
    requires k <= |replaced| && name !in FileNames(replaced)
    ensures var p' := ApplyOps(p, RemoveOps(replaced)[..k]);
      && p'.index == p.index && p'.legacy == p.legacy
      && (name in p.files <==> name in p'.files) && (name in p.files ==> p'.files[name] == p.files[name])
  {
    if k > 0 {
      var ops := RemoveOps(replaced)[..k];
      assert ops[..k - 1] == RemoveOps(replaced)[..k - 1];
      assert replaced[k - 1].fileName in FileNames(replaced);
      RemovesHarmless(p, replaced, k - 1, name);
    }
  }

  lemma {:induction false} ApplyOpsConcat(p: Partition, a: seq<FileOp>, b: seq<FileOp>)
    ensures ApplyOps(p, a + b) == ApplyOps(ApplyOps(p, a), b)
  {
    if b == [] {
      assert a + b == a;
    } else {
      assert (a + b)[..|a + b| - 1] == a + b[..|b| - 1];
      ApplyOpsConcat(p, a, b[..|b| - 1]);
    }
  }

  /** Before the index is replaced: the old index reads as before. */
  lemma StoppedBeforeRename(p: Partition, blocks: seq<NewBlock>, k: nat)
    requires k <= |blocks| && FreshNames(p, LoadIndex(p), blocks)
    ensures var p' := ApplyOps(p, WriteOps(blocks)[..k]);
      PartitionEntries(p', LoadIndex(p')) == PartitionEntries(p, LoadIndex(p))
  {
    var p', replaced := ApplyOps(p, WriteOps(blocks)[..k]), LoadIndex(p);
    WritesInvisible(p, replaced, blocks, k);
    forall i | 0 <= i < |replaced| ensures BlockEntries(p, replaced[i]) == BlockEntries(p', replaced[i]) {
      assert replaced[i].fileName in FileNames(replaced);
    }
    SameFilesSameEntries(p, p', replaced);
  }

  /** After the index is replaced: the new index reads the new blocks, whatever has been removed. */
  lemma StoppedAfterRename(blocks: seq<NewBlock>, now: int, p': Partition)
    requires WellFormed(blocks, now)
    requires p'.index == Headers(blocks) && p'.legacy == []
    requires forall i :: 0 <= i < |blocks| ==> BlockEntries(p', blocks[i].header) == blocks[i].entries
    ensures multiset(PartitionEntries(p', LoadIndex(p'))) == multiset(Flatten(blocks))
  {
    NewIndexRead(p', Headers(blocks));
    ReadNewBlocks(p', blocks, |blocks|);
    assert blocks[..|blocks|] == blocks;
  }

  lemma NewIndexRead(p: Partition, index: seq<BlockHeader>)
    requires p.legacy == [] && p.index == index && NamesOnce(index)
    ensures multiset(PartitionEntries(p, LoadIndex(p))) == multiset(PartitionEntries(p, index))
  {
    BothIndexesRead(p, [], index);
  }

  /** Stopped after `k` operations, a reload reads the same entries as before: none lost, none doubled. */
  predicate KeptAt(p: Partition, replaced: seq<BlockHeader>, blocks: seq<NewBlock>, k: nat)
    requires k <= |CompactionOps(replaced, blocks)|
  {
    var p' := ApplyOps(p, CompactionOps(replaced, blocks)[..k]);
    multiset(PartitionEntries(p', LoadIndex(p'))) == multiset(PartitionEntries(p, LoadIndex(p)))
  }

  /** A compaction of the partition's blocks, read in any order: the cached list is in order of appending
      and the loaded one in order of minimum time. */
  predicate Rewrites(p: Partition, replaced: seq<BlockHeader>, blocks: seq<NewBlock>, now: int) {
    && multiset(replaced) == multiset(LoadIndex(p)) && WellFormed(blocks, now)
    && FreshNames(p, replaced, blocks) && Flatten(blocks) == PartitionEntries(p, replaced)
  }

  lemma SameNames(a: seq<BlockHeader>, b: seq<BlockHeader>)
    requires multiset(a) == multiset(b)
    ensures FileNames(a) <= FileNames(b)
  {
    forall i | 0 <= i < |a| ensures a[i].fileName in FileNames(b) {
      assert a[i] in multiset(b);
      var j :| 0 <= j < |b| && b[j] == a[i];
    }
  }

  lemma RewritesFresh(p: Partition, replaced: seq<BlockHeader>, blocks: seq<NewBlock>, now: int)
    requires Rewrites(p, replaced, blocks, now)
    ensures FreshNames(p, LoadIndex(p), blocks)
  {
    SameNames(LoadIndex(p), replaced);
  }

  /** Stopping between any two file operations keeps the entries, unless it is between the two that swap
      the indexes. */
  lemma StoppingKeepsEntries(p: Partition, replaced: seq<BlockHeader>, blocks: seq<NewBlock>, now: int, k: nat)
    requires Rewrites(p, replaced, blocks, now)
    requires k <= |CompactionOps(replaced, blocks)| && k != |blocks| + 1
    ensures KeptAt(p, replaced, blocks, k)
  {
    if k <= |blocks| {
      assert CompactionOps(replaced, blocks)[..k] == WriteOps(blocks)[..k];
      RewritesFresh(p, replaced, blocks, now);
      StoppedBeforeRename(p, blocks, k);
    } else {
      TailStateAt(p, replaced, blocks, now, k);
      StoppedAfterRename(blocks, now, ApplyOps(p, CompactionOps(replaced, blocks)[..k]));
      PermutedEntries(p, replaced, LoadIndex(p));
    }
  }

  lemma TailStateAt(p: Partition, replaced: seq<BlockHeader>, blocks: seq<NewBlock>, now: int, k: nat)
    requires WellFormed(blocks, now) && FreshNames(p, replaced, blocks)
    requires |blocks| + 1 < k <= |CompactionOps(replaced, blocks)|
    ensures var p' := ApplyOps(p, CompactionOps(replaced, blocks)[..k]);
      && p'.index == Headers(blocks) && p'.legacy == []
      && forall i :: 0 <= i < |blocks| ==> BlockEntries(p', blocks[i].header) == blocks[i].entries
  {
    OpsPrefix(replaced, blocks, k);
    TailState(p, replaced, blocks, now, k - |blocks| - 2);
  }

  lemma OpsPrefix(replaced: seq<BlockHeader>, blocks: seq<NewBlock>, k: nat)
    requires |blocks| + 1 < k <= |CompactionOps(replaced, blocks)|
    ensures CompactionOps(replaced, blocks)[..k]
         == WriteOps(blocks) + [ReplaceIndex(Headers(blocks)), RemoveLegacy] + RemoveOps(replaced)[..k - |blocks| - 2]
  {
  }

  /** The partition once the new index is in place and the legacy one is gone. */
  lemma TailState(p: Partition, replaced: seq<BlockHeader>, blocks: seq<NewBlock>, now: int, j: nat)
    requires WellFormed(blocks, now) && FreshNames(p, replaced, blocks) && j <= |replaced|
    ensures var p' := ApplyOps(p, WriteOps(blocks) + [ReplaceIndex(Headers(blocks)), RemoveLegacy] + RemoveOps(replaced)[..j]);
      && p'.index == Headers(blocks) && p'.legacy == []
      && forall i :: 0 <= i < |blocks| ==> BlockEntries(p', blocks[i].header) == blocks[i].entries
  {
    var swap := [ReplaceIndex(Headers(blocks)), RemoveLegacy];
    var w := ApplyOps(p, WriteOps(blocks));
    ApplyOpsConcat(p, WriteOps(blocks) + swap, RemoveOps(replaced)[..j]);
    ApplyOpsConcat(p, WriteOps(blocks), swap);
    SwapEffect(w, Headers(blocks));
    RemovesKeepBlocks(ApplyOps(w, swap), replaced, j, blocks, p, now);
  }

  lemma SwapEffect(w: Partition, headers: seq<BlockHeader>)
    ensures ApplyOps(w, [ReplaceIndex(headers), RemoveLegacy]) == w.(index := headers, legacy := [])
  {
    var swap := [ReplaceIndex(headers), RemoveLegacy];
    assert swap[..1][..0] == [] && swap[..1] == [swap[0]];
    assert ApplyOps(w, swap[..1]) == ApplyOp(ApplyOps(w, []), swap[0]);
  }

  lemma RemovesKeepBlocks(q: Partition, replaced: seq<BlockHeader>, k: nat, blocks: seq<NewBlock>, p: Partition, now: int)
    requires k <= |replaced| && WellFormed(blocks, now) && FreshNames(p, replaced, blocks)
    requires q == ApplyOps(p, WriteOps(blocks)).(index := Headers(blocks), legacy := [])
    ensures var p' := ApplyOps(q, RemoveOps(replaced)[..k]);
      && p'.index == Headers(blocks) && p'.legacy == []
      && forall i :: 0 <= i < |blocks| ==> BlockEntries(p', blocks[i].header) == blocks[i].entries
  {
    var p' := ApplyOps(q, RemoveOps(replaced)[..k]);
    assert WriteOps(blocks)[..|blocks|] == WriteOps(blocks);
    forall i | 0 <= i < |blocks| ensures BlockEntries(p', blocks[i].header) == blocks[i].entries {
      WritesHold(p, blocks, now, |blocks|, i);
      RemovesHarmless(q, replaced, k, blocks[i].header.fileName);
    }
    RemovesKeepFrame(q, replaced, k);
  }

  lemma {:induction false} RemovesKeepFrame(p: Partition, replaced: seq<BlockHeader>, k: nat)
    requires k <= |replaced|
    ensures var p' := ApplyOps(p, RemoveOps(replaced)[..k]); p'.index == p.index && p'.legacy == p.legacy
  {
    if k > 0 {
      assert RemoveOps(replaced)[..k][..k - 1] == RemoveOps(replaced)[..k - 1];
      RemovesKeepFrame(p, replaced, k - 1);
    }
  }

  /** Carried out to the end, the operations give the compacted partition. */
  lemma FinishedIsCompacted(p: Partition, replaced: seq<BlockHeader>, blocks: seq<NewBlock>)
    ensures ApplyOps(p, CompactionOps(replaced, blocks)) == Compacted(p, replaced, blocks)
  {
    var writes, swap, removes := WriteOps(blocks), [ReplaceIndex(Headers(blocks)), RemoveLegacy], RemoveOps(replaced);
    ApplyOpsConcat(p, writes + swap, removes);
    ApplyOpsConcat(p, writes, swap);
    WritesAll(p, blocks);
    SwapEffect(ApplyOps(p, writes), Headers(blocks));
    RemovesAll(ApplyOps(p, writes + swap), replaced);
  }

  lemma {:induction false} WritesAll(p: Partition, blocks: seq<NewBlock>)
    ensures ApplyOps(p, WriteOps(blocks)) == p.(files := p.files + NewFiles(blocks))
  {
    if blocks != [] {
      var n := |blocks| - 1;
      assert WriteOps(blocks)[..n] == WriteOps(blocks[..n]);
      WritesAll(p, blocks[..n]);
    }
  }

  lemma {:induction false} RemovesAll(p: Partition, replaced: seq<BlockHeader>)
    ensures ApplyOps(p, RemoveOps(replaced)) == p.(files := p.files - FileNames(replaced))
  {
    if replaced == [] {
      assert p.files - FileNames(replaced) == p.files;
    } else {
      var n := |replaced| - 1;
      assert RemoveOps(replaced)[..n] == RemoveOps(replaced[..n]);
      RemovesAll(p, replaced[..n]);
      assert FileNames(replaced) == FileNames(replaced[..n]) + {replaced[n].fileName};
    }
  }

  // ---------------------------------------------------------------- the legacy index

  lemma {:induction false} FreshAppended(legacy: seq<BlockHeader>, added: seq<BlockHeader>)
    requires NamesOnce(added) && forall i :: 0 <= i < |added| ==> !NamesFile(legacy, added[i].fileName)
    ensures DistinctFiles(legacy + added) == DistinctFiles(legacy) + added
  {
    var all := legacy + added;
    if added == [] {
      assert all == legacy;
    } else {
      var n := |added| - 1;
      var init, h := legacy + added[..n], added[n];
      FreshAppended(legacy, added[..n]);
      SplitLast(added);
      assert all[..|all| - 1] == init && all[|all| - 1] == h;
      forall i | 0 <= i < |init| ensures init[i].fileName != h.fileName {
        assert i < |legacy| ==> legacy[i] == init[i];
      }
    }
  }

  /** Every file that either index names is in the loaded list. */
  lemma {:induction false} NamesLoaded(headers: seq<BlockHeader>, i: nat)
    requires i < |headers|
    ensures NamesFile(DistinctFiles(headers), headers[i].fileName)
  {
    var n := |headers| - 1;
    var init, h := headers[..n], headers[n];
    if i < n {
      NamesLoaded(init, i);
      NameStays(DistinctFiles(init), h, headers[i].fileName);
    } else if NamesFile(init, h.fileName) {
      var k :| 0 <= k < |init| && init[k].fileName == h.fileName;
      NamesLoaded(init, k);
    } else {
      assert DistinctFiles(headers)[|DistinctFiles(init)|] == h;
    }
  }

  lemma NameStays(headers: seq<BlockHeader>, h: BlockHeader, name: nat)
    requires NamesFile(headers, name)
    ensures NamesFile(headers + [h], name)
  {
    var k :| 0 <= k < |headers| && headers[k].fileName == name;
    assert (headers + [h])[k].fileName == name;
  }

  lemma LegacyNameInLoaded(p: Partition, name: nat)
    requires NamesFile(p.legacy, name)
    ensures name in FileNames(LoadIndex(p))
  {
    var all, loaded := p.legacy + p.index, LoadIndex(p);
    var i :| 0 <= i < |p.legacy| && p.legacy[i].fileName == name;
    assert all[i] == p.legacy[i];
    NamesLoaded(all, i);
    var distinct := DistinctFiles(all);
    var k :| 0 <= k < |distinct| && distinct[k].fileName == name;
    SortByMinMultiset(distinct);
    assert distinct[k] in multiset(loaded);
    var j :| 0 <= j < |loaded| && loaded[j] == distinct[k];
    assert loaded[j].fileName == name;
  }

  lemma StoppedAtRename(p: Partition, replaced: seq<BlockHeader>, blocks: seq<NewBlock>)
    ensures ApplyOps(p, CompactionOps(replaced, blocks)[..|blocks| + 1]) == ApplyOps(p, WriteOps(blocks)[..|blocks|]).(index := Headers(blocks))
  {
    var n, ops, one := |blocks|, WriteOps(blocks), [ReplaceIndex(Headers(blocks))];
    assert CompactionOps(replaced, blocks)[..n + 1] == ops + one && ops[..n] == ops;
    ApplyOpsConcat(p, ops, one);
    var w := ApplyOps(p, ops);
    assert one[..0] == [] && ApplyOps(w, []) == w;
    assert ApplyOps(w, one) == w.(index := Headers(blocks));
  }

  /** Reading through two indexes of which the second names only new files. */
  lemma BothIndexesRead(p: Partition, legacy: seq<BlockHeader>, index: seq<BlockHeader>)
    requires p.legacy == legacy && p.index == index && NamesOnce(index)
    requires forall i :: 0 <= i < |index| ==> !NamesFile(legacy, index[i].fileName)
    ensures multiset(PartitionEntries(p, LoadIndex(p)))
         == multiset(PartitionEntries(p, DistinctFiles(legacy))) + multiset(PartitionEntries(p, index))
  {
    FreshAppended(legacy, index);
    SortByMinMultiset(DistinctFiles(legacy + index));
    PermutedEntries(p, LoadIndex(p), DistinctFiles(legacy + index));
    PartitionConcat(p, DistinctFiles(legacy), index);
  }

  /** The new blocks are in place and no file of the legacy index has changed. */
  lemma LegacyUntouched(p: Partition, blocks: seq<NewBlock>, p': Partition)
    requires FreshNames(p, LoadIndex(p), blocks) && p'.files == ApplyOps(p, WriteOps(blocks)[..|blocks|]).files
    ensures PartitionEntries(p', DistinctFiles(p.legacy)) == PartitionEntries(p, DistinctFiles(p.legacy))
  {
    WritesInvisible(p, LoadIndex(p), blocks, |blocks|);
    var legacy := DistinctFiles(p.legacy);
    forall i | 0 <= i < |legacy| ensures BlockEntries(p, legacy[i]) == BlockEntries(p', legacy[i]) {
      DistinctFilesMembers(p.legacy, legacy[i]);
      LegacyNameInLoaded(p, legacy[i].fileName);
    }
    SameFilesSameEntries(p, p', legacy);
  }

  lemma FreshToLegacy(p: Partition, blocks: seq<NewBlock>, i: nat)
    requires FreshNames(p, LoadIndex(p), blocks) && i < |blocks|
    ensures !NamesFile(p.legacy, blocks[i].header.fileName)
  {
    if NamesFile(p.legacy, blocks[i].header.fileName) {
      LegacyNameInLoaded(p, blocks[i].header.fileName);
    }
  }

  /** Stopped between the rename and the removal of the legacy index, what the legacy index names is found
      a second time. */
  lemma StoppedAtSwapDoubles(p: Partition, replaced: seq<BlockHeader>, blocks: seq<NewBlock>, now: int)
    requires Rewrites(p, replaced, blocks, now)
    ensures var p' := ApplyOps(p, CompactionOps(replaced, blocks)[..|blocks| + 1]);
      multiset(PartitionEntries(p', LoadIndex(p')))
        == multiset(PartitionEntries(p, DistinctFiles(p.legacy))) + multiset(PartitionEntries(p, LoadIndex(p)))
  {
    var n, w := |blocks|, ApplyOps(p, WriteOps(blocks)[..|blocks|]);
    RewritesFresh(p, replaced, blocks, now);
    StoppedAtRename(p, replaced, blocks);
    WritesInvisible(p, LoadIndex(p), blocks, n);
    var p' := w.(index := Headers(blocks));
    forall i | 0 <= i < n ensures !NamesFile(p.legacy, Headers(blocks)[i].fileName) { FreshToLegacy(p, blocks, i); }
    BothIndexesRead(p', p.legacy, Headers(blocks));
    LegacyUntouched(p, blocks, p');
    forall i | 0 <= i < n ensures BlockEntries(p', blocks[i].header) == blocks[i].entries {
      WritesHold(p, blocks, now, n, i);
    }
    ReadNewBlocks(p', blocks, n);
    assert blocks[..n] == blocks;
    PermutedEntries(p, replaced, LoadIndex(p));
  }

  /** Stopping anywhere keeps the entries if and only if the legacy index names none. */
  lemma StoppingIsSafeIff(p: Partition, replaced: seq<BlockHeader>, blocks: seq<NewBlock>, now: int)
    requires Rewrites(p, replaced, blocks, now)
    ensures (forall k: nat :: k <= |CompactionOps(replaced, blocks)| ==> KeptAt(p, replaced, blocks, k))
       <==> PartitionEntries(p, DistinctFiles(p.legacy)) == []
  {
    var at, legacy := |blocks| + 1, PartitionEntries(p, DistinctFiles(p.legacy));
    StoppedAtSwapDoubles(p, replaced, blocks, now);
    AddsNothing(legacy, PartitionEntries(p, LoadIndex(p)));
    assert KeptAt(p, replaced, blocks, at) <==> legacy == [];
    if legacy == [] {
      forall k: nat | k <= |CompactionOps(replaced, blocks)| ensures KeptAt(p, replaced, blocks, k) {
        if k != at { StoppingKeepsEntries(p, replaced, blocks, now, k); }
      }
    }
  }

  lemma AddsNothing(a: seq<LogEntry>, b: seq<LogEntry>)
    ensures multiset(a) + multiset(b) == multiset(b) <==> a == []
  {
    if a != [] {
      assert a[0] in multiset(a);
      assert (multiset(a) + multiset(b))[a[0]] > multiset(b)[a[0]];
    }
  }

  /** Compacting from a header list that misses a block of the index orphans that block: its file stays,
      and no index names it any more. */
  lemma StaleCompactionOrphans(p: Partition, stale: seq<BlockHeader>, blocks: seq<NewBlock>, h: BlockHeader)
    requires h in LoadIndex(p) && h.fileName in p.files && h.fileName !in FileNames(stale) && FreshNames(p, stale, blocks)
    ensures h.fileName in Compacted(p, stale, blocks).files && !NamesFile(LoadIndex(Compacted(p, stale, blocks)), h.fileName)
  {
    var q := Compacted(p, stale, blocks);
    var loaded := LoadIndex(q);
    forall i | 0 <= i < |loaded| ensures loaded[i].fileName != h.fileName {
      LoadIndexMembers(q, loaded[i]);
      var k :| 0 <= k < |q.index| && q.index[k] == loaded[i];
      assert blocks[k].header == loaded[i];
    }
  }
}
