/** Compressed blocks, their headers, and the two levels of pruning metadata. Compression and JSON are
    taken as exact inverses, so a block file is the sequence of entries in it. */
module Blocks {
  import opened GoText
  import opened LogEntries

  // ---------------------------------------------------------------- levels

  /** The six severity bits; a level mask is the set of bits that are on. */
  datatype Level = Trace | Debug | Info | Warn | Error | Fatal

  type Mask = set<Level>

  function LevelToBit(level: Str): Level {
    var l := ToUpper(TrimSpace(level));
    if l == Ascii("TRACE") then Trace
    else if l == Ascii("DEBUG") then Debug
    else if l == Ascii("INFO") then Info
    else if l == Ascii("WARN") || l == Ascii("WARNING") then Warn
    else if l == Ascii("ERROR") || l == Ascii("ERR") then Error
    else if l == Ascii("FATAL") || l == Ascii("PANIC") || l == Ascii("CRIT") || l == Ascii("CRITICAL") then Fatal
    else Info
  }

  /** Levels that match up to case share a bit. */
  lemma LevelBitOfFold(a: Str, b: Str)
    requires EqualFold(a, b)
    ensures LevelToBit(a) == LevelToBit(b)
  {
    TrimUpperOfFold(a, b);
  }

  // ---------------------------------------------------------------- headers

  datatype BlockHeader = BlockHeader(
    fileName: nat, minNano: int, maxNano: int, recordCount: nat, compressedBytes: nat,
    levelMask: Mask, hosts: set<Str>, sources: set<Str>)

  /** The time an entry is indexed under: a zero timestamp is indexed as the current time. */
  function IndexedNano(e: LogEntry, now: int): int {
    if IsZero(e.timestamp) then now else UnixNano(e.timestamp)
  }

  function MinNano(entries: seq<LogEntry>, now: int): int {
    if entries == [] then MAX_INT64
    else
      var m, x := MinNano(entries[..|entries| - 1], now), IndexedNano(entries[|entries| - 1], now);
      if x < m then x else m
  }

  function MaxNano(entries: seq<LogEntry>, now: int): int {
    if entries == [] then -1
    else
      var m, x := MaxNano(entries[..|entries| - 1], now), IndexedNano(entries[|entries| - 1], now);
      if x > m then x else m
  }

  function LevelMask(entries: seq<LogEntry>): Mask {
    if entries == [] then {}
    else LevelMask(entries[..|entries| - 1]) + {LevelToBit(entries[|entries| - 1].level)}
  }

  function HostSet(entries: seq<LogEntry>): set<Str> {
    set i | 0 <= i < |entries| && entries[i].host != [] :: entries[i].host
  }

  function SourceSet(entries: seq<LogEntry>): set<Str> {
    set i | 0 <= i < |entries| && entries[i].source != [] :: entries[i].source
  }

  function HeaderOf(entries: seq<LogEntry>, fileName: nat, size: nat, now: int): BlockHeader {
    BlockHeader(fileName, MinNano(entries, now), MaxNano(entries, now), |entries|, size,
                LevelMask(entries), HostSet(entries), SourceSet(entries))
  }

  const EMPTY_HEADER := BlockHeader(0, 0, 0, 0, 0, {}, {}, {})

  /** `EncodeBlock`'s loop over the entries. */
  method EncodeBlock(entries: seq<LogEntry>, fileName: nat, size: nat, now: int) returns (h: BlockHeader)
    ensures h == if entries == [] then EMPTY_HEADER else HeaderOf(entries, fileName, size, now)
  {
    if |entries| == 0 { return EMPTY_HEADER; }
    var minNano, maxNano := MAX_INT64, -1;
    var mask: Mask, hosts: set<Str>, sources: set<Str> := {}, {}, {};
    var i := 0;
    while i < |entries|
      invariant 0 <= i <= |entries|
      invariant minNano == MinNano(entries[..i], now) && maxNano == MaxNano(entries[..i], now)
      invariant mask == LevelMask(entries[..i])
      invariant hosts == HostSet(entries[..i]) && sources == SourceSet(entries[..i])
    {
      var e := entries[i];
      HeaderGrows(entries, i, now);
      var nano := IndexedNano(e, now);
      if nano < minNano { minNano := nano; }
      if nano > maxNano { maxNano := nano; }
      mask := mask + {LevelToBit(e.level)};
      if e.host != [] { hosts := hosts + {e.host}; }
      if e.source != [] { sources := sources + {e.source}; }
      i := i + 1;
    }
    assert entries[..i] == entries;
    h := BlockHeader(fileName, minNano, maxNano, |entries|, size, mask, hosts, sources);
  }

  /** What one more entry adds to a header. */
  lemma HeaderGrows(entries: seq<LogEntry>, i: nat, now: int)
    requires i < |entries|
    ensures var was, upto, e := entries[..i], entries[..i + 1], entries[i];
      var nano := IndexedNano(e, now);
      && MinNano(upto, now) == (if nano < MinNano(was, now) then nano else MinNano(was, now))
      && MaxNano(upto, now) == (if nano > MaxNano(was, now) then nano else MaxNano(was, now))
      && LevelMask(upto) == LevelMask(was) + {LevelToBit(e.level)}
      && HostSet(upto) == (if e.host != [] then HostSet(was) + {e.host} else HostSet(was))
      && SourceSet(upto) == (if e.source != [] then SourceSet(was) + {e.source} else SourceSet(was))
  {
    assert entries[..i + 1][..i] == entries[..i];
    assert entries[..i + 1] == entries[..i] + [entries[i]];
    SetsAppend(entries[..i], entries[i]);
  }

  lemma SetsAppend(entries: seq<LogEntry>, e: LogEntry)
    ensures HostSet(entries + [e]) == if e.host != [] then HostSet(entries) + {e.host} else HostSet(entries)
    ensures SourceSet(entries + [e]) == if e.source != [] then SourceSet(entries) + {e.source} else SourceSet(entries)
  {
    SetsConcat(entries, [e]);
    assert HostSet([e]) == if e.host != [] then {e.host} else {} by {
      assert [e][0] == e;
    }
    assert SourceSet([e]) == if e.source != [] then {e.source} else {} by {
      assert [e][0] == e;
    }
  }

  lemma SetsConcat(a: seq<LogEntry>, b: seq<LogEntry>)
    ensures HostSet(a + b) == HostSet(a) + HostSet(b)
    ensures SourceSet(a + b) == SourceSet(a) + SourceSet(b)
  {
    var c := a + b;
    forall x | x in HostSet(a) + HostSet(b) ensures x in HostSet(c) {
      if x in HostSet(a) {
        var i :| 0 <= i < |a| && a[i].host == x && x != [];
        assert c[i] == a[i];
      } else {
        var i :| 0 <= i < |b| && b[i].host == x && x != [];
        assert c[|a| + i] == b[i];
      }
    }
    forall x | x in SourceSet(a) + SourceSet(b) ensures x in SourceSet(c) {
      if x in SourceSet(a) {
        var i :| 0 <= i < |a| && a[i].source == x && x != [];
        assert c[i] == a[i];
      } else {
        var i :| 0 <= i < |b| && b[i].source == x && x != [];
        assert c[|a| + i] == b[i];
      }
    }
  }

  // ---------------------------------------------------------------- pruning

  predicate Between(h: BlockHeader, q: Query) {
    && (!IsZero(q.startTime) ==> h.maxNano >= UnixNano(q.startTime))
    && (!IsZero(q.endTime) ==> h.minNano <= UnixNano(q.endTime))
  }

  /** `BlockHeader.MatchesQuery`: host and source are compared ignoring case. */
  predicate BlockMatches(h: BlockHeader, q: Query) {
    && Between(h, q)
    && (q.level != [] ==> LevelToBit(q.level) in h.levelMask)
    && (q.host != [] ==> exists x :: x in h.hosts && EqualFold(x, q.host))
    && (q.source != [] ==> exists x :: x in h.sources && EqualFold(x, q.source))
  }

  /** A timestamp the index represents faithfully: set, and in the int64 nanosecond range. */
  predicate Indexable(t: Time) {
    !IsZero(t) && InInt64(t.nano)
  }

  /** A query bound that compares faithfully. */
  predicate ComparableBound(t: Time) {
    IsZero(t) || InInt64(t.nano)
  }

  /** What a header must say about an entry of its block. */
  predicate CoversEntry(h: BlockHeader, e: LogEntry) {
    && h.minNano <= e.timestamp.nano <= h.maxNano
    && LevelToBit(e.level) in h.levelMask
    && (e.host != [] ==> e.host in h.hosts)
    && (e.source != [] ==> e.source in h.sources)
  }

  lemma {:induction false} BoundsCover(entries: seq<LogEntry>, now: int, i: nat)
    requires i < |entries|
    ensures MinNano(entries, now) <= IndexedNano(entries[i], now) <= MaxNano(entries, now)
    ensures LevelToBit(entries[i].level) in LevelMask(entries)
  {
    var n := |entries| - 1;
    if i < n { BoundsCover(entries[..n], now, i); }
  }

  lemma {:induction false} BoundsInRange(entries: seq<LogEntry>, now: int)
    requires InInt64(now) && entries != []
    ensures InInt64(MinNano(entries, now)) && InInt64(MaxNano(entries, now))
  {
    var n := |entries| - 1;
    if n > 0 { BoundsInRange(entries[..n], now); }
  }

  /** A header covers an entry it was computed from if and only if the entry's timestamp is set and in the
      int64 nanosecond range. */
  lemma HeaderCoversIff(entries: seq<LogEntry>, fileName: nat, size: nat, now: int, i: nat)
    requires i < |entries| && InInt64(now)
    ensures CoversEntry(HeaderOf(entries, fileName, size, now), entries[i]) <==> Indexable(entries[i].timestamp)
  {
    BoundsCover(entries, now, i);
    BoundsInRange(entries, now);
  }

  /** Every header covers the entries it was computed from, whatever the clock said. */
  lemma HeaderCovers(entries: seq<LogEntry>, fileName: nat, size: nat, now: int, i: nat)
    requires i < |entries| && Indexable(entries[i].timestamp)
    ensures CoversEntry(HeaderOf(entries, fileName, size, now), entries[i])
  {
    BoundsCover(entries, now, i);
  }

  lemma FoldOfEmpty(a: Str, b: Str)
    requires EqualFold(a, b) && b != []
    ensures a != []
  {
    assert |ToUpper(a)| == |ToUpper(b)|;
  }

  /** Block pruning never drops a match. */
  lemma BlockPruningSound(h: BlockHeader, e: LogEntry, q: Query)
    requires CoversEntry(h, e) && Matches(e, q)
    requires ComparableBound(q.startTime) && ComparableBound(q.endTime)
    ensures BlockMatches(h, q)
  {
    if q.level != [] { LevelBitOfFold(e.level, q.level); }
    if q.host != [] { FoldOfEmpty(e.host, q.host); }
    if q.source != [] { FoldOfEmpty(e.source, q.source); }
  }

  /** A zero timestamp is indexed as "now", so an end bound before that moment prunes an entry that
      matches it. */
  lemma ZeroTimestampIsPruned(now: int)
    requires 0 < now <= MAX_INT64
    ensures var e := LogEntry([1], ZERO_TIME, [2], [3], [], [4], map[]);
      var q := Query([], [], [], ZERO_TIME, Time(now - 1, 0), [], 1);
      Matches(e, q) && !BlockMatches(HeaderOf([e], 0, 0, now), q)
  {
    var e := LogEntry([1], ZERO_TIME, [2], [3], [], [4], map[]);
    var entries := [e];
    assert entries[..0] == [];
    assert MinNano(entries, now) == now by {
      assert MinNano([], now) == MAX_INT64;
    }
  }

  // ---------------------------------------------------------------- partition summaries

  datatype Summary = Summary(
    minNano: int, maxNano: int, levelMask: Mask, hosts: set<Str>, sources: set<Str>, blockCount: nat, totalBytes: nat)

  /** `PartitionSummary.MatchesQuery`: host and source are compared exactly. */
  predicate SummaryMatches(s: Summary, q: Query) {
    && (!IsZero(q.startTime) ==> s.maxNano >= q.startTime.nano)
    && (!IsZero(q.endTime) ==> s.minNano <= q.endTime.nano)
    && (q.level != [] ==> LevelToBit(q.level) in s.levelMask)
    && (q.host != [] ==> q.host in s.hosts)
    && (q.source != [] ==> q.source in s.sources)
  }

  function NonEmpty(xs: set<Str>): set<Str> {
    set x | x in xs && x != []
  }

  /** `updatePartitionSummaryLocked`; also one round of `buildPartitionSummaryLocked`. */
  function AddBlock(s: Option<Summary>, h: BlockHeader): Summary {
    if s.None? then Summary(h.minNano, h.maxNano, h.levelMask, NonEmpty(h.hosts), NonEmpty(h.sources), 1, h.compressedBytes)
    else
      var p := s.value;
      Summary(if h.minNano < p.minNano then h.minNano else p.minNano,
              if h.maxNano > p.maxNano then h.maxNano else p.maxNano,
              p.levelMask + h.levelMask, p.hosts + NonEmpty(h.hosts), p.sources + NonEmpty(h.sources),
              p.blockCount + 1, p.totalBytes + h.compressedBytes)
  }

  function Summarize(headers: seq<BlockHeader>): Option<Summary> {
    if headers == [] then None
    else Some(AddBlock(Summarize(headers[..|headers| - 1]), headers[|headers| - 1]))
  }

  predicate SummaryCovers(s: Summary, h: BlockHeader) {
    && s.minNano <= h.minNano && h.maxNano <= s.maxNano
    && h.levelMask <= s.levelMask
    && NonEmpty(h.hosts) <= s.hosts && NonEmpty(h.sources) <= s.sources
  }

  lemma AddBlockCovers(s: Option<Summary>, h: BlockHeader)
    ensures SummaryCovers(AddBlock(s, h), h)
    ensures s.Some? ==> forall g :: SummaryCovers(s.value, g) ==> SummaryCovers(AddBlock(s, h), g)
  {
  }

  lemma {:induction false} SummarizeCovers(headers: seq<BlockHeader>, i: nat)
    requires i < |headers|
    ensures Summarize(headers).Some? && SummaryCovers(Summarize(headers).value, headers[i])
  {
    var n := |headers| - 1;
    AddBlockCovers(Summarize(headers[..n]), headers[n]);
    if i < n { SummarizeCovers(headers[..n], i); }
  }

  /** The query spells host and source as some stored block does, or nothing stored folds to them. */
  predicate SpelledAsStored(s: Summary, q: Query) {
    && (q.host != [] ==> q.host in s.hosts || forall x :: x in s.hosts ==> !EqualFold(x, q.host))
    && (q.source != [] ==> q.source in s.sources || forall x :: x in s.sources ==> !EqualFold(x, q.source))
  }

  /** Partition pruning never drops a match when the query spells host and source as stored. */
  lemma SummaryPruningSound(s: Summary, h: BlockHeader, e: LogEntry, q: Query)
    requires SummaryCovers(s, h) && CoversEntry(h, e) && Matches(e, q) && SpelledAsStored(s, q)
    ensures SummaryMatches(s, q)
  {
    if q.level != [] { LevelBitOfFold(e.level, q.level); }
    if q.host != [] { FoldOfEmpty(e.host, q.host); }
    if q.source != [] { FoldOfEmpty(e.source, q.source); }
  }

  /** For a query by host alone, partition pruning is harmless exactly when the query spells the host as
      stored: a partition that only holds other spellings of it is skipped although its entries match. */
  lemma SpellingIsExact(s: Summary, entries: seq<LogEntry>, host: Str, limit: int)
    requires s.hosts == HostSet(entries) && host != []
    ensures var q := Query(host, [], [], ZERO_TIME, ZERO_TIME, [], limit);
      SummaryMatches(s, q) || (forall e :: e in entries ==> !Matches(e, q)) <==> SpelledAsStored(s, q)
  {
    var q := Query(host, [], [], ZERO_TIME, ZERO_TIME, [], limit);
    forall e | e in entries && Matches(e, q) ensures e.host in s.hosts && EqualFold(e.host, host) {
      FoldOfEmpty(e.host, host);
      var i :| 0 <= i < |entries| && entries[i] == e;
      assert entries[i].host in HostSet(entries);
    }
    forall x | x in s.hosts && EqualFold(x, host) ensures exists e :: e in entries && Matches(e, q) {
      var i :| 0 <= i < |entries| && entries[i].host == x && x != [];
      assert entries[i] in entries && Matches(entries[i], q);
    }
  }

  /** The same for a query by source alone. */
  lemma SourceSpellingIsExact(s: Summary, entries: seq<LogEntry>, source: Str, limit: int)
    requires s.sources == SourceSet(entries) && source != []
    ensures var q := Query([], source, [], ZERO_TIME, ZERO_TIME, [], limit);
      SummaryMatches(s, q) || (forall e :: e in entries ==> !Matches(e, q)) <==> SpelledAsStored(s, q)
  {
    var q := Query([], source, [], ZERO_TIME, ZERO_TIME, [], limit);
    forall e | e in entries && Matches(e, q) ensures e.source in s.sources && EqualFold(e.source, source) {
      FoldOfEmpty(e.source, source);
      var i :| 0 <= i < |entries| && entries[i] == e;
      assert entries[i].source in SourceSet(entries);
    }
    forall x | x in s.sources && EqualFold(x, source) ensures exists e :: e in entries && Matches(e, q) {
      var i :| 0 <= i < |entries| && entries[i].source == x && x != [];
      assert entries[i] in entries && Matches(entries[i], q);
    }
  }

  /** The smallest failure: stored as "A", asked for as "a". */
  lemma OtherSpellingIsPruned()
    ensures var e := LogEntry([1], Time(1, 0), [65], [66], [], [67], map[]);
      var q := Query([97], [], [], ZERO_TIME, ZERO_TIME, [], 1);
      Matches(e, q) && BlockMatches(HeaderOf([e], 0, 0, 0), q) && !SummaryMatches(AddBlock(None, HeaderOf([e], 0, 0, 0)), q)
  {
    var e := LogEntry([1], Time(1, 0), [65], [66], [], [67], map[]);
    assert ToUpper([65]) == [65] == ToUpper([97]);
    var one := [e];
    assert HostSet(one) == {[65]} by {
      assert one[0].host == [65];
    }
  }

  // ---------------------------------------------------------------- pruning is exact

  /** A header's bounds are the indexed times of entries; the upper one is never below -1. */
  lemma {:induction false} BoundsAttained(entries: seq<LogEntry>, now: int) returns (i: nat, j: nat)
    requires entries != [] && InInt64(now)
    ensures i < |entries| && MinNano(entries, now) == IndexedNano(entries[i], now)
    ensures j < |entries| && (MaxNano(entries, now) == -1 || MaxNano(entries, now) == IndexedNano(entries[j], now))
  {
    var n := |entries| - 1;
    var x := IndexedNano(entries[n], now);
    i, j := n, n;
    if n > 0 {
      var i', j' := BoundsAttained(entries[..n], now);
      if x >= MinNano(entries[..n], now) { i := i'; }
      if x <= MaxNano(entries[..n], now) { j := j'; }
    }
  }

  /** A bit that is on is the level of an entry; `BoundsCover` is the converse. */
  lemma {:induction false} MaskAttained(entries: seq<LogEntry>, bit: Level) returns (i: nat)
    requires bit in LevelMask(entries)
    ensures i < |entries| && LevelToBit(entries[i].level) == bit
  {
    var n := |entries| - 1;
    i := n;
    if bit in LevelMask(entries[..n]) { i := MaskAttained(entries[..n], bit); }
  }

  function LevelName(bit: Level): Str {
    match bit
    case Trace => Ascii("TRACE")
    case Debug => Ascii("DEBUG")
    case Info => Ascii("INFO")
    case Warn => Ascii("WARN")
    case Error => Ascii("ERROR")
    case Fatal => Ascii("FATAL")
  }

  lemma PlainName(s: Str)
    requires s != [] && !IsSpace(s[0]) && !IsSpace(s[|s| - 1]) && forall i :: 0 <= i < |s| ==> 65 <= s[i] <= 90
    ensures ToUpper(TrimSpace(s)) == s
  {
  }

  lemma TraceBit()
    ensures LevelToBit(Ascii("TRACE")) == Trace
  {
    PlainName(Ascii("TRACE"));
  }

  lemma DebugBit()
    ensures LevelToBit(Ascii("DEBUG")) == Debug
  {
    PlainName(Ascii("DEBUG"));
  }

  lemma InfoBit()
    ensures LevelToBit(Ascii("INFO")) == Info
  {
    PlainName(Ascii("INFO"));
  }

  lemma WarnBit()
    ensures LevelToBit(Ascii("WARN")) == Warn
  {
    PlainName(Ascii("WARN"));
  }

  lemma WarningBit()
    ensures LevelToBit(Ascii("WARNING")) == Warn
  {
    PlainName(Ascii("WARNING"));
  }

  lemma ErrorBit()
    ensures LevelToBit(Ascii("ERROR")) == Error
  {
    PlainName(Ascii("ERROR"));
  }

  lemma ErrBit()
    ensures LevelToBit(Ascii("ERR")) == Error
  {
    PlainName(Ascii("ERR"));
  }

  lemma FatalBit()
    ensures LevelToBit(Ascii("FATAL")) == Fatal
  {
    PlainName(Ascii("FATAL"));
  }

  lemma PanicBit()
    ensures LevelToBit(Ascii("PANIC")) == Fatal
  {
    PlainName(Ascii("PANIC"));
  }

  lemma CritBit()
    ensures LevelToBit(Ascii("CRIT")) == Fatal
  {
    PlainName(Ascii("CRIT"));
  }

  lemma CriticalBit()
    ensures LevelToBit(Ascii("CRITICAL")) == Fatal
  {
    PlainName(Ascii("CRITICAL"));
  }

  /** The six levels have a bit each. */
  lemma LevelNames(bit: Level)
    ensures LevelToBit(LevelName(bit)) == bit
  {
    match bit
    case Trace => TraceBit();
    case Debug => DebugBit();
    case Info => InfoBit();
    case Warn => WarnBit();
    case Error => ErrorBit();
    case Fatal => FatalBit();
  }

  /** The query's time bounds, if it has both, leave room between them. */
  predicate ProperBounds(q: Query) {
    && ComparableBound(q.startTime) && ComparableBound(q.endTime)
    && (!IsZero(q.startTime) && !IsZero(q.endTime) ==> q.startTime.nano <= q.endTime.nano)
  }

  /** An entry for a query without text search, inside a time range and a level mask that do not exclude it. */
  lemma PossibleEntry(min: int, max: int, mask: Mask, host: Str, source: Str, q: Query) returns (e: LogEntry)
    requires min <= max && mask != {} && ProperBounds(q) && q.search == []
    requires (!IsZero(q.startTime) ==> max >= q.startTime.nano) && (!IsZero(q.endTime) ==> min <= q.endTime.nano)
    requires q.level != [] ==> LevelToBit(q.level) in mask
    requires (q.host != [] ==> EqualFold(host, q.host)) && (q.source != [] ==> EqualFold(source, q.source))
    ensures Matches(e, q) && min <= e.timestamp.nano <= max && LevelToBit(e.level) in mask && e.host == host && e.source == source
  {
    var bit :| bit in mask;
    LevelNames(bit);
    var level := if q.level != [] then q.level else LevelName(bit);
    var nano := if !IsZero(q.startTime) && q.startTime.nano > min then q.startTime.nano else min;
    e := LogEntry([], Time(nano, 0), host, source, level, [], map[]);
  }

  /** A block is read if and only if its header leaves an entry possible that matches. */
  lemma BlockReadIff(h: BlockHeader, q: Query)
    requires h.minNano <= h.maxNano && h.levelMask != {} && ProperBounds(q) && q.search == []
    ensures BlockMatches(h, q) <==> exists e :: CoversEntry(h, e) && Matches(e, q)
  {
    if BlockMatches(h, q) {
      var host := if q.host == [] then [] else var x :| x in h.hosts && EqualFold(x, q.host); x;
      var source := if q.source == [] then [] else var x :| x in h.sources && EqualFold(x, q.source); x;
      var e := PossibleEntry(h.minNano, h.maxNano, h.levelMask, host, source, q);
      assert CoversEntry(h, e);
    }
    if e :| CoversEntry(h, e) && Matches(e, q) { BlockPruningSound(h, e, q); }
  }

  /** What a summary leaves possible. */
  predicate SummaryAllows(s: Summary, e: LogEntry) {
    && s.minNano <= e.timestamp.nano <= s.maxNano && LevelToBit(e.level) in s.levelMask
    && (e.host != [] ==> e.host in s.hosts) && (e.source != [] ==> e.source in s.sources)
  }

  predicate SpelledLike(e: LogEntry, q: Query) {
    (q.host != [] ==> e.host == q.host) && (q.source != [] ==> e.source == q.source)
  }

  /** A partition is looked into if and only if its summary leaves a match possible that spells host and source as
      the query does. */
  lemma PartitionReadIff(s: Summary, q: Query)
    requires s.minNano <= s.maxNano && s.levelMask != {} && ProperBounds(q) && q.search == []
    ensures SummaryMatches(s, q) <==> exists e :: SummaryAllows(s, e) && Matches(e, q) && SpelledLike(e, q)
  {
    if SummaryMatches(s, q) {
      var e := PossibleEntry(s.minNano, s.maxNano, s.levelMask, q.host, q.source, q);
      assert SummaryAllows(s, e);
    }
    if e :| SummaryAllows(s, e) && Matches(e, q) && SpelledLike(e, q) {
      if q.level != [] { LevelBitOfFold(e.level, q.level); }
    }
  }

  function SumCompressed(headers: seq<BlockHeader>): nat {
    if headers == [] then 0 else SumCompressed(headers[..|headers| - 1]) + headers[|headers| - 1].compressedBytes
  }

  /** A summary counts its blocks and their bytes. */
  lemma {:induction false} SummaryCounts(headers: seq<BlockHeader>)
    requires headers != []
    ensures Summarize(headers).Some? && Summarize(headers).value.blockCount == |headers|
    ensures Summarize(headers).value.totalBytes == SumCompressed(headers)
  {
    var n := |headers| - 1;
    if n > 0 { SummaryCounts(headers[..n]); }
  }
}
