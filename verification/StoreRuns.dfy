/** Whole runs of the store: exactly on which of them the cached headers always agree with the index files.
    Each step is what one method of the store does to disk and cache. */
module StoreRuns {
  import opened LogEntries
  import opened Blocks
  import opened StoreScan
  import opened Compaction
  import opened StoreState
  import opened StoreIntegrity

  datatype Store = Store(disk: Disk, cache: map<int, seq<BlockHeader>>)

  datatype StoreStep =
    | AppendBlock(hour: int, entries: seq<LogEntry>, header: BlockHeader)
    | Load(hour: int)                                                       // a query reads an index
    | Compact(hour: int, headers: seq<BlockHeader>, blocks: seq<NewBlock>, now: int)
    | PruneTo(left: Disk)
    | Reopen

  predicate StepEnabled(s: Store, step: StoreStep) {
    match step
    case AppendBlock(hour, _, header) => FreshName(s.disk, s.cache, hour, header.fileName)
    case Load(hour) => hour in s.disk
    case Compact(hour, headers, blocks, now) => hour in s.disk && WellFormed(blocks, now)
    case PruneTo(left) => true
    case Reopen => true
  }

  function StepApply(s: Store, step: StoreStep): Store
    requires StepEnabled(s, step)
  {
    match step
    case AppendBlock(hour, entries, header) => Store(DiskWith(s.disk, hour, entries, header), CacheWith(s.cache, hour, header))
    case Load(hour) =>
      if hour in s.cache || LoadIndex(s.disk[hour]) == [] then s else s.(cache := s.cache[hour := LoadIndex(s.disk[hour])])
    case Compact(hour, headers, blocks, _) =>
      Store(s.disk[hour := Compacted(s.disk[hour], headers, blocks)], s.cache[hour := Headers(blocks)])
    case PruneTo(left) => Store(left, map[])
    case Reopen => Store(s.disk, LoadedCache(s.disk))
  }

  predicate LegalRun(s: Store, steps: seq<StoreStep>)
    decreases |steps|
  {
    steps == [] || (StepEnabled(s, steps[0]) && LegalRun(StepApply(s, steps[0]), steps[1..]))
  }

  ghost predicate Agrees(s: Store) {
    s.cache.Keys <= s.disk.Keys && CoherentCache(s.disk, s.cache)
  }

  ghost predicate AlwaysAgrees(s: Store, steps: seq<StoreStep>)
    requires LegalRun(s, steps)
    decreases |steps|
  {
    Agrees(s) && (steps == [] || AlwaysAgrees(StepApply(s, steps[0]), steps[1..]))
  }

  /** The partition is cached, or has no index yet. */
  predicate KnownPartition(s: Store, hour: int) {
    hour in s.cache || hour !in s.disk || LoadIndex(s.disk[hour]) == []
  }

  /** No append goes to a partition whose index is there but not cached. */
  predicate AppendsToKnown(s: Store, steps: seq<StoreStep>)
    requires LegalRun(s, steps)
    decreases |steps|
  {
    steps == [] ||
    ((steps[0].AppendBlock? ==> KnownPartition(s, steps[0].hour)) && AppendsToKnown(StepApply(s, steps[0]), steps[1..]))
  }

  lemma StepAgrees(s: Store, step: StoreStep)
    requires Agrees(s) && StepEnabled(s, step)
    ensures Agrees(StepApply(s, step)) <==> (step.AppendBlock? ==> KnownPartition(s, step.hour))
  {
    match step
    case AppendBlock(hour, entries, header) => CoherenceAfterAppend(s.disk, s.cache, hour, entries, header);
    case Load(hour) =>
      var t := StepApply(s, step);
      forall x ensures CoherentAt(t.disk, t.cache, x) { assert CoherentAt(s.disk, s.cache, x); }
    case Compact(hour, headers, blocks, now) => CompactKeepsCoherent(s.disk, s.cache, hour, headers, blocks, now);
    case PruneTo(left) =>
      forall x ensures CoherentAt(left, map[], x) {}
    case Reopen =>
      OpenedIsCurrent(s.disk);
      CurrentIsCoherent(s.disk, LoadedCache(s.disk));
  }

  /** Cache and index agree at every point of a run if and only if every append of the run goes to a
      partition that is cached or has no index. */
  lemma {:induction false} AgreesIffAppendsToKnown(s: Store, steps: seq<StoreStep>)
    requires Agrees(s) && LegalRun(s, steps)
    ensures AlwaysAgrees(s, steps) <==> AppendsToKnown(s, steps)
    decreases |steps|
  {
    if steps != [] {
      StepAgrees(s, steps[0]);
      if Agrees(StepApply(s, steps[0])) {
        AgreesIffAppendsToKnown(StepApply(s, steps[0]), steps[1..]);
      } else if steps[1..] == [] {
        assert !AlwaysAgrees(StepApply(s, steps[0]), steps[1..]);
      }
    }
  }

  // ---------------------------------------------------------------- runs that can be told by looking at them

  /** After every pruning the store is reopened before anything is appended. */
  predicate ReopensBeforeAppend(steps: seq<StoreStep>, pruned: bool) {
    steps == [] ||
    match steps[0]
    case AppendBlock(_, _, _) => !pruned && ReopensBeforeAppend(steps[1..], pruned)
    case PruneTo(_) => ReopensBeforeAppend(steps[1..], true)
    case Reopen => ReopensBeforeAppend(steps[1..], false)
    case _ => ReopensBeforeAppend(steps[1..], pruned)
  }

  lemma StepKeepsCurrent(s: Store, step: StoreStep)
    requires Agrees(s) && CurrentCache(s.disk, s.cache) && StepEnabled(s, step) && !step.PruneTo?
    ensures CurrentCache(StepApply(s, step).disk, StepApply(s, step).cache)
  {
    match step
    case AppendBlock(hour, entries, header) => AppendKeepsCurrent(s.disk, s.cache, hour, entries, header);
    case Load(hour) => assert CurrentAt(s.disk, s.cache, hour);
    case Compact(hour, headers, blocks, now) => CompactKeepsCurrent(s.disk, s.cache, hour, headers, blocks, now);
    case Reopen => OpenedIsCurrent(s.disk);
  }

  lemma CurrentIsKnown(s: Store, hour: int)
    requires CurrentCache(s.disk, s.cache)
    ensures KnownPartition(s, hour)
  {
    assert CurrentAt(s.disk, s.cache, hour);
  }

  lemma {:induction false} ReopeningIsEnough(s: Store, steps: seq<StoreStep>, pruned: bool)
    requires Agrees(s) && LegalRun(s, steps) && ReopensBeforeAppend(steps, pruned) && (!pruned ==> CurrentCache(s.disk, s.cache))
    ensures AlwaysAgrees(s, steps)
    decreases |steps|
  {
    if steps != [] {
      var step := steps[0];
      if step.AppendBlock? { CurrentIsKnown(s, step.hour); }
      StepAgrees(s, step);
      if !pruned && !step.PruneTo? { StepKeepsCurrent(s, step); }
      if step.Reopen? { OpenedIsCurrent(s.disk); }
      ReopeningIsEnough(StepApply(s, step), steps[1..], if step.PruneTo? then true else if step.Reopen? then false else pruned);
    }
  }

  lemma {:induction false} NoPruneReopens(steps: seq<StoreStep>)
    requires forall i :: 0 <= i < |steps| ==> !steps[i].PruneTo?
    ensures ReopensBeforeAppend(steps, false)
  {
    if steps != [] { NoPruneReopens(steps[1..]); }
  }

  /** On every run of an opened store that never prunes, or reopens after every pruning before it appends,
      the cached headers are those of the index files at every point. */
  lemma CacheIsIndex(disk: Disk, steps: seq<StoreStep>)
    requires LegalRun(Store(disk, LoadedCache(disk)), steps)
    requires ReopensBeforeAppend(steps, false) || forall i :: 0 <= i < |steps| ==> !steps[i].PruneTo?
    ensures AlwaysAgrees(Store(disk, LoadedCache(disk)), steps)
  {
    if !ReopensBeforeAppend(steps, false) { NoPruneReopens(steps); }
    OpenedIsCurrent(disk);
    CurrentIsCoherent(disk, LoadedCache(disk));
    ReopeningIsEnough(Store(disk, LoadedCache(disk)), steps, false);
  }
}
