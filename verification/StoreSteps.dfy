/** The store's methods as steps of its runs: what each does to disk and cache is what its step does. */
module StoreSteps {
  import opened LogEntries
  import opened Blocks
  import opened StoreScan
  import opened Compaction
  import opened Retention
  import opened StorePartitions
  import opened StoreState
  import opened StoreRuns
  import opened BlockStore

  ghost function StateOf(store: FileStore): Store
    reads store
  {
    Store(store.disk, store.cache)
  }

  /** `step` leads from `before` to `after`. */
  ghost predicate Takes(before: Store, step: StoreStep, after: Store) {
    StepEnabled(before, step) && after == StepApply(before, step)
  }

  method AppendIsStep(store: FileStore, hour: int, entries: seq<LogEntry>, fileName: nat, size: nat, now: int)
    requires store.cache.Keys <= store.disk.Keys && FreshName(store.disk, store.cache, hour, fileName) && entries != []
    modifies store
    ensures Takes(old(StateOf(store)), AppendBlock(hour, entries, HeaderOf(entries, fileName, size, now)), StateOf(store))
  {
    store.AppendGroup(hour, entries, fileName, size, now);
  }

  method LoadIsStep(store: FileStore, hour: int) returns (headers: seq<BlockHeader>)
    requires store.Valid() && hour in store.disk
    modifies store
    ensures Takes(old(StateOf(store)), Load(hour), StateOf(store))
  {
    headers := store.GetPartitionHeaders(hour);
  }

  method CompactIsStep(store: FileStore, hour: int, max: int, names: nat -> nat, sizes: nat -> nat, now: int, rewriteOk: bool)
    returns (ok: bool, ghost blocks: seq<NewBlock>)
    requires store.Valid() && (forall i: nat, j: nat :: i != j ==> names(i) != names(j))
    requires forall i: nat :: FreshName(store.disk, store.cache, hour, names(i))
    modifies store
    ensures if ok && Mergeable(old(store.disk), old(store.cache), hour)
      then Takes(old(StateOf(store)), Compact(hour, ToCompact(old(store.disk), old(store.cache), hour), blocks, now), StateOf(store))
      else StateOf(store) == old(StateOf(store))
  {
    var reduced, freed;
    ok, reduced, freed, blocks := store.CompactPartition(hour, max, names, sizes, now, rewriteOk);
  }

  method PruneIsStep(store: FileStore, files: seq<DataFile>, maxSizeBytes: int, indexBytes: nat) returns (deleted: nat)
    requires store.Valid() && !store.closed
    modifies store
    ensures if deleted > 0 then Takes(old(StateOf(store)), PruneTo(store.disk), StateOf(store)) else StateOf(store) == old(StateOf(store))
  {
    var ok, freed;
    ok, deleted, freed := store.Prune(files, maxSizeBytes, indexBytes);
  }

  method ReopenIsStep(store: FileStore) returns (again: FileStore)
    requires store.Valid()
    ensures Takes(StateOf(store), Reopen, StateOf(again))
  {
    forall hour, h | hour in store.disk && h in LoadIndex(store.disk[hour]) ensures Sound(store.disk[hour], hour, h) {
      assert KnownHeader(store.disk, store.cache, hour, h) && HeaderOk(store.disk, store.summaries, hour, h);
    }
    again := new FileStore(store.disk, store.totalBytes);
  }
}
