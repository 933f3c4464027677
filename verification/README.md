# Barnacles, modelled and proved in Dafny

Barnacles ships log entries from edge agents to a server or a cluster of servers. This project models the
parts of it that carry promises over whole runs, and proves those promises for every input, every run or
every reachable state.

- **Delivery.** The agent's disk spool (`DiskSpool`, over the value model `SpoolQueue` and the file names of
  `SpoolNames`) and the protocol that `batchWorker` and `spoolDrainWorker` run over it (`Delivery`): a step
  machine over the batch in hand, the queue, the lease, the segments on disk and the server's log, with at most
  one disk operation per step, four outcomes of a send, and a crash between any two steps. `DeliveryProgress` says what each answer of the server leads to, and `SpoolSteps` shows that
  the spool's operations, reopening included, are runs of those steps.
- **Idempotence.** The duplicate filter (`Dedup`), its meaning over whole call histories (`DedupHistory`), the
  ingest path (`Ingest`), what becomes of requests that come again (`IngestRetry`) and the composition with the
  delivery protocol (`EndToEnd`).
- **Block store.** Entries and queries (`LogEntries`), blocks and pruning metadata (`Blocks`), the naive scan that
  defines what a query means (`StoreScan`), compaction (`Compaction`), retention (`Retention`), the search for and in
  partitions (`StorePartitions`), the store as values (`StoreState`), the agreement of cache, summaries and index files
  (`StoreIntegrity`) on whole runs (`StoreRuns`), the store object itself (`BlockStore`), its methods as steps of those
  runs (`StoreSteps`), its operations one after another (`StoreSequences`) and what a store just opened answers
  (`OpenedStore`).
- **Wire format.** Varints, tags and records (`Wire`), messages as decoding functions (`Protobuf`), and the
  hand-written append and parse loops (`Codec`), after the Protocol Buffers Encoding specification, sections
  "Base 128 Varints", "Length-Delimited Records", "Maps" and "Last One Wins".
- **Cluster.** The consistent hash ring (`ConsistentHash`), batch routing (`Router`), scatter-gather queries
  (`Coordinator`), and when a node's answer, and so the cluster's, is its newest entries (`NewestAnswers`).
- **Edges.** Byte-to-line framing (`Framing`) in the file tailer (`FileTailer`), and the ring buffer of recent events
  (`Recent`).

State that the Go code changes in place is a class here, with methods that follow the Go loops; each is specified
by a function on values, and the properties are proved of that function. File operations, clocks, generated ids,
hashes and the network are parameters of the methods. `dafny verify dfyconfig.toml` verifies everything.

## What holds only under a condition

Where a promise fails in general, a lemma gives the input and another says exactly when it holds.

| promise | holds exactly when | shown by |
|---|---|---|
| reopening the spool keeps the order of the pushes | every push read a later clock value than the one before | `SpoolQueue.PushOrderIffClockAdvances`, `SpoolQueue.ClockStepBackReordersRecovery` |
| from an idle state whose segments fit the limit, first arrivals stay in order whatever happens next | every segment left on disk has arrived | `DeliveryLimits.FifoIffAllArrived`; runs to such states in `DeliveryLimits.FailedPruneBreaksFifo`, `FailedDropBreaksFifo`, `SkippedSegmentBreaksFifo` |
| an entry of a refused request is stored by the retry | the window has passed since its id was last offered, or at least `capacity` other ids were offered since | `IngestRetry.RepeatStoredIff`, `IngestRetry.RefuseThenRetry`, `IngestRetry.EvictedRetryIsStored` |
| a segment that could not be delivered is sent again without a restart | the rename that reverts its lease works | `DeliveryProgress.RevertDecides`, `DeliveryProgress.StuckUntilRestart` |
| a batch delivered again adds nothing to the store | at most `capacity` different ids have been submitted since it last came, its own included, and each entry comes back within the window | `IngestRetry.RepeatDroppedIff` |
| the server stores every batch that reaches it exactly once | every repeat comes back in that way | `EndToEnd.StoredOnceIff`, `EndToEnd.ExactlyOnceEndToEnd`, `EndToEnd.LateRepeatIsDoubled` |
| an accepted entry is accepted again unchanged | its level was missing or not blank | `LogEntries.ValidateTwiceIff` |
| skipping a partition drops no match | the query, by host or by source, spells it as stored | `Blocks.SpellingIsExact`, `Blocks.SourceSpellingIsExact`, `Blocks.OtherSpellingIsPruned` |
| every bounded query an entry matches looks where the entry is stored | its zone offset does not carry the instant across its UTC hour | `StoreState.OwnZoneHidesIff`, `StoreState.ZoneHidesEntry` |
| every query with at most one bound that an entry matches looks where the entry is stored | the same, or the instant is on the hour and its zone carries it into the hour before | `StoreState.OneBoundHidesIff` |
| a block that could hold a match is read, and no other | bounds in order and in range, no text search | `Blocks.BlockReadIff`, `Blocks.PartitionReadIff` |
| a block's header covers an entry | its timestamp is set and in the int64 nanosecond range | `Blocks.HeaderCoversIff`, `Blocks.ZeroTimestampIsPruned` |
| cached headers agree with the index files all through a run | every append goes to a partition that is cached or has no index | `StoreRuns.AgreesIffAppendsToKnown`, `StoreRuns.CacheIsIndex`, `StoreSequences.LostAfterPrune`, `Compaction.StaleCompactionOrphans` |
| stopping a compaction anywhere loses and doubles nothing | the legacy index names no entry | `Compaction.StoppingIsSafeIff`, `Compaction.StoppedAtSwapDoubles` |
| a timestamp survives the wire; a request comes back unchanged | it is zero, or in UTC, in the int64 nanosecond range and not the Unix epoch | `Protobuf.TimeSurvives`, `Protobuf.RequestUnchangedIff`, `Protobuf.EpochIsLost` |
| the last value of the time field wins | it is not zero | `Protobuf.LastTimeWinsIff`, `Protobuf.ZeroTimeDoesNotWin` |
| a membership change moves nothing else | the members that stay share no hash | `ConsistentHash.MovementMinimalIffNoTies`, `ConsistentHash.TieOccurs` |
| a host-and-source query reaches a matching entry's node | it spells both as the entry does | `Coordinator.AskedIffSpelled` |
| for every query the first matches of a scan are the newest | in every partition blocks follow one another in time and hold their entries in time order | `NewestAnswers.FirstAreNewestIff`, `NewestAnswers.OutOfOrderAnswersOld` |
| resuming at a byte offset damages no line | the partial line before it is empty or has just overflowed | `Framing.ResumeExactIff`, `FileTailer.RestartLosesLine` |
| truncation damages no line | the line buffer is empty | `Framing.CleanCutIff`, `FileTailer.TruncationSplicesLine` |
| one `Prune` run reaches the budget | the file that passes half of the excess, with whatever expires after it, also passes all of it | `Retention.ReachesBudgetIff`, `Retention.OneRunCanFallShort`; after more runs `Retention.BudgetReached` |

## Where the code and its documentation disagree

The model follows the code.

- The scan at start-up means to remove temporary files, but they start with a dot and the scan skips every name
  that does not start with `spool_` (internal/spool/spool.go:123, 138, 208): they stay (`SpoolNames.TempIsPassedOver`).
- `AllowPartial: false` is documented as refusing partial results; the coordinator still returns them whenever
  any node answered with an event (internal/cluster/coordinator.go:113, 255).
- A batch that reaches only some of its nodes is reported as "ok" with error texts
  (internal/cluster/router.go:206-211).
- The documentation speaks of SHA-256 hashes in the duplicate filter (docs/architecture.md:66); the filter looks
  at ids only (internal/ingest/dedup.go:45).
- Checkpoints are documented as the exact byte to resume from (docs/architecture.md:89); they include bytes still
  held in the line buffer (internal/tailer/tailer.go:239, 280).
- `Prune` counts freed bytes twice against the budget (internal/store/filesystem.go:640, 649).
- Protocol Buffers lets the last value of a field win, zero included; the decoder passes over a zero time
  (internal/protocol/protobuf.go:105).

## Model

| member | source | states |
|---|---|---|
| SpoolNames.MarkRoundTrip | internal/spool/spool.go:269-346 | reverting a lease undoes exactly what leasing did to the file name |
| SpoolNames.NamesSpelled | internal/spool/spool.go:206-270 | the names of a pending and of an in-flight segment, spelled out |
| SpoolNames.PadOrder | internal/spool/spool.go:206 | zero-padded decimals of equal width sort as strings the way they sort as numbers |
| SpoolNames.NameOrderIsStampOrder | internal/spool/spool.go:169-172 | segments with different clock readings sort by reading, whatever their ids and endings are |
| SpoolNames.StampOrderFromNames | internal/spool/spool.go:169-172 | with different readings, name order holds if and only if stamp order does |
| SpoolNames.TempIsPassedOver | internal/spool/spool.go:123-208 | the scan at start-up looks at segment files and passes over the temporary names Push writes under |
| SpoolQueue.BreakUnreachable | internal/spool/spool.go:396-405 | while a lease fits the limit, the pruning loop never meets the `break` that protects it |
| SpoolQueue.EnforceBounds | internal/spool/spool.go:395-414 | pruning ends within the limit with exact totals, never removes the leased segment, and removes the oldest others, as few as possible |
| SpoolQueue.RebuiltStampOrdered | internal/spool/spool.go:169-180 | what reopening finds is in order of clock readings when no two segments share one |
| SpoolQueue.StampOrderedUnique | internal/spool/spool.go:169-172 | an order by readings is determined by which segments there are |
| SpoolQueue.ClockStepBackReordersRecovery | internal/spool/spool.go:206 | a clock that steps back between two pushes makes reopening deliver the later one first |
| SpoolQueue.PushOrderIffClockAdvances | internal/spool/spool.go:169-206 | reopening keeps push order for every choice of ids if and only if every push read a later clock |
| DiskSpool.ScanExisting | internal/spool/spool.go:112-176 | reopening finds every readable segment once, sorted by name; in-flight names are restored, corrupt files removed and unreadable ones passed over, except where a file operation fails |
| DiskSpool.Spool.constructor | internal/spool/spool.go:87-180 | a new spool holds what the directory held, pruned to the limit, with exact totals |
| DiskSpool.Spool.EnforceLimit | internal/spool/spool.go:395-414 | the loop computes the specified pruning and deletes exactly the pruned files that can be deleted |
| DiskSpool.Spool.PruneOldest | internal/spool/spool.go:397-412 | one round takes the oldest segment that is not leased, in memory and on disk |
| DiskSpool.Spool.Push | internal/spool/spool.go:184-247 | a stored batch joins the tail and the limit is enforced; a failed or empty push changes nothing |
| DiskSpool.Spool.Peek | internal/spool/spool.go:252-306 | leases the head under its in-flight name, or drops it if corrupt, or restores its name if unreadable; every error case, and what it leaves when the clean-up fails too |
| DiskSpool.Spool.ReadHead | internal/spool/spool.go:277-305 | the outcome of reading the head once it is marked in flight |
| DiskSpool.Spool.CommitLease | internal/spool/spool.go:308-335 | only the active lease can be committed; it leaves the queue, the totals and, if the removal works, the disk |
| DiskSpool.Spool.RevertLease | internal/spool/spool.go:337-365 | only the active lease can be reverted; it stays at the head under its pending name |
| DiskSpool.Spool.PeekThenRevert | internal/spool/spool.go:252-365 | a lease that is reverted leaves queue, totals, names and disk as they were |
| DiskSpool.Spool.Pop | internal/spool/spool.go:369-379 | takes the head off in one go; in every other case exactly what Peek leaves |
| DiskSpool.Spool.Close | internal/spool/spool.go:417-427 | closing renames an in-flight segment back, if the rename works, and keeps queue and totals |
| SpoolSteps.PushIsSteps | internal/spool/spool.go:184-247 | Push is WriteTemp, RenameTemp, some TrimOne and TrimDone of the protocol, with the queue and the disk that the spool promises |
| SpoolSteps.PeekIsSteps | internal/spool/spool.go:252-306 | Peek is two steps of the protocol, with the effect that the spool promises in every case |
| SpoolSteps.CommitIsStep | internal/spool/spool.go:308-335 | Commit of the active lease is one Unlink step, with the effect of the spool on queue and disk |
| SpoolSteps.RevertIsStep | internal/spool/spool.go:337-365 | Revert of the active lease is one Unmark step; a failed rename changes nothing |
| SpoolSteps.ReopenIsSteps | internal/spool/spool.go:112-180 | opening a spool is a run of DiscardCorrupt, Reclaim, Open and trimming steps, with the queue and the disk that the constructor promises |
| DeliveryProofs.StepKeeps | internal/agent/agent.go:296-430 | every step of either worker, of a crash or of a restart keeps the invariant of the protocol |
| DeliveryProofs.RunKeeps | internal/agent/agent.go:296-430 | the invariant holds after every run |
| DeliveryProofs.StrictFifo | internal/agent/agent.go:296-430 | in every interleaving with failures, lost acks and crashes, first arrivals at the server are strictly increasing in the order batches were formed |
| DeliveryProofs.ArrivalsNondecreasing | internal/agent/agent.go:387-413 | if delivered segments are really unlinked, the whole arrival log is sorted: repeats are consecutive |
| DeliveryProofs.LiveSendNeverOvertakes | internal/agent/agent.go:303-324 | while a live batch is being sent the queue is empty and everything on disk has been delivered |
| DeliveryProofs.RecoveryRebuildsQueue | internal/spool/spool.go:112-180 | after a crash between any two disk operations, reopening gives the uncommitted batches in push order, the leased one included; with strict removal exactly those |
| DeliveryProofs.NothingVanishes | internal/agent/agent.go:296-413 | after every run, whatever crashes and whatever file operations fail, each batch formed has arrived, is held, or was dropped for a recorded reason |
| DeliveryProofs.ExactlyOnePlace | internal/agent/agent.go:296-413 | in crash-free runs each batch formed is in exactly one of: acknowledged, in hand, queued, dropped for a recorded reason |
| DeliveryProofs.VerdictBeforeCommit | internal/agent/agent.go:387-412 | on every run, crashes included, the drain worker is committing only if the last thing it did was to get an ack or a permanent rejection |
| DeliveryProofs.CommitFollowsVerdict | internal/agent/agent.go:387-412 | on every run, crashes included, a commit removes the leased head, which has arrived and is acknowledged, or is recorded as rejected |
| DeliveryProgress.WaitingHoldsNoLease | internal/agent/agent.go:366-412 | on every run whose reverts could rename, a waiting drain worker holds no lease, so the next round can lease the head |
| DeliveryProgress.RetryableKeepsHead | internal/agent/agent.go:404-408 | after a retryable failure the same head stays leased and is to be reverted, whatever the other worker does meanwhile |
| DeliveryProgress.RetryableSendsAgain | internal/agent/agent.go:404-412 | then the only step of the drain worker is to revert, and once the rename works the head is back in the queue and can be leased again |
| DeliveryProgress.RevertDecides | internal/agent/agent.go:404-408 | after a retryable failure the head can be leased again without a restart if and only if the rename of the revert works |
| DeliveryProgress.StuckUntilRestart | internal/agent/agent.go:366-382 | a drain worker that waits for a lease it holds itself drains nothing more until the agent is restarted |
| DeliveryProgress.LiveSendAnswered | internal/agent/agent.go:296-347 | an acknowledged live batch is done, a rejected one dropped as rejected, and any other is still in hand with nothing left to do but push it |
| DeliveryProgress.LiveFailureIsSpooled | internal/agent/agent.go:296-347 | on every run a live batch that could not be delivered becomes the last segment of the queue and is on disk |
| DeliveryProgress.DroppedForAReason | internal/agent/agent.go:296-430 | a recorded reason is true: it was recorded by a step that explains it |
| DeliveryProgress.AnythingCanHappen | internal/agent/agent.go:296-430 | in every reachable state any answer, any failure and a crash are possible |
| DeliveryLimits.FifoIffAllArrived | internal/spool/spool.go:112-180 | from an idle state whose segments fit the limit, every continuation on a well-behaved file system keeps first arrivals in order if and only if every segment left on disk has arrived |
| DeliveryLimits.LostSegmentOvertaken | internal/agent/agent.go:296-413 | the continuation that breaks the order: a live delivery, a restart, and the forgotten segment arrives late |
| DeliveryLimits.FailedPruneBreaksFifo | internal/spool/spool.go:412 | a run in which the removal of a pruned segment fails, to an idle state from which order can be lost |
| DeliveryLimits.FailedDropBreaksFifo | internal/spool/spool.go:316-317 | the same for a rejected segment |
| DeliveryLimits.SkippedSegmentBreaksFifo | internal/spool/spool.go:144-152 | the same for a segment that cannot be read at start-up |
| Dedup.DedupCache.constructor | internal/ingest/dedup.go:28-42 | an empty filter with the defaults for window and capacity |
| Dedup.DedupCache.IsDuplicate | internal/ingest/dedup.go:45-83 | answers by the list before the call, moves the id to the front, keeps list and index in bijection, sorted by recency and within capacity |
| Dedup.DedupCache.EvictExpiredFromTail | internal/ingest/dedup.go:87-100 | cuts the list at the first entry from the old end that is still in the window |
| Dedup.DedupCache.RemoveTail | internal/ingest/dedup.go:103-111 | removes the oldest entry from list and index, nothing from an empty filter |
| DedupHistory.StackPosition | internal/ingest/dedup.go:45-83 | what stands before an id in the recency stack is exactly the set of ids offered since |
| DedupHistory.CachedTracks | internal/ingest/dedup.go:45-111 | after every history the list is a prefix of the unbounded recency stack, cut by capacity or by the window |
| DedupHistory.DedupIsLruWithWindow | internal/ingest/dedup.go:45-111 | an id is a duplicate if and only if it was last offered within the window and fewer than capacity other ids were offered since |
| Ingest.Handler.IngestEntries | internal/ingest/handler.go:267-313 | stores exactly the valid entries that are no duplicates; accepted + duplicates + validation errors = entries received; ids are marked even if storing fails; as long as nothing is refused, storage holds what the whole sequence of submissions lets through |
| Ingest.Handler.Sift | internal/ingest/handler.go:274-292 | the loop lets through exactly the entries the history does not remember |
| Ingest.PrepareKeeps | internal/ingest/handler.go:277-284 | an accepted entry keeps source, message, fields and any host, id and time it has, and gets the default host otherwise; a refused one is refused for a reason that is true of it |
| Ingest.RequestExplained | internal/ingest/handler.go:268-300 | everything a request lets through comes from one of its entries, and every reason it reports is true of one |
| Ingest.FreshConcat | internal/ingest/handler.go:267-313 | requests compose: filtering two in a row is filtering their concatenation |
| Ingest.StoredExactlyOnce | internal/ingest/handler.go:274-292 | an id whose repeats come within window and stack distance is stored exactly once however often it is delivered |
| IngestRetry.RepeatStoredIff | internal/ingest/handler.go:286-300 | whatever is offered in between, an entry that comes again is stored if and only if the window has passed since its id was last offered or at least capacity other ids have been offered since |
| IngestRetry.RepeatDroppedIff | internal/ingest/handler.go:286-300 | a batch with distinct ids that comes again behind other ids is dropped whole if and only if all ids offered since fit the capacity and every entry comes back within the window |
| IngestRetry.EvictedRetryIsStored | internal/ingest/dedup.go:72-75 | a retry inside the window that is stored because another id pushed the first one out |
| IngestRetry.RefuseThenRetry | internal/ingest/handler.go:294-300 | over three calls, the first refused by storage: what the retry stores, entry by entry, and exactly when it stores nothing |
| EndToEnd.StoredOnceIff | internal/ingest/handler.go:267-313 | for arrivals in any order and batches of any size, every batch that arrives is stored once, whole and at its first arrival, if and only if every repeat comes in time |
| EndToEnd.ExactlyOnceEndToEnd | internal/agent/agent.go:296-430 | on every run, crashes and failing file operations included, the server stores the batches that reached it, each once, if and only if repeats come in time; in the order they were formed if undelivered segments are not left behind |
| EndToEnd.HandlerStoresExactlyOnce | internal/ingest/handler.go:267-313 | the same of a handler that has taken those submissions without a refusal |
| EndToEnd.Serve | internal/ingest/handler.go:267-313 | a new handler that serves a run of arrivals, request by request, holds every batch once if and only if repeats come in time |
| EndToEnd.StoredOnceInOrder | internal/ingest/handler.go:267-313 | corollary: arrivals in batch order that fit the filter and are repeated promptly |
| EndToEnd.PromptRetriesStoredOnce | internal/agent/agent.go:296-430 | corollary for runs in which delivered segments are really removed: each batch once, in the order formed |
| EndToEnd.LateRepeatIsDoubled | internal/spool/spool.go:317 | a run in which the ignored failure to remove a delivered segment brings it back behind another batch, and a filter of one id stores it twice |
| LogEntries.NormalizeTwice | internal/logentry/logentry.go:167-179 | a normalised query is in normal form |
| GoText.TrimExact | internal/logentry/logentry.go:71-80 | trimming takes exactly the white space at both ends |
| LogEntries.NormalizeKeeps | internal/logentry/logentry.go:167-179 | a trimmed query in range keeps its meaning |
| LogEntries.MatchesByPart | internal/logentry/logentry.go:106-140 | a query matches exactly what each of its parts alone matches, bounds included |
| LogEntries.Normalize | internal/logentry/logentry.go:167-178 | a limit of zero or less becomes 100 and one above 10000 becomes 10000 |
| LogEntries.SearchFindsIff | internal/logentry/logentry.go:106-140 | a search finds an entry if and only if the message, a field name or a field value has a run of bytes equal to it up to letter case |
| LogEntries.Validate | internal/logentry/logentry.go:71-103 | accepted if and only if host and source are not blank and the message is neither empty nor too long; then a missing id becomes the generated one, a missing time the current one, a missing level INFO and any other level its upper case without outer blanks, and nothing else changes |
| LogEntries.ValidateTwiceIff | internal/logentry/logentry.go:71-103 | an accepted entry is accepted again unchanged if and only if its level was missing or not blank |
| Blocks.LevelBitOfFold | internal/store/block.go:29-46 | levels that match up to letter case share a bit |
| Blocks.LevelNames | internal/store/block.go:29-47 | the six levels have a bit each |
| Blocks.EncodeBlock | internal/store/block.go:96-172 | the loop computes the block header: bounds, mask and name sets of exactly these entries |
| Blocks.HeaderCoversIff | internal/store/block.go:110-129 | a header covers an entry of its block if and only if the timestamp is set and in the int64 nanosecond range |
| Blocks.BoundsAttained | internal/store/block.go:96-175 | the bounds of a header are indexed times of entries, the upper one never below -1 |
| Blocks.MaskAttained | internal/store/block.go:96-175 | a level bit that is on is the level of an entry |
| Blocks.BlockPruningSound | internal/store/block.go:212-262 | a block that holds a match is never skipped |
| Blocks.BlockReadIff | internal/store/block.go:212-260 | for proper bounds and no text search, a block is read if and only if its header leaves a matching entry possible |
| Blocks.ZeroTimestampIsPruned | internal/store/block.go:111-114 | an entry with a zero timestamp, which matches, is pruned by an end bound before the time of writing |
| Blocks.SummarizeCovers | internal/store/filesystem.go:237-303 | a partition summary covers every block of the partition |
| Blocks.SummaryCounts | internal/store/filesystem.go:237-303 | a summary counts its blocks and their bytes |
| Blocks.SummaryPruningSound | internal/store/filesystem.go:40-67 | a partition that holds a match is never skipped when the query spells host and source as stored |
| Blocks.PartitionReadIff | internal/store/filesystem.go:40-69 | a partition is looked into if and only if its summary leaves a match possible that spells host and source as the query does |
| Blocks.SpellingIsExact | internal/store/filesystem.go:56-60 | for a query by host, skipping is harmless if and only if the query spells the host as stored |
| Blocks.SourceSpellingIsExact | internal/store/filesystem.go:61-65 | for a query by source, the same |
| Blocks.OtherSpellingIsPruned | internal/store/filesystem.go:56-65 | stored as "A" and asked for as "a": the entry matches, its block matches, its partition is skipped |
| StoreScan.SkippingHours | internal/store/filesystem.go:413-518 | leaving out hours without matches does not change what the filter keeps |
| StoreScan.SameEntriesSameAnswers | internal/store/filesystem.go:328-411 | stores that hold the same entries hour by hour answer every query with every limit alike |
| StoreScan.LoadIndexSorted | internal/store/index.go:20-72 | a loaded index is in order of minimum time and names every file of either index exactly once, by the first header of that name |
| OpenedStore.LoadedBlocksInOrder | internal/store/index.go:68-70 | of blocks whose time ranges do not meet, a loaded index lists the older before the younger |
| OpenedStore.OpenThenQuery | internal/store/filesystem.go:328-411 | a store opened over such a disk answers with the newest matches in the blocks on disk, newest first, and misses one only when full of others at least as new |
| Compaction.WriteChunks | internal/store/filesystem.go:784-814 | the chunks concatenate to all entries, every one full but the last, each with its own header and name |
| Compaction.CompactionKeepsEntries | internal/store/filesystem.go:736-834 | the partition reads the same sequence of entries before and after |
| Compaction.SummaryOfBlocks | internal/store/filesystem.go:237-270 | a summary says exactly what the entries say, however they are cut into blocks |
| StoreIntegrity.CompactionKeepsSummary | internal/store/filesystem.go:828 | the summary that replaces the one the store had says the same about times, levels, hosts and sources |
| Compaction.StoppingKeepsEntries | internal/store/index.go:136-177 | for a compaction of the partition in any order of its headers, stopping between any two file operations but the two that swap the indexes leaves an index that reads the same multiset of entries |
| Compaction.StoppedAtSwapDoubles | internal/store/index.go:168-174 | for any order of the headers, stopped between the rename and the removal of the legacy index, exactly what the legacy index names is found a second time |
| Compaction.StoppingIsSafeIff | internal/store/index.go:136-177 | for any order of the headers, stopping anywhere loses and doubles nothing if and only if the legacy index names no entry |
| Compaction.FinishedIsCompacted | internal/store/filesystem.go:793-825 | carried out to the end, the file operations give the partition that compaction promises |
| Compaction.StaleCompactionOrphans | internal/store/filesystem.go:747-827 | compacting from a stale cache leaves the missed block on disk with no index naming it |
| Retention.PrunesShortestPrefix | internal/store/filesystem.go:621-652 | a size budget deletes the shortest oldest-first prefix whose size, counted twice, fits the budget, or everything |
| Retention.PruneHalvesExcess | internal/store/filesystem.go:621-652 | one run ends with no data files or with at most half the excess, and deletes nothing within budget |
| Retention.OneRunCanFallShort | internal/store/filesystem.go:640-649 | a store that is still over budget after a run |
| Retention.ReachesBudgetIff | internal/store/filesystem.go:621-652 | for any files, one run reaches the budget if and only if the first file that passes half of the excess, with what expires after it, passes all of it |
| Retention.RunFrees | internal/store/filesystem.go:632-651 | until the freed bytes pass half of the excess everything removable goes, and after that only what has expired |
| Retention.ExcessHalvesEachRun | internal/store/filesystem.go:621-652 | after n runs there are no data files or the excess has been halved n times |
| Retention.BudgetReached | internal/store/filesystem.go:621-652 | logarithmically many runs reach the budget or run out of files |
| StorePartitions.WalkAllDirs | internal/store/filesystem.go:459-483 | every partition once, newest first |
| StorePartitions.WalkAndFilterDirs | internal/store/filesystem.go:485-518 | exactly the existing hours that do not lie entirely outside the bounds, newest first |
| StorePartitions.GenerateCandidateDirs | internal/store/filesystem.go:433-457 | with both bounds, exactly the existing hours between them, newest first |
| StorePartitions.CollectCandidateDirs | internal/store/filesystem.go:413-431 | exactly the hours of the three branches, newest first, and none missing that an instant inside the bounds could be in |
| StoreState.LookedForIff | internal/store/filesystem.go:413-518 | a query looks in the partition that holds an entry, whatever partitions exist, if and only if that hour lies between those of its bounds, or not entirely outside its only one |
| StoreState.OwnZoneHidesIff | internal/store/filesystem.go:197-203 | every bounded query an entry matches looks where the entry is stored if and only if its zone offset does not cross its UTC hour |
| StoreState.OneBoundHidesIff | internal/store/filesystem.go:504-511 | every query with at most one bound that an entry matches looks where the entry is stored if and only if its zone offset does not cross its UTC hour, or the instant is on the hour and the offset goes back by at most an hour |
| StoreState.ZoneHidesEntry | internal/store/filesystem.go:197-203 | an entry and a bounded query that matches it and finds no partition to look in |
| StoreState.CoherenceAfterAppend | internal/store/filesystem.go:229 | appending keeps cache and index in agreement if and only if the partition was cached or had no index |
| BlockStore.FileStore.constructor | internal/store/filesystem.go:94-170 | opening caches and summarises every index; over exact headers the store starts intact |
| StoreState.GroupByHour | internal/store/filesystem.go:185-213 | every partition gets exactly its entries, in order |
| BlockStore.FileStore.AppendGroup | internal/store/filesystem.go:215-232 | one block is added to disk, cache and summary; what that keeps: valid metadata, a current cache, an intact store, and coherence exactly as stated |
| StoreState.AppendedScannedFirst | internal/store/filesystem.go:229-233 | in a running store the entries appended last are scanned first |
| BlockStore.FileStore.Append | internal/store/filesystem.go:173-234 | succeeds if and only if there is nothing to do or the store is open and every partition concerned can be written; every partition not missed gets one block with its entries, no partition that cannot be written changes, the total grows by the blocks written, and a current and intact store stays so |
| StorePartitions.ScanBlock | internal/store/filesystem.go:384-392 | collects the matches of a block last to first, up to the limit |
| StorePartitions.ScanPartition | internal/store/filesystem.go:357-393 | skipping blocks by header gives what reading every block gives |
| BlockStore.FileStore.GetPartitionHeaders | internal/store/filesystem.go:305-323 | what queries see of the store does not change |
| BlockStore.FileStore.QueryPartition | internal/store/filesystem.go:342-397 | skipping a partition by its summary gives what reading it gives |
| BlockStore.FileStore.Query | internal/store/filesystem.go:328-411 | returns only matches that the store sees; for faithful queries exactly the first Limit matches of the naive scan, and with a coherent cache matches from the blocks that the index files on disk name, all of them unless the answer is full |
| BlockStore.FileStore.CompactPartition | internal/store/filesystem.go:736-834 | fails exactly if the store is closed, a block cannot be read or the index cannot be rewritten, and then changes nothing; otherwise at least two blocks that hold entries become the fewest blocks that can hold them, with the number and the bytes saved; entries, order, validity, agreement and the extent of the summary are kept and no other partition is touched |
| BlockStore.FileStore.PlanCompaction | internal/store/filesystem.go:747-795 | the new blocks spell the entries of the compacted headers under fresh names; from a coherent cache these headers are the index in some order |
| StoreState.ChunksMerge | internal/store/filesystem.go:778-812 | the new blocks are the fewest of the given size that hold the entries, all full but the last, and no old file is left |
| StoreState.CompactionKeepsAnswers | internal/store/filesystem.go:736-834 | after a compaction every query with every limit returns the identical sequence |
| StoreState.DeletionLoop | internal/store/filesystem.go:621-652 | computes which files go, the bytes freed and what is left on disk |
| BlockStore.FileStore.Prune | internal/store/filesystem.go:606-661 | deletes exactly those files, drops partitions without data, and forgets every cached header |
| StoreState.OldestHoursFirst | internal/store/filesystem.go:613-652 | with every data file listed in order of the partitions, while a file of an hour is left no file of a later hour goes |
| StoreState.KeptIffData | internal/store/filesystem.go:666-716 | after a pruning a partition is kept, as it is, if and only if a data file is left in it |
| BlockStore.FileStore.PruneThenAppend | internal/store/filesystem.go:654-655 | pruning and then appending to a partition with more blocks leaves cache and index in disagreement |
| StoreIntegrity.AppendKeepsIntact | internal/store/filesystem.go:215-232 | a block of entries in their hour keeps cache, summaries and index files in agreement and every header exact |
| StoreIntegrity.CompactKeepsIntact | internal/store/filesystem.go:816-828 | so does a compaction |
| StoreIntegrity.OpenedIsIntact | internal/store/filesystem.go:119-169 | so does opening, over exact headers |
| StoreIntegrity.NaiveAnswersStored | internal/store/filesystem.go:328-411 | with a coherent cache the naive answer holds the matches that the index files name, all of them unless it is full |
| StoreRuns.AgreesIffAppendsToKnown | internal/store/filesystem.go:229-311 | cache and index agree at every point of a run if and only if every append goes to a partition that is cached or has no index |
| StoreRuns.CacheIsIndex | internal/store/filesystem.go:229-311 | so they do on every run that never prunes, or reopens after every pruning before it appends |
| StoreSteps.ReopenIsStep | internal/store/filesystem.go:94-171 | opening is the reopening step |
| StoreSteps.PruneIsStep | internal/store/filesystem.go:606-661 | a pruning that deletes is the pruning step, and any other changes nothing |
| StoreSteps.CompactIsStep | internal/store/filesystem.go:736-834 | a compaction that merges is the compaction step, and any other changes nothing |
| StoreSteps.LoadIsStep | internal/store/filesystem.go:305-326 | reading headers is the load step of a run |
| StoreSteps.AppendIsStep | internal/store/filesystem.go:215-233 | what appending a block does to disk and cache is the append step of a run |
| StoreSequences.AppendThenQuery | internal/store/filesystem.go:173-411 | every appended entry that matches is in the answer unless the answer is full |
| StoreSequences.PruneAppendQuery | internal/store/filesystem.go:655-655 | after a pruning, an append to a surviving partition hides everything else its index names from every query |
| StoreSequences.LostAfterPrune | internal/store/filesystem.go:655-655 | one such run: a stored match that the query does not return |
| Wire.VarintRoundTrip | internal/protocol/protobuf.go:40-83 | every 64-bit value reads back whatever follows it |
| Wire.VarintLength | internal/protocol/protobuf.go:40-83 | no value takes more than ten bytes |
| Wire.VarintMeaning | internal/protocol/protobuf.go:85-100 | a varint is read exactly if the bytes start with one of at most ten bytes and 64 bits, and its value is its groups of seven bits |
| Wire.TagRoundTrip | internal/protocol/protobuf.go:40-83 | a field tag reads back whatever follows it |
| Wire.BytesRoundTrip | internal/protocol/protobuf.go:40-83 | a length-delimited record reads back whatever follows it |
| Wire.TagAndBytesMeaning | internal/protocol/protobuf.go:85-160 | exactly which bytes are a tag and which a record |
| Wire.DocumentedExamples | internal/protocol/protobuf.go:40-80 | the example values and fields of the encoding documentation |
| Wire.SkipExtends | internal/protocol/protobuf.go:151-156 | skipping an unknown value, nested groups included, does not depend on what follows |
| Wire.ValueSkipped | internal/protocol/protobuf.go:151-156 | skipping takes exactly the value of a field, for varints, eight and four bytes, records and nested groups within the limit |
| Protobuf.FieldExtends | internal/protocol/protobuf.go:86-157 | a complete field stays the same field whatever bytes follow |
| Protobuf.NextField | internal/protocol/protobuf.go:86-157 | every iteration of a decoding loop takes at least one byte |
| Protobuf.KnownNumbers | internal/protocol/protobuf.go:85-330 | the numbers each message knows and which of them are read as numbers |
| Protobuf.PairFold | internal/protocol/protobuf.go:162-194 | decoding a map entry is a fold over its fields |
| Protobuf.EntryFold | internal/protocol/protobuf.go:85-160 | if a decodes, decoding a then b is decoding b into what a gave |
| Protobuf.RequestFold | internal/protocol/protobuf.go:216-254 | the same for requests |
| Protobuf.ResponseFold | internal/protocol/protobuf.go:282-330 | the same for responses |
| Protobuf.LastOneWins | internal/protocol/protobuf.go:85-160 | for every input that decodes, each text field has its last value, each map key the value of its last entry, and the time its last value that is not zero |
| Protobuf.LastTimeWinsIff | internal/protocol/protobuf.go:100-108 | the last value of the time field decides, whatever came before, if and only if it is not zero |
| Protobuf.UnknownFieldsByType | internal/protocol/protobuf.go:151-156 | for every number a message does not know, varints, eight and four byte values, records and groups are unknown fields, byte for byte |
| Protobuf.ZeroTimeDoesNotWin | internal/protocol/protobuf.go:105 | a time of 5 followed by a time of zero decodes to 5 |
| Protobuf.UnknownFieldIgnored | internal/protocol/protobuf.go:151-156 | an unknown field at any field boundary of an entry changes nothing |
| Protobuf.ExtrasIgnored | internal/protocol/protobuf.go:151-156 | any number of such fields at any field boundary of an entry changes nothing |
| Protobuf.UnknownFieldIgnoredInRequest | internal/protocol/protobuf.go:245-250 | the same in requests |
| Protobuf.ExtrasIgnoredInRequest | internal/protocol/protobuf.go:246-251 | the same for requests |
| Protobuf.UnknownFieldIgnoredInResponse | internal/protocol/protobuf.go:321-326 | the same in responses |
| Protobuf.ExtrasIgnoredInResponse | internal/protocol/protobuf.go:322-327 | the same for responses |
| Protobuf.PairRoundTrip | internal/protocol/protobuf.go:66-80 | a map entry reads back, empty keys and values included |
| Protobuf.EntryLayout | internal/protocol/protobuf.go:40-83 | the bytes of an entry, tag by tag |
| Protobuf.RequestLayout | internal/protocol/protobuf.go:197-214 | the bytes of a request, tag by tag |
| Protobuf.ResponseLayout | internal/protocol/protobuf.go:257-280 | the bytes of a response, tag by tag |
| Protobuf.EntryRoundTrip | internal/protocol/protobuf.go:40-160 | an entry reads back for every iteration order of its map, up to what happens to its time |
| Protobuf.TimeSurvives | internal/protocol/protobuf.go:100-108 | a time survives if and only if it is zero, or in the int64 nanosecond range and not the epoch |
| Protobuf.EpochIsLost | internal/protocol/protobuf.go:105 | an entry at the epoch comes back without a time |
| Protobuf.RequestRoundTrip | internal/protocol/protobuf.go:197-254 | a request reads back with all its events |
| Protobuf.RequestUnchangedIff | internal/protocol/protobuf.go:197-254 | it comes back unchanged if and only if all its times survive |
| Protobuf.ResponseRoundTrip | internal/protocol/protobuf.go:257-330 | a response reads back, negative and ten-byte counts included |
| Codec.AppendLogEntry | internal/protocol/protobuf.go:40-83 | appends exactly the specified bytes, for whatever order the map is iterated in |
| Codec.AppendFields | internal/protocol/protobuf.go:66-80 | every map entry once |
| Codec.UnmarshalLogEntry | internal/protocol/protobuf.go:85-160 | the loop computes the decoding function |
| Codec.UnmarshalMapEntry | internal/protocol/protobuf.go:162-194 | the loop computes the decoding function |
| Codec.MarshalIngestRequest | internal/protocol/protobuf.go:197-213 | the bytes of a request for some iteration orders; a nil request is an error |
| Codec.UnmarshalIngestRequest | internal/protocol/protobuf.go:216-254 | the loop computes the decoding function; a nil target is an error |
| Codec.MarshalIngestResponse | internal/protocol/protobuf.go:257-279 | the bytes of a response; a nil response is an error |
| Codec.UnmarshalIngestResponse | internal/protocol/protobuf.go:282-330 | the loop computes the decoding function; a nil target is an error |
| Codec.SendRequest | internal/protocol/protobuf.go:197-255 | a request marshalled and unmarshalled comes back with its decoded times |
| Codec.SendResponse | internal/protocol/protobuf.go:257-330 | a response marshalled and unmarshalled comes back unchanged |
| ConsistentHash.Search | internal/cluster/hashring.go:95-97 | binary search finds the first position whose hash is not below the key's |
| ConsistentHash.BuildRing | internal/cluster/hashring.go:165-187 | whatever order the members are visited in, the ring holds exactly their virtual nodes, sorted by hash |
| ConsistentHash.MemberVnodes | internal/cluster/hashring.go:165-187 | a member of weight w has per times w virtual nodes on the ring, at the hashes of its id, a hash sign and the numbers from 0 |
| ConsistentHash.ItoaIsDecimal | internal/cluster/hashring.go:173-175 | the numbers are written in decimal |
| ConsistentHash.RingUnique | internal/cluster/hashring.go:184-186 | without ties the sorted ring is unique |
| ConsistentHash.MinimalMovement | internal/cluster/hashring.go:60-83 | removing a member deletes it from every key's replica list and changes nothing else; adding is the inverse |
| ConsistentHash.MovementMinimalIffNoTies | internal/cluster/hashring.go:60-83 | movement is minimal however the rebuild sorts if and only if the members that stay share no hash |
| ConsistentHash.ReplicasDeterminedIffNoTies | internal/cluster/hashring.go:184-186 | replica lists are a function of the membership if and only if no hash is shared by two members |
| ConsistentHash.TieIsVisible | internal/cluster/hashring.go:184-186 | with a tie, some key's first replica depends on how the sort breaks it |
| ConsistentHash.TieOccurs | internal/cluster/hashring.go:175-180 | two members whose first virtual nodes hash alike make a tied ring |
| ConsistentHash.ReplicasAreMembers | internal/cluster/hashring.go:127-138 | every key's full replica list names every member exactly once |
| ConsistentHash.HashRing.constructor | internal/cluster/hashring.go:49-57 | an empty ring with the default number of virtual nodes |
| ConsistentHash.HashRing.AddNode | internal/cluster/hashring.go:60-69 | the member is registered with a positive weight; a fresh one enters every replica list and moves nothing else |
| ConsistentHash.HashRing.RemoveNode | internal/cluster/hashring.go:72-83 | an unknown member is an error; a known one leaves every replica list and moves nothing else |
| ConsistentHash.HashRing.GetNode | internal/cluster/hashring.go:86-104 | the clockwise successor of the key with wraparound; an error exactly on the empty ring |
| ConsistentHash.HashRing.GetNodes | internal/cluster/hashring.go:107-141 | exactly min(count, members) distinct members, the first ones of the full replica list, so starting with GetNode's answer and a prefix of the answer for a larger count |
| ConsistentHash.GatherReplicas | internal/cluster/hashring.go:127-138 | the loop gathers the first owners along the walk |
| Router.GroupEntries | internal/cluster/router.go:106-121 | every entry lands in exactly its owner's bucket, in batch order; on an empty ring in the local node's |
| Router.DispatchReports | internal/cluster/router.go:140-185 | a bucket reaches its node if the local store takes it or a peer answers; accepted, duplicates, error texts and failure are reported accordingly |
| Router.BatchConserved | internal/cluster/router.go:123-212 | in any order of arrival, accepted, duplicate, refused and undelivered entries add up to the batch |
| Router.Aggregate | internal/cluster/router.go:191-212 | sums and errors of all answers; an error status exactly when there are errors and nothing was accepted; the first failure in order of arrival |
| Router.RouteBatch | internal/cluster/router.go:101-212 | accepted, duplicates and error texts are the sums over the buckets of what became of them; every bucket that does not reach its node adds a text; the call fails, naming such a node, if and only if nothing was accepted and some bucket did not reach its node; honest peers account for every entry |
| Coordinator.RoutedEntryIsAsked | internal/cluster/coordinator.go:153-165 | on a fixed ring with the default key a query reaches the node the router gave the entry to |
| Coordinator.AskedIffSpelled | internal/cluster/coordinator.go:155-160 | a matching entry's node is certain to be asked if and only if the query spells host and source as the entry does |
| Coordinator.Gather | internal/cluster/coordinator.go:225-253 | one entry for every id in the replies, taken from them |
| Coordinator.Merge | internal/cluster/coordinator.go:225-273 | no id twice, newest first, at most the limit, and an id is left out only for a full result at least as new; fails exactly when partial answers are refused, a node failed and there is no event |
| Coordinator.MergeIsGlobalNewest | internal/cluster/coordinator.go:225-267 | if every node answers with its Limit newest and ids identify entries, no match newer than a returned one is omitted |
| Coordinator.RunQuery | internal/cluster/coordinator.go:147-274 | asks exactly the specified nodes and merges their answers; on an empty ring the local store answers alone |
| Coordinator.ClusterAnswersNewest | internal/cluster/coordinator.go:147-274 | of everything the router placed, a match spelled as asked is in the answer unless the answer is full of entries at least as new |
| Coordinator.ClusterAnswersSound | internal/cluster/coordinator.go:225-267 | every entry in the answer was placed by the router and matches |
| NewestAnswers.FirstAreNewestIff | internal/store/filesystem.go:328-411 | for every query and limit the first matches of the scan are the newest if and only if, in every partition, blocks follow one another in time and hold their entries in time order |
| NewestAnswers.ClusterOfStores | internal/cluster/coordinator.go:147-262 | a cluster whose nodes are stores in time order answers like one store: a placed match, spelled as asked, is in the merged answer unless that is full of entries at least as new |
| NewestAnswers.RangesInOrder | internal/store/block.go:212-223 | headers whose time ranges follow one another keep their blocks apart |
| NewestAnswers.OutOfOrderAnswersOld | internal/store/filesystem.go:384-392 | one block with the younger entry first: asked for one entry, the store returns the older |
| Framing.ChunkingIrrelevant | internal/tailer/tailer.go:267-287 | however the bytes are cut into reads, the outcome is that of the whole |
| Framing.SplitSpells | internal/tailer/tailer.go:289-314 | splitting at newlines loses nothing |
| Framing.CountsUp | internal/tailer/tailer.go:306-311 | the counted remainder and quotient are those of division by MaxLineBytes + 1 |
| Framing.FramingOfWhole | internal/tailer/tailer.go:289-314 | the lines sent are the complete lines, each cut to its last L mod (MaxLineBytes + 1) bytes, less one trailing CR, empty ones left out; one error for every overflow |
| Framing.WindowsLine | internal/tailer/tailer.go:289-314 | a line ended by a carriage return and a newline is sent without either |
| Framing.PlainLine | internal/tailer/tailer.go:289-314 | a line that fits, ended by a newline, is sent as it is |
| Framing.CleanCutIff | internal/tailer/tailer.go:226-231 | starting over agrees with carrying on, whatever comes next, if and only if the line buffer is empty |
| Framing.ResumeExactIff | internal/tailer/tailer.go:171-193 | resuming at an offset is exact, whatever follows, if and only if the partial line before it is empty or has just overflowed |
| Framing.ResumeAfterNewline | internal/tailer/tailer.go:171-193 | just after a newline, resuming neither loses nor repeats a line |
| FileTailer.StartOffset | internal/tailer/tailer.go:167-204 | the first open starts inside the file, at the checkpoint if that is inside |
| FileTailer.Tailer.ProcessBytes | internal/tailer/tailer.go:289-314 | the loop computes the framing function |
| FileTailer.Tailer.ReadChunk | internal/tailer/tailer.go:276-287 | the offset advances by the bytes framed |
| FileTailer.Tailer.ReadAvailable | internal/tailer/tailer.go:267-274 | reads to the end unless a read fails, framing exactly the bytes passed |
| FileTailer.Tailer.DrainFile | internal/tailer/tailer.go:248-265 | reads to the end and sends what is left in the buffer |
| FileTailer.Tailer.Poll | internal/tailer/tailer.go:213-240 | a file that only grows has been framed as a whole up to the offset, however many rounds it took; a shorter file is read again with the buffer kept; the checkpoint is the offset |
| FileTailer.RestartAtCheckpoint | internal/tailer/tailer.go:189-240 | reading a file to its end and starting again at the checkpoint sends the lines of the two parts; those of the whole when the part of a line before it is empty or has just overflowed |
| FileTailer.ReadThenRotate | internal/tailer/tailer.go:213-262 | a file read whole and rotated away gives its complete lines and then its unterminated tail as a line |
| FileTailer.RestartLosesLine | internal/tailer/tailer.go:239 | a line of which half was read before the restart is never sent |
| FileTailer.TruncationSplicesLine | internal/tailer/tailer.go:213-222 | half a line read before a truncation is sent as a line of the new contents |
| FileTailer.Tailer.Rotate | internal/tailer/tailer.go:216-223 | the old file is framed as far as it could be read, its last partial line sent, and the next file starts with an empty buffer |
| Recent.RecentBuffer.constructor | internal/stream/recent.go:21-29 | an empty buffer with the default capacity |
| Recent.RecentBuffer.Add | internal/stream/recent.go:32-41 | the entry joins the history |
| Recent.RecentBuffer.AddBatch | internal/stream/recent.go:44-58 | the batch joins the history, also when it is longer than the capacity |
| Recent.RecentBuffer.Snapshot | internal/stream/recent.go:61-95 | exactly the last min(limit, capacity, history) entries in order of arrival; a limit of zero or less means all |
| Recent.RecentBuffer.Len | internal/stream/recent.go:98-105 | min(capacity, history) |
| Recent.HoldsNext | internal/stream/recent.go:36-40 | overwriting the oldest slot keeps the ring equal to the end of the history |

## Left out

- HTTP servers, middleware, authentication, TLS, health, metrics, configuration and the web interface: input and
  output without whole-run properties.
- zstd, gzip, JSON, UUID and xxhash: codecs are exact inverses here, ids are fresh values and hashes are any
  function.
- Parsers, OTLP mapping, glob patterns, the tailer manager, the WebSocket hub, back-off times, the tiered
  archiver, legacy `.log` files and the checkpoint file itself.
- Cancellation through contexts.
- Letter case and white space beyond ASCII.
- An agent without a spool, and a request that times out at the agent and reaches the server after a later one.
- The spellings of host and source together: for a query by both, skipping a partition is shown harmless under the
  stored spelling, and exactly when only for a query by one of them.
- The delivery steps assume that a segment file changes only through the spool, and that clock readings used in names
  increase.
- Partition directories are identified with UTC hours, so that names sort as hours do.
- Failures between writing a block and appending its header to the index: a group is written or not.
- The query client's times, which travel with whole seconds only (internal/cluster/coordinator.go:73-78).
- StoreScan.LoadIndex: headers with equal minimum times keep their file order, while the source's sort may
  swap them.
- BlockStore.FileStore.Query: the equalities are stated for queries whose bounds are in the int64 nanosecond range and
  whose host and source are spelled as stored; `Blocks.SpellingIsExact` shows why.
- BlockStore.FileStore.CompactPartition: the order of entries is that of the running store; a restart sorts the new
  headers by minimum time again, and then the multiset is what is kept (`Compaction.StoppingKeepsEntries`).
- DeliveryProofs.StrictFifo: assumes that segments that leave the queue undelivered are really removed and that reopening
  passes over none that is undelivered; what happens to the files of delivered segments is free.
  `DeliveryLimits.FifoIffAllArrived` says exactly what is lost otherwise. The removal of corrupt segments is among the
  conditions only because the model does not remember damage: a corrupt segment may read well later.
- EndToEnd.ExactlyOnceEndToEnd: assumes that entry ids are unique, that validation takes the agent's entries as they are
  and that storage refuses no request; `IngestRetry.RefuseThenRetry` covers a refusal.
- BlockStore.FileStore.Prune: the list of files, their ages and which can be removed are inputs;
  `StoreState.OldestHoursFirst` adds that the list is every data file in order of the partitions.
- NewestAnswers.ClusterOfStores: assumes for each node what `BlockStore.FileStore.Query` ensures for a faithful query.
