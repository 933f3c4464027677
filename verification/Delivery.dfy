/** The agent's delivery protocol: `batchWorker` and `spoolDrainWorker` interleaved step by step over
    one spool, with the network and crashes as the environment. Every step performs at most one disk
    operation together with the in-memory updates that follow it under the spool's mutex. */
module Delivery {
  import opened GoText
  import opened SpoolNames
  import opened SpoolQueue

  /** The size limit and the rendering of batch ids in file names. */
  datatype Config = Config(limit: nat, uuid: nat -> Str)

  /** Where `batchWorker` is. Batches are numbered in the order they are formed. */
  datatype BatchPc =
    | Gathering
    | InHand(batch: nat)                       // `deliverBatch` entered
    | Direct(batch: nat)                       // the spool was seen empty; `Send` is running
    | Pushing(batch: nat)                      // about to call `Push`
    | TempWritten(batch: nat, stamp: nat)      // inside `Push`: the temporary file is synced
    | Trimming                                 // inside `enforceLimitLocked`

  /** Where `spoolDrainWorker` is; its segment is the head of the queue. */
  datatype DrainPc =
    | Waiting
    | Marked                                   // inside `Peek`: renamed to `.inflight`, not yet read
    | Sending
    | Committing(acked: bool)
    | Reverting

  datatype Outcome = Acked | AckLost | NotDelivered | Permanent

  datatype Reason = Rejected | PushFailed | Pruned | Corrupt | LostInHand

  datatype State = State(
    up: bool,
    formed: nat,                               // batches formed so far: 0 .. formed-1
    batch: BatchPc,
    drain: DrainPc,
    mem: Mem,
    disk: SpoolDir,
    clock: nat,                                // last clock reading used in a name
    log: seq<nat>,                             // batches in the order they reached the server
    acked: set<nat>,
    dropped: map<nat, Reason>)

  datatype Step =
    | Form
    | CheckBacklog
    | SendLive(outcome: Outcome)
    | PushError
    | WriteTemp(stamp: nat)
    | RenameTemp(sizeBytes: nat, eventNum: nat)
    | TrimOne(removed: bool)
    | TrimDone
    | Peek
    | ReadSegment
    | ReadFails(renamed: bool)
    | ReadCorrupt(removed: bool)
    | SendLease(outcome: Outcome)
    | Unlink(removed: bool)
    | Unmark(renamed: bool)
    | Crash
    | Reclaim(stem: Stem)                      // reopening renames an in-flight segment back
    | DiscardCorrupt(stem: Stem)
    | Open(files: seq<SpoolFile>, skipped: set<Stem>)

  const EMPTY_QUEUE := Mem([], 0, 0, None)

  function Init(): State {
    State(true, 0, Gathering, Waiting, EMPTY_QUEUE, map[], 0, [], {}, map[])
  }

  function Hand(s: State): Option<nat> {
    match s.batch
    case InHand(b) => Some(b)
    case Direct(b) => Some(b)
    case Pushing(b) => Some(b)
    case TempWritten(b, _) => Some(b)
    case _ => None
  }

  /** No worker is inside a spool operation. */
  predicate MutexFree(s: State) {
    !s.batch.TempWritten? && !s.batch.Trimming? && !s.drain.Marked?
  }

  function Unlinked(disk: SpoolDir, st: Stem, removed: bool): SpoolDir {
    if removed then disk - {st} else disk
  }

  predicate BatchStep(step: Step) {
    || step.Form? || step.CheckBacklog? || step.SendLive? || step.PushError? || step.WriteTemp?
    || step.RenameTemp? || step.TrimOne? || step.TrimDone?
  }

  predicate DrainStep(step: Step) {
    || step.Peek? || step.ReadSegment? || step.ReadFails? || step.ReadCorrupt? || step.SendLease?
    || step.Unlink? || step.Unmark?
  }

  predicate RestartStep(step: Step) {
    step.Crash? || step.Reclaim? || step.DiscardCorrupt? || step.Open?
  }

  ghost predicate Enabled(c: Config, s: State, step: Step) {
    match step
    case Form => s.up && s.batch.Gathering?
    case CheckBacklog => s.up && s.batch.InHand? && MutexFree(s)
    case SendLive(_) => s.up && s.batch.Direct?
    case PushError => s.up && (s.batch.Pushing? || s.batch.TempWritten?)
    case WriteTemp(t) => s.up && s.batch.Pushing? && MutexFree(s) && s.clock < t <= MAX_NANO
    case RenameTemp(_, _) => s.up && s.batch.TempWritten?
    case TrimOne(removed) =>
      && s.up && s.batch.Trimming? && s.mem.size > c.limit && s.mem.files != [] && !OnlyLeaseLeft(s.mem)
      && (removed ==> Describes(s.mem.files[Victim(s.mem)], s.disk))
    case TrimDone =>
      && s.up && s.batch.Trimming?
      && (s.mem.size <= c.limit || s.mem.files == [] || OnlyLeaseLeft(s.mem))
    case Peek =>
      && s.up && s.drain.Waiting? && MutexFree(s) && s.mem.lease.None?
      && s.mem.files != [] && Describes(s.mem.files[0], s.disk)
    case ReadSegment => s.up && s.drain.Marked?
    case ReadFails(_) => s.up && s.drain.Marked? && s.mem.files != [] && s.mem.files[0].path.stem in s.disk
    case ReadCorrupt(_) => s.up && s.drain.Marked? && s.mem.files != []
    case SendLease(_) => s.up && s.drain.Sending? && s.mem.files != []
    case Unlink(removed) =>
      && s.up && s.drain.Committing? && MutexFree(s) && s.mem.files != []
      && (removed ==> Describes(s.mem.files[0], s.disk))
    case Unmark(renamed) =>
      && s.up && s.drain.Reverting? && MutexFree(s) && s.mem.files != []
      && (renamed ==> Describes(s.mem.files[0], s.disk))
    case Crash => s.up
    case Reclaim(st) => !s.up && st in s.disk
    case DiscardCorrupt(st) => !s.up && st in s.disk
    case Open(files, skipped) => !s.up && Rebuilt(s.disk - skipped, files, c.uuid)
  }

  /** The live send of `deliverBatch`: a retryable failure goes on to `Push`. */
  function AfterSendLive(s: State, outcome: Outcome): State
    requires s.batch.Direct?
  {
    var b := s.batch.batch;
    match outcome
    case Acked => s.(batch := Gathering, log := s.log + [b], acked := s.acked + {b})
    case AckLost => s.(batch := Pushing(b), log := s.log + [b])
    case NotDelivered => s.(batch := Pushing(b))
    case Permanent => s.(batch := Gathering, dropped := s.dropped[b := Rejected])
  }

  /** The drain worker's send of the leased head. */
  function AfterSendLease(s: State, outcome: Outcome): State
    requires s.mem.files != []
  {
    var b := s.mem.files[0].path.stem.id;
    match outcome
    case Acked => s.(drain := Committing(true), log := s.log + [b])
    case AckLost => s.(drain := Reverting, log := s.log + [b])
    case NotDelivered => s.(drain := Reverting)
    case Permanent => s.(drain := Committing(false))
  }

  function AfterUnlink(s: State, removed: bool): State
    requires s.drain.Committing? && s.mem.files != []
  {
    var st := s.mem.files[0].path.stem;
    s.(drain := Waiting, mem := Commit(s.mem), disk := Unlinked(s.disk, st, removed),
       acked := if s.drain.acked then s.acked + {st.id} else s.acked,
       dropped := if s.drain.acked then s.dropped else s.dropped[st.id := Rejected])
  }

  /** Renames `files[0]` on disk and in memory. */
  function AfterRenameHead(s: State, p: Path): State
    requires s.mem.files != [] && p.stem in s.disk
  {
    s.(mem := RenameHead(s.mem, p), disk := Renamed(s.disk, p))
  }

  function AfterTrimOne(s: State, removed: bool): State
    requires s.mem.files != [] && !OnlyLeaseLeft(s.mem)
  {
    var st := s.mem.files[Victim(s.mem)].path.stem;
    s.(mem := PruneOne(s.mem), disk := Unlinked(s.disk, st, removed), dropped := s.dropped[st.id := Pruned])
  }

  ghost function Apply(c: Config, s: State, step: Step): State
    requires Enabled(c, s, step)
  {
    match step
    case Form => s.(batch := InHand(s.formed), formed := s.formed + 1)
    case CheckBacklog =>
      s.(batch := if |s.mem.files| > 0 then Pushing(s.batch.batch) else Direct(s.batch.batch))
    case SendLive(outcome) => AfterSendLive(s, outcome)
    case PushError => s.(batch := Gathering, dropped := s.dropped[s.batch.batch := PushFailed])
    case WriteTemp(t) => s.(batch := TempWritten(s.batch.batch, t), clock := t)
    case RenameTemp(size, events) =>
      var st := Stem(s.batch.stamp, s.batch.batch);
      s.(batch := Trimming, disk := s.disk[st := DiskFile([Json], size, events)],
         mem := Append(s.mem, SpoolFile(Path(st, [Json]), size, events)))
    case TrimOne(removed) => AfterTrimOne(s, removed)
    case TrimDone => s.(batch := Gathering)
    case Peek => AfterRenameHead(s, MarkInflight(s.mem.files[0].path)).(drain := Marked)
    case ReadSegment =>
      s.(drain := Sending, mem := s.mem.(lease := if s.mem.files == [] then None else Some(s.mem.files[0])))
    case ReadFails(renamed) =>
      var p := MarkPending(s.mem.files[0].path);
      if renamed then AfterRenameHead(s, p).(drain := Waiting)
      else s.(drain := Waiting, mem := RenameHead(s.mem, p))
    case ReadCorrupt(removed) =>
      var st := s.mem.files[0].path.stem;
      s.(drain := Waiting, mem := Commit(s.mem), disk := Unlinked(s.disk, st, removed),
         dropped := s.dropped[st.id := Corrupt])
    case SendLease(outcome) => AfterSendLease(s, outcome)
    case Unlink(removed) => AfterUnlink(s, removed)
    case Unmark(renamed) =>
      if renamed then
        var t := AfterRenameHead(s, MarkPending(s.mem.files[0].path));
        t.(drain := Waiting, mem := t.mem.(lease := None))
      else s.(drain := Waiting)
    case Crash =>
      s.(up := false, batch := Gathering, drain := Waiting, mem := EMPTY_QUEUE,
         dropped := if Hand(s).Some? then s.dropped[Hand(s).value := LostInHand] else s.dropped)
    case Reclaim(st) => s.(disk := Renamed(s.disk, MarkPending(Path(st, s.disk[st].ext))))
    case DiscardCorrupt(st) => s.(disk := s.disk - {st}, dropped := s.dropped[st.id := Corrupt])
    case Open(files, _) =>
      s.(up := true, batch := Trimming, mem := Mem(files, SumBytes(files), SumEvents(files), None))
  }

  /** What the file system must grant for order to survive a restart: a segment that leaves the queue is
      really removed and reopening reads every segment, unless the segment has already reached the server.
      With `strict` there is no exception. The model does not remember damage: a segment that reads as
      corrupt may read well after a restart, which is why its removal is among the conditions. */
  predicate Tame(s: State, step: Step, strict: bool) {
    match step
    case TrimOne(removed) =>
      removed || (s.mem.files != [] && !OnlyLeaseLeft(s.mem) && Delivered(s, s.mem.files[Victim(s.mem)].path.stem, strict))
    case ReadCorrupt(removed) => removed || (s.mem.files != [] && Delivered(s, s.mem.files[0].path.stem, strict))
    case Unlink(removed) => removed || (s.mem.files != [] && Delivered(s, s.mem.files[0].path.stem, strict))
    case Open(_, skipped) => forall st :: st in skipped && st in s.disk ==> Delivered(s, st, strict)
    case _ => true
  }

  /** The segment has reached the server, and that excuses what happens to its file. */
  predicate Delivered(s: State, st: Stem, strict: bool) {
    !strict && st.id in s.log
  }

  // ---------------------------------------------------------------- runs

  ghost predicate Legal(c: Config, s: State, steps: seq<Step>)
    decreases |steps|
  {
    steps == [] || (Enabled(c, s, steps[0]) && Legal(c, Apply(c, s, steps[0]), steps[1..]))
  }

  ghost function Exec(c: Config, s: State, steps: seq<Step>): State
    requires Legal(c, s, steps)
    decreases |steps|
  {
    if steps == [] then s else Exec(c, Apply(c, s, steps[0]), steps[1..])
  }

  ghost predicate TameRun(c: Config, s: State, steps: seq<Step>, strict: bool)
    requires Legal(c, s, steps)
    decreases |steps|
  {
    steps == [] || (Tame(s, steps[0], strict) && TameRun(c, Apply(c, s, steps[0]), steps[1..], strict))
  }
}
