/** The spool's operations as runs of the delivery protocol: what each method does to queue and disk is what
    its steps do one by one. */
module SpoolSteps {
  import opened GoText
  import opened SpoolNames
  import opened SpoolQueue
  import opened Delivery
  import opened DeliveryLimits
  import opened DiskSpool

  /** The queue describes the segments on disk. */
  predicate QueueDescribed(m: Mem, disk: SpoolDir) {
    Consistent(m) && forall i :: 0 <= i < |m.files| ==> Describes(m.files[i], disk)
  }

  lemma TrimDescribed(m: Mem, disk: SpoolDir, removed: bool)
    requires QueueDescribed(m, disk) && m.files != [] && !OnlyLeaseLeft(m)
    ensures QueueDescribed(PruneOne(m), Unlinked(disk, m.files[Victim(m)].path.stem, removed))
  {
    PruneOneConsistent(m);
    var i, now := Victim(m), PruneOne(m).files;
    forall j | 0 <= j < |now| ensures Describes(now[j], Unlinked(disk, m.files[i].path.stem, removed)) {
      assert now[j] == m.files[if j < i then j else j + 1];
    }
  }

  /** `enforceLimitLocked` is a run of `TrimOne` steps ended by `TrimDone`, with the effect on queue and disk that
      the spool's `EnforceLimit` promises; `start`, `steps` and `before`, `listed` are where run and pruning began. */
  lemma {:induction false} TrimIsSteps(c: Config, start: State, steps: seq<Step>, s: State, before: SpoolDir,
                                       listed: seq<SpoolFile>, stuck: set<Stem>)
    returns (more: seq<Step>, t: State)
    requires Leads(c, start, steps, s) && s.up && s.batch.Trimming? && QueueDescribed(s.mem, s.disk)
    requires PruningSoFar(before, s.disk, listed, s.mem.files, stuck)
    ensures Leads(c, start, more, t) && t == s.(batch := Gathering, mem := t.mem, disk := t.disk, dropped := t.dropped)
    ensures t.mem == Enforce(s.mem, c.limit) && QueueDescribed(t.mem, t.disk)
    ensures DiskAfterPruning(before, t.disk, listed, t.mem.files, stuck)
    decreases |s.mem.files|
  {
    if s.mem.size <= c.limit || s.mem.files == [] || OnlyLeaseLeft(s.mem) {
      more, t := Play(c, start, steps, s, TrimDone);
    } else {
      var removed := s.mem.files[Victim(s.mem)].path.stem !in stuck;
      TrimDescribed(s.mem, s.disk, removed);
      PruningStep(before, s.disk, listed, s.mem, stuck);
      more, t := Play(c, start, steps, s, TrimOne(removed));
      more, t := TrimIsSteps(c, start, more, t, before, listed, stuck);
    }
  }

  lemma PruningBegins(m: Mem, disk: SpoolDir, stuck: set<Stem>)
    requires QueueDescribed(m, disk)
    ensures PruningSoFar(disk, disk, m.files, m.files, stuck)
  {
  }

  lemma AppendDescribed(m: Mem, disk: SpoolDir, f: SpoolFile)
    requires QueueDescribed(m, disk) && f.path.stem !in disk
    ensures QueueDescribed(Append(m, f), disk[f.path.stem := DiskFile(f.path.ext, f.sizeBytes, f.eventNum)])
  {
    AppendConsistent(m, f);
  }

  /** `Push` is `WriteTemp`, `RenameTemp`, some `TrimOne` and `TrimDone`, and leaves the queue and the disk that
      the spool's `Push` promises. */
  lemma PushIsSteps(c: Config, s: State, stamp: nat, size: nat, events: nat, stuck: set<Stem>)
    returns (steps: seq<Step>, t: State)
    requires Enabled(c, s, WriteTemp(stamp)) && QueueDescribed(s.mem, s.disk) && Stem(stamp, s.batch.batch) !in s.disk
    ensures Leads(c, s, steps, t) && t.batch.Gathering? && t.drain == s.drain && t.log == s.log
    ensures t.mem == Enforce(Append(s.mem, SpoolFile(Path(Stem(stamp, s.batch.batch), [Json]), size, events)), c.limit)
    ensures QueueDescribed(t.mem, t.disk)
    ensures DiskAfterPruning(s.disk[Stem(stamp, s.batch.batch) := DiskFile([Json], size, events)], t.disk,
      s.mem.files + [SpoolFile(Path(Stem(stamp, s.batch.batch), [Json]), size, events)], t.mem.files, stuck)
  {
    var f := SpoolFile(Path(Stem(stamp, s.batch.batch), [Json]), size, events);
    AppendDescribed(s.mem, s.disk, f);
    steps, t := [], s;
    steps, t := Play(c, s, steps, t, WriteTemp(stamp));
    steps, t := Play(c, s, steps, t, RenameTemp(size, events));
    PruningBegins(t.mem, t.disk, stuck);
    steps, t := TrimIsSteps(c, s, steps, t, t.disk, t.mem.files, stuck);
  }

  /** The step that follows the rename of a `Peek`. */
  function AfterMark(io: PeekIo): Step {
    if !io.readable then ReadFails(io.renamedBack) else if !io.decodable then ReadCorrupt(io.removed) else ReadSegment
  }

  /** `Peek` on a pending head is the step `Peek` and one of its three continuations, with the effect that the
      spool's `Peek` promises. */
  lemma PeekIsSteps(c: Config, s: State, io: PeekIo) returns (steps: seq<Step>, t: State)
    requires Enabled(c, s, Peek) && io.renamable
    ensures Leads(c, s, steps, t) && steps == [Peek, AfterMark(io)]
    ensures PeekEffect(PeekStatus(false, s.mem, io), io, s.mem, s.disk, t.mem, t.disk)
    ensures t.drain == if PeekStatus(false, s.mem, io) == Done then Sending else Waiting
  {
    RenamedTwice(s.mem, s.disk, MarkInflight(s.mem.files[0].path), MarkPending(MarkInflight(s.mem.files[0].path)));
    var s1 := Apply(c, s, Peek);
    LegalAppend(c, s, [], Peek);
    assert [] + [Peek] == [Peek];
    LegalAppend(c, s, [Peek], AfterMark(io));
    steps, t := [Peek] + [AfterMark(io)], Apply(c, s1, AfterMark(io));
  }

  /** `Commit` of the active lease is the step `Unlink`, with the effect of the spool's `CommitLease`. */
  lemma CommitIsStep(c: Config, s: State, l: SpoolFile, removed: bool) returns (t: State)
    requires Enabled(c, s, Unlink(removed)) && Consistent(s.mem) && s.mem.lease == Some(l)
    ensures Leads(c, s, [Unlink(removed)], t) && t.drain.Waiting?
    ensures t.mem == Commit(s.mem) && t.disk == if removed then s.disk - {l.path.stem} else s.disk
  {
    LegalAppend(c, s, [], Unlink(removed));
    t := Apply(c, s, Unlink(removed));
  }

  /** `Revert` of the active lease is the step `Unmark`, with the effect of the spool's `RevertLease`. */
  lemma RevertIsStep(c: Config, s: State, l: SpoolFile, renamed: bool) returns (t: State)
    requires Enabled(c, s, Unmark(renamed)) && Consistent(s.mem) && s.mem.lease == Some(l)
    ensures Leads(c, s, [Unmark(renamed)], t) && t.drain.Waiting?
    ensures renamed ==>
      t.mem == RenameHead(s.mem, MarkPending(l.path)).(lease := None) && t.disk == Renamed(s.disk, MarkPending(l.path))
    ensures !renamed ==> t.mem == s.mem && t.disk == s.disk
  {
    LegalAppend(c, s, [], Unmark(renamed));
    t := Apply(c, s, Unmark(renamed));
  }

  // ---------------------------------------------------------------- reopening

  lemma {:induction false} DiscardAll(c: Config, start: State, steps: seq<Step>, s: State, todo: set<Stem>)
    returns (more: seq<Step>, t: State)
    requires Leads(c, start, steps, s) && !s.up && todo <= s.disk.Keys
    ensures Leads(c, start, more, t) && t == s.(disk := s.disk - todo, dropped := t.dropped)
    decreases |todo|
  {
    if todo == {} {
      more, t := steps, s;
      assert s.disk - todo == s.disk;
    } else {
      var st :| st in todo;
      more, t := Play(c, start, steps, s, DiscardCorrupt(st));
      more, t := DiscardAll(c, start, more, t, todo - {st});
      assert s.disk - {st} - (todo - {st}) == s.disk - todo;
    }
  }

  function Unmarked(disk: SpoolDir, todo: set<Stem>): SpoolDir {
    map st | st in disk :: if st in todo then disk[st].(ext := MarkPending(Path(st, disk[st].ext)).ext) else disk[st]
  }

  lemma {:induction false} ReclaimAll(c: Config, start: State, steps: seq<Step>, s: State, todo: set<Stem>)
    returns (more: seq<Step>, t: State)
    requires Leads(c, start, steps, s) && !s.up && todo <= s.disk.Keys
    ensures Leads(c, start, more, t) && t == s.(disk := Unmarked(s.disk, todo))
    decreases |todo|
  {
    if todo == {} {
      more, t := steps, s;
      assert Unmarked(s.disk, todo) == s.disk;
    } else {
      var st :| st in todo;
      more, t := Play(c, start, steps, s, Reclaim(st));
      assert t.disk.Keys == s.disk.Keys;
      assert Unmarked(t.disk, todo - {st}) == Unmarked(s.disk, todo);
      more, t := ReclaimAll(c, start, more, t, todo - {st});
    }
  }

  /** The segments that reopening renames back. */
  function ToReclaim(disk: SpoolDir, stuck: set<Stem>): set<Stem> {
    set st | st in disk && disk[st].ext != [] && disk[st].ext[|disk[st].ext| - 1] == Inflight && st !in stuck
  }

  lemma ReopenedIs(disk: SpoolDir, corrupt: set<Stem>, stuck: set<Stem>, bad: set<Stem>)
    requires bad == set st | st in disk && st in corrupt && st !in stuck
    ensures Unmarked(disk - bad, ToReclaim(disk - bad, stuck)) == Reopened(disk, corrupt, stuck)
  {
  }

  lemma FoundDescribed(disk: SpoolDir, skipped: set<Stem>, found: seq<SpoolFile>, uuid: nat -> Str)
    requires Rebuilt(disk - skipped, found, uuid)
    ensures QueueDescribed(Mem(found, SumBytes(found), SumEvents(found), None), disk)
  {
    forall i | 0 <= i < |found| ensures Describes(found[i], disk) { assert Describes(found[i], disk - skipped); }
  }

  /** Opening a spool after a crash is a run of `DiscardCorrupt`, `Reclaim`, `Open`, `TrimOne` and `TrimDone` steps,
      with the queue and the disk that the spool's constructor promises. */
  lemma ReopenIsSteps(c: Config, s: State, corrupt: set<Stem>, unreadable: set<Stem>, stuck: set<Stem>, found: seq<SpoolFile>)
    returns (steps: seq<Step>, t: State)
    requires !s.up && s.drain.Waiting?
    requires Rebuilt(Legible(Reopened(s.disk, corrupt - unreadable, stuck), corrupt, unreadable), found, c.uuid)
    ensures Leads(c, s, steps, t) && t.up && t.batch.Gathering? && t.drain.Waiting? && t.log == s.log
    ensures t.mem == Enforce(Mem(found, SumBytes(found), SumEvents(found), None), c.limit)
    ensures DiskAfterPruning(Reopened(s.disk, corrupt - unreadable, stuck), t.disk, found, t.mem.files, stuck)
  {
    var bad := set st | st in s.disk && st in corrupt - unreadable && st !in stuck;
    ReopenedIs(s.disk, corrupt - unreadable, stuck, bad);
    steps, t := DiscardAll(c, s, [], s, bad);
    steps, t := ReclaimAll(c, s, steps, t, ToReclaim(t.disk, stuck));
    var disk := t.disk;
    assert disk == Reopened(s.disk, corrupt - unreadable, stuck);
    steps, t := Play(c, s, steps, t, Open(found, corrupt + unreadable));
    FoundDescribed(disk, corrupt + unreadable, found, c.uuid);
    PruningBegins(t.mem, disk, stuck);
    steps, t := TrimIsSteps(c, s, steps, t, disk, found, stuck);
  }
}
