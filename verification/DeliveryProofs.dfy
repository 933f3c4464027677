/** What every step of the delivery protocol keeps, and what that means for whole runs. */
module DeliveryProofs {
  import opened GoText
  import opened SpoolNames
  import opened SpoolQueue
  import opened Delivery

  // ---------------------------------------------------------------- the server's log

  /** A batch that arrives for the first time was formed after everything that arrived before it. */
  predicate FirstArrivalsInOrder(log: seq<nat>) {
    forall i, j :: 0 <= i < j < |log| && log[j] !in log[..j] ==> log[i] < log[j]
  }

  predicate Nondecreasing(log: seq<nat>) {
    forall i, j :: 0 <= i < j < |log| ==> log[i] <= log[j]
  }

  predicate Above(log: seq<nat>, b: nat) {
    forall i :: 0 <= i < |log| ==> log[i] <= b
  }

  /** The log without repeats, each batch at its first arrival. */
  function FirstArrivals(log: seq<nat>): seq<nat> {
    if log == [] then []
    else
      var init, b := log[..|log| - 1], log[|log| - 1];
      if b in init then FirstArrivals(init) else FirstArrivals(init) + [b]
  }

  lemma {:induction false} FirstArrivalsMembers(log: seq<nat>)
    ensures forall b :: b in FirstArrivals(log) <==> b in log
  {
    if log != [] {
      FirstArrivalsMembers(log[..|log| - 1]);
      assert log == log[..|log| - 1] + [log[|log| - 1]];
    }
  }

  predicate StrictlyIncreasing(s: seq<nat>) {
    forall i, j :: 0 <= i < j < |s| ==> s[i] < s[j]
  }

  lemma {:induction false} FirstArrivalsIncrease(log: seq<nat>)
    requires FirstArrivalsInOrder(log)
    ensures StrictlyIncreasing(FirstArrivals(log))
  {
    if log != [] {
      var init, b := log[..|log| - 1], log[|log| - 1];
      assert forall i, j :: 0 <= i < j < |init| ==> init[i] == log[i] && init[j] == log[j] && init[..j] == log[..j];
      FirstArrivalsIncrease(init);
      FirstArrivalsMembers(init);
      if b !in init {
        forall x | x in FirstArrivals(init) ensures x < b {
          var i :| 0 <= i < |init| && init[i] == x;
          assert log[i] == x && log[..|log| - 1] == init;
        }
        var a := FirstArrivals(init);
        assert FirstArrivals(log) == a + [b];
        assert forall i :: 0 <= i < |a| ==> a[i] in a;
      }
    }
  }

  // ---------------------------------------------------------------- the invariant

  /** Segments on disk are ordered alike by clock reading and by batch number. */
  predicate DiskOrdered(s: State) {
    && s.clock <= MAX_NANO
    && (forall st :: st in s.disk ==> st.nano <= s.clock && st.id < s.formed)
    && (forall a, b :: a in s.disk && b in s.disk && a.id < b.id ==> a.nano < b.nano)
    && (forall a, b :: a in s.disk && b in s.disk && a.id == b.id ==> a == b)
  }

  predicate QueueBacked(s: State) {
    && Consistent(s.mem)
    && StampOrdered(s.mem.files)
    && (forall i :: 0 <= i < |s.mem.files| ==> s.mem.files[i].path.stem in s.disk)
  }

  /** A segment on disk that the running agent does not queue has already been delivered. */
  ghost predicate DiskQueued(s: State, strict: bool) {
    s.up ==> forall st :: st in s.disk ==> Listed(st, s.mem.files) || (!strict && st.id in s.log)
  }

  /** Nothing on disk that has not been delivered is older than anything delivered. */
  predicate DiskNotOvertaken(s: State, strict: bool) {
    forall st :: st in s.disk ==> Above(s.log, st.id) || (!strict && st.id in s.log)
  }

  predicate HandNewest(s: State) {
    && (forall i :: 0 <= i < |s.log| ==> s.log[i] < s.formed)
    && (Hand(s).Some? ==>
          Hand(s).value + 1 == s.formed && forall st :: st in s.disk ==> st.id < Hand(s).value)
    && (s.batch.TempWritten? ==> s.batch.stamp == s.clock && forall st :: st in s.disk ==> st.nano < s.clock)
    && (s.batch.Direct? ==> s.mem.files == [])
  }

  predicate DrainAtHead(s: State) {
    && (s.drain.Marked? ==> s.mem.files != [] && s.mem.lease.None? && !s.batch.TempWritten? && !s.batch.Trimming?)
    && (s.drain.Sending? || s.drain.Committing? || s.drain.Reverting? ==> s.mem.lease.Some?)
    && (s.drain.Committing? && s.drain.acked ==> s.mem.files != [] && s.mem.files[0].path.stem.id in s.log)
    && (!s.up ==> s.mem == EMPTY_QUEUE && s.batch.Gathering? && s.drain.Waiting?)
  }

  predicate LogOrdered(s: State, strict: bool) {
    FirstArrivalsInOrder(s.log) && (strict ==> Nondecreasing(s.log))
  }

  ghost predicate Inv(s: State, strict: bool) {
    && DiskOrdered(s)
    && QueueBacked(s)
    && DiskQueued(s, strict)
    && DiskNotOvertaken(s, strict)
    && HandNewest(s)
    && DrainAtHead(s)
    && LogOrdered(s, strict)
  }

  // ---------------------------------------------------------------- deliveries

  /** One more arrival keeps the log ordered if the batch is newest or has arrived before. */
  lemma ArrivalKeepsOrder(log: seq<nat>, b: nat, strict: bool)
    requires FirstArrivalsInOrder(log) && (strict ==> Nondecreasing(log))
    requires Above(log, b) || (!strict && b in log)
    ensures FirstArrivalsInOrder(log + [b]) && (strict ==> Nondecreasing(log + [b]))
  {
    var l := log + [b];
    forall i, j | 0 <= i < j < |l| && l[j] !in l[..j] ensures l[i] < l[j] {
      if j < |log| {
        assert l[..j] == log[..j];
      } else {
        assert l[..j] == log;
        assert log[i] in log;
      }
    }
  }

  lemma LiveSendKeeps(s: State, outcome: Outcome, strict: bool)
    requires Inv(s, strict) && s.up && s.batch.Direct?
    ensures Inv(AfterSendLive(s, outcome), strict)
  {
    var b := s.batch.batch;
    assert Above(s.log, b);
    ArrivalKeepsOrder(s.log, b, strict);
    forall st | st in s.disk ensures !strict && st.id in s.log {
      assert Listed(st, s.mem.files) || (!strict && st.id in s.log);
    }
  }

  lemma LeaseSendKeeps(s: State, outcome: Outcome, strict: bool)
    requires Inv(s, strict) && s.up && s.drain.Sending? && s.mem.files != []
    ensures Inv(AfterSendLease(s, outcome), strict)
  {
    var t, head := AfterSendLease(s, outcome), s.mem.files[0].path.stem;
    if t.log != s.log {
      HeadArrives(s, t, strict);
    }
  }

  /** The head of the queue reaches the server: nothing undelivered on disk is older. */
  lemma HeadArrives(s: State, t: State, strict: bool)
    requires Inv(s, strict) && s.up && s.mem.files != [] && s.mem.lease.Some?
    requires t == s.(drain := t.drain, log := s.log + [s.mem.files[0].path.stem.id])
    requires DrainAtHead(t)
    ensures Inv(t, strict)
  {
    var head := s.mem.files[0].path.stem;
    assert head in s.disk;
    ArrivalKeepsOrder(s.log, head.id, strict);
    HeadIsOldest(s, strict);
    LongerLog(s, t, head.id, strict);
  }

  /** Segments older than the head of the queue have been delivered. */
  lemma HeadIsOldest(s: State, strict: bool)
    requires DiskOrdered(s) && QueueBacked(s) && DiskQueued(s, strict) && s.up && s.mem.files != []
    ensures forall st :: st in s.disk && st.id < s.mem.files[0].path.stem.id ==> !strict && st.id in s.log
  {
    var head := s.mem.files[0].path.stem;
    forall st | st in s.disk && st.id < head.id ensures !strict && st.id in s.log {
      assert head in s.disk;
      assert st.nano < head.nano;
      assert !Listed(st, s.mem.files);
    }
  }

  lemma LongerLog(s: State, t: State, b: nat, strict: bool)
    requires DiskNotOvertaken(s, strict) && DiskQueued(s, strict) && HandNewest(s) && b < s.formed
    requires forall st :: st in s.disk && st.id < b ==> !strict && st.id in s.log
    requires t == s.(drain := t.drain, log := s.log + [b])
    ensures DiskNotOvertaken(t, strict) && DiskQueued(t, strict) && HandNewest(t)
  {
    forall st | st in s.disk ensures Above(t.log, st.id) || (!strict && st.id in t.log) {
      assert Above(s.log, st.id) && b <= st.id ==> Above(t.log, st.id);
    }
  }

  // ---------------------------------------------------------------- the queue

  lemma CutKeepsOrder(files: seq<SpoolFile>, i: nat, disk: SpoolDir, disk': SpoolDir)
    requires StampOrdered(files) && i < |files|
    requires forall k :: 0 <= k < |files| ==> files[k].path.stem in disk
    requires disk' == disk || disk' == disk - {files[i].path.stem}
    ensures StampOrdered(files[..i] + files[i + 1..])
    ensures var cut := files[..i] + files[i + 1..];
      forall k :: 0 <= k < |cut| ==> cut[k].path.stem in disk'
  {
    var cut := files[..i] + files[i + 1..];
    assert forall k :: 0 <= k < |cut| ==> cut[k] == files[if k < i then k else k + 1];
  }

  /** Removing files or renaming them leaves the disk ordered. */
  lemma DiskShrinks(s: State, t: State, strict: bool)
    requires DiskOrdered(s) && DiskNotOvertaken(s, strict)
    requires t.disk.Keys <= s.disk.Keys
    requires t.log == s.log && t.clock == s.clock && t.formed == s.formed
    ensures DiskOrdered(t) && DiskNotOvertaken(t, strict)
  {
    assert forall st :: st in t.disk ==> st in s.disk;
  }

  /** Taking segment `i` out of the queue, and off the disk unless it has arrived. */
  lemma CutKeepsQueue(s: State, t: State, i: nat, removed: bool, strict: bool)
    requires QueueBacked(s) && DiskQueued(s, strict) && s.up && i < |s.mem.files|
    requires t.mem.files == s.mem.files[..i] + s.mem.files[i + 1..] && Consistent(t.mem)
    requires t.disk == Unlinked(s.disk, s.mem.files[i].path.stem, removed)
    requires removed || (!strict && s.mem.files[i].path.stem.id in s.log)
    requires t.log == s.log
    ensures QueueBacked(t) && DiskQueued(t, strict)
  {
    CutKeepsOrder(s.mem.files, i, s.disk, t.disk);
    forall st | st in t.disk ensures Listed(st, t.mem.files) || (!strict && st.id in t.log) {
      ListedCut(s.mem.files, i, st);
    }
  }

  lemma CommitKeeps(s: State, t: State, removed: bool, strict: bool)
    requires Inv(s, strict) && s.up && t.up && s.mem.files != []
    requires t.mem == Commit(s.mem) && t.disk == Unlinked(s.disk, s.mem.files[0].path.stem, removed)
    requires removed || (!strict && s.mem.files[0].path.stem.id in s.log)
    requires t.log == s.log && t.clock == s.clock && t.formed == s.formed
    requires t.batch == s.batch && t.drain == Waiting
    ensures Inv(t, strict)
  {
    CommitKeepsQueue(s, t, removed, strict);
    DiskShrinks(s, t, strict);
    HandUntouched(s, t);
  }

  lemma CommitKeepsQueue(s: State, t: State, removed: bool, strict: bool)
    requires QueueBacked(s) && DiskQueued(s, strict) && s.up && s.mem.files != []
    requires t.mem == Commit(s.mem) && t.disk == Unlinked(s.disk, s.mem.files[0].path.stem, removed)
    requires removed || (!strict && s.mem.files[0].path.stem.id in s.log)
    requires t.log == s.log
    ensures QueueBacked(t) && DiskQueued(t, strict)
  {
    CommitConsistent(s.mem);
    assert t.mem.files == s.mem.files[..0] + s.mem.files[1..];
    CutKeepsQueue(s, t, 0, removed, strict);
  }

  /** Steps that leave the log and the batch in hand alone and add nothing to the disk. */
  lemma HandUntouched(s: State, t: State)
    requires HandNewest(s) && t.log == s.log && t.formed == s.formed && t.clock == s.clock
    requires t.batch == s.batch && t.disk.Keys <= s.disk.Keys
    requires s.mem.files == [] ==> t.mem.files == []
    ensures HandNewest(t)
  {
    assert forall st :: st in t.disk ==> st in s.disk;
  }

  lemma TrimKeeps(s: State, removed: bool, strict: bool)
    requires Inv(s, strict) && s.up && s.batch.Trimming? && s.mem.files != [] && !OnlyLeaseLeft(s.mem)
    requires Tame(s, TrimOne(removed), strict)
    ensures Inv(AfterTrimOne(s, removed), strict)
  {
    var t := AfterTrimOne(s, removed);
    PruneOneConsistent(s.mem);
    CutKeepsQueue(s, t, Victim(s.mem), removed, strict);
    DiskShrinks(s, t, strict);
    HandUntouched(s, t);
  }

  lemma RenameHeadKeepsListed(files: seq<SpoolFile>, p: Path, st: Stem)
    requires files != [] && p.stem == files[0].path.stem
    ensures Listed(st, [files[0].(path := p)] + files[1..]) <==> Listed(st, files)
  {
    var r := [files[0].(path := p)] + files[1..];
    assert |r| == |files| && forall i :: 0 <= i < |files| ==> r[i].path.stem == files[i].path.stem;
    if Listed(st, files) {
      var k :| 0 <= k < |files| && files[k].path.stem == st;
      assert r[k].path.stem == st;
    }
    if Listed(st, r) {
      var k :| 0 <= k < |r| && r[k].path.stem == st;
      assert files[k].path.stem == st;
    }
  }

  lemma RenameKeepsQueue(s: State, t: State, p: Path, strict: bool)
    requires QueueBacked(s) && DiskQueued(s, strict) && s.up
    requires s.mem.files != [] && p.stem == s.mem.files[0].path.stem
    requires t.mem == RenameHead(s.mem, p).(lease := t.mem.lease)
    requires t.mem.lease.Some? ==> t.mem.lease.value == s.mem.files[0].(path := p)
    requires t.disk.Keys == s.disk.Keys && t.log == s.log
    ensures QueueBacked(t) && DiskQueued(t, strict)
  {
    RenameHeadConsistent(s.mem, p, t.mem.lease);
    forall st | st in t.disk ensures Listed(st, t.mem.files) || (!strict && st.id in t.log) {
      assert st in s.disk;
      RenameHeadKeepsListed(s.mem.files, p, st);
    }
    forall i | 0 <= i < |s.mem.files|
      ensures t.mem.files[i].path.stem == s.mem.files[i].path.stem && t.mem.files[i].path.stem in t.disk
    {
      assert s.mem.files[i].path.stem in s.disk.Keys;
    }
  }

  /** Renaming the head, on disk or in memory or both, and setting or clearing its lease. */
  lemma RenameKeeps(s: State, t: State, p: Path, strict: bool)
    requires Inv(s, strict) && s.up && t.up && s.mem.files != [] && p.stem == s.mem.files[0].path.stem
    requires t.mem == RenameHead(s.mem, p).(lease := t.mem.lease)
    requires t.mem.lease.Some? ==> t.mem.lease.value == s.mem.files[0].(path := p)
    requires t.disk.Keys == s.disk.Keys
    requires t.log == s.log && t.clock == s.clock && t.formed == s.formed && t.batch == s.batch
    requires DrainAtHead(t)
    ensures Inv(t, strict)
  {
    RenameKeepsQueue(s, t, p, strict);
    DiskShrinks(s, t, strict);
    HandUntouched(s, t);
  }

  lemma ListedAppend(files: seq<SpoolFile>, f: SpoolFile, st: Stem)
    ensures Listed(st, files + [f]) <==> Listed(st, files) || st == f.path.stem
  {
    var r := files + [f];
    assert r[|files|] == f;
    if Listed(st, files) {
      var k :| 0 <= k < |files| && files[k].path.stem == st;
      assert r[k] == files[k];
    }
  }

  lemma PushKeepsQueue(s: State, t: State, st: Stem, d: DiskFile, strict: bool)
    requires QueueBacked(s) && DiskQueued(s, strict) && s.up
    requires st !in s.disk && forall x :: x in s.disk ==> x.nano < st.nano
    requires t.disk == s.disk[st := d] && t.log == s.log
    requires t.mem == Append(s.mem, SpoolFile(Path(st, d.ext), d.sizeBytes, d.eventNum))
    ensures QueueBacked(t) && DiskQueued(t, strict)
  {
    var f := SpoolFile(Path(st, d.ext), d.sizeBytes, d.eventNum);
    AppendConsistent(s.mem, f);
    forall x | x in t.disk ensures Listed(x, t.mem.files) || (!strict && x.id in t.log) {
      ListedAppend(s.mem.files, f, x);
    }
  }

  /** A segment newer than everything on disk, of a batch not older than anything delivered. */
  lemma PushKeepsDisk(s: State, t: State, st: Stem, d: DiskFile, strict: bool)
    requires DiskOrdered(s) && DiskNotOvertaken(s, strict) && Above(s.log, st.id)
    requires forall x :: x in s.disk ==> x.nano < st.nano && x.id < st.id
    requires st.nano <= s.clock && st.id < s.formed
    requires t.disk == s.disk[st := d] && t.log == s.log && t.clock == s.clock && t.formed == s.formed
    ensures DiskOrdered(t) && DiskNotOvertaken(t, strict)
  {
    assert forall x :: x in t.disk <==> x in s.disk || x == st;
  }

  lemma PushFacts(s: State, strict: bool)
    requires Inv(s, strict) && s.batch.TempWritten?
    ensures var st := Stem(s.batch.stamp, s.batch.batch);
      && st !in s.disk && Above(s.log, st.id) && st.nano <= s.clock && st.id < s.formed
      && forall x :: x in s.disk ==> x.nano < st.nano && x.id < st.id
  {
  }

  lemma PushKeeps(c: Config, s: State, size: nat, events: nat, strict: bool)
    requires Inv(s, strict) && Enabled(c, s, RenameTemp(size, events))
    ensures Inv(Apply(c, s, RenameTemp(size, events)), strict)
  {
    var t := Apply(c, s, RenameTemp(size, events));
    var st, d := Stem(s.batch.stamp, s.batch.batch), DiskFile([Json], size, events);
    PushFacts(s, strict);
    PushKeepsQueue(s, t, st, d, strict);
    PushKeepsDisk(s, t, st, d, strict);
  }

  lemma OpenKeeps(c: Config, s: State, files: seq<SpoolFile>, skipped: set<Stem>, strict: bool)
    requires Inv(s, strict) && Enabled(c, s, Open(files, skipped)) && Tame(s, Open(files, skipped), strict)
    ensures Inv(Apply(c, s, Open(files, skipped)), strict)
  {
    var t := Apply(c, s, Open(files, skipped));
    assert QueueBacked(t) && DiskQueued(t, strict) by {
      OpenedOrder(s, files, skipped, c.uuid);
      OpenedQueue(t, files, skipped, c.uuid, strict);
    }
    assert DiskOrdered(t) && DiskNotOvertaken(t, strict) by { DiskShrinks(s, t, strict); }
  }

  lemma OpenedOrder(s: State, files: seq<SpoolFile>, skipped: set<Stem>, uuid: nat -> Str)
    requires DiskOrdered(s) && Rebuilt(s.disk - skipped, files, uuid)
    ensures StampOrdered(files)
  {
    StampsUniqueOfOrdered(s);
    assert StampsUnique(s.disk - skipped);
    RebuiltStampOrdered(s.disk - skipped, files, uuid);
  }

  lemma OpenedQueue(t: State, files: seq<SpoolFile>, skipped: set<Stem>, uuid: nat -> Str, strict: bool)
    requires t.mem == Mem(files, SumBytes(files), SumEvents(files), None)
    requires Rebuilt(t.disk - skipped, files, uuid) && StampOrdered(files)
    requires forall st :: st in skipped && st in t.disk ==> Delivered(t, st, strict)
    ensures QueueBacked(t) && DiskQueued(t, strict)
  {
    assert forall i :: 0 <= i < |files| ==> Describes(files[i], t.disk - skipped);
    assert forall st :: st in t.disk && st !in skipped ==> st in t.disk - skipped;
  }

  lemma StampsUniqueOfOrdered(s: State)
    requires DiskOrdered(s)
    ensures StampsUnique(s.disk)
  {
    forall a, b | a in s.disk && b in s.disk && a.nano == b.nano ensures a == b {
      assert a.id < b.id ==> a.nano < b.nano;
      assert b.id < a.id ==> b.nano < a.nano;
    }
  }

  // ---------------------------------------------------------------- every step

  /** Steps that move the batch in hand and leave queue, disk and log alone. */
  lemma HandMoveKeeps(s: State, t: State, strict: bool)
    requires Inv(s, strict) && s.up && t.up && t.mem == s.mem && t.disk == s.disk && t.log == s.log && t.drain == s.drain
    requires s.formed <= t.formed && s.clock <= t.clock <= MAX_NANO
    requires HandNewest(t) && DrainAtHead(t)
    ensures Inv(t, strict)
  {
  }

  lemma FormKeeps(c: Config, s: State, strict: bool)
    requires Inv(s, strict) && Enabled(c, s, Form)
    ensures Inv(Apply(c, s, Form), strict)
  {
    HandMoveKeeps(s, Apply(c, s, Form), strict);
  }

  lemma CheckBacklogKeeps(c: Config, s: State, strict: bool)
    requires Inv(s, strict) && Enabled(c, s, CheckBacklog)
    ensures Inv(Apply(c, s, CheckBacklog), strict)
  {
    HandMoveKeeps(s, Apply(c, s, CheckBacklog), strict);
  }

  lemma PushErrorKeeps(c: Config, s: State, strict: bool)
    requires Inv(s, strict) && Enabled(c, s, PushError)
    ensures Inv(Apply(c, s, PushError), strict)
  {
    HandMoveKeeps(s, Apply(c, s, PushError), strict);
  }

  lemma WriteTempKeeps(c: Config, s: State, t: nat, strict: bool)
    requires Inv(s, strict) && Enabled(c, s, WriteTemp(t))
    ensures Inv(Apply(c, s, WriteTemp(t)), strict)
  {
    HandMoveKeeps(s, Apply(c, s, WriteTemp(t)), strict);
  }

  lemma TrimDoneKeeps(c: Config, s: State, strict: bool)
    requires Inv(s, strict) && Enabled(c, s, TrimDone)
    ensures Inv(Apply(c, s, TrimDone), strict)
  {
    HandMoveKeeps(s, Apply(c, s, TrimDone), strict);
  }

  /** Steps of `batchWorker`. */
  lemma BatchStepKeeps(c: Config, s: State, step: Step, strict: bool)
    requires BatchStep(step)
    requires Inv(s, strict) && Enabled(c, s, step) && Tame(s, step, strict)
    ensures Inv(Apply(c, s, step), strict)
  {
    match step
    case Form => FormKeeps(c, s, strict);
    case CheckBacklog => CheckBacklogKeeps(c, s, strict);
    case SendLive(outcome) => LiveSendKeeps(s, outcome, strict);
    case PushError => PushErrorKeeps(c, s, strict);
    case WriteTemp(t) => WriteTempKeeps(c, s, t, strict);
    case RenameTemp(size, events) => PushKeeps(c, s, size, events, strict);
    case TrimOne(removed) => TrimKeeps(s, removed, strict);
    case TrimDone => TrimDoneKeeps(c, s, strict);
  }

  lemma PeekKeeps(c: Config, s: State, strict: bool)
    requires Inv(s, strict) && Enabled(c, s, Peek)
    ensures Inv(Apply(c, s, Peek), strict)
  {
    RenameKeeps(s, Apply(c, s, Peek), MarkInflight(s.mem.files[0].path), strict);
  }

  lemma ReadSegmentKeeps(c: Config, s: State, strict: bool)
    requires Inv(s, strict) && Enabled(c, s, ReadSegment)
    ensures Inv(Apply(c, s, ReadSegment), strict)
  {
  }

  lemma ReadFailsKeeps(c: Config, s: State, renamed: bool, strict: bool)
    requires Inv(s, strict) && Enabled(c, s, ReadFails(renamed))
    ensures Inv(Apply(c, s, ReadFails(renamed)), strict)
  {
    RenameKeeps(s, Apply(c, s, ReadFails(renamed)), MarkPending(s.mem.files[0].path), strict);
  }

  lemma ReadCorruptKeeps(c: Config, s: State, removed: bool, strict: bool)
    requires Inv(s, strict) && Enabled(c, s, ReadCorrupt(removed)) && Tame(s, ReadCorrupt(removed), strict)
    ensures Inv(Apply(c, s, ReadCorrupt(removed)), strict)
  {
    CommitKeeps(s, Apply(c, s, ReadCorrupt(removed)), removed, strict);
  }

  lemma UnlinkKeeps(c: Config, s: State, removed: bool, strict: bool)
    requires Inv(s, strict) && Enabled(c, s, Unlink(removed)) && Tame(s, Unlink(removed), strict)
    ensures Inv(Apply(c, s, Unlink(removed)), strict)
  {
    CommitKeeps(s, AfterUnlink(s, removed), removed, strict);
  }

  lemma UnmarkKeeps(c: Config, s: State, renamed: bool, strict: bool)
    requires Inv(s, strict) && Enabled(c, s, Unmark(renamed))
    ensures Inv(Apply(c, s, Unmark(renamed)), strict)
  {
    if renamed { RenameKeeps(s, Apply(c, s, Unmark(renamed)), MarkPending(s.mem.files[0].path), strict); }
  }

  /** Steps of `spoolDrainWorker`. */
  lemma DrainStepKeeps(c: Config, s: State, step: Step, strict: bool)
    requires DrainStep(step)
    requires Inv(s, strict) && Enabled(c, s, step) && Tame(s, step, strict)
    ensures Inv(Apply(c, s, step), strict)
  {
    match step
    case Peek => PeekKeeps(c, s, strict);
    case ReadSegment => ReadSegmentKeeps(c, s, strict);
    case ReadFails(renamed) => ReadFailsKeeps(c, s, renamed, strict);
    case ReadCorrupt(removed) => ReadCorruptKeeps(c, s, removed, strict);
    case SendLease(outcome) => LeaseSendKeeps(s, outcome, strict);
    case Unlink(removed) => UnlinkKeeps(c, s, removed, strict);
    case Unmark(renamed) => UnmarkKeeps(c, s, renamed, strict);
  }

  /** Crashing and reopening. */
  lemma RestartStepKeeps(c: Config, s: State, step: Step, strict: bool)
    requires RestartStep(step)
    requires Inv(s, strict) && Enabled(c, s, step) && Tame(s, step, strict)
    ensures Inv(Apply(c, s, step), strict)
  {
    var t := Apply(c, s, step);
    match step
    case Crash => CrashKeeps(c, s, strict);
    case Reclaim(st) => DownKeeps(s, t, strict);
    case DiscardCorrupt(st) => DownKeeps(s, t, strict);
    case Open(files, skipped) => OpenKeeps(c, s, files, skipped, strict);
  }

  lemma CrashKeeps(c: Config, s: State, strict: bool)
    requires Inv(s, strict) && Enabled(c, s, Crash)
    ensures Inv(Apply(c, s, Crash), strict)
  {
    DiskShrinks(s, Apply(c, s, Crash), strict);
  }

  /** Renaming or removing segments while the agent is down. */
  lemma DownKeeps(s: State, t: State, strict: bool)
    requires Inv(s, strict) && !s.up && t.disk.Keys <= s.disk.Keys
    requires t == s.(disk := t.disk, dropped := t.dropped)
    ensures Inv(t, strict)
  {
    DiskShrinks(s, t, strict);
  }

  lemma StepKeeps(c: Config, s: State, step: Step, strict: bool)
    requires Inv(s, strict) && Enabled(c, s, step) && Tame(s, step, strict)
    ensures Inv(Apply(c, s, step), strict)
  {
    if RestartStep(step) {
      RestartStepKeeps(c, s, step, strict);
    } else if DrainStep(step) {
      DrainStepKeeps(c, s, step, strict);
    } else {
      BatchStepKeeps(c, s, step, strict);
    }
  }

  lemma {:induction false} RunKeeps(c: Config, s: State, steps: seq<Step>, strict: bool)
    requires Inv(s, strict) && Legal(c, s, steps) && TameRun(c, s, steps, strict)
    ensures Inv(Exec(c, s, steps), strict)
    decreases |steps|
  {
    if steps != [] {
      StepKeeps(c, s, steps[0], strict);
      RunKeeps(c, Apply(c, s, steps[0]), steps[1..], strict);
    }
  }

  // ---------------------------------------------------------------- order of delivery

  /** Strict FIFO: in every interleaving, with retryable failures, lost acks and crashes anywhere,
      first arrivals at the server are in the order in which batches were formed. */
  lemma StrictFifo(c: Config, steps: seq<Step>)
    requires Legal(c, Init(), steps) && TameRun(c, Init(), steps, false)
    ensures var s := Exec(c, Init(), steps);
      && StrictlyIncreasing(FirstArrivals(s.log))
      && forall b :: b in FirstArrivals(s.log) ==> b < s.formed
  {
    RunKeeps(c, Init(), steps, false);
    var s := Exec(c, Init(), steps);
    FirstArrivalsIncrease(s.log);
    FirstArrivalsMembers(s.log);
  }

  /** If delivered segments are really unlinked too, repeats are consecutive: the whole log is sorted. */
  lemma ArrivalsNondecreasing(c: Config, steps: seq<Step>)
    requires Legal(c, Init(), steps) && TameRun(c, Init(), steps, true)
    ensures Nondecreasing(Exec(c, Init(), steps).log)
  {
    RunKeeps(c, Init(), steps, true);
  }

  /** While a live batch is being sent the queue is empty and everything on disk has been delivered. */
  lemma LiveSendNeverOvertakes(c: Config, steps: seq<Step>)
    requires Legal(c, Init(), steps) && TameRun(c, Init(), steps, false)
    requires Exec(c, Init(), steps).batch.Direct?
    ensures var s := Exec(c, Init(), steps);
      s.mem.files == [] && forall st :: st in s.disk ==> st.id in s.log
  {
    RunKeeps(c, Init(), steps, false);
    var s := Exec(c, Init(), steps);
    forall st | st in s.disk ensures st.id in s.log {
      assert Listed(st, s.mem.files) || st.id in s.log;
    }
  }

  // ---------------------------------------------------------------- crash recovery

  lemma {:induction false} ReclaimsKeepStems(c: Config, s: State, reclaims: seq<Step>)
    requires Legal(c, s, reclaims) && forall i :: 0 <= i < |reclaims| ==> reclaims[i].Reclaim?
    ensures Exec(c, s, reclaims) == s.(disk := Exec(c, s, reclaims).disk)
    ensures Exec(c, s, reclaims).disk.Keys == s.disk.Keys
    decreases |reclaims|
  {
    if reclaims != [] {
      var t := Apply(c, s, reclaims[0]);
      assert t.disk.Keys == s.disk.Keys;
      ReclaimsKeepStems(c, t, reclaims[1..]);
    }
  }

  lemma {:induction false} ReclaimsAreTame(c: Config, s: State, reclaims: seq<Step>, strict: bool)
    requires Legal(c, s, reclaims) && forall i :: 0 <= i < |reclaims| ==> reclaims[i].Reclaim?
    ensures TameRun(c, s, reclaims, strict)
    decreases |reclaims|
  {
    if reclaims != [] {
      ReclaimsAreTame(c, Apply(c, s, reclaims[0]), reclaims[1..], strict);
    }
  }

  predicate SameStems(a: seq<SpoolFile>, b: seq<SpoolFile>) {
    |a| == |b| && forall i :: 0 <= i < |a| ==> a[i].path.stem == b[i].path.stem
  }

  lemma RebuiltListsQueue(c: Config, s: State, disk: SpoolDir, files: seq<SpoolFile>, strict: bool)
    requires QueueBacked(s) && DiskQueued(s, strict) && s.up && disk.Keys == s.disk.Keys
    requires Rebuilt(disk, files, c.uuid) && StampOrdered(files)
    ensures forall st :: Listed(st, s.mem.files) ==> Listed(st, files)
    ensures forall st :: Listed(st, files) ==> Listed(st, s.mem.files) || (!strict && st.id in s.log)
    ensures strict ==> SameStems(files, s.mem.files)
  {
    forall st | Listed(st, s.mem.files) ensures Listed(st, files) {
      var i :| 0 <= i < |s.mem.files| && s.mem.files[i].path.stem == st;
      assert st in s.disk.Keys;
    }
    forall st | Listed(st, files) ensures Listed(st, s.mem.files) || (!strict && st.id in s.log) {
      var i :| 0 <= i < |files| && files[i].path.stem == st;
      assert Describes(files[i], disk) && st in s.disk.Keys;
    }
    if strict { StampOrderedUnique(files, s.mem.files); }
  }

  /** Crash recovery: whatever step a crash interrupts, and however many in-flight names reopening
      restores, the queue comes back in push order with the leased segment at its head. Segments whose
      removal had failed come back as well, and each of those was already delivered. */
  lemma RecoveryRebuildsQueue(c: Config, s: State, strict: bool, reclaims: seq<Step>, r: State, files: seq<SpoolFile>)
    requires Inv(s, strict) && s.up
    requires forall i :: 0 <= i < |reclaims| ==> reclaims[i].Reclaim?
    requires Legal(c, Apply(c, s, Crash), reclaims) && r == Exec(c, Apply(c, s, Crash), reclaims)
    requires Rebuilt(r.disk, files, c.uuid)
    ensures StampOrdered(files)
    ensures forall st :: Listed(st, s.mem.files) ==> Listed(st, files)
    ensures forall st :: Listed(st, files) ==> Listed(st, s.mem.files) || (!strict && st.id in s.log)
    ensures strict ==> SameStems(files, s.mem.files)
  {
    CrashedDisk(c, s, Apply(c, s, Crash), reclaims, r, strict);
    RecoveredQueue(c, s, r.disk, files, strict);
  }

  lemma RecoveredQueue(c: Config, s: State, disk: SpoolDir, files: seq<SpoolFile>, strict: bool)
    requires QueueBacked(s) && DiskQueued(s, strict) && s.up && disk.Keys == s.disk.Keys
    requires StampsUnique(disk) && Rebuilt(disk, files, c.uuid)
    ensures StampOrdered(files)
    ensures forall st :: Listed(st, s.mem.files) ==> Listed(st, files)
    ensures forall st :: Listed(st, files) ==> Listed(st, s.mem.files) || (!strict && st.id in s.log)
    ensures strict ==> SameStems(files, s.mem.files)
  {
    RebuiltStampOrdered(disk, files, c.uuid);
    RebuiltListsQueue(c, s, disk, files, strict);
  }

  lemma CrashedDisk(c: Config, s: State, d: State, reclaims: seq<Step>, r: State, strict: bool)
    requires Inv(s, strict) && s.up && d == Apply(c, s, Crash)
    requires forall i :: 0 <= i < |reclaims| ==> reclaims[i].Reclaim?
    requires Legal(c, d, reclaims) && r == Exec(c, d, reclaims)
    ensures r.disk.Keys == s.disk.Keys && StampsUnique(r.disk)
  {
    RestartStepKeeps(c, s, Crash, strict);
    ReclaimsAreTame(c, d, reclaims, strict);
    RunKeeps(c, d, reclaims, strict);
    ReclaimsKeepStems(c, d, reclaims);
    StampsUniqueOfOrdered(r);
  }

  // ---------------------------------------------------------------- no silent loss

  ghost predicate OnDisk(s: State, b: nat) {
    exists st :: st in s.disk && st.id == b
  }

  ghost predicate Found(s: State, b: nat) {
    b in s.log || Hand(s) == Some(b) || OnDisk(s, b) || b in s.dropped
  }

  /** Every batch formed has reached the server, is still held, or was dropped for a recorded reason. */
  ghost predicate Accounted(s: State) {
    forall b: nat :: b < s.formed ==> Found(s, b)
  }

  /** Nothing is forgotten by a step that forgets neither arrivals nor drops, finds the batch in hand
      again, and takes off the disk only what has arrived or is recorded as dropped. */
  lemma NothingForgotten(s: State, t: State)
    requires Accounted(s)
    requires s.log <= t.log && s.dropped.Keys <= t.dropped.Keys
    requires forall st :: st in s.disk ==> st in t.disk || st.id in t.log || st.id in t.dropped
    requires Hand(s).Some? ==> Found(t, Hand(s).value)
    requires t.formed == s.formed || (t.formed == s.formed + 1 && Hand(t) == Some(s.formed))
    ensures Accounted(t)
  {
    forall b: nat | b < t.formed ensures Found(t, b) {
      if b < s.formed {
        assert Found(s, b);
        if OnDisk(s, b) {
          var st :| st in s.disk && st.id == b;
          assert st in t.disk ==> OnDisk(t, b);
        }
      }
    }
  }

  lemma BatchStepKeepsAccounted(c: Config, s: State, step: Step)
    requires BatchStep(step)
    requires Enabled(c, s, step) && Accounted(s)
    ensures Accounted(Apply(c, s, step))
  {
    var t := Apply(c, s, step);
    if step.RenameTemp? {
      assert Stem(s.batch.stamp, s.batch.batch) in t.disk;
      assert OnDisk(t, s.batch.batch);
    }
    NothingForgotten(s, t);
  }

  lemma DrainStepKeepsAccounted(c: Config, s: State, step: Step)
    requires DrainStep(step)
    requires DrainAtHead(s) && Enabled(c, s, step) && Accounted(s)
    ensures Accounted(Apply(c, s, step))
  {
    NothingForgotten(s, Apply(c, s, step));
  }

  lemma RestartStepKeepsAccounted(c: Config, s: State, step: Step)
    requires RestartStep(step)
    requires DrainAtHead(s) && Enabled(c, s, step) && Accounted(s)
    ensures Accounted(Apply(c, s, step))
  {
    NothingForgotten(s, Apply(c, s, step));
  }

  /** The lease is the head of the queue, and the drain worker stands at the head. */
  predicate AtHead(s: State) {
    (s.mem.lease.Some? ==> s.mem.files != [] && s.mem.files[0] == s.mem.lease.value) && DrainAtHead(s)
  }

  lemma TrimKeepsHead(s: State, removed: bool)
    requires AtHead(s) && s.batch.Trimming? && s.mem.files != [] && !OnlyLeaseLeft(s.mem)
    ensures AtHead(AfterTrimOne(s, removed))
  {
  }

  lemma BatchStepKeepsHead(c: Config, s: State, step: Step)
    requires BatchStep(step) && AtHead(s) && Enabled(c, s, step)
    ensures AtHead(Apply(c, s, step))
  {
    if step.TrimOne? { TrimKeepsHead(s, step.removed); }
  }

  lemma DrainStepKeepsHead(c: Config, s: State, step: Step)
    requires DrainStep(step) && AtHead(s) && Enabled(c, s, step)
    ensures AtHead(Apply(c, s, step))
  {
  }

  /** Whatever the file system does, every step keeps the lease at the head. */
  lemma StepKeepsHead(c: Config, s: State, step: Step)
    requires AtHead(s) && Enabled(c, s, step)
    ensures AtHead(Apply(c, s, step))
  {
    if DrainStep(step) {
      DrainStepKeepsHead(c, s, step);
    } else if BatchStep(step) {
      BatchStepKeepsHead(c, s, step);
    }
  }

  lemma {:induction false} RunKeepsHead(c: Config, s: State, steps: seq<Step>)
    requires AtHead(s) && Legal(c, s, steps)
    ensures AtHead(Exec(c, s, steps))
    decreases |steps|
  {
    if steps != [] {
      StepKeepsHead(c, s, steps[0]);
      RunKeepsHead(c, Apply(c, s, steps[0]), steps[1..]);
    }
  }

  lemma StepKeepsAccounted(c: Config, s: State, step: Step)
    requires DrainAtHead(s) && Enabled(c, s, step) && Accounted(s)
    ensures Accounted(Apply(c, s, step))
  {
    if RestartStep(step) {
      RestartStepKeepsAccounted(c, s, step);
    } else if DrainStep(step) {
      DrainStepKeepsAccounted(c, s, step);
    } else {
      BatchStepKeepsAccounted(c, s, step);
    }
  }

  lemma {:induction false} RunKeepsAccounted(c: Config, s: State, steps: seq<Step>)
    requires AtHead(s) && Legal(c, s, steps) && Accounted(s)
    ensures Accounted(Exec(c, s, steps))
    decreases |steps|
  {
    if steps != [] {
      StepKeepsHead(c, s, steps[0]);
      StepKeepsAccounted(c, s, steps[0]);
      RunKeepsAccounted(c, Apply(c, s, steps[0]), steps[1..]);
    }
  }

  /** No batch disappears silently, across any number of crashes and whatever file operations fail. */
  lemma NothingVanishes(c: Config, steps: seq<Step>)
    requires Legal(c, Init(), steps)
    ensures Accounted(Exec(c, Init(), steps))
  {
    RunKeepsAccounted(c, Init(), steps);
  }

  function QueuedIds(s: State): set<nat> {
    set i | 0 <= i < |s.mem.files| :: s.mem.files[i].path.stem.id
  }

  function One(p: bool): nat {
    if p then 1 else 0
  }

  /** In how many places batch `b` is. */
  function Places(s: State, b: nat): nat {
    One(b in s.acked) + One(Hand(s) == Some(b)) + One(b in QueuedIds(s)) + One(b in s.dropped)
  }

  predicate BatchesDistinct(files: seq<SpoolFile>) {
    forall i, j :: 0 <= i < j < |files| ==> files[i].path.stem.id != files[j].path.stem.id
  }

  ghost predicate Ledger(s: State) {
    && s.up && Consistent(s.mem) && DrainAtHead(s) && BatchesDistinct(s.mem.files)
    && (forall b :: b in s.acked ==> b in s.log)
    && (forall b: nat :: Places(s, b) == One(b < s.formed))
  }

  lemma IdsAfterCut(files: seq<SpoolFile>, i: nat, b: nat)
    requires BatchesDistinct(files) && i < |files|
    ensures var cut := files[..i] + files[i + 1..];
      && BatchesDistinct(cut)
      && ((exists k :: 0 <= k < |cut| && cut[k].path.stem.id == b) <==>
          (exists k :: 0 <= k < |files| && files[k].path.stem.id == b) && b != files[i].path.stem.id)
  {
    var cut := files[..i] + files[i + 1..];
    assert forall k :: 0 <= k < |cut| ==> cut[k] == files[if k < i then k else k + 1];
    if k :| 0 <= k < |files| && files[k].path.stem.id == b && b != files[i].path.stem.id {
      assert cut[if k < i then k else k - 1] == files[k];
    }
  }

  /** The segment at `i` leaves the queue for the place `t` records it in. */
  lemma CutKeepsLedger(s: State, t: State, i: nat)
    requires Ledger(s) && i < |s.mem.files| && t.up && Consistent(t.mem) && DrainAtHead(t)
    requires t.mem.files == s.mem.files[..i] + s.mem.files[i + 1..]
    requires t.formed == s.formed && t.log == s.log && Hand(t) == Hand(s)
    requires
      var b := s.mem.files[i].path.stem.id;
      || (t.acked == s.acked + {b} && b in s.log && t.dropped == s.dropped)
      || (t.acked == s.acked && t.dropped.Keys == s.dropped.Keys + {b})
    ensures Ledger(t)
  {
    var x := s.mem.files[i].path.stem.id;
    assert x in QueuedIds(s);
    forall b: nat ensures Places(t, b) == One(b < t.formed) {
      IdsAfterCut(s.mem.files, i, b);
      assert b in QueuedIds(t) <==> b in QueuedIds(s) && b != x;
      assert Places(s, b) == One(b < s.formed);
      assert Places(s, x) == One(x < s.formed);
    }
    IdsAfterCut(s.mem.files, i, x);
  }

  lemma RenameKeepsLedger(s: State, t: State, p: Path)
    requires Ledger(s) && s.mem.files != [] && p.stem == s.mem.files[0].path.stem
    requires t.up && DrainAtHead(t) && t.mem == RenameHead(s.mem, p).(lease := t.mem.lease)
    requires t.mem.lease.Some? ==> t.mem.lease.value == s.mem.files[0].(path := p)
    requires t.formed == s.formed && t.log == s.log && t.batch == s.batch
    requires t.acked == s.acked && t.dropped == s.dropped
    ensures Ledger(t)
  {
    RenameHeadConsistent(s.mem, p, t.mem.lease);
    assert forall i :: 0 <= i < |s.mem.files| ==> t.mem.files[i].path.stem == s.mem.files[i].path.stem;
    assert QueuedIds(t) == QueuedIds(s);
    forall b: nat ensures Places(t, b) == One(b < t.formed) {
      assert Places(s, b) == One(b < s.formed);
    }
  }

  lemma PushKeepsLedger(c: Config, s: State, size: nat, events: nat)
    requires Ledger(s) && Enabled(c, s, RenameTemp(size, events))
    ensures Ledger(Apply(c, s, RenameTemp(size, events)))
  {
    var t := Apply(c, s, RenameTemp(size, events));
    var h := s.batch.batch;
    assert Hand(s) == Some(h) && Places(s, h) == One(h < s.formed);
    forall i | 0 <= i < |s.mem.files| ensures s.mem.files[i].path.stem.id != h {
      assert s.mem.files[i].path.stem.id in QueuedIds(s);
    }
    AppendConsistent(s.mem, t.mem.files[|s.mem.files|]);
    assert QueuedIds(t) == QueuedIds(s) + {h} by {
      assert t.mem.files[|s.mem.files|].path.stem.id == h;
      forall b | b in QueuedIds(s) ensures b in QueuedIds(t) {
        var i :| 0 <= i < |s.mem.files| && s.mem.files[i].path.stem.id == b;
        assert t.mem.files[i].path.stem.id == b;
      }
    }
    forall b: nat ensures Places(t, b) == One(b < t.formed) {
      assert Places(s, b) == One(b < s.formed);
    }
  }

  /** The batch in hand moves on while the queue stays as it is. */
  lemma HandMoveKeepsLedger(s: State, t: State)
    requires Ledger(s) && t.up && t.mem.files == s.mem.files && Consistent(t.mem) && DrainAtHead(t)
    requires forall b :: b in t.acked ==> b in t.log
    requires
      || (Hand(t) == Hand(s) && t.acked == s.acked && t.dropped == s.dropped && t.formed == s.formed)
      || (Hand(s).None? && Hand(t) == Some(s.formed) && t.acked == s.acked && t.dropped == s.dropped
          && t.formed == s.formed + 1)
      || (Hand(s).Some? && Hand(t).None? && t.formed == s.formed
          && ((t.acked == s.acked + {Hand(s).value} && t.dropped == s.dropped)
              || (t.acked == s.acked && t.dropped.Keys == s.dropped.Keys + {Hand(s).value})))
    ensures Ledger(t)
  {
    assert QueuedIds(t) == QueuedIds(s);
    assert Hand(s).Some? ==> Places(s, Hand(s).value) == One(Hand(s).value < s.formed);
    forall b: nat ensures Places(t, b) == One(b < t.formed) {
      assert Places(s, b) == One(b < s.formed);
    }
  }

  lemma FormKeepsLedger(c: Config, s: State)
    requires Ledger(s) && Enabled(c, s, Form)
    ensures Ledger(Apply(c, s, Form))
  {
    HandMoveKeepsLedger(s, Apply(c, s, Form));
  }

  lemma PushErrorKeepsLedger(c: Config, s: State)
    requires Ledger(s) && Enabled(c, s, PushError)
    ensures Ledger(Apply(c, s, PushError))
  {
    HandMoveKeepsLedger(s, Apply(c, s, PushError));
  }

  lemma TrimKeepsLedger(s: State, removed: bool)
    requires Ledger(s) && s.batch.Trimming? && s.mem.files != [] && !OnlyLeaseLeft(s.mem)
    ensures Ledger(AfterTrimOne(s, removed))
  {
    PruneOneConsistent(s.mem);
    CutKeepsLedger(s, AfterTrimOne(s, removed), Victim(s.mem));
  }

  lemma BatchStepKeepsLedger(c: Config, s: State, step: Step)
    requires BatchStep(step)
    requires Ledger(s) && Enabled(c, s, step)
    ensures Ledger(Apply(c, s, step))
  {
    match step
    case Form => FormKeepsLedger(c, s);
    case CheckBacklog => HandStaysKeepsLedger(s, Apply(c, s, step));
    case SendLive(outcome) => LiveSendKeepsLedger(s, outcome);
    case PushError => PushErrorKeepsLedger(c, s);
    case WriteTemp(t) => HandStaysKeepsLedger(s, Apply(c, s, step));
    case RenameTemp(size, events) => PushKeepsLedger(c, s, size, events);
    case TrimOne(removed) => TrimKeepsLedger(s, removed);
    case TrimDone => HandStaysKeepsLedger(s, Apply(c, s, step));
  }

  lemma HandStaysKeepsLedger(s: State, t: State)
    requires Ledger(s) && Hand(t) == Hand(s) && t == s.(batch := t.batch, clock := t.clock) && DrainAtHead(t)
    ensures Ledger(t)
  {
    HandMoveKeepsLedger(s, t);
  }

  lemma LiveSendKeepsLedger(s: State, outcome: Outcome)
    requires Ledger(s) && s.batch.Direct?
    ensures Ledger(AfterSendLive(s, outcome))
  {
    var t := AfterSendLive(s, outcome);
    assert t.mem == s.mem && t.formed == s.formed;
    match outcome
    case Acked => HandMoveKeepsLedger(s, t);
    case AckLost => HandMoveKeepsLedger(s, t);
    case NotDelivered => HandMoveKeepsLedger(s, t);
    case Permanent => HandMoveKeepsLedger(s, t);
  }

  lemma CommitKeepsLedger(s: State, t: State)
    requires Ledger(s) && s.mem.files != [] && t.up && t.mem == Commit(s.mem) && DrainAtHead(t)
    requires t.formed == s.formed && t.log == s.log && t.batch == s.batch
    requires
      var b := s.mem.files[0].path.stem.id;
      || (t.acked == s.acked + {b} && b in s.log && t.dropped == s.dropped)
      || (t.acked == s.acked && t.dropped.Keys == s.dropped.Keys + {b})
    ensures Ledger(t)
  {
    CommitConsistent(s.mem);
    assert t.mem.files == s.mem.files[..0] + s.mem.files[1..];
    CutKeepsLedger(s, t, 0);
  }

  lemma DrainStepKeepsLedger(c: Config, s: State, step: Step)
    requires DrainStep(step)
    requires Ledger(s) && Enabled(c, s, step)
    ensures Ledger(Apply(c, s, step))
  {
    var t := Apply(c, s, step);
    if step.Peek? {
      RenameKeepsLedger(s, t, MarkInflight(s.mem.files[0].path));
    } else if step.ReadFails? || (step.Unmark? && step.renamed) {
      RenameKeepsLedger(s, t, MarkPending(s.mem.files[0].path));
    } else if step.ReadCorrupt? || step.Unlink? {
      CommitKeepsLedger(s, t);
    } else {
      HandMoveKeepsLedger(s, t);
    }
  }

  lemma StepKeepsLedger(c: Config, s: State, step: Step)
    requires Ledger(s) && Enabled(c, s, step) && !step.Crash?
    ensures Ledger(Apply(c, s, step))
  {
    if DrainStep(step) {
      DrainStepKeepsLedger(c, s, step);
    } else {
      BatchStepKeepsLedger(c, s, step);
    }
  }

  lemma {:induction false} RunKeepsLedger(c: Config, s: State, steps: seq<Step>)
    requires Ledger(s) && Legal(c, s, steps) && forall i :: 0 <= i < |steps| ==> !steps[i].Crash?
    ensures Ledger(Exec(c, s, steps))
    decreases |steps|
  {
    if steps != [] {
      StepKeepsLedger(c, s, steps[0]);
      RunKeepsLedger(c, Apply(c, s, steps[0]), steps[1..]);
    }
  }

  /** No silent loss: after every step of every crash-free run, whatever the disk and network do, each
      batch formed is in exactly one place: acknowledged (and then it did arrive), in hand, queued, or
      dropped for a recorded reason. */
  lemma ExactlyOnePlace(c: Config, steps: seq<Step>, b: nat)
    requires Legal(c, Init(), steps) && forall i :: 0 <= i < |steps| ==> !steps[i].Crash?
    ensures var s := Exec(c, Init(), steps);
      && Places(s, b) == One(b < s.formed)
      && (b in s.acked ==> b in s.log)
  {
    assert Ledger(Init());
    RunKeepsLedger(c, Init(), steps);
  }

  /** Step `i` is the server's verdict, and the drain worker has done nothing since. */
  predicate LastVerdict(steps: seq<Step>, i: nat, acked: bool) {
    && i < |steps| && steps[i] == SendLease(if acked then Acked else Permanent)
    && forall j :: i < j < |steps| ==> !DrainStep(steps[j]) && !steps[j].Crash?
  }

  lemma OneStepToCommit(c: Config, s: State, step: Step)
    requires Enabled(c, s, step) && Apply(c, s, step).drain.Committing?
    ensures step == SendLease(Acked) || step == SendLease(Permanent) || (s.drain.Committing? && !DrainStep(step) && !step.Crash?)
    ensures step == SendLease(Acked) ==> Apply(c, s, step).drain.acked
    ensures step == SendLease(Permanent) ==> !Apply(c, s, step).drain.acked
    ensures !DrainStep(step) ==> Apply(c, s, step).drain == s.drain
  {
  }

  /** On every run, crashes included, the drain worker commits only on the last answer it got: an ack or
      a permanent rejection. */
  lemma {:induction false} VerdictBeforeCommit(c: Config, s: State, steps: seq<Step>) returns (i: nat)
    requires Legal(c, s, steps) && !s.drain.Committing? && Exec(c, s, steps).drain.Committing?
    ensures LastVerdict(steps, i, Exec(c, s, steps).drain.acked)
    decreases |steps|
  {
    var n := |steps| - 1;
    LegalSplit(c, s, steps, n);
    var before, step := Exec(c, s, steps[..n]), steps[n];
    OneStepToCommit(c, before, step);
    if before.drain.Committing? && !DrainStep(step) {
      i := VerdictBeforeCommit(c, s, steps[..n]);
      forall j | i < j < |steps| ensures !DrainStep(steps[j]) && !steps[j].Crash? {
        assert j < n ==> steps[..n][j] == steps[j];
      }
    } else {
      i := n;
    }
  }

  lemma {:induction false} LegalSplit(c: Config, s: State, steps: seq<Step>, n: nat)
    requires Legal(c, s, steps) && n + 1 == |steps|
    ensures Legal(c, s, steps[..n]) && Enabled(c, Exec(c, s, steps[..n]), steps[n])
    ensures Exec(c, s, steps) == Apply(c, Exec(c, s, steps[..n]), steps[n])
    decreases |steps|
  {
    if n > 0 {
      LegalSplit(c, Apply(c, s, steps[0]), steps[1..], n - 1);
      assert steps[1..][..n - 1] == steps[..n][1..];
    } else {
      assert steps[1..] == [];
    }
  }

  /** On every run, crashes included, a commit removes the leased head, which the server has acknowledged or rejected for good. */
  lemma CommitFollowsVerdict(c: Config, steps: seq<Step>, removed: bool)
    requires Legal(c, Init(), steps) && Enabled(c, Exec(c, Init(), steps), Unlink(removed))
    ensures var s := Exec(c, Init(), steps);
      var t, b := Apply(c, s, Unlink(removed)), s.mem.files[0].path.stem.id;
      && s.mem.lease == Some(s.mem.files[0]) && t.mem.files == s.mem.files[1..]
      && (if s.drain.acked then b in s.log && b in t.acked else b in t.dropped && t.dropped[b] == Rejected)
  {
    RunKeepsHead(c, Init(), steps);
  }
}
