/** Where strict FIFO ends: exactly which idle states it can be lost from, and runs that lead there when the
    file system conditions of `Tame` fail. */
module DeliveryLimits {
  import opened GoText
  import opened SpoolNames
  import opened SpoolQueue
  import opened Delivery
  import opened DeliveryProofs

  // ---------------------------------------------------------------- building runs

  lemma {:induction false} LegalAppend(c: Config, s: State, steps: seq<Step>, step: Step)
    requires Legal(c, s, steps) && Enabled(c, Exec(c, s, steps), step)
    ensures Legal(c, s, steps + [step])
    ensures Exec(c, s, steps + [step]) == Apply(c, Exec(c, s, steps), step)
    ensures TameRun(c, s, steps, false) && Tame(Exec(c, s, steps), step, false) ==> TameRun(c, s, steps + [step], false)
    decreases |steps|
  {
    if steps == [] {
      assert steps + [step] == [step];
      assert Exec(c, Apply(c, s, step), []) == Apply(c, s, step);
    } else {
      assert (steps + [step])[0] == steps[0] && (steps + [step])[1..] == steps[1..] + [step];
      LegalAppend(c, Apply(c, s, steps[0]), steps[1..], step);
    }
  }

  /** `steps` lead from `start` to `s`. */
  ghost predicate Leads(c: Config, start: State, steps: seq<Step>, s: State) {
    Legal(c, start, steps) && Exec(c, start, steps) == s
  }

  ghost predicate LeadsTamely(c: Config, start: State, steps: seq<Step>, s: State) {
    Leads(c, start, steps, s) && TameRun(c, start, steps, false)
  }

  /** One more step of a run. */
  lemma Play(c: Config, start: State, steps: seq<Step>, s: State, step: Step) returns (more: seq<Step>, t: State)
    requires Leads(c, start, steps, s) && Enabled(c, s, step)
    ensures t == Apply(c, s, step) && Leads(c, start, more, t)
    ensures LeadsTamely(c, start, steps, s) && Tame(s, step, false) ==> LeadsTamely(c, start, more, t)
  {
    LegalAppend(c, start, steps, step);
    more, t := steps + [step], Apply(c, s, step);
  }

  // ---------------------------------------------------------------- draining a queue

  /** The agent is up, holds no batch and no lease, and its queue describes segments on disk. */
  predicate Ready(s: State) {
    && s.up && s.batch.Gathering? && s.drain.Waiting? && s.mem.lease.None?
    && DistinctStems(s.mem.files)
    && forall i :: 0 <= i < |s.mem.files| ==> Describes(s.mem.files[i], s.disk)
  }

  function IdsOf(files: seq<SpoolFile>): seq<nat> {
    seq(|files|, i requires 0 <= i < |files| => files[i].path.stem.id)
  }

  /** The head of the queue is leased and sent; the server takes it. */
  lemma SendHead(c: Config, start: State, steps: seq<Step>, s: State) returns (more: seq<Step>, t: State)
    requires Leads(c, start, steps, s) && Ready(s) && s.mem.files != []
    ensures Leads(c, start, more, t) && (LeadsTamely(c, start, steps, s) ==> LeadsTamely(c, start, more, t))
    ensures var head := s.mem.files[0]; var p := MarkInflight(head.path);
      t == s.(drain := Committing(true), log := s.log + [head.path.stem.id],
              mem := RenameHead(s.mem, p).(lease := Some(head.(path := p))), disk := Renamed(s.disk, p))
  {
    more, t := Play(c, start, steps, s, Peek);
    more, t := Play(c, start, more, t, ReadSegment);
    more, t := Play(c, start, more, t, SendLease(Acked));
  }

  /** The head of the queue is delivered and removed. */
  lemma DrainHead(c: Config, start: State, steps: seq<Step>, s: State) returns (more: seq<Step>, t: State)
    requires LeadsTamely(c, start, steps, s) && Ready(s) && s.mem.files != []
    ensures LeadsTamely(c, start, more, t) && Ready(t)
    ensures t.mem.files == s.mem.files[1..] && t.log == s.log + [s.mem.files[0].path.stem.id] && t.formed == s.formed
  {
    more, t := SendHead(c, start, steps, s);
    var st := s.mem.files[0].path.stem;
    more, t := Play(c, start, more, t, Unlink(true));
    RestDescribed(s.mem.files, s.disk, MarkInflight(s.mem.files[0].path));
  }

  lemma RestDescribed(files: seq<SpoolFile>, disk: SpoolDir, p: Path)
    requires files != [] && DistinctStems(files) && p.stem == files[0].path.stem && p.stem in disk
    requires forall i :: 0 <= i < |files| ==> Describes(files[i], disk)
    ensures forall i :: 0 <= i < |files[1..]| ==> Describes(files[1..][i], Renamed(disk, p) - {p.stem})
  {
    forall i | 0 <= i < |files[1..]| ensures Describes(files[1..][i], Renamed(disk, p) - {p.stem}) {
      assert files[1..][i] == files[i + 1] && files[i + 1].path.stem != p.stem;
    }
  }

  lemma {:induction false} DrainSome(c: Config, start: State, steps: seq<Step>, s: State, k: nat)
    returns (more: seq<Step>, t: State)
    requires LeadsTamely(c, start, steps, s) && Ready(s) && k <= |s.mem.files|
    ensures LeadsTamely(c, start, more, t) && Ready(t) && t.formed == s.formed
    ensures t.mem.files == s.mem.files[k..] && t.log == s.log + IdsOf(s.mem.files[..k])
    decreases k
  {
    if k == 0 {
      more, t := steps, s;
      assert s.mem.files[..0] == [] && IdsOf([]) == [];
    } else {
      more, t := DrainHead(c, start, steps, s);
      var files := s.mem.files;
      more, t := DrainSome(c, start, more, t, k - 1);
      assert files[1..][..k - 1] == files[1..k] && files[..k] == [files[0]] + files[1..k];
      assert IdsOf(files[..k]) == [files[0].path.stem.id] + IdsOf(files[1..k]);
      assert files[1..][k - 1..] == files[k..];
    }
  }

  // ---------------------------------------------------------------- from an idle state

  /** Nothing in hand, nothing queued, arrivals in order so far, segments on disk in order of their batches. */
  predicate Idle(s: State) {
    && s.up && s.batch.Gathering? && s.drain.Waiting? && s.mem == EMPTY_QUEUE
    && DiskOrdered(s) && FirstArrivalsInOrder(s.log) && forall i :: 0 <= i < |s.log| ==> s.log[i] < s.formed
  }

  /** Every segment left on disk has reached the server. */
  predicate AllArrived(s: State) {
    forall st :: st in s.disk ==> st.id in s.log
  }

  /** Whatever happens next on a well-behaved file system, first arrivals stay in order. */
  ghost predicate StaysInOrder(c: Config, s: State) {
    forall steps :: Legal(c, s, steps) && TameRun(c, s, steps, false) ==> FirstArrivalsInOrder(Exec(c, s, steps).log)
  }

  /** A fresh batch is delivered directly, and the agent crashes. */
  lemma DeliveredThenCrashed(c: Config, start: State, steps: seq<Step>, s: State) returns (more: seq<Step>, t: State)
    requires LeadsTamely(c, start, steps, s) && Idle(s)
    ensures LeadsTamely(c, start, more, t) && !t.up && t.disk == s.disk && t.log == s.log + [s.formed]
    ensures t.batch.Gathering? && t.drain.Waiting?
  {
    more, t := Play(c, start, steps, s, Form);
    more, t := Play(c, start, more, t, CheckBacklog);
    more, t := Play(c, start, more, t, SendLive(Acked));
    more, t := Play(c, start, more, t, Crash);
  }

  /** The agent reopens and finds the segments on disk. */
  lemma Restarted(c: Config, start: State, steps: seq<Step>, s: State, files: seq<SpoolFile>)
    returns (more: seq<Step>, t: State)
    requires LeadsTamely(c, start, steps, s) && Idle(s) && Rebuilt(s.disk, files, c.uuid) && SumBytes(files) <= c.limit
    ensures LeadsTamely(c, start, more, t) && Ready(t) && t.mem.files == files && t.log == s.log + [s.formed]
  {
    more, t := DeliveredThenCrashed(c, start, steps, s);
    assert t.disk - {} == s.disk;
    more, t := Play(c, start, more, t, Open(files, {}));
    more, t := Play(c, start, more, t, TrimDone);
  }

  lemma LateArrival(log: seq<nat>, i: nat, b: nat)
    requires i < |log| && log[i] > b && b !in log
    ensures !FirstArrivalsInOrder(log + [b])
  {
    var all := log + [b];
    assert all[..|log|] == log && all[|log|] == b && all[i] == log[i];
  }

  lemma {:induction false} PositionOf(files: seq<SpoolFile>, disk: SpoolDir, st: Stem, uuid: nat -> Str) returns (k: nat)
    requires Rebuilt(disk, files, uuid) && st in disk
    requires forall a, b :: a in disk && b in disk && a.id == b.id ==> a == b
    ensures k < |files| && files[k].path.stem == st && st.id !in IdsOf(files[..k])
  {
    assert Listed(st, files);
    k :| 0 <= k < |files| && files[k].path.stem == st;
    forall i | 0 <= i < k ensures files[i].path.stem.id != st.id {
      assert Describes(files[i], disk);
    }
  }

  /** A segment that has not arrived and is not queued: after a live delivery and a restart it arrives late. */
  lemma LostSegmentOvertaken(c: Config, start: State, steps: seq<Step>, s: State, files: seq<SpoolFile>, st: Stem)
    returns (more: seq<Step>, t: State)
    requires LeadsTamely(c, start, steps, s) && Idle(s) && Rebuilt(s.disk, files, c.uuid) && SumBytes(files) <= c.limit
    requires st in s.disk && st.id !in s.log
    ensures LeadsTamely(c, start, more, t) && !FirstArrivalsInOrder(t.log)
  {
    var k := PositionOf(files, s.disk, st, c.uuid);
    var r;
    more, r := Restarted(c, start, steps, s, files);
    more, r := DrainSome(c, start, more, r, k);
    assert r.mem.files[0] == files[k];
    var log := s.log + [s.formed] + IdsOf(files[..k]);
    assert log[|s.log|] == s.formed > st.id;
    LateArrival(log, |s.log|, st.id);
    more, t := SendHead(c, start, more, r);
  }

  /** From an idle state whose segments fit the limit, first arrivals stay in order whatever happens next if
      and only if every segment left on disk has arrived. */
  lemma FifoIffAllArrived(c: Config, s: State, files: seq<SpoolFile>)
    requires Idle(s) && Rebuilt(s.disk, files, c.uuid) && SumBytes(files) <= c.limit
    ensures StaysInOrder(c, s) <==> AllArrived(s)
  {
    if AllArrived(s) {
      assert Inv(s, false);
      forall steps | Legal(c, s, steps) && TameRun(c, s, steps, false) ensures FirstArrivalsInOrder(Exec(c, s, steps).log) {
        RunKeeps(c, s, steps, false);
      }
    } else {
      var st :| st in s.disk && st.id !in s.log;
      var steps, t := LostSegmentOvertaken(c, s, [], s, files, st);
      assert !StaysInOrder(c, s);
    }
  }

  // ---------------------------------------------------------------- how such states come about

  function Seg(b: nat): SpoolFile {
    SpoolFile(Path(Stem(b + 1, b), [Json]), 1, 1)
  }

  /** The server is down and batch 0 of one byte is spooled. */
  lemma FirstSpooled(c: Config) returns (steps: seq<Step>, s: State)
    requires c.limit == 1
    ensures LeadsTamely(c, Init(), steps, s)
    ensures s == State(true, 1, Gathering, Waiting, Mem([Seg(0)], 1, 1, None),
                       map[Stem(1, 0) := DiskFile([Json], 1, 1)], 1, [], {}, map[])
  {
    steps, s := [], Init();
    steps, s := Play(c, Init(), steps, s, Form);
    steps, s := Play(c, Init(), steps, s, CheckBacklog);
    steps, s := Play(c, Init(), steps, s, SendLive(NotDelivered));
    steps, s := Play(c, Init(), steps, s, WriteTemp(1));
    steps, s := Play(c, Init(), steps, s, RenameTemp(1, 1));
    assert s.mem.files == [Seg(0)];
    steps, s := Play(c, Init(), steps, s, TrimDone);
  }

  /** Batch 1 is spooled under the limit of one byte; batch 0 is pruned but its file cannot be removed. */
  lemma PrunedFileStays(c: Config) returns (steps: seq<Step>, s: State)
    requires c.limit == 1
    ensures Leads(c, Init(), steps, s)
    ensures s == State(true, 2, Gathering, Waiting, Mem([Seg(1)], 1, 1, None),
                       map[Stem(1, 0) := DiskFile([Json], 1, 1), Stem(2, 1) := DiskFile([Json], 1, 1)],
                       2, [], {}, map[0 := Pruned])
  {
    steps, s := FirstSpooled(c);
    steps, s := Play(c, Init(), steps, s, Form);
    steps, s := Play(c, Init(), steps, s, CheckBacklog);
    steps, s := Play(c, Init(), steps, s, WriteTemp(2));
    steps, s := Play(c, Init(), steps, s, RenameTemp(1, 1));
    assert s.mem.files == [Seg(0), Seg(1)];
    steps, s := Play(c, Init(), steps, s, TrimOne(false));
    assert s.mem.files == [Seg(1)];
    steps, s := Play(c, Init(), steps, s, TrimDone);
  }

  /** A pruned segment whose removal fails: once the other one is delivered, order can be lost. */
  lemma FailedPruneBreaksFifo(c: Config) returns (steps: seq<Step>, s: State)
    requires c.limit == 1
    ensures Leads(c, Init(), steps, s) && Idle(s) && s.log == [1] && !StaysInOrder(c, s)
  {
    steps, s := PrunedFileStays(c);
    steps, s := SendHead(c, Init(), steps, s);
    assert s.mem.files == [Seg(1).(path := MarkInflight(Seg(1).path))];
    steps, s := Play(c, Init(), steps, s, Unlink(true));
    assert s.disk == map[Stem(1, 0) := DiskFile([Json], 1, 1)];
    LeftBehind(c, s, Seg(0));
  }

  /** A rejected segment whose removal fails. */
  lemma FailedDropBreaksFifo(c: Config) returns (steps: seq<Step>, s: State)
    requires c.limit == 1
    ensures Leads(c, Init(), steps, s) && Idle(s) && s.dropped == map[0 := Rejected] && !StaysInOrder(c, s)
  {
    steps, s := FirstSpooled(c);
    var inflight := Seg(0).(path := MarkInflight(Seg(0).path));
    steps, s := Play(c, Init(), steps, s, Peek);
    assert s.mem.files == [inflight];
    steps, s := Play(c, Init(), steps, s, ReadSegment);
    steps, s := Play(c, Init(), steps, s, SendLease(Permanent));
    steps, s := Play(c, Init(), steps, s, Unlink(false));
    assert s.disk == map[Stem(1, 0) := DiskFile(inflight.path.ext, 1, 1)];
    LeftBehind(c, s, inflight);
  }

  /** A delivered segment whose removal fails comes back after a restart, behind a batch delivered since. */
  lemma DeliveredTwice(c: Config) returns (steps: seq<Step>, s: State)
    requires c.limit == 1
    ensures LeadsTamely(c, Init(), steps, s) && s.log == [0, 1, 0]
  {
    steps, s := FirstSpooled(c);
    steps, s := SendHead(c, Init(), steps, s);
    var inflight := Seg(0).(path := MarkInflight(Seg(0).path));
    assert s.mem.files == [inflight];
    steps, s := Play(c, Init(), steps, s, Unlink(false));
    assert s.disk == map[Stem(1, 0) := DiskFile(inflight.path.ext, 1, 1)];
    var files := [inflight];
    assert Rebuilt(s.disk, files, c.uuid) by {
      assert files[0].path.stem == Stem(1, 0);
    }
    steps, s := Restarted(c, Init(), steps, s, files);
    steps, s := SendHead(c, Init(), steps, s);
  }

  /** A segment that cannot be read when the spool is reopened. */
  lemma SkippedSegmentBreaksFifo(c: Config) returns (steps: seq<Step>, s: State)
    requires c.limit == 1
    ensures Leads(c, Init(), steps, s) && Idle(s) && s.dropped == map[] && !StaysInOrder(c, s)
  {
    steps, s := FirstSpooled(c);
    steps, s := Play(c, Init(), steps, s, Crash);
    assert s.disk - {Stem(1, 0)} == map[];
    steps, s := Play(c, Init(), steps, s, Open([], {Stem(1, 0)}));
    steps, s := Play(c, Init(), steps, s, TrimDone);
    LeftBehind(c, s, Seg(0));
  }

  /** One segment of one byte is left on disk undelivered. */
  lemma LeftBehind(c: Config, s: State, f: SpoolFile)
    requires Idle(s) && c.limit == 1 && f.sizeBytes == 1 && f.path.stem.id !in s.log
    requires s.disk == map[f.path.stem := DiskFile(f.path.ext, f.sizeBytes, f.eventNum)]
    ensures !StaysInOrder(c, s)
  {
    var files := [f];
    assert Rebuilt(s.disk, files, c.uuid) by {
      assert files[0].path.stem == f.path.stem;
    }
    assert SumBytes(files) == 1;
    FifoIffAllArrived(c, s, files);
    assert f.path.stem in s.disk;
  }
}
