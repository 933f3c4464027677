/** The disk spool as the object the agent drives. Outcomes of file operations are parameters;
    every method is specified by the value functions of `SpoolQueue`. */
module DiskSpool {
  import opened GoText
  import opened SpoolNames
  import opened SpoolQueue

  /** Leases are compared by identity; `no` is that identity. */
  datatype BatchLease = BatchLease(no: nat, file: SpoolFile)

  datatype Status = Done | ErrClosed | ErrEmpty | ErrInFlight | ErrInvalidLease | ErrIo | ErrCorrupt

  // ---------------------------------------------------------------- sorting by name

  lemma {:induction false} LexNotLessTransitive(a: Str, b: Str, c: Str)
    requires !LexLess(b, a) && !LexLess(c, b)
    ensures !LexLess(c, a)
  {
    if a != [] && b != [] && c != [] && a[0] == b[0] == c[0] {
      LexNotLessTransitive(a[1..], b[1..], c[1..]);
    }
  }

  /** Inserts `f` behind every entry whose name is not greater. */
  function InsertByName(files: seq<SpoolFile>, f: SpoolFile, uuid: nat -> Str): (r: seq<SpoolFile>)
    ensures |r| == |files| + 1
  {
    if files == [] || LexLess(BaseName(f.path, uuid), BaseName(files[0].path, uuid)) then [f] + files
    else [files[0]] + InsertByName(files[1..], f, uuid)
  }

  lemma {:induction false} InsertMembers(files: seq<SpoolFile>, f: SpoolFile, uuid: nat -> Str, x: SpoolFile)
    ensures x in InsertByName(files, f, uuid) <==> x in files || x == f
  {
    if !(files == [] || LexLess(BaseName(f.path, uuid), BaseName(files[0].path, uuid))) {
      InsertMembers(files[1..], f, uuid, x);
      assert files == [files[0]] + files[1..];
    }
  }

  lemma {:induction false} InsertSorted(files: seq<SpoolFile>, f: SpoolFile, uuid: nat -> Str)
    requires SortedByName(files, uuid)
    ensures SortedByName(InsertByName(files, f, uuid), uuid)
  {
    var r := InsertByName(files, f, uuid);
    if files == [] {
    } else if LexLess(BaseName(f.path, uuid), BaseName(files[0].path, uuid)) {
      LexLessAsymmetric(BaseName(f.path, uuid), BaseName(files[0].path, uuid));
      forall j | 1 <= j < |r| ensures !LexLess(BaseName(r[j].path, uuid), BaseName(f.path, uuid)) {
        assert r[j] == files[j - 1];
        if j > 1 {
          LexNotLessTransitive(BaseName(f.path, uuid), BaseName(files[0].path, uuid), BaseName(r[j].path, uuid));
        }
      }
    } else {
      var rest := InsertByName(files[1..], f, uuid);
      InsertSorted(files[1..], f, uuid);
      forall j | 0 <= j < |rest| ensures !LexLess(BaseName(rest[j].path, uuid), BaseName(files[0].path, uuid)) {
        InsertMembers(files[1..], f, uuid, rest[j]);
      }
    }
  }

  lemma {:induction false} InsertDistinct(files: seq<SpoolFile>, f: SpoolFile, uuid: nat -> Str)
    requires DistinctStems(files) && forall i :: 0 <= i < |files| ==> files[i].path.stem != f.path.stem
    ensures DistinctStems(InsertByName(files, f, uuid))
  {
    if !(files == [] || LexLess(BaseName(f.path, uuid), BaseName(files[0].path, uuid))) {
      var rest := InsertByName(files[1..], f, uuid);
      InsertDistinct(files[1..], f, uuid);
      forall j | 0 <= j < |rest| ensures rest[j].path.stem != files[0].path.stem {
        InsertMembers(files[1..], f, uuid, rest[j]);
      }
    }
  }

  lemma InsertRebuilt(disk: SpoolDir, files: seq<SpoolFile>, f: SpoolFile, uuid: nat -> Str)
    requires Rebuilt(disk, files, uuid) && f.path.stem !in disk
    ensures Rebuilt(disk[f.path.stem := DiskFile(f.path.ext, f.sizeBytes, f.eventNum)],
                    InsertByName(files, f, uuid), uuid)
  {
    var r := InsertByName(files, f, uuid);
    var disk' := disk[f.path.stem := DiskFile(f.path.ext, f.sizeBytes, f.eventNum)];
    InsertSorted(files, f, uuid);
    InsertDistinct(files, f, uuid);
    forall i | 0 <= i < |r| ensures Describes(r[i], disk') {
      InsertMembers(files, f, uuid, r[i]);
    }
    forall st | st in disk' ensures Listed(st, r) {
      var x := if st == f.path.stem then f else var i :| 0 <= i < |files| && files[i].path.stem == st; files[i];
      InsertMembers(files, f, uuid, x);
      var k :| 0 <= k < |r| && r[k] == x;
      assert r[k].path.stem == st;
    }
  }

  // ---------------------------------------------------------------- the spool

  /** What reopening leaves on disk: in-flight names are restored and corrupt segments removed, except where
      the file operation fails. */
  ghost function Reopened(disk: SpoolDir, corrupt: set<Stem>, stuck: set<Stem>): SpoolDir {
    map st | st in disk && (st !in corrupt || st in stuck) :: RestoreExt(st, disk[st], stuck)
  }

  /** The segments that reopening can read. */
  ghost function Legible(disk: SpoolDir, corrupt: set<Stem>, unreadable: set<Stem>): SpoolDir {
    disk - (corrupt + unreadable)
  }

  function RestoreExt(st: Stem, d: DiskFile, stuck: set<Stem>): DiskFile {
    if d.ext != [] && d.ext[|d.ext| - 1] == Inflight && st !in stuck
    then d.(ext := MarkPending(Path(st, d.ext)).ext)
    else d
  }

  /** Segments that leave the queue also leave the disk, unless their removal fails. */
  ghost predicate DiskAfterPruning(before: SpoolDir, after: SpoolDir, listed: seq<SpoolFile>, now: seq<SpoolFile>, stuck: set<Stem>) {
    forall st :: st in before ==>
      && (st in after <==> !Listed(st, listed) || Listed(st, now) || st in stuck)
      && (st in after ==> after[st] == before[st])
  }

  ghost predicate PruningSoFar(before: SpoolDir, after: SpoolDir, listed: seq<SpoolFile>, now: seq<SpoolFile>, stuck: set<Stem>) {
    && after.Keys <= before.Keys
    && DiskAfterPruning(before, after, listed, now, stuck)
    && (forall i :: 0 <= i < |now| ==> now[i].path.stem in after)
    && (forall st :: Listed(st, now) ==> Listed(st, listed))
  }

  lemma PruningStep(before: SpoolDir, after: SpoolDir, listed: seq<SpoolFile>, m: Mem, stuck: set<Stem>)
    requires PruningSoFar(before, after, listed, m.files, stuck)
    requires Consistent(m) && m.files != [] && !OnlyLeaseLeft(m)
    ensures var st := m.files[Victim(m)].path.stem;
      PruningSoFar(before, if st in stuck then after else after - {st}, listed, PruneOne(m).files, stuck)
  {
    var i := Victim(m);
    var st := m.files[i].path.stem;
    var now := PruneOne(m).files;
    assert Listed(st, m.files);
    forall x ensures Listed(x, now) <==> Listed(x, m.files) && x != st {
      ListedCut(m.files, i, x);
    }
    CutStays(m.files, i, after);
  }

  lemma CutStays(files: seq<SpoolFile>, i: nat, disk: SpoolDir)
    requires i < |files| && DistinctStems(files) && forall k :: 0 <= k < |files| ==> files[k].path.stem in disk
    ensures var cut := files[..i] + files[i + 1..];
      forall j :: 0 <= j < |cut| ==> cut[j].path.stem in disk && cut[j].path.stem != files[i].path.stem
  {
    var cut := files[..i] + files[i + 1..];
    forall j | 0 <= j < |cut| ensures cut[j].path.stem in disk && cut[j].path.stem != files[i].path.stem {
      assert cut[j] == files[if j < i then j else j + 1];
    }
  }

  /** Lists the directory: in-flight names are restored, segments that cannot be read are passed over, corrupt
      ones deleted, and what is left is sorted by name. Operations on `stuck` segments fail. */
  method ScanExisting(dir: SpoolDir, uuid: nat -> Str, corrupt: set<Stem>, unreadable: set<Stem>, stuck: set<Stem>)
    returns (found: seq<SpoolFile>, disk: SpoolDir)
    ensures disk == Reopened(dir, corrupt - unreadable, stuck) && Rebuilt(Legible(disk, corrupt, unreadable), found, uuid)
  {
    found, disk := [], map[];
    ghost var done: SpoolDir := map[];
    var pending := dir.Keys;
    assert Legible(map[], corrupt, unreadable) == map[] && Reopened(map[], corrupt - unreadable, stuck) == map[];
    while pending != {}
      invariant pending <= dir.Keys && done == dir - pending
      invariant Scanned(done, found, disk, uuid, corrupt, unreadable, stuck)
      decreases |pending|
    {
      var st :| st in pending;
      found, disk := ScanOne(done, found, disk, st, dir[st], uuid, corrupt, unreadable, stuck);
      done, pending := done[st := dir[st]], pending - {st};
    }
    assert done == dir;
  }

  /** Disk and listing once the segments `done` have been looked at. */
  ghost predicate Scanned(done: SpoolDir, found: seq<SpoolFile>, disk: SpoolDir, uuid: nat -> Str,
                          corrupt: set<Stem>, unreadable: set<Stem>, stuck: set<Stem>) {
    disk == Reopened(done, corrupt - unreadable, stuck) && Rebuilt(Legible(disk, corrupt, unreadable), found, uuid)
  }

  /** One directory entry. */
  method ScanOne(ghost done: SpoolDir, found: seq<SpoolFile>, disk: SpoolDir, st: Stem, file: DiskFile, uuid: nat -> Str,
                 corrupt: set<Stem>, unreadable: set<Stem>, stuck: set<Stem>)
    returns (found': seq<SpoolFile>, disk': SpoolDir)
    requires st !in done && Scanned(done, found, disk, uuid, corrupt, unreadable, stuck)
    ensures Scanned(done[st := file], found', disk', uuid, corrupt, unreadable, stuck)
  {
    found', disk' := found, disk;
    var d := RestoreExt(st, file, stuck);
    ReopenedNext(done, st, file, corrupt - unreadable, stuck);
    LegibleNext(disk, st, d, corrupt, unreadable);
    if st in unreadable {
      disk' := disk[st := d];
    } else if st in corrupt {
      if st in stuck { disk' := disk[st := d]; }
    } else {
      var f := SpoolFile(Path(st, d.ext), d.sizeBytes, d.eventNum);
      InsertRebuilt(Legible(disk, corrupt, unreadable), found, f, uuid);
      found' := InsertByName(found, f, uuid);
      disk' := disk[st := d];
    }
  }

  lemma ReopenedNext(done: SpoolDir, st: Stem, d: DiskFile, corrupt: set<Stem>, stuck: set<Stem>)
    requires st !in done
    ensures st !in Reopened(done, corrupt, stuck)
    ensures Reopened(done[st := d], corrupt, stuck) ==
      if st in corrupt && st !in stuck then Reopened(done, corrupt, stuck)
      else Reopened(done, corrupt, stuck)[st := RestoreExt(st, d, stuck)]
  {
  }

  lemma LegibleNext(disk: SpoolDir, st: Stem, d: DiskFile, corrupt: set<Stem>, unreadable: set<Stem>)
    requires st !in disk
    ensures st !in Legible(disk, corrupt, unreadable)
    ensures Legible(disk[st := d], corrupt, unreadable) ==
      if st in corrupt || st in unreadable then Legible(disk, corrupt, unreadable) else Legible(disk, corrupt, unreadable)[st := d]
  {
  }

  /** Removing the head's file leaves the other segments on disk. */
  lemma CommitBacked(files: seq<SpoolFile>, disk: SpoolDir)
    requires files != [] && DistinctStems(files) && forall i :: 0 <= i < |files| ==> files[i].path.stem in disk
    ensures forall i :: 0 <= i < |files| - 1 ==> files[1..][i].path.stem in disk && files[1..][i].path.stem in disk - {files[0].path.stem}
  {
  }

  /** What the file operations of one `Peek` do: the rename, the read, the decoding, and the clean-up after a
      failed one of the last two, whose own failure the source ignores. */
  datatype PeekIo = PeekIo(renamable: bool, readable: bool, decodable: bool, removed: bool, renamedBack: bool)

  function PeekStatus(closed: bool, m: Mem, io: PeekIo): Status {
    if closed then ErrClosed else if m.lease.Some? then ErrInFlight else if m.files == [] then ErrEmpty
    else if !io.renamable || !io.readable then ErrIo else if !io.decodable then ErrCorrupt else Done
  }

  /** Queue and disk after a `Peek` with status `r`. */
  predicate PeekEffect(r: Status, io: PeekIo, m: Mem, disk: SpoolDir, m': Mem, disk': SpoolDir) {
    if (r == Done || r == ErrCorrupt || (r == ErrIo && io.renamable)) && m.files != [] && m.files[0].path.stem in disk then
      var head := m.files[0];
      var inflight := MarkInflight(head.path);
      if r == Done then m' == RenameHead(m, inflight).(lease := Some(head.(path := inflight))) && disk' == Renamed(disk, inflight)
      else if r == ErrCorrupt then m' == Commit(m) && disk' == if io.removed then disk - {head.path.stem} else Renamed(disk, inflight)
      else m' == RenameHead(m, MarkPending(inflight)) && disk' == Renamed(disk, if io.renamedBack then MarkPending(inflight) else inflight)
    else m' == m && disk' == disk
  }

  /** Only the last of two renames of the head counts, and none if the head is then removed. */
  lemma RenamedTwice(m: Mem, disk: SpoolDir, p: Path, q: Path)
    requires m.files != [] && p.stem == q.stem == m.files[0].path.stem && p.stem in disk
    ensures RenameHead(RenameHead(m, p), q) == RenameHead(m, q) && Commit(RenameHead(m, p)) == Commit(m)
    ensures Renamed(Renamed(disk, p), q) == Renamed(disk, q) && Renamed(disk, p) - {p.stem} == disk - {p.stem}
  {
  }

  class Spool {
    const maxSizeBytes: nat
    const uuid: nat -> Str
    var closed: bool
    var currentSize: int
    var totalEvents: int
    var files: seq<SpoolFile>
    var activeLease: Option<BatchLease>
    var leases: nat
    var disk: SpoolDir

    function Queue(): Mem
      reads this
    {
      Mem(files, currentSize, totalEvents, if activeLease.Some? then Some(activeLease.value.file) else None)
    }

    /** Holds between public operations: exact totals, the lease at the head, and the size limit. */
    ghost predicate Valid()
      reads this
    {
      && Consistent(Queue())
      && currentSize <= maxSizeBytes
      && (forall i :: 0 <= i < |files| ==> files[i].path.stem in disk)
      && (activeLease.Some? ==> activeLease.value.no < leases)
    }

    /** `New` and `scanExisting`. */
    constructor (dir: SpoolDir, maxSizeMB: int, uuid: nat -> Str, corrupt: set<Stem>, unreadable: set<Stem>, stuck: set<Stem>)
      ensures Valid() && !closed && activeLease.None?
      ensures maxSizeBytes == (if maxSizeMB <= 0 then 1024 * 1024 * 1024 else maxSizeMB * 1024 * 1024)
      ensures exists found ::
        && Rebuilt(Legible(Reopened(dir, corrupt - unreadable, stuck), corrupt, unreadable), found, uuid)
        && Queue() == Enforce(Mem(found, SumBytes(found), SumEvents(found), None), maxSizeBytes)
        && DiskAfterPruning(Reopened(dir, corrupt - unreadable, stuck), disk, found, files, stuck)
    {
      maxSizeBytes := if maxSizeMB <= 0 then 1024 * 1024 * 1024 else maxSizeMB * 1024 * 1024;
      this.uuid := uuid;
      closed, activeLease, leases := false, None, 0;
      var found, onDisk := ScanExisting(dir, uuid, corrupt, unreadable, stuck);
      files, disk := found, onDisk;
      currentSize, totalEvents := SumBytes(found), SumEvents(found);
      new;
      assert forall i :: 0 <= i < |files| ==> Describes(files[i], Legible(disk, corrupt, unreadable));
      EnforceLimit(stuck);
      assert Rebuilt(Legible(Reopened(dir, corrupt - unreadable, stuck), corrupt, unreadable), found, uuid);
    }

    /** One round of the pruning loop. */
    method PruneOldest(stuck: set<Stem>)
      requires Consistent(Queue()) && files != [] && !OnlyLeaseLeft(Queue())
      modifies this`files, this`currentSize, this`totalEvents, this`disk
      ensures Consistent(Queue()) && Queue() == PruneOne(old(Queue()))
      ensures var st := old(files)[Victim(old(Queue()))].path.stem;
        disk == if st in stuck then old(disk) else old(disk) - {st}
    {
      PruneOneConsistent(Queue());
      var oldest := files[0];
      if activeLease.Some? && activeLease.value.file.path == oldest.path {
        oldest := files[1];
        files := files[..1] + files[2..];
      } else {
        files := files[1..];
        assert files == old(files)[..0] + old(files)[1..];
      }
      currentSize, totalEvents := currentSize - oldest.sizeBytes, totalEvents - oldest.eventNum;
      if oldest.path.stem !in stuck {
        disk := disk - {oldest.path.stem};
      }
    }

    /** `enforceLimitLocked`. */
    method EnforceLimit(stuck: set<Stem>)
      requires Consistent(Queue())
      requires activeLease.Some? ==> activeLease.value.file.sizeBytes <= maxSizeBytes && activeLease.value.no < leases
      requires forall i :: 0 <= i < |files| ==> files[i].path.stem in disk
      modifies this`files, this`currentSize, this`totalEvents, this`disk
      ensures Valid() && Queue() == Enforce(old(Queue()), maxSizeBytes)
      ensures disk.Keys <= old(disk).Keys && DiskAfterPruning(old(disk), disk, old(files), files, stuck)
    {
      ghost var start := Queue();
      ghost var k := EnforceBounds(start, maxSizeBytes);
      while currentSize > maxSizeBytes && |files| > 0
        invariant Consistent(Queue()) && Queue().lease == start.lease
        invariant Enforce(Queue(), maxSizeBytes) == Enforce(start, maxSizeBytes)
        invariant PruningSoFar(old(disk), disk, start.files, files, stuck)
        decreases |files|
      {
        // The source breaks here when only the leased segment is left; that never happens.
        BreakUnreachable(Queue(), maxSizeBytes);
        PruningStep(old(disk), disk, start.files, Queue(), stuck);
        PruneOldest(stuck);
      }
    }

    method Push(stem: Stem, sizeBytes: nat, eventNum: nat, written: bool, stuck: set<Stem>) returns (r: Status)
      requires Valid() && stem !in disk
      modifies this`files, this`currentSize, this`totalEvents, this`disk
      ensures Valid()
      ensures r == (if eventNum == 0 then Done else if closed then ErrClosed else if written then Done else ErrIo)
      ensures r == Done && eventNum > 0 ==>
        && Queue() == Enforce(Append(old(Queue()), SpoolFile(Path(stem, [Json]), sizeBytes, eventNum)), maxSizeBytes)
        && DiskAfterPruning(old(disk)[stem := DiskFile([Json], sizeBytes, eventNum)], disk,
                            old(files) + [SpoolFile(Path(stem, [Json]), sizeBytes, eventNum)], files, stuck)
      ensures r != Done || eventNum == 0 ==> Queue() == old(Queue()) && disk == old(disk)
    {
      if eventNum == 0 { return Done; }
      if closed { return ErrClosed; }
      if !written { return ErrIo; }
      var f := SpoolFile(Path(stem, [Json]), sizeBytes, eventNum);
      AppendConsistent(Queue(), f);
      LeaseFits(Queue(), maxSizeBytes);
      disk := disk[stem := DiskFile([Json], sizeBytes, eventNum)];
      files := files + [f];
      currentSize, totalEvents := currentSize + sizeBytes, totalEvents + eventNum;
      EnforceLimit(stuck);
      r := Done;
    }

    method Peek(io: PeekIo) returns (r: Status, lease: Option<BatchLease>)
      requires Valid()
      modifies this
      ensures Valid() && closed == old(closed)
      ensures r == PeekStatus(old(closed), old(Queue()), io)
      ensures lease.Some? <==> r == Done
      ensures r == Done ==> activeLease == lease == Some(BatchLease(old(leases), files[0]))
      ensures PeekEffect(r, io, old(Queue()), old(disk), Queue(), disk)
    {
      if closed { return ErrClosed, None; }
      if activeLease.Some? { return ErrInFlight, None; }
      if |files| == 0 { return ErrEmpty, None; }
      if !io.renamable { return ErrIo, None; }
      ghost var start := Queue();
      var oldest := files[0];
      var inflight := MarkInflight(oldest.path);
      RenameHeadConsistent(start, inflight, None);
      RenamedTwice(start, disk, inflight, MarkPending(inflight));
      disk := Renamed(disk, inflight);
      files := files[0 := oldest.(path := inflight)];
      assert files == [oldest.(path := inflight)] + old(files)[1..];
      r, lease := ReadHead(io);
    }

    /** The rest of `Peek`, once the head carries its in-flight name. */
    method ReadHead(io: PeekIo) returns (r: Status, lease: Option<BatchLease>)
      requires Valid() && activeLease.None? && files != []
      modifies this
      ensures Valid() && closed == old(closed)
      ensures r == (if !io.readable then ErrIo else if !io.decodable then ErrCorrupt else Done)
      ensures lease.Some? <==> r == Done
      ensures r == Done ==>
        && lease == Some(BatchLease(old(leases), old(files)[0])) && activeLease == lease
        && Queue() == old(Queue()).(lease := Some(old(files)[0])) && disk == old(disk)
      ensures r == ErrCorrupt ==>
        && Queue() == Commit(old(Queue()))
        && disk == if io.removed then old(disk) - {old(files)[0].path.stem} else old(disk)
      ensures r == ErrIo ==>
        && Queue() == RenameHead(old(Queue()), MarkPending(old(files)[0].path))
        && disk == if io.renamedBack then Renamed(old(disk), MarkPending(old(files)[0].path)) else old(disk)
    {
      var oldest := files[0];
      lease := None;
      if !io.readable {
        var normal := MarkPending(oldest.path);
        RenameHeadConsistent(Queue(), normal, None);
        if io.renamedBack { disk := Renamed(disk, normal); }
        files := files[0 := oldest.(path := normal)];
        assert files == [oldest.(path := normal)] + old(files)[1..];
        return ErrIo, None;
      }
      if !io.decodable {
        CommitConsistent(Queue());
        if io.removed { disk := disk - {oldest.path.stem}; }
        files := files[1..];
        currentSize, totalEvents := currentSize - oldest.sizeBytes, totalEvents - oldest.eventNum;
        return ErrCorrupt, None;
      }
      lease := Some(BatchLease(leases, oldest));
      leases := leases + 1;
      activeLease := lease;
      r := Done;
    }

    method CommitLease(l: BatchLease, removed: bool) returns (r: Status)
      requires Valid()
      modifies this`files, this`currentSize, this`totalEvents, this`disk, this`activeLease
      ensures Valid()
      ensures r == (if old(activeLease) == Some(l) then Done else ErrInvalidLease)
      ensures r == Done ==>
        Queue() == Commit(old(Queue())) && disk == (if removed then old(disk) - {l.file.path.stem} else old(disk))
      ensures r != Done ==> Queue() == old(Queue()) && disk == old(disk)
    {
      if activeLease != Some(l) { return ErrInvalidLease; }
      CommitConsistent(Queue());
      CommitBacked(files, disk);
      if removed {
        disk := disk - {l.file.path.stem};
      }
      files := files[1..];
      currentSize, totalEvents := currentSize - l.file.sizeBytes, totalEvents - l.file.eventNum;
      activeLease := None;
      assert Queue() == Commit(old(Queue()));
      r := Done;
    }

    method RevertLease(l: BatchLease, renamable: bool) returns (r: Status)
      requires Valid()
      modifies this`files, this`disk, this`activeLease
      ensures Valid()
      ensures r == (if old(activeLease) != Some(l) then ErrInvalidLease else if renamable then Done else ErrIo)
      ensures r == Done ==>
        && Queue() == RenameHead(old(Queue()), MarkPending(l.file.path)).(lease := None)
        && disk == Renamed(old(disk), MarkPending(l.file.path))
      ensures r != Done ==> Queue() == old(Queue()) && disk == old(disk)
    {
      if activeLease != Some(l) { return ErrInvalidLease; }
      if !renamable { return ErrIo; }
      var normal := MarkPending(l.file.path);
      RenameHeadConsistent(Queue(), normal, None);
      disk := Renamed(disk, normal);
      files := files[0 := l.file.(path := normal)];
      assert files == [l.file.(path := normal)] + old(files)[1..];
      activeLease := None;
      r := Done;
    }

    /** Peek followed by Revert restores the queue, its names and the disk. */
    method PeekThenRevert() returns (r: Status)
      requires Valid() && !closed && activeLease.None? && files != [] && Describes(files[0], disk)
      requires files[0].path.ext != [] && files[0].path.ext[|files[0].path.ext| - 1] == Json
      modifies this
      ensures r == Done && Valid() && Queue() == old(Queue()) && disk == old(disk)
    {
      MarkRoundTrip(files[0].path);
      var s, lease := Peek(PeekIo(true, true, true, true, true));
      r := RevertLease(lease.value, true);
      assert files == old(files);
    }

    /** `Pop`: takes the oldest batch off in one go. */
    method Pop(io: PeekIo, removed: bool) returns (r: Status)
      requires Valid()
      modifies this
      ensures Valid()
      ensures r == PeekStatus(old(closed), old(Queue()), io)
      ensures r != Done ==> PeekEffect(r, io, old(Queue()), old(disk), Queue(), disk)
      ensures r == Done ==>
        && Queue() == Commit(old(Queue()))
        && disk == if removed then old(disk) - {old(files)[0].path.stem} else Renamed(old(disk), MarkInflight(old(files)[0].path))
    {
      var s, lease := Peek(io);
      if s != Done { return s; }
      r := CommitLease(lease.value, removed);
      assert files == old(files)[1..];
    }

    method Close(renamable: bool)
      requires Valid()
      modifies this
      ensures Valid() && closed && Queue() == old(Queue()).(lease := None)
      ensures disk == if old(activeLease).Some? && renamable then Renamed(old(disk), MarkPending(old(files)[0].path)) else old(disk)
    {
      if activeLease.Some? {
        var normal := MarkPending(activeLease.value.file.path);
        if renamable { disk := Renamed(disk, normal); }
        activeLease := None;
      }
      closed := true;
    }
  }

  /** A lease is part of a queue that is within the limit, so it is within the limit itself. */
  lemma LeaseFits(m: Mem, limit: nat)
    requires Consistent(m) && m.size <= limit
    ensures m.lease.Some? ==> m.lease.value.sizeBytes <= limit
  {
  }
}
