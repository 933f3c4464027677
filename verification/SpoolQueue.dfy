/** The spool's bookkeeping as values: the in-memory queue, its byte and event totals, the active
    lease, and the size limit. `DiskSpool` runs these as in-place updates; `Delivery` runs them as steps. */
module SpoolQueue {
  import opened GoText
  import opened SpoolNames

  datatype SpoolFile = SpoolFile(path: Path, sizeBytes: nat, eventNum: nat)

  /** A segment on disk. A segment is created under one name and only ever renamed,
      so a directory is a map from stems to the ending each currently has. */
  datatype DiskFile = DiskFile(ext: seq<Ext>, sizeBytes: nat, eventNum: nat)

  type SpoolDir = map<Stem, DiskFile>

  /** Renaming a segment to `p`. */
  function Renamed(disk: SpoolDir, p: Path): SpoolDir
    requires p.stem in disk
  {
    disk[p.stem := disk[p.stem].(ext := p.ext)]
  }

  datatype Mem = Mem(files: seq<SpoolFile>, size: int, events: int, lease: Option<SpoolFile>)

  function SumBytes(files: seq<SpoolFile>): nat {
    if files == [] then 0 else files[0].sizeBytes + SumBytes(files[1..])
  }

  function SumEvents(files: seq<SpoolFile>): nat {
    if files == [] then 0 else files[0].eventNum + SumEvents(files[1..])
  }

  predicate DistinctStems(files: seq<SpoolFile>) {
    forall i, j :: 0 <= i < j < |files| ==> files[i].path.stem != files[j].path.stem
  }

  /** Totals are the sums over the queue, and an active lease is the head of the queue. */
  predicate Consistent(m: Mem) {
    && m.size == SumBytes(m.files)
    && m.events == SumEvents(m.files)
    && DistinctStems(m.files)
    && (m.lease.Some? ==> m.files != [] && m.files[0] == m.lease.value)
  }

  predicate HeadLeased(m: Mem) {
    m.files != [] && m.lease.Some? && m.lease.value.path == m.files[0].path
  }

  /** The guard of the `break` in the pruning loop. */
  predicate OnlyLeaseLeft(m: Mem) {
    HeadLeased(m) && |m.files| == 1
  }

  function Append(m: Mem, f: SpoolFile): Mem {
    m.(files := m.files + [f], size := m.size + f.sizeBytes, events := m.events + f.eventNum)
  }

  /** The index the pruning loop removes next: the oldest segment that is not leased. */
  function Victim(m: Mem): (i: nat)
    requires m.files != [] && !OnlyLeaseLeft(m)
    ensures i < |m.files|
  {
    if HeadLeased(m) then 1 else 0
  }

  function PruneOne(m: Mem): (r: Mem)
    requires m.files != [] && !OnlyLeaseLeft(m)
    ensures |r.files| == |m.files| - 1
  {
    var i := Victim(m);
    m.(files := m.files[..i] + m.files[i + 1..],
       size := m.size - m.files[i].sizeBytes,
       events := m.events - m.files[i].eventNum)
  }

  function Enforce(m: Mem, limit: nat): Mem
    decreases |m.files|
  {
    if m.size <= limit || m.files == [] || OnlyLeaseLeft(m) then m else Enforce(PruneOne(m), limit)
  }

  /** Removing a committed lease. */
  function Commit(m: Mem): Mem
    requires m.files != []
  {
    m.(files := m.files[1..], size := m.size - m.files[0].sizeBytes,
       events := m.events - m.files[0].eventNum, lease := None)
  }

  function RenameHead(m: Mem, p: Path): Mem
    requires m.files != []
  {
    m.(files := [m.files[0].(path := p)] + m.files[1..])
  }

  // ---------------------------------------------------------------- sums

  lemma {:induction false} SumsConcat(a: seq<SpoolFile>, b: seq<SpoolFile>)
    ensures SumBytes(a + b) == SumBytes(a) + SumBytes(b)
    ensures SumEvents(a + b) == SumEvents(a) + SumEvents(b)
  {
    if a == [] {
      assert a + b == b;
    } else {
      assert (a + b)[1..] == a[1..] + b;
      SumsConcat(a[1..], b);
    }
  }

  lemma SumsSplitAt(files: seq<SpoolFile>, i: nat)
    requires i < |files|
    ensures SumBytes(files) == SumBytes(files[..i] + files[i + 1..]) + files[i].sizeBytes
    ensures SumEvents(files) == SumEvents(files[..i] + files[i + 1..]) + files[i].eventNum
  {
    assert files == files[..i] + ([files[i]] + files[i + 1..]);
    SumsConcat(files[..i], [files[i]] + files[i + 1..]);
    SumsConcat([files[i]], files[i + 1..]);
    SumsConcat(files[..i], files[i + 1..]);
  }

  // ---------------------------------------------------------------- accounting

  lemma AppendConsistent(m: Mem, f: SpoolFile)
    requires Consistent(m)
    requires forall i :: 0 <= i < |m.files| ==> m.files[i].path.stem != f.path.stem
    ensures Consistent(Append(m, f))
  {
    SumsConcat(m.files, [f]);
  }

  lemma PruneOneConsistent(m: Mem)
    requires Consistent(m) && m.files != [] && !OnlyLeaseLeft(m)
    ensures Consistent(PruneOne(m)) && PruneOne(m).lease == m.lease
  {
    SumsSplitAt(m.files, Victim(m));
  }

  lemma CommitConsistent(m: Mem)
    requires Consistent(m) && m.files != []
    ensures Consistent(Commit(m))
  {
    SumsSplitAt(m.files, 0);
    assert m.files[..0] + m.files[1..] == m.files[1..];
  }

  lemma RenameHeadConsistent(m: Mem, p: Path, lease: Option<SpoolFile>)
    requires Consistent(m) && m.files != [] && p.stem == m.files[0].path.stem
    requires lease.Some? ==> lease.value == m.files[0].(path := p)
    ensures Consistent(RenameHead(m, p).(lease := lease))
  {
    SumsConcat([m.files[0].(path := p)], m.files[1..]);
    SumsConcat([m.files[0]], m.files[1..]);
    assert m.files == [m.files[0]] + m.files[1..];
  }

  /** Pruning keeps the leased head (if any) and cuts the `k` oldest other segments, where `k` is the
      least number that brings the queue within the limit. */
  ghost predicate CutBehindLease(m: Mem, r: Mem, k: nat, limit: nat) {
    var h := if m.lease.Some? then 1 else 0;
    && h + k <= |m.files|
    && r.files == m.files[..h] + m.files[h + k..]
    && (k > 0 ==> SumBytes(m.files[..h] + m.files[h + k - 1..]) > limit)
  }

  lemma SumSingleton(files: seq<SpoolFile>)
    ensures |files| == 1 ==> SumBytes(files) == files[0].sizeBytes
  {
  }

  /** The `break` of the pruning loop is never reached when the lease itself fits the limit. */
  lemma BreakUnreachable(m: Mem, limit: nat)
    requires Consistent(m) && m.size > limit
    requires m.lease.Some? ==> m.lease.value.sizeBytes <= limit
    ensures m.files != [] && !OnlyLeaseLeft(m)
  {
    SumSingleton(m.files);
  }

  lemma CutStep(m: Mem, r: Mem, k: nat, limit: nat)
    requires Consistent(m) && m.size > limit && m.files != [] && !OnlyLeaseLeft(m)
    requires CutBehindLease(PruneOne(m), r, k, limit)
    ensures CutBehindLease(m, r, k + 1, limit)
  {
    var h := if m.lease.Some? then 1 else 0;
    var p := PruneOne(m);
    assert Victim(m) == h;
    assert p.files[..h] == m.files[..h];
    assert p.files[h + k..] == m.files[h + (k + 1)..];
    if k == 0 {
      assert m.files[..h] + m.files[h..] == m.files;
    } else {
      assert p.files[h + k - 1..] == m.files[h + k..];
    }
  }

  /** With a lease that fits the limit, the pruning loop never removes the leased segment, removes
      the oldest others and no more than needed, and leaves consistent totals within the limit. */
  lemma {:induction false} EnforceBounds(m: Mem, limit: nat) returns (k: nat)
    requires Consistent(m)
    requires m.lease.Some? ==> m.lease.value.sizeBytes <= limit
    ensures Consistent(Enforce(m, limit))
    ensures Enforce(m, limit).size <= limit
    ensures Enforce(m, limit).lease == m.lease
    ensures CutBehindLease(m, Enforce(m, limit), k, limit)
    decreases |m.files|
  {
    if m.size <= limit {
      k := 0;
      var h := if m.lease.Some? then 1 else 0;
      assert m.files[..h] + m.files[h..] == m.files;
    } else {
      BreakUnreachable(m, limit);
      PruneOneConsistent(m);
      k := EnforceBounds(PruneOne(m), limit);
      CutStep(m, Enforce(m, limit), k, limit);
      k := k + 1;
    }
  }

  // ---------------------------------------------------------------- reopening

  predicate SortedByName(files: seq<SpoolFile>, uuid: nat -> Str) {
    forall i, j :: 0 <= i < j < |files| ==>
      !LexLess(BaseName(files[j].path, uuid), BaseName(files[i].path, uuid))
  }

  predicate Describes(f: SpoolFile, disk: SpoolDir) {
    f.path.stem in disk && disk[f.path.stem] == DiskFile(f.path.ext, f.sizeBytes, f.eventNum)
  }

  ghost predicate Listed(st: Stem, files: seq<SpoolFile>) {
    exists i :: 0 <= i < |files| && files[i].path.stem == st
  }

  /** `files` is what reopening finds in `disk`: every segment once, ordered by file name. */
  ghost predicate Rebuilt(disk: SpoolDir, files: seq<SpoolFile>, uuid: nat -> Str) {
    && DistinctStems(files)
    && (forall i :: 0 <= i < |files| ==> Describes(files[i], disk))
    && (forall st :: st in disk ==> Listed(st, files))
    && SortedByName(files, uuid)
  }

  predicate StampOrdered(files: seq<SpoolFile>) {
    forall i, j :: 0 <= i < j < |files| ==> files[i].path.stem.nano < files[j].path.stem.nano
  }

  /** Clock readings on disk are int64 values and no two segments share one. */
  predicate StampsUnique(disk: SpoolDir) {
    && (forall st :: st in disk ==> st.nano <= MAX_NANO)
    && (forall a, b :: a in disk && b in disk && a.nano == b.nano ==> a == b)
  }

  lemma RebuiltStampOrdered(disk: SpoolDir, files: seq<SpoolFile>, uuid: nat -> Str)
    requires Rebuilt(disk, files, uuid) && StampsUnique(disk)
    ensures StampOrdered(files)
  {
    forall i, j | 0 <= i < j < |files|
      ensures files[i].path.stem.nano < files[j].path.stem.nano
    {
      assert Describes(files[i], disk) && Describes(files[j], disk);
      StampOrderFromNames(files[j].path, files[i].path, uuid);
    }
  }

  /** A stamp-ordered list is determined by which segments it lists. */
  lemma {:induction false} StampOrderedUnique(a: seq<SpoolFile>, b: seq<SpoolFile>)
    requires StampOrdered(a) && StampOrdered(b)
    requires forall st :: Listed(st, a) <==> Listed(st, b)
    ensures |a| == |b| && forall i :: 0 <= i < |a| ==> a[i].path.stem == b[i].path.stem
  {
    if a == [] {
      if b != [] { assert Listed(b[0].path.stem, b); }
    } else {
      assert Listed(a[0].path.stem, a);
      assert b != [];
      assert Listed(b[0].path.stem, b);
      assert a[0].path.stem == b[0].path.stem;
      forall st ensures Listed(st, a[1..]) <==> Listed(st, b[1..]) {
        ListedTail(st, a);
        ListedTail(st, b);
      }
      StampOrderedUnique(a[1..], b[1..]);
      forall i | 0 <= i < |a| ensures a[i].path.stem == b[i].path.stem {
        if i > 0 { assert a[i] == a[1..][i - 1] && b[i] == b[1..][i - 1]; }
      }
    }
  }

  lemma ListedCut(files: seq<SpoolFile>, i: nat, st: Stem)
    requires i < |files| && forall k :: 0 <= k < |files| && k != i ==> files[k].path.stem != files[i].path.stem
    ensures Listed(st, files[..i] + files[i + 1..]) <==> Listed(st, files) && st != files[i].path.stem
  {
    var cut := files[..i] + files[i + 1..];
    if Listed(st, files) && st != files[i].path.stem {
      var k :| 0 <= k < |files| && files[k].path.stem == st;
      assert cut[if k < i then k else k - 1] == files[k];
    }
    if Listed(st, cut) {
      var k :| 0 <= k < |cut| && cut[k].path.stem == st;
      assert cut[k] == files[if k < i then k else k + 1];
    }
  }

  lemma ListedTail(st: Stem, a: seq<SpoolFile>)
    requires a != [] && StampOrdered(a)
    ensures Listed(st, a[1..]) <==> Listed(st, a) && st != a[0].path.stem
  {
    if Listed(st, a) {
      var i :| 0 <= i < |a| && a[i].path.stem == st;
      if i > 0 { assert a[1..][i - 1] == a[i]; }
    }
    if Listed(st, a[1..]) {
      var i :| 0 <= i < |a| - 1 && a[1..][i].path.stem == st;
      assert a[i + 1].path.stem == st;
    }
  }

  /** Two readings out of order: a clock that steps back between two pushes makes reopening
      deliver the later batch first. */
  lemma ClockStepBackReordersRecovery(uuid: nat -> Str)
    ensures
      var first := SpoolFile(Path(Stem(9, 0), [Json]), 1, 1);
      var second := SpoolFile(Path(Stem(5, 1), [Json]), 1, 1);
      var disk := map[Stem(9, 0) := DiskFile([Json], 1, 1), Stem(5, 1) := DiskFile([Json], 1, 1)];
      Rebuilt(disk, [second, first], uuid) && !Rebuilt(disk, [first, second], uuid)
  {
    var first := SpoolFile(Path(Stem(9, 0), [Json]), 1, 1);
    var second := SpoolFile(Path(Stem(5, 1), [Json]), 1, 1);
    NameOrderIsStampOrder(second.path, first.path, uuid);
    LexLessAsymmetric(BaseName(second.path, uuid), BaseName(first.path, uuid));
    var good, bad := [second, first], [first, second];
    assert good[0].path.stem == Stem(5, 1) && good[1].path.stem == Stem(9, 0);
    assert !LexLess(BaseName(good[1].path, uuid), BaseName(good[0].path, uuid));
    assert LexLess(BaseName(bad[1].path, uuid), BaseName(bad[0].path, uuid));
  }

  function LaterFirst(id: nat): nat -> Str {
    (b: nat) => if b == id then Ascii("b") else Ascii("a")
  }

  /** Equal readings leave the order to the random ids. */
  lemma EqualStampsByUuid(p: Path, q: Path)
    requires p.stem.nano == q.stem.nano && p.stem.id != q.stem.id
    ensures LexLess(BaseName(q, LaterFirst(p.stem.id)), BaseName(p, LaterFirst(p.stem.id)))
  {
    var uuid := LaterFirst(p.stem.id);
    LexLessCommonPrefix(Ascii("_"), Ascii("a"), Ascii("b"));
    LexLessDecided(Ascii("_") + uuid(q.stem.id), Ascii("_") + uuid(p.stem.id), ExtName(q.ext), ExtName(p.ext));
    var stamp := Pad(p.stem.nano, 20);
    LexLessCommonPrefix(stamp, NameTail(q, uuid), NameTail(p, uuid));
    LexLessCommonPrefix(Ascii("spool_"), stamp + NameTail(q, uuid), stamp + NameTail(p, uuid));
  }

  /** Sorting by name keeps the order of the pushes, whatever ids are drawn, exactly when every push read
      a later clock value than the one before. */
  lemma PushOrderIffClockAdvances(pushed: seq<SpoolFile>)
    requires DistinctStems(pushed) && forall i :: 0 <= i < |pushed| ==> pushed[i].path.stem.nano <= MAX_NANO
    ensures (forall uuid :: SortedByName(pushed, uuid)) <==> StampOrdered(pushed)
  {
    if StampOrdered(pushed) {
      forall uuid ensures SortedByName(pushed, uuid) {
        forall i, j | 0 <= i < j < |pushed|
          ensures !LexLess(BaseName(pushed[j].path, uuid), BaseName(pushed[i].path, uuid))
        {
          StampOrderFromNames(pushed[j].path, pushed[i].path, uuid);
        }
      }
    } else {
      var i, j :| 0 <= i < j < |pushed| && pushed[i].path.stem.nano >= pushed[j].path.stem.nano;
      var p, q := pushed[i].path, pushed[j].path;
      var uuid := LaterFirst(p.stem.id);
      if p.stem.nano == q.stem.nano {
        EqualStampsByUuid(p, q);
      } else {
        NameOrderIsStampOrder(q, p, uuid);
      }
      assert !SortedByName(pushed, uuid);
    }
  }
}
