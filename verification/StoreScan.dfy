/** The naive meaning of a query: walk everything stored, newest first, keep what matches, stop at the
    limit. Also the loading of a partition's index. */
module StoreScan {
  import opened LogEntries
  import opened Blocks

  const HOUR: int := 3_600_000_000_000

  /** The UTC hour an instant falls in; partition directories are named after it. */
  function HourOf(nano: int): int {
    nano / HOUR
  }

  /** A partition directory: the append-only index, the legacy index, and the block files. */
  datatype Partition = Partition(index: seq<BlockHeader>, legacy: seq<BlockHeader>, files: map<nat, seq<LogEntry>>)

  type Disk = map<int, Partition>

  // ---------------------------------------------------------------- loading an index

  predicate NamesFile(headers: seq<BlockHeader>, name: nat) {
    exists i :: 0 <= i < |headers| && headers[i].fileName == name
  }

  predicate NamesOnce(headers: seq<BlockHeader>) {
    forall i, j :: 0 <= i < j < |headers| ==> headers[i].fileName != headers[j].fileName
  }

  /** Keeps the first header of each file. */
  function DistinctFiles(headers: seq<BlockHeader>): seq<BlockHeader> {
    if headers == [] then []
    else
      var init, h := headers[..|headers| - 1], headers[|headers| - 1];
      if NamesFile(init, h.fileName) then DistinctFiles(init) else DistinctFiles(init) + [h]
  }

  function InsertByMin(headers: seq<BlockHeader>, h: BlockHeader): seq<BlockHeader> {
    if headers == [] || headers[|headers| - 1].minNano <= h.minNano then headers + [h]
    else InsertByMin(headers[..|headers| - 1], h) + [headers[|headers| - 1]]
  }

  function SortByMin(headers: seq<BlockHeader>): seq<BlockHeader> {
    if headers == [] then [] else InsertByMin(SortByMin(headers[..|headers| - 1]), headers[|headers| - 1])
  }

  /** `LoadPartitionIndex`. */
  function LoadIndex(p: Partition): seq<BlockHeader> {
    SortByMin(DistinctFiles(p.legacy + p.index))
  }

  lemma SplitLast<T>(s: seq<T>)
    requires s != []
    ensures s == s[..|s| - 1] + [s[|s| - 1]]
  {
  }

  lemma {:induction false} InsertByMinMultiset(headers: seq<BlockHeader>, h: BlockHeader)
    ensures multiset(InsertByMin(headers, h)) == multiset(headers) + multiset{h}
  {
    if !(headers == [] || headers[|headers| - 1].minNano <= h.minNano) {
      InsertByMinMultiset(headers[..|headers| - 1], h);
      SplitLast(headers);
    }
  }

  lemma {:induction false} SortByMinMultiset(headers: seq<BlockHeader>)
    ensures multiset(SortByMin(headers)) == multiset(headers)
  {
    if headers != [] {
      var init, h := headers[..|headers| - 1], headers[|headers| - 1];
      SortByMinMultiset(init);
      InsertByMinMultiset(SortByMin(init), h);
      assert multiset(headers) == multiset(init) + multiset{h} by { SplitLast(headers); }
    }
  }

  lemma {:induction false} DistinctFilesIdentity(headers: seq<BlockHeader>)
    requires NamesOnce(headers)
    ensures DistinctFiles(headers) == headers
  {
    if headers != [] {
      var init, h := headers[..|headers| - 1], headers[|headers| - 1];
      DistinctFilesIdentity(init);
      assert !NamesFile(init, h.fileName);
      assert headers == init + [h];
    }
  }

  lemma {:induction false} DistinctFilesMembers(headers: seq<BlockHeader>, h: BlockHeader)
    requires h in DistinctFiles(headers)
    ensures h in headers
  {
    var init := headers[..|headers| - 1];
    if h in DistinctFiles(init) { DistinctFilesMembers(init, h); }
  }

  lemma LoadIndexMembers(p: Partition, h: BlockHeader)
    requires h in LoadIndex(p)
    ensures h in p.legacy || h in p.index
  {
    SortByMinMultiset(DistinctFiles(p.legacy + p.index));
    assert h in multiset(LoadIndex(p));
    DistinctFilesMembers(p.legacy + p.index, h);
  }

  // ---------------------------------------------------------------- what loading gives

  predicate MinAscending(headers: seq<BlockHeader>) {
    forall i, j :: 0 <= i < j < |headers| ==> headers[i].minNano <= headers[j].minNano
  }

  /** Header `i` is the first with its file name. */
  predicate FirstOfName(headers: seq<BlockHeader>, i: nat) {
    i < |headers| && forall j :: 0 <= j < i ==> headers[j].fileName != headers[i].fileName
  }

  ghost predicate IsFirst(headers: seq<BlockHeader>, x: BlockHeader) {
    exists i: nat :: FirstOfName(headers, i) && headers[i] == x
  }

  lemma {:induction false} InsertMembersByMin(headers: seq<BlockHeader>, h: BlockHeader, x: BlockHeader)
    ensures x in InsertByMin(headers, h) <==> x in headers || x == h
  {
    InsertByMinMultiset(headers, h);
    assert x in InsertByMin(headers, h) <==> x in multiset(headers) + multiset{h};
  }

  /** Insertion into an ascending list of other files keeps it ascending, each file once. */
  lemma {:induction false} InsertByMinKeeps(headers: seq<BlockHeader>, h: BlockHeader)
    requires MinAscending(headers) && NamesOnce(headers) && !NamesFile(headers, h.fileName)
    ensures MinAscending(InsertByMin(headers, h)) && NamesOnce(InsertByMin(headers, h))
  {
    if headers != [] && headers[|headers| - 1].minNano > h.minNano {
      var init, last := headers[..|headers| - 1], headers[|headers| - 1];
      var r := InsertByMin(init, h);
      InsertByMinKeeps(init, h);
      forall i | 0 <= i < |r| ensures r[i].minNano <= last.minNano && r[i].fileName != last.fileName {
        InsertMembersByMin(init, h, r[i]);
      }
    }
  }

  lemma {:induction false} DistinctFilesOnce(headers: seq<BlockHeader>)
    ensures NamesOnce(DistinctFiles(headers))
  {
    if headers != [] {
      var init, h := headers[..|headers| - 1], headers[|headers| - 1];
      DistinctFilesOnce(init);
      var d := DistinctFiles(init);
      forall i | 0 <= i < |d| ensures d[i].fileName == h.fileName ==> NamesFile(init, h.fileName) {
        DistinctFilesMembers(init, d[i]);
      }
    }
  }

  lemma {:induction false} SortByMinKeeps(headers: seq<BlockHeader>)
    requires NamesOnce(headers)
    ensures MinAscending(SortByMin(headers)) && NamesOnce(SortByMin(headers))
  {
    if headers != [] {
      var init, h := headers[..|headers| - 1], headers[|headers| - 1];
      SortByMinKeeps(init);
      var s := SortByMin(init);
      SortByMinMultiset(init);
      forall i | 0 <= i < |s| ensures s[i].fileName != h.fileName {
        assert s[i] in multiset(init);
      }
      InsertByMinKeeps(s, h);
    }
  }

  lemma FirstsStep(init: seq<BlockHeader>, h: BlockHeader, x: BlockHeader)
    ensures IsFirst(init + [h], x) <==> IsFirst(init, x) || (x == h && !NamesFile(init, h.fileName))
  {
    var all, n := init + [h], |init|;
    assert all[n] == h && forall i :: 0 <= i < n ==> all[i] == init[i];
    forall i: nat | i < n ensures FirstOfName(all, i) <==> FirstOfName(init, i) {
    }
    if NamesFile(init, h.fileName) {
      var k :| 0 <= k < n && init[k].fileName == h.fileName;
      assert all[k].fileName == all[n].fileName;
    } else {
      assert FirstOfName(all, n);
    }
    if i: nat :| FirstOfName(init, i) && init[i] == x { assert FirstOfName(all, i) && all[i] == x; }
  }

  lemma {:induction false} FirstsAreKept(headers: seq<BlockHeader>, x: BlockHeader)
    ensures x in DistinctFiles(headers) <==> IsFirst(headers, x)
  {
    if headers != [] {
      var init, h := headers[..|headers| - 1], headers[|headers| - 1];
      FirstsAreKept(init, x);
      SplitLast(headers);
      FirstsStep(init, h, x);
    }
  }

  /** A loaded index is in order of minimum time and names every file of either index exactly once, by the first
      header of that name. */
  lemma LoadIndexSorted(p: Partition)
    ensures MinAscending(LoadIndex(p)) && NamesOnce(LoadIndex(p))
    ensures forall x :: x in LoadIndex(p) <==> IsFirst(p.legacy + p.index, x)
  {
    DistinctFilesOnce(p.legacy + p.index);
    SortByMinKeeps(DistinctFiles(p.legacy + p.index));
    forall x ensures x in LoadIndex(p) <==> IsFirst(p.legacy + p.index, x) { LoadedIffFirst(p, x); }
  }

  lemma LoadedIffFirst(p: Partition, x: BlockHeader)
    ensures x in LoadIndex(p) <==> IsFirst(p.legacy + p.index, x)
  {
    var kept := DistinctFiles(p.legacy + p.index);
    SortByMinMultiset(kept);
    FirstsAreKept(p.legacy + p.index, x);
    assert x in LoadIndex(p) <==> x in multiset(LoadIndex(p));
    assert x in kept <==> x in multiset(kept);
  }

  // ---------------------------------------------------------------- the naive scan

  function Reverse<T>(s: seq<T>): (r: seq<T>)
    ensures |r| == |s|
  {
    if s == [] then [] else Reverse(s[1..]) + [s[0]]
  }

  lemma {:induction false} ReverseConcat<T>(a: seq<T>, b: seq<T>)
    ensures Reverse(a + b) == Reverse(b) + Reverse(a)
  {
    if a == [] {
      assert a + b == b;
    } else {
      assert (a + b)[1..] == a[1..] + b;
      ReverseConcat(a[1..], b);
    }
  }

  lemma {:induction false} ReverseMembers<T>(s: seq<T>, x: T)
    ensures x in Reverse(s) <==> x in s
  {
    if s != [] {
      ReverseMembers(s[1..], x);
      assert s == [s[0]] + s[1..];
    }
  }

  function BlockEntries(p: Partition, h: BlockHeader): seq<LogEntry> {
    if h.fileName in p.files then p.files[h.fileName] else []
  }

  /** The entries of the named blocks that can be read, in index order. */
  function PartitionEntries(p: Partition, headers: seq<BlockHeader>): seq<LogEntry> {
    if headers == [] then [] else BlockEntries(p, headers[0]) + PartitionEntries(p, headers[1..])
  }

  /** Everything in the given hours: blocks and entries last to first. */
  function Scan(disk: Disk, view: map<int, seq<BlockHeader>>, hours: seq<int>): seq<LogEntry>
    requires forall i :: 0 <= i < |hours| ==> hours[i] in disk && hours[i] in view
  {
    if hours == [] then []
    else Reverse(PartitionEntries(disk[hours[0]], view[hours[0]])) + Scan(disk, view, hours[1..])
  }

  function Filter(entries: seq<LogEntry>, q: Query): seq<LogEntry> {
    if entries == [] then []
    else if Matches(entries[0], q) then [entries[0]] + Filter(entries[1..], q)
    else Filter(entries[1..], q)
  }

  function Take<T>(s: seq<T>, n: nat): seq<T> {
    if |s| <= n then s else s[..n]
  }

  /** What a query should return. */
  function NaiveQuery(disk: Disk, view: map<int, seq<BlockHeader>>, hours: seq<int>, q: Query): seq<LogEntry>
    requires forall i :: 0 <= i < |hours| ==> hours[i] in disk && hours[i] in view
    requires q.limit >= 0
  {
    Take(Filter(Scan(disk, view, hours), q), q.limit)
  }

  predicate HoursDescend(hours: seq<int>) {
    forall i, j :: 0 <= i < j < |hours| ==> hours[i] > hours[j]
  }

  // ---------------------------------------------------------------- algebra of filtering

  lemma {:induction false} FilterConcat(a: seq<LogEntry>, b: seq<LogEntry>, q: Query)
    ensures Filter(a + b, q) == Filter(a, q) + Filter(b, q)
  {
    if a == [] {
      assert a + b == b;
    } else {
      assert (a + b)[1..] == a[1..] + b;
      FilterConcat(a[1..], b, q);
    }
  }

  lemma {:induction false} FilterNone(entries: seq<LogEntry>, q: Query)
    requires forall e :: e in entries ==> !Matches(e, q)
    ensures Filter(entries, q) == []
  {
    if entries != [] { FilterNone(entries[1..], q); }
  }

  /** Results so far, continued with the matches among `more`, up to the limit. */
  function Extend(matched: seq<LogEntry>, more: seq<LogEntry>, q: Query, limit: nat): seq<LogEntry> {
    Take(matched + Filter(more, q), limit)
  }

  lemma TakeConcat<T>(a: seq<T>, b: seq<T>, n: nat)
    ensures Take(Take(a, n) + b, n) == Take(a + b, n)
  {
  }

  lemma ExtendConcat(m: seq<LogEntry>, a: seq<LogEntry>, b: seq<LogEntry>, q: Query, limit: nat)
    ensures Extend(Extend(m, a, q, limit), b, q, limit) == Extend(m, a + b, q, limit)
  {
    FilterConcat(a, b, q);
    TakeConcat(m + Filter(a, q), Filter(b, q), limit);
    assert m + Filter(a, q) + Filter(b, q) == m + (Filter(a, q) + Filter(b, q));
  }

  lemma ExtendNone(m: seq<LogEntry>, more: seq<LogEntry>, q: Query, limit: nat)
    requires |m| <= limit && forall e :: e in more ==> !Matches(e, q)
    ensures Extend(m, more, q, limit) == m
  {
    FilterNone(more, q);
    assert m + [] == m;
  }

  lemma ExtendFull(m: seq<LogEntry>, more: seq<LogEntry>, q: Query, limit: nat)
    requires |m| == limit
    ensures Extend(m, more, q, limit) == m
  {
  }

  lemma {:induction false} PartitionConcat(p: Partition, a: seq<BlockHeader>, b: seq<BlockHeader>)
    ensures PartitionEntries(p, a + b) == PartitionEntries(p, a) + PartitionEntries(p, b)
  {
    if a == [] {
      assert a + b == b;
    } else {
      assert (a + b)[1..] == a[1..] + b;
      PartitionConcat(p, a[1..], b);
    }
  }

  lemma {:induction false} PartitionMember(p: Partition, headers: seq<BlockHeader>, e: LogEntry) returns (h: BlockHeader)
    requires e in PartitionEntries(p, headers)
    ensures h in headers && e in BlockEntries(p, h)
  {
    if e in BlockEntries(p, headers[0]) {
      h := headers[0];
    } else {
      h := PartitionMember(p, headers[1..], e);
    }
  }

  lemma {:induction false} EntriesHold(p: Partition, headers: seq<BlockHeader>, h: BlockHeader, e: LogEntry)
    requires h in headers && e in BlockEntries(p, h)
    ensures e in PartitionEntries(p, headers)
  {
    if h != headers[0] { EntriesHold(p, headers[1..], h, e); }
  }

  lemma {:induction false} ScanConcat(disk: Disk, view: map<int, seq<BlockHeader>>, a: seq<int>, b: seq<int>)
    requires forall i :: 0 <= i < |a| ==> a[i] in disk && a[i] in view
    requires forall i :: 0 <= i < |b| ==> b[i] in disk && b[i] in view
    ensures forall i :: 0 <= i < |a + b| ==> (a + b)[i] in disk && (a + b)[i] in view
    ensures Scan(disk, view, a + b) == Scan(disk, view, a) + Scan(disk, view, b)
  {
    if a == [] {
      assert a + b == b;
    } else {
      assert (a + b)[1..] == a[1..] + b;
      ScanConcat(disk, view, a[1..], b);
    }
  }

  predicate NoMatchIn(disk: Disk, view: map<int, seq<BlockHeader>>, h: int, q: Query)
    requires h in disk && h in view
  {
    forall e :: e in PartitionEntries(disk[h], view[h]) ==> !Matches(e, q)
  }

  /** Leaving out hours without matches does not change what the filter keeps. */
  lemma {:induction false} SkippingHours(disk: Disk, view: map<int, seq<BlockHeader>>, all: seq<int>, some: seq<int>, q: Query)
    requires HoursDescend(all) && HoursDescend(some)
    requires forall i :: 0 <= i < |all| ==> all[i] in disk && all[i] in view
    requires forall i :: 0 <= i < |some| ==> some[i] in all
    requires forall i :: 0 <= i < |all| && all[i] !in some ==> NoMatchIn(disk, view, all[i], q)
    ensures forall i :: 0 <= i < |some| ==> some[i] in disk && some[i] in view
    ensures Filter(Scan(disk, view, some), q) == Filter(Scan(disk, view, all), q)
  {
    if all != [] {
      var h, rest := all[0], all[1..];
      var first := Reverse(PartitionEntries(disk[h], view[h]));
      FilterConcat(first, Scan(disk, view, rest), q);
      if some != [] && some[0] == h {
        HeadKept(all, some);
        assert forall i :: 0 <= i < |rest| ==> rest[i] == all[i + 1] && (rest[i] in some[1..] <==> rest[i] in some);
        SkippingHours(disk, view, rest, some[1..], q);
        FilterConcat(first, Scan(disk, view, some[1..]), q);
      } else {
        HeadSkipped(all, some);
        SkippingHours(disk, view, rest, some, q);
        assert NoMatchIn(disk, view, h, q);
        forall e | e in first ensures !Matches(e, q) { ReverseMembers(PartitionEntries(disk[h], view[h]), e); }
        FilterNone(first, q);
      }
    }
  }

  lemma HeadKept(all: seq<int>, some: seq<int>)
    requires HoursDescend(all) && HoursDescend(some) && all != [] && some != [] && all[0] == some[0]
    requires forall i :: 0 <= i < |some| ==> some[i] in all
    ensures forall i :: 0 <= i < |some[1..]| ==> some[1..][i] in all[1..]
    ensures forall x :: x in some[1..] <==> x in some && x != all[0]
    ensures forall x :: x in all[1..] ==> x != all[0]
  {
    assert some == [some[0]] + some[1..] && all == [all[0]] + all[1..];
  }

  lemma HeadSkipped(all: seq<int>, some: seq<int>)
    requires HoursDescend(all) && HoursDescend(some) && all != [] && (some == [] || some[0] != all[0])
    requires forall i :: 0 <= i < |some| ==> some[i] in all
    ensures all[0] !in some
    ensures forall i :: 0 <= i < |some| ==> some[i] in all[1..]
  {
    assert all == [all[0]] + all[1..];
    if some != [] {
      var k :| 0 <= k < |all| && all[k] == some[0];
      assert all[0] > some[0];
    }
  }

  /** Stores that hold the same entries hour by hour answer every query alike. */
  lemma {:induction false} SameEntriesSameAnswers(disk: Disk, view: map<int, seq<BlockHeader>>,
                                                  disk': Disk, view': map<int, seq<BlockHeader>>, hours: seq<int>)
    requires forall i :: 0 <= i < |hours| ==> hours[i] in disk && hours[i] in view && hours[i] in disk' && hours[i] in view'
    requires forall i :: 0 <= i < |hours| ==>
      PartitionEntries(disk'[hours[i]], view'[hours[i]]) == PartitionEntries(disk[hours[i]], view[hours[i]])
    ensures Scan(disk', view', hours) == Scan(disk, view, hours)
    ensures forall q: Query :: q.limit >= 0 ==> NaiveQuery(disk', view', hours, q) == NaiveQuery(disk, view, hours, q)
  {
    if hours != [] {
      SameEntriesSameAnswers(disk, view, disk', view', hours[1..]);
    }
  }
}
