/** Which partitions a query looks in, and how one partition is searched. */
module StorePartitions {
  import opened LogEntries
  import opened Blocks
  import opened StoreScan

  // ---------------------------------------------------------------- candidate partitions

  /** The instant is inside the query's time bounds. */
  predicate InBounds(nano: int, q: Query) {
    (IsZero(q.startTime) || nano >= q.startTime.nano) && (IsZero(q.endTime) || nano <= q.endTime.nano)
  }

  /** `hours` lists existing partitions newest first and misses none that a match could be in. */
  ghost predicate Candidates(hours: seq<int>, existing: set<int>, q: Query) {
    && HoursDescend(hours)
    && (forall i :: 0 <= i < |hours| ==> hours[i] in existing)
    && (forall nano {:trigger HourOf(nano)} :: HourOf(nano) in existing && InBounds(nano, q) ==> HourOf(nano) in hours)
  }

  function InsertHour(hours: seq<int>, h: int): seq<int> {
    if hours == [] || h > hours[0] then [h] + hours else [hours[0]] + InsertHour(hours[1..], h)
  }

  lemma {:induction false} InsertHourKeeps(hours: seq<int>, h: int)
    requires HoursDescend(hours) && h !in hours
    ensures HoursDescend(InsertHour(hours, h))
    ensures forall x :: x in InsertHour(hours, h) <==> x in hours || x == h
  {
    if !(hours == [] || h > hours[0]) {
      InsertHourKeeps(hours[1..], h);
      var r := InsertHour(hours[1..], h);
      assert hours == [hours[0]] + hours[1..];
      assert forall i :: 0 <= i < |r| ==> r[i] in r;
    }
  }

  lemma SomeMember(hours: set<int>)
    requires hours != {}
    ensures exists h :: h in hours
  {
    assert (forall h :: h !in hours) ==> hours == {};
  }

  /** `walkAllDirs`. */
  method WalkAllDirs(existing: set<int>) returns (hours: seq<int>)
    ensures HoursDescend(hours) && forall h :: h in hours <==> h in existing
  {
    hours := [];
    var pending := existing;
    while pending != {}
      invariant pending <= existing && HoursDescend(hours)
      invariant forall h :: h in hours <==> h in existing && h !in pending
      decreases |pending|
    {
      SomeMember(pending);
      var h :| h in pending;
      InsertHourKeeps(hours, h);
      hours := InsertHour(hours, h);
      pending := pending - {h};
    }
  }

  /** The hour does not lie entirely outside the query's bounds, its end counted in. */
  predicate NotOutside(hour: int, q: Query) {
    (IsZero(q.startTime) || q.startTime.nano <= hour * HOUR + HOUR) && (IsZero(q.endTime) || hour * HOUR <= q.endTime.nano)
  }

  /** Where a query looks: with both bounds, from the hour of the start to that of the end; otherwise in
      every hour that does not lie entirely outside the bound there is. */
  predicate LooksIn(hour: int, q: Query) {
    if !IsZero(q.startTime) && !IsZero(q.endTime) then HourOf(q.startTime.nano) <= hour <= HourOf(q.endTime.nano)
    else NotOutside(hour, q)
  }

  /** Exactly the existing hours a query looks in, newest first. */
  ghost predicate CandidateDirs(hours: seq<int>, existing: set<int>, q: Query) {
    HoursDescend(hours) && forall h :: h in hours <==> h in existing && LooksIn(h, q)
  }

  /** No hour with an instant inside the bounds is missing. */
  lemma CandidatesOf(hours: seq<int>, existing: set<int>, q: Query)
    requires CandidateDirs(hours, existing, q)
    ensures Candidates(hours, existing, q)
  {
    assert forall i :: 0 <= i < |hours| ==> hours[i] in hours;
    forall nano {:trigger HourOf(nano)} | HourOf(nano) in existing && InBounds(nano, q) ensures HourOf(nano) in hours {
      HourBounds(nano);
      HourBounds(q.startTime.nano);
      HourBounds(q.endTime.nano);
    }
  }

  /** `walkAndFilterDirs`: drop the hours entirely outside a bound. */
  method WalkAndFilterDirs(existing: set<int>, q: Query) returns (hours: seq<int>)
    ensures HoursDescend(hours) && forall h :: h in hours <==> h in existing && NotOutside(h, q)
  {
    var all := WalkAllDirs(existing);
    hours := [];
    var i := 0;
    while i < |all|
      invariant 0 <= i <= |all| && HoursDescend(hours)
      invariant forall h :: h in hours <==> h in all[..i] && NotOutside(h, q)
    {
      var dirTime := all[i] * HOUR;
      var dirEnd := dirTime + HOUR;
      assert all[..i + 1] == all[..i] + [all[i]];
      if !((!IsZero(q.startTime) && dirEnd < q.startTime.nano) || (!IsZero(q.endTime) && dirTime > q.endTime.nano)) {
        forall k | 0 <= k < |hours| ensures hours[k] > all[i] {
          assert hours[k] in hours && hours[k] in all[..i];
        }
        hours := hours + [all[i]];
      }
      i := i + 1;
    }
    assert all[..i] == all;
  }

  lemma HourBounds(nano: int)
    ensures HOUR == 60 * 60 * 1_000_000_000 && HourOf(nano) * HOUR <= nano < HourOf(nano) * HOUR + HOUR
  {
  }

  /** `generateCandidateDirs`: with both bounds, count hours from the start's hour to the end.
      The source collects them oldest first and then sorts; here each goes in front. */
  method GenerateCandidateDirs(existing: set<int>, q: Query) returns (hours: seq<int>)
    requires !IsZero(q.startTime) && !IsZero(q.endTime)
    ensures CandidateDirs(hours, existing, q)
  {
    hours := [];
    var t := HourOf(q.startTime.nano) * HOUR;
    ghost var h := HourOf(q.startTime.nano);
    while t <= q.endTime.nano
      invariant t == h * HOUR && h >= HourOf(q.startTime.nano)
      invariant HoursDescend(hours) && forall k :: 0 <= k < |hours| ==> hours[k] < h
      invariant forall x :: x in hours <==> x in existing && HourOf(q.startTime.nano) <= x < h
      invariant h * HOUR <= q.endTime.nano + HOUR || h == HourOf(q.startTime.nano)
      decreases q.endTime.nano - t
    {
      if t / HOUR in existing {
        hours := [t / HOUR] + hours;
      }
      t := t + HOUR;
      h := h + 1;
    }
  }

  /** `collectCandidateDirs`. */
  method CollectCandidateDirs(existing: set<int>, q: Query) returns (hours: seq<int>)
    ensures CandidateDirs(hours, existing, q) && Candidates(hours, existing, q)
  {
    if !IsZero(q.startTime) && !IsZero(q.endTime) {
      hours := GenerateCandidateDirs(existing, q);
    } else if !IsZero(q.startTime) || !IsZero(q.endTime) {
      hours := WalkAndFilterDirs(existing, q);
    } else {
      hours := WalkAllDirs(existing);
    }
    CandidatesOf(hours, existing, q);
  }

  // ---------------------------------------------------------------- scanning

  /** Collects matches of one block, last entry first. */
  method ScanBlock(entries: seq<LogEntry>, q: Query, limit: nat, found: seq<LogEntry>) returns (matched: seq<LogEntry>)
    requires |found| <= limit
    ensures matched == Extend(found, Reverse(entries), q, limit)
  {
    matched := found;
    var j := |entries|;
    assert entries[j..] == [];
    assert found + [] == found;
    while j > 0
      invariant 0 <= j <= |entries| && matched == Extend(found, Reverse(entries[j..]), q, limit)
    {
      ReverseConcat(entries[..j], entries[j..]);
      assert entries == entries[..j] + entries[j..];
      if |matched| >= limit {
        ExtendFull(matched, Reverse(entries[..j]), q, limit);
        ExtendConcat(found, Reverse(entries[j..]), Reverse(entries[..j]), q, limit);
        return;
      }
      j := j - 1;
      var e := entries[j];
      assert entries[j..] == [e] + entries[j + 1..];
      ExtendConcat(found, Reverse(entries[j + 1..]), [e], q, limit);
      assert Reverse(entries[j..]) == Reverse(entries[j + 1..]) + [e];
      FilterOne(e, q);
      if Matches(e, q) {
        matched := matched + [e];
      } else {
        assert matched + [] == matched;
      }
    }
    assert entries[0..] == entries;
  }

  lemma FilterOne(e: LogEntry, q: Query)
    ensures Filter([e], q) == if Matches(e, q) then [e] else []
  {
    assert [e][1..] == [];
  }

  /** The entry's time can be indexed and lies in the partition's UTC hour. */
  predicate InPlace(e: LogEntry, hour: int) {
    Indexable(e.timestamp) && HourOf(e.timestamp.nano) == hour
  }

  /** A header describes the block it names, and the block's entries belong to the hour. */
  predicate Sound(p: Partition, hour: int, h: BlockHeader) {
    h.fileName in p.files ==> forall e :: e in p.files[h.fileName] ==> CoversEntry(h, e) && InPlace(e, hour)
  }

  /** Both bounds of the query compare faithfully with indexed times. */
  predicate ComparableBounds(q: Query) {
    ComparableBound(q.startTime) && ComparableBound(q.endTime)
  }

  /** What was found before, and matches among `entries`. */
  predicate GrownFrom(found: seq<LogEntry>, matched: seq<LogEntry>, entries: seq<LogEntry>, q: Query) {
    forall e :: e in matched ==> e in found || (e in entries && Matches(e, q))
  }

  lemma {:induction false} FilterMembers(s: seq<LogEntry>, q: Query)
    ensures forall e :: e in Filter(s, q) <==> e in s && Matches(e, q)
  {
    if s != [] { FilterMembers(s[1..], q); }
  }

  lemma BlockGrows(p: Partition, headers: seq<BlockHeader>, h: BlockHeader, before: seq<LogEntry>, found: seq<LogEntry>, q: Query, limit: nat)
    requires h in headers && GrownFrom(before, found, PartitionEntries(p, headers), q)
    ensures GrownFrom(before, Extend(found, Reverse(BlockEntries(p, h)), q, limit), PartitionEntries(p, headers), q)
  {
    var block := Reverse(BlockEntries(p, h));
    FilterMembers(block, q);
    forall e | e in block ensures e in PartitionEntries(p, headers) {
      ReverseMembers(BlockEntries(p, h), e);
      EntriesHold(p, headers, h, e);
    }
  }

  /** Collects matches of one partition, last block first, skipping blocks by their headers. */
  method ScanPartition(p: Partition, hour: int, headers: seq<BlockHeader>, q: Query, limit: nat, found: seq<LogEntry>)
    returns (matched: seq<LogEntry>)
    requires |found| <= limit && forall h :: h in headers ==> Sound(p, hour, h)
    ensures |matched| <= limit && GrownFrom(found, matched, PartitionEntries(p, headers), q)
    ensures ComparableBounds(q) ==> matched == Extend(found, Reverse(PartitionEntries(p, headers)), q, limit)
  {
    matched := found;
    var i := |headers|;
    assert headers[i..] == [];
    assert found + [] == found;
    while i > 0
      invariant 0 <= i <= |headers| && |matched| <= limit && GrownFrom(found, matched, PartitionEntries(p, headers), q)
      invariant ComparableBounds(q) ==> matched == Extend(found, Reverse(PartitionEntries(p, headers[i..])), q, limit)
    {
      if |matched| >= limit {
        if ComparableBounds(q) { RestOfPartition(p, headers, i, found, q, limit); }
        return;
      }
      i := i - 1;
      var header := headers[i];
      assert Sound(p, hour, header);
      BlockInFront(p, headers, i, found, q, limit);
      if BlockMatches(header, q) {
        if header.fileName in p.files {
          BlockGrows(p, headers, header, found, matched, q, limit);
          matched := ScanBlock(p.files[header.fileName], q, limit, matched);
        } else {
          ExtendNone(matched, [], q, limit);
        }
      } else if ComparableBounds(q) {
        forall e | e in Reverse(BlockEntries(p, header)) ensures !Matches(e, q) {
          ReverseMembers(BlockEntries(p, header), e);
          if Matches(e, q) { BlockPruningSound(header, e, q); }
        }
        ExtendNone(matched, Reverse(BlockEntries(p, header)), q, limit);
      }
    }
    assert headers[0..] == headers;
  }

  lemma BlockInFront(p: Partition, headers: seq<BlockHeader>, i: nat, found: seq<LogEntry>, q: Query, limit: nat)
    requires i < |headers|
    ensures Extend(found, Reverse(PartitionEntries(p, headers[i..])), q, limit)
         == Extend(Extend(found, Reverse(PartitionEntries(p, headers[i + 1..])), q, limit),
                   Reverse(BlockEntries(p, headers[i])), q, limit)
  {
    assert headers[i..][1..] == headers[i + 1..];
    ReverseConcat(BlockEntries(p, headers[i]), PartitionEntries(p, headers[i + 1..]));
    ExtendConcat(found, Reverse(PartitionEntries(p, headers[i + 1..])), Reverse(BlockEntries(p, headers[i])), q, limit);
  }

  lemma RestOfPartition(p: Partition, headers: seq<BlockHeader>, i: nat, found: seq<LogEntry>, q: Query, limit: nat)
    requires i <= |headers| && |Extend(found, Reverse(PartitionEntries(p, headers[i..])), q, limit)| >= limit
    ensures Extend(found, Reverse(PartitionEntries(p, headers)), q, limit)
         == Extend(found, Reverse(PartitionEntries(p, headers[i..])), q, limit)
  {
    var a, b := PartitionEntries(p, headers[..i]), PartitionEntries(p, headers[i..]);
    assert headers == headers[..i] + headers[i..];
    PartitionConcat(p, headers[..i], headers[i..]);
    ReverseConcat(a, b);
    ExtendConcat(found, Reverse(b), Reverse(a), q, limit);
    ExtendFull(Extend(found, Reverse(b), q, limit), Reverse(a), q, limit);
  }
}
