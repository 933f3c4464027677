/** When the first matches of a store's scan are its newest: what that takes of the stored blocks. */
module NewestAnswers {
  import opened GoText
  import opened LogEntries
  import opened Blocks
  import opened StoreScan
  import opened StorePartitions
  import opened Router
  import C = Coordinator

  predicate OldestFirst(s: seq<LogEntry>) {
    forall i, j :: 0 <= i < j < |s| ==> s[i].timestamp.nano <= s[j].timestamp.nano
  }

  /** No entry of `a` is younger than any of `b`. */
  predicate NotAfter(a: seq<LogEntry>, b: seq<LogEntry>) {
    forall d, e :: d in a && e in b ==> d.timestamp.nano <= e.timestamp.nano
  }

  /** Entries inside a block are in time order, and no block holds an entry younger than one in a later block. */
  predicate BlocksInOrder(p: Partition, headers: seq<BlockHeader>) {
    && (forall i :: 0 <= i < |headers| ==> OldestFirst(BlockEntries(p, headers[i])))
    && (forall i, j :: 0 <= i < j < |headers| ==> NotAfter(BlockEntries(p, headers[i]), BlockEntries(p, headers[j])))
  }

  // ---------------------------------------------------------------- one partition

  lemma OldestFirstConcat(a: seq<LogEntry>, b: seq<LogEntry>)
    ensures OldestFirst(a + b) <==> OldestFirst(a) && OldestFirst(b) && NotAfter(a, b)
  {
    var s := a + b;
    if OldestFirst(s) {
      forall i, j | 0 <= i < j < |a| ensures a[i].timestamp.nano <= a[j].timestamp.nano { assert s[i] == a[i] && s[j] == a[j]; }
      forall i, j | 0 <= i < j < |b| ensures b[i].timestamp.nano <= b[j].timestamp.nano {
        assert s[|a| + i] == b[i] && s[|a| + j] == b[j];
      }
      forall d, e | d in a && e in b ensures d.timestamp.nano <= e.timestamp.nano {
        var i :| 0 <= i < |a| && a[i] == d;
        var j :| 0 <= j < |b| && b[j] == e;
        assert s[i] == d && s[|a| + j] == e;
      }
    }
    if OldestFirst(a) && OldestFirst(b) && NotAfter(a, b) {
      forall i, j | 0 <= i < j < |s| ensures s[i].timestamp.nano <= s[j].timestamp.nano {
        if i < |a| <= j { assert s[i] in a && s[j] in b; }
      }
    }
  }

  /** The front block against all the others. */
  lemma FrontInOrder(p: Partition, headers: seq<BlockHeader>)
    requires headers != []
    ensures BlocksInOrder(p, headers) <==>
      && OldestFirst(BlockEntries(p, headers[0])) && BlocksInOrder(p, headers[1..])
      && NotAfter(BlockEntries(p, headers[0]), PartitionEntries(p, headers[1..]))
  {
    var front, rest := BlockEntries(p, headers[0]), headers[1..];
    if BlocksInOrder(p, headers) {
      forall d, e | d in front && e in PartitionEntries(p, rest) ensures d.timestamp.nano <= e.timestamp.nano {
        var h := PartitionMember(p, rest, e);
        var j :| 0 <= j < |rest| && rest[j] == h;
        assert NotAfter(BlockEntries(p, headers[0]), BlockEntries(p, headers[j + 1]));
      }
      assert BlocksInOrder(p, rest) by {
        forall i, j | 0 <= i < j < |rest| ensures NotAfter(BlockEntries(p, rest[i]), BlockEntries(p, rest[j])) {
          assert NotAfter(BlockEntries(p, headers[i + 1]), BlockEntries(p, headers[j + 1]));
        }
      }
    }
    if OldestFirst(front) && BlocksInOrder(p, rest) && NotAfter(front, PartitionEntries(p, rest)) {
      RestInOrder(p, headers);
    }
  }

  lemma RestInOrder(p: Partition, headers: seq<BlockHeader>)
    requires headers != [] && OldestFirst(BlockEntries(p, headers[0])) && BlocksInOrder(p, headers[1..])
    requires NotAfter(BlockEntries(p, headers[0]), PartitionEntries(p, headers[1..]))
    ensures BlocksInOrder(p, headers)
  {
    var rest := headers[1..];
    forall i | 0 <= i < |headers| ensures OldestFirst(BlockEntries(p, headers[i])) {
      if i > 0 { assert headers[i] == rest[i - 1]; }
    }
    forall i, j | 0 <= i < j < |headers| ensures NotAfter(BlockEntries(p, headers[i]), BlockEntries(p, headers[j])) {
      assert headers[j] == rest[j - 1];
      if i > 0 {
        assert NotAfter(BlockEntries(p, rest[i - 1]), BlockEntries(p, rest[j - 1]));
      } else {
        forall d, e | d in BlockEntries(p, headers[i]) && e in BlockEntries(p, headers[j]) ensures d.timestamp.nano <= e.timestamp.nano {
          EntriesHold(p, rest, rest[j - 1], e);
        }
      }
    }
  }

  lemma {:induction false} PartitionInOrderIff(p: Partition, headers: seq<BlockHeader>)
    ensures OldestFirst(PartitionEntries(p, headers)) <==> BlocksInOrder(p, headers)
  {
    if headers != [] {
      PartitionInOrderIff(p, headers[1..]);
      OldestFirstConcat(BlockEntries(p, headers[0]), PartitionEntries(p, headers[1..]));
      FrontInOrder(p, headers);
    }
  }

  /** Headers whose time ranges follow one another keep their blocks apart. */
  lemma RangesInOrder(p: Partition, headers: seq<BlockHeader>)
    requires forall i :: 0 <= i < |headers| ==> OldestFirst(BlockEntries(p, headers[i]))
    requires forall i, e :: 0 <= i < |headers| && e in BlockEntries(p, headers[i]) ==> CoversEntry(headers[i], e)
    requires forall i, j :: 0 <= i < j < |headers| ==> headers[i].maxNano <= headers[j].minNano
    ensures BlocksInOrder(p, headers)
  {
    forall i, j | 0 <= i < j < |headers| ensures NotAfter(BlockEntries(p, headers[i]), BlockEntries(p, headers[j])) {
      assert headers[i].maxNano <= headers[j].minNano;
    }
  }

  // ---------------------------------------------------------------- the whole scan

  lemma {:induction false} ReverseAt<T>(s: seq<T>, i: nat)
    requires i < |s|
    ensures Reverse(s)[i] == s[|s| - 1 - i]
  {
    if i < |s| - 1 { ReverseAt(s[1..], i); }
  }

  lemma ReversedInOrderIff(s: seq<LogEntry>)
    ensures C.NewestFirst(Reverse(s)) <==> OldestFirst(s)
  {
    var r, n := Reverse(s), |s|;
    forall i | 0 <= i < n ensures r[i] == s[n - 1 - i] { ReverseAt(s, i); }
    if C.NewestFirst(r) {
      forall i, j | 0 <= i < j < n ensures s[i].timestamp.nano <= s[j].timestamp.nano {
        assert r[n - 1 - j].timestamp.nano >= r[n - 1 - i].timestamp.nano;
      }
    }
  }

  lemma NewestFirstConcat(a: seq<LogEntry>, b: seq<LogEntry>)
    requires forall d, e :: d in a && e in b ==> d.timestamp.nano >= e.timestamp.nano
    ensures C.NewestFirst(a + b) <==> C.NewestFirst(a) && C.NewestFirst(b)
  {
    var s := a + b;
    if C.NewestFirst(s) {
      forall i, j | 0 <= i < j < |a| ensures a[i].timestamp.nano >= a[j].timestamp.nano { assert s[i] == a[i] && s[j] == a[j]; }
      forall i, j | 0 <= i < j < |b| ensures b[i].timestamp.nano >= b[j].timestamp.nano {
        assert s[|a| + i] == b[i] && s[|a| + j] == b[j];
      }
    }
    if C.NewestFirst(a) && C.NewestFirst(b) {
      forall i, j | 0 <= i < j < |s| ensures s[i].timestamp.nano >= s[j].timestamp.nano {
        if i < |a| <= j { assert s[i] in a && s[j] in b; }
      }
    }
  }

  /** Every entry that the store sees lies in the UTC hour of its partition. */
  ghost predicate AllInPlace(disk: Disk, view: map<int, seq<BlockHeader>>) {
    forall hour, e :: hour in disk && hour in view && e in PartitionEntries(disk[hour], view[hour]) ==> InPlace(e, hour)
  }

  lemma {:induction false} ScanIn(disk: Disk, view: map<int, seq<BlockHeader>>, hours: seq<int>, e: LogEntry) returns (hour: int)
    requires forall i :: 0 <= i < |hours| ==> hours[i] in disk && hours[i] in view
    requires e in Scan(disk, view, hours)
    ensures hour in hours && hour in disk && hour in view && e in PartitionEntries(disk[hour], view[hour])
  {
    ReverseMembers(PartitionEntries(disk[hours[0]], view[hours[0]]), e);
    if e in PartitionEntries(disk[hours[0]], view[hours[0]]) { return hours[0]; }
    hour := ScanIn(disk, view, hours[1..], e);
  }

  lemma HourOrder(d: LogEntry, e: LogEntry, later: int, earlier: int)
    requires InPlace(d, later) && InPlace(e, earlier) && earlier < later
    ensures e.timestamp.nano <= d.timestamp.nano
  {
    HourBounds(d.timestamp.nano);
    HourBounds(e.timestamp.nano);
  }

  lemma {:induction false} ScanInOrderIff(disk: Disk, view: map<int, seq<BlockHeader>>, hours: seq<int>)
    requires (forall i :: 0 <= i < |hours| ==> hours[i] in disk && hours[i] in view) && HoursDescend(hours) && AllInPlace(disk, view)
    ensures C.NewestFirst(Scan(disk, view, hours)) <==>
      forall i :: 0 <= i < |hours| ==> BlocksInOrder(disk[hours[i]], view[hours[i]])
  {
    if hours != [] {
      var hour, rest := hours[0], hours[1..];
      var entries := PartitionEntries(disk[hour], view[hour]);
      var a, b := Reverse(entries), Scan(disk, view, rest);
      ScanInOrderIff(disk, view, rest);
      forall d, e | d in a && e in b ensures d.timestamp.nano >= e.timestamp.nano {
        ReverseMembers(entries, d);
        var other := ScanIn(disk, view, rest, e);
        HourOrder(d, e, hour, other);
      }
      NewestFirstConcat(a, b);
      ReversedInOrderIff(entries);
      PartitionInOrderIff(disk[hour], view[hour]);
      FrontAndRest(disk, view, hours);
    }
  }

  lemma FrontAndRest(disk: Disk, view: map<int, seq<BlockHeader>>, hours: seq<int>)
    requires (forall i :: 0 <= i < |hours| ==> hours[i] in disk && hours[i] in view) && hours != []
    ensures (forall i :: 0 <= i < |hours| ==> BlocksInOrder(disk[hours[i]], view[hours[i]]))
       <==> BlocksInOrder(disk[hours[0]], view[hours[0]])
            && forall i :: 0 <= i < |hours[1..]| ==> BlocksInOrder(disk[hours[1..][i]], view[hours[1..][i]])
  {
    assert forall i :: 0 < i < |hours| ==> hours[1..][i - 1] == hours[i];
  }

  // ---------------------------------------------------------------- every query

  const ANY: Query := Query([], [], [], ZERO_TIME, ZERO_TIME, [], 1)

  lemma {:induction false} FilterAny(s: seq<LogEntry>)
    ensures Filter(s, ANY) == s
  {
    if s != [] {
      FilterAny(s[1..]);
      assert s == [s[0]] + s[1..];
    }
  }

  lemma {:induction false} FilterInOrder(s: seq<LogEntry>, q: Query)
    requires C.NewestFirst(s)
    ensures C.NewestFirst(Filter(s, q))
  {
    if s != [] {
      var rest := Filter(s[1..], q);
      FilterInOrder(s[1..], q);
      FilterMembers(s[1..], q);
      forall i | 0 <= i < |rest| ensures s[0].timestamp.nano >= rest[i].timestamp.nano {
        assert rest[i] in rest && rest[i] in s[1..];
      }
    }
  }

  /** The first `limit` matches of the scan are its newest. */
  ghost predicate FirstAreNewest(scan: seq<LogEntry>, q: Query, limit: nat) {
    C.NewestOf(Take(Filter(scan, q), limit), C.EntrySet(Filter(scan, q)), limit)
  }

  lemma InOrderNewest(scan: seq<LogEntry>, q: Query, limit: nat)
    requires C.NewestFirst(scan) && C.IdsDistinct(scan)
    ensures FirstAreNewest(scan, q, limit)
  {
    FilterInOrder(scan, q);
    C.FilterDistinct(scan, q);
    C.TakeIsNewest(Filter(scan, q), limit);
  }

  /** For every query and every limit the first matches of the scan are the newest if and only if, in every
      partition, blocks follow one another in time and hold their entries in time order. */
  lemma FirstAreNewestIff(disk: Disk, view: map<int, seq<BlockHeader>>, hours: seq<int>)
    requires (forall i :: 0 <= i < |hours| ==> hours[i] in disk && hours[i] in view) && HoursDescend(hours) && AllInPlace(disk, view)
    requires C.IdsDistinct(Scan(disk, view, hours))
    ensures (forall q, limit: nat :: FirstAreNewest(Scan(disk, view, hours), q, limit))
       <==> forall i :: 0 <= i < |hours| ==> BlocksInOrder(disk[hours[i]], view[hours[i]])
  {
    var scan := Scan(disk, view, hours);
    ScanInOrderIff(disk, view, hours);
    if C.NewestFirst(scan) {
      forall q, limit: nat ensures FirstAreNewest(scan, q, limit) { InOrderNewest(scan, q, limit); }
    } else {
      FilterAny(scan);
      var limit := C.OlderShown(scan);
      assert !FirstAreNewest(scan, ANY, limit);
    }
  }

  // ---------------------------------------------------------------- a cluster of stores

  /** What one node stores and sees, its hours newest first. */
  datatype Site = Site(disk: Disk, view: map<int, seq<BlockHeader>>, hours: seq<int>)

  predicate Whole(n: Site) {
    (forall i :: 0 <= i < |n.hours| ==> n.hours[i] in n.disk && n.hours[i] in n.view) && HoursDescend(n.hours)
  }

  /** Distinct ids, entries in their own hours, and blocks in time order. */
  ghost predicate TimeOrdered(n: Site)
    requires Whole(n)
  {
    && AllInPlace(n.disk, n.view) && C.IdsDistinct(Scan(n.disk, n.view, n.hours))
    && forall i :: 0 <= i < |n.hours| ==> BlocksInOrder(n.disk[n.hours[i]], n.view[n.hours[i]])
  }

  /** The node holds what the router sent it and answers `q` as a store does. */
  ghost predicate Serves(n: Site, reply: C.Reply, r: Routing, placed: set<LogEntry>, q: Query, id: Str)
    requires Whole(n) && q.limit >= 0
  {
    && (forall e :: e in Scan(n.disk, n.view, n.hours) <==> e in placed && Destination(r, e) == id)
    && reply == C.Events(NaiveQuery(n.disk, n.view, n.hours, q))
  }

  lemma ServesNewest(n: Site, reply: C.Reply, r: Routing, placed: set<LogEntry>, q: Query, id: Str)
    requires Whole(n) && q.limit >= 0 && TimeOrdered(n) && Serves(n, reply, r, placed, q, id)
    ensures reply.Events? && C.NewestOf(reply.events, C.Held(r, placed, q, id), q.limit)
  {
    var scan := Scan(n.disk, n.view, n.hours);
    ScanInOrderIff(n.disk, n.view, n.hours);
    InOrderNewest(scan, q, q.limit);
    FilterMembers(scan, q);
    var found, held := C.EntrySet(Filter(scan, q)), C.Held(r, placed, q, id);
    forall e ensures e in found <==> e in held {
      assert e in found <==> e in scan && Matches(e, q);
    }
    assert found == held;
  }

  /** A cluster whose nodes are stores in time order answers like one store: a placed match, spelled as asked,
      is in the merged answer unless that is full of entries at least as new. */
  lemma ClusterOfStores(sites: Str -> Site, r: Routing, net: C.Network, placed: set<LogEntry>, q: Query, order: seq<Str>,
                        result: seq<LogEntry>, e: LogEntry)
    requires q.limit >= 0 && forall id :: Whole(sites(id)) && TimeOrdered(sites(id)) && Serves(sites(id), net(id, q), r, placed, q, id)
    requires r.ring != [] && r.key == DefaultPartitionKey && C.Scattered(r, q, order) && C.IdsIdentify(placed)
    requires C.Merged(result, C.Replies(net, q, order), q.limit)
    requires e in placed && Matches(e, q) && C.Spelled(q, e)
    ensures e in result || (|result| == q.limit && C.NoOlder(result, e))
  {
    forall id ensures net(id, q).Events? && C.NewestOf(net(id, q).events, C.Held(r, placed, q, id), q.limit) {
      ServesNewest(sites(id), net(id, q), r, placed, q, id);
    }
    C.ClusterAnswersNewest(r, net, placed, q, order, result, e);
  }

  /** One block, the younger entry stored first: asked for one entry, the store returns the older one. */
  lemma OutOfOrderAnswersOld(d: LogEntry, e: LogEntry, header: BlockHeader)
    requires d.timestamp.nano > e.timestamp.nano && header.fileName == 0
    ensures var p := Partition([header], [], map[0 := [d, e]]);
      NaiveQuery(map[7 := p], map[7 := [header]], [7], ANY) == [e] && !BlocksInOrder(p, [header])
  {
    var p := Partition([header], [], map[0 := [d, e]]);
    var disk, view := map[7 := p], map[7 := [header]];
    var block := [d, e];
    assert BlockEntries(p, header) == block;
    assert [header][1..] == [] && PartitionEntries(p, []) == [];
    assert PartitionEntries(p, [header]) == block + [] == block;
    assert block[1..] == [e] && [e][1..] == [] && Reverse(block) == [e, d];
    assert [7][1..] == [] && Scan(disk, view, []) == [];
    assert Scan(disk, view, [7]) == [e, d] + [] == [e, d];
    FilterAny([e, d]);
    assert block[0].timestamp.nano > block[1].timestamp.nano;
  }
}
