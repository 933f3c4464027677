/** The duplicate filter over whole histories: it is exactly an LRU stack with a time window. */
module DedupHistory {
  import opened GoText
  import opened Dedup

  /** A non-empty id offered to the filter at a moment. */
  datatype Offer = Offer(id: Str, at: int)

  datatype Limits = Limits(window: int, capacity: nat)

  predicate ClockForward(h: seq<Offer>) {
    forall i, j :: 0 <= i < j < |h| ==> h[i].at <= h[j].at
  }

  predicate NotBefore(h: seq<Offer>, now: int) {
    h != [] ==> h[|h| - 1].at <= now
  }

  function OfferIds(h: seq<Offer>): set<Str> {
    set i | 0 <= i < |h| :: h[i].id
  }

  /** The list after a history of calls. */
  function Cached(h: seq<Offer>, lim: Limits): seq<DedupEntry>
    requires lim.capacity > 0
  {
    if h == [] then []
    else
      var o := h[|h| - 1];
      Touch(Cached(h[..|h| - 1], lim), o.id, o.at, lim.window, lim.capacity)
  }

  /** All ids ever offered, most recently offered first, each with its last time: no limits at all. */
  function Recency(h: seq<Offer>): seq<DedupEntry> {
    if h == [] then []
    else
      var o := h[|h| - 1];
      [DedupEntry(o.id, o.at)] + Without(Recency(h[..|h| - 1]), o.id)
  }

  /** The index of the last offer of `id`, or -1. */
  function LastOffer(h: seq<Offer>, id: Str): (j: int)
    ensures -1 <= j < |h|
    ensures j >= 0 ==> h[j].id == id
    ensures forall i :: j < i < |h| ==> h[i].id != id
  {
    if h == [] then -1 else if h[|h| - 1].id == id then |h| - 1 else LastOffer(h[..|h| - 1], id)
  }

  /** Within the window, and fewer than `capacity` other ids were offered since. */
  predicate Recent(h: seq<Offer>, id: Str, now: int, lim: Limits) {
    var j := LastOffer(h, id);
    j >= 0 && now - h[j].at <= lim.window && |OfferIds(h[j + 1..])| < lim.capacity
  }

  // ---------------------------------------------------------------- the unlimited stack

  lemma {:induction false} RecencyMembers(h: seq<Offer>, e: DedupEntry)
    requires e in Recency(h)
    ensures e.id in OfferIds(h) && (h != [] ==> ClockForward(h) ==> e.seen <= h[|h| - 1].at)
  {
    var init, o := h[..|h| - 1], h[|h| - 1];
    if e != DedupEntry(o.id, o.at) {
      WithoutMembers(Recency(init), o.id, e);
      RecencyMembers(init, e);
    }
  }

  lemma {:induction false} RecencyOrdered(h: seq<Offer>)
    requires ClockForward(h)
    ensures Distinct(Recency(h)) && ByRecency(Recency(h))
  {
    if h != [] {
      var init, o := h[..|h| - 1], h[|h| - 1];
      RecencyOrdered(init);
      WithoutKeeps(Recency(init), o.id);
      var rest := Without(Recency(init), o.id);
      forall i | 0 <= i < |rest| ensures rest[i].id != o.id && rest[i].seen <= o.at {
        WithoutMembers(Recency(init), o.id, rest[i]);
        RecencyMembers(init, rest[i]);
      }
    }
  }

  lemma {:induction false} WithoutIds(s: seq<DedupEntry>, id: Str)
    ensures Ids(Without(s, id)) == Ids(s) - {id}
  {
    forall x ensures x in Ids(Without(s, id)) <==> x in Ids(s) && x != id {
      if x in Ids(Without(s, id)) {
        var i :| 0 <= i < |Without(s, id)| && Without(s, id)[i].id == x;
        WithoutMembers(s, id, Without(s, id)[i]);
      }
      if x in Ids(s) && x != id {
        var i :| 0 <= i < |s| && s[i].id == x;
        WithoutMembers(s, id, s[i]);
      }
    }
  }

  /** Offering another id puts it in front and takes it out of where it was. */
  lemma StackStep(a: seq<DedupEntry>, e: DedupEntry, b: seq<DedupEntry>, o: DedupEntry)
    requires e.id != o.id
    ensures [o] + Without(a + [e] + b, o.id) == ([o] + Without(a, o.id)) + [e] + Without(b, o.id)
  {
    WithoutConcat(a + [e], b, o.id);
    WithoutConcat(a, [e], o.id);
    WithoutAbsent([e], o.id);
    var x, y := Without(a, o.id), Without(b, o.id);
    assert Without(a + [e] + b, o.id) == x + [e] + y;
    assert [o] + (x + [e] + y) == ([o] + x) + [e] + y;
  }

  lemma StackIds(a: seq<DedupEntry>, o: DedupEntry)
    ensures Ids([o] + Without(a, o.id)) == Ids(a) + {o.id}
  {
    WithoutIds(a, o.id);
    FrontIds(o, Without(a, o.id));
  }

  /** What stands in front of an id in the stack is exactly the set of ids offered since. */
  lemma {:induction false} StackPosition(h: seq<Offer>, id: Str) returns (a: seq<DedupEntry>, b: seq<DedupEntry>)
    requires LastOffer(h, id) >= 0
    ensures var j := LastOffer(h, id);
      Recency(h) == a + [DedupEntry(id, h[j].at)] + b && Ids(a) == OfferIds(h[j + 1..])
  {
    var init, o, j := h[..|h| - 1], h[|h| - 1], LastOffer(h, id);
    if o.id == id {
      a, b := [], Without(Recency(init), o.id);
      assert OfferIds(h[j + 1..]) == {};
    } else {
      var a', b' := StackPosition(init, id);
      var top := DedupEntry(o.id, o.at);
      a, b := [top] + Without(a', o.id), Without(b', o.id);
      StackStep(a', DedupEntry(id, h[j].at), b', top);
      StackIds(a', top);
      OffersSince(h, j);
    }
  }

  lemma OffersSince(h: seq<Offer>, j: nat)
    requires j < |h| - 1
    ensures OfferIds(h[j + 1..]) == OfferIds(h[..|h| - 1][j + 1..]) + {h[|h| - 1].id}
  {
    assert h[j + 1..] == h[..|h| - 1][j + 1..] + [h[|h| - 1]];
    OfferIdsAppend(h[..|h| - 1][j + 1..], h[|h| - 1]);
  }

  lemma FrontIds(e: DedupEntry, s: seq<DedupEntry>)
    ensures Ids([e] + s) == {e.id} + Ids(s)
  {
    var r := [e] + s;
    assert r[0] == e;
    forall x | x in Ids(s) ensures x in Ids(r) {
      var i :| 0 <= i < |s| && s[i].id == x;
      assert r[i + 1].id == x;
    }
  }

  lemma OfferIdsAppend(h: seq<Offer>, o: Offer)
    ensures OfferIds(h + [o]) == OfferIds(h) + {o.id}
  {
    var r := h + [o];
    assert r[|h|] == o;
    forall x | x in OfferIds(h) ensures x in OfferIds(r) {
      var i :| 0 <= i < |h| && h[i].id == x;
      assert r[i].id == x;
    }
  }

  // ---------------------------------------------------------------- the limited list

  /** The list is a prefix of the stack, cut at the capacity or where the window has passed. */
  predicate Tracks(order: seq<DedupEntry>, h: seq<Offer>, lim: Limits) {
    var r := Recency(h);
    && |order| <= lim.capacity && |order| <= |r| && order == r[..|order|]
    && (h != [] && |order| < |r| && |order| < lim.capacity ==> h[|h| - 1].at - r[|order|].seen > lim.window)
  }

  lemma WithoutPrefix(r: seq<DedupEntry>, k: nat, id: Str)
    requires k <= |r|
    ensures var p := Without(r[..k], id); |p| <= k && p <= Without(r, id)
    ensures id !in Ids(r[..k]) ==> |Without(r[..k], id)| == k
  {
    assert r == r[..k] + r[k..];
    WithoutConcat(r[..k], r[k..], id);
    WithoutLength(r[..k], id);
    if id !in Ids(r[..k]) { WithoutAbsent(r[..k], id); }
  }

  /** The list's successor is a prefix of the stack's successor. */
  lemma TouchPrefix(order: seq<DedupEntry>, r: seq<DedupEntry>, o: Offer, lim: Limits)
    requires lim.capacity > 0 && |order| <= |r| && order == r[..|order|]
    ensures var t := Touch(order, o.id, o.at, lim.window, lim.capacity);
      var r' := [DedupEntry(o.id, o.at)] + Without(r, o.id);
      |t| <= |r'| && t == r'[..|t|]
  {
    WithoutPrefix(r, |order|, o.id);
  }

  lemma TouchBounded(order: seq<DedupEntry>, o: Offer, lim: Limits)
    requires lim.capacity > 0 && |order| <= lim.capacity
    ensures |Touch(order, o.id, o.at, lim.window, lim.capacity)| <= lim.capacity
  {
    if Hit(order, o.id, o.at, lim.window) {
      var k :| 0 <= k < |order| && order[k].id == o.id;
      WithoutShrinks(order, order[k]);
    }
  }

  /** In a newest-first list, an expired entry is followed by expired entries only. */
  lemma TailExpired(r: seq<DedupEntry>, k: nat, m: nat, now: int, window: int)
    requires ByRecency(r) && k <= m < |r| && now - r[k].seen > window
    ensures now - r[m].seen > window
  {
    if k < m { assert r[k].seen >= r[m].seen; }
  }

  lemma {:induction false} CachedTracks(h: seq<Offer>, lim: Limits)
    requires lim.capacity > 0 && ClockForward(h)
    ensures Tracks(Cached(h, lim), h, lim)
  {
    if h != [] {
      var init, o := h[..|h| - 1], h[|h| - 1];
      CachedTracks(init, lim);
      RecencyOrdered(init);
      var order, r := Cached(init, lim), Recency(init);
      TouchPrefix(order, r, o, lim);
      TouchBounded(order, o, lim);
      TouchCut(order, r, init, o, lim);
    }
  }

  /** Where the new list stops short of the capacity, the stack continues with an expired entry. */
  lemma TouchCut(order: seq<DedupEntry>, r: seq<DedupEntry>, init: seq<Offer>, o: Offer, lim: Limits)
    requires lim.capacity > 0 && r == Recency(init) && Tracks(order, init, lim) && NotBefore(init, o.at)
    requires Distinct(r) && ByRecency(r)
    ensures var t := Touch(order, o.id, o.at, lim.window, lim.capacity);
      var r' := [DedupEntry(o.id, o.at)] + Without(r, o.id);
      |t| < |r'| && |t| < lim.capacity ==> o.at - r'[|t|].seen > lim.window
  {
    var k := |order|;
    var t := Touch(order, o.id, o.at, lim.window, lim.capacity);
    var r' := [DedupEntry(o.id, o.at)] + Without(r, o.id);
    if |t| < |r'| && |t| < lim.capacity {
      var n := |t| - 1;
      assert r'[|t|] == Without(r, o.id)[n];
      if n < |Without(order, o.id)| {
        WithoutSplit(r, k, o.id, n);
        NotCutByCapacity(order, o, lim);
      } else {
        var m := BeyondMember(r, k, o.id, n);
        BeyondExpired(order, r, init, o, lim, m);
      }
    }
  }

  /** The stack without an id, read from the front part or from the rest. */
  lemma WithoutSplit(r: seq<DedupEntry>, k: nat, id: Str, n: nat)
    requires k <= |r| && n < |Without(r, id)|
    ensures |Without(r, id)| == |Without(r[..k], id)| + |Without(r[k..], id)|
    ensures var front := |Without(r[..k], id)|;
      Without(r, id)[n] == if n < front then Without(r[..k], id)[n] else Without(r[k..], id)[n - front]
  {
    assert r == r[..k] + r[k..];
    WithoutConcat(r[..k], r[k..], id);
  }

  lemma BeyondMember(r: seq<DedupEntry>, k: nat, id: Str, n: nat) returns (m: nat)
    requires k <= |r| && |Without(r[..k], id)| <= n < |Without(r, id)|
    ensures k <= m < |r| && r[m] == Without(r, id)[n] && r[m].id != id
  {
    WithoutSplit(r, k, id, n);
    var e := Without(r, id)[n];
    assert e in Without(r[k..], id);
    WithoutMembers(r[k..], id, e);
    var i :| 0 <= i < |r[k..]| && r[k..][i] == e;
    m := k + i;
  }

  /** A successor shorter than the capacity was cut, if at all, by the window. */
  lemma NotCutByCapacity(order: seq<DedupEntry>, o: Offer, lim: Limits)
    requires lim.capacity > 0
    requires |Touch(order, o.id, o.at, lim.window, lim.capacity)| < lim.capacity
    ensures var t := Touch(order, o.id, o.at, lim.window, lim.capacity);
      var rest := Without(order, o.id);
      |t| <= |rest| ==> o.at - rest[|t| - 1].seen > lim.window
  {
  }

  /** If the successor is shorter than the capacity, what the list did not hold before had expired. */
  lemma BeyondExpired(order: seq<DedupEntry>, r: seq<DedupEntry>, init: seq<Offer>, o: Offer, lim: Limits, m: nat)
    requires lim.capacity > 0 && r == Recency(init) && Tracks(order, init, lim) && NotBefore(init, o.at)
    requires Distinct(r) && ByRecency(r)
    requires |Touch(order, o.id, o.at, lim.window, lim.capacity)| < lim.capacity
    requires |order| <= m < |r| && r[m].id != o.id
    ensures o.at - r[m].seen > lim.window
  {
    var k := |order|;
    assert init != [];
    if k < lim.capacity {
      TailExpired(r, k, m, init[|init| - 1].at, lim.window);
    } else {
      // A full list that comes out shorter lost an expired entry.
      var x := LostEntry(order, o, lim);
      TailExpired(r, x, m, o.at, lim.window);
    }
  }

  /** A full list shrinks only by giving up an expired entry. */
  lemma LostEntry(order: seq<DedupEntry>, o: Offer, lim: Limits) returns (x: nat)
    requires lim.capacity > 0 && |order| == lim.capacity && Distinct(order) && ByRecency(order)
    requires |Touch(order, o.id, o.at, lim.window, lim.capacity)| < lim.capacity
    ensures x < |order| && o.at - order[x].seen > lim.window
  {
    var rest := Without(order, o.id);
    var live := Live(rest, o.at, lim.window);
    if k :| 0 <= k < |order| && order[k].id == o.id {
      if o.at - order[k].seen <= lim.window {
        UnlinkOne(order, k);
      }
      if o.at - order[k].seen > lim.window {
        return k;
      }
    } else {
      WithoutAbsent(order, o.id);
    }
    assert |live| < |rest|;
    WithoutMembers(order, o.id, rest[|live|]);
    x :| 0 <= x < |order| && order[x] == rest[|live|];
  }

  lemma {:induction false} UnlinkOne(s: seq<DedupEntry>, k: nat)
    requires Distinct(s) && k < |s|
    ensures |Without(s, s[k].id)| == |s| - 1
  {
    if k == 0 {
      WithoutAbsent(s[1..], s[0].id);
    } else {
      assert s[k] == s[1..][k - 1];
      UnlinkOne(s[1..], k - 1);
    }
  }

  // ---------------------------------------------------------------- the exact meaning

  /** An id at position `p` of the stack is hit exactly when it is in the window and within the capacity. */
  lemma HitAtPosition(order: seq<DedupEntry>, h: seq<Offer>, id: Str, now: int, lim: Limits, p: nat)
    requires Tracks(order, h, lim) && NotBefore(h, now) && h != [] && ByRecency(Recency(h))
    requires p < |Recency(h)| && forall k :: 0 <= k < |Recency(h)| ==> (Recency(h)[k].id == id <==> k == p)
    ensures Hit(order, id, now, lim.window) <==> now - Recency(h)[p].seen <= lim.window && p < lim.capacity
  {
    var r := Recency(h);
    assert forall k :: 0 <= k < |order| ==> order[k] == r[k];
    if p < |order| {
      assert order[p].id == id;
    } else if p < lim.capacity {
      TailExpired(r, |order|, p, h[|h| - 1].at, lim.window);
    }
  }

  /** The filter answers "duplicate" exactly for the ids last offered within the window with fewer
      than `capacity` other ids offered since. */
  lemma DedupIsLruWithWindow(h: seq<Offer>, id: Str, now: int, lim: Limits)
    requires lim.capacity > 0 && ClockForward(h) && NotBefore(h, now)
    ensures Hit(Cached(h, lim), id, now, lim.window) <==> Recent(h, id, now, lim)
  {
    CachedTracks(h, lim);
    RecencyOrdered(h);
    var order, j := Cached(h, lim), LastOffer(h, id);
    if j < 0 {
      UnknownMissed(order, h, id, now, lim);
    } else {
      KnownHit(order, h, id, now, lim);
    }
  }

  lemma KnownHit(order: seq<DedupEntry>, h: seq<Offer>, id: Str, now: int, lim: Limits)
    requires Tracks(order, h, lim) && NotBefore(h, now) && LastOffer(h, id) >= 0
    requires Distinct(Recency(h)) && ByRecency(Recency(h))
    ensures Hit(order, id, now, lim.window) <==> Recent(h, id, now, lim)
  {
    var p := StackDepth(h, id);
    HitAtPosition(order, h, id, now, lim, p);
  }

  lemma UnknownMissed(order: seq<DedupEntry>, h: seq<Offer>, id: Str, now: int, lim: Limits)
    requires Tracks(order, h, lim) && LastOffer(h, id) < 0
    ensures !Hit(order, id, now, lim.window)
  {
    forall k | 0 <= k < |order| ensures order[k].id != id {
      assert order[k] == Recency(h)[k];
      RecencyMembers(h, order[k]);
    }
  }

  /** The depth of an id in the stack is the number of ids offered since. */
  lemma StackDepth(h: seq<Offer>, id: Str) returns (p: nat)
    requires LastOffer(h, id) >= 0 && Distinct(Recency(h))
    ensures var j := LastOffer(h, id);
      p < |Recency(h)| && Recency(h)[p] == DedupEntry(id, h[j].at) && p == |OfferIds(h[j + 1..])|
    ensures forall k :: 0 <= k < |Recency(h)| ==> (Recency(h)[k].id == id <==> k == p)
  {
    var a, b := StackPosition(h, id);
    p := |a|;
    assert a == Recency(h)[..p];
    DistinctCount(a);
  }
}
