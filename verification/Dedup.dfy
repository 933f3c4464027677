/** The server's duplicate filter: a bounded list of event ids in order of recency with an index,
    and its exact meaning over a whole history of calls. */
module Dedup {
  import opened GoText

  datatype DedupEntry = DedupEntry(id: Str, seen: int)

  // ---------------------------------------------------------------- lists

  function Ids(s: seq<DedupEntry>): set<Str> {
    set i | 0 <= i < |s| :: s[i].id
  }

  predicate Distinct(s: seq<DedupEntry>) {
    forall i, j :: 0 <= i < j < |s| ==> s[i].id != s[j].id
  }

  /** Most recent first. */
  predicate ByRecency(s: seq<DedupEntry>) {
    forall i, j :: 0 <= i < j < |s| ==> s[i].seen >= s[j].seen
  }

  function Without(s: seq<DedupEntry>, id: Str): seq<DedupEntry> {
    if s == [] then []
    else if s[0].id == id then Without(s[1..], id)
    else [s[0]] + Without(s[1..], id)
  }

  lemma {:induction false} WithoutConcat(a: seq<DedupEntry>, b: seq<DedupEntry>, id: Str)
    ensures Without(a + b, id) == Without(a, id) + Without(b, id)
  {
    if a == [] {
      assert a + b == b;
    } else {
      assert (a + b)[1..] == a[1..] + b;
      WithoutConcat(a[1..], b, id);
    }
  }

  lemma {:induction false} WithoutAbsent(s: seq<DedupEntry>, id: Str)
    requires forall i :: 0 <= i < |s| ==> s[i].id != id
    ensures Without(s, id) == s
  {
    if s != [] {
      WithoutAbsent(s[1..], id);
      assert s == [s[0]] + s[1..];
    }
  }

  lemma {:induction false} WithoutMembers(s: seq<DedupEntry>, id: Str, e: DedupEntry)
    ensures e in Without(s, id) <==> e in s && e.id != id
  {
    if s != [] {
      WithoutMembers(s[1..], id, e);
      assert s == [s[0]] + s[1..];
    }
  }

  lemma {:induction false} WithoutShrinks(s: seq<DedupEntry>, e: DedupEntry)
    requires e in s
    ensures |Without(s, e.id)| < |s|
  {
    if s[0].id != e.id {
      WithoutShrinks(s[1..], e);
    } else {
      WithoutLength(s[1..], e.id);
    }
  }

  lemma {:induction false} WithoutLength(s: seq<DedupEntry>, id: Str)
    ensures |Without(s, id)| <= |s|
  {
    if s != [] { WithoutLength(s[1..], id); }
  }

  /** Removing an id keeps the list distinct and ordered. */
  lemma {:induction false} WithoutKeeps(s: seq<DedupEntry>, id: Str)
    requires Distinct(s) && ByRecency(s)
    ensures Distinct(Without(s, id)) && ByRecency(Without(s, id))
  {
    if s != [] {
      WithoutKeeps(s[1..], id);
      var r := Without(s[1..], id);
      forall i | 0 <= i < |r| ensures r[i] in s[1..] {
        WithoutMembers(s[1..], id, r[i]);
      }
    }
  }

  lemma {:induction false} DistinctCount(s: seq<DedupEntry>)
    requires Distinct(s)
    ensures |Ids(s)| == |s|
  {
    if s != [] {
      var init := s[..|s| - 1];
      DistinctCount(init);
      assert Ids(s) == Ids(init) + {s[|s| - 1].id};
      assert s[|s| - 1].id !in Ids(init);
    }
  }

  // ---------------------------------------------------------------- one call

  /** Expired entries are taken off the old end, up to the first that is still in the window. */
  function Live(s: seq<DedupEntry>, now: int, window: int): (r: seq<DedupEntry>)
    ensures |r| <= |s| && r == s[..|r|]
    ensures |r| < |s| ==> now - s[|r|].seen > window
    ensures r != [] ==> now - r[|r| - 1].seen <= window
  {
    if s == [] || now - s[|s| - 1].seen <= window then s else Live(s[..|s| - 1], now, window)
  }

  predicate Hit(order: seq<DedupEntry>, id: Str, now: int, window: int) {
    exists k :: 0 <= k < |order| && order[k].id == id && now - order[k].seen <= window
  }

  /** The list after `id` is offered at `now`. */
  function Touch(order: seq<DedupEntry>, id: Str, now: int, window: int, capacity: nat): seq<DedupEntry>
    requires capacity > 0
  {
    var rest := Without(order, id);
    if Hit(order, id, now, window) then [DedupEntry(id, now)] + rest
    else
      var live := Live(rest, now, window);
      [DedupEntry(id, now)] + live[..Min(|live|, capacity - 1)]
  }

  // ---------------------------------------------------------------- the cache

  class DedupCache {
    const window: int
    const capacity: nat
    var index: map<Str, DedupEntry>
    var order: seq<DedupEntry>

    /** List and index are in bijection, the list is ordered by recency and bounded. */
    predicate Valid()
      reads this
    {
      && capacity > 0
      && |order| <= capacity
      && Distinct(order) && ByRecency(order)
      && Mirrors(index, order)
    }

    constructor (window: int, capacity: int)
      ensures Valid() && order == []
      ensures this.window == (if window <= 0 then 5 * 60 * 1_000_000_000 else window)
      ensures this.capacity == (if capacity <= 0 then 50000 else capacity)
    {
      this.window := if window <= 0 then 5 * 60 * 1_000_000_000 else window;
      this.capacity := if capacity <= 0 then 50000 else capacity;
      index, order := map[], [];
    }

    method IsDuplicate(id: Str, now: int) returns (dup: bool)
      requires Valid()
      requires order != [] ==> order[0].seen <= now
      modifies this
      ensures Valid()
      ensures id == [] ==> !dup && order == old(order)
      ensures id != [] ==> dup == Hit(old(order), id, now, window)
      ensures id != [] ==> order == Touch(old(order), id, now, window, capacity)
    {
      if id == [] { return false; }
      WithoutKeeps(order, id);
      UnlinkMirrors(index, order, id);
      NewestAtFront(order, id, now);
      if id in index {
        var entry := index[id];
        HitIsIndexed(index, order, id, now, window);
        WithoutShrinks(order, entry);
        // The list element is unlinked; ids in the list are distinct.
        order := Without(order, id);
        index := index - {id};
        if now - entry.seen <= window {
          PushFront(DedupEntry(id, now));
          return true;
        }
      } else {
        WithoutAbsent(order, id);
        assert index - {id} == index;
      }
      InsertNew(id, now);
      dup := false;
    }

    /** Puts an entry at the front and indexes it. */
    method PushFront(e: DedupEntry)
      requires Distinct(order) && ByRecency(order) && Mirrors(index, order)
      requires forall i :: 0 <= i < |order| ==> order[i].id != e.id && order[i].seen <= e.seen
      modifies this
      ensures order == [e] + old(order)
      ensures Distinct(order) && ByRecency(order) && Mirrors(index, order)
    {
      FrontMirrors(index, order, e);
      order := [e] + order;
      index := index[e.id := e];
    }

    /** The tail of `IsDuplicate`: make room, then insert. */
    method InsertNew(id: Str, now: int)
      requires capacity > 0 && Distinct(order) && ByRecency(order) && Mirrors(index, order)
      requires forall i :: 0 <= i < |order| ==> order[i].id != id && order[i].seen <= now
      modifies this
      ensures Valid()
      ensures var live := Live(old(order), now, window);
        order == [DedupEntry(id, now)] + live[..Min(|live|, capacity - 1)]
    {
      EvictExpiredFromTail(now);
      MakeRoom();
      PushFront(DedupEntry(id, now));
    }

    /** Removes oldest entries until one more fits. */
    method MakeRoom()
      requires capacity > 0 && Distinct(order) && ByRecency(order) && Mirrors(index, order)
      modifies this
      ensures order == old(order)[..Min(|old(order)|, capacity - 1)]
      ensures Distinct(order) && ByRecency(order) && Mirrors(index, order)
    {
      while |order| >= capacity
        invariant |order| <= |old(order)| && order == old(order)[..|order|]
        invariant |order| >= Min(|old(order)|, capacity - 1)
        invariant Distinct(order) && ByRecency(order) && Mirrors(index, order)
        decreases |order|
      {
        RemoveTail();
      }
    }

    /** `evictExpiredFromTailLocked`. */
    method EvictExpiredFromTail(now: int)
      requires Distinct(order) && ByRecency(order) && Mirrors(index, order)
      modifies this
      ensures order == Live(old(order), now, window)
      ensures Distinct(order) && ByRecency(order) && Mirrors(index, order)
    {
      while order != [] && now - order[|order| - 1].seen > window
        invariant Live(order, now, window) == Live(old(order), now, window)
        invariant Distinct(order) && ByRecency(order) && Mirrors(index, order)
        decreases |order|
      {
        RemoveTail();
      }
    }

    /** `removeTailLocked`. */
    method RemoveTail()
      requires Distinct(order) && ByRecency(order) && Mirrors(index, order)
      modifies this
      ensures order == if old(order) == [] then [] else old(order)[..|old(order)| - 1]
      ensures Distinct(order) && ByRecency(order) && Mirrors(index, order)
    {
      if order == [] { return; }
      var tail := order[|order| - 1];
      order := order[..|order| - 1];
      index := index - {tail.id};
    }
  }

  predicate Mirrors(index: map<Str, DedupEntry>, order: seq<DedupEntry>) {
    && (forall i :: 0 <= i < |order| ==> order[i].id in index && index[order[i].id] == order[i])
    && (forall id :: id in index ==> index[id] in order && index[id].id == id)
  }

  lemma HitIsIndexed(index: map<Str, DedupEntry>, order: seq<DedupEntry>, id: Str, now: int, window: int)
    requires Mirrors(index, order) && id in index
    ensures Hit(order, id, now, window) <==> now - index[id].seen <= window
  {
    var k :| 0 <= k < |order| && order[k] == index[id];
  }

  lemma UnlinkMirrors(index: map<Str, DedupEntry>, order: seq<DedupEntry>, id: Str)
    requires Mirrors(index, order)
    ensures Mirrors(index - {id}, Without(order, id))
  {
    var rest := Without(order, id);
    forall e ensures e in rest <==> e in order && e.id != id { WithoutMembers(order, id, e); }
    forall i | 0 <= i < |rest| ensures rest[i].id in index - {id} && (index - {id})[rest[i].id] == rest[i] {
      assert rest[i] in rest;
    }
  }

  lemma NewestAtFront(order: seq<DedupEntry>, id: Str, now: int)
    requires ByRecency(order) && (order != [] ==> order[0].seen <= now)
    ensures forall i :: 0 <= i < |Without(order, id)| ==>
      Without(order, id)[i].id != id && Without(order, id)[i].seen <= now
  {
    var rest := Without(order, id);
    forall i | 0 <= i < |rest| ensures rest[i].id != id && rest[i].seen <= now {
      WithoutMembers(order, id, rest[i]);
    }
  }

  lemma FrontMirrors(index: map<Str, DedupEntry>, order: seq<DedupEntry>, e: DedupEntry)
    requires Mirrors(index, order) && Distinct(order) && ByRecency(order)
    requires forall i :: 0 <= i < |order| ==> order[i].id != e.id && order[i].seen <= e.seen
    ensures Mirrors(index[e.id := e], [e] + order)
    ensures Distinct([e] + order) && ByRecency([e] + order)
  {
    var r := [e] + order;
    assert r[0] == e;
    assert forall x :: x in order ==> x in r;
  }
}
