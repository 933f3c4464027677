/** Scatter-gather queries: which nodes are asked, and how their answers are merged. */
module Coordinator {
  import opened GoText
  import opened LogEntries
  import opened Router
  import StoreScan
  import Ring = ConsistentHash

  datatype Reply = Events(events: seq<LogEntry>) | Failure

  function QueryKey(q: Query): Str {
    q.host + Ascii("/") + q.source
  }

  /** The nodes a normalised query is sent to. */
  ghost predicate Asked(r: Routing, q: Query, id: Str) {
    r.ring != [] &&
    if q.host != [] && q.source != [] then id == Owner(r, QueryKey(q))
    else exists v :: v in r.ring && v.node == id
  }

  // ---------------------------------------------------------------- partition pruning

  /** The query names host and source, if it does both, as the entry spells them. */
  predicate Spelled(q: Query, e: LogEntry) {
    q.host != [] && q.source != [] ==> q.host == e.host && q.source == e.source
  }

  /** On a fixed ring with the default key, a query reaches the node the router gave the entry to. */
  lemma RoutedEntryIsAsked(r: Routing, q: Query, e: LogEntry)
    requires r.ring != [] && Spelled(q, e) && r.key(e) == DefaultPartitionKey(e)
    ensures Asked(r, q, Destination(r, e))
  {
    var idx := Ring.SuccessorIndex(r.ring, r.hash(r.key(e)));
    var walk := Ring.Walk(r.ring, idx);
    Ring.FirstOwner(walk);
    assert walk[0] in r.ring;
  }

  lemma SplitKey(e: LogEntry, q: Query)
    requires EqualFold(e.host, q.host) && DefaultPartitionKey(e) == QueryKey(q)
    ensures e.host == q.host && e.source == q.source
  {
    assert |ToUpper(e.host)| == |ToUpper(q.host)|;
    var n := |e.host|;
    assert e.host == DefaultPartitionKey(e)[..n] && q.host == QueryKey(q)[..n];
    assert e.source == DefaultPartitionKey(e)[n + 1..] && q.source == QueryKey(q)[n + 1..];
  }

  function TwoPlaces(key: Str, id: Str): Str -> nat {
    (k: Str) => if k == key || k == Ring.VnodeKey(id, 0) then 2 else 1
  }

  /** Two members with ids longer than both keys, so that no key is mistaken for a virtual node. */
  lemma ApartHash(asked: Str, stored: Str, a: Str, b: Str)
    requires asked != stored && a == asked + stored + [65] && b == asked + stored + [66]
    ensures a != b
    ensures var hash := TwoPlaces(asked, b);
      hash(asked) == 2 && hash(stored) == 1 && hash(Ring.VnodeKey(a, 0)) == 1 && hash(Ring.VnodeKey(b, 0)) == 2
  {
    var n := |asked + stored|;
    assert a[n] == 65 && b[n] == 66;
    assert Ring.VnodeKey(a, 0)[n] == 65 && Ring.VnodeKey(b, 0)[n] == 66;
    assert |Ring.VnodeKey(a, 0)| > n && |Ring.VnodeKey(b, 0)| > n;
  }

  lemma TwoOwnersByHash(a: Str, b: Str)
    ensures var ring := [Ring.Vnode(1, a), Ring.Vnode(2, b)];
      && Ring.Replicas(ring, 1) != [] && Ring.Replicas(ring, 1)[0] == a
      && Ring.Replicas(ring, 2) != [] && Ring.Replicas(ring, 2)[0] == b
  {
    var ring := [Ring.Vnode(1, a), Ring.Vnode(2, b)];
    assert ring[1..] == [Ring.Vnode(2, b)];
    assert Ring.SuccessorIndex(ring[1..], 2) == 0;
    assert Ring.SuccessorIndex(ring, 2) == 1 && Ring.SuccessorIndex(ring, 1) == 0;
    Ring.FirstOwner(Ring.Walk(ring, 1));
    Ring.FirstOwner(Ring.Walk(ring, 0));
  }

  /** Two keys that differ are owned by different members of some ring. */
  lemma KeysCanPart(asked: Str, stored: Str) returns (ring: seq<Ring.Vnode>, nodes: map<Str, Ring.Node>, hash: Str -> nat)
    requires asked != stored
    ensures Ring.IsRing(ring, nodes, hash, 1) && ring != []
    ensures Ring.Replicas(ring, hash(asked)) != [] && Ring.Replicas(ring, hash(stored)) != []
    ensures Ring.Replicas(ring, hash(asked))[0] != Ring.Replicas(ring, hash(stored))[0]
  {
    var a, b := asked + stored + [65], asked + stored + [66];
    ApartHash(asked, stored, a, b);
    hash := TwoPlaces(asked, b);
    var p, q := Ring.Node(a, [], 1), Ring.Node(b, [], 1);
    nodes := map[p.id := p, q.id := q];
    Ring.TwoMemberRing(hash, p, q);
    ring := [Ring.Vnode(1, a), Ring.Vnode(2, b)];
    TwoOwnersByHash(a, b);
  }

  /** The entry's owner is asked, whatever the ring and the hash. */
  ghost predicate AlwaysAsked(q: Query, e: LogEntry) {
    forall ring, nodes, hash, per :: Ring.IsRing(ring, nodes, hash, per) && ring != [] ==>
      Asked(Routing(ring, hash, [], DefaultPartitionKey), q, Destination(Routing(ring, hash, [], DefaultPartitionKey), e))
  }

  /** A matching entry's owner is certain to be asked exactly when the query spells host and source as the
      entry does: another letter case is another key. */
  lemma AskedIffSpelled(q: Query, e: LogEntry)
    requires Matches(e, q)
    ensures AlwaysAsked(q, e) <==> Spelled(q, e)
  {
    if Spelled(q, e) {
      forall ring, nodes, hash, per | Ring.IsRing(ring, nodes, hash, per) && ring != []
        ensures var r := Routing(ring, hash, [], DefaultPartitionKey); Asked(r, q, Destination(r, e))
      {
        RoutedEntryIsAsked(Routing(ring, hash, [], DefaultPartitionKey), q, e);
      }
    } else {
      if DefaultPartitionKey(e) == QueryKey(q) { SplitKey(e, q); }
      var ring, nodes, hash := KeysCanPart(QueryKey(q), DefaultPartitionKey(e));
      var r := Routing(ring, hash, [], DefaultPartitionKey);
      assert !Asked(r, q, Destination(r, e));
    }
  }

  // ---------------------------------------------------------------- gathering

  predicate IdsDistinct(s: seq<LogEntry>) {
    forall i, j :: 0 <= i < j < |s| ==> s[i].id != s[j].id
  }

  predicate NewestFirst(s: seq<LogEntry>) {
    forall i, j :: 0 <= i < j < |s| ==> s[i].timestamp.nano >= s[j].timestamp.nano
  }

  predicate HasId(s: seq<LogEntry>, id: Str) {
    exists i :: 0 <= i < |s| && s[i].id == id
  }

  /** One entry for every id that occurs in the replies, taken from them. */
  ghost predicate OnePerId(all: seq<LogEntry>, replies: seq<Reply>) {
    && IdsDistinct(all)
    && (forall e :: e in all ==> Offered(replies, e))
    && (forall e :: Offered(replies, e) ==> HasId(all, e.id))
  }

  ghost predicate Offered(replies: seq<Reply>, e: LogEntry) {
    exists i :: 0 <= i < |replies| && replies[i].Events? && e in replies[i].events
  }

  lemma OfferedSnoc(replies: seq<Reply>, n: nat, e: LogEntry)
    requires n < |replies|
    ensures Offered(replies[..n + 1], e) <==> Offered(replies[..n], e) || (replies[n].Events? && e in replies[n].events)
  {
    var before, upto := replies[..n], replies[..n + 1];
    if i :| 0 <= i < |upto| && upto[i].Events? && e in upto[i].events {
      if i < n { assert before[i] == upto[i]; }
    }
    if i :| 0 <= i < |before| && before[i].Events? && e in before[i].events {
      assert upto[i] == before[i];
    }
    assert upto[n] == replies[n];
  }

  /** The inner loop: one reply's events, skipping ids already seen. */
  method AddEvents(all: seq<LogEntry>, seen: set<Str>, events: seq<LogEntry>)
    returns (all': seq<LogEntry>, seen': set<Str>)
    requires IdsDistinct(all) && forall id :: id in seen <==> HasId(all, id)
    ensures IdsDistinct(all') && forall id :: id in seen' <==> HasId(all', id)
    ensures forall e :: e in all' ==> e in all || e in events
    ensures forall e :: e in all || e in events ==> HasId(all', e.id)
  {
    all', seen' := all, seen;
    for m := 0 to |events|
      invariant IdsDistinct(all') && forall id :: id in seen' <==> HasId(all', id)
      invariant forall e :: e in all' ==> e in all || e in events
      invariant forall e :: e in all || e in events[..m] ==> HasId(all', e.id)
    {
      var e := events[m];
      if e.id !in seen' {
        HasIdSnoc(all', e);
        assert forall i :: 0 <= i < |all'| ==> HasId(all', all'[i].id);
        seen' := seen' + {e.id};
        all' := all' + [e];
      }
      assert events[..m + 1] == events[..m] + [e];
    }
    assert events[..|events|] == events;
  }

  lemma HasIdSnoc(s: seq<LogEntry>, e: LogEntry)
    ensures forall id :: HasId(s + [e], id) <==> HasId(s, id) || id == e.id
  {
    forall id ensures HasId(s + [e], id) <==> HasId(s, id) || id == e.id {
      assert (s + [e])[|s|] == e;
      if i :| 0 <= i < |s| && s[i].id == id { assert (s + [e])[i].id == id; }
    }
  }

  /** How many nodes failed to answer. */
  function Unanswered(replies: seq<Reply>): nat {
    if replies == [] then 0 else Unanswered(replies[..|replies| - 1]) + if replies[|replies| - 1].Failure? then 1 else 0
  }

  /** The gather loop over the replies in order of arrival. */
  method Gather(replies: seq<Reply>) returns (all: seq<LogEntry>, errors: nat)
    ensures OnePerId(all, replies)
    ensures errors == 0 <==> forall i :: 0 <= i < |replies| ==> replies[i].Events?
    ensures errors == Unanswered(replies)
  {
    all, errors := [], 0;
    var seen: set<Str> := {};
    for n := 0 to |replies|
      invariant OnePerId(all, replies[..n]) && forall id :: id in seen <==> HasId(all, id)
      invariant errors == 0 <==> forall i :: 0 <= i < n ==> replies[i].Events?
      invariant errors == Unanswered(replies[..n])
    {
      assert replies[..n + 1][..n] == replies[..n];
      forall e ensures Offered(replies[..n + 1], e) <==>
          Offered(replies[..n], e) || (replies[n].Events? && e in replies[n].events) {
        OfferedSnoc(replies, n, e);
      }
      if replies[n].Failure? {
        errors := errors + 1;
      } else {
        var more, seen' := AddEvents(all, seen, replies[n].events);
        GatherOn(all, more, replies, n);
        all, seen := more, seen';
      }
    }
    assert replies[..|replies|] == replies;
  }

  lemma GatherOn(all: seq<LogEntry>, more: seq<LogEntry>, replies: seq<Reply>, n: nat)
    requires n < |replies| && replies[n].Events? && OnePerId(all, replies[..n]) && IdsDistinct(more)
    requires forall e :: e in more ==> e in all || e in replies[n].events
    requires forall e :: e in all || e in replies[n].events ==> HasId(more, e.id)
    ensures OnePerId(more, replies[..n + 1])
  {
    forall e | e in more ensures Offered(replies[..n + 1], e) { OfferedSnoc(replies, n, e); }
    forall e | Offered(replies[..n + 1], e) ensures HasId(more, e.id) {
      OfferedSnoc(replies, n, e);
      if Offered(replies[..n], e) {
        var i :| 0 <= i < |all| && all[i].id == e.id;
        assert all[i] in all;
      }
    }
  }

  // ---------------------------------------------------------------- sorting and truncating

  method InsertNewest(s: seq<LogEntry>, e: LogEntry) returns (r: seq<LogEntry>)
    requires NewestFirst(s)
    ensures NewestFirst(r) && multiset(r) == multiset(s) + multiset{e}
  {
    var at := |s|;
    while at > 0 && s[at - 1].timestamp.nano < e.timestamp.nano
      invariant 0 <= at <= |s|
      invariant forall i :: at <= i < |s| ==> s[i].timestamp.nano < e.timestamp.nano
    {
      at := at - 1;
    }
    InsertedSorted(s, at, e);
    InsertedMultiset(s, at, e);
    r := s[..at] + [e] + s[at..];
  }

  lemma InsertedMultiset<T>(s: seq<T>, at: nat, e: T)
    requires at <= |s|
    ensures multiset(s[..at] + [e] + s[at..]) == multiset(s) + multiset{e}
  {
    assert s == s[..at] + s[at..];
  }

  lemma InsertedSorted(s: seq<LogEntry>, at: nat, e: LogEntry)
    requires NewestFirst(s) && at <= |s|
    requires at > 0 ==> s[at - 1].timestamp.nano >= e.timestamp.nano
    requires at < |s| ==> s[at].timestamp.nano <= e.timestamp.nano
    ensures NewestFirst(s[..at] + [e] + s[at..])
  {
    var r := s[..at] + [e] + s[at..];
    forall i, j | 0 <= i < j < |r| ensures r[i].timestamp.nano >= r[j].timestamp.nano {
      assert r[i] == if i < at then s[i] else if i == at then e else s[i - 1];
      assert r[j] == if j < at then s[j] else if j == at then e else s[j - 1];
    }
  }

  /** The sort by timestamp, newest first; entries of one instant may come in any order. */
  method SortNewest(s: seq<LogEntry>) returns (r: seq<LogEntry>)
    ensures NewestFirst(r) && multiset(r) == multiset(s)
  {
    r := [];
    for n := 0 to |s|
      invariant NewestFirst(r) && multiset(r) == multiset(s[..n])
    {
      r := InsertNewest(r, s[n]);
      assert s[..n + 1] == s[..n] + [s[n]];
    }
    assert s[..|s|] == s;
  }

  lemma DistinctAsMultiset(s: seq<LogEntry>)
    requires IdsDistinct(s)
    ensures forall e :: multiset(s)[e] <= 1
  {
    if s != [] {
      var n := |s| - 1;
      DistinctAsMultiset(s[..n]);
      assert s == s[..n] + [s[n]];
      assert s[n] !in s[..n];
    }
  }

  lemma RepeatedTwice(s: seq<LogEntry>, i: nat, j: nat)
    requires i < j < |s| && s[i] == s[j]
    ensures multiset(s)[s[i]] >= 2
  {
    assert s == s[..j] + [s[j]] + s[j + 1..];
    assert s[..j][i] == s[i];
    assert s[i] in multiset(s[..j]);
  }

  lemma PermutedIdsDistinct(s: seq<LogEntry>, r: seq<LogEntry>)
    requires IdsDistinct(s) && multiset(r) == multiset(s)
    ensures IdsDistinct(r) && |r| == |s| && forall e :: e in r <==> e in s
  {
    assert |multiset(r)| == |multiset(s)|;
    forall e ensures e in r <==> e in s { assert e in r <==> e in multiset(r); assert e in s <==> e in multiset(s); }
    DistinctAsMultiset(s);
    forall i, j | 0 <= i < j < |r| ensures r[i].id != r[j].id {
      assert r[i] in s && r[j] in s;
      if r[i] == r[j] { RepeatedTwice(r, i, j); }
      var a :| 0 <= a < |s| && s[a] == r[i];
      var b :| 0 <= b < |s| && s[b] == r[j];
    }
  }

  /** What the merge promises about the replies it was given: no id twice, newest first, at most `limit`,
      and an id is left out only for `limit` entries that are at least as new. */
  ghost predicate Merged(result: seq<LogEntry>, replies: seq<Reply>, limit: int) {
    && IdsDistinct(result) && NewestFirst(result) && |result| <= limit
    && (forall e :: e in result ==> Offered(replies, e))
    && (forall e :: Offered(replies, e) ==> HasId(result, e.id) || Outranked(result, replies, limit, e))
  }

  /** The result is full of entries at least as new as the one kept for this id. */
  ghost predicate Outranked(result: seq<LogEntry>, replies: seq<Reply>, limit: int, e: LogEntry) {
    |result| == limit && exists kept :: Offered(replies, kept) && kept.id == e.id && NoOlder(result, kept)
  }

  predicate NoOlder(s: seq<LogEntry>, e: LogEntry) {
    forall i :: 0 <= i < |s| ==> s[i].timestamp.nano >= e.timestamp.nano
  }

  lemma CutKeepsNewest(sorted: seq<LogEntry>, replies: seq<Reply>, limit: int)
    requires OnePerId(sorted, replies) && NewestFirst(sorted) && limit > 0
    ensures Merged(if |sorted| > limit then sorted[..limit] else sorted, replies, limit)
  {
    var result := if |sorted| > limit then sorted[..limit] else sorted;
    forall e | e in result ensures Offered(replies, e) { assert e in sorted; }
    forall e | Offered(replies, e) ensures HasId(result, e.id) || Outranked(result, replies, limit, e) {
      var i :| 0 <= i < |sorted| && sorted[i].id == e.id;
      if i < |result| {
        assert result[i].id == e.id;
      } else {
        assert sorted[i] in sorted;
        assert NoOlder(result, sorted[i]);
      }
    }
  }

  lemma SortedGathered(all: seq<LogEntry>, sorted: seq<LogEntry>, replies: seq<Reply>)
    requires OnePerId(all, replies) && multiset(sorted) == multiset(all)
    ensures OnePerId(sorted, replies)
  {
    PermutedIdsDistinct(all, sorted);
    forall e | Offered(replies, e) ensures HasId(sorted, e.id) {
      var i :| 0 <= i < |all| && all[i].id == e.id;
      assert all[i] in sorted;
    }
  }

  datatype QueryOutcome = Answer(events: seq<LogEntry>, errors: nat) | QueryFailed

  /** Gather, sort and truncate. The query fails only when a node failed, partial answers are refused and
      there is no event at all; events of the other nodes are otherwise returned even then. */
  method Merge(replies: seq<Reply>, allowPartial: bool, limit: int) returns (r: QueryOutcome)
    requires limit > 0
    ensures r.QueryFailed? <==> !allowPartial && AnyFailure(replies) && NothingOffered(replies)
    ensures r.Answer? ==> Merged(r.events, replies, limit)
    ensures r.Answer? ==> (r.errors > 0 <==> AnyFailure(replies)) && r.errors == Unanswered(replies)
  {
    var all, errors := Gather(replies);
    assert NothingOffered(replies) <==> all == [] by { NothingGathered(all, replies); }
    if errors > 0 && !allowPartial && |all| == 0 { return QueryFailed; }
    var sorted := SortNewest(all);
    SortedGathered(all, sorted, replies);
    CutKeepsNewest(sorted, replies, limit);
    if |sorted| > limit { sorted := sorted[..limit]; }
    r := Answer(sorted, errors);
  }

  predicate AnyFailure(replies: seq<Reply>) {
    exists i :: 0 <= i < |replies| && replies[i].Failure?
  }

  ghost predicate NothingOffered(replies: seq<Reply>) {
    forall e :: !Offered(replies, e)
  }

  lemma NothingGathered(all: seq<LogEntry>, replies: seq<Reply>)
    requires OnePerId(all, replies)
    ensures NothingOffered(replies) <==> all == []
  {
    if all != [] { assert all[0] in all; }
  }

  // ---------------------------------------------------------------- the whole answer

  /** A node's answer holds its `limit` newest of `matches`. */
  ghost predicate NewestOf(events: seq<LogEntry>, matches: set<LogEntry>, limit: int) {
    && IdsDistinct(events) && |events| <= limit
    && (forall e :: e in events ==> e in matches)
    && (forall e :: e in matches && e !in events ==> |events| == limit && NoOlder(events, e))
  }

  ghost predicate KnownMatch(matches: seq<set<LogEntry>>, e: LogEntry) {
    exists i :: 0 <= i < |matches| && e in matches[i]
  }

  /** One id, one entry, across the cluster. */
  ghost predicate Identified(matches: seq<set<LogEntry>>) {
    forall d, e :: KnownMatch(matches, d) && KnownMatch(matches, e) && d.id == e.id ==> d == e
  }

  ghost predicate Faithful(replies: seq<Reply>, matches: seq<set<LogEntry>>, limit: int) {
    |replies| == |matches| && Identified(matches)
    && forall i :: 0 <= i < |replies| ==> replies[i].Events? && NewestOf(replies[i].events, matches[i], limit)
  }

  lemma OfferedIsKnown(replies: seq<Reply>, matches: seq<set<LogEntry>>, limit: int, e: LogEntry)
    requires Faithful(replies, matches, limit) && Offered(replies, e)
    ensures KnownMatch(matches, e)
  {
    var i :| 0 <= i < |replies| && replies[i].Events? && e in replies[i].events;
    assert NewestOf(replies[i].events, matches[i], limit);
  }

  /** With ids that identify entries, an offered entry is in the result or outranked itself. */
  lemma OfferedShown(result: seq<LogEntry>, replies: seq<Reply>, matches: seq<set<LogEntry>>, limit: int, e: LogEntry)
    requires Faithful(replies, matches, limit) && Merged(result, replies, limit) && Offered(replies, e)
    ensures e in result || (|result| == limit && NoOlder(result, e))
  {
    OfferedIsKnown(replies, matches, limit, e);
    if HasId(result, e.id) {
      var k :| 0 <= k < |result| && result[k].id == e.id;
      assert result[k] in result;
      OfferedIsKnown(replies, matches, limit, result[k]);
      assert result[k] == e;
    } else {
      assert Outranked(result, replies, limit, e);
      var kept :| Offered(replies, kept) && kept.id == e.id && NoOlder(result, kept);
      OfferedIsKnown(replies, matches, limit, kept);
      assert kept == e;
    }
  }

  function EntrySet(s: seq<LogEntry>): set<LogEntry> {
    set e | e in s
  }

  lemma {:induction false} EntriesCount(s: seq<LogEntry>)
    requires IdsDistinct(s)
    ensures |EntrySet(s)| == |s|
  {
    if s != [] {
      var n := |s| - 1;
      EntriesCount(s[..n]);
      assert s == s[..n] + [s[n]];
      assert s[n] !in s[..n];
      assert EntrySet(s) == EntrySet(s[..n]) + {s[n]};
    }
  }

  lemma SameSizeSubset(a: set<LogEntry>, b: set<LogEntry>)
    requires a <= b && |a| == |b|
    ensures a == b
  {
    assert b == a + (b - a);
    assert |b| == |a| + |b - a|;
  }

  /** A full reply inside a result of the same limit is the whole result. */
  lemma FullReplyIsResult(events: seq<LogEntry>, result: seq<LogEntry>, limit: int)
    requires IdsDistinct(events) && IdsDistinct(result) && |events| == limit && |result| <= limit
    requires forall e :: e in events ==> e in result
    ensures |result| == limit && forall e :: e in result ==> e in events
  {
    EntriesCount(events);
    EntriesCount(result);
    assert EntrySet(events) <= EntrySet(result);
    assert EntrySet(result) == EntrySet(events) + (EntrySet(result) - EntrySet(events));
    SameSizeSubset(EntrySet(events), EntrySet(result));
    forall e | e in result ensures e in events { assert e in EntrySet(result); }
  }

  /** The merge omits no match newer than one it returns, and none at all unless it is full. */
  lemma MergeIsGlobalNewest(result: seq<LogEntry>, replies: seq<Reply>, matches: seq<set<LogEntry>>, limit: int, n: nat, e: LogEntry)
    requires Faithful(replies, matches, limit) && Merged(result, replies, limit) && n < |matches| && e in matches[n]
    ensures e in result || (|result| == limit && NoOlder(result, e))
  {
    var events := replies[n].events;
    if e in events {
      OfferedShown(result, replies, matches, limit, e);
    } else if x :| x in events && x !in result {
      OfferedShown(result, replies, matches, limit, x);
      ReplyNoOlder(events, x, e);
    } else {
      FullReplyIsResult(events, result, limit);
      forall i | 0 <= i < |result| ensures result[i].timestamp.nano >= e.timestamp.nano {
        assert result[i] in result;
        ReplyNoOlder(events, result[i], e);
      }
    }
  }

  lemma ReplyNoOlder(events: seq<LogEntry>, x: LogEntry, e: LogEntry)
    requires NoOlder(events, e) && x in events
    ensures x.timestamp.nano >= e.timestamp.nano
  {
  }

  lemma {:induction false} FilterDistinct(scan: seq<LogEntry>, q: Query)
    requires IdsDistinct(scan)
    ensures IdsDistinct(StoreScan.Filter(scan, q))
    ensures forall e :: e in StoreScan.Filter(scan, q) <==> e in scan && Matches(e, q)
  {
    if scan != [] {
      var rest := StoreScan.Filter(scan[1..], q);
      FilterDistinct(scan[1..], q);
      assert scan == [scan[0]] + scan[1..];
      forall i | 0 <= i < |rest| ensures rest[i].id != scan[0].id {
        assert rest[i] in rest && rest[i] in scan[1..];
      }
    }
  }

  lemma TakeIsNewest(s: seq<LogEntry>, limit: nat)
    requires IdsDistinct(s) && NewestFirst(s)
    ensures NewestOf(StoreScan.Take(s, limit), EntrySet(s), limit)
  {
    var shown := StoreScan.Take(s, limit);
    forall i | 0 <= i < |shown| ensures s[i] in shown { assert shown[i] == s[i]; }
    forall e | e in EntrySet(s) && e !in shown ensures |shown| == limit && NoOlder(shown, e) {
      var i :| 0 <= i < |s| && s[i] == e;
    }
  }

  /** Out of order, some limit shows an older entry and leaves a younger one out. */
  lemma OlderShown(s: seq<LogEntry>) returns (limit: nat)
    requires IdsDistinct(s) && !NewestFirst(s)
    ensures !NewestOf(StoreScan.Take(s, limit), EntrySet(s), limit)
  {
    var i, j :| 0 <= i < j < |s| && s[i].timestamp.nano < s[j].timestamp.nano;
    limit := i + 1;
    var shown := StoreScan.Take(s, limit);
    assert s[j] in EntrySet(s) && s[j] !in shown && shown[i] == s[i];
    assert !NoOlder(shown, s[j]);
  }

  // ---------------------------------------------------------------- the query

  /** How a node answers a query, by its id. */
  type Network = (Str, Query) -> Reply

  function Replies(net: Network, q: Query, order: seq<Str>): seq<Reply> {
    seq(|order|, i requires 0 <= i < |order| => net(order[i], q))
  }

  /** The asked nodes, each once, in order of arrival. */
  ghost predicate Scattered(r: Routing, q: Query, order: seq<Str>) {
    Ring.DistinctIds(order) && forall id :: id in order <==> Asked(r, q, id)
  }

  method Targets(h: Ring.HashRing, q: Query) returns (ids: set<Str>)
    requires h.Valid()
    ensures ids == {} <==> h.nodes == map[]
    ensures forall local, key, id :: id in ids <==> Asked(Routing(h.ring, h.hash, local, key), q, id)
  {
    ids := {};
    Ring.ReplicasAreMembers(h.ring, h.nodes, h.hash, h.vnodesPerNode, h.hash(QueryKey(q)));
    if h.ring != [] { Ring.FirstOwner(Ring.Walk(h.ring, Ring.SuccessorIndex(h.ring, h.hash(QueryKey(q))))); }
    assert h.ring == [] <==> h.nodes == map[];
    if q.host != [] && q.source != [] {
      var found := h.GetNode(QueryKey(q));
      if found.Ok? { ids := {found.value.id}; }
    }
    if ids == {} {
      ids := h.nodes.Keys;
      forall id ensures id in ids <==> exists v :: v in h.ring && v.node == id {
        Ring.RingMembers(h.ring, h.nodes, h.hash, h.vnodesPerNode, id);
        if i :| 0 <= i < |h.ring| && h.ring[i].node == id { assert h.ring[i] in h.ring; }
      }
    }
  }

  method Scatter(net: Network, q: Query, ids: set<Str>) returns (replies: seq<Reply>, ghost order: seq<Str>)
    ensures Ring.DistinctIds(order) && replies == Replies(net, q, order)
    ensures forall id :: id in order <==> id in ids
  {
    replies, order := [], [];
    var todo := ids;
    while todo != {}
      invariant todo <= ids && Ring.DistinctIds(order) && replies == Replies(net, q, order)
      invariant forall id :: id in order <==> id in ids - todo
      decreases |todo|
    {
      var id :| id in todo;
      assert forall i :: 0 <= i < |order| ==> order[i] in order;
      replies := replies + [net(id, q)];
      order := order + [id];
      todo := todo - {id};
    }
  }

  function LocalAnswer(local: Option<Query -> Reply>, q: Query): QueryOutcome {
    if local.None? then QueryFailed
    else match local.value(q)
      case Events(events) => Answer(events, 0)
      case Failure => QueryFailed
  }

  /** `Coordinator.Query`: on an empty ring the local store answers alone, if there is one. */
  method RunQuery(h: Ring.HashRing, net: Network, local: Option<Query -> Reply>, allowPartial: bool, query: Query)
    returns (r: QueryOutcome, ghost order: seq<Str>)
    requires h.Valid()
    ensures h.nodes == map[] ==> r == LocalAnswer(local, Normalize(query))
    ensures h.nodes != map[] ==> forall id, key :: Scattered(Routing(h.ring, h.hash, id, key), Normalize(query), order)
    ensures h.nodes != map[] && r.Answer? ==>
      && Merged(r.events, Replies(net, Normalize(query), order), Normalize(query).limit)
      && r.errors == Unanswered(Replies(net, Normalize(query), order))
    ensures h.nodes != map[] ==> (r.QueryFailed? <==>
      !allowPartial && AnyFailure(Replies(net, Normalize(query), order))
      && NothingOffered(Replies(net, Normalize(query), order)))
  {
    var q := Normalize(query);
    var ids := Targets(h, q);
    if ids == {} {
      order := [];
      r := QueryFailed;
      if local.Some? {
        var reply := local.value(q);
        if reply.Events? { r := Answer(reply.events, 0); }
      }
      return;
    }
    var replies;
    replies, order := Scatter(net, q, ids);
    r := Merge(replies, allowPartial, q.limit);
  }

  /** The entries the router gave to a node that match a query. */
  ghost function Held(r: Routing, placed: set<LogEntry>, q: Query, id: Str): set<LogEntry> {
    set e | e in placed && Matches(e, q) && Destination(r, e) == id
  }

  ghost function HeldBy(r: Routing, placed: set<LogEntry>, q: Query, order: seq<Str>): seq<set<LogEntry>> {
    seq(|order|, i requires 0 <= i < |order| => Held(r, placed, q, order[i]))
  }

  /** Every node answers with its `limit` newest matches. */
  ghost predicate AnswersNewest(net: Network, r: Routing, placed: set<LogEntry>, q: Query) {
    forall id :: net(id, q).Events? && NewestOf(net(id, q).events, Held(r, placed, q, id), q.limit)
  }

  ghost predicate IdsIdentify(placed: set<LogEntry>) {
    forall d, e :: d in placed && e in placed && d.id == e.id ==> d == e
  }

  lemma NetworkIsFaithful(net: Network, r: Routing, placed: set<LogEntry>, q: Query, order: seq<Str>)
    requires AnswersNewest(net, r, placed, q) && IdsIdentify(placed)
    ensures Faithful(Replies(net, q, order), HeldBy(r, placed, q, order), q.limit)
  {
    var matches := HeldBy(r, placed, q, order);
    forall e | KnownMatch(matches, e) ensures e in placed {
      var i :| 0 <= i < |matches| && e in matches[i];
      assert matches[i] == Held(r, placed, q, order[i]);
    }
  }

  /** The cluster answers as one store would: of everything the router placed, an entry that matches and is
      spelled as asked is in the answer, unless the answer is full of entries at least as new. */
  lemma ClusterAnswersNewest(r: Routing, net: Network, placed: set<LogEntry>, q: Query, order: seq<Str>,
                             result: seq<LogEntry>, e: LogEntry)
    requires r.ring != [] && r.key == DefaultPartitionKey && Scattered(r, q, order)
    requires AnswersNewest(net, r, placed, q) && IdsIdentify(placed)
    requires Merged(result, Replies(net, q, order), q.limit)
    requires e in placed && Matches(e, q) && Spelled(q, e)
    ensures e in result || (|result| == q.limit && NoOlder(result, e))
  {
    RoutedEntryIsAsked(r, q, e);
    var n :| 0 <= n < |order| && order[n] == Destination(r, e);
    NetworkIsFaithful(net, r, placed, q, order);
    assert HeldBy(r, placed, q, order)[n] == Held(r, placed, q, order[n]);
    MergeIsGlobalNewest(result, Replies(net, q, order), HeldBy(r, placed, q, order), q.limit, n, e);
  }

  /** Nothing else is in the answer: every entry returned was placed by the router and matches. */
  lemma ClusterAnswersSound(r: Routing, net: Network, placed: set<LogEntry>, q: Query, order: seq<Str>,
                            result: seq<LogEntry>, e: LogEntry)
    requires AnswersNewest(net, r, placed, q) && Merged(result, Replies(net, q, order), q.limit) && e in result
    ensures e in placed && Matches(e, q)
  {
    var replies := Replies(net, q, order);
    var i :| 0 <= i < |replies| && replies[i].Events? && e in replies[i].events;
    assert replies[i] == net(order[i], q);
    assert NewestOf(net(order[i], q).events, Held(r, placed, q, order[i]), q.limit);
  }
}
