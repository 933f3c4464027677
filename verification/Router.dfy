/** Routing of ingest batches: entries grouped by owning node, dispatched, and the answers added up. */
module Router {
  import opened GoText
  import opened LogEntries
  import Ring = ConsistentHash

  /** A fixed ring, the id of the node that routes, and the partition key. */
  datatype Routing = Routing(ring: seq<Ring.Vnode>, hash: Str -> nat, local: Str, key: LogEntry -> Str)

  function DefaultPartitionKey(e: LogEntry): Str {
    e.host + Ascii("/") + e.source
  }

  /** The node that owns a key; the routing node itself when the ring is empty. */
  function Owner(r: Routing, key: Str): Str {
    var owners := Ring.Replicas(r.ring, r.hash(key));
    if owners == [] then r.local else owners[0]
  }

  function Destination(r: Routing, e: LogEntry): Str {
    Owner(r, r.key(e))
  }

  /** The entries for one node, in the order of the batch. */
  function Bucket(r: Routing, entries: seq<LogEntry>, id: Str): seq<LogEntry> {
    if entries == [] then []
    else
      var init, e := Bucket(r, entries[..|entries| - 1], id), entries[|entries| - 1];
      if Destination(r, e) == id then init + [e] else init
  }

  lemma BucketAppend(r: Routing, entries: seq<LogEntry>, e: LogEntry, id: Str)
    ensures Bucket(r, entries + [e], id)
         == if Destination(r, e) == id then Bucket(r, entries, id) + [e] else Bucket(r, entries, id)
  {
    assert (entries + [e])[..|entries|] == entries;
  }

  predicate GroupedAt(r: Routing, entries: seq<LogEntry>, buckets: map<Str, seq<LogEntry>>, id: Str) {
    if id in buckets then buckets[id] == Bucket(r, entries, id) != [] else Bucket(r, entries, id) == []
  }

  ghost predicate Grouped(r: Routing, entries: seq<LogEntry>, buckets: map<Str, seq<LogEntry>>) {
    forall id :: GroupedAt(r, entries, buckets, id)
  }

  function Put(buckets: map<Str, seq<LogEntry>>, id: Str, e: LogEntry): map<Str, seq<LogEntry>> {
    buckets[id := (if id in buckets then buckets[id] else []) + [e]]
  }

  lemma GroupOne(r: Routing, entries: seq<LogEntry>, e: LogEntry, buckets: map<Str, seq<LogEntry>>)
    requires Grouped(r, entries, buckets)
    ensures Grouped(r, entries + [e], Put(buckets, Destination(r, e), e))
  {
    forall id ensures GroupedAt(r, entries + [e], Put(buckets, Destination(r, e), e), id) {
      assert GroupedAt(r, entries, buckets, id);
      BucketAppend(r, entries, e, id);
    }
  }

  /** The grouping phase: every entry lands in exactly its owner's bucket, order kept. */
  method GroupEntries(h: Ring.HashRing, r: Routing, entries: seq<LogEntry>)
    returns (buckets: map<Str, seq<LogEntry>>, targets: map<Str, Ring.Node>)
    requires h.Valid() && r.ring == h.ring && r.hash == h.hash
    ensures Grouped(r, entries, buckets) && targets.Keys == buckets.Keys
    ensures forall id :: id in targets && h.nodes != map[] ==> id in h.nodes && targets[id] == h.nodes[id]
    ensures h.nodes == map[] ==> targets.Keys <= {r.local}
  {
    buckets, targets := map[], map[];
    for i := 0 to |entries|
      invariant Grouped(r, entries[..i], buckets) && targets.Keys == buckets.Keys
      invariant forall id :: id in targets && h.nodes != map[] ==> id in h.nodes && targets[id] == h.nodes[id]
      invariant h.nodes == map[] ==> targets.Keys <= {r.local}
    {
      var node := TargetOf(h, r, entries[i]);
      GroupOne(r, entries[..i], entries[i], buckets);
      assert entries[..i + 1] == entries[..i] + [entries[i]];
      buckets := Put(buckets, node.id, entries[i]);
      targets := targets[node.id := node];
    }
    assert entries[..|entries|] == entries;
  }

  /** The node an entry goes to: its owner on the ring, or the routing node when the ring is empty. */
  method TargetOf(h: Ring.HashRing, r: Routing, e: LogEntry) returns (node: Ring.Node)
    requires h.Valid() && r.ring == h.ring && r.hash == h.hash
    ensures node.id == Destination(r, e)
    ensures if h.nodes == map[] then node.id == r.local else node.id in h.nodes && h.nodes[node.id] == node
  {
    var found := h.GetNode(r.key(e));
    if found.Err? { EmptyRingOwner(h, r.hash(r.key(e))); }
    node := if found.Ok? then found.value else Ring.Node(r.local, [], 0);
  }

  lemma EmptyRingOwner(h: Ring.HashRing, k: nat)
    requires h.Valid() && h.nodes == map[]
    ensures Ring.Replicas(h.ring, k) == []
  {
    Ring.ReplicasAreMembers(h.ring, h.nodes, h.hash, h.vnodesPerNode, k);
  }

  // ---------------------------------------------------------------- dispatch

  /** What became of a bucket sent to a peer. */
  datatype SendOutcome = NoClient | SendFailed | Replied(accepted: int, duplicates: int, errors: seq<Str>)

  /** The outside world of one `RouteBatch` call. */
  datatype World = World(hasStore: bool, appendOk: seq<LogEntry> -> bool, send: (Str, seq<LogEntry>) -> SendOutcome)

  datatype BatchResult = BatchResult(node: Str, accepted: int, duplicates: int, errors: seq<Str>, failed: bool)

  const FAILURE_TEXT: Str := Ascii("dispatch failed")

  function Dispatch(w: World, local: Str, id: Str, bucket: seq<LogEntry>): BatchResult {
    var failure := BatchResult(id, 0, 0, [FAILURE_TEXT], true);
    if id == local && w.hasStore then
      if w.appendOk(bucket) then BatchResult(id, |bucket|, 0, [], false) else failure
    else match w.send(id, bucket)
      case Replied(accepted, duplicates, errors) => BatchResult(id, accepted, duplicates, errors, false)
      case _ => failure
  }

  /** A bucket reaches its node if the local store takes it or, when it is not handled locally, a peer answers. */
  predicate Reaches(w: World, local: Str, id: Str, bucket: seq<LogEntry>) {
    || (id == local && w.hasStore && w.appendOk(bucket))
    || (!(id == local && w.hasStore) && w.send(id, bucket).Replied?)
  }

  /** Accepted of a bucket: all of it by a local append that works, what the peer says in a reply, else nothing. */
  function AcceptedOf(w: World, local: Str, id: Str, bucket: seq<LogEntry>): int {
    if !Reaches(w, local, id, bucket) then 0
    else if id == local && w.hasStore then |bucket|
    else w.send(id, bucket).accepted
  }

  /** Duplicates are those a peer reports. */
  function DuplicatesOf(w: World, local: Str, id: Str, bucket: seq<LogEntry>): int {
    if Reaches(w, local, id, bucket) && !(id == local && w.hasStore) then w.send(id, bucket).duplicates else 0
  }

  /** A bucket that does not reach its node shows as one text; a peer's reply brings its own. */
  function ErrorsOf(w: World, local: Str, id: Str, bucket: seq<LogEntry>): seq<Str> {
    if !Reaches(w, local, id, bucket) then [FAILURE_TEXT]
    else if id == local && w.hasStore then []
    else w.send(id, bucket).errors
  }

  /** Dispatching a bucket reports exactly that. */
  lemma DispatchReports(w: World, local: Str, id: Str, bucket: seq<LogEntry>)
    ensures Dispatch(w, local, id, bucket)
         == BatchResult(id, AcceptedOf(w, local, id, bucket), DuplicatesOf(w, local, id, bucket),
                        ErrorsOf(w, local, id, bucket), !Reaches(w, local, id, bucket))
  {
  }

  /** Peers answer for every entry they were sent: accepted, duplicate or refused with an error. */
  ghost predicate HonestPeers(w: World) {
    forall id, b :: w.send(id, b).Replied? ==>
      var s := w.send(id, b); s.accepted + s.duplicates + |s.errors| == |b|
  }

  // ---------------------------------------------------------------- aggregation

  function SumAccepted(rs: seq<BatchResult>): int {
    if rs == [] then 0 else SumAccepted(rs[..|rs| - 1]) + rs[|rs| - 1].accepted
  }

  function SumDuplicates(rs: seq<BatchResult>): int {
    if rs == [] then 0 else SumDuplicates(rs[..|rs| - 1]) + rs[|rs| - 1].duplicates
  }

  function AllErrors(rs: seq<BatchResult>): seq<Str> {
    if rs == [] then [] else AllErrors(rs[..|rs| - 1]) + rs[|rs| - 1].errors
  }

  datatype Response = Response(ok: bool, accepted: int, duplicates: int, errors: seq<Str>)

  predicate NoneFailed(rs: seq<BatchResult>) {
    forall i :: 0 <= i < |rs| ==> !rs[i].failed
  }

  ghost predicate FailedFirst(rs: seq<BatchResult>, i: nat) {
    i < |rs| && rs[i].failed && forall j :: 0 <= j < i ==> !rs[j].failed
  }

  ghost predicate FirstFailed(rs: seq<BatchResult>, node: Str) {
    exists i: nat :: FailedFirst(rs, i) && rs[i].node == node
  }

  lemma FirstFailedStays(rs: seq<BatchResult>, n: nat, node: Str)
    requires n < |rs| && FirstFailed(rs[..n], node)
    ensures FirstFailed(rs[..n + 1], node)
  {
    var i: nat :| FailedFirst(rs[..n], i) && rs[..n][i].node == node;
    assert FailedFirst(rs[..n + 1], i);
  }

  /** `failure` is the node whose error the caller gets, if any. */
  method Aggregate(results: seq<BatchResult>) returns (resp: Response, failure: Option<Str>)
    ensures resp.accepted == SumAccepted(results) && resp.duplicates == SumDuplicates(results)
    ensures resp.errors == AllErrors(results)
    ensures resp.ok <==> resp.errors == [] || resp.accepted != 0
    ensures failure.Some? <==> !resp.ok && !NoneFailed(results)
    ensures failure.Some? ==> FirstFailed(results, failure.value)
  {
    var accepted, duplicates, errors := 0, 0, [];
    var first: Option<Str> := None;
    for n := 0 to |results|
      invariant accepted == SumAccepted(results[..n]) && duplicates == SumDuplicates(results[..n])
      invariant errors == AllErrors(results[..n])
      invariant first.None? <==> NoneFailed(results[..n])
      invariant first.Some? ==> FirstFailed(results[..n], first.value)
    {
      assert results[..n + 1][..n] == results[..n];
      var res := results[n];
      accepted := accepted + res.accepted;
      duplicates := duplicates + res.duplicates;
      errors := errors + res.errors;
      assert NoneFailed(results[..n + 1]) <==> NoneFailed(results[..n]) && !res.failed by {
        assert results[..n + 1] == results[..n] + [res];
      }
      if first.Some? {
        FirstFailedStays(results, n, first.value);
      } else if res.failed {
        first := Some(res.node);
        assert FailedFirst(results[..n + 1], n);
      }
    }
    assert results[..|results|] == results;
    var bad := |errors| > 0 && accepted == 0;
    resp := Response(!bad, accepted, duplicates, errors);
    failure := if bad then first else None;
  }

  // ---------------------------------------------------------------- conservation

  function Results(w: World, r: Routing, entries: seq<LogEntry>, order: seq<Str>): seq<BatchResult> {
    if order == [] then []
    else
      var n := |order| - 1;
      Results(w, r, entries, order[..n]) + [Dispatch(w, r.local, order[n], Bucket(r, entries, order[n]))]
  }

  function TotalAccepted(w: World, r: Routing, entries: seq<LogEntry>, order: seq<Str>): int {
    if order == [] then 0
    else
      var n := |order| - 1;
      TotalAccepted(w, r, entries, order[..n]) + AcceptedOf(w, r.local, order[n], Bucket(r, entries, order[n]))
  }

  function TotalDuplicates(w: World, r: Routing, entries: seq<LogEntry>, order: seq<Str>): int {
    if order == [] then 0
    else
      var n := |order| - 1;
      TotalDuplicates(w, r, entries, order[..n]) + DuplicatesOf(w, r.local, order[n], Bucket(r, entries, order[n]))
  }

  function TotalErrors(w: World, r: Routing, entries: seq<LogEntry>, order: seq<Str>): seq<Str> {
    if order == [] then []
    else
      var n := |order| - 1;
      TotalErrors(w, r, entries, order[..n]) + ErrorsOf(w, r.local, order[n], Bucket(r, entries, order[n]))
  }

  /** Node `id` did not get its bucket. */
  predicate Missed(w: World, r: Routing, entries: seq<LogEntry>, id: Str) {
    !Reaches(w, r.local, id, Bucket(r, entries, id))
  }

  /** How many buckets did not reach their nodes. */
  function Failures(w: World, r: Routing, entries: seq<LogEntry>, order: seq<Str>): nat {
    if order == [] then 0
    else
      var n := |order| - 1;
      Failures(w, r, entries, order[..n]) + if Missed(w, r, entries, order[n]) then 1 else 0
  }

  /** The entries in those buckets. */
  function Undelivered(w: World, r: Routing, entries: seq<LogEntry>, order: seq<Str>): nat {
    if order == [] then 0
    else
      var n := |order| - 1;
      Undelivered(w, r, entries, order[..n]) + if Missed(w, r, entries, order[n]) then |Bucket(r, entries, order[n])| else 0
  }

  function Sizes(r: Routing, entries: seq<LogEntry>, order: seq<Str>): nat {
    if order == [] then 0 else Sizes(r, entries, order[..|order| - 1]) + |Bucket(r, entries, order[|order| - 1])|
  }

  lemma {:induction false} SizesAppend(r: Routing, entries: seq<LogEntry>, e: LogEntry, order: seq<Str>)
    requires Ring.DistinctIds(order)
    ensures Sizes(r, entries + [e], order) == Sizes(r, entries, order) + if Destination(r, e) in order then 1 else 0
  {
    if order != [] {
      var n := |order| - 1;
      SizesAppend(r, entries, e, order[..n]);
      BucketAppend(r, entries, e, order[n]);
      assert order == order[..n] + [order[n]];
    }
  }

  lemma {:induction false} SizesEmpty(r: Routing, order: seq<Str>)
    ensures Sizes(r, [], order) == 0
  {
    if order != [] { SizesEmpty(r, order[..|order| - 1]); }
  }

  /** The buckets together hold as many entries as the batch. */
  lemma {:induction false} BucketsCover(r: Routing, entries: seq<LogEntry>, order: seq<Str>)
    requires Ring.DistinctIds(order) && forall i :: 0 <= i < |entries| ==> Destination(r, entries[i]) in order
    ensures Sizes(r, entries, order) == |entries|
  {
    if entries == [] {
      SizesEmpty(r, order);
    } else {
      var n := |entries| - 1;
      BucketsCover(r, entries[..n], order);
      SizesAppend(r, entries[..n], entries[n], order);
      assert entries[..n] + [entries[n]] == entries;
    }
  }

  /** What a peer answers for, a bucket at a time. */
  lemma BucketTally(w: World, local: Str, id: Str, b: seq<LogEntry>)
    requires HonestPeers(w)
    ensures AcceptedOf(w, local, id, b) + DuplicatesOf(w, local, id, b) + |ErrorsOf(w, local, id, b)|
         == if Reaches(w, local, id, b) then |b| else 1
  {
    assert w.send(id, b).Replied? ==> var s := w.send(id, b); s.accepted + s.duplicates + |s.errors| == |b|;
  }

  lemma {:induction false} Tally(w: World, r: Routing, entries: seq<LogEntry>, order: seq<Str>)
    requires HonestPeers(w)
    ensures TotalAccepted(w, r, entries, order) + TotalDuplicates(w, r, entries, order)
      + (|TotalErrors(w, r, entries, order)| - Failures(w, r, entries, order)) + Undelivered(w, r, entries, order)
      == Sizes(r, entries, order)
  {
    if order != [] {
      var n := |order| - 1;
      Tally(w, r, entries, order[..n]);
      BucketTally(w, r.local, order[n], Bucket(r, entries, order[n]));
    }
  }

  lemma {:induction false} DestinationsBucketed(r: Routing, entries: seq<LogEntry>, i: nat)
    requires i < |entries|
    ensures Bucket(r, entries, Destination(r, entries[i])) != []
  {
    var n := |entries| - 1;
    if i < n { DestinationsBucketed(r, entries[..n], i); }
  }

  /** Every node with a bucket, once. */
  ghost predicate ArrivalOrder(r: Routing, entries: seq<LogEntry>, order: seq<Str>) {
    Ring.DistinctIds(order) && forall id :: id in order <==> Bucket(r, entries, id) != []
  }

  /** In whatever order the answers come in, accepted, duplicate, refused and undelivered entries add up
      to the batch, and the undelivered ones are whole buckets of failed nodes. */
  lemma BatchConserved(w: World, r: Routing, entries: seq<LogEntry>, order: seq<Str>)
    requires HonestPeers(w) && ArrivalOrder(r, entries, order)
    ensures TotalAccepted(w, r, entries, order) + TotalDuplicates(w, r, entries, order)
      + (|TotalErrors(w, r, entries, order)| - Failures(w, r, entries, order)) + Undelivered(w, r, entries, order)
      == |entries|
  {
    Tally(w, r, entries, order);
    forall i | 0 <= i < |entries| ensures Destination(r, entries[i]) in order {
      DestinationsBucketed(r, entries, i);
    }
    BucketsCover(r, entries, order);
  }

  /** The answers, in order of arrival, add up to what the buckets came to. */
  lemma {:induction false} ResultsAddUp(w: World, r: Routing, entries: seq<LogEntry>, order: seq<Str>)
    ensures var rs := Results(w, r, entries, order);
      && |rs| == |order|
      && SumAccepted(rs) == TotalAccepted(w, r, entries, order) && SumDuplicates(rs) == TotalDuplicates(w, r, entries, order)
      && AllErrors(rs) == TotalErrors(w, r, entries, order)
      && forall i :: 0 <= i < |rs| ==> rs[i].node == order[i] && rs[i].failed == Missed(w, r, entries, order[i])
  {
    if order != [] {
      var n := |order| - 1;
      ResultsAddUp(w, r, entries, order[..n]);
      DispatchReports(w, r.local, order[n], Bucket(r, entries, order[n]));
      var before, rs := Results(w, r, entries, order[..n]), Results(w, r, entries, order);
      assert rs[..|rs| - 1] == before;
    }
  }

  ghost predicate SomeMissed(w: World, r: Routing, entries: seq<LogEntry>, order: seq<Str>) {
    exists id :: id in order && Missed(w, r, entries, id)
  }

  /** Every bucket that does not reach its node adds a text. */
  lemma {:induction false} FailureShows(w: World, r: Routing, entries: seq<LogEntry>, order: seq<Str>)
    ensures Failures(w, r, entries, order) <= |TotalErrors(w, r, entries, order)|
    ensures Failures(w, r, entries, order) > 0 <==> SomeMissed(w, r, entries, order)
    ensures Undelivered(w, r, entries, order) > 0 ==> Failures(w, r, entries, order) > 0
  {
    if order != [] {
      var n := |order| - 1;
      FailureShows(w, r, entries, order[..n]);
      assert order == order[..n] + [order[n]];
      if SomeMissed(w, r, entries, order) && !Missed(w, r, entries, order[n]) {
        var id :| id in order && Missed(w, r, entries, id);
        assert id in order[..n];
      }
      if SomeMissed(w, r, entries, order[..n]) {
        var id :| id in order[..n] && Missed(w, r, entries, id);
        assert id in order;
      }
    }
  }

  lemma FailureIsMissed(w: World, r: Routing, entries: seq<LogEntry>, order: seq<Str>)
    ensures !NoneFailed(Results(w, r, entries, order)) <==> SomeMissed(w, r, entries, order)
    ensures forall node :: FirstFailed(Results(w, r, entries, order), node) ==> node in order && Missed(w, r, entries, node)
  {
    var rs := Results(w, r, entries, order);
    ResultsAddUp(w, r, entries, order);
    if SomeMissed(w, r, entries, order) {
      var id :| id in order && Missed(w, r, entries, id);
      var i :| 0 <= i < |order| && order[i] == id;
      assert rs[i].failed;
    }
    if i :| 0 <= i < |rs| && rs[i].failed { assert order[i] in order && Missed(w, r, entries, order[i]); }
    forall node | FirstFailed(rs, node) ensures node in order && Missed(w, r, entries, node) {
      var i: nat :| FailedFirst(rs, i) && rs[i].node == node;
      assert order[i] == node;
    }
  }

  /** `RouteBatch`, in terms of what became of each bucket: the counts and texts add up, entries that reached no
      node always show as an error text, and the call itself fails only when nothing at all was accepted and some
      bucket did not reach its node. */
  method RouteBatch(h: Ring.HashRing, r: Routing, w: World, entries: seq<LogEntry>)
    returns (resp: Response, failure: Option<Str>, ghost order: seq<Str>)
    requires h.Valid() && r.ring == h.ring && r.hash == h.hash
    ensures ArrivalOrder(r, entries, order)
    ensures resp.accepted == TotalAccepted(w, r, entries, order) && resp.duplicates == TotalDuplicates(w, r, entries, order)
    ensures resp.errors == TotalErrors(w, r, entries, order) && |resp.errors| >= Failures(w, r, entries, order)
    ensures HonestPeers(w) ==>
      resp.accepted + resp.duplicates + (|resp.errors| - Failures(w, r, entries, order)) + Undelivered(w, r, entries, order) == |entries|
    ensures resp.errors == [] ==> Undelivered(w, r, entries, order) == 0
    ensures failure.Some? <==> resp.accepted == 0 && SomeMissed(w, r, entries, order)
    ensures failure.Some? ==> failure.value in order && Missed(w, r, entries, failure.value)
    ensures resp.ok <==> resp.errors == [] || resp.accepted != 0
  {
    if |entries| == 0 {
      order := [];
      FailureShows(w, r, entries, order);
      return Response(true, 0, 0, []), None, order;
    }
    var buckets, targets := GroupEntries(h, r, entries);
    var results;
    results, order := DispatchAll(w, r, entries, buckets);
    resp, failure := Aggregate(results);
    ResultsAddUp(w, r, entries, order);
    FailureIsMissed(w, r, entries, order);
    FailureShows(w, r, entries, order);
    if HonestPeers(w) { BatchConserved(w, r, entries, order); }
  }

  /** The dispatch goroutines, their answers in any order of arrival. */
  method DispatchAll(w: World, r: Routing, entries: seq<LogEntry>, buckets: map<Str, seq<LogEntry>>)
    returns (results: seq<BatchResult>, ghost order: seq<Str>)
    requires Grouped(r, entries, buckets)
    ensures ArrivalOrder(r, entries, order) && results == Results(w, r, entries, order)
  {
    results, order := [], [];
    var todo := buckets.Keys;
    while todo != {}
      invariant Ring.DistinctIds(order) && todo <= buckets.Keys
      invariant forall id :: id in order <==> id in buckets.Keys - todo
      invariant results == Results(w, r, entries, order)
      decreases |todo|
    {
      var id :| id in todo;
      assert (order + [id])[..|order|] == order;
      assert forall i :: 0 <= i < |order| ==> order[i] in order;
      assert GroupedAt(r, entries, buckets, id);
      results := results + [Dispatch(w, r.local, id, buckets[id])];
      order := order + [id];
      todo := todo - {id};
    }
    forall id ensures id in order <==> Bucket(r, entries, id) != [] {
      assert GroupedAt(r, entries, buckets, id);
    }
  }
}
