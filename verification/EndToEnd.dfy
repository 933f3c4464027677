/** Agent and server together: when the spool's order and the server's duplicate filter add up to storing
    every delivered batch exactly once, in the order in which batches were formed. */
module EndToEnd {
  import opened GoText
  import opened LogEntries
  import opened DedupHistory
  import opened Ingest
  import opened IngestRetry
  import opened Delivery
  import opened DeliveryProofs
  import opened DeliveryLimits

  /** A batch reaching the server, with the moments its entries are offered to the filter. */
  datatype Arrival = Arrival(batch: nat, at: seq<int>)

  type Payload = nat -> seq<LogEntry>

  predicate IdsDiffer(payload: Payload, b: nat, i: nat, c: nat, j: nat) {
    i < |payload(b)| && j < |payload(c)| && (b != c || i != j) ==> payload(b)[i].id != payload(c)[j].id
  }

  /** Entry ids are unique, within a batch and across batches. */
  ghost predicate UniqueIds(payload: Payload) {
    forall b: nat, i: nat, c: nat, j: nat :: IdsDiffer(payload, b, i, c, j)
  }

  ghost predicate BatchesFit(payload: Payload, capacity: nat) {
    forall b: nat :: |payload(b)| <= capacity
  }

  predicate Shaped(arrivals: seq<Arrival>, payload: Payload) {
    forall k :: 0 <= k < |arrivals| ==> |arrivals[k].at| == |payload(arrivals[k].batch)|
  }

  /** A batch delivered twice in a row comes back within the window. */
  predicate PromptPair(p: Arrival, a: Arrival, window: int) {
    p.batch == a.batch && |p.at| == |a.at| ==> forall i :: 0 <= i < |a.at| ==> a.at[i] - p.at[i] <= window
  }

  predicate PromptRedelivery(arrivals: seq<Arrival>, window: int) {
    var n := |arrivals| - 1;
    n < 1 || (PromptPair(arrivals[n - 1], arrivals[n], window) && PromptRedelivery(arrivals[..n], window))
  }

  function Submitted(a: Arrival, payload: Payload): (r: seq<Submission>)
    requires |a.at| == |payload(a.batch)|
    ensures |r| == |a.at|
  {
    seq(|a.at|, i requires 0 <= i < |a.at| => Submission(payload(a.batch)[i], a.at[i]))
  }

  function AllSubmitted(arrivals: seq<Arrival>, payload: Payload): seq<Submission>
    requires Shaped(arrivals, payload)
  {
    if arrivals == [] then []
    else AllSubmitted(arrivals[..|arrivals| - 1], payload) + Submitted(arrivals[|arrivals| - 1], payload)
  }

  function Batches(arrivals: seq<Arrival>): seq<nat> {
    seq(|arrivals|, k requires 0 <= k < |arrivals| => arrivals[k].batch)
  }

  function Entries(batches: seq<nat>, payload: Payload): seq<LogEntry> {
    if batches == [] then [] else Entries(batches[..|batches| - 1], payload) + payload(batches[|batches| - 1])
  }

  // ---------------------------------------------------------------- what has been submitted

  lemma BatchesGrow(arrivals: seq<Arrival>)
    requires arrivals != []
    ensures Batches(arrivals) == Batches(arrivals[..|arrivals| - 1]) + [arrivals[|arrivals| - 1].batch]
  {
  }

  /** The ids of a batch that has not arrived have not been submitted. */
  lemma {:induction false} NotSubmitted(arrivals: seq<Arrival>, payload: Payload, b: nat, i: nat)
    requires Shaped(arrivals, payload) && UniqueIds(payload) && b !in Batches(arrivals) && i < |payload(b)|
    ensures payload(b)[i].id !in SubIds(AllSubmitted(arrivals, payload))
  {
    if arrivals != [] {
      var n := |arrivals| - 1;
      var c, last := arrivals[n].batch, Submitted(arrivals[n], payload);
      BatchesGrow(arrivals);
      NotSubmitted(arrivals[..n], payload, b, i);
      forall k | 0 <= k < |last| ensures last[k].entry.id != payload(b)[i].id {
        assert IdsDiffer(payload, c, k, b, i);
      }
      SubIdsConcat(AllSubmitted(arrivals[..n], payload), last);
    }
  }

  lemma {:induction false} AllSubmittedConcat(a: seq<Arrival>, b: seq<Arrival>, payload: Payload)
    requires Shaped(a, payload) && Shaped(b, payload)
    ensures AllSubmitted(a + b, payload) == AllSubmitted(a, payload) + AllSubmitted(b, payload)
  {
    if b == [] {
      assert a + b == a;
    } else {
      var n := |b| - 1;
      AllSubmittedConcat(a, b[..n], payload);
      AllSubmittedStep(a + b[..n], b[n], payload);
      ConcatSnoc(a, b);
      ConcatAssoc(AllSubmitted(a, payload), AllSubmitted(b[..n], payload), Submitted(b[n], payload));
    }
  }

  lemma ConcatSnoc<T>(a: seq<T>, b: seq<T>)
    requires b != []
    ensures a + b == (a + b[..|b| - 1]) + [b[|b| - 1]]
  {
  }

  lemma ConcatAssoc<T>(a: seq<T>, b: seq<T>, c: seq<T>)
    ensures a + b + c == a + (b + c)
  {
  }

  lemma AllSubmittedStep(arrivals: seq<Arrival>, a: Arrival, payload: Payload)
    requires Shaped(arrivals, payload) && |a.at| == |payload(a.batch)|
    ensures AllSubmitted(arrivals + [a], payload) == AllSubmitted(arrivals, payload) + Submitted(a, payload)
  {
    assert (arrivals + [a])[..|arrivals|] == arrivals;
  }

  // ---------------------------------------------------------------- a batch that is new

  /** A batch that has not arrived before is stored whole. */
  lemma {:induction false} NewBatchStored(arrivals: seq<Arrival>, a: Arrival, payload: Payload, lim: Limits, n: nat)
    requires Shaped(arrivals, payload) && |a.at| == |payload(a.batch)| && UniqueIds(payload)
    requires a.batch !in Batches(arrivals) && n <= |a.at|
    ensures Fresh(After([], AllSubmitted(arrivals, payload)), Submitted(a, payload)[..n], lim) == payload(a.batch)[..n]
  {
    var h, subs := After([], AllSubmitted(arrivals, payload)), Submitted(a, payload);
    if n > 0 {
      NewBatchStored(arrivals, a, payload, lim, n - 1);
      NewIdUnknown(arrivals, a, payload, n - 1);
      assert subs[n - 1].entry == payload(a.batch)[n - 1];
      UnknownStored(h, subs, lim, n);
      OneMore(payload(a.batch), n);
    } else {
      assert subs[..0] == [];
    }
  }

  lemma OneMore<T>(s: seq<T>, n: nat)
    requires 0 < n <= |s|
    ensures s[..n] == s[..n - 1] + [s[n - 1]]
  {
  }

  /** A submission with an id never offered before is stored. */
  lemma UnknownStored(h: seq<Offer>, subs: seq<Submission>, lim: Limits, n: nat)
    requires 0 < n <= |subs| && LastOffer(After(h, subs[..n - 1]), subs[n - 1].entry.id) < 0
    ensures Fresh(h, subs[..n], lim) == Fresh(h, subs[..n - 1], lim) + [subs[n - 1].entry]
  {
    OneMore(subs, n);
    FreshStep(h, subs[..n - 1], subs[n - 1], lim);
  }

  lemma NeverOffered(subs: seq<Submission>, id: Str)
    requires id !in SubIds(subs)
    ensures LastOffer(After([], subs), id) < 0
  {
    forall k | 0 <= k < |subs| ensures After([], subs)[k].id != id {
      AfterAt([], subs, k);
      assert subs[k].entry.id in SubIds(subs);
    }
  }

  lemma NewIdUnknown(arrivals: seq<Arrival>, a: Arrival, payload: Payload, n: nat)
    requires Shaped(arrivals, payload) && |a.at| == |payload(a.batch)| && UniqueIds(payload)
    requires a.batch !in Batches(arrivals) && n < |a.at|
    ensures LastOffer(After(After([], AllSubmitted(arrivals, payload)), Submitted(a, payload)[..n]),
                      payload(a.batch)[n].id) < 0
  {
    var before, subs, id := AllSubmitted(arrivals, payload), Submitted(a, payload)[..n], payload(a.batch)[n].id;
    NotSubmitted(arrivals, payload, a.batch, n);
    forall k | 0 <= k < |subs| ensures subs[k].entry.id != id {
      assert IdsDiffer(payload, a.batch, k, a.batch, n);
    }
    SubIdsConcat(before, subs);
    NeverOffered(before + subs, id);
    AfterConcat([], before, subs);
  }

  lemma NewStep(init: seq<Arrival>, a: Arrival, payload: Payload, lim: Limits)
    requires UniqueIds(payload) && a.batch !in Batches(init)
    requires |a.at| == |payload(a.batch)| && Shaped(init, payload)
    ensures Fresh(After([], AllSubmitted(init, payload)), Submitted(a, payload), lim) == payload(a.batch)
  {
    NewBatchStored(init, a, payload, lim, |a.at|);
    assert Submitted(a, payload)[..|a.at|] == Submitted(a, payload);
    assert payload(a.batch)[..|a.at|] == payload(a.batch);
  }

  // ---------------------------------------------------------------- a batch that comes again

  predicate LastArrival(arrivals: seq<Arrival>, j: nat, b: nat) {
    j < |arrivals| && arrivals[j].batch == b && b !in Batches(arrivals[j + 1..])
  }

  /** If `a` repeats a batch: at most `capacity` different ids have been submitted since that batch last
      came, itself included, and each of its entries comes back within the window. */
  predicate ComesInTime(before: seq<Arrival>, a: Arrival, payload: Payload, lim: Limits)
    requires Shaped(before, payload) && |a.at| == |payload(a.batch)|
  {
    forall j :: 0 <= j < |before| && LastArrival(before, j, a.batch) && a.at != [] ==>
      InTime(Submitted(before[j], payload), AllSubmitted(before[j + 1..], payload), Submitted(a, payload), lim)
  }

  predicate RepeatsInTime(arrivals: seq<Arrival>, payload: Payload, lim: Limits)
    requires Shaped(arrivals, payload)
  {
    forall k :: 0 <= k < |arrivals| ==> ComesInTime(arrivals[..k], arrivals[k], payload, lim)
  }

  lemma {:induction false} FindLast(arrivals: seq<Arrival>, b: nat) returns (j: nat)
    requires b in Batches(arrivals)
    ensures LastArrival(arrivals, j, b)
    decreases |arrivals|
  {
    var n := |arrivals| - 1;
    if arrivals[n].batch == b {
      j := n;
      assert Batches(arrivals[n + 1..]) == [];
    } else {
      BatchesGrow(arrivals);
      j := FindLast(arrivals[..n], b);
      assert arrivals[j + 1..] == arrivals[..n][j + 1..] + [arrivals[n]];
      BatchesGrow(arrivals[j + 1..]);
      assert arrivals[j + 1..][..|arrivals[j + 1..]| - 1] == arrivals[..n][j + 1..];
    }
  }

  lemma LaterArrivals(arrivals: seq<Arrival>, i: nat)
    requires i < |arrivals|
    ensures forall j :: i < j < |arrivals| ==> arrivals[j].batch in Batches(arrivals[i + 1..])
  {
    forall j | i < j < |arrivals| ensures arrivals[j].batch in Batches(arrivals[i + 1..]) {
      assert Batches(arrivals[i + 1..])[j - i - 1] == arrivals[j].batch;
    }
  }

  lemma OneLast(arrivals: seq<Arrival>, i: nat, j: nat, b: nat)
    requires LastArrival(arrivals, i, b) && LastArrival(arrivals, j, b)
    ensures i == j
  {
    LaterArrivals(arrivals, i);
    LaterArrivals(arrivals, j);
  }

  lemma SubmittedAround(a: seq<Arrival>, p: Arrival, b: seq<Arrival>, payload: Payload)
    requires Shaped(a, payload) && |p.at| == |payload(p.batch)| && Shaped(b, payload)
    ensures AllSubmitted(a + [p] + b, payload) == AllSubmitted(a, payload) + Submitted(p, payload) + AllSubmitted(b, payload)
  {
    AllSubmittedStep(a, p, payload);
    AllSubmittedConcat(a + [p], b, payload);
  }

  /** What was submitted before, split at arrival `j`. */
  lemma SplitSubmitted(arrivals: seq<Arrival>, j: nat, payload: Payload)
    requires Shaped(arrivals, payload) && j < |arrivals|
    ensures AllSubmitted(arrivals, payload)
         == AllSubmitted(arrivals[..j], payload) + Submitted(arrivals[j], payload) + AllSubmitted(arrivals[j + 1..], payload)
  {
    SubmittedAround(arrivals[..j], arrivals[j], arrivals[j + 1..], payload);
    PartsOf(arrivals, j);
  }

  lemma PartsOf<T>(s: seq<T>, j: nat)
    requires j < |s|
    ensures s[..j] + [s[j]] + s[j + 1..] == s
  {
  }

  lemma SubmittedIds(p: Arrival, a: Arrival, payload: Payload)
    requires UniqueIds(payload) && p.batch == a.batch && |p.at| == |a.at| == |payload(a.batch)|
    ensures IdsOnce(Submitted(p, payload)) && SameIds(Submitted(p, payload), Submitted(a, payload))
  {
    var first := Submitted(p, payload);
    forall i, j | 0 <= i < j < |first| ensures first[i].entry.id != first[j].entry.id {
      assert IdsDiffer(payload, a.batch, i, a.batch, j);
    }
  }

  lemma OthersDiffer(p: Arrival, others: seq<Arrival>, payload: Payload)
    requires UniqueIds(payload) && |p.at| == |payload(p.batch)| && Shaped(others, payload) && p.batch !in Batches(others)
    ensures SubIds(Submitted(p, payload)) !! SubIds(AllSubmitted(others, payload))
  {
    var first := Submitted(p, payload);
    forall x | x in SubIds(first) ensures x !in SubIds(AllSubmitted(others, payload)) {
      var k :| 0 <= k < |first| && first[k].entry.id == x;
      NotSubmitted(others, payload, p.batch, k);
    }
  }

  /** A repeat adds nothing if and only if it comes in time. */
  lemma RepeatStep(init: seq<Arrival>, a: Arrival, payload: Payload, lim: Limits)
    requires Shaped(init, payload) && |a.at| == |payload(a.batch)| && a.batch in Batches(init) && UniqueIds(payload)
    ensures Fresh(After([], AllSubmitted(init, payload)), Submitted(a, payload), lim) == [] <==> ComesInTime(init, a, payload, lim)
  {
    var j := FindLast(init, a.batch);
    if a.at != [] { RepeatAt(init, j, a, payload, lim); }
    ComesInTimeAt(init, j, a, payload, lim);
  }

  lemma ComesInTimeAt(init: seq<Arrival>, j: nat, a: Arrival, payload: Payload, lim: Limits)
    requires Shaped(init, payload) && |a.at| == |payload(a.batch)| && LastArrival(init, j, a.batch)
    ensures ComesInTime(init, a, payload, lim) <==>
      (a.at != [] ==> InTime(Submitted(init[j], payload), AllSubmitted(init[j + 1..], payload), Submitted(a, payload), lim))
  {
    forall i: nat | LastArrival(init, i, a.batch) ensures i == j { OneLast(init, i, j, a.batch); }
  }

  lemma RepeatAt(init: seq<Arrival>, j: nat, a: Arrival, payload: Payload, lim: Limits)
    requires Shaped(init, payload) && |a.at| == |payload(a.batch)| && UniqueIds(payload)
    requires LastArrival(init, j, a.batch) && a.at != []
    ensures Fresh(After([], AllSubmitted(init, payload)), Submitted(a, payload), lim) == []
       <==> InTime(Submitted(init[j], payload), AllSubmitted(init[j + 1..], payload), Submitted(a, payload), lim)
  {
    var before, p, others := AllSubmitted(init[..j], payload), init[j], init[j + 1..];
    SplitSubmitted(init, j, payload);
    AfterConcat([], before + Submitted(p, payload), AllSubmitted(others, payload));
    AfterConcat([], before, Submitted(p, payload));
    SubmittedIds(p, a, payload);
    OthersDiffer(p, others, payload);
    RepeatDroppedIff(After([], before), Submitted(p, payload), AllSubmitted(others, payload), Submitted(a, payload), lim);
  }

  // ---------------------------------------------------------------- any sequence of arrivals

  /** What one more arrival adds to the store. */
  lemma ArrivalStep(init: seq<Arrival>, a: Arrival, payload: Payload, lim: Limits) returns (added: seq<LogEntry>)
    requires Shaped(init, payload) && |a.at| == |payload(a.batch)| && UniqueIds(payload)
    ensures Fresh([], AllSubmitted(init, payload) + Submitted(a, payload), lim) == Fresh([], AllSubmitted(init, payload), lim) + added
    ensures a.batch !in Batches(init) ==> added == payload(a.batch) && ComesInTime(init, a, payload, lim)
    ensures a.batch in Batches(init) ==> (added == [] <==> ComesInTime(init, a, payload, lim))
  {
    FreshConcat([], AllSubmitted(init, payload), Submitted(a, payload), lim);
    added := Fresh(After([], AllSubmitted(init, payload)), Submitted(a, payload), lim);
    if a.batch in Batches(init) {
      RepeatStep(init, a, payload, lim);
    } else {
      NewStep(init, a, payload, lim);
      assert forall j :: 0 <= j < |init| ==> Batches(init)[j] == init[j].batch;
    }
  }

  lemma EntriesStep(batches: seq<nat>, b: nat, payload: Payload)
    ensures Entries(batches + [b], payload) == Entries(batches, payload) + payload(b)
  {
    assert (batches + [b])[..|batches|] == batches;
  }

  lemma EntriesGrow(init: seq<nat>, b: nat, payload: Payload)
    ensures Entries(FirstArrivals(init + [b]), payload)
         == Entries(FirstArrivals(init), payload) + if b in init then [] else payload(b)
  {
    assert (init + [b])[..|init|] == init;
    EntriesStep(FirstArrivals(init), b, payload);
  }

  lemma InTimeStep(arrivals: seq<Arrival>, payload: Payload, lim: Limits)
    requires arrivals != [] && Shaped(arrivals, payload)
    ensures var n := |arrivals| - 1;
      RepeatsInTime(arrivals, payload, lim) <==>
        RepeatsInTime(arrivals[..n], payload, lim) && ComesInTime(arrivals[..n], arrivals[n], payload, lim)
  {
    var n := |arrivals| - 1;
    forall k | 0 <= k < n ensures arrivals[..n][k] == arrivals[k] && arrivals[..n][..k] == arrivals[..k] {
    }
  }

  /** Every batch is stored at least at its first arrival, and nothing more exactly if repeats are in time. */
  lemma {:induction false} StoredAtLeastOnce(arrivals: seq<Arrival>, payload: Payload, lim: Limits)
    requires Shaped(arrivals, payload) && UniqueIds(payload)
    ensures var stored, once := Fresh([], AllSubmitted(arrivals, payload), lim), Entries(FirstArrivals(Batches(arrivals)), payload);
      && |once| <= |stored|
      && (RepeatsInTime(arrivals, payload, lim) ==> stored == once)
      && (|stored| == |once| ==> RepeatsInTime(arrivals, payload, lim))
  {
    if arrivals != [] {
      var n := |arrivals| - 1;
      var init, a := arrivals[..n], arrivals[n];
      StoredAtLeastOnce(init, payload, lim);
      var added := ArrivalStep(init, a, payload, lim);
      BatchesGrow(arrivals);
      EntriesGrow(Batches(init), a.batch, payload);
      InTimeStep(arrivals, payload, lim);
    }
  }

  /** Whatever the order of arrivals and the sizes of batches, the server stores every batch that arrives
      exactly once, whole, at its first arrival, if and only if every repeat comes in time. */
  lemma StoredOnceIff(arrivals: seq<Arrival>, payload: Payload, lim: Limits)
    requires Shaped(arrivals, payload) && UniqueIds(payload)
    ensures Fresh([], AllSubmitted(arrivals, payload), lim) == Entries(FirstArrivals(Batches(arrivals)), payload)
       <==> RepeatsInTime(arrivals, payload, lim)
  {
    StoredAtLeastOnce(arrivals, payload, lim);
  }

  /** End to end, for every interleaving, every crash and every failure of the file system: what the server
      stores is the batches that reached it, each once, exactly if repeats come in time; and they are in the
      order in which they were formed if undelivered segments are not left behind. */
  lemma ExactlyOnceEndToEnd(c: Config, steps: seq<Step>, arrivals: seq<Arrival>, payload: Payload, lim: Limits)
    requires Legal(c, Init(), steps) && Batches(arrivals) == Exec(c, Init(), steps).log
    requires Shaped(arrivals, payload) && UniqueIds(payload)
    ensures var order := FirstArrivals(Exec(c, Init(), steps).log);
      && (Fresh([], AllSubmitted(arrivals, payload), lim) == Entries(order, payload) <==> RepeatsInTime(arrivals, payload, lim))
      && (TameRun(c, Init(), steps, false) ==> StrictlyIncreasing(order))
  {
    StoredOnceIff(arrivals, payload, lim);
    if TameRun(c, Init(), steps, false) { StrictFifo(c, steps); }
  }

  /** The ingest handler that served those arrivals, none refused by storage, holds exactly that. */
  lemma HandlerStoresExactlyOnce(handler: Handler, c: Config, steps: seq<Step>, arrivals: seq<Arrival>, payload: Payload)
    requires Legal(c, Init(), steps) && Batches(arrivals) == Exec(c, Init(), steps).log
    requires Shaped(arrivals, payload) && UniqueIds(payload)
    requires handler.Complete() && handler.submitted == AllSubmitted(arrivals, payload)
    ensures handler.stored == Entries(FirstArrivals(Exec(c, Init(), steps).log), payload)
       <==> RepeatsInTime(arrivals, payload, handler.Lim())
  {
    ExactlyOnceEndToEnd(c, steps, arrivals, payload, handler.Lim());
  }

  // ---------------------------------------------------------------- served by the handler

  /** The readings of an arrival, with the id that would be generated if one were missing. */
  function Ticks(a: Arrival, freshId: Str): (r: seq<Tick>)
    ensures |r| == |a.at|
  {
    seq(|a.at|, i requires 0 <= i < |a.at| => Tick(a.at[i], freshId))
  }

  /** Validation takes the entries as they are. */
  ghost predicate PassesUnchanged(e: LogEntry, host: Str, max: int, freshId: Str) {
    forall at :: Prepare(e, host, max, Tick(at, freshId)) == Accepted(e)
  }

  ghost predicate AllPass(entries: seq<LogEntry>, host: Str, max: int, freshId: Str) {
    forall i :: 0 <= i < |entries| ==> PassesUnchanged(entries[i], host, max, freshId)
  }

  lemma {:induction false} SubmissionsOf(a: Arrival, payload: Payload, host: Str, max: int, freshId: Str, n: nat)
    requires n <= |a.at| == |payload(a.batch)| && AllPass(payload(a.batch), host, max, freshId)
    ensures Submissions(payload(a.batch), Ticks(a, freshId), host, max, n) == Submitted(a, payload)[..n]
  {
    if n > 0 {
      SubmissionsOf(a, payload, host, max, freshId, n - 1);
      var e, tick := payload(a.batch)[n - 1], Ticks(a, freshId)[n - 1];
      assert PassesUnchanged(e, host, max, freshId) && tick == Tick(a.at[n - 1], freshId);
      assert Prepare(e, host, max, tick) == Accepted(e);
      OneMore(Submitted(a, payload), n);
    }
  }

  /** The server's clock over the arrivals: each begins when the one before has ended. */
  predicate Clocked(arrivals: seq<Arrival>, freshId: Str, bounds: seq<int>) {
    |bounds| == |arrivals| + 1 && forall k :: 0 <= k < |arrivals| ==> Timed(Ticks(arrivals[k], freshId), bounds[k], bounds[k + 1])
  }

  /** The handler takes one arrival. */
  method ServeOne(handler: Handler, a: Arrival, payload: Payload, host: Str, freshId: Str, ghost from: int, ghost until: int)
    requires handler.Valid() && handler.Complete() && NotBefore(handler.history, from)
    requires |a.at| == |payload(a.batch)| && Timed(Ticks(a, freshId), from, until)
    requires AllPass(payload(a.batch), host, handler.maxMessageBytes, freshId)
    modifies handler`stored, handler`history, handler`submitted, handler.dedup
    ensures handler.Valid() && handler.Complete() && handler.Lim() == old(handler.Lim()) && NotBefore(handler.history, until)
    ensures handler.submitted == old(handler.submitted) + Submitted(a, payload)
  {
    var accepted;
    ghost var subs;
    SubmissionsOf(a, payload, host, handler.maxMessageBytes, freshId, |a.at|);
    assert Submitted(a, payload)[..|a.at|] == Submitted(a, payload);
    accepted, subs := Request(handler, payload(a.batch), Ticks(a, freshId), host, true, from, until);
  }

  /** A new handler serves a run of arrivals, none refused by storage: it holds every batch once, whole and at
      its first arrival, if and only if repeats come in time. */
  method Serve(handler: Handler, arrivals: seq<Arrival>, payload: Payload, host: Str, freshId: Str, ghost bounds: seq<int>)
    requires handler.Valid() && handler.Complete() && handler.submitted == []
    requires Shaped(arrivals, payload) && UniqueIds(payload) && Clocked(arrivals, freshId, bounds)
    requires forall b: nat :: AllPass(payload(b), host, handler.maxMessageBytes, freshId)
    modifies handler, handler.dedup
    ensures handler.Valid() && handler.Complete() && handler.submitted == AllSubmitted(arrivals, payload)
    ensures handler.stored == Entries(FirstArrivals(Batches(arrivals)), payload) <==> RepeatsInTime(arrivals, payload, handler.Lim())
  {
    var k := 0;
    while k < |arrivals|
      invariant 0 <= k <= |arrivals| && handler.Valid() && handler.Complete() && NotBefore(handler.history, bounds[k])
      invariant handler.submitted == AllSubmitted(arrivals[..k], payload)
    {
      AllSubmittedStep(arrivals[..k], arrivals[k], payload);
      OneMore(arrivals, k + 1);
      ServeOne(handler, arrivals[k], payload, host, freshId, bounds[k], bounds[k + 1]);
      k := k + 1;
    }
    assert arrivals[..k] == arrivals;
    StoredOnceIff(arrivals, payload, handler.Lim());
  }

  // ---------------------------------------------------------------- delivered segments really unlinked

  /** In batch order a repeat directly follows the arrival it repeats. */
  lemma RepeatFollows(init: seq<Arrival>, j: nat, b: nat)
    requires Nondecreasing(Batches(init)) && Above(Batches(init), b) && LastArrival(init, j, b)
    ensures j == |init| - 1
  {
    var n := |init| - 1;
    if j < n {
      assert Batches(init)[j] <= Batches(init)[n] <= b;
      assert Batches(init[j + 1..])[n - j - 1] == b;
    }
  }

  lemma NextComesInTime(init: seq<Arrival>, a: Arrival, payload: Payload, lim: Limits)
    requires Shaped(init, payload) && |a.at| == |payload(a.batch)| && BatchesFit(payload, lim.capacity)
    requires Nondecreasing(Batches(init)) && Above(Batches(init), a.batch)
    requires init != [] ==> PromptPair(init[|init| - 1], a, lim.window)
    ensures ComesInTime(init, a, payload, lim)
  {
    forall j: nat | LastArrival(init, j, a.batch) && a.at != []
      ensures InTime(Submitted(init[j], payload), AllSubmitted(init[j + 1..], payload), Submitted(a, payload), lim)
    {
      RepeatFollows(init, j, a.batch);
      assert AllSubmitted(init[j + 1..], payload) == [];
      SubIdsBound(Submitted(init[j], payload));
      assert SubIds(Submitted(init[j], payload)) + SubIds([]) == SubIds(Submitted(init[j], payload));
    }
  }

  /** Arrivals in batch order that fit the filter and are repeated promptly come in time. */
  lemma {:induction false} InOrderInTime(arrivals: seq<Arrival>, payload: Payload, lim: Limits)
    requires Shaped(arrivals, payload) && BatchesFit(payload, lim.capacity)
    requires Nondecreasing(Batches(arrivals)) && PromptRedelivery(arrivals, lim.window)
    ensures RepeatsInTime(arrivals, payload, lim)
  {
    if arrivals != [] {
      var n := |arrivals| - 1;
      var log := Batches(arrivals);
      BatchesGrow(arrivals);
      assert Batches(arrivals[..n]) == log[..n] && log[n] == arrivals[n].batch;
      InOrderInTime(arrivals[..n], payload, lim);
      NextComesInTime(arrivals[..n], arrivals[n], payload, lim);
      InTimeStep(arrivals, payload, lim);
    }
  }

  lemma StoredOnceInOrder(arrivals: seq<Arrival>, payload: Payload, lim: Limits)
    requires Shaped(arrivals, payload) && UniqueIds(payload) && BatchesFit(payload, lim.capacity)
    requires Nondecreasing(Batches(arrivals)) && PromptRedelivery(arrivals, lim.window)
    ensures Fresh([], AllSubmitted(arrivals, payload), lim) == Entries(FirstArrivals(Batches(arrivals)), payload)
  {
    InOrderInTime(arrivals, payload, lim);
    StoredOnceIff(arrivals, payload, lim);
  }

  /** With delivered segments really unlinked, batches that fit the filter and come back promptly are
      stored once each, in the order in which they were formed. */
  lemma PromptRetriesStoredOnce(c: Config, steps: seq<Step>, arrivals: seq<Arrival>, payload: Payload, lim: Limits)
    requires Legal(c, Init(), steps) && TameRun(c, Init(), steps, true)
    requires Batches(arrivals) == Exec(c, Init(), steps).log
    requires Shaped(arrivals, payload) && UniqueIds(payload) && BatchesFit(payload, lim.capacity)
    requires PromptRedelivery(arrivals, lim.window)
    ensures var order := FirstArrivals(Exec(c, Init(), steps).log);
      && StrictlyIncreasing(order)
      && Fresh([], AllSubmitted(arrivals, payload), lim) == Entries(order, payload)
  {
    RunKeeps(c, Init(), steps, true);
    FirstArrivalsIncrease(Exec(c, Init(), steps).log);
    StoredOnceInOrder(arrivals, payload, lim);
  }

  // ---------------------------------------------------------------- a delivered segment that stays

  /** A tame run whose repeat comes too late: the removal of a delivered segment fails, another batch is
      delivered, and after a restart a filter of one id stores the first batch a second time. */
  lemma LateRepeatIsDoubled(c: Config, payload: Payload) returns (steps: seq<Step>, arrivals: seq<Arrival>)
    requires c.limit == 1 && UniqueIds(payload) && |payload(0)| == |payload(1)| == 1
    ensures Legal(c, Init(), steps) && TameRun(c, Init(), steps, false) && Batches(arrivals) == Exec(c, Init(), steps).log
    ensures Shaped(arrivals, payload)
    ensures Fresh([], AllSubmitted(arrivals, payload), Limits(100, 1))
         != Entries(FirstArrivals(Exec(c, Init(), steps).log), payload)
  {
    var s;
    steps, s := DeliveredTwice(c);
    arrivals := TooLate(payload, s.log, Limits(100, 1));
  }

  lemma TooLate(payload: Payload, log: seq<nat>, lim: Limits) returns (arrivals: seq<Arrival>)
    requires log == [0, 1, 0] && lim.capacity == 1 && UniqueIds(payload) && |payload(0)| == |payload(1)| == 1
    ensures Shaped(arrivals, payload) && Batches(arrivals) == log
    ensures Fresh([], AllSubmitted(arrivals, payload), lim) != Entries(FirstArrivals(log), payload)
  {
    var before, a := NotInTime(payload, lim);
    arrivals := before + [a];
    NotOnce(before, a, payload, lim);
    BatchesSnoc(before, a);
  }

  lemma BatchesSnoc(arrivals: seq<Arrival>, a: Arrival)
    ensures Batches(arrivals + [a]) == Batches(arrivals) + [a.batch]
  {
  }

  lemma NotOnce(before: seq<Arrival>, a: Arrival, payload: Payload, lim: Limits)
    requires Shaped(before, payload) && |a.at| == |payload(a.batch)| && UniqueIds(payload) && !ComesInTime(before, a, payload, lim)
    ensures Shaped(before + [a], payload)
    ensures Fresh([], AllSubmitted(before + [a], payload), lim) != Entries(FirstArrivals(Batches(before + [a])), payload)
  {
    var all := before + [a];
    assert all[..|before|] == before;
    InTimeStep(all, payload, lim);
    StoredOnceIff(all, payload, lim);
  }

  lemma NotInTime(payload: Payload, lim: Limits) returns (before: seq<Arrival>, a: Arrival)
    requires UniqueIds(payload) && |payload(0)| == |payload(1)| == 1 && lim.capacity == 1
    ensures Shaped(before, payload) && |a.at| == |payload(a.batch)| && !ComesInTime(before, a, payload, lim)
    ensures Batches(before) == [0, 1] && a.batch == 0
  {
    before, a := [Arrival(0, [0]), Arrival(1, [1])], Arrival(0, [2]);
    TwoIds(before, a, payload);
    ComesInTimeAt(before, 0, a, payload, lim);
  }

  lemma TwoIds(before: seq<Arrival>, a: Arrival, payload: Payload)
    requires before == [Arrival(0, [0]), Arrival(1, [1])] && a == Arrival(0, [2])
    requires UniqueIds(payload) && |payload(0)| == |payload(1)| == 1
    ensures Shaped(before, payload) && LastArrival(before, 0, 0)
    ensures |SubIds(Submitted(before[0], payload)) + SubIds(AllSubmitted(before[1..], payload))| >= 2
  {
    var x, y := payload(0)[0].id, payload(1)[0].id;
    assert IdsDiffer(payload, 0, 0, 1, 0);
    var first, rest := Submitted(before[0], payload), before[1..];
    assert rest == [before[1]] && Batches(rest) == [1];
    assert AllSubmitted(rest, payload) == Submitted(before[1], payload) by { assert rest[..0] == []; }
    assert first[0].entry.id == x && AllSubmitted(rest, payload)[0].entry.id == y;
    SubsetCard({x, y}, SubIds(first) + SubIds(AllSubmitted(rest, payload)));
  }
}
