/** Batches that are submitted again: which entries of a repeat are stored. */
module IngestRetry {
  import opened GoText
  import opened LogEntries
  import opened DedupHistory
  import opened Ingest

  /** Submission `i` is let through: it is what it adds to the store. */
  predicate LetThrough(h: seq<Offer>, subs: seq<Submission>, i: nat, lim: Limits)
    requires i < |subs|
  {
    Fresh(h, subs[..i + 1], lim) == Fresh(h, subs[..i], lim) + [subs[i].entry]
  }

  lemma PrefixStep(h: seq<Offer>, subs: seq<Submission>, i: nat, lim: Limits)
    requires i < |subs|
    ensures LetThrough(h, subs, i, lim) <==> !Recent(After(h, subs[..i]), subs[i].entry.id, subs[i].at, lim)
    ensures !LetThrough(h, subs, i, lim) ==> Fresh(h, subs[..i + 1], lim) == Fresh(h, subs[..i], lim)
  {
    assert subs[..i + 1] == subs[..i] + [subs[i]];
    FreshStep(h, subs[..i], subs[i], lim);
    var before := Fresh(h, subs[..i], lim);
    assert |before + [subs[i].entry]| == |before| + 1;
  }

  lemma {:induction false} AfterAt(h: seq<Offer>, subs: seq<Submission>, k: nat)
    requires k < |subs|
    ensures After(h, subs)[|h| + k] == Offer(subs[k].entry.id, subs[k].at)
  {
    if k < |subs| - 1 { AfterAt(h, subs[..|subs| - 1], k); }
  }

  lemma {:induction false} AfterPrefix(h: seq<Offer>, subs: seq<Submission>)
    ensures After(h, subs)[..|h|] == h
  {
    if subs != [] { AfterPrefix(h, subs[..|subs| - 1]); }
  }

  predicate Submits(subs: seq<Submission>, id: Str) {
    exists k :: 0 <= k < |subs| && subs[k].entry.id == id
  }

  /** An id that a request submitted has been offered since that request began. */
  lemma OfferedSince(h: seq<Offer>, subs: seq<Submission>, more: seq<Submission>, id: Str)
    requires Submits(subs, id)
    ensures LastOffer(After(After(h, subs), more), id) >= |h|
  {
    var k :| 0 <= k < |subs| && subs[k].entry.id == id;
    AfterAt(h, subs, k);
    var all := After(After(h, subs), more);
    AfterPrefix(After(h, subs), more);
    assert all[|h| + k] == After(h, subs)[|h| + k];
    assert |h| + k <= LastOffer(all, id);
  }

  /** Entry `i` of the repeat is stored if and only if the window has passed since its id was last offered, or
      at least `capacity` other ids have been offered since. */
  predicate StoredIffForgotten(h: seq<Offer>, first: seq<Submission>, between: seq<Submission>, again: seq<Submission>, i: nat, lim: Limits)
    requires i < |again|
  {
    var seen := After(After(After(h, first), between), again[..i]);
    var j := LastOffer(seen, again[i].entry.id);
    && j >= |h|
    && (LetThrough(After(After(h, first), between), again, i, lim)
        <==> again[i].at - seen[j].at > lim.window || |OfferIds(seen[j + 1..])| >= lim.capacity)
  }

  /** Whatever is offered after a request, and whether or not storage took it. */
  lemma RepeatStoredIff(h: seq<Offer>, first: seq<Submission>, between: seq<Submission>, again: seq<Submission>, i: nat, lim: Limits)
    requires i < |again| && Submits(first, again[i].entry.id)
    ensures StoredIffForgotten(h, first, between, again, i, lim)
  {
    var marked := After(After(h, first), between);
    AfterConcat(After(h, first), between, again[..i]);
    OfferedSince(h, first, between + again[..i], again[i].entry.id);
    PrefixStep(marked, again, i, lim);
  }

  // ---------------------------------------------------------------- a repeat of the whole batch

  predicate IdsOnce(subs: seq<Submission>) {
    forall i, j :: 0 <= i < j < |subs| ==> subs[i].entry.id != subs[j].entry.id
  }

  predicate SameIds(a: seq<Submission>, b: seq<Submission>) {
    |a| == |b| && forall i :: 0 <= i < |a| ==> a[i].entry.id == b[i].entry.id
  }

  function SubIds(subs: seq<Submission>): set<Str> {
    set i | 0 <= i < |subs| :: subs[i].entry.id
  }

  lemma {:induction false} SubIdsBound(subs: seq<Submission>)
    ensures |SubIds(subs)| <= |subs|
  {
    if subs != [] {
      var n := |subs| - 1;
      SubIdsBound(subs[..n]);
      assert SubIds(subs) <= SubIds(subs[..n]) + {subs[n].entry.id} by {
        forall x | x in SubIds(subs) ensures x in SubIds(subs[..n]) + {subs[n].entry.id} {
          var i :| 0 <= i < |subs| && subs[i].entry.id == x;
          if i < n { assert subs[..n][i].entry.id == x; }
        }
      }
      SubsetCard(SubIds(subs), SubIds(subs[..n]) + {subs[n].entry.id});
    }
  }

  lemma {:induction false} SubsetCard<T>(a: set<T>, b: set<T>)
    requires a <= b
    ensures |a| <= |b|
  {
    assert b == a + (b - a);
  }

  lemma SubIdsConcat(a: seq<Submission>, b: seq<Submission>)
    ensures SubIds(a + b) == SubIds(a) + SubIds(b)
  {
    forall x | x in SubIds(a) ensures x in SubIds(a + b) {
      var i :| 0 <= i < |a| && a[i].entry.id == x;
      assert (a + b)[i].entry.id == x;
    }
    forall x | x in SubIds(b) ensures x in SubIds(a + b) {
      var i :| 0 <= i < |b| && b[i].entry.id == x;
      assert (a + b)[|a| + i].entry.id == x;
    }
  }

  lemma SameIdSets(offers: seq<Offer>, subs: seq<Submission>)
    requires |offers| == |subs| && forall i :: 0 <= i < |subs| ==> offers[i].id == subs[i].entry.id
    ensures OfferIds(offers) == SubIds(subs)
  {
  }

  /** The ids offered after submission `n`. */
  lemma OfferedAfter(h: seq<Offer>, subs: seq<Submission>, n: nat)
    requires n < |subs|
    ensures OfferIds(After(h, subs)[|h| + n + 1..]) == SubIds(subs[n + 1..])
  {
    var since, rest := After(h, subs)[|h| + n + 1..], subs[n + 1..];
    forall i | 0 <= i < |rest| ensures since[i].id == rest[i].entry.id { OfferedAt(h, subs, n, i); }
    SameIdSets(since, rest);
  }

  lemma OfferedAt(h: seq<Offer>, subs: seq<Submission>, n: nat, i: nat)
    requires n + 1 + i < |subs|
    ensures After(h, subs)[|h| + n + 1..][i].id == subs[n + 1..][i].entry.id
  {
    AfterAt(h, subs, n + 1 + i);
  }

  /** What it takes for the last submission of an id to be remembered. */
  lemma RecentSince(h: seq<Offer>, subs: seq<Submission>, n: nat, now: int, lim: Limits)
    requires n < |subs| && subs[n].entry.id !in SubIds(subs[n + 1..])
    ensures Recent(After(h, subs), subs[n].entry.id, now, lim)
       <==> now - subs[n].at <= lim.window && |SubIds(subs[n + 1..])| < lim.capacity
  {
    var all, id := After(h, subs), subs[n].entry.id;
    AfterAt(h, subs, n);
    OfferedAfter(h, subs, n);
    forall i | |h| + n < i < |all| ensures all[i].id != id {
      assert all[|h| + n + 1..][i - |h| - n - 1] == all[i];
      assert all[i].id in OfferIds(all[|h| + n + 1..]);
    }
    assert LastOffer(all, id) == |h| + n;
  }

  lemma SameIdsPrefix(a: seq<Submission>, b: seq<Submission>, n: nat)
    requires SameIds(a, b) && n <= |a|
    ensures SubIds(b[..n]) == SubIds(a[..n])
  {
    assert forall i :: 0 <= i < n ==> a[..n][i].entry.id == b[..n][i].entry.id;
  }

  /** Between entry `n` and its repeat come exactly the other ids of its batch and those in between. */
  lemma IdsSince(first: seq<Submission>, between: seq<Submission>, again: seq<Submission>, n: nat)
    requires IdsOnce(first) && SameIds(first, again) && SubIds(first) !! SubIds(between) && n < |again|
    ensures var subs := first + between + again[..n];
      SubIds(subs[n + 1..]) == SubIds(first) + SubIds(between) - {again[n].entry.id}
  {
    var id, rest := again[n].entry.id, first[n + 1..] + between;
    assert (first + between + again[..n])[n + 1..] == rest + again[..n];
    SubIdsConcat(rest, again[..n]);
    SubIdsConcat(first[n + 1..], between);
    SameIdsPrefix(first, again, n);
    IdsAround(first, n);
    assert id in SubIds(first);
  }

  lemma IdsAround(subs: seq<Submission>, n: nat)
    requires IdsOnce(subs) && n < |subs|
    ensures SubIds(subs[..n]) + SubIds(subs[n + 1..]) == SubIds(subs) - {subs[n].entry.id}
  {
    var id := subs[n].entry.id;
    assert subs == subs[..n] + ([subs[n]] + subs[n + 1..]);
    SubIdsConcat(subs[..n], [subs[n]] + subs[n + 1..]);
    SubIdsConcat([subs[n]], subs[n + 1..]);
    assert SubIds([subs[n]]) == {id};
    assert id !in SubIds(subs[..n]) && id !in SubIds(subs[n + 1..]);
  }

  /** Everything offered since fits the filter and every entry comes back within the window. */
  predicate InTime(first: seq<Submission>, between: seq<Submission>, again: seq<Submission>, lim: Limits)
    requires |first| == |again|
  {
    && |SubIds(first) + SubIds(between)| <= lim.capacity
    && forall i :: 0 <= i < |again| ==> again[i].at - first[i].at <= lim.window
  }

  /** Entry `n` of a batch that comes again is remembered from the first time exactly under its part of that. */
  lemma RecalledIff(h: seq<Offer>, first: seq<Submission>, between: seq<Submission>, again: seq<Submission>, n: nat, lim: Limits)
    requires IdsOnce(first) && SameIds(first, again) && SubIds(first) !! SubIds(between) && n < |again|
    ensures Recent(After(After(After(h, first), between), again[..n]), again[n].entry.id, again[n].at, lim)
       <==> again[n].at - first[n].at <= lim.window && |SubIds(first) + SubIds(between)| <= lim.capacity
  {
    var subs, ids := first + between + again[..n], SubIds(first) + SubIds(between);
    AfterConcat(h, first, between);
    AfterConcat(h, first + between, again[..n]);
    IdsSince(first, between, again, n);
    assert subs[n] == first[n];
    RecentSince(h, subs, n, again[n].at, lim);
    assert again[n].entry.id in ids && |ids - {again[n].entry.id}| == |ids| - 1;
  }

  /** Every submission is a repeat that the filter remembers. */
  predicate AllRecent(h: seq<Offer>, subs: seq<Submission>, lim: Limits) {
    forall n :: 0 <= n < |subs| ==> Recent(After(h, subs[..n]), subs[n].entry.id, subs[n].at, lim)
  }

  lemma AllRecentStep(h: seq<Offer>, subs: seq<Submission>, s: Submission, lim: Limits)
    ensures AllRecent(h, subs + [s], lim) <==> AllRecent(h, subs, lim) && Recent(After(h, subs), s.entry.id, s.at, lim)
  {
    var all, n := subs + [s], |subs|;
    assert all[..n] == subs && all[n] == s;
    forall i | 0 <= i < n ensures all[i] == subs[i] && all[..i] == subs[..i] {
    }
  }

  lemma {:induction false} NothingStoredIff(h: seq<Offer>, subs: seq<Submission>, lim: Limits)
    ensures Fresh(h, subs, lim) == [] <==> AllRecent(h, subs, lim)
  {
    if subs != [] {
      var init, s := subs[..|subs| - 1], subs[|subs| - 1];
      var before := Fresh(h, init, lim);
      assert before == [] <==> AllRecent(h, init, lim) by { NothingStoredIff(h, init, lim); }
      assert subs == init + [s];
      assert |before + [s.entry]| > 0;
      FreshStep(h, init, s, lim);
      AllRecentStep(h, init, s, lim);
    }
  }

  /** A batch with distinct ids that comes again, behind other ids only, is dropped whole if and only if
      everything offered since fits the filter and every entry comes back within the window. */
  lemma RepeatDroppedIff(h: seq<Offer>, first: seq<Submission>, between: seq<Submission>, again: seq<Submission>, lim: Limits)
    requires IdsOnce(first) && SameIds(first, again) && SubIds(first) !! SubIds(between) && again != []
    ensures Fresh(After(After(h, first), between), again, lim) == [] <==> InTime(first, between, again, lim)
  {
    NothingStoredIff(After(After(h, first), between), again, lim);
    forall n | 0 <= n < |again|
      ensures Recent(After(After(After(h, first), between), again[..n]), again[n].entry.id, again[n].at, lim)
         <==> again[n].at - first[n].at <= lim.window && |SubIds(first) + SubIds(between)| <= lim.capacity
    {
      RecalledIff(h, first, between, again, n, lim);
    }
    if AllRecent(After(After(h, first), between), again, lim) {
      assert Recent(After(After(After(h, first), between), again[..0]), again[0].entry.id, again[0].at, lim);
    }
  }

  /** A retry inside the window that is stored: one other id has pushed the first out of a filter of one. */
  lemma EvictedRetryIsStored(e: LogEntry, other: Str)
    requires e.id != other
    ensures Fresh([Offer(e.id, 0), Offer(other, 1)], [Submission(e, 2)], Limits(100, 1)) == [e]
  {
    var h, subs := [Offer(e.id, 0), Offer(other, 1)], [Submission(e, 2)];
    assert subs[..0] == [] && h[..1] == [Offer(e.id, 0)];
    assert LastOffer(h, e.id) == 0;
    assert h[1..][0] == Offer(other, 1);
    assert OfferIds(h[1..]) == {other};
    assert After(h, []) == h && Fresh(h, [], Limits(100, 1)) == [];
  }

  // ---------------------------------------------------------------- refused by storage, then retried

  lemma {:induction false} EndsBy(h: seq<Offer>, entries: seq<LogEntry>, ticks: seq<Tick>, host: Str, max: int, n: nat, until: int)
    requires |ticks| == |entries| && n <= |entries| && NotBefore(h, until) && forall t :: t in ticks ==> t.at <= until
    ensures NotBefore(After(h, Submissions(entries, ticks, host, max, n)), until)
  {
    if n > 0 {
      EndsBy(h, entries, ticks, host, max, n - 1, until);
      assert ticks[n - 1] in ticks;
      EndsStep(h, Submissions(entries, ticks, host, max, n - 1),
               Prepare(entries[n - 1], host, max, ticks[n - 1]), ticks[n - 1].at, until);
    }
  }

  lemma EndsStep(h: seq<Offer>, subs: seq<Submission>, v: Verdict, at: int, until: int)
    requires NotBefore(After(h, subs), until) && at <= until
    ensures NotBefore(After(h, Grow(subs, v, at)), until)
  {
    if v.Accepted? { AfterStep(h, subs, Submission(v.entry, at)); }
  }

  /** The readings of a request lie between two moments. */
  predicate Timed(ticks: seq<Tick>, from: int, until: int) {
    from <= until && TicksForward(ticks) && forall t :: t in ticks ==> from <= t.at <= until
  }

  /** One request between two moments. */
  method Request(handler: Handler, entries: seq<LogEntry>, ticks: seq<Tick>, host: Str, appendOk: bool, ghost from: int, ghost until: int)
    returns (accepted: seq<LogEntry>, ghost subs: seq<Submission>)
    requires handler.Valid() && |ticks| == |entries| && Timed(ticks, from, until) && NotBefore(handler.history, from)
    modifies handler`stored, handler`history, handler`submitted, handler.dedup
    ensures handler.Valid() && handler.Lim() == old(handler.Lim()) && NotBefore(handler.history, until)
    ensures subs == Submissions(entries, ticks, host, handler.maxMessageBytes, |entries|)
    ensures handler.history == After(old(handler.history), subs) && handler.stored == old(handler.stored) + accepted
    ensures handler.submitted == old(handler.submitted) + subs && (old(handler.Complete()) && appendOk ==> handler.Complete())
    ensures accepted == if appendOk then Fresh(old(handler.history), subs, handler.Lim()) else []
    ensures entries == [] ==> accepted == []
  {
    EndsBy(handler.history, entries, ticks, host, handler.maxMessageBytes, |entries|, until);
    assert entries != [] ==> ticks[0] in ticks;
    subs := Submissions(entries, ticks, host, handler.maxMessageBytes, |entries|);
    var duplicates, errors, ok;
    accepted, duplicates, errors, ok := handler.IngestEntries(entries, ticks, host, appendOk);
  }

  /** What a retry stores, after a refused request and whatever came in between. */
  predicate RetryStores(h: seq<Offer>, first: seq<Submission>, between: seq<Submission>, again: seq<Submission>,
                        accepted: seq<LogEntry>, lim: Limits) {
    && accepted == Fresh(After(After(h, first), between), again, lim)
    && (forall i :: 0 <= i < |again| && Submits(first, again[i].entry.id) ==> StoredIffForgotten(h, first, between, again, i, lim))
    && (IdsOnce(first) && SameIds(first, again) && SubIds(first) !! SubIds(between) && again != [] ==>
          (accepted == [] <==> InTime(first, between, again, lim)))
  }

  lemma RetryOutcome(h: seq<Offer>, first: seq<Submission>, between: seq<Submission>, again: seq<Submission>, lim: Limits)
    ensures RetryStores(h, first, between, again, Fresh(After(After(h, first), between), again, lim), lim)
  {
    forall i | 0 <= i < |again| && Submits(first, again[i].entry.id) ensures StoredIffForgotten(h, first, between, again, i, lim) {
      RepeatStoredIff(h, first, between, again, i, lim);
    }
    if IdsOnce(first) && SameIds(first, again) && SubIds(first) !! SubIds(between) && again != [] {
      RepeatDroppedIff(h, first, between, again, lim);
    }
  }

  /** A request is refused by storage, another request may come in between, and the first one comes again.
      The refused request stores nothing but marks its ids. */
  method RefuseThenRetry(handler: Handler, entries: seq<LogEntry>, ticks: seq<Tick>, others: seq<LogEntry>,
                         ticksO: seq<Tick>, ticks': seq<Tick>, host: Str, ghost at: seq<int>)
    returns (between: seq<LogEntry>, accepted: seq<LogEntry>)
    requires handler.Valid() && |ticks| == |ticks'| == |entries| && |ticksO| == |others|
    requires |at| == 4 && Timed(ticks, at[0], at[1]) && Timed(ticksO, at[1], at[2]) && Timed(ticks', at[2], at[3])
    requires NotBefore(handler.history, at[0])
    modifies handler, handler.dedup
    ensures var max := handler.maxMessageBytes;
      RetryStores(old(handler.history), Submissions(entries, ticks, host, max, |entries|),
                  Submissions(others, ticksO, host, max, |others|), Submissions(entries, ticks', host, max, |entries|),
                  accepted, handler.Lim())
    ensures handler.stored == old(handler.stored) + between + accepted && (others == [] ==> between == [])
  {
    ghost var h, first, middle, again := handler.history, [], [], [];
    var none;
    none, first := Request(handler, entries, ticks, host, false, at[0], at[1]);
    assert handler.stored == old(handler.stored);
    between, middle := Request(handler, others, ticksO, host, true, at[1], at[2]);
    accepted, again := Request(handler, entries, ticks', host, true, at[2], at[3]);
    RetryOutcome(h, first, middle, again, handler.Lim());
  }
}
