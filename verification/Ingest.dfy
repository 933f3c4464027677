/** The server's ingest path: validate, filter duplicates, store. */
module Ingest {
  import opened GoText
  import opened LogEntries
  import opened Dedup
  import opened DedupHistory

  /** An entry that passed validation, at the moment it is offered to the duplicate filter. */
  datatype Submission = Submission(entry: LogEntry, at: int)

  datatype Ruling = New(entry: LogEntry) | Duplicate | Bad(reason: Invalid)

  /** What the environment supplies for one entry: the clock and a generated id. */
  datatype Tick = Tick(at: int, freshId: Str)

  /** The filter's call history `h` continued by the offers of `subs`. */
  function After(h: seq<Offer>, subs: seq<Submission>): (r: seq<Offer>)
    ensures |r| == |h| + |subs|
  {
    if subs == [] then h
    else
      var s := subs[|subs| - 1];
      After(h, subs[..|subs| - 1]) + [Offer(s.entry.id, s.at)]
  }

  /** The submissions that are no duplicates, given what was offered before them. */
  function Fresh(h: seq<Offer>, subs: seq<Submission>, lim: Limits): seq<LogEntry> {
    if subs == [] then []
    else
      var init, s := subs[..|subs| - 1], subs[|subs| - 1];
      if Recent(After(h, init), s.entry.id, s.at, lim) then Fresh(h, init, lim) else Fresh(h, init, lim) + [s.entry]
  }

  function Prepare(e: LogEntry, defaultHost: Str, maxMsgBytes: int, tick: Tick): Verdict {
    var e' := if e.host == [] && defaultHost != [] then e.(host := defaultHost) else e;
    Validate(e', maxMsgBytes, tick.freshId, Time(tick.at, 0))
  }

  /** What ingesting may change of an entry: a missing host, id or time is filled in and the level normalised. */
  predicate ComesFrom(x: LogEntry, e: LogEntry, defaultHost: Str) {
    && x.host == (if e.host == [] then defaultHost else e.host)
    && x.source == e.source && x.message == e.message && x.fields == e.fields
    && (TrimSpace(e.id) != [] ==> x.id == e.id) && (!IsZero(e.timestamp) ==> x.timestamp == e.timestamp)
  }

  /** Why an entry is refused, the default host taken into account. */
  predicate RefusedFor(e: LogEntry, defaultHost: Str, maxMsgBytes: int, reason: Invalid) {
    var host := if e.host == [] then defaultHost else e.host;
    match reason
    case MissingHost => TrimSpace(host) == []
    case MissingSource => TrimSpace(host) != [] && TrimSpace(e.source) == []
    case MissingMessage => TrimSpace(host) != [] && TrimSpace(e.source) != [] && e.message == []
    case MessageTooLarge => TrimSpace(host) != [] && TrimSpace(e.source) != [] && |e.message| > MessageLimit(maxMsgBytes)
  }

  lemma PrepareKeeps(e: LogEntry, defaultHost: Str, maxMsgBytes: int, tick: Tick)
    ensures var v := Prepare(e, defaultHost, maxMsgBytes, tick);
      if v.Accepted? then ComesFrom(v.entry, e, defaultHost) else RefusedFor(e, defaultHost, maxMsgBytes, v.reason)
  {
  }

  function Cause(v: Verdict): seq<Invalid> {
    if v.Refused? then [v.reason] else []
  }

  /** The reasons for which the first `n` entries of a request are refused, in order. */
  function Refusals(entries: seq<LogEntry>, ticks: seq<Tick>, host: Str, max: int, n: nat): seq<Invalid>
    requires |ticks| == |entries| && n <= |entries|
  {
    if n == 0 then []
    else Refusals(entries, ticks, host, max, n - 1) + Cause(Prepare(entries[n - 1], host, max, ticks[n - 1]))
  }

  lemma {:induction false} RefusalsExplained(entries: seq<LogEntry>, ticks: seq<Tick>, host: Str, max: int, n: nat, reason: Invalid)
    requires |ticks| == |entries| && n <= |entries| && reason in Refusals(entries, ticks, host, max, n)
    ensures exists e :: e in entries && RefusedFor(e, host, max, reason)
  {
    var e := entries[n - 1];
    PrepareKeeps(e, host, max, ticks[n - 1]);
    if reason in Refusals(entries, ticks, host, max, n - 1) {
      RefusalsExplained(entries, ticks, host, max, n - 1, reason);
    } else {
      assert e in entries && RefusedFor(e, host, max, reason);
    }
  }

  /** Everything submitted comes from an entry of the request. */
  lemma {:induction false} SubmissionsFrom(entries: seq<LogEntry>, ticks: seq<Tick>, host: Str, max: int, n: nat, s: Submission)
    requires |ticks| == |entries| && n <= |entries| && s in Submissions(entries, ticks, host, max, n)
    ensures exists e :: e in entries && ComesFrom(s.entry, e, host)
  {
    PrepareKeeps(entries[n - 1], host, max, ticks[n - 1]);
    if s in Submissions(entries, ticks, host, max, n - 1) {
      SubmissionsFrom(entries, ticks, host, max, n - 1, s);
    } else {
      assert entries[n - 1] in entries;
    }
  }

  lemma {:induction false} FreshFrom(h: seq<Offer>, subs: seq<Submission>, lim: Limits, x: LogEntry) returns (s: Submission)
    requires x in Fresh(h, subs, lim)
    ensures s in subs && s.entry == x
  {
    var n := |subs| - 1;
    if x in Fresh(h, subs[..n], lim) {
      s := FreshFrom(h, subs[..n], lim, x);
    } else {
      s := subs[n];
    }
  }

  /** Everything let through comes from an entry of the request, and every reason reported is true of one. */
  ghost predicate Explained(entries: seq<LogEntry>, host: Str, max: int, accepted: seq<LogEntry>, reasons: seq<Invalid>) {
    && (forall x :: x in accepted ==> exists e :: e in entries && ComesFrom(x, e, host))
    && (forall reason :: reason in reasons ==> exists e :: e in entries && RefusedFor(e, host, max, reason))
  }

  lemma RequestExplained(h: seq<Offer>, entries: seq<LogEntry>, ticks: seq<Tick>, host: Str, max: int, lim: Limits)
    requires |ticks| == |entries|
    ensures var reasons := Refusals(entries, ticks, host, max, |entries|);
      && Explained(entries, host, max, Fresh(h, Submissions(entries, ticks, host, max, |entries|), lim), reasons)
      && Explained(entries, host, max, [], reasons)
  {
    var subs, reasons := Submissions(entries, ticks, host, max, |entries|), Refusals(entries, ticks, host, max, |entries|);
    forall x | x in Fresh(h, subs, lim) ensures exists e :: e in entries && ComesFrom(x, e, host) {
      var s := FreshFrom(h, subs, lim, x);
      SubmissionsFrom(entries, ticks, host, max, |entries|, s);
    }
    forall reason | reason in reasons ensures exists e :: e in entries && RefusedFor(e, host, max, reason) {
      RefusalsExplained(entries, ticks, host, max, |entries|, reason);
    }
  }

  function Grow(subs: seq<Submission>, v: Verdict, at: int): seq<Submission> {
    if v.Accepted? then subs + [Submission(v.entry, at)] else subs
  }

  /** The submissions that the first `n` entries of a request make. */
  function Submissions(entries: seq<LogEntry>, ticks: seq<Tick>, host: Str, max: int, n: nat): (r: seq<Submission>)
    requires |ticks| == |entries| && n <= |entries|
    ensures |r| <= n
  {
    if n == 0 then []
    else Grow(Submissions(entries, ticks, host, max, n - 1),
              Prepare(entries[n - 1], host, max, ticks[n - 1]), ticks[n - 1].at)
  }

  predicate TickFollows(ticks: seq<Tick>, i: nat)
    requires i < |ticks|
  {
    ticks[i].freshId != [] && (i > 0 ==> ticks[i - 1].at <= ticks[i].at)
  }

  /** The clock does not run backwards over a request, and generated ids are not empty. */
  predicate TicksForward(ticks: seq<Tick>) {
    forall i :: 0 <= i < |ticks| ==> TickFollows(ticks, i)
  }

  lemma FreshStep(h: seq<Offer>, subs: seq<Submission>, s: Submission, lim: Limits)
    ensures Fresh(h, subs + [s], lim)
         == if Recent(After(h, subs), s.entry.id, s.at, lim) then Fresh(h, subs, lim) else Fresh(h, subs, lim) + [s.entry]
  {
    assert (subs + [s])[..|subs + [s]| - 1] == subs;
  }

  lemma AfterStep(h: seq<Offer>, subs: seq<Submission>, s: Submission)
    ensures After(h, subs + [s]) == After(h, subs) + [Offer(s.entry.id, s.at)]
  {
    assert (subs + [s])[..|subs + [s]| - 1] == subs;
  }

  lemma PreparedId(e: LogEntry, host: Str, max: int, tick: Tick)
    requires Prepare(e, host, max, tick).Accepted? && tick.freshId != []
    ensures Prepare(e, host, max, tick).entry.id != []
  {
    assert TrimSpace([]) == [];
  }

  /** After submissions `subs`: the filter's history, the entries let through, and the counts. */
  predicate Sifted(start: seq<Offer>, subs: seq<Submission>, lim: Limits,
                   history: seq<Offer>, accepted: seq<LogEntry>, duplicates: nat, valid: int) {
    && history == After(start, subs) && accepted == Fresh(start, subs, lim)
    && |accepted| + duplicates == |subs| == valid
  }

  /** Books an outcome under one of the three counts. */
  method Book(o: Ruling, accepted: seq<LogEntry>, duplicates: nat, valErrors: seq<Invalid>)
    returns (accepted': seq<LogEntry>, duplicates': nat, valErrors': seq<Invalid>)
    ensures accepted' == accepted + (if o.New? then [o.entry] else []) && duplicates' == duplicates + (if o.Duplicate? then 1 else 0)
    ensures valErrors' == valErrors + if o.Bad? then [o.reason] else []
  {
    accepted', duplicates', valErrors' := accepted, duplicates, valErrors;
    match o {
      case Bad(reason) => valErrors' := valErrors' + [reason];
      case Duplicate => duplicates' := duplicates' + 1;
      case New(entry) => accepted' := accepted' + [entry];
    }
  }

  class Handler {
    const dedup: DedupCache
    const maxMessageBytes: int
    var stored: seq<LogEntry>
    ghost var history: seq<Offer>
    /** What every request so far submitted. */
    ghost var submitted: seq<Submission>

    ghost function Lim(): Limits
      reads this, dedup
    {
      Limits(dedup.window, dedup.capacity)
    }

    /** The filter's list is what its call history says. */
    ghost predicate Valid()
      reads this, dedup
    {
      dedup.Valid() && ClockForward(history) && dedup.order == Cached(history, Lim())
    }

    /** Storage holds exactly what the whole sequence of submissions lets through. */
    ghost predicate Complete()
      reads this, dedup
    {
      history == After([], submitted) && stored == Fresh([], submitted, Lim())
    }

    constructor (dedup: DedupCache, maxMessageBytes: int)
      requires dedup.Valid() && dedup.order == []
      ensures Valid() && Complete() && history == [] && submitted == [] && stored == [] && this.dedup == dedup
      ensures this.maxMessageBytes == maxMessageBytes
    {
      this.dedup, this.maxMessageBytes, stored, history, submitted := dedup, maxMessageBytes, [], [], [];
    }

    /** `ingestEntries`. Every id is marked as seen before `Append` can fail. */
    method IngestEntries(entries: seq<LogEntry>, ticks: seq<Tick>, defaultHost: Str, appendOk: bool)
      returns (accepted: seq<LogEntry>, duplicates: nat, valErrors: seq<Invalid>, ok: bool)
      requires Valid() && |ticks| == |entries| && TicksForward(ticks)
      requires entries != [] ==> NotBefore(history, ticks[0].at)
      modifies this`stored, this`history, this`submitted, dedup
      ensures Valid() && Lim() == old(Lim())
      ensures submitted == old(submitted) + Submissions(entries, ticks, defaultHost, maxMessageBytes, |entries|)
      ensures old(Complete()) && ok ==> Complete()
      ensures var subs := Submissions(entries, ticks, defaultHost, maxMessageBytes, |entries|);
        var passed := Fresh(old(history), subs, Lim());
        && history == After(old(history), subs)
        && ok == (passed == [] || appendOk)
        && accepted == (if ok then passed else [])
        && stored == old(stored) + accepted
        && duplicates == |subs| - |passed|
        && |valErrors| == |entries| - |subs|
      ensures valErrors == Refusals(entries, ticks, defaultHost, maxMessageBytes, |entries|)
      ensures Explained(entries, defaultHost, maxMessageBytes, accepted, valErrors)
      ensures ok ==> |accepted| + duplicates + |valErrors| == |entries|
    {
      ghost var subs, complete := Submissions(entries, ticks, defaultHost, maxMessageBytes, |entries|), Complete();
      RequestExplained(history, entries, ticks, defaultHost, maxMessageBytes, Lim());
      accepted, duplicates, valErrors := Sift(entries, ticks, defaultHost);
      accepted, ok := Keep(accepted, appendOk, subs, complete);
    }

    /** Hands what passed to storage. */
    method Keep(passed: seq<LogEntry>, appendOk: bool, ghost subs: seq<Submission>, ghost complete: bool)
      returns (accepted: seq<LogEntry>, ok: bool)
      requires Valid()
      requires complete ==> stored == Fresh([], submitted, Lim()) && history == After(After([], submitted), subs)
      requires complete ==> passed == Fresh(After([], submitted), subs, Lim())
      modifies this`stored, this`submitted
      ensures Valid() && submitted == old(submitted) + subs
      ensures ok == (passed == [] || appendOk) && accepted == (if ok then passed else []) && stored == old(stored) + accepted
      ensures complete && ok ==> Complete()
    {
      ok := passed == [] || appendOk;
      accepted := if ok then passed else [];
      stored := stored + accepted;
      AfterConcat([], submitted, subs);
      FreshConcat([], submitted, subs, Lim());
      submitted := submitted + subs;
    }

    /** The loop over the entries. */
    method Sift(entries: seq<LogEntry>, ticks: seq<Tick>, defaultHost: Str)
      returns (accepted: seq<LogEntry>, duplicates: nat, valErrors: seq<Invalid>)
      requires Valid() && |ticks| == |entries| && TicksForward(ticks)
      requires entries != [] ==> NotBefore(history, ticks[0].at)
      modifies this`history, dedup
      ensures Valid() && Lim() == old(Lim())
      ensures var subs := Submissions(entries, ticks, defaultHost, maxMessageBytes, |entries|);
        && history == After(old(history), subs)
        && accepted == Fresh(old(history), subs, Lim())
        && |accepted| + duplicates == |subs|
        && |valErrors| == |entries| - |subs|
      ensures valErrors == Refusals(entries, ticks, defaultHost, maxMessageBytes, |entries|)
    {
      accepted, duplicates, valErrors := [], 0, [];
      ghost var start, lim := history, Lim();
      var i := 0;
      while i < |entries|
        invariant 0 <= i <= |entries| && Valid() && Lim() == lim
        invariant Sifted(start, Submissions(entries, ticks, defaultHost, maxMessageBytes, i), lim, history, accepted, duplicates, i - |valErrors|)
        invariant valErrors == Refusals(entries, ticks, defaultHost, maxMessageBytes, i)
        invariant i < |entries| ==> NotBefore(history, ticks[i].at)
      {
        accepted, duplicates, valErrors := SiftNext(entries, ticks, i, defaultHost, start, accepted, duplicates, valErrors);
        i := i + 1;
      }
    }

    /** One round of the loop. */
    method SiftNext(entries: seq<LogEntry>, ticks: seq<Tick>, i: nat, defaultHost: Str, ghost start: seq<Offer>,
                    accepted: seq<LogEntry>, duplicates: nat, valErrors: seq<Invalid>)
      returns (accepted': seq<LogEntry>, duplicates': nat, valErrors': seq<Invalid>)
      requires Valid() && |ticks| == |entries| && i < |entries| && TicksForward(ticks) && NotBefore(history, ticks[i].at)
      requires Sifted(start, Submissions(entries, ticks, defaultHost, maxMessageBytes, i), Lim(), history, accepted, duplicates, i - |valErrors|)
      modifies this`history, dedup
      ensures Valid() && Lim() == old(Lim()) && (i + 1 < |entries| ==> NotBefore(history, ticks[i + 1].at))
      ensures Sifted(start, Submissions(entries, ticks, defaultHost, maxMessageBytes, i + 1), Lim(), history, accepted', duplicates', i + 1 - |valErrors'|)
      ensures valErrors' == valErrors + Cause(Prepare(entries[i], defaultHost, maxMessageBytes, ticks[i]))
    {
      assert TickFollows(ticks, i);
      assert i + 1 < |ticks| ==> TickFollows(ticks, i + 1);
      ghost var subs, more := Submissions(entries, ticks, defaultHost, maxMessageBytes, i), [];
      var outcome;
      outcome, more := TakeNext(entries, ticks, i, defaultHost, start, subs);
      accepted', duplicates', valErrors' := Book(outcome, accepted, duplicates, valErrors);
    }

    /** Takes entry `i` of a request. */
    method TakeNext(entries: seq<LogEntry>, ticks: seq<Tick>, i: nat, defaultHost: Str,
                    ghost start: seq<Offer>, ghost subs: seq<Submission>)
      returns (o: Ruling, ghost more: seq<Submission>)
      requires Valid() && |ticks| == |entries| && i < |entries| && TickFollows(ticks, i)
      requires subs == Submissions(entries, ticks, defaultHost, maxMessageBytes, i) && history == After(start, subs)
      requires NotBefore(history, ticks[i].at)
      modifies this`history, dedup
      ensures Valid() && Lim() == old(Lim()) && NotBefore(history, ticks[i].at)
      ensures more == Submissions(entries, ticks, defaultHost, maxMessageBytes, i + 1) && history == After(start, more)
      ensures |more| == |subs| + if o.Bad? then 0 else 1
      ensures Cause(Prepare(entries[i], defaultHost, maxMessageBytes, ticks[i])) == if o.Bad? then [o.reason] else []
      ensures Fresh(start, more, Lim()) == if o.New? then Fresh(start, subs, Lim()) + [o.entry] else Fresh(start, subs, Lim())
    {
      o, more := TakeOne(entries[i], ticks[i], defaultHost, start, subs);
    }

    /** Validates an entry and, if it passes, offers it to the filter. */
    method TakeOne(e: LogEntry, tick: Tick, defaultHost: Str, ghost start: seq<Offer>, ghost subs: seq<Submission>)
      returns (o: Ruling, ghost more: seq<Submission>)
      requires Valid() && tick.freshId != []
      requires NotBefore(history, tick.at) && history == After(start, subs)
      modifies this`history, dedup
      ensures Valid() && Lim() == old(Lim()) && NotBefore(history, tick.at)
      ensures more == Grow(subs, Prepare(e, defaultHost, maxMessageBytes, tick), tick.at)
      ensures history == After(start, more)
      ensures |more| == |subs| + if o.Bad? then 0 else 1
      ensures Cause(Prepare(e, defaultHost, maxMessageBytes, tick)) == if o.Bad? then [o.reason] else []
      ensures Fresh(start, more, Lim()) == if o.New? then Fresh(start, subs, Lim()) + [o.entry] else Fresh(start, subs, Lim())
    {
      more := subs;
      match Prepare(e, defaultHost, maxMessageBytes, tick)
      case Refused(reason) =>
        o := Bad(reason);
      case Accepted(entry) =>
        PreparedId(e, defaultHost, maxMessageBytes, tick);
        var dup := Submitted(entry, tick.at, start, subs);
        more := subs + [Submission(entry, tick.at)];
        o := if dup then Duplicate else New(entry);
    }

    /** One entry that passed validation goes through the filter. */
    method Submitted(entry: LogEntry, now: int, ghost start: seq<Offer>, ghost subs: seq<Submission>) returns (dup: bool)
      requires Valid() && entry.id != [] && NotBefore(history, now) && history == After(start, subs)
      modifies this`history, dedup
      ensures Valid() && Lim() == old(Lim()) && history != [] && history[|history| - 1].at == now
      ensures history == After(start, subs + [Submission(entry, now)])
      ensures Fresh(start, subs + [Submission(entry, now)], Lim())
           == if dup then Fresh(start, subs, Lim()) else Fresh(start, subs, Lim()) + [entry]
    {
      ghost var s := Submission(entry, now);
      AfterStep(start, subs, s);
      FreshStep(start, subs, s, Lim());
      dup := Offered(entry.id, now);
    }

    /** One call of the filter, recorded in the history. */
    method Offered(id: Str, now: int) returns (dup: bool)
      requires Valid() && id != [] && NotBefore(history, now)
      modifies this`history, dedup
      ensures Valid() && Lim() == old(Lim())
      ensures history == old(history) + [Offer(id, now)]
      ensures dup == Recent(old(history), id, now, Lim())
    {
      DedupIsLruWithWindow(history, id, now, Lim());
      FrontTime(history, Lim(), now);
      dup := dedup.IsDuplicate(id, now);
      history := history + [Offer(id, now)];
      assert history[..|history| - 1] == old(history);
    }
  }

  lemma FrontTime(h: seq<Offer>, lim: Limits, now: int)
    requires lim.capacity > 0 && ClockForward(h) && NotBefore(h, now)
    ensures Cached(h, lim) != [] ==> Cached(h, lim)[0].seen <= now
  {
  }

  // ---------------------------------------------------------------- whole histories

  lemma {:induction false} AfterConcat(h: seq<Offer>, a: seq<Submission>, b: seq<Submission>)
    ensures After(h, a + b) == After(After(h, a), b)
  {
    if b == [] {
      assert a + b == a;
    } else {
      assert (a + b)[..|a + b| - 1] == a + b[..|b| - 1];
      AfterConcat(h, a, b[..|b| - 1]);
    }
  }

  /** Filtering is a fold: requests compose. */
  lemma {:induction false} FreshConcat(h: seq<Offer>, a: seq<Submission>, b: seq<Submission>, lim: Limits)
    ensures Fresh(h, a + b, lim) == Fresh(h, a, lim) + Fresh(After(h, a), b, lim)
  {
    if b == [] {
      assert a + b == a;
    } else {
      var init := b[..|b| - 1];
      assert (a + b)[..|a + b| - 1] == a + init;
      FreshConcat(h, a, init, lim);
      AfterConcat(h, a, init);
    }
  }

  function CountId(entries: seq<LogEntry>, id: Str): nat {
    if entries == [] then 0
    else CountId(entries[..|entries| - 1], id) + if entries[|entries| - 1].id == id then 1 else 0
  }

  /** If submission `i` repeats `id`, the previous one is still remembered. */
  predicate PromptAt(subs: seq<Submission>, i: nat, id: Str, lim: Limits)
    requires i < |subs|
  {
    subs[i].entry.id == id && LastOffer(After([], subs[..i]), id) >= 0 ==>
      Recent(After([], subs[..i]), id, subs[i].at, lim)
  }

  predicate PromptRepeats(subs: seq<Submission>, id: Str, lim: Limits) {
    forall i :: 0 <= i < |subs| ==> PromptAt(subs, i, id, lim)
  }

  /** Exactly-once storage: over any sequence of submissions, an id whose repeats come within the window
      and the stack distance is stored once however often it is delivered. */
  lemma {:induction false} StoredExactlyOnce(subs: seq<Submission>, id: Str, lim: Limits)
    requires PromptRepeats(subs, id, lim)
    ensures CountId(Fresh([], subs, lim), id) == if LastOffer(After([], subs), id) >= 0 then 1 else 0
  {
    if subs != [] {
      var init, s := subs[..|subs| - 1], subs[|subs| - 1];
      PromptPrefix(subs, id, lim);
      StoredExactlyOnce(init, id, lim);
      assert subs == init + [s];
      CountFreshStep(init, s, id, lim);
      LastOfferStep(init, s, id);
    }
  }

  lemma PromptPrefix(subs: seq<Submission>, id: Str, lim: Limits)
    requires PromptRepeats(subs, id, lim) && subs != []
    ensures PromptRepeats(subs[..|subs| - 1], id, lim)
    ensures var init, s := subs[..|subs| - 1], subs[|subs| - 1];
      s.entry.id == id && LastOffer(After([], init), id) >= 0 ==> Recent(After([], init), id, s.at, lim)
  {
    var init := subs[..|subs| - 1];
    forall i | 0 <= i < |init| ensures PromptAt(init, i, id, lim) {
      assert PromptAt(subs, i, id, lim) && init[..i] == subs[..i];
    }
    assert PromptAt(subs, |init|, id, lim);
  }

  lemma CountFreshStep(subs: seq<Submission>, s: Submission, id: Str, lim: Limits)
    ensures CountId(Fresh([], subs + [s], lim), id) == CountId(Fresh([], subs, lim), id)
      + if s.entry.id == id && !Recent(After([], subs), id, s.at, lim) then 1 else 0
  {
    FreshStep([], subs, s, lim);
    var a := Fresh([], subs, lim);
    assert (a + [s.entry])[..|a|] == a;
    assert a + [] == a;
  }

  lemma LastOfferStep(subs: seq<Submission>, s: Submission, id: Str)
    ensures LastOffer(After([], subs + [s]), id) == if s.entry.id == id then |subs| else LastOffer(After([], subs), id)
  {
    AfterStep([], subs, s);
    assert (After([], subs) + [Offer(s.entry.id, s.at)])[..|subs|] == After([], subs);
  }
}
