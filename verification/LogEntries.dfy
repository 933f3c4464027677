/** The domain model: log entries, queries, and the predicates the rest of the system decides with. */
module LogEntries {
  import opened GoText

  /** A Go time: an instant in nanoseconds since the Unix epoch, and the offset (in nanoseconds) of the
      zone it is expressed in. */
  datatype Time = Time(nano: int, zone: int)

  /** The zero `time.Time`: the first of January of year 1, UTC. */
  const ZERO_NANO: int := -62_135_596_800 * 1_000_000_000
  const ZERO_TIME := Time(ZERO_NANO, 0)

  predicate IsZero(t: Time) {
    t.nano == ZERO_NANO
  }

  function Utc(t: Time): Time {
    t.(zone := 0)
  }

  const MIN_INT64: int := -0x8000_0000_0000_0000
  const MAX_INT64: int := 0x7fff_ffff_ffff_ffff

  predicate InInt64(x: int) {
    MIN_INT64 <= x <= MAX_INT64
  }

  /** Conversion to int64, wrapping around. */
  function ToInt64(x: int): (r: int)
    ensures InInt64(r)
    ensures InInt64(x) ==> r == x
  {
    (x - MIN_INT64) % TWO_64 + MIN_INT64
  }

  /** `Time.UnixNano`: meaningful only in the int64 range, otherwise wrapped. */
  function UnixNano(t: Time): int {
    ToInt64(t.nano)
  }

  datatype LogEntry = LogEntry(
    id: Str, timestamp: Time, host: Str, source: Str, level: Str, message: Str, fields: map<Str, Str>)

  datatype Query = Query(
    host: Str, source: Str, level: Str, startTime: Time, endTime: Time, search: Str, limit: int)

  const DEFAULT_QUERY_LIMIT := 100
  const MAX_QUERY_LIMIT := 10000
  const MAX_MESSAGE_BYTES := 1024 * 1024

  // ---------------------------------------------------------------- queries

  function Normalize(q: Query): (r: Query)
    ensures 0 < r.limit <= MAX_QUERY_LIMIT
    ensures q.limit <= 0 ==> r.limit == 100
    ensures 0 < q.limit <= 10000 ==> r.limit == q.limit
    ensures q.limit > 10000 ==> r.limit == 10000
    ensures r.startTime == q.startTime && r.endTime == q.endTime
  {
    var limit := if q.limit <= 0 then DEFAULT_QUERY_LIMIT else q.limit;
    q.(limit := if limit > MAX_QUERY_LIMIT then MAX_QUERY_LIMIT else limit,
       host := TrimSpace(q.host), source := TrimSpace(q.source),
       level := ToUpper(TrimSpace(q.level)), search := TrimSpace(q.search))
  }

  function LowerByte(b: byte): byte {
    if 65 <= b <= 90 then b + 32 else b
  }

  function ToLower(s: Str): Str {
    seq(|s|, i requires 0 <= i < |s| => LowerByte(s[i]))
  }

  predicate Contains(s: Str, sub: Str) {
    exists i :: 0 <= i <= |s| && sub <= s[i..]
  }

  predicate MatchesSearch(e: LogEntry, search: Str) {
    var low := ToLower(search);
    || Contains(ToLower(e.message), low)
    || exists k :: k in e.fields && (Contains(ToLower(k), low) || Contains(ToLower(e.fields[k]), low))
  }

  predicate Matches(e: LogEntry, q: Query) {
    && (q.host != [] ==> EqualFold(e.host, q.host))
    && (q.source != [] ==> EqualFold(e.source, q.source))
    && (q.level != [] ==> EqualFold(e.level, q.level))
    && (!IsZero(q.startTime) ==> e.timestamp.nano >= q.startTime.nano)
    && (!IsZero(q.endTime) ==> e.timestamp.nano <= q.endTime.nano)
    && (q.search != [] ==> MatchesSearch(e, q.search))
  }

  /** At position `i` of `text` stands `s`, up to letter case. */
  predicate StandsAt(text: Str, s: Str, i: nat) {
    i + |s| <= |text| && EqualFold(text[i..i + |s|], s)
  }

  predicate Mentions(text: Str, s: Str) {
    exists i :: 0 <= i <= |text| && StandsAt(text, s, i)
  }

  lemma SameLetters(a: Str, b: Str)
    ensures ToLower(a) == ToLower(b) <==> EqualFold(a, b)
  {
    if ToLower(a) == ToLower(b) {
      forall i | 0 <= i < |a| ensures |a| == |b| && UpperByte(a[i]) == UpperByte(b[i]) {
        assert |ToLower(a)| == |ToLower(b)| && ToLower(a)[i] == ToLower(b)[i];
      }
    }
    if ToUpper(a) == ToUpper(b) {
      forall i | 0 <= i < |a| ensures |a| == |b| && LowerByte(a[i]) == LowerByte(b[i]) {
        assert |ToUpper(a)| == |ToUpper(b)| && ToUpper(a)[i] == ToUpper(b)[i];
      }
    }
  }

  lemma ContainsLower(text: Str, s: Str)
    ensures Contains(ToLower(text), ToLower(s)) <==> Mentions(text, s)
  {
    var low, sub := ToLower(text), ToLower(s);
    forall i | 0 <= i <= |text| ensures sub <= low[i..] <==> StandsAt(text, s, i) {
      if i + |s| <= |text| {
        assert low[i..i + |s|] == ToLower(text[i..i + |s|]);
        assert sub <= low[i..] <==> low[i..i + |s|] == sub;
        SameLetters(text[i..i + |s|], s);
      }
    }
  }

  /** A search finds an entry if and only if the message, a field's name or a field's value has a run of bytes equal
      to it up to letter case. */
  lemma SearchFindsIff(e: LogEntry, s: Str, limit: int)
    requires s != []
    ensures Matches(e, Query([], [], [], ZERO_TIME, ZERO_TIME, s, limit)) <==>
      Mentions(e.message, s) || exists k :: k in e.fields && (Mentions(k, s) || Mentions(e.fields[k], s))
  {
    ContainsLower(e.message, s);
    forall k | k in e.fields
      ensures Contains(ToLower(k), ToLower(s)) <==> Mentions(k, s)
      ensures Contains(ToLower(e.fields[k]), ToLower(s)) <==> Mentions(e.fields[k], s)
    {
      ContainsLower(k, s);
      ContainsLower(e.fields[k], s);
    }
  }

  function OnlyHost(host: Str): Query { Query(host, [], [], ZERO_TIME, ZERO_TIME, [], 1) }

  function OnlySource(source: Str): Query { Query([], source, [], ZERO_TIME, ZERO_TIME, [], 1) }

  function OnlyLevel(level: Str): Query { Query([], [], level, ZERO_TIME, ZERO_TIME, [], 1) }

  function OnlyTimes(start: Time, end: Time): Query { Query([], [], [], start, end, [], 1) }

  function OnlySearch(s: Str): Query { Query([], [], [], ZERO_TIME, ZERO_TIME, s, 1) }

  /** A query matches exactly what each of its parts alone matches: host, source and level up to letter case when given,
      bounds that are set and inclusive, and the text search. */
  lemma MatchesByPart(e: LogEntry, q: Query)
    ensures Matches(e, q) <==> Matches(e, OnlyHost(q.host)) && Matches(e, OnlySource(q.source)) && Matches(e, OnlyLevel(q.level))
                               && Matches(e, OnlyTimes(q.startTime, q.endTime)) && Matches(e, OnlySearch(q.search))
    ensures q.host != [] ==> (Matches(e, OnlyHost(q.host)) <==> EqualFold(e.host, q.host))
    ensures q.source != [] ==> (Matches(e, OnlySource(q.source)) <==> EqualFold(e.source, q.source))
    ensures q.level != [] ==> (Matches(e, OnlyLevel(q.level)) <==> EqualFold(e.level, q.level))
    ensures Matches(e, OnlyTimes(q.startTime, q.endTime)) <==>
      (IsZero(q.startTime) || q.startTime.nano <= e.timestamp.nano) && (IsZero(q.endTime) || e.timestamp.nano <= q.endTime.nano)
  {
  }

  // ---------------------------------------------------------------- validation

  datatype Invalid = MissingHost | MissingSource | MissingMessage | MessageTooLarge

  datatype Verdict = Accepted(entry: LogEntry) | Refused(reason: Invalid)

  function MessageLimit(maxMsgBytes: int): (r: int)
    ensures r == if maxMsgBytes <= 0 then 1048576 else maxMsgBytes
  {
    if maxMsgBytes <= 0 then MAX_MESSAGE_BYTES else maxMsgBytes
  }

  /** `Validate`, with the generated id and the current time as inputs. */
  function Validate(e: LogEntry, maxMsgBytes: int, freshId: Str, now: Time): (v: Verdict)
    ensures v.Accepted? ==>
      && v.entry == e.(id := v.entry.id, timestamp := v.entry.timestamp, level := v.entry.level)
      && (TrimSpace(e.id) != [] ==> v.entry.id == e.id) && (TrimSpace(e.id) == [] ==> v.entry.id == freshId)
      && (!IsZero(e.timestamp) ==> v.entry.timestamp == e.timestamp) && (IsZero(e.timestamp) ==> v.entry.timestamp == now)
      && (e.level == [] ==> v.entry.level == Ascii("INFO")) && (e.level != [] ==> v.entry.level == ToUpper(TrimSpace(e.level)))
    ensures v.Accepted? <==> TrimSpace(e.host) != [] && TrimSpace(e.source) != [] && 0 < |e.message| <= MessageLimit(maxMsgBytes)
    ensures v == Refused(MissingHost) <==> TrimSpace(e.host) == []
    ensures v == Refused(MissingSource) <==> TrimSpace(e.host) != [] && TrimSpace(e.source) == []
    ensures v == Refused(MissingMessage) <==> TrimSpace(e.host) != [] && TrimSpace(e.source) != [] && e.message == []
  {
    var id := if TrimSpace(e.id) == [] then freshId else e.id;
    var ts := if IsZero(e.timestamp) then now else e.timestamp;
    if TrimSpace(e.host) == [] then Refused(MissingHost)
    else if TrimSpace(e.source) == [] then Refused(MissingSource)
    else if e.message == [] then Refused(MissingMessage)
    else if |e.message| > MessageLimit(maxMsgBytes) then Refused(MessageTooLarge)
    else Accepted(e.(id := id, timestamp := ts,
                     level := if e.level == [] then Ascii("INFO") else ToUpper(TrimSpace(e.level))))
  }

  // ---------------------------------------------------------------- normal forms

  lemma LevelAgain(level: Str)
    ensures ToUpper(TrimSpace(ToUpper(TrimSpace(level)))) == ToUpper(TrimSpace(level))
  {
    TrimTwice(level);
    TrimOfUpper(TrimSpace(level));
    UpperTwice(TrimSpace(level));
  }

  /** A normalised query is in normal form: normalising it again changes nothing. */
  lemma NormalizeTwice(q: Query)
    ensures Normalize(Normalize(q)) == Normalize(q)
  {
    TrimTwice(q.host);
    TrimTwice(q.source);
    TrimTwice(q.search);
    LevelAgain(q.level);
  }

  /** A query that is trimmed and in range is left alone but for the case of its level. */
  lemma NormalizeKeeps(q: Query)
    requires 0 < q.limit <= MAX_QUERY_LIMIT && TrimSpace(q.host) == q.host && TrimSpace(q.source) == q.source
    requires TrimSpace(q.search) == q.search && TrimSpace(q.level) == q.level
    ensures Normalize(q) == q.(level := ToUpper(q.level)) && forall e :: Matches(e, Normalize(q)) <==> Matches(e, q)
  {
    UpperTwice(q.level);
    forall e ensures Matches(e, Normalize(q)) <==> Matches(e, q) {
      assert ToUpper(q.level) == [] <==> q.level == [];
    }
  }

  lemma InfoIsNormal()
    ensures ToUpper(TrimSpace(Ascii("INFO"))) == Ascii("INFO") != []
  {
    var info := Ascii("INFO");
    assert info == [73, 78, 70, 79];
  }

  /** An accepted entry is accepted again as it is, whatever the clock and the id source say, if and only if its
      level was missing or not blank: a blank level becomes an empty one, which a second validation fills in. */
  lemma ValidateTwiceIff(e: LogEntry, max: int, id: Str, now: Time, id': Str, now': Time)
    requires Validate(e, max, id, now).Accepted? && TrimSpace(id) != [] && !IsZero(now)
    ensures var v := Validate(e, max, id, now);
      Validate(v.entry, max, id', now') == v <==> e.level == [] || TrimSpace(e.level) != []
  {
    LevelAgain(e.level);
    InfoIsNormal();
    var v := Validate(e, max, id, now);
    assert TrimSpace(v.entry.id) != [] && !IsZero(v.entry.timestamp);
  }
}
