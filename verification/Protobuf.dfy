/** The hand-written codec for log entries, ingest requests and ingest responses. */
module Protobuf {
  import opened GoText
  import opened LogEntries
  import opened Wire

  datatype IngestRequest = IngestRequest(agentID: Str, events: seq<LogEntry>)

  datatype IngestResponse = IngestResponse(status: Str, accepted: int, duplicates: int, errors: seq<Str>)

  const EMPTY_ENTRY := LogEntry([], ZERO_TIME, [], [], [], [], map[])

  // ---------------------------------------------------------------- fields

  datatype Message = EntryMessage | MapMessage | RequestMessage | ResponseMessage

  /** How a message reads the value of a field number; the wire type in the tag is looked at only for
      fields it does not know. */
  datatype Kind = AsVarint | AsBytes | Unknown

  datatype Field = Number(num: nat, v: nat) | Record(num: nat, s: Str) | Skipped

  function KindOf(msg: Message, num: nat): Kind {
    match msg
    case EntryMessage => if num == 2 then AsVarint else if 1 <= num <= 7 then AsBytes else Unknown
    case MapMessage => if 1 <= num <= 2 then AsBytes else Unknown
    case RequestMessage => if 1 <= num <= 2 then AsBytes else Unknown
    case ResponseMessage => if 2 <= num <= 3 then AsVarint else if 1 <= num <= 4 then AsBytes else Unknown
  }

  function ReadValue(msg: Message, tag: Tag, b: Str): (r: Read<Field>)
    ensures r.Got? ==> r.size <= |b|
  {
    match KindOf(msg, tag.num)
    case AsVarint =>
      (match ConsumeVarint(b) case Got(v, n) => Got(Number(tag.num, v), n) case Bad => Bad)
    case AsBytes =>
      (match ConsumeBytes(b) case Got(s, n) => Got(Record(tag.num, s), n) case Bad => Bad)
    case Unknown =>
      (match SkipValue(tag.num, tag.typ, b, RECURSION_LIMIT) case Got(_, n) => Got(Skipped, n) case Bad => Bad)
  }

  /** One iteration of a decoding loop; it always takes at least a byte. */
  function NextField(msg: Message, b: Str): (r: Read<Field>)
    ensures r.Got? ==> 0 < r.size <= |b|
  {
    match ConsumeTag(b)
    case Bad => Bad
    case Got(tag, n) =>
      match ReadValue(msg, tag, b[n..])
      case Bad => Bad
      case Got(f, m) => Got(f, n + m)
  }

  /** A field that is complete stays the same field whatever bytes follow. */
  lemma FieldExtends(msg: Message, a: Str, b: Str)
    requires NextField(msg, a).Got?
    ensures NextField(msg, a + b) == NextField(msg, a)
  {
    TagExtends(a, b);
    var tag, n := ConsumeTag(a).value, ConsumeTag(a).size;
    assert (a + b)[n..] == a[n..] + b;
    match KindOf(msg, tag.num)
    case AsVarint => VarintExtends(a[n..], b, 0);
    case AsBytes => BytesExtends(a[n..], b);
    case Unknown => SkipExtends(tag.num, tag.typ, a[n..], b, RECURSION_LIMIT);
  }

  // ---------------------------------------------------------------- decoding

  datatype Pair = Pair(key: Str, value: Str)

  function ApplyPair(f: Field, p: Pair): Pair {
    if f.Record? && f.num == 1 then p.(key := f.s)
    else if f.Record? && f.num == 2 then p.(value := f.s)
    else p
  }

  function DecodePair(b: Str, p: Pair): Result<Pair> {
    if b == [] then Ok(p)
    else
      match NextField(MapMessage, b)
      case Bad => Err
      case Got(f, n) => DecodePair(b[n..], ApplyPair(f, p))
  }

  function ApplyNumber(v: nat, e: LogEntry): LogEntry {
    if v != 0 then e.(timestamp := Time(ToInt64(v), 0)) else e
  }

  function ApplyText(num: nat, s: Str, e: LogEntry): LogEntry {
    if num == 1 then e.(id := s)
    else if num == 3 then e.(host := s)
    else if num == 4 then e.(source := s)
    else if num == 5 then e.(level := s)
    else if num == 6 then e.(message := s)
    else e
  }

  function ApplyEntry(f: Field, e: LogEntry): Result<LogEntry> {
    match f
    case Skipped => Ok(e)
    case Number(_, v) => Ok(ApplyNumber(v, e))
    case Record(num, s) =>
      if num == 7 then
        match DecodePair(s, Pair([], []))
        case Ok(p) => Ok(e.(fields := e.fields[p.key := p.value]))
        case Err => Err
      else Ok(ApplyText(num, s, e))
  }

  function DecodeEntry(b: Str, e: LogEntry): Result<LogEntry> {
    if b == [] then Ok(e)
    else
      match NextField(EntryMessage, b)
      case Bad => Err
      case Got(f, n) =>
        match ApplyEntry(f, e)
        case Err => Err
        case Ok(e') => DecodeEntry(b[n..], e')
  }

  function ApplyRequest(f: Field, r: IngestRequest): Result<IngestRequest> {
    match f
    case Skipped => Ok(r)
    case Number(_, _) => Ok(r)
    case Record(num, s) =>
      if num == 1 then Ok(r.(agentID := s))
      else
        match DecodeEntry(s, EMPTY_ENTRY)
        case Ok(e) => Ok(r.(events := r.events + [e]))
        case Err => Err
  }

  function DecodeRequest(b: Str, r: IngestRequest): Result<IngestRequest> {
    if b == [] then Ok(r)
    else
      match NextField(RequestMessage, b)
      case Bad => Err
      case Got(f, n) =>
        match ApplyRequest(f, r)
        case Err => Err
        case Ok(r') => DecodeRequest(b[n..], r')
  }

  function ApplyResponse(f: Field, r: IngestResponse): IngestResponse {
    match f
    case Skipped => r
    case Number(num, v) => if num == 2 then r.(accepted := ToInt64(v)) else r.(duplicates := ToInt64(v))
    case Record(num, s) => if num == 1 then r.(status := s) else r.(errors := r.errors + [s])
  }

  function DecodeResponse(b: Str, r: IngestResponse): Result<IngestResponse> {
    if b == [] then Ok(r)
    else
      match NextField(ResponseMessage, b)
      case Bad => Err
      case Got(f, n) => DecodeResponse(b[n..], ApplyResponse(f, r))
  }

  // ---------------------------------------------------------------- decoding is a fold

  /** The slice after the first field, when more bytes are appended. */
  lemma RestExtends(msg: Message, a: Str, b: Str)
    requires NextField(msg, a).Got?
    ensures NextField(msg, a + b) == NextField(msg, a)
    ensures (a + b)[NextField(msg, a).size..] == a[NextField(msg, a).size..] + b
  {
    FieldExtends(msg, a, b);
  }

  lemma {:induction false} PairFold(a: Str, b: Str, p: Pair)
    requires DecodePair(a, p).Ok?
    ensures DecodePair(a + b, p) == DecodePair(b, DecodePair(a, p).value)
    decreases |a|
  {
    if a == [] {
      assert a + b == b;
    } else {
      RestExtends(MapMessage, a, b);
      var r := NextField(MapMessage, a);
      PairFold(a[r.size..], b, ApplyPair(r.value, p));
    }
  }

  /** If `a` decodes, decoding `a` followed by `b` is decoding `b` into what `a` gave. */
  lemma {:induction false} EntryFold(a: Str, b: Str, e: LogEntry)
    requires DecodeEntry(a, e).Ok?
    ensures DecodeEntry(a + b, e) == DecodeEntry(b, DecodeEntry(a, e).value)
    decreases |a|
  {
    if a == [] {
      assert a + b == b;
    } else {
      RestExtends(EntryMessage, a, b);
      var r := NextField(EntryMessage, a);
      EntryFold(a[r.size..], b, ApplyEntry(r.value, e).value);
    }
  }

  lemma {:induction false} RequestFold(a: Str, b: Str, q: IngestRequest)
    requires DecodeRequest(a, q).Ok?
    ensures DecodeRequest(a + b, q) == DecodeRequest(b, DecodeRequest(a, q).value)
    decreases |a|
  {
    if a == [] {
      assert a + b == b;
    } else {
      RestExtends(RequestMessage, a, b);
      var r := NextField(RequestMessage, a);
      RequestFold(a[r.size..], b, ApplyRequest(r.value, q).value);
    }
  }

  lemma {:induction false} ResponseFold(a: Str, b: Str, q: IngestResponse)
    requires DecodeResponse(a, q).Ok?
    ensures DecodeResponse(a + b, q) == DecodeResponse(b, DecodeResponse(a, q).value)
    decreases |a|
  {
    if a == [] {
      assert a + b == b;
    } else {
      RestExtends(ResponseMessage, a, b);
      var r := NextField(ResponseMessage, a);
      ResponseFold(a[r.size..], b, ApplyResponse(r.value, q));
    }
  }

  /** `u` is exactly one field with a number the message does not know. */
  predicate UnknownField(msg: Message, u: Str) {
    NextField(msg, u) == Got(Skipped, |u|)
  }

  /** The field numbers of each message. */
  predicate Knows(msg: Message, num: nat) {
    match msg
    case EntryMessage => 1 <= num <= 7
    case MapMessage => 1 <= num <= 2
    case RequestMessage => 1 <= num <= 2
    case ResponseMessage => 1 <= num <= 4
  }

  /** Only entry times and the two counts of a response are numbers; everything else known is a record. */
  lemma KnownNumbers(msg: Message, num: nat)
    ensures KindOf(msg, num) == Unknown <==> !Knows(msg, num)
    ensures KindOf(msg, num) == AsVarint <==> (msg.EntryMessage? && num == 2) || (msg.ResponseMessage? && (num == 2 || num == 3))
  {
  }

  /** None of these fields is one the message knows. */
  predicate AllUnknown(msg: Message, u: Extras) {
    u.End? || (!Knows(msg, u.num) && AllUnknown(msg, u.rest))
  }

  /** The first of such fields, alone or with bytes behind it. */
  lemma ExtraIsSkipped(msg: Message, u: Extras, after: Str)
    requires !u.End? && !Knows(msg, u.num) && Fits(u, RECURSION_LIMIT)
    ensures var field := EncodeTag(u.num, FieldType(u)) + ValueBytes(u);
      UnknownField(msg, field) && NextField(msg, field + after) == Got(Skipped, |field|)
  {
    var tag, value := EncodeTag(u.num, FieldType(u)), ValueBytes(u);
    TagRoundTrip(u.num, FieldType(u), value);
    ValueSkipped(u, RECURSION_LIMIT, []);
    assert value + [] == value && (tag + value)[|tag|..] == value;
    FieldExtends(msg, tag + value, after);
  }

  /** Varints, eight and four byte values, records and groups of numbers a message does not know are unknown
      fields, byte for byte. */
  lemma UnknownFieldsByType(msg: Message, num: nat, v: nat, x8: Str, x4: Str, s: Str, body: Extras)
    requires 1 <= num <= MAX_INT32 && !Knows(msg, num) && v < TWO_64 && |x8| == 8 && |x4| == 4 && |s| < TWO_64
    requires Fits(body, 9999)
    ensures UnknownField(msg, EncodeTag(num, 0) + EncodeVarint(v))
    ensures UnknownField(msg, EncodeTag(num, 1) + x8)
    ensures UnknownField(msg, EncodeTag(num, 5) + x4)
    ensures UnknownField(msg, EncodeTag(num, 2) + EncodeBytes(s))
    ensures UnknownField(msg, EncodeTag(num, 3) + (ExtraBytes(body) + EncodeTag(num, 4)))
  {
    ExtraIsSkipped(msg, Varint64(num, v, End), []);
    ExtraIsSkipped(msg, Eight(num, x8, End), []);
    ExtraIsSkipped(msg, Four(num, x4, End), []);
    ExtraIsSkipped(msg, Text(num, s, End), []);
    ExtraIsSkipped(msg, Group(num, body, End), []);
  }

  lemma FieldInFront(a: Str, tag: Str, value: Str, rest: Str, b: Str)
    ensures a + (tag + (value + rest)) + b == a + (tag + value) + (rest + b)
    ensures a + rest + b == a + (rest + b)
  {
  }

  /** Any number of them at any field boundary changes nothing. */
  lemma {:induction false} ExtrasIgnored(a: Str, u: Extras, b: Str, e: LogEntry)
    requires DecodeEntry(a, e).Ok? && AllUnknown(EntryMessage, u) && Fits(u, RECURSION_LIMIT)
    ensures DecodeEntry(a + ExtraBytes(u) + b, e) == DecodeEntry(a + b, e)
  {
    if u.End? {
      assert a + ExtraBytes(u) + b == a + b;
    } else {
      ExtraIsSkipped(EntryMessage, u, []);
      UnknownFieldIgnored(a, EncodeTag(u.num, FieldType(u)) + ValueBytes(u), ExtraBytes(u.rest) + b, e);
      ExtrasIgnored(a, u.rest, b, e);
      FieldInFront(a, EncodeTag(u.num, FieldType(u)), ValueBytes(u), ExtraBytes(u.rest), b);
    }
  }

  lemma {:induction false} ExtrasIgnoredInRequest(a: Str, u: Extras, b: Str, q: IngestRequest)
    requires DecodeRequest(a, q).Ok? && AllUnknown(RequestMessage, u) && Fits(u, RECURSION_LIMIT)
    ensures DecodeRequest(a + ExtraBytes(u) + b, q) == DecodeRequest(a + b, q)
  {
    if u.End? {
      assert a + ExtraBytes(u) + b == a + b;
    } else {
      ExtraIsSkipped(RequestMessage, u, []);
      UnknownFieldIgnoredInRequest(a, EncodeTag(u.num, FieldType(u)) + ValueBytes(u), ExtraBytes(u.rest) + b, q);
      ExtrasIgnoredInRequest(a, u.rest, b, q);
      FieldInFront(a, EncodeTag(u.num, FieldType(u)), ValueBytes(u), ExtraBytes(u.rest), b);
    }
  }

  lemma {:induction false} ExtrasIgnoredInResponse(a: Str, u: Extras, b: Str, q: IngestResponse)
    requires DecodeResponse(a, q).Ok? && AllUnknown(ResponseMessage, u) && Fits(u, RECURSION_LIMIT)
    ensures DecodeResponse(a + ExtraBytes(u) + b, q) == DecodeResponse(a + b, q)
  {
    if u.End? {
      assert a + ExtraBytes(u) + b == a + b;
    } else {
      ExtraIsSkipped(ResponseMessage, u, []);
      UnknownFieldIgnoredInResponse(a, EncodeTag(u.num, FieldType(u)) + ValueBytes(u), ExtraBytes(u.rest) + b, q);
      ExtrasIgnoredInResponse(a, u.rest, b, q);
      FieldInFront(a, EncodeTag(u.num, FieldType(u)), ValueBytes(u), ExtraBytes(u.rest), b);
    }
  }

  /** An unknown field at any field boundary changes nothing. */
  lemma UnknownFieldIgnored(a: Str, u: Str, b: Str, e: LogEntry)
    requires DecodeEntry(a, e).Ok? && UnknownField(EntryMessage, u)
    ensures DecodeEntry(a + u + b, e) == DecodeEntry(a + b, e)
  {
    var e1 := DecodeEntry(a, e).value;
    OneField(u, b, Skipped, e1);
    EntryFold(a, u + b, e);
    EntryFold(a, b, e);
    assert a + u + b == a + (u + b);
  }

  lemma UnknownFieldIgnoredInRequest(a: Str, u: Str, b: Str, q: IngestRequest)
    requires DecodeRequest(a, q).Ok? && UnknownField(RequestMessage, u)
    ensures DecodeRequest(a + u + b, q) == DecodeRequest(a + b, q)
  {
    var q' := DecodeRequest(a, q).value;
    RequestStep(u, b, Skipped, q');
    assert ApplyRequest(Skipped, q') == Ok(q');
    RequestFold(a, u + b, q);
    RequestFold(a, b, q);
    assert a + u + b == a + (u + b);
  }

  lemma UnknownFieldIgnoredInResponse(a: Str, u: Str, b: Str, q: IngestResponse)
    requires DecodeResponse(a, q).Ok? && UnknownField(ResponseMessage, u)
    ensures DecodeResponse(a + u + b, q) == DecodeResponse(a + b, q)
  {
    var q' := DecodeResponse(a, q).value;
    ResponseStep(u, b, Skipped, q');
    assert ApplyResponse(Skipped, q') == q';
    ResponseFold(a, u + b, q);
    ResponseFold(a, b, q);
    assert a + u + b == a + (u + b);
  }

  /** Decoding bytes that start with exactly one complete field. */
  lemma OneField(u: Str, b: Str, f: Field, e: LogEntry)
    requires NextField(EntryMessage, u) == Got(f, |u|) && ApplyEntry(f, e).Ok?
    ensures DecodeEntry(u + b, e) == DecodeEntry(b, ApplyEntry(f, e).value)
  {
    FieldExtends(EntryMessage, u, b);
    assert u + b != [] && (u + b)[|u|..] == b;
  }

  // ---------------------------------------------------------------- encoding

  function TextField(num: nat, s: Str): Str {
    if s == [] then [] else EncodeTag(num, BYTES) + EncodeBytes(s)
  }

  function RecordField(num: nat, s: Str): Str {
    EncodeTag(num, BYTES) + EncodeBytes(s)
  }

  function ToUint64(x: int): (r: nat)
    ensures r < TWO_64
  {
    x % TWO_64
  }

  function NumberField(num: nat, x: int): Str {
    EncodeTag(num, VARINT) + EncodeVarint(ToUint64(x))
  }

  function TimeField(t: Time): Str {
    if IsZero(t) then [] else NumberField(2, UnixNano(t))
  }

  function PairBytes(k: Str, v: Str): Str {
    TextField(1, k) + TextField(2, v)
  }

  /** The map fields, in the order the map happened to be iterated. */
  function MapFields(order: seq<Str>, fields: map<Str, Str>): Str
    requires forall k :: k in order ==> k in fields
  {
    if order == [] then []
    else
      var n := |order| - 1;
      MapFields(order[..n], fields) + RecordField(7, PairBytes(order[n], fields[order[n]]))
  }

  predicate IterationOrder(order: seq<Str>, fields: map<Str, Str>) {
    && (forall i :: 0 <= i < |order| ==> order[i] in fields)
    && (forall i, j :: 0 <= i < j < |order| ==> order[i] != order[j])
    && (forall k :: k in fields ==> k in order)
  }

  /** Everything but the map, in front of `rest`. */
  function HeadBytes(e: LogEntry, rest: Str): Str {
    TextField(1, e.id) + (TimeField(e.timestamp) + (TextField(3, e.host) + TailBytes(e, rest)))
  }

  function TailBytes(e: LogEntry, rest: Str): Str {
    TextField(4, e.source) + (TextField(5, e.level) + (TextField(6, e.message) + rest))
  }

  function EntryBytes(e: LogEntry, order: seq<Str>): Str
    requires IterationOrder(order, e.fields)
  {
    HeadBytes(e, MapFields(order, e.fields))
  }

  /** Go slices are shorter than 2^63 bytes. */
  predicate FitsSlice(b: Str) {
    |b| < 0x8000_0000_0000_0000
  }

  // ---------------------------------------------------------------- single fields round trip

  lemma RecordReads(msg: Message, num: nat, s: Str)
    requires KindOf(msg, num) == AsBytes && 1 <= num <= 7 && FitsSlice(s)
    ensures NextField(msg, RecordField(num, s)) == Got(Record(num, s), |RecordField(num, s)|)
  {
    TagRoundTrip(num, BYTES, EncodeBytes(s));
    BytesRoundTrip(s, []);
    assert EncodeBytes(s) + [] == EncodeBytes(s);
    assert RecordField(num, s)[|EncodeTag(num, BYTES)|..] == EncodeBytes(s);
  }

  lemma NumberReads(msg: Message, num: nat, x: int)
    requires KindOf(msg, num) == AsVarint && 1 <= num <= 7
    ensures NextField(msg, NumberField(num, x)) == Got(Number(num, ToUint64(x)), |NumberField(num, x)|)
  {
    var v := EncodeVarint(ToUint64(x));
    TagRoundTrip(num, VARINT, v);
    CapIs64Bits();
    VarintRoundTrip(ToUint64(x), [], 0);
    assert v + [] == v;
    assert NumberField(num, x)[|EncodeTag(num, VARINT)|..] == v;
  }

  /** Storing an int64 as uint64 and reading it back. */
  lemma Int64RoundTrip(x: int)
    ensures ToInt64(ToUint64(x)) == ToInt64(x)
    ensures ToUint64(x) == 0 <==> ToInt64(x) == 0
  {
    var q := x / TWO_64;
    assert x == q * TWO_64 + ToUint64(x);
    ShiftMod(ToUint64(x) - MIN_INT64, q);
  }

  lemma ShiftMod(y: int, q: int)
    ensures (y + q * TWO_64) % TWO_64 == y % TWO_64
  {
    var r := y % TWO_64;
    assert y + q * TWO_64 == (y / TWO_64 + q) * TWO_64 + r;
    ModUnique(y + q * TWO_64, y / TWO_64 + q, r);
  }

  lemma ModUnique(x: int, q: int, r: int)
    requires x == q * TWO_64 + r && 0 <= r < TWO_64
    ensures x % TWO_64 == r
  {
    var q' := x / TWO_64;
    assert x == q' * TWO_64 + x % TWO_64;
    assert (q - q') * TWO_64 == x % TWO_64 - r;
  }

  lemma TextStep(num: nat, s: Str, rest: Str, e: LogEntry)
    requires num in {1, 3, 4, 5, 6} && FitsSlice(s)
    ensures DecodeEntry(TextField(num, s) + rest, e) == DecodeEntry(rest, if s == [] then e else ApplyText(num, s, e))
  {
    if s == [] {
      assert TextField(num, s) + rest == rest;
    } else {
      RecordReads(EntryMessage, num, s);
      OneField(RecordField(num, s), rest, Record(num, s), e);
    }
  }

  /** The time a decoder sees for an encoded time. */
  function DecodedTime(t: Time): Time {
    if IsZero(t) || UnixNano(t) == 0 then ZERO_TIME else Time(UnixNano(t), 0)
  }

  lemma TimeStep(t: Time, rest: Str, e: LogEntry)
    requires e.timestamp == ZERO_TIME
    ensures DecodeEntry(TimeField(t) + rest, e) == DecodeEntry(rest, e.(timestamp := DecodedTime(t)))
  {
    if IsZero(t) {
      assert TimeField(t) + rest == rest;
    } else {
      NumberReads(EntryMessage, 2, UnixNano(t));
      OneField(NumberField(2, UnixNano(t)), rest, Number(2, ToUint64(UnixNano(t))), e);
      Int64RoundTrip(UnixNano(t));
    }
  }

  lemma PairTextStep(num: nat, s: Str, rest: Str, p: Pair)
    requires num in {1, 2} && FitsSlice(s)
    ensures DecodePair(TextField(num, s) + rest, p)
         == DecodePair(rest, if s == [] then p else ApplyPair(Record(num, s), p))
  {
    if s == [] {
      assert TextField(num, s) + rest == rest;
    } else {
      RecordReads(MapMessage, num, s);
      FieldExtends(MapMessage, RecordField(num, s), rest);
      assert (RecordField(num, s) + rest)[|RecordField(num, s)|..] == rest;
    }
  }

  lemma PairRoundTrip(k: Str, v: Str)
    requires FitsSlice(PairBytes(k, v))
    ensures DecodePair(PairBytes(k, v), Pair([], [])) == Ok(Pair(k, v))
  {
    PairTextStep(1, k, TextField(2, v), Pair([], []));
    PairTextStep(2, v, [], Pair(k, []));
    assert TextField(2, v) + [] == TextField(2, v);
  }

  // ---------------------------------------------------------------- entries round trip

  function AssignAll(m: map<Str, Str>, order: seq<Str>, fields: map<Str, Str>): map<Str, Str>
    requires forall k :: k in order ==> k in fields
  {
    if order == [] then m
    else AssignAll(m, order[..|order| - 1], fields)[order[|order| - 1] := fields[order[|order| - 1]]]
  }

  lemma {:induction false} AssignAllCovers(m: map<Str, Str>, order: seq<Str>, fields: map<Str, Str>)
    requires forall k :: k in order ==> k in fields
    ensures forall k :: k in AssignAll(m, order, fields) <==> k in m || k in order
    ensures forall k :: k in order ==> AssignAll(m, order, fields)[k] == fields[k]
  {
    if order != [] {
      var n := |order| - 1;
      assert order == order[..n] + [order[n]];
      AssignAllCovers(m, order[..n], fields);
    }
  }

  lemma {:induction false} MapFieldsStep(order: seq<Str>, fields: map<Str, Str>, e: LogEntry)
    requires forall k :: k in order ==> k in fields
    requires FitsSlice(MapFields(order, fields))
    ensures DecodeEntry(MapFields(order, fields), e) == Ok(e.(fields := AssignAll(e.fields, order, fields)))
  {
    if order != [] {
      var n := |order| - 1;
      var init, k := order[..n], order[n];
      var bytes := PairBytes(k, fields[k]);
      MapFieldsStep(init, fields, e);
      EntryFold(MapFields(init, fields), RecordField(7, bytes), e);
      RecordReads(EntryMessage, 7, bytes);
      PairRoundTrip(k, fields[k]);
      var e1 := DecodeEntry(MapFields(init, fields), e).value;
      OneField(RecordField(7, bytes), [], Record(7, bytes), e1);
      assert RecordField(7, bytes) + [] == RecordField(7, bytes);
    }
  }

  /** Decoding an encoded entry gives it back, for every iteration order of its map and every time,
      up to what happens to the time. */
  lemma EntryRoundTrip(e: LogEntry, order: seq<Str>)
    requires IterationOrder(order, e.fields) && FitsSlice(EntryBytes(e, order))
    ensures DecodeEntry(EntryBytes(e, order), EMPTY_ENTRY) == Ok(e.(timestamp := DecodedTime(e.timestamp)))
  {
    HeadStep(e, MapFields(order, e.fields));
    MapFieldsStep(order, e.fields, DecodedHead(e));
    AssignAllCovers(map[], order, e.fields);
    assert AssignAll(map[], order, e.fields) == e.fields;
  }

  function DecodedHead(e: LogEntry): LogEntry {
    e.(timestamp := DecodedTime(e.timestamp), fields := map[])
  }

  lemma HeadStep(e: LogEntry, rest: Str)
    requires FitsSlice(HeadBytes(e, rest))
    ensures DecodeEntry(HeadBytes(e, rest), EMPTY_ENTRY) == DecodeEntry(rest, DecodedHead(e))
  {
    var t4 := TailBytes(e, rest);
    var t3 := TextField(3, e.host) + t4;
    var e1 := EMPTY_ENTRY.(id := e.id);
    var e2 := e1.(timestamp := DecodedTime(e.timestamp));
    TextStep(1, e.id, TimeField(e.timestamp) + t3, EMPTY_ENTRY);
    TimeStep(e.timestamp, t3, e1);
    TextStep(3, e.host, t4, e2);
    TailStep(e, rest, e2.(host := e.host));
  }

  lemma TailStep(e: LogEntry, rest: Str, e0: LogEntry)
    requires FitsSlice(TailBytes(e, rest)) && e0.source == e0.level == e0.message == []
    ensures DecodeEntry(TailBytes(e, rest), e0)
         == DecodeEntry(rest, e0.(source := e.source, level := e.level, message := e.message))
  {
    var t6 := TextField(6, e.message) + rest;
    var e1 := e0.(source := e.source);
    TextStep(4, e.source, TextField(5, e.level) + t6, e0);
    TextStep(5, e.level, t6, e1);
    TextStep(6, e.message, rest, e1.(level := e.level));
  }

  /** Exactly which times survive: the zero time, and every instant in the int64 nanosecond range
      except the Unix epoch itself. The zone is always lost to UTC. */
  lemma TimeSurvives(t: Time)
    ensures DecodedTime(t) == Utc(t) <==> IsZero(t) || (InInt64(t.nano) && t.nano != 0)
  {
  }

  /** The epoch does not survive. */
  lemma EpochIsLost()
    ensures var e := EMPTY_ENTRY.(timestamp := Time(0, 0));
      DecodeEntry(EntryBytes(e, []), EMPTY_ENTRY) == Ok(e.(timestamp := ZERO_TIME))
  {
    var e := EMPTY_ENTRY.(timestamp := Time(0, 0));
    assert FitsSlice(EntryBytes(e, [])) by {
      EntryLayout(e, []);
      assert EncodeVarint(0) == [0];
    }
    EntryRoundTrip(e, []);
  }

  // ---------------------------------------------------------------- last one wins

  /** The fields of an entry message in the order they are read. */
  function FieldsOf(b: Str): seq<Field> {
    if b == [] then []
    else
      match NextField(EntryMessage, b)
      case Bad => []
      case Got(f, n) => [f] + FieldsOf(b[n..])
  }

  /** The last value of a text field, or `default` if it does not occur. */
  function LastText(fs: seq<Field>, num: nat, default: Str): Str {
    if fs == [] then default
    else
      var f := fs[|fs| - 1];
      if f.Record? && f.num == num then f.s else LastText(fs[..|fs| - 1], num, default)
  }

  /** The last value of the time field that is not zero. */
  function LastTime(fs: seq<Field>, default: Time): Time {
    if fs == [] then default
    else
      var f := fs[|fs| - 1];
      if f.Number? && f.v != 0 then Time(ToInt64(f.v), 0) else LastTime(fs[..|fs| - 1], default)
  }

  /** The value of the last map entry with key `k`. */
  function LastPair(fs: seq<Field>, k: Str, default: Option<Str>): Option<Str> {
    if fs == [] then default
    else
      var f, rest := fs[|fs| - 1], LastPair(fs[..|fs| - 1], k, default);
      if f.Record? && f.num == 7 then
        match DecodePair(f.s, Pair([], []))
        case Ok(p) => if p.key == k then Some(p.value) else rest
        case Err => rest
      else rest
  }

  function Lookup(m: map<Str, Str>, k: Str): Option<Str> {
    if k in m then Some(m[k]) else None
  }

  lemma {:induction false} LastTextFront(f: Field, fs: seq<Field>, num: nat, default: Str)
    ensures LastText([f] + fs, num, default) == LastText(fs, num, LastText([f], num, default))
  {
    if fs == [] {
      assert [f] + fs == [f];
    } else {
      assert ([f] + fs)[..|fs|] == [f] + fs[..|fs| - 1];
      LastTextFront(f, fs[..|fs| - 1], num, default);
    }
  }

  lemma {:induction false} LastTimeFront(f: Field, fs: seq<Field>, default: Time)
    ensures LastTime([f] + fs, default) == LastTime(fs, LastTime([f], default))
  {
    if fs == [] {
      assert [f] + fs == [f];
    } else {
      assert ([f] + fs)[..|fs|] == [f] + fs[..|fs| - 1];
      LastTimeFront(f, fs[..|fs| - 1], default);
    }
  }

  lemma {:induction false} LastPairFront(f: Field, fs: seq<Field>, k: Str, default: Option<Str>)
    ensures LastPair([f] + fs, k, default) == LastPair(fs, k, LastPair([f], k, default))
  {
    if fs == [] {
      assert [f] + fs == [f];
    } else {
      assert ([f] + fs)[..|fs|] == [f] + fs[..|fs| - 1];
      LastPairFront(f, fs[..|fs| - 1], k, default);
    }
  }

  /** `e'` is what `e` becomes when each field takes its last value in `fs`. */
  ghost predicate TakesLast(fs: seq<Field>, e: LogEntry, e': LogEntry) {
    && e'.id == LastText(fs, 1, e.id) && e'.host == LastText(fs, 3, e.host) && e'.source == LastText(fs, 4, e.source)
    && e'.level == LastText(fs, 5, e.level) && e'.message == LastText(fs, 6, e.message)
    && e'.timestamp == LastTime(fs, e.timestamp)
    && forall k :: Lookup(e'.fields, k) == LastPair(fs, k, Lookup(e.fields, k))
  }

  lemma OneTakesLast(f: Field, e: LogEntry)
    requires ApplyEntry(f, e).Ok? && (f.Record? ==> 1 <= f.num <= 7 && f.num != 2)
    ensures TakesLast([f], e, ApplyEntry(f, e).value)
  {
    var one := [f];
    assert one[..0] == [];
  }

  lemma TakesLastJoin(f: Field, fs: seq<Field>, e: LogEntry, e1: LogEntry, e2: LogEntry)
    requires TakesLast([f], e, e1) && TakesLast(fs, e1, e2)
    ensures TakesLast([f] + fs, e, e2)
  {
    LastTextFront(f, fs, 1, e.id);
    LastTextFront(f, fs, 3, e.host);
    LastTextFront(f, fs, 4, e.source);
    LastTextFront(f, fs, 5, e.level);
    LastTextFront(f, fs, 6, e.message);
    LastTimeFront(f, fs, e.timestamp);
    forall k ensures Lookup(e2.fields, k) == LastPair([f] + fs, k, Lookup(e.fields, k)) {
      LastPairFront(f, fs, k, Lookup(e.fields, k));
    }
  }

  lemma FieldNumbers(b: Str)
    requires NextField(EntryMessage, b).Got?
    ensures var f := NextField(EntryMessage, b).value; f.Record? ==> 1 <= f.num <= 7 && f.num != 2
  {
  }

  /** For every input that decodes, each text field has its last value, each map key the value of its last
      entry, and the time its last value that is not zero. */
  lemma {:induction false} LastOneWins(b: Str, e: LogEntry)
    requires DecodeEntry(b, e).Ok?
    ensures TakesLast(FieldsOf(b), e, DecodeEntry(b, e).value)
    decreases |b|
  {
    if b != [] {
      var got := NextField(EntryMessage, b);
      var e1 := ApplyEntry(got.value, e).value;
      FieldNumbers(b);
      OneTakesLast(got.value, e);
      LastOneWins(b[got.size..], e1);
      TakesLastJoin(got.value, FieldsOf(b[got.size..]), e, e1, DecodeEntry(b, e).value);
    }
  }

  lemma TimeAppended(a: Str, x: int, e: LogEntry)
    requires DecodeEntry(a, e).Ok?
    ensures DecodeEntry(a + NumberField(2, x), e) == Ok(ApplyNumber(ToUint64(x), DecodeEntry(a, e).value))
  {
    var e1, field := DecodeEntry(a, e).value, NumberField(2, x);
    EntryFold(a, field, e);
    NumberReads(EntryMessage, 2, x);
    OneField(field, [], Number(2, ToUint64(x)), e1);
    assert field + [] == field;
  }

  predicate DecidesTime(a: Str, x: int, e: LogEntry)
    requires DecodeEntry(a, e).Ok?
  {
    DecodeEntry(a + NumberField(2, x), e) == Ok(DecodeEntry(a, e).value.(timestamp := Time(ToInt64(x), 0)))
  }

  /** The last value of the time field decides the time, whatever came before, if and only if it is not zero. */
  lemma LastTimeWinsIff(x: int)
    ensures (forall a, e :: DecodeEntry(a, e).Ok? ==> DecidesTime(a, x, e)) <==> ToUint64(x) != 0
  {
    Int64RoundTrip(x);
    if ToUint64(x) != 0 {
      forall a, e | DecodeEntry(a, e).Ok? ensures DecidesTime(a, x, e) { TimeAppended(a, x, e); }
    } else {
      TimeAppended([], x, EMPTY_ENTRY);
      assert DecodeEntry([], EMPTY_ENTRY) == Ok(EMPTY_ENTRY);
      assert !DecidesTime([], x, EMPTY_ENTRY);
    }
  }

  /** A time of 5 followed by a time of zero decodes to 5. */
  lemma ZeroTimeDoesNotWin()
    ensures DecodeEntry(NumberField(2, 5) + NumberField(2, 0), EMPTY_ENTRY) == Ok(EMPTY_ENTRY.(timestamp := Time(5, 0)))
    ensures NumberField(2, 5) == [16, 5] && NumberField(2, 0) == [16, 0]
  {
    TimeAppended([], 5, EMPTY_ENTRY);
    assert [] + NumberField(2, 5) == NumberField(2, 5);
    TimeAppended(NumberField(2, 5), 0, EMPTY_ENTRY);
    assert EncodeTag(2, VARINT) == [16] && EncodeVarint(5) == [5] && EncodeVarint(0) == [0];
  }

  // ---------------------------------------------------------------- requests and responses

  function EventFields(events: seq<LogEntry>, orders: seq<seq<Str>>): Str
    requires |orders| == |events|
    requires forall i :: 0 <= i < |events| ==> IterationOrder(orders[i], events[i].fields)
  {
    if events == [] then []
    else
      var n := |events| - 1;
      EventFields(events[..n], orders[..n]) + RecordField(2, EntryBytes(events[n], orders[n]))
  }

  function RequestBytes(q: IngestRequest, orders: seq<seq<Str>>): Str
    requires |orders| == |q.events|
    requires forall i :: 0 <= i < |q.events| ==> IterationOrder(orders[i], q.events[i].fields)
  {
    TextField(1, q.agentID) + EventFields(q.events, orders)
  }

  function DecodedEvents(events: seq<LogEntry>): seq<LogEntry> {
    if events == [] then []
    else
      var e := events[|events| - 1];
      DecodedEvents(events[..|events| - 1]) + [e.(timestamp := DecodedTime(e.timestamp))]
  }

  lemma EventStep(e: LogEntry, order: seq<Str>, q: IngestRequest)
    requires IterationOrder(order, e.fields) && FitsSlice(EntryBytes(e, order))
    ensures DecodeRequest(RecordField(2, EntryBytes(e, order)), q)
         == Ok(q.(events := q.events + [e.(timestamp := DecodedTime(e.timestamp))]))
  {
    var bytes := EntryBytes(e, order);
    RecordReads(RequestMessage, 2, bytes);
    EntryRoundTrip(e, order);
    RequestStep(RecordField(2, bytes), [], Record(2, bytes), q);
    assert RecordField(2, bytes) + [] == RecordField(2, bytes);
  }

  /** Decoding bytes that start with exactly one complete field of a request. */
  lemma RequestStep(u: Str, rest: Str, f: Field, q: IngestRequest)
    requires NextField(RequestMessage, u) == Got(f, |u|) && ApplyRequest(f, q).Ok?
    ensures DecodeRequest(u + rest, q) == DecodeRequest(rest, ApplyRequest(f, q).value)
  {
    FieldExtends(RequestMessage, u, rest);
    assert u + rest != [] && (u + rest)[|u|..] == rest;
  }

  lemma {:induction false} EventFieldsStep(events: seq<LogEntry>, orders: seq<seq<Str>>, q: IngestRequest)
    requires |orders| == |events|
    requires forall i :: 0 <= i < |events| ==> IterationOrder(orders[i], events[i].fields)
    requires FitsSlice(EventFields(events, orders))
    ensures DecodeRequest(EventFields(events, orders), q) == Ok(q.(events := q.events + DecodedEvents(events)))
  {
    if events == [] {
      assert q.events + [] == q.events;
    } else {
      var n := |events| - 1;
      var before, bytes := EventFields(events[..n], orders[..n]), EntryBytes(events[n], orders[n]);
      EventFieldsStep(events[..n], orders[..n], q);
      RequestFold(before, RecordField(2, bytes), q);
      EventStep(events[n], orders[n], q.(events := q.events + DecodedEvents(events[..n])));
      assert q.events + DecodedEvents(events)
          == q.events + DecodedEvents(events[..n]) + [events[n].(timestamp := DecodedTime(events[n].timestamp))];
    }
  }

  lemma RequestRoundTrip(q: IngestRequest, orders: seq<seq<Str>>)
    requires |orders| == |q.events|
    requires forall i :: 0 <= i < |q.events| ==> IterationOrder(orders[i], q.events[i].fields)
    requires FitsSlice(RequestBytes(q, orders))
    ensures DecodeRequest(RequestBytes(q, orders), IngestRequest([], []))
         == Ok(IngestRequest(q.agentID, DecodedEvents(q.events)))
  {
    var tail := EventFields(q.events, orders);
    if q.agentID == [] {
      assert RequestBytes(q, orders) == tail;
    } else {
      RecordReads(RequestMessage, 1, q.agentID);
      RequestStep(RecordField(1, q.agentID), tail, Record(1, q.agentID), IngestRequest([], []));
    }
    EventFieldsStep(q.events, orders, IngestRequest(q.agentID, []));
    assert [] + DecodedEvents(q.events) == DecodedEvents(q.events);
  }

  /** A time that decoding gives back unchanged. */
  predicate Survives(t: Time) {
    t == ZERO_TIME || (t.zone == 0 && InInt64(t.nano) && t.nano != 0)
  }

  lemma SurvivesIff(t: Time)
    ensures DecodedTime(t) == t <==> Survives(t)
  {
    TimeSurvives(t);
  }

  lemma {:induction false} EventsSurviveIff(events: seq<LogEntry>)
    ensures |DecodedEvents(events)| == |events|
    ensures DecodedEvents(events) == events <==> forall i :: 0 <= i < |events| ==> Survives(events[i].timestamp)
  {
    if events != [] {
      var n := |events| - 1;
      var init, e := events[..n], events[n];
      EventsSurviveIff(init);
      SurvivesIff(e.timestamp);
      assert events == init + [e];
      assert forall i :: 0 <= i < n ==> init[i] == events[i];
    }
  }

  /** A request comes back unchanged if and only if all its times are in UTC and survive. */
  lemma RequestUnchangedIff(q: IngestRequest, orders: seq<seq<Str>>)
    requires |orders| == |q.events|
    requires forall i :: 0 <= i < |q.events| ==> IterationOrder(orders[i], q.events[i].fields)
    requires FitsSlice(RequestBytes(q, orders))
    ensures DecodeRequest(RequestBytes(q, orders), IngestRequest([], [])) == Ok(q)
       <==> forall i :: 0 <= i < |q.events| ==> Survives(q.events[i].timestamp)
  {
    RequestRoundTrip(q, orders);
    EventsSurviveIff(q.events);
  }

  function CountField(num: nat, x: int): Str {
    if x == 0 then [] else NumberField(num, x)
  }

  function ErrorFields(errors: seq<Str>): Str {
    if errors == [] then [] else ErrorFields(errors[..|errors| - 1]) + RecordField(4, errors[|errors| - 1])
  }

  function ResponseBytes(q: IngestResponse): Str {
    TextField(1, q.status) + (CountField(2, q.accepted) + (CountField(3, q.duplicates) + ErrorFields(q.errors)))
  }

  /** Decoding bytes that start with exactly one complete field of a response. */
  lemma ResponseStep(u: Str, rest: Str, f: Field, q: IngestResponse)
    requires NextField(ResponseMessage, u) == Got(f, |u|)
    ensures DecodeResponse(u + rest, q) == DecodeResponse(rest, ApplyResponse(f, q))
  {
    FieldExtends(ResponseMessage, u, rest);
    assert u + rest != [] && (u + rest)[|u|..] == rest;
  }

  lemma ErrorStep(msg: Str, q: IngestResponse)
    requires FitsSlice(msg)
    ensures DecodeResponse(RecordField(4, msg), q) == Ok(q.(errors := q.errors + [msg]))
  {
    RecordReads(ResponseMessage, 4, msg);
    ResponseStep(RecordField(4, msg), [], Record(4, msg), q);
    assert RecordField(4, msg) + [] == RecordField(4, msg);
  }

  lemma RegroupLast<T>(a: seq<T>, b: seq<T>)
    requires b != []
    ensures a + b[..|b| - 1] + [b[|b| - 1]] == a + b
  {
  }

  /** The parts of bytes that fit a slice fit one too. */
  lemma FieldFits(before: Str, num: nat, s: Str)
    requires FitsSlice(before + RecordField(num, s))
    ensures FitsSlice(before) && FitsSlice(s)
  {
  }

  lemma {:induction false} ErrorFieldsStep(errors: seq<Str>, q: IngestResponse)
    requires FitsSlice(ErrorFields(errors))
    ensures DecodeResponse(ErrorFields(errors), q) == Ok(q.(errors := q.errors + errors))
  {
    if errors == [] {
      assert q.errors + [] == q.errors;
    } else {
      var n := |errors| - 1;
      var q1 := q.(errors := q.errors + errors[..n]);
      var before := ErrorFields(errors[..n]);
      FieldFits(before, 4, errors[n]);
      ErrorFieldsStep(errors[..n], q);
      ResponseFold(before, RecordField(4, errors[n]), q);
      ErrorStep(errors[n], q1);
      RegroupLast(q.errors, errors);
    }
  }

  lemma CountStep(num: nat, x: int, rest: Str, q: IngestResponse)
    requires 2 <= num <= 3 && InInt64(x)
    requires if num == 2 then q.accepted == 0 else q.duplicates == 0
    ensures DecodeResponse(CountField(num, x) + rest, q)
         == DecodeResponse(rest, if num == 2 then q.(accepted := x) else q.(duplicates := x))
  {
    if x == 0 {
      assert CountField(num, x) + rest == rest;
    } else {
      NumberReads(ResponseMessage, num, x);
      ResponseStep(NumberField(num, x), rest, Number(num, ToUint64(x)), q);
      Int64RoundTrip(x);
    }
  }

  /** Responses round trip, negative and ten-byte counts included. */
  lemma ResponseRoundTrip(q: IngestResponse)
    requires InInt64(q.accepted) && InInt64(q.duplicates) && FitsSlice(ResponseBytes(q))
    ensures DecodeResponse(ResponseBytes(q), IngestResponse([], 0, 0, [])) == Ok(q)
  {
    var t4 := ErrorFields(q.errors);
    var t3 := CountField(3, q.duplicates) + t4;
    var t2 := CountField(2, q.accepted) + t3;
    var q0 := IngestResponse([], 0, 0, []);
    if q.status == [] {
      assert ResponseBytes(q) == t2;
    } else {
      RecordReads(ResponseMessage, 1, q.status);
      ResponseStep(RecordField(1, q.status), t2, Record(1, q.status), q0);
    }
    CountStep(2, q.accepted, t3, q0.(status := q.status));
    CountStep(3, q.duplicates, t4, q0.(status := q.status, accepted := q.accepted));
    ErrorFieldsStep(q.errors, q.(errors := []));
    assert [] + q.errors == q.errors;
  }

  // ---------------------------------------------------------------- the messages byte by byte

  /** A text behind its tag byte; empty texts are left out. */
  function Tagged(tag: byte, s: Str): Str {
    if s == [] then [] else [tag] + EncodeBytes(s)
  }

  lemma TextLayout(num: nat, s: Str)
    requires 1 <= num <= 7
    ensures TextField(num, s) == Tagged(8 * num + 2, s) && RecordField(num, s) == [8 * num + 2] + EncodeBytes(s)
  {
    SmallTag(num, 2);
  }

  /** Map entries: tag 58 each, key under 10 and value under 18. */
  function MapBytes(order: seq<Str>, fields: map<Str, Str>): Str
    requires forall k :: k in order ==> k in fields
  {
    if order == [] then []
    else
      var n := |order| - 1;
      MapBytes(order[..n], fields) + ([58] + EncodeBytes(Tagged(10, order[n]) + Tagged(18, fields[order[n]])))
  }

  lemma {:induction false} MapLayout(order: seq<Str>, fields: map<Str, Str>)
    requires forall k :: k in order ==> k in fields
    ensures MapFields(order, fields) == MapBytes(order, fields)
  {
    if order != [] {
      var n := |order| - 1;
      MapLayout(order[..n], fields);
      TextLayout(1, order[n]);
      TextLayout(2, fields[order[n]]);
      TextLayout(7, PairBytes(order[n], fields[order[n]]));
    }
  }

  /** An entry: id 10, time 16, host 26, source 34, level 42, message 50 and the fields under 58. */
  lemma EntryLayout(e: LogEntry, order: seq<Str>)
    requires IterationOrder(order, e.fields)
    ensures EntryBytes(e, order)
         == Tagged(10, e.id) + ((if IsZero(e.timestamp) then [] else [16] + EncodeVarint(ToUint64(UnixNano(e.timestamp))))
            + (Tagged(26, e.host) + (Tagged(34, e.source) + (Tagged(42, e.level) + (Tagged(50, e.message) + MapBytes(order, e.fields))))))
  {
    TextLayout(1, e.id);
    TextLayout(3, e.host);
    TextLayout(4, e.source);
    TextLayout(5, e.level);
    TextLayout(6, e.message);
    SmallTag(2, 0);
    MapLayout(order, e.fields);
  }

  function EventBytes(events: seq<LogEntry>, orders: seq<seq<Str>>): Str
    requires |orders| == |events| && forall i :: 0 <= i < |events| ==> IterationOrder(orders[i], events[i].fields)
  {
    if events == [] then []
    else
      var n := |events| - 1;
      EventBytes(events[..n], orders[..n]) + ([18] + EncodeBytes(EntryBytes(events[n], orders[n])))
  }

  /** A request: the agent's id 10 and every event under 18. */
  lemma RequestLayout(q: IngestRequest, orders: seq<seq<Str>>)
    requires |orders| == |q.events| && forall i :: 0 <= i < |q.events| ==> IterationOrder(orders[i], q.events[i].fields)
    ensures RequestBytes(q, orders) == Tagged(10, q.agentID) + EventBytes(q.events, orders)
  {
    TextLayout(1, q.agentID);
    EventsLayout(q.events, orders);
  }

  lemma {:induction false} EventsLayout(events: seq<LogEntry>, orders: seq<seq<Str>>)
    requires |orders| == |events| && forall i :: 0 <= i < |events| ==> IterationOrder(orders[i], events[i].fields)
    ensures EventFields(events, orders) == EventBytes(events, orders)
  {
    if events != [] {
      var n := |events| - 1;
      EventsLayout(events[..n], orders[..n]);
      TextLayout(2, EntryBytes(events[n], orders[n]));
    }
  }

  function ErrorBytes(errors: seq<Str>): Str {
    if errors == [] then [] else ErrorBytes(errors[..|errors| - 1]) + ([34] + EncodeBytes(errors[|errors| - 1]))
  }

  lemma {:induction false} ErrorsLayout(errors: seq<Str>)
    ensures ErrorFields(errors) == ErrorBytes(errors)
  {
    if errors != [] {
      ErrorsLayout(errors[..|errors| - 1]);
      TextLayout(4, errors[|errors| - 1]);
    }
  }

  function CountBytes(tag: byte, x: int): Str {
    if x == 0 then [] else [tag] + EncodeVarint(ToUint64(x))
  }

  /** A response: status 10, accepted 16, duplicates 24 and every error under 34. */
  lemma ResponseLayout(q: IngestResponse)
    ensures ResponseBytes(q)
         == Tagged(10, q.status) + (CountBytes(16, q.accepted) + (CountBytes(24, q.duplicates) + ErrorBytes(q.errors)))
  {
    TextLayout(1, q.status);
    SmallTag(2, 0);
    SmallTag(3, 0);
    ErrorsLayout(q.errors);
  }
}
