/** The codec's own loops, proved to compute the functions of `Protobuf`. */
module Codec {
  import opened GoText
  import opened LogEntries
  import opened Wire
  import opened Protobuf

  /** Appends a string field unless it is empty. */
  method AppendText(dst: Str, num: nat, s: Str) returns (b: Str)
    ensures b == dst + TextField(num, s)
  {
    b := dst;
    if s != [] {
      b := b + EncodeTag(num, BYTES);
      b := b + EncodeBytes(s);
      Regroup(dst, EncodeTag(num, BYTES), EncodeBytes(s));
    }
  }

  lemma Regroup(d: Str, a: Str, t: Str)
    ensures d + (a + t) == d + a + t
  {
  }

  lemma Regroup7(d: Str, a: Str, b: Str, c: Str, x: Str, y: Str, z: Str, t: Str)
    ensures d + (a + (b + (c + (x + (y + (z + t)))))) == d + a + b + c + x + y + z + t
  {
    Regroup(d, a, b + (c + (x + (y + (z + t)))));
    Regroup(d + a, b, c + (x + (y + (z + t))));
    Regroup(d + a + b, c, x + (y + (z + t)));
    Regroup(d + a + b + c, x, y + (z + t));
    Regroup(d + a + b + c + x, y, z + t);
    Regroup(d + a + b + c + x + y, z, t);
  }

  /** `AppendLogEntry`: the map is iterated in whatever order the runtime picks. */
  method AppendLogEntry(dst: Str, e: LogEntry) returns (b: Str)
    ensures exists order :: IterationOrder(order, e.fields) && b == dst + EntryBytes(e, order)
  {
    b := AppendText(dst, 1, e.id);
    b := AppendTime(b, e.timestamp);
    b := AppendText(b, 3, e.host);
    b := AppendText(b, 4, e.source);
    b := AppendText(b, 5, e.level);
    b := AppendText(b, 6, e.message);
    ghost var order;
    b, order := AppendFields(b, e.fields);
    Regroup7(dst, TextField(1, e.id), TimeField(e.timestamp), TextField(3, e.host), TextField(4, e.source),
             TextField(5, e.level), TextField(6, e.message), MapFields(order, e.fields));
    assert b == dst + EntryBytes(e, order);
  }

  method AppendTime(dst: Str, t: Time) returns (b: Str)
    ensures b == dst + TimeField(t)
  {
    b := dst;
    if !IsZero(t) {
      b := b + EncodeTag(2, VARINT);
      b := b + EncodeVarint(ToUint64(UnixNano(t)));
      Regroup(dst, EncodeTag(2, VARINT), EncodeVarint(ToUint64(UnixNano(t))));
    }
  }

  /** The loop over the fields map. */
  method AppendFields(dst: Str, fields: map<Str, Str>) returns (b: Str, ghost order: seq<Str>)
    ensures IterationOrder(order, fields) && b == dst + MapFields(order, fields)
  {
    b, order := dst, [];
    var pending := fields.Keys;
    while pending != {}
      invariant pending <= fields.Keys
      invariant forall k :: k in fields ==> (k in order <==> k !in pending)
      invariant forall i :: 0 <= i < |order| ==> order[i] in fields
      invariant forall i, j :: 0 <= i < j < |order| ==> order[i] != order[j]
      invariant b == dst + MapFields(order, fields)
      decreases |pending|
    {
      var k :| k in pending;
      b := AppendPair(b, k, fields[k]);
      MapFieldsAppend(dst, order, fields, k);
      order := order + [k];
      pending := pending - {k};
    }
  }

  /** One map entry, length-prefixed. */
  method AppendPair(dst: Str, k: Str, v: Str) returns (b: Str)
    ensures b == dst + RecordField(7, PairBytes(k, v))
  {
    b := dst + EncodeTag(7, BYTES);
    var pair := AppendText([], 1, k);
    assert pair == TextField(1, k);
    pair := AppendText(pair, 2, v);
    b := b + EncodeBytes(pair);
    Regroup(dst, EncodeTag(7, BYTES), EncodeBytes(PairBytes(k, v)));
  }

  lemma MapFieldsAppend(dst: Str, order: seq<Str>, fields: map<Str, Str>, k: Str)
    requires (forall x :: x in order ==> x in fields) && k in fields
    ensures dst + MapFields(order + [k], fields) == dst + MapFields(order, fields) + RecordField(7, PairBytes(k, fields[k]))
  {
    assert (order + [k])[..|order|] == order;
    Regroup(dst, MapFields(order, fields), RecordField(7, PairBytes(k, fields[k])));
  }

  /** `unmarshalMapEntry`. */
  method UnmarshalMapEntry(input: Str) returns (r: Result<Pair>)
    ensures r == DecodePair(input, Pair([], []))
  {
    var b, p := input, Pair([], []);
    while |b| > 0
      invariant DecodePair(b, p) == DecodePair(input, Pair([], []))
      decreases |b|
    {
      var field := TakeField(MapMessage, b);
      if field.Bad? { return Err; }
      if field.value.Record? {
        if field.value.num == 1 { p := p.(key := field.value.s); }
        else if field.value.num == 2 { p := p.(value := field.value.s); }
      }
      b := b[field.size..];
    }
    r := Ok(p);
  }

  /** `UnmarshalLogEntry`. */
  method UnmarshalLogEntry(input: Str, into: LogEntry) returns (r: Result<LogEntry>)
    ensures r == DecodeEntry(input, into)
  {
    var b, e := input, into;
    while |b| > 0
      invariant DecodeEntry(b, e) == DecodeEntry(input, into)
      decreases |b|
    {
      var field := TakeField(EntryMessage, b);
      if field.Bad? { return Err; }
      match field.value {
        case Skipped =>
        case Number(_, v) =>
          if v != 0 { e := e.(timestamp := Time(ToInt64(v), 0)); }
        case Record(num, s) =>
          if num == 1 { e := e.(id := s); }
          else if num == 3 { e := e.(host := s); }
          else if num == 4 { e := e.(source := s); }
          else if num == 5 { e := e.(level := s); }
          else if num == 6 { e := e.(message := s); }
          else if num == 7 {
            var pair := UnmarshalMapEntry(s);
            if pair.Err? { return Err; }
            e := e.(fields := e.fields[pair.value.key := pair.value.value]);
          }
      }
      b := b[field.size..];
    }
    r := Ok(e);
  }

  /** The head of every decoding loop: a tag, then the value the message expects under that number. */
  method TakeField(msg: Message, b: Str) returns (r: Read<Field>)
    ensures r == NextField(msg, b)
  {
    var tag := ConsumeTag(b);
    if tag.Bad? { return Bad; }
    var v := ReadValue(msg, tag.value, b[tag.size..]);
    if v.Bad? { return Bad; }
    r := Got(v.value, tag.size + v.size);
  }

  /** `MarshalIngestRequest`. */
  method MarshalIngestRequest(req: Option<IngestRequest>) returns (r: Result<Str>)
    ensures r.Err? <==> req.None?
    ensures req.Some? ==> exists orders ::
      && |orders| == |req.value.events|
      && (forall i :: 0 <= i < |orders| ==> IterationOrder(orders[i], req.value.events[i].fields))
      && r.value == RequestBytes(req.value, orders)
  {
    if req.None? { return Err; }
    var head := AppendText([], 1, req.value.agentID);
    var b, orders := AppendEvents(head, req.value.events);
    RequestFromParts(req.value, orders, head, b);
    r := Ok(b);
  }

  lemma RequestFromParts(q: IngestRequest, orders: seq<seq<Str>>, head: Str, b: Str)
    requires Ordered(q.events, orders, |q.events|) && head == [] + TextField(1, q.agentID) && b == head + EventFields(q.events, orders)
    ensures b == RequestBytes(q, orders)
  {
    assert head == TextField(1, q.agentID);
  }

  /** The loop over a request's events. */
  method AppendEvents(dst: Str, events: seq<LogEntry>) returns (b: Str, ghost orders: seq<seq<Str>>)
    ensures |orders| == |events| && forall i :: 0 <= i < |events| ==> IterationOrder(orders[i], events[i].fields)
    ensures b == dst + EventFields(events, orders)
  {
    b, orders := dst, [];
    var i := 0;
    while i < |events|
      invariant 0 <= i <= |events| && Ordered(events, orders, i)
      invariant b == dst + EventFields(events[..i], orders)
    {
      ghost var order;
      b, order := AppendEvent(b, events[i]);
      EventFieldsAppend(dst, events, orders, i, order);
      orders := orders + [order];
      i := i + 1;
    }
    assert events[..i] == events;
  }

  method AppendEvent(dst: Str, e: LogEntry) returns (b: Str, ghost order: seq<Str>)
    ensures IterationOrder(order, e.fields) && b == dst + RecordField(2, EntryBytes(e, order))
  {
    var event := AppendLogEntry([], e);
    order :| IterationOrder(order, e.fields) && event == [] + EntryBytes(e, order);
    b := dst + EncodeTag(2, BYTES);
    b := b + EncodeBytes(event);
    assert event == EntryBytes(e, order);
    Regroup(dst, EncodeTag(2, BYTES), EncodeBytes(event));
  }

  /** One iteration order for each of the first `i` events. */
  predicate Ordered(events: seq<LogEntry>, orders: seq<seq<Str>>, i: nat)
    requires i <= |events|
  {
    |orders| == i && forall k :: 0 <= k < i ==> IterationOrder(orders[k], events[k].fields)
  }

  lemma EventFieldsAppend(dst: Str, events: seq<LogEntry>, orders: seq<seq<Str>>, i: nat, order: seq<Str>)
    requires i < |events| && Ordered(events, orders, i) && IterationOrder(order, events[i].fields)
    ensures Ordered(events, orders + [order], i + 1)
    ensures dst + EventFields(events[..i + 1], orders + [order])
         == dst + EventFields(events[..i], orders) + RecordField(2, EntryBytes(events[i], order))
  {
    assert events[..i + 1][..i] == events[..i] && (orders + [order])[..i] == orders;
    Regroup(dst, EventFields(events[..i], orders), RecordField(2, EntryBytes(events[i], order)));
  }

  /** `UnmarshalIngestRequest`. */
  method UnmarshalIngestRequest(input: Str, into: Option<IngestRequest>) returns (r: Result<IngestRequest>)
    ensures r == if into.None? then Err else DecodeRequest(input, into.value)
  {
    if into.None? { return Err; }
    var b, q := input, into.value;
    while |b| > 0
      invariant DecodeRequest(b, q) == DecodeRequest(input, into.value)
      decreases |b|
    {
      var field := TakeField(RequestMessage, b);
      if field.Bad? { return Err; }
      if field.value.Record? {
        if field.value.num == 1 {
          q := q.(agentID := field.value.s);
        } else {
          var entry := UnmarshalLogEntry(field.value.s, EMPTY_ENTRY);
          if entry.Err? { return Err; }
          q := q.(events := q.events + [entry.value]);
        }
      }
      b := b[field.size..];
    }
    r := Ok(q);
  }

  /** `MarshalIngestResponse`. */
  method MarshalIngestResponse(resp: Option<IngestResponse>) returns (r: Result<Str>)
    ensures r == if resp.None? then Err else Ok(ResponseBytes(resp.value))
  {
    if resp.None? { return Err; }
    var q := resp.value;
    var b := AppendText([], 1, q.status);
    assert b == TextField(1, q.status);
    b := AppendCount(b, 2, q.accepted);
    b := AppendCount(b, 3, q.duplicates);
    b := AppendErrors(b, q.errors);
    Regroup(TextField(1, q.status), CountField(2, q.accepted), CountField(3, q.duplicates) + ErrorFields(q.errors));
    Regroup(TextField(1, q.status) + CountField(2, q.accepted), CountField(3, q.duplicates), ErrorFields(q.errors));
    r := Ok(b);
  }

  method AppendCount(dst: Str, num: nat, x: int) returns (b: Str)
    ensures b == dst + CountField(num, x)
  {
    b := dst;
    if x != 0 {
      b := b + EncodeTag(num, VARINT);
      b := b + EncodeVarint(ToUint64(x));
      Regroup(dst, EncodeTag(num, VARINT), EncodeVarint(ToUint64(x)));
    }
  }

  method AppendErrors(dst: Str, errors: seq<Str>) returns (b: Str)
    ensures b == dst + ErrorFields(errors)
  {
    b := dst;
    var i := 0;
    while i < |errors|
      invariant 0 <= i <= |errors| && b == dst + ErrorFields(errors[..i])
    {
      assert errors[..i + 1][..i] == errors[..i];
      Regroup(dst, ErrorFields(errors[..i]), RecordField(4, errors[i]));
      b := b + RecordField(4, errors[i]);
      i := i + 1;
    }
    assert errors[..i] == errors;
  }

  /** `UnmarshalIngestResponse`. */
  method UnmarshalIngestResponse(input: Str, into: Option<IngestResponse>) returns (r: Result<IngestResponse>)
    ensures r == if into.None? then Err else DecodeResponse(input, into.value)
  {
    if into.None? { return Err; }
    var b, q := input, into.value;
    while |b| > 0
      invariant DecodeResponse(b, q) == DecodeResponse(input, into.value)
      decreases |b|
    {
      var field := TakeField(ResponseMessage, b);
      if field.Bad? { return Err; }
      match field.value {
        case Skipped =>
        case Number(num, v) =>
          q := if num == 2 then q.(accepted := ToInt64(v)) else q.(duplicates := ToInt64(v));
        case Record(num, s) =>
          q := if num == 1 then q.(status := s) else q.(errors := q.errors + [s]);
      }
      b := b[field.size..];
    }
    r := Ok(q);
  }

  // ---------------------------------------------------------------- sent and received

  /** A request marshalled by one side and unmarshalled by the other. */
  method SendRequest(req: IngestRequest) returns (sent: Str, r: Result<IngestRequest>)
    ensures FitsSlice(sent) ==> r == Ok(IngestRequest(req.agentID, DecodedEvents(req.events)))
  {
    var bytes := MarshalIngestRequest(Some(req));
    sent := bytes.value;
    r := UnmarshalIngestRequest(sent, Some(IngestRequest([], [])));
    if FitsSlice(sent) {
      ghost var orders :| && |orders| == |req.events|
        && (forall i :: 0 <= i < |orders| ==> IterationOrder(orders[i], req.events[i].fields))
        && sent == RequestBytes(req, orders);
      RequestRoundTrip(req, orders);
    }
  }

  /** The answer on its way back. */
  method SendResponse(resp: IngestResponse) returns (sent: Str, r: Result<IngestResponse>)
    requires InInt64(resp.accepted) && InInt64(resp.duplicates)
    ensures FitsSlice(sent) ==> r == Ok(resp)
  {
    var bytes := MarshalIngestResponse(Some(resp));
    sent := bytes.value;
    r := UnmarshalIngestResponse(sent, Some(IngestResponse([], 0, 0, [])));
    if FitsSlice(sent) { ResponseRoundTrip(resp); }
  }
}
