/** The Protocol Buffers wire format as the codec uses it: base-128 varints, tags, length-delimited
    records, and skipping the values of unknown fields. */
module Wire {
  import opened GoText

  /** A value read from the front of a byte slice and the number of bytes it took. */
  datatype Read<+T> = Got(value: T, size: nat) | Bad

  datatype Tag = Tag(num: nat, typ: nat)

  const VARINT := 0
  const FIXED64 := 1
  const BYTES := 2
  const START_GROUP := 3
  const END_GROUP := 4
  const FIXED32 := 5

  const MAX_INT32: nat := 0x7fff_ffff

  /** How deep unknown groups may nest. */
  const RECURSION_LIMIT: int := 10000

  // ---------------------------------------------------------------- varints

  function EncodeVarint(v: nat): (r: Str)
    ensures r != []
  {
    if v < 128 then [v] else [v % 128 + 128] + EncodeVarint(v / 128)
  }

  /** The values that fit into the groups from the `i`-th of ten on; the tenth holds one bit. */
  function Cap(i: nat): (c: nat)
    requires i <= 9
    decreases 9 - i
  {
    if i == 9 then 2 else 128 * Cap(i + 1)
  }

  function VarintFrom(b: Str, i: nat): (r: Read<nat>)
    requires i <= 9
    ensures r.Got? ==> 0 < r.size <= |b| && r.size <= 10 - i
    decreases 9 - i
  {
    if b == [] then Bad
    else if i == 9 then if b[0] < 2 then Got(b[0], 1) else Bad
    else if b[0] < 128 then Got(b[0], 1)
    else
      match VarintFrom(b[1..], i + 1)
      case Got(v, n) => Got(b[0] - 128 + 128 * v, n + 1)
      case Bad => Bad
  }

  function ConsumeVarint(b: Str): (r: Read<nat>)
    ensures r.Got? ==> 0 < r.size <= |b|
  {
    VarintFrom(b, 0)
  }

  lemma CapIs64Bits()
    ensures Cap(0) == TWO_64
  {
    assert Cap(7) == 128 * (128 * 2);
    assert Cap(5) == 128 * (128 * Cap(7));
    assert Cap(3) == 128 * (128 * Cap(5));
    assert Cap(1) == 128 * (128 * Cap(3));
  }

  /** Reading back a varint, whatever follows it; `i` counts the groups already read. */
  lemma {:induction false} VarintRoundTrip(v: nat, rest: Str, i: nat)
    requires i <= 9 && v < Cap(i)
    ensures VarintFrom(EncodeVarint(v) + rest, i) == Got(v, |EncodeVarint(v)|)
    decreases 9 - i
  {
    if v >= 128 {
      assert (EncodeVarint(v) + rest)[1..] == EncodeVarint(v / 128) + rest;
      VarintRoundTrip(v / 128, rest, i + 1);
    }
  }

  /** What a reader has read does not depend on what follows. */
  lemma {:induction false} VarintExtends(a: Str, b: Str, i: nat)
    requires i <= 9 && VarintFrom(a, i).Got?
    ensures VarintFrom(a + b, i) == VarintFrom(a, i)
    decreases 9 - i
  {
    if i < 9 && a[0] >= 128 {
      assert (a + b)[1..] == a[1..] + b;
      VarintExtends(a[1..], b, i + 1);
    }
  }

  /** The largest values take ten bytes and no value takes more. */
  lemma {:induction false} VarintLength(v: nat, i: nat)
    requires i <= 9 && v < Cap(i)
    ensures |EncodeVarint(v)| <= 10 - i
    decreases 9 - i
  {
    if v >= 128 { VarintLength(v / 128, i + 1); }
  }

  // ---------------------------------------------------------------- tags and records

  function EncodeTag(num: nat, typ: nat): Str {
    EncodeVarint(num * 8 + typ)
  }

  function ConsumeTag(b: Str): (r: Read<Tag>)
    ensures r.Got? ==> 0 < r.size <= |b| && 1 <= r.value.num <= MAX_INT32 && r.value.typ < 8
  {
    match ConsumeVarint(b)
    case Got(v, n) =>
      if 1 <= v / 8 <= MAX_INT32 then Got(Tag(v / 8, v % 8), n) else Bad
    case Bad => Bad
  }

  function EncodeBytes(s: Str): Str {
    EncodeVarint(|s|) + s
  }

  function ConsumeBytes(b: Str): (r: Read<Str>)
    ensures r.Got? ==> 0 < r.size <= |b|
  {
    match ConsumeVarint(b)
    case Got(m, n) => if m > |b| - n then Bad else Got(b[n..n + m], n + m)
    case Bad => Bad
  }

  lemma TagRoundTrip(num: nat, typ: nat, rest: Str)
    requires 1 <= num <= MAX_INT32 && typ < 8
    ensures ConsumeTag(EncodeTag(num, typ) + rest) == Got(Tag(num, typ), |EncodeTag(num, typ)|)
  {
    CapIs64Bits();
    VarintRoundTrip(num * 8 + typ, rest, 0);
  }

  lemma BytesRoundTrip(s: Str, rest: Str)
    requires |s| < TWO_64
    ensures ConsumeBytes(EncodeBytes(s) + rest) == Got(s, |EncodeBytes(s)|)
  {
    CapIs64Bits();
    VarintRoundTrip(|s|, s + rest, 0);
    assert EncodeBytes(s) + rest == EncodeVarint(|s|) + (s + rest);
    assert (EncodeVarint(|s|) + (s + rest))[|EncodeVarint(|s|)|..][..|s|] == s;
  }

  lemma TagExtends(a: Str, b: Str)
    requires ConsumeTag(a).Got?
    ensures ConsumeTag(a + b) == ConsumeTag(a)
  {
    VarintExtends(a, b, 0);
  }

  lemma BytesExtends(a: Str, b: Str)
    requires ConsumeBytes(a).Got?
    ensures ConsumeBytes(a + b) == ConsumeBytes(a)
  {
    VarintExtends(a, b, 0);
    var n, m := ConsumeVarint(a).size, ConsumeVarint(a).value;
    assert (a + b)[n..n + m] == a[n..n + m];
  }

  // ---------------------------------------------------------------- unknown values

  function Fixed(b: Str, n: nat): Read<()> {
    if |b| < n then Bad else Got((), n)
  }

  /** Skips one value of wire type `typ`; a group runs to its own end marker. */
  function SkipValue(num: nat, typ: nat, b: Str, depth: int): (r: Read<()>)
    ensures r.Got? ==> r.size <= |b|
    decreases |b|, 1
  {
    if typ == VARINT then
      match ConsumeVarint(b) { case Got(_, n) => Got((), n) case Bad => Bad }
    else if typ == FIXED32 then Fixed(b, 4)
    else if typ == FIXED64 then Fixed(b, 8)
    else if typ == BYTES then
      match ConsumeBytes(b) { case Got(_, n) => Got((), n) case Bad => Bad }
    else if typ == START_GROUP && depth >= 0 then SkipGroup(num, b, depth)
    else Bad
  }

  function SkipGroup(num: nat, b: Str, depth: int): (r: Read<()>)
    ensures r.Got? ==> r.size <= |b|
    decreases |b|, 0
  {
    match ConsumeTag(b)
    case Bad => Bad
    case Got(tag, n) =>
      if tag.typ == END_GROUP then if tag.num == num then Got((), n) else Bad
      else
        var after := b[n..];
        match SkipValue(tag.num, tag.typ, after, depth - 1)
        case Bad => Bad
        case Got(_, m) =>
          match SkipGroup(num, after[m..], depth)
          case Bad => Bad
          case Got(_, k) => Got((), n + m + k)
  }

  lemma {:induction false} SkipExtends(num: nat, typ: nat, a: Str, b: Str, depth: int)
    requires SkipValue(num, typ, a, depth).Got?
    ensures SkipValue(num, typ, a + b, depth) == SkipValue(num, typ, a, depth)
    decreases |a|, 1
  {
    if typ == VARINT {
      VarintExtends(a, b, 0);
    } else if typ == BYTES {
      BytesExtends(a, b);
    } else if typ == START_GROUP {
      GroupExtends(num, a, b, depth);
    }
  }

  lemma {:induction false} GroupExtends(num: nat, a: Str, b: Str, depth: int)
    requires SkipGroup(num, a, depth).Got?
    ensures SkipGroup(num, a + b, depth) == SkipGroup(num, a, depth)
    decreases |a|, 0
  {
    TagExtends(a, b);
    var tag, n := ConsumeTag(a).value, ConsumeTag(a).size;
    if tag.typ != END_GROUP {
      var after := a[n..];
      assert (a + b)[n..] == after + b;
      SkipExtends(tag.num, tag.typ, after, b, depth - 1);
      var m := SkipValue(tag.num, tag.typ, after, depth - 1).size;
      assert (after + b)[m..] == after[m..] + b;
      GroupExtends(num, after[m..], b, depth);
    }
  }

  // ---------------------------------------------------------------- fields by their bytes

  /** Fields of any number, as another writer may send them: wire types 0, 1, 5, 2 and the group from 3 to 4. */
  datatype Extras =
    | End
    | Varint64(num: nat, v: nat, rest: Extras)
    | Eight(num: nat, x: Str, rest: Extras)
    | Four(num: nat, x: Str, rest: Extras)
    | Text(num: nat, s: Str, rest: Extras)
    | Group(num: nat, body: Extras, rest: Extras)

  function FieldType(u: Extras): nat
    requires !u.End?
  {
    match u
    case Varint64(_, _, _) => 0
    case Eight(_, _, _) => 1
    case Four(_, _, _) => 5
    case Text(_, _, _) => 2
    case Group(_, _, _) => 3
  }

  /** The bytes of the first field's value. */
  function ValueBytes(u: Extras): Str
    requires !u.End?
    decreases u, 0
  {
    match u
    case Varint64(_, v, _) => EncodeVarint(v)
    case Eight(_, x, _) => x
    case Four(_, x, _) => x
    case Text(_, s, _) => EncodeBytes(s)
    case Group(num, body, _) => ExtraBytes(body) + EncodeTag(num, 4)
  }

  function ExtraBytes(u: Extras): Str
    decreases u, 1
  {
    if u.End? then [] else EncodeTag(u.num, FieldType(u)) + (ValueBytes(u) + ExtraBytes(u.rest))
  }

  /** Numbers and values in range, and groups nested no deeper than `depth` allows. */
  predicate Fits(u: Extras, depth: int) {
    match u
    case End => true
    case Varint64(num, v, rest) => 1 <= num <= MAX_INT32 && v < TWO_64 && Fits(rest, depth)
    case Eight(num, x, rest) => 1 <= num <= MAX_INT32 && |x| == 8 && Fits(rest, depth)
    case Four(num, x, rest) => 1 <= num <= MAX_INT32 && |x| == 4 && Fits(rest, depth)
    case Text(num, s, rest) => 1 <= num <= MAX_INT32 && |s| < TWO_64 && Fits(rest, depth)
    case Group(num, body, rest) => 1 <= num <= MAX_INT32 && depth >= 0 && Fits(body, depth - 1) && Fits(rest, depth)
  }

  lemma Join3(a: Str, b: Str, c: Str)
    ensures a + b + c == a + (b + c)
  {
  }

  /** Skipping takes exactly the value of the first field, whatever follows. */
  lemma {:induction false} ValueSkipped(u: Extras, depth: int, after: Str)
    requires !u.End? && Fits(u, depth)
    ensures SkipValue(u.num, FieldType(u), ValueBytes(u) + after, depth) == Got((), |ValueBytes(u)|)
    decreases u, 0
  {
    match u
    case Varint64(_, v, _) =>
      CapIs64Bits();
      VarintRoundTrip(v, after, 0);
    case Eight(_, _, _) =>
    case Four(_, _, _) =>
    case Text(_, s, _) => BytesRoundTrip(s, after);
    case Group(num, body, _) =>
      GroupSkipped(num, body, depth, after);
      Join3(ExtraBytes(body), EncodeTag(num, 4), after);
  }

  lemma {:induction false} GroupSkipped(num: nat, u: Extras, depth: int, after: Str)
    requires 1 <= num <= MAX_INT32 && Fits(u, depth - 1)
    ensures SkipGroup(num, ExtraBytes(u) + (EncodeTag(num, 4) + after), depth) == Got((), |ExtraBytes(u)| + |EncodeTag(num, 4)|)
    decreases u, 1
  {
    if u.End? {
      GroupCloses(num, depth, after);
      assert ExtraBytes(u) + (EncodeTag(num, 4) + after) == EncodeTag(num, 4) + after;
    } else {
      ValueSkipped(u, depth - 1, ExtraBytes(u.rest) + (EncodeTag(num, 4) + after));
      GroupSkipped(num, u.rest, depth, after);
      GroupMore(num, u, depth, EncodeTag(num, 4) + after, |ExtraBytes(u.rest)| + |EncodeTag(num, 4)|);
    }
  }

  lemma GroupCloses(num: nat, depth: int, after: Str)
    requires 1 <= num <= MAX_INT32
    ensures SkipGroup(num, EncodeTag(num, 4) + after, depth) == Got((), |EncodeTag(num, 4)|)
  {
    TagRoundTrip(num, 4, after);
  }

  lemma GroupMore(num: nat, u: Extras, depth: int, close: Str, k: nat)
    requires !u.End? && Fits(u, depth - 1) && SkipGroup(num, ExtraBytes(u.rest) + close, depth) == Got((), k)
    requires SkipValue(u.num, FieldType(u), ValueBytes(u) + (ExtraBytes(u.rest) + close), depth - 1) == Got((), |ValueBytes(u)|)
    ensures SkipGroup(num, ExtraBytes(u) + close, depth) == Got((), |ExtraBytes(u)| - |ExtraBytes(u.rest)| + k)
  {
    GroupBytes(EncodeTag(u.num, FieldType(u)), ValueBytes(u), ExtraBytes(u.rest), close);
    GroupCons(num, depth, Tag(u.num, FieldType(u)), ValueBytes(u), ExtraBytes(u.rest) + close);
  }

  /** One more field in front of what is left of a group. */
  lemma GroupCons(num: nat, depth: int, t: Tag, value: Str, more: Str)
    requires 1 <= t.num <= MAX_INT32 && t.typ < 8 && t.typ != 4 && SkipGroup(num, more, depth).Got?
    requires SkipValue(t.num, t.typ, value + more, depth - 1) == Got((), |value|)
    ensures SkipGroup(num, EncodeTag(t.num, t.typ) + (value + more), depth)
         == Got((), |EncodeTag(t.num, t.typ)| + |value| + SkipGroup(num, more, depth).size)
  {
    var tag := EncodeTag(t.num, t.typ);
    TagRoundTrip(t.num, t.typ, value + more);
    DropFront(tag, value + more);
    DropFront(value, more);
    GroupStep(num, depth, tag + (value + more), t, |tag|, value + more, |value|, more);
  }

  lemma DropFront(a: Str, b: Str)
    ensures (a + b)[|a|..] == b
  {
  }

  lemma GroupStep(num: nat, depth: int, b: Str, t: Tag, n: nat, after: Str, m: nat, more: Str)
    requires ConsumeTag(b) == Got(t, n) && t.typ != 4 && b[n..] == after && m <= |after| && after[m..] == more
    requires SkipValue(t.num, t.typ, after, depth - 1) == Got((), m) && SkipGroup(num, more, depth).Got?
    ensures SkipGroup(num, b, depth) == Got((), n + m + SkipGroup(num, more, depth).size)
  {
  }

  lemma GroupBytes(tag: Str, value: Str, rest: Str, close: Str)
    ensures tag + (value + rest) + close == tag + (value + (rest + close))
  {
  }

  /** The tag of a small number is one byte. */
  lemma SmallTag(num: nat, typ: nat)
    requires 1 <= num < 16 && typ < 8
    ensures EncodeTag(num, typ) == [num * 8 + typ]
  {
  }

  /** The examples of the encoding's own documentation. */
  lemma DocumentedExamples()
    ensures EncodeVarint(1) == [1] && EncodeVarint(150) == [150, 1] && EncodeVarint(300) == [172, 2]
    ensures EncodeTag(1, 0) + EncodeVarint(150) == [8, 150, 1]
    ensures EncodeTag(2, 2) + EncodeBytes(Ascii("testing")) == [18, 7, 116, 101, 115, 116, 105, 110, 103]
  {
    assert EncodeVarint(150 / 128) == [1] && EncodeVarint(300 / 128) == [2];
  }

  // ---------------------------------------------------------------- what is accepted

  /** The first `n` bytes are one varint: a continuation bit on all but the last, ten bytes at most, 64 bits at most. */
  predicate IsVarint(b: Str, n: nat) {
    && 1 <= n <= 10 && n <= |b| && b[n - 1] < 128 && (n == 10 ==> b[9] < 2)
    && forall i :: 0 <= i < n - 1 ==> b[i] >= 128
  }

  /** Groups of seven bits, the lowest first. */
  function Sevens(b: Str): nat {
    if b == [] then 0 else b[0] % 128 + 128 * Sevens(b[1..])
  }

  lemma {:induction false} VarintSound(b: Str, i: nat)
    requires i <= 9 && VarintFrom(b, i).Got?
    ensures VarintEnds(b, i, VarintFrom(b, i).size)
    ensures VarintFrom(b, i).value == Sevens(b[..VarintFrom(b, i).size])
    decreases 9 - i
  {
    var n := VarintFrom(b, i).size;
    if b[0] >= 128 && i < 9 {
      VarintSound(b[1..], i + 1);
      assert b[..n][1..] == b[1..][..n - 1];
      assert forall k :: 1 <= k < n ==> b[k] == b[1..][k - 1];
    } else {
      assert b[..1][1..] == [] && Sevens([]) == 0;
    }
  }

  lemma {:induction false} VarintComplete(b: Str, i: nat, n: nat)
    requires i <= 9 && VarintEnds(b, i, n)
    ensures VarintFrom(b, i).Got? && VarintFrom(b, i).size == n
    decreases 9 - i
  {
    if n > 1 {
      assert forall k :: 0 <= k < n - 1 ==> b[1..][k] == b[k + 1];
      VarintComplete(b[1..], i + 1, n - 1);
    }
  }

  /** As `IsVarint`, with `i` bytes of it already read. */
  predicate VarintEnds(b: Str, i: nat, n: nat) {
    && 1 <= n <= 10 - i && n <= |b| && b[n - 1] < 128 && (n + i == 10 ==> b[n - 1] < 2)
    && forall k :: 0 <= k < n - 1 ==> b[k] >= 128
  }

  /** A varint is read exactly if the bytes start with one, and its value is its groups of seven bits. */
  lemma VarintMeaning(b: Str, n: nat)
    ensures IsVarint(b, n) <==> ConsumeVarint(b).Got? && ConsumeVarint(b).size == n
    ensures IsVarint(b, n) ==> ConsumeVarint(b).value == Sevens(b[..n])
  {
    assert IsVarint(b, n) <==> VarintEnds(b, 0, n);
    if IsVarint(b, n) { VarintComplete(b, 0, n); }
    if ConsumeVarint(b).Got? { VarintSound(b, 0); }
  }

  /** A tag is a varint with a field number from 1 to 2^31 - 1 above three bits of wire type; a record is a varint and
      that many bytes. */
  lemma TagAndBytesMeaning(b: Str, n: nat)
    requires IsVarint(b, n)
    ensures var v := Sevens(b[..n]);
      && ConsumeTag(b) == (if 1 <= v / 8 <= 2147483647 then Got(Tag(v / 8, v % 8), n) else Bad)
      && ConsumeBytes(b) == (if n + v <= |b| then Got(b[n..n + v], n + v) else Bad)
  {
    VarintMeaning(b, n);
  }
}
