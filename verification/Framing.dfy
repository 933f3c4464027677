/** Bytes to lines: a bounded line buffer fed one byte at a time, and what it emits for whole inputs. */
module Framing {
  import opened GoText

  const NEWLINE: byte := 10
  const RETURN: byte := 13
  const DEFAULT_MAX_LINE_BYTES: nat := 1024 * 1024

  /** The line buffer, the lines sent so far and the number of overflow errors. */
  datatype Frame = Frame(lineBuf: Str, lines: seq<Str>, tooLong: nat)

  const EMPTY_FRAME := Frame([], [], 0)

  function StripReturn(line: Str): Str {
    if |line| > 0 && line[|line| - 1] == RETURN then line[..|line| - 1] else line
  }

  /** A finished line as it is sent: nothing at all when empty. */
  function Sent(line: Str): seq<Str> {
    if StripReturn(line) == [] then [] else [StripReturn(line)]
  }

  /** One byte. A byte that finds the buffer full is dropped together with the buffer. */
  function TakeByte(max: nat, f: Frame, b: byte): Frame {
    if b == NEWLINE then f.(lineBuf := [], lines := f.lines + Sent(f.lineBuf))
    else if |f.lineBuf| >= max then f.(lineBuf := [], tooLong := f.tooLong + 1)
    else f.(lineBuf := f.lineBuf + [b])
  }

  function Feed(max: nat, f: Frame, data: Str): Frame {
    if data == [] then f
    else TakeByte(max, Feed(max, f, data[..|data| - 1]), data[|data| - 1])
  }

  lemma FeedOne(max: nat, f: Frame, b: byte)
    ensures Feed(max, f, [b]) == TakeByte(max, f, b)
  {
    assert [b][..0] == [];
  }

  // ---------------------------------------------------------------- independence of chunking

  lemma {:induction false} FeedConcat(max: nat, f: Frame, a: Str, b: Str)
    ensures Feed(max, f, a + b) == Feed(max, Feed(max, f, a), b)
  {
    if b == [] {
      assert a + b == a;
    } else {
      var n := |b| - 1;
      assert (a + b)[..|a + b| - 1] == a + b[..n];
      FeedConcat(max, f, a, b[..n]);
    }
  }

  function Join(chunks: seq<Str>): Str {
    if chunks == [] then [] else chunks[0] + Join(chunks[1..])
  }

  function FeedChunks(max: nat, f: Frame, chunks: seq<Str>): Frame
    decreases |chunks|
  {
    if chunks == [] then f else FeedChunks(max, Feed(max, f, chunks[0]), chunks[1..])
  }

  /** However the bytes are cut into reads, the outcome is that of the whole. */
  lemma {:induction false} ChunkingIrrelevant(max: nat, f: Frame, chunks: seq<Str>)
    ensures FeedChunks(max, f, chunks) == Feed(max, f, Join(chunks))
    decreases |chunks|
  {
    if chunks != [] {
      FeedConcat(max, f, chunks[0], Join(chunks[1..]));
      ChunkingIrrelevant(max, Feed(max, f, chunks[0]), chunks[1..]);
    }
  }

  // ---------------------------------------------------------------- splitting at newlines

  function NewlineAt(data: Str): (i: nat)
    ensures i <= |data| && NEWLINE !in data[..i]
    ensures i < |data| ==> data[i] == NEWLINE
  {
    if data == [] || data[0] == NEWLINE then 0
    else
      var k := NewlineAt(data[1..]);
      assert data[..1 + k] == [data[0]] + data[1..][..k];
      1 + k
  }

  /** The complete lines, without their newlines. */
  function Segments(data: Str): seq<Str> {
    var i := NewlineAt(data);
    if i == |data| then [] else [data[..i]] + Segments(data[i + 1..])
  }

  /** What follows the last newline. */
  function Tail(data: Str): Str {
    var i := NewlineAt(data);
    if i == |data| then data else Tail(data[i + 1..])
  }

  function Unsplit(lines: seq<Str>, tail: Str): Str {
    if lines == [] then tail else lines[0] + [NEWLINE] + Unsplit(lines[1..], tail)
  }

  /** Splitting loses nothing: the segments and the tail spell the data, and hold no newline. */
  lemma {:induction false} SplitSpells(data: Str)
    ensures Unsplit(Segments(data), Tail(data)) == data
    ensures NEWLINE !in Tail(data) && forall i :: 0 <= i < |Segments(data)| ==> NEWLINE !in Segments(data)[i]
    decreases |data|
  {
    var i := NewlineAt(data);
    if i < |data| {
      SplitSpells(data[i + 1..]);
      SplitFirst(data);
      SplitAt(data, i);
    } else {
      OnlyTail(data);
    }
  }

  // ---------------------------------------------------------------- what is emitted

  /** n mod (max + 1) and n div (max + 1), counted up; `CountsUp` ties them to the operators. */
  function Rem(n: nat, max: nat): (r: nat)
    ensures r <= max && r <= n
  {
    if n == 0 || Rem(n - 1, max) == max then 0 else Rem(n - 1, max) + 1
  }

  function Quo(n: nat, max: nat): nat {
    if n == 0 then 0 else Quo(n - 1, max) + if Rem(n - 1, max) == max then 1 else 0
  }

  lemma {:induction false} CountsUp(n: nat, max: nat)
    ensures Rem(n, max) == n % (max + 1) && Quo(n, max) == n / (max + 1)
  {
    Decomposed(n, max);
    DivModUnique(n, max + 1, Quo(n, max), Rem(n, max));
  }

  lemma {:induction false} Decomposed(n: nat, max: nat)
    ensures n == (max + 1) * Quo(n, max) + Rem(n, max)
  {
    if n > 0 {
      Decomposed(n - 1, max);
      var d, q := max + 1, Quo(n - 1, max);
      assert d * (q + 1) == d * q + d;
    }
  }

  lemma ProductAtLeast(d: nat, k: nat)
    requires k >= 1
    ensures d * k >= d
  {
    assert d * k == d + d * (k - 1);
  }

  lemma DivModUnique(n: nat, d: nat, q: nat, r: nat)
    requires d > 0 && n == d * q + r && r < d
    ensures n / d == q && n % d == r
  {
    var q', r' := n / d, n % d;
    assert d * (q' - q) == r - r' && d * (q - q') == r' - r;
    if q' > q { ProductAtLeast(d, q' - q); }
    if q > q' { ProductAtLeast(d, q - q'); }
  }

  /** What is left of a line in a buffer of `max` bytes: its last |line| mod (max + 1) bytes. */
  function Kept(max: nat, line: Str): (r: Str)
    ensures |r| == Rem(|line|, max)
  {
    line[|line| - Rem(|line|, max)..]
  }

  function Emitted(max: nat, lines: seq<Str>): seq<Str> {
    if lines == [] then [] else Sent(Kept(max, lines[0])) + Emitted(max, lines[1..])
  }

  function Overflows(max: nat, lines: seq<Str>): nat {
    if lines == [] then 0 else Quo(|lines[0]|, max) + Overflows(max, lines[1..])
  }

  lemma KeptGrows(max: nat, line: Str)
    requires line != []
    ensures var n := |line| - 1;
      Kept(max, line) == if Rem(n, max) < max then Kept(max, line[..n]) + [line[n]] else []
  {
  }

  /** A stretch without newlines, from an empty buffer. */
  lemma {:induction false} FeedLine(max: nat, f: Frame, line: Str)
    requires f.lineBuf == [] && NEWLINE !in line
    ensures Feed(max, f, line) == f.(lineBuf := Kept(max, line), tooLong := f.tooLong + Quo(|line|, max))
  {
    if line != [] {
      FeedLine(max, f, line[..|line| - 1]);
      KeptGrows(max, line);
    }
  }

  /** Lines already sent do not influence what follows. */
  lemma {:induction false} FeedPrefix(max: nat, f: Frame, data: Str)
    ensures var x := Feed(max, Frame(f.lineBuf, [], 0), data);
      Feed(max, f, data) == Frame(x.lineBuf, f.lines + x.lines, f.tooLong + x.tooLong)
  {
    if data != [] {
      FeedPrefix(max, f, data[..|data| - 1]);
    } else {
      assert f.lines + [] == f.lines;
    }
  }

  /** For every input and every bound: the lines sent are the complete lines, each cut to its last
      |line| mod (max + 1) bytes, less one trailing carriage return, empty ones left out. */
  lemma {:induction false} FramingOfWhole(max: nat, data: Str)
    ensures Framed(max, data)
    decreases |data|
  {
    var i := NewlineAt(data);
    if i == |data| {
      OnlyTail(data);
      FeedLine(max, EMPTY_FRAME, data);
    } else {
      FramingOfWhole(max, data[i + 1..]);
      FramingStep(max, data);
    }
  }

  predicate Framed(max: nat, data: Str) {
    Feed(max, EMPTY_FRAME, data) == FrameOf(max, Segments(data), Tail(data))
  }

  function FrameOf(max: nat, lines: seq<Str>, tail: Str): Frame {
    Frame(Kept(max, tail), Emitted(max, lines), Overflows(max, lines) + Quo(|tail|, max))
  }

  lemma FramingStep(max: nat, data: Str)
    requires NewlineAt(data) < |data| && Framed(max, data[NewlineAt(data) + 1..])
    ensures Framed(max, data)
  {
    var i := NewlineAt(data);
    FirstLine(max, data, i);
    SplitFirst(data);
    EmittedFirst(max, data[..i], Segments(data[i + 1..]));
  }

  lemma OnlyTail(data: Str)
    requires NewlineAt(data) == |data|
    ensures Segments(data) == [] && Tail(data) == data && NEWLINE !in data
  {
    assert data[..|data|] == data;
  }

  lemma SplitFirst(data: Str)
    requires NewlineAt(data) < |data|
    ensures var i := NewlineAt(data);
      Segments(data) == [data[..i]] + Segments(data[i + 1..]) && Tail(data) == Tail(data[i + 1..])
  {
  }

  lemma EmittedFirst(max: nat, line: Str, lines: seq<Str>)
    ensures Emitted(max, [line] + lines) == Sent(Kept(max, line)) + Emitted(max, lines)
    ensures Overflows(max, [line] + lines) == Quo(|line|, max) + Overflows(max, lines)
  {
    assert ([line] + lines)[1..] == lines;
  }

  /** The first line, and the rest as if it came first. */
  lemma FirstLine(max: nat, data: Str, i: nat)
    requires i < |data| && data[i] == NEWLINE && NEWLINE !in data[..i]
    ensures var x := Feed(max, EMPTY_FRAME, data[i + 1..]);
      Feed(max, EMPTY_FRAME, data) == Frame(x.lineBuf, Sent(Kept(max, data[..i])) + x.lines, Quo(i, max) + x.tooLong)
  {
    var line, rest := data[..i], data[i + 1..];
    LineEnds(max, line);
    SplitAt(data, i);
    LineThenRest(max, line + [NEWLINE], rest);
  }

  lemma SplitAt<T>(s: seq<T>, i: nat)
    requires i < |s|
    ensures s == s[..i] + [s[i]] + s[i + 1..]
  {
  }

  lemma LineThenRest(max: nat, line: Str, rest: Str)
    requires Feed(max, EMPTY_FRAME, line).lineBuf == []
    ensures var x, mid := Feed(max, EMPTY_FRAME, rest), Feed(max, EMPTY_FRAME, line);
      Feed(max, EMPTY_FRAME, line + rest) == Frame(x.lineBuf, mid.lines + x.lines, mid.tooLong + x.tooLong)
  {
    FeedConcat(max, EMPTY_FRAME, line, rest);
    FeedPrefix(max, Feed(max, EMPTY_FRAME, line), rest);
  }

  lemma LineEnds(max: nat, line: Str)
    requires NEWLINE !in line
    ensures Feed(max, EMPTY_FRAME, line + [NEWLINE]) == Frame([], Sent(Kept(max, line)), Quo(|line|, max))
  {
    FeedLine(max, EMPTY_FRAME, line);
    assert (line + [NEWLINE])[..|line|] == line;
  }

  // ---------------------------------------------------------------- resuming

  function Lines(max: nat, data: Str): seq<Str> {
    Feed(max, EMPTY_FRAME, data).lines
  }

  /** Starting over with an empty buffer, after `f`, sends the lines of `rest` as if nothing came before. */
  predicate CleanCut(max: nat, f: Frame, rest: Str) {
    Feed(max, f, rest).lines == f.lines + Lines(max, rest)
  }

  const PROBE: Str := [120, NEWLINE]

  lemma FeedProbe(max: nat, f: Frame)
    ensures Feed(max, f, PROBE) == TakeByte(max, TakeByte(max, f, 120), NEWLINE)
  {
    var x: Str := [120];
    assert PROBE[..1] == x && x[..0] == [];
    assert Feed(max, f, x) == TakeByte(max, Feed(max, f, []), 120);
  }

  lemma ProbeShows(max: nat, buf: Str)
    requires max > 0 && buf != []
    ensures Feed(max, Frame(buf, [], 0), PROBE).lines != [[120]]
  {
    FeedProbe(max, Frame(buf, [], 0));
    var line := buf + [120];
    assert line[|line| - 1] == 120;
    assert StripReturn(line) == line && |line| > 1;
    assert Sent(line) == [line];
    var lines := Feed(max, Frame(buf, [], 0), PROBE).lines;
    if |buf| < max {
      assert lines == [line];
      assert lines[0] == line;
    } else {
      assert lines == [];
    }
  }

  lemma ProbeAlone(max: nat)
    requires max > 0
    ensures Lines(max, PROBE) == [[120]]
  {
    FeedProbe(max, EMPTY_FRAME);
  }

  /** A fresh start after `f` agrees with carrying on, whatever comes next, exactly when the buffer is empty. */
  lemma CleanCutIff(max: nat, f: Frame)
    requires max > 0
    ensures (forall rest :: CleanCut(max, f, rest)) <==> f.lineBuf == []
  {
    if f.lineBuf == [] {
      forall rest ensures CleanCut(max, f, rest) { FeedPrefix(max, f, rest); }
    } else {
      FeedPrefix(max, f, PROBE);
      ProbeShows(max, f.lineBuf);
      ProbeAlone(max);
      var carried, restarted := Feed(max, Frame(f.lineBuf, [], 0), PROBE).lines, Lines(max, PROBE);
      assert (f.lines + carried)[|f.lines|..] == carried && (f.lines + restarted)[|f.lines|..] == restarted;
      assert !CleanCut(max, f, PROBE);
    }
  }

  /** Resuming from an offset: no line is lost, repeated or damaged, whatever follows, exactly when the part
      of a line before the offset is empty or has just overflowed. */
  lemma ResumeExactIff(max: nat, before: Str)
    requires max > 0
    ensures (forall rest :: Lines(max, before) + Lines(max, rest) == Lines(max, before + rest))
       <==> |Tail(before)| % (max + 1) == 0
  {
    var f := Feed(max, EMPTY_FRAME, before);
    FramingOfWhole(max, before);
    CountsUp(|Tail(before)|, max);
    CleanCutIff(max, f);
    forall rest ensures CleanCut(max, f, rest) <==> Lines(max, before) + Lines(max, rest) == Lines(max, before + rest) {
      FeedConcat(max, EMPTY_FRAME, before, rest);
    }
  }

  lemma {:induction false} TailAfterNewline(data: Str)
    requires data == [] || data[|data| - 1] == NEWLINE
    ensures Tail(data) == []
    decreases |data|
  {
    var i := NewlineAt(data);
    if data != [] {
      assert data == data[..|data| - 1] + [NEWLINE];
      assert i < |data|;
      TailAfterNewline(data[i + 1..]);
    }
  }

  /** Just after a newline, resuming is exact. */
  lemma ResumeAfterNewline(max: nat, before: Str, rest: Str)
    requires max > 0 && (before == [] || before[|before| - 1] == NEWLINE)
    ensures Lines(max, before) + Lines(max, rest) == Lines(max, before + rest)
  {
    TailAfterNewline(before);
    CountsUp(0, max);
    ResumeExactIff(max, before);
  }

  // ---------------------------------------------------------------- lines that fit

  lemma TailFits(max: nat, tail: Str)
    requires |tail| <= max
    ensures Kept(max, tail) == tail
  {
    CountsUp(|tail|, max);
  }

  lemma {:induction false} FeedPlain(max: nat, s: Str)
    requires NEWLINE !in s && |s| <= max
    ensures Feed(max, EMPTY_FRAME, s) == Frame(s, [], 0)
  {
    if s != [] {
      var n := |s| - 1;
      FeedPlain(max, s[..n]);
      assert s == s[..n] + [s[n]] && s[n] in s;
    }
  }

  /** A line ended by a carriage return and a newline is sent without either, if it fits with the return. */
  lemma WindowsLine(max: nat, s: Str)
    requires s != [] && |s| < max && NEWLINE !in s && s[|s| - 1] != 13
    ensures Feed(max, EMPTY_FRAME, s + [13, 10]) == Frame([], [s], 0)
  {
    var r: Str, nl: Str := s + [13], [10];
    FeedPlain(max, r);
    FeedConcat(max, EMPTY_FRAME, r, nl);
    FeedOne(max, Frame(r, [], 0), 10);
    assert r + nl == s + [13, 10];
    assert r[..|r| - 1] == s;
  }

  /** A line ended by a newline alone is sent as it is. */
  lemma PlainLine(max: nat, s: Str)
    requires s != [] && |s| <= max && NEWLINE !in s && s[|s| - 1] != 13
    ensures Feed(max, EMPTY_FRAME, s + [10]) == Frame([], [s], 0)
  {
    FeedPlain(max, s);
    FeedConcat(max, EMPTY_FRAME, s, [10]);
    FeedOne(max, Frame(s, [], 0), 10);
  }
}
