/** Tailing one path: offsets, reads, rotation, truncation and checkpoints around the line buffer. */
module FileTailer {
  import opened GoText
  import opened Framing

  const READ_SIZE: nat := 32 * 1024

  /** Where a first open starts: a checkpoint inside the file, else its start or end. `known` says that the
      file system gives file identities; a checkpoint past the end then means a file that shrank. */
  function StartOffset(checkpoint: Option<nat>, known: bool, size: nat, atEnd: bool): (offset: nat)
    ensures offset <= size
    ensures checkpoint.Some? && checkpoint.value <= size ==> offset == checkpoint.value
    ensures checkpoint.Some? && checkpoint.value > size && (known || !atEnd) ==> offset == 0
    ensures checkpoint.None? || (checkpoint.value > size && !known) ==> offset == if atEnd then size else 0
  {
    match checkpoint
    case Some(cp) => if cp <= size then cp else if !known && atEnd then size else 0
    case None => if atEnd then size else 0
  }

  /** The bytes from `a` to `b`: none when the file no longer reaches that far. */
  function Slice(file: Str, a: nat, b: nat): Str {
    if a <= b <= |file| then file[a..b] else []
  }

  /** Reading moves the offset forward within the file, to its end when no read fails. */
  predicate Reached(before: nat, after: nat, size: nat, healthy: bool) {
    if before > size then after == before else before <= after <= size && (healthy ==> after == size)
  }

  /** Where a round starts reading: a file shorter than the offset is read from its start. */
  function Start(offset: nat, size: nat): nat {
    if size < offset then 0 else offset
  }

  lemma ReadOn(max: nat, f: Frame, was: Str, file: Str, end: nat)
    requires was <= file && |was| <= end <= |file|
    ensures Feed(max, Feed(max, f, was), Slice(file, |was|, end)) == Feed(max, f, file[..end])
  {
    assert file[..end] == was + file[|was|..end];
    FeedConcat(max, f, was, file[|was|..end]);
  }

  lemma ReadMore(max: nat, f: Frame, file: Str, from: nat, at: nat, to: nat)
    requires from <= at <= to <= |file|
    ensures Feed(max, Feed(max, f, Slice(file, from, at)), file[at..to]) == Feed(max, f, Slice(file, from, to))
  {
    assert file[from..to] == file[from..at] + file[at..to];
    FeedConcat(max, f, file[from..at], file[at..to]);
  }

  /** What is left in the buffer is sent as it is. */
  function Flushed(f: Frame): Frame {
    Framing.Frame([], f.lines + (if f.lineBuf == [] then [] else [f.lineBuf]), f.tooLong)
  }

  class Tailer {
    const maxLineBytes: nat
    var offset: nat
    var checkpoint: nat
    var lineBuf: Str
    var lines: seq<Str>
    var tooLong: nat

    ghost function Frame(): (f: Frame)
      reads this
    {
      Framing.Frame(lineBuf, lines, tooLong)
    }

    constructor (maxLineBytes: int, saved: Option<nat>, known: bool, size: nat, atEnd: bool)
      ensures this.maxLineBytes == (if maxLineBytes <= 0 then 1024 * 1024 else maxLineBytes) > 0
      ensures Frame() == EMPTY_FRAME && checkpoint == offset == StartOffset(saved, known, size, atEnd)
    {
      this.maxLineBytes := if maxLineBytes <= 0 then DEFAULT_MAX_LINE_BYTES else maxLineBytes;
      offset := StartOffset(saved, known, size, atEnd);
      checkpoint := StartOffset(saved, known, size, atEnd);
      lineBuf, lines, tooLong := [], [], 0;
    }

    method ProcessBytes(data: Str)
      modifies this`lineBuf, this`lines, this`tooLong
      ensures Frame() == Feed(maxLineBytes, old(Frame()), data)
    {
      for n := 0 to |data|
        invariant Frame() == Feed(maxLineBytes, old(Frame()), data[..n])
      {
        assert data[..n + 1][..n] == data[..n];
        var b := data[n];
        if b == NEWLINE {
          var line := lineBuf;
          lineBuf := [];
          if |line| > 0 && line[|line| - 1] == RETURN { line := line[..|line| - 1]; }
          if |line| > 0 { lines := lines + [line]; }
        } else if |lineBuf| >= maxLineBytes {
          tooLong := tooLong + 1;
          lineBuf := [];
        } else {
          lineBuf := lineBuf + [b];
        }
      }
      assert data[..|data|] == data;
    }

    /** One read at the offset; `yielded` is what the file system gives before an error, if less. */
    method ReadChunk(file: Str, yielded: nat) returns (n: nat)
      modifies this`offset, this`lineBuf, this`lines, this`tooLong
      ensures n > 0 <==> old(offset) < |file| && yielded > 0
      ensures offset == old(offset) + n
      ensures n > 0 ==> offset <= |file| && Frame() == Feed(maxLineBytes, old(Frame()), file[old(offset)..offset])
      ensures n == 0 ==> Frame() == old(Frame())
    {
      n := if offset >= |file| then 0 else |file| - offset;
      if n > READ_SIZE { n := READ_SIZE; }
      if n > yielded { n := yielded; }
      if n > 0 {
        var data := file[offset..offset + n];
        offset := offset + n;
        ProcessBytes(data);
      }
    }

    /** Reads until a read returns nothing: to the end of the file unless a read fails. */
    method ReadAvailable(file: Str, healthy: bool)
      modifies this`offset, this`lineBuf, this`lines, this`tooLong
      ensures Reached(old(offset), offset, |file|, healthy)
      ensures Frame() == Feed(maxLineBytes, old(Frame()), Slice(file, old(offset), offset))
    {
      while true
        invariant Reached(old(offset), offset, |file|, false)
        invariant Frame() == Feed(maxLineBytes, old(Frame()), Slice(file, old(offset), offset))
        decreases |file| - offset
      {
        ghost var before, at := Frame(), offset;
        var yielded: nat := *;
        if healthy { yielded := READ_SIZE; }
        var n := ReadChunk(file, yielded);
        if n == 0 { break; }
        ReadMore(maxLineBytes, old(Frame()), file, old(offset), at, offset);
      }
    }

    /** A rotated file is read to its end and what is left in the buffer is sent as it is. */
    method DrainFile(file: Str, healthy: bool)
      modifies this`offset, this`lineBuf, this`lines, this`tooLong
      ensures Reached(old(offset), offset, |file|, healthy)
      ensures var f := Feed(maxLineBytes, old(Frame()), Slice(file, old(offset), offset));
        Frame() == Flushed(f)
    {
      ReadAvailable(file, healthy);
      if |lineBuf| > 0 {
        lines := lines + [lineBuf];
        lineBuf := [];
      }
    }

    /** Everything of `content` has been read, and nothing else, since the buffer was last empty with
        `sent` lines out. */
    ghost predicate HasRead(content: Str, sent: seq<Str>, errors: nat)
      reads this
    {
      offset == |content| && Frame() == Feed(maxLineBytes, Framing.Frame([], sent, errors), content)
    }

    /** One round of the loop while the path names the open file. A file that only grows has been read up
        to its end, each line once, however many rounds that took; a file found shorter than the offset is
        read again from its start, with the buffer as it was. */
    method Poll(file: Str, healthy: bool)
      modifies this
      ensures offset <= |file| && (healthy ==> offset == |file|)
      ensures checkpoint == if offset == old(offset) then old(checkpoint) else offset
      ensures Frame() == Feed(maxLineBytes, old(Frame()), Slice(file, Start(old(offset), |file|), offset))
      ensures forall was, sent, errors :: old(HasRead(was, sent, errors)) && was <= file ==> HasRead(file[..offset], sent, errors)
    {
      if |file| < offset {
        offset := 0;
        checkpoint := 0;
      }
      var prev := offset;
      ReadAvailable(file, healthy);
      if offset != prev { checkpoint := offset; }
      forall was, sent, errors | old(HasRead(was, sent, errors)) && was <= file ensures HasRead(file[..offset], sent, errors) {
        ReadOn(maxLineBytes, Framing.Frame([], sent, errors), was, file, offset);
      }
    }

    /** One round that finds another file under the path: the old one is drained, to its end unless a read
        fails, and the next round opens the new one at its start with an empty buffer. `read` is how far the
        old file was read. */
    method Rotate(previous: Str, healthy: bool) returns (read: nat)
      modifies this
      ensures checkpoint == offset == 0 && lineBuf == [] && Reached(old(offset), read, |previous|, healthy)
      ensures Frame() == Flushed(Feed(maxLineBytes, old(Frame()), Slice(previous, old(offset), read)))
      ensures forall was, sent, errors :: old(HasRead(was, sent, errors)) && was <= previous ==>
        read <= |previous| && Frame() == Flushed(Feed(maxLineBytes, Framing.Frame([], sent, errors), previous[..read]))
    {
      DrainFile(previous, healthy);
      read := offset;
      forall was, sent, errors | old(HasRead(was, sent, errors)) && was <= previous
        ensures Feed(maxLineBytes, Framing.Frame([], sent, errors), previous[..read])
             == Feed(maxLineBytes, old(Frame()), Slice(previous, old(offset), read))
      {
        ReadOn(maxLineBytes, Framing.Frame([], sent, errors), was, previous, read);
      }
      offset := 0;
      checkpoint := 0;
    }
  }

  // ---------------------------------------------------------------- restart and truncation

  /** A start at a checkpoint inside the file, and one round to its end. */
  method ReadFrom(max: nat, saved: nat, file: Str, known: bool, atEnd: bool) returns (t: Tailer)
    requires max > 0 && saved <= |file|
    ensures fresh(t) && t.maxLineBytes == max && t.checkpoint == t.offset == |file|
    ensures t.Frame() == Feed(max, EMPTY_FRAME, file[saved..])
  {
    t := new Tailer(max, Some(saved), known, |file|, atEnd);
    t.Poll(file, true);
    assert Slice(file, saved, |file|) == file[saved..];
  }

  /** A file is read to its end, the agent restarts at the checkpoint, and the file has grown meanwhile: the lines
      sent before and after are those of the whole if the part of a line before the checkpoint is empty or has
      just overflowed. */
  method RestartAtCheckpoint(max: nat, file: Str, grown: Str, known: bool, atEnd: bool) returns (first: Tailer, second: Tailer)
    requires max > 0 && file <= grown
    ensures first.lines == Lines(max, file) && second.lines == Lines(max, grown[|file|..])
    ensures |Tail(file)| % (max + 1) == 0 ==> first.lines + second.lines == Lines(max, grown)
  {
    first := ReadFrom(max, 0, file, known, atEnd);
    second := ReadFrom(max, first.checkpoint, grown, known, atEnd);
    assert file[0..] == file;
    ResumeGrown(max, file, grown);
  }

  lemma ResumeGrown(max: nat, file: Str, grown: Str)
    requires max > 0 && file <= grown
    ensures |Tail(file)| % (max + 1) == 0 ==> Lines(max, file) + Lines(max, grown[|file|..]) == Lines(max, grown)
  {
    ResumeExactIff(max, file);
    assert grown == file + grown[|file|..];
  }

  /** A file read whole and rotated away: its complete lines, and then what follows its last newline as a line of its
      own, if that fits the buffer. */
  method ReadThenRotate(max: nat, file: Str) returns (t: Tailer)
    requires max > 0 && |Tail(file)| <= max
    ensures t.lines == Lines(max, file) + (if Tail(file) == [] then [] else [Tail(file)])
    ensures t.offset == t.checkpoint == 0 && t.lineBuf == []
  {
    t := ReadFrom(max, 0, file, true, false);
    assert file[0..] == file;
    FramingOfWhole(max, file);
    TailFits(max, Tail(file));
    assert Slice(file, |file|, |file|) == [];
    var read := t.Rotate(file, true);
  }

  /** Half a line is read, the agent restarts, and the line is completed: it is never sent. */
  method RestartLosesLine(max: nat) returns (first: Tailer, second: Tailer)
    requires max > 0
    ensures first.lines + second.lines == [] && Lines(max, PROBE) == [[120]]
  {
    first, second := RestartAtCheckpoint(max, [120], PROBE, true, false);
    ProbeAlone(max);
    FeedOne(max, EMPTY_FRAME, 120);
    FeedOne(max, EMPTY_FRAME, NEWLINE);
    assert PROBE[1..] == [NEWLINE];
  }

  /** Half a line is read, the file is cut and starts with a newline: the half is sent as a line of the new file. */
  method TruncationSplicesLine(max: nat) returns (t: Tailer)
    requires max > 1
    ensures t.lines == [[120, 120]] && Lines(max, [120, 120]) + Lines(max, [NEWLINE]) == []
  {
    var half: Str, cut: Str := [120, 120], [NEWLINE];
    t := ReadFrom(max, 0, half, true, false);
    t.Poll(cut, true);
    HalfThenCut(max, half, cut);
    assert half[0..] == half && Slice(cut, 0, 1) == cut;
  }

  lemma HalfThenCut(max: nat, half: Str, cut: Str)
    requires max > 1 && half == [120, 120] && cut == [NEWLINE]
    ensures Feed(max, EMPTY_FRAME, half).lines == Lines(max, cut) == []
    ensures Feed(max, Feed(max, EMPTY_FRAME, half), cut).lines == [[120, 120]]
  {
    var x: Str := [120];
    FeedConcat(max, EMPTY_FRAME, x, x);
    FeedOne(max, EMPTY_FRAME, 120);
    FeedOne(max, Framing.Frame(x, [], 0), 120);
    assert x + x == half;
    var f := Framing.Frame(half, [], 0);
    assert Feed(max, EMPTY_FRAME, half) == f;
    FeedOne(max, f, NEWLINE);
    assert half[1] == 120 && StripReturn(half) == half && Sent(half) == [half];
    FeedOne(max, EMPTY_FRAME, NEWLINE);
  }
}
