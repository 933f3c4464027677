/** Segment file names of the disk spool: `spool_%020d_<uuid>` followed by `.json` or `.inflight`. */
module SpoolNames {
  import opened GoText

  /** What identifies a segment: the clock reading and the batch id put into its name. */
  datatype Stem = Stem(nano: nat, id: nat)

  /** The name's ending. A segment recovered with a failed rename can end up with several. */
  datatype Ext = Json | Inflight

  datatype Path = Path(stem: Stem, ext: seq<Ext>)

  /** Clock readings are int64 nanoseconds. */
  const MAX_NANO: nat := 0x7fff_ffff_ffff_ffff

  function Pow10(n: nat): (p: nat)
    ensures p > 0
  {
    if n == 0 then 1 else 10 * Pow10(n - 1)
  }

  /** `n` in decimal on exactly `width` digits, zero padded. */
  function Pad(n: nat, width: nat): (r: Str)
    ensures |r| == width
  {
    if width == 0 then [] else Pad(n / 10, width - 1) + [48 + n % 10]
  }

  function ExtName(ext: seq<Ext>): Str {
    if ext == [] then []
    else (if ext[0] == Json then Ascii(".json") else Ascii(".inflight")) + ExtName(ext[1..])
  }

  function NameTail(p: Path, uuid: nat -> Str): Str {
    Ascii("_") + uuid(p.stem.id) + ExtName(p.ext)
  }

  /** The base name of a segment file; `uuid` renders batch ids. */
  function BaseName(p: Path, uuid: nat -> Str): Str {
    Ascii("spool_") + (Pad(p.stem.nano, 20) + NameTail(p, uuid))
  }

  /** The name under which `Push` writes a segment before renaming it. */
  function TempName(p: Path, uuid: nat -> Str): Str {
    Ascii(".") + BaseName(p, uuid) + Ascii(".tmp")
  }

  /** The scan at start-up looks at segments and passes over what `Push` left half written. */
  lemma TempIsPassedOver(p: Path, uuid: nat -> Str)
    ensures Ascii("spool_") <= BaseName(p, uuid) && !(Ascii("spool_") <= TempName(p, uuid))
  {
    assert TempName(p, uuid)[0] == Ascii(".")[0] && Ascii(".")[0] != Ascii("spool_")[0];
  }

  /** Marking a segment in flight: `.json` is cut off and `.inflight` put on. */
  function MarkInflight(p: Path): Path {
    Path(p.stem, (if p.ext != [] && p.ext[|p.ext| - 1] == Json then p.ext[..|p.ext| - 1] else p.ext) + [Inflight])
  }

  /** Returning a segment to pending: `.inflight` is cut off and `.json` put on. */
  function MarkPending(p: Path): Path {
    Path(p.stem, (if p.ext != [] && p.ext[|p.ext| - 1] == Inflight then p.ext[..|p.ext| - 1] else p.ext) + [Json])
  }

  /** Reverting a lease undoes exactly what leasing did to the name. */
  lemma MarkRoundTrip(p: Path)
    requires p.ext != [] && p.ext[|p.ext| - 1] == Json
    ensures MarkPending(MarkInflight(p)) == p
  {
    var q := MarkInflight(p);
    assert q.ext[..|q.ext| - 1] == p.ext[..|p.ext| - 1];
  }

  lemma {:induction false} LexLessCommonPrefix(c: Str, a: Str, b: Str)
    ensures LexLess(c + a, c + b) == LexLess(a, b)
  {
    if c == [] {
      assert c + a == a && c + b == b;
    } else {
      assert (c + a)[1..] == c[1..] + a && (c + b)[1..] == c[1..] + b;
      LexLessCommonPrefix(c[1..], a, b);
    }
  }

  /** A strict difference inside equally long heads decides the comparison whatever follows. */
  lemma {:induction false} LexLessDecided(a: Str, b: Str, x: Str, y: Str)
    requires |a| == |b| && LexLess(a, b)
    ensures LexLess(a + x, b + y)
  {
    if a[0] == b[0] {
      assert (a + x)[1..] == a[1..] + x && (b + y)[1..] == b[1..] + y;
      LexLessDecided(a[1..], b[1..], x, y);
    }
  }

  lemma {:induction false} PadOrder(m: nat, n: nat, width: nat)
    requires m < n < Pow10(width)
    ensures LexLess(Pad(m, width), Pad(n, width))
  {
    if m / 10 == n / 10 {
      LexLessCommonPrefix(Pad(m / 10, width - 1), [48 + m % 10], [48 + n % 10]);
    } else {
      PadOrder(m / 10, n / 10, width - 1);
      LexLessDecided(Pad(m / 10, width - 1), Pad(n / 10, width - 1), [48 + m % 10], [48 + n % 10]);
    }
  }

  lemma Pow10Of20()
    ensures Pow10(20) == 100_000_000_000_000_000_000
  {
    assert Pow10(5) == 100_000;
    assert Pow10(10) == 10_000_000_000;
    assert Pow10(15) == 1_000_000_000_000_000;
  }

  /** The order of two names that start alike and then carry padded numbers. */
  lemma PaddedNamesOrder(head: Str, m: nat, n: nat, width: nat, x: Str, y: Str)
    requires m < n < Pow10(width)
    ensures LexLess(head + (Pad(m, width) + x), head + (Pad(n, width) + y))
  {
    PadOrder(m, n, width);
    LexLessDecided(Pad(m, width), Pad(n, width), x, y);
    LexLessCommonPrefix(head, Pad(m, width) + x, Pad(n, width) + y);
  }

  /** Sorting names as strings sorts segments by clock reading, whatever their ids and endings are. */
  lemma NameOrderIsStampOrder(p: Path, q: Path, uuid: nat -> Str)
    requires p.stem.nano < q.stem.nano <= MAX_NANO
    ensures LexLess(BaseName(p, uuid), BaseName(q, uuid))
  {
    Pow10Of20();
    PaddedNamesOrder(Ascii("spool_"), p.stem.nano, q.stem.nano, 20, NameTail(p, uuid), NameTail(q, uuid));
  }

  lemma {:induction false} LexLessAsymmetric(a: Str, b: Str)
    requires LexLess(a, b)
    ensures !LexLess(b, a)
  {
    if a != [] && a[0] == b[0] {
      LexLessAsymmetric(a[1..], b[1..]);
    }
  }

  /** The converse: with different readings, name order reveals stamp order. */
  lemma StampOrderFromNames(p: Path, q: Path, uuid: nat -> Str)
    requires p.stem.nano <= MAX_NANO && q.stem.nano <= MAX_NANO && p.stem.nano != q.stem.nano
    ensures LexLess(BaseName(p, uuid), BaseName(q, uuid)) <==> p.stem.nano < q.stem.nano
  {
    if p.stem.nano < q.stem.nano {
      NameOrderIsStampOrder(p, q, uuid);
    } else {
      NameOrderIsStampOrder(q, p, uuid);
      LexLessAsymmetric(BaseName(q, uuid), BaseName(p, uuid));
    }
  }

  /** The names on disk: pending and in flight. */
  lemma NamesSpelled(st: Stem, uuid: nat -> Str)
    ensures var front := Ascii("spool_") + (Pad(st.nano, 20) + (Ascii("_") + uuid(st.id)));
      && BaseName(Path(st, [Json]), uuid) == front + Ascii(".json")
      && BaseName(MarkInflight(Path(st, [Json])), uuid) == front + Ascii(".inflight")
      && MarkPending(MarkInflight(Path(st, [Json]))) == Path(st, [Json])
  {
    assert [Json][1..] == [] && [Inflight][1..] == [] && [Json][..0] == [] && [Inflight][..0] == [];
    assert ExtName([Json]) == Ascii(".json") + [] && ExtName([Inflight]) == Ascii(".inflight") + [];
    assert MarkInflight(Path(st, [Json])) == Path(st, [Inflight]);
  }
}
