/** Go strings and byte slices, and the few text operations that Barnacles decides with.
    Letter case and white space are the ASCII ones. */
module GoText {
  type byte = x: int | 0 <= x < 256

  /** A Go string or byte slice. */
  type Str = seq<byte>

  datatype Option<+T> = None | Some(value: T)

  datatype Result<+T> = Ok(value: T) | Err

  const TWO_64: nat := 0x1_0000_0000_0000_0000

  function Min(a: int, b: int): int {
    if a <= b then a else b
  }

  /** The bytes of an ASCII literal. */
  function Ascii(s: string): (r: Str)
    requires forall i :: 0 <= i < |s| ==> s[i] as int < 128
    ensures |r| == |s|
  {
    seq(|s|, i requires 0 <= i < |s| => s[i] as int)
  }

  predicate IsSpace(b: byte) {
    b == 32 || 9 <= b <= 13
  }

  function UpperByte(b: byte): byte {
    if 97 <= b <= 122 then b - 32 else b
  }

  function ToUpper(s: Str): (r: Str)
    ensures |r| == |s|
  {
    seq(|s|, i requires 0 <= i < |s| => UpperByte(s[i]))
  }

  /** Equality that ignores letter case. */
  predicate EqualFold(a: Str, b: Str) {
    ToUpper(a) == ToUpper(b)
  }

  function TrimLeft(s: Str): Str {
    if s != [] && IsSpace(s[0]) then TrimLeft(s[1..]) else s
  }

  function TrimRight(s: Str): Str {
    if s != [] && IsSpace(s[|s| - 1]) then TrimRight(s[..|s| - 1]) else s
  }

  function TrimSpace(s: Str): Str {
    TrimRight(TrimLeft(s))
  }

  lemma {:induction false} TrimLeftUpper(s: Str)
    ensures TrimLeft(ToUpper(s)) == ToUpper(TrimLeft(s))
  {
    if s != [] && IsSpace(s[0]) {
      assert ToUpper(s)[1..] == ToUpper(s[1..]);
      TrimLeftUpper(s[1..]);
    }
  }

  lemma {:induction false} TrimRightUpper(s: Str)
    ensures TrimRight(ToUpper(s)) == ToUpper(TrimRight(s))
  {
    if s != [] && IsSpace(s[|s| - 1]) {
      assert ToUpper(s)[..|s| - 1] == ToUpper(s[..|s| - 1]);
      TrimRightUpper(s[..|s| - 1]);
    }
  }

  /** Trimming and upper-casing commute, so strings equal up to case stay so when both are normalised. */
  lemma TrimUpperOfFold(a: Str, b: Str)
    requires EqualFold(a, b)
    ensures ToUpper(TrimSpace(a)) == ToUpper(TrimSpace(b))
  {
    TrimLeftUpper(a);
    TrimRightUpper(TrimLeft(a));
    TrimLeftUpper(b);
    TrimRightUpper(TrimLeft(b));
  }

  lemma TrimOfUpper(s: Str)
    ensures TrimSpace(ToUpper(s)) == ToUpper(TrimSpace(s))
  {
    TrimLeftUpper(s);
    TrimRightUpper(TrimLeft(s));
  }

  lemma UpperTwice(s: Str)
    ensures ToUpper(ToUpper(s)) == ToUpper(s)
  {
  }

  lemma {:induction false} TrimLeftEnds(s: Str)
    ensures TrimLeft(s) == [] || !IsSpace(TrimLeft(s)[0])
  {
    if s != [] && IsSpace(s[0]) { TrimLeftEnds(s[1..]); }
  }

  lemma {:induction false} TrimRightEnds(s: Str)
    ensures TrimRight(s) == [] || !IsSpace(TrimRight(s)[|TrimRight(s)| - 1])
    ensures TrimRight(s) <= s
  {
    if s != [] && IsSpace(s[|s| - 1]) { TrimRightEnds(s[..|s| - 1]); }
  }

  /** Trimmed text has no white space at its ends, so trimming it again changes nothing. */
  lemma TrimTwice(s: Str)
    ensures TrimSpace(TrimSpace(s)) == TrimSpace(s)
  {
    var left := TrimLeft(s);
    var t := TrimRight(left);
    TrimLeftEnds(s);
    TrimRightEnds(left);
    assert t != [] ==> t[0] == left[0];
    assert TrimLeft(t) == t;
  }

  /** Byte-wise lexicographic order, as Go compares strings. */
  predicate LexLess(a: Str, b: Str) {
    b != [] && (a == [] || a[0] < b[0] || (a[0] == b[0] && LexLess(a[1..], b[1..])))
  }

  predicate AllSpaces(s: Str) {
    forall i :: 0 <= i < |s| ==> s[i] in {9, 10, 11, 12, 13, 32}
  }

  lemma {:induction false} TrimLeftExact(s: Str) returns (a: Str)
    ensures s == a + TrimLeft(s) && AllSpaces(a)
  {
    if s != [] && IsSpace(s[0]) {
      a := TrimLeftExact(s[1..]);
      a := [s[0]] + a;
      assert s == [s[0]] + s[1..];
    } else {
      a := [];
    }
  }

  lemma {:induction false} TrimRightExact(s: Str) returns (b: Str)
    ensures s == TrimRight(s) + b && AllSpaces(b)
    ensures TrimRight(s) != [] ==> TrimRight(s)[|TrimRight(s)| - 1] !in {9, 10, 11, 12, 13, 32}
  {
    if s != [] && IsSpace(s[|s| - 1]) {
      b := TrimRightExact(s[..|s| - 1]);
      b := b + [s[|s| - 1]];
      assert s == s[..|s| - 1] + [s[|s| - 1]];
    } else {
      b := [];
    }
  }

  lemma {:induction false} TrimLeftStarts(s: Str)
    ensures TrimLeft(s) != [] ==> TrimLeft(s)[0] !in {9, 10, 11, 12, 13, 32}
  {
    if s != [] && IsSpace(s[0]) { TrimLeftStarts(s[1..]); }
  }

  /** Trimming takes exactly the white space at both ends. */
  lemma TrimExact(s: Str) returns (a: Str, b: Str)
    ensures s == a + TrimSpace(s) + b && AllSpaces(a) && AllSpaces(b)
    ensures TrimSpace(s) != [] ==>
      TrimSpace(s)[0] !in {9, 10, 11, 12, 13, 32} && TrimSpace(s)[|TrimSpace(s)| - 1] !in {9, 10, 11, 12, 13, 32}
  {
    a := TrimLeftExact(s);
    TrimLeftStarts(s);
    b := TrimRightExact(TrimLeft(s));
    TrimRightStart(TrimLeft(s));
  }

  lemma {:induction false} TrimRightStart(s: Str)
    ensures TrimRight(s) != [] ==> s != [] && TrimRight(s)[0] == s[0]
  {
    if s != [] && IsSpace(s[|s| - 1]) { TrimRightStart(s[..|s| - 1]); }
  }
}
