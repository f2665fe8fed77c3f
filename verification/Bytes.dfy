/** Byte strings: the order of Go's bytes.Compare and little-endian integers. */
module Bytes {
  type byte = x: int | 0 <= x < 256
  type bytes = seq<byte>

  datatype Option<+T> = None | Some(value: T)

  const TWO_16 := 0x1_0000
  const TWO_64 := 0x1_0000_0000_0000_0000

  /** bytes.Compare: negative, zero or positive. */
  function Compare(a: bytes, b: bytes): int {
    if a == [] && b == [] then 0
    else if a == [] then -1
    else if b == [] then 1
    else if a[0] < b[0] then -1
    else if a[0] > b[0] then 1
    else Compare(a[1..], b[1..])
  }

  predicate Less(a: bytes, b: bytes) { Compare(a, b) < 0 }

  predicate AtMost(a: bytes, b: bytes) { Compare(a, b) <= 0 }

  lemma {:induction false} CompareSame(a: bytes)
    ensures Compare(a, a) == 0
  {
    if a != [] { CompareSame(a[1..]); }
  }

  lemma {:induction false} CompareAntisym(a: bytes, b: bytes)
    ensures Compare(a, b) == -Compare(b, a)
  {
    if a != [] && b != [] && a[0] == b[0] { CompareAntisym(a[1..], b[1..]); }
  }

  lemma {:induction false} CompareZero(a: bytes, b: bytes)
    ensures Compare(a, b) == 0 <==> a == b
  {
    if a != [] && b != [] {
      CompareZero(a[1..], b[1..]);
      if a[0] == b[0] && a[1..] == b[1..] {
        assert a == [a[0]] + a[1..] == [b[0]] + b[1..] == b;
      }
    }
  }

  /** The order is total: this fact, the next one and CompareZero are all that sorting needs. */
  lemma LessTotal(a: bytes, b: bytes)
    ensures Less(a, b) || a == b || Less(b, a)
    ensures !(Less(a, b) && Less(b, a)) && !Less(a, a)
    ensures AtMost(a, b) <==> !Less(b, a)
    ensures AtMost(a, b) <==> Less(a, b) || a == b
  {
    CompareAntisym(a, b);
    CompareZero(a, b);
    CompareSame(a);
  }

  lemma {:induction false} LessTrans(a: bytes, b: bytes, c: bytes)
    ensures AtMost(a, b) && AtMost(b, c) ==> AtMost(a, c)
    ensures AtMost(a, b) && Less(b, c) ==> Less(a, c)
    ensures Less(a, b) && AtMost(b, c) ==> Less(a, c)
  {
    if a != [] && b != [] && c != [] && a[0] == b[0] == c[0] { LessTrans(a[1..], b[1..], c[1..]); }
  }

  lemma EmptyIsLeast(a: bytes)
    ensures AtMost([], a)
    ensures a != [] ==> Less([], a)
  {
  }

  /** A common prefix does not take part in a comparison. */
  lemma {:induction false} ComparePrefix(p: bytes, a: bytes, b: bytes)
    ensures Compare(p + a, p + b) == Compare(a, b)
  {
    if p == [] {
      assert p + a == a && p + b == b;
    } else {
      assert (p + a)[1..] == p[1..] + a && (p + b)[1..] == p[1..] + b;
      ComparePrefix(p[1..], a, b);
    }
  }

  // ------------------------------------------------------------ sequences in pieces

  lemma TwoPieces<T>(s: seq<T>, i: nat)
    requires i <= |s|
    ensures s == s[..i] + s[i..]
  {
  }

  lemma ThreePieces<T>(s: seq<T>, i: nat, j: nat)
    requires i <= j <= |s|
    ensures s == (s[..i] + s[i..j]) + s[j..]
    ensures s[..j] == s[..i] + s[i..j]
  {
  }

  lemma Associates<T>(a: seq<T>, b: seq<T>, c: seq<T>)
    ensures a + (b + c) == (a + b) + c
  {
  }

  lemma SliceGrows<T>(s: seq<T>, i: nat, j: nat)
    requires i <= j < |s|
    ensures s[i..j + 1] == s[i..j] + [s[j]]
  {
  }

  lemma AroundAt<T>(s: seq<T>, i: nat)
    requires i < |s|
    ensures s == (s[..i] + [s[i]]) + s[i + 1..]
  {
  }

  // ------------------------------------------------------------ little-endian integers

  function Pow256(n: nat): nat { if n == 0 then 1 else 256 * Pow256(n - 1) }

  function FromLE(s: bytes): (v: nat)
  {
    if s == [] then 0 else s[0] + 256 * FromLE(s[1..])
  }

  function ToLE(v: nat, n: nat): (s: bytes)
    ensures |s| == n
  {
    if n == 0 then [] else [v % 256] + ToLE(v / 256, n - 1)
  }

  lemma {:induction false} LERoundTrip(v: nat, n: nat)
    requires v < Pow256(n)
    ensures FromLE(ToLE(v, n)) == v
  {
    if n != 0 {
      LERoundTrip(v / 256, n - 1);
      assert ToLE(v, n)[1..] == ToLE(v / 256, n - 1);
    }
  }

  lemma {:induction false} LEBound(s: bytes)
    ensures FromLE(s) < Pow256(|s|)
  {
    if s != [] { LEBound(s[1..]); }
  }

  lemma Pow256Of8()
    ensures Pow256(8) == TWO_64
  {
    assert Pow256(4) == 0x1_0000_0000;
  }

  function U16(s: bytes, p: nat): (v: nat)
    requires p + 2 <= |s|
    ensures v < TWO_16
  {
    var lo: int, hi: int := s[p], s[p + 1];
    lo + 256 * hi
  }

  /** The bytes of uint16(v). */
  function U16Bytes(v: nat): (x: bytes)
    ensures |x| == 2
  {
    [v % 256, v / 256 % 256]
  }

  // ------------------------------------------------------------ bytes at a position

  /** s holds x at position p. */
  predicate At(s: bytes, p: nat, x: bytes) { p + |x| <= |s| && s[p..p + |x|] == x }

  lemma AtConcat(s: bytes, p: nat, x: bytes, y: bytes)
    ensures At(s, p, x + y) <==> At(s, p, x) && At(s, p + |x|, y)
  {
    if p + |x| + |y| <= |s| {
      assert s[p..p + |x| + |y|] == s[p..p + |x|] + s[p + |x|..p + |x| + |y|];
      if At(s, p, x + y) {
        assert x == (x + y)[..|x|] == s[p..p + |x|];
        assert y == (x + y)[|x|..] == s[p + |x|..p + |x| + |y|];
      }
    }
  }

  lemma AtJoin(s: bytes, p: nat, x: bytes, q: nat, y: bytes)
    requires q == p + |x| && At(s, p, x) && At(s, q, y)
    ensures At(s, p, x + y)
  {
    AtConcat(s, p, x, y);
  }

  lemma AtU16(s: bytes, p: nat, v: nat)
    requires v < TWO_16 && At(s, p, U16Bytes(v))
    ensures U16(s, p) == v
  {
    assert s[p] == s[p..p + 2][0] && s[p + 1] == s[p..p + 2][1];
  }

  lemma AtPrefix(s: bytes, m: nat, p: nat, x: bytes)
    requires m <= |s| && p + |x| <= m && At(s, p, x)
    ensures At(s[..m], p, x)
  {
    assert s[..m][p..p + |x|] == s[p..p + |x|];
  }

  // ------------------------------------------------------------ writing into a buffer

  /** s with the bytes of x written at position p. */
  function Splice(s: bytes, p: nat, x: bytes): (r: bytes)
    requires p + |x| <= |s|
    ensures |r| == |s|
  {
    s[..p] + x + s[p + |x|..]
  }

  lemma AtSpliced(s: bytes, p: nat, x: bytes)
    requires p + |x| <= |s|
    ensures At(Splice(s, p, x), p, x)
  {
  }

  lemma AtBefore(s: bytes, p: nat, x: bytes, q: nat, y: bytes)
    requires q + |y| <= p && p + |x| <= |s| && At(s, q, y)
    ensures At(Splice(s, p, x), q, y)
  {
    assert Splice(s, p, x)[q..q + |y|] == s[q..q + |y|];
  }

  lemma AtAfter(s: bytes, p: nat, x: bytes, q: nat, y: bytes)
    requires p + |x| <= q && At(s, q, y)
    ensures At(Splice(s, p, x), q, y)
  {
    assert Splice(s, p, x)[q..q + |y|] == s[q..q + |y|];
  }

  lemma SpliceTwice(s: bytes, p: nat, x: bytes, y: bytes)
    requires p + |x| + |y| <= |s|
    ensures Splice(Splice(s, p, x), p + |x|, y) == Splice(s, p, x + y)
  {
    var r := Splice(s, p, x);
    assert r[..p + |x|] == s[..p] + x;
    assert r[p + |x| + |y|..] == s[p + |x| + |y|..];
  }

  /** Go's copy(b[p:], x): it stops at the end of the buffer. */
  method Copy(b: array<byte>, p: nat, x: bytes)
    requires p <= b.Length
    modifies b
    ensures p + |x| <= b.Length ==> b[..] == Splice(old(b[..]), p, x)
    ensures p + |x| > b.Length ==> b[..] == Splice(old(b[..]), p, x[..b.Length - p])
  {
    var n := if p + |x| <= b.Length then |x| else b.Length - p;
    forall i | 0 <= i < n { b[p + i] := x[i]; }
    assert b[..] == Splice(old(b[..]), p, x[..n]);
    assert n == |x| ==> x[..n] == x;
  }

  /** binary.LittleEndian.PutUint16(b[p:], uint16(v)) */
  method PutU16(b: array<byte>, p: nat, v: nat)
    requires p + 2 <= b.Length
    modifies b
    ensures b[..] == Splice(old(b[..]), p, U16Bytes(v))
  {
    b[p] := v % 256;
    b[p + 1] := v / 256 % 256;
    assert b[..] == Splice(old(b[..]), p, U16Bytes(v));
  }

  /** binary.LittleEndian.PutUint64(b[p:], v) */
  method PutU64(b: array<byte>, p: nat, v: nat)
    requires p + 8 <= b.Length
    modifies b
    ensures b[..] == Splice(old(b[..]), p, ToLE(v, 8))
  {
    var x := ToLE(v, 8);
    forall i | 0 <= i < 8 { b[p + i] := x[i]; }
    assert b[..] == Splice(old(b[..]), p, x);
  }
}
