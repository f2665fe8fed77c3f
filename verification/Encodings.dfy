/**
 * What keys are, byte by byte (types/schema.go, index/secondary.go), and what their order and the
 * bounds of a range mean, in numbers and literal bytes.
 */
module Encodings {
  import opened Bytes
  import opened Codecs
  import opened Indexes
  import opened Ranges

  /** bytes.Compare: the first byte in which two strings differ decides, and a string is above its beginnings. */
  lemma ByteOrder(a: bytes, x: byte, y: byte, b: bytes, c: bytes)
    ensures Compare(a, a) == 0 && Compare(a, a + [x] + b) < 0 && Compare(a + [x] + b, a) > 0
    ensures x < y ==> Compare(a + [x] + b, a + [y] + c) < 0
    ensures x > y ==> Compare(a + [x] + b, a + [y] + c) > 0
  {
    CompareSame(a);
    assert a + [] == a && a + [x] + b == a + ([x] + b) && a + [y] + c == a + ([y] + c);
    ComparePrefix(a, [], [x] + b);
    ComparePrefix(a, [x] + b, []);
    ComparePrefix(a, [x] + b, [y] + c);
  }

  /** The four bytes of a prefix, the highest first. */
  lemma PrefixBytes(p: nat)
    requires p < 0x1_0000_0000
    ensures |Key(p, [])| == 4
    ensures var b0: int, b1: int, b2: int, b3: int := Key(p, [])[0], Key(p, [])[1], Key(p, [])[2], Key(p, [])[3];
      p == 0x100_0000 * b0 + 0x1_0000 * b1 + 0x100 * b2 + b3
  {
    KeyOfNone(p);
    var s := ToBE(p, 4);
    Pow256Of4();
    BERoundTrip(p, 4);
    assert s[..3][..2][..1][..0] == [];
    assert FromBE(s) == 256 * FromBE(s[..3]) + s[3];
    assert FromBE(s[..3]) == 256 * FromBE(s[..3][..2]) + s[2];
    assert FromBE(s[..3][..2]) == 256 * FromBE(s[..3][..2][..1]) + s[1];
    assert FromBE(s[..3][..2][..1]) == 256 * FromBE([]) + s[0];
  }

  /** A tuple's key: one column behind the other. */
  lemma TupleBytes(p: nat, vs: seq<Value>, v: Value)
    requires p < 0x1_0000_0000
    ensures Key(p, vs + [v]) == Key(p, vs) + Enc(v)
  {
    KeySnoc(p, vs, v);
  }

  /** A string: 0 is written as 1, 1, and 1 as 1, 2; a 0 ends it. */
  lemma StringBytes(s: bytes, b: byte)
    ensures Enc(Str([])) == [0]
    ensures Escaped(s + [b]) == Escaped(s) + (if b == 0 then [1, 1] else if b == 1 then [1, 2] else [b])
    ensures Enc(Str(s)) == Escaped(s) + [0]
  {
    EscapedSnoc(s, b);
  }

  /** Reading it back: 1 and what follows it stand for one byte, and are an error if that is not 1 or 2. */
  lemma StringReading(b: byte, e: bytes)
    ensures b != 1 ==> Unescaped([b] + e, false) == Onto(b, Unescaped(e, false))
    ensures Unescaped([1, 1] + e, false) == Onto(0, Unescaped(e, false))
    ensures Unescaped([1, 2] + e, false) == Onto(1, Unescaped(e, false))
    ensures b != 1 && b != 2 ==> Unescaped([1, b] + e, false) == None
    ensures Unescaped([1], false) == Unescaped([], false) == Some([])
  {
    hide Unescaped, Onto;
    Plain(b, e);
    Escape(1, e);
    Escape(2, e);
    Escape(b, e);
    Open();
  }

  function Onto(b: byte, r: Option<bytes>): Option<bytes> { match r case None => None case Some(x) => Some([b] + x) }

  lemma Plain(b: byte, e: bytes)
    ensures b != 1 ==> Unescaped([b] + e, false) == Onto(b, Unescaped(e, false))
  {
    assert ([b] + e)[1..] == e;
  }

  lemma Escape(b: byte, e: bytes)
    ensures b == 1 ==> Unescaped([1, b] + e, false) == Onto(0, Unescaped(e, false))
    ensures b == 2 ==> Unescaped([1, b] + e, false) == Onto(1, Unescaped(e, false))
    ensures b != 1 && b != 2 ==> Unescaped([1, b] + e, false) == None
  {
    var s := [1, b] + e;
    assert s[1..] == [b] + e && s[1..][1..] == e;
    assert Unescaped(s, false) == Unescaped(s[1..], true);
  }

  lemma Open()
    ensures Unescaped([1], false) == Unescaped([], false) == Some([])
  {
    assert [1][1..] == [];
  }

  lemma LowByte(s: bytes, i: nat)
    requires i < |s|
    ensures var b: int := s[i]; FromBE(s[..i + 1]) == 256 * FromBE(s[..i]) + b
  {
    assert s[..i + 1][..i] == s[..i];
  }

  lemma EightHigh(s: bytes)
    requires |s| == 8
    ensures var b0: int, b1: int, b2: int, b3: int, b4: int, b5: int, b6: int, b7: int := s[0], s[1], s[2], s[3], s[4], s[5], s[6], s[7];
      FromBE(s) == 0x100_0000_0000_0000 * b0 + 0x1_0000_0000_0000 * b1 + 0x100_0000_0000 * b2 + 0x1_0000_0000 * b3
        + 0x100_0000 * b4 + 0x1_0000 * b5 + 0x100 * b6 + b7
  {
    hide FromBE;
    LowByte(s, 0);
    LowByte(s, 1);
    LowByte(s, 2);
    LowByte(s, 3);
    LowByte(s, 4);
    LowByte(s, 5);
    LowByte(s, 6);
    LowByte(s, 7);
    assert s[..8] == s && s[..0] == [];
    NoHigh();
  }

  lemma NoHigh()
    ensures FromBE([]) == 0
  {
  }

  /** An integer: eight bytes, the highest first, that count from -2^63; and none for -2^63 itself. */
  lemma IntBytes(n: int64)
    ensures SerializeInt(n) == if n == -0x8000_0000_0000_0000 then None else Some(Enc(I64(n)))
    ensures |Enc(I64(n))| == 8
    ensures var s := Enc(I64(n));
      var b0: int, b1: int, b2: int, b3: int, b4: int, b5: int, b6: int, b7: int := s[0], s[1], s[2], s[3], s[4], s[5], s[6], s[7];
      n + 0x8000_0000_0000_0000 == 0x100_0000_0000_0000 * b0 + 0x1_0000_0000_0000 * b1 + 0x100_0000_0000 * b2 + 0x1_0000_0000 * b3
        + 0x100_0000 * b4 + 0x1_0000 * b5 + 0x100 * b6 + b7
  {
    hide ToBE, FromBE;
    IntRoundTrip(n);
    Pow256Of8();
    BERoundTrip(n + 0x8000_0000_0000_0000, 8);
    EightHigh(Enc(I64(n)));
  }

  // ------------------------------------------------------------ index keys

  /**
   * The key of a row in index i: the index's columns, then the primary key, with the byte 0xff for the
   * empty string in the former, and in those columns of the latter that this or an earlier index has.
   */
  lemma IndexKeyBytes(t: TableDef, row: seq<Value>, i: nat) returns (cols: seq<Value>, pks: seq<Value>)
    requires TableOk(t) && |row| == |t.cols| && 1 <= i < |t.indexes|
    ensures SecKey(t, row, i) == Key(t.prefixes[i], cols + pks) && |cols| == |t.indexes[i]| && |pks| == t.pkeys
    ensures forall k, j :: 0 <= k < |cols| && 0 <= j < |t.cols| && t.cols[j] == t.indexes[i][k] ==>
              cols[k] == if row[j] == Str([]) then Str([0xff]) else row[j]
    ensures forall j :: 0 <= j < t.pkeys ==>
              pks[j] == if row[j] == Str([]) && (exists m :: 1 <= m <= i && t.cols[j] in t.indexes[m]) then Str([0xff]) else row[j]
  {
    hide Key;
    cols, pks := Tuple(t, row, i), Patched(t, row, i)[..t.pkeys];
    forall j | 0 <= j < t.pkeys
      ensures pks[j] == if row[j] == Str([]) && (exists m :: 1 <= m <= i && t.cols[j] in t.indexes[m]) then Str([0xff]) else row[j]
    {
      if Indexed(t, j, i) {
        var m :| 1 <= m <= i && m < |t.indexes| && t.cols[j] in t.indexes[m];
        assert 1 <= m <= i && t.cols[j] in t.indexes[m];
      }
    }
  }

  // ------------------------------------------------------------ the order of values, and ranges

  /** Column by column: numbers as numbers, strings as bytes.Compare has them. */
  lemma ValueOrder(m: int64, n: int64, s: bytes, t: bytes, x: seq<Value>, y: seq<Value>)
    requires |x| == |y|
    ensures m < n ==> CompareTuples([I64(m)] + x, [I64(n)] + y) < 0
    ensures m > n ==> CompareTuples([I64(m)] + x, [I64(n)] + y) > 0
    ensures CompareTuples([I64(m)] + x, [I64(m)] + y) == CompareTuples(x, y)
    ensures s != t ==> CompareTuples([Str(s)] + x, [Str(t)] + y) == Compare(s, t)
    ensures CompareTuples([Str(s)] + x, [Str(s)] + y) == CompareTuples(x, y)
    ensures CompareTuples([], []) == 0
  {
    assert forall v: Value :: ([v] + x)[1..] == x && ([v] + y)[1..] == y;
  }

  /** A range of numbers, its ends given in either order, each of them in the range or not. */
  lemma NumbersWithin(x: int64, a: int64, b: int64, inc1: bool, inc2: bool)
    ensures a <= b ==> (Within([I64(x)], [I64(a)], [I64(b)], inc1, inc2) <==> (a < x || (a == x && inc1)) && (x < b || (x == b && inc2)))
    ensures a > b ==> (Within([I64(x)], [I64(a)], [I64(b)], inc1, inc2) <==> (b < x || (b == x && inc2)) && (x < a || (x == a && inc1)))
  {
    assert forall n: int64 :: [I64(n)] == [I64(n)] + [];
    ValueOrder(a, x, [], [], [], []);
    ValueOrder(x, b, [], [], [], []);
    ValueOrder(b, x, [], [], [], []);
    ValueOrder(x, a, [], [], [], []);
    ValueOrder(a, b, [], [], [], []);
  }

  /** NewScanner's bounds, with the lower one first; on a secondary index one more byte is behind each. */
  lemma BoundBytes(k1: bytes, k2: bytes, inc1: bool, inc2: bool, idx: nat)
    requires Compare(k1, k2) <= 0
    ensures BoundsOf(k1, k2, inc1, inc2, 0) == Bounds(k1, k2, inc1, inc2)
    ensures idx != 0 ==> BoundsOf(k1, k2, inc1, inc2, idx)
                         == Bounds(k1 + [if inc1 then 0 else 255], k2 + [if inc2 then 255 else 0], inc1, inc2)
    ensures Compare(k1, k2) < 0 ==> BoundsOf(k2, k1, inc2, inc1, idx) == BoundsOf(k1, k2, inc1, inc2, idx)
  {
    CompareAntisym(k1, k2);
  }
}
