/**
 * The key encoding of types/schema.go: column values become bytes whose order is the order of the
 * values, and come back.
 */
module Codecs {
  import opened Bytes

  const TWO_32 := 0x1_0000_0000
  const TWO_63 := 0x8000_0000_0000_0000

  type int64 = x: int | -0x8000_0000_0000_0000 <= x < 0x8000_0000_0000_0000

  const MIN_INT64: int64 := -0x8000_0000_0000_0000

  datatype Value = Str(s: bytes) | I64(n: int64)

  datatype Type = TBytes | TInt

  function TypeOf(v: Value): Type { match v case Str(_) => TBytes case I64(_) => TInt }

  function TypesOf(vs: seq<Value>): (ts: seq<Type>)
    ensures |ts| == |vs|
  {
    seq(|vs|, i requires 0 <= i < |vs| => TypeOf(vs[i]))
  }

  // ------------------------------------------------------------ the order of column values

  function CompareValues(a: Value, b: Value): int {
    match (a, b)
    case (Str(s), Str(t)) => Compare(s, t)
    case (I64(m), I64(n)) => if m < n then -1 else if m > n then 1 else 0
    case (Str(_), I64(_)) => -1
    case (I64(_), Str(_)) => 1
  }

  /** Column by column; the tuples have the same length. */
  function CompareTuples(a: seq<Value>, b: seq<Value>): int
    requires |a| == |b|
  {
    if a == [] then 0
    else if a[0] == b[0] then CompareTuples(a[1..], b[1..])
    else CompareValues(a[0], b[0])
  }

  // ------------------------------------------------------------ integers

  function ToBE(v: nat, n: nat): (s: bytes)
    ensures |s| == n
  {
    if n == 0 then [] else ToBE(v / 256, n - 1) + [v % 256]
  }

  function FromBE(s: bytes): nat {
    if s == [] then 0 else 256 * FromBE(s[..|s| - 1]) + s[|s| - 1]
  }

  lemma {:induction false} BERoundTrip(v: nat, n: nat)
    requires v < Pow256(n)
    ensures FromBE(ToBE(v, n)) == v
  {
    if n != 0 {
      BERoundTrip(v / 256, n - 1);
      assert ToBE(v, n)[..n - 1] == ToBE(v / 256, n - 1);
    }
  }

  lemma {:induction false} BEBound(s: bytes)
    ensures FromBE(s) < Pow256(|s|)
  {
    if s != [] { BEBound(s[..|s| - 1]); }
  }

  /** Strings of the same length in front decide a comparison if they differ. */
  lemma {:induction false} CompareFront(a: bytes, b: bytes, x: bytes, y: bytes)
    requires |a| == |b|
    ensures Compare(a + x, b + y) == if a == b then Compare(x, y) else Compare(a, b)
  {
    if a == [] {
      assert a + x == x && b + y == y;
    } else {
      assert (a + x)[1..] == a[1..] + x && (b + y)[1..] == b[1..] + y;
      CompareFront(a[1..], b[1..], x, y);
      if a[0] == b[0] { assert a == [a[0]] + a[1..] && b == [b[0]] + b[1..]; }
    }
  }

  lemma {:induction false} BEOrder(v: nat, w: nat, n: nat)
    requires v < Pow256(n) && w < Pow256(n)
    ensures Compare(ToBE(v, n), ToBE(w, n)) == if v < w then -1 else if v > w then 1 else 0
  {
    if n != 0 {
      BEOrder(v / 256, w / 256, n - 1);
      CompareFront(ToBE(v / 256, n - 1), ToBE(w / 256, n - 1), [v % 256], [w % 256]);
      CompareZero(ToBE(v / 256, n - 1), ToBE(w / 256, n - 1));
      assert [v % 256][1..] == [] && [w % 256][1..] == [];
    }
  }

  /** uint64(n) */
  function Unsigned(n: int64): (u: nat)
    ensures u < TWO_64
  {
    if n < 0 then n + TWO_64 else n
  }

  /** int64(u) */
  function Signed(u: nat): int64
    requires u < TWO_64
  {
    if u < TWO_63 then u else u - TWO_64
  }

  /** u ^ (1 << 63) */
  function FlipTop(u: nat): (r: nat)
    requires u < TWO_64
    ensures r < TWO_64
  {
    if u < TWO_63 then u + TWO_63 else u - TWO_63
  }

  /** SerializeInt; None is the panic on the minimum. */
  function SerializeInt(n: int64): Option<bytes> {
    if n == MIN_INT64 then None else Some(ToBE(FlipTop(Unsigned(n)), 8))
  }

  function DeserializeInt(s: bytes): int64
    requires |s| == 8
  {
    BEBound(s);
    Pow256Of8();
    Signed(FlipTop(FromBE(s)))
  }

  // ------------------------------------------------------------ byte strings

  function EscapedByte(b: byte): bytes { if b == 0 then [1, 1] else if b == 1 then [1, 2] else [b] }

  function Escaped(s: bytes): bytes { if s == [] then [] else EscapedByte(s[0]) + Escaped(s[1..]) }

  /** Reading escapes, in the middle of one or not; None is the panic on an unknown one. */
  function Unescaped(e: bytes, escape: bool): Option<bytes>
    decreases |e|
  {
    if e == [] then Some([])
    else if e[0] == 1 && !escape then Unescaped(e[1..], true)
    else if escape && e[0] != 1 && e[0] != 2 then None
    else match Unescaped(e[1..], false)
      case None => None
      case Some(r) => Some([if !escape then e[0] else if e[0] == 1 then 0 else 1] + r)
  }

  lemma {:induction false} EscapedSnoc(s: bytes, b: byte)
    ensures Escaped(s + [b]) == Escaped(s) + EscapedByte(b)
  {
    if s == [] {
      assert s + [b] == [b] && [b][1..] == [];
      assert Escaped([b]) == EscapedByte(b) + Escaped([]);
    } else {
      assert (s + [b])[1..] == s[1..] + [b];
      EscapedSnoc(s[1..], b);
    }
  }

  method SerializeBytes(s: bytes) returns (r: bytes)
    ensures r == Escaped(s)
  {
    r := [];
    for i := 0 to |s|
      invariant r == Escaped(s[..i])
    {
      EscapedSnoc(s[..i], s[i]);
      assert s[..i + 1] == s[..i] + [s[i]];
      if s[i] == 0 {
        r := r + [1, 1];
      } else if s[i] == 1 {
        r := r + [1, 2];
      } else {
        r := r + [s[i]];
      }
    }
    assert s[..|s|] == s;
  }

  method DeserializeBytes(e: bytes) returns (r: Option<bytes>)
    ensures r == Unescaped(e, false)
  {
    hide Unescaped, Glue;
    var d, escape := [], false;
    assert e[0..] == e;
    GlueNone(Unescaped(e, false));
    for i := 0 to |e|
      invariant Unescaped(e, false) == Glue(d, Unescaped(e[i..], escape))
    {
      var b := e[i];
      assert e[i..][1..] == e[i + 1..];
      GlueStep(d, e[i..], escape);
      if b == 1 && !escape {
        escape := true;
        continue;
      }
      if escape {
        escape := false;
        if b == 1 {
          d := d + [0];
        } else if b == 2 {
          d := d + [1];
        } else {
          return None;
        }
      } else {
        d := d + [b];
      }
    }
    GlueEnd(d, escape);
    return Some(d);
  }

  lemma GlueNone(r: Option<bytes>)
    ensures Glue([], r) == r
  {
    if r.Some? { assert [] + r.value == r.value; }
  }

  lemma GlueEnd(d: bytes, escape: bool)
    ensures Glue(d, Unescaped([], escape)) == Some(d)
  {
    assert d + [] == d;
  }

  /** One byte of an encoded string. */
  lemma GlueStep(d: bytes, e: bytes, escape: bool)
    requires e != []
    ensures Glue(d, Unescaped(e, escape)) ==
            if e[0] == 1 && !escape then Glue(d, Unescaped(e[1..], true))
            else if !escape then Glue(d + [e[0]], Unescaped(e[1..], false))
            else if e[0] == 1 then Glue(d + [0], Unescaped(e[1..], false))
            else if e[0] == 2 then Glue(d + [1], Unescaped(e[1..], false))
            else None
  {
    var r := Unescaped(e[1..], false);
    if r.Some? { assert forall b: byte :: d + ([b] + r.value) == d + [b] + r.value; }
  }

  function Glue(d: bytes, r: Option<bytes>): Option<bytes> { match r case None => None case Some(x) => Some(d + x) }

  /** DeserializeBytes undoes SerializeBytes, on every byte string. */
  lemma {:induction false} EscapeRoundTrip(s: bytes)
    ensures Unescaped(Escaped(s), false) == Some(s)
  {
    if s != [] {
      EscapeRoundTrip(s[1..]);
      var e, t := Escaped(s), Escaped(s[1..]);
      assert s == [s[0]] + s[1..];
      if s[0] <= 1 {
        assert e[1..][1..] == t;
        assert Unescaped(e, false) == Unescaped(e[1..], true);
      } else {
        assert e[1..] == t;
      }
    }
  }

  /** The terminator is in no encoded string. */
  lemma {:induction false} NoZero(s: bytes)
    ensures forall i :: 0 <= i < |Escaped(s)| ==> Escaped(s)[i] != 0
  {
    if s != [] { NoZero(s[1..]); }
  }

  // ------------------------------------------------------------ one value

  function Enc(v: Value): bytes {
    match v case Str(s) => Escaped(s) + [0] case I64(n) => ToBE(n + TWO_63, 8)
  }

  /** SerializeInt writes the number counted from the minimum, and DeserializeInt undoes it. */
  lemma IntRoundTrip(n: int64)
    ensures n != MIN_INT64 ==> SerializeInt(n) == Some(Enc(I64(n)))
    ensures DeserializeInt(Enc(I64(n))) == n
  {
    Pow256Of8();
    BERoundTrip(n + TWO_63, 8);
  }

  lemma CompareFirst(a: bytes, b: bytes)
    ensures a == [] && b == [] ==> Compare(a, b) == 0
    ensures a == [] && b != [] ==> Compare(a, b) == -1
    ensures a != [] && b == [] ==> Compare(a, b) == 1
    ensures a != [] && b != [] ==> Compare(a, b) == if a[0] < b[0] then -1 else if a[0] > b[0] then 1 else Compare(a[1..], b[1..])
  {
  }

  /** Two strings, terminated, compare as the strings do, whatever comes behind them. */
  lemma {:induction false} StringsDecide(s: bytes, t: bytes, x: bytes, y: bytes)
    ensures Compare(Escaped(s) + [0] + x, Escaped(t) + [0] + y) == if s == t then Compare(x, y) else Compare(s, t)
  {
    hide Compare;
    var a, b := Escaped(s) + [0] + x, Escaped(t) + [0] + y;
    CompareZero(s, t);
    CompareFirst(s, t);
    CompareFirst(a, b);
    if s == [] && t == [] {
      assert a == [0] + x && b == [0] + y;
      CompareFront([0], [0], x, y);
    } else if s == [] || t == [] {
      assert a[0] != b[0];
    } else {
      var c, d := EscapedByte(s[0]), EscapedByte(t[0]);
      var r, q := Escaped(s[1..]) + [0] + x, Escaped(t[1..]) + [0] + y;
      assert a == c + r && b == d + q;
      if s[0] == t[0] {
        ComparePrefix(c, r, q);
        StringsDecide(s[1..], t[1..], x, y);
        assert s == [s[0]] + s[1..] && t == [t[0]] + t[1..];
      } else if s[0] <= 1 && t[0] <= 1 {
        CompareFront(c, d, r, q);
        CompareFirst(c, d);
        CompareFirst(c[1..], d[1..]);
      }
    }
  }

  /** Two different values of one type are told apart before either encoding ends. */
  lemma ValuesDecide(a: Value, b: Value, x: bytes, y: bytes)
    requires TypeOf(a) == TypeOf(b)
    ensures Compare(Enc(a) + x, Enc(b) + y) == if a == b then Compare(x, y) else CompareValues(a, b)
  {
    match (a, b)
    case (Str(s), Str(t)) => StringsDecide(s, t, x, y);
    case (I64(m), I64(n)) => {
      Pow256Of8();
      BEOrder(m + TWO_63, n + TWO_63, 8);
      CompareFront(Enc(a), Enc(b), x, y);
      CompareZero(Enc(a), Enc(b));
    }
  }

  // ------------------------------------------------------------ keys

  function EncAll(vs: seq<Value>): bytes { if vs == [] then [] else Enc(vs[0]) + EncAll(vs[1..]) }

  function Key(prefix: nat, vs: seq<Value>): bytes
    requires prefix < TWO_32
  {
    ToBE(prefix, 4) + EncAll(vs)
  }

  lemma {:induction false} EncConcat(a: seq<Value>, b: seq<Value>)
    ensures EncAll(a + b) == EncAll(a) + EncAll(b)
  {
    if a == [] {
      assert a + b == b;
    } else {
      assert (a + b)[1..] == a[1..] + b;
      EncConcat(a[1..], b);
    }
  }

  lemma TypesTail(a: seq<Value>, b: seq<Value>)
    requires TypesOf(a) == TypesOf(b)
    ensures |a| == |b|
    ensures a != [] ==> TypeOf(a[0]) == TypeOf(b[0]) && TypesOf(a[1..]) == TypesOf(b[1..])
  {
    assert |TypesOf(a)| == |TypesOf(b)|;
    if a != [] {
      assert TypeOf(a[0]) == TypesOf(a)[0] == TypesOf(b)[0];
      assert TypesOf(a[1..]) == TypesOf(a)[1..] == TypesOf(b[1..]);
    }
  }

  lemma {:induction false} TuplesDecide(a: seq<Value>, b: seq<Value>, x: bytes, y: bytes)
    requires TypesOf(a) == TypesOf(b)
    ensures |a| == |b|
    ensures Compare(EncAll(a) + x, EncAll(b) + y) == if a == b then Compare(x, y) else CompareTuples(a, b)
  {
    hide TypesOf, TypeOf, Enc, CompareValues;
    TypesTail(a, b);
    if a == [] {
      assert EncAll(a) + x == x && EncAll(b) + y == y;
    } else {
      var r, q := EncAll(a[1..]) + x, EncAll(b[1..]) + y;
      assert EncAll(a) + x == Enc(a[0]) + r && EncAll(b) + y == Enc(b[0]) + q;
      ValuesDecide(a[0], b[0], r, q);
      TuplesDecide(a[1..], b[1..], x, y);
      assert a == [a[0]] + a[1..] && b == [b[0]] + b[1..];
    }
  }

  /** The order of encoded keys, with anything behind them: by prefix, by tuple, by what is behind. */
  lemma KeyOrder(p: nat, q: nat, a: seq<Value>, b: seq<Value>, x: bytes, y: bytes)
    requires p < TWO_32 && q < TWO_32
    ensures p != q ==> Compare(Key(p, a) + x, Key(q, b) + y) == if p < q then -1 else 1
    ensures TypesOf(a) == TypesOf(b) ==> |a| == |b|
    ensures p == q && TypesOf(a) == TypesOf(b) ==>
              Compare(Key(p, a) + x, Key(q, b) + y) == (if a == b then Compare(x, y) else CompareTuples(a, b))
  {
    hide ToBE, EncAll, TypesOf, CompareTuples, Compare, Pow256;
    Pow256Of4();
    BEOrder(p, q, 4);
    var r, s := EncAll(a) + x, EncAll(b) + y;
    assert Key(p, a) + x == ToBE(p, 4) + r && Key(q, b) + y == ToBE(q, 4) + s;
    CompareFront(ToBE(p, 4), ToBE(q, 4), r, s);
    CompareZero(ToBE(p, 4), ToBE(q, 4));
    if TypesOf(a) == TypesOf(b) { TuplesDecide(a, b, x, y); }
  }

  lemma Pow256Of4()
    ensures Pow256(4) == TWO_32
  {
  }

  /** EncodeKey is an order embedding, so it is injective; and no key is a prefix of another. */
  lemma KeyEmbedding(p: nat, a: seq<Value>, b: seq<Value>)
    requires p < TWO_32 && TypesOf(a) == TypesOf(b)
    ensures |a| == |b| && Compare(Key(p, a), Key(p, b)) == CompareTuples(a, b)
    ensures Key(p, a) <= Key(p, b) ==> a == b
  {
    hide Key, TypesOf, CompareTuples;
    KeyOrder(p, p, a, b, [], []);
    assert Key(p, a) + [] == Key(p, a) && Key(p, b) + [] == Key(p, b);
    TuplesZero(a, b);
    if Key(p, a) <= Key(p, b) {
      var x := Key(p, b)[|Key(p, a)|..];
      assert Key(p, a) + x == Key(p, b) + [];
      KeyOrder(p, p, a, b, x, []);
      CompareSame(Key(p, b) + []);
    }
  }

  lemma {:induction false} TuplesZero(a: seq<Value>, b: seq<Value>)
    requires TypesOf(a) == TypesOf(b)
    ensures |a| == |b| && (CompareTuples(a, b) == 0 <==> a == b)
  {
    TypesTail(a, b);
    if a != [] {
      TuplesZero(a[1..], b[1..]);
      if a[0].Str? { CompareZero(a[0].s, b[0].s); }
      assert a == [a[0]] + a[1..] && b == [b[0]] + b[1..];
    }
  }

  /** All strings that extend k stand together: nothing else is between two of them. */
  lemma {:induction false} ExtensionsTogether(k: bytes, x: bytes, y: bytes, z: bytes)
    requires k <= x && k <= z && AtMost(x, y) && AtMost(y, z)
    ensures k <= y
  {
    if k != [] {
      assert x[0] == k[0] == z[0];
      assert x[1..][..|k| - 1] == k[1..] && z[1..][..|k| - 1] == k[1..];
      ExtensionsTogether(k[1..], x[1..], y[1..], z[1..]);
      assert y == [y[0]] + y[1..];
    }
  }

  lemma KeyOfNone(prefix: nat)
    requires prefix < TWO_32
    ensures Key(prefix, []) == ToBE(prefix, 4)
  {
  }

  lemma KeySnoc(prefix: nat, vs: seq<Value>, v: Value)
    requires prefix < TWO_32
    ensures Key(prefix, vs + [v]) == Key(prefix, vs) + Enc(v)
  {
    hide ToBE, EncAll, Enc;
    EncConcat(vs, [v]);
    EncOne(v);
    var p, a, e := ToBE(prefix, 4), EncAll(vs), Enc(v);
    assert p + (a + e) == (p + a) + e;
  }

  lemma EncOne(v: Value)
    ensures EncAll([v]) == Enc(v)
  {
    hide Enc;
    assert [v][1..] == [];
    assert EncAll([v]) == Enc(v) + EncAll([v][1..]);
    assert EncAll([]) == [];
  }

  /** EncodeKey; None is SerializeInt's panic. */
  method EncodeKey(prefix: nat, pks: seq<Value>) returns (r: Option<bytes>)
    requires prefix < TWO_32
    ensures r == if I64(MIN_INT64) in pks then None else Some(Key(prefix, pks))
  {
    hide Key, ToBE, EncAll, Escaped;
    var key := ToBE(prefix, 4);
    KeyOfNone(prefix);
    for i := 0 to |pks|
      invariant I64(MIN_INT64) !in pks[..i] && key == Key(prefix, pks[..i])
    {
      var val := pks[i];
      assert pks[..i + 1] == pks[..i] + [val];
      KeySnoc(prefix, pks[..i], val);
      match val {
        case Str(s) =>
          var e := SerializeBytes(s);
          key := key + e;
          key := key + [0];
        case I64(n) =>
          IntRoundTrip(n);
          var e := SerializeInt(n);
          if e.None? {
            assert pks[i] == I64(MIN_INT64);
            return None;
          }
          key := key + e.value;
      }
    }
    assert pks[..|pks|] == pks;
    return Some(key);
  }

  // ------------------------------------------------------------ reading keys

  /** The bytes up to the first zero, and those behind it. */
  function UpToZero(s: bytes): Option<(bytes, bytes)> {
    if s == [] then None
    else if s[0] == 0 then Some(([], s[1..]))
    else match UpToZero(s[1..]) case None => None case Some((a, r)) => Some(([s[0]] + a, r))
  }

  /** One column's bytes and the rest; None is an index out of range. */
  function Piece(s: bytes, t: Type): (r: Option<(bytes, bytes)>)
    ensures r.Some? && t.TInt? ==> |r.value.0| == 8
  {
    match t
    case TBytes => UpToZero(s)
    case TInt => if |s| < 8 then None else Some((s[..8], s[8..]))
  }

  function ReadPiece(p: bytes, t: Type): Option<Value>
    requires t.TInt? ==> |p| == 8
  {
    match t
    case TBytes => (match Unescaped(p, false) case None => None case Some(s) => Some(Str(s)))
    case TInt => Some(I64(DeserializeInt(p)))
  }

  ghost predicate Pieced(ps: seq<bytes>, ts: seq<Type>) {
    |ps| == |ts| && forall i :: 0 <= i < |ts| && ts[i].TInt? ==> |ps[i]| == 8
  }

  /** The columns' bytes, and those behind them. */
  function CutUp(s: bytes, ts: seq<Type>): (r: Option<(seq<bytes>, bytes)>)
    ensures r.Some? ==> Pieced(r.value.0, ts)
    decreases |ts|
  {
    if ts == [] then Some(([], s)) else
    match Piece(s, ts[0])
    case None => None
    case Some((p, r)) => match CutUp(r, ts[1..]) case None => None case Some((ps, q)) => Some(([p] + ps, q))
  }

  function ReadAll(ps: seq<bytes>, ts: seq<Type>): Option<seq<Value>>
    requires Pieced(ps, ts)
    decreases |ts|
  {
    if ts == [] then Some([]) else
    match (ReadPiece(ps[0], ts[0]), ReadAll(ps[1..], ts[1..]))
    case (Some(v), Some(vs)) => Some([v] + vs)
    case _ => None
  }

  /** The values of columns with the types ts; None is a panic. */
  function Decode(s: bytes, ts: seq<Type>): Option<seq<Value>> {
    match CutUp(s, ts) case None => None case Some((ps, _)) => ReadAll(ps, ts)
  }

  lemma {:induction false} UpToFirst(a: bytes, r: bytes)
    requires forall i :: 0 <= i < |a| ==> a[i] != 0
    ensures UpToZero(a + [0] + r) == Some((a, r))
  {
    if a == [] {
      assert a + [0] + r == [0] + r;
    } else {
      assert (a + [0] + r)[1..] == a[1..] + [0] + r;
      UpToFirst(a[1..], r);
      assert a == [a[0]] + a[1..];
    }
  }

  lemma PieceOfEnc(v: Value, r: bytes)
    ensures Piece(Enc(v) + r, TypeOf(v)).Some?
    ensures var p := Piece(Enc(v) + r, TypeOf(v)).value; p.1 == r && ReadPiece(p.0, TypeOf(v)) == Some(v)
  {
    match v
    case Str(s) => {
      NoZero(s);
      UpToFirst(Escaped(s), r);
      EscapeRoundTrip(s);
    }
    case I64(n) => {
      IntRoundTrip(n);
      assert (Enc(v) + r)[..8] == Enc(v) && (Enc(v) + r)[8..] == r;
    }
  }

  /** Reading undoes writing, for every tuple: the values come back, and what is behind them is left. */
  lemma {:induction false} DecodeUndoesEncode(vs: seq<Value>, r: bytes)
    ensures var c := CutUp(EncAll(vs) + r, TypesOf(vs)); c.Some? && c.value.1 == r && ReadAll(c.value.0, TypesOf(vs)) == Some(vs)
    decreases |vs|
  {
    if vs == [] {
      assert EncAll(vs) + r == r;
    } else {
      var q := EncAll(vs[1..]) + r;
      assert EncAll(vs) + r == Enc(vs[0]) + q;
      PieceOfEnc(vs[0], q);
      assert TypesOf(vs)[1..] == TypesOf(vs[1..]) && TypesOf(vs)[0] == TypeOf(vs[0]);
      DecodeUndoesEncode(vs[1..], r);
      assert vs == [vs[0]] + vs[1..];
      var ps := CutUp(EncAll(vs) + r, TypesOf(vs)).value.0;
      assert ps[1..] == CutUp(q, TypesOf(vs[1..])).value.0;
    }
  }

  ghost predicate NoZeros(s: bytes, from: nat, p: nat) { p <= |s| && forall i :: from <= i < p ==> s[i] != 0 }

  lemma FirstZero(s: bytes, from: nat, p: nat)
    requires from <= p < |s| && s[p] == 0 && NoZeros(s, from, p)
    ensures UpToZero(s[from..]) == Some((s[from..p], s[p + 1..]))
  {
    hide UpToZero;
    assert s[from..] == s[from..p] + [0] + s[p + 1..];
    UpToFirst(s[from..p], s[p + 1..]);
  }

  lemma NeverZero(s: bytes, from: nat)
    requires from <= |s| && NoZeros(s, from, |s|)
    ensures UpToZero(s[from..]).None?
  {
    hide UpToZero;
    NoZeroNone(s[from..]);
  }

  /** A string column's bytes, one at a time. */
  method ReadToZero(s: bytes, from: nat) returns (r: Option<(bytes, nat)>)
    requires from <= |s|
    ensures r.None? <==> UpToZero(s[from..]).None?
    ensures r.Some? ==> from < r.value.1 <= |s| && UpToZero(s[from..]) == Some((r.value.0, s[r.value.1..]))
  {
    hide UpToZero;
    var bytePtr, key := from, [];
    while bytePtr < |s| && s[bytePtr] != 0
      invariant from <= bytePtr <= |s| && key == s[from..bytePtr] && NoZeros(s, from, bytePtr)
    {
      SliceGrows(s, from, bytePtr);
      key := key + [s[bytePtr]];
      bytePtr := bytePtr + 1;
    }
    if bytePtr == |s| {
      NeverZero(s, from);
      return None;
    }
    FirstZero(s, from, bytePtr);
    return Some((key, bytePtr + 1));
  }

  lemma {:induction false} NoZeroNone(s: bytes)
    requires forall i :: 0 <= i < |s| ==> s[i] != 0
    ensures UpToZero(s).None?
  {
    if s != [] { NoZeroNone(s[1..]); }
  }

  function Before(ps: seq<bytes>, r: Option<(seq<bytes>, bytes)>): Option<(seq<bytes>, bytes)> {
    match r case None => None case Some((qs, s)) => Some((ps + qs, s))
  }

  lemma CutStep(ps: seq<bytes>, s: bytes, ts: seq<Type>)
    ensures Before([], CutUp(s, ts)) == CutUp(s, ts)
    ensures Before(ps, CutUp(s, ts)) ==
            if ts == [] then Some((ps, s))
            else match Piece(s, ts[0]) case None => None case Some((p, r)) => Before(ps + [p], CutUp(r, ts[1..]))
  {
    var c := CutUp(s, ts);
    if c.Some? {
      assert [] + c.value.0 == c.value.0;
      if ts == [] {
        assert ps + [] == ps;
      } else {
        var p, r := Piece(s, ts[0]).value.0, Piece(s, ts[0]).value.1;
        var qs := CutUp(r, ts[1..]).value.0;
        assert ps + ([p] + qs) == ps + [p] + qs;
      }
    }
  }

  /** The columns' bytes: DecodeKey's first loop, and the second of GetPKFromSecKey. */
  method CutColumns(s: bytes, from: nat, ts: seq<Type>) returns (pks: Option<seq<bytes>>)
    requires from <= |s|
    ensures pks == (match CutUp(s[from..], ts) case None => None case Some((ps, _)) => Some(ps))
  {
    hide CutUp, Before, UpToZero;
    var out, bytePtr := [], from;
    CutStep([], s[from..], ts);
    assert ts[0..] == ts;
    for i := 0 to |ts|
      invariant from <= bytePtr <= |s|
      invariant CutUp(s[from..], ts) == Before(out, CutUp(s[bytePtr..], ts[i..]))
    {
      CutStep(out, s[bytePtr..], ts[i..]);
      assert ts[i..][1..] == ts[i + 1..];
      match ts[i] {
        case TBytes =>
          var r := ReadToZero(s, bytePtr);
          if r.None? { return None; }
          out, bytePtr := out + [r.value.0], r.value.1;
        case TInt =>
          if bytePtr + 8 > |s| { return None; }
          assert s[bytePtr..][..8] == s[bytePtr..bytePtr + 8] && s[bytePtr..][8..] == s[bytePtr + 8..];
          out, bytePtr := out + [s[bytePtr..bytePtr + 8]], bytePtr + 8;
      }
    }
    CutStep(out, s[bytePtr..], ts[|ts|..]);
    return Some(out);
  }

  function After(vs: seq<Value>, r: Option<seq<Value>>): Option<seq<Value>> {
    match r case None => None case Some(ws) => Some(vs + ws)
  }

  lemma ReadStep(vs: seq<Value>, ps: seq<bytes>, ts: seq<Type>)
    requires Pieced(ps, ts)
    ensures After([], ReadAll(ps, ts)) == ReadAll(ps, ts)
    ensures After(vs, ReadAll(ps, ts)) ==
            if ts == [] then Some(vs)
            else match ReadPiece(ps[0], ts[0]) case None => None case Some(v) => After(vs + [v], ReadAll(ps[1..], ts[1..]))
  {
    var c := ReadAll(ps, ts);
    if c.Some? {
      assert [] + c.value == c.value;
      if ts == [] {
        assert vs + [] == vs;
      } else {
        var v, ws := ReadPiece(ps[0], ts[0]).value, ReadAll(ps[1..], ts[1..]).value;
        assert vs + ([v] + ws) == vs + [v] + ws;
      }
    }
  }

  /** The columns' values: the last loop of both. */
  method ReadColumns(pks: seq<bytes>, ts: seq<Type>) returns (vals: Option<seq<Value>>)
    requires Pieced(pks, ts)
    ensures vals == ReadAll(pks, ts)
  {
    hide ReadAll, After, Unescaped;
    var out := [];
    ReadStep([], pks, ts);
    assert ts[0..] == ts && pks[0..] == pks;
    for i := 0 to |ts|
      invariant ReadAll(pks, ts) == After(out, ReadAll(pks[i..], ts[i..]))
    {
      ReadStep(out, pks[i..], ts[i..]);
      assert ts[i..][1..] == ts[i + 1..] && pks[i..][1..] == pks[i + 1..];
      match ts[i] {
        case TInt =>
          out := out + [I64(DeserializeInt(pks[i]))];
        case TBytes =>
          var s := DeserializeBytes(pks[i]);
          if s.None? { return None; }
          out := out + [Str(s.value)];
      }
    }
    ReadStep(out, pks[|ts|..], ts[|ts|..]);
    return Some(out);
  }

  /** DecodeKey; None is a panic. */
  method DecodeKey(key: bytes, ts: seq<Type>) returns (vals: Option<seq<Value>>)
    ensures vals == if |key| < 4 then None else Decode(key[4..], ts)
  {
    hide CutUp, ReadAll;
    if |key| < 4 { return None; }
    var pks := CutColumns(key, 4, ts);
    if pks.None? { return None; }
    vals := ReadColumns(pks.value, ts);
  }

  /** So DecodeKey undoes EncodeKey, for all values. */
  lemma KeyRoundTrip(prefix: nat, vs: seq<Value>)
    requires prefix < TWO_32
    ensures Decode(Key(prefix, vs)[4..], TypesOf(vs)) == Some(vs)
  {
    assert Key(prefix, vs)[4..] == EncAll(vs) + [];
    DecodeUndoesEncode(vs, []);
  }
}
