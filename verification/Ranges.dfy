/** Key ranges of scans (db/db.go): which stored pairs lie within two bounds, and what the bounds mean for rows. */
module Ranges {
  import opened Bytes
  import opened SortedRuns
  import opened Codecs
  import opened Indexes
  import opened Rows

  datatype Bounds = Bounds(lo: bytes, hi: bytes, loIn: bool, hiIn: bool)

  predicate AboveLow(b: Bounds, k: bytes) { Less(b.lo, k) || (k == b.lo && b.loIn) }

  predicate BelowHigh(b: Bounds, k: bytes) { Less(k, b.hi) || (k == b.hi && b.hiIn) }

  predicate InBounds(b: Bounds, k: bytes) { AboveLow(b, k) && BelowHigh(b, k) }

  /** The pairs within the bounds, in order. */
  function RangeOf(s: seq<Pair>, b: Bounds): seq<Pair> {
    if s == [] then [] else (if InBounds(b, s[0].key) then [s[0]] else []) + RangeOf(s[1..], b)
  }

  lemma {:induction false} RangeConcat(x: seq<Pair>, y: seq<Pair>, b: Bounds)
    ensures RangeOf(x + y, b) == RangeOf(x, b) + RangeOf(y, b)
  {
    if x == [] {
      assert x + y == y;
    } else {
      assert (x + y)[1..] == x[1..] + y;
      RangeConcat(x[1..], y, b);
    }
  }

  lemma {:induction false} RangeAll(s: seq<Pair>, b: Bounds, all: bool)
    requires forall j :: 0 <= j < |s| ==> (InBounds(b, s[j].key) <==> all)
    ensures RangeOf(s, b) == if all then s else []
  {
    hide InBounds;
    if s != [] { RangeAll(s[1..], b, all); }
  }

  /** What lies between p and q, if nothing else is within the bounds. */
  lemma RangeSlice(s: seq<Pair>, b: Bounds, p: nat, q: nat)
    requires p <= q <= |s|
    requires forall j :: p <= j < q ==> InBounds(b, s[j].key)
    requires forall j :: 0 <= j < p || q <= j < |s| ==> !InBounds(b, s[j].key)
    ensures RangeOf(s, b) == s[p..q]
  {
    hide InBounds, RangeOf;
    var x, y, z := s[..p], s[p..q], s[q..];
    assert s == x + y + z;
    RangeConcat(x + y, z, b);
    RangeConcat(x, y, b);
    RangeAll(x, b, false);
    RangeAll(y, b, true);
    RangeAll(z, b, false);
  }

  lemma {:induction false} RangeMembers(s: seq<Pair>, b: Bounds)
    requires Sorted(s)
    ensures Sorted(RangeOf(s, b))
    ensures forall x :: x in RangeOf(s, b) <==> x in s && InBounds(b, x.key)
  {
    hide InBounds;
    if s != [] {
      FirstAbove(s);
      RangeMembers(s[1..], b);
      assert s == [s[0]] + s[1..];
      var r := RangeOf(s[1..], b);
      forall i | 0 <= i < |r| ensures Less(s[0].key, r[i].key) { assert r[i] in s[1..]; }
    }
  }

  /** Behind a key that is above the upper bound, all keys are. */
  lemma HighStays(s: seq<Pair>, b: Bounds, q: nat)
    requires Sorted(s) && q < |s| && !BelowHigh(b, s[q].key)
    ensures forall j :: q <= j < |s| ==> !BelowHigh(b, s[j].key)
  {
    forall j | q <= j < |s| ensures !BelowHigh(b, s[j].key) {
      if j > q {
        LessTotal(s[q].key, b.hi);
        LessTotal(s[j].key, b.hi);
        LessTotal(b.hi, s[q].key);
        LessTrans(b.hi, s[q].key, s[j].key);
      }
    }
  }

  /** Behind a key that is above the lower bound, all keys are. */
  lemma LowStays(s: seq<Pair>, b: Bounds, p: nat)
    requires Sorted(s) && p < |s| && AboveLow(b, s[p].key)
    ensures forall j :: p <= j < |s| ==> AboveLow(b, s[j].key)
  {
    forall j | p <= j < |s| ensures AboveLow(b, s[j].key) {
      if j > p { LessTrans(b.lo, s[p].key, s[j].key); LessTotal(b.lo, s[p].key); }
    }
  }

  // ------------------------------------------------------------ NewScanner's bounds

  /** Bounds in the wrong order change places, with their flags. */
  function Ordered(k1: bytes, k2: bytes, inc1: bool, inc2: bool): Bounds {
    if Compare(k1, k2) > 0 then Bounds(k2, k1, inc2, inc1) else Bounds(k1, k2, inc1, inc2)
  }

  /** On a secondary index, one more byte takes the rows with a bound's own value in or leaves them out. */
  function Suffixed(b: Bounds, idx: nat): Bounds {
    if idx == 0 then b
    else Bounds(b.lo + [if b.loIn then 0x00 else 0xff], b.hi + [if b.hiIn then 0xff else 0x00], b.loIn, b.hiIn)
  }

  function BoundsOf(k1: bytes, k2: bytes, inc1: bool, inc2: bool, idx: nat): Bounds {
    Suffixed(Ordered(k1, k2, inc1, inc2), idx)
  }

  /** The tuple lies between the bounds, in whichever order they are given. */
  ghost predicate Within(x: seq<Value>, v1: seq<Value>, v2: seq<Value>, inc1: bool, inc2: bool)
    requires |x| == |v1| == |v2|
  {
    if CompareTuples(v1, v2) > 0
    then (CompareTuples(v2, x) < 0 || (x == v2 && inc2)) && (CompareTuples(x, v1) < 0 || (x == v1 && inc1))
    else (CompareTuples(v1, x) < 0 || (x == v1 && inc1)) && (CompareTuples(x, v2) < 0 || (x == v2 && inc2))
  }

  lemma {:induction false} TuplesAntisym(a: seq<Value>, b: seq<Value>)
    requires TypesOf(a) == TypesOf(b)
    ensures |a| == |b| && (CompareTuples(a, b) < 0 <==> CompareTuples(b, a) > 0)
  {
    hide TypesOf;
    TypesTail(a, b);
    if a != [] {
      TuplesAntisym(a[1..], b[1..]);
      if a[0].Str? { CompareAntisym(a[0].s, b[0].s); }
    }
  }

  /** Primary keys: byte bounds are tuple bounds. */
  lemma PrimaryRange(p: nat, x: seq<Value>, v1: seq<Value>, v2: seq<Value>, inc1: bool, inc2: bool)
    requires p < TWO_32 && TypesOf(x) == TypesOf(v1) == TypesOf(v2)
    ensures |x| == |v1| == |v2|
    ensures InBounds(BoundsOf(Key(p, v1), Key(p, v2), inc1, inc2, 0), Key(p, x)) <==> Within(x, v1, v2, inc1, inc2)
  {
    hide Key, CompareTuples, TypesOf;
    KeyEmbedding(p, v1, v2);
    KeyEmbedding(p, v1, x);
    KeyEmbedding(p, v2, x);
    KeyEmbedding(p, x, v1);
    KeyEmbedding(p, x, v2);
    TuplesZero(x, v1);
    TuplesZero(x, v2);
  }

  /** A key of an index against a bound with one byte behind it. */
  lemma SuffixDecides(p: nat, x: seq<Value>, e: bytes, v: seq<Value>, s: byte)
    requires p < TWO_32 && TypesOf(x) == TypesOf(v) && e != []
    ensures |x| == |v|
    ensures x != v ==> Compare(Key(p, x) + e, Key(p, v) + [s]) == CompareTuples(x, v) && CompareTuples(x, v) != 0
    ensures x == v && s == 0 ==> Compare(Key(p, x) + e, Key(p, v) + [s]) >= 0
    ensures x == v && s == 0xff ==> (Compare(Key(p, x) + e, Key(p, v) + [s]) < 0 <==> e[0] != 0xff)
  {
    hide Key, CompareTuples, TypesOf, Compare;
    KeyOrder(p, p, x, v, e, [s]);
    TuplesZero(x, v);
    CompareFirst(e, [s]);
    CompareFirst(e[1..], [s][1..]);
  }

  /**
   * Secondary keys: byte bounds are bounds on the indexed values, for rows whose primary key does not
   * begin with the byte 0xff.
   */
  lemma IndexRange(p: nat, x: seq<Value>, e: bytes, v1: seq<Value>, v2: seq<Value>, inc1: bool, inc2: bool, idx: nat)
    requires p < TWO_32 && TypesOf(x) == TypesOf(v1) == TypesOf(v2) && e != [] && e[0] != 0xff && idx != 0
    ensures |x| == |v1| == |v2|
    ensures InBounds(BoundsOf(Key(p, v1), Key(p, v2), inc1, inc2, idx), Key(p, x) + e) <==> Within(x, v1, v2, inc1, inc2)
  {
    hide Key, CompareTuples, TypesOf, Compare, Less;
    KeyEmbedding(p, v1, v2);
    if CompareTuples(v1, v2) > 0 {
      IndexEnds(p, x, e, v2, v1, inc2, inc1);
    } else {
      IndexEnds(p, x, e, v1, v2, inc1, inc2);
    }
  }

  lemma IndexEnds(p: nat, x: seq<Value>, e: bytes, v1: seq<Value>, v2: seq<Value>, inc1: bool, inc2: bool)
    requires p < TWO_32 && TypesOf(x) == TypesOf(v1) == TypesOf(v2) && e != [] && e[0] != 0xff
    ensures |x| == |v1| == |v2|
    ensures var b := Suffixed(Bounds(Key(p, v1), Key(p, v2), inc1, inc2), 1); var k := Key(p, x) + e;
      && (AboveLow(b, k) <==> CompareTuples(v1, x) < 0 || (x == v1 && inc1))
      && (BelowHigh(b, k) <==> CompareTuples(x, v2) < 0 || (x == v2 && inc2))
  {
    hide Key, CompareTuples, TypesOf, Compare, Less;
    LowEnd(p, x, e, v1, inc1);
    HighEnd(p, x, e, v2, inc2);
  }

  lemma LowEnd(p: nat, x: seq<Value>, e: bytes, v: seq<Value>, inc: bool)
    requires p < TWO_32 && TypesOf(x) == TypesOf(v) && e != [] && e[0] != 0xff
    ensures |x| == |v|
    ensures var lo := Key(p, v) + [if inc then 0x00 else 0xff]; var k := Key(p, x) + e;
      Less(lo, k) || (k == lo && inc) <==> CompareTuples(v, x) < 0 || (x == v && inc)
  {
    hide Key, CompareTuples, TypesOf, Compare;
    var lo, k := Key(p, v) + [if inc then 0x00 else 0xff], Key(p, x) + e;
    SuffixDecides(p, x, e, v, if inc then 0x00 else 0xff);
    TuplesAntisym(v, x);
    TuplesZero(v, x);
    CompareAntisym(k, lo);
    CompareZero(k, lo);
  }

  lemma HighEnd(p: nat, x: seq<Value>, e: bytes, v: seq<Value>, inc: bool)
    requires p < TWO_32 && TypesOf(x) == TypesOf(v) && e != [] && e[0] != 0xff
    ensures |x| == |v|
    ensures var hi := Key(p, v) + [if inc then 0xff else 0x00]; var k := Key(p, x) + e;
      Less(k, hi) || (k == hi && inc) <==> CompareTuples(x, v) < 0 || (x == v && inc)
  {
    hide Key, CompareTuples, TypesOf, Compare;
    var hi, k := Key(p, v) + [if inc then 0xff else 0x00], Key(p, x) + e;
    SuffixDecides(p, x, e, v, if inc then 0xff else 0x00);
    TuplesZero(x, v);
    CompareZero(k, hi);
  }

  /**
   * A primary key that begins with the byte 0xff is taken for a larger indexed value: its row is in
   * an open lower bound's range, and out of a closed upper bound's, when it has just that value.
   */
  lemma LeadingFF(p: nat, v: seq<Value>, e: bytes)
    requires p < TWO_32 && |e| > 1 && e[0] == 0xff
    ensures var b := Suffixed(Bounds(Key(p, v), Key(p, v), false, true), 1);
      AboveLow(b, Key(p, v) + e) && !BelowHigh(b, Key(p, v) + e)
  {
    hide Key;
    ComparePrefix(Key(p, v), [0xff], e);
    ComparePrefix(Key(p, v), e, [0xff]);
    CompareFirst([0xff], e);
    CompareFirst(e, [0xff]);
    CompareFirst([0xff][1..], e[1..]);
    CompareFirst(e[1..], [0xff][1..]);
  }

  // ------------------------------------------------------------ what a scan finds

  /** Under the table's prefixes, s holds the keys of kv. */
  ghost predicate SameKeys(t: TableDef, kv: Contents, s: seq<Pair>) {
    forall k :: Ours(t, k) ==> (k in kv <==> exists x :: x in s && x.key == k)
  }

  lemma PrefixOnly(p: nat, q: nat, vs: seq<Value>)
    requires p < TWO_32 && q < TWO_32 && ToBE(p, 4) <= Key(q, vs)
    ensures p == q
  {
    hide EncAll, ToBE, FromBE;
    Pow256Of4();
    BERoundTrip(p, 4);
    BERoundTrip(q, 4);
    var a, b := ToBE(p, 4), ToBE(q, 4);
    assert |a| == |b| == 4;
    assert a == Key(q, vs)[..4] == b;
  }

  /** Between two keys with a prefix, every key has it. */
  lemma BoundsPrefix(p: nat, v1: seq<Value>, v2: seq<Value>, inc1: bool, inc2: bool, idx: nat, k: bytes)
    requires p < TWO_32 && InBounds(BoundsOf(Key(p, v1), Key(p, v2), inc1, inc2, idx), k)
    ensures ToBE(p, 4) <= k
  {
    hide Compare, ToBE, EncAll;
    var b := BoundsOf(Key(p, v1), Key(p, v2), inc1, inc2, idx);
    LessTotal(b.lo, k);
    LessTotal(k, b.hi);
    assert ToBE(p, 4) <= b.lo && ToBE(p, 4) <= b.hi;
    ExtensionsTogether(ToBE(p, 4), b.lo, k, b.hi);
  }

  /** A stored key with index i's prefix is some row's key in it. */
  lemma KeyInIndex(t: TableDef, kv: Contents, rows: RowMap, i: nat, k: bytes) returns (pk: seq<Value>)
    requires Agrees(t, kv, rows) && i < |t.indexes| && ToBE(t.prefixes[i], 4) <= k && k in kv
    ensures pk in rows && k == if i == 0 then PrimKey(t, pk) else SecKey(t, pk + rows[pk], i)
  {
    hide OfIndex, Key, RowOk, ToBE, IndexEntry;
    assert Ours(t, k);
    pk :| pk in rows && KeyOfRow(t, pk + rows[pk], k);
    var row := pk + rows[pk];
    assert row[..t.pkeys] == pk;
    if k == PrimKey(t, pk) {
      PrefixOnly(t.prefixes[i], t.prefixes[0], pk);
    } else {
      var j :| 1 <= j < |t.indexes| && k == SecKey(t, row, j);
      PrefixOnly(t.prefixes[i], t.prefixes[j], IndexEntry(t, row, j));
    }
  }

  /** The row's key in index i is within the bounds exactly when its indexed values are. */
  lemma RowInIndex(t: TableDef, row: seq<Value>, i: nat, v1: seq<Value>, v2: seq<Value>, inc1: bool, inc2: bool)
    requires RowOk(t, row) && 1 <= i < |t.indexes| && TypesOf(v1) == TypesOf(v2) == IndexTypes(t, i)
    requires EncAll(row[..t.pkeys])[0..1] != [0xff] && Whole(t, row[..t.pkeys])
    ensures |v1| == |v2| == |Tuple(t, row, i)|
    ensures InBounds(BoundsOf(Key(t.prefixes[i], v1), Key(t.prefixes[i], v2), inc1, inc2, i), SecKey(t, row, i))
            <==> Within(Tuple(t, row, i), v1, v2, inc1, inc2)
    ensures PkOf(t, SecKey(t, row, i), i) == Some(row[..t.pkeys])
  {
    hide Patched, Tuple, PkOf, InBounds, BoundsOf, Within, Whole;
    EntryTypes(t, row, i);
    WholeUp(t, row, i);
    PkOfSecKey(t, row, i);
    var x, e := Tuple(t, row, i), EncAll(row[..t.pkeys]);
    EncConcat(x, row[..t.pkeys]);
    assert SecKey(t, row, i) == Key(t.prefixes[i], x) + e;
    IndexRange(t.prefixes[i], x, e, v1, v2, inc1, inc2, i);
  }

  /** Primary keys that stay as they are in the indexes, and whose encoding does not begin with the byte 0xff. */
  ghost predicate PlainKeys(t: TableDef, rows: RowMap)
    requires TableOk(t)
  {
    forall pk :: pk in rows ==> |pk| == t.pkeys && Whole(t, pk) && EncAll(pk) != [] && EncAll(pk)[0] != 0xff
  }

  /** The key is the one that index i has for the primary key, whose indexed values are within the bounds. */
  ghost predicate Hit(t: TableDef, rows: RowMap, i: nat, v1: seq<Value>, v2: seq<Value>, inc1: bool, inc2: bool, pk: seq<Value>, k: bytes)
    requires TableOk(t) && 1 <= i < |t.indexes| && |v1| == |v2| == |t.indexes[i]|
  {
    && pk in rows && |pk + rows[pk]| == |t.cols| && k == SecKey(t, pk + rows[pk], i)
    && Within(Tuple(t, pk + rows[pk], i), v1, v2, inc1, inc2)
  }

  /**
   * A scan over index i: the stored keys between NewScanner's bounds are the keys of exactly the rows
   * whose indexed values (an empty string counting as 0xff) lie between the given ones, each row once,
   * in the order of the keys; and each key leads back to its row.
   */
  lemma IndexScan(t: TableDef, kv: Contents, rows: RowMap, s: seq<Pair>, i: nat, v1: seq<Value>, v2: seq<Value>, inc1: bool, inc2: bool)
    requires Agrees(t, kv, rows) && PlainKeys(t, rows) && Sorted(s) && SameKeys(t, kv, s)
    requires 1 <= i < |t.indexes| && TypesOf(v1) == TypesOf(v2) == IndexTypes(t, i)
    ensures |v1| == |v2| == |t.indexes[i]|
    ensures var out := RangeOf(s, BoundsOf(Key(t.prefixes[i], v1), Key(t.prefixes[i], v2), inc1, inc2, i));
      && Sorted(out)
      && (forall x :: x in out ==> exists pk :: Hit(t, rows, i, v1, v2, inc1, inc2, pk, x.key) && PkOf(t, x.key, i) == Some(pk))
      && (forall pk, k :: Hit(t, rows, i, v1, v2, inc1, inc2, pk, k) ==> exists x :: x in out && x.key == k)
  {
    hide Key, RowOk, Tuple, InBounds, BoundsOf, SecKey, PkOf, ToBE, EncAll, Within, KeyOfSome;
    assert |TypesOf(v1)| == |TypesOf(v2)| == |t.indexes[i]|;
    var b := BoundsOf(Key(t.prefixes[i], v1), Key(t.prefixes[i], v2), inc1, inc2, i);
    var out := RangeOf(s, b);
    RangeMembers(s, b);
    forall x | x in out ensures exists pk :: Hit(t, rows, i, v1, v2, inc1, inc2, pk, x.key) && PkOf(t, x.key, i) == Some(pk) {
      BoundsPrefix(t.prefixes[i], v1, v2, inc1, inc2, i, x.key);
      assert Ours(t, x.key);
      var pk := KeyInIndex(t, kv, rows, i, x.key);
      PlainRow(t, kv, rows, pk);
      RowInIndex(t, pk + rows[pk], i, v1, v2, inc1, inc2);
      assert Hit(t, rows, i, v1, v2, inc1, inc2, pk, x.key);
    }
    forall pk, k | Hit(t, rows, i, v1, v2, inc1, inc2, pk, k) ensures exists x :: x in out && x.key == k {
      PlainRow(t, kv, rows, pk);
      StoredKeys(t, kv, rows, pk);
      RowInIndex(t, pk + rows[pk], i, v1, v2, inc1, inc2);
      OursSec(t, pk + rows[pk], i);
      var x :| x in s && x.key == k;
      assert x in out;
    }
  }

  lemma PlainRow(t: TableDef, kv: Contents, rows: RowMap, pk: seq<Value>)
    requires Agrees(t, kv, rows) && PlainKeys(t, rows) && pk in rows
    ensures RowOk(t, pk + rows[pk]) && (pk + rows[pk])[..t.pkeys] == pk && EncAll(pk)[0..1] != [0xff]
    ensures |EncAll((pk + rows[pk])[..t.pkeys])| > 0 && Whole(t, pk)
  {
    hide RowOk, KeyOfSome, EncAll, Whole;
    assert (pk + rows[pk])[..t.pkeys] == pk;
    assert EncAll(pk)[0..1] == [EncAll(pk)[0]];
  }

  /** The primary keys that a scan over index i yields, in scan order: stored, and none of them twice. */
  lemma ScanHits(t: TableDef, kv: Contents, rows: RowMap, s: seq<Pair>, i: nat, v1: seq<Value>, v2: seq<Value>, inc1: bool, inc2: bool)
    returns (hits: seq<seq<Value>>)
    requires Agrees(t, kv, rows) && PlainKeys(t, rows) && Sorted(s) && SameKeys(t, kv, s)
    requires 1 <= i < |t.indexes| && TypesOf(v1) == TypesOf(v2) == IndexTypes(t, i)
    ensures |v1| == |v2| == |t.indexes[i]|
    ensures var out := RangeOf(s, BoundsOf(Key(t.prefixes[i], v1), Key(t.prefixes[i], v2), inc1, inc2, i));
      |hits| == |out| && forall j :: 0 <= j < |out| ==> Hit(t, rows, i, v1, v2, inc1, inc2, hits[j], out[j].key)
    ensures forall j, k :: 0 <= j < k < |hits| ==> hits[j] != hits[k]
    ensures forall pk :: pk in hits <==> pk in rows && |pk + rows[pk]| == |t.cols| && Within(Tuple(t, pk + rows[pk], i), v1, v2, inc1, inc2)
  {
    hide Key, RowOk, Tuple, BoundsOf, RangeOf, SecKey, PkOf, Within, KeyOfSome, Ours, PlainKeys, SameKeys, IndexTypes, Hit, Sorted;
    IndexScan(t, kv, rows, s, i, v1, v2, inc1, inc2);
    var out := RangeOf(s, BoundsOf(Key(t.prefixes[i], v1), Key(t.prefixes[i], v2), inc1, inc2, i));
    hits := CollectHits(t, rows, i, v1, v2, inc1, inc2, out);
    forall pk ensures pk in hits <==> pk in rows && |pk + rows[pk]| == |t.cols| && Within(Tuple(t, pk + rows[pk], i), v1, v2, inc1, inc2) {
      if pk in hits {
        var j :| 0 <= j < |hits| && hits[j] == pk;
        HitFacts(t, rows, i, v1, v2, inc1, inc2, pk, out[j].key);
      }
      if pk in rows && |pk + rows[pk]| == |t.cols| && Within(Tuple(t, pk + rows[pk], i), v1, v2, inc1, inc2) {
        var k := SecKey(t, pk + rows[pk], i);
        assert Hit(t, rows, i, v1, v2, inc1, inc2, pk, k) by { IsHit(t, rows, i, v1, v2, inc1, inc2, pk); }
        var x :| x in out && x.key == k;
        var j :| 0 <= j < |out| && out[j] == x;
        HitFacts(t, rows, i, v1, v2, inc1, inc2, hits[j], k);
        PlainRow(t, kv, rows, pk);
        PlainRow(t, kv, rows, hits[j]);
        SameHit(t, kv, rows, i, pk, hits[j]);
      }
    }
  }

  lemma IsHit(t: TableDef, rows: RowMap, i: nat, v1: seq<Value>, v2: seq<Value>, inc1: bool, inc2: bool, pk: seq<Value>)
    requires TableOk(t) && 1 <= i < |t.indexes| && |v1| == |v2| == |t.indexes[i]|
    requires pk in rows && |pk + rows[pk]| == |t.cols| && Within(Tuple(t, pk + rows[pk], i), v1, v2, inc1, inc2)
    ensures Hit(t, rows, i, v1, v2, inc1, inc2, pk, SecKey(t, pk + rows[pk], i))
  {
  }

  lemma HitFacts(t: TableDef, rows: RowMap, i: nat, v1: seq<Value>, v2: seq<Value>, inc1: bool, inc2: bool, pk: seq<Value>, k: bytes)
    requires TableOk(t) && 1 <= i < |t.indexes| && |v1| == |v2| == |t.indexes[i]| && Hit(t, rows, i, v1, v2, inc1, inc2, pk, k)
    ensures pk in rows && |pk + rows[pk]| == |t.cols| && k == SecKey(t, pk + rows[pk], i)
    ensures Within(Tuple(t, pk + rows[pk], i), v1, v2, inc1, inc2)
  {
  }

  lemma CollectHits(t: TableDef, rows: RowMap, i: nat, v1: seq<Value>, v2: seq<Value>, inc1: bool, inc2: bool, out: seq<Pair>)
    returns (hits: seq<seq<Value>>)
    requires TableOk(t) && 1 <= i < |t.indexes| && |v1| == |v2| == |t.indexes[i]| && Sorted(out)
    requires forall x :: x in out ==> exists pk :: Hit(t, rows, i, v1, v2, inc1, inc2, pk, x.key)
    ensures |hits| == |out| && forall j :: 0 <= j < |out| ==> Hit(t, rows, i, v1, v2, inc1, inc2, hits[j], out[j].key)
    ensures forall j, k :: 0 <= j < k < |hits| ==> hits[j] != hits[k]
  {
    hide Hit, TableOk;
    hits := [];
    for n := 0 to |out|
      invariant |hits| == n && forall j :: 0 <= j < n ==> Hit(t, rows, i, v1, v2, inc1, inc2, hits[j], out[j].key)
    {
      assert out[n] in out;
      var pk :| Hit(t, rows, i, v1, v2, inc1, inc2, pk, out[n].key);
      hits := hits + [pk];
    }
    forall j, k | 0 <= j < k < |hits| ensures hits[j] != hits[k] {
      HitFacts(t, rows, i, v1, v2, inc1, inc2, hits[j], out[j].key);
      HitFacts(t, rows, i, v1, v2, inc1, inc2, hits[k], out[k].key);
      LessTotal(out[j].key, out[k].key);
    }
  }

  /** Two rows with one index key are one row. */
  lemma SameHit(t: TableDef, kv: Contents, rows: RowMap, i: nat, a: seq<Value>, b: seq<Value>)
    requires Agrees(t, kv, rows) && a in rows && b in rows && 1 <= i < |t.indexes|
    requires |a + rows[a]| == |b + rows[b]| == |t.cols| && SecKey(t, a + rows[a], i) == SecKey(t, b + rows[b], i)
    requires |a| == |b| == t.pkeys && Whole(t, a) && Whole(t, b)
    ensures a == b
  {
    hide RowOk, SecKey, KeyOfSome, Whole;
    assert (a + rows[a])[..t.pkeys] == a && (b + rows[b])[..t.pkeys] == b;
    WholeApart(t, a + rows[a], b + rows[b], i);
  }

  /** The order of index keys is that of the indexed values, then of the primary key. */
  lemma IndexOrder(t: TableDef, a: seq<Value>, b: seq<Value>, i: nat)
    requires RowOk(t, a) && RowOk(t, b) && 1 <= i < |t.indexes|
    ensures |IndexEntry(t, a, i)| == |IndexEntry(t, b, i)|
    ensures Whole(t, a[..t.pkeys]) ==> IndexEntry(t, a, i) == Tuple(t, a, i) + a[..t.pkeys]
    ensures Less(SecKey(t, a, i), SecKey(t, b, i)) <==> CompareTuples(IndexEntry(t, a, i), IndexEntry(t, b, i)) < 0
  {
    hide Key, Tuple, Patched, Whole;
    EntryTypes(t, a, i);
    EntryTypes(t, b, i);
    if Whole(t, a[..t.pkeys]) { WholeUp(t, a, i); }
    KeyEmbedding(t.prefixes[i], IndexEntry(t, a, i), IndexEntry(t, b, i));
  }

  /** A scan over the primary key: exactly the rows whose primary keys lie between the given ones. */
  lemma PrimaryScan(t: TableDef, kv: Contents, rows: RowMap, s: seq<Pair>, v1: seq<Value>, v2: seq<Value>, inc1: bool, inc2: bool)
    requires Agrees(t, kv, rows) && Sorted(s) && SameKeys(t, kv, s)
    requires TypesOf(v1) == TypesOf(v2) == t.types[..t.pkeys]
    ensures |v1| == |v2| == t.pkeys
    ensures var out := RangeOf(s, BoundsOf(PrimKey(t, v1), PrimKey(t, v2), inc1, inc2, 0));
      && Sorted(out)
      && (forall x :: x in out ==> exists pk :: pk in rows && |pk| == t.pkeys && x.key == PrimKey(t, pk) && Within(pk, v1, v2, inc1, inc2))
      && (forall pk :: pk in rows && |pk| == t.pkeys && Within(pk, v1, v2, inc1, inc2) ==> exists x :: x in out && x.key == PrimKey(t, pk))
  {
    hide Key, RowOk, InBounds, BoundsOf, SecKey, ToBE, Within, KeyOfSome;
    assert |TypesOf(v1)| == |TypesOf(v2)| == t.pkeys;
    var p := t.prefixes[0];
    var b := BoundsOf(Key(p, v1), Key(p, v2), inc1, inc2, 0);
    var out := RangeOf(s, b);
    RangeMembers(s, b);
    forall x | x in out ensures exists pk :: pk in rows && |pk| == t.pkeys && x.key == PrimKey(t, pk) && Within(pk, v1, v2, inc1, inc2) {
      BoundsPrefix(p, v1, v2, inc1, inc2, 0, x.key);
      assert Ours(t, x.key);
      var pk := KeyInIndex(t, kv, rows, 0, x.key);
      PkOfRow(t, kv, rows, pk);
      PrimaryRange(p, pk, v1, v2, inc1, inc2);
    }
    forall pk | pk in rows && |pk| == t.pkeys && Within(pk, v1, v2, inc1, inc2) ensures exists x :: x in out && x.key == PrimKey(t, pk) {
      PkOfRow(t, kv, rows, pk);
      OursPrim(t, pk);
      PrimaryRange(p, pk, v1, v2, inc1, inc2);
      var x :| x in s && x.key == PrimKey(t, pk);
      assert x in out;
    }
  }

  lemma PkOfRow(t: TableDef, kv: Contents, rows: RowMap, pk: seq<Value>)
    requires Agrees(t, kv, rows) && pk in rows
    ensures TypesOf(pk) == t.types[..t.pkeys] && PrimKey(t, pk) in kv
  {
    hide RowOk, KeyOfSome, Ours;
    PkTypes(t, pk + rows[pk]);
    assert (pk + rows[pk])[..t.pkeys] == pk;
  }
}
