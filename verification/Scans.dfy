/**
 * What a scan finds (db/db.go, engine/planner.go): the rows of a range in the order of an index, and
 * where their keys stand among the pairs of the snapshot.
 */
module Scans {
  import opened Bytes
  import opened SortedRuns
  import opened Codecs
  import opened Indexes
  import opened Rows
  import opened Ranges
  import opened Scanners

  type Row = seq<Value>

  /** A range of an index, or of the primary key, which is index 0. */
  datatype Request = Request(idx: nat, v1: Row, v2: Row, inc1: bool, inc2: bool)

  ghost predicate RequestOk(t: TableDef, q: Request) {
    && TableOk(t) && q.idx < |t.indexes|
    && TypesOf(q.v1) == TypesOf(q.v2) == (if q.idx == 0 then t.types[..t.pkeys] else IndexTypes(t, q.idx))
  }

  ghost function BoundsFor(t: TableDef, q: Request): Bounds
    requires TableOk(t) && q.idx < |t.indexes|
  {
    BoundsOf(Key(t.prefixes[q.idx], q.v1), Key(t.prefixes[q.idx], q.v2), q.inc1, q.inc2, q.idx)
  }

  /** The values that index idx goes by. */
  ghost function Sought(t: TableDef, row: Row, idx: nat): Row
    requires TableOk(t) && |row| == |t.cols| && idx < |t.indexes|
  {
    if idx == 0 then row[..t.pkeys] else Tuple(t, row, idx)
  }

  /** A stored row whose values lie within the range. */
  ghost predicate Wanted(t: TableDef, rows: RowMap, q: Request, pk: Row)
    requires RequestOk(t, q)
  {
    && pk in rows && |pk| == t.pkeys && |pk + rows[pk]| == |t.cols|
    && |q.v1| == |q.v2| == |Sought(t, pk + rows[pk], q.idx)|
    && Within(Sought(t, pk + rows[pk], q.idx), q.v1, q.v2, q.inc1, q.inc2)
  }

  /** By the values of index idx, and then by the primary key. */
  ghost predicate Precedes(t: TableDef, rows: RowMap, idx: nat, a: Row, b: Row)
    requires TableOk(t) && idx < |t.indexes|
  {
    && a in rows && b in rows && |a + rows[a]| == |b + rows[b]| == |t.cols|
    && var x, y := Sought(t, a + rows[a], idx) + a, Sought(t, b + rows[b], idx) + b;
       |x| == |y| && CompareTuples(x, y) < 0
  }

  /** The primary keys of the rows in the range, in order. */
  ghost predicate IsScan(t: TableDef, rows: RowMap, q: Request, hits: seq<Row>)
    requires RequestOk(t, q)
  {
    && (forall pk :: pk in hits <==> Wanted(t, rows, q, pk))
    && (forall j, k :: 0 <= j < k < |hits| ==> Precedes(t, rows, q.idx, hits[j], hits[k]))
  }

  // ------------------------------------------------------------ the order is one, and so is the scan

  lemma {:induction false} TuplesBefore(a: Row, b: Row, x: Row, y: Row)
    requires |a| == |b| && |x| == |y|
    ensures CompareTuples(a + x, b + y) == if CompareTuples(a, b) != 0 then CompareTuples(a, b) else CompareTuples(x, y)
  {
    if a == [] {
      assert a + x == x && b + y == y;
    } else {
      assert (a + x)[1..] == a[1..] + x && (b + y)[1..] == b[1..] + y;
      assert (a + x)[0] == a[0] && (b + y)[0] == b[0];
      TuplesBefore(a[1..], b[1..], x, y);
      if a[0].Str? && b[0].Str? { CompareZero(a[0].s, b[0].s); }
    }
  }

  lemma {:induction false} TuplesBack(a: Row, b: Row)
    requires |a| == |b|
    ensures CompareTuples(a, b) < 0 ==> CompareTuples(b, a) >= 0
  {
    if a != [] {
      TuplesBack(a[1..], b[1..]);
      if a[0].Str? && b[0].Str? {
        CompareAntisym(a[0].s, b[0].s);
        CompareZero(a[0].s, b[0].s);
      }
    }
  }

  lemma NotBack(t: TableDef, rows: RowMap, idx: nat, a: Row, b: Row)
    requires TableOk(t) && idx < |t.indexes| && Precedes(t, rows, idx, a, b)
    ensures !Precedes(t, rows, idx, b, a)
  {
    hide CompareTuples, Sought;
    TuplesBack(Sought(t, a + rows[a], idx) + a, Sought(t, b + rows[b], idx) + b);
  }

  lemma TailWithout(t: TableDef, rows: RowMap, idx: nat, g: seq<Row>)
    requires TableOk(t) && idx < |t.indexes| && g != [] && forall j, k :: 0 <= j < k < |g| ==> Precedes(t, rows, idx, g[j], g[k])
    ensures g == [g[0]] + g[1..] && g[0] !in g[1..]
    ensures forall pk :: pk in g[1..] <==> pk in g && pk != g[0]
  {
    hide Precedes;
    if j :| 1 <= j < |g| && g[j] == g[0] { NotBack(t, rows, idx, g[0], g[j]); }
  }

  /** Two lists of the same rows in the same strict order. */
  lemma {:induction false} SameList(t: TableDef, rows: RowMap, idx: nat, g: seq<Row>, h: seq<Row>)
    requires TableOk(t) && idx < |t.indexes| && forall pk :: pk in g <==> pk in h
    requires forall j, k :: 0 <= j < k < |g| ==> Precedes(t, rows, idx, g[j], g[k])
    requires forall j, k :: 0 <= j < k < |h| ==> Precedes(t, rows, idx, h[j], h[k])
    ensures g == h
  {
    hide Precedes;
    assert (g == [] || g[0] in g) && (h == [] || h[0] in h);
    if g != [] && h != [] {
      var m :| 0 <= m < |h| && h[m] == g[0];
      var n :| 0 <= n < |g| && g[n] == h[0];
      if m > 0 && n > 0 { NotBack(t, rows, idx, g[0], h[0]); }
      TailWithout(t, rows, idx, g);
      TailWithout(t, rows, idx, h);
      SameList(t, rows, idx, g[1..], h[1..]);
    }
  }

  /** A range has one scan. */
  lemma OneScan(t: TableDef, rows: RowMap, q: Request, g: seq<Row>, h: seq<Row>)
    requires RequestOk(t, q) && IsScan(t, rows, q, g) && IsScan(t, rows, q, h)
    ensures g == h
  {
    hide Precedes, Wanted;
    SameList(t, rows, q.idx, g, h);
  }

  lemma NoneTwice(t: TableDef, rows: RowMap, q: Request, hits: seq<Row>)
    requires RequestOk(t, q) && IsScan(t, rows, q, hits)
    ensures forall i, j :: 0 <= i < j < |hits| ==> hits[i] != hits[j]
    ensures forall j :: 0 <= j < |hits| ==> hits[j] in rows && |hits[j]| == t.pkeys && |hits[j] + rows[hits[j]]| == |t.cols|
  {
    hide Sought;
    forall i, j | 0 <= i < j < |hits| ensures hits[i] != hits[j] { NotBack(t, rows, q.idx, hits[i], hits[j]); }
    forall j | 0 <= j < |hits| ensures Wanted(t, rows, q, hits[j]) { assert hits[j] in hits; }
  }

  // ------------------------------------------------------------ the snapshot's pairs

  /** s holds kv: the keys under the table's prefixes, and values that DecodeVal reads as the rows' columns. */
  ghost predicate Snapshot(t: TableDef, kv: Contents, rows: RowMap, s: seq<Pair>, dec: bytes -> Option<Row>)
    requires TableOk(t)
  {
    && Sorted(s) && SameKeys(t, kv, s)
    && forall x, pk :: x in s && pk in rows && x.key == PrimKey(t, pk) ==> dec(x.val) == Some(rows[pk])
  }

  /** The pair leads kvToRecord to the row under pk. */
  ghost predicate Leads(t: TableDef, rows: RowMap, idx: nat, dec: bytes -> Option<Row>, x: Pair, pk: Row)
    requires TableOk(t) && idx < |t.indexes|
  {
    && pk in rows && |pk| == t.pkeys && TypesOf(pk) == t.types[..t.pkeys] && I64(MIN_INT64) !in pk
    && |rows[pk]| == |t.cols| - t.pkeys
    && if idx == 0 then x.key == PrimKey(t, pk) && dec(x.val) == Some(rows[pk]) else PkOf(t, x.key, idx) == Some(pk)
  }

  /** The pairs within the bounds are those of the rows in the range, in order, and each leads to its row. */
  lemma HitsOf(t: TableDef, kv: Contents, rows: RowMap, s: seq<Pair>, q: Request, dec: bytes -> Option<Row>) returns (hits: seq<Row>)
    requires Agrees(t, kv, rows) && RequestOk(t, q) && Snapshot(t, kv, rows, s, dec) && (q.idx != 0 ==> PlainKeys(t, rows))
    ensures IsScan(t, rows, q, hits)
    ensures var out := RangeOf(s, BoundsFor(t, q));
      |hits| == |out| && forall j :: 0 <= j < |out| ==> Leads(t, rows, q.idx, dec, out[j], hits[j])
  {
    hide Agrees, RangeOf, PlainKeys, BoundsOf, Key;
    if q.idx == 0 {
      hits := PrimaryHits(t, kv, rows, s, q, dec);
    } else {
      hits := IndexHits(t, kv, rows, s, q, dec);
    }
  }

  lemma StoredRow(t: TableDef, kv: Contents, rows: RowMap, pk: Row)
    requires Agrees(t, kv, rows) && pk in rows
    ensures |pk| == t.pkeys && TypesOf(pk) == t.types[..t.pkeys] && I64(MIN_INT64) !in pk && |rows[pk]| == |t.cols| - t.pkeys
    ensures |pk + rows[pk]| == |t.cols| && RowOk(t, pk + rows[pk]) && (pk + rows[pk])[..t.pkeys] == pk
  {
    hide RowOk, KeyOfSome;
    StoredOwn(t, kv, rows, pk);
    NoPanics(t, pk + rows[pk]);
  }

  lemma PrimaryHits(t: TableDef, kv: Contents, rows: RowMap, s: seq<Pair>, q: Request, dec: bytes -> Option<Row>) returns (hits: seq<Row>)
    requires Agrees(t, kv, rows) && RequestOk(t, q) && Snapshot(t, kv, rows, s, dec) && q.idx == 0
    ensures IsScan(t, rows, q, hits)
    ensures var out := RangeOf(s, BoundsFor(t, q));
      |hits| == |out| && forall j :: 0 <= j < |out| ==> Leads(t, rows, 0, dec, out[j], hits[j])
  {
    hide Agrees, RangeOf, BoundsFor, Key, RowOk, TypesOf, PrimKey, Sorted, SameKeys, Inside, IsPrim;
    var out := RangeOf(s, BoundsFor(t, q));
    PrimaryFound(t, kv, rows, s, q);
    hits := [];
    for n := 0 to |out|
      invariant |hits| == n && forall j :: 0 <= j < n ==> IsPrim(t, rows, q, out[j].key, hits[j])
    {
      assert out[n] in out;
      var pk :| IsPrim(t, rows, q, out[n].key, pk);
      hits := hits + [pk];
    }
    forall j | 0 <= j < |out| ensures Leads(t, rows, 0, dec, out[j], hits[j]) {
      assert out[j] in out;
      PrimLeads(t, kv, rows, s, q, dec, out[j], hits[j]);
    }
    PrimaryIsScan(t, kv, rows, q, out, hits);
  }

  ghost predicate IsPrim(t: TableDef, rows: RowMap, q: Request, k: bytes, pk: Row)
    requires TableOk(t)
  {
    pk in rows && k == PrimKey(t, pk) && Inside(q, pk)
  }

  /** PrimaryScan, for a request. */
  lemma PrimaryFound(t: TableDef, kv: Contents, rows: RowMap, s: seq<Pair>, q: Request)
    requires Agrees(t, kv, rows) && RequestOk(t, q) && Sorted(s) && SameKeys(t, kv, s) && q.idx == 0
    ensures var out := RangeOf(s, BoundsFor(t, q));
      && Sorted(out) && (forall x :: x in out ==> x in s && exists pk :: IsPrim(t, rows, q, x.key, pk))
      && (forall pk :: pk in rows && |pk| == t.pkeys && Inside(q, pk) ==> exists x :: x in out && x.key == PrimKey(t, pk))
  {
    hide Agrees, RangeOf, BoundsOf, Key, Within, RowOk, TypesOf, SameKeys, Sorted, InBounds;
    PrimaryScan(t, kv, rows, s, q.v1, q.v2, q.inc1, q.inc2);
    assert BoundsFor(t, q) == BoundsOf(PrimKey(t, q.v1), PrimKey(t, q.v2), q.inc1, q.inc2, 0);
    var out := RangeOf(s, BoundsFor(t, q));
    RangeMembers(s, BoundsFor(t, q));
    forall x | x in out ensures exists pk :: IsPrim(t, rows, q, x.key, pk) {
      var pk :| pk in rows && |pk| == t.pkeys && x.key == PrimKey(t, pk) && Within(pk, q.v1, q.v2, q.inc1, q.inc2);
      assert IsPrim(t, rows, q, x.key, pk);
    }
  }

  lemma PrimLeads(t: TableDef, kv: Contents, rows: RowMap, s: seq<Pair>, q: Request, dec: bytes -> Option<Row>, x: Pair, pk: Row)
    requires Agrees(t, kv, rows) && Snapshot(t, kv, rows, s, dec) && x in s && IsPrim(t, rows, q, x.key, pk) && |t.indexes| > 0
    ensures Leads(t, rows, 0, dec, x, pk)
  {
    hide Agrees, Key, RowOk, TypesOf, PrimKey, Sorted, SameKeys, Inside;
    StoredRow(t, kv, rows, pk);
  }

  lemma PrimaryIsScan(t: TableDef, kv: Contents, rows: RowMap, q: Request, out: seq<Pair>, hits: seq<Row>)
    requires Agrees(t, kv, rows) && RequestOk(t, q) && q.idx == 0 && Sorted(out) && |hits| == |out|
    requires forall j :: 0 <= j < |out| ==> IsPrim(t, rows, q, out[j].key, hits[j])
    requires forall pk :: pk in rows && |pk| == t.pkeys && Inside(q, pk) ==> exists x :: x in out && x.key == PrimKey(t, pk)
    ensures IsScan(t, rows, q, hits)
  {
    hide Agrees, Key, RowOk, TypesOf, CompareTuples, PrimKey, Inside;
    forall pk ensures pk in hits <==> Wanted(t, rows, q, pk) {
      if pk in rows {
        StoredRow(t, kv, rows, pk);
        WantedInside(t, rows, q, pk);
      }
      if Wanted(t, rows, q, pk) {
        var x :| x in out && x.key == PrimKey(t, pk);
        var j :| 0 <= j < |out| && out[j] == x;
        StoredRow(t, kv, rows, hits[j]);
        SamePrim(t, pk, hits[j]);
      }
    }
    forall j, k | 0 <= j < k < |hits| ensures Precedes(t, rows, 0, hits[j], hits[k]) {
      StoredRow(t, kv, rows, hits[j]);
      StoredRow(t, kv, rows, hits[k]);
      assert Less(out[j].key, out[k].key);
      PrimBefore(t, rows, hits[j], hits[k]);
    }
  }

  lemma SamePrim(t: TableDef, a: Row, b: Row)
    requires TableOk(t) && TypesOf(a) == TypesOf(b) && PrimKey(t, a) == PrimKey(t, b)
    ensures a == b
  {
    KeysDiffer(t.prefixes[0], t.prefixes[0], a, b);
  }

  lemma PrimBefore(t: TableDef, rows: RowMap, a: Row, b: Row)
    requires TableOk(t) && |t.indexes| > 0 && a in rows && b in rows && TypesOf(a) == TypesOf(b) && |a| == |b| == t.pkeys
    requires |a + rows[a]| == |b + rows[b]| == |t.cols| && Less(PrimKey(t, a), PrimKey(t, b))
    ensures Precedes(t, rows, 0, a, b)
  {
    hide Key, CompareTuples;
    assert (a + rows[a])[..t.pkeys] == a && (b + rows[b])[..t.pkeys] == b;
    KeyEmbedding(t.prefixes[0], a, b);
    TuplesBefore(a, b, a, b);
  }

  lemma WantedInside(t: TableDef, rows: RowMap, q: Request, pk: Row)
    requires RequestOk(t, q) && q.idx == 0 && pk in rows && |pk| == t.pkeys && |pk + rows[pk]| == |t.cols|
    ensures Wanted(t, rows, q, pk) <==> Inside(q, pk)
  {
    assert (pk + rows[pk])[..t.pkeys] == pk;
  }

  ghost predicate Inside(q: Request, pk: Row) { |pk| == |q.v1| == |q.v2| && Within(pk, q.v1, q.v2, q.inc1, q.inc2) }

  lemma IndexHits(t: TableDef, kv: Contents, rows: RowMap, s: seq<Pair>, q: Request, dec: bytes -> Option<Row>) returns (hits: seq<Row>)
    requires Agrees(t, kv, rows) && RequestOk(t, q) && Snapshot(t, kv, rows, s, dec) && PlainKeys(t, rows) && q.idx != 0
    ensures IsScan(t, rows, q, hits)
    ensures var out := RangeOf(s, BoundsFor(t, q));
      |hits| == |out| && forall j :: 0 <= j < |out| ==> Leads(t, rows, q.idx, dec, out[j], hits[j])
  {
    hide Agrees, RangeOf, BoundsOf, Key, Within, RowOk, TypesOf, CompareTuples, PlainKeys, SecKey, PkOf, Whole, Tuple;
    var b := BoundsFor(t, q);
    var out := RangeOf(s, b);
    RangeMembers(s, b);
    hits := ScanHits(t, kv, rows, s, q.idx, q.v1, q.v2, q.inc1, q.inc2);
    forall j | 0 <= j < |out| ensures Leads(t, rows, q.idx, dec, out[j], hits[j]) {
      StoredRow(t, kv, rows, hits[j]);
      LeadsBack(t, kv, rows, q, hits[j], out[j].key);
    }
    forall pk ensures pk in hits <==> Wanted(t, rows, q, pk) {
      if pk in rows { StoredRow(t, kv, rows, pk); }
    }
    forall j, k | 0 <= j < k < |hits| ensures Precedes(t, rows, q.idx, hits[j], hits[k]) {
      InOrder(t, kv, rows, q, hits[j], hits[k], out[j].key, out[k].key);
    }
  }

  lemma LeadsBack(t: TableDef, kv: Contents, rows: RowMap, q: Request, pk: Row, k: bytes)
    requires Agrees(t, kv, rows) && RequestOk(t, q) && PlainKeys(t, rows) && q.idx != 0
    requires |q.v1| == |q.v2| == |t.indexes[q.idx]| && Hit(t, rows, q.idx, q.v1, q.v2, q.inc1, q.inc2, pk, k)
    ensures PkOf(t, k, q.idx) == Some(pk)
  {
    hide Key, Within, RowOk, SecKey, PkOf, Agrees, Whole, Patched, TypesOf, EncAll, EmptyPk;
    StoredRow(t, kv, rows, pk);
    PlainRow(t, kv, rows, pk);
    RowLength(t, pk + rows[pk]);
    PkOfRowKey(t, pk + rows[pk], q.idx);
  }

  lemma PkOfRowKey(t: TableDef, row: Row, i: nat)
    requires RowOk(t, row) && |row| == |t.cols| && 1 <= i < |t.indexes| && Whole(t, row[..t.pkeys])
    ensures PkOf(t, SecKey(t, row, i), i) == Some(row[..t.pkeys])
  {
    hide SecKey, PkOf, Whole, EmptyPk;
    PkOfSecKey(t, row, i);
    WholeUp(t, row, i);
  }

  lemma InOrder(t: TableDef, kv: Contents, rows: RowMap, q: Request, a: Row, b: Row, k: bytes, l: bytes)
    requires Agrees(t, kv, rows) && RequestOk(t, q) && PlainKeys(t, rows) && q.idx != 0 && |q.v1| == |q.v2| == |t.indexes[q.idx]|
    requires Hit(t, rows, q.idx, q.v1, q.v2, q.inc1, q.inc2, a, k) && Hit(t, rows, q.idx, q.v1, q.v2, q.inc1, q.inc2, b, l) && Less(k, l)
    ensures Precedes(t, rows, q.idx, a, b)
  {
    hide Key, Within, RowOk, SecKey, KeyOfSome, Less, Whole, CompareTuples, Tuple;
    StoredRow(t, kv, rows, a);
    StoredRow(t, kv, rows, b);
    PlainRow(t, kv, rows, a);
    PlainRow(t, kv, rows, b);
    IndexOrder(t, a + rows[a], b + rows[b], q.idx);
    IndexOrder(t, b + rows[b], a + rows[a], q.idx);
  }

  // ------------------------------------------------------------ where a scanner stands

  /** From position p on, n pairs are within the bounds, and no next one is; with none, a scanner at p is not valid. */
  ghost predicate Stretch(s: seq<Pair>, b: Bounds, valid: bool, p: nat, n: nat) {
    && p < |s| && p + n <= |s| && (forall j :: p <= j < p + n ==> InBounds(b, s[j].key))
    && (if n == 0 then !(valid && InBounds(b, s[p].key)) else valid && (p + n < |s| ==> !InBounds(b, s[p + n].key)))
  }

  /** What a new scanner has before it: the pairs of the range, or nothing if it misses them. */
  lemma ScanPart(s: seq<Pair>, b: Bounds, idx: nat, valid: bool, p: nat) returns (n: nat)
    requires Sorted(s) && AtStart(s, b, idx, valid, p)
    ensures Stretch(s, b, valid, p, n)
    ensures s[p..p + n] == if Misses(s, b, idx) then [] else RangeOf(s, b)
  {
    hide InBounds, AtStart, Misses, RangeOf, Sorted;
    assert p < |s| by { StartInside(s, b, idx, valid, p); }
    n := 0;
    if valid {
      while p + n < |s| && InBounds(b, s[p + n].key)
        invariant p + n <= |s| && forall j :: p <= j < p + n ==> InBounds(b, s[j].key)
      {
        n := n + 1;
      }
    }
    VisitedAll(s, b, idx, valid, p, p + n);
  }

  lemma StartInside(s: seq<Pair>, b: Bounds, idx: nat, valid: bool, p: nat)
    requires AtStart(s, b, idx, valid, p)
    ensures p < |s|
  {
  }
}
