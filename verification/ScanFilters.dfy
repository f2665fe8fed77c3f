/**
 * qlScanFilter (engine/planner.go) on a scanner (db/db.go). The scanner walks the snapshot while the
 * writes go to the transaction; the rows of a secondary index are read through the transaction. A
 * filter is the set of rows it accepts: a row on which it fails is skipped like one it rejects.
 * DecodeVal's reading of a stored value is a parameter.
 */
module ScanFilters {
  import opened Bytes
  import opened SortedRuns
  import opened Trees
  import opened Roots
  import opened Histories
  import opened BTrees
  import opened Iters
  import opened Codecs
  import opened Indexes
  import opened Rows
  import opened Ranges
  import opened Scanners
  import opened Scans

  /** The primary keys that pass the filter, in scan order. */
  function Accepted(hits: seq<Row>, snap: RowMap, keep: Row -> bool): (r: seq<Row>)
    requires forall j :: 0 <= j < |hits| ==> hits[j] in snap
    ensures forall j :: 0 <= j < |r| ==> r[j] in hits && r[j] in snap
  {
    if hits == [] then []
    else
      var a := Accepted(hits[..|hits| - 1], snap, keep);
      var pk := hits[|hits| - 1];
      if keep(pk + snap[pk]) then a + [pk] else a
  }

  /** The first of them, up to the limit. */
  function First(s: seq<Row>, limit: int): seq<Row> { if limit <= 0 then [] else if |s| <= limit then s else s[..limit] }

  lemma {:induction false} AcceptedPrefix(hits: seq<Row>, snap: RowMap, keep: Row -> bool, n: nat)
    requires n <= |hits| && forall j :: 0 <= j < |hits| ==> hits[j] in snap
    ensures Accepted(hits[..n], snap, keep) <= Accepted(hits, snap, keep)
    decreases |hits| - n
  {
    if n < |hits| {
      AcceptedPrefix(hits, snap, keep, n + 1);
      assert hits[..n + 1][..n] == hits[..n];
    } else {
      assert hits[..n] == hits;
    }
  }

  lemma AcceptedSkip(hits: seq<Row>, snap: RowMap, keep: Row -> bool, p: nat)
    requires p < |hits| && (forall j :: 0 <= j < |hits| ==> hits[j] in snap) && !keep(hits[p] + snap[hits[p]])
    ensures Accepted(hits[..p + 1], snap, keep) == Accepted(hits[..p], snap, keep)
  {
    assert hits[..p + 1][..p] == hits[..p];
  }

  lemma AcceptedNext(hits: seq<Row>, snap: RowMap, keep: Row -> bool, p: nat)
    requires p < |hits| && (forall j :: 0 <= j < |hits| ==> hits[j] in snap) && keep(hits[p] + snap[hits[p]])
    ensures Accepted(hits[..p + 1], snap, keep) == Accepted(hits[..p], snap, keep) + [hits[p]]
  {
    assert hits[..p + 1][..p] == hits[..p];
  }

  /** The rows that a scan has still to come to, from position p on, are as the snapshot has them. */
  ghost predicate Ahead(t: TableDef, rows: RowMap, hits: seq<Row>, snap: RowMap, p: nat) {
    && (forall i, j :: 0 <= i < j < |hits| ==> hits[i] != hits[j])
    && (forall j :: 0 <= j < |hits| ==> hits[j] in snap && |hits[j]| == t.pkeys && RowOk(t, hits[j] + snap[hits[j]]))
    && (forall j :: p <= j < |hits| ==> hits[j] in rows && rows[hits[j]] == snap[hits[j]])
  }

  /** A change to the current row alone. */
  lemma StillAhead(t: TableDef, rows: RowMap, hits: seq<Row>, snap: RowMap, p: nat, r: RowMap)
    requires Ahead(t, rows, hits, snap, p) && p < |hits|
    requires forall k :: k in rows && k != hits[p] ==> k in r && r[k] == rows[k]
    ensures Ahead(t, r, hits, snap, p + 1)
  {
    hide RowOk;
  }

  lemma StartAhead(t: TableDef, kv: Contents, rows: RowMap, q: Request, hits: seq<Row>)
    requires Agrees(t, kv, rows) && RequestOk(t, q) && IsScan(t, rows, q, hits)
    ensures Ahead(t, rows, hits, rows, 0) && forall j :: 0 <= j < |hits| ==> hits[j] in rows
  {
    hide RowOk, IsScan, KeyOfSome;
    NoneTwice(t, rows, q, hits);
  }

  /** The pairs from p0 on lead to the hits. */
  ghost predicate Leading(t: TableDef, snap: RowMap, idx: nat, dec: bytes -> Option<Row>, s: seq<Pair>, p0: nat, hits: seq<Row>)
    requires TableOk(t) && idx < |t.indexes|
  {
    p0 + |hits| <= |s| && forall j :: 0 <= j < |hits| ==> Leads(t, snap, idx, dec, s[p0 + j], hits[j])
  }

  lemma LeadingAt(t: TableDef, snap: RowMap, idx: nat, dec: bytes -> Option<Row>, s: seq<Pair>, p0: nat, hits: seq<Row>, j: nat, p: nat)
    requires TableOk(t) && idx < |t.indexes| && Leading(t, snap, idx, dec, s, p0, hits) && j < |hits| && p == p0 + j
    ensures p < |s| && Leads(t, snap, idx, dec, s[p], hits[j])
  {
  }

  lemma PkWidth(t: TableDef, pk: Row)
    requires TableOk(t)
    ensures t.pkeys <= |t.cols| && (|pk| == t.pkeys ==> |t.cols[..t.pkeys]| == |pk|)
  {
  }

  lemma PrimDecodes(t: TableDef, pk: Row)
    requires TableOk(t) && TypesOf(pk) == t.types[..t.pkeys]
    ensures |PrimKey(t, pk)| >= 4 && Decode(PrimKey(t, pk)[4..], t.types[..t.pkeys]) == Some(pk)
  {
    KeyRoundTrip(t.prefixes[0], pk);
  }

  /** What is true of a scanner n pairs into its stretch. */
  lemma StretchAt(s: seq<Pair>, b: Bounds, valid: bool, p0: nat, n: nat, j: nat, p: nat)
    requires Stretch(s, b, valid, p0, n) && j <= n && p == p0 + j
    ensures j < n ==> p < |s| && InBounds(b, s[p].key)
    ensures j == n && n > 0 && p < |s| ==> !InBounds(b, s[p].key)
    ensures n > 0 ==> valid
    ensures n == 0 ==> p0 < |s| && !(valid && InBounds(b, s[p0].key))
  {
    hide InBounds;
  }

  datatype Outcome = OutOfRange | Rejected | Passed(row: Row)

  class ScanFilter {
    const sc: Scanner
    const tx: DBTX
    const dec: bytes -> Option<Row>
    const keep: Row -> bool
    const limit: int
    ghost const snap: RowMap     // the snapshot's rows
    ghost const hits: seq<Row>   // the primary keys before the scanner when it began
    ghost const p0: nat          // where it began
    ghost const began: bool
    ghost var pos: nat           // how many of the hits it has passed
    var idx: int

    /** The scanner stands on the pair of hit p; or behind the last one, and is not valid. */
    ghost predicate Linked(p: nat)
      reads sc.iter, sc.iter.tree, set p | p in sc.iter.tree.pages :: sc.iter.tree.pages[p].buf
    {
      && sc.Ready() && TableOk(tx.t) && sc.index < |tx.t.indexes| && p <= |hits|
      && Stretch(Flat(sc.iter.t), sc.b, began, p0, |hits|) && Leading(tx.t, snap, sc.index, dec, Flat(sc.iter.t), p0, hits)
      && (p < |hits| ==> sc.iter.valid && sc.iter.At() == p0 + p)
      && (p == |hits| ==> !(sc.iter.valid && InBounds(sc.b, Flat(sc.iter.t)[sc.iter.At()].key)))
    }

    /** From position p on, the transaction has not changed what the scan found. */
    ghost predicate Untouched(p: nat)
      reads tx
    {
      tx.Valid() && Ahead(tx.t, tx.rows, hits, snap, p)
    }

    ghost predicate Valid()
      reads this, tx, sc.iter, sc.iter.tree, set p | p in sc.iter.tree.pages :: sc.iter.tree.pages[p].buf
    {
      Linked(pos) && Untouched(pos)
    }

    /** Everything before the current position has been dealt with: idx kept rows. */
    ghost predicate At(done: seq<Row>)
      reads this, tx, sc.iter, sc.iter.tree, set p | p in sc.iter.tree.pages :: sc.iter.tree.pages[p].buf
    {
      && Valid() && done == Accepted(hits[..pos], snap, keep) && |done| == idx
      && (pos < |hits| ==> keep(hits[pos] + snap[hits[pos]]))
    }

    /** The scanner's Valid. */
    method InRange() returns (ok: bool)
      requires Linked(pos)
      ensures ok <==> pos < |hits|
    {
      hide Flat, Sorted, Levels, Shape, InBounds, Stretch, Leading, TableOk;
      if pos < |hits| {
        StretchAt(Flat(sc.iter.t), sc.b, began, p0, |hits|, pos, sc.iter.At());
      }
      ok := sc.Valid();
    }

    /** kvToRecord; None is an error. */
    method KvToRecord(key: bytes, val: bytes, ghost pk: Row) returns (rec: Option<Record>)
      requires tx.Valid() && TableOk(tx.t) && sc.index < |tx.t.indexes| && Leads(tx.t, snap, sc.index, dec, Pair(key, val), pk)
      requires sc.index != 0 && pk in tx.rows ==> tx.rows[pk] == snap[pk]
      ensures rec.None? <==> sc.index != 0 && pk !in tx.rows
      ensures rec.Some? ==> fresh(rec.value) && rec.value.cols == tx.t.cols && rec.value.vals == pk + snap[pk]
    {
      hide Agrees, PkOf, TableOk;
      if sc.index != 0 {
        var r := GetPKFromSecKey(tx.t, key, sc.index);
        PkWidth(tx.t, pk);
        var ok := tx.GetByKey(r.value, pk);
        if !ok { return None; }
        return r;
      }
      rec := PrimRecord(key, val, pk);
    }

    /** kvToRecord on a pair of the primary key. */
    method PrimRecord(key: bytes, val: bytes, ghost pk: Row) returns (rec: Option<Record>)
      requires TableOk(tx.t) && sc.index == 0 && Leads(tx.t, snap, 0, dec, Pair(key, val), pk)
      ensures rec.Some? && fresh(rec.value) && rec.value.cols == tx.t.cols && rec.value.vals == pk + snap[pk]
    {
      hide Key, Decode, TypesOf;
      PrimDecodes(tx.t, pk);
      var keys := DecodeKey(key, tx.t.types[..tx.t.pkeys]);
      var r := new Record([], []);
      for i := 0 to |keys.value|
        invariant fresh(r) && r.cols == tx.t.cols[..i] && r.vals == pk[..i]
      {
        match keys.value[i] {
          case Str(s) => r.AddStr(tx.t.cols[i], s);
          case I64(n) => r.AddI64(tx.t.cols[i], n);
        }
      }
      var vals := dec(val);
      if vals.None? { return None; }
      DecodeVal(tx.t, r, vals.value);
      assert pk[..|pk|] == pk && tx.t.cols[..tx.t.pkeys] + tx.t.cols[tx.t.pkeys..] == tx.t.cols;
      return Some(r);
    }

    /** qlScanIter.Deref */
    method Deref() returns (r: Outcome)
      requires Valid()
      ensures r == if pos == |hits| then OutOfRange
                   else if keep(hits[pos] + snap[hits[pos]]) then Passed(hits[pos] + snap[hits[pos]])
                   else Rejected
    {
      hide RowOk, Agrees, Flat, Sorted, Levels, Shape, Stretch, Leading, TableOk, InBounds, Leads;
      var ok := InRange();
      if !ok { return OutOfRange; }
      ghost var s := Flat(sc.iter.t);
      LeadingAt(tx.t, snap, sc.index, dec, s, p0, hits, pos, sc.iter.At());
      var key, val := sc.iter.Deref();
      var rec := KvToRecord(key, val, hits[pos]);
      if !keep(rec.value.vals) { return Rejected; }
      return Passed(rec.value.vals);
    }

    /** The scanner moves on. */
    method Step()
      requires Linked(pos) && pos < |hits|
      modifies this`pos, sc.iter`path, sc.iter`pos, sc.iter`valid, sc.iter`ptrs
      ensures pos == old(pos) + 1 && Linked(pos)
    {
      hide Flat, Sorted, Levels, Shape, InBounds, Stretch, Leading, TableOk;
      ghost var s, p := Flat(sc.iter.t), sc.iter.At();
      StretchAt(s, sc.b, began, p0, |hits|, pos, p);
      StretchAt(s, sc.b, began, p0, |hits|, pos + 1, p + 1);
      sc.Next();
      pos := pos + 1;
    }

    /** The loop over the rows that the filter rejects. */
    method SkipRejected()
      requires Valid()
      modifies this`pos, sc.iter`path, sc.iter`pos, sc.iter`valid, sc.iter`ptrs
      ensures Valid() && pos >= old(pos) && (pos < |hits| ==> keep(hits[pos] + snap[hits[pos]]))
      ensures Accepted(hits[..pos], snap, keep) == Accepted(hits[..old(pos)], snap, keep)
    {
      hide RowOk, Agrees, Accepted, Stretch, Leading, Leads, InBounds, TableOk, Flat, Sorted, Shape, Levels;
      var r := Deref();
      while r == Rejected
        invariant Valid() && old(pos) <= pos <= |hits|
        invariant r == OutOfRange ==> pos == |hits|
        invariant r.Passed? ==> pos < |hits| && keep(hits[pos] + snap[hits[pos]])
        invariant r == Rejected ==> pos < |hits| && !keep(hits[pos] + snap[hits[pos]])
        invariant Accepted(hits[..pos], snap, keep) == Accepted(hits[..old(pos)], snap, keep)
        decreases |hits| - pos
      {
        r := Pass();
      }
    }

    /** Past a row that the filter rejects. */
    method Pass() returns (r: Outcome)
      requires Valid() && pos < |hits| && !keep(hits[pos] + snap[hits[pos]])
      modifies this`pos, sc.iter`path, sc.iter`pos, sc.iter`valid, sc.iter`ptrs
      ensures Valid() && pos == old(pos) + 1 && pos <= |hits|
      ensures r == if pos == |hits| then OutOfRange
                   else if keep(hits[pos] + snap[hits[pos]]) then Passed(hits[pos] + snap[hits[pos]])
                   else Rejected
      ensures Accepted(hits[..pos], snap, keep) == Accepted(hits[..old(pos)], snap, keep)
    {
      hide RowOk, Agrees, Accepted, Stretch, Leading, Leads, InBounds, TableOk, Flat, Sorted, Shape, Levels;
      AcceptedSkip(hits, snap, keep, pos);
      Step();
      r := Deref();
    }

    /** newQlScanFilter, without an offset, on a new scanner. */
    constructor (sc: Scanner, tx: DBTX, dec: bytes -> Option<Row>, keep: Row -> bool, limit: int, ghost hits: seq<Row>)
      requires sc.Ready() && tx.Valid() && TableOk(tx.t) && sc.index < |tx.t.indexes|
      requires Stretch(Flat(sc.iter.t), sc.b, sc.iter.valid, sc.iter.At(), |hits|)
      requires Leading(tx.t, tx.rows, sc.index, dec, Flat(sc.iter.t), sc.iter.At(), hits)
      requires Ahead(tx.t, tx.rows, hits, tx.rows, 0) && forall j :: 0 <= j < |hits| ==> hits[j] in tx.rows
      modifies sc.iter`path, sc.iter`pos, sc.iter`valid, sc.iter`ptrs
      ensures this.sc == sc && this.tx == tx && this.keep == keep && this.limit == limit && this.hits == hits && snap == tx.rows
      ensures At([])
    {
      hide RowOk, Agrees, Flat, Sorted, Levels, Shape, Stretch, Leading, TableOk, InBounds, Ahead;
      this.sc, this.tx, this.dec, this.keep, this.limit := sc, tx, dec, keep, limit;
      this.snap, this.hits, p0, began := tx.rows, hits, sc.iter.At(), sc.iter.valid;
      pos, idx := 0, 0;
      new;
      assert hits[..0] == [];
      StretchAt(Flat(sc.iter.t), sc.b, began, p0, |hits|, 0, p0);
      SkipRejected();
    }

    method HasNext() returns (b: bool)
      requires Valid()
      ensures b <==> idx < limit && pos < |hits|
    {
      if idx >= limit { return false; }
      b := InRange();
    }

    /** qlScanFilter.Next */
    method Next(ghost done: seq<Row>)
      requires Linked(pos) && pos < |hits| && Untouched(pos + 1) && done == Accepted(hits[..pos], snap, keep) && |done| == idx
      requires keep(hits[pos] + snap[hits[pos]])
      modifies this, sc.iter`path, sc.iter`pos, sc.iter`valid, sc.iter`ptrs
      ensures At(done + [old(hits[pos])]) && pos > old(pos) && idx == old(idx) + 1
    {
      hide RowOk, Agrees, Accepted, Stretch, Leading, InBounds, TableOk, Flat, Sorted, Shape, Levels;
      AcceptedNext(hits, snap, keep, pos);
      idx := idx + 1;
      Step();
      SkipRejected();
    }

    /** Next, and then whether there is one. */
    method Advance(ghost done: seq<Row>) returns (more: bool)
      requires Linked(pos) && pos < |hits| && Untouched(pos + 1) && done == Accepted(hits[..pos], snap, keep) && |done| == idx
      requires keep(hits[pos] + snap[hits[pos]])
      modifies this, sc.iter`path, sc.iter`pos, sc.iter`valid, sc.iter`ptrs
      ensures At(done + [old(hits[pos])]) && pos > old(pos) && (more <==> idx < limit && pos < |hits|)
    {
      hide RowOk, Agrees, Accepted, Stretch, Leading, InBounds, TableOk, Flat, Sorted, Shape, Levels;
      Next(done);
      more := HasNext();
    }

    lemma Here(done: seq<Row>)
      requires At(done)
      ensures Valid() && pos <= |hits| && |done| == idx && done == Accepted(hits[..pos], snap, keep)
      ensures forall j :: 0 <= j < |hits| ==> hits[j] in snap
      ensures pos < |hits| ==> keep(hits[pos] + snap[hits[pos]]) && Untouched(pos + 1)
    {
      hide RowOk, Agrees, Accepted, Stretch, Leading, InBounds, TableOk, Flat, Sorted, Shape, Levels;
    }

    /** qlDelete's step: the current row is read and deleted. */
    method DeleteCurrent() returns (ok: bool)
      requires Valid() && pos < |hits| && keep(hits[pos] + snap[hits[pos]]) && WholeKeys(tx.t, tx.rows)
      modifies tx
      ensures ok && tx.rows == old(tx.rows) - {hits[pos]} && Elsewhere(tx.t, old(tx.kv), tx.kv)
      ensures Linked(pos) && Untouched(pos + 1) && WholeKeys(tx.t, tx.rows)
    {
      hide RowOk, Agrees, Elsewhere, Stretch, Leading, InBounds, TableOk, Flat, Sorted, Shape, Levels;
      var r := Deref();
      ok := DeleteRow(tx, r.row, hits[pos], snap[hits[pos]]);
      StillAhead(tx.t, old(tx.rows), hits, snap, pos, tx.rows);
    }

    /** qlUpdate's step: the current row is read and replaced; no when the set list fails on it. */
    method UpdateCurrent(assign: Row -> Option<Row>) returns (ok: bool)
      requires Valid() && pos < |hits| && keep(hits[pos] + snap[hits[pos]]) && WholeKeys(tx.t, tx.rows)
      requires SetsWell(tx.t, hits, snap, keep, assign)
      modifies tx
      ensures ok <==> assign(hits[pos] + snap[hits[pos]]).Some?
      ensures tx.rows == if ok then old(tx.rows)[hits[pos] := NewColumns(tx.t, hits[pos] + snap[hits[pos]], assign)] else old(tx.rows)
      ensures Linked(pos) && Untouched(pos + 1) && WholeKeys(tx.t, tx.rows) && Elsewhere(tx.t, old(tx.kv), tx.kv)
    {
      hide RowOk, Agrees, Elsewhere, Stretch, Leading, InBounds, TableOk, Flat, Sorted, Shape, Levels, SetsWell;
      var r := Deref();
      var newrec := assign(r.row);
      if newrec.None? {
        NothingElsewhere(tx.t, tx.kv);
        StillAhead(tx.t, tx.rows, hits, snap, pos, tx.rows);
        return false;
      }
      SetRow(tx.t, hits, snap, keep, assign, pos);
      ok := UpdateRow(tx, newrec.value, hits[pos]);
      StillAhead(tx.t, old(tx.rows), hits, snap, pos, tx.rows);
    }
  }

  /** The stored row, read whole, is deleted. */
  method DeleteRow(tx: DBTX, row: Row, ghost pk: Row, ghost vals: Row) returns (ok: bool)
    requires tx.Valid() && WholeKeys(tx.t, tx.rows) && row == pk + vals && pk in tx.rows && tx.rows[pk] == vals
    modifies tx
    ensures tx.Valid() && ok && tx.rows == old(tx.rows) - {pk} && Elsewhere(tx.t, old(tx.kv), tx.kv) && WholeKeys(tx.t, tx.rows)
  {
    hide RowOk, Agrees, Elsewhere, SecKey, Whole, TableOk;
    StoredOwn(tx.t, tx.kv, tx.rows, pk);
    StoredRow(tx.t, tx.kv, tx.rows, pk);
    WholeClean(tx.t, tx.kv, tx.rows, pk, row);
    var rec := new Record(tx.t.cols, row);
    ghost var stop;
    ok, stop := tx.Delete(rec, pk);
  }

  /** A row under the primary key of a stored one takes its place. */
  method UpdateRow(tx: DBTX, row: Row, ghost pk: Row) returns (ok: bool)
    requires tx.Valid() && WholeKeys(tx.t, tx.rows) && RowOk(tx.t, row) && |row| >= tx.t.pkeys && row[..tx.t.pkeys] == pk && pk in tx.rows
    modifies tx
    ensures tx.Valid() && ok && tx.rows == old(tx.rows)[pk := row[tx.t.pkeys..]] && Elsewhere(tx.t, old(tx.kv), tx.kv) && WholeKeys(tx.t, tx.rows)
  {
    hide RowOk, Agrees, Elsewhere, SecKey, Whole, TableOk;
    RowLength(tx.t, row);
    WholeClean(tx.t, tx.kv, tx.rows, pk, row);
    var rec := new Record(tx.t.cols, row);
    ok := tx.Update(rec);
  }

  /**
   * The set list, with the columns it leaves alone: it keeps primary keys, and makes rows of the
   * table's types that can be encoded. None is an error in an expression.
   */
  ghost predicate SetsWell(t: TableDef, hits: seq<Row>, snap: RowMap, keep: Row -> bool, assign: Row -> Option<Row>) {
    forall j :: 0 <= j < |hits| && hits[j] in snap && keep(hits[j] + snap[hits[j]]) && assign(hits[j] + snap[hits[j]]).Some? ==>
      RowOk(t, assign(hits[j] + snap[hits[j]]).value) && hits[j] <= assign(hits[j] + snap[hits[j]]).value && |hits[j]| == t.pkeys
  }

  lemma SetRow(t: TableDef, hits: seq<Row>, snap: RowMap, keep: Row -> bool, assign: Row -> Option<Row>, j: nat)
    requires SetsWell(t, hits, snap, keep, assign) && j < |hits| && hits[j] in snap && keep(hits[j] + snap[hits[j]])
    requires assign(hits[j] + snap[hits[j]]).Some?
    ensures var r := assign(hits[j] + snap[hits[j]]).value;
      RowOk(t, r) && t.pkeys <= |r| && r[..t.pkeys] == hits[j] && r[t.pkeys..] == NewColumns(t, hits[j] + snap[hits[j]], assign)
  {
  }

  ghost function NewColumns(t: TableDef, row: Row, assign: Row -> Option<Row>): Row {
    match assign(row) case None => [] case Some(r) => if t.pkeys <= |r| then r[t.pkeys..] else []
  }

  // ------------------------------------------------------------ the scan of a statement

  /** What a statement asks for: a range, by values for some columns; a filter; and a limit. */
  datatype QLScan = QLScan(idx: nat, cols: seq<string>, start: Row, end: Row, inc1: bool, inc2: bool, keep: Row -> bool, limit: int)

  /** The range names the columns that its index goes by. */
  ghost predicate NamesIndex(t: TableDef, req: QLScan) {
    && TableOk(t) && req.idx < |t.indexes| && |req.cols| == |req.start| == |req.end|
    && (req.idx == 0 ==> t.pkeys <= |req.cols|)
    && (req.idx != 0 ==> forall k :: 0 <= k < |t.indexes[req.idx]| ==> t.indexes[req.idx][k] in req.cols)
  }

  ghost function RequestOf(t: TableDef, req: QLScan): (q: Request)
    requires NamesIndex(t, req)
    ensures q.idx == req.idx
  {
    Request(req.idx, ValuesFor(t, req.cols, req.start, req.idx), ValuesFor(t, req.cols, req.end, req.idx), req.inc1, req.inc2)
  }

  ghost predicate ScanOk(t: TableDef, req: QLScan) {
    && NamesIndex(t, req) && RequestOk(t, RequestOf(t, req))
    && I64(MIN_INT64) !in RequestOf(t, req).v1 && I64(MIN_INT64) !in RequestOf(t, req).v2
  }

  ghost function Pairs(snapshot: BTree): seq<Pair>
    reads snapshot
  {
    if snapshot.tree.None? then [] else Flat(snapshot.tree.value)
  }

  /** A transaction that has written nothing yet, and its snapshot. */
  ghost predicate Opened(tx: DBTX, snapshot: BTree, dec: bytes -> Option<Row>)
    reads tx, snapshot, set p | p in snapshot.pages :: snapshot.pages[p].buf
  {
    && tx.Valid() && snapshot.Valid() && (snapshot.root != 0 ==> WF(snapshot.tree.value))
    && TableOk(tx.t) && Snapshot(tx.t, tx.kv, tx.rows, Pairs(snapshot), dec)
  }

  /**
   * So it is when KV.Begin has made the snapshot's map the transaction's: the keys are those of kv, and
   * under the rows' own keys is what EncodeVal writes, which DecodeVal reads back.
   */
  lemma FromBegin(t: TableDef, kv: Contents, rows: RowMap, o: Option<Tree>, enc: Row -> bytes, dec: bytes -> Option<Row>)
    requires Agrees(t, kv, rows) && (o.Some? ==> WF(o.value)) && UserDict(o).Keys == kv.Keys
    requires forall pk :: pk in rows && PrimKey(t, pk) in UserDict(o) ==> UserDict(o)[PrimKey(t, pk)] == enc(rows[pk])
    requires forall v :: dec(enc(v)) == Some(v)
    ensures Snapshot(t, kv, rows, if o.None? then [] else Flat(o.value), dec)
  {
    hide KeyOfSome, RowOk, Ours, WellFormed, Flat, UserDict, PrimKey, TableOk;
    var s := if o.None? then [] else Flat(o.value);
    if o.Some? { SortedFlat(o.value); }
    forall x, pk | x in s && pk in rows && x.key == PrimKey(t, pk) ensures dec(x.val) == Some(rows[pk]) {
      OursPrim(t, pk);
      BoundTo(t, o, x);
    }
    forall k | Ours(t, k) ensures k in kv <==> exists x :: x in s && x.key == k {
      if x :| x in s && x.key == k { BoundTo(t, o, x); }
      if k in UserDict(o) { HasPair(o, k); }
    }
  }

  lemma BoundTo(t: TableDef, o: Option<Tree>, x: Pair)
    requires o.Some? && WF(o.value) && x in Flat(o.value) && Ours(t, x.key)
    ensures x.key in UserDict(o) && UserDict(o)[x.key] == x.val
  {
    hide Flat, WellFormed;
    var s := Flat(o.value);
    SortedFlat(o.value);
    OursLength(t, x.key);
    var i :| 0 <= i < |s| && s[i] == x;
    DictAt(s, i);
  }

  lemma HasPair(o: Option<Tree>, k: bytes)
    requires k in UserDict(o)
    ensures o.Some? && exists x :: x in Flat(o.value) && x.key == k
  {
    hide Flat;
    var s := Flat(o.value);
    DictKeys(s);
    var i :| 0 <= i < |s| && s[i].key == k;
    assert s[i] in s;
  }

  lemma OursLength(t: TableDef, k: bytes)
    requires Ours(t, k)
    ensures |k| >= 4
  {
  }

  /** The primary scan misses the range. */
  ghost predicate Missed(t: TableDef, s: seq<Pair>, req: QLScan)
    requires NamesIndex(t, req)
  {
    Misses(s, BoundsFor(t, RequestOf(t, req)), req.idx)
  }

  /** NewScanner does not come back. */
  ghost predicate Hung(t: TableDef, snapshot: BTree, req: QLScan)
    requires NamesIndex(t, req)
    reads snapshot
  {
    snapshot.tree.Some? && Hangs(Pairs(snapshot), BoundsFor(t, RequestOf(t, req)))
  }

  datatype Start = Nothing | Started(f: ScanFilter) | Waiting

  /** What a new scanner, on a snapshot of the rows, has before it. */
  lemma ScanBegins(t: TableDef, kv: Contents, rows: RowMap, s: seq<Pair>, req: QLScan, dec: bytes -> Option<Row>, valid: bool, p: nat, hits: seq<Row>)
    requires Agrees(t, kv, rows) && ScanOk(t, req) && Snapshot(t, kv, rows, s, dec) && IsScan(t, rows, RequestOf(t, req), hits)
    requires var out := RangeOf(s, BoundsFor(t, RequestOf(t, req)));
      |hits| == |out| && forall j :: 0 <= j < |out| ==> Leads(t, rows, req.idx, dec, out[j], hits[j])
    requires AtStart(s, BoundsFor(t, RequestOf(t, req)), req.idx, valid, p)
    ensures var found := if Missed(t, s, req) then [] else hits;
      && Stretch(s, BoundsFor(t, RequestOf(t, req)), valid, p, |found|) && Leading(t, rows, req.idx, dec, s, p, found)
      && Ahead(t, rows, found, rows, 0) && forall j :: 0 <= j < |found| ==> found[j] in rows
  {
    hide Agrees, RangeOf, AtStart, Misses, IsScan, Leads, Stretch, Ahead, Key, ValuesFor, RequestOk, SameKeys, PrimKey, BoundsFor;
    var q := RequestOf(t, req);
    var b := BoundsFor(t, q);
    var n := ScanPart(s, b, req.idx, valid, p);
    StartAhead(t, kv, rows, q, hits);
    NoneAhead(t, rows);
    StretchInside(s, b, valid, p, n);
    var part := s[p..p + n];
    assert |part| == n && forall j :: 0 <= j < n ==> part[j] == s[p + j];
  }

  lemma StretchInside(s: seq<Pair>, b: Bounds, valid: bool, p: nat, n: nat)
    requires Stretch(s, b, valid, p, n)
    ensures p + n <= |s|
  {
  }

  lemma NoneAhead(t: TableDef, rows: RowMap)
    ensures Ahead(t, rows, [], rows, 0)
  {
  }

  lemma NothingSelected(t: TableDef, s: seq<Pair>, req: QLScan)
    requires NamesIndex(t, req) && s == []
    ensures RangeOf(s, BoundsFor(t, RequestOf(t, req))) == []
  {
  }

  /** qlScanInit: the scanner of the range. */
  method ScanInit(t: TableDef, snapshot: BTree, req: QLScan, turns: nat) returns (r: Begun)
    requires snapshot.Valid() && (snapshot.root != 0 ==> WF(snapshot.tree.value)) && ScanOk(t, req)
    ensures r.NoRoot? <==> snapshot.tree.None?
    ensures Hung(t, snapshot, req) ==> r == Looping
    ensures turns >= |Pairs(snapshot)| ==> (r == Looping <==> Hung(t, snapshot, req))
    ensures r.Began? ==> fresh(r.sc) && fresh(r.sc.iter) && r.sc.index == req.idx && r.sc.b == BoundsFor(t, RequestOf(t, req))
    ensures r.Began? ==> r.sc.Ready() && r.sc.iter.tree == snapshot && snapshot.tree == Some(r.sc.iter.t)
    ensures r.Began? ==> AtStart(Pairs(snapshot), r.sc.b, req.idx, r.sc.iter.valid, r.sc.iter.At())
  {
    hide Levels, Shape, Flat, Sorted, AtStart, WF, ValuesFor, RequestOk, Hangs, Key, BoundsOf;
    var startRec := new Record(req.cols, req.start);
    var endRec := new Record(req.cols, req.end);
    r := Scanner.NewScanner(t, snapshot, startRec, endRec, req.inc1, req.inc2, req.idx, turns);
  }

  /** newQlScanFilter */
  method Begin(tx: DBTX, snapshot: BTree, req: QLScan, dec: bytes -> Option<Row>, turns: nat) returns (st: Start, ghost hits: seq<Row>)
    requires Opened(tx, snapshot, dec) && ScanOk(tx.t, req) && (req.idx != 0 ==> PlainKeys(tx.t, tx.rows))
    ensures IsScan(tx.t, tx.rows, RequestOf(tx.t, req), hits)
    ensures Hung(tx.t, snapshot, req) ==> st.Waiting?
    ensures turns >= |Pairs(snapshot)| ==> (st.Waiting? <==> Hung(tx.t, snapshot, req))
    ensures st.Nothing? ==> hits == []
    ensures st.Started? ==> fresh(st.f) && fresh(st.f.sc.iter) && st.f.sc.iter.tree == snapshot
    ensures st.Started? ==> st.f.tx == tx && st.f.keep == req.keep && st.f.limit == req.limit && st.f.snap == tx.rows && st.f.At([])
    ensures st.Started? ==> st.f.hits == if Missed(tx.t, Pairs(snapshot), req) then [] else hits
  {
    hide RowOk, Agrees, Levels, Shape, Flat, Sorted, AtStart, Missed, WF, RangeOf, RequestOf, Stretch, Leading, RequestOk, IsScan, Snapshot, Hung, PlainKeys, BoundsFor, Leads, Ahead;
    ghost var q, s := RequestOf(tx.t, req), Pairs(snapshot);
    hits := HitsOf(tx.t, tx.kv, tx.rows, s, q, dec);
    var r := ScanInit(tx.t, snapshot, req, turns);
    if r.NoRoot? {
      NothingSelected(tx.t, s, req);
      return Nothing, hits;
    }
    if r.Looping? { return Waiting, hits; }
    ghost var found := if Missed(tx.t, s, req) then [] else hits;
    ScanBegins(tx.t, tx.kv, tx.rows, s, req, dec, r.sc.iter.valid, r.sc.iter.At(), hits);
    var f := new ScanFilter(r.sc, tx, dec, req.keep, req.limit, found);
    st := Started(f);
  }
}
