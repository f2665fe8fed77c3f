/** SELECT, UPDATE and DELETE (engine/executor.go): loops over a scan that reads, or writes to the transaction, as it goes. */
module Statements {
  import opened Bytes
  import opened SortedRuns
  import opened Trees
  import opened Roots
  import opened BTrees
  import opened Iters
  import opened Indexes
  import opened Rows
  import opened Ranges
  import opened Scans
  import opened ScanFilters

  /** The output expressions fail on one of the rows. */
  ghost predicate Fails(out: seq<Row>, snap: RowMap, project: Row -> Option<Row>) {
    exists j :: 0 <= j < |out| && out[j] in snap && project(out[j] + snap[out[j]]) == None
  }

  /** res is what they yield, row by row. */
  ghost predicate Projected(out: seq<Row>, snap: RowMap, project: Row -> Option<Row>, res: seq<Row>) {
    |res| == |out| && forall j :: 0 <= j < |out| ==> out[j] in snap && project(out[j] + snap[out[j]]) == Some(res[j])
  }

  lemma NoneProjected(snap: RowMap, project: Row -> Option<Row>)
    ensures Projected([], snap, project, [])
  {
  }

  lemma OneProjected(out: seq<Row>, snap: RowMap, project: Row -> Option<Row>, res: seq<Row>, pk: Row, r: Row)
    requires Projected(out, snap, project, res) && pk in snap && project(pk + snap[pk]) == Some(r)
    ensures Projected(out + [pk], snap, project, res + [r])
  {
  }

  lemma FailsAt(out: seq<Row>, snap: RowMap, project: Row -> Option<Row>, j: nat)
    requires j < |out| && out[j] in snap && project(out[j] + snap[out[j]]) == None
    ensures Fails(out, snap, project)
  {
  }

  /** When no more rows are asked for, or none are left, what has been done is all that was to be done. */
  lemma Finished(hits: seq<Row>, snap: RowMap, keep: Row -> bool, limit: int, pos: nat, done: seq<Row>)
    requires pos <= |hits| && (forall j :: 0 <= j < |hits| ==> hits[j] in snap) && done == Accepted(hits[..pos], snap, keep)
    requires (|done| >= limit || pos == |hits|) && (limit <= 0 ==> done == []) && (limit > 0 ==> |done| <= limit)
    ensures done == First(Accepted(hits, snap, keep), limit)
  {
    AcceptedPrefix(hits, snap, keep, pos);
    assert pos == |hits| ==> hits[..pos] == hits;
  }

  /** The current row is the next of the rows that a statement acts on. */
  lemma Current(hits: seq<Row>, snap: RowMap, keep: Row -> bool, limit: int, pos: nat, done: seq<Row>)
    requires forall j :: 0 <= j < |hits| ==> hits[j] in snap
    requires pos < |hits| && done == Accepted(hits[..pos], snap, keep) && keep(hits[pos] + snap[hits[pos]]) && |done| < limit
    ensures var out := First(Accepted(hits, snap, keep), limit); |done| < |out| && out[|done|] == hits[pos] && done == out[..|done|]
  {
    var n := pos + 1;
    AcceptedPrefix(hits, snap, keep, n);
    AcceptedPrefix(hits, snap, keep, pos);
    AcceptedNext(hits, snap, keep, pos);
  }

  /** The current row is projected, and the scan goes on to the next one; it stops where the projection fails. */
  method TakeRow(f: ScanFilter, project: Row -> Option<Row>, ghost done: seq<Row>) returns (rec: Option<Row>, more: bool)
    requires f.At(done) && f.pos < |f.hits|
    modifies f, f.sc.iter`path, f.sc.iter`pos, f.sc.iter`valid, f.sc.iter`ptrs
    ensures var pk := f.hits[old(f.pos)];
      && pk in f.snap && rec == project(pk + f.snap[pk])
      && (rec.Some? ==> f.At(done + [pk]) && f.pos > old(f.pos) && (more <==> f.idx < f.limit && f.pos < |f.hits|))
  {
    hide RowOk, Agrees, Accepted, Stretch, Leading, InBounds, Ahead, TableOk, Flat, Sorted, Shape, Levels;
    f.Here(done);
    var r := f.Deref();
    rec := project(r.row);
    if rec.None? { return None, false; }
    more := f.Advance(done);
  }

  /** The loop of a SELECT. */
  method SelectRows(f: ScanFilter, project: Row -> Option<Row>) returns (res: Option<seq<Row>>)
    requires f.At([])
    modifies f, f.sc.iter`path, f.sc.iter`pos, f.sc.iter`valid, f.sc.iter`ptrs
    ensures forall j :: 0 <= j < |f.hits| ==> f.hits[j] in f.snap
    ensures var out := First(Accepted(f.hits, f.snap, f.keep), f.limit);
      if res.None? then Fails(out, f.snap, project) else Projected(out, f.snap, project, res.value)
  {
    hide RowOk, Agrees, Accepted, First, Projected, Fails, Stretch, Leading, InBounds, Ahead, TableOk, Flat, Sorted, Shape, Levels;
    NoneProjected(f.snap, project);
    var resArr := [];
    ghost var done := [];
    f.Here(done);
    var more := f.HasNext();
    while more
      invariant f.At(done) && (more <==> f.idx < f.limit && f.pos < |f.hits|)
      invariant (f.limit <= 0 ==> done == []) && (f.limit > 0 ==> f.idx <= f.limit)
      invariant Projected(done, f.snap, project, resArr)
      decreases |f.hits| - f.pos
    {
      f.Here(done);
      Current(f.hits, f.snap, f.keep, f.limit, f.pos, done);
      ghost var pk := f.hits[f.pos];
      var rec;
      rec, more := TakeRow(f, project, done);
      if rec.None? {
        FailsAt(First(Accepted(f.hits, f.snap, f.keep), f.limit), f.snap, project, |done|);
        return None;
      }
      OneProjected(done, f.snap, project, resArr, pk, rec.value);
      resArr := resArr + [rec.value];
      done := done + [pk];
      f.Here(done);
    }
    f.Here(done);
    Finished(f.hits, f.snap, f.keep, f.limit, f.pos, done);
    return Some(resArr);
  }

  /** The rows that a statement acts on: the first of those in its range that its filter accepts; none when the scan misses the range. */
  ghost function Acted(hits: seq<Row>, rows: RowMap, req: QLScan, missed: bool): seq<Row>
    requires forall j :: 0 <= j < |hits| ==> hits[j] in rows
  {
    if missed then [] else First(Accepted(hits, rows, req.keep), req.limit)
  }

  datatype Selected = Pending | Failed | Rows(rows: seq<Row>)

  /**
   * SELECT: the rows of the range, in the order of its index, that pass the filter, up to the limit,
   * projected. The scan does not come back exactly when it hangs, and finds nothing when it misses.
   */
  method Select(tx: DBTX, snapshot: BTree, req: QLScan, dec: bytes -> Option<Row>, project: Row -> Option<Row>, turns: nat)
    returns (res: Selected, ghost hits: seq<Row>)
    requires Opened(tx, snapshot, dec) && ScanOk(tx.t, req) && (req.idx != 0 ==> PlainKeys(tx.t, tx.rows))
    ensures IsScan(tx.t, tx.rows, RequestOf(tx.t, req), hits) && forall j :: 0 <= j < |hits| ==> hits[j] in tx.rows
    ensures Hung(tx.t, snapshot, req) ==> res == Pending
    ensures turns >= |Pairs(snapshot)| ==> (res == Pending <==> Hung(tx.t, snapshot, req))
    ensures var out := Acted(hits, tx.rows, req, Missed(tx.t, Pairs(snapshot), req));
      match res case Pending => true case Failed => Fails(out, tx.rows, project) case Rows(rs) => Projected(out, tx.rows, project, rs)
  {
    hide RowOk, Agrees, Accepted, Projected, Fails, ScanFilter.At, Levels, Shape, Flat, Sorted, Missed, Hung, WF, RequestOf, RequestOk, IsScan, Snapshot, PlainKeys;
    var st;
    st, hits := Begin(tx, snapshot, req, dec, turns);
    ScanStored(tx.t, tx.rows, RequestOf(tx.t, req), hits);
    match st {
      case Waiting => return Pending, hits;
      case Nothing =>
        NoneProjected(tx.rows, project);
        NoneAccepted(tx.rows, req.keep, req.limit);
        return Rows([]), hits;
      case Started(f) =>
        NoneAccepted(tx.rows, req.keep, req.limit);
        var r := SelectRows(f, project);
        if r.None? { return Failed, hits; }
        return Rows(r.value), hits;
    }
  }

  lemma ScanStored(t: TableDef, rows: RowMap, q: Request, hits: seq<Row>)
    requires RequestOk(t, q) && IsScan(t, rows, q, hits)
    ensures forall j :: 0 <= j < |hits| ==> hits[j] in rows
  {
    NoneTwice(t, rows, q, hits);
  }

  lemma NoneAccepted(rows: RowMap, keep: Row -> bool, limit: int)
    ensures First(Accepted([], rows, keep), limit) == []
  {
  }

  // ------------------------------------------------------------ DELETE

  /** The transaction's rows once done has been deleted. */
  function Without(rows: RowMap, done: seq<Row>): RowMap { rows - (set pk | pk in done) }

  lemma WithoutNone(rows: RowMap)
    ensures Without(rows, []) == rows
  {
    assert (set pk: Row | pk in []) == {};
  }

  lemma WithoutOne(rows: RowMap, done: seq<Row>, pk: Row)
    ensures Without(rows, done + [pk]) == Without(rows, done) - {pk}
  {
  }

  lemma WithoutSome(rows: RowMap, done: seq<Row>)
    requires done != [] && done[0] in rows
    ensures Without(rows, done) != rows
  {
    assert done[0] in done && done[0] !in Without(rows, done);
  }

  /** The current row is deleted, and the scan goes on to the next one. */
  method DropCurrent(f: ScanFilter, tx: DBTX, ghost done: seq<Row>) returns (ok: bool, more: bool)
    requires f.At(done) && f.pos < |f.hits| && f.tx == tx && WholeKeys(tx.t, tx.rows)
    modifies tx, f, f.sc.iter`path, f.sc.iter`pos, f.sc.iter`valid, f.sc.iter`ptrs
    ensures ok && tx.rows == old(tx.rows) - {f.hits[old(f.pos)]} && Elsewhere(tx.t, old(tx.kv), tx.kv) && WholeKeys(tx.t, tx.rows)
    ensures f.At(done + [f.hits[old(f.pos)]]) && f.pos > old(f.pos) && (more <==> f.idx < f.limit && f.pos < |f.hits|)
  {
    hide RowOk, Agrees, Accepted, Stretch, Leading, InBounds, Ahead, TableOk, Flat, Sorted, Shape, Levels, Elsewhere, WholeKeys;
    f.Here(done);
    ok := f.DeleteCurrent();
    more := f.Advance(done);
  }

  /** The loop of a DELETE. */
  method DeleteRows(f: ScanFilter, tx: DBTX) returns (count: nat, ok: bool)
    requires f.At([]) && f.tx == tx && tx.rows == f.snap && WholeKeys(tx.t, tx.rows)
    modifies tx, f, f.sc.iter`path, f.sc.iter`pos, f.sc.iter`valid, f.sc.iter`ptrs
    ensures forall j :: 0 <= j < |f.hits| ==> f.hits[j] in f.snap
    ensures tx.Valid() && ok && Elsewhere(tx.t, old(tx.kv), tx.kv)
    ensures var out := First(Accepted(f.hits, f.snap, f.keep), f.limit); tx.rows == Without(f.snap, out) && count == |out|
  {
    hide RowOk, Agrees, Accepted, First, Stretch, Leading, InBounds, Ahead, TableOk, Flat, Sorted, Shape, Levels, Elsewhere, Without, WholeKeys;
    count := 0;
    ghost var done, kv0 := [], tx.kv;
    NothingElsewhere(tx.t, tx.kv);
    WithoutNone(f.snap);
    f.Here(done);
    var more := f.HasNext();
    while more
      invariant f.At(done) && (more <==> f.idx < f.limit && f.pos < |f.hits|) && count == |done|
      invariant (f.limit <= 0 ==> done == []) && (f.limit > 0 ==> f.idx <= f.limit)
      invariant WholeKeys(tx.t, tx.rows) && tx.rows == Without(f.snap, done) && Elsewhere(tx.t, kv0, tx.kv)
      decreases |f.hits| - f.pos
    {
      f.Here(done);
      ghost var pk, kv1 := f.hits[f.pos], tx.kv;
      ok, more := DropCurrent(f, tx, done);
      if !ok { return count, ok; }
      ElsewhereTrans(tx.t, kv0, kv1, tx.kv);
      WithoutOne(f.snap, done, pk);
      done := done + [pk];
      count := count + 1;
      f.Here(done);
    }
    f.Here(done);
    Finished(f.hits, f.snap, f.keep, f.limit, f.pos, done);
    ok := true;
  }

  /**
   * DELETE: exactly the rows of the range that the filter accepts, up to the limit, are deleted, each
   * once, unless the scan misses the range: then none is.
   */
  method Delete(tx: DBTX, snapshot: BTree, req: QLScan, dec: bytes -> Option<Row>, turns: nat)
    returns (back: bool, count: nat, ok: bool, ghost hits: seq<Row>)
    requires Opened(tx, snapshot, dec) && ScanOk(tx.t, req) && WholeKeys(tx.t, tx.rows) && (req.idx != 0 ==> PlainKeys(tx.t, tx.rows))
    modifies tx
    ensures IsScan(tx.t, old(tx.rows), RequestOf(tx.t, req), hits) && forall j :: 0 <= j < |hits| ==> hits[j] in old(tx.rows)
    ensures Hung(tx.t, snapshot, req) ==> !back
    ensures turns >= |Pairs(snapshot)| ==> (!back <==> Hung(tx.t, snapshot, req))
    ensures !back ==> tx.rows == old(tx.rows) && tx.kv == old(tx.kv)
    ensures back ==> tx.Valid() && ok && Elsewhere(tx.t, old(tx.kv), tx.kv)
    ensures back ==> var out := Acted(hits, old(tx.rows), req, Missed(tx.t, Pairs(snapshot), req));
      tx.rows == Without(old(tx.rows), out) && count == |out|
    ensures back ==> var all := Acted(hits, old(tx.rows), req, false);
      tx.rows == Without(old(tx.rows), all) <==> !Missed(tx.t, Pairs(snapshot), req) || all == []
  {
    hide RowOk, Agrees, Accepted, First, ScanFilter.At, Levels, Shape, Flat, Sorted, Missed, Hung, WF, RequestOf, RequestOk, IsScan, Snapshot, PlainKeys, Without, WholeKeys, Elsewhere;
    ghost var rows := tx.rows;
    var st;
    st, hits := Begin(tx, snapshot, req, dec, turns);
    ScanStored(tx.t, rows, RequestOf(tx.t, req), hits);
    NoneAccepted(rows, req.keep, req.limit);
    WithoutNone(rows);
    ghost var all := Acted(hits, rows, req, false);
    if all != [] {
      AllStored(hits, rows, req);
      WithoutSome(rows, all);
    }
    back, count, ok := true, 0, true;
    match st {
      case Waiting => back := false;
      case Nothing => NothingElsewhere(tx.t, tx.kv);
      case Started(f) => count, ok := DeleteRows(f, tx);
    }
  }

  lemma AllStored(hits: seq<Row>, rows: RowMap, req: QLScan)
    requires forall j :: 0 <= j < |hits| ==> hits[j] in rows
    ensures forall j :: 0 <= j < |Acted(hits, rows, req, false)| ==> Acted(hits, rows, req, false)[j] in rows
  {
  }

  // ------------------------------------------------------------ UPDATE

  /** rows with those of done rewritten from what they were. */
  ghost function Rewritten(t: TableDef, rows: RowMap, done: seq<Row>, assign: Row -> Option<Row>): RowMap {
    map pk | pk in rows :: if pk in done then NewColumns(t, pk + rows[pk], assign) else rows[pk]
  }

  lemma RewrittenNone(t: TableDef, rows: RowMap, assign: Row -> Option<Row>)
    ensures Rewritten(t, rows, [], assign) == rows
  {
  }

  lemma RewrittenOne(t: TableDef, rows: RowMap, done: seq<Row>, assign: Row -> Option<Row>, pk: Row)
    requires pk in rows
    ensures Rewritten(t, rows, done + [pk], assign) == Rewritten(t, rows, done, assign)[pk := NewColumns(t, pk + rows[pk], assign)]
  {
    hide NewColumns;
  }

  /** done is all that was to be rewritten; or the set list fails on the row behind it. */
  ghost predicate Ended(ok: bool, done: seq<Row>, all: seq<Row>, rows: RowMap, assign: Row -> Option<Row>) {
    if ok then done == all
    else |done| < |all| && done == all[..|done|] && all[|done|] in rows && assign(all[|done|] + rows[all[|done|]]) == None
  }

  /** The current row is rewritten, and the scan goes on to the next one; it stops where the set list fails. */
  method RewriteRow(f: ScanFilter, tx: DBTX, assign: Row -> Option<Row>, ghost done: seq<Row>) returns (ok: bool, more: bool)
    requires f.At(done) && f.pos < |f.hits| && f.tx == tx && WholeKeys(tx.t, tx.rows) && SetsWell(tx.t, f.hits, f.snap, f.keep, assign)
    requires f.hits[f.pos] in f.snap
    modifies tx, f, f.sc.iter`path, f.sc.iter`pos, f.sc.iter`valid, f.sc.iter`ptrs
    ensures tx.Valid() && Elsewhere(tx.t, old(tx.kv), tx.kv) && WholeKeys(tx.t, tx.rows)
    ensures var pk := f.hits[old(f.pos)];
      && (ok <==> assign(pk + f.snap[pk]).Some?)
      && (tx.rows == if ok then old(tx.rows)[pk := NewColumns(tx.t, pk + f.snap[pk], assign)] else old(tx.rows))
      && (ok ==> f.At(done + [pk]) && f.pos > old(f.pos) && (more <==> f.idx < f.limit && f.pos < |f.hits|))
  {
    hide RowOk, Agrees, Accepted, Stretch, Leading, InBounds, Ahead, TableOk, Flat, Sorted, Shape, Levels, Elsewhere, WholeKeys, SetsWell, NewColumns;
    f.Here(done);
    ok := f.UpdateCurrent(assign);
    if !ok { return false, false; }
    more := f.Advance(done);
  }

  /** The loop of an UPDATE. */
  method UpdateRows(f: ScanFilter, tx: DBTX, assign: Row -> Option<Row>) returns (ok: bool, ghost done: seq<Row>)
    requires f.At([]) && f.tx == tx && tx.rows == f.snap && WholeKeys(tx.t, tx.rows) && SetsWell(tx.t, f.hits, f.snap, f.keep, assign)
    modifies tx, f, f.sc.iter`path, f.sc.iter`pos, f.sc.iter`valid, f.sc.iter`ptrs
    ensures forall j :: 0 <= j < |f.hits| ==> f.hits[j] in f.snap
    ensures tx.Valid() && Elsewhere(tx.t, old(tx.kv), tx.kv) && tx.rows == Rewritten(tx.t, f.snap, done, assign)
    ensures Ended(ok, done, First(Accepted(f.hits, f.snap, f.keep), f.limit), f.snap, assign)
  {
    hide RowOk, Agrees, Accepted, First, Stretch, Leading, InBounds, Ahead, TableOk, Flat, Sorted, Shape, Levels, Elsewhere, Rewritten, WholeKeys, SetsWell, NewColumns;
    done := [];
    ghost var kv0 := tx.kv;
    NothingElsewhere(tx.t, tx.kv);
    RewrittenNone(tx.t, f.snap, assign);
    f.Here(done);
    var more := f.HasNext();
    while more
      invariant f.At(done) && (more <==> f.idx < f.limit && f.pos < |f.hits|)
      invariant (f.limit <= 0 ==> done == []) && (f.limit > 0 ==> f.idx <= f.limit)
      invariant WholeKeys(tx.t, tx.rows) && tx.rows == Rewritten(tx.t, f.snap, done, assign) && Elsewhere(tx.t, kv0, tx.kv)
      decreases |f.hits| - f.pos
    {
      f.Here(done);
      ghost var pk, kv1 := f.hits[f.pos], tx.kv;
      Current(f.hits, f.snap, f.keep, f.limit, f.pos, done);
      var updated;
      updated, more := RewriteRow(f, tx, assign, done);
      ElsewhereTrans(tx.t, kv0, kv1, tx.kv);
      if !updated { return false, done; }
      RewrittenOne(tx.t, f.snap, done, assign, pk);
      done := done + [pk];
      f.Here(done);
    }
    f.Here(done);
    Finished(f.hits, f.snap, f.keep, f.limit, f.pos, done);
    ok := true;
  }

  /** The set list does well on every row of the range. */
  ghost predicate AssignsWell(t: TableDef, rows: RowMap, keep: Row -> bool, assign: Row -> Option<Row>) {
    forall pk :: pk in rows && keep(pk + rows[pk]) && assign(pk + rows[pk]).Some? ==>
      RowOk(t, assign(pk + rows[pk]).value) && pk <= assign(pk + rows[pk]).value && |pk| == t.pkeys
  }

  lemma AssignsHits(t: TableDef, rows: RowMap, hits: seq<Row>, keep: Row -> bool, assign: Row -> Option<Row>)
    requires AssignsWell(t, rows, keep, assign)
    ensures SetsWell(t, hits, rows, keep, assign)
  {
  }

  /**
   * UPDATE: exactly the rows of the range that the filter accepts, up to the limit, are rewritten, each
   * once and from what it was when the statement began, unless the scan misses the range: then none is.
   * When the set list fails on a row, those before it have been rewritten.
   */
  method Update(tx: DBTX, snapshot: BTree, req: QLScan, dec: bytes -> Option<Row>, assign: Row -> Option<Row>, turns: nat)
    returns (back: bool, ok: bool, ghost hits: seq<Row>, ghost done: seq<Row>)
    requires Opened(tx, snapshot, dec) && ScanOk(tx.t, req) && WholeKeys(tx.t, tx.rows) && (req.idx != 0 ==> PlainKeys(tx.t, tx.rows))
    requires AssignsWell(tx.t, tx.rows, req.keep, assign)
    modifies tx
    ensures IsScan(tx.t, old(tx.rows), RequestOf(tx.t, req), hits) && forall j :: 0 <= j < |hits| ==> hits[j] in old(tx.rows)
    ensures Hung(tx.t, snapshot, req) ==> !back
    ensures turns >= |Pairs(snapshot)| ==> (!back <==> Hung(tx.t, snapshot, req))
    ensures !back ==> tx.rows == old(tx.rows) && tx.kv == old(tx.kv)
    ensures back ==> tx.Valid() && Elsewhere(tx.t, old(tx.kv), tx.kv) && tx.rows == Rewritten(tx.t, old(tx.rows), done, assign)
    ensures back ==> Ended(ok, done, Acted(hits, old(tx.rows), req, Missed(tx.t, Pairs(snapshot), req)), old(tx.rows), assign)
  {
    hide RowOk, Agrees, Accepted, First, ScanFilter.At, Levels, Shape, Flat, Sorted, Missed, Hung, WF, RequestOf, RequestOk, IsScan, Snapshot, PlainKeys, Rewritten, WholeKeys, Elsewhere, AssignsWell, SetsWell;
    ghost var rows := tx.rows;
    var st;
    st, hits := Begin(tx, snapshot, req, dec, turns);
    ScanStored(tx.t, rows, RequestOf(tx.t, req), hits);
    NoneAccepted(rows, req.keep, req.limit);
    RewrittenNone(tx.t, rows, assign);
    back, ok, done := true, true, [];
    match st {
      case Waiting => back := false;
      case Nothing => NothingElsewhere(tx.t, tx.kv);
      case Started(f) =>
        AssignsHits(tx.t, rows, f.hits, req.keep, assign);
        ok, done := UpdateRows(f, tx, assign);
    }
  }
}
