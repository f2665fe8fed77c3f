/**
 * Statements on a table with one row, 5: a DELETE of 3 to 9 that deletes nothing, and one of more than
 * 5, up to 9, that does not come back.
 */
module ScanWitnesses {
  import opened Bytes
  import opened SortedRuns
  import opened Trees
  import opened Roots
  import opened Histories
  import opened BTrees
  import opened Codecs
  import opened Indexes
  import opened Rows
  import opened Ranges
  import opened Scanners
  import opened Scans
  import opened ScanFilters
  import Statements

  function ById(): TableDef { TableDef(["id", "age"], [TInt, TInt], 1, [10], [["id"]]) }

  const FIVE: Row := [I64(5)]
  const ROW: Row := [I64(5), I64(7)]

  function IdKey(n: int64): bytes { Key(10, [I64(n)]) }

  /** Keys of numbers are 12 bytes, ordered as the numbers. */
  lemma IdKeys(m: int64, n: int64)
    ensures |IdKey(m)| == 12 && IdKey(m) != [] && TypesOf([I64(m)]) == [TInt]
    ensures Less(IdKey(m), IdKey(n)) <==> m < n
    ensures IdKey(m) == IdKey(n) <==> m == n
  {
    hide EncAll, ToBE;
    var a: Row, b: Row := [I64(m)], [I64(n)];
    KeyEmbedding(10, a, b);
    assert a[1..] == [] && b[1..] == [];
    IdLength(m);
  }

  lemma IdLength(m: int64)
    ensures |IdKey(m)| == 12
  {
    var a: Row := [I64(m)];
    assert a[1..] == [] && EncAll(a[1..]) == [];
    assert EncAll(a) == Enc(a[0]) + EncAll(a[1..]);
  }

  lemma Table()
    ensures TableOk(ById()) && RowOk(ById(), ROW)
  {
    var t := ById();
    assert t.cols[0] != t.cols[1];
    assert TypesOf(ROW) == [TypeOf(ROW[0]), TypeOf(ROW[1])];
    assert "id" in t.cols;
  }

  /** The tree with the row's entry. */
  lemma OneRowTree(val: bytes)
    requires |val| <= 1000
    ensures var t := InsertRoot(None, IdKey(5), val);
      SmallPair(Pair(IdKey(5), val)) && WF(t) && Flat(t) == [SENTINEL, Pair(IdKey(5), val)] && Sorted(Flat(t))
  {
    IdKeys(5, 5);
    FirstTree(IdKey(5), val);
  }

  /** The row alone agrees with the map of its entry, and with the snapshot's pairs. */
  lemma OneRowShown(kv: Contents, val: bytes, dec: bytes -> Option<Row>)
    requires Agrees(ById(), kv, map[FIVE := [I64(7)]]) && dec(val) == Some([I64(7)])
    requires Sorted([SENTINEL, Pair(IdKey(5), val)])
    ensures TableOk(ById()) && Snapshot(ById(), kv, map[FIVE := [I64(7)]], [SENTINEL, Pair(IdKey(5), val)], dec)
  {
    hide Key, RowOk, KeyOfSome, Ours;
    Table();
    var t, s, rows := ById(), [SENTINEL, Pair(IdKey(5), val)], map[FIVE := [I64(7)]];
    IdKeys(5, 5);
    assert PrimKey(t, FIVE) == IdKey(5);
    forall k | Ours(t, k) ensures k in kv <==> exists x :: x in s && x.key == k {
      NotEmpty(k);
      assert s[1] in s && s[1].key == IdKey(5);
      OnlyKey(k);
    }
  }

  lemma NotEmpty(k: bytes)
    requires Ours(ById(), k)
    ensures k != []
  {
    assert |ToBE(10, 4)| == 4;
  }

  lemma OnlyKey(k: bytes)
    requires TableOk(ById())
    ensures KeyOfSome(ById(), map[FIVE := [I64(7)]], k) <==> k == IdKey(5)
  {
    hide Key;
    var rows: RowMap := map[FIVE := [I64(7)]];
    assert FIVE + rows[FIVE] == ROW && ROW[..1] == FIVE;
    assert KeyOfRow(ById(), ROW, k) <==> k == IdKey(5);
  }

  /** The row, in a transaction. */
  method OneRowTx() returns (tx: DBTX)
    ensures fresh(tx) && tx.Valid() && tx.t == ById() && tx.rows == map[FIVE := [I64(7)]] && WholeKeys(tx.t, tx.rows)
  {
    hide Agrees, RowOk, Key, SecKey;
    Table();
    tx := new DBTX(ById());
    assert ROW[..1] == FIVE && ROW[1..] == [I64(7)];
    InsertRow(tx, ROW, FIVE);
  }

  /** The row's entry, in a tree. */
  method OneRowPages(val: bytes) returns (snapshot: BTree)
    requires |val| <= 1000
    ensures fresh(snapshot) && snapshot.Valid() && snapshot.root != 0 && snapshot.tree == Some(InsertRoot(None, IdKey(5), val))
  {
    hide Key, Flat, Sorted, SmallPair, InsertRoot, WF;
    snapshot := new BTree();
    OneRowTree(val);
    IdKeys(5, 5);
    snapshot.Insert(IdKey(5), val);
  }

  /** A table with one row, committed: the transaction and its snapshot. */
  method OneRow(val: bytes, ghost dec: bytes -> Option<Row>) returns (tx: DBTX, snapshot: BTree)
    requires |val| <= 1000 && dec(val) == Some([I64(7)])
    ensures fresh(tx) && fresh(snapshot) && Opened(tx, snapshot, dec)
    ensures tx.t == ById() && TableOk(tx.t) && tx.rows == map[FIVE := [I64(7)]] && WholeKeys(tx.t, tx.rows)
    ensures snapshot.root != 0 && Pairs(snapshot) == [SENTINEL, Pair(IdKey(5), val)]
  {
    hide Agrees, RowOk, Key, Flat, Sorted, SmallPair, InsertRoot, WF, Snapshot, WholeKeys, TableOk;
    Table();
    tx := OneRowTx();
    snapshot := OneRowPages(val);
    OneRowTree(val);
    OneRowShown(tx.kv, val, dec);
  }

  function Range(m: int64, n: int64, inc: bool): QLScan { QLScan(0, ["id"], [I64(m)], [I64(n)], inc, true, _ => true, 10) }

  lemma RangeOk(m: int64, n: int64, inc: bool)
    requires m != MIN_INT64 && n != MIN_INT64
    ensures TableOk(ById()) && ScanOk(ById(), Range(m, n, inc))
    ensures RequestOf(ById(), Range(m, n, inc)) == Request(0, [I64(m)], [I64(n)], inc, true)
    ensures m < n ==> BoundsFor(ById(), RequestOf(ById(), Range(m, n, inc))) == Bounds(IdKey(m), IdKey(n), inc, true)
  {
    hide Key;
    Table();
    var t, req := ById(), Range(m, n, inc);
    assert req.start[..1] == [I64(m)] && req.end[..1] == [I64(n)];
    assert TypesOf([I64(m)]) == t.types[..1] == TypesOf([I64(n)]);
    IdKeys(m, n);
    CompareAntisym(IdKey(m), IdKey(n));
  }

  /** 3 to 9: the row is in the range. */
  lemma RowWanted()
    ensures TableOk(ById()) && RequestOk(ById(), Request(0, [I64(3)], [I64(9)], true, true))
    ensures IsScan(ById(), map[FIVE := [I64(7)]], Request(0, [I64(3)], [I64(9)], true, true), [FIVE])
  {
    Table();
    RangeOk(3, 9, true);
    var t, rows, q := ById(), map[FIVE := [I64(7)]], Request(0, [I64(3)], [I64(9)], true, true);
    assert FIVE + rows[FIVE] == ROW && ROW[..1] == FIVE;
    assert Wanted(t, rows, q, FIVE);
  }

  /** But its scan begins in front of it, at the sentinel, where a scanner is not valid. */
  lemma RangeMissed(val: bytes)
    ensures TableOk(ById()) && NamesIndex(ById(), Range(3, 9, true))
    ensures Missed(ById(), [SENTINEL, Pair(IdKey(5), val)], Range(3, 9, true))
  {
    hide Key;
    RangeOk(3, 9, true);
    IdKeys(3, 5);
    var s := [SENTINEL, Pair(IdKey(5), val)];
    EmptyIsLeast(IdKey(3));
    assert Less(s[0].key, IdKey(3));
  }

  /** DELETE of 3 to 9: the row 5 stays. */
  method MissedDelete(val: bytes, dec: bytes -> Option<Row>, turns: nat) returns (tx: DBTX, back: bool, count: nat)
    requires |val| <= 1000 && dec(val) == Some([I64(7)]) && turns >= 2
    ensures back && count == 0 && FIVE in tx.rows && tx.t == ById()
    ensures TableOk(tx.t) && RequestOk(tx.t, Request(0, [I64(3)], [I64(9)], true, true))
    ensures Wanted(tx.t, tx.rows, Request(0, [I64(3)], [I64(9)], true, true), FIVE)
  {
    hide Agrees, RowOk, Key, Flat, Sorted, Snapshot, Missed, Hung, IsScan, Wanted, RequestOf, RequestOk, BoundsFor, ScanOk;
    var snapshot;
    tx, snapshot := OneRow(val, dec);
    RangeOk(3, 9, true);
    RangeMissed(val);
    NotHung(snapshot, 3, 9);
    var ok;
    ghost var hits;
    back, count, ok, hits := Statements.Delete(tx, snapshot, Range(3, 9, true), dec, turns);
    Statements.WithoutNone(map[FIVE := [I64(7)]]);
    RowWanted();
    ScanHolds(map[FIVE := [I64(7)]], Request(0, [I64(3)], [I64(9)], true, true), FIVE);
  }

  lemma ScanHolds(rows: RowMap, q: Request, pk: Row)
    requires RequestOk(ById(), q) && IsScan(ById(), rows, q, [pk])
    ensures Wanted(ById(), rows, q, pk)
  {
    hide Wanted;
    assert pk in [pk];
  }

  lemma NotHung(snapshot: BTree, m: int64, n: int64)
    requires m != MIN_INT64 && n != MIN_INT64 && m < n
    ensures TableOk(ById()) && NamesIndex(ById(), Range(m, n, true)) && !Hung(ById(), snapshot, Range(m, n, true))
  {
    RangeOk(m, n, true);
  }

  /** DELETE of more than 5, up to 9: nothing stored is above 5, and however long one waits, it does not come back. */
  method HungDelete(val: bytes, dec: bytes -> Option<Row>, turns: nat) returns (back: bool)
    requires |val| <= 1000 && dec(val) == Some([I64(7)])
    ensures !back
  {
    hide Agrees, RowOk, Key, Flat, Sorted, Snapshot, Missed, IsScan, RequestOf, RequestOk, BoundsFor, ScanOk;
    var tx, snapshot := OneRow(val, dec);
    RangeOk(5, 9, false);
    NothingAbove(val);
    var count, ok;
    ghost var hits;
    back, count, ok, hits := Statements.Delete(tx, snapshot, Range(5, 9, false), dec, turns);
  }

  lemma NothingAbove(val: bytes)
    ensures TableOk(ById()) && NamesIndex(ById(), Range(5, 9, false))
    ensures Hangs([SENTINEL, Pair(IdKey(5), val)], BoundsFor(ById(), RequestOf(ById(), Range(5, 9, false))))
  {
    hide Key;
    RangeOk(5, 9, false);
    IdKeys(5, 5);
    LessTotal([], IdKey(5));
    EmptyIsLeast(IdKey(5));
  }
}
