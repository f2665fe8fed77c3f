/**
 * Rows and their index entries (db/db.go): Insert, Update, Upsert and Delete on the map of a
 * transaction. What EncodeVal writes is taken to be what DecodeVal reads back, so the map holds the
 * column values themselves.
 */
module Rows {
  import opened Bytes
  import opened Codecs
  import opened Indexes

  /** What is stored under a key: the columns that EncodeVal wrote, or, for an index entry, the empty string. */
  datatype Cell = Columns(vals: seq<Value>) | EmptyString

  type Contents = map<bytes, Cell>
  type RowMap = map<seq<Value>, seq<Value>>  // primary keys to the other columns

  function LastIndex(t: TableDef): nat
    requires |t.indexes| > 0
  {
    |t.indexes| - 1
  }

  /** A row of the table's types, that EncodeKey can encode. */
  ghost predicate RowOk(t: TableDef, row: seq<Value>) {
    && TableOk(t) && TypesOf(row) == t.types && |row| == |t.cols|
    && (forall j :: 0 <= j < |row| && (j < t.pkeys || Indexed(t, j, LastIndex(t))) ==> row[j] != I64(MIN_INT64))
  }

  ghost function PrimKey(t: TableDef, pk: seq<Value>): bytes
    requires TableOk(t)
  {
    Key(t.prefixes[0], pk)
  }

  /** k is the row's own key, or its key in an index. */
  ghost predicate KeyOfRow(t: TableDef, row: seq<Value>, k: bytes)
    requires TableOk(t) && |row| == |t.cols|
  {
    k == PrimKey(t, row[..t.pkeys]) || IndexKeyOf(t, row, |t.indexes|, k)
  }

  /** k is the row's key in one of the indexes before n. */
  ghost predicate IndexKeyOf(t: TableDef, row: seq<Value>, n: nat, k: bytes)
    requires TableOk(t) && |row| == |t.cols| && n <= |t.indexes|
  {
    exists i :: 1 <= i < n && k == SecKey(t, row, i)
  }

  /** k starts with one of the table's prefixes. */
  ghost predicate Ours(t: TableDef, k: bytes) {
    exists i :: 0 <= i < |t.prefixes| && ToBE(t.prefixes[i], 4) <= k
  }

  /** k starts with the prefix of a secondary index. */
  ghost predicate OfIndex(t: TableDef, k: bytes) {
    exists i :: 1 <= i < |t.prefixes| && ToBE(t.prefixes[i], 4) <= k
  }

  ghost predicate KeyOfSome(t: TableDef, rows: RowMap, k: bytes)
    requires TableOk(t) && forall pk :: pk in rows ==> |pk| + |rows[pk]| == |t.cols|
  {
    exists pk :: pk in rows && KeyOfRow(t, pk + rows[pk], k)
  }

  /**
   * Under the table's prefixes, the map has the rows' values under the rows' keys, one entry in each
   * index for each row, which is the empty string, and nothing else.
   */
  ghost predicate Agrees(t: TableDef, kv: Contents, rows: RowMap) {
    && TableOk(t)
    && (forall pk :: pk in rows ==> |pk| == t.pkeys && |pk| + |rows[pk]| == |t.cols| && RowOk(t, pk + rows[pk]))
    && (forall k :: Ours(t, k) ==> (k in kv <==> KeyOfSome(t, rows, k)))
    && (forall pk :: pk in rows ==> PrimKey(t, pk) in kv && kv[PrimKey(t, pk)] == Columns(rows[pk]))
    && (forall k :: k in kv && OfIndex(t, k) ==> kv[k] == EmptyString)
  }

  // ------------------------------------------------------------ keys of different rows

  lemma OnePrefix(p: nat, q: nat, k: bytes)
    requires p < TWO_32 && q < TWO_32 && ToBE(p, 4) <= k && ToBE(q, 4) <= k
    ensures p == q
  {
    hide ToBE, FromBE;
    Pow256Of4();
    BERoundTrip(p, 4);
    BERoundTrip(q, 4);
    assert ToBE(p, 4) == k[..4] == ToBE(q, 4);
  }

  lemma OursPrim(t: TableDef, pk: seq<Value>)
    requires TableOk(t)
    ensures Ours(t, PrimKey(t, pk)) && !OfIndex(t, PrimKey(t, pk))
  {
    var k := PrimKey(t, pk);
    assert ToBE(t.prefixes[0], 4) <= k;
    if i :| 1 <= i < |t.prefixes| && ToBE(t.prefixes[i], 4) <= k { OnePrefix(t.prefixes[0], t.prefixes[i], k); }
  }

  lemma OursSec(t: TableDef, row: seq<Value>, i: nat)
    requires TableOk(t) && |row| == |t.cols| && 1 <= i < |t.indexes|
    ensures Ours(t, SecKey(t, row, i)) && OfIndex(t, SecKey(t, row, i))
  {
    assert ToBE(t.prefixes[i], 4) <= SecKey(t, row, i);
  }

  lemma KeysDiffer(p: nat, q: nat, a: seq<Value>, b: seq<Value>)
    requires p < TWO_32 && q < TWO_32
    ensures p != q ==> Key(p, a) != Key(q, b)
    ensures Key(p, a) == Key(p, b) && TypesOf(a) == TypesOf(b) ==> a == b
  {
    KeyOrder(p, q, a, b, [], []);
    assert Key(p, a) + [] == Key(p, a) && Key(q, b) + [] == Key(q, b);
    CompareSame(Key(p, a));
    if TypesOf(a) == TypesOf(b) { KeyEmbedding(p, a, b); }
  }

  lemma PkTypes(t: TableDef, row: seq<Value>)
    requires RowOk(t, row)
    ensures TypesOf(row[..t.pkeys]) == t.types[..t.pkeys]
  {
    assert forall j :: 0 <= j < |row| ==> TypeOf(row[j]) == TypesOf(row)[j];
  }

  /**
   * When two rows have one entry in an index: the indexed values are the same, and so are the primary
   * keys once the empty strings of indexed columns have been written as 0xff.
   */
  lemma SameEntry(t: TableDef, a: seq<Value>, b: seq<Value>, i: nat)
    requires TableOk(t) && TypesOf(a) == TypesOf(b) == t.types && 1 <= i < |t.indexes|
    ensures |a| == |b| == |t.cols|
    ensures SecKey(t, a, i) == SecKey(t, b, i)
            <==> Tuple(t, a, i) == Tuple(t, b, i) && Patched(t, a, i)[..t.pkeys] == Patched(t, b, i)[..t.pkeys]
  {
    hide Key, Tuple, Patched;
    EntryTypes(t, a, i);
    EntryTypes(t, b, i);
    KeysDiffer(t.prefixes[i], t.prefixes[i], IndexEntry(t, a, i), IndexEntry(t, b, i));
    var x, y := Tuple(t, a, i), Tuple(t, b, i);
    assert IndexEntry(t, a, i)[..|x|] == x && IndexEntry(t, a, i)[|x|..] == Patched(t, a, i)[..t.pkeys];
    assert IndexEntry(t, b, i)[..|y|] == y && IndexEntry(t, b, i)[|y|..] == Patched(t, b, i)[..t.pkeys];
  }

  /** No indexed column of the primary key is empty. */
  ghost predicate Whole(t: TableDef, pk: seq<Value>)
    requires TableOk(t) && |pk| == t.pkeys
  {
    forall j :: 0 <= j < t.pkeys && pk[j] == Str([]) ==> !Indexed(t, j, LastIndex(t))
  }

  ghost predicate WholeKeys(t: TableDef, rows: RowMap) {
    TableOk(t) && forall pk :: pk in rows ==> |pk| == t.pkeys && Whole(t, pk)
  }

  lemma WholeUp(t: TableDef, row: seq<Value>, i: nat)
    requires RowOk(t, row) && i <= LastIndex(t) && Whole(t, row[..t.pkeys])
    ensures Patched(t, row, i)[..t.pkeys] == row[..t.pkeys] && !EmptyPk(t, row, i)
  {
    PatchedPk(t, row, i);
    assert forall j :: 0 <= j < t.pkeys ==> row[..t.pkeys][j] == row[j];
    assert forall j :: 0 <= j < t.pkeys && Indexed(t, j, i) ==> Indexed(t, j, LastIndex(t));
  }

  /** Rows whose primary keys are different, and stay as they are in the index, have no entry in common. */
  lemma WholeApart(t: TableDef, a: seq<Value>, b: seq<Value>, i: nat)
    requires RowOk(t, a) && RowOk(t, b) && 1 <= i < |t.indexes| && SecKey(t, a, i) == SecKey(t, b, i)
    requires Whole(t, a[..t.pkeys]) && Whole(t, b[..t.pkeys])
    ensures a[..t.pkeys] == b[..t.pkeys]
  {
    hide SecKey, Tuple, Patched, Whole;
    SameEntry(t, a, b, i);
    WholeUp(t, a, i);
    WholeUp(t, b, i);
  }

  /** A row's key in another index is a different one, and so is its own key. */
  lemma OneIndex(t: TableDef, a: seq<Value>, row: seq<Value>, i: nat)
    requires TableOk(t) && |a| == |row| == |t.cols| && 1 <= i < |t.indexes| && KeyOfRow(t, row, SecKey(t, a, i))
    ensures SecKey(t, a, i) == SecKey(t, row, i)
  {
    hide Key, Patched, Tuple;
    var k := SecKey(t, a, i);
    KeysDiffer(t.prefixes[0], t.prefixes[i], row[..t.pkeys], IndexEntry(t, a, i));
    var j :| 1 <= j < |t.indexes| && k == SecKey(t, row, j);
    KeysDiffer(t.prefixes[i], t.prefixes[j], IndexEntry(t, a, i), IndexEntry(t, row, j));
  }

  /** A primary key is no other row's key. */
  lemma OnePrim(t: TableDef, row: seq<Value>, pk: seq<Value>)
    requires RowOk(t, row) && TypesOf(pk) == t.types[..t.pkeys] && KeyOfRow(t, row, PrimKey(t, pk))
    ensures pk == row[..t.pkeys]
    ensures !IndexKeyOf(t, row, |t.indexes|, PrimKey(t, pk))
  {
    hide Key, Patched, Tuple;
    PkTypes(t, row);
    if i :| 1 <= i < |t.indexes| && PrimKey(t, pk) == SecKey(t, row, i) {
      KeysDiffer(t.prefixes[0], t.prefixes[i], pk, IndexEntry(t, row, i));
    }
    KeysDiffer(t.prefixes[0], t.prefixes[0], pk, row[..t.pkeys]);
  }

  // ------------------------------------------------------------ rows coming and going

  /** kv with the entries of a row. */
  ghost predicate Added(t: TableDef, kv: Contents, row: seq<Value>, r: Contents)
    requires TableOk(t) && |row| == |t.cols|
  {
    && (forall k :: k in r <==> k in kv || KeyOfRow(t, row, k))
    && (forall k :: k in kv && !KeyOfRow(t, row, k) ==> r[k] == kv[k])
    && r[PrimKey(t, row[..t.pkeys])] == Columns(row[t.pkeys..])
    && (forall k :: IndexKeyOf(t, row, |t.indexes|, k) ==> r[k] == EmptyString)
  }

  lemma RowAdded(t: TableDef, kv: Contents, rows: RowMap, row: seq<Value>, r: Contents)
    requires Agrees(t, kv, rows) && |row| == |t.cols| && RowOk(t, row) && Added(t, kv, row, r) && row[..t.pkeys] !in rows
    ensures Agrees(t, r, rows[row[..t.pkeys] := row[t.pkeys..]])
  {
    hide RowOk, KeyOfRow, Ours, PrimKey, OfIndex, IndexKeyOf;
    var pk, q := row[..t.pkeys], rows[row[..t.pkeys] := row[t.pkeys..]];
    assert pk + row[t.pkeys..] == row;
    IndexEmpty(t, kv, row, r);
    forall k | Ours(t, k) ensures k in r <==> KeyOfSome(t, q, k) {
      if KeyOfRow(t, row, k) { assert KeyOfRow(t, pk + q[pk], k); }
      if KeyOfSome(t, rows, k) {
        var p :| p in rows && KeyOfRow(t, p + rows[p], k);
        assert p in q && q[p] == rows[p];
      }
      if KeyOfSome(t, q, k) {
        var p :| p in q && KeyOfRow(t, p + q[p], k);
        if p != pk { assert KeyOfRow(t, p + rows[p], k); }
      }
    }
    forall p | p in q && p != pk ensures PrimKey(t, p) in r && r[PrimKey(t, p)] == Columns(q[p]) {
      StoredPk(t, kv, rows, p);
      if KeyOfRow(t, row, PrimKey(t, p)) { OnePrim(t, row, p); }
    }
    assert PrimKey(t, pk) in r by { PrimIsKey(t, row); }
  }

  /** Whatever a row adds under the prefixes of indexes is empty. */
  lemma IndexEmpty(t: TableDef, kv: Contents, row: seq<Value>, r: Contents)
    requires TableOk(t) && |row| == |t.cols| && Added(t, kv, row, r)
    requires forall k :: k in kv && OfIndex(t, k) ==> kv[k] == EmptyString
    ensures forall k :: k in r && OfIndex(t, k) ==> r[k] == EmptyString
  {
    hide PrimKey, OfIndex, IndexKeyOf;
    OursPrim(t, row[..t.pkeys]);
  }

  lemma PrimIsKey(t: TableDef, row: seq<Value>)
    requires TableOk(t) && |row| == |t.cols|
    ensures KeyOfRow(t, row, PrimKey(t, row[..t.pkeys]))
  {
  }

  lemma StoredPk(t: TableDef, kv: Contents, rows: RowMap, pk: seq<Value>)
    requires Agrees(t, kv, rows) && pk in rows
    ensures |pk| == t.pkeys && (pk + rows[pk])[..t.pkeys] == pk && TypesOf(pk) == t.types[..t.pkeys]
  {
    hide KeyOfSome;
    assert (pk + rows[pk])[..t.pkeys] == pk;
    PkTypes(t, pk + rows[pk]);
  }

  /** Whether a row is there shows at its own key. */
  lemma PkTells(t: TableDef, kv: Contents, rows: RowMap, pk: seq<Value>)
    requires Agrees(t, kv, rows) && TypesOf(pk) == t.types[..t.pkeys]
    ensures PrimKey(t, pk) in kv <==> pk in rows
  {
    hide Key, Tuple, Patched;
    var k := PrimKey(t, pk);
    OursPrim(t, pk);
    if k in kv {
      var p :| p in rows && KeyOfRow(t, p + rows[p], k);
      var row := p + rows[p];
      assert row[..t.pkeys] == p;
      PkTypes(t, row);
      NoPanics(t, row);
      if i :| 1 <= i < |t.indexes| && k == SecKey(t, row, i) { KeysDiffer(t.prefixes[0], t.prefixes[i], pk, IndexEntry(t, row, i)); }
      KeysDiffer(t.prefixes[0], t.prefixes[0], pk, p);
    }
  }

  /** Nothing has changed under other prefixes. */
  ghost predicate Elsewhere(t: TableDef, a: Contents, b: Contents) {
    forall k :: !Ours(t, k) ==> (k in a <==> k in b) && (k in a ==> a[k] == b[k])
  }

  lemma NothingElsewhere(t: TableDef, kv: Contents)
    ensures Elsewhere(t, kv, kv)
  {
  }

  lemma KeysAreOurs(t: TableDef, row: seq<Value>)
    requires TableOk(t) && |row| == |t.cols|
    ensures forall k :: KeyOfRow(t, row, k) ==> Ours(t, k)
  {
    hide PrimKey, SecKey, Ours;
    OursPrim(t, row[..t.pkeys]);
    forall i | 1 <= i < |t.indexes| ensures Ours(t, SecKey(t, row, i)) { OursSec(t, row, i); }
  }

  /** All the entries of a row are there. */
  lemma StoredKeys(t: TableDef, kv: Contents, rows: RowMap, pk: seq<Value>)
    requires Agrees(t, kv, rows) && pk in rows
    ensures |pk| == t.pkeys && |pk + rows[pk]| == |t.cols| && RowOk(t, pk + rows[pk])
    ensures forall i :: 1 <= i < |t.indexes| ==> SecKey(t, pk + rows[pk], i) in kv && kv[SecKey(t, pk + rows[pk], i)] == EmptyString
    ensures PrimKey(t, pk) in kv && kv[PrimKey(t, pk)] == Columns(rows[pk])
  {
    hide SecKey, RowOk, Ours, PrimKey, OfIndex;
    var row := pk + rows[pk];
    forall i | 1 <= i < |t.indexes| ensures SecKey(t, row, i) in kv && kv[SecKey(t, row, i)] == EmptyString {
      OursSec(t, row, i);
      assert KeyOfRow(t, row, SecKey(t, row, i));
    }
  }

  lemma EntriesAdded(t: TableDef, kv: Contents, rows: RowMap, row: seq<Value>, r: Contents)
    requires Agrees(t, kv, rows) && |row| == |t.cols| && RowOk(t, row) && Added(t, kv, row, r) && row[..t.pkeys] !in rows
    ensures Agrees(t, r, rows[row[..t.pkeys] := row[t.pkeys..]]) && Elsewhere(t, kv, r)
  {
    hide KeyOfRow, RowOk, Ours, PrimKey, KeyOfSome;
    RowAdded(t, kv, rows, row, r);
    KeysAreOurs(t, row);
  }

  lemma EntriesThere(t: TableDef, kv: Contents, row: seq<Value>, r: Contents)
    requires TableOk(t) && |row| == |t.cols| && Added(t, kv, row, r)
    ensures PrimKey(t, row[..t.pkeys]) in r && r[PrimKey(t, row[..t.pkeys])] == Columns(row[t.pkeys..])
    ensures forall i :: 1 <= i < |t.indexes| ==> SecKey(t, row, i) in r && r[SecKey(t, row, i)] == EmptyString
  {
    hide PrimKey, SecKey;
    PrimIsKey(t, row);
    forall i | 1 <= i < |t.indexes| ensures IndexKeyOf(t, row, |t.indexes|, SecKey(t, row, i)) { InIndex(t, row, i); }
  }

  lemma FirstIndexKeys(t: TableDef, row: seq<Value>)
    requires TableOk(t) && |row| == |t.cols|
    ensures forall k :: !IndexKeyOf(t, row, 1, k)
  {
  }

  lemma NextIndexKey(t: TableDef, row: seq<Value>, i: nat)
    requires TableOk(t) && |row| == |t.cols| && 1 <= i < |t.indexes|
    ensures forall k :: IndexKeyOf(t, row, i + 1, k) <==> IndexKeyOf(t, row, i, k) || k == SecKey(t, row, i)
  {
    hide SecKey, Key, IndexEntry;
    forall k ensures IndexKeyOf(t, row, i + 1, k) <==> IndexKeyOf(t, row, i, k) || k == SecKey(t, row, i) {
      if IndexKeyOf(t, row, i + 1, k) {
        var m :| 1 <= m < i + 1 && k == SecKey(t, row, m);
        if m < i { assert IndexKeyOf(t, row, i, k); }
      }
      if IndexKeyOf(t, row, i, k) {
        var m :| 1 <= m < i && k == SecKey(t, row, m);
        assert 1 <= m < i + 1 && k == SecKey(t, row, m);
      }
      if k == SecKey(t, row, i) { assert 1 <= i < i + 1 && k == SecKey(t, row, i); }
    }
  }

  lemma OtherIndexKeys(t: TableDef, row: seq<Value>, i: nat)
    requires TableOk(t) && |row| == |t.cols| && 1 <= i < |t.indexes|
    ensures !IndexKeyOf(t, row, i, SecKey(t, row, i))
  {
    hide Key;
    forall j | 1 <= j < i ensures SecKey(t, row, j) != SecKey(t, row, i) {
      KeysDiffer(t.prefixes[i], t.prefixes[j], IndexEntry(t, row, i), IndexEntry(t, row, j));
    }
  }

  /** The rows have the same keys in the indexes. */
  ghost predicate SameEntries(t: TableDef, a: seq<Value>, b: seq<Value>)
    requires TableOk(t)
  {
    |a| == |b| == |t.cols| && forall i :: 1 <= i < |t.indexes| ==> SecKey(t, a, i) == SecKey(t, b, i)
  }

  /** No minimum integer in any key of the row. */
  lemma NoPanics(t: TableDef, row: seq<Value>)
    requires RowOk(t, row)
    ensures I64(MIN_INT64) !in row[..t.pkeys]
    ensures forall i :: 1 <= i < |t.indexes| ==> I64(MIN_INT64) !in IndexEntry(t, row, i)
    ensures forall i :: 1 <= i < |t.indexes| ==> SecKey(t, row, i) != PrimKey(t, row[..t.pkeys])
  {
    hide Key;
    forall i | 1 <= i < |t.indexes| ensures I64(MIN_INT64) !in IndexEntry(t, row, i) && SecKey(t, row, i) != PrimKey(t, row[..t.pkeys]) {
      KeysDiffer(t.prefixes[0], t.prefixes[i], row[..t.pkeys], IndexEntry(t, row, i));
      forall j | 0 <= j < t.pkeys ensures Patched(t, row, i)[j] != I64(MIN_INT64) {}
      forall k | 0 <= k < |t.indexes[i]| ensures Tuple(t, row, i)[k] != I64(MIN_INT64) {
        var j := Pos(t, t.indexes[i][k]);
        assert Indexed(t, j, LastIndex(t));
      }
    }
  }

  // ------------------------------------------------------------ rows going

  /** Another row than the one under pk has the key k in index i. */
  ghost predicate Another(t: TableDef, rows: RowMap, pk: seq<Value>, i: nat, k: bytes)
    requires TableOk(t) && 1 <= i < |t.indexes|
  {
    exists p :: p in rows && p != pk && |p + rows[p]| == |t.cols| && SecKey(t, p + rows[p], i) == k
  }

  /**
   * A record that can be deleted: in every index its key is not another row's, and is the stored row's
   * unless that one's is another row's too.
   */
  ghost predicate Clean(t: TableDef, rows: RowMap, pk: seq<Value>, given: seq<Value>)
    requires TableOk(t) && |given| == |t.cols|
  {
    && pk in rows && |pk + rows[pk]| == |t.cols|
    && forall i :: 1 <= i < |t.indexes| ==>
         && !Another(t, rows, pk, i, SecKey(t, given, i))
         && (SecKey(t, given, i) == SecKey(t, pk + rows[pk], i) || Another(t, rows, pk, i, SecKey(t, pk + rows[pk], i)))
  }

  /** Each of the row's keys that is another row's is the new row's too. */
  ghost predicate Shared(t: TableDef, rows: RowMap, pk: seq<Value>, row: seq<Value>)
    requires TableOk(t) && |row| == |t.cols|
  {
    && pk in rows && |pk + rows[pk]| == |t.cols|
    && forall i :: 1 <= i < |t.indexes| ==>
         Another(t, rows, pk, i, SecKey(t, pk + rows[pk], i)) ==> SecKey(t, row, i) == SecKey(t, pk + rows[pk], i)
  }

  /** kv without the record's keys in the indexes before n; and without the row's own key. */
  ghost predicate Taken(t: TableDef, kv: Contents, given: seq<Value>, n: nat, pk: seq<Value>, own: bool, r: Contents)
    requires TableOk(t) && |given| == |t.cols| && n <= |t.indexes|
  {
    && (forall k :: k in r <==> k in kv && !IndexKeyOf(t, given, n, k) && !(own && k == PrimKey(t, pk)))
    && (forall k :: k in r ==> r[k] == kv[k])
  }

  /** A key of another row stays, or is a key that the record shares with it. */
  lemma KeyStays(t: TableDef, kv: Contents, rows: RowMap, pk: seq<Value>, given: seq<Value>, r: Contents, p: seq<Value>, k: bytes)
    requires Agrees(t, kv, rows) && pk in rows && |given| == |t.cols| && Taken(t, kv, given, |t.indexes|, pk, true, r)
    requires p in rows && p != pk && |p + rows[p]| == |t.cols| && KeyOfRow(t, p + rows[p], k) && Ours(t, k)
    ensures k in r || exists i :: 1 <= i < |t.indexes| && k == SecKey(t, given, i) && Another(t, rows, pk, i, k)
  {
    hide SecKey, RowOk, PrimKey;
    StoredPk(t, kv, rows, pk);
    StoredPk(t, kv, rows, p);
    if k == PrimKey(t, pk) { OnePrim(t, p + rows[p], pk); }
    if IndexKeyOf(t, given, |t.indexes|, k) {
      var i :| 1 <= i < |t.indexes| && k == SecKey(t, given, i);
      OneIndex(t, given, p + rows[p], i);
      assert Another(t, rows, pk, i, k);
    }
  }

  /**
   * The keys of a record and a row's own key are taken out: map and rows agree afterwards exactly when
   * the record was clean. With other indexed values than the stored ones, stale entries stay behind.
   */
  lemma DeleteExact(t: TableDef, kv: Contents, rows: RowMap, pk: seq<Value>, given: seq<Value>, r: Contents)
    requires Agrees(t, kv, rows) && pk in rows && |given| == |t.cols| && Taken(t, kv, given, |t.indexes|, pk, true, r)
    ensures Agrees(t, r, rows - {pk}) <==> Clean(t, rows, pk, given)
  {
    StoredPk(t, kv, rows, pk);
    if Clean(t, rows, pk, given) {
      CleanDelete(t, kv, rows, pk, given, r);
    } else {
      DirtyDelete(t, kv, rows, pk, given, r);
    }
  }

  lemma CleanDelete(t: TableDef, kv: Contents, rows: RowMap, pk: seq<Value>, given: seq<Value>, r: Contents)
    requires Agrees(t, kv, rows) && pk in rows && |given| == |t.cols| && Taken(t, kv, given, |t.indexes|, pk, true, r)
    requires Clean(t, rows, pk, given)
    ensures Agrees(t, r, rows - {pk})
  {
    hide SecKey, RowOk, Ours, PrimKey, Another, OfIndex;
    var q, row := rows - {pk}, pk + rows[pk];
    StoredPk(t, kv, rows, pk);
    forall k | Ours(t, k) ensures k in r <==> KeyOfSome(t, q, k) {
      if k in r {
        var p :| p in rows && KeyOfRow(t, p + rows[p], k);
        if p == pk {
          var i :| 1 <= i < |t.indexes| && k == SecKey(t, row, i);
          InIndex(t, given, i);
          assert Another(t, rows, pk, i, k);
          AnotherKey(t, rows, pk, i, k);
        } else {
          assert p in q && q[p] == rows[p];
        }
      }
      if KeyOfSome(t, q, k) {
        var p :| p in q && KeyOfRow(t, p + q[p], k);
        KeyStays(t, kv, rows, pk, given, r, p, k);
      }
    }
    forall p | p in q ensures PrimKey(t, p) in r && r[PrimKey(t, p)] == Columns(q[p]) {
      StoredPk(t, kv, rows, p);
      OursPrim(t, p);
      PrimIsKey(t, p + rows[p]);
      KeyStays(t, kv, rows, pk, given, r, p, PrimKey(t, p));
    }
  }

  lemma AnotherKey(t: TableDef, rows: RowMap, pk: seq<Value>, i: nat, k: bytes)
    requires TableOk(t) && 1 <= i < |t.indexes| && Another(t, rows, pk, i, k)
    requires forall p :: p in rows ==> |p| + |rows[p]| == |t.cols|
    ensures KeyOfSome(t, rows - {pk}, k)
  {
    hide SecKey, PrimKey;
    var p :| p in rows && p != pk && |p + rows[p]| == |t.cols| && SecKey(t, p + rows[p], i) == k;
    var q := rows - {pk};
    assert p in q && q[p] == rows[p];
    assert KeyOfRow(t, p + q[p], k);
  }

  lemma DirtyDelete(t: TableDef, kv: Contents, rows: RowMap, pk: seq<Value>, given: seq<Value>, r: Contents)
    requires Agrees(t, kv, rows) && pk in rows && |given| == |t.cols| && Taken(t, kv, given, |t.indexes|, pk, true, r)
    requires !Clean(t, rows, pk, given)
    ensures !Agrees(t, r, rows - {pk})
  {
    hide SecKey, RowOk, Ours, PrimKey, Another, OfIndex, Agrees, Taken;
    StoredOwn(t, kv, rows, pk);
    var row := pk + rows[pk];
    var i :| 1 <= i < |t.indexes| && !(!Another(t, rows, pk, i, SecKey(t, given, i))
      && (SecKey(t, given, i) == SecKey(t, row, i) || Another(t, rows, pk, i, SecKey(t, row, i))));
    if Another(t, rows, pk, i, SecKey(t, given, i)) {
      TakenFromAnother(t, kv, rows, pk, given, r, i);
    } else {
      LeftBehind(t, kv, rows, pk, given, r, i);
    }
  }

  /** The record's key was another row's. */
  lemma TakenFromAnother(t: TableDef, kv: Contents, rows: RowMap, pk: seq<Value>, given: seq<Value>, r: Contents, i: nat)
    requires Agrees(t, kv, rows) && pk in rows && |given| == |t.cols| && Taken(t, kv, given, |t.indexes|, pk, true, r)
    requires 1 <= i < |t.indexes| && Another(t, rows, pk, i, SecKey(t, given, i))
    ensures !Agrees(t, r, rows - {pk})
  {
    hide SecKey, RowOk, Ours, PrimKey, Another, OfIndex;
    var k := SecKey(t, given, i);
    OursSec(t, given, i);
    AnotherKey(t, rows, pk, i, k);
    assert IndexKeyOf(t, given, |t.indexes|, k);
  }

  /** The stored row's key is still there, and no other row has it. */
  lemma LeftBehind(t: TableDef, kv: Contents, rows: RowMap, pk: seq<Value>, given: seq<Value>, r: Contents, i: nat)
    requires Agrees(t, kv, rows) && pk in rows && |given| == |t.cols| == |pk + rows[pk]| && Taken(t, kv, given, |t.indexes|, pk, true, r)
    requires 1 <= i < |t.indexes| && SecKey(t, given, i) != SecKey(t, pk + rows[pk], i) && !Another(t, rows, pk, i, SecKey(t, pk + rows[pk], i))
    ensures !Agrees(t, r, rows - {pk})
  {
    hide SecKey, RowOk, Ours, PrimKey, Another, OfIndex, IndexKeyOf;
    var q, row := rows - {pk}, pk + rows[pk];
    StoredKeys(t, kv, rows, pk);
    var k := SecKey(t, row, i);
    OursSec(t, row, i);
    NoPrim(t, row, i, pk);
    OnlyAt(t, given, row, i);
    assert k in r;
    if Agrees(t, r, q) {
      var p :| p in q && KeyOfRow(t, p + q[p], k);
      OneIndex(t, row, p + q[p], i);
      IsAnother(t, rows, pk, i, p);
    }
  }

  lemma IsAnother(t: TableDef, rows: RowMap, pk: seq<Value>, i: nat, p: seq<Value>)
    requires TableOk(t) && 1 <= i < |t.indexes| && p in rows && p != pk && |p + rows[p]| == |t.cols|
    ensures Another(t, rows, pk, i, SecKey(t, p + rows[p], i))
  {
  }

  lemma OnlyAt(t: TableDef, a: seq<Value>, b: seq<Value>, i: nat)
    requires TableOk(t) && |a| == |b| == |t.cols| && 1 <= i < |t.indexes| && SecKey(t, a, i) != SecKey(t, b, i)
    ensures !IndexKeyOf(t, a, |t.indexes|, SecKey(t, b, i))
  {
    hide Key, Tuple, Patched;
    forall j | 1 <= j < |t.indexes| ensures SecKey(t, a, j) != SecKey(t, b, i) {
      KeysDiffer(t.prefixes[j], t.prefixes[i], IndexEntry(t, a, j), IndexEntry(t, b, i));
    }
  }

  /** A deletion that stops before index n has been harmless exactly when nothing that it took was there. */
  lemma StopExact(t: TableDef, kv: Contents, rows: RowMap, given: seq<Value>, n: nat, pk: seq<Value>, r: Contents)
    requires Agrees(t, kv, rows) && |given| == |t.cols| && n <= |t.indexes| && Taken(t, kv, given, n, pk, false, r)
    ensures Agrees(t, r, rows) <==> forall i :: 1 <= i < n ==> SecKey(t, given, i) !in kv
  {
    hide SecKey, RowOk, Ours, PrimKey, KeyOfSome, OfIndex;
    if i :| 1 <= i < n && SecKey(t, given, i) in kv {
      OursSec(t, given, i);
      assert IndexKeyOf(t, given, n, SecKey(t, given, i));
    } else {
      assert forall k :: k in kv ==> !IndexKeyOf(t, given, n, k);
      assert r == kv;
    }
  }

  /** A row gives way to another under its primary key: map and rows agree afterwards exactly when the shared keys stay. */
  lemma UpdateExact(t: TableDef, kv: Contents, rows: RowMap, pk: seq<Value>, row: seq<Value>, kv1: Contents, r: Contents)
    requires Agrees(t, kv, rows) && pk in rows && RowOk(t, row) && |row| == |t.cols| && row[..t.pkeys] == pk
    requires |pk + rows[pk]| == |t.cols|
    requires Taken(t, kv, pk + rows[pk], |t.indexes|, pk, true, kv1) && Added(t, kv1, row, r)
    ensures Agrees(t, r, rows[pk := row[t.pkeys..]]) <==> Shared(t, rows, pk, row)
  {
    hide RowOk, KeyOfRow, Ours, PrimKey, Taken, Added, Another, SecKey;
    if Shared(t, rows, pk, row) {
      SharedUpdate(t, kv, rows, pk, row, kv1, r);
    } else {
      var was := pk + rows[pk];
      var i :| 1 <= i < |t.indexes| && Another(t, rows, pk, i, SecKey(t, was, i)) && SecKey(t, row, i) != SecKey(t, was, i);
      LostByUpdate(t, kv, rows, pk, row, was, kv1, r, i);
    }
  }

  lemma SharedUpdate(t: TableDef, kv: Contents, rows: RowMap, pk: seq<Value>, row: seq<Value>, kv1: Contents, r: Contents)
    requires Agrees(t, kv, rows) && pk in rows && RowOk(t, row) && |row| == |t.cols| && row[..t.pkeys] == pk
    requires |pk + rows[pk]| == |t.cols| && Shared(t, rows, pk, row)
    requires Taken(t, kv, pk + rows[pk], |t.indexes|, pk, true, kv1) && Added(t, kv1, row, r)
    ensures Agrees(t, r, rows[pk := row[t.pkeys..]])
  {
    hide RowOk, Ours, PrimKey, Another, SecKey, KeyOfRow, KeyOfSome, OfIndex, IndexKeyOf;
    IndexEmpty(t, kv1, row, r);
    var q := rows[pk := row[t.pkeys..]];
    assert pk + row[t.pkeys..] == row;
    StoredPk(t, kv, rows, pk);
    forall k | Ours(t, k) ensures k in r <==> KeyOfSome(t, q, k) { SharedKey(t, kv, rows, pk, row, kv1, r, k); }
    forall p | p in q && p != pk ensures PrimKey(t, p) in r && r[PrimKey(t, p)] == Columns(q[p]) {
      StoredPk(t, kv, rows, p);
      OursPrim(t, p);
      PrimIsKey(t, p + rows[p]);
      KeyStays(t, kv, rows, pk, pk + rows[pk], kv1, p, PrimKey(t, p));
      SharedKey(t, kv, rows, pk, row, kv1, r, PrimKey(t, p));
      if KeyOfRow(t, row, PrimKey(t, p)) { OnePrim(t, row, p); }
      if i :| 1 <= i < |t.indexes| && PrimKey(t, p) == SecKey(t, pk + rows[pk], i) { NoPrim(t, pk + rows[pk], i, p); }
    }
    assert PrimKey(t, pk) in r by { PrimIsKey(t, row); }
  }

  lemma NoPrim(t: TableDef, row: seq<Value>, i: nat, pk: seq<Value>)
    requires TableOk(t) && |row| == |t.cols| && 1 <= i < |t.indexes|
    ensures SecKey(t, row, i) != PrimKey(t, pk)
  {
    hide Key, Tuple, Patched;
    KeysDiffer(t.prefixes[0], t.prefixes[i], pk, IndexEntry(t, row, i));
  }

  lemma SharedKey(t: TableDef, kv: Contents, rows: RowMap, pk: seq<Value>, row: seq<Value>, kv1: Contents, r: Contents, k: bytes)
    requires Agrees(t, kv, rows) && pk in rows && RowOk(t, row) && |row| == |t.cols| && row[..t.pkeys] == pk
    requires |pk + rows[pk]| == |t.cols| && Shared(t, rows, pk, row) && Ours(t, k)
    requires Taken(t, kv, pk + rows[pk], |t.indexes|, pk, true, kv1) && Added(t, kv1, row, r)
    ensures k in r <==> KeyOfSome(t, rows[pk := row[t.pkeys..]], k)
  {
    hide OfIndex, RowOk, Ours, PrimKey, Another, SecKey, KeyOfRow, Taken, Shared;
    var q := rows[pk := row[t.pkeys..]];
    assert pk + q[pk] == row;
    if KeyOfRow(t, row, k) {
      assert KeyOfRow(t, pk + q[pk], k);
    } else {
      if k in kv1 {
        var p := KeptKey(t, kv, rows, pk, kv1, k);
        assert p in q && q[p] == rows[p];
      }
      if KeyOfSome(t, q, k) {
        var p :| p in q && KeyOfRow(t, p + q[p], k);
        assert p != pk && p in rows && q[p] == rows[p];
        SharedStays(t, kv, rows, pk, row, kv1, p, k);
      }
    }
  }

  /** A key that is left is another row's. */
  lemma KeptKey(t: TableDef, kv: Contents, rows: RowMap, pk: seq<Value>, kv1: Contents, k: bytes) returns (p: seq<Value>)
    requires Agrees(t, kv, rows) && pk in rows && |pk + rows[pk]| == |t.cols| && Ours(t, k) && k in kv1
    requires Taken(t, kv, pk + rows[pk], |t.indexes|, pk, true, kv1)
    ensures p in rows && p != pk && |p + rows[p]| == |t.cols| && KeyOfRow(t, p + rows[p], k)
  {
    hide OfIndex, RowOk, Ours, PrimKey, SecKey;
    StoredPk(t, kv, rows, pk);
    p :| p in rows && KeyOfRow(t, p + rows[p], k);
  }

  lemma SharedStays(t: TableDef, kv: Contents, rows: RowMap, pk: seq<Value>, row: seq<Value>, kv1: Contents, p: seq<Value>, k: bytes)
    requires Agrees(t, kv, rows) && pk in rows && |row| == |t.cols| && !KeyOfRow(t, row, k)
    requires |pk + rows[pk]| == |t.cols| && Shared(t, rows, pk, row) && Ours(t, k)
    requires Taken(t, kv, pk + rows[pk], |t.indexes|, pk, true, kv1)
    requires p in rows && p != pk && |p + rows[p]| == |t.cols| && KeyOfRow(t, p + rows[p], k)
    ensures k in kv1
  {
    hide OfIndex, RowOk, Ours, PrimKey, Another, SecKey;
    KeyStays(t, kv, rows, pk, pk + rows[pk], kv1, p, k);
  }

  lemma LostByUpdate(t: TableDef, kv: Contents, rows: RowMap, pk: seq<Value>, row: seq<Value>, was: seq<Value>, kv1: Contents, r: Contents, i: nat)
    requires Agrees(t, kv, rows) && pk in rows && |row| == |t.cols| && 1 <= i < |t.indexes| && was == pk + rows[pk] && |was| == |t.cols|
    requires Taken(t, kv, was, |t.indexes|, pk, true, kv1) && Added(t, kv1, row, r)
    requires Another(t, rows, pk, i, SecKey(t, was, i)) && SecKey(t, row, i) != SecKey(t, was, i)
    ensures !Agrees(t, r, rows[pk := row[t.pkeys..]])
  {
    hide OfIndex, RowOk, PrimKey, SecKey, KeyOfRow;
    var q, k := rows[pk := row[t.pkeys..]], SecKey(t, was, i);
    OursSec(t, was, i);
    assert Ours(t, k);
    if KeyOfRow(t, row, k) { OneIndex(t, was, row, i); }
    assert IndexKeyOf(t, was, |t.indexes|, k);
    assert k !in r;
    if Agrees(t, r, q) {
      var p :| p in rows && p != pk && |p + rows[p]| == |t.cols| && SecKey(t, p + rows[p], i) == k;
      assert p in q && q[p] == rows[p];
      SecIsKey(t, p + q[p], i);
    }
  }

  lemma InIndex(t: TableDef, row: seq<Value>, i: nat)
    requires TableOk(t) && |row| == |t.cols| && 1 <= i < |t.indexes|
    ensures IndexKeyOf(t, row, |t.indexes|, SecKey(t, row, i))
  {
    hide SecKey;
  }

  lemma SecIsKey(t: TableDef, row: seq<Value>, i: nat)
    requires TableOk(t) && |row| == |t.cols| && 1 <= i < |t.indexes|
    ensures KeyOfRow(t, row, SecKey(t, row, i))
  {
    hide SecKey;
  }

  /** When all primary keys stay as they are in the indexes, a record is clean exactly with the stored row's keys. */
  lemma WholeClean(t: TableDef, kv: Contents, rows: RowMap, pk: seq<Value>, row: seq<Value>)
    requires Agrees(t, kv, rows) && pk in rows && RowOk(t, row) && |row| == |t.cols| && row[..t.pkeys] == pk
    requires WholeKeys(t, rows)
    ensures Clean(t, rows, pk, row) <==> SameEntries(t, row, pk + rows[pk])
    ensures Shared(t, rows, pk, row)
  {
    hide RowOk, SecKey, Ours, KeyOfSome, Whole;
    StoredPk(t, kv, rows, pk);
    forall i | 1 <= i < |t.indexes| ensures !Another(t, rows, pk, i, SecKey(t, row, i)) && !Another(t, rows, pk, i, SecKey(t, pk + rows[pk], i)) {
      forall p | p in rows && p != pk ensures SecKey(t, p + rows[p], i) != SecKey(t, row, i) && SecKey(t, p + rows[p], i) != SecKey(t, pk + rows[pk], i) {
        StoredPk(t, kv, rows, p);
        if SecKey(t, p + rows[p], i) == SecKey(t, row, i) { WholeApart(t, p + rows[p], row, i); }
        if SecKey(t, p + rows[p], i) == SecKey(t, pk + rows[pk], i) { WholeApart(t, p + rows[p], pk + rows[pk], i); }
      }
    }
  }

  // ------------------------------------------------------------ the operations

  class DBTX {
    const t: TableDef
    var kv: Contents  // the transaction's map
    var delSet: set<bytes>  // the keys that it has deleted and not written since
    ghost var rows: RowMap

    ghost predicate Valid()
      reads this
    {
      Agrees(t, kv, rows) && kv.Keys !! delSet
    }

    constructor (t: TableDef)
      requires TableOk(t)
      ensures Valid() && this.t == t && rows == map[] && kv == map[] && delSet == {}
    {
      this.t, kv, delSet, rows := t, map[], {}, map[];
    }

    /** KVTX.Set */
    method KvSet(key: bytes, val: Cell)
      modifies this`kv, this`delSet
      ensures kv == old(kv)[key := val] && delSet == old(delSet) - {key}
    {
      delSet := delSet - {key};
      kv := kv[key := val];
    }

    /** KVTX.Del: yes for every key that has not been deleted already, whether it was there or not. */
    method KvDel(key: bytes) returns (ok: bool)
      requires kv.Keys !! delSet
      modifies this`kv, this`delSet
      ensures kv == old(kv) - {key} && delSet == old(delSet) + {key} && (ok <==> key !in old(delSet))
    {
      if key in delSet {
        assert kv == kv - {key} && delSet == delSet + {key};
        return false;
      }
      delSet := delSet + {key};
      kv := kv - {key};
      return true;
    }

    /** dbGet: the stored columns are added to the record. */
    method DbGet(rec: Record) returns (ok: bool)
      requires Valid() && |rec.cols| == |rec.vals| >= t.pkeys && I64(MIN_INT64) !in rec.vals[..t.pkeys]
      requires var k := PrimKey(t, rec.vals[..t.pkeys]); k in kv && kv[k].Columns? ==> |kv[k].vals| == |t.cols| - t.pkeys
      modifies rec
      ensures var k := PrimKey(t, old(rec.vals)[..t.pkeys]); ok <==> k in kv && kv[k].Columns?
      ensures if ok then rec.cols == old(rec.cols) + t.cols[t.pkeys..] && rec.vals == old(rec.vals) + kv[PrimKey(t, old(rec.vals)[..t.pkeys])].vals
        else rec.cols == old(rec.cols) && rec.vals == old(rec.vals)
    {
      hide Key;
      var key := EncodeKey(t.prefixes[0], rec.vals[..t.pkeys]);
      if key.value !in kv { return false; }
      var val := kv[key.value];
      if val.EmptyString? { return false; }
      DecodeVal(t, rec, val.vals);
      return true;
    }

    /** dbSet: the row's entry and its entries in the indexes. */
    method DbSet(rec: Record, ghost row: seq<Value>)
      requires RowOk(t, row) && Holds(rec, t, row) && rec.vals == row && kv.Keys !! delSet
      modifies rec, this`kv, this`delSet
      ensures Added(t, old(kv), row, kv) && kv.Keys !! delSet && delSet <= old(delSet)
    {
      hide Key, Patched, Tuple;
      NoPanics(t, row);
      var key := EncodeKey(t.prefixes[0], rec.vals[..t.pkeys]);
      KvSet(key.value, Columns(rec.vals[t.pkeys..]));
      var keys := GetSecondaryIndexesKeys(t, rec, row);
      SetAll(keys.value, row);
    }

    /** The loop over the indexes' keys. */
    method SetAll(keys: seq<bytes>, ghost row: seq<Value>)
      requires RowOk(t, row) && |keys| == |t.indexes| - 1 && kv.Keys !! delSet
      requires forall i :: 1 <= i < |t.indexes| ==> keys[i - 1] == SecKey(t, row, i)
      modifies this`kv, this`delSet
      ensures forall k :: k in kv <==> k in old(kv) || IndexKeyOf(t, row, |t.indexes|, k)
      ensures forall k :: k in old(kv) && !IndexKeyOf(t, row, |t.indexes|, k) ==> kv[k] == old(kv)[k]
      ensures forall k :: IndexKeyOf(t, row, |t.indexes|, k) ==> kv[k] == EmptyString
      ensures kv.Keys !! delSet && delSet <= old(delSet)
    {
      hide SecKey, IndexKeyOf;
      FirstIndexKeys(t, row);
      var i := 1;
      while i < |t.indexes|
        invariant 1 <= i <= |t.indexes| && kv.Keys !! delSet && delSet <= old(delSet)
        invariant forall k :: k in kv <==> k in old(kv) || IndexKeyOf(t, row, i, k)
        invariant forall k :: k in old(kv) && !IndexKeyOf(t, row, i, k) ==> kv[k] == old(kv)[k]
        invariant forall k :: IndexKeyOf(t, row, i, k) ==> kv[k] == EmptyString
      {
        NextIndexKey(t, row, i);
        ghost var was := kv;
        KvSet(keys[i - 1], EmptyString);
        forall k | k in old(kv) && !IndexKeyOf(t, row, i + 1, k) ensures kv[k] == old(kv)[k] {
          assert !IndexKeyOf(t, row, i, k) && k != SecKey(t, row, i) && k in was;
        }
        i := i + 1;
      }
    }

    /** dbDel's loop over the indexes' keys: up to the first one that has been deleted already. */
    method DelAll(keys: seq<bytes>, ghost row: seq<Value>) returns (ok: bool, ghost stop: nat)
      requires TableOk(t) && |row| == |t.cols| && |keys| == |t.indexes| - 1 && kv.Keys !! delSet
      requires forall i :: 1 <= i < |t.indexes| ==> keys[i - 1] == SecKey(t, row, i)
      modifies this`kv, this`delSet
      ensures 1 <= stop <= |t.indexes| && (ok <==> stop == |t.indexes|) && kv.Keys !! delSet
      ensures forall i :: 1 <= i < stop ==> SecKey(t, row, i) !in old(delSet)
      ensures !ok ==> SecKey(t, row, stop) in old(delSet)
      ensures Taken(t, old(kv), row, stop, row[..t.pkeys], false, kv)
      ensures forall k :: k in delSet <==> k in old(delSet) || IndexKeyOf(t, row, stop, k)
    {
      hide SecKey, IndexKeyOf;
      FirstIndexKeys(t, row);
      var i := 1;
      while i < |t.indexes|
        invariant 1 <= i <= |t.indexes| && kv.Keys !! delSet
        invariant Taken(t, old(kv), row, i, row[..t.pkeys], false, kv)
        invariant forall k :: k in delSet <==> k in old(delSet) || IndexKeyOf(t, row, i, k)
        invariant forall m :: 1 <= m < i ==> SecKey(t, row, m) !in old(delSet)
      {
        NextIndexKey(t, row, i);
        OtherIndexKeys(t, row, i);
        var done := KvDel(keys[i - 1]);
        if !done { return false, i; }
        i := i + 1;
      }
      return true, i;
    }

    /** A record that names a row: by its primary key, or by all columns. */
    ghost predicate Names(rec: Record, pk: seq<Value>)
      requires TableOk(t)
      reads this, rec
    {
      && |rec.cols| == |rec.vals| && pk <= rec.vals && |pk| == t.pkeys
      && TypesOf(pk) == t.types[..t.pkeys] && I64(MIN_INT64) !in pk
      && (rec.cols == t.cols[..t.pkeys] || (rec.cols == t.cols && (pk in rows ==> RowOk(t, rec.vals))))
    }

    /** The columns that dbDel goes by: the record's, and those of the stored row where it has none. */
    ghost function Given(rec: Record, pk: seq<Value>): seq<Value>
      requires TableOk(t)
      reads this, rec
    {
      if pk in rows && rec.cols == t.cols[..t.pkeys] then pk + rows[pk] else rec.vals
    }

    /**
     * dbDel, which works on a copy of the record. It stops, with the answer no, at the first of the
     * record's index keys that this transaction has deleted before.
     */
    method DbDel(rec: Record, ghost pk: seq<Value>) returns (ok: bool, ghost stop: nat)
      requires Valid() && TableOk(t) && (|rec.cols| < t.pkeys || Names(rec, pk))
      modifies this
      ensures |rec.cols| < t.pkeys || pk !in old(rows) ==> !ok && Valid() && kv == old(kv) && rows == old(rows)
      ensures Elsewhere(t, old(kv), kv) && rows == if ok then old(rows) - {pk} else old(rows)
      ensures |rec.cols| >= t.pkeys && pk in old(rows) ==> Deleted(pk, old(Given(rec, pk)), stop, ok)
    {
      hide OfIndex, Key, Patched, Tuple, IndexKeyOf, SecKey, RowOk, Ours, Elsewhere, KeyOfSome, Clean, Taken;
      if |rec.cols| < t.pkeys {
        NothingElsewhere(t, kv);
        return false, 0;
      }
      assert rec.vals[..t.pkeys] == pk;
      var key := EncodeKey(t.prefixes[0], rec.vals[..t.pkeys]);
      PkTells(t, kv, rows, pk);
      if pk in rows { StoredKeys(t, kv, rows, pk); }
      var copy := new Record(rec.cols, rec.vals);
      ok := DbGet(copy);
      if !ok {
        NothingElsewhere(t, kv);
        return false, 0;
      }
      ghost var row := Given(rec, pk);
      RowLength(t, row);
      assert rec.cols == t.cols[..t.pkeys] ==> copy.vals == row && copy.cols == t.cols;
      assert t.cols <= copy.cols && row <= copy.vals;
      ok, stop := DelKeys(copy, key.value, row, pk);
    }

    /** dbDel, once the row is known to be there. */
    method DelKeys(rec: Record, key: bytes, ghost row: seq<Value>, ghost pk: seq<Value>) returns (ok: bool, ghost stop: nat)
      requires Valid() && TableOk(t) && pk in rows && RowOk(t, row) && Holds(rec, t, row) && row[..t.pkeys] == pk && key == PrimKey(t, pk)
      modifies this, rec
      ensures Elsewhere(t, old(kv), kv) && rows == if ok then old(rows) - {pk} else old(rows)
      ensures Deleted(pk, row, stop, ok)
    {
      hide Key, Patched, Tuple, IndexKeyOf, RowOk, Ours, Elsewhere, KeyOfSome, Clean, Taken, Agrees, TableOk;
      NoPanics(t, row);
      var keys := GetSecondaryIndexesKeys(t, rec, row);
      ok, stop := DelRow(key, keys.value, pk, row);
    }

    /** What dbDel has done with the row's columns given. */
    twostate predicate Deleted(pk: seq<Value>, given: seq<Value>, stop: nat, ok: bool)
      requires TableOk(t) && |given| == |t.cols|
      reads this
    {
      && 1 <= stop <= |t.indexes| && (ok <==> stop == |t.indexes|)
      && (forall i :: 1 <= i < stop ==> SecKey(t, given, i) !in old(delSet))
      && (!ok ==> SecKey(t, given, stop) in old(delSet))
      && Taken(t, old(kv), given, stop, pk, ok, kv) && kv.Keys !! delSet
      && (Valid() <==> if ok then Clean(t, old(rows), pk, given) else forall i :: 1 <= i < stop ==> SecKey(t, given, i) !in old(kv))
    }

    /** The row's entries go. */
    method DelRow(key: bytes, keys: seq<bytes>, ghost pk: seq<Value>, ghost given: seq<Value>) returns (ok: bool, ghost stop: nat)
      requires Valid() && TableOk(t) && pk in rows && key == PrimKey(t, pk) && |keys| == |t.indexes| - 1
      requires |given| == |t.cols| && given[..t.pkeys] == pk
      requires forall i :: 1 <= i < |t.indexes| ==> keys[i - 1] == SecKey(t, given, i)
      modifies this
      ensures Elsewhere(t, old(kv), kv) && rows == if ok then old(rows) - {pk} else old(rows)
      ensures Deleted(pk, given, stop, ok)
    {
      hide Key, IndexKeyOf, SecKey, RowOk, Ours, Elsewhere, KeyOfSome, Clean, Agrees;
      ghost var kv0 := kv;
      StoredOwn(t, kv, rows, pk);
      ok, stop := DelAll(keys, given);
      TakenElsewhere(t, kv0, given, stop, pk, false, kv);
      if !ok {
        StopExact(t, kv0, rows, given, stop, pk, kv);
        return;
      }
      NoIndexPrim(t, given, pk);
      ok := KvDel(key);
      TakenElsewhere(t, kv0, given, stop, pk, true, kv);
      DeleteExact(t, kv0, rows, pk, given, kv);
      rows := rows - {pk};
    }

    /** Get on a record of a primary key. */
    method GetByKey(rec: Record, ghost pk: seq<Value>) returns (ok: bool)
      requires Valid() && rec.cols == t.cols[..t.pkeys] && rec.vals == pk && |pk| == t.pkeys <= |t.cols|
      requires TypesOf(pk) == t.types[..t.pkeys] && I64(MIN_INT64) !in pk
      modifies rec
      ensures ok <==> pk in rows
      ensures ok ==> rec.cols == t.cols && rec.vals == pk + rows[pk]
    {
      hide Key, RowOk, Ours, KeyOfSome;
      assert rec.vals[..t.pkeys] == pk;
      PkTells(t, kv, rows, pk);
      if pk in rows { StoredKeys(t, kv, rows, pk); }
      ok := DbGet(rec);
    }

    /** The row's own entry, and an empty one in each index. */
    ghost predicate Written(row: seq<Value>)
      requires TableOk(t) && |row| == |t.cols|
      reads this
    {
      && PrimKey(t, row[..t.pkeys]) in kv && kv[PrimKey(t, row[..t.pkeys])] == Columns(row[t.pkeys..])
      && forall i :: 1 <= i < |t.indexes| ==> SecKey(t, row, i) in kv && kv[SecKey(t, row, i)] == EmptyString
    }

    /** Insert: an error exactly when the primary key is taken. The record itself may have 0xff for empty strings afterwards. */
    method Insert(rec: Record) returns (ok: bool)
      requires Valid() && RowOk(t, rec.vals) && rec.cols == t.cols
      modifies this, rec
      ensures Valid() && Elsewhere(t, old(kv), kv) && delSet <= old(delSet)
      ensures ok <==> old(rec.vals)[..t.pkeys] !in old(rows)
      ensures rows == if ok then old(rows)[old(rec.vals)[..t.pkeys] := old(rec.vals)[t.pkeys..]] else old(rows)
      ensures ok ==> Written(old(rec.vals))
    {
      hide RowOk, Agrees, Added, Elsewhere;
      ghost var row, kv0 := rec.vals, kv;
      RowPk(t, row);
      var tempRec := GetPKs(rec, t.pkeys);
      var found := GetByKey(tempRec, row[..t.pkeys]);
      if found {
        NothingElsewhere(t, kv);
        return false;
      }
      DbSet(rec, row);
      EntriesAdded(t, kv0, rows, row, kv);
      rows := rows[row[..t.pkeys] := row[t.pkeys..]];
      EntriesThere(t, kv0, row, kv);
      return true;
    }

    /**
     * Update: the row under the record's primary key gives way to the record; no if there is none.
     * Index entries that the old row shares with another are lost unless the new row has them too.
     */
    method Update(rec: Record) returns (ok: bool)
      requires Valid() && RowOk(t, rec.vals) && rec.cols == t.cols
      modifies this, rec
      ensures Elsewhere(t, old(kv), kv) && (ok <==> old(rec.vals)[..t.pkeys] in old(rows))
      ensures rows == if ok then old(rows)[old(rec.vals)[..t.pkeys] := old(rec.vals)[t.pkeys..]] else old(rows)
      ensures Valid() <==> (ok ==> Shared(t, old(rows), old(rec.vals)[..t.pkeys], old(rec.vals)))
      ensures ok ==> Written(old(rec.vals))
    {
      hide RowOk, Agrees, Added, Elsewhere, SameEntries, Shared, Taken, Clean;
      ghost var row, kv0, rows0 := rec.vals, kv, rows;
      RowPk(t, row);
      ghost var pk := row[..t.pkeys];
      var getRec := GetPKs(rec, t.pkeys);
      var found := GetByKey(getRec, pk);
      if !found {
        NothingElsewhere(t, kv);
        return false;
      }
      StoredOwn(t, kv, rows, pk);
      ghost var stop;
      ok, stop := DbDel(getRec, pk);
      if !ok { return false; }
      ghost var kv1 := kv;
      DbSet(rec, row);
      AddedElsewhere(t, kv1, row, kv);
      EntriesThere(t, kv1, row, kv);
      ElsewhereTrans(t, kv0, kv1, kv);
      UpdateExact(t, kv0, rows0, pk, row, kv1, kv);
      rows := rows[pk := row[t.pkeys..]];
      assert rows == rows0[pk := row[t.pkeys..]];
    }

    /** Upsert */
    method Upsert(rec: Record) returns (ok: bool)
      requires Valid() && RowOk(t, rec.vals) && rec.cols == t.cols
      modifies this, rec
      ensures ok && Elsewhere(t, old(kv), kv) && Written(old(rec.vals))
      ensures rows == old(rows)[old(rec.vals)[..t.pkeys] := old(rec.vals)[t.pkeys..]]
      ensures var row := old(rec.vals); Valid() <==> (row[..t.pkeys] in old(rows) ==> Shared(t, old(rows), row[..t.pkeys], row))
    {
      hide RowOk, Agrees, Elsewhere, Shared;
      RowPk(t, rec.vals);
      var getRec := GetPKs(rec, t.pkeys);
      var found := GetByKey(getRec, rec.vals[..t.pkeys]);
      if found {
        ok := Update(rec);
      } else {
        ok := Insert(rec);
      }
    }

    /** Delete, given a row's primary key or all its columns. */
    method Delete(rec: Record, ghost pk: seq<Value>) returns (ok: bool, ghost stop: nat)
      requires Valid() && TableOk(t) && (|rec.cols| < t.pkeys || Names(rec, pk))
      modifies this
      ensures |rec.cols| < t.pkeys || pk !in old(rows) ==> !ok && Valid() && kv == old(kv) && rows == old(rows)
      ensures Elsewhere(t, old(kv), kv) && rows == if ok then old(rows) - {pk} else old(rows)
      ensures |rec.cols| >= t.pkeys && pk in old(rows) ==> Deleted(pk, old(Given(rec, pk)), stop, ok)
    {
      ok, stop := DbDel(rec, pk);
    }
  }

  lemma RowPk(t: TableDef, row: seq<Value>)
    requires RowOk(t, row)
    ensures TableOk(t) && t.pkeys <= |row| == |t.cols|
    ensures |row[..t.pkeys]| == t.pkeys && TypesOf(row[..t.pkeys]) == t.types[..t.pkeys] && I64(MIN_INT64) !in row[..t.pkeys]
  {
    PkTypes(t, row);
    NoPanics(t, row);
  }

  /** A stored row has its keys in the map. */
  lemma StoredOwn(t: TableDef, kv: Contents, rows: RowMap, pk: seq<Value>)
    requires Agrees(t, kv, rows) && pk in rows
    ensures TableOk(t) && |pk| == t.pkeys && |pk + rows[pk]| == |t.cols| && RowOk(t, pk + rows[pk]) && (pk + rows[pk])[..t.pkeys] == pk
    ensures PrimKey(t, pk) in kv && TypesOf(pk) == t.types[..t.pkeys]
    ensures forall i :: 1 <= i < |t.indexes| ==> SecKey(t, pk + rows[pk], i) in kv
  {
    hide RowOk, SecKey, PrimKey, KeyOfSome;
    StoredKeys(t, kv, rows, pk);
    StoredPk(t, kv, rows, pk);
  }

  lemma NoIndexPrim(t: TableDef, row: seq<Value>, pk: seq<Value>)
    requires TableOk(t) && |row| == |t.cols|
    ensures !IndexKeyOf(t, row, |t.indexes|, PrimKey(t, pk))
  {
    hide SecKey, PrimKey;
    forall i | 1 <= i < |t.indexes| ensures SecKey(t, row, i) != PrimKey(t, pk) { NoPrim(t, row, i, pk); }
  }

  lemma TakenElsewhere(t: TableDef, kv: Contents, given: seq<Value>, n: nat, pk: seq<Value>, own: bool, r: Contents)
    requires TableOk(t) && |given| == |t.cols| && n <= |t.indexes| && Taken(t, kv, given, n, pk, own, r)
    ensures Elsewhere(t, kv, r)
  {
    hide SecKey, PrimKey, Ours;
    OursPrim(t, pk);
    forall k | IndexKeyOf(t, given, n, k) ensures Ours(t, k) {
      var i :| 1 <= i < n && k == SecKey(t, given, i);
      OursSec(t, given, i);
    }
  }

  lemma AddedElsewhere(t: TableDef, kv: Contents, row: seq<Value>, r: Contents)
    requires TableOk(t) && |row| == |t.cols| && Added(t, kv, row, r)
    ensures Elsewhere(t, kv, r)
  {
    hide KeyOfRow, Ours, PrimKey;
    KeysAreOurs(t, row);
  }

  lemma RowLength(t: TableDef, row: seq<Value>)
    requires RowOk(t, row)
    ensures TableOk(t) && t.pkeys <= |row| == |t.cols|
  {
  }

  lemma ElsewhereTrans(t: TableDef, a: Contents, b: Contents, c: Contents)
    requires Elsewhere(t, a, b) && Elsewhere(t, b, c)
    ensures Elsewhere(t, a, c)
  {
    hide Ours;
  }

  // ------------------------------------------------------------ where the entries go wrong

  function ByName(): TableDef { TableDef(["name", "age"], [TBytes, TInt], 1, [10, 11], [["name"], ["name"]]) }

  /** Two rows with one index entry: an indexed primary key that is empty, and one that is 0xff. */
  lemma EmptyKeyCollides()
    ensures TableOk(ByName())
    ensures SecKey(ByName(), [Str([]), I64(1)], 1) == SecKey(ByName(), [Str([0xff]), I64(2)], 1)
    ensures PrimKey(ByName(), [Str([])]) != PrimKey(ByName(), [Str([0xff])])
  {
    hide Key;
    var t, a, b := ByName(), [Str([]), I64(1)], [Str([0xff]), I64(2)];
    assert t.indexes[1] == ["name"] && t.indexes[1][0] == t.cols[0];
    assert Indexed(t, 0, 1);
    assert Tuple(t, a, 1) == Tuple(t, b, 1) == [Str([0xff])];
    assert Patched(t, a, 1)[..1] == Patched(t, b, 1)[..1];
    KeysDiffer(10, 10, [Str([])], [Str([0xff])]);
  }

  /** A row put into a table. */
  method InsertRow(tx: DBTX, row: seq<Value>, ghost pk: seq<Value>)
    requires tx.Valid() && RowOk(tx.t, row) && pk == row[..tx.t.pkeys] && pk !in tx.rows
    modifies tx
    ensures tx.Valid() && tx.rows == old(tx.rows)[pk := row[tx.t.pkeys..]] && tx.delSet <= old(tx.delSet) && pk + tx.rows[pk] == row
    ensures forall i :: 1 <= i < |tx.t.indexes| ==> SecKey(tx.t, row, i) in tx.kv
  {
    hide SecKey, Agrees, Elsewhere, RowOk;
    RowLength(tx.t, row);
    var rec := new Record(tx.t.cols, row);
    var done := tx.Insert(rec);
    assert pk + row[tx.t.pkeys..] == row;
    StoredOwn(tx.t, tx.kv, tx.rows, pk);
  }

  lemma TwoColumns(t: TableDef, x: bytes, n: int64)
    requires t == ByName() || t == ByAge()
    requires n != MIN_INT64
    ensures TableOk(t) && RowOk(t, [Str(x), I64(n)])
    ensures var row: seq<Value> := [Str(x), I64(n)]; row[..t.pkeys] == [Str(x)] && row[t.pkeys..] == [I64(n)]
  {
    var row: seq<Value> := [Str(x), I64(n)];
    assert TypesOf(row) == [TypeOf(row[0])] + TypesOf(row[1..]);
    assert row[1..] == [I64(n)];
    assert t.cols[0] != t.cols[1];
    assert "name" in t.cols && "age" in t.cols;
  }

  /** Of two rows that share their index entry one is deleted, and the other one's entry is gone. */
  method LoseEntry() returns (tx: DBTX)
    ensures fresh(tx) && tx.t == ByName() && tx.rows == map[[Str([0xff])] := [I64(2)]]
    ensures TableOk(ByName()) && SecKey(ByName(), [Str([0xff]), I64(2)], 1) !in tx.kv && !tx.Valid()
  {
    hide SecKey, Agrees, Elsewhere, Patched, Tuple, RowOk;
    ghost var pk: seq<Value>, qk: seq<Value> := [Str([])], [Str([0xff])];
    EmptyKeyCollides();
    TwoColumns(ByName(), [], 1);
    TwoColumns(ByName(), [0xff], 2);
    tx := new DBTX(ByName());
    InsertRow(tx, [Str([]), I64(1)], pk);
    InsertRow(tx, [Str([0xff]), I64(2)], qk);
    DropRow(tx, [Str([])], [Str([]), I64(1)], qk);
  }

  /** The row under pk goes; its entry in index 1 was also the one of the row under qk. */
  method DropRow(tx: DBTX, pk: seq<Value>, ghost row: seq<Value>, ghost qk: seq<Value>)
    requires tx.Valid() && tx.t == ByName() && TableOk(tx.t) && |pk| == 1 && TypesOf(pk) == [TBytes] && pk in tx.rows && qk in tx.rows && pk != qk
    requires row == pk + tx.rows[pk] && |row| == |qk + tx.rows[qk]| == 2 && SecKey(tx.t, row, 1) == SecKey(tx.t, qk + tx.rows[qk], 1)
    modifies tx
    ensures tx.rows == old(tx.rows) - {pk} && SecKey(tx.t, row, 1) !in tx.kv && !tx.Valid()
  {
    hide SecKey, Agrees, Elsewhere, Patched, Tuple, RowOk;
    var t := tx.t;
    IsAnother(t, tx.rows, pk, 1, qk);
    StoredOwn(t, tx.kv, tx.rows, pk);
    assert TypeOf(pk[0]) == TypesOf(pk)[0];
    var rec := new Record(t.cols[..1], pk);
    var done;
    ghost var stop;
    done, stop := tx.Delete(rec, pk);
    InIndex(t, row, 1);
  }

  function ByAge(): TableDef { TableDef(["name", "age"], [TBytes, TInt], 1, [10, 11], [["name"], ["age"]]) }

  /** A row is deleted by a record with another indexed value: its own entry stays behind. */
  method LeaveStale() returns (tx: DBTX)
    ensures fresh(tx) && tx.t == ByAge() && tx.rows == map[]
    ensures TableOk(ByAge()) && SecKey(ByAge(), [Str([1]), I64(7)], 1) in tx.kv && !tx.Valid()
  {
    hide SecKey, Agrees, Elsewhere, Patched, RowOk, Tuple;
    ghost var pk: seq<Value> := [Str([1])];
    TwoColumns(ByAge(), [1], 7);
    TwoColumns(ByAge(), [1], 8);
    AgesDiffer();
    tx := new DBTX(ByAge());
    InsertRow(tx, [Str([1]), I64(7)], pk);
    DropOther(tx, [Str([1]), I64(8)], [Str([1]), I64(7)], pk);
    assert tx.rows == map[];
  }

  lemma AgesDiffer()
    ensures TableOk(ByAge()) && SecKey(ByAge(), [Str([1]), I64(8)], 1) != SecKey(ByAge(), [Str([1]), I64(7)], 1)
  {
    hide SecKey, Patched;
    var t := ByAge();
    var a: seq<Value>, b: seq<Value> := [Str([1]), I64(8)], [Str([1]), I64(7)];
    TwoColumns(t, [1], 7);
    TwoColumns(t, [1], 8);
    SameEntry(t, a, b, 1);
    assert t.indexes[1][0] == t.cols[1];
    assert Tuple(t, a, 1)[0] == I64(8) && Tuple(t, b, 1)[0] == I64(7);
  }

  /** The only row goes, by a record with another key in index 1. */
  method DropOther(tx: DBTX, vals: seq<Value>, ghost row: seq<Value>, ghost pk: seq<Value>)
    requires tx.Valid() && tx.t == ByAge() && RowOk(tx.t, vals) && pk == vals[..tx.t.pkeys] && tx.rows.Keys == {pk} && tx.delSet == {}
    requires row == pk + tx.rows[pk] && |row| == 2 && SecKey(tx.t, vals, 1) != SecKey(tx.t, row, 1)
    modifies tx
    ensures tx.rows == old(tx.rows) - {pk} && SecKey(tx.t, row, 1) in tx.kv && !tx.Valid()
  {
    hide SecKey, Agrees, Elsewhere, Patched, Tuple, RowOk;
    var t := tx.t;
    RowPk(t, vals);
    StoredOwn(t, tx.kv, tx.rows, pk);
    var rec := new Record(t.cols, vals);
    var done;
    ghost var stop;
    done, stop := tx.Delete(rec, pk);
    OnlyAt(t, vals, row, 1);
    NoPrim(t, row, 1, pk);
  }
}
