/** Records and table definitions (types/schema.go) and the keys of secondary indexes (index/secondary.go). */
module Indexes {
  import opened Bytes
  import opened Codecs

  /** types.Record; the slices that copies of a record share in Go are one object here. */
  class Record {
    var cols: seq<string>
    var vals: seq<Value>

    constructor (cols: seq<string>, vals: seq<Value>)
      ensures this.cols == cols && this.vals == vals
    {
      this.cols, this.vals := cols, vals;
    }

    method AddStr(col: string, val: bytes)
      modifies this
      ensures cols == old(cols) + [col] && vals == old(vals) + [Str(val)]
    {
      cols, vals := cols + [col], vals + [Str(val)];
    }

    method AddI64(col: string, val: int64)
      modifies this
      ensures cols == old(cols) + [col] && vals == old(vals) + [I64(val)]
    {
      cols, vals := cols + [col], vals + [I64(val)];
    }

    /** Get: where the column's value is. */
    method Get(col: string) returns (i: Option<nat>)
      ensures i.None? <==> col !in cols
      ensures i.Some? ==> i.value < |cols| && cols[i.value] == col && col !in cols[..i.value]
    {
      for j := 0 to |cols|
        invariant col !in cols[..j]
      {
        if cols[j] == col { return Some(j); }
      }
      assert cols[..|cols|] == cols;
      return None;
    }
  }

  /** Index 0 is the primary key. */
  datatype TableDef = TableDef(cols: seq<string>, types: seq<Type>, pkeys: nat, prefixes: seq<nat>, indexes: seq<seq<string>>)

  /** A table with distinct columns and prefixes, its primary key first. */
  ghost predicate TableOk(t: TableDef) {
    && |t.types| == |t.cols| && 0 < t.pkeys <= |t.cols| && |t.prefixes| == |t.indexes| > 0
    && (forall i, j :: 0 <= i < j < |t.cols| ==> t.cols[i] != t.cols[j])
    && (forall i, j :: 0 <= i < j < |t.prefixes| ==> t.prefixes[i] != t.prefixes[j])
    && (forall i :: 0 <= i < |t.prefixes| ==> t.prefixes[i] < TWO_32)
    && (forall i, j :: 1 <= i < |t.indexes| && 0 <= j < |t.indexes[i]| ==> t.indexes[i][j] in t.cols)
  }

  ghost function Pos(t: TableDef, col: string): (j: nat)
    requires col in t.cols
    ensures j < |t.cols| && t.cols[j] == col
  {
    var j :| 0 <= j < |t.cols| && t.cols[j] == col;
    j
  }

  /** An indexed column's value in a key: an empty string is written as 0xff. */
  function Shown(v: Value): Value { if v == Str([]) then Str([0xff]) else v }

  /** Column j is in one of the indexes 1 to i. */
  ghost predicate Indexed(t: TableDef, j: nat, i: nat)
    requires j < |t.cols|
  {
    exists m :: 1 <= m <= i && m < |t.indexes| && t.cols[j] in t.indexes[m]
  }

  /** The record's values once the keys of the indexes 1 to i have been made: the replacement stays in it. */
  ghost function Patched(t: TableDef, row: seq<Value>, i: nat): (r: seq<Value>)
    requires |row| == |t.cols|
    ensures |r| == |row|
  {
    seq(|row|, j requires 0 <= j < |row| => if Indexed(t, j, i) then Shown(row[j]) else row[j])
  }

  /** The indexed values. */
  ghost function Tuple(t: TableDef, row: seq<Value>, i: nat): (r: seq<Value>)
    requires TableOk(t) && |row| == |t.cols| && 1 <= i < |t.indexes|
    ensures |r| == |t.indexes[i]|
  {
    seq(|t.indexes[i]|, k requires 0 <= k < |t.indexes[i]| => Shown(row[Pos(t, t.indexes[i][k])]))
  }

  /** What index i's key of a row holds: the indexed values, then the primary key. */
  ghost function IndexEntry(t: TableDef, row: seq<Value>, i: nat): seq<Value>
    requires TableOk(t) && |row| == |t.cols| && 1 <= i < |t.indexes|
  {
    Tuple(t, row, i) + Patched(t, row, i)[..t.pkeys]
  }

  ghost function SecKey(t: TableDef, row: seq<Value>, i: nat): bytes
    requires TableOk(t) && |row| == |t.cols| && 1 <= i < |t.indexes|
  {
    Key(t.prefixes[i], IndexEntry(t, row, i))
  }

  /** The record's values are those of the row, with anything behind them. */
  ghost predicate Holds(rec: Record, t: TableDef, row: seq<Value>)
    reads rec
  {
    |rec.cols| == |rec.vals| && t.cols <= rec.cols && row <= rec.vals && |row| == |t.cols|
  }

  lemma FirstColumn(t: TableDef, cols: seq<string>, col: string, i: nat)
    requires TableOk(t) && t.cols <= cols && col in t.cols && i < |cols| && cols[i] == col && col !in cols[..i]
    ensures i == Pos(t, col)
  {
    var j := Pos(t, col);
    assert cols[j] == col;
    assert forall m :: 0 <= m < i ==> cols[..i][m] == cols[m];
  }

  /** While index i's columns are shown: the first k of them have been, in the record and in the key. */
  ghost predicate Showing(t: TableDef, row: seq<Value>, i: nat, k: nat, vals: seq<Value>, pks: seq<Value>)
    requires TableOk(t) && |row| == |t.cols| && 1 <= i < |t.indexes|
  {
    && k <= |t.indexes[i]| && |row| <= |vals| && pks == Tuple(t, row, i)[..k]
    && forall j :: 0 <= j < |row| ==> vals[j] == if Indexed(t, j, i - 1) || t.cols[j] in t.indexes[i][..k] then Shown(row[j]) else row[j]
  }

  lemma ShowStart(t: TableDef, row: seq<Value>, i: nat, vals: seq<Value>)
    requires TableOk(t) && |row| == |t.cols| && 1 <= i < |t.indexes| && Patched(t, row, i - 1) <= vals
    ensures Showing(t, row, i, 0, vals, [])
  {
    forall j | 0 <= j < |row| ensures vals[j] == if Indexed(t, j, i - 1) then Shown(row[j]) else row[j] {
      assert vals[..|row|][j] == Patched(t, row, i - 1)[j];
    }
  }

  lemma ShowStep(t: TableDef, row: seq<Value>, i: nat, k: nat, vals: seq<Value>, pks: seq<Value>)
    requires TableOk(t) && |row| == |t.cols| && 1 <= i < |t.indexes| && k < |t.indexes[i]|
    requires Showing(t, row, i, k, vals, pks)
    ensures var p := Pos(t, t.indexes[i][k]); var v := Shown(vals[p]);
      Showing(t, row, i, k + 1, vals[p := v], pks + [v])
  {
    var idx := t.indexes[i];
    var p := Pos(t, idx[k]);
    var v := Shown(vals[p]);
    assert v == Shown(row[p]);
    assert idx[..k + 1] == idx[..k] + [idx[k]];
    assert Tuple(t, row, i)[..k + 1] == Tuple(t, row, i)[..k] + [v];
  }

  lemma ShowEnd(t: TableDef, row: seq<Value>, i: nat, vals: seq<Value>, pks: seq<Value>)
    requires TableOk(t) && |row| == |t.cols| && 1 <= i < |t.indexes|
    requires Showing(t, row, i, |t.indexes[i]|, vals, pks)
    ensures Patched(t, row, i) <= vals && pks == Tuple(t, row, i) && pks + vals[..t.pkeys] == IndexEntry(t, row, i)
  {
    var idx := t.indexes[i];
    assert idx[..|idx|] == idx;
    forall j | 0 <= j < |row| ensures vals[j] == Patched(t, row, i)[j] { IndexedStep(t, j, i); }
    assert vals[..|row|] == Patched(t, row, i);
    assert vals[..t.pkeys] == Patched(t, row, i)[..t.pkeys];
    assert Tuple(t, row, i)[..|idx|] == Tuple(t, row, i);
  }

  lemma IndexedStep(t: TableDef, j: nat, i: nat)
    requires j < |t.cols| && 1 <= i < |t.indexes|
    ensures Indexed(t, j, i) <==> Indexed(t, j, i - 1) || t.cols[j] in t.indexes[i]
  {
  }

  /** GetSecondaryIndexesKeys; None is a panic, on the minimum integer. */
  method GetSecondaryIndexesKeys(t: TableDef, rec: Record, ghost row: seq<Value>) returns (keys: Option<seq<bytes>>)
    requires TableOk(t) && Holds(rec, t, row)
    modifies rec`vals
    ensures keys.None? <==> exists i :: 1 <= i < |t.indexes| && I64(MIN_INT64) in IndexEntry(t, row, i)
    ensures keys.Some? ==> |keys.value| == |t.indexes| - 1
    ensures keys.Some? ==> forall i :: 1 <= i < |t.indexes| ==> keys.value[i - 1] == SecKey(t, row, i)
    ensures keys.Some? ==> rec.vals == Patched(t, row, |t.indexes| - 1) + old(rec.vals)[|row|..]
  {
    hide Tuple, Patched, Key, Indexed;
    var out := [];
    PatchedNone(t, row);
    assert rec.vals == row + rec.vals[|row|..];
    for i := 1 to |t.indexes|
      invariant |rec.cols| == |rec.vals| && |out| == i - 1
      invariant rec.vals == Patched(t, row, i - 1) + old(rec.vals)[|row|..]
      invariant forall m :: 1 <= m < i ==> out[m - 1] == SecKey(t, row, m) && I64(MIN_INT64) !in IndexEntry(t, row, m)
    {
      var pks := ShowColumns(t, rec, row, i);
      pks := pks + rec.vals[..t.pkeys];
      var key := EncodeKey(t.prefixes[i], pks);
      if key.None? { return None; }
      out := out + [key.value];
    }
    return Some(out);
  }

  /** The loop over an index's columns. */
  method ShowColumns(t: TableDef, rec: Record, ghost row: seq<Value>, i: nat) returns (pks: seq<Value>)
    requires TableOk(t) && |row| == |t.cols| && t.cols <= rec.cols && |rec.cols| == |rec.vals| && 1 <= i < |t.indexes|
    requires Patched(t, row, i - 1) <= rec.vals
    modifies rec`vals
    ensures |rec.vals| == |old(rec.vals)| && rec.vals == Patched(t, row, i) + old(rec.vals)[|row|..]
    ensures pks + rec.vals[..t.pkeys] == IndexEntry(t, row, i)
  {
    hide Tuple, Patched, Indexed, Showing;
    pks := [];
    ShowStart(t, row, i, rec.vals);
    var idx := t.indexes[i];
    for k := 0 to |idx|
      invariant |rec.vals| == |old(rec.vals)| && rec.vals[|row|..] == old(rec.vals)[|row|..]
      invariant Showing(t, row, i, k, rec.vals, pks)
    {
      var col := idx[k];
      var g := rec.Get(col);
      ghost var v0 := rec.vals;
      ShowStep(t, row, i, k, rec.vals, pks);
      FirstColumn(t, rec.cols, col, g.value);
      if rec.vals[g.value].Str? && |rec.vals[g.value].s| == 0 {
        rec.vals := rec.vals[g.value := Str([0xff])];
      }
      assert rec.vals == v0[g.value := Shown(v0[g.value])];
      pks := pks + [rec.vals[g.value]];
    }
    ShowEnd(t, row, i, rec.vals, pks);
    assert rec.vals == rec.vals[..|row|] + rec.vals[|row|..];
  }

  lemma PatchedNone(t: TableDef, row: seq<Value>)
    requires |row| == |t.cols|
    ensures Patched(t, row, 0) == row
  {
  }

  /** DecodeVal, on values that EncodeVal wrote: the columns behind the primary key are added. */
  method DecodeVal(t: TableDef, rec: Record, decodedVals: seq<Value>)
    requires t.pkeys + |decodedVals| <= |t.cols|
    modifies rec
    ensures rec.cols == old(rec.cols) + t.cols[t.pkeys..t.pkeys + |decodedVals|] && rec.vals == old(rec.vals) + decodedVals
  {
    for i := 0 to |decodedVals|
      invariant rec.cols == old(rec.cols) + t.cols[t.pkeys..t.pkeys + i] && rec.vals == old(rec.vals) + decodedVals[..i]
    {
      var colName := t.cols[i + t.pkeys];
      rec.cols := rec.cols + [colName];
      rec.vals := rec.vals + [decodedVals[i]];
    }
  }

  /** GetPKs: a record of the first columns. */
  method GetPKs(rec: Record, pkeys: nat) returns (r: Record)
    requires pkeys <= |rec.cols| && pkeys <= |rec.vals|
    ensures fresh(r) && r.cols == rec.cols[..pkeys] && r.vals == rec.vals[..pkeys]
  {
    r := new Record([], []);
    for i := 0 to pkeys
      invariant fresh(r) && r.cols == rec.cols[..i] && r.vals == rec.vals[..i]
    {
      match rec.vals[i] {
        case Str(s) => r.AddStr(rec.cols[i], s);
        case I64(n) => r.AddI64(rec.cols[i], n);
      }
    }
  }

  // ------------------------------------------------------------ back from an index to the row

  ghost function IndexTypes(t: TableDef, i: nat): (ts: seq<Type>)
    requires TableOk(t) && 1 <= i < |t.indexes|
    ensures |ts| == |t.indexes[i]|
  {
    seq(|t.indexes[i]|, k requires 0 <= k < |t.indexes[i]| => t.types[Pos(t, t.indexes[i][k])])
  }

  /** The primary key in a key of index i; None is a panic. */
  ghost function PkOf(t: TableDef, key: bytes, i: nat): Option<seq<Value>>
    requires TableOk(t) && 1 <= i < |t.indexes|
  {
    if |key| < 4 then None else
    match CutUp(key[4..], IndexTypes(t, i))
    case None => None
    case Some((_, rest)) => Decode(rest, t.types[..t.pkeys])
  }

  /** A primary key column that is indexed, by index i or one before it, holds an empty string. */
  ghost predicate EmptyPk(t: TableDef, row: seq<Value>, i: nat)
    requires |row| == |t.cols| && t.pkeys <= |row|
  {
    exists j :: 0 <= j < t.pkeys && row[j] == Str([]) && Indexed(t, j, i)
  }

  lemma PatchedPk(t: TableDef, row: seq<Value>, i: nat)
    requires |row| == |t.cols| && t.pkeys <= |row|
    ensures Patched(t, row, i)[..t.pkeys] == row[..t.pkeys] <==> !EmptyPk(t, row, i)
  {
    var p := Patched(t, row, i)[..t.pkeys];
    assert |p| == |row[..t.pkeys]|;
    if EmptyPk(t, row, i) {
      var j :| 0 <= j < t.pkeys && row[j] == Str([]) && Indexed(t, j, i);
      assert p[j] == Str([0xff]) && row[..t.pkeys][j] == Str([]);
    }
  }

  lemma EntryTypes(t: TableDef, row: seq<Value>, i: nat)
    requires TableOk(t) && TypesOf(row) == t.types && 1 <= i < |t.indexes|
    ensures |row| == |t.cols|
    ensures TypesOf(Tuple(t, row, i)) == IndexTypes(t, i) && TypesOf(Patched(t, row, i)[..t.pkeys]) == t.types[..t.pkeys]
    ensures TypesOf(IndexEntry(t, row, i)) == IndexTypes(t, i) + t.types[..t.pkeys]
  {
    assert |row| == |TypesOf(row)|;
    assert forall j :: 0 <= j < |row| ==> TypeOf(row[j]) == TypesOf(row)[j];
  }

  /**
   * GetPKFromSecKey on any secondary key of a well-typed row finds the primary key, exactly when no
   * empty string in the primary key has been written as 0xff.
   */
  lemma PkOfSecKey(t: TableDef, row: seq<Value>, i: nat)
    requires TableOk(t) && TypesOf(row) == t.types && 1 <= i < |t.indexes|
    ensures |row| == |t.cols| && PkOf(t, SecKey(t, row, i), i) == Some(Patched(t, row, i)[..t.pkeys])
    ensures PkOf(t, SecKey(t, row, i), i) == Some(row[..t.pkeys]) <==> !EmptyPk(t, row, i)
  {
    hide CutUp, ReadAll, Tuple, Patched;
    EntryTypes(t, row, i);
    var a, b := Tuple(t, row, i), Patched(t, row, i)[..t.pkeys];
    EncConcat(a, b);
    assert SecKey(t, row, i)[4..] == EncAll(a) + EncAll(b);
    DecodeUndoesEncode(a, EncAll(b));
    DecodeUndoesEncode(b, []);
    assert EncAll(b) + [] == EncAll(b);
    PatchedPk(t, row, i);
  }

  /** The bytes behind an index's columns: GetPKFromSecKey's first loop over the key. */
  method SkipColumns(s: bytes, from: nat, ts: seq<Type>) returns (r: Option<nat>)
    requires from <= |s|
    ensures r.None? <==> CutUp(s[from..], ts).None?
    ensures r.Some? ==> from <= r.value <= |s| && CutUp(s[from..], ts).value.1 == s[r.value..]
  {
    hide CutUp, Before, UpToZero;
    var bytePtr := from;
    ghost var out := [];
    CutStep([], s[from..], ts);
    assert ts[0..] == ts;
    for i := 0 to |ts|
      invariant from <= bytePtr <= |s|
      invariant CutUp(s[from..], ts) == Before(out, CutUp(s[bytePtr..], ts[i..]))
    {
      CutStep(out, s[bytePtr..], ts[i..]);
      assert ts[i..][1..] == ts[i + 1..];
      BeforeNone(out);
      match ts[i] {
        case TBytes =>
          var p := ReadToZero(s, bytePtr);
          if p.None? { return None; }
          out, bytePtr := out + [p.value.0], p.value.1;
        case TInt =>
          if bytePtr + 8 > |s| { return None; }
          assert s[bytePtr..][..8] == s[bytePtr..bytePtr + 8] && s[bytePtr..][8..] == s[bytePtr + 8..];
          out, bytePtr := out + [s[bytePtr..bytePtr + 8]], bytePtr + 8;
      }
    }
    CutStep(out, s[bytePtr..], ts[|ts|..]);
    return Some(bytePtr);
  }

  lemma BeforeNone(out: seq<bytes>)
    ensures Before(out, None).None?
  {
  }

  /** The types of an index's columns: each column's first occurrence in the table. */
  method ValueTypes(t: TableDef, i: nat) returns (ts: seq<Type>)
    requires TableOk(t) && 1 <= i < |t.indexes|
    ensures ts == IndexTypes(t, i)
  {
    ts := [];
    for k := 0 to |t.indexes[i]|
      invariant ts == IndexTypes(t, i)[..k]
    {
      var col := t.indexes[i][k];
      var j := 0;
      while j < |t.cols|
        invariant 0 <= j <= |t.cols| && col !in t.cols[..j]
      {
        if t.cols[j] == col { break; }
        j := j + 1;
      }
      assert t.cols[..|t.cols|] == t.cols;
      FirstColumn(t, t.cols, col, j);
      ts := ts + [t.types[j]];
    }
  }

  /** GetPKFromSecKey */
  method GetPKFromSecKey(t: TableDef, key: bytes, i: nat) returns (rec: Option<Record>)
    requires TableOk(t) && 1 <= i < |t.indexes|
    ensures rec.None? <==> PkOf(t, key, i).None?
    ensures rec.Some? ==> fresh(rec.value) && PkOf(t, key, i) == Some(rec.value.vals) && rec.value.cols == t.cols[..t.pkeys]
  {
    hide CutUp, ReadAll;
    if |key| < 4 { return None; }
    var ts := ValueTypes(t, i);
    var bytePtr := SkipColumns(key, 4, ts);
    if bytePtr.None? { return None; }
    var pks := CutColumns(key, bytePtr.value, t.types[..t.pkeys]);
    if pks.None? { return None; }
    var vals := ReadColumns(pks.value, t.types[..t.pkeys]);
    if vals.None? { return None; }
    ReadLength(pks.value, t.types[..t.pkeys]);
    var r := new Record([], []);
    for j := 0 to t.pkeys
      invariant fresh(r) && r.cols == t.cols[..j] && r.vals == vals.value[..j]
    {
      match vals.value[j] {
        case Str(s) => r.AddStr(t.cols[j], s);
        case I64(n) => r.AddI64(t.cols[j], n);
      }
    }
    assert vals.value[..t.pkeys] == vals.value;
    return Some(r);
  }

  lemma {:induction false} ReadLength(ps: seq<bytes>, ts: seq<Type>)
    requires Pieced(ps, ts)
    ensures ReadAll(ps, ts).Some? ==> |ReadAll(ps, ts).value| == |ts|
    decreases |ts|
  {
    if ts != [] { ReadLength(ps[1..], ts[1..]); }
  }
}
