/** Scanner (db/db.go): an iterator over the snapshot that is put at a range's beginning and walks through it. */
module Scanners {
  import opened Bytes
  import opened SortedRuns
  import opened Trees
  import opened Roots
  import opened BTrees
  import opened Stores
  import opened Iters
  import opened Positions
  import opened Codecs
  import opened Indexes
  import opened Ranges

  /**
   * A primary scan whose closed lower bound is not stored, while a smaller key is: it begins at that
   * key, which is out of range.
   */
  ghost predicate Misses(s: seq<Pair>, b: Bounds, idx: nat) {
    && idx == 0 && b.loIn && (exists j :: 0 <= j < |s| && Less(s[j].key, b.lo)) && (forall j :: 0 <= j < |s| ==> s[j].key != b.lo)
  }

  /** At position p nothing of the range has been passed yet. */
  ghost predicate AtStart(s: seq<Pair>, b: Bounds, idx: nat, valid: bool, p: nat) {
    && p < |s|
    && if Misses(s, b, idx) then valid && !AboveLow(b, s[p].key)
       else (forall j :: 0 <= j < |s| && (j < p || !valid) ==> !AboveLow(b, s[j].key)) && (valid ==> AboveLow(b, s[p].key))
  }

  lemma SeekBounds(s: seq<Pair>, b: Bounds, r: nat)
    requires Sorted(s) && SeekRank(s, b.lo, r)
    ensures forall j :: 0 <= j < r ==> !AboveLow(b, s[j].key)
    ensures Less(s[r].key, b.lo) ==> !AboveLow(b, s[r].key)
    ensures (r + 1 < |s| ==> Less(b.lo, s[r + 1].key)) && (!Less(s[r].key, b.lo) && b.loIn ==> AboveLow(b, s[r].key))
    ensures Less(s[r].key, b.lo) <==> (exists j :: 0 <= j < |s| && Less(s[j].key, b.lo)) && (forall j :: 0 <= j < |s| ==> s[j].key != b.lo)
  {
    LessTotal(s[r].key, b.lo);
    forall j | 0 <= j < |s| && j != r
      ensures j < r ==> Less(s[j].key, b.lo)
      ensures !(Less(s[j].key, b.lo) && Less(b.lo, s[j].key)) && !Less(b.lo, b.lo)
    {
      LessTotal(s[j].key, b.lo);
      LessTotal(b.lo, b.lo);
      if j < r { LessTrans(s[j].key, s[r].key, b.lo); }
    }
  }

  /**
   * What NewScanner comes to: an iterator of an empty tree, which is never valid; a scanner; or still
   * turning in its loop when nobody waits for it any longer.
   */
  datatype Begun = NoRoot | Began(sc: Scanner) | Looping

  /** With an open lower bound that no stored key is above, no turn of the loop is the last one. */
  ghost predicate Hangs(s: seq<Pair>, b: Bounds) { !b.loIn && !SomeAbove(s, b.lo) }

  class Scanner {
    const iter: BIter
    const b: Bounds
    const index: nat

    constructor (iter: BIter, b: Bounds, index: nat)
      ensures this.iter == iter && this.b == b && this.index == index
    {
      this.iter, this.b, this.index := iter, b, index;
    }

    ghost predicate Ready()
      reads iter, iter.tree, set p | p in iter.tree.pages :: iter.tree.pages[p].buf
    {
      iter.InStep() && iter.tree.root != 0 && Sorted(Flat(iter.t))
    }

    /** Next */
    method Next()
      requires Ready()
      modifies iter`path, iter`pos, iter`valid, iter`ptrs
      ensures Ready()
      ensures old(iter.valid) && old(iter.At()) + 1 < |Flat(iter.t)| ==> iter.valid && iter.At() == old(iter.At()) + 1
      ensures old(iter.valid) && old(iter.At()) + 1 == |Flat(iter.t)| ==> !iter.valid && iter.At() == old(iter.At())
    {
      hide Flat, Sorted;
      iter.Next();
    }

    /** Valid: on a pair of the range. */
    method Valid() returns (ok: bool)
      requires Ready()
      ensures ok <==> iter.valid && InBounds(b, Flat(iter.t)[iter.At()].key)
    {
      hide Flat, Sorted, Levels, Shape;
      var v := iter.Valid();
      if !v { return false; }
      var key, val := iter.Deref();
      Signs(b.lo, key);
      Signs(key, b.hi);
      var cmp := Compare(key, b.lo);
      if cmp == 0 && !b.loIn { return false; }
      if cmp < 0 { return false; }
      cmp := Compare(key, b.hi);
      if cmp == 0 && !b.hiIn { return false; }
      if cmp > 0 { return false; }
      return true;
    }

    /** NewScanner's loop, over the keys that an open lower bound leaves out: so many turns of it. */
    method SkipLow(turns: nat) returns (ended: bool)
      requires Ready() && !b.loIn
      requires SomeAbove(Flat(iter.t), b.lo) ==> iter.valid && forall j :: 0 <= j < iter.At() ==> AtMost(Flat(iter.t)[j].key, b.lo)
      modifies iter`path, iter`pos, iter`valid, iter`ptrs
      ensures Ready() && (ended ==> SomeAbove(Flat(iter.t), b.lo)) && (!ended ==> AtMost(Flat(iter.t)[iter.At()].key, b.lo))
      ensures ended ==> iter.valid && Less(b.lo, Flat(iter.t)[iter.At()].key)
      ensures ended ==> forall j :: 0 <= j < iter.At() ==> AtMost(Flat(iter.t)[j].key, b.lo)
      ensures SomeAbove(Flat(iter.t), b.lo) && turns >= |Flat(iter.t)| ==> ended
    {
      hide Flat, Sorted, Levels, Shape, SomeAbove;
      ghost var s := Flat(iter.t);
      var key, val := iter.Deref();
      Signs(b.lo, key);
      var cmp := Compare(key, b.lo);
      var n := 0;
      while cmp <= 0 && !b.loIn && n < turns
        invariant Ready() && key == s[iter.At()].key && cmp == Compare(key, b.lo) && n <= turns
        invariant SomeAbove(s, b.lo) ==> iter.valid && n <= iter.At() && forall j :: 0 <= j < iter.At() ==> AtMost(s[j].key, b.lo)
        decreases turns - n
      {
        if SomeAbove(s, b.lo) { MoreBehind(s, b.lo, iter.At()); }
        Next();
        key, val := iter.Deref();
        cmp := Compare(key, b.lo);
        n := n + 1;
      }
      Signs(b.lo, key);
      if cmp > 0 { AboveIs(s, b.lo, iter.At()); }
      return cmp > 0;
    }

    /**
     * NewScanner from its encoded bounds on. The loop comes to an end exactly when it does not hang,
     * and then within as many turns as there are stored pairs.
     */
    static method Open(snapshot: BTree, b: Bounds, idx: nat, turns: nat) returns (r: Begun)
      requires snapshot.Valid() && (snapshot.root != 0 ==> WF(snapshot.tree.value))
      ensures r.NoRoot? <==> snapshot.root == 0
      ensures snapshot.root != 0 ==> var s := Flat(snapshot.tree.value);
        (Hangs(s, b) ==> r == Looping) && (turns >= |s| ==> (r == Looping <==> Hangs(s, b)))
      ensures r.Began? ==> fresh(r.sc) && fresh(r.sc.iter) && r.sc.iter.tree == snapshot && r.sc.iter.t == snapshot.tree.value
      ensures r.Began? ==> r.sc.b == b && r.sc.index == idx && r.sc.Ready()
      ensures r.Began? ==> AtStart(Flat(snapshot.tree.value), b, idx, r.sc.iter.valid, r.sc.iter.At())
    {
      hide Flat, Levels, Shape, AtStart, Misses, AboveLow, WellFormed, KidRep, SomeAbove, SeekRank;
      var it := BIter.Seek(snapshot, b.lo);
      if it.None? { return NoRoot; }
      var iter := it.value;
      ghost var s := Flat(snapshot.tree.value);
      var scan := new Scanner(iter, b, idx);
      SortedContents(snapshot.tree.value);
      ghost var p := iter.At();
      var key, val := iter.Deref();
      Signs(b.lo, key);
      var cmp := Compare(key, b.lo);
      if cmp < 0 && idx != 0 { scan.Next(); }
      if b.loIn {
        StartClosed(s, b, idx, p, iter.valid, iter.At());
      } else {
        if SomeAbove(s, b.lo) { StartOpen(s, b, idx, p, iter.At()); }
        var ended := scan.SkipLow(turns);
        if !ended { return Looping; }
        StartAbove(s, b, idx, iter.At());
      }
      return Began(scan);
    }

    /** The current pair, and on to the next one. */
    method Take() returns (x: Pair, ok: bool)
      requires Ready() && iter.valid
      modifies iter`path, iter`pos, iter`valid, iter`ptrs
      ensures Ready() && x == Flat(iter.t)[old(iter.At())]
      ensures old(iter.At()) + 1 < |Flat(iter.t)| ==> iter.valid && iter.At() == old(iter.At()) + 1
      ensures old(iter.At()) + 1 == |Flat(iter.t)| ==> !iter.valid
      ensures ok <==> iter.valid && InBounds(b, Flat(iter.t)[iter.At()].key)
    {
      hide Flat, Sorted, Levels, Shape, InBounds;
      var key, val := iter.Deref();
      x := Pair(key, val);
      Next();
      ok := Valid();
    }

    /**
     * A loop of Valid and Next: every pair of the range once, in order, except in the primary scan
     * that misses its lower bound and so visits nothing.
     */
    method Visit() returns (out: seq<Pair>)
      requires Ready() && AtStart(Flat(iter.t), b, index, iter.valid, iter.At())
      modifies iter`path, iter`pos, iter`valid, iter`ptrs
      ensures Misses(Flat(iter.t), b, index) ==> out == []
      ensures out == RangeOf(Flat(iter.t), b) <==> !(Misses(Flat(iter.t), b, index) && RangeOf(Flat(iter.t), b) != [])
    {
      hide Flat, Sorted, Levels, Shape, AtStart, Misses, InBounds, RangeOf;
      ghost var s, p := Flat(iter.t), iter.At();
      ghost var began := iter.valid;
      ghost var q := p;
      out := [];
      var ok := Valid();
      while ok
        invariant Ready() && p <= q <= |s| && out == s[p..q] && (forall j :: p <= j < q ==> InBounds(b, s[j].key))
        invariant began || !iter.valid
        invariant ok ==> q == iter.At() && iter.valid && InBounds(b, s[q].key)
        invariant !ok ==> q == |s| || !began || !InBounds(b, s[q].key)
        invariant !began ==> q == p
        decreases |s| - q, ok
      {
        var x;
        x, ok := Take();
        out := out + [x];
        q := q + 1;
      }
      VisitedAll(s, b, index, began, p, q);
    }

    /** NewScanner's bounds for one record: its primary key, or its columns of the index. */
    static method BoundValues(t: TableDef, rec: Record, idx: nat) returns (vals: seq<Value>)
      requires TableOk(t) && idx < |t.indexes| && |rec.cols| == |rec.vals| && (idx == 0 ==> t.pkeys <= |rec.vals|)
      requires idx != 0 ==> forall k :: 0 <= k < |t.indexes[idx]| ==> t.indexes[idx][k] in rec.cols
      ensures vals == ValuesFor(t, rec.cols, rec.vals, idx)
    {
      if idx == 0 {
        var pks := GetPKs(rec, t.pkeys);
        return pks.vals;
      }
      vals := [];
      for k := 0 to |t.indexes[idx]|
        invariant vals == ValuesFor(t, rec.cols, rec.vals, idx)[..k]
      {
        var col := t.indexes[idx][k];
        var g := rec.Get(col);
        OnlyFirst(rec.cols, col, g.value);
        vals := vals + [rec.vals[g.value]];
      }
    }

    /** NewScanner, on bounds that EncodeKey can encode. */
    static method NewScanner(t: TableDef, snapshot: BTree, key1: Record, key2: Record, inc1: bool, inc2: bool, idx: nat, turns: nat)
      returns (r: Begun)
      requires snapshot.Valid() && (snapshot.root != 0 ==> WF(snapshot.tree.value))
      requires TableOk(t) && idx < |t.indexes|
      requires |key1.cols| == |key1.vals| && |key2.cols| == |key2.vals|
      requires idx == 0 ==> t.pkeys <= |key1.vals| && t.pkeys <= |key2.vals|
      requires idx != 0 ==> forall k :: 0 <= k < |t.indexes[idx]| ==> t.indexes[idx][k] in key1.cols && t.indexes[idx][k] in key2.cols
      requires I64(MIN_INT64) !in ValuesFor(t, key1.cols, key1.vals, idx) && I64(MIN_INT64) !in ValuesFor(t, key2.cols, key2.vals, idx)
      ensures r.NoRoot? <==> snapshot.root == 0
      ensures var b := RecordBounds(t, key1.cols, key1.vals, key2.cols, key2.vals, inc1, inc2, idx);
        && (snapshot.root != 0 ==> var s := Flat(snapshot.tree.value);
              (Hangs(s, b) ==> r == Looping) && (turns >= |s| ==> (r == Looping <==> Hangs(s, b))))
        && (r.Began? ==> r.sc.b == b && r.sc.index == idx && r.sc.Ready() && r.sc.iter.tree == snapshot && r.sc.iter.t == snapshot.tree.value)
        && (r.Began? ==> AtStart(Flat(snapshot.tree.value), b, idx, r.sc.iter.valid, r.sc.iter.At()))
      ensures r.Began? ==> fresh(r.sc) && fresh(r.sc.iter)
    {
      hide Flat, Levels, Shape, AtStart, Misses, WellFormed, KidRep, SomeAbove, Key, ValuesFor, Hangs;
      var vals1 := BoundValues(t, key1, idx);
      var vals2 := BoundValues(t, key2, idx);
      var key1Bytes := EncodeKey(t.prefixes[idx], vals1);
      var key2Bytes := EncodeKey(t.prefixes[idx], vals2);
      var k1, k2, in1, in2 := key1Bytes.value, key2Bytes.value, inc1, inc2;
      var cmp := Compare(k1, k2);
      if cmp > 0 {
        k1, k2 := k2, k1;
        in1, in2 := in2, in1;
      }
      if idx != 0 {
        if in1 { k1 := k1 + [0x00]; } else { k1 := k1 + [0xff]; }
        if in2 { k2 := k2 + [0xff]; } else { k2 := k2 + [0x00]; }
      }
      r := Open(snapshot, Bounds(k1, k2, in1, in2), idx, turns);
    }
  }

  ghost function FirstPos(cols: seq<string>, col: string): (i: nat)
    requires col in cols
    ensures i < |cols| && cols[i] == col && col !in cols[..i]
  {
    if cols[0] == col then 0 else 1 + FirstPos(cols[1..], col)
  }

  lemma OnlyFirst(cols: seq<string>, col: string, i: nat)
    requires i < |cols| && cols[i] == col && col !in cols[..i]
    ensures i == FirstPos(cols, col)
  {
    var j := FirstPos(cols, col);
    assert forall m :: 0 <= m < i ==> cols[..i][m] == cols[m];
    assert forall m :: 0 <= m < j ==> cols[..j][m] == cols[m];
  }

  /** What a bound's record says about index idx. */
  ghost function ValuesFor(t: TableDef, cols: seq<string>, vals: seq<Value>, idx: nat): seq<Value>
    requires TableOk(t) && idx < |t.indexes| && |cols| == |vals| && (idx == 0 ==> t.pkeys <= |vals|)
    requires idx != 0 ==> forall k :: 0 <= k < |t.indexes[idx]| ==> t.indexes[idx][k] in cols
  {
    if idx == 0 then vals[..t.pkeys]
    else seq(|t.indexes[idx]|, k requires 0 <= k < |t.indexes[idx]| => vals[FirstPos(cols, t.indexes[idx][k])])
  }

  ghost function RecordBounds(t: TableDef, cols1: seq<string>, vals1: seq<Value>, cols2: seq<string>, vals2: seq<Value>,
                              inc1: bool, inc2: bool, idx: nat): Bounds
    requires TableOk(t) && idx < |t.indexes| && |cols1| == |vals1| && |cols2| == |vals2|
    requires idx == 0 ==> t.pkeys <= |vals1| && t.pkeys <= |vals2|
    requires idx != 0 ==> forall k :: 0 <= k < |t.indexes[idx]| ==> t.indexes[idx][k] in cols1 && t.indexes[idx][k] in cols2
  {
    BoundsOf(Key(t.prefixes[idx], ValuesFor(t, cols1, vals1, idx)), Key(t.prefixes[idx], ValuesFor(t, cols2, vals2, idx)), inc1, inc2, idx)
  }

  /** From the range's beginning to the first pair out of it. */
  lemma VisitedAll(s: seq<Pair>, b: Bounds, idx: nat, valid: bool, p: nat, q: nat)
    requires Sorted(s) && AtStart(s, b, idx, valid, p) && p <= q <= |s| && (!valid ==> q == p)
    requires forall j :: p <= j < q ==> InBounds(b, s[j].key)
    requires q == |s| || !valid || !InBounds(b, s[q].key)
    ensures s[p..q] == if Misses(s, b, idx) then [] else RangeOf(s, b)
  {
    hide RangeOf;
    if Misses(s, b, idx) {
      assert q == p;
    } else {
      if valid { LowStays(s, b, p); }
      if valid && q < |s| { HighStays(s, b, q); }
      RangeSlice(s, b, p, q);
    }
  }

  ghost predicate SomeAbove(s: seq<Pair>, k: bytes) { exists j :: 0 <= j < |s| && Less(k, s[j].key) }

  lemma AboveIs(s: seq<Pair>, k: bytes, p: nat)
    requires p < |s| && Less(k, s[p].key)
    ensures SomeAbove(s, k)
  {
  }

  lemma MoreBehind(s: seq<Pair>, k: bytes, p: nat)
    requires Sorted(s) && p < |s| && AtMost(s[p].key, k) && SomeAbove(s, k)
    ensures p + 1 < |s|
    ensures forall j :: 0 <= j <= p ==> AtMost(s[j].key, k)
  {
    var i :| 0 <= i < |s| && Less(k, s[i].key);
    forall j | 0 <= j <= p ensures AtMost(s[j].key, k) { LessTrans(s[j].key, s[p].key, k); LessTotal(s[j].key, s[p].key); }
    LessTotal(s[i].key, k);
    LessTotal(k, s[i].key);
  }

  lemma StartClosed(s: seq<Pair>, b: Bounds, idx: nat, r: nat, valid: bool, p: nat)
    requires Sorted(s) && SeekRank(s, b.lo, r) && b.loIn
    requires if Less(s[r].key, b.lo) && idx != 0 then (if r + 1 < |s| then valid && p == r + 1 else !valid && p == r) else valid && p == r
    ensures AtStart(s, b, idx, valid, p)
  {
    SeekBounds(s, b, r);
  }

  lemma StartOpen(s: seq<Pair>, b: Bounds, idx: nat, r: nat, p: nat)
    requires Sorted(s) && SeekRank(s, b.lo, r) && SomeAbove(s, b.lo)
    requires p == r || (p == r + 1 && Less(s[r].key, b.lo))
    ensures Less(s[r].key, b.lo) ==> r + 1 < |s|
    ensures forall j :: 0 <= j < p ==> AtMost(s[j].key, b.lo)
  {
    LessTotal(s[r].key, b.lo);
    if AtMost(s[r].key, b.lo) { MoreBehind(s, b.lo, r); }
    assert r > 0 ==> AtMost(s[r].key, b.lo);
  }

  lemma StartAbove(s: seq<Pair>, b: Bounds, idx: nat, p: nat)
    requires !b.loIn && p < |s| && Less(b.lo, s[p].key) && forall j :: 0 <= j < p ==> AtMost(s[j].key, b.lo)
    ensures AtStart(s, b, idx, true, p)
  {
    forall j | 0 <= j < p ensures !AboveLow(b, s[j].key) { LessTotal(s[j].key, b.lo); }
  }

  lemma Signs(a: bytes, k: bytes)
    ensures Compare(k, a) < 0 <==> !AtMost(a, k)
    ensures Compare(k, a) == 0 <==> k == a
    ensures Less(a, k) <==> Compare(k, a) > 0
  {
    CompareAntisym(a, k);
    CompareZero(a, k);
  }

  lemma SortedContents(t: Tree)
    requires WF(t)
    ensures Sorted(Flat(t))
  {
  }
}
