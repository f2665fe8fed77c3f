/**
 * Slotted pages (BNode in storage/btree.go):
 *
 *   | type 2 | nkeys 2 | nkeys pointers of 8 | nkeys offsets of 2 | klen 2, vlen 2, key, val | ... |
 *
 * The getters are functions of a page's bytes. FilledFor says which slots of a buffer have been
 * written so far; PageIs says that a page is complete.
 */
module Pages {
  import opened Bytes

  const PAGE_SIZE := 4096
  const HEADER := 4

  // Where the areas of a page with n slots start. Products by constants are spelled as sums.
  function Eight(n: nat): nat { n + n + n + n + n + n + n + n }
  function PtrPos(i: nat): nat { HEADER + Eight(i) }
  function OffsetsStart(n: nat): nat { HEADER + Eight(n) }
  function DataStart(n: nat): nat { OffsetsStart(n) + n + n }

  const MAXKEYLEN := 1000

  datatype Kind = NODE | LEAF
  datatype Entry = Entry(ptr: nat, key: bytes, val: bytes)

  function KindCode(k: Kind): nat { match k case NODE => 1 case LEAF => 2 }

  // ------------------------------------------------------------ what entries occupy

  predicate StorableEntry(e: Entry) { |e.key| < TWO_16 && |e.val| < TWO_16 && e.ptr < TWO_64 }

  predicate Storable(es: seq<Entry>) { forall i :: 0 <= i < |es| ==> StorableEntry(es[i]) }

  function EntrySize(e: Entry): nat { 4 + |e.key| + |e.val| }

  /** klen, vlen, key, val */
  function EntryBytes(e: Entry): (s: bytes)
    ensures |s| == EntrySize(e)
  {
    U16Bytes(|e.key|) + U16Bytes(|e.val|) + e.key + e.val
  }

  /** Bytes of the key-value area; a page also spends 10 bytes a slot on pointer and offset. */
  function DataSize(es: seq<Entry>): nat {
    if es == [] then 0 else DataSize(es[..|es| - 1]) + EntrySize(es[|es| - 1])
  }

  function PageBytes(es: seq<Entry>): nat { DataStart(|es|) + DataSize(es) }

  function DataBytes(es: seq<Entry>): (s: bytes)
    ensures |s| == DataSize(es)
  {
    if es == [] then [] else DataBytes(es[..|es| - 1]) + EntryBytes(es[|es| - 1])
  }

  function PtrBytes(es: seq<Entry>): (s: bytes)
    ensures |s| == Eight(|es|)
  {
    if es == [] then [] else PtrBytes(es[..|es| - 1]) + ToLE(es[|es| - 1].ptr, 8)
  }

  /** Slot i's offset field says where slot i ends. */
  function OffsetBytes(es: seq<Entry>): (s: bytes)
    ensures |s| == |es| + |es|
  {
    if es == [] then [] else OffsetBytes(es[..|es| - 1]) + U16Bytes(DataSize(es))
  }

  lemma Snoc(es: seq<Entry>, e: Entry)
    ensures DataSize(es + [e]) == DataSize(es) + EntrySize(e)
    ensures PtrBytes(es + [e]) == PtrBytes(es) + ToLE(e.ptr, 8)
    ensures OffsetBytes(es + [e]) == OffsetBytes(es) + U16Bytes(DataSize(es + [e]))
    ensures DataBytes(es + [e]) == DataBytes(es) + EntryBytes(e)
  {
    assert (es + [e])[..|es|] == es;
  }

  lemma EmptyData()
    ensures DataSize([]) == 0 && PtrBytes([]) == [] && OffsetBytes([]) == [] && DataBytes([]) == []
  {
  }

  lemma DataStep(a: seq<Entry>, c: seq<Entry>, e: Entry)
    requires DataSize(a + c) == DataSize(a) + DataSize(c) && DataBytes(a + c) == DataBytes(a) + DataBytes(c)
    ensures DataSize(a + (c + [e])) == DataSize(a) + DataSize(c + [e])
    ensures DataBytes(a + (c + [e])) == DataBytes(a) + DataBytes(c + [e])
  {
    hide DataSize, DataBytes, EntryBytes, EntrySize;
    Associates(a, c, [e]);
    var ac := a + c;
    Snoc(ac, e);
    Snoc(c, e);
    Associates(DataBytes(a), DataBytes(c), EntryBytes(e));
  }

  lemma {:induction false} DataConcat(a: seq<Entry>, b: seq<Entry>)
    ensures DataSize(a + b) == DataSize(a) + DataSize(b)
    ensures DataBytes(a + b) == DataBytes(a) + DataBytes(b)
  {
    hide DataSize, DataBytes, EntryBytes, EntrySize;
    if b == [] {
      assert a + b == a;
      EmptyData();
    } else {
      var c, e := b[..|b| - 1], b[|b| - 1];
      assert b == c + [e];
      DataConcat(a, c);
      DataStep(a, c, e);
    }
  }

  /** What is at slot i, in each of the three areas. */
  lemma {:induction false} SlotAt(s: bytes, p: nat, d: nat, es: seq<Entry>, i: nat)
    requires i < |es|
    requires At(s, p, PtrBytes(es)) && At(s, d, DataBytes(es))
    ensures At(s, p + Eight(i), ToLE(es[i].ptr, 8))
    ensures At(s, d + DataSize(es[..i]), EntryBytes(es[i]))
  {
    hide DataSize, PtrBytes, DataBytes, EntryBytes, EntrySize, ToLE, At;
    var c, e := es[..|es| - 1], es[|es| - 1];
    assert es == c + [e];
    Snoc(c, e);
    AtConcat(s, p, PtrBytes(c), ToLE(e.ptr, 8));
    AtConcat(s, d, DataBytes(c), EntryBytes(e));
    if i < |c| {
      SlotAt(s, p, d, c, i);
      assert c[..i] == es[..i];
    } else {
      assert es[..i] == c;
    }
  }

  lemma {:induction false} OffsetAt(s: bytes, o: nat, es: seq<Entry>, i: nat)
    requires i < |es|
    requires At(s, o, OffsetBytes(es))
    ensures At(s, o + i + i, U16Bytes(DataSize(es[..i + 1])))
    ensures DataSize(es[..i + 1]) == DataSize(es[..i]) + EntrySize(es[i]) <= DataSize(es)
  {
    hide DataSize, OffsetBytes, EntrySize, U16Bytes, At;
    var c, e := es[..|es| - 1], es[|es| - 1];
    assert es == c + [e];
    Snoc(c, e);
    AtConcat(s, o, OffsetBytes(c), U16Bytes(DataSize(es)));
    if i < |c| {
      OffsetAt(s, o, c, i);
      assert c[..i] == es[..i] && c[..i + 1] == es[..i + 1];
    } else {
      assert es[..i] == c && es[..i + 1] == es;
    }
  }

  // ------------------------------------------------------------ getters

  function BType(s: bytes): nat requires |s| >= HEADER { U16(s, 0) }

  function NKeys(s: bytes): nat requires |s| >= HEADER { U16(s, 2) }

  function KvStart(s: bytes): nat requires |s| >= HEADER { DataStart(NKeys(s)) }

  function GetPtr(s: bytes, idx: nat): nat
    requires |s| >= HEADER && KvStart(s) <= |s| && idx < NKeys(s)
  {
    FromLE(s[PtrPos(idx)..PtrPos(idx) + 8])
  }

  function OffsetPos(s: bytes, idx: nat): nat
    requires |s| >= HEADER && 1 <= idx <= NKeys(s)
  {
    OffsetsStart(NKeys(s)) + (idx - 1) + (idx - 1)
  }

  function GetOffset(s: bytes, idx: nat): nat
    requires |s| >= HEADER && KvStart(s) <= |s| && idx <= NKeys(s)
  {
    if idx == 0 then 0 else U16(s, OffsetPos(s, idx))
  }

  function KvPos(s: bytes, idx: nat): nat
    requires |s| >= HEADER && KvStart(s) <= |s| && idx <= NKeys(s)
  {
    KvStart(s) + GetOffset(s, idx)
  }

  predicate KvInside(s: bytes, idx: nat) {
    && |s| >= HEADER && KvStart(s) <= |s| && idx < NKeys(s)
    && KvPos(s, idx) + 4 <= |s|
    && KvPos(s, idx) + 4 + U16(s, KvPos(s, idx)) + U16(s, KvPos(s, idx) + 2) <= |s|
  }

  function GetKey(s: bytes, idx: nat): bytes
    requires KvInside(s, idx)
  {
    var pos := KvPos(s, idx);
    var klen := U16(s, pos);
    s[pos + 4..pos + 4 + klen]
  }

  function GetVal(s: bytes, idx: nat): bytes
    requires KvInside(s, idx)
  {
    var pos := KvPos(s, idx);
    var klen := U16(s, pos);
    var vlen := U16(s, pos + 2);
    s[pos + 4 + klen..pos + 4 + klen + vlen]
  }

  function NBytes(s: bytes): nat
    requires |s| >= HEADER && KvStart(s) <= |s|
  {
    KvPos(s, NKeys(s))
  }

  // ------------------------------------------------------------ partly filled and complete pages

  /** In a page laid out for n slots: the pointers of ps, the offsets of os and the data of ds are in place. */
  predicate Areas(s: bytes, n: nat, ps: seq<Entry>, os: seq<Entry>, ds: seq<Entry>) {
    && |s| >= HEADER && NKeys(s) == n && |ps| <= n && |os| <= n
    && DataStart(n) + DataSize(ds) <= |s| < TWO_16
    && At(s, HEADER, PtrBytes(ps))
    && At(s, OffsetsStart(n), OffsetBytes(os))
    && At(s, DataStart(n), DataBytes(ds))
  }

  /** The first |es| slots of s, laid out for n slots in all, hold es. */
  predicate FilledFor(s: bytes, n: nat, es: seq<Entry>) { Storable(es) && Areas(s, n, es, es, es) }

  predicate PageIs(s: bytes, kind: Kind, es: seq<Entry>) {
    |s| >= HEADER && BType(s) == KindCode(kind) && FilledFor(s, |es|, es)
  }

  /** Byte pages refine entry sequences: every getter reads back what the slot was given. */
  lemma ReadBack(s: bytes, n: nat, es: seq<Entry>, i: nat)
    requires FilledFor(s, n, es) && i < |es|
    ensures KvInside(s, i)
    ensures GetPtr(s, i) == es[i].ptr
    ensures GetKey(s, i) == es[i].key && GetVal(s, i) == es[i].val
  {
    hide DataSize, PtrBytes, OffsetBytes, DataBytes, EntryBytes, ToLE, FromLE, U16Bytes;
    ReadOffset(s, n, es, es, es, i);
    SlotAt(s, HEADER, DataStart(n), es, i);
    ReadEntry(s, DataStart(n) + DataSize(es[..i]), es[i]);
    Pow256Of8();
    LERoundTrip(es[i].ptr, 8);
  }

  lemma ReadOffset(s: bytes, n: nat, ps: seq<Entry>, os: seq<Entry>, ds: seq<Entry>, i: nat)
    requires Areas(s, n, ps, os, ds) && i <= |os| && DataSize(os) < TWO_16
    ensures GetOffset(s, i) == DataSize(os[..i]) <= DataSize(os)
  {
    hide DataSize, PtrBytes, OffsetBytes, DataBytes, EntryBytes, EntrySize, ToLE, U16Bytes, At;
    if i == 0 {
      EmptyData();
    } else {
      OffsetAt(s, OffsetsStart(n), os, i - 1);
      AtU16(s, OffsetPos(s, i), DataSize(os[..i]));
    }
  }

  lemma ReadEntry(s: bytes, p: nat, e: Entry)
    requires StorableEntry(e) && At(s, p, EntryBytes(e))
    ensures U16(s, p) == |e.key| && U16(s, p + 2) == |e.val|
    ensures s[p + 4..p + 4 + |e.key|] == e.key
    ensures s[p + 4 + |e.key|..p + 4 + |e.key| + |e.val|] == e.val
  {
    var k, v := U16Bytes(|e.key|), U16Bytes(|e.val|);
    AtConcat(s, p, k + v + e.key, e.val);
    AtConcat(s, p, k + v, e.key);
    AtConcat(s, p, k, v);
    AtU16(s, p, |e.key|);
    AtU16(s, p + 2, |e.val|);
  }

  /** A complete page has one meaning. */
  lemma PageIsUnique(s: bytes, k1: Kind, es1: seq<Entry>, k2: Kind, es2: seq<Entry>)
    requires PageIs(s, k1, es1) && PageIs(s, k2, es2)
    ensures k1 == k2 && es1 == es2
  {
    forall i | 0 <= i < |es1| ensures es1[i] == es2[i] {
      ReadBack(s, |es1|, es1, i);
      ReadBack(s, |es2|, es2, i);
    }
  }

  lemma PageSize(s: bytes, es: seq<Entry>)
    requires FilledFor(s, |es|, es)
    ensures NBytes(s) == PageBytes(es)
  {
    hide DataSize, PtrBytes, OffsetBytes, DataBytes, At;
    ReadOffset(s, |es|, es, es, es, |es|);
    assert es[..|es|] == es;
  }

  /** Cutting a complete page's buffer after its last byte, or anywhere later, keeps its meaning. */
  lemma PageTruncated(s: bytes, kind: Kind, es: seq<Entry>, m: nat)
    requires PageIs(s, kind, es) && PageBytes(es) <= m <= |s|
    ensures PageIs(s[..m], kind, es)
  {
    hide DataSize, PtrBytes, OffsetBytes, DataBytes, At;
    AtPrefix(s, m, HEADER, PtrBytes(es));
    AtPrefix(s, m, OffsetsStart(|es|), OffsetBytes(es));
    AtPrefix(s, m, DataStart(|es|), DataBytes(es));
  }
}
