/**
 * The bytes of a page (storage/btree.go), position by position and in numbers. With the getters' own
 * laws this makes a page one that any program reads which goes by these positions.
 */
module Layouts {
  import opened Bytes
  import opened Pages
  import opened SortedRuns
  import opened Trees
  import opened Roots
  import opened Histories
  import opened Stores
  import opened BTrees

  /** The header: the kind of node and the number of slots. */
  lemma HeaderBytes(s: bytes, kind: Kind, es: seq<Entry>)
    requires PageIs(s, kind, es)
    ensures |s| >= 4 && s[1] == 0 && s[0] == (match kind case NODE => 1 case LEAF => 2)
    ensures var lo: int, hi: int := s[2], s[3]; lo + 256 * hi == |es|
  {
    hide DataSize, PtrBytes, OffsetBytes, DataBytes, At;
  }

  /** Slot i's pointer, of 8 bytes at 4 + 8 * i. */
  lemma PointerBytes(s: bytes, kind: Kind, es: seq<Entry>, i: nat)
    requires PageIs(s, kind, es) && i < |es|
    ensures 4 + 8 * i + 8 <= |s|
    ensures var p := 4 + 8 * i;
      var b0: int, b1: int, b2: int, b3: int := s[p], s[p + 1], s[p + 2], s[p + 3];
      var b4: int, b5: int, b6: int, b7: int := s[p + 4], s[p + 5], s[p + 6], s[p + 7];
      es[i].ptr == b0 + 0x100 * b1 + 0x1_0000 * b2 + 0x100_0000 * b3 + 0x1_0000_0000 * b4 + 0x100_0000_0000 * b5
        + 0x1_0000_0000_0000 * b6 + 0x100_0000_0000_0000 * b7
  {
    hide DataSize, PtrBytes, OffsetBytes, DataBytes, At, FromLE;
    ReadBack(s, |es|, es, i);
    assert PtrPos(i) == 4 + 8 * i;
    EightBytes(s[PtrPos(i)..PtrPos(i) + 8]);
  }

  lemma EightBytes(s: bytes)
    requires |s| == 8
    ensures var b0: int, b1: int, b2: int, b3: int, b4: int, b5: int, b6: int, b7: int := s[0], s[1], s[2], s[3], s[4], s[5], s[6], s[7];
      FromLE(s) == b0 + 0x100 * b1 + 0x1_0000 * b2 + 0x100_0000 * b3 + 0x1_0000_0000 * b4 + 0x100_0000_0000 * b5
        + 0x1_0000_0000_0000 * b6 + 0x100_0000_0000_0000 * b7
  {
    hide FromLE;
    OneByte(s, 7);
    OneByte(s, 6);
    OneByte(s, 5);
    OneByte(s, 4);
    OneByte(s, 3);
    OneByte(s, 2);
    OneByte(s, 1);
    OneByte(s, 0);
    NoBytes();
    assert s[8..] == [] && s[0..] == s;
  }

  lemma OneByte(s: bytes, i: nat)
    requires i < |s|
    ensures var b: int := s[i]; FromLE(s[i..]) == b + 256 * FromLE(s[i + 1..])
  {
    assert s[i..][0] == s[i] && s[i..][1..] == s[i + 1..];
  }

  lemma NoBytes()
    ensures FromLE([]) == 0
  {
  }

  /**
   * Slot i's data, from byte d on: behind the offsets for the first slot, and for the others where the
   * two bytes before its own offset field say. The slot begins with the lengths of key and value, of two
   * bytes each; key and value follow, and its own offset field, at 4 + 8 * n + 2 * i, says where they end.
   */
  lemma SlotBytes(s: bytes, kind: Kind, es: seq<Entry>, i: nat) returns (o: nat, d: nat, k: nat, v: nat)
    requires PageIs(s, kind, es) && i < |es|
    ensures o == 4 + 8 * |es| + 2 * i && o + 2 <= 4 + 10 * |es| <= d && k == |es[i].key| && v == |es[i].val| && d + 4 + k + v <= |s|
    ensures var b: int, c: int := s[d], s[d + 1]; b + 256 * c == k
    ensures var b: int, c: int := s[d + 2], s[d + 3]; b + 256 * c == v
    ensures s[d + 4..d + 4 + k] == es[i].key && s[d + 4 + k..d + 4 + k + v] == es[i].val
    ensures i == 0 ==> d == 4 + 10 * |es|
    ensures i > 0 ==> var b: int, c: int := s[o - 2], s[o - 1]; d == 4 + 10 * |es| + b + 256 * c
    ensures var b: int, c: int := s[o], s[o + 1]; d + 4 + k + v == 4 + 10 * |es| + b + 256 * c
  {
    hide Areas, Storable, EntrySize, PageIs;
    var n := |es|;
    o, d, k, v := 4 + 8 * n + 2 * i, 4 + 10 * n + DataSize(es[..i]), |es[i].key|, |es[i].val|;
    AreasStart(s, kind, es);
    Offsets(s, kind, es, i, o);
    DataAt(s, kind, es, i, d);
  }

  lemma AreasStart(s: bytes, kind: Kind, es: seq<Entry>)
    requires PageIs(s, kind, es)
    ensures 4 + 10 * |es| <= |s|
  {
    hide DataSize, PtrBytes, OffsetBytes, DataBytes, At;
  }

  /** The offset fields of a slot and the one before it. */
  lemma Offsets(s: bytes, kind: Kind, es: seq<Entry>, i: nat, o: nat)
    requires PageIs(s, kind, es) && i < |es| && o == 4 + 8 * |es| + 2 * i
    ensures o + 2 <= |s| && U16(s, o) == DataSize(es[..i]) + 4 + |es[i].key| + |es[i].val|
    ensures if i == 0 then DataSize(es[..i]) == 0 else U16(s, o - 2) == DataSize(es[..i])
  {
    hide DataSize, PtrBytes, OffsetBytes, DataBytes, At;
    var n := |es|;
    AreasStart(s, kind, es);
    ReadOffset(s, n, es, es, es, i);
    ReadOffset(s, n, es, es, es, i + 1);
    OffsetAt(s, OffsetsStart(n), es, i);
    assert OffsetPos(s, i + 1) == o;
    if i > 0 { assert OffsetPos(s, i) == o - 2; }
  }

  lemma DataAt(s: bytes, kind: Kind, es: seq<Entry>, i: nat, d: nat)
    requires PageIs(s, kind, es) && i < |es| && d == 4 + 10 * |es| + DataSize(es[..i])
    ensures d + 4 + |es[i].key| + |es[i].val| <= |s|
    ensures U16(s, d) == |es[i].key| && U16(s, d + 2) == |es[i].val|
    ensures s[d + 4..d + 4 + |es[i].key|] == es[i].key
    ensures s[d + 4 + |es[i].key|..d + 4 + |es[i].key| + |es[i].val|] == es[i].val
  {
    hide DataSize, PtrBytes, OffsetBytes, DataBytes;
    var n := |es|;
    assert DataStart(n) == 4 + 10 * n;
    SlotAt(s, HEADER, DataStart(n), es, i);
    ReadEntry(s, d, es[i]);
  }

  /**
   * The page of a stored node: 4096 bytes; a leaf has its pairs and no pointers, an inner node its
   * children's pages under their first keys.
   */
  lemma NodePage(v: View, p: nat, t: Tree) returns (es: seq<Entry>)
    requires KidRep(v, p, t)
    ensures p != 0 && p in v && |v[p]| == 4096 && PageIs(v[p], if t.Leaf? then LEAF else NODE, es)
    ensures match t
      case Leaf(kvs) => |es| == |kvs| && forall i :: 0 <= i < |es| ==> es[i] == Entry(0, kvs[i].key, kvs[i].val)
      case Inner(kids) => |es| == |kids| && forall i :: 0 <= i < |es| ==>
        es[i].key == FirstKey(kids[i]) && es[i].val == [] && es[i].ptr != 0 && KidRep(v, es[i].ptr, kids[i])
  {
    hide PageIs, Zeros;
    assert NodeRep(v, v[p], t);
    var ptrs := NodeOf(v, v[p], t);
    es := Es(t, ptrs);
    if t.Leaf? { forall i | 0 <= i < |ptrs| ensures ptrs[i] == 0 { ZeroPtr(ptrs, i); } }
  }

  lemma ZeroPtr(ptrs: seq<nat>, i: nat)
    requires Zeros(ptrs) && i < |ptrs|
    ensures ptrs[i] == 0
  {
  }

  /** The first insert: the page begins with the bytes 2, 0, 2, 0. */
  method FirstInsert(key: bytes, val: bytes) returns (b: BTree)
    requires key != [] && SmallPair(Pair(key, val))
    ensures b.root in b.pages && b.pages[b.root].buf.Length >= 4
    ensures var buf := b.pages[b.root].buf; buf[0] == 2 && buf[1] == 0 && buf[2] == 2 && buf[3] == 0
  {
    hide SmallPair, KidRep, PageIs;
    b := new BTree();
    b.Insert(key, val);
    var t := Leaf([SENTINEL, Pair(key, val)]);
    b.PageOf(b.root, t);
    var es := NodePage(b.view, b.root, t);
    HeaderBytes(b.view[b.root], LEAF, es);
    assert b.view[b.root] == b.pages[b.root].buf[..PAGE_SIZE];
  }
}
