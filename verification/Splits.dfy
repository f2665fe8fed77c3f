/** nodeLookupLE, nodeSplit2 and nodeSplit3 (storage/btree.go) on page buffers. */
module Splits {
  import opened Bytes
  import opened Pages
  import opened Builders
  import opened Edits
  import opened Cuts
  import opened Trees

  /** A slice buf[:len]. Slices of one buffer share it. */
  datatype BNode = BNode(buf: array<byte>, len: nat)

  ghost predicate IsPage(b: BNode, kind: Kind, es: seq<Entry>)
    reads b.buf
  {
    b.len <= b.buf.Length && PageIs(b.buf[..b.len], kind, es)
  }

  /** Binary search over the slots from 1 on. */
  method NodeLookupLE(node: bytes, key: bytes, ghost kind: Kind, ghost es: seq<Entry>) returns (found: nat)
    requires PageIs(node, kind, es) && SlotsSorted(es)
    ensures es != [] ==> found == Lookup(es, key)
    ensures es == [] ==> found == 0
  {
    hide DataSize, PtrBytes, OffsetBytes, DataBytes, At, Lookup, SlotsSorted, Compare, KvPos;
    var low, high := 1, NKeys(node);
    found := 0;
    while low < high
      invariant if es == [] then low > high && low == 1 else low <= high
      invariant 1 <= low && 0 <= high <= |es| && found == low - 1
      invariant 0 < found < |es| ==> AtMost(es[found].key, key)
      invariant forall j :: high <= j < |es| ==> Less(key, es[j].key)
    {
      var mid := low + (high - low) / 2;
      ReadBack(node, |es|, es, mid);
      var cmp := Compare(GetKey(node, mid), key);
      LessTotal(es[mid].key, key);
      LessTotal(key, es[mid].key);
      AboveSlot(es, key, mid);
      if cmp == 0 {
        found := mid;
        break;
      } else if cmp < 0 {
        found := mid;
        low := mid + 1;
      } else {
        high := mid;
      }
    }
    if es != [] {
      assert Found(es, key, found);
      LookupFound(es, key);
    }
  }

  /** What a comparison with the middle slot says about all slots behind it. */
  lemma AboveSlot(es: seq<Entry>, key: bytes, mid: nat)
    requires SlotsSorted(es) && mid < |es|
    ensures AtMost(key, es[mid].key) ==> forall j :: mid < j < |es| ==> Less(key, es[j].key)
  {
    if AtMost(key, es[mid].key) {
      forall j | mid < j < |es| ensures Less(key, es[j].key) { LessTrans(key, es[mid].key, es[j].key); }
    }
  }

  /**
   * Cuts an overfull node of at most two pages behind the first slot that takes the left part to
   * half the bytes.
   */
  method NodeSplit2(left: array<byte>, right: array<byte>, old_: bytes, ghost kind: Kind, ghost es: seq<Entry>) returns (idx: nat)
    requires left != right && right.Length == PAGE_SIZE
    requires PageIs(old_, kind, es) && PAGE_SIZE < PageBytes(es) <= PAGE_SIZE + PAGE_SIZE - 8
    requires PageBytes(es[..Cut(es)]) <= left.Length < TWO_16
    modifies left, right
    ensures idx == Cut(es)
    ensures PageIs(left[..], kind, es[..idx]) && PageIs(right[..], kind, es[idx..])
  {
    hide DataSize, PtrBytes, OffsetBytes, DataBytes, At, Storable, CutFrom;
    idx := 0;
    PageSize(old_, es);
    var halfSize := NBytes(old_) / 2;
    var size := HEADER;
    EmptyData();
    assert es[..0] == [];
    var n := NKeys(old_);
    while size < halfSize && idx < n
      invariant idx <= |es| && size == PageBytes(es[..idx])
      invariant CutFrom(es, halfSize, 0) == CutFrom(es, halfSize, idx)
    {
      ReadOffset(old_, n, es, es, es, idx);
      ReadOffset(old_, n, es, es, es, idx + 1);
      PrefixStep(es, idx);
      CutOnward(es, halfSize, idx);
      var posRight := KvPos(old_, idx + 1);
      var posLeft := KvPos(old_, idx);
      size := size + (posRight - posLeft) + 8 + 2;
      idx := idx + 1;
    }
    CutOnward(es, halfSize, idx);
    CutBounds(es);
    TwoParts(es, idx);
    var kinds := if BType(old_) == KindCode(LEAF) then LEAF else NODE;
    assert es[0..idx] == es[..idx] && es[idx..idx + (n - idx)] == es[idx..];
    CutInto(left, old_, kinds, 0, idx, kind, es);
    CutInto(right, old_, kinds, idx, n - idx, kind, es);
  }

  lemma CutOnward(es: seq<Entry>, half: nat, idx: nat)
    requires idx <= |es|
    ensures CutFrom(es, half, idx) == if PageBytes(es[..idx]) < half && idx < |es| then CutFrom(es, half, idx + 1) else idx
  {
  }

  /** setHeader and nodeAppendRange: a page of k slots of old, from slot src on. */
  method CutInto(new_: array<byte>, old_: bytes, kinds: Kind, src: nat, k: nat, ghost kind: Kind, ghost es: seq<Entry>)
    requires PageIs(old_, kind, es) && src + k <= |es| && kinds == kind
    requires PageBytes(es[src..src + k]) <= new_.Length < TWO_16
    modifies new_
    ensures PageIs(new_[..], kind, es[src..src + k])
  {
    hide DataSize, PtrBytes, OffsetBytes, DataBytes, At, Storable;
    SetHeader(new_, kinds, k);
    ghost var h := new_[..];
    EmptyData();
    NodeAppendRange(new_, old_, 0, src, k, k, [], |es|, es);
    assert [] + es[src..src + k] == es[src..src + k];
    PageDone(new_[..], h, kind, k, es[src..src + k]);
  }

  /**
   * nodeSplit3, on slots of any size whose pieces are within a page: then the assert on the leftmost
   * one holds. A node that need not be split keeps its buffer.
   */
  method NodeSplit3(old_: BNode, ghost kind: Kind, ghost es: seq<Entry>) returns (ps: seq<BNode>)
    requires IsPage(old_, kind, es) && PAGE_SIZE <= old_.len
    requires PageBytes(es) <= PAGE_SIZE + PAGE_SIZE - 8 && AllWithin(Pieces(es))
    ensures |ps| == |Pieces(es)|
    ensures forall i :: 0 <= i < |ps| ==> ps[i].len == PAGE_SIZE && IsPage(ps[i], kind, Pieces(es)[i])
    ensures forall i :: 0 <= i < |ps| ==> ps[i].buf == old_.buf || fresh(ps[i].buf)
  {
    hide DataSize, PtrBytes, OffsetBytes, DataBytes, At, Storable, Cut, PageBytes, PageIs, GetOffset, NKeys;
    var s := old_.buf[..old_.len];
    PageFacts(s, kind, es);
    if NBytes(s) <= PAGE_SIZE {
      PageTruncated(s, kind, es, PAGE_SIZE);
      assert s[..PAGE_SIZE] == old_.buf[..PAGE_SIZE];
      return [BNode(old_.buf, PAGE_SIZE)];
    }
    ghost var i := Cut(es);
    ghost var l := es[..i];
    PrefixGrows(es, i, |es|);
    assert es[..|es|] == es;
    var left := new byte[PAGE_SIZE + PAGE_SIZE](_ => 0);
    var right := new byte[PAGE_SIZE](_ => 0);
    var _ := NodeSplit2(left, right, s, kind, es);
    assert right[..PAGE_SIZE] == right[..];
    PageFacts(left[..], kind, l);
    if NBytes(left[..]) <= PAGE_SIZE {
      PageTruncated(left[..], kind, l, PAGE_SIZE);
      assert left[..][..PAGE_SIZE] == left[..PAGE_SIZE];
      return [BNode(left, PAGE_SIZE), BNode(right, PAGE_SIZE)];
    }
    ghost var j := Cut(l);
    assert Pieces(es) == [l[..j], l[j..], es[i..]];
    assert PageBytes(Pieces(es)[0]) <= PAGE_SIZE;
    var leftleft := new byte[PAGE_SIZE](_ => 0);
    var middle := new byte[PAGE_SIZE](_ => 0);
    var _ := NodeSplit2(leftleft, middle, left[..], kind, l);
    assert leftleft[..PAGE_SIZE] == leftleft[..] && middle[..PAGE_SIZE] == middle[..];
    PageFacts(leftleft[..], kind, l[..j]);
    assert NBytes(leftleft[..]) <= PAGE_SIZE;
    return [BNode(leftleft, PAGE_SIZE), BNode(middle, PAGE_SIZE), BNode(right, PAGE_SIZE)];
  }

  lemma PageFacts(s: bytes, kind: Kind, es: seq<Entry>)
    requires PageIs(s, kind, es)
    ensures |s| >= HEADER && KvStart(s) <= |s| && NKeys(s) == |es| && BType(s) == KindCode(kind)
    ensures NBytes(s) == PageBytes(es) <= |s|
  {
    hide DataSize, PtrBytes, OffsetBytes, DataBytes, At, Storable;
    PageSize(s, es);
  }
}
