/** The page edits of storage/btree.go: each is the matching edit of the entry sequence. */
module Edits {
  import opened Bytes
  import opened Pages
  import opened Builders

  lemma PageDone(s: bytes, h: bytes, kind: Kind, n: nat, es: seq<Entry>)
    requires FilledFor(s, n, es) && |es| == n
    requires |h| >= HEADER && BType(h) == KindCode(kind) && s[..HEADER] == h[..HEADER]
    ensures PageIs(s, kind, es)
  {
    hide DataSize, PtrBytes, OffsetBytes, DataBytes, At, Storable;
    assert s[0] == s[..HEADER][0] == h[..HEADER][0] == h[0];
    assert s[1] == s[..HEADER][1] == h[..HEADER][1] == h[1];
  }

  /** Sizes of a sequence cut in three. */
  lemma ThreeParts(es: seq<Entry>, i: nat, j: nat)
    requires i <= j <= |es|
    ensures DataSize(es) == DataSize(es[..i]) + DataSize(es[i..j]) + DataSize(es[j..])
  {
    hide DataSize;
    var a, b, c := es[..i], es[i..j], es[j..];
    assert es == (a + b) + c;
    DataConcat(a, b);
    DataConcat(a + b, c);
  }

  /** nodeAppendRange, nodeAppendKV, nodeAppendRange: what all edits of one stretch of slots are made of. */
  method Rebuild(new_: array<byte>, old_: bytes, kind: Kind, oldKeys: nat, idx: nat, ptr: nat, key: bytes, val: bytes, rest: nat,
                 ghost oldKind: Kind, ghost es: seq<Entry>)
    requires PageIs(old_, oldKind, es) && oldKeys == |es|
    requires idx <= rest <= oldKeys && StorableEntry(Entry(ptr, key, val))
    requires PageBytes(es) + 14 + |key| + |val| <= new_.Length + 10 * (rest - idx) + DataSize(es[idx..rest]) && new_.Length < TWO_16
    modifies new_
    ensures PageIs(new_[..], kind, es[..idx] + [Entry(ptr, key, val)] + es[rest..])
  {
    hide DataSize, PtrBytes, OffsetBytes, DataBytes, At, Storable;
    ThreeParts(es, idx, rest);
    ghost var e := Entry(ptr, key, val);
    ghost var n := oldKeys + 1 - (rest - idx);
    SingleData(e);
    SetHeader(new_, kind, oldKeys + 1 - (rest - idx));
    ghost var h := new_[..];
    EmptyData();
    assert es[0..idx] == es[..idx] && [] + es[..idx] == es[..idx];
    NodeAppendRange(new_, old_, 0, 0, idx, n, [], |es|, es);
    NodeAppendKV(new_, idx, ptr, key, val, n, es[..idx]);
    DataConcat(es[..idx], [e]);
    assert es[rest..rest + (oldKeys - rest)] == es[rest..];
    NodeAppendRange(new_, old_, idx + 1, rest, oldKeys - rest, n, es[..idx] + [e], |es|, es);
    PageDone(new_[..], h, kind, n, es[..idx] + [e] + es[rest..]);
  }

  method LeafInsert(new_: array<byte>, old_: bytes, idx: nat, key: bytes, val: bytes, ghost es: seq<Entry>)
    requires PageIs(old_, LEAF, es) && idx <= |es| && StorableEntry(Entry(0, key, val))
    requires PageBytes(es) + 14 + |key| + |val| <= new_.Length < TWO_16
    modifies new_
    ensures PageIs(new_[..], LEAF, es[..idx] + [Entry(0, key, val)] + es[idx..])
  {
    hide DataSize, PtrBytes, OffsetBytes, DataBytes, At, Storable;
    Rebuild(new_, old_, LEAF, NKeys(old_), idx, 0, key, val, idx, LEAF, es);
  }

  method LeafUpdate(new_: array<byte>, old_: bytes, idx: nat, key: bytes, val: bytes, ghost es: seq<Entry>)
    requires PageIs(old_, LEAF, es) && idx < |es| && StorableEntry(Entry(0, key, val))
    requires PageBytes(es) + 14 + |key| + |val| <= new_.Length < TWO_16
    modifies new_
    ensures PageIs(new_[..], LEAF, es[..idx] + [Entry(0, key, val)] + es[idx + 1..])
  {
    hide DataSize, PtrBytes, OffsetBytes, DataBytes, At, Storable;
    Rebuild(new_, old_, LEAF, NKeys(old_), idx, 0, key, val, idx + 1, LEAF, es);
  }

  /** The two slots from idx on give way to one. */
  method NodeReplace2Kid(new_: array<byte>, old_: bytes, idx: nat, mergedPtr: nat, key: bytes, ghost es: seq<Entry>)
    requires PageIs(old_, NODE, es) && idx + 2 <= |es| && StorableEntry(Entry(mergedPtr, key, []))
    requires PageBytes(es[..idx] + [Entry(mergedPtr, key, [])] + es[idx + 2..]) <= new_.Length < TWO_16
    modifies new_
    ensures PageIs(new_[..], NODE, es[..idx] + [Entry(mergedPtr, key, [])] + es[idx + 2..])
  {
    hide DataSize, PtrBytes, OffsetBytes, DataBytes, At, Storable;
    RebuiltSize(es, idx, Entry(mergedPtr, key, []), idx + 2);
    Rebuild(new_, old_, NODE, NKeys(old_), idx, mergedPtr, key, [], idx + 2, NODE, es);
  }

  lemma RebuiltSize(es: seq<Entry>, i: nat, e: Entry, j: nat)
    requires i <= j <= |es|
    ensures PageBytes(es[..i] + [e] + es[j..]) + (j - i) * 10 + DataSize(es[i..j]) == PageBytes(es) + 10 + EntrySize(e)
  {
    hide DataSize;
    ThreeParts(es, i, j);
    SingleData(e);
    DataConcat(es[..i], [e]);
    DataConcat(es[..i] + [e], es[j..]);
  }

  method LeafDelete(new_: array<byte>, old_: bytes, idx: nat, ghost es: seq<Entry>)
    requires PageIs(old_, LEAF, es) && idx < |es|
    requires PageBytes(es) <= new_.Length < TWO_16
    modifies new_
    ensures PageIs(new_[..], LEAF, es[..idx] + es[idx + 1..])
  {
    hide DataSize, PtrBytes, OffsetBytes, DataBytes, At, Storable;
    ThreeParts(es, idx, idx + 1);
    var oldKeys := NKeys(old_);
    SetHeader(new_, LEAF, oldKeys - 1);
    ghost var h, n := new_[..], oldKeys - 1;
    EmptyData();
    assert es[0..idx] == es[..idx] && [] + es[..idx] == es[..idx];
    NodeAppendRange(new_, old_, 0, 0, idx, n, [], |es|, es);
    assert es[idx + 1..idx + 1 + (oldKeys - idx - 1)] == es[idx + 1..];
    NodeAppendRange(new_, old_, idx, idx + 1, oldKeys - idx - 1, n, es[..idx], |es|, es);
    PageDone(new_[..], h, LEAF, n, es[..idx] + es[idx + 1..]);
  }

  /** treeInsert in front of a leaf's first key. */
  method LeafPrepend(new_: array<byte>, old_: bytes, key: bytes, val: bytes, ghost es: seq<Entry>)
    requires PageIs(old_, LEAF, es) && StorableEntry(Entry(0, key, val))
    requires PageBytes(es) + 14 + |key| + |val| <= new_.Length < TWO_16
    modifies new_
    ensures PageIs(new_[..], LEAF, [Entry(0, key, val)] + es)
  {
    hide DataSize, PtrBytes, OffsetBytes, DataBytes, At, Storable;
    ghost var e := Entry(0, key, val);
    var oldKeys := NKeys(old_);
    SetHeader(new_, LEAF, oldKeys + 1);
    ghost var h, n := new_[..], oldKeys + 1;
    EmptyData();
    SingleData(e);
    assert [] + [e] == [e];
    NodeAppendKV(new_, 0, 0, key, val, n, []);
    assert es[0..oldKeys] == es;
    NodeAppendRange(new_, old_, 1, 0, oldKeys, n, [e], |es|, es);
    PageDone(new_[..], h, LEAF, n, [e] + es);
  }

  method NodeMerge(new_: array<byte>, left: bytes, right: bytes, ghost kind: Kind, ghost ls: seq<Entry>, ghost rs: seq<Entry>)
    requires PageIs(left, kind, ls) && PageIs(right, kind, rs)
    requires PageBytes(ls + rs) <= new_.Length < TWO_16
    modifies new_
    ensures PageIs(new_[..], kind, ls + rs)
  {
    hide DataSize, PtrBytes, OffsetBytes, DataBytes, At, Storable;
    DataConcat(ls, rs);
    var kinds := if BType(left) == KindCode(LEAF) then LEAF else NODE;
    var nl, nr := NKeys(left), NKeys(right);
    SetHeader(new_, kinds, nl + nr);
    ghost var h, n := new_[..], nl + nr;
    EmptyData();
    assert ls[0..nl] == ls && [] + ls == ls && rs[0..nr] == rs;
    NodeAppendRange(new_, left, 0, 0, nl, n, [], |ls|, ls);
    NodeAppendRange(new_, right, nl, 0, nr, n, ls, |rs|, rs);
    PageDone(new_[..], h, kind, n, ls + rs);
  }
}
