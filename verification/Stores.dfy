/** What it means that a page, together with the pages it points to, holds a logical tree. */
module Stores {
  import opened Bytes
  import opened Pages
  import opened Splits
  import opened Cuts
  import opened SortedRuns
  import opened Trees
  import opened Deletes
  import opened Overflows
  import opened Roots

  /** The contents of the stored pages, by page number. */
  type View = map<nat, bytes>

  ghost predicate Extends(v: View, w: View) { forall p :: p in v ==> p in w && w[p] == v[p] }

  function KindOf(t: Tree): Kind { if t.Leaf? then LEAF else NODE }

  /** A node's slots with their pointers. */
  function Es(t: Tree, ptrs: seq<nat>): (es: seq<Entry>)
    requires |ptrs| == Width(t)
    ensures |es| == Width(t)
  {
    WithPtrs(Slots(t), ptrs)
  }

  function WithPtrs(slots: seq<Entry>, ptrs: seq<nat>): (es: seq<Entry>)
    requires |ptrs| == |slots|
    ensures |es| == |slots|
  {
    seq(|slots|, i requires 0 <= i < |slots| => Entry(ptrs[i], slots[i].key, slots[i].val))
  }

  /** Page content s, with the pages of v below it, is the tree t. */
  ghost predicate NodeRep(v: View, s: bytes, t: Tree)
    decreases t, 1
  {
    exists ptrs :: NodeWith(v, s, t, ptrs)
  }

  ghost predicate NodeWith(v: View, s: bytes, t: Tree, ptrs: seq<nat>)
    decreases t, 0
  {
    && |ptrs| == Width(t)
    && PageIs(s, KindOf(t), Es(t, ptrs))
    && match t
       case Leaf(kvs) => Zeros(ptrs)
       case Inner(kids) => forall i :: 0 <= i < |kids| ==> KidRep(v, ptrs[i], kids[i])
  }

  predicate Zeros(ptrs: seq<nat>) { forall i :: 0 <= i < |ptrs| ==> ptrs[i] == 0 }

  /** Page p of v, with the pages below it, is the tree t. */
  ghost predicate KidRep(v: View, p: nat, t: Tree)
    decreases t, 2
  {
    p != 0 && p in v && |v[p]| == PAGE_SIZE && NodeRep(v, v[p], t)
  }

  ghost predicate KidsRep(v: View, ptrs: seq<nat>, kids: seq<Tree>) {
    |ptrs| == |kids| && forall i :: 0 <= i < |kids| ==> KidRep(v, ptrs[i], kids[i])
  }

  /** Pages are never taken back or changed: what was stored stays what it was. */
  lemma {:induction false} RepStays(v: View, w: View, s: bytes, t: Tree)
    requires NodeRep(v, s, t) && Extends(v, w)
    ensures NodeRep(w, s, t)
    decreases t
  {
    hide PageIs, Es;
    var ptrs :| NodeWith(v, s, t, ptrs);
    if t.Inner? {
      forall i | 0 <= i < |t.kids| ensures KidRep(w, ptrs[i], t.kids[i]) {
        assert KidRep(v, ptrs[i], t.kids[i]);
        RepStays(v, w, v[ptrs[i]], t.kids[i]);
      }
    }
    assert NodeWith(w, s, t, ptrs);
  }

  lemma KidsStay(v: View, w: View, ptrs: seq<nat>, kids: seq<Tree>)
    requires KidsRep(v, ptrs, kids) && Extends(v, w)
    ensures KidsRep(w, ptrs, kids)
  {
    hide NodeRep;
    forall i | 0 <= i < |kids| ensures KidRep(w, ptrs[i], kids[i]) {
      assert KidRep(v, ptrs[i], kids[i]);
      RepStays(v, w, v[ptrs[i]], kids[i]);
    }
  }

  lemma NodeOf(v: View, s: bytes, t: Tree) returns (ptrs: seq<nat>)
    requires NodeRep(v, s, t)
    ensures |ptrs| == Width(t) && PageIs(s, KindOf(t), Es(t, ptrs))
    ensures t.Leaf? ==> Zeros(ptrs)
    ensures t.Inner? ==> KidsRep(v, ptrs, t.kids)
  {
    hide PageIs, Es, NodeRep;
    ptrs := Witness(v, s, t);
  }

  lemma Witness(v: View, s: bytes, t: Tree) returns (ptrs: seq<nat>)
    requires NodeRep(v, s, t)
    ensures NodeWith(v, s, t, ptrs)
  {
    ptrs :| NodeWith(v, s, t, ptrs);
  }

  lemma InnerRep(v: View, s: bytes, kids: seq<Tree>, ptrs: seq<nat>)
    requires KidsRep(v, ptrs, kids) && PageIs(s, NODE, Es(Inner(kids), ptrs))
    ensures NodeRep(v, s, Inner(kids))
  {
    hide PageIs, Es;
    assert NodeWith(v, s, Inner(kids), ptrs);
  }

  lemma LeafRep(v: View, s: bytes, kvs: seq<Pair>)
    requires PageIs(s, LEAF, LeafSlots(kvs))
    ensures NodeRep(v, s, Leaf(kvs))
  {
    hide PageIs;
    var ptrs := seq(|kvs|, i => 0);
    assert Es(Leaf(kvs), ptrs) == LeafSlots(kvs);
    assert NodeWith(v, s, Leaf(kvs), ptrs);
  }

  lemma LeafOf(v: View, s: bytes, kvs: seq<Pair>)
    requires NodeRep(v, s, Leaf(kvs))
    ensures PageIs(s, LEAF, LeafSlots(kvs))
  {
    hide PageIs;
    var ptrs := NodeOf(v, s, Leaf(kvs));
    assert Es(Leaf(kvs), ptrs) == LeafSlots(kvs);
  }

  // ------------------------------------------------------------ sizes, search and cuts do not look at pointers

  lemma {:induction false} SameSizes(slots: seq<Entry>, ptrs: seq<nat>)
    requires |ptrs| == |slots|
    ensures PageBytes(WithPtrs(slots, ptrs)) == PageBytes(slots)
  {
    if slots != [] {
      var n := |slots| - 1;
      var es := WithPtrs(slots, ptrs);
      assert es == WithPtrs(slots[..n], ptrs[..n]) + [es[n]] && slots == slots[..n] + [slots[n]];
      Snoc(WithPtrs(slots[..n], ptrs[..n]), es[n]);
      Snoc(slots[..n], slots[n]);
      SameSizes(slots[..n], ptrs[..n]);
    }
  }

  lemma SameSlots(slots: seq<Entry>, ptrs: seq<nat>, i: nat, j: nat)
    requires |ptrs| == |slots| && i <= j <= |slots|
    ensures WithPtrs(slots, ptrs)[i..j] == WithPtrs(slots[i..j], ptrs[i..j])
  {
  }

  lemma {:induction false} SameCutFrom(slots: seq<Entry>, ptrs: seq<nat>, half: nat, i: nat)
    requires |ptrs| == |slots| && i <= |slots|
    ensures CutFrom(WithPtrs(slots, ptrs), half, i) == CutFrom(slots, half, i)
    decreases |slots| - i
  {
    hide PageBytes, WithPtrs;
    SameSlots(slots, ptrs, 0, i);
    SameSizes(slots[0..i], ptrs[0..i]);
    assert slots[0..i] == slots[..i] && WithPtrs(slots, ptrs)[0..i] == WithPtrs(slots, ptrs)[..i];
    if i < |slots| { SameCutFrom(slots, ptrs, half, i + 1); }
  }

  lemma SameCut(slots: seq<Entry>, ptrs: seq<nat>)
    requires |ptrs| == |slots|
    ensures Cut(WithPtrs(slots, ptrs)) == Cut(slots)
  {
    hide PageBytes, WithPtrs, CutFrom;
    SameSizes(slots, ptrs);
    SameCutFrom(slots, ptrs, PageBytes(slots) / 2, 0);
  }

  lemma {:induction false} SameLookup(slots: seq<Entry>, ptrs: seq<nat>, k: bytes)
    requires |ptrs| == |slots|
    ensures Lookup(WithPtrs(slots, ptrs), k) == Lookup(slots, k)
  {
    if |slots| > 1 {
      var n := |slots| - 1;
      SameLookup(slots[..n], ptrs[..n], k);
      assert WithPtrs(slots, ptrs)[..n] == WithPtrs(slots[..n], ptrs[..n]);
    }
  }

  lemma SameOrder(slots: seq<Entry>, ptrs: seq<nat>)
    requires |ptrs| == |slots|
    ensures SlotsSorted(slots) ==> SlotsSorted(WithPtrs(slots, ptrs))
    ensures SmallSlots(slots) ==> SmallSlots(WithPtrs(slots, ptrs))
  {
  }

  // ------------------------------------------------------------ split nodes

  /** The pointers that a page of t holds. */
  ghost predicate PtrsFor(v: View, t: Tree, ptrs: seq<nat>) {
    |ptrs| == Width(t) && match t case Leaf(_) => Zeros(ptrs) case Inner(kids) => KidsRep(v, ptrs, kids)
  }

  lemma RepOf(v: View, s: bytes, t: Tree, ptrs: seq<nat>)
    requires PtrsFor(v, t, ptrs) && PageIs(s, KindOf(t), Es(t, ptrs))
    ensures NodeRep(v, s, t)
  {
    hide PageIs, Es;
    assert NodeWith(v, s, t, ptrs);
  }

  lemma TakeRep(v: View, t: Tree, ptrs: seq<nat>, i: nat)
    requires PtrsFor(v, t, ptrs) && i <= Width(t)
    ensures PtrsFor(v, Take(t, i), ptrs[..i]) && Es(Take(t, i), ptrs[..i]) == Es(t, ptrs)[..i]
    ensures KindOf(Take(t, i)) == KindOf(t)
  {
    hide KidRep;
    SlotsCut(t, i);
  }

  lemma SkipRep(v: View, t: Tree, ptrs: seq<nat>, i: nat)
    requires PtrsFor(v, t, ptrs) && i <= Width(t)
    ensures PtrsFor(v, Skip(t, i), ptrs[i..]) && Es(Skip(t, i), ptrs[i..]) == Es(t, ptrs)[i..]
    ensures KindOf(Skip(t, i)) == KindOf(t)
  {
    hide KidRep;
    SlotsCut(t, i);
  }

  /** Pages of the pieces of a node's slots are the nodes that Split makes of it. */
  lemma SplitRep(v: View, t: Tree, ptrs: seq<nat>, cs: seq<bytes>)
    requires PtrsFor(v, t, ptrs) && |cs| == |Pieces(Es(t, ptrs))|
    requires forall i :: 0 <= i < |cs| ==> PageIs(cs[i], KindOf(t), Pieces(Es(t, ptrs))[i])
    ensures |cs| == |Split(t)| && forall i :: 0 <= i < |cs| ==> NodeRep(v, cs[i], Split(t)[i])
  {
    hide PageIs, Es, PageBytes, Cut, NodeRep, PtrsFor, Take, Skip, Slots;
    SameWidth(v, t, ptrs);
    var es := Es(t, ptrs);
    if PageBytes(es) <= PAGE_SIZE {
      RepOf(v, cs[0], t, ptrs);
    } else {
      var i := Cut(es);
      var l, r := Take(t, i), Skip(t, i);
      TakeRep(v, t, ptrs, i);
      SkipRep(v, t, ptrs, i);
      SameWidth(v, l, ptrs[..i]);
      RepOf(v, cs[|cs| - 1], r, ptrs[i..]);
      if PageBytes(es[..i]) <= PAGE_SIZE {
        RepOf(v, cs[0], l, ptrs[..i]);
      } else {
        var j := Cut(es[..i]);
        TakeRep(v, l, ptrs[..i], j);
        SkipRep(v, l, ptrs[..i], j);
        RepOf(v, cs[0], Take(l, j), ptrs[..i][..j]);
        RepOf(v, cs[1], Skip(l, j), ptrs[..i][j..]);
      }
    }
  }

  lemma SameWidth(v: View, t: Tree, ptrs: seq<nat>)
    requires PtrsFor(v, t, ptrs)
    ensures |ptrs| == Width(t) && PageBytes(Es(t, ptrs)) == NodeSize(t) && Cut(Es(t, ptrs)) == Cut(Slots(t))
    ensures Cut(Slots(t)) <= Width(t)
    ensures SmallSlots(Slots(t)) ==> SmallSlots(Es(t, ptrs))
  {
    hide PageBytes, CutFrom, KidsRep, SmallSlots, WithPtrs;
    SameSizes(Slots(t), ptrs);
    SameCut(Slots(t), ptrs);
    SameOrder(Slots(t), ptrs);
  }

  // ------------------------------------------------------------ slots filled one after the other

  /** The next slot, with its pointer. */
  lemma NextSlot(fs: seq<Entry>, j: nat, ps: seq<nat>, p: nat)
    requires j < |fs| && |ps| == j
    ensures WithPtrs(fs[..j], ps) + [Entry(p, fs[j].key, fs[j].val)] == WithPtrs(fs[..j + 1], ps + [p])
  {
  }

  lemma RoomForSlot(fs: seq<Entry>, j: nat, ps: seq<nat>)
    requires j < |fs| && |ps| == j
    ensures DataSize(WithPtrs(fs[..j], ps)) + EntrySize(fs[j]) <= DataSize(fs)
  {
    hide DataSize;
    SameData(fs[..j], ps);
    OffsetsGrow(fs, j);
  }

  lemma OffsetsGrow(fs: seq<Entry>, j: nat)
    requires j < |fs|
    ensures DataSize(fs[..j]) + EntrySize(fs[j]) <= DataSize(fs)
  {
    hide DataSize;
    assert fs[..j + 1] == fs[..j] + [fs[j]] && fs == fs[..j + 1] + fs[j + 1..];
    Snoc(fs[..j], fs[j]);
    DataConcat(fs[..j + 1], fs[j + 1..]);
  }

  lemma SameData(slots: seq<Entry>, ptrs: seq<nat>)
    requires |ptrs| == |slots|
    ensures DataSize(WithPtrs(slots, ptrs)) == DataSize(slots)
  {
    SameSizes(slots, ptrs);
  }

  /** The slots of a node whose child idx has become news. */
  lemma ReplacedEs(kids: seq<Tree>, idx: nat, news: seq<Tree>, ptrs: seq<nat>, nptrs: seq<nat>)
    requires idx < |kids| == |ptrs| && |nptrs| == |news|
    ensures var all := kids[..idx] + news + kids[idx + 1..];
      var ps := ptrs[..idx] + nptrs + ptrs[idx + 1..];
      && |ps| == |all|
      && Es(Inner(all), ps) == WithPtrs(KidSlots(all)[..idx + |news|], ptrs[..idx] + nptrs) + Es(Inner(kids), ptrs)[idx + 1..]
      && Es(Inner(kids), ptrs)[..idx] == WithPtrs(KidSlots(all)[..idx], ptrs[..idx])
      && DataSize(WithPtrs(KidSlots(all)[..idx + |news|], ptrs[..idx] + nptrs)) + DataSize(Es(Inner(kids), ptrs)[idx + 1..]) == DataSize(KidSlots(all))
      && DataSize(Es(Inner(kids), ptrs)[..idx]) <= DataSize(KidSlots(all))
  {
    hide DataSize;
    var all := kids[..idx] + news + kids[idx + 1..];
    var ps := ptrs[..idx] + nptrs + ptrs[idx + 1..];
    var a, b := WithPtrs(KidSlots(all)[..idx + |news|], ptrs[..idx] + nptrs), Es(Inner(kids), ptrs)[idx + 1..];
    assert Es(Inner(all), ps) == a + b;
    assert Es(Inner(kids), ptrs)[..idx] == WithPtrs(KidSlots(all)[..idx], ptrs[..idx]);
    DataConcat(a, b);
    SameData(KidSlots(all), ps);
    SameData(KidSlots(all)[..idx], ptrs[..idx]);
    assert KidSlots(all) == KidSlots(all)[..idx] + KidSlots(all)[idx..];
    DataConcat(KidSlots(all)[..idx], KidSlots(all)[idx..]);
  }

  lemma KidsReplacedRep(v: View, kids: seq<Tree>, idx: nat, news: seq<Tree>, ptrs: seq<nat>, nptrs: seq<nat>)
    requires idx < |kids| && KidsRep(v, ptrs, kids) && KidsRep(v, nptrs, news)
    ensures KidsRep(v, ptrs[..idx] + nptrs + ptrs[idx + 1..], kids[..idx] + news + kids[idx + 1..])
  {
    hide KidRep;
  }

  /** Reading a stored node's key at index 0. */
  lemma FirstKeyRead(v: View, s: bytes, t: Tree)
    requires NodeRep(v, s, t) && Width(t) > 0
    ensures KvInside(s, 0) && GetKey(s, 0) == FirstKey(t) && |FirstKey(t)| < TWO_16
  {
    hide PageIs, NodeRep;
    var ptrs := NodeOf(v, s, t);
    PageStorable(s, KindOf(t), Es(t, ptrs));
    ReadBack(s, Width(t), Es(t, ptrs), 0);
    assert Es(t, ptrs)[0].key == FirstKey(t);
    assert StorableEntry(Es(t, ptrs)[0]);
  }

  lemma PageStorable(s: bytes, kind: Kind, es: seq<Entry>)
    requires PageIs(s, kind, es)
    ensures Storable(es) && FilledFor(s, |es|, es)
  {
  }

  lemma NewSlot(kids: seq<Tree>, idx: nat, news: seq<Tree>, i: nat)
    requires idx < |kids| && i < |news|
    ensures KidSlots(kids[..idx] + news + kids[idx + 1..])[idx + i] == Entry(0, FirstKey(news[i]), [])
  {
  }

  /** Page numbers ptrs hold the contents cs, as far as they go. */
  ghost predicate StoredAs(w: View, ptrs: seq<nat>, cs: seq<bytes>) {
    |ptrs| <= |cs| && forall i :: 0 <= i < |ptrs| ==> ptrs[i] != 0 && ptrs[i] in w && w[ptrs[i]] == cs[i]
  }

  lemma StoreOne(v: View, w: View, ptrs: seq<nat>, cs: seq<bytes>, p: nat, c: bytes)
    requires StoredAs(w, ptrs, cs) && |ptrs| < |cs| && c == cs[|ptrs|] && p != 0 && p !in w && Extends(v, w)
    ensures StoredAs(w[p := c], ptrs + [p], cs) && Extends(v, w[p := c])
  {
  }

  lemma StoredKids(v: View, w: View, ptrs: seq<nat>, cs: seq<bytes>, kids: seq<Tree>)
    requires Extends(v, w) && |ptrs| == |cs| == |kids| && StoredAs(w, ptrs, cs)
    requires forall i :: 0 <= i < |kids| ==> NodeRep(v, cs[i], kids[i]) && |cs[i]| == PAGE_SIZE
    ensures KidsRep(w, ptrs, kids)
  {
    hide NodeRep;
    forall i | 0 <= i < |kids| ensures KidRep(w, ptrs[i], kids[i]) { RepStays(v, w, cs[i], kids[i]); }
  }

  lemma SlotsFit(fs: seq<Entry>)
    ensures DataStart(|fs|) + DataSize(fs) == PageBytes(fs)
  {
  }

  lemma ReplacedPrefix(kids: seq<Tree>, idx: nat, news: seq<Tree>, ptrs: seq<nat>)
    requires idx < |kids| == |ptrs|
    ensures var fs := KidSlots(kids[..idx] + news + kids[idx + 1..]);
      && Es(Inner(kids), ptrs)[..idx] == WithPtrs(fs[..idx], ptrs[..idx])
      && DataSize(Es(Inner(kids), ptrs)[..idx]) <= DataSize(fs)
  {
    hide DataSize;
    ReplacedEs(kids, idx, news, ptrs, seq(|news|, i => 0));
  }

  lemma LeafFacts(s: bytes, es: seq<Entry>)
    requires PageIs(s, LEAF, es)
    ensures |s| >= HEADER && NKeys(s) == |es| && FilledFor(s, |es|, es)
  {
  }

  /** The slots of a leaf after an insert. */
  lemma LeafInserted(kvs: seq<Pair>, k: bytes, v: bytes, i: nat)
    requires i == Lookup(LeafSlots(kvs), k) && kvs != []
    ensures var es, e := LeafSlots(kvs), Entry(0, k, v);
      LeafSlots(InsLeaf(kvs, k, v)) ==
      if k == kvs[i].key then es[..i] + [e] + es[i + 1..]
      else if Less(k, kvs[0].key) && i == 0 then [e] + es
      else es[..i + 1] + [e] + es[i + 1..]
  {
    hide Lookup;
  }

  /** A well-formed node's page can be searched. */
  lemma SearchReady(t: Tree, h: nat, ptrs: seq<nat>, k: bytes)
    requires WellFormed(t, h) && |ptrs| == Width(t)
    ensures SlotsSorted(Es(t, ptrs)) && Es(t, ptrs) != []
    ensures Lookup(Es(t, ptrs), k) == Lookup(Slots(t), k) < Width(t)
    ensures NodeSize(t) <= PAGE_SIZE
  {
    hide WithPtrs, Lookup, PageBytes, Sorted, Flat, Small;
    SlotsAreSorted(t, h);
    SameOrder(Slots(t), ptrs);
    SameLookup(Slots(t), ptrs, k);
  }

  lemma InsInner(t: Tree, k: bytes, v: bytes)
    requires t.Inner? && t.kids != []
    ensures var i := Lookup(KidSlots(t.kids), k);
      Ins(t, k, v) == Inner(t.kids[..i] + Split(Ins(t.kids[i], k, v)) + t.kids[i + 1..])
  {
  }

  lemma InnerHeight(t: Tree, h: nat)
    requires WellFormed(t, h) && t.Inner?
    ensures h > 0 && t.kids != []
  {
  }

  lemma ShapeWide(t: Tree, h: nat)
    requires Shape(t, h)
    ensures Width(t) > 0
  {
  }

  /** The pointer in slot i leads to child i. */
  lemma ReadKid(v: View, s: bytes, t: Tree, ptrs: seq<nat>, i: nat)
    requires t.Inner? && |ptrs| == |t.kids| && i < |ptrs|
    requires PageIs(s, NODE, Es(t, ptrs)) && KidsRep(v, ptrs, t.kids)
    ensures |s| >= HEADER && NKeys(s) == |ptrs| && KvStart(s) <= |s|
    ensures GetPtr(s, i) == ptrs[i] && KidRep(v, GetPtr(s, i), t.kids[i])
  {
    hide NodeRep, PageIs, WithPtrs;
    PageFacts(s, NODE, Es(t, ptrs));
    PageStorable(s, NODE, Es(t, ptrs));
    ReadBack(s, |ptrs|, Es(t, ptrs), i);
    PtrAt(Slots(t), ptrs, i);
  }

  lemma PtrAt(slots: seq<Entry>, ptrs: seq<nat>, i: nat)
    requires |ptrs| == |slots| && i < |ptrs|
    ensures WithPtrs(slots, ptrs)[i].ptr == ptrs[i]
  {
  }

  lemma InsOnLeaf(t: Tree, k: bytes, v: bytes)
    requires t.Leaf? && t.kvs != []
    ensures Ins(t, k, v) == Leaf(InsLeaf(t.kvs, k, v))
  {
  }

  lemma AllWide(ts: seq<Tree>, h: nat)
    requires AllFit(ts, h)
    ensures forall i :: 0 <= i < |ts| ==> Width(ts[i]) > 0
  {
  }

  /** getVal, one node at a time. */
  lemma GetStep(t: Tree, k: bytes)
    requires Width(t) > 0
    ensures var i := Lookup(Slots(t), k);
      && (t.Leaf? ==> LeafSlots(t.kvs)[i].key == t.kvs[i].key && LeafSlots(t.kvs)[i].val == t.kvs[i].val)
      && Get(t, k) == if t.Inner? then Get(t.kids[i], k) else if t.kvs[i].key == k then Some(t.kvs[i].val) else None
  {
    hide Lookup;
  }

  lemma SizeRead(v: View, s: bytes, t: Tree)
    requires NodeRep(v, s, t)
    ensures |s| >= HEADER && KvStart(s) <= |s| && NBytes(s) == NodeSize(t) && NKeys(s) == Width(t)
  {
    hide NodeRep, PageIs, PageBytes, WithPtrs, Slots;
    var ptrs := NodeOf(v, s, t);
    PageFacts(s, KindOf(t), Es(t, ptrs));
    SameSizes(Slots(t), ptrs);
  }

  lemma MergedEs(v: View, l: Tree, r: Tree, lp: seq<nat>, rp: seq<nat>)
    requires SameKind(l, r) && PtrsFor(v, l, lp) && PtrsFor(v, r, rp)
    ensures PtrsFor(v, Merge(l, r), lp + rp) && KindOf(l) == KindOf(r) == KindOf(Merge(l, r))
    ensures Es(Merge(l, r), lp + rp) == Es(l, lp) + Es(r, rp)
    ensures PageBytes(Es(l, lp) + Es(r, rp)) == NodeSize(Merge(l, r))
  {
    hide KidRep, PageBytes, Slots, WithPtrs;
    SlotsMerged(l, r);
    WithPtrsConcat(Slots(l), Slots(r), lp, rp);
    SameSizes(Slots(Merge(l, r)), lp + rp);
  }

  lemma SlotsMerged(l: Tree, r: Tree)
    requires SameKind(l, r)
    ensures Slots(Merge(l, r)) == Slots(l) + Slots(r)
  {
  }

  lemma WithPtrsConcat(a: seq<Entry>, b: seq<Entry>, p: seq<nat>, q: seq<nat>)
    requires |p| == |a| && |q| == |b|
    ensures WithPtrs(a + b, p + q) == WithPtrs(a, p) + WithPtrs(b, q)
  {
  }

  /** The slots of a node two of whose children have become m. */
  lemma TwoReplaced(kids: seq<Tree>, ptrs: seq<nat>, j: nat, m: Tree, p: nat)
    requires |ptrs| == |kids| && j + 2 <= |kids|
    ensures var all, ps := kids[..j] + [m] + kids[j + 2..], ptrs[..j] + [p] + ptrs[j + 2..];
      && |ps| == |all|
      && Es(Inner(all), ps) == Es(Inner(kids), ptrs)[..j] + [Entry(p, FirstKey(m), [])] + Es(Inner(kids), ptrs)[j + 2..]
      && PageBytes(Es(Inner(all), ps)) == NodeSize(Inner(all))
  {
    hide PageBytes;
    var all, ps := kids[..j] + [m] + kids[j + 2..], ptrs[..j] + [p] + ptrs[j + 2..];
    assert KidSlots(all) == KidSlots(kids)[..j] + [Entry(0, FirstKey(m), [])] + KidSlots(kids)[j + 2..];
    SameSizes(KidSlots(all), ps);
  }

  lemma TwoReplacedRep(v: View, kids: seq<Tree>, ptrs: seq<nat>, j: nat, m: Tree, p: nat)
    requires KidsRep(v, ptrs, kids) && j + 2 <= |kids| && KidRep(v, p, m)
    ensures KidsRep(v, ptrs[..j] + [p] + ptrs[j + 2..], kids[..j] + [m] + kids[j + 2..])
  {
    hide KidRep;
  }

  lemma LeafDeleted(t: Tree, k: bytes, i: nat)
    requires t.Leaf? && t.kvs != [] && i == Lookup(Slots(t), k)
    ensures Del(t, k).Some? <==> k == LeafSlots(t.kvs)[i].key
    ensures Del(t, k).Some? ==> Del(t, k).value == Leaf(t.kvs[..i] + t.kvs[i + 1..])
    ensures LeafSlots(t.kvs[..i] + t.kvs[i + 1..]) == LeafSlots(t.kvs)[..i] + LeafSlots(t.kvs)[i + 1..]
  {
    hide Lookup;
  }

  /** treeDelete on an inner node, one level at a time. */
  lemma DelStep(t: Tree, h: nat, k: bytes, i: nat)
    requires t.Inner? && WellFormed(t, h) && h > 0 && RoomToDelete(t, k) && i == Lookup(KidSlots(t.kids), k) < |t.kids|
    requires WellFormed(t.kids[i], h - 1)
    ensures AllFit(t.kids, h - 1)
    ensures Del(t, k).Some? <==> Del(t.kids[i], k).Some?
    ensures RoomToDelete(t.kids[i], k)
    ensures Del(t, k).Some? ==> var u := Del(t.kids[i], k).value;
      ShapeOrEmpty(u, h - 1) && (forall j :: 0 <= j < |t.kids| ==> SameKind(t.kids[j], u))
      && Del(t, k) == Some(Join(t.kids, i, u)) && Fits(Join(t.kids, i, u))
  {
    hide Lookup, Join, FlatAll, Drop, Dict, PageBytes, Small, Sorted, SizeAfter, Fits, AllLess, AllAbove;
    FittingKids(t, h);
    ChildWellFormed(t, h, k);
    FlatSplit(t.kids, i);
    FoundInside(FlatAll(t.kids[..i]), Flat(t.kids[i]), FlatAll(t.kids[i + 1..]), k);
    DelKeeps(t.kids[i], h - 1, k);
    if Del(t.kids[i], k).Some? {
      DelSizes(t, h, k);
      var u := Del(t.kids[i], k).value;
      JoinFlat(t.kids, i, u, h - 1);
    }
  }

  /** The cases of nodeDelete. */
  lemma JoinCases(kids: seq<Tree>, i: nat, u: Tree, h: nat)
    requires i < |kids| && AllFit(kids, h) && ShapeOrEmpty(u, h)
    requires forall j :: 0 <= j < |kids| ==> SameKind(kids[j], u)
    requires Fits(Join(kids, i, u))
    ensures NodeSize(Join(kids, i, u)) <= PAGE_SIZE
    ensures var d := ShouldMerge(kids, i, u);
      && (d.ToLeft? ==> var m := Merge(kids[i - 1], u);
           Width(m) > 0 && NodeSize(m) <= PAGE_SIZE && Join(kids, i, u) == Inner(kids[..i - 1] + [m] + kids[i + 1..]))
      && (d.ToRight? ==> SameKind(u, kids[i + 1]) && var m := Merge(u, kids[i + 1]);
           Width(m) > 0 && NodeSize(m) <= PAGE_SIZE && Join(kids, i, u) == Inner(kids[..i] + [m] + kids[i + 2..]))
      && (d.Stay? && Width(u) == 0 ==> |kids| == 1 && Join(kids, i, u) == Inner([]))
      && (d.Stay? && Width(u) > 0 ==> Join(kids, i, u) == Inner(kids[..i] + [u] + kids[i + 1..]))
  {
    hide PageBytes, KidsFit, Slots;
    match ShouldMerge(kids, i, u)
    case ToLeft => {
      FlatMerge(kids[i - 1], u);
      ShapeMerge(kids[i - 1], u, h);
      ShapeWide(Merge(kids[i - 1], u), h);
    }
    case ToRight => {
      FlatMerge(u, kids[i + 1]);
      ShapeMerge(u, kids[i + 1], h);
      ShapeWide(Merge(u, kids[i + 1]), h);
    }
    case Stay => {
      if Width(u) == 0 { EmptyMerges(kids, i, u, h); }
    }
  }

  lemma FitKids(t: Tree, h: nat)
    requires t.Inner? && AllFit(t.kids, h)
    ensures KidsFit(t)
  {
  }

  lemma EmptyRep(v: View, s: bytes)
    requires |s| >= HEADER && BType(s) == KindCode(NODE) && FilledFor(s, 0, [])
    ensures NodeRep(v, s, Inner([]))
  {
    assert Es(Inner([]), []) == [];
    InnerRep(v, s, [], []);
  }

  /** A root with one child left: the page that takes its place. */
  lemma OnlyKid(v: View, s: bytes, n: Tree)
    requires NodeRep(v, s, n) && n.Inner? && |n.kids| == 1
    ensures |s| >= HEADER && NKeys(s) == 1 && KvStart(s) <= |s| && KidRep(v, GetPtr(s, 0), n.kids[0])
  {
    hide NodeRep, PageIs, WithPtrs;
    var ptrs := NodeOf(v, s, n);
    ReadKid(v, s, n, ptrs, 0);
  }
}
