/**
 * BTree (storage/btree.go) over a store of page buffers: Insert, Delete and GetVal do to the pages
 * what the functions of Roots do to the logical tree. The store is that of a transaction's pending
 * tree (storage/disk.go): every page gets a new number, and del does nothing.
 */
module BTrees {
  import opened Bytes
  import opened Pages
  import opened Builders
  import opened Edits
  import opened Cuts
  import opened SortedRuns
  import opened Trees
  import opened Deletes
  import opened Overflows
  import opened Roots
  import opened Splits
  import opened Stores

  /** Between two states of the store, only pages with buffers of bufs have been added. */
  ghost predicate Adds(p: map<nat, BNode>, q: map<nat, BNode>, bufs: set<array<byte>>) {
    && (forall i :: i in p ==> i in q && q[i] == p[i])
    && (forall i :: i in q && i !in p ==> q[i].buf in bufs)
  }

  lemma AddsOne(p: map<nat, BNode>, q: map<nat, BNode>, bufs: set<array<byte>>, i: nat, b: BNode)
    requires Adds(p, q, bufs) && i !in q && b.buf in bufs
    ensures Adds(p, q[i := b], bufs)
  {
  }

  class BTree {
    var root: nat  // 0 is the empty tree
    var pages: map<nat, BNode>
    var nPages: nat
    ghost var view: View
    ghost var tree: Option<Tree>

    /** Every page is a buffer of PAGE_SIZE bytes, and view says what they hold. */
    ghost predicate Stored()
      reads this, set p | p in pages :: pages[p].buf
    {
      && view.Keys == pages.Keys
      && forall p :: p in pages ==>
           1 <= p <= nPages && pages[p].len == PAGE_SIZE <= pages[p].buf.Length && view[p] == pages[p].buf[..PAGE_SIZE]
    }

    /** The root page holds the tree. */
    ghost predicate Valid()
      reads this, set p | p in pages :: pages[p].buf
    {
      && Stored()
      && (root == 0 <==> tree.None?)
      && (tree.Some? ==> KidRep(view, root, tree.value))
    }

    constructor ()
      ensures Valid() && tree == None && root == 0 && pages == map[] && view == map[] && nPages == 0
    {
      root, pages, nPages, view, tree := 0, map[], 0, map[], None;
    }

    /** The same pages from the same root, for reading: what an earlier root stands for. */
    constructor Snapshot(t: BTree)
      requires t.Valid()
      ensures Valid() && root == t.root && pages == t.pages && nPages == t.nPages && view == t.view && tree == t.tree
    {
      root, pages, nPages, view, tree := t.root, t.pages, t.nPages, t.view, t.tree;
    }

    /** What a child's page is in the store. */
    lemma PageOf(p: nat, t: Tree)
      requires Stored() && KidRep(view, p, t)
      ensures p in pages && pages[p].len == PAGE_SIZE <= pages[p].buf.Length
      ensures NodeRep(view, pages[p].buf[..PAGE_SIZE], t)
    {
      hide NodeRep;
    }

    /** new */
    method New(b: BNode) returns (ptr: nat)
      requires Stored() && b.len == PAGE_SIZE <= b.buf.Length
      modifies this`pages, this`nPages, this`view
      ensures Stored() && nPages == old(nPages) + 1
      ensures ptr == nPages && ptr !in old(pages) && ptr !in old(view)
      ensures pages == old(pages)[ptr := b] && view == old(view)[ptr := b.buf[..PAGE_SIZE]]
    {
      nPages := nPages + 1;
      ptr := nPages;
      pages := pages[ptr := b];
      view := view[ptr := b.buf[..PAGE_SIZE]];
    }

    /** del */
    method Free(ptr: nat) {
    }

    ghost predicate Outside(b: array<byte>)
      reads this
    {
      forall p :: p in pages ==> pages[p].buf != b
    }

    // ---------------------------------------------------------- Insert

    /** treeInsert on a leaf. */
    static method InsertIntoLeaf(new_: array<byte>, s: bytes, idx: nat, key: bytes, val: bytes, ghost kvs: seq<Pair>)
      requires PageIs(s, LEAF, LeafSlots(kvs)) && kvs != [] && idx == Lookup(LeafSlots(kvs), key)
      requires SmallPair(Pair(key, val)) && NodeSize(Leaf(kvs)) <= PAGE_SIZE && new_.Length == PAGE_SIZE + PAGE_SIZE
      modifies new_
      ensures PageIs(new_[..], LEAF, LeafSlots(InsLeaf(kvs, key, val)))
    {
      hide PageIs, PageBytes, Compare, KvInside, GetKey, Lookup;
      ghost var es := LeafSlots(kvs);
      LeafFacts(s, es);
      ReadBack(s, |es|, es, idx);
      ReadBack(s, |es|, es, 0);
      LeafInserted(kvs, key, val, idx);
      if key == GetKey(s, idx) {
        LeafUpdate(new_, s, idx, key, val, es);
      } else {
        var cmp := Compare(key, GetKey(s, 0));
        if cmp < 0 && idx == 0 {
          LeafPrepend(new_, s, key, val, es);
        } else {
          LeafInsert(new_, s, idx + 1, key, val, es);
        }
      }
    }

    /** nodeSplit3, in terms of logical nodes. */
    static method SplitNode(b: BNode, ghost c: Tree, ghost h: nat, ghost v: View) returns (ps: seq<BNode>)
      requires PAGE_SIZE <= b.len == b.buf.Length && NodeRep(v, b.buf[..], c)
      requires Shape(c, h) && SmallSlots(Slots(c)) && NodeSize(c) <= PAGE_SIZE + PAGE_SIZE - 8
      ensures |ps| == |Split(c)|
      ensures forall i :: 0 <= i < |ps| ==> ps[i].len == PAGE_SIZE <= ps[i].buf.Length
      ensures forall i :: 0 <= i < |ps| ==> NodeRep(v, ps[i].buf[..PAGE_SIZE], Split(c)[i])
      ensures forall i :: 0 <= i < |ps| ==> ps[i].buf == b.buf || fresh(ps[i].buf)
    {
      hide PageIs, PageBytes, NodeRep, Slots, Split, Pieces, SmallSlots;
      assert b.buf[..b.len] == b.buf[..];
      ghost var ptrs := NodeOf(v, b.buf[..], c);
      SameWidth(v, c, ptrs);
      ShapeWide(c, h);
      PiecesFit(Es(c, ptrs));
      ps := NodeSplit3(b, KindOf(c), Es(c, ptrs));
      label filled:
      SplitRep(v, c, ptrs, seq(|ps|, i requires 0 <= i < |ps| => old@filled(ps[i].buf[..PAGE_SIZE])));
    }

    /** treeInsert */
    method TreeInsert(node: BNode, key: bytes, val: bytes, ghost t: Tree, ghost h: nat)
      returns (nb: BNode, ghost bufs: set<array<byte>>)
      requires Stored() && node.len <= node.buf.Length && NodeRep(view, node.buf[..node.len], t)
      requires WellFormed(t, h) && SmallPair(Pair(key, val)) && nPages + 3 * h < TWO_64
      modifies this`pages, this`nPages, this`view
      ensures Stored() && Extends(old(view), view) && nPages <= old(nPages) + 3 * h
      ensures fresh(bufs) && Adds(old(pages), pages, bufs)
      ensures nb.len == nb.buf.Length == PAGE_SIZE + PAGE_SIZE && fresh(nb.buf) && nb.buf !in bufs
      ensures NodeRep(view, nb.buf[..], Ins(t, key, val))
      decreases t, 1
    {
      hide NodeRep, WellFormed, Lookup, PageBytes, LeafSlots, KidSlots, WithPtrs, Ins, SmallPair, Adds, Extends, PageIs, KidsRep, Zeros;
      var new_ := new byte[PAGE_SIZE + PAGE_SIZE](_ => 0);
      assert Outside(new_);
      var s := node.buf[..node.len];
      ghost var ptrs := NodeOf(view, s, t);
      SearchReady(t, h, ptrs, key);
      PageFacts(s, KindOf(t), Es(t, ptrs));
      var idx := NodeLookupLE(s, key, KindOf(t), Es(t, ptrs));
      if BType(s) == KindCode(LEAF) {
        LeafOf(view, s, t.kvs);
        InsertIntoLeaf(new_, s, idx, key, val, t.kvs);
        LeafRep(view, new_[..], InsLeaf(t.kvs, key, val));
        InsOnLeaf(t, key, val);
        bufs := {};
        NothingAdded(pages, view, [], {});
      } else {
        bufs := NodeInsert(new_, s, idx, key, val, t, h, ptrs);
      }
      nb := BNode(new_, PAGE_SIZE + PAGE_SIZE);
    }

    /** nodeInsert */
    method NodeInsert(new_: array<byte>, s: bytes, idx: nat, key: bytes, val: bytes, ghost t: Tree, ghost h: nat, ghost ptrs: seq<nat>)
      returns (ghost bufs: set<array<byte>>)
      requires Stored() && Outside(new_) && new_.Length == PAGE_SIZE + PAGE_SIZE
      requires t.Inner? && WellFormed(t, h) && SmallPair(Pair(key, val)) && nPages + 3 * h < TWO_64
      requires |ptrs| == |t.kids| && PageIs(s, NODE, Es(t, ptrs)) && KidsRep(view, ptrs, t.kids)
      requires idx == Lookup(KidSlots(t.kids), key) < |t.kids|
      modifies new_, this`pages, this`nPages, this`view
      ensures Stored() && Extends(old(view), view) && nPages <= old(nPages) + 3 * h
      ensures fresh(bufs) && Adds(old(pages), pages, bufs)
      ensures NodeRep(view, new_[..], Ins(t, key, val))
      decreases t, 0
    {
      hide NodeRep, WellFormed, Lookup, Stored, PageBytes, WithPtrs, Ins, SmallPair, Adds, Extends, PageIs, AllLess, AllAbove, KidSlots, FlatAll, Put, SmallSlots, KidsFit, Shape, AllFit;
      ghost var kid := t.kids[idx];
      ghost var v0, p0 := view, pages;
      ReadKid(v0, s, t, ptrs, idx);
      var kptr := GetPtr(s, idx);
      InnerHeight(t, h);
      ChildWellFormed(t, h, key);
      PageOf(kptr, kid);
      var knode, bufs1 := TreeInsert(pages[kptr], key, val, kid, h - 1);
      AddsOutside(p0, pages, bufs1, new_);
      ghost var c := Ins(kid, key, val);
      InsKeeps(kid, h - 1, key, val);
      var split := SplitNode(knode, c, h - 1, view);
      Free(kptr);
      SplitKeeps(c, h - 1);
      ghost var v1, p1 := view, pages;
      ghost var bufs2 := set i | 0 <= i < |split| :: split[i].buf;
      KidsStay(v0, v1, ptrs, t.kids);
      KidInserted(t, h, key, val, idx, c);
      AllWide(Split(c), h - 1);
      NodeReplaceKidN(new_, s, idx, split, t.kids, ptrs, Split(c), bufs2);
      bufs := bufs1 + bufs2;
      AddsTrans(p0, p1, pages, bufs1, bufs2);
      ExtendsTrans(v0, v1, view);
      InsInner(t, key, val);
    }

    /** Child idx gives way to the nodes ks, which are stored; their keys at index 0 are the separators. */
    method NodeReplaceKidN(new_: array<byte>, s: bytes, idx: nat, ks: seq<BNode>,
                           ghost kids: seq<Tree>, ghost ptrs: seq<nat>, ghost news: seq<Tree>, ghost bufs: set<array<byte>>)
      requires Stored() && Outside(new_)
      requires idx < |kids| == |ptrs| && PageIs(s, NODE, Es(Inner(kids), ptrs)) && KidsRep(view, ptrs, kids)
      requires |ks| == |news| && nPages + |ks| < TWO_64
      requires forall i :: 0 <= i < |ks| ==> ks[i].len == PAGE_SIZE <= ks[i].buf.Length && ks[i].buf in bufs
      requires new_ !in bufs
      requires forall i :: 0 <= i < |ks| ==> Width(news[i]) > 0 && NodeRep(view, ks[i].buf[..PAGE_SIZE], news[i])
      requires NodeSize(Inner(kids[..idx] + news + kids[idx + 1..])) <= new_.Length < TWO_16
      modifies new_, this`pages, this`nPages, this`view
      ensures Stored() && Outside(new_)
      ensures Extends(old(view), view) && nPages == old(nPages) + |ks|
      ensures Adds(old(pages), pages, bufs)
      ensures NodeRep(view, new_[..], Inner(kids[..idx] + news + kids[idx + 1..]))
    {
      hide DataSize, PtrBytes, OffsetBytes, DataBytes, At, Storable, NodeRep, WithPtrs, KidSlots, KidsRep, KidRep, Areas, Stored, Extends, Adds, EntrySize;
      ghost var all := kids[..idx] + news + kids[idx + 1..];
      ghost var fs, es := KidSlots(all), Es(Inner(kids), ptrs);
      ghost var n := |all|;
      ghost var v0 := view;
      var oldKeys, inc := NKeys(s), |ks|;
      PageFacts(s, NODE, es);
      SlotsFit(fs);
      Reserve(new_, oldKeys + inc - 1);
      ghost var h := new_[..];
      ReplacedPrefix(kids, idx, news, ptrs);
      assert es[0..idx] == es[..idx] && [] + es[..idx] == es[..idx];
      NodeAppendRange(new_, s, 0, 0, idx, n, [], |es|, es);
      ghost var nptrs := AppendKids(new_, idx, ks, kids, ptrs[..idx], news, n, bufs);
      ReplacedEs(kids, idx, news, ptrs, nptrs);
      assert es[idx + 1..idx + 1 + (oldKeys - (idx + 1))] == es[idx + 1..];
      NodeAppendRange(new_, s, idx + inc, idx + 1, oldKeys - (idx + 1), n, WithPtrs(fs[..idx + inc], ptrs[..idx] + nptrs), |es|, es);
      ghost var ps := ptrs[..idx] + nptrs + ptrs[idx + 1..];
      PageDone(new_[..], h, NODE, n, Es(Inner(all), ps));
      KidsStay(v0, view, ptrs, kids);
      KidsReplacedRep(view, kids, idx, news, ptrs, nptrs);
      InnerRep(view, new_[..], all, ps);
    }

    /** setHeader on a buffer outside the store. */
    method Reserve(new_: array<byte>, n: nat)
      requires Stored() && Outside(new_) && DataStart(n) <= new_.Length < TWO_16
      modifies new_
      ensures Stored() && BType(new_[..]) == KindCode(NODE)
      ensures FilledFor(new_[..], n, []) && DataSize([]) == 0
    {
      SetHeader(new_, NODE, n);
      EmptyData();
    }

    /** A stored child's slot: its page number and its key at index 0. */
    static method AppendKid(new_: array<byte>, j: nat, ptr: nat, c: bytes,
                            ghost fs: seq<Entry>, ghost ps: seq<nat>, ghost n: nat, ghost v: View, ghost t: Tree)
      requires |ps| == j < |fs| == n && ptr < TWO_64
      requires DataStart(n) + DataSize(fs) <= new_.Length && FilledFor(new_[..], n, WithPtrs(fs[..j], ps))
      requires Width(t) > 0 && NodeRep(v, c, t) && fs[j] == Entry(0, FirstKey(t), [])
      modifies new_
      ensures new_[..HEADER] == old(new_[..HEADER])
      ensures FilledFor(new_[..], n, WithPtrs(fs[..j + 1], ps + [ptr]))
    {
      hide DataSize, PtrBytes, OffsetBytes, DataBytes, At, Storable, NodeRep, WithPtrs, GetKey, KvInside, Areas;
      FirstKeyRead(v, c, t);
      RoomForSlot(fs, j, ps);
      NextSlot(fs, j, ps, ptr);
      NodeAppendKV(new_, j, ptr, GetKey(c, 0), [], n, WithPtrs(fs[..j], ps));
    }

    /** nodeReplaceKidN's loop. */
    method AppendKids(new_: array<byte>, idx: nat, ks: seq<BNode>,
                      ghost kids: seq<Tree>, ghost ps: seq<nat>, ghost news: seq<Tree>, ghost n: nat,
                      ghost bufs: set<array<byte>>) returns (ghost nptrs: seq<nat>)
      requires Stored() && Outside(new_)
      requires idx < |kids| && |ps| == idx && n == |kids| + |news| - 1
      requires |ks| == |news| && nPages + |ks| < TWO_64
      requires forall i :: 0 <= i < |ks| ==> ks[i].len == PAGE_SIZE <= ks[i].buf.Length && ks[i].buf in bufs
      requires new_ !in bufs
      requires forall i :: 0 <= i < |ks| ==> Width(news[i]) > 0 && NodeRep(view, ks[i].buf[..PAGE_SIZE], news[i])
      requires var fs := KidSlots(kids[..idx] + news + kids[idx + 1..]);
        DataStart(n) + DataSize(fs) <= new_.Length && FilledFor(new_[..], n, WithPtrs(fs[..idx], ps))
      modifies new_, this`pages, this`nPages, this`view
      ensures Stored() && Outside(new_)
      ensures Extends(old(view), view) && nPages == old(nPages) + |ks|
      ensures Adds(old(pages), pages, bufs)
      ensures |nptrs| == |news| && KidsRep(view, nptrs, news)
      ensures new_[..HEADER] == old(new_[..HEADER])
      ensures FilledFor(new_[..], n, WithPtrs(KidSlots(kids[..idx] + news + kids[idx + 1..])[..idx + |news|], ps + nptrs))
    {
      hide DataSize, NodeRep, WithPtrs, KidSlots, KidsRep, FilledFor, EntrySize, Adds, Extends, StoredAs, Stored;
      ghost var fs := KidSlots(kids[..idx] + news + kids[idx + 1..]);
      ghost var v0 := view;
      ghost var cs := seq(|ks|, j requires 0 <= j < |ks| => old(ks[j].buf[..PAGE_SIZE]));
      nptrs := [];
      assert ps + nptrs == ps;
      NothingAdded(pages, view, cs, bufs);
      for i := 0 to |ks|
        invariant Stored() && Outside(new_) && nPages == old(nPages) + i
        invariant Extends(v0, view) && |nptrs| == i && StoredAs(view, nptrs, cs) && Adds(old(pages), pages, bufs)
        invariant new_[..HEADER] == old(new_[..HEADER])
        invariant FilledFor(new_[..], n, WithPtrs(fs[..idx + i], ps + nptrs))
      {
        ghost var w, q := view, pages;
        var ptr := New(ks[i]);
        StoreOne(v0, w, nptrs, cs, ptr, cs[i]);
        AddsOne(old(pages), q, bufs, ptr, ks[i]);
        NewSlot(kids, idx, news, i);
        AppendKid(new_, idx + i, ptr, ks[i].buf[..PAGE_SIZE], fs, ps + nptrs, n, v0, news[i]);
        assert ps + (nptrs + [ptr]) == ps + nptrs + [ptr];
        nptrs := nptrs + [ptr];
      }
      StoredKids(v0, view, nptrs, cs, news);
    }

    /** The first page: the sentinel and the pair. */
    static method FirstPage(new_: array<byte>, key: bytes, val: bytes)
      requires new_.Length == PAGE_SIZE && SmallPair(Pair(key, val))
      modifies new_
      ensures PageIs(new_[..], LEAF, [Entry(0, [], []), Entry(0, key, val)])
    {
      hide DataSize, At;
      ghost var a, b := Entry(0, [], []), Entry(0, key, val);
      SetHeader(new_, LEAF, 2);
      ghost var head := new_[..];
      EmptyData();
      SingleData(a);
      assert [] + [a] == [a] && [a] + [b] == [a, b];
      NodeAppendKV(new_, 0, 0, [], [], 2, []);
      NodeAppendKV(new_, 1, 0, key, val, 2, [a]);
      PageDone(new_[..], head, LEAF, 2, [a, b]);
    }

    /** A split leaf root's first piece, without its first slot. */
    static method WithoutFirstSlot(b: BNode, ghost v: View, ghost kvs: seq<Pair>) returns (m: BNode)
      requires b.len == PAGE_SIZE <= b.buf.Length && NodeRep(v, b.buf[..PAGE_SIZE], Leaf(kvs)) && kvs != []
      ensures m.len == PAGE_SIZE == m.buf.Length && fresh(m.buf)
      ensures NodeRep(v, m.buf[..PAGE_SIZE], Leaf(kvs[1..]))
    {
      hide PageIs, NodeRep, PageBytes;
      var s := b.buf[..PAGE_SIZE];
      ghost var es := LeafSlots(kvs);
      LeafOf(v, s, kvs);
      PageFacts(s, LEAF, es);
      var new_ := new byte[PAGE_SIZE](_ => 0);
      var n := NKeys(s);
      TwoParts(es, 1);
      AtLeastHeader(es[..1]);
      assert es[1..1 + (n - 1)] == es[1..] == LeafSlots(kvs[1..]);
      CutInto(new_, s, LEAF, 1, n - 1, LEAF, es);
      assert new_[..PAGE_SIZE] == new_[..];
      m := BNode(new_, PAGE_SIZE);
      LeafRep(v, m.buf[..PAGE_SIZE], kvs[1..]);
    }

    /** The children of the new root: a leaf root's sentinel goes. */
    static method RootKids(split: seq<BNode>, leafRoot: bool, ghost v: View, ghost ps: seq<Tree>, ghost news: seq<Tree>) returns (ks: seq<BNode>)
      requires 1 < |split| == |ps| == |news|
      requires forall i :: 0 <= i < |split| ==> split[i].len == PAGE_SIZE <= split[i].buf.Length
      requires forall i :: 0 <= i < |split| ==> NodeRep(v, split[i].buf[..PAGE_SIZE], ps[i])
      requires if leafRoot then ps[0].Leaf? && ps[0] != Leaf([]) && news == [Leaf(ps[0].kvs[1..])] + ps[1..] else news == ps
      ensures |ks| == |news|
      ensures forall i :: 0 <= i < |ks| ==> ks[i].len == PAGE_SIZE <= ks[i].buf.Length
      ensures forall i :: 0 <= i < |ks| ==> NodeRep(v, ks[i].buf[..PAGE_SIZE], news[i])
    {
      hide NodeRep;
      ks := split;
      if leafRoot {
        var modChild := WithoutFirstSlot(split[0], v, ps[0].kvs);
        ks := [modChild] + split[1..];
        assert forall i :: 0 < i < |ks| ==> ks[i] == split[i] && news[i] == ps[i];
      }
    }

    /** A new root's children are stored, and their slots written. */
    method FillRoot(new_: array<byte>, ks: seq<BNode>, ghost news: seq<Tree>, ghost h: nat, ghost bufs: set<array<byte>>)
      requires Stored() && nPages + |ks| + 1 < TWO_64 && Outside(new_) && new_.Length == PAGE_SIZE && new_ !in bufs
      requires |ks| == |news| && Shape(Inner(news), h) && Fits(Inner(news))
      requires forall i :: 0 <= i < |ks| ==> ks[i].len == PAGE_SIZE <= ks[i].buf.Length && ks[i].buf in bufs
      requires forall i :: 0 <= i < |ks| ==> NodeRep(view, ks[i].buf[..PAGE_SIZE], news[i])
      modifies new_, this`pages, this`nPages, this`view
      ensures Stored() && Extends(old(view), view) && nPages == old(nPages) + |ks| && Adds(old(pages), pages, bufs)
      ensures Outside(new_) && NodeRep(view, new_[..], Inner(news))
    {
      hide PageIs, NodeRep, WithPtrs, KidSlots, Storable, Areas, KidsRep, DataSize, Shape, Fits, FilledFor, Adds, Extends;
      RootSlots(news, h);
      Reserve(new_, |ks|);
      ghost var head := new_[..];
      ghost var nptrs := AppendKids(new_, 0, ks, [Leaf([])], [], news, |news|, bufs);
      RootPage(new_[..], head, news, nptrs);
      InnerRep(view, new_[..], news, nptrs);
    }

    /** The page of a new root over ks. */
    method NewRoot(ks: seq<BNode>, ghost news: seq<Tree>, ghost h: nat) returns (ptr: nat)
      requires Stored() && nPages + |ks| + 1 < TWO_64
      requires |ks| == |news| && Shape(Inner(news), h) && Fits(Inner(news))
      requires forall i :: 0 <= i < |ks| ==> ks[i].len == PAGE_SIZE <= ks[i].buf.Length
      requires forall i :: 0 <= i < |ks| ==> NodeRep(view, ks[i].buf[..PAGE_SIZE], news[i])
      modifies this`pages, this`nPages, this`view
      ensures Stored() && KidRep(view, ptr, Inner(news)) && nPages == old(nPages) + |ks| + 1
      ensures Extends(old(view), view) && Kept(old(pages), pages)
    {
      hide NodeRep, Shape, Fits, Adds, Extends, Kept;
      ghost var v0, p0 := view, pages;
      ghost var bufs := set i | 0 <= i < |ks| :: ks[i].buf;
      var new_ := new byte[PAGE_SIZE](_ => 0);
      FillRoot(new_, ks, news, h, bufs);
      assert new_[..PAGE_SIZE] == new_[..];
      ghost var v1, p1 := view, pages;
      ptr := New(BNode(new_, PAGE_SIZE));
      StoredRoot(v0, v1, ptr, new_[..PAGE_SIZE], Inner(news));
      StoredPage(p0, p1, bufs, ptr, BNode(new_, PAGE_SIZE));
    }

    /** The first insert: a page with the sentinel and the pair. */
    method InsertFirst(key: bytes, val: bytes) returns (ptr: nat)
      requires Stored() && SmallPair(Pair(key, val))
      modifies this`pages, this`nPages, this`view
      ensures Stored() && KidRep(view, ptr, InsertRoot(None, key, val)) && nPages == old(nPages) + 1
      ensures Extends(old(view), view) && Kept(old(pages), pages)
    {
      hide NodeRep, PageIs, InsertRoot, SmallPair, Extends, Kept, Adds;
      var new_ := new byte[PAGE_SIZE](_ => 0);
      assert Outside(new_);
      FirstPage(new_, key, val);
      assert new_[..PAGE_SIZE] == new_[..];
      ghost var v, p := view, pages;
      FirstPageRep(v, new_[..], key, val);
      NothingAdded(p, v, [], {});
      ptr := New(BNode(new_, PAGE_SIZE));
      StoredRoot(v, v, ptr, new_[..PAGE_SIZE], InsertRoot(None, key, val));
      StoredPage(p, p, {}, ptr, BNode(new_, PAGE_SIZE));
    }

    /** Insert into a tree that has a root: the pages of the new root. */
    method InsertMore(key: bytes, val: bytes, ghost t: Tree) returns (ptr: nat)
      requires Stored() && KidRep(view, root, t) && key != [] && SmallPair(Pair(key, val))
      requires WF(t) && (LeafRootSplits(t, key, val) ==> HasSentinel(t))
      requires nPages + 3 * Height(t) + 5 < TWO_64
      modifies this`pages, this`nPages, this`view
      ensures Stored() && KidRep(view, ptr, InsertRoot(Some(t), key, val)) && nPages < old(nPages) + 3 * Height(t) + 5
      ensures Extends(old(view), view) && Kept(old(pages), pages)
    {
      hide NodeRep, WellFormed, PageBytes, Ins, SmallPair, Adds, Split, InsertRoot, HasSentinel, LeafRootSplits, Extends, Kept, KidsFit, Shape, Slots, SmallSlots, Put, AllFit, FlatAll;
      ghost var v0, p0 := view, pages;
      ghost var h, c := Height(t), Ins(t, key, val);
      PageOf(root, t);
      var node, bufs := TreeInsert(pages[root], key, val, t, h);
      InsKeeps(t, h, key, val);
      var split := SplitNode(node, c, h, view);
      SplitKeeps(c, h);
      StoredPages(p0, pages, bufs, root);
      RootKind(v0, pages[root].buf[..PAGE_SIZE], t);
      var leafRoot := BType(pages[root].buf[..PAGE_SIZE]) == KindCode(LEAF);
      if !leafRoot { Free(root); }
      ghost var v1, p1 := view, pages;
      if |split| > 1 {
        NewRootTree(t, key, val);
        ghost var news := InsertRoot(Some(t), key, val).kids;
        var ks := RootKids(split, leafRoot, view, Split(c), news);
        ptr := NewRoot(ks, news, h + 1);
        KeptTrans(p0, p1, pages, bufs);
      } else {
        ptr := New(split[0]);
        NothingStored(v1);
        StoredRoot(v1, v1, ptr, split[0].buf[..PAGE_SIZE], Split(c)[0]);
        StoredPage(p0, p1, bufs, ptr, split[0]);
        SplitRoot(t, key, val);
      }
      ExtendsTrans(v0, v1, view);
    }

    /** Insert */
    method Insert(key: bytes, val: bytes)
      requires Valid() && key != [] && SmallPair(Pair(key, val))
      requires tree.Some? ==> WF(tree.value) && (LeafRootSplits(tree.value, key, val) ==> HasSentinel(tree.value))
      requires nPages + (if tree.Some? then 3 * Height(tree.value) else 0) + 5 < TWO_64
      modifies this
      ensures nPages < old(nPages + (if tree.Some? then 3 * Height(tree.value) else 0) + 5)
      ensures Valid() && tree == Some(InsertRoot(old(tree), key, val))
      ensures Extends(old(view), view) && Kept(old(pages), pages)
    {
      hide KidRep, WellFormed, SmallPair, InsertRoot, HasSentinel, LeafRootSplits, Extends, Kept;
      if root == 0 {
        root := InsertFirst(key, val);
      } else {
        root := InsertMore(key, val, tree.value);
      }
      tree := Some(InsertRoot(tree, key, val));
      NotZero(view, root, tree.value);
    }

    // ---------------------------------------------------------- GetVal

    /** getVal */
    method GetValIn(node: BNode, key: bytes, ghost t: Tree, ghost h: nat) returns (r: Option<bytes>)
      requires Stored() && node.len <= node.buf.Length && NodeRep(view, node.buf[..node.len], t)
      requires WellFormed(t, h)
      ensures r == Get(t, key)
      decreases t
    {
      hide NodeRep, WellFormed, Lookup, PageBytes, LeafSlots, KidSlots, WithPtrs, PageIs, Zeros, Get, Areas;
      var s := node.buf[..node.len];
      ghost var ptrs := NodeOf(view, s, t);
      SearchReady(t, h, ptrs, key);
      PageFacts(s, KindOf(t), Es(t, ptrs));
      GetStep(t, key);
      var idx := NodeLookupLE(s, key, KindOf(t), Es(t, ptrs));
      PageStorable(s, KindOf(t), Es(t, ptrs));
      if BType(s) == KindCode(LEAF) {
        LeafOf(view, s, t.kvs);
        LeafFacts(s, LeafSlots(t.kvs));
        ReadBack(s, |t.kvs|, LeafSlots(t.kvs), idx);
        if GetKey(s, idx) == key {
          return Some(GetVal(s, idx));
        }
        return None;
      }
      ReadKid(view, s, t, ptrs, idx);
      var cptr := GetPtr(s, idx);
      InnerHeight(t, h);
      ChildWellFormed(t, h, key);
      PageOf(cptr, t.kids[idx]);
      r := GetValIn(pages[cptr], key, t.kids[idx], h - 1);
    }

    /** GetVal */
    method GetValue(key: bytes) returns (r: Option<bytes>)
      requires Valid() && (tree.Some? ==> WF(tree.value))
      ensures r == if tree.Some? then Get(tree.value, key) else None
      ensures r == if tree.Some? then Find(Dict(Flat(tree.value)), key) else None
    {
      hide NodeRep, WellFormed, Get, Dict, Flat;
      if root == 0 { return None; }
      GetIsFind(tree.value, Height(tree.value), key);
      PageOf(root, tree.value);
      r := GetValIn(pages[root], key, tree.value, Height(tree.value));
    }

    // ---------------------------------------------------------- Delete

    /** shouldMerge */
    method PickSibling(s: bytes, idx: nat, updated: BNode, ghost t: Tree, ghost ptrs: seq<nat>, ghost u: Tree)
      returns (dir: Direction, sibling: BNode)
      requires Stored() && t.Inner? && |ptrs| == |t.kids| && idx < |ptrs| && KidsFit(t)
      requires PageIs(s, NODE, Es(t, ptrs)) && KidsRep(view, ptrs, t.kids)
      requires updated.len <= updated.buf.Length && NodeRep(view, updated.buf[..updated.len], u)
      ensures dir == ShouldMerge(t.kids, idx, u)
      ensures !dir.Stay? ==> sibling.len == PAGE_SIZE <= sibling.buf.Length
      ensures dir.ToLeft? ==> NodeRep(view, sibling.buf[..PAGE_SIZE], t.kids[idx - 1])
      ensures dir.ToRight? ==> NodeRep(view, sibling.buf[..PAGE_SIZE], t.kids[idx + 1])
    {
      hide NodeRep, PageBytes, PageIs, Slots, WithPtrs, KidsRep, KidsFit;
      var data := updated.buf[..updated.len];
      SizeRead(view, data, u);
      PageFacts(s, NODE, Es(t, ptrs));
      sibling := updated;
      if NBytes(data) > PAGE_SIZE / 4 { return Stay, updated; }
      if idx > 0 {
        ReadKid(view, s, t, ptrs, idx - 1);
        var lptr := GetPtr(s, idx - 1);
        PageOf(lptr, t.kids[idx - 1]);
        var leftSib := pages[lptr];
        SizeRead(view, leftSib.buf[..PAGE_SIZE], t.kids[idx - 1]);
        if NBytes(leftSib.buf[..PAGE_SIZE]) + NBytes(data) - HEADER <= PAGE_SIZE { return ToLeft, leftSib; }
      }
      if idx + 1 < NKeys(s) {
        ReadKid(view, s, t, ptrs, idx + 1);
        var rptr := GetPtr(s, idx + 1);
        PageOf(rptr, t.kids[idx + 1]);
        var rightSib := pages[rptr];
        SizeRead(view, rightSib.buf[..PAGE_SIZE], t.kids[idx + 1]);
        if NBytes(rightSib.buf[..PAGE_SIZE]) + NBytes(data) - HEADER <= PAGE_SIZE { return ToRight, rightSib; }
      }
      return Stay, updated;
    }

    /** nodeMerge, in terms of logical nodes. */
    static method MergeNodes(l: BNode, r: BNode, ghost v: View, ghost lt: Tree, ghost rt: Tree) returns (m: BNode)
      requires l.len <= l.buf.Length && r.len <= r.buf.Length && SameKind(lt, rt)
      requires NodeRep(v, l.buf[..l.len], lt) && NodeRep(v, r.buf[..r.len], rt)
      requires NodeSize(Merge(lt, rt)) <= PAGE_SIZE
      ensures m.len == PAGE_SIZE == m.buf.Length && fresh(m.buf) && NodeRep(v, m.buf[..PAGE_SIZE], Merge(lt, rt))
    {
      hide NodeRep, PageIs, PageBytes, WithPtrs, Slots;
      var ls, rs := l.buf[..l.len], r.buf[..r.len];
      ghost var lp := NodeOf(v, ls, lt);
      ghost var rp := NodeOf(v, rs, rt);
      var merged := new byte[PAGE_SIZE](_ => 0);
      MergedEs(v, lt, rt, lp, rp);
      NodeMerge(merged, ls, rs, KindOf(lt), Es(lt, lp), Es(rt, rp));
      assert merged[..PAGE_SIZE] == merged[..];
      m := BNode(merged, PAGE_SIZE);
      RepOf(v, m.buf[..PAGE_SIZE], Merge(lt, rt), lp + rp);
    }

    /** new and nodeReplace2Kid: the children j and j + 1 give way to the merged node. */
    method ReplaceTwo(new_: array<byte>, s: bytes, j: nat, merged: BNode, ghost t: Tree, ghost ptrs: seq<nat>, ghost m: Tree)
      requires Stored() && Outside(new_) && merged.buf != new_ && new_.Length == PAGE_SIZE && nPages + 1 < TWO_64
      requires t.Inner? && |ptrs| == |t.kids| && j + 2 <= |ptrs|
      requires PageIs(s, NODE, Es(t, ptrs)) && KidsRep(view, ptrs, t.kids)
      requires merged.len == PAGE_SIZE <= merged.buf.Length && NodeRep(view, merged.buf[..PAGE_SIZE], m) && Width(m) > 0
      requires NodeSize(Inner(t.kids[..j] + [m] + t.kids[j + 2..])) <= PAGE_SIZE
      modifies new_, this`pages, this`nPages, this`view
      ensures Stored() && Extends(old(view), view) && nPages == old(nPages) + 1
      ensures Adds(old(pages), pages, {merged.buf})
      ensures NodeRep(view, new_[..], Inner(t.kids[..j] + [m] + t.kids[j + 2..]))
    {
      hide NodeRep, PageIs, PageBytes, WithPtrs, KidSlots, KidsRep, Extends, Adds, GetKey, KvInside, KidRep;
      ghost var v, p := view, pages;
      var c := merged.buf[..PAGE_SIZE];
      FirstKeyRead(v, c, m);
      NothingAdded(p, v, [], {merged.buf});
      var mptr := New(merged);
      StoredRoot(v, v, mptr, c, m);
      AddsOne(p, p, {merged.buf}, mptr, merged);
      TwoReplaced(t.kids, ptrs, j, m, mptr);
      NodeReplace2Kid(new_, s, j, mptr, GetKey(c, 0), Es(t, ptrs));
      KidsStay(v, view, ptrs, t.kids);
      TwoReplacedRep(view, t.kids, ptrs, j, m, mptr);
      InnerRep(view, new_[..], t.kids[..j] + [m] + t.kids[j + 2..], ptrs[..j] + [mptr] + ptrs[j + 2..]);
    }

    /** treeDelete; None is the empty slice. */
    method TreeDelete(node: BNode, key: bytes, ghost t: Tree, ghost h: nat) returns (r: Option<BNode>, ghost bufs: set<array<byte>>)
      requires Stored() && node.len <= node.buf.Length && NodeRep(view, node.buf[..node.len], t)
      requires WellFormed(t, h) && RoomToDelete(t, key) && nPages + h < TWO_64
      modifies this`pages, this`nPages, this`view
      ensures Stored() && Extends(old(view), view) && nPages <= old(nPages) + h
      ensures fresh(bufs) && Adds(old(pages), pages, bufs)
      ensures r.Some? <==> Del(t, key).Some?
      ensures r.Some? ==> r.value.len == r.value.buf.Length == PAGE_SIZE && fresh(r.value.buf) && r.value.buf !in bufs
      ensures r.Some? ==> NodeRep(view, r.value.buf[..], Del(t, key).value)
      decreases t, 1
    {
      hide NodeRep, WellFormed, Lookup, PageBytes, LeafSlots, KidSlots, WithPtrs, Del, Adds, Extends, PageIs, KidsRep, Zeros, RoomToDelete;
      var new_ := new byte[PAGE_SIZE](_ => 0);
      assert Outside(new_);
      var s := node.buf[..node.len];
      ghost var ptrs := NodeOf(view, s, t);
      SearchReady(t, h, ptrs, key);
      PageFacts(s, KindOf(t), Es(t, ptrs));
      var idx := NodeLookupLE(s, key, KindOf(t), Es(t, ptrs));
      bufs := {};
      NothingAdded(pages, view, [], {});
      if BType(s) == KindCode(LEAF) {
        ghost var es := LeafSlots(t.kvs);
        LeafOf(view, s, t.kvs);
        LeafFacts(s, es);
        ReadBack(s, |es|, es, idx);
        LeafDeleted(t, key, idx);
        if key != GetKey(s, idx) { return None, bufs; }
        LeafDelete(new_, s, idx, es);
        LeafRep(view, new_[..], t.kvs[..idx] + t.kvs[idx + 1..]);
        r := Some(BNode(new_, PAGE_SIZE));
      } else {
        var found;
        found, bufs := NodeDelete(new_, s, idx, key, t, h, ptrs);
        r := if found then Some(BNode(new_, PAGE_SIZE)) else None;
      }
    }

    /** nodeDelete */
    method NodeDelete(new_: array<byte>, s: bytes, idx: nat, key: bytes, ghost t: Tree, ghost h: nat, ghost ptrs: seq<nat>)
      returns (found: bool, ghost bufs: set<array<byte>>)
      requires Stored() && Outside(new_) && new_.Length == PAGE_SIZE
      requires t.Inner? && WellFormed(t, h) && RoomToDelete(t, key) && nPages + h < TWO_64
      requires |ptrs| == |t.kids| && PageIs(s, NODE, Es(t, ptrs)) && KidsRep(view, ptrs, t.kids)
      requires idx == Lookup(KidSlots(t.kids), key) < |t.kids|
      modifies new_, this`pages, this`nPages, this`view
      ensures Stored() && Extends(old(view), view) && nPages <= old(nPages) + h
      ensures fresh(bufs) && Adds(old(pages), pages, bufs) && new_ !in bufs
      ensures found <==> Del(t, key).Some?
      ensures found ==> NodeRep(view, new_[..], Del(t, key).value)
      decreases t, 0
    {
      hide NodeRep, WellFormed, Lookup, PageBytes, WithPtrs, Del, Adds, Extends, PageIs, KidsRep, KidSlots, FlatAll, KidsFit, Shape, AllFit, RoomToDelete, Join, ShapeOrEmpty, AllLess, AllAbove, Dict, Drop;
      ghost var kid, v0, p0 := t.kids[idx], view, pages;
      ReadKid(v0, s, t, ptrs, idx);
      var kptr := GetPtr(s, idx);
      InnerHeight(t, h);
      ChildWellFormed(t, h, key);
      PageOf(kptr, kid);
      DelStep(t, h, key, idx);
      var updated;
      updated, bufs := TreeDelete(pages[kptr], key, kid, h - 1);
      if updated.None? { return false, bufs; }
      ghost var u, v1, p1, bufs1 := Del(kid, key).value, view, pages, bufs;
      AddsOutside(p0, p1, bufs, new_);
      KidsStay(v0, v1, ptrs, t.kids);
      assert updated.value.buf[..updated.value.len] == updated.value.buf[..];
      ghost var b := JoinKid(new_, s, idx, updated.value, t, h - 1, ptrs, u);
      found := true;
      bufs := bufs1 + b;
      AddsTrans(p0, p1, pages, bufs1, b);
      ExtendsTrans(v0, v1, view);
    }

    /** nodeDelete once the child has become u: merge it with a sibling, or put it in the child's place. */
    method JoinKid(new_: array<byte>, s: bytes, idx: nat, updated: BNode, ghost t: Tree, ghost h: nat, ghost ptrs: seq<nat>, ghost u: Tree)
      returns (ghost bufs: set<array<byte>>)
      requires Stored() && Outside(new_) && new_.Length == PAGE_SIZE && nPages + 1 < TWO_64
      requires t.Inner? && |ptrs| == |t.kids| && idx < |t.kids| && AllFit(t.kids, h) && ShapeOrEmpty(u, h)
      requires PageIs(s, NODE, Es(t, ptrs)) && KidsRep(view, ptrs, t.kids)
      requires updated.len == PAGE_SIZE == updated.buf.Length && updated.buf != new_ && NodeRep(view, updated.buf[..PAGE_SIZE], u)
      requires forall j :: 0 <= j < |t.kids| ==> SameKind(t.kids[j], u)
      requires Fits(Join(t.kids, idx, u))
      modifies new_, this`pages, this`nPages, this`view
      ensures Stored() && Extends(old(view), view) && nPages <= old(nPages) + 1
      ensures fresh(bufs - {updated.buf}) && new_ !in bufs && Adds(old(pages), pages, bufs)
      ensures NodeRep(view, new_[..], Join(t.kids, idx, u))
    {
      hide NodeRep, PageBytes, WithPtrs, Adds, Extends, PageIs, KidsRep, KidSlots, FlatAll, KidsFit, Shape, AllFit, ShapeOrEmpty, ShouldMerge, Fits;
      JoinCases(t.kids, idx, u, h);
      FitKids(t, h);
      var mergeDir, sibling := PickSibling(s, idx, updated, t, ptrs, u);
      bufs := {updated.buf};
      PageFacts(s, NODE, Es(t, ptrs));
      match mergeDir
      case ToLeft => bufs := MergeAt(new_, s, idx - 1, idx - 1, sibling, updated, t, ptrs, t.kids[idx - 1], u);
      case ToRight => bufs := MergeAt(new_, s, idx, idx + 1, updated, sibling, t, ptrs, u, t.kids[idx + 1]);
      case Stay =>
        SizeRead(view, updated.buf[..PAGE_SIZE], u);
        if NKeys(updated.buf[..PAGE_SIZE]) == 0 {
          if NKeys(s) == 1 && idx == 0 { Reserve(new_, 0); }
          EmptyRep(view, new_[..]);
          NothingAdded(pages, view, [], bufs);
        } else {
          NodeReplaceKidN(new_, s, idx, [updated], t.kids, ptrs, [u], bufs);
        }
    }

    /** The children j and j + 1, one of which is the updated one, are merged; the page of the other is freed. */
    method MergeAt(new_: array<byte>, s: bytes, j: nat, freed: nat, l: BNode, r: BNode,
                   ghost t: Tree, ghost ptrs: seq<nat>, ghost lt: Tree, ghost rt: Tree) returns (ghost bufs: set<array<byte>>)
      requires Stored() && Outside(new_) && new_.Length == PAGE_SIZE && nPages + 1 < TWO_64
      requires t.Inner? && |ptrs| == |t.kids| && j + 2 <= |ptrs| && j <= freed <= j + 1
      requires PageIs(s, NODE, Es(t, ptrs)) && KidsRep(view, ptrs, t.kids)
      requires l.len == PAGE_SIZE <= l.buf.Length && r.len == PAGE_SIZE <= r.buf.Length && SameKind(lt, rt)
      requires NodeRep(view, l.buf[..PAGE_SIZE], lt) && NodeRep(view, r.buf[..PAGE_SIZE], rt)
      requires NodeSize(Merge(lt, rt)) <= PAGE_SIZE && Width(Merge(lt, rt)) > 0
      requires NodeSize(Inner(t.kids[..j] + [Merge(lt, rt)] + t.kids[j + 2..])) <= PAGE_SIZE
      modifies new_, this`pages, this`nPages, this`view
      ensures Stored() && Extends(old(view), view) && nPages == old(nPages) + 1
      ensures fresh(bufs) && new_ !in bufs && Adds(old(pages), pages, bufs)
      ensures NodeRep(view, new_[..], Inner(t.kids[..j] + [Merge(lt, rt)] + t.kids[j + 2..]))
    {
      hide NodeRep, PageBytes, WithPtrs, Adds, Extends, PageIs, KidsRep, KidSlots, Merge;
      PageFacts(s, NODE, Es(t, ptrs));
      var merged := MergeNodes(l, r, view, lt, rt);
      Free(GetPtr(s, freed));
      ReplaceTwo(new_, s, j, merged, t, ptrs, Merge(lt, rt));
      bufs := {merged.buf};
    }

    /** Delete on a tree that has a root: the page of the new root. */
    method DeleteMore(key: bytes, ghost t: Tree) returns (found: bool, ptr: nat)
      requires Stored() && KidRep(view, root, t) && WF(t) && RoomToDelete(t, key)
      requires nPages + Height(t) + 2 < TWO_64
      modifies this`pages, this`nPages, this`view
      ensures Stored() && Extends(old(view), view) && Kept(old(pages), pages)
      ensures found <==> DeleteRoot(t, key).Some?
      ensures nPages < old(nPages) + Height(t) + 2
      ensures KidRep(view, ptr, if found then DeleteRoot(t, key).value else t)
    {
      hide NodeRep, WellFormed, PageBytes, WithPtrs, Adds, Extends, Kept, PageIs, RoomToDelete, ShapeOrEmpty, Height, Dict, Drop, Flat, KidsRep, Del;
      ghost var v0, p0 := view, pages;
      ghost var h := Height(t);
      PageOf(root, t);
      var updated, bufs := TreeDelete(pages[root], key, t, h);
      ghost var v1, p1 := view, pages;
      KeptAll(p0, p1, bufs);
      if updated.None? {
        RepKept(v0, v1, root, t);
        return false, root;
      }
      ghost var n := Del(t, key).value;
      DelKeeps(t, h, key);
      var s := updated.value.buf[..];
      assert updated.value.buf[..PAGE_SIZE] == s;
      Free(root);
      RootKind(v1, s, n);
      SizeRead(v1, s, n);
      found := true;
      if BType(s) == KindCode(NODE) && NKeys(s) == 1 {
        OnlyKid(v1, s, n);
        ptr := GetPtr(s, 0);
      } else {
        ptr := New(updated.value);
        NothingStored(v1);
        StoredRoot(v1, v1, ptr, s, n);
        StoredPage(p0, p1, bufs, ptr, updated.value);
        ExtendsTrans(v0, v1, view);
      }
    }

    /** Delete: whether the key was there. */
    method Delete(key: bytes) returns (found: bool)
      requires Valid() && root != 0 && WF(tree.value) && RoomToDelete(tree.value, key)
      requires nPages + Height(tree.value) + 2 < TWO_64
      modifies this
      ensures nPages < old(nPages + Height(tree.value) + 2)
      ensures Valid() && (found <==> DeleteRoot(old(tree).value, key).Some?)
      ensures tree == if found then DeleteRoot(old(tree).value, key) else old(tree)
      ensures Extends(old(view), view) && Kept(old(pages), pages)
    {
      hide KidRep, WellFormed, RoomToDelete, Extends, Kept, DeleteRoot;
      found, root := DeleteMore(key, tree.value);
      if found { tree := DeleteRoot(tree.value, key); }
      NotZero(view, root, tree.value);
    }
  }

  lemma RepKept(v: View, w: View, p: nat, t: Tree)
    requires KidRep(v, p, t) && Extends(v, w)
    ensures KidRep(w, p, t)
  {
    hide NodeRep;
    RepStays(v, w, v[p], t);
  }

  lemma KeptAll(p: map<nat, BNode>, q: map<nat, BNode>, bufs: set<array<byte>>)
    requires Adds(p, q, bufs)
    ensures Kept(p, q)
  {
  }

  lemma NotZero(v: View, p: nat, t: Tree)
    requires KidRep(v, p, t)
    ensures p != 0
  {
  }

  /** All pages of p are still there, with the buffers they had. */
  ghost predicate Kept(p: map<nat, BNode>, q: map<nat, BNode>) { forall i :: i in p ==> i in q && q[i] == p[i] }

  lemma KeptTrans(p: map<nat, BNode>, q: map<nat, BNode>, r: map<nat, BNode>, bufs: set<array<byte>>)
    requires Adds(p, q, bufs) && Kept(q, r)
    ensures Kept(p, r)
  {
  }

  lemma StoredPages(p: map<nat, BNode>, q: map<nat, BNode>, bufs: set<array<byte>>, i: nat)
    requires Adds(p, q, bufs) && i in p
    ensures i in q && q[i] == p[i]
  {
  }

  lemma StoredPage(p: map<nat, BNode>, q: map<nat, BNode>, bufs: set<array<byte>>, i: nat, b: BNode)
    requires Adds(p, q, bufs) && i !in q
    ensures Kept(p, q[i := b])
  {
  }

  lemma NothingStored(v: View)
    ensures Extends(v, v)
  {
  }

  lemma StoredRoot(v: View, w: View, i: nat, s: bytes, t: Tree)
    requires Extends(v, w) && i !in w && i != 0 && |s| == PAGE_SIZE && NodeRep(w, s, t)
    ensures KidRep(w[i := s], i, t) && Extends(v, w[i := s])
  {
    hide NodeRep;
    RepStays(w, w[i := s], s, t);
  }

  /** The slots of a new root. */
  lemma RootSlots(news: seq<Tree>, h: nat)
    requires Shape(Inner(news), h) && Fits(Inner(news))
    ensures DataStart(|news|) <= PAGE_SIZE && news != [] && forall i :: 0 <= i < |news| ==> Width(news[i]) > 0
    ensures var all := [Leaf([])][..0] + news + [Leaf([])][1..];
      all == news && DataStart(|news|) + DataSize(KidSlots(all)) <= PAGE_SIZE && WithPtrs(KidSlots(all)[..0], []) == []
  {
    hide DataSize;
    assert [Leaf([])][..0] + news + [Leaf([])][1..] == news;
    SlotsFit(KidSlots(news));
  }

  lemma RootPage(s: bytes, head: bytes, news: seq<Tree>, nptrs: seq<nat>)
    requires |head| >= HEADER && |s| >= HEADER && BType(head) == KindCode(NODE) && s[..HEADER] == head[..HEADER]
    requires |nptrs| == |news|
    requires FilledFor(s, |news|, WithPtrs(KidSlots([Leaf([])][..0] + news + [Leaf([])][1..])[..0 + |news|], [] + nptrs))
    ensures PageIs(s, NODE, Es(Inner(news), nptrs))
  {
    hide FilledFor, WithPtrs, KidSlots;
    assert [Leaf([])][..0] + news + [Leaf([])][1..] == news;
    assert KidSlots(news)[..0 + |news|] == KidSlots(news) && [] + nptrs == nptrs;
    PageDone(s, head, NODE, |news|, Es(Inner(news), nptrs));
  }

  lemma FirstPageRep(v: View, s: bytes, k: bytes, val: bytes)
    requires PageIs(s, LEAF, [Entry(0, [], []), Entry(0, k, val)])
    ensures NodeRep(v, s, InsertRoot(None, k, val))
  {
    hide PageIs;
    var kvs := [SENTINEL, Pair(k, val)];
    assert LeafSlots(kvs) == [Entry(0, [], []), Entry(0, k, val)];
    LeafRep(v, s, kvs);
  }

  lemma RootKind(v: View, s: bytes, t: Tree)
    requires NodeRep(v, s, t)
    ensures |s| >= HEADER && (BType(s) == KindCode(LEAF) <==> t.Leaf?) && (BType(s) == KindCode(NODE) <==> t.Inner?)
  {
    hide NodeRep, PageIs, WithPtrs;
    var ptrs := NodeOf(v, s, t);
    PageFacts(s, KindOf(t), Es(t, ptrs));
  }

  /** The new root over the pieces is a node that fits its page. */
  lemma NewRootTree(t: Tree, k: bytes, v: bytes)
    requires WF(t) && SmallPair(Pair(k, v)) && k != [] && |Split(Ins(t, k, v))| > 1
    requires LeafRootSplits(t, k, v) ==> HasSentinel(t)
    ensures var r, ps := InsertRoot(Some(t), k, v), Split(Ins(t, k, v));
      && r.Inner? && |r.kids| == |ps| && Shape(r, Height(t) + 1) && Fits(r)
      && if t.Leaf? then ps[0].Leaf? && ps[0] != Leaf([]) && r.kids == [Leaf(ps[0].kvs[1..])] + ps[1..] else r.kids == ps
  {
    hide PageBytes, Slots, Small, Sorted, KidsFit, SmallSlots, Put;
    InsertedWF(t, k, v);
    InsKeeps(t, Height(t), k, v);
    SplitKeeps(Ins(t, k, v), Height(t));
    HeightOfNewRoot(t, k, v);
  }

  lemma HeightOfNewRoot(t: Tree, k: bytes, v: bytes)
    requires var ps, r := Split(Ins(t, k, v)), InsertRoot(Some(t), k, v);
      |ps| > 1 && AllFit(ps, Height(t)) && WF(r)
    ensures var ps, r := Split(Ins(t, k, v)), InsertRoot(Some(t), k, v);
      && r.Inner? && Height(r) == Height(t) + 1 && Shape(r, Height(r)) && Fits(r)
      && if t.Leaf? then ps[0].Leaf? && ps[0] != Leaf([]) && r.kids == [Leaf(ps[0].kvs[1..])] + ps[1..] else r.kids == ps
  {
    hide Ins, Split, NodeSize, KidsFit, Small, Sorted;
    ShapeHeight(Split(Ins(t, k, v))[0], Height(t));
  }

  lemma SplitRoot(t: Tree, k: bytes, v: bytes)
    requires |Split(Ins(t, k, v))| == 1
    ensures InsertRoot(Some(t), k, v) == Split(Ins(t, k, v))[0]
  {
  }

  lemma AddsOutside(p: map<nat, BNode>, q: map<nat, BNode>, bufs: set<array<byte>>, b: array<byte>)
    requires Adds(p, q, bufs) && b !in bufs && forall i :: i in p ==> p[i].buf != b
    ensures forall i :: i in q ==> q[i].buf != b
  {
  }

  lemma AddsTrans(p: map<nat, BNode>, q: map<nat, BNode>, r: map<nat, BNode>, b: set<array<byte>>, c: set<array<byte>>)
    requires Adds(p, q, b) && Adds(q, r, c)
    ensures Adds(p, r, b + c)
  {
  }

  lemma ExtendsTrans(u: View, v: View, w: View)
    requires Extends(u, v) && Extends(v, w)
    ensures Extends(u, w)
  {
  }

  lemma NothingAdded(p: map<nat, BNode>, v: View, cs: seq<bytes>, bufs: set<array<byte>>)
    ensures Adds(p, p, bufs) && Extends(v, v) && StoredAs(v, [], cs)
  {
  }
}
