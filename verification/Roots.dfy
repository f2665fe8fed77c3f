/**
 * BTree.Insert, BTree.Delete and BTree.GetVal (storage/btree.go) on logical trees, and whole runs of
 * them against a plain map.
 */
module Roots {
  import opened Bytes
  import opened Pages
  import opened Cuts
  import opened SortedRuns
  import opened Trees
  import opened Deletes
  import opened Overflows

  function Height(t: Tree): nat {
    match t case Leaf(_) => 0 case Inner(kids) => if kids == [] then 1 else 1 + Height(kids[0])
  }

  lemma {:induction false} ShapeHeight(t: Tree, h: nat)
    requires Shape(t, h)
    ensures h == Height(t)
    decreases t
  {
    if t.Inner? { ShapeHeight(t.kids[0], h - 1); }
  }

  predicate WF(t: Tree) { WellFormed(t, Height(t)) }

  // ------------------------------------------------------------ GetVal

  function Get(t: Tree, k: bytes): Option<bytes>
    decreases t
  {
    match t
    case Leaf(kvs) =>
      if kvs == [] then None else
      var i := Lookup(LeafSlots(kvs), k);
      if kvs[i].key == k then Some(kvs[i].val) else None
    case Inner(kids) =>
      if kids == [] then None else Get(kids[Lookup(KidSlots(kids), k)], k)
  }

  function Find(m: map<bytes, bytes>, k: bytes): Option<bytes> { if k in m then Some(m[k]) else None }

  /** Descending by separators finds what the dictionary holds. */
  lemma {:induction false} GetIsFind(t: Tree, h: nat, k: bytes)
    requires WellFormed(t, h)
    ensures Get(t, k) == Find(Dict(Flat(t)), k)
    decreases t
  {
    hide Lookup, Dict, Sorted, FlatAll, PageBytes, Small, AllLess, AllAbove, KidSlots, Drop;
    if t.Leaf? {
      LeafDelIsDrop(t.kvs, k);
      DictAt(t.kvs, Lookup(LeafSlots(t.kvs), k));
    } else {
      ChildWellFormed(t, h, k);
      var i := Lookup(KidSlots(t.kids), k);
      GetIsFind(t.kids[i], h - 1, k);
      FlatSplit(t.kids, i);
      var a, c, b := FlatAll(t.kids[..i]), Flat(t.kids[i]), FlatAll(t.kids[i + 1..]);
      FoundInside(a, c, b, k);
      if k in Dict(c) { SameValue(a, c, b, k); }
    }
  }

  lemma SameValue(a: seq<Pair>, c: seq<Pair>, b: seq<Pair>, k: bytes)
    requires Sorted(a + c + b) && k in Dict(c) && k in Dict(a + c + b)
    ensures Dict(a + c + b)[k] == Dict(c)[k]
  {
    hide Dict;
    SortedParts(a, c, b);
    DictKeys(c);
    var i :| 0 <= i < |c| && c[i].key == k;
    DictAt(c, i);
    assert (a + c + b)[|a| + i] == c[i];
    DictAt(a + c + b, |a| + i);
  }

  // ------------------------------------------------------------ Insert

  const SENTINEL := Pair([], [])

  predicate HasSentinel(t: Tree) { t.Leaf? && t.kvs != [] && t.kvs[0] == SENTINEL }

  /** The new root. When a leaf root is split, the first slot of the first piece is dropped. */
  function InsertRoot(o: Option<Tree>, k: bytes, v: bytes): Tree {
    match o
    case None => Leaf([SENTINEL, Pair(k, v)])
    case Some(t) =>
      var ps := Split(Ins(t, k, v));
      if |ps| == 1 then ps[0]
      else if t.Leaf? && ps[0].Leaf? && ps[0].kvs != [] then Inner([Leaf(ps[0].kvs[1..])] + ps[1..])
      else Inner(ps)
  }

  /** A leaf root is about to be split. */
  predicate LeafRootSplits(t: Tree, k: bytes, v: bytes) { t.Leaf? && NodeSize(Ins(t, k, v)) > PAGE_SIZE }

  /** The pairs after Insert, in every case. */
  lemma InsertedFlat(t: Tree, k: bytes, v: bytes)
    requires WF(t) && SmallPair(Pair(k, v))
    ensures Flat(InsertRoot(Some(t), k, v)) ==
            if LeafRootSplits(t, k, v) then Put(Flat(t), k, v)[1..] else Put(Flat(t), k, v)
  {
    hide Put, PageBytes, FlatAll, Sorted, Small, SmallSlots, Slots, Fits, KidsFit;
    var h, n := Height(t), Ins(t, k, v);
    InsKeeps(t, h, k, v);
    SplitKeeps(n, h);
    var ps := Split(n);
    FlatOne(ps[0]);
    if LeafRootSplits(t, k, v) {
      assert Shape(ps[0], h);
      var x := Leaf(ps[0].kvs[1..]);
      assert ps == [ps[0]] + ps[1..];
      FlatConcat([ps[0]], ps[1..]);
      FlatConcat([x], ps[1..]);
      FlatOne(x);
      assert Flat(ps[0])[1..] + FlatAll(ps[1..]) == (Flat(ps[0]) + FlatAll(ps[1..]))[1..];
    }
  }

  /** A node over one to three well-formed nodes. */
  lemma NewRootFits(ps: seq<Tree>, h: nat)
    requires 1 <= |ps| <= 3 && AllFit(ps, h) && Small(FlatAll(ps))
    ensures Shape(Inner(ps), h + 1) && Fits(Inner(ps))
  {
    var t := Inner(ps);
    FittingNode(t, h + 1);
    SlotsSmall(t, h + 1);
    UpToThree(Slots(t));
  }

  lemma WithoutFirst(s: seq<Pair>)
    requires s != [] && Sorted(s) && Small(s)
    ensures Sorted(s[1..]) && Small(s[1..])
    ensures Dict(s[1..]) == Dict(s) - {s[0].key}
  {
    FirstAbove(s);
    AboveNotIn(s[0].key, s[1..]);
  }

  /** The first piece of a split leaf root that starts with the sentinel still has a slot without it. */
  lemma DroppedPiece(t: Tree)
    requires t.Leaf? && t.kvs != [] && t.kvs[0] == SENTINEL && Small(t.kvs)
    requires PAGE_SIZE < NodeSize(t) <= PAGE_SIZE + PAGE_SIZE - 8
    ensures var ps := Split(t); AllFit(ps, 0) && ps[0].kvs != [] && AllFit([Leaf(ps[0].kvs[1..])] + ps[1..], 0)
  {
    hide PageBytes;
    assert Shape(t, 0) && KidsFit(t);
    SlotsSmall(t, 0);
    SplitKeeps(t, 0);
    SplitSlots(t);
    PiecesFit(Slots(t));
    assert SlotSize(Slots(t)[0]) == 14;
    var ps := Split(t);
    assert Width(ps[0]) == |Slots(ps[0])| == |Pieces(Slots(t))[0]| > 1;
    var x := Leaf(ps[0].kvs[1..]);
    assert Slots(x) == Slots(ps[0])[1..];
    TwoParts(Slots(ps[0]), 1);
    AtLeastHeader(Slots(ps[0])[..1]);
    assert Fits(ps[0]) && Shape(ps[0], 0);
    assert Shape(x, 0) && Fits(x);
  }

  lemma AtLeastHeader(es: seq<Entry>)
    ensures PageBytes(es) >= HEADER
  {
  }

  /** Insert keeps the tree well-formed; a leaf root keeps its sentinel until it is split. */
  lemma InsertedWF(t: Tree, k: bytes, v: bytes)
    requires WF(t) && SmallPair(Pair(k, v)) && k != []
    requires LeafRootSplits(t, k, v) ==> HasSentinel(t)
    ensures WF(InsertRoot(Some(t), k, v))
    ensures HasSentinel(t) && InsertRoot(Some(t), k, v).Leaf? ==> HasSentinel(InsertRoot(Some(t), k, v))
  {
    hide Put, PageBytes, FlatAll, Sorted, Small, SmallSlots, Slots, Fits, KidsFit;
    var h, n := Height(t), Ins(t, k, v);
    InsKeeps(t, h, k, v);
    SplitKeeps(n, h);
    var ps := Split(n);
    FlatOne(ps[0]);
    PutSmall(Flat(t), k, v);
    PutIsUpdate(Flat(t), k, v);
    WithoutFirst(Put(Flat(t), k, v));
    InsertedFlat(t, k, v);
    var r := InsertRoot(Some(t), k, v);
    if HasSentinel(t) { SentinelStays(t.kvs, k, v); }
    if |ps| == 1 {
      ShapeHeight(r, h);
    } else {
      if LeafRootSplits(t, k, v) { DroppedPiece(n); }
      assert Small(FlatAll(r.kids)) by { hide Put, PageBytes; assert Flat(r) == FlatAll(r.kids); }
      NewRootFits(r.kids, h);
      ShapeHeight(r, h + 1);
    }
  }

  lemma SentinelStays(kvs: seq<Pair>, k: bytes, v: bytes)
    requires kvs != [] && kvs[0] == SENTINEL && k != []
    ensures Put(kvs, k, v) != [] && Put(kvs, k, v)[0] == SENTINEL
  {
    EmptyIsLeast(k);
    LessTotal([], k);
  }

  // ------------------------------------------------------------ Delete

  /** The new root: an inner root with one child left gives way to that child. */
  function Collapse(n: Tree): Tree { if n.Inner? && |n.kids| == 1 then n.kids[0] else n }

  function DeleteRoot(t: Tree, k: bytes): Option<Tree> {
    match Del(t, k) case None => None case Some(n) => Some(Collapse(n))
  }

  /**
   * Delete answers whether the key was there, and removes only it; unless that was the last pair,
   * the tree stays well-formed exactly when there is room for the rewritten nodes.
   */
  lemma DeletedWF(t: Tree, k: bytes)
    requires WF(t)
    ensures DeleteRoot(t, k).Some? <==> k in Dict(Flat(t))
    ensures DeleteRoot(t, k).Some? ==> Flat(DeleteRoot(t, k).value) == Drop(Flat(t), k)
    ensures DeleteRoot(t, k).Some? && Drop(Flat(t), k) != [] ==> (WF(DeleteRoot(t, k).value) <==> RoomToDelete(t, k))
  {
    hide Drop, Dict, PageBytes, Sorted, Small, Slots, PathFits, Fits;
    DelKeeps(t, Height(t), k);
    if Del(t, k).Some? {
      var n, h := Del(t, k).value, Height(t);
      DelSizes(t, h, k);
      DropIsRemoval(Flat(t), k);
      DropSmall(Flat(t), k);
      CollapsedWF(n, h);
    }
  }

  /** A root that gives way to its only child is well-formed when the child is. */
  lemma CollapsedWF(n: Tree, h: nat)
    requires ShapeOrEmpty(n, h) && Sorted(Flat(n)) && Small(Flat(n))
    ensures Flat(Collapse(n)) == Flat(n)
    ensures Flat(n) != [] ==> (WF(Collapse(n)) <==> Fits(n))
  {
    hide PageBytes, Sorted, Small, Slots;
    if n.Inner? && |n.kids| == 1 {
      assert n.kids == [n.kids[0]];
      FlatOne(n.kids[0]);
      if Fits(n) { assert KidsFit(n) && Fits(n.kids[0]); }
      ShapeHeight(n.kids[0], h - 1);
      if Fits(n.kids[0]) { NewRootFits(n.kids, h - 1); }
    } else if Shape(n, h) {
      ShapeHeight(n, h);
    }
  }

  lemma {:induction false} DropSmall(s: seq<Pair>, k: bytes)
    requires Small(s)
    ensures Small(Drop(s, k))
  {
    if s != [] { DropSmall(s[1..], k); }
  }
}
