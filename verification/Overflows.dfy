/**
 * What a deletion writes (storage/btree.go, treeDelete and nodeDelete), in bytes, told from the tree
 * before it: when the rewritten nodes fit their pages.
 */
module Overflows {
  import opened Bytes
  import opened Pages
  import opened Builders
  import opened Cuts
  import opened SortedRuns
  import opened Trees
  import opened Deletes

  /**
   * By how much the separator of child i grows when k is deleted below it: only if k is the child's
   * first key, and then it gives way to the key behind it.
   */
  function Growth(kids: seq<Tree>, i: nat, k: bytes): int
    requires i < |kids|
  {
    var s := FlatAll(kids[i..]);
    if FirstKey(kids[i]) == k && |s| > 1 then |s[1].key| - |k| else 0
  }

  /** A slot of a node above the leaves: no value. */
  function SeparatorSize(kid: Tree): nat { 14 + |FirstKey(kid)| }

  /**
   * The bytes of the node that takes t's place when k, which it holds, is deleted: a leaf loses the
   * pair's slot; with a merge to the left a node loses the child's separator, with one to the right
   * its neighbour's; and its own separator may grow, unless it was merged to the left.
   */
  function SizeAfter(t: Tree, k: bytes): int
    decreases t
  {
    match t
    case Leaf(kvs) =>
      if kvs == [] then NodeSize(t) else NodeSize(t) - SlotSize(LeafSlots(kvs)[Lookup(LeafSlots(kvs), k)])
    case Inner(kids) =>
      if kids == [] then NodeSize(t) else
      var i := Lookup(KidSlots(kids), k);
      match DirectionFor(kids, i, SizeAfter(kids[i], k))
      case ToLeft => NodeSize(t) - SeparatorSize(kids[i])
      case ToRight => NodeSize(t) - SeparatorSize(kids[i + 1]) + Growth(kids, i, k)
      case Stay => if |Flat(kids[i])| == 1 then HEADER else NodeSize(t) + Growth(kids, i, k)
  }

  /** On the way to k, every node that is written fits a page. */
  predicate PathFits(t: Tree, k: bytes)
    decreases t
  {
    SizeAfter(t, k) <= PAGE_SIZE && (t.Inner? && t.kids != [] ==> PathFits(t.kids[Lookup(KidSlots(t.kids), k)], k))
  }

  /** Room for the deletion of k, if k is there. */
  predicate RoomToDelete(t: Tree, k: bytes) { k in Dict(Flat(t)) ==> PathFits(t, k) }

  // ------------------------------------------------------------ sizes of slot sequences

  lemma OneSlotLess(a: seq<Entry>, i: nat)
    requires i < |a|
    ensures PageBytes(a[..i] + a[i + 1..]) == PageBytes(a) - SlotSize(a[i])
  {
    hide DataSize, EntrySize;
    AroundAt(a, i);
    DataConcat(a[..i] + [a[i]], a[i + 1..]);
    DataConcat(a[..i], [a[i]]);
    DataConcat(a[..i], a[i + 1..]);
    SingleData(a[i]);
  }

  lemma OneSlotOther(a: seq<Entry>, i: nat, e: Entry)
    requires i < |a|
    ensures PageBytes(a[i := e]) == PageBytes(a) - SlotSize(a[i]) + SlotSize(e)
  {
    hide DataSize, EntrySize;
    var b := a[i := e];
    OneSlotLess(a, i);
    OneSlotLess(b, i);
    assert b[..i] + b[i + 1..] == a[..i] + a[i + 1..];
  }

  // ------------------------------------------------------------ the separator of the changed child

  /** The first key below and behind child i, once k is gone. */
  lemma NewSeparator(kids: seq<Tree>, i: nat, k: bytes, h: nat)
    requires i < |kids| && Shape(kids[i], h)
    ensures var d := Drop(Flat(kids[i]), k) + FlatAll(kids[i + 1..]);
      d != [] ==> |d[0].key| == |FirstKey(kids[i])| + Growth(kids, i, k)
  {
    FirstIsFirst(kids[i], h);
    assert kids[i..] == [kids[i]] + kids[i + 1..];
    FlatConcat([kids[i]], kids[i + 1..]);
    FlatOne(kids[i]);
    var s, r := Flat(kids[i]), FlatAll(kids[i + 1..]);
    assert FlatAll(kids[i..]) == s + r;
    if s[0].key == k {
      assert s[1..] + r == (s + r)[1..];
    }
  }

  /** Where there is something left of child i, it begins with that key. */
  lemma KeptSeparator(kids: seq<Tree>, i: nat, u: Tree, k: bytes, h: nat)
    requires i < |kids| && Shape(kids[i], h) && Shape(u, h) && Flat(u) == Drop(Flat(kids[i]), k)
    ensures |FirstKey(u)| == |FirstKey(kids[i])| + Growth(kids, i, k)
  {
    hide Drop, Flat, FlatAll, Growth;
    NewSeparator(kids, i, k, h);
    FirstIsFirst(u, h);
  }

  /** So it does where child i and its right neighbour have become one. */
  lemma MergedSeparator(kids: seq<Tree>, i: nat, u: Tree, m: Tree, k: bytes, h: nat)
    requires i + 1 < |kids| && Shape(kids[i], h) && Shape(m, h)
    requires Flat(u) == Drop(Flat(kids[i]), k) && Flat(m) == Flat(u) + Flat(kids[i + 1])
    ensures |FirstKey(m)| == |FirstKey(kids[i])| + Growth(kids, i, k)
  {
    hide Drop, Flat, Growth;
    NewSeparator(kids, i, k, h);
    FirstIsFirst(m, h);
    assert FlatAll(kids[i + 1..]) == Flat(kids[i + 1]) + FlatAll(kids[i + 1..][1..]);
  }

  // ------------------------------------------------------------ one level

  lemma FitAll(n: Tree, h: nat)
    requires n.Inner? && AllFit(n.kids, h)
    ensures Fits(n) <==> NodeSize(n) <= PAGE_SIZE
  {
  }

  /** Nodes around a changed one. */
  lemma FitAround(a: seq<Tree>, m: Tree, b: seq<Tree>, h: nat)
    requires AllFit(a, h) && AllFit(b, h) && Shape(m, h) && Fits(m)
    ensures Fits(Inner(a + [m] + b)) <==> NodeSize(Inner(a + [m] + b)) <= PAGE_SIZE
  {
    hide Fits, NodeSize, Shape;
    FitAll(Inner(a + [m] + b), h);
  }

  lemma Merged(l: Tree, r: Tree, h: nat)
    requires ShapeOrEmpty(l, h) && ShapeOrEmpty(r, h) && (Shape(l, h) || Shape(r, h))
    requires NodeSize(l) + NodeSize(r) - HEADER <= PAGE_SIZE
    ensures SameKind(l, r) && Shape(Merge(l, r), h) && (Fits(l) && Fits(r) ==> Fits(Merge(l, r)))
    ensures Flat(Merge(l, r)) == Flat(l) + Flat(r)
    ensures Width(l) > 0 ==> FirstKey(Merge(l, r)) == FirstKey(l)
  {
    hide PageBytes, Slots, Flat;
    ShapeMerge(l, r, h);
    FlatMerge(l, r);
  }

  lemma FitsAt(kids: seq<Tree>, h: nat, i: nat)
    requires AllFit(kids, h) && i < |kids|
    ensures Shape(kids[i], h) && Fits(kids[i]) && Width(kids[i]) > 0
  {
  }

  lemma StaySize(kids: seq<Tree>, i: nat, u: Tree, g: int)
    requires i < |kids| && |FirstKey(u)| == |FirstKey(kids[i])| + g
    ensures NodeSize(Inner(kids[..i] + [u] + kids[i + 1..])) == NodeSize(Inner(kids)) + g
  {
    hide PageBytes, KidSlots, FirstKey;
    OneSlotOther(KidSlots(kids), i, Entry(0, FirstKey(u), []));
    SlotReplaced(kids, i, u);
    KidSlot(kids, i);
  }

  lemma SlotReplaced(kids: seq<Tree>, i: nat, u: Tree)
    requires i < |kids|
    ensures KidSlots(kids[..i] + [u] + kids[i + 1..]) == KidSlots(kids)[i := Entry(0, FirstKey(u), [])]
  {
    hide FirstKey;
  }

  lemma SlotGone(kids: seq<Tree>, i: nat)
    requires i < |kids|
    ensures KidSlots(kids[..i] + kids[i + 1..]) == KidSlots(kids)[..i] + KidSlots(kids)[i + 1..]
  {
    hide FirstKey;
  }

  lemma KidSlot(kids: seq<Tree>, i: nat)
    requires i < |kids|
    ensures KidSlots(kids)[i] == Entry(0, FirstKey(kids[i]), [])
  {
    hide FirstKey;
  }

  /** Merged to the left: the child's separator goes, and no other changes. */
  lemma LeftSize(kids: seq<Tree>, i: nat, m: Tree)
    requires 0 < i < |kids| && FirstKey(m) == FirstKey(kids[i - 1])
    ensures NodeSize(Inner(kids[..i - 1] + [m] + kids[i + 1..])) == NodeSize(Inner(kids)) - SeparatorSize(kids[i])
  {
    hide PageBytes, KidSlots, FirstKey;
    var r := kids[..i] + kids[i + 1..];
    OneSlotLess(KidSlots(kids), i);
    SlotGone(kids, i);
    KidSlot(kids, i);
    StaySize(r, i - 1, m, 0);
    assert r[..i - 1] + [m] + r[i..] == kids[..i - 1] + [m] + kids[i + 1..];
  }

  /** Merged to the right: the neighbour's separator goes, and the child's may grow. */
  lemma RightSize(kids: seq<Tree>, i: nat, m: Tree, g: int)
    requires i + 1 < |kids| && |FirstKey(m)| == |FirstKey(kids[i])| + g
    ensures NodeSize(Inner(kids[..i] + [m] + kids[i + 2..])) == NodeSize(Inner(kids)) - SeparatorSize(kids[i + 1]) + g
  {
    hide PageBytes, KidSlots, FirstKey;
    var r := kids[..i + 1] + kids[i + 2..];
    OneSlotLess(KidSlots(kids), i + 1);
    SlotGone(kids, i + 1);
    KidSlot(kids, i + 1);
    StaySize(r, i, m, g);
    assert r[..i] + [m] + r[i + 1..] == kids[..i] + [m] + kids[i + 2..];
  }

  lemma EmptySize()
    ensures NodeSize(Inner([])) == HEADER && Fits(Inner([]))
  {
    assert Slots(Inner([])) == [];
  }

  /** What nodeDelete's node takes once the child has become u, and when it fits. */
  lemma JoinSize(kids: seq<Tree>, i: nat, u: Tree, k: bytes, h: nat)
    requires i < |kids| && AllFit(kids, h) && ShapeOrEmpty(u, h) && Flat(u) == Drop(Flat(kids[i]), k)
    ensures forall j :: 0 <= j < |kids| ==> SameKind(kids[j], u)
    ensures NodeSize(Join(kids, i, u)) == match ShouldMerge(kids, i, u)
      case ToLeft => NodeSize(Inner(kids)) - SeparatorSize(kids[i])
      case ToRight => NodeSize(Inner(kids)) - SeparatorSize(kids[i + 1]) + Growth(kids, i, k)
      case Stay => if Width(u) == 0 then HEADER else NodeSize(Inner(kids)) + Growth(kids, i, k)
    ensures Fits(u) ==> (Fits(Join(kids, i, u)) <==> NodeSize(Join(kids, i, u)) <= PAGE_SIZE)
  {
    hide PageBytes, KidsFit, FirstKey, NodeSize, Slots, Fits, Merge, Flat, Growth, Drop, SeparatorSize;
    SameKinds(kids, u, h);
    FitsAt(kids, h, i);
    match ShouldMerge(kids, i, u)
    case ToLeft => {
      FitsAt(kids, h, i - 1);
      Merged(kids[i - 1], u, h);
      var m := Merge(kids[i - 1], u);
      LeftSize(kids, i, m);
      if Fits(u) { FitAround(kids[..i - 1], m, kids[i + 1..], h); }
    }
    case ToRight => {
      FitsAt(kids, h, i + 1);
      Merged(u, kids[i + 1], h);
      var m := Merge(u, kids[i + 1]);
      MergedSeparator(kids, i, u, m, k, h);
      RightSize(kids, i, m, Growth(kids, i, k));
      if Fits(u) { FitAround(kids[..i], m, kids[i + 2..], h); }
    }
    case Stay => {
      if Width(u) > 0 {
        KeptSeparator(kids, i, u, k, h);
        StaySize(kids, i, u, Growth(kids, i, k));
        if Fits(u) { FitAround(kids[..i], u, kids[i + 1..], h); }
      } else {
        EmptySize();
      }
    }
  }

  /** Nothing is left of a child that held k alone. */
  lemma EmptiedIsOne(t: Tree, u: Tree, k: bytes, h: nat)
    requires Shape(t, h) && Sorted(Flat(t)) && k in Dict(Flat(t)) && ShapeOrEmpty(u, h) && Flat(u) == Drop(Flat(t), k)
    ensures Width(u) == 0 <==> |Flat(t)| == 1
  {
    hide Dict, Drop, Sorted;
    DropIsRemoval(Flat(t), k);
    if Shape(u, h) { FirstIsFirst(u, h); }
  }

  // ------------------------------------------------------------ all levels

  /**
   * The sizes told from the tree before are those of the nodes written, and the deletion overflows no
   * page if and only if none of them is larger than a page.
   */
  lemma {:induction false} DelSizes(t: Tree, h: nat, k: bytes)
    requires WellFormed(t, h) && k in Dict(Flat(t))
    ensures Del(t, k).Some? && NodeSize(Del(t, k).value) == SizeAfter(t, k)
    ensures Fits(Del(t, k).value) <==> PathFits(t, k)
    decreases t
  {
    hide Drop, Lookup, Dict, Sorted, FlatAll, PageBytes, Small, AllLess, AllAbove, Join, KidSlots, LeafSlots, Growth, SeparatorSize;
    DelKeeps(t, h, k);
    if t.Leaf? {
      LeafSize(t.kvs, k);
    } else {
      ChildWellFormed(t, h, k);
      var i := Lookup(KidSlots(t.kids), k);
      var kid := t.kids[i];
      FlatSplit(t.kids, i);
      FoundInside(FlatAll(t.kids[..i]), Flat(kid), FlatAll(t.kids[i + 1..]), k);
      DelSizes(kid, h - 1, k);
      DelKeeps(kid, h - 1, k);
      FittingKids(t, h);
      var u := Del(kid, k).value;
      EmptiedIsOne(kid, u, k, h - 1);
      JoinFlat(t.kids, i, u, h - 1);
      JoinSize(t.kids, i, u, k, h - 1);
    }
  }

  lemma LeafSize(kvs: seq<Pair>, k: bytes)
    requires kvs != [] && Del(Leaf(kvs), k).Some? && NodeSize(Leaf(kvs)) <= PAGE_SIZE
    ensures NodeSize(Del(Leaf(kvs), k).value) == SizeAfter(Leaf(kvs), k)
    ensures Fits(Del(Leaf(kvs), k).value)
  {
    hide PageBytes, Lookup, SlotSize;
    var i := Lookup(LeafSlots(kvs), k);
    OneSlotLess(LeafSlots(kvs), i);
    assert LeafSlots(kvs[..i] + kvs[i + 1..]) == LeafSlots(kvs)[..i] + LeafSlots(kvs)[i + 1..];
  }
}
