/** treeDelete, nodeDelete and shouldMerge (storage/btree.go) on logical nodes. */
module Deletes {
  import opened Bytes
  import opened Pages
  import opened SortedRuns
  import opened Trees

  const QUARTER_PAGE := 1024

  datatype Direction = ToLeft | ToRight | Stay

  /** shouldMerge, for a node of the given size in child i's place: at most a quarter page, it joins a sibling if the two fit one page. */
  function DirectionFor(kids: seq<Tree>, i: nat, size: int): (d: Direction)
    requires i < |kids|
    ensures d.ToLeft? ==> i > 0
    ensures d.ToRight? ==> i + 1 < |kids|
  {
    if size > QUARTER_PAGE then Stay
    else if i > 0 && NodeSize(kids[i - 1]) + size - HEADER <= PAGE_SIZE then ToLeft
    else if i + 1 < |kids| && NodeSize(kids[i + 1]) + size - HEADER <= PAGE_SIZE then ToRight
    else Stay
  }

  /** shouldMerge */
  function ShouldMerge(kids: seq<Tree>, i: nat, u: Tree): (d: Direction)
    requires i < |kids|
    ensures d.ToLeft? ==> i > 0
    ensures d.ToRight? ==> i + 1 < |kids|
  {
    DirectionFor(kids, i, NodeSize(u))
  }

  predicate SameKind(l: Tree, r: Tree) { l.Leaf? <==> r.Leaf? }

  /** nodeMerge */
  function Merge(l: Tree, r: Tree): Tree
    requires SameKind(l, r)
  {
    match l case Leaf(kvs) => Leaf(kvs + r.kvs) case Inner(kids) => Inner(kids + r.kids)
  }

  /** nodeDelete: the node after its child i has become u. */
  function Join(kids: seq<Tree>, i: nat, u: Tree): Tree
    requires i < |kids| && forall j :: 0 <= j < |kids| ==> SameKind(kids[j], u)
  {
    match ShouldMerge(kids, i, u)
    case ToLeft => Inner(kids[..i - 1] + [Merge(kids[i - 1], u)] + kids[i + 1..])
    case ToRight =>
      assert SameKind(kids[i + 1], u);
      Inner(kids[..i] + [Merge(u, kids[i + 1])] + kids[i + 2..])
    case Stay => if Width(u) == 0 then Inner([]) else Inner(kids[..i] + [u] + kids[i + 1..])
  }

  /** What treeDelete returns; None is the empty slice, for a key that is not there. */
  function Del(t: Tree, k: bytes): (r: Option<Tree>)
    ensures r.Some? ==> SameKind(t, r.value)
    decreases t
  {
    match t
    case Leaf(kvs) =>
      if kvs == [] then None else
      var i := Lookup(LeafSlots(kvs), k);
      if k != kvs[i].key then None else Some(Leaf(kvs[..i] + kvs[i + 1..]))
    case Inner(kids) =>
      if kids == [] then None else
      var i := Lookup(KidSlots(kids), k);
      match Del(kids[i], k)
      case None => None
      case Some(u) =>
        if forall j :: 0 <= j < |kids| ==> SameKind(kids[j], u) then Some(Join(kids, i, u)) else None
  }

  /** Same height, or nothing left. */
  predicate ShapeOrEmpty(t: Tree, h: nat) { Shape(t, h) || (Width(t) == 0 && (t.Leaf? <==> h == 0)) }

  lemma LeafDelIsDrop(kvs: seq<Pair>, k: bytes)
    requires kvs != [] && Sorted(kvs)
    ensures Del(Leaf(kvs), k).Some? <==> k in Dict(kvs)
    ensures Del(Leaf(kvs), k).Some? ==> Del(Leaf(kvs), k).value == Leaf(Drop(kvs, k))
  {
    hide Lookup, Drop, LeafSlots, Dict;
    var i := Lookup(LeafSlots(kvs), k);
    LeafFound(kvs, k, i);
    DictAt(kvs, i);
    LessTotal(k, kvs[i].key);
    LessTotal(kvs[i].key, k);
    var a, c, b := kvs[..i], [kvs[i]], kvs[i + 1..];
    assert kvs == a + c + b;
    if k == kvs[i].key {
      DropInside(a, c, b, k);
      DropOne(kvs[i], k);
    } else if Less(kvs[i].key, k) {
      assert kvs == kvs[..i + 1] + b;
      NotBetween(kvs, i + 1, k);
    } else {
      assert i == 0;
      NotBetween(kvs, 0, k);
    }
  }

  lemma NotBetween(kvs: seq<Pair>, i: nat, k: bytes)
    requires i <= |kvs| && Sorted(kvs) && AllLess(kvs[..i], k)
    requires AllAbove(k, kvs[i..]) || (i == 0 && kvs != [] && Less(k, kvs[0].key))
    ensures k !in Dict(kvs)
  {
    DictKeys(kvs);
    LessTotal(k, k);
    forall j | 0 <= j < |kvs| ensures kvs[j].key != k {
      if j < i { assert Less(kvs[..i][j].key, k); }
      else if AllAbove(k, kvs[i..]) { assert Less(k, kvs[i..][j - i].key); }
      else if j > 0 { LessTotal(k, kvs[0].key); }
    }
  }

  lemma DropOne(x: Pair, k: bytes)
    requires x.key == k
    ensures Drop([x], k) == []
  {
  }

  lemma FlatMerge(l: Tree, r: Tree)
    requires SameKind(l, r)
    ensures Flat(Merge(l, r)) == Flat(l) + Flat(r)
    ensures NodeSize(Merge(l, r)) == NodeSize(l) + NodeSize(r) - HEADER
  {
    if l.Inner? { FlatConcat(l.kids, r.kids); }
    assert Slots(Merge(l, r)) == Slots(l) + Slots(r);
    SizeConcat(Slots(l), Slots(r));
  }

  lemma SizeConcat(a: seq<Entry>, b: seq<Entry>)
    ensures PageBytes(a + b) == PageBytes(a) + PageBytes(b) - HEADER
  {
    hide DataSize;
    DataConcat(a, b);
  }

  lemma ShapeMerge(l: Tree, r: Tree, h: nat)
    requires ShapeOrEmpty(l, h) && ShapeOrEmpty(r, h) && (Shape(l, h) || Shape(r, h))
    ensures SameKind(l, r) && Shape(Merge(l, r), h)
    ensures KidsFit(Merge(l, r)) <==> KidsFit(l) && KidsFit(r)
  {
    var m := Merge(l, r);
    if l.Inner? {
      assert forall j :: 0 <= j < |l.kids| ==> m.kids[j] == l.kids[j];
      assert forall j :: 0 <= j < |r.kids| ==> m.kids[|l.kids| + j] == r.kids[j];
    }
  }

  // ------------------------------------------------------------ what a deletion keeps

  /** Putting u in child i's place, merged or not, holds what the node held around u. */
  lemma JoinFlat(kids: seq<Tree>, i: nat, u: Tree, h: nat)
    requires i < |kids| && AllFit(kids, h) && ShapeOrEmpty(u, h)
    ensures forall j :: 0 <= j < |kids| ==> SameKind(kids[j], u)
    ensures Flat(Join(kids, i, u)) == FlatAll(kids[..i]) + Flat(u) + FlatAll(kids[i + 1..])
    ensures ShapeOrEmpty(Join(kids, i, u), h + 1)
    ensures Fits(Join(kids, i, u)) ==> Fits(u)
  {
    hide NodeSize, FlatAll, KidsFit, Slots, Merge, Fits, Shape;
    SameKinds(kids, u, h);
    match ShouldMerge(kids, i, u)
    case ToLeft => JoinLeft(kids, i, u, h);
    case ToRight => JoinRight(kids, i, u, h);
    case Stay => {
      if Width(u) == 0 {
        EmptyMerges(kids, i, u, h);
      } else {
        Joined(kids[..i], u, kids[i + 1..], h);
        FitsInner(Inner(kids[..i] + [u] + kids[i + 1..]));
      }
    }
  }

  lemma FitsInner(t: Tree)
    ensures Fits(t) ==> KidsFit(t)
  {
  }

  lemma JoinLeft(kids: seq<Tree>, i: nat, u: Tree, h: nat)
    requires 0 < i < |kids| && AllFit(kids, h) && ShapeOrEmpty(u, h) && SameKind(kids[i - 1], u) && NodeSize(u) <= QUARTER_PAGE
    ensures var n := Inner(kids[..i - 1] + [Merge(kids[i - 1], u)] + kids[i + 1..]);
      && Flat(n) == FlatAll(kids[..i]) + Flat(u) + FlatAll(kids[i + 1..])
      && Shape(n, h + 1) && (Fits(n) ==> Fits(u))
  {
    hide NodeSize, FlatAll, KidsFit, Slots, Merge, Fits;
    var l := kids[i - 1];
    var m := Merge(l, u);
    FlatMerge(l, u);
    ShapeMerge(l, u, h);
    assert kids[..i] == kids[..i - 1] + [l];
    FlatConcat(kids[..i - 1], [l]);
    Joined(kids[..i - 1], m, kids[i + 1..], h);
    FlatOne(l);
    FitsInner(Inner(kids[..i - 1] + [m] + kids[i + 1..]));
    QuarterFits(u, m);
  }

  lemma JoinRight(kids: seq<Tree>, i: nat, u: Tree, h: nat)
    requires i + 1 < |kids| && AllFit(kids, h) && ShapeOrEmpty(u, h) && SameKind(u, kids[i + 1]) && NodeSize(u) <= QUARTER_PAGE
    ensures var n := Inner(kids[..i] + [Merge(u, kids[i + 1])] + kids[i + 2..]);
      && Flat(n) == FlatAll(kids[..i]) + Flat(u) + FlatAll(kids[i + 1..])
      && Shape(n, h + 1) && (Fits(n) ==> Fits(u))
  {
    hide NodeSize, FlatAll, KidsFit, Slots, Merge, Fits;
    var r := kids[i + 1];
    var m := Merge(u, r);
    FlatMerge(u, r);
    ShapeMerge(u, r, h);
    assert kids[i + 1..] == [r] + kids[i + 2..];
    FlatConcat([r], kids[i + 2..]);
    Joined(kids[..i], m, kids[i + 2..], h);
    FlatOne(r);
    FitsInner(Inner(kids[..i] + [m] + kids[i + 2..]));
    QuarterFits(u, m);
  }

  lemma SameKinds(kids: seq<Tree>, u: Tree, h: nat)
    requires AllFit(kids, h) && ShapeOrEmpty(u, h)
    ensures forall j :: 0 <= j < |kids| ==> SameKind(kids[j], u)
  {
  }

  lemma Joined(a: seq<Tree>, m: Tree, b: seq<Tree>, h: nat)
    requires AllFit(a, h) && AllFit(b, h) && Shape(m, h)
    ensures FlatAll(a + [m] + b) == FlatAll(a) + Flat(m) + FlatAll(b)
    ensures Shape(Inner(a + [m] + b), h + 1)
    ensures KidsFit(Inner(a + [m] + b)) ==> Fits(m)
  {
    hide Flat, FlatAll;
    FlatConcat(a + [m], b);
    FlatConcat(a, [m]);
    FlatOne(m);
    var t := Inner(a + [m] + b);
    assert t.kids[|a|] == m;
  }

  lemma QuarterFits(u: Tree, m: Tree)
    requires NodeSize(u) <= QUARTER_PAGE && (KidsFit(m) ==> KidsFit(u))
    ensures Fits(m) ==> Fits(u)
  {
  }

  /** An emptied node always merges, unless its parent has no other child. */
  lemma EmptyMerges(kids: seq<Tree>, i: nat, u: Tree, h: nat)
    requires i < |kids| && AllFit(kids, h) && ShapeOrEmpty(u, h) && Width(u) == 0
    requires ShouldMerge(kids, i, u).Stay?
    ensures |kids| == 1 && Flat(u) == [] && Fits(u)
    ensures FlatAll(kids[..i]) == [] && FlatAll(kids[i + 1..]) == []
  {
    hide ShouldMerge;
    assert Slots(u) == [];
    if |kids| > 1 { EmptyGoes(kids, i, u, h); }
  }

  lemma EmptyGoes(kids: seq<Tree>, i: nat, u: Tree, h: nat)
    requires i < |kids| && AllFit(kids, h) && Width(u) == 0 && |kids| > 1
    ensures !ShouldMerge(kids, i, u).Stay?
  {
    assert Slots(u) == [];
    assert NodeSize(u) == HEADER;
    if i > 0 { assert Fits(kids[i - 1]); } else { assert Fits(kids[i + 1]); }
  }

  /**
   * treeDelete: it finds the key exactly when the key is there, and removes that pair only; all
   * leaves stay at their depth. nothing is left only if nothing else was there.
   */
  lemma {:induction false} DelKeeps(t: Tree, h: nat, k: bytes)
    requires WellFormed(t, h)
    ensures Del(t, k).Some? <==> k in Dict(Flat(t))
    ensures Del(t, k).Some? ==> var n := Del(t, k).value; ShapeOrEmpty(n, h) && Flat(n) == Drop(Flat(t), k)
    decreases t
  {
    hide Drop, Lookup, Dict, Sorted, FlatAll, PageBytes, Small, AllLess, AllAbove, Join, KidSlots;
    if t.Leaf? {
      LeafDelIsDrop(t.kvs, k);
    } else {
      ChildWellFormed(t, h, k);
      var i := Lookup(KidSlots(t.kids), k);
      DelKeeps(t.kids[i], h - 1, k);
      FlatSplit(t.kids, i);
      FoundInside(FlatAll(t.kids[..i]), Flat(t.kids[i]), FlatAll(t.kids[i + 1..]), k);
      if Del(t.kids[i], k).Some? {
        FittingKids(t, h);
        JoinFlat(t.kids, i, Del(t.kids[i], k).value, h - 1);
      }
    }
  }

  lemma FoundInside(a: seq<Pair>, c: seq<Pair>, b: seq<Pair>, k: bytes)
    requires Sorted(a + c + b) && AllLess(a, k) && AllAbove(k, b)
    ensures k in Dict(a + c + b) <==> k in Dict(c)
    ensures Drop(a + c + b, k) == a + Drop(c, k) + b
  {
    hide Drop, Dict;
    DropInside(a, c, b, k);
    SortedParts(a, c, b);
    DropIsRemoval(a + c + b, k);
    DropIsRemoval(c, k);
  }
}
