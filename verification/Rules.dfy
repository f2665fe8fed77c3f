/** When nodes split, merge and give way (storage/btree.go), in bytes: 4096 in a page, 4 in its header, 14 in a slot. */
module Rules {
  import opened Bytes
  import opened Pages
  import opened Cuts
  import opened SortedRuns
  import opened Trees
  import opened Deletes
  import opened Roots

  /** What a node takes in its page: a pair in a leaf, and in an inner node a child's first key. */
  lemma SizeRule(kvs: seq<Pair>, x: Pair, kids: seq<Tree>, c: Tree)
    ensures NodeSize(Leaf([])) == NodeSize(Inner([])) == 4
    ensures NodeSize(Leaf(kvs + [x])) == NodeSize(Leaf(kvs)) + 14 + |x.key| + |x.val|
    ensures NodeSize(Inner(kids + [c])) == NodeSize(Inner(kids)) + 14 + |FirstKey(c)|
  {
    hide DataSize;
    EmptyData();
    var e, f := Entry(0, x.key, x.val), Entry(0, FirstKey(c), []);
    assert LeafSlots(kvs + [x]) == LeafSlots(kvs) + [e];
    assert KidSlots(kids + [c]) == KidSlots(kids) + [f];
    Snoc(LeafSlots(kvs), e);
    Snoc(KidSlots(kids), f);
  }

  /** The part of a node before slot i, and the rest. */
  predicate CutAt(t: Tree, i: nat, l: Tree, r: Tree) {
    match t
    case Leaf(kvs) => i <= |kvs| && l == Leaf(kvs[..i]) && r == Leaf(kvs[i..])
    case Inner(kids) => i <= |kids| && l == Inner(kids[..i]) && r == Inner(kids[i..])
  }

  /** Cut behind the first slot with which the left part has half of the bytes. */
  ghost predicate Halved(t: Tree, i: nat, l: Tree, r: Tree) {
    && CutAt(t, i, l, r) && 0 < i && NodeSize(l) >= NodeSize(t) / 2
    && forall q: nat, a: Tree, b: Tree {:trigger CutAt(t, q, a, b)} :: q < i && CutAt(t, q, a, b) ==> NodeSize(a) < NodeSize(t) / 2
  }

  /**
   * nodeSplit3: a node of up to 4096 bytes stays whole. Otherwise it is cut in half, and so is the left
   * part, if it still has more than 4096.
   */
  lemma SplitRule(t: Tree) returns (i: nat, l: Tree, r: Tree, j: nat, ll: Tree, m: Tree)
    requires NodeSize(t) <= 8184
    ensures NodeSize(t) <= 4096 ==> Split(t) == [t]
    ensures NodeSize(t) > 4096 ==> Halved(t, i, l, r)
    ensures NodeSize(t) > 4096 && NodeSize(l) <= 4096 ==> Split(t) == [l, r]
    ensures NodeSize(t) > 4096 && NodeSize(l) > 4096 ==> Halved(l, j, ll, m) && Split(t) == [ll, m, r]
  {
    hide PageBytes, Slots, Cut, Halved, CutAt;
    i, l, r, j, ll, m := 0, t, t, 0, t, t;
    if NodeSize(t) > 4096 {
      i, l, r := HalfCut(t);
      CutShrinks(t, i, l, r);
      if NodeSize(l) > 4096 { j, ll, m := HalfCut(l); }
    }
  }

  /** Where nodeSplit2 cuts. */
  lemma HalfCut(t: Tree) returns (i: nat, l: Tree, r: Tree)
    requires 4096 < NodeSize(t) <= 8184
    ensures Halved(t, i, l, r) && CutAt(t, i, l, r)
    ensures i == Cut(Slots(t)) <= Width(t) && l == Take(t, i) && r == Skip(t, i)
  {
    hide PageBytes, Cut, Slots;
    var es := Slots(t);
    i := Cut(es);
    CutBounds(es);
    l, r := Take(t, i), Skip(t, i);
    SlotsCut(t, i);
    forall q: nat, a: Tree, b: Tree {:trigger CutAt(t, q, a, b)} | q < i && CutAt(t, q, a, b) ensures NodeSize(a) < NodeSize(t) / 2 {
      SlotsCut(t, q);
      assert a == Take(t, q);
      PrefixBelow(es, q);
    }
  }

  lemma PrefixBelow(es: seq<Entry>, q: nat)
    requires 4096 < PageBytes(es) <= 8184 && q < Cut(es)
    ensures PageBytes(es[..q]) < PageBytes(es) / 2
  {
    hide DataSize, Cut;
    CutBounds(es);
    PrefixStep(es, Cut(es) - 1);
    PrefixGrows(es, q, Cut(es) - 1);
  }

  lemma CutShrinks(t: Tree, i: nat, l: Tree, r: Tree)
    requires CutAt(t, i, l, r)
    ensures NodeSize(l) <= NodeSize(t)
  {
    hide PageBytes;
    SlotsCut(t, i);
    PrefixGrows(Slots(t), i, |Slots(t)|);
    assert Slots(t)[..|Slots(t)|] == Slots(t);
  }

  /** Insert's new root: the node, if it stays whole; a first leaf root that is split loses its first slot; else a node over the pieces. */
  lemma RootRule(t: Tree, k: bytes, v: bytes)
    ensures var ps := Split(Ins(t, k, v));
      && InsertRoot(None, k, v) == Leaf([Pair([], []), Pair(k, v)])
      && (|ps| == 1 ==> InsertRoot(Some(t), k, v) == ps[0])
      && (|ps| > 1 && t.Inner? ==> InsertRoot(Some(t), k, v) == Inner(ps))
      && (|ps| > 1 && t.Leaf? && ps[0].Leaf? && ps[0].kvs != [] ==>
        InsertRoot(Some(t), k, v) == Inner([Leaf(ps[0].kvs[1..])] + ps[1..]))
  {
    hide Split, Ins;
  }

  /** treeInsert in an inner node: the only child that the key can be in gives way to its pieces. */
  lemma InsertRule(t: Tree, h: nat, k: bytes, v: bytes) returns (i: nat)
    requires WellFormed(t, h) && t.Inner?
    ensures i < |t.kids| && AllLess(FlatAll(t.kids[..i]), k) && AllAbove(k, FlatAll(t.kids[i + 1..]))
    ensures Ins(t, k, v) == Inner(t.kids[..i] + Split(Ins(t.kids[i], k, v)) + t.kids[i + 1..])
  {
    hide PageBytes, Lookup, Flat, Sorted, Small, Slots, KidSlots, Split;
    i := Lookup(KidSlots(t.kids), k);
    assert |KidSlots(t.kids)| == |t.kids|;
    ChildWellFormed(t, h, k);
  }

  /** Two nodes in one, the left one's slots first. */
  predicate Merged(l: Tree, r: Tree, m: Tree) {
    match l
    case Leaf(kvs) => r.Leaf? && m == Leaf(kvs + r.kvs)
    case Inner(kids) => r.Inner? && m == Inner(kids + r.kids)
  }

  /**
   * shouldMerge and nodeDelete, on the trees before and after a deletion: child i, in which the key is,
   * becomes u. With at most 1024 bytes u joins its left sibling exactly when the two, with one header,
   * have at most 4096 bytes; otherwise its right one exactly when these two have. With more it never does.
   */
  lemma MergeRule(t: Tree, h: nat, k: bytes) returns (i: nat, u: Tree, m: Tree)
    requires WellFormed(t, h) && t.Inner? && k in Dict(Flat(t))
    ensures i < |t.kids| && k in Dict(Flat(t.kids[i])) && Del(t.kids[i], k) == Some(u) && Del(t, k).Some? && Del(t, k).value.Inner?
    ensures var n, kids := Del(t, k).value.kids, t.kids;
      if NodeSize(u) <= 1024 && i > 0 && NodeSize(kids[i - 1]) + NodeSize(u) - 4 <= 4096 then
        Merged(kids[i - 1], u, m) && n == kids[..i - 1] + [m] + kids[i + 1..]
      else if NodeSize(u) <= 1024 && i + 1 < |kids| && NodeSize(kids[i + 1]) + NodeSize(u) - 4 <= 4096 then
        Merged(u, kids[i + 1], m) && n == kids[..i] + [m] + kids[i + 2..]
      else
        n == if Width(u) == 0 then [] else kids[..i] + [u] + kids[i + 1..]
  {
    hide PageBytes, Lookup, Dict, Flat, Drop, Sorted, Small, Slots, KidSlots;
    DelKeeps(t, h, k);
    i := Lookup(KidSlots(t.kids), k);
    assert |KidSlots(t.kids)| == |t.kids|;
    u := Del(t.kids[i], k).value;
    ChildWellFormed(t, h, k);
    DelKeeps(t.kids[i], h - 1, k);
    m := match ShouldMerge(t.kids, i, u)
      case ToLeft => Merge(t.kids[i - 1], u)
      case ToRight => Merge(u, t.kids[i + 1])
      case Stay => u;
  }

  /** Delete's new root: an inner node with one child left gives way to that child. */
  lemma CollapseRule(t: Tree, k: bytes)
    ensures DeleteRoot(t, k).None? <==> Del(t, k).None?
    ensures DeleteRoot(t, k).Some? ==> var n := Del(t, k).value;
      DeleteRoot(t, k).value == if n.Inner? && |n.kids| == 1 then n.kids[0] else n
  {
  }
}
