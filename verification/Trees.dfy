/**
 * The B+tree on logical nodes: what treeInsert, nodeInsert, treeDelete, nodeDelete and shouldMerge
 * (storage/btree.go) do to the tree of nodes, pages and pointers left out.
 */
module Trees {
  import opened Bytes
  import opened Pages
  import opened Builders
  import opened Cuts
  import opened SortedRuns

  datatype Tree = Leaf(kvs: seq<Pair>) | Inner(kids: seq<Tree>)

  /** A node's key at index 0. */
  function FirstKey(t: Tree): bytes {
    match t
    case Leaf(kvs) => if kvs == [] then [] else kvs[0].key
    case Inner(kids) => if kids == [] then [] else FirstKey(kids[0])
  }

  /** What a node keeps in its page, pointers aside: an inner node has its children's first keys. */
  function Slots(t: Tree): (es: seq<Entry>)
    ensures |es| == Width(t)
  {
    match t
    case Leaf(kvs) => LeafSlots(kvs)
    case Inner(kids) => KidSlots(kids)
  }

  function LeafSlots(kvs: seq<Pair>): (es: seq<Entry>)
    ensures |es| == |kvs|
  {
    seq(|kvs|, i requires 0 <= i < |kvs| => Entry(0, kvs[i].key, kvs[i].val))
  }

  function KidSlots(kids: seq<Tree>): (es: seq<Entry>)
    ensures |es| == |kids|
  {
    seq(|kids|, i requires 0 <= i < |kids| => Entry(0, FirstKey(kids[i]), []))
  }

  function Width(t: Tree): nat { match t case Leaf(kvs) => |kvs| case Inner(kids) => |kids| }

  function NodeSize(t: Tree): nat { PageBytes(Slots(t)) }

  /** All pairs below a node, left to right. */
  function Flat(t: Tree): seq<Pair> {
    match t
    case Leaf(kvs) => kvs
    case Inner(kids) => FlatAll(kids)
  }

  function FlatAll(ts: seq<Tree>): seq<Pair> {
    if ts == [] then [] else Flat(ts[0]) + FlatAll(ts[1..])
  }

  // ------------------------------------------------------------ well-formed trees

  /** All leaves at depth h, no node empty. */
  predicate Shape(t: Tree, h: nat) {
    match t
    case Leaf(kvs) => h == 0 && kvs != []
    case Inner(kids) => h > 0 && kids != [] && forall i :: 0 <= i < |kids| ==> Shape(kids[i], h - 1)
  }

  /** Every node fits its page. */
  predicate Fits(t: Tree)
    decreases t, 1
  {
    NodeSize(t) <= PAGE_SIZE && KidsFit(t)
  }

  predicate KidsFit(t: Tree)
    decreases t, 0
  {
    t.Inner? ==> forall i :: 0 <= i < |t.kids| ==> Fits(t.kids[i])
  }

  /** Keys within MAXKEYLEN, slots within half a page. */
  predicate SmallPair(kv: Pair) { |kv.key| <= MAXKEYLEN && 14 + |kv.key| + |kv.val| <= HALF_PAGE }

  predicate Small(s: seq<Pair>) { forall i :: 0 <= i < |s| ==> SmallPair(s[i]) }

  predicate WellFormed(t: Tree, h: nat) { Shape(t, h) && Fits(t) && Sorted(Flat(t)) && Small(Flat(t)) }

  lemma {:induction false} FlatConcat(a: seq<Tree>, b: seq<Tree>)
    ensures FlatAll(a + b) == FlatAll(a) + FlatAll(b)
  {
    if a == [] {
      assert a + b == b;
    } else {
      assert (a + b)[1..] == a[1..] + b;
      FlatConcat(a[1..], b);
    }
  }

  lemma FlatOne(t: Tree)
    ensures FlatAll([t]) == Flat(t)
  {
    assert [t][1..] == [];
  }

  /** A child's pairs stand between its left and right siblings'. */
  lemma FlatSplit(kids: seq<Tree>, i: nat)
    requires i < |kids|
    ensures FlatAll(kids) == FlatAll(kids[..i]) + Flat(kids[i]) + FlatAll(kids[i + 1..])
  {
    hide Flat, FlatAll;
    AroundAt(kids, i);
    FlatConcat(kids[..i] + [kids[i]], kids[i + 1..]);
    FlatConcat(kids[..i], [kids[i]]);
    FlatOne(kids[i]);
  }

  /** The key at index 0 is the first key below the node. */
  lemma {:induction false} FirstIsFirst(t: Tree, h: nat)
    requires Shape(t, h)
    ensures Flat(t) != [] && Flat(t)[0].key == FirstKey(t)
    decreases t
  {
    if t.Inner? { FirstIsFirst(t.kids[0], h - 1); }
  }

  lemma FirstOfAll(ts: seq<Tree>, h: nat)
    requires ts != [] && Shape(ts[0], h)
    ensures FlatAll(ts) != [] && FlatAll(ts)[0].key == FirstKey(ts[0])
  {
    FirstIsFirst(ts[0], h);
  }

  // ------------------------------------------------------------ nodeLookupLE

  /** The last slot whose key is at most k; slot 0 when there is none. */
  function Lookup(es: seq<Entry>, k: bytes): (r: nat)
    ensures es != [] ==> r < |es|
  {
    if |es| <= 1 then 0
    else if AtMost(es[|es| - 1].key, k) then |es| - 1
    else Lookup(es[..|es| - 1], k)
  }

  predicate SlotsSorted(es: seq<Entry>) { forall i, j :: 0 <= i < j < |es| ==> Less(es[i].key, es[j].key) }

  predicate Found(es: seq<Entry>, k: bytes, i: nat) {
    && i < |es|
    && (i > 0 ==> AtMost(es[i].key, k))
    && (forall j :: i < j < |es| ==> Less(k, es[j].key))
  }

  lemma {:induction false} LookupFound(es: seq<Entry>, k: bytes)
    requires es != [] && SlotsSorted(es)
    ensures Found(es, k, Lookup(es, k))
    ensures forall i: nat :: Found(es, k, i) ==> i == Lookup(es, k)
  {
    var n := |es| - 1;
    if n > 0 {
      LessTotal(es[n].key, k);
      if !AtMost(es[n].key, k) {
        var s := es[..n];
        LookupFound(s, k);
        forall i: nat | Found(es, k, i) ensures i == Lookup(es, k) {
          assert i < n;
          assert Found(s, k, i);
        }
        var r := Lookup(s, k);
        forall j | r < j < |es| ensures Less(k, es[j].key) {
          if j < n { assert es[j] == s[j]; }
        }
      } else {
        forall i: nat | Found(es, k, i) ensures i == n {
          if i < n { assert false; }
        }
      }
    }
  }

  /** Separators of a sorted tree are sorted. */
  lemma SeparatorsSorted(kids: seq<Tree>, h: nat)
    requires forall i :: 0 <= i < |kids| ==> Shape(kids[i], h)
    requires Sorted(FlatAll(kids))
    ensures SlotsSorted(KidSlots(kids))
  {
    forall i, j | 0 <= i < j < |kids| ensures Less(FirstKey(kids[i]), FirstKey(kids[j])) {
      FlatSplit(kids, j);
      SortedParts(FlatAll(kids[..j]), Flat(kids[j]), FlatAll(kids[j + 1..]));
      FlatSplit(kids[..j], i);
      FirstIsFirst(kids[i], h);
      FirstIsFirst(kids[j], h);
      var a := FlatAll(kids[..j]);
      var p := |FlatAll(kids[..j][..i])|;
      assert a[p] == Flat(kids[i])[0];
    }
  }

  lemma SlotsAreSorted(t: Tree, h: nat)
    requires Shape(t, h) && Sorted(Flat(t))
    ensures SlotsSorted(Slots(t))
  {
    if t.Inner? { SeparatorsSorted(t.kids, h - 1); }
  }

  /** The child that nodeLookupLE picks is the only one that the key can belong to. */
  lemma ChildOfKey(kids: seq<Tree>, h: nat, k: bytes, i: nat)
    requires forall j :: 0 <= j < |kids| ==> Shape(kids[j], h)
    requires Sorted(FlatAll(kids)) && Found(KidSlots(kids), k, i)
    ensures AllLess(FlatAll(kids[..i]), k) && AllAbove(k, FlatAll(kids[i + 1..]))
    ensures Sorted(Flat(kids[i]))
  {
    FlatSplit(kids, i);
    var a, c, b := FlatAll(kids[..i]), Flat(kids[i]), FlatAll(kids[i + 1..]);
    SortedParts(a, c, b);
    FirstIsFirst(kids[i], h);
    if i > 0 {
      assert KidSlots(kids)[i].key == c[0].key;
      assert AllLess(a, c[0].key);
      LessTransAll(a, c[0].key, k);
    }
    if i + 1 < |kids| {
      FirstOfAll(kids[i + 1..], h);
      assert KidSlots(kids)[i + 1].key == b[0].key;
      FirstAbove(b);
      LessTotal(k, b[0].key);
      AboveTrans(k, b[0].key, b[1..]);
    }
  }

  // ------------------------------------------------------------ treeInsert

  function InsLeaf(kvs: seq<Pair>, k: bytes, v: bytes): seq<Pair>
    requires kvs != []
  {
    var i := Lookup(LeafSlots(kvs), k);
    if k == kvs[i].key then kvs[..i] + [Pair(k, v)] + kvs[i + 1..]
    else if Less(k, kvs[0].key) && i == 0 then [Pair(k, v)] + kvs
    else kvs[..i + 1] + [Pair(k, v)] + kvs[i + 1..]
  }

  function Take(t: Tree, i: nat): Tree
    requires i <= Width(t)
  {
    match t case Leaf(kvs) => Leaf(kvs[..i]) case Inner(kids) => Inner(kids[..i])
  }

  function Skip(t: Tree, i: nat): Tree
    requires i <= Width(t)
  {
    match t case Leaf(kvs) => Leaf(kvs[i..]) case Inner(kids) => Inner(kids[i..])
  }

  /** nodeSplit3 */
  function Split(t: Tree): seq<Tree> {
    if NodeSize(t) <= PAGE_SIZE then [t] else
    var i := Cut(Slots(t));
    var l := Take(t, i);
    if NodeSize(l) <= PAGE_SIZE then [l, Skip(t, i)] else
    var j := Cut(Slots(l));
    [Take(l, j), Skip(l, j), Skip(t, i)]
  }

  /** The node that treeInsert returns; it may still have to be split. */
  function Ins(t: Tree, k: bytes, v: bytes): Tree
    decreases t
  {
    match t
    case Leaf(kvs) => if kvs == [] then t else Leaf(InsLeaf(kvs, k, v))
    case Inner(kids) =>
      if kids == [] then t else
      var i := Lookup(KidSlots(kids), k);
      Inner(kids[..i] + Split(Ins(kids[i], k, v)) + kids[i + 1..])
  }

  // ------------------------------------------------------------ what a split keeps

  lemma SlotsCut(t: Tree, i: nat)
    requires i <= Width(t)
    ensures Slots(Take(t, i)) == Slots(t)[..i] && Slots(Skip(t, i)) == Slots(t)[i..]
  {
  }

  lemma FlatCut(t: Tree, i: nat)
    requires i <= Width(t)
    ensures Flat(t) == Flat(Take(t, i)) + Flat(Skip(t, i))
  {
    if t.Inner? {
      assert t.kids == t.kids[..i] + t.kids[i..];
      FlatConcat(t.kids[..i], t.kids[i..]);
    }
  }

  lemma ShapeCut(t: Tree, h: nat, i: nat)
    requires Shape(t, h) && KidsFit(t) && 0 < i < Width(t)
    ensures Shape(Take(t, i), h) && Shape(Skip(t, i), h) && KidsFit(Take(t, i)) && KidsFit(Skip(t, i))
  {
  }

  /** The pieces of a split are the pieces of its slots. */
  lemma SplitSlots(t: Tree)
    ensures |Split(t)| == |Pieces(Slots(t))|
    ensures forall i :: 0 <= i < |Split(t)| ==> Slots(Split(t)[i]) == Pieces(Slots(t))[i]
  {
    hide PageBytes, Slots, Cut, Take, Skip;
    var es := Slots(t);
    if NodeSize(t) > PAGE_SIZE {
      var i := Cut(es);
      SlotsCut(t, i);
      var l := Take(t, i);
      if NodeSize(l) > PAGE_SIZE {
        var j := Cut(es[..i]);
        SlotsCut(l, j);
        assert Split(t) == [Take(l, j), Skip(l, j), Skip(t, i)];
        assert Pieces(es) == [es[..i][..j], es[..i][j..], es[i..]];
      } else {
        assert Split(t) == [l, Skip(t, i)];
        assert Pieces(es) == [es[..i], es[i..]];
      }
    }
  }

  predicate AllFit(ts: seq<Tree>, h: nat) {
    forall i :: 0 <= i < |ts| ==> Shape(ts[i], h) && Fits(ts[i])
  }

  /**
   * nodeSplit3 on an overfull node with small slots: one to three well-formed nodes of the same
   * height, each in a page, that together hold what the node held, in order.
   */
  lemma SplitKeeps(t: Tree, h: nat)
    requires Shape(t, h) && KidsFit(t) && SmallSlots(Slots(t)) && NodeSize(t) <= PAGE_SIZE + PAGE_SIZE - 8
    ensures 1 <= |Split(t)| <= 3 && AllFit(Split(t), h)
    ensures FlatAll(Split(t)) == Flat(t)
  {
    hide Flat, FlatAll, PageBytes, KidsFit, Slots;
    var es := Slots(t);
    PiecesFit(es);
    SplitSlots(t);
    FlatOne(t);
    if NodeSize(t) > PAGE_SIZE {
      var i := Cut(es);
      CutInside(es);
      ShapeCut(t, h, i);
      FlatCut(t, i);
      SlotsCut(t, i);
      var l, r := Take(t, i), Skip(t, i);
      FlatOfTwo(l, r);
      if NodeSize(l) > PAGE_SIZE {
        var j := Cut(Slots(l));
        PrefixGrows(es, i, |es|);
        assert es[..|es|] == es;
        CutInside(Slots(l));
        ShapeCut(l, h, j);
        FlatCut(l, j);
        FlatOfThree(Take(l, j), Skip(l, j), r);
      }
    }
  }

  lemma FlatOfTwo(a: Tree, b: Tree)
    ensures FlatAll([a, b]) == Flat(a) + Flat(b)
  {
    assert [a, b] == [a] + [b];
    FlatConcat([a], [b]);
    FlatOne(a);
    FlatOne(b);
  }

  lemma FlatOfThree(a: Tree, b: Tree, c: Tree)
    ensures FlatAll([a, b, c]) == Flat(a) + Flat(b) + Flat(c)
  {
    assert [a, b, c] == [a, b] + [c];
    FlatConcat([a, b], [c]);
    FlatOfTwo(a, b);
    FlatOne(c);
  }

  // ------------------------------------------------------------ treeInsert is Put

  /** Where k stands in a leaf. */
  lemma LeafFound(kvs: seq<Pair>, k: bytes, i: nat)
    requires kvs != [] && Sorted(kvs) && i == Lookup(LeafSlots(kvs), k)
    ensures i < |kvs| && (i > 0 ==> AtMost(kvs[i].key, k)) && AllAbove(k, kvs[i + 1..])
    ensures Less(kvs[i].key, k) ==> AllLess(kvs[..i + 1], k)
    ensures AllLess(kvs[..i], kvs[i].key)
  {
    hide Lookup;
    var es := LeafSlots(kvs);
    LookupFound(es, k);
    assert es[i].key == kvs[i].key;
    forall j | i < j < |kvs| ensures Less(k, kvs[j].key) { assert es[j].key == kvs[j].key; }
    if Less(kvs[i].key, k) {
      LessTotal(kvs[i].key, k);
      forall j | 0 <= j <= i ensures Less(kvs[j].key, k) {
        LessTotal(kvs[j].key, kvs[i].key);
        LessTrans(kvs[j].key, kvs[i].key, k);
      }
    }
  }

  lemma InsLeafIsPut(kvs: seq<Pair>, k: bytes, v: bytes)
    requires kvs != [] && Sorted(kvs)
    ensures InsLeaf(kvs, k, v) == Put(kvs, k, v)
  {
    hide Put, Lookup, Sorted, AllLess, AllAbove, LeafSlots;
    var i := Lookup(LeafSlots(kvs), k);
    LeafFound(kvs, k, i);
    LessTotal(k, kvs[i].key);
    LessTotal(k, kvs[0].key);
    var b := kvs[i + 1..];
    if Less(kvs[i].key, k) {
      assert kvs == kvs[..i + 1] + [] + b;
      PutInside(kvs[..i + 1], [], b, k, v);
      PutNone(k, v);
    } else {
      assert kvs == kvs[..i] + [kvs[i]] + b;
      LessTotal(kvs[i].key, k);
      if i > 0 { assert k == kvs[i].key; }
      if i == 0 { NoneLess(kvs[..0], k); }
      PutInside(kvs[..i], [kvs[i]], b, k, v);
      PutOne(kvs[i], k, v);
      if k != kvs[i].key { assert [Pair(k, v), kvs[0]] + b == [Pair(k, v)] + kvs; }
    }
  }

  lemma NoneLess(s: seq<Pair>, k: bytes)
    requires s == []
    ensures AllLess(s, k)
  {
  }

  lemma PutOne(x: Pair, k: bytes, v: bytes)
    requires AtMost(k, x.key)
    ensures Put([x], k, v) == if k == x.key then [Pair(k, v)] else [Pair(k, v), x]
  {
    LessTotal(k, x.key);
  }

  lemma PutNone(k: bytes, v: bytes)
    ensures Put([], k, v) == [Pair(k, v)]
  {
  }

  lemma {:induction false} PutSmall(s: seq<Pair>, k: bytes, v: bytes)
    requires Small(s) && SmallPair(Pair(k, v))
    ensures Small(Put(s, k, v)) && Put(s, k, v) != []
  {
    if s != [] { PutSmall(s[1..], k, v); }
  }

  /** Slots of a node whose pairs are small: the data of a leaf, separators of at most MAXKEYLEN. */
  lemma SlotsSmall(t: Tree, h: nat)
    requires Shape(t, h) && Small(Flat(t))
    ensures SmallSlots(Slots(t))
    ensures t.Inner? ==> forall i :: 0 <= i < |t.kids| ==> SlotSize(Slots(t)[i]) <= 14 + MAXKEYLEN
  {
    if t.Inner? {
      forall i | 0 <= i < |t.kids| ensures SlotSize(Slots(t)[i]) <= 14 + MAXKEYLEN {
        FlatSplit(t.kids, i);
        FirstIsFirst(t.kids[i], h - 1);
        var p := |FlatAll(t.kids[..i])|;
        assert Flat(t)[p] == Flat(t.kids[i])[0];
      }
    }
  }

  lemma ReplaceFlat(kids: seq<Tree>, i: nat, ps: seq<Tree>)
    requires i < |kids|
    ensures FlatAll(kids[..i] + ps + kids[i + 1..]) == FlatAll(kids[..i]) + FlatAll(ps) + FlatAll(kids[i + 1..])
  {
    hide Flat, FlatAll;
    FlatConcat(kids[..i] + ps, kids[i + 1..]);
    FlatConcat(kids[..i], ps);
  }

  lemma ReplaceSlots(kids: seq<Tree>, i: nat, ps: seq<Tree>)
    requires i < |kids|
    ensures KidSlots(kids[..i] + ps + kids[i + 1..]) == KidSlots(kids)[..i] + KidSlots(ps) + KidSlots(kids)[i + 1..]
  {
  }

  lemma ReplaceSize(es: seq<Entry>, i: nat, xs: seq<Entry>)
    requires i < |es| && |xs| <= 3
    requires forall j :: 0 <= j < |xs| ==> SlotSize(xs[j]) <= 14 + MAXKEYLEN
    ensures PageBytes(es[..i] + xs + es[i + 1..]) <= PageBytes(es) + 3 * (14 + MAXKEYLEN)
  {
    hide DataSize;
    assert es == (es[..i] + [es[i]]) + es[i + 1..];
    DataConcat(es[..i] + [es[i]], es[i + 1..]);
    DataConcat(es[..i], [es[i]]);
    DataConcat(es[..i] + xs, es[i + 1..]);
    DataConcat(es[..i], xs);
    UpToThree(xs);
  }

  lemma UpToThree(xs: seq<Entry>)
    requires |xs| <= 3 && forall j :: 0 <= j < |xs| ==> SlotSize(xs[j]) <= 14 + MAXKEYLEN
    ensures DataSize(xs) + 10 * |xs| <= 3 * (14 + MAXKEYLEN)
  {
    if |xs| > 0 {
      var y := xs[..|xs| - 1];
      if |y| > 0 {
        var z := y[..|y| - 1];
        if |z| > 0 { assert z[..|z| - 1] == []; }
      }
    }
  }

  /** A child of a well-formed node, picked for key k, is well-formed and holds k if anything does. */
  lemma ChildWellFormed(t: Tree, h: nat, k: bytes)
    requires WellFormed(t, h) && t.Inner?
    ensures var i := Lookup(KidSlots(t.kids), k);
      && WellFormed(t.kids[i], h - 1)
      && AllLess(FlatAll(t.kids[..i]), k) && AllAbove(k, FlatAll(t.kids[i + 1..]))
  {
    hide Lookup, Sorted, FlatAll, PageBytes, Small, AllLess, AllAbove, KidSlots, SlotsSorted;
    var i := Lookup(KidSlots(t.kids), k);
    SeparatorsSorted(t.kids, h - 1);
    LookupFound(KidSlots(t.kids), k);
    ChildOfKey(t.kids, h - 1, k, i);
    FlatSplit(t.kids, i);
    assert KidsFit(t);
    assert Fits(t.kids[i]) && Shape(t.kids[i], h - 1);
    SmallParts(FlatAll(t.kids[..i]), Flat(t.kids[i]), FlatAll(t.kids[i + 1..]));
  }

  lemma SmallParts(a: seq<Pair>, c: seq<Pair>, b: seq<Pair>)
    requires Small(a + c + b)
    ensures Small(a) && Small(c) && Small(b)
  {
    var s := a + c + b;
    assert forall i :: 0 <= i < |a| ==> s[i] == a[i];
    assert forall i :: 0 <= i < |c| ==> s[|a| + i] == c[i];
    assert forall i :: 0 <= i < |b| ==> s[|a| + |c| + i] == b[i];
  }

  /**
   * treeInsert: the pairs below the node become what Put makes of them; all leaves stay at their
   * depth, all nodes below fit, and the node itself can be split by nodeSplit3.
   */
  lemma {:induction false} InsKeeps(t: Tree, h: nat, k: bytes, v: bytes)
    requires WellFormed(t, h) && SmallPair(Pair(k, v))
    ensures var n := Ins(t, k, v);
      && Shape(n, h) && KidsFit(n) && (n.Leaf? <==> t.Leaf?)
      && SmallSlots(Slots(n)) && NodeSize(n) <= PAGE_SIZE + PAGE_SIZE - 8
      && Flat(n) == Put(Flat(t), k, v)
    decreases t
  {
    hide Put, Lookup, PageBytes, Sorted, FlatAll, AllLess, AllAbove, Small, KidsFit, SmallSlots, Slots;
    if t.Leaf? {
      PutSmall(t.kvs, k, v);
      InsLeafIsPut(t.kvs, k, v);
      LeafGrows(t.kvs, k, v);
      SlotsSmall(Ins(t, k, v), h);
      NoKids(Ins(t, k, v));
    } else {
      ChildWellFormed(t, h, k);
      var i := Lookup(KidSlots(t.kids), k);
      InsKeeps(t.kids[i], h - 1, k, v);
      KidInserted(t, h, k, v, i, Ins(t.kids[i], k, v));
    }
  }

  lemma NoKids(t: Tree)
    requires t.Leaf?
    ensures KidsFit(t)
  {
  }

  lemma KidInserted(t: Tree, h: nat, k: bytes, v: bytes, i: nat, c: Tree)
    requires WellFormed(t, h) && t.Inner? && SmallPair(Pair(k, v)) && i < |t.kids|
    requires AllLess(FlatAll(t.kids[..i]), k) && AllAbove(k, FlatAll(t.kids[i + 1..]))
    requires Shape(c, h - 1) && KidsFit(c) && SmallSlots(Slots(c)) && NodeSize(c) <= PAGE_SIZE + PAGE_SIZE - 8
    requires Flat(c) == Put(Flat(t.kids[i]), k, v)
    ensures var n := Inner(t.kids[..i] + Split(c) + t.kids[i + 1..]);
      && Shape(n, h) && KidsFit(n)
      && SmallSlots(Slots(n)) && NodeSize(n) <= PAGE_SIZE + PAGE_SIZE - 8
      && Flat(n) == Put(Flat(t), k, v)
  {
    hide Put, PageBytes, Sorted, FlatAll, AllLess, AllAbove, Small, SmallSlots, Slots, Fits, KidSlots, SlotSize;
    var kids, ps := t.kids, Split(c);
    var n := Inner(kids[..i] + ps + kids[i + 1..]);
    SplitKeeps(c, h - 1);
    ReplaceFlat(kids, i, ps);
    FlatSplit(kids, i);
    PutInside(FlatAll(kids[..i]), Flat(kids[i]), FlatAll(kids[i + 1..]), k, v);
    PutSmall(Flat(t), k, v);
    FittingKids(t, h);
    KidsReplaced(kids, h - 1, i, ps);
    FittingNode(n, h);
    SlotsSmall(n, h);
    KidReplacedSize(t, h, n, i, ps);
  }

  lemma FittingKids(t: Tree, h: nat)
    requires Shape(t, h) && Fits(t) && t.Inner?
    ensures AllFit(t.kids, h - 1)
  {
    assert KidsFit(t);
  }

  lemma FittingNode(t: Tree, h: nat)
    requires t.Inner? && t.kids != [] && h > 0 && AllFit(t.kids, h - 1)
    ensures Shape(t, h) && KidsFit(t)
  {
  }

  lemma KidReplacedSize(t: Tree, h: nat, n: Tree, i: nat, ps: seq<Tree>)
    requires t.Inner? && Fits(t) && i < |t.kids| && |ps| <= 3
    requires n == Inner(t.kids[..i] + ps + t.kids[i + 1..])
    requires forall j :: 0 <= j < |n.kids| ==> SlotSize(Slots(n)[j]) <= 14 + MAXKEYLEN
    ensures NodeSize(n) <= PAGE_SIZE + PAGE_SIZE - 8
  {
    hide PageBytes, SlotSize;
    ReplaceSlots(t.kids, i, ps);
    KidSlotsSmall(n, h, i, ps);
    ReplaceSize(KidSlots(t.kids), i, KidSlots(ps));
  }

  lemma KidsReplaced(kids: seq<Tree>, h: nat, i: nat, ps: seq<Tree>)
    requires i < |kids| && AllFit(kids, h) && AllFit(ps, h)
    ensures AllFit(kids[..i] + ps + kids[i + 1..], h)
  {
  }

  lemma KidSlotsSmall(n: Tree, h: nat, i: nat, ps: seq<Tree>)
    requires n.Inner? && i + |ps| <= |n.kids| && n.kids[i..i + |ps|] == ps
    requires forall j :: 0 <= j < |n.kids| ==> SlotSize(Slots(n)[j]) <= 14 + MAXKEYLEN
    ensures forall j :: 0 <= j < |ps| ==> SlotSize(KidSlots(ps)[j]) <= 14 + MAXKEYLEN
  {
    forall j | 0 <= j < |ps| ensures SlotSize(KidSlots(ps)[j]) <= 14 + MAXKEYLEN {
      assert Slots(n)[i + j] == KidSlots(ps)[j];
    }
  }

  lemma LeafGrows(kvs: seq<Pair>, k: bytes, v: bytes)
    requires kvs != []
    ensures NodeSize(Leaf(InsLeaf(kvs, k, v))) <= NodeSize(Leaf(kvs)) + 14 + |k| + |v|
  {
    hide DataSize, Lookup;
    var i := Lookup(LeafSlots(kvs), k);
    var es, e := LeafSlots(kvs), Entry(0, k, v);
    var r := LeafSlots(InsLeaf(kvs, k, v));
    if k == kvs[i].key {
      assert r == es[..i] + [e] + es[i + 1..];
      GrownSize(es, i, e, i + 1);
    } else if Less(k, kvs[0].key) && i == 0 {
      assert r == es[..0] + [e] + es[0..];
      GrownSize(es, 0, e, 0);
    } else {
      assert r == es[..i + 1] + [e] + es[i + 1..];
      GrownSize(es, i + 1, e, i + 1);
    }
  }

  lemma GrownSize(es: seq<Entry>, i: nat, e: Entry, j: nat)
    requires i <= j <= |es|
    ensures PageBytes(es[..i] + [e] + es[j..]) <= PageBytes(es) + SlotSize(e)
  {
    hide DataSize;
    assert es == (es[..i] + es[i..j]) + es[j..];
    DataConcat(es[..i] + es[i..j], es[j..]);
    DataConcat(es[..i], es[i..j]);
    DataConcat(es[..i] + [e], es[j..]);
    DataConcat(es[..i], [e]);
    SingleData(e);
  }
}
