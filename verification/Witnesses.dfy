/**
 * Runs within MAXKEYLEN and MAXVALLEN from the empty tree to the states in which storage/btree.go
 * fails: a split that does not fit, a root page that overflows, a key that is lost.
 */
module Witnesses {
  import opened Bytes
  import opened Pages
  import opened Builders
  import opened Cuts
  import opened SortedRuns
  import opened Trees
  import opened Deletes
  import opened Overflows
  import opened Roots
  import opened Histories
  import opened Limits

  function Filled(b: byte, n: nat): (s: bytes)
    ensures |s| == n && forall i :: 0 <= i < n ==> s[i] == b
  {
    seq(n, _ => b)
  }

  // ------------------------------------------------------------ small nodes

  function SlotOf(x: Pair): Entry { Entry(0, x.key, x.val) }

  lemma SentinelSize()
    ensures SlotSize(SlotOf(SENTINEL)) == 14
  {
  }

  lemma OneSlot(a: Entry)
    ensures PageBytes([a]) == HEADER + SlotSize(a)
  {
    SingleData(a);
  }

  lemma TwoSlots(a: Entry, b: Entry)
    ensures PageBytes([a, b]) == HEADER + SlotSize(a) + SlotSize(b)
  {
    hide EntrySize;
    SingleData(a);
    Snoc([a], b);
    assert [a] + [b] == [a, b];
  }

  lemma ThreeSlots(a: Entry, b: Entry, c: Entry)
    ensures PageBytes([a, b, c]) == HEADER + SlotSize(a) + SlotSize(b) + SlotSize(c)
  {
    hide EntrySize;
    TwoSlots(a, b);
    Snoc([a, b], c);
    assert [a, b] + [c] == [a, b, c];
  }

  lemma OneSlotMore(es: seq<Entry>, e: Entry)
    ensures PageBytes(es + [e]) == PageBytes(es) + SlotSize(e)
  {
    hide EntrySize;
    Snoc(es, e);
  }

  lemma FiveSlots(es: seq<Entry>)
    requires |es| == 5
    ensures PageBytes(es) == HEADER + SlotSize(es[0]) + SlotSize(es[1]) + SlotSize(es[2]) + SlotSize(es[3]) + SlotSize(es[4])
  {
    hide DataSize;
    var three, four := [es[0], es[1], es[2]], es[..4];
    ThreeSlots(es[0], es[1], es[2]);
    assert three + [es[3]] == four && four + [es[4]] == es;
    OneSlotMore(three, es[3]);
    OneSlotMore(four, es[4]);
  }

  lemma {:induction false} PutLast(s: seq<Pair>, k: bytes, v: bytes)
    requires AllLess(s, k)
    ensures Put(s, k, v) == s + [Pair(k, v)]
  {
    if s != [] {
      LessTotal(k, s[0].key);
      PutLast(s[1..], k, v);
    }
  }

  /** A pair behind all others of a leaf. */
  lemma LeafGets(kvs: seq<Pair>, y: Pair)
    requires kvs != [] && Sorted(kvs) && AllLess(kvs, y.key)
    ensures Ins(Leaf(kvs), y.key, y.val) == Leaf(kvs + [y])
  {
    hide Put, InsLeaf;
    PutLast(kvs, y.key, y.val);
    InsLeafIsPut(kvs, y.key, y.val);
  }

  /** Where a node is cut: behind the first slot that reaches half. */
  lemma CutIs(es: seq<Entry>, i: nat)
    requires 0 < i <= |es| && PageBytes(es[..i - 1]) < PageBytes(es) / 2 <= PageBytes(es[..i])
    ensures Cut(es) == i
  {
    hide DataSize;
    var r := Cut(es);
    if r < i { PrefixGrows(es, r, i - 1); }
  }

  /** Two pairs of half a page each are parted. */
  lemma HalvesPart(x: Pair, y: Pair)
    requires SlotSize(SlotOf(x)) == SlotSize(SlotOf(y)) == HALF_PAGE
    ensures Split(Leaf([x, y])) == [Leaf([x]), Leaf([y])]
  {
    hide DataSize, Cut, SlotSize;
    var a, b := SlotOf(x), SlotOf(y);
    var es := [a, b];
    assert Slots(Leaf([x, y])) == es && Slots(Leaf([x])) == [a];
    OneSlot(a);
    TwoSlots(a, b);
    EmptyData();
    assert es[..0] == [] && es[..1] == [a];
    CutIs(es, 1);
    assert [x, y][..1] == [x] && [x, y][1..] == [y];
  }

  // ------------------------------------------------------------ one insert at the right end

  lemma LastChild(kids: seq<Tree>, k: bytes)
    requires kids != [] && AtMost(FirstKey(kids[|kids| - 1]), k)
    ensures Lookup(KidSlots(kids), k) == |kids| - 1
  {
  }

  /** Into the last child, which is split in two. */
  lemma LastSplits(front: seq<Tree>, x: Pair, y: Pair)
    requires SlotSize(SlotOf(x)) == SlotSize(SlotOf(y)) == HALF_PAGE && Less(x.key, y.key)
    requires NodeSize(Inner(front + [Leaf([x]), Leaf([y])])) <= PAGE_SIZE
    ensures InsertRoot(Some(Inner(front + [Leaf([x])])), y.key, y.val) == Inner(front + [Leaf([x]), Leaf([y])])
  {
    hide SlotSize, NodeSize, Lookup, KidSlots;
    var kids, n := front + [Leaf([x])], |front|;
    LessTotal(x.key, y.key);
    LastChild(kids, y.key);
    LeafGets([x], y);
    assert [x] + [y] == [x, y];
    HalvesPart(x, y);
    assert kids[..n] + [Leaf([x]), Leaf([y])] + kids[n + 1..] == front + [Leaf([x]), Leaf([y])];
    OneLevel(kids, y, n, [Leaf([x]), Leaf([y])]);
  }

  /** Into the last child, which has room. */
  lemma LastGrows(front: seq<Tree>, x: Pair, y: Pair)
    requires Less(x.key, y.key) && NodeSize(Leaf([x, y])) <= PAGE_SIZE && NodeSize(Inner(front + [Leaf([x, y])])) <= PAGE_SIZE
    ensures InsertRoot(Some(Inner(front + [Leaf([x])])), y.key, y.val) == Inner(front + [Leaf([x, y])])
  {
    hide NodeSize, Lookup, KidSlots;
    var kids, n := front + [Leaf([x])], |front|;
    LessTotal(x.key, y.key);
    LastChild(kids, y.key);
    LeafGets([x], y);
    assert [x] + [y] == [x, y];
    assert kids[..n] + [Leaf([x, y])] + kids[n + 1..] == front + [Leaf([x, y])];
    OneLevel(kids, y, n, [Leaf([x, y])]);
  }

  lemma OneLevel(kids: seq<Tree>, y: Pair, i: nat, news: seq<Tree>)
    requires i == Lookup(KidSlots(kids), y.key) < |kids| && news == Split(Ins(kids[i], y.key, y.val))
    requires NodeSize(Inner(kids[..i] + news + kids[i + 1..])) <= PAGE_SIZE
    ensures InsertRoot(Some(Inner(kids)), y.key, y.val) == Inner(kids[..i] + news + kids[i + 1..])
  {
    hide NodeSize, Lookup, KidSlots, Split;
    var n := Inner(kids[..i] + news + kids[i + 1..]);
    assert Ins(Inner(kids), y.key, y.val) == n;
    WholeNode(n);
  }

  lemma WholeNode(n: Tree)
    requires NodeSize(n) <= PAGE_SIZE
    ensures Split(n) == [n]
  {
    hide PageBytes;
  }

  /** A leaf root of the sentinel and one pair is split by another of the same size, and the sentinel goes. */
  lemma RootParts(x: Pair, y: Pair)
    requires SlotSize(SlotOf(x)) == SlotSize(SlotOf(y)) == HALF_PAGE && x.key != [] && Less(x.key, y.key)
    ensures InsertRoot(Some(Leaf([SENTINEL, x])), y.key, y.val) == Inner([Leaf([x]), Leaf([y])])
  {
    hide DataSize, Cut, EntrySize;
    var s, a, b := SlotOf(SENTINEL), SlotOf(x), SlotOf(y);
    var es := [s, a, b];
    EmptyIsLeast(x.key);
    EmptyIsLeast(y.key);
    LessTrans([], x.key, y.key);
    LeafGets([SENTINEL, x], y);
    var n := Leaf([SENTINEL, x] + [y]);
    assert n.kvs == [SENTINEL, x, y] && Slots(n) == es && es[..2] == [s, a] && es[..1] == [s];
    SentinelSize();
    OneSlot(s);
    TwoSlots(s, a);
    ThreeSlots(s, a, b);
    CutIs(es, 2);
    assert n.kvs[..2] == [SENTINEL, x] && n.kvs[2..] == [y] && [SENTINEL, x][1..] == [x];
    assert Slots(Leaf([SENTINEL, x])) == [s, a];
    assert Split(n) == [Leaf([SENTINEL, x]), Leaf([y])];
    assert [Leaf([SENTINEL, x]), Leaf([y])][1..] == [Leaf([y])];
  }

  // ------------------------------------------------------------ nodeSplit3's assert

  /** Two inserts within MAXKEYLEN and MAXVALLEN, after which the first piece is larger than a page. */
  lemma SplitFails()
    ensures var t := InsertRoot(None, [1], Filled(0, 1185));
      && WF(t) && Split(Ins(t, [2], Filled(0, 3000))) != []
      && NodeSize(Split(Ins(t, [2], Filled(0, 3000)))[0]) > PAGE_SIZE
  {
    hide PageBytes, DataSize, Pieces, Split;
    var v, w := Filled(0, 1185), Filled(0, 3000);
    var t := InsertRoot(None, [1], v);
    FirstTree([1], v);
    var kvs := [SENTINEL, Pair([1], v)];
    LeafGets(kvs, Pair([2], w));
    var n := Ins(t, [2], w);
    var a, b, c := Entry(0, [], []), Entry(0, [1], v), Entry(0, [2], w);
    assert Slots(n) == [a, b, c] && [a, b, c][..2] == [a, b];
    TwoSlots(a, b);
    ThreeSlots(a, b, c);
    LastTooWide([a, b, c]);
    SplitSlots(n);
  }

  // ------------------------------------------------------------ a page that a deletion overflows

  /** Half a page under a key of 1000 bytes. */
  function Wide(b: byte): Pair { Pair(Filled(b, 1000), Filled(0, 1034)) }

  /** Half a page under a key of one byte. */
  function Short(): Pair { Pair([4], Filled(0, 2033)) }

  function Long(): Pair { Pair(Filled(4, 1000), Filled(0, 100)) }

  function Front(): seq<Tree> { [Leaf([Wide(0)]), Leaf([Wide(1)]), Leaf([Wide(2)]), Leaf([Wide(3)])] }

  /** Four children under keys of 1000 bytes, and a fifth under a key of one byte. */
  function Crowded(): Tree { Inner(Front() + [Leaf([Short(), Long()])]) }

  function CrowdedOps(): seq<Op> { [PutOp(Wide(0)), PutOp(Wide(1)), PutOp(Wide(2)), PutOp(Wide(3)), PutOp(Short()), PutOp(Long())] }

  function PutOp(x: Pair): Op { Insert(x.key, x.val) }

  lemma LessFirst(a: bytes, b: bytes)
    requires a != [] && b != [] && a[0] < b[0]
    ensures Less(a, b)
  {
  }

  lemma ShortIsLess(b: byte, s: bytes)
    requires |s| > 1 && s[0] == b
    ensures Less([b], s)
  {
    assert [b][1..] == [];
  }

  /** Five children take 4075 bytes of the root, and fewer take less. */
  lemma CrowdedSize(j: nat)
    requires 2 <= j <= 5
    ensures NodeSize(Inner((Front() + [Leaf([Short()])])[..j])) <= NodeSize(Inner(Front() + [Leaf([Short()])])) == 4075
    ensures NodeSize(Crowded()) == 4075
  {
    hide DataSize, Filled;
    var kids := Front() + [Leaf([Short()])];
    var es := KidSlots(kids);
    assert KidSlots(kids[..j]) == es[..j] && es[..5] == es;
    PrefixGrows(es, j, 5);
    FiveSlots(es);
    assert KidSlots(Crowded().kids) == es;
  }

  /** Six inserts build the tree. */
  lemma CrowdedIsReached()
    ensures Inserts(CrowdedOps()) && Run(None, CrowdedOps()) == Some(Crowded()) && WF(Crowded())
  {
    hide InsertRoot, NodeSize, Filled, WF;
    var f, s := Front(), Leaf([Short()]);
    var k := f + [s];
    forall b: byte | b < 4 ensures Wide(b).key != [] && (b < 3 ==> Less(Wide(b).key, Wide(b + 1).key)) && Less(Wide(b).key, Short().key) {
      if b < 3 { LessFirst(Wide(b).key, Wide(b + 1).key); }
      LessFirst(Wide(b).key, Short().key);
    }
    CrowdedSteps();
    RunsThrough(CrowdedOps(), [Leaf([SENTINEL, Wide(0)]), Inner(k[..2]), Inner(k[..3]), Inner(k[..4]), Inner(k), Crowded()]);
    InsertsBuildTheMap(CrowdedOps(), [1]);
  }

  /** The roots between them. */
  lemma CrowdedSteps()
    ensures var k := Front() + [Leaf([Short()])];
      && InsertRoot(None, Wide(0).key, Wide(0).val) == Leaf([SENTINEL, Wide(0)])
      && InsertRoot(Some(Leaf([SENTINEL, Wide(0)])), Wide(1).key, Wide(1).val) == Inner(k[..2])
      && InsertRoot(Some(Inner(k[..2])), Wide(2).key, Wide(2).val) == Inner(k[..3])
      && InsertRoot(Some(Inner(k[..3])), Wide(3).key, Wide(3).val) == Inner(k[..4])
      && InsertRoot(Some(Inner(k[..4])), Short().key, Short().val) == Inner(k)
      && InsertRoot(Some(Inner(k)), Long().key, Long().val) == Crowded()
  {
    hide NodeSize, Filled, InsertRoot, PageBytes;
    var f := Front();
    var k := f + [Leaf([Short()])];
    assert InsertRoot(None, Wide(0).key, Wide(0).val) == Leaf([SENTINEL, Wide(0)]) by { FirstStep(Wide(0)); }
    LessFirst(Wide(0).key, Wide(1).key);
    LessFirst(Wide(1).key, Wide(2).key);
    LessFirst(Wide(2).key, Wide(3).key);
    LessFirst(Wide(3).key, Short().key);
    ShortIsLess(4, Long().key);
    CrowdedSize(2);
    CrowdedSize(3);
    CrowdedSize(4);
    assert k[..5] == k;
    RootParts(Wide(0), Wide(1));
    assert k[..2] == [Leaf([Wide(0)]), Leaf([Wide(1)])] == f[..1] + [Leaf([Wide(1)])];
    assert k[..3] == f[..1] + [Leaf([Wide(1)]), Leaf([Wide(2)])] == f[..2] + [Leaf([Wide(2)])];
    assert k[..4] == f[..2] + [Leaf([Wide(2)]), Leaf([Wide(3)])] == f[..3] + [Leaf([Wide(3)])];
    assert k == f[..3] + [Leaf([Wide(3)]), Leaf([Short()])];
    LastSplits(f[..1], Wide(1), Wide(2));
    LastSplits(f[..2], Wide(2), Wide(3));
    LastSplits(f[..3], Wide(3), Short());
    FifthSize();
    LastGrows(f, Short(), Long());
  }

  lemma FirstStep(x: Pair)
    ensures InsertRoot(None, x.key, x.val) == Leaf([SENTINEL, x])
  {
  }

  lemma FifthSize()
    ensures NodeSize(Leaf([Short(), Long()])) == HEADER + HALF_PAGE + 1114
  {
    hide DataSize;
    assert Slots(Leaf([Short(), Long()])) == [SlotOf(Short()), SlotOf(Long())];
    TwoSlots(SlotOf(Short()), SlotOf(Long()));
  }

  /** The roots of a run, one by one. */
  lemma {:induction false} RunsThrough(ops: seq<Op>, roots: seq<Tree>)
    requires |ops| == |roots| > 0
    requires Step(None, ops[0]) == Some(roots[0])
    requires forall i :: 0 < i < |ops| ==> Step(Some(roots[i - 1]), ops[i]) == Some(roots[i])
    ensures Run(None, ops) == Some(roots[|roots| - 1])
  {
    RunsFrom(ops, roots, |ops| - 1);
  }

  lemma {:induction false} RunsFrom(ops: seq<Op>, roots: seq<Tree>, n: nat)
    requires n < |ops| == |roots|
    requires Step(None, ops[0]) == Some(roots[0])
    requires forall i :: 0 < i < |ops| ==> Step(Some(roots[i - 1]), ops[i]) == Some(roots[i])
    ensures Run(None, ops) == Run(Some(roots[n]), ops[n + 1..])
  {
    hide Step;
    if n > 0 {
      RunsFrom(ops, roots, n - 1);
      assert ops[n..][0] == ops[n] && ops[n..][1..] == ops[n + 1..];
    }
  }

  /**
   * Delete can overflow a page on a tree that inserts within MAXKEYLEN and MAXVALLEN have built: the
   * separator of one byte gives way to one of 1000.
   */
  lemma DeleteOverflows()
    ensures Run(None, CrowdedOps()) == Some(Crowded()) && WF(Crowded())
    ensures [4] in Dict(Flat(Crowded())) && !RoomToDelete(Crowded(), [4])
  {
    hide Filled, Dict, WF, Run, CrowdedOps, Flat, FlatAll, PathFits;
    var t := Crowded();
    CrowdedIsReached();
    CrowdedSize(5);
    FifthChild();
    RootGrows();
  }

  lemma FifthChild()
    ensures [4] in Dict(Flat(Crowded())) && Lookup(KidSlots(Crowded().kids), [4]) == 4
    ensures SizeAfter(Crowded().kids[4], [4]) == HEADER + 1114
  {
    hide Filled, Dict, NodeSize;
    var t := Crowded();
    LessTotal([4], [4]);
    LastChild(t.kids, [4]);
    FifthSize();
    ShortIsLess(4, Long().key);
    LessTotal(Long().key, [4]);
    assert Lookup(LeafSlots([Short(), Long()]), [4]) == 0;
    FlatConcat(Front(), [Leaf([Short(), Long()])]);
    FlatOne(Leaf([Short(), Long()]));
    var s := Flat(t);
    assert s[|FlatAll(Front())|] == Short();
    DictKeys(s);
  }

  lemma RootGrows()
    requires Lookup(KidSlots(Crowded().kids), [4]) == 4 && SizeAfter(Crowded().kids[4], [4]) == HEADER + 1114
    requires NodeSize(Crowded()) == 4075
    ensures !PathFits(Crowded(), [4])
  {
    hide Filled, NodeSize, Lookup, KidSlots;
    var t := Crowded();
    FlatOne(t.kids[4]);
    assert t.kids[4..] == [t.kids[4]];
    assert Growth(t.kids, 4, [4]) == 999;
    assert SizeAfter(t, [4]) == 4075 + 999;
  }

  // ------------------------------------------------------------ a key that an insert loses

  function Third(b: byte): Pair { Pair([b], Filled(0, 2000)) }

  /** A leaf root without the sentinel. */
  function Bare(): Tree { Leaf([Third(1), Third(2)]) }

  function BareOps(): seq<Op> { [PutOp(Third(1)), PutOp(Third(2)), PutOp(Third(3)), Delete([3])] }

  lemma ThirdSize(b: byte)
    ensures SlotSize(SlotOf(Third(b))) == 2015
  {
  }

  lemma ThirdSizes()
    ensures NodeSize(Leaf([Third(1), Third(2)])) == 4034 && NodeSize(Leaf([SENTINEL, Third(1), Third(2)])) == 4048
    ensures NodeSize(Leaf([Third(1), Third(2), Third(3)])) == 6049
  {
    hide DataSize, SlotSize, Filled;
    ThirdSize(1);
    ThirdSize(2);
    ThirdSize(3);
    SentinelSize();
    TwoSlots(SlotOf(Third(1)), SlotOf(Third(2)));
    ThreeSlots(SlotOf(SENTINEL), SlotOf(Third(1)), SlotOf(Third(2)));
    ThreeSlots(SlotOf(Third(1)), SlotOf(Third(2)), SlotOf(Third(3)));
    assert Slots(Leaf([Third(1), Third(2)])) == [SlotOf(Third(1)), SlotOf(Third(2))];
    assert Slots(Leaf([SENTINEL, Third(1), Third(2)])) == [SlotOf(SENTINEL), SlotOf(Third(1)), SlotOf(Third(2))];
    assert Slots(Leaf([Third(1), Third(2), Third(3)])) == [SlotOf(Third(1)), SlotOf(Third(2)), SlotOf(Third(3))];
  }

  function Full(): seq<Pair> { [SENTINEL, Third(1), Third(2)] }

  /** The third insert splits the leaf root. */
  lemma ThirdSplits()
    ensures InsertRoot(Some(Leaf(Full())), [3], Third(3).val) == Inner([Bare(), Leaf([Third(3)])])
  {
    hide Filled, Split;
    EmptyIsLeast([3]);
    LeafGets(Full(), Third(3));
    ThirdParts();
    assert Full()[1..] == [Third(1), Third(2)];
    assert [Leaf(Full()), Leaf([Third(3)])][1..] == [Leaf([Third(3)])];
  }

  lemma ThirdParts()
    ensures Split(Leaf(Full() + [Third(3)])) == [Leaf(Full()), Leaf([Third(3)])]
  {
    hide PageBytes, Cut, Filled;
    var n := Leaf(Full() + [Third(3)]);
    ThirdCut();
    ThirdSizes();
    assert n.kvs[..3] == Full() && n.kvs[3..] == [Third(3)];
  }

  lemma ThirdCut()
    ensures var n := Leaf(Full() + [Third(3)]); Cut(Slots(n)) == 3 && NodeSize(n) > PAGE_SIZE
  {
    hide DataSize, Cut, SlotSize, Filled;
    ThirdSizes();
    ThirdSize(2);
    ThirdSize(3);
    var n, d := Leaf(Full() + [Third(3)]), SlotOf(Third(3));
    var es, two := Slots(Leaf(Full())), [SlotOf(SENTINEL), SlotOf(Third(1))];
    assert Slots(n) == es + [d] && es == two + [SlotOf(Third(2))];
    OneSlotMore(es, d);
    OneSlotMore(two, SlotOf(Third(2)));
    assert (es + [d])[..3] == es && (es + [d])[..2] == two;
    CutIs(es + [d], 3);
  }

  lemma SecondFits()
    ensures InsertRoot(Some(Leaf([SENTINEL, Third(1)])), [2], Third(2).val) == Leaf(Full())
  {
    hide Filled;
    ThirdSizes();
    EmptyIsLeast([2]);
    LeafGets([SENTINEL, Third(1)], Third(2));
    assert [SENTINEL, Third(1)] + [Third(2)] == Full();
  }

  lemma LastOfLeaf()
    ensures Del(Leaf([Third(3)]), [3]) == Some(Leaf([]))
  {
    hide Filled;
    LessTotal([3], [3]);
    assert [Third(3)][..0] + [Third(3)][1..] == [];
  }

  lemma NothingLeft()
    ensures NodeSize(Bare()) == 4034 && NodeSize(Leaf([])) == HEADER
  {
    hide Filled;
    ThirdSizes();
    assert Slots(Leaf([])) == [];
    EmptyData();
  }

  /** The deletion merges the two leaves, and the root collapses. */
  lemma ThirdGoes()
    ensures DeleteRoot(Inner([Bare(), Leaf([Third(3)])]), [3]) == Some(Bare())
  {
    hide Filled, Lookup, KidSlots, NodeSize;
    var a, b, t := Bare(), Leaf([Third(3)]), Inner([Bare(), Leaf([Third(3)])]);
    LessTotal([3], [3]);
    LastChild(t.kids, [3]);
    LastOfLeaf();
    NothingLeft();
    var m := Merge(a, Leaf([]));
    assert m.kvs == a.kvs + [] == a.kvs;
    assert t.kids[..0] + [m] + t.kids[2..] == [a];
    assert Del(t, [3]) == Some(Inner([a]));
  }

  /** Three inserts and a deletion leave a leaf root without the sentinel. */
  lemma BareIsReached()
    ensures Run(None, BareOps()) == Some(Bare()) && LegalRun(None, BareOps())
  {
    hide Filled, InsertRoot, DeleteRoot, RoomToDelete, NodeSize;
    FirstStep(Third(1));
    SecondFits();
    ThirdSplits();
    ThirdGoes();
    var r := Inner([Bare(), Leaf([Third(3)])]);
    RunsThrough(BareOps(), [Leaf([SENTINEL, Third(1)]), Leaf(Full()), r, Bare()]);
    BareLegal();
  }

  lemma BareLegal()
    ensures LegalRun(None, BareOps())
  {
    hide Filled, InsertRoot, DeleteRoot, RoomToDelete, NodeSize, Legal;
    var ops := BareOps();
    var ins := ops[..3];
    InsertsAreLegal(None, ins);
    FirstStep(Third(1));
    SecondFits();
    ThirdSplits();
    var r := Inner([Bare(), Leaf([Third(3)])]);
    RunsThrough(ins, [Leaf([SENTINEL, Third(1)]), Leaf(Full()), r]);
    LastIsLegal(r);
    assert ops == ins + [Delete([3])];
    LegalSnoc(None, ins, Delete([3]));
  }

  lemma LastIsLegal(r: Tree)
    requires r == Inner([Bare(), Leaf([Third(3)])]) && WF(r)
    ensures Legal(Some(r), Delete([3]))
  {
    hide Filled, PathFits, NodeSize, Dict;
    FlatNonEmpty(r);
    FlatOfTwo(Bare(), Leaf([Third(3)]));
    var s := Flat(r);
    assert s == [Third(1), Third(2), Third(3)];
    assert NextNoLonger(s, [3]);
    DeleteSafe(r, [3]);
  }

  lemma {:induction false} LegalSnoc(o: Option<Tree>, a: seq<Op>, op: Op)
    requires LegalRun(o, a) && Legal(Run(o, a), op)
    ensures LegalRun(o, a + [op])
    decreases |a|
  {
    hide Legal, Step;
    if a == [] {
      assert (a + [op])[1..] == [] && (a + [op])[0] == op;
    } else {
      assert (a + [op])[1..] == a[1..] + [op];
      LegalSnoc(Step(o, a[0]), a[1..], op);
    }
  }

  /** The next insert of the same size loses the first key. */
  lemma SentinelMissed()
    ensures Run(None, BareOps()) == Some(Bare()) && LegalRun(None, BareOps()) && [1] in Dict(Flat(Bare()))
    ensures [1] !in Dict(Flat(InsertRoot(Some(Bare()), [3], Third(3).val)))
  {
    hide Filled, InsertRoot, NodeSize, Dict, Run, LegalRun, BareOps, Put;
    BareIsReached();
    BareGood();
    ThirdSizes();
    var kvs := [Third(1), Third(2)];
    PutLast(kvs, [3], Third(3).val);
    LeafGets(kvs, Third(3));
    assert kvs + [Third(3)] == [Third(1), Third(2), Third(3)];
    InsertedFlat(Bare(), [3], Third(3).val);
    DictAt(kvs, 0);
    assert [Third(1), Third(2), Third(3)][1..] == [Third(2), Third(3)];
    AboveNotIn([1], [Third(2), Third(3)]);
  }

  lemma BareGood()
    ensures WF(Bare())
  {
    hide Filled, NodeSize;
    ThirdSizes();
  }

  // ------------------------------------------------------------ a merge, by the numbers

  function Light(b: byte): Pair { Pair([b], Filled(0, 870)) }

  function MergeOps(): seq<Op> { [PutOp(Third(1)), PutOp(Third(2)), PutOp(Light(3)), PutOp(Light(4)), Delete([2]), Delete([4])] }

  lemma LightSize(b: byte)
    ensures SlotSize(SlotOf(Light(b))) == 885
  {
  }

  lemma MergeSizes()
    ensures NodeSize(Leaf([Third(1)])) == 2019 && NodeSize(Leaf([Light(3)])) == 889 && NodeSize(Leaf([Light(3), Light(4)])) == 1774
    ensures NodeSize(Inner([Leaf([Third(1), Third(2)]), Leaf([Light(3), Light(4)])])) == 34
  {
    hide DataSize, SlotSize, Filled;
    ThirdSize(1);
    LightSize(3);
    LightSize(4);
    OneSlot(SlotOf(Third(1)));
    OneSlot(SlotOf(Light(3)));
    TwoSlots(SlotOf(Light(3)), SlotOf(Light(4)));
    assert Slots(Leaf([Third(1)])) == [SlotOf(Third(1))] && Slots(Leaf([Light(3)])) == [SlotOf(Light(3))];
    assert Slots(Leaf([Light(3), Light(4)])) == [SlotOf(Light(3)), SlotOf(Light(4))];
    var a, b := Entry(0, [1], []), Entry(0, [3], []);
    assert Slots(Inner([Leaf([Third(1), Third(2)]), Leaf([Light(3), Light(4)])])) == [a, b];
    TwoSlots(a, b);
    KeySlot(1);
    KeySlot(3);
  }

  lemma KeySlot(b: byte)
    ensures SlotSize(Entry(0, [b], [])) == 15
  {
  }

  /** The light pair goes to the right, alone. */
  lemma LightSplits()
    ensures InsertRoot(Some(Leaf(Full())), [3], Light(3).val) == Inner([Leaf([Third(1), Third(2)]), Leaf([Light(3)])])
  {
    hide Filled, Split;
    EmptyIsLeast([3]);
    LeafGets(Full(), Light(3));
    LightParts();
    assert Full()[1..] == [Third(1), Third(2)];
    assert [Leaf(Full()), Leaf([Light(3)])][1..] == [Leaf([Light(3)])];
  }

  lemma LightParts()
    ensures Split(Leaf(Full() + [Light(3)])) == [Leaf(Full()), Leaf([Light(3)])]
  {
    hide PageBytes, Cut, Filled;
    var n := Leaf(Full() + [Light(3)]);
    LightCut();
    ThirdSizes();
    assert n.kvs[..3] == Full() && n.kvs[3..] == [Light(3)];
  }

  lemma LightCut()
    ensures var n := Leaf(Full() + [Light(3)]); Cut(Slots(n)) == 3 && NodeSize(n) > PAGE_SIZE
  {
    hide DataSize, Cut, SlotSize, Filled;
    ThirdSizes();
    ThirdSize(2);
    LightSize(3);
    var n, d := Leaf(Full() + [Light(3)]), SlotOf(Light(3));
    var es, two := Slots(Leaf(Full())), [SlotOf(SENTINEL), SlotOf(Third(1))];
    assert Slots(n) == es + [d] && es == two + [SlotOf(Third(2))];
    OneSlotMore(es, d);
    OneSlotMore(two, SlotOf(Third(2)));
    assert (es + [d])[..3] == es && (es + [d])[..2] == two;
    CutIs(es + [d], 3);
  }

  lemma FourthFits()
    ensures InsertRoot(Some(Inner([Leaf([Third(1), Third(2)]), Leaf([Light(3)])])), [4], Light(4).val)
            == Inner([Leaf([Third(1), Third(2)]), Leaf([Light(3), Light(4)])])
  {
    hide Filled, NodeSize;
    MergeSizes();
    var front := [Leaf([Third(1), Third(2)])];
    assert front + [Leaf([Light(3)])] == [Leaf([Third(1), Third(2)]), Leaf([Light(3)])];
    assert front + [Leaf([Light(3), Light(4)])] == [Leaf([Third(1), Third(2)]), Leaf([Light(3), Light(4)])];
    LastGrows(front, Light(3), Light(4));
  }

  /** A changed child of 2019 bytes stays alone, whatever fits. */
  lemma SecondGoes()
    ensures DeleteRoot(Inner([Leaf([Third(1), Third(2)]), Leaf([Light(3), Light(4)])]), [2])
            == Some(Inner([Leaf([Third(1)]), Leaf([Light(3), Light(4)])]))
  {
    hide Filled, NodeSize;
    MergeSizes();
    var a, b, c := Leaf([Third(1), Third(2)]), Leaf([Light(3), Light(4)]), Leaf([Third(1)]);
    var t := Inner([a, b]);
    assert Lookup(LeafSlots(a.kvs), [2]) == 1 && Lookup(KidSlots(t.kids), [2]) == 0;
    assert a.kvs[..1] + a.kvs[2..] == [Third(1)];
    assert Del(a, [2]) == Some(c);
    assert t.kids[..0] + [c] + t.kids[1..] == [c, b];
  }

  /** One of 889 bytes joins its left sibling of 2019, and the root gives way. */
  lemma FourthGoes()
    ensures DeleteRoot(Inner([Leaf([Third(1)]), Leaf([Light(3), Light(4)])]), [4]) == Some(Leaf([Third(1), Light(3)]))
  {
    hide Filled, NodeSize;
    MergeSizes();
    var c, b, d := Leaf([Third(1)]), Leaf([Light(3), Light(4)]), Leaf([Light(3)]);
    var t := Inner([c, b]);
    assert Lookup(LeafSlots(b.kvs), [4]) == 1 && Lookup(KidSlots(t.kids), [4]) == 1;
    assert b.kvs[..1] + b.kvs[2..] == [Light(3)];
    assert Del(b, [4]) == Some(d);
    assert Merge(c, d) == Leaf([Third(1), Light(3)]);
    assert t.kids[..0] + [Merge(c, d)] + t.kids[2..] == [Merge(c, d)];
  }

  /** Four inserts and two deletions, the first of which merges nothing, and the second one the two leaves. */
  lemma MergeIsReached()
    ensures Run(None, MergeOps()) == Some(Leaf([Third(1), Light(3)]))
    ensures Run(None, MergeOps()[..5]) == Some(Inner([Leaf([Third(1)]), Leaf([Light(3), Light(4)])]))
  {
    hide Filled, InsertRoot, DeleteRoot, NodeSize;
    FirstStep(Third(1));
    SecondFits();
    LightSplits();
    FourthFits();
    SecondGoes();
    FourthGoes();
    var ops := MergeOps();
    var a, b := Leaf([Third(1), Third(2)]), Leaf([Light(3), Light(4)]);
    var roots := [Leaf([SENTINEL, Third(1)]), Leaf(Full()), Inner([a, Leaf([Light(3)])]), Inner([a, b]), Inner([Leaf([Third(1)]), b])];
    RunsThrough(ops[..5], roots);
    RunsThrough(ops, roots + [Leaf([Third(1), Light(3)])]);
  }
}
