/** Whole runs of Insert, Delete and GetVal against a plain map. */
module Histories {
  import opened Bytes
  import opened Pages
  import opened Builders
  import opened SortedRuns
  import opened Trees
  import opened Overflows
  import opened Roots

  /** What a user put into the tree: the sentinel's empty key is not a user's key. */
  function UserDict(o: Option<Tree>): map<bytes, bytes> {
    match o case None => map[] case Some(t) => Dict(Flat(t)) - {[]}
  }

  datatype Op = Insert(key: bytes, val: bytes) | Delete(key: bytes)

  function Step(o: Option<Tree>, op: Op): Option<Tree> {
    match op
    case Insert(k, v) => Some(InsertRoot(o, k, v))
    case Delete(k) => if o.Some? && DeleteRoot(o.value, k).Some? then DeleteRoot(o.value, k) else o
  }

  function Run(o: Option<Tree>, ops: seq<Op>): Option<Tree>
    decreases |ops|
  {
    if ops == [] then o else Run(Step(o, ops[0]), ops[1..])
  }

  /** The plain map. */
  function MapStep(m: map<bytes, bytes>, op: Op): map<bytes, bytes> {
    match op case Insert(k, v) => m[k := v] case Delete(k) => m - {k}
  }

  function MapRun(m: map<bytes, bytes>, ops: seq<Op>): map<bytes, bytes>
    decreases |ops|
  {
    if ops == [] then m else MapRun(MapStep(m, ops[0]), ops[1..])
  }

  predicate Emptied(o: Option<Tree>) { o.Some? && Flat(o.value) == [] }

  predicate Good(o: Option<Tree>) { o.None? || Emptied(o) || WF(o.value) }

  /**
   * Insert: a non-empty key, a small pair, a tree that has not been emptied, and no split of a leaf
   * root that lost its sentinel. Delete: a tree with a root, and room for the new separators.
   */
  predicate Legal(o: Option<Tree>, op: Op) {
    && op.key != []
    && !Emptied(o)
    && match op
       case Insert(k, v) => SmallPair(Pair(k, v)) && (o.Some? && LeafRootSplits(o.value, k, v) ==> HasSentinel(o.value))
       case Delete(k) => o.Some? && RoomToDelete(o.value, k)
  }

  predicate LegalRun(o: Option<Tree>, ops: seq<Op>)
    decreases |ops|
  {
    ops == [] || (Legal(o, ops[0]) && LegalRun(Step(o, ops[0]), ops[1..]))
  }

  /** The first tree: the sentinel and one pair. */
  lemma FirstTree(k: bytes, v: bytes)
    requires k != [] && SmallPair(Pair(k, v))
    ensures var t := InsertRoot(None, k, v); WF(t) && HasSentinel(t) && Dict(Flat(t)) == map[[] := [], k := v]
  {
    hide DataSize;
    var t := InsertRoot(None, k, v);
    EmptyIsLeast(k);
    var s := [SENTINEL, Pair(k, v)];
    var a, b := Entry(0, [], []), Entry(0, k, v);
    assert Slots(t) == [a] + [b];
    SingleData(a);
    Snoc([a], b);
    assert s[1..] == [Pair(k, v)] && s[1..][1..] == [];
    assert Dict(s[1..]) == map[k := v];
    assert Fits(t) && Shape(t, 0);
  }

  /** One legal step is one step of the map, and keeps the tree good. */
  lemma StepIsMapStep(o: Option<Tree>, op: Op)
    requires Good(o) && Legal(o, op)
    ensures Good(Step(o, op)) && UserDict(Step(o, op)) == MapStep(UserDict(o), op)
    ensures op.Delete? ==> (DeleteRoot(o.value, op.key).Some? <==> op.key in UserDict(o))
  {
    hide Dict, Put, Drop, PageBytes, LeafRootSplits, RoomToDelete, WellFormed;
    match op
    case Insert(k, v) => {
      if o.None? {
        FirstTree(k, v);
      } else {
        InsertedFlat(o.value, k, v);
        InsertedWF(o.value, k, v);
        Updated(o.value, k, v);
      }
    }
    case Delete(k) => {
      DeletedWF(o.value, k);
      SortedFlat(o.value);
      DropIsRemoval(Flat(o.value), k);
    }
  }

  lemma SortedFlat(t: Tree)
    requires WF(t)
    ensures Sorted(Flat(t)) && Small(Flat(t))
  {
  }

  lemma Updated(t: Tree, k: bytes, v: bytes)
    requires WF(t) && SmallPair(Pair(k, v)) && k != []
    requires LeafRootSplits(t, k, v) ==> HasSentinel(t)
    ensures Dict(Flat(InsertRoot(Some(t), k, v))) - {[]} == (Dict(Flat(t)) - {[]})[k := v]
  {
    hide Dict, Put, PageBytes, Split, WellFormed, Sorted, Small, FlatAll, SmallPair, InsertRoot, Ins, Height;
    SortedFlat(t);
    PutIsUpdate(Flat(t), k, v);
    PutSmall(Flat(t), k, v);
    InsertedFlat(t, k, v);
    if LeafRootSplits(t, k, v) {
      SentinelStays(t.kvs, k, v);
      WithoutFirst(Put(Flat(t), k, v));
    }
  }

  /**
   * For every run of inserts and deletes from the empty tree: the tree stays well-formed, and it
   * holds exactly what the plain map holds.
   */
  lemma {:induction false} RunIsMapRun(o: Option<Tree>, ops: seq<Op>)
    requires Good(o) && LegalRun(o, ops)
    ensures Good(Run(o, ops)) && UserDict(Run(o, ops)) == MapRun(UserDict(o), ops)
    decreases |ops|
  {
    hide UserDict, Good, Legal, Step, MapStep;
    if ops != [] {
      StepIsMapStep(o, ops[0]);
      RunIsMapRun(Step(o, ops[0]), ops[1..]);
    }
  }

  /** GetVal after a run is lookup in the map. */
  lemma GetAfterRun(ops: seq<Op>, k: bytes)
    requires LegalRun(None, ops) && k != [] && !Emptied(Run(None, ops))
    ensures Run(None, ops).Some? ==> Get(Run(None, ops).value, k) == Find(MapRun(map[], ops), k)
  {
    RunIsMapRun(None, ops);
    var o := Run(None, ops);
    if o.Some? { GetIsFind(o.value, Height(o.value), k); }
  }

  /** Inserts of small pairs under non-empty keys are always legal: no run of them needs a side condition. */
  predicate Inserts(ops: seq<Op>) {
    forall i :: 0 <= i < |ops| ==> ops[i].Insert? && ops[i].key != [] && SmallPair(Pair(ops[i].key, ops[i].val))
  }

  predicate OnlyInserted(o: Option<Tree>) { o.None? || (WF(o.value) && (o.value.Leaf? ==> HasSentinel(o.value))) }

  lemma InsertedIsInner(t: Tree, k: bytes, v: bytes)
    requires WF(t) && SmallPair(Pair(k, v)) && t.Inner?
    ensures InsertRoot(Some(t), k, v).Inner?
  {
    InsKeeps(t, Height(t), k, v);
    SplitKeeps(Ins(t, k, v), Height(t));
  }

  lemma {:induction false} InsertsAreLegal(o: Option<Tree>, ops: seq<Op>)
    requires OnlyInserted(o) && Inserts(ops)
    ensures LegalRun(o, ops) && OnlyInserted(Run(o, ops))
    decreases |ops|
  {
    hide WF, LeafRootSplits, InsertRoot, SmallPair;
    if ops != [] {
      var k, v := ops[0].key, ops[0].val;
      if o.None? {
        FirstTree(k, v);
      } else {
        FlatNonEmpty(o.value);
        if o.value.Leaf? { InsertedWF(o.value, k, v); } else { InnerNoSplit(o.value, k, v); }
      }
      InsertsAreLegal(Step(o, ops[0]), ops[1..]);
    }
  }

  lemma FlatNonEmpty(t: Tree)
    requires WF(t)
    ensures Flat(t) != []
  {
    FirstIsFirst(t, Height(t));
  }

  lemma InnerNoSplit(t: Tree, k: bytes, v: bytes)
    requires WF(t) && SmallPair(Pair(k, v)) && t.Inner? && k != []
    ensures !LeafRootSplits(t, k, v) && WF(InsertRoot(Some(t), k, v)) && InsertRoot(Some(t), k, v).Inner?
  {
    hide WellFormed;
    InsertedWF(t, k, v);
    InsertedIsInner(t, k, v);
  }

  /** The main result on inserts: any run of them, and the map they build. */
  lemma InsertsBuildTheMap(ops: seq<Op>, k: bytes)
    requires Inserts(ops) && ops != [] && k != []
    ensures Run(None, ops).Some? && WF(Run(None, ops).value)
    ensures Get(Run(None, ops).value, k) == Find(MapRun(map[], ops), k)
  {
    hide WF;
    InsertsAreLegal(None, ops);
    SomeAfterInserts(None, ops);
    FlatNonEmpty(Run(None, ops).value);
    GetAfterRun(ops, k);
  }

  lemma {:induction false} SomeAfterInserts(o: Option<Tree>, ops: seq<Op>)
    requires Inserts(ops) && (ops != [] || o.Some?)
    ensures Run(o, ops).Some?
    decreases |ops|
  {
    if ops != [] { SomeAfterInserts(Step(o, ops[0]), ops[1..]); }
  }

  /**
   * Exactly when Insert does what a map does, on any well-formed tree: unless the root is a leaf
   * that is split while its first key, which the new root leaves out, is a user's key.
   */
  lemma InsertExact(t: Tree, k: bytes, v: bytes)
    requires WF(t) && SmallPair(Pair(k, v)) && k != []
    ensures UserDict(Some(InsertRoot(Some(t), k, v))) == UserDict(Some(t))[k := v]
            <==> !(LeafRootSplits(t, k, v) && FirstKey(t) != [])
  {
    hide Dict, Put, PageBytes, Split, WellFormed, LeafRootSplits;
    SortedFlat(t);
    FlatNonEmpty(t);
    var p, d := Put(Flat(t), k, v), UserDict(Some(t))[k := v];
    PutIsUpdate(Flat(t), k, v);
    PutSmall(Flat(t), k, v);
    InsertedFlat(t, k, v);
    assert Dict(p) - {[]} == d;
    if LeafRootSplits(t, k, v) {
      LeafRoot(t, k, v);
      WithoutFirst(p);
      DictAt(p, 0);
      assert p[0].key != [] ==> p[0].key in d;
    }
  }

  lemma LeafRoot(t: Tree, k: bytes, v: bytes)
    requires LeafRootSplits(t, k, v) && Flat(t) != [] && k != []
    ensures Put(Flat(t), k, v) != [] && (Put(Flat(t), k, v)[0].key == [] <==> FirstKey(t) == [])
  {
    hide NodeSize;
    EmptyIsLeast(k);
    LessTotal(k, []);
  }
}
