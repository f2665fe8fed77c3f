/**
 * Transactions (storage/disk.go): a pending tree for what was written, a set of deleted keys and the
 * tree as it was at Begin act as one map, and Commit turns the store's tree into that map.
 */
module Transactions {
  import opened Bytes
  import opened Pages
  import opened SortedRuns
  import opened Trees
  import opened Deletes
  import opened Overflows
  import opened Roots
  import opened Histories
  import opened Stores
  import opened BTrees
  import opened Limits
  import opened Positions
  import opened Iters

  function HeightOf(o: Option<Tree>): nat { match o case None => 0 case Some(t) => Height(t) }

  /** Page numbers for n more operations on a tree of height h. */
  predicate Room(p: nat, h: nat, n: nat)
    decreases n
  {
    p + 3 * h + 5 < TWO_64 && (n > 0 ==> Room(p + 3 * h + 5, h + 1, n - 1))
  }

  lemma {:induction false} LessRoom(p: nat, h: nat, n: nat, q: nat, g: nat)
    requires Room(p, h, n) && q <= p && g <= h
    ensures Room(q, g, n)
    decreases n
  {
    if n > 0 { LessRoom(p + 3 * h + 5, h + 1, n - 1, q + 3 * g + 5, g + 1); }
  }

  /** One operation on the tree is one on the map, and adds at most one level. */
  lemma Stepped(o: Option<Tree>, op: Op)
    requires Good(o) && Legal(o, op)
    ensures Good(Step(o, op)) && UserDict(Step(o, op)) == MapStep(UserDict(o), op)
    ensures op.Delete? ==> (DeleteRoot(o.value, op.key).Some? <==> op.key in UserDict(o))
    ensures HeightOf(Step(o, op)) <= HeightOf(o) + 1
  {
    hide UserDict, RoomToDelete, WellFormed, LeafRootSplits;
    StepIsMapStep(o, op);
    if o.Some? {
      match op
      case Insert(k, v) => InsertedHeight(o.value, k, v);
      case Delete(k) => DeletedHeight(o.value, k);
    }
  }

  lemma InsertedHeight(t: Tree, k: bytes, v: bytes)
    requires WF(t) && SmallPair(Pair(k, v))
    ensures Height(InsertRoot(Some(t), k, v)) <= Height(t) + 1
  {
    hide PageBytes, Slots, FlatAll, Put, Sorted, Small;
    var h := Height(t);
    InsKeeps(t, h, k, v);
    SplitKeeps(Ins(t, k, v), h);
    var ps := Split(Ins(t, k, v));
    ShapeHeight(ps[0], h);
  }

  lemma DeletedHeight(t: Tree, k: bytes)
    requires WF(t)
    ensures DeleteRoot(t, k).Some? ==> Height(DeleteRoot(t, k).value) <= Height(t)
  {
    hide Drop, Dict, Sorted, Small, PageBytes;
    var h := Height(t);
    DelKeeps(t, h, k);
    if Del(t, k).Some? {
      var n := Del(t, k).value;
      if Shape(n, h) {
        ShapeHeight(n, h);
        if n.Inner? { ShapeHeight(n.kids[0], h - 1); }
      }
    }
  }

  // ------------------------------------------------------------ the order of a commit

  ghost predicate Lists(s: seq<bytes>, keys: set<bytes>) {
    (forall i, j :: 0 <= i < j < |s| ==> s[i] != s[j]) && (forall k :: k in s <==> k in keys)
  }

  lemma ListOf(keys: set<bytes>) returns (s: seq<bytes>)
    ensures Lists(s, keys)
  {
    if keys == {} {
      s := [];
    } else {
      var k :| k in keys;
      var r := ListOf(keys - {k});
      s := [k] + r;
      assert forall j :: 0 < j < |s| ==> s[j] in r;
    }
  }

  /** Commit's inserts: each key's pending value, or nil if it has none any more. */
  function InsertOps(ws: seq<bytes>, p: map<bytes, bytes>): (ops: seq<Op>)
    ensures |ops| == |ws|
  {
    seq(|ws|, i requires 0 <= i < |ws| => Insert(ws[i], ValueOf(p, ws[i])))
  }

  function ValueOf(p: map<bytes, bytes>, k: bytes): bytes { if k in p then p[k] else [] }

  function DeleteOps(ds: seq<bytes>): (ops: seq<Op>)
    ensures |ops| == |ds|
  {
    seq(|ds|, i requires 0 <= i < |ds| => Delete(ds[i]))
  }

  /** Whatever the order in which the two Go maps are walked, every operation of the commit is legal. */
  ghost predicate Committable(o: Option<Tree>, writes: set<bytes>, deletes: set<bytes>, p: map<bytes, bytes>) {
    forall ws, ds :: Lists(ws, writes) && Lists(ds, deletes) ==> LegalRun(o, InsertOps(ws, p) + DeleteOps(ds))
  }

  lemma {:induction false} RunConcat(o: Option<Tree>, a: seq<Op>, b: seq<Op>)
    ensures Run(o, a + b) == Run(Run(o, a), b)
    ensures LegalRun(o, a + b) <==> LegalRun(o, a) && LegalRun(Run(o, a), b)
    decreases |a|
  {
    hide Step, Legal;
    if a == [] {
      assert a + b == b;
    } else {
      assert (a + b)[1..] == a[1..] + b;
      RunConcat(Step(o, a[0]), a[1..], b);
    }
  }

  lemma RunSnoc(o: Option<Tree>, a: seq<Op>, op: Op)
    ensures Run(o, a + [op]) == Step(Run(o, a), op)
    ensures LegalRun(o, a + [op]) <==> LegalRun(o, a) && Legal(Run(o, a), op)
  {
    hide Step, Legal;
    RunConcat(o, a, [op]);
    assert Run(Run(o, a), [op]) == Run(Step(Run(o, a), op), [op][1..]);
  }

  /** A commit under way: the operations done so far, and where they have led the tree. */
  ghost predicate Reached(o: Option<Tree>, a: seq<Op>, now: Option<Tree>) {
    Good(now) && now == Run(o, a) && UserDict(now) == MapRun(UserDict(o), a)
  }

  /** One operation more. */
  lemma ReachNext(o: Option<Tree>, a: seq<Op>, now: Option<Tree>, op: Op, b: seq<Op>)
    requires Reached(o, a, now) && LegalRun(o, a + [op] + b)
    ensures Legal(now, op) && Reached(o, a + [op], Step(now, op))
    ensures HeightOf(Step(now, op)) <= HeightOf(now) + 1 && Good(Step(now, op))
  {
    hide Legal, Step, LegalRun, Run, Good, UserDict, MapRun;
    RunConcat(o, a + [op], b);
    RunSnoc(o, a, op);
    Stepped(now, op);
    MapRunConcat(UserDict(o), a, [op]);
    assert MapRun(MapRun(UserDict(o), a), [op]) == MapStep(MapRun(UserDict(o), a), op) by { MapRunOne(MapRun(UserDict(o), a), op); }
  }

  lemma MapRunOne(m: map<bytes, bytes>, op: Op)
    ensures MapRun(m, [op]) == MapStep(m, op)
  {
    assert [op][1..] == [];
    assert MapRun(MapStep(m, op), []) == MapStep(m, op);
  }

  lemma NothingDone(o: Option<Tree>)
    requires Good(o)
    ensures Reached(o, [], o) && Lists([], {})
  {
  }

  lemma LegalRoot(o: Option<Tree>, a: seq<Op>, now: Option<Tree>, k: bytes)
    requires Reached(o, a, now) && Legal(now, Delete(k))
    ensures now.Some? && WF(now.value) && RoomToDelete(now.value, k)
  {
  }

  lemma OneMore(s: seq<bytes>, keys: set<bytes>, k: bytes)
    requires Lists(s, keys) && k !in keys
    ensures Lists(s + [k], keys + {k})
  {
  }

  lemma ListConcat(s: seq<bytes>, a: set<bytes>, r: seq<bytes>, b: set<bytes>)
    requires Lists(s, a) && Lists(r, b) && a !! b
    ensures Lists(s + r, a + b)
  {
    assert forall i :: 0 <= i < |r| ==> r[i] in r;
    assert forall i :: 0 <= i < |s| ==> s[i] in s;
  }

  /** The insert that comes next. */
  lemma NextInsert(o: Option<Tree>, writes: set<bytes>, deletes: set<bytes>, p: map<bytes, bytes>,
                   ws: seq<bytes>, done: set<bytes>, k: bytes, now: Option<Tree>)
    requires Committable(o, writes, deletes, p)
    requires Lists(ws, done) && done <= writes && k in writes - done && Reached(o, InsertOps(ws, p), now)
    ensures var op := Insert(k, ValueOf(p, k));
      && Lists(ws + [k], done + {k}) && Legal(now, op) && Reached(o, InsertOps(ws + [k], p), Step(now, op))
      && HeightOf(Step(now, op)) <= HeightOf(now) + 1 && Good(Step(now, op))
  {
    hide Legal, Step, LegalRun, Run, Lists, Reached, HeightOf, ValueOf;
    OneMore(ws, done, k);
    var left := writes - done - {k};
    var rest := ListOf(left);
    var ds := ListOf(deletes);
    ListConcat(ws + [k], done + {k}, rest, left);
    assert done + {k} + left == writes;
    var op, b := Insert(k, ValueOf(p, k)), InsertOps(rest, p) + DeleteOps(ds);
    assert InsertOps(ws + [k], p) == InsertOps(ws, p) + [op];
    assert InsertOps(ws + [k] + rest, p) + DeleteOps(ds) == InsertOps(ws, p) + [op] + b;
    ReachNext(o, InsertOps(ws, p), now, op, b);
  }

  /** The delete that comes next. */
  lemma NextDelete(o: Option<Tree>, writes: set<bytes>, deletes: set<bytes>, p: map<bytes, bytes>,
                   ws: seq<bytes>, ds: seq<bytes>, done: set<bytes>, k: bytes, now: Option<Tree>)
    requires Committable(o, writes, deletes, p) && Lists(ws, writes)
    requires Lists(ds, done) && done <= deletes && k in deletes - done && Reached(o, InsertOps(ws, p) + DeleteOps(ds), now)
    ensures var op := Delete(k);
      && Lists(ds + [k], done + {k}) && Legal(now, op) && Reached(o, InsertOps(ws, p) + DeleteOps(ds + [k]), Step(now, op))
      && HeightOf(Step(now, op)) <= HeightOf(now) + 1 && Good(Step(now, op))
  {
    hide Legal, Step, LegalRun, Run, Lists, Reached, HeightOf, ValueOf;
    OneMore(ds, done, k);
    var left := deletes - done - {k};
    var rest := ListOf(left);
    ListConcat(ds + [k], done + {k}, rest, left);
    assert done + {k} + left == deletes;
    var a, op, b := InsertOps(ws, p) + DeleteOps(ds), Delete(k), DeleteOps(rest);
    assert InsertOps(ws, p) + DeleteOps(ds + [k]) == a + [op];
    assert InsertOps(ws, p) + DeleteOps(ds + [k] + rest) == a + [op] + b;
    ReachNext(o, a, now, op, b);
  }

  function Bound(ws: set<bytes>, p: map<bytes, bytes>): map<bytes, bytes> { map k | k in ws :: ValueOf(p, k) }

  function Elems(s: seq<bytes>): set<bytes> { set k | k in s }

  /** In any order, the inserts of a commit bind every written key. */
  lemma {:induction false} InsertsBind(m: map<bytes, bytes>, ws: seq<bytes>, p: map<bytes, bytes>)
    ensures MapRun(m, InsertOps(ws, p)) == m + Bound(Elems(ws), p)
    decreases |ws|
  {
    hide ValueOf;
    if ws != [] {
      assert InsertOps(ws, p)[1..] == InsertOps(ws[1..], p);
      InsertsBind(m[ws[0] := ValueOf(p, ws[0])], ws[1..], p);
      assert ws == [ws[0]] + ws[1..];
      assert Elems(ws) == {ws[0]} + Elems(ws[1..]);
      OneBound(m, ws[0], Elems(ws[1..]), p);
    }
  }

  lemma OneBound(m: map<bytes, bytes>, k: bytes, ws: set<bytes>, p: map<bytes, bytes>)
    ensures m[k := ValueOf(p, k)] + Bound(ws, p) == m + Bound({k} + ws, p)
  {
  }

  lemma {:induction false} DeletesRemove(m: map<bytes, bytes>, ds: seq<bytes>)
    ensures MapRun(m, DeleteOps(ds)) == m - Elems(ds)
    decreases |ds|
  {
    if ds != [] {
      assert DeleteOps(ds)[1..] == DeleteOps(ds[1..]);
      DeletesRemove(m - {ds[0]}, ds[1..]);
      assert ds == [ds[0]] + ds[1..];
      assert Elems(ds) == {ds[0]} + Elems(ds[1..]);
      assert m - {ds[0]} - Elems(ds[1..]) == m - Elems(ds);
    }
  }

  lemma {:induction false} MapRunConcat(m: map<bytes, bytes>, a: seq<Op>, b: seq<Op>)
    ensures MapRun(m, a + b) == MapRun(MapRun(m, a), b)
    decreases |a|
  {
    if a == [] {
      assert a + b == b;
    } else {
      assert (a + b)[1..] == a[1..] + b;
      MapRunConcat(MapStep(m, a[0]), a[1..], b);
    }
  }

  /** The map of a transaction: its writes over the snapshot, less its deletions. */
  function Overlay(s: map<bytes, bytes>, p: map<bytes, bytes>, del: set<bytes>): map<bytes, bytes> { s + p - del }

  /**
   * Commit, in whatever order: the tree's map becomes the transaction's. The keys that were written
   * and then deleted are inserted with a nil value, and deleted again.
   */
  lemma CommitIsOverlay(m: map<bytes, bytes>, p: map<bytes, bytes>, ws: seq<bytes>, ds: seq<bytes>, writes: set<bytes>, deletes: set<bytes>)
    requires Lists(ws, writes) && Lists(ds, deletes)
    requires p.Keys !! deletes && p.Keys <= writes <= p.Keys + deletes
    ensures MapRun(m, InsertOps(ws, p) + DeleteOps(ds)) == Overlay(m, p, deletes)
  {
    hide Overlay, Bound;
    MapRunConcat(m, InsertOps(ws, p), DeleteOps(ds));
    InsertsBind(m, ws, p);
    DeletesRemove(m + Bound(writes, p), ds);
    assert Elems(ds) == deletes && Elems(ws) == writes;
    BoundIsOverlay(m, p, writes, deletes);
  }

  lemma BoundIsOverlay(m: map<bytes, bytes>, p: map<bytes, bytes>, writes: set<bytes>, deletes: set<bytes>)
    requires p.Keys !! deletes && p.Keys <= writes <= p.Keys + deletes
    ensures m + Bound(writes, p) - deletes == Overlay(m, p, deletes)
  {
  }

  // ------------------------------------------------------------ when a commit is legal in any order

  /** All keys of a user have n bytes. */
  ghost predicate OneLength(o: Option<Tree>, n: nat) { forall k :: k in UserDict(o) ==> |k| == n }

  lemma NoNextLonger(t: Tree, k: bytes, n: nat)
    requires WF(t) && OneLength(Some(t), n) && |k| == n
    ensures NextNoLonger(Flat(t), k)
  {
    hide Dict, Flat, WF;
    SortedFlat(t);
    var s := Flat(t);
    forall i | 0 < i < |s| && s[i - 1].key == k ensures |s[i].key| <= |k| {
      DictAt(s, i);
      assert s[i].key == [] || s[i].key in UserDict(Some(t));
    }
  }

  /** With keys of one length, deletions are legal in any order while some key stays. */
  lemma {:induction false} DeletesAreLegal(o: Option<Tree>, ds: seq<bytes>, n: nat, stays: bytes)
    requires o.Some? && WF(o.value) && OneLength(o, n)
    requires stays in UserDict(o) && stays !in ds && forall i :: 0 <= i < |ds| ==> ds[i] != [] && |ds[i]| == n
    ensures LegalRun(o, DeleteOps(ds))
    decreases |ds|
  {
    hide WF, UserDict, RoomToDelete, DeleteRoot, Flat;
    if ds != [] {
      var d := ds[0];
      NoNextLonger(o.value, d, n);
      DeleteSafe(o.value, d);
      FlatNonEmpty(o.value);
      StepIsMapStep(o, Delete(d));
      var r := Step(o, Delete(d));
      assert stays in UserDict(r);
      NotEmptied(r, stays);
      assert DeleteOps(ds)[1..] == DeleteOps(ds[1..]);
      DeletesAreLegal(r, ds[1..], n, stays);
    }
  }

  lemma NotEmptied(o: Option<Tree>, k: bytes)
    requires k in UserDict(o)
    ensures !Emptied(o)
  {
  }

  /**
   * On a tree that only ever had inserts, a commit of small pairs under non-empty keys of one length
   * is legal in every order, if the transaction leaves some key: Commit then needs no other condition.
   */
  lemma FixedLengthCommits(o: Option<Tree>, writes: set<bytes>, deletes: set<bytes>, p: map<bytes, bytes>, n: nat, stays: bytes)
    requires OnlyInserted(o) && OneLength(o, n)
    requires forall k :: k in writes + deletes ==> k != [] && |k| == n
    requires forall k :: k in writes ==> SmallPair(Pair(k, ValueOf(p, k)))
    requires p.Keys !! deletes && p.Keys <= writes <= p.Keys + deletes && stays in Overlay(UserDict(o), p, deletes)
    ensures Committable(o, writes, deletes, p)
  {
    hide UserDict, OnlyInserted, SmallPair, LegalRun, Run, OneLength, Overlay, ValueOf;
    forall ws, ds | Lists(ws, writes) && Lists(ds, deletes) ensures LegalRun(o, InsertOps(ws, p) + DeleteOps(ds)) {
      AfterInserts(o, ws, writes, p, n);
      var r := Run(o, InsertOps(ws, p));
      BoundIsOverlay(UserDict(o), p, writes, deletes);
      assert stays in UserDict(r) && stays !in ds;
      InsertedSome(r, stays);
      assert forall i :: 0 <= i < |ds| ==> ds[i] in deletes;
      DeletesAreLegal(r, ds, n, stays);
      RunConcat(o, InsertOps(ws, p), DeleteOps(ds));
    }
  }

  lemma AfterInserts(o: Option<Tree>, ws: seq<bytes>, writes: set<bytes>, p: map<bytes, bytes>, n: nat)
    requires OnlyInserted(o) && OneLength(o, n) && Lists(ws, writes)
    requires forall k :: k in writes ==> k != [] && |k| == n && SmallPair(Pair(k, ValueOf(p, k)))
    ensures var r := Run(o, InsertOps(ws, p));
      && LegalRun(o, InsertOps(ws, p)) && OnlyInserted(r) && OneLength(r, n)
      && UserDict(r) == UserDict(o) + Bound(writes, p)
  {
    hide UserDict, OnlyInserted, SmallPair, LegalRun, Run, Good, ValueOf;
    var a := InsertOps(ws, p);
    assert Inserts(a) by { assert forall i :: 0 <= i < |ws| ==> ws[i] in writes; }
    GoodInserted(o);
    InsertsAreLegal(o, a);
    RunIsMapRun(o, a);
    InsertsBind(UserDict(o), ws, p);
    assert Elems(ws) == writes;
  }

  lemma GoodInserted(o: Option<Tree>)
    requires OnlyInserted(o)
    ensures Good(o)
  {
  }

  lemma InsertedSome(o: Option<Tree>, k: bytes)
    requires OnlyInserted(o) && k in UserDict(o)
    ensures o.Some? && WF(o.value)
  {
  }

  /**
   * The pending tree's keys are the writeSet; a deleted key is in no writeSet, and a written key
   * that left the writeSet has been deleted.
   */
  predicate Agree(p: map<bytes, bytes>, writeSet: set<bytes>, delSet: set<bytes>, writes: set<bytes>) {
    && p.Keys == writeSet && writeSet !! delSet && writeSet <= writes <= writeSet + delSet
    && [] !in writes && [] !in delSet
  }

  /** What Insert asks for. */
  lemma InsertReady(o: Option<Tree>, k: bytes, v: bytes)
    requires Good(o) && Legal(o, Insert(k, v))
    ensures k != [] && SmallPair(Pair(k, v))
    ensures o.Some? ==> WF(o.value) && (LeafRootSplits(o.value, k, v) ==> HasSentinel(o.value))
  {
  }

  lemma NothingYet(s: map<bytes, bytes>)
    ensures Overlay(s, map[], {}) == s && Agree(map[], {}, {}, {})
  {
  }

  lemma SetAgrees(s: map<bytes, bytes>, p: map<bytes, bytes>, k: bytes, v: bytes, writeSet: set<bytes>, delSet: set<bytes>, writes: set<bytes>)
    requires Agree(p, writeSet, delSet, writes) && k != []
    ensures Agree(p[k := v], writeSet + {k}, delSet - {k}, writes + {k})
    ensures Overlay(s, p[k := v], delSet - {k}) == Overlay(s, p, delSet)[k := v]
  {
  }

  lemma DelAgrees(s: map<bytes, bytes>, p: map<bytes, bytes>, k: bytes, writeSet: set<bytes>, delSet: set<bytes>, writes: set<bytes>)
    requires Agree(p, writeSet, delSet, writes) && k != []
    ensures Agree(p - {k}, writeSet - {k}, delSet + {k}, writes)
    ensures k !in writeSet ==> p - {k} == p && writeSet - {k} == writeSet
    ensures k in delSet ==> delSet + {k} == delSet
    ensures k in writeSet <==> k in p
    ensures Overlay(s, p - {k}, delSet + {k}) == Overlay(s, p, delSet) - {k}
    ensures k in Overlay(s, p, delSet) <==> (k in s || k in writeSet) && k !in delSet
  {
  }

  /** What an overlay binds a key to: what the pending tree has, or else what the snapshot has. */
  lemma OverlayFinds(s: Option<Tree>, p: Option<Tree>, del: set<bytes>, k: bytes)
    ensures k in del ==> Find(Overlay(UserDict(s), UserDict(p), del), k) == None
    ensures k !in del && k != [] ==>
      var r := if p.Some? then Find(Dict(Flat(p.value)), k) else None;
      Find(Overlay(UserDict(s), UserDict(p), del), k)
        == if r.Some? then r else if s.Some? then Find(Dict(Flat(s.value)), k) else None
  {
    hide Dict, Flat;
  }

  lemma Searchable(o: Option<Tree>)
    requires Good(o) && !Emptied(o)
    ensures o.Some? ==> WF(o.value)
  {
  }

  class KVTX {
    var snapshot: BTree
    var pending: BTree
    var delSet: set<bytes>
    var writeSet: set<bytes>
    var readSet: set<bytes>
    var writes: set<bytes>
    var deletes: set<bytes>

    ghost predicate Valid()
      reads this, snapshot, pending
      reads set p | p in snapshot.pages :: snapshot.pages[p].buf
      reads set p | p in pending.pages :: pending.pages[p].buf
    {
      && snapshot.Valid() && Good(snapshot.tree) && !Emptied(snapshot.tree)
      && pending.Valid() && Good(pending.tree) && snapshot != pending
      && deletes == delSet && Agree(UserDict(pending.tree), writeSet, delSet, writes)
    }

    ghost function Contents(): map<bytes, bytes>
      reads this, snapshot, pending
    {
      Overlay(UserDict(snapshot.tree), UserDict(pending.tree), delSet)
    }

    constructor ()
      ensures fresh(snapshot) && fresh(pending)
    {
      delSet, writeSet, readSet, writes, deletes := {}, {}, {}, {}, {};
      snapshot := new BTree();
      pending := new BTree();
    }

    /** Get: what the map binds the key to. */
    method Get(key: bytes) returns (r: Option<bytes>)
      requires Valid() && !Emptied(pending.tree)
      modifies this`readSet
      ensures Valid() && Contents() == old(Contents())
      ensures readSet == if key in delSet then old(readSet) else old(readSet) + {key}
      ensures key != [] ==> r == Find(Contents(), key)
    {
      hide Dict, Flat, WellFormed, KidRep, UserDict, Overlay, Agree, Emptied, Find, Good;
      OverlayFinds(snapshot.tree, pending.tree, delSet, key);
      if key in delSet { return None; }
      MarkRead(key);
      r := Search(key);
    }

    /** In the pending tree, and then in the snapshot. */
    method Search(key: bytes) returns (r: Option<bytes>)
      requires Valid() && !Emptied(pending.tree) && key !in delSet
      ensures key != [] ==> r == Find(Contents(), key)
    {
      hide Dict, Flat, WellFormed, KidRep, UserDict, Overlay, Agree, Emptied, Find, Good;
      OverlayFinds(snapshot.tree, pending.tree, delSet, key);
      Searchable(pending.tree);
      Searchable(snapshot.tree);
      r := Lookup(pending, key);
      if r.Some? { return r; }
      r := Lookup(snapshot, key);
    }

    method MarkRead(key: bytes)
      requires Valid()
      modifies this`readSet
      ensures Valid() && Contents() == old(Contents()) && readSet == old(readSet) + {key}
    {
      hide Dict, Flat, WellFormed, KidRep, UserDict, Overlay, Agree, Emptied, Good;
      readSet := readSet + {key};
    }

    static method Lookup(tree: BTree, key: bytes) returns (r: Option<bytes>)
      requires tree.Valid() && (tree.tree.Some? ==> WF(tree.tree.value))
      ensures r == if tree.tree.Some? then Find(Dict(Flat(tree.tree.value)), key) else None
    {
      hide Dict, Flat, WellFormed, KidRep, WF, Find;
      r := tree.GetValue(key);
    }

    /** Set: the map with the key bound to the value. */
    method Set(key: bytes, val: bytes)
      requires Valid() && Legal(pending.tree, Insert(key, val)) && Room(pending.nPages, HeightOf(pending.tree), 0)
      modifies this, pending
      ensures Valid() && snapshot == old(snapshot) && pending == old(pending)
      ensures Contents() == old(Contents())[key := val] && readSet == old(readSet) && delSet == old(delSet) - {key}
    {
      hide UserDict, Dict, Flat, WellFormed, KidRep, LeafRootSplits, InsertRoot, HasSentinel, SmallPair, Agree, Overlay, Extends, Kept, Legal, Good, Emptied;
      InsertReady(pending.tree, key, val);
      SetAgrees(UserDict(snapshot.tree), UserDict(pending.tree), key, val, writeSet, delSet, writes);
      Stepped(pending.tree, Insert(key, val));
      MarkWritten(key);
      PendingInsert(key, val);
    }

    method MarkWritten(key: bytes)
      requires snapshot.Valid() && pending.Valid() && deletes == delSet
      modifies this`delSet, this`deletes, this`writeSet, this`writes
      ensures snapshot.Valid() && pending.Valid()
      ensures delSet == deletes == old(delSet) - {key} && writeSet == old(writeSet) + {key} && writes == old(writes) + {key}
    {
      hide KidRep;
      if key in delSet {
        delSet := delSet - {key};
        deletes := deletes - {key};
      }
      writeSet := writeSet + {key};
      writes := writes + {key};
    }

    /** The pending tree changes, and the snapshot does not. */
    method PendingInsert(key: bytes, val: bytes)
      requires snapshot.Valid() && pending.Valid() && snapshot != pending && key != [] && SmallPair(Pair(key, val))
      requires pending.tree.Some? ==> WF(pending.tree.value) && (LeafRootSplits(pending.tree.value, key, val) ==> HasSentinel(pending.tree.value))
      requires Room(pending.nPages, HeightOf(pending.tree), 0)
      modifies pending
      ensures snapshot.Valid() && pending.Valid() && snapshot.tree == old(snapshot.tree)
      ensures pending.tree == Some(InsertRoot(old(pending.tree), key, val))
    {
      hide WellFormed, KidRep, LeafRootSplits, InsertRoot, HasSentinel, SmallPair, Extends, Kept, WF;
      pending.Insert(key, val);
    }

    method PendingDelete(key: bytes) returns (found: bool)
      requires snapshot.Valid() && pending.Valid() && snapshot != pending
      requires Good(pending.tree) && Legal(pending.tree, Delete(key)) && Room(pending.nPages, HeightOf(pending.tree), 0)
      modifies pending
      ensures snapshot.Valid() && pending.Valid() && snapshot.tree == old(snapshot.tree)
      ensures old(pending.tree).Some? && (found <==> DeleteRoot(old(pending.tree).value, key).Some?)
      ensures pending.tree == Step(old(pending.tree), Delete(key))
    {
      hide UserDict, Dict, Flat, WellFormed, KidRep, DeleteRoot, RoomToDelete, Extends, Kept, Emptied;
      found := pending.Delete(key);
    }

    /** Seek: an iterator over the snapshot; what the transaction has written is not in it. */
    method Seek(key: bytes) returns (it: Option<BIter>)
      requires Valid()
      ensures it.None? <==> snapshot.tree.None?
      ensures it.Some? ==> fresh(it.value) && it.value.tree == snapshot && it.value.t == snapshot.tree.value
      ensures it.Some? ==> it.value.valid && it.value.InStep() && SeekRank(Flat(snapshot.tree.value), key, it.value.At())
    {
      hide WellFormed, KidRep, Agree, Dict, Flat, SeekRank, Levels;
      it := BIter.Seek(snapshot, key);
    }

    /**
     * Del: the map without the key. The answer is no only for a key that this transaction has deleted
     * and not written since; so a key that neither the snapshot nor the pending tree holds is a yes.
     */
    method Del(key: bytes) returns (found: bool)
      requires Valid() && key != []
      requires key in writeSet ==> Legal(pending.tree, Delete(key)) && Room(pending.nPages, HeightOf(pending.tree), 0)
      modifies this, pending
      ensures Valid() && snapshot == old(snapshot) && pending == old(pending)
      ensures Contents() == old(Contents()) - {key} && readSet == old(readSet) && delSet == old(delSet) + {key}
      ensures found <==> key in old(Contents()) || (key !in UserDict(snapshot.tree) && key !in old(delSet))
    {
      hide UserDict, Dict, Flat, WellFormed, KidRep, DeleteRoot, RoomToDelete, Agree, Overlay, Extends, Kept, Good, Step, Emptied;
      DelAgrees(UserDict(snapshot.tree), UserDict(pending.tree), key, writeSet, delSet, writes);
      if key in delSet { return false; }
      if key in writeSet { Stepped(pending.tree, Delete(key)); }
      var written := MarkDeleted(key);
      if written {
        found := PendingDelete(key);
        return found;
      }
      return true;
    }

    method MarkDeleted(key: bytes) returns (written: bool)
      requires snapshot.Valid() && pending.Valid() && deletes == delSet
      modifies this`delSet, this`deletes, this`writeSet
      ensures snapshot.Valid() && pending.Valid()
      ensures delSet == deletes == old(delSet) + {key} && (written <==> key in old(writeSet)) && writeSet == old(writeSet) - {key}
    {
      hide KidRep;
      written := key in writeSet;
      delSet, deletes, writeSet := delSet + {key}, deletes + {key}, writeSet - {key};
    }
  }

  class KV {
    var tree: BTree

    constructor ()
      ensures fresh(tree) && tree.Valid() && UserDict(tree.tree) == map[]
    {
      tree := new BTree();
    }

    /** Begin: a transaction starts as the map of the tree. */
    method Begin(tx: KVTX)
      requires tree.Valid() && Good(tree.tree) && !Emptied(tree.tree)
      modifies tx
      ensures tx.Valid() && fresh(tx.snapshot) && fresh(tx.pending)
      ensures tx.snapshot.tree == tree.tree && tx.Contents() == UserDict(tree.tree) && tx.delSet == {}
    {
      hide KidRep, Dict, WellFormed, Flat, Agree, Overlay;
      NothingYet(UserDict(tree.tree));
      tx.snapshot := new BTree.Snapshot(tree);
      tx.delSet, tx.writeSet, tx.readSet, tx.writes, tx.deletes := {}, {}, {}, {}, {};
      tx.pending := new BTree();
    }

    /** A written key goes into the tree, with its pending value or nil. */
    method Write(tx: KVTX, key: bytes)
      requires tree.Valid() && Good(tree.tree) && tx.Valid() && tree !in {tx.snapshot, tx.pending}
      requires !Emptied(tx.pending.tree) && Legal(tree.tree, Insert(key, ValueOf(UserDict(tx.pending.tree), key)))
      requires tree.nPages + 3 * HeightOf(tree.tree) + 5 < TWO_64
      modifies tree
      ensures tree.Valid() && tx.Valid()
      ensures tree.tree == Step(old(tree.tree), Insert(key, ValueOf(UserDict(tx.pending.tree), key)))
      ensures tree.nPages < old(tree.nPages + 3 * HeightOf(tree.tree) + 5)
    {
      hide Dict, Flat, WellFormed, KidRep, LeafRootSplits, InsertRoot, HasSentinel, SmallPair, Extends, Kept, Agree;
      var r := tx.pending.GetValue(key);
      var val := if r.Some? then r.value else [];
      tree.Insert(key, val);
    }

    /** Commit's first loop, over a Go map: the keys come in any order. */
    method ApplyWrites(tx: KVTX) returns (ghost ws: seq<bytes>)
      requires tree.Valid() && Good(tree.tree) && tx.Valid() && tree !in {tx.snapshot, tx.pending}
      requires tx.writes != {} ==> !Emptied(tx.pending.tree)
      requires Committable(tree.tree, tx.writes, tx.deletes, UserDict(tx.pending.tree))
      requires Room(tree.nPages, HeightOf(tree.tree), |tx.writes| + |tx.deletes|)
      modifies tree
      ensures tree.Valid() && Lists(ws, tx.writes)
      ensures Reached(old(tree.tree), InsertOps(ws, UserDict(tx.pending.tree)), tree.tree)
      ensures Room(tree.nPages, HeightOf(tree.tree), |tx.deletes|)
    {
      hide Dict, Flat, WellFormed, KidRep, Legal, Committable, Lists, Reached, Agree, Run, Step, UserDict, Good, HeightOf, ValueOf;
      ghost var o, p := tree.tree, UserDict(tx.pending.tree);
      NothingDone(o);
      ws := [];
      assert InsertOps(ws, p) == [];
      var todo := tx.writes;
      assert tx.writes - todo == {};
      while todo != {}
        invariant todo <= tx.writes && Lists(ws, tx.writes - todo)
        invariant tree.Valid() && tx.Valid() && Good(tree.tree)
        invariant Reached(o, InsertOps(ws, p), tree.tree)
        invariant Room(tree.nPages, HeightOf(tree.tree), |todo| + |tx.deletes|)
      {
        var key :| key in todo;
        NextInsert(o, tx.writes, tx.deletes, p, ws, tx.writes - todo, key, tree.tree);
        assert tx.writes - todo + {key} == tx.writes - (todo - {key});
        todo := todo - {key};
        ghost var n, h := tree.nPages, HeightOf(tree.tree);
        Write(tx, key);
        LessRoom(n + 3 * h + 5, h + 1, |todo| + |tx.deletes|, tree.nPages, HeightOf(tree.tree));
        ws := ws + [key];
      }
      assert tx.writes - todo == tx.writes;
    }

    /** Commit's second loop. */
    method ApplyDeletes(tx: KVTX, ghost o: Option<Tree>, ghost p: map<bytes, bytes>, ghost ws: seq<bytes>) returns (ghost ds: seq<bytes>)
      requires tree.Valid() && Reached(o, InsertOps(ws, p), tree.tree)
      requires Committable(o, tx.writes, tx.deletes, p) && Lists(ws, tx.writes)
      requires Room(tree.nPages, HeightOf(tree.tree), |tx.deletes|)
      modifies tree
      ensures tree.Valid() && Lists(ds, tx.deletes)
      ensures Reached(o, InsertOps(ws, p) + DeleteOps(ds), tree.tree)
    {
      hide Dict, Flat, WF, KidRep, RoomToDelete, DeleteRoot, Committable, Lists, Reached, Run, UserDict, Good, Extends, Kept;
      NothingDone(None);
      ds := [];
      assert InsertOps(ws, p) + DeleteOps(ds) == InsertOps(ws, p);
      var todo := tx.deletes;
      assert tx.deletes - todo == {};
      while todo != {}
        invariant todo <= tx.deletes && Lists(ds, tx.deletes - todo)
        invariant tree.Valid()
        invariant Reached(o, InsertOps(ws, p) + DeleteOps(ds), tree.tree)
        invariant Room(tree.nPages, HeightOf(tree.tree), |todo|)
      {
        var key :| key in todo;
        NextDelete(o, tx.writes, tx.deletes, p, ws, ds, tx.deletes - todo, key, tree.tree);
        assert tx.deletes - todo + {key} == tx.deletes - (todo - {key});
        todo := todo - {key};
        ghost var n, h := tree.nPages, HeightOf(tree.tree);
        LegalRoot(o, InsertOps(ws, p) + DeleteOps(ds), tree.tree, key);
        var found := tree.Delete(key);
        LessRoom(n + 3 * h + 5, h + 1, |todo|, tree.nPages, HeightOf(tree.tree));
        ds := ds + [key];
      }
      assert tx.deletes - todo == tx.deletes;
    }

    /**
     * Commit, with no other commit since Begin: the tree's map is the transaction's, whatever the
     * order in which the two Go maps are walked. When the file cannot be written, it is the old one.
     */
    method Commit(tx: KVTX, written: bool) returns (ok: bool)
      requires tree.Valid() && tx.Valid() && tree !in {tx.snapshot, tx.pending} && tree.tree == tx.snapshot.tree
      requires tx.writes != {} ==> !Emptied(tx.pending.tree)
      requires Committable(tree.tree, tx.writes, tx.deletes, UserDict(tx.pending.tree))
      requires Room(tree.nPages, HeightOf(tree.tree), |tx.writes| + |tx.deletes|)
      modifies tree
      ensures tree.Valid() && Good(tree.tree) && ok == written
      ensures UserDict(tree.tree) == if ok then old(tx.Contents()) else old(UserDict(tree.tree))
    {
      hide Dict, Flat, WF, KidRep, Committable, Lists, Overlay;
      ghost var p, o := UserDict(tx.pending.tree), tree.tree;
      ghost var ws := ApplyWrites(tx);
      ghost var ds := ApplyDeletes(tx, o, p, ws);
      CommitIsOverlay(UserDict(o), p, ws, ds, tx.writes, tx.deletes);
      if !written { Abort(tx); }
      ok := written;
    }

    /** Abort: back to the root and the pages of Begin. */
    method Abort(tx: KVTX)
      requires tx.snapshot.Valid() && tree != tx.snapshot
      modifies tree
      ensures tree.Valid() && tree.tree == tx.snapshot.tree
    {
      var s := tx.snapshot;
      tree.root, tree.pages, tree.nPages, tree.view, tree.tree := s.root, s.pages, s.nPages, s.view, s.tree;
    }
  }
}
