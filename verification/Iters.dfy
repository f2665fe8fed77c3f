/** BIter (storage/btree.go): a root-to-leaf path that steps through the sorted contents of a tree. */
module Iters {
  import opened Bytes
  import opened Pages
  import opened SortedRuns
  import opened Trees
  import opened Roots
  import opened Splits
  import opened Stores
  import opened BTrees
  import opened Positions

  /** b is the stored page p, and holds the node n. */
  ghost predicate LevelOk(pages: map<nat, BNode>, v: View, b: BNode, p: nat, n: Tree) {
    p in pages && pages[p] == b && KidRep(v, p, n)
  }

  /** The first m levels of the path hold the nodes that pos leads to. */
  ghost predicate Levels(pages: map<nat, BNode>, v: View, t: Tree, pos: seq<nat>, path: seq<BNode>, ptrs: seq<nat>, m: nat) {
    && m <= |pos| == |path| == |ptrs|
    && (m > 0 ==> OnPath(t, pos[..m]))
    && forall l :: 0 <= l < m ==> Below(t, pos[..l]) && LevelOk(pages, v, path[l], ptrs[l], NodeAt(t, pos[..l]))
  }

  lemma LevelsLess(pages: map<nat, BNode>, v: View, t: Tree, pos: seq<nat>, path: seq<BNode>, ptrs: seq<nat>, m: nat, k: nat)
    requires Levels(pages, v, t, pos, path, ptrs, m) && k <= m
    ensures Levels(pages, v, t, pos, path, ptrs, k)
  {
    hide LevelOk;
    if 0 < k < m {
      PathPrefix(t, pos[..m], k);
      assert pos[..m][..k] == pos[..k];
    }
  }

  /** Another slot in the last node. */
  lemma LevelStep(pages: map<nat, BNode>, v: View, t: Tree, pos: seq<nat>, path: seq<BNode>, ptrs: seq<nat>, m: nat, x: nat)
    requires Levels(pages, v, t, pos, path, ptrs, m) && m > 0 && x < Width(NodeAt(t, pos[..m - 1]))
    ensures Levels(pages, v, t, pos[m - 1 := x], path, ptrs, m)
  {
    hide LevelOk;
    var q := pos[m - 1 := x];
    PathExtended(t, pos[..m - 1], x);
    assert q[..m] == pos[..m - 1] + [x];
    forall l | 0 <= l < m ensures q[..l] == pos[..l] {}
  }

  /** One level further down. */
  lemma LevelDown(pages: map<nat, BNode>, v: View, t: Tree, pos: seq<nat>, path: seq<BNode>, ptrs: seq<nat>, m: nat, x: nat, b: BNode, p: nat)
    requires Levels(pages, v, t, pos, path, ptrs, m) && 0 < m < |pos| && Below(t, pos[..m])
    requires LevelOk(pages, v, b, p, NodeAt(t, pos[..m])) && x < Width(NodeAt(t, pos[..m]))
    ensures Levels(pages, v, t, pos[m := x], path[m := b], ptrs[m := p], m + 1)
  {
    hide LevelOk;
    var q := pos[m := x];
    PathExtended(t, pos[..m], x);
    assert q[..m + 1] == pos[..m] + [x];
    forall l | 0 <= l <= m ensures q[..l] == pos[..l] {}
  }

  /** All levels at their last slot: there is no next one. */
  lemma {:induction false} AtLast(t: Tree, pos: seq<nat>)
    requires OnPath(t, pos)
    ensures NextPos(t, pos).None? <==> forall l :: 0 <= l < |pos| ==> Below(t, pos[..l]) && pos[l] == Width(NodeAt(t, pos[..l])) - 1
    decreases |pos|
  {
    var n := |pos| - 1;
    assert pos == pos[..n] + [pos[n]];
    NextUpwards(t, pos[..n], pos[n]);
    PathPrefix(t, pos, n);
    if n > 0 {
      AtLast(t, pos[..n]);
      forall l | 0 <= l < n ensures pos[..n][..l] == pos[..l] {}
    }
  }

  lemma {:induction false} AtFirst(t: Tree, h: nat, pos: seq<nat>)
    requires Shape(t, h) && OnPath(t, pos) && |pos| <= h + 1
    ensures PrevPos(t, pos).None? <==> forall l :: 0 <= l < |pos| ==> pos[l] == 0
    decreases |pos|
  {
    var n := |pos| - 1;
    assert pos == pos[..n] + [pos[n]];
    PrevUpwards(t, h, pos[..n], pos[n]);
    PathPrefix(t, pos, n);
    if n > 0 { AtFirst(t, h, pos[..n]); }
  }

  lemma LevelsKept(p: map<nat, BNode>, q: map<nat, BNode>, v: View, w: View, t: Tree, pos: seq<nat>, path: seq<BNode>, ptrs: seq<nat>, m: nat)
    requires Levels(p, v, t, pos, path, ptrs, m) && Kept(p, q) && Extends(v, w)
    ensures Levels(q, w, t, pos, path, ptrs, m)
  {
    hide KidRep;
    forall l | 0 <= l < m ensures LevelOk(q, w, path[l], ptrs[l], NodeAt(t, pos[..l])) {
      assert LevelOk(p, v, path[l], ptrs[l], NodeAt(t, pos[..l]));
      RepKept(v, w, ptrs[l], NodeAt(t, pos[..l]));
    }
  }

  lemma PathOf(pages: map<nat, BNode>, v: View, t: Tree, pos: seq<nat>, path: seq<BNode>, ptrs: seq<nat>, m: nat, k: nat)
    requires Levels(pages, v, t, pos, path, ptrs, m) && 0 < k <= m
    ensures OnPath(t, pos[..k])
  {
    LevelsLess(pages, v, t, pos, path, ptrs, m, k);
  }

  lemma AtRoot(t: Tree)
    ensures Below(t, []) && NodeAt(t, []) == t
  {
  }

  lemma NoLevels(pages: map<nat, BNode>, v: View, t: Tree)
    ensures Levels(pages, v, t, [], [], [], 0)
  {
  }

  lemma LevelPush(pages: map<nat, BNode>, v: View, t: Tree, pos: seq<nat>, path: seq<BNode>, ptrs: seq<nat>, x: nat, b: BNode, p: nat)
    requires Levels(pages, v, t, pos, path, ptrs, |pos|) && Below(t, pos)
    requires LevelOk(pages, v, b, p, NodeAt(t, pos)) && x < Width(NodeAt(t, pos))
    ensures Levels(pages, v, t, pos + [x], path + [b], ptrs + [p], |pos| + 1)
  {
    hide LevelOk;
    var q := pos + [x];
    PathExtended(t, pos, x);
    assert q[..|pos| + 1] == q;
    forall l | 0 <= l <= |pos| ensures q[..l] == pos[..l] {}
    assert pos[..|pos|] == pos;
  }

  lemma {:induction false} BelowExtended(t: Tree, pos: seq<nat>, i: nat)
    requires Below(t, pos) && NodeAt(t, pos).Inner? && i < |NodeAt(t, pos).kids|
    ensures Below(t, pos + [i]) && NodeAt(t, pos + [i]) == NodeAt(t, pos).kids[i]
    decreases |pos|
  {
    if pos == [] {
      assert (pos + [i])[1..] == [];
    } else {
      assert (pos + [i])[1..] == pos[1..] + [i];
      BelowExtended(t.kids[pos[0]], pos[1..], i);
    }
  }

  lemma SeekDown(pos: seq<nat>, n: Tree, d: nat, k: bytes, i: nat, r: seq<nat>)
    requires Shape(n, d) && i == Lookup(Slots(n), k) < Width(n) && r == pos + SeekPos(n, d, k)
    ensures d == 0 ==> pos + [i] == r
    ensures d > 0 ==> Shape(n.kids[i], d - 1) && (pos + [i]) + SeekPos(n.kids[i], d - 1, k) == r
  {
    hide Lookup, Slots;
    if d > 0 { assert (pos + [i]) + SeekPos(n.kids[i], d - 1, k) == pos + ([i] + SeekPos(n.kids[i], d - 1, k)); }
  }

  lemma {:induction false} PairInLeaf(t: Tree, h: nat, pos: seq<nat>)
    requires Shape(t, h) && OnPath(t, pos) && |pos| == h + 1
    ensures Below(t, pos[..h]) && NodeAt(t, pos[..h]).Leaf? && pos[h] < |NodeAt(t, pos[..h]).kvs|
    ensures PairAt(t, h, pos) == NodeAt(t, pos[..h]).kvs[pos[h]]
    decreases h
  {
    if h > 0 {
      PairInLeaf(t.kids[pos[0]], h - 1, pos[1..]);
      assert pos[..h][1..] == pos[1..][..h - 1];
    }
  }

  lemma KindOfHeight(t: Tree, h: nat)
    requires WellFormed(t, h)
    ensures t.Leaf? <==> h == 0
  {
  }

  lemma ZeroAt(ptrs: seq<nat>, i: nat)
    requires Zeros(ptrs) && i < |ptrs|
    ensures ptrs[i] == 0
  {
  }

  class BIter {
    const tree: BTree
    var path: seq<BNode>
    var pos: seq<nat>
    var valid: bool
    ghost const t: Tree
    ghost const h: nat
    ghost var ptrs: seq<nat>

    /** The first m levels are in step; the tree's pages may have grown since. */
    ghost predicate Sync(m: nat)
      reads this, tree, set p | p in tree.pages :: tree.pages[p].buf
    {
      && tree.Stored() && Shape(t, h) && |pos| == |path| == |ptrs| == h + 1
      && Levels(tree.pages, tree.view, t, pos, path, ptrs, m)
    }

    ghost predicate InStep()
      reads this, tree, set p | p in tree.pages :: tree.pages[p].buf
    {
      Sync(h + 1)
    }

    /** How many pairs stand before the current one. */
    ghost function At(): (r: nat)
      requires InStep()
      reads this, tree, set p | p in tree.pages :: tree.pages[p].buf
      ensures r < |Flat(t)|
    {
      assert pos[..h + 1] == pos;
      PairOfRank(t, h, pos);
      Rank(t, pos)
    }

    /** A level's page and slot. */
    lemma LevelPage(l: nat, m: nat)
      requires Sync(m) && l < m
      ensures Below(t, pos[..l]) && pos[l] < Width(NodeAt(t, pos[..l]))
      ensures path[l].len == PAGE_SIZE <= path[l].buf.Length
      ensures NodeRep(tree.view, path[l].buf[..PAGE_SIZE], NodeAt(t, pos[..l]))
    {
      hide NodeRep;
      assert LevelOk(tree.pages, tree.view, path[l], ptrs[l], NodeAt(t, pos[..l]));
      PathPrefix(t, pos[..m], l);
      assert pos[..m][..l] == pos[..l];
    }

    /** SeekLE on a tree with a root: down to the greatest key that is at most key. */
    constructor SeekLE(tree: BTree, key: bytes)
      requires tree.Valid() && tree.root != 0 && WF(tree.tree.value)
      ensures this.tree == tree && t == tree.tree.value && h == Height(t)
      ensures valid && InStep() && pos == SeekPos(t, h, key)
      ensures SeekRank(Flat(t), key, At())
    {
      hide Levels, NodeRep, SeekPos, Flat, Sorted, Small, Fits;
      var nodes, slots;
      ghost var ps;
      nodes, slots, ps := DescendAll(tree, key, tree.tree.value, Height(tree.tree.value));
      this.tree := tree;
      t := tree.tree.value;
      h := Height(tree.tree.value);
      path, pos, ptrs, valid := nodes, slots, ps, true;
      new;
      SeekFinds(t, h, key);
      assert pos[..h + 1] == pos;
    }

    /** SeekLE; None is the iterator with an empty path, which is never valid and has no current pair. */
    static method Seek(tree: BTree, key: bytes) returns (it: Option<BIter>)
      requires tree.Valid() && (tree.root != 0 ==> WF(tree.tree.value))
      ensures it.None? <==> tree.root == 0
      ensures it.Some? ==> fresh(it.value) && it.value.tree == tree && it.value.t == tree.tree.value
      ensures it.Some? ==> it.value.valid && it.value.InStep() && SeekRank(Flat(tree.tree.value), key, it.value.At())
    {
      hide WellFormed;
      if tree.root == 0 { return None; }
      var i := new BIter.SeekLE(tree, key);
      it := Some(i);
    }

    /** Inserts and deletes only add pages: an iterator goes on walking the tree it was opened on. */
    twostate lemma Outlives()
      requires old(InStep()) && tree.Stored() && unchanged(this)
      requires Kept(old(tree.pages), tree.pages) && Extends(old(tree.view), tree.view)
      ensures InStep() && At() == old(At())
    {
      hide KidRep;
      LevelsKept(old(tree.pages), tree.pages, old(tree.view), tree.view, t, pos, path, ptrs, h + 1);
    }

    /** SeekLE's loop. */
    static method DescendAll(tree: BTree, key: bytes, ghost t: Tree, ghost h: nat)
      returns (path: seq<BNode>, pos: seq<nat>, ghost ptrs: seq<nat>)
      requires tree.Stored() && tree.root != 0 && KidRep(tree.view, tree.root, t) && WellFormed(t, h)
      ensures pos == SeekPos(t, h, key) && |path| == |ptrs| == h + 1
      ensures Levels(tree.pages, tree.view, t, pos, path, ptrs, h + 1)
    {
      hide Levels, NodeRep, SeekPos, Lookup, Slots, Flat, Sorted, Small, Fits, NodeAt, Below;
      ghost var r := SeekPos(t, h, key);
      path, pos, ptrs := [], [], [];
      var ptr := tree.root;
      ghost var n: Tree, d: nat := t, h;
      AtRoot(t);
      assert pos + r == r;
      NoLevels(tree.pages, tree.view, t);
      while ptr != 0
        invariant |pos| == |path| == |ptrs|
        invariant Levels(tree.pages, tree.view, t, pos, path, ptrs, |pos|)
        invariant ptr != 0 ==> d + |pos| == h && Below(t, pos) && n == NodeAt(t, pos)
        invariant ptr != 0 ==> KidRep(tree.view, ptr, n) && WellFormed(n, d) && pos + SeekPos(n, d, key) == r
        invariant ptr == 0 ==> pos == r
        decreases h + 1 - |pos|
      {
        tree.PageOf(ptr, n);
        var node := tree.pages[ptr];
        var idx, next := Descend(tree, node, key, n, d);
        LevelPush(tree.pages, tree.view, t, pos, path, ptrs, idx, node, ptr);
        SeekDown(pos, n, d, key, idx, r);
        if d > 0 {
          BelowExtended(t, pos, idx);
          n, d := n.kids[idx], d - 1;
        }
        path, pos, ptrs := path + [node], pos + [idx], ptrs + [ptr];
        ptr := next;
      }
    }

    /** One turn of SeekLE's loop: the slot found, and the pointer in it. */
    static method Descend(tree: BTree, node: BNode, key: bytes, ghost n: Tree, ghost d: nat) returns (idx: nat, next: nat)
      requires tree.Stored() && node.len == PAGE_SIZE <= node.buf.Length && NodeRep(tree.view, node.buf[..PAGE_SIZE], n)
      requires WellFormed(n, d)
      ensures idx == Lookup(Slots(n), key) < Width(n)
      ensures d == 0 ==> next == 0
      ensures d > 0 ==> n.Inner? && KidRep(tree.view, next, n.kids[idx]) && WellFormed(n.kids[idx], d - 1)
    {
      hide NodeRep, WellFormed, Lookup, PageBytes, KidRep, WithPtrs, PageIs, Zeros, LeafSlots, KidSlots;
      var s := node.buf[..PAGE_SIZE];
      ghost var ptrs := NodeOf(tree.view, s, n);
      SearchReady(n, d, ptrs, key);
      PageFacts(s, KindOf(n), Es(n, ptrs));
      PageStorable(s, KindOf(n), Es(n, ptrs));
      idx := NodeLookupLE(s, key, KindOf(n), Es(n, ptrs));
      ReadBack(s, |ptrs|, Es(n, ptrs), idx);
      PtrAt(Slots(n), ptrs, idx);
      KindOfHeight(n, d);
      next := GetPtr(s, idx);
      if n.Leaf? {
        ZeroAt(ptrs, idx);
      } else {
        ReadKid(tree.view, s, n, ptrs, idx);
        InnerHeight(n, d);
        ChildWellFormed(n, d, key);
      }
    }

    /** The node below a level's current slot. */
    method NodeBelow(level: nat) returns (b: BNode, ghost p: nat)
      requires Sync(level + 1) && level < h
      ensures Below(t, pos[..level + 1]) && LevelOk(tree.pages, tree.view, b, p, NodeAt(t, pos[..level + 1]))
      ensures b.len == PAGE_SIZE <= b.buf.Length && NodeRep(tree.view, b.buf[..PAGE_SIZE], NodeAt(t, pos[..level + 1]))
    {
      hide NodeRep, PageIs, WithPtrs, KidRep;
      LevelPage(level, level + 1);
      ghost var n := NodeAt(t, pos[..level]);
      BelowNext(t, h, pos[..level + 1]);
      assert pos[..level + 1][..level] == pos[..level];
      var s := path[level].buf[..PAGE_SIZE];
      ghost var ps := NodeOf(tree.view, s, n);
      ReadKid(tree.view, s, n, ps, pos[level]);
      var ptr := GetPtr(s, pos[level]);
      tree.PageOf(ptr, n.kids[pos[level]]);
      b := tree.pages[ptr];
      p := ptr;
    }

    /** Another slot in the node at a level. */
    method StepAt(level: nat, x: nat)
      requires Sync(level + 1) && level <= h && Below(t, pos[..level]) && x < Width(NodeAt(t, pos[..level]))
      modifies this`pos
      ensures Sync(level + 1) && pos == old(pos)[level := x]
    {
      LevelStep(tree.pages, tree.view, t, pos, path, ptrs, level + 1, x);
      pos := pos[level := x];
    }

    /** The node below a level's current slot, at its first slot or its last. */
    method Enter(level: nat, last: bool)
      requires Sync(level + 1) && level < h
      modifies this`path, this`pos, this`ptrs
      ensures Sync(level + 2) && pos[..level + 1] == old(pos)[..level + 1]
      ensures Below(t, pos[..level + 1]) && Width(NodeAt(t, pos[..level + 1])) > 0
      ensures pos[level + 1] == if last then Width(NodeAt(t, pos[..level + 1])) - 1 else 0
    {
      hide NodeRep, LevelOk, Levels;
      ghost var q := pos[..level + 1];
      var knode;
      ghost var p;
      knode, p := NodeBelow(level);
      ShapeBelow(t, h, q);
      ShapeWide(NodeAt(t, q), h - (level + 1));
      SizeRead(tree.view, knode.buf[..PAGE_SIZE], NodeAt(t, q));
      var x := if last then NKeys(knode.buf[..PAGE_SIZE]) - 1 else 0;
      LevelDown(tree.pages, tree.view, t, pos, path, ptrs, level + 1, x, knode, p);
      path := path[level + 1 := knode];
      pos := pos[level + 1 := x];
      ptrs := ptrs[level + 1 := p];
      assert pos[..level + 1] == q;
    }

    /** iterNext */
    method IterNext(level: nat)
      requires InStep() && level <= h
      modifies this`path, this`pos, this`valid, this`ptrs
      ensures Sync(if level < h then level + 2 else h + 1)
      ensures OnPath(t, old(pos)[..level + 1]) &&
        match NextPos(t, old(pos)[..level + 1])
        case None => !valid
        case Some(q) => valid == old(valid) && pos[..level + 1] == q && (level < h ==> pos[level + 1] == 0)
      decreases level
    {
      hide Levels, LevelOk, NodeRep, NextPos, Shape, Rank, OnPath, NodeAt, Below;
      ghost var p0 := pos;
      Prefixes(level);
      assert p0[..level + 1] == p0[..level] + [p0[level]];
      NextUpwards(t, p0[..level], p0[level]);
      var nkeys := SlotsAt(level);
      if pos[level] + 1 < nkeys {
        StepAt(level, pos[level] + 1);
        assert pos[..level + 1] == p0[..level] + [p0[level] + 1];
      } else if level > 0 {
        IterNext(level - 1);
        if NextPos(t, p0[..level]).Some? { assert pos[..level + 1] == pos[..level] + [0]; }
      } else {
        valid := false;
        return;
      }
      if level + 1 < |pos| { Enter(level, false); }
    }

    /** iterPrev; pos never holds -1, which it also asks for. */
    method IterPrev(level: nat)
      requires InStep() && level <= h
      modifies this`path, this`pos, this`valid, this`ptrs
      ensures Sync(if level < h then level + 2 else h + 1)
      ensures OnPath(t, old(pos)[..level + 1]) &&
        match PrevPos(t, old(pos)[..level + 1])
        case None => !valid
        case Some(q) =>
          valid == old(valid) && pos[..level + 1] == q && (level < h ==> Below(t, q) && pos[level + 1] == Width(NodeAt(t, q)) - 1)
      decreases level
    {
      hide Levels, LevelOk, NodeRep, PrevPos, Shape, Rank, OnPath, NodeAt, Below;
      ghost var p0 := pos;
      Prefixes(level);
      assert p0[..level + 1] == p0[..level] + [p0[level]];
      PrevUpwards(t, h, p0[..level], p0[level]);
      LevelPage(level, h + 1);
      if pos[level] > 0 {
        StepAt(level, pos[level] - 1);
        assert pos[..level + 1] == p0[..level] + [p0[level] - 1];
      } else if level > 0 {
        IterPrev(level - 1);
        if PrevPos(t, p0[..level]).Some? { assert pos[..level + 1] == pos[..level] + [pos[level]]; }
      } else {
        valid := false;
        return;
      }
      if level + 1 < |pos| { Enter(level, true); }
    }

    /** How many slots the node at a level has. */
    method SlotsAt(l: nat) returns (n: nat)
      requires InStep() && l <= h
      ensures Below(t, pos[..l]) && pos[l] < n == Width(NodeAt(t, pos[..l]))
    {
      hide LevelOk, NodeRep, Shape, NodeAt, Below;
      LevelPage(l, h + 1);
      SizeRead(tree.view, path[l].buf[..PAGE_SIZE], NodeAt(t, pos[..l]));
      n := NKeys(path[l].buf[..PAGE_SIZE]);
    }

    method LastNode() returns (b: bool)
      requires InStep()
      ensures b <==> At() == |Flat(t)| - 1
    {
      hide LevelOk, NodeRep, Shape, Rank, NodeAt, Below, Flat, NextPos;
      assert pos[..h + 1] == pos;
      NextIsSuccessor(t, h, pos);
      AtLast(t, pos);
      for p := 0 to |path|
        invariant forall l :: 0 <= l < p ==> Below(t, pos[..l]) && pos[l] == Width(NodeAt(t, pos[..l])) - 1
      {
        var nkeys := SlotsAt(p);
        if pos[p] != nkeys - 1 { return false; }
      }
      return true;
    }

    method StartNode() returns (b: bool)
      requires InStep()
      ensures b <==> At() == 0
    {
      hide LevelOk, NodeRep, Shape, Rank, Flat, PrevPos;
      assert pos[..h + 1] == pos;
      PrevIsPredecessor(t, h, pos);
      AtFirst(t, h, pos);
      for p := 0 to |path|
        invariant forall l :: 0 <= l < p ==> pos[l] == 0
      {
        if pos[p] != 0 { return false; }
      }
      return true;
    }

    /** iterNext on the whole path. */
    method ToNext()
      requires InStep()
      modifies this`path, this`pos, this`valid, this`ptrs
      ensures InStep()
      ensures old(At()) + 1 < |Flat(t)| ==> valid == old(valid) && At() == old(At()) + 1
      ensures old(At()) + 1 == |Flat(t)| ==> !valid
    {
      hide Levels, NodeRep, Shape, Rank, Flat, OnPath, NextPos, PrevPos;
      StepFacts();
      IterNext(|path| - 1);
      assert pos[..h + 1] == pos;
    }

    /** iterPrev on the whole path. */
    method ToPrev()
      requires InStep()
      modifies this`path, this`pos, this`valid, this`ptrs
      ensures InStep()
      ensures old(At()) > 0 ==> valid == old(valid) && At() == old(At()) - 1
      ensures old(At()) == 0 ==> !valid
    {
      hide Levels, NodeRep, Shape, Rank, Flat, OnPath, NextPos, PrevPos;
      StepFacts();
      IterPrev(|path| - 1);
      assert pos[..h + 1] == pos;
    }

    /**
     * Next: from a valid position to the next pair, or out of the tree behind the last one; from in
     * front of the first pair back to it.
     */
    method Next()
      requires InStep()
      modifies this`path, this`pos, this`valid, this`ptrs
      ensures InStep()
      ensures old(valid) && old(At()) + 1 < |Flat(t)| ==> valid && At() == old(At()) + 1
      ensures old(valid) && old(At()) + 1 == |Flat(t)| ==> !valid && At() == old(At())
      ensures !old(valid) && old(At()) == 0 ==> valid && At() == 0
      ensures !old(valid) && old(At()) > 0 ==> !valid
    {
      hide Levels, NodeRep, Shape, Rank, Flat, OnPath;
      var last := LastNode();
      if last && valid {
        valid := false;
        return;
      }
      var first := StartNode();
      if first && !valid {
        valid := true;
        return;
      }
      ToNext();
    }

    /** Prev, the other way round. */
    method Prev()
      requires InStep()
      modifies this`path, this`pos, this`valid, this`ptrs
      ensures InStep()
      ensures old(valid) && old(At()) > 0 ==> valid && At() == old(At()) - 1
      ensures old(valid) && old(At()) == 0 ==> !valid && At() == 0
      ensures !old(valid) && old(At()) + 1 == |Flat(t)| ==> valid && At() == old(At())
      ensures !old(valid) && old(At()) + 1 < |Flat(t)| ==> !valid
    {
      hide Levels, NodeRep, Shape, Rank, Flat, OnPath;
      var first := StartNode();
      if first && valid {
        valid := false;
        return;
      }
      var last := LastNode();
      if last && !valid {
        valid := true;
        return;
      }
      ToPrev();
    }

    lemma StepFacts()
      requires InStep()
      ensures pos[..h + 1] == pos && OnPath(t, pos) && Flat(t)[At()] == PairAt(t, h, pos)
      ensures NextPos(t, pos).None? <==> At() == |Flat(t)| - 1
      ensures NextPos(t, pos).Some? ==> var q := NextPos(t, pos).value; OnPath(t, q) && Rank(t, q) == At() + 1
      ensures PrevPos(t, pos).None? <==> At() == 0
      ensures PrevPos(t, pos).Some? ==> var q := PrevPos(t, pos).value; OnPath(t, q) && Rank(t, q) == At() - 1
    {
      assert pos[..h + 1] == pos;
      NextIsSuccessor(t, h, pos);
      PrevIsPredecessor(t, h, pos);
      PairOfRank(t, h, pos);
    }

    /** The current pair. */
    method Deref() returns (key: bytes, val: bytes)
      requires InStep()
      ensures At() < |Flat(t)| && Pair(key, val) == Flat(t)[At()]
    {
      hide Levels, NodeRep, Rank, Flat, PageIs, WithPtrs;
      StepFacts();
      LevelPage(h, h + 1);
      ghost var n := NodeAt(t, pos[..h]);
      ShapeBelow(t, h, pos[..h]);
      PairInLeaf(t, h, pos);
      var s := path[|pos| - 1].buf[..PAGE_SIZE];
      LeafOf(tree.view, s, n.kvs);
      LeafFacts(s, LeafSlots(n.kvs));
      ReadBack(s, |n.kvs|, LeafSlots(n.kvs), pos[h]);
      key, val := GetKey(s, pos[|pos| - 1]), GetVal(s, pos[|pos| - 1]);
    }

    /** Valid, on a tree with a root: a position in the tree always has a slot. */
    method Valid() returns (b: bool)
      requires InStep() && tree.root != 0
      ensures b == valid
    {
      hide Levels, NodeRep, LevelOk, NodeAt, Below, OnPath, Shape;
      if !valid || tree.root == 0 { return false; }
      LevelPage(h, h + 1);
      SizeRead(tree.view, path[|pos| - 1].buf[..PAGE_SIZE], NodeAt(t, pos[..h]));
      var node := path[|pos| - 1];
      if pos[|pos| - 1] > NKeys(node.buf[..PAGE_SIZE]) - 1 { return false; }
      return true;
    }

    /** Next from here on visits every remaining pair once, in order, before the iterator is invalid. */
    method Rest() returns (out: seq<Pair>)
      requires InStep() && valid && tree.root != 0
      modifies this`path, this`pos, this`valid, this`ptrs
      ensures InStep() && !valid
      ensures out == Flat(t)[old(At())..]
    {
      hide Levels, NodeRep, Rank, Flat, Shape, OnPath;
      StepFacts();
      ghost var start := At();
      out := [];
      var ok := true;
      while ok
        invariant InStep() && ok == valid && start <= At() < |Flat(t)|
        invariant out == Flat(t)[start..if valid then At() else |Flat(t)|]
        decreases |Flat(t)| - At(), ok
      {
        var key, val := Deref();
        out := out + [Pair(key, val)];
        Next();
        StepFacts();
        ok := Valid();
      }
    }

    lemma Prefixes(level: nat)
      requires InStep() && level <= h
      ensures OnPath(t, pos[..level + 1]) && pos[..level + 1][..level] == pos[..level]
      ensures Sync(level + 1) && Sync(if level < h then level + 2 else h + 1)
    {
      hide LevelOk;
      PathOf(tree.pages, tree.view, t, pos, path, ptrs, h + 1, level + 1);
      LevelsLess(tree.pages, tree.view, t, pos, path, ptrs, h + 1, level + 1);
      LevelsLess(tree.pages, tree.view, t, pos, path, ptrs, h + 1, if level < h then level + 2 else h + 1);
    }
  }
}
