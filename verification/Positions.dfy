/** Positions in a tree, root to leaf (BIter.pos in storage/btree.go), and what stepping does to them. */
module Positions {
  import opened Bytes
  import opened SortedRuns
  import opened Trees

  /** pos leads from t through inner nodes to a node. */
  predicate Below(t: Tree, pos: seq<nat>)
    decreases |pos|
  {
    pos == [] || (t.Inner? && pos[0] < |t.kids| && Below(t.kids[pos[0]], pos[1..]))
  }

  function NodeAt(t: Tree, pos: seq<nat>): Tree
    requires Below(t, pos)
    decreases |pos|
  {
    if pos == [] then t else NodeAt(t.kids[pos[0]], pos[1..])
  }

  /** pos leads to a slot, of a leaf if it is long enough. */
  predicate OnPath(t: Tree, pos: seq<nat>)
    decreases |pos|
  {
    pos != [] && pos[0] < Width(t) && (|pos| > 1 ==> t.Inner? && OnPath(t.kids[pos[0]], pos[1..]))
  }

  function Repeat(n: nat): (z: seq<nat>)
    ensures |z| == n
  {
    seq(n, i => 0)
  }

  /** The first position of length n below t, and the last. */
  function LastPos(t: Tree, n: nat): seq<nat>
    requires n > 0
    decreases n
  {
    if Width(t) == 0 then Repeat(n)
    else if n == 1 || t.Leaf? then [Width(t) - 1] + Repeat(n - 1)
    else [Width(t) - 1] + LastPos(t.kids[Width(t) - 1], n - 1)
  }

  /** The next slot at the same depth. */
  function NextPos(t: Tree, pos: seq<nat>): Option<seq<nat>>
    requires OnPath(t, pos)
    decreases |pos|
  {
    if |pos| == 1 then
      if pos[0] + 1 < Width(t) then Some([pos[0] + 1]) else None
    else
      match NextPos(t.kids[pos[0]], pos[1..])
      case Some(q) => Some([pos[0]] + q)
      case None => if pos[0] + 1 < |t.kids| then Some([pos[0] + 1] + Repeat(|pos| - 1)) else None
  }

  /** The previous slot at the same depth. */
  function PrevPos(t: Tree, pos: seq<nat>): Option<seq<nat>>
    requires OnPath(t, pos)
    decreases |pos|
  {
    if |pos| == 1 then
      if pos[0] > 0 then Some([pos[0] - 1]) else None
    else
      match PrevPos(t.kids[pos[0]], pos[1..])
      case Some(q) => Some([pos[0]] + q)
      case None => if pos[0] > 0 then Some([pos[0] - 1] + LastPos(t.kids[pos[0] - 1], |pos| - 1)) else None
  }

  /** How many pairs stand before a leaf slot. */
  function Rank(t: Tree, pos: seq<nat>): nat
    requires OnPath(t, pos)
    decreases |pos|
  {
    match t
    case Leaf(kvs) => pos[0]
    case Inner(kids) => |FlatAll(kids[..pos[0]])| + if |pos| > 1 then Rank(kids[pos[0]], pos[1..]) else 0
  }

  /** The pair in a leaf slot. */
  function PairAt(t: Tree, h: nat, pos: seq<nat>): Pair
    requires Shape(t, h) && OnPath(t, pos) && |pos| == h + 1
    decreases h
  {
    if h == 0 then t.kvs[pos[0]] else PairAt(t.kids[pos[0]], h - 1, pos[1..])
  }

  /** Leaf positions are ranks in the sorted contents, and the pair there is the pair of that rank. */
  lemma {:induction false} PairOfRank(t: Tree, h: nat, pos: seq<nat>)
    requires Shape(t, h) && OnPath(t, pos) && |pos| == h + 1
    ensures Rank(t, pos) < |Flat(t)| && Flat(t)[Rank(t, pos)] == PairAt(t, h, pos)
    decreases h
  {
    hide FlatAll;
    if h > 0 {
      var i := pos[0];
      PairOfRank(t.kids[i], h - 1, pos[1..]);
      FlatSplit(t.kids, i);
    }
  }

  lemma {:induction false} FirstRank(t: Tree, h: nat)
    requires Shape(t, h)
    ensures OnPath(t, Repeat(h + 1)) && Rank(t, Repeat(h + 1)) == 0
    decreases h
  {
    if h > 0 {
      FirstRank(t.kids[0], h - 1);
      assert Repeat(h + 1)[1..] == Repeat(h);
      assert t.kids[..0] == [];
    }
  }

  lemma {:induction false} LastRank(t: Tree, h: nat)
    requires Shape(t, h)
    ensures OnPath(t, LastPos(t, h + 1)) && |LastPos(t, h + 1)| == h + 1
    ensures Rank(t, LastPos(t, h + 1)) == |Flat(t)| - 1
    decreases h
  {
    hide FlatAll;
    if h > 0 {
      var n := |t.kids| - 1;
      LastRank(t.kids[n], h - 1);
      FlatSplit(t.kids, n);
      EmptyFlat(t.kids[n + 1..]);
      assert LastPos(t, h + 1)[1..] == LastPos(t.kids[n], h);
    } else {
      assert LastPos(t, 1) == [Width(t) - 1];
    }
  }

  lemma EmptyFlat(ts: seq<Tree>)
    requires ts == []
    ensures FlatAll(ts) == []
  {
  }

  lemma NextKidRank(kids: seq<Tree>, i: nat)
    requires i < |kids|
    ensures |FlatAll(kids[..i + 1])| == |FlatAll(kids[..i])| + |Flat(kids[i])|
    ensures |FlatAll(kids)| >= |FlatAll(kids[..i + 1])|
    ensures i + 1 == |kids| ==> |FlatAll(kids)| == |FlatAll(kids[..i + 1])|
  {
    hide FlatAll;
    FlatSplit(kids, i);
    assert kids[..i + 1] == kids[..i] + [kids[i]];
    FlatConcat(kids[..i], [kids[i]]);
    FlatOne(kids[i]);
    if i + 1 == |kids| { assert kids[..i + 1] == kids; }
  }

  /** Next is the successor in the sorted contents, across any number of levels. */
  lemma {:induction false} NextIsSuccessor(t: Tree, h: nat, pos: seq<nat>)
    requires Shape(t, h) && OnPath(t, pos) && |pos| == h + 1
    ensures NextPos(t, pos).None? <==> Rank(t, pos) == |Flat(t)| - 1
    ensures NextPos(t, pos).Some? ==> var q := NextPos(t, pos).value;
      |q| == |pos| && OnPath(t, q) && Rank(t, q) == Rank(t, pos) + 1
    decreases h
  {
    hide FlatAll, Repeat;
    if h > 0 {
      var i, kids := pos[0], t.kids;
      NextIsSuccessor(kids[i], h - 1, pos[1..]);
      NextKidRank(kids, i);
      PairOfRank(kids[i], h - 1, pos[1..]);
      match NextPos(kids[i], pos[1..])
      case Some(q) => { assert ([i] + q)[1..] == q; }
      case None => {
        if i + 1 < |kids| {
          FirstRank(kids[i + 1], h - 1);
          assert ([i + 1] + Repeat(h))[1..] == Repeat(h);
          NextKidRank(kids, i + 1);
          FirstIsFirst(kids[i + 1], h - 1);
        }
      }
    }
  }

  /** Prev is the predecessor. */
  lemma {:induction false} PrevIsPredecessor(t: Tree, h: nat, pos: seq<nat>)
    requires Shape(t, h) && OnPath(t, pos) && |pos| == h + 1
    ensures PrevPos(t, pos).None? <==> Rank(t, pos) == 0
    ensures PrevPos(t, pos).Some? ==> var q := PrevPos(t, pos).value;
      |q| == |pos| && OnPath(t, q) && Rank(t, q) == Rank(t, pos) - 1
    decreases h
  {
    hide FlatAll, LastPos;
    if h > 0 {
      var i, kids := pos[0], t.kids;
      PrevIsPredecessor(kids[i], h - 1, pos[1..]);
      match PrevPos(kids[i], pos[1..])
      case Some(q) => { assert ([i] + q)[1..] == q; }
      case None => {
        if i > 0 {
          LastRank(kids[i - 1], h - 1);
          var z := LastPos(kids[i - 1], h);
          assert ([i - 1] + z)[1..] == z;
          NextKidRank(kids, i - 1);
          FirstIsFirst(kids[i - 1], h - 1);
        } else {
          assert kids[..0] == [];
          EmptyFlat(kids[..0]);
        }
      }
    }
  }

  /** A position is determined by its rank. */
  lemma {:induction false} RankInjective(t: Tree, h: nat, p: seq<nat>, q: seq<nat>)
    requires Shape(t, h) && OnPath(t, p) && OnPath(t, q) && |p| == |q| == h + 1
    requires Rank(t, p) == Rank(t, q)
    ensures p == q
    decreases h
  {
    hide FlatAll;
    if h > 0 {
      PairOfRank(t.kids[p[0]], h - 1, p[1..]);
      PairOfRank(t.kids[q[0]], h - 1, q[1..]);
      if p[0] < q[0] { PrefixRank(t.kids, p[0], q[0]); }
      if q[0] < p[0] { PrefixRank(t.kids, q[0], p[0]); }
      RankInjective(t.kids[p[0]], h - 1, p[1..], q[1..]);
      assert p == [p[0]] + p[1..] && q == [q[0]] + q[1..];
    }
  }

  lemma PrefixRank(kids: seq<Tree>, i: nat, j: nat)
    requires i < j <= |kids|
    ensures |FlatAll(kids[..i])| + |Flat(kids[i])| <= |FlatAll(kids[..j])|
  {
    hide FlatAll;
    NextKidRank(kids[..j], i);
    assert kids[..j][..i] == kids[..i] && kids[..j][..i + 1] == kids[..i + 1];
  }

  /** Prev undoes Next, and Next undoes Prev. */
  lemma PrevUndoesNext(t: Tree, h: nat, pos: seq<nat>)
    requires Shape(t, h) && OnPath(t, pos) && |pos| == h + 1
    ensures NextPos(t, pos).Some? ==> OnPath(t, NextPos(t, pos).value) && PrevPos(t, NextPos(t, pos).value) == Some(pos)
    ensures PrevPos(t, pos).Some? ==> OnPath(t, PrevPos(t, pos).value) && NextPos(t, PrevPos(t, pos).value) == Some(pos)
  {
    hide NextPos, PrevPos, Rank;
    NextIsSuccessor(t, h, pos);
    PrevIsPredecessor(t, h, pos);
    PairOfRank(t, h, pos);
    if NextPos(t, pos).Some? {
      var q := NextPos(t, pos).value;
      PrevIsPredecessor(t, h, q);
      RankInjective(t, h, pos, PrevPos(t, q).value);
    }
    if PrevPos(t, pos).Some? {
      var q := PrevPos(t, pos).value;
      NextIsSuccessor(t, h, q);
      RankInjective(t, h, pos, NextPos(t, q).value);
    }
  }

  // ------------------------------------------------------------ SeekLE

  function SeekPos(t: Tree, h: nat, k: bytes): (pos: seq<nat>)
    requires Shape(t, h)
    ensures |pos| == h + 1
    decreases h
  {
    var i := Lookup(Slots(t), k);
    if h == 0 then [i] else [i] + SeekPos(t.kids[i], h - 1, k)
  }

  /** The greatest key that is at most k, or the first key if there is none. */
  predicate SeekRank(s: seq<Pair>, k: bytes, r: nat) {
    && r < |s|
    && (r > 0 ==> AtMost(s[r].key, k))
    && (forall j :: r < j < |s| ==> Less(k, s[j].key))
  }

  lemma {:induction false} SeekFinds(t: Tree, h: nat, k: bytes)
    requires Shape(t, h) && Sorted(Flat(t))
    ensures OnPath(t, SeekPos(t, h, k)) && SeekRank(Flat(t), k, Rank(t, SeekPos(t, h, k)))
    decreases h
  {
    hide FlatAll, Lookup, Sorted, SeekRank, Slots;
    SeekLookup(t, h, k);
    var i := Lookup(Slots(t), k);
    if h > 0 {
      var kid := t.kids[i];
      SeekFinds(kid, h - 1, k);
      var pos := SeekPos(t, h, k);
      assert pos[1..] == SeekPos(kid, h - 1, k);
      SeekKid(t, h, k, i, Rank(kid, pos[1..]));
    }
  }

  /** The slot found is one of the node's; in a leaf it is the one sought. */
  lemma SeekLookup(t: Tree, h: nat, k: bytes)
    requires Shape(t, h) && Sorted(Flat(t))
    ensures var i := Lookup(Slots(t), k);
      i < Width(t) && (if h == 0 then SeekRank(Flat(t), k, i) else Shape(t.kids[i], h - 1) && Sorted(Flat(t.kids[i])))
  {
    hide FlatAll, Lookup, Sorted;
    SlotsAreSorted(t, h);
    LookupFound(Slots(t), k);
    var i := Lookup(Slots(t), k);
    if h == 0 {
      assert Slots(t)[i].key == t.kvs[i].key;
      forall j | i < j < |t.kvs| ensures Less(k, t.kvs[j].key) { assert Slots(t)[j].key == t.kvs[j].key; }
    } else {
      ChildOfKey(t.kids, h - 1, k, i);
    }
  }

  /** What is sought in a node is what is sought in its child. */
  lemma SeekKid(t: Tree, h: nat, k: bytes, i: nat, r: nat)
    requires Shape(t, h) && h > 0 && Sorted(Flat(t)) && i == Lookup(Slots(t), k) && i < |t.kids|
    requires Shape(t.kids[i], h - 1) && SeekRank(Flat(t.kids[i]), k, r)
    ensures SeekRank(Flat(t), k, |FlatAll(t.kids[..i])| + r)
  {
    hide FlatAll, Lookup, Sorted, SeekRank;
    SlotsAreSorted(t, h);
    LookupFound(Slots(t), k);
    ChildOfKey(t.kids, h - 1, k, i);
    FlatSplit(t.kids, i);
    var a, c, b := FlatAll(t.kids[..i]), Flat(t.kids[i]), FlatAll(t.kids[i + 1..]);
    FirstIsFirst(t.kids[i], h - 1);
    assert i > 0 ==> AtMost(Slots(t)[i].key, k) && Slots(t)[i].key == c[0].key;
    if i == 0 { EmptyFlat(t.kids[..0]); }
    SeekInside(a, c, b, k, r);
  }

  lemma SeekInside(a: seq<Pair>, c: seq<Pair>, b: seq<Pair>, k: bytes, r: nat)
    requires SeekRank(c, k, r) && AllAbove(k, b) && (a != [] ==> AtMost(c[0].key, k))
    ensures SeekRank(a + c + b, k, |a| + r)
  {
    var s := a + c + b;
    forall j | |a| + r < j < |s| ensures Less(k, s[j].key) {
      if j < |a| + |c| { assert s[j] == c[j - |a|]; } else { assert s[j] == b[j - |a| - |c|]; }
    }
  }

  // ------------------------------------------------------------ from the last level upwards, as the iterator works

  lemma {:induction false} PathPrefix(t: Tree, pos: seq<nat>, l: nat)
    requires OnPath(t, pos) && l < |pos|
    ensures Below(t, pos[..l]) && pos[l] < Width(NodeAt(t, pos[..l]))
    ensures l > 0 ==> OnPath(t, pos[..l])
    decreases |pos|
  {
    if l > 0 {
      PathPrefix(t.kids[pos[0]], pos[1..], l - 1);
      assert pos[..l][1..] == pos[1..][..l - 1];
    }
  }

  lemma {:induction false} PathExtended(t: Tree, pos: seq<nat>, x: nat)
    requires Below(t, pos) && x < Width(NodeAt(t, pos))
    ensures OnPath(t, pos + [x])
    decreases |pos|
  {
    if pos != [] {
      PathExtended(t.kids[pos[0]], pos[1..], x);
      assert (pos + [x])[1..] == pos[1..] + [x];
    }
  }

  /** Going down one level. */
  lemma {:induction false} BelowNext(t: Tree, h: nat, pos: seq<nat>)
    requires Shape(t, h) && OnPath(t, pos) && |pos| <= h
    ensures Below(t, pos) && Below(t, pos[..|pos| - 1])
    ensures NodeAt(t, pos[..|pos| - 1]).Inner? && pos[|pos| - 1] < |NodeAt(t, pos[..|pos| - 1]).kids|
    ensures NodeAt(t, pos) == NodeAt(t, pos[..|pos| - 1]).kids[pos[|pos| - 1]]
    decreases |pos|
  {
    if |pos| > 1 {
      BelowNext(t.kids[pos[0]], h - 1, pos[1..]);
      var l := |pos| - 1;
      assert pos[..l][1..] == pos[1..][..l - 1];
    }
  }

  lemma {:induction false} ShapeBelow(t: Tree, h: nat, pos: seq<nat>)
    requires Shape(t, h) && Below(t, pos)
    ensures |pos| <= h && Shape(NodeAt(t, pos), h - |pos|)
    decreases |pos|
  {
    if pos != [] { ShapeBelow(t.kids[pos[0]], h - 1, pos[1..]); }
  }

  /** The position after q + [x], from the one after q. */
  ghost predicate NextStep(t: Tree, q: seq<nat>, x: nat)
    requires OnPath(t, q + [x])
  {
    && Below(t, q)
    && (x + 1 < Width(NodeAt(t, q)) ==> NextPos(t, q + [x]) == Some(q + [x + 1]))
    && (x + 1 >= Width(NodeAt(t, q)) && q == [] ==> NextPos(t, q + [x]) == None)
    && (x + 1 >= Width(NodeAt(t, q)) && q != [] ==>
      OnPath(t, q) && NextPos(t, q + [x]) == match NextPos(t, q) case None => None case Some(r) => Some(r + [0]))
  }

  /** Next by the last level: step there, or step above and start anew. */
  lemma {:induction false} NextUpwards(t: Tree, q: seq<nat>, x: nat)
    requires OnPath(t, q + [x])
    ensures NextStep(t, q, x)
    decreases |q|
  {
    if q == [] {
      assert q + [x] == [x];
      NextOfOne(t, [x]);
      assert q + [x + 1] == [x + 1];
    } else {
      var i, p := q[0], q[1..];
      assert q == [i] + p;
      Associates([i], p, [x]);
      NextBelow(t, i, p + [x]);
      NextUpwards(t.kids[i], p, x);
      NextOuter(t, i, p, x);
    }
  }

  lemma NextBelow(t: Tree, i: nat, p: seq<nat>)
    requires OnPath(t, [i] + p) && p != []
    ensures t.Inner? && i < |t.kids| && OnPath(t.kids[i], p)
    ensures NextPos(t, [i] + p) == match NextPos(t.kids[i], p)
      case Some(q) => Some([i] + q)
      case None => if i + 1 < |t.kids| then Some([i + 1] + Repeat(|p|)) else None
  {
    assert ([i] + p)[1..] == p;
  }

  lemma NextOfOne(t: Tree, pos: seq<nat>)
    requires OnPath(t, pos) && |pos| == 1
    ensures NextPos(t, pos) == if pos[0] + 1 < Width(t) then Some([pos[0] + 1]) else None
  {
  }

  lemma ZerosMore(n: nat)
    ensures Repeat(n) + [0] == Repeat(n + 1)
  {
  }

  /** From child i to the node. */
  lemma NextOuter(t: Tree, i: nat, p: seq<nat>, x: nat)
    requires OnPath(t, [i] + (p + [x])) && t.Inner? && i < |t.kids| && OnPath(t.kids[i], p + [x]) && NextStep(t.kids[i], p, x)
    ensures OnPath(t, ([i] + p) + [x]) && NextStep(t, [i] + p, x)
  {
    hide NextPos, Repeat, NodeAt, Below;
    Associates([i], p, [x]);
    Associates([i], p, [x + 1]);
    NextBelow(t, i, p + [x]);
    BelowCons(t, i, p);
    if x + 1 >= Width(NodeAt(t.kids[i], p)) {
      ZerosMore(|p|);
      Associates([i + 1], Repeat(|p|), [0]);
      if p == [] {
        assert [i] + p == [i] && Repeat(0) == [] && [i + 1] + Repeat(0) == [i + 1];
        NextOfOne(t, [i]);
      } else {
        PathFront(t, i, p, x);
        NextBelow(t, i, p);
        var r := NextPos(t.kids[i], p);
        if r.Some? { Associates([i], r.value, [0]); }
      }
    }
  }

  /** The position before q + [x], from the one before q. */
  ghost predicate PrevStep(t: Tree, q: seq<nat>, x: nat)
    requires OnPath(t, q + [x])
  {
    && (x > 0 ==> PrevPos(t, q + [x]) == Some(q + [x - 1]))
    && (x == 0 && q == [] ==> PrevPos(t, q + [x]) == None)
    && (x == 0 && q != [] ==>
      OnPath(t, q) &&
      match PrevPos(t, q)
      case None => PrevPos(t, q + [x]) == None
      case Some(r) => Below(t, r) && Width(NodeAt(t, r)) > 0 && PrevPos(t, q + [x]) == Some(r + [Width(NodeAt(t, r)) - 1]))
  }

  /** Prev by the last level: step there, or step above and start from the end. */
  lemma {:induction false} PrevUpwards(t: Tree, h: nat, q: seq<nat>, x: nat)
    requires Shape(t, h) && OnPath(t, q + [x]) && |q| <= h
    ensures PrevStep(t, q, x)
    decreases |q|
  {
    if q == [] {
      assert q + [x] == [x];
      PrevOfOne(t, [x]);
      assert x > 0 ==> q + [x - 1] == [x - 1];
    } else {
      var i, p := q[0], q[1..];
      assert q == [i] + p;
      Associates([i], p, [x]);
      PathBelow(t, i, p + [x]);
      PrevUpwards(t.kids[i], h - 1, p, x);
      if x > 0 {
        PrevInner(t, i, p, x);
      } else if p == [] {
        assert p + [x] == [x] && q == [i];
        PrevFirst(t, h, i);
      } else {
        PrevOuter(t, h, i, p);
      }
    }
  }

  lemma PathBelow(t: Tree, i: nat, p: seq<nat>)
    requires OnPath(t, [i] + p) && p != []
    ensures t.Inner? && i < |t.kids| && OnPath(t.kids[i], p)
    ensures PrevPos(t, [i] + p) == match PrevPos(t.kids[i], p)
      case Some(q) => Some([i] + q)
      case None => if i > 0 then Some([i - 1] + LastPos(t.kids[i - 1], |p|)) else None
  {
    assert ([i] + p)[1..] == p;
  }

  lemma PrevInner(t: Tree, i: nat, p: seq<nat>, x: nat)
    requires OnPath(t, [i] + (p + [x])) && x > 0 && OnPath(t.kids[i], p + [x])
    requires PrevPos(t.kids[i], p + [x]) == Some(p + [x - 1])
    ensures OnPath(t, ([i] + p) + [x]) && PrevPos(t, ([i] + p) + [x]) == Some(([i] + p) + [x - 1])
  {
    hide PrevPos, OnPath, LastPos;
    Associates([i], p, [x]);
    Associates([i], p, [x - 1]);
    PathBelow(t, i, p + [x]);
  }

  /** The first slot of child i. */
  lemma PrevFirst(t: Tree, h: nat, i: nat)
    requires Shape(t, h) && h > 0 && OnPath(t, [i] + [0]) && i < |t.kids| && OnPath(t.kids[i], [0])
    ensures PrevStep(t, [i], 0)
  {
    PathBelow(t, i, [0]);
    PrevOfOne(t.kids[i], [0]);
    PrevOfOne(t, [i]);
    if i > 0 { LastPosOne(t, h, i - 1); }
  }

  /** A first slot further down in child i. */
  lemma PrevOuter(t: Tree, h: nat, i: nat, p: seq<nat>)
    requires Shape(t, h) && 0 < |p| < h && OnPath(t, [i] + (p + [0])) && i < |t.kids| && OnPath(t.kids[i], p + [0])
    requires PrevStep(t.kids[i], p, 0)
    ensures OnPath(t, ([i] + p) + [0]) && PrevStep(t, [i] + p, 0)
  {
    hide PrevPos, LastPos, Below, NodeAt, Width;
    Associates([i], p, [0]);
    PathBelow(t, i, p + [0]);
    PathFront(t, i, p, 0);
    PathBelow(t, i, p);
    var r := PrevPos(t.kids[i], p);
    if r.Some? {
      BelowCons(t, i, r.value);
      Associates([i], r.value, [Width(NodeAt(t.kids[i], r.value)) - 1]);
    } else if i > 0 {
      LastPosGrows(t.kids[i - 1], h - 1, |p|);
      var z := LastPos(t.kids[i - 1], |p|);
      BelowCons(t, i - 1, z);
      Associates([i - 1], z, [Width(NodeAt(t.kids[i - 1], z)) - 1]);
    }
  }

  lemma PathFront(t: Tree, i: nat, p: seq<nat>, x: nat)
    requires OnPath(t, [i] + (p + [x])) && p != [] && t.Inner? && i < |t.kids| && OnPath(t.kids[i], p)
    ensures OnPath(t, [i] + p)
  {
    assert ([i] + p)[1..] == p;
  }

  lemma PrevOfOne(t: Tree, pos: seq<nat>)
    requires OnPath(t, pos) && |pos| == 1
    ensures PrevPos(t, pos) == if pos[0] > 0 then Some([pos[0] - 1]) else None
  {
  }

  lemma BelowCons(t: Tree, i: nat, q: seq<nat>)
    requires t.Inner? && i < |t.kids| && Below(t.kids[i], q)
    ensures Below(t, [i] + q) && NodeAt(t, [i] + q) == NodeAt(t.kids[i], q)
  {
    assert ([i] + q)[1..] == q;
  }

  lemma LastPosOne(t: Tree, h: nat, i: nat)
    requires Shape(t, h) && h > 0 && i < |t.kids|
    ensures Below(t, [i]) && NodeAt(t, [i]) == t.kids[i] && Width(t.kids[i]) > 0
    ensures LastPos(t.kids[i], 1) == [Width(t.kids[i]) - 1]
  {
    assert [i][1..] == [];
    assert Repeat(0) == [];
    assert [Width(t.kids[i]) - 1] + Repeat(0) == [Width(t.kids[i]) - 1];
  }

  lemma {:induction false} LastPosGrows(t: Tree, h: nat, n: nat)
    requires Shape(t, h) && 0 < n <= h
    ensures Below(t, LastPos(t, n)) && Width(NodeAt(t, LastPos(t, n))) > 0
    ensures LastPos(t, n + 1) == LastPos(t, n) + [Width(NodeAt(t, LastPos(t, n))) - 1]
    decreases n
  {
    var w := Width(t) - 1;
    var kid := t.kids[w];
    if n == 1 {
      LastPosOne(t, h, w);
      assert Repeat(0) == [] && [w] + Repeat(0) == [w];
    } else {
      LastPosGrows(kid, h - 1, n - 1);
      var z := LastPos(kid, n - 1);
      assert ([w] + z)[1..] == z;
      var x := Width(NodeAt(kid, z)) - 1;
      assert ([w] + z) + [x] == [w] + (z + [x]);
    }
  }
}
