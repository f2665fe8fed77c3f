/**
 * How far storage/btree.go's page arithmetic works: what makes a split fit its pages, and deletions
 * that always do.
 */
module Limits {
  import opened Bytes
  import opened Pages
  import opened Cuts
  import opened SortedRuns
  import opened Trees
  import opened Deletes
  import opened Overflows
  import opened Roots

  // ------------------------------------------------------------ deletion

  /** The key behind k is no longer than k. */
  predicate NextNoLonger(s: seq<Pair>, k: bytes) {
    forall i :: 0 < i < |s| && s[i - 1].key == k ==> |s[i].key| <= |k|
  }

  lemma NoLongerInside(a: seq<Pair>, c: seq<Pair>, b: seq<Pair>, k: bytes)
    requires NextNoLonger(a + c + b, k)
    ensures NextNoLonger(c, k) && NextNoLonger(c + b, k)
  {
    var s := a + c + b;
    forall i | 0 < i < |c + b| && (c + b)[i - 1].key == k ensures |(c + b)[i].key| <= |k| {
      var j := |a| + i;
      assert s[j - 1] == (c + b)[i - 1] && s[j] == (c + b)[i];
    }
    forall i | 0 < i < |c| && c[i - 1].key == k ensures |c[i].key| <= |k| {
      assert (c + b)[i - 1] == c[i - 1] && (c + b)[i] == c[i];
    }
  }

  lemma NoGrowth(kids: seq<Tree>, i: nat, k: bytes, h: nat)
    requires i < |kids| && Shape(kids[i], h) && NextNoLonger(FlatAll(kids[i..]), k)
    ensures Growth(kids, i, k) <= 0
  {
    FirstOfAll(kids[i..], h);
  }

  /** When the key behind k is no longer than k, no separator grows, and so no node does. */
  lemma {:induction false} NoneGrows(t: Tree, h: nat, k: bytes)
    requires WellFormed(t, h) && k in Dict(Flat(t)) && NextNoLonger(Flat(t), k)
    ensures SizeAfter(t, k) <= NodeSize(t) && PathFits(t, k)
    decreases t
  {
    hide Drop, Lookup, Dict, Sorted, FlatAll, PageBytes, Small, AllLess, AllAbove, KidSlots, NextNoLonger, Growth, SlotSize;
    AtLeastHeader(Slots(t));
    if t.Inner? {
      ChildWellFormed(t, h, k);
      var i := Lookup(KidSlots(t.kids), k);
      var kid := t.kids[i];
      FlatSplit(t.kids, i);
      var a, c, b := FlatAll(t.kids[..i]), Flat(kid), FlatAll(t.kids[i + 1..]);
      FoundInside(a, c, b, k);
      NoLongerInside(a, c, b, k);
      NoneGrows(kid, h - 1, k);
      assert t.kids[i..][0] == kid && t.kids[i..][1..] == t.kids[i + 1..];
      assert FlatAll(t.kids[i..]) == c + b by { TailFlat(t.kids, i); }
      NoGrowth(t.kids, i, k, h - 1);
    }
  }

  lemma TailFlat(kids: seq<Tree>, i: nat)
    requires i < |kids|
    ensures FlatAll(kids[i..]) == Flat(kids[i]) + FlatAll(kids[i + 1..])
  {
    assert kids[i..][1..] == kids[i + 1..];
  }

  /** So Delete keeps such a tree well-formed, unless it takes the last pair. */
  lemma DeleteSafe(t: Tree, k: bytes)
    requires WF(t) && NextNoLonger(Flat(t), k)
    ensures RoomToDelete(t, k)
    ensures DeleteRoot(t, k).Some? && Drop(Flat(t), k) != [] ==> WF(DeleteRoot(t, k).value)
  {
    hide PathFits, Dict, Drop, NextNoLonger;
    if k in Dict(Flat(t)) { NoneGrows(t, Height(t), k); }
    DeletedWF(t, k);
  }

  // ------------------------------------------------------------ splitting

  /** Some prefix of the slots takes between lo and hi bytes. */
  predicate SlotEnds(es: seq<Entry>, lo: nat, hi: nat) { exists j :: 0 < j <= |es| && lo <= PageBytes(es[..j]) <= hi }

  /**
   * Exactly when nodeSplit3 works on slots of any size: a slot ends between half the left node and
   * the page's end.
   */
  lemma SplitExact(es: seq<Entry>)
    requires PAGE_SIZE < PageBytes(es) <= PAGE_SIZE + PAGE_SIZE - 8
    ensures AllWithin(Pieces(es)) <==> SlotEnds(es[..Cut(es)], PageBytes(es[..Cut(es)]) / 2, PAGE_SIZE)
  {
    hide DataSize;
    CutBounds(es);
    var l, r := es[..Cut(es)], es[Cut(es)..];
    var half := PageBytes(l) / 2;
    assert l[..|l|] == l;
    if PageBytes(l) <= PAGE_SIZE {
      assert Pieces(es) == [l, r];
    } else {
      TwoParts(es, Cut(es));
      CutBounds(l);
      var j := Cut(l);
      var ps := Pieces(es);
      assert ps == [l[..j], l[j..], r];
      assert PageBytes(ps[1]) <= PAGE_SIZE && PageBytes(ps[2]) <= PAGE_SIZE && PageBytes(l[..j]) >= half;
      if PageBytes(ps[0]) <= PAGE_SIZE {
        assert SlotEnds(l, half, PAGE_SIZE);
      } else if k :| 0 < k <= |l| && half <= PageBytes(l[..k]) <= PAGE_SIZE {
        PrefixGrows(l, j, k);
      }
    }
  }

  /** A last slot so wide that all the others are less than half leaves nodeSplit3's first piece as big as the node. */
  lemma LastTooWide(es: seq<Entry>)
    requires es != [] && PageBytes(es) > PAGE_SIZE && PageBytes(es[..|es| - 1]) < PageBytes(es) / 2
    ensures Pieces(es) != [] && Pieces(es)[0] == es
  {
    hide DataSize;
    var i := Cut(es);
    if i < |es| { PrefixGrows(es, i, |es| - 1); }
    assert es[..|es|] == es;
  }
}
