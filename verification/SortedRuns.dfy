/** Key-value sequences in key order: the plain dictionary that the tree has to be. */
module SortedRuns {
  import opened Bytes

  datatype Pair = Pair(key: bytes, val: bytes)

  predicate Sorted(s: seq<Pair>) { forall i, j :: 0 <= i < j < |s| ==> Less(s[i].key, s[j].key) }

  predicate AllLess(s: seq<Pair>, k: bytes) { forall i :: 0 <= i < |s| ==> Less(s[i].key, k) }

  predicate AllAbove(k: bytes, s: seq<Pair>) { forall i :: 0 <= i < |s| ==> Less(k, s[i].key) }

  /** The dictionary of a sequence. */
  function Dict(s: seq<Pair>): map<bytes, bytes> {
    if s == [] then map[] else Dict(s[1..])[s[0].key := s[0].val]
  }

  /** s with k bound to v. */
  function Put(s: seq<Pair>, k: bytes, v: bytes): seq<Pair> {
    if s == [] then [Pair(k, v)]
    else if Less(k, s[0].key) then [Pair(k, v)] + s
    else if k == s[0].key then [Pair(k, v)] + s[1..]
    else [s[0]] + Put(s[1..], k, v)
  }

  /** s without k. */
  function Drop(s: seq<Pair>, k: bytes): seq<Pair> {
    if s == [] then [] else if k == s[0].key then s[1..] else [s[0]] + Drop(s[1..], k)
  }

  lemma {:induction false} DictKeys(s: seq<Pair>)
    ensures forall q :: q in Dict(s) <==> exists i :: 0 <= i < |s| && s[i].key == q
  {
    if s != [] {
      DictKeys(s[1..]);
      forall q ensures q in Dict(s) <==> exists i :: 0 <= i < |s| && s[i].key == q {
        if q in Dict(s) && q != s[0].key {
          var t := s[1..];
          assert q in Dict(t);
          var i :| 0 <= i < |t| && t[i].key == q;
          assert s[i + 1].key == q;
        }
        if i :| 0 <= i < |s| && s[i].key == q {
          if i > 0 { assert s[1..][i - 1].key == q; }
        }
      }
    }
  }

  lemma {:induction false} DictAt(s: seq<Pair>, i: nat)
    requires Sorted(s) && i < |s|
    ensures s[i].key in Dict(s) && Dict(s)[s[i].key] == s[i].val
  {
    if i > 0 {
      DictAt(s[1..], i - 1);
      LessTotal(s[0].key, s[i].key);
    }
  }

  lemma AboveNotIn(k: bytes, s: seq<Pair>)
    requires AllAbove(k, s) || AllLess(s, k)
    ensures k !in Dict(s)
  {
    DictKeys(s);
    LessTotal(k, k);
  }

  lemma FirstAbove(s: seq<Pair>)
    requires Sorted(s) && s != []
    ensures AllAbove(s[0].key, s[1..]) && Sorted(s[1..])
  {
  }

  lemma AboveTrans(j: bytes, k: bytes, s: seq<Pair>)
    requires AtMost(j, k) && AllAbove(k, s)
    ensures AllAbove(j, s)
  {
    forall i | 0 <= i < |s| ensures Less(j, s[i].key) { LessTrans(j, k, s[i].key); }
  }

  lemma LessTransAll(s: seq<Pair>, j: bytes, k: bytes)
    requires AllLess(s, j) && AtMost(j, k)
    ensures AllLess(s, k)
  {
    forall i | 0 <= i < |s| ensures Less(s[i].key, k) { LessTrans(s[i].key, j, k); }
  }

  /** Put is update of the dictionary, in order. */
  lemma {:induction false} PutIsUpdate(s: seq<Pair>, k: bytes, v: bytes)
    requires Sorted(s)
    ensures Sorted(Put(s, k, v))
    ensures Dict(Put(s, k, v)) == Dict(s)[k := v]
    ensures forall j :: AtMost(j, k) && j != k && AllAbove(j, s) ==> AllAbove(j, Put(s, k, v))
  {
    if s != [] {
      FirstAbove(s);
      LessTotal(k, s[0].key);
      if Less(k, s[0].key) {
        AboveTrans(k, s[0].key, s[1..]);
      } else if k != s[0].key {
        PutIsUpdate(s[1..], k, v);
        assert AllAbove(s[0].key, Put(s[1..], k, v));
      }
    }
    forall j | AtMost(j, k) && j != k && AllAbove(j, s) ensures AllAbove(j, Put(s, k, v)) {
      LessTotal(j, k);
      PutAbove(s, j, k, v);
    }
  }

  lemma {:induction false} PutAbove(s: seq<Pair>, j: bytes, k: bytes, v: bytes)
    requires Less(j, k) && AllAbove(j, s)
    ensures AllAbove(j, Put(s, k, v))
  {
    if s != [] { PutAbove(s[1..], j, k, v); }
  }

  /** Drop removes the key from the dictionary, in order. */
  lemma {:induction false} DropIsRemoval(s: seq<Pair>, k: bytes)
    requires Sorted(s)
    ensures Sorted(Drop(s, k))
    ensures Dict(Drop(s, k)) == Dict(s) - {k}
    ensures |Drop(s, k)| == if k in Dict(s) then |s| - 1 else |s|
    ensures forall j :: AllAbove(j, s) ==> AllAbove(j, Drop(s, k))
  {
    if s != [] {
      FirstAbove(s);
      if k == s[0].key {
        AboveNotIn(k, s[1..]);
      } else {
        DropIsRemoval(s[1..], k);
        assert AllAbove(s[0].key, Drop(s[1..], k));
        assert Sorted(Drop(s, k));
      }
    }
    forall j | AllAbove(j, s) ensures AllAbove(j, Drop(s, k)) { DropAbove(s, j, k); }
  }

  lemma {:induction false} DropAbove(s: seq<Pair>, j: bytes, k: bytes)
    requires AllAbove(j, s)
    ensures AllAbove(j, Drop(s, k))
  {
    if s != [] { DropAbove(s[1..], j, k); }
  }

  lemma {:induction false} PutAfter(a: seq<Pair>, r: seq<Pair>, k: bytes, v: bytes)
    requires AllLess(a, k)
    ensures Put(a + r, k, v) == a + Put(r, k, v)
  {
    if a == [] {
      assert a + r == r && a + Put(r, k, v) == Put(r, k, v);
    } else {
      assert (a + r)[1..] == a[1..] + r;
      LessTotal(a[0].key, k);
      PutAfter(a[1..], r, k, v);
    }
  }

  lemma {:induction false} PutBefore(c: seq<Pair>, b: seq<Pair>, k: bytes, v: bytes)
    requires AllAbove(k, b)
    ensures Put(c + b, k, v) == Put(c, k, v) + b
  {
    if c == [] {
      assert c + b == b;
    } else {
      assert (c + b)[1..] == c[1..] + b;
      PutBefore(c[1..], b, k, v);
    }
  }

  lemma {:induction false} DropAfter(a: seq<Pair>, r: seq<Pair>, k: bytes)
    requires AllLess(a, k)
    ensures Drop(a + r, k) == a + Drop(r, k)
  {
    if a == [] {
      assert a + r == r && a + Drop(r, k) == Drop(r, k);
    } else {
      assert (a + r)[1..] == a[1..] + r;
      LessTotal(a[0].key, k);
      DropAfter(a[1..], r, k);
    }
  }

  lemma {:induction false} DropBefore(c: seq<Pair>, b: seq<Pair>, k: bytes)
    requires AllAbove(k, b)
    ensures Drop(c + b, k) == Drop(c, k) + b
  {
    if c == [] {
      assert c + b == b;
      DropAbsent(b, k);
    } else {
      assert (c + b)[1..] == c[1..] + b;
      DropBefore(c[1..], b, k);
    }
  }

  /** Only the stretch that k belongs to changes. */
  lemma PutInside(a: seq<Pair>, c: seq<Pair>, b: seq<Pair>, k: bytes, v: bytes)
    requires AllLess(a, k) && AllAbove(k, b)
    ensures Put(a + c + b, k, v) == a + Put(c, k, v) + b
  {
    hide Put;
    assert a + c + b == a + (c + b);
    PutAfter(a, c + b, k, v);
    PutBefore(c, b, k, v);
  }

  lemma DropInside(a: seq<Pair>, c: seq<Pair>, b: seq<Pair>, k: bytes)
    requires AllLess(a, k) && AllAbove(k, b)
    ensures Drop(a + c + b, k) == a + Drop(c, k) + b
  {
    hide Drop;
    assert a + c + b == a + (c + b);
    DropAfter(a, c + b, k);
    DropBefore(c, b, k);
  }

  lemma {:induction false} DropAbsent(b: seq<Pair>, k: bytes)
    requires AllAbove(k, b)
    ensures Drop(b, k) == b
  {
    if b != [] {
      LessTotal(k, b[0].key);
      DropAbsent(b[1..], k);
    }
  }

  /** A sorted sequence cut in three. */
  lemma SortedParts(a: seq<Pair>, c: seq<Pair>, b: seq<Pair>)
    requires Sorted(a + c + b)
    ensures Sorted(a) && Sorted(c) && Sorted(b)
    ensures forall i, j {:trigger a[i], c[j]} :: 0 <= i < |a| && 0 <= j < |c| ==> Less(a[i].key, c[j].key)
    ensures forall i, j {:trigger c[i], b[j]} :: 0 <= i < |c| && 0 <= j < |b| ==> Less(c[i].key, b[j].key)
    ensures forall i, j {:trigger a[i], b[j]} :: 0 <= i < |a| && 0 <= j < |b| ==> Less(a[i].key, b[j].key)
  {
    var s := a + c + b;
    assert forall i :: 0 <= i < |a| ==> s[i] == a[i];
    assert forall i :: 0 <= i < |c| ==> s[|a| + i] == c[i];
    assert forall i :: 0 <= i < |b| ==> s[|a| + |c| + i] == b[i];
  }
}
