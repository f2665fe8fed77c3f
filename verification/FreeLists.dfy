/**
 * The page allocator of storage/disk.go: a queue of free page numbers kept inside pages of its own
 * (an unrolled linked list), pageAlloc, pageAppend, pageWrite, freePopHead, freePushTail and the end
 * of a commit. A page is its 512 little-endian words.
 */
module FreeLists {
  import Bytes

  type Page = seq<nat>
  type PageMap = map<nat, Page>

  const WORDS := 512
  const CAP := 511  // page numbers in a list node; word 0 is the link

  predicate Readable(up: PageMap, dk: PageMap, p: nat) {
    (p in up && |up[p]| == WORDS) || (p !in up && p in dk && |dk[p]| == WORDS)
  }

  /** pageRead: what this transaction wrote, or what is on disk. */
  function Read(up: PageMap, dk: PageMap, p: nat): Page
    requires Readable(up, dk, p)
  {
    if p in up then up[p] else dk[p]
  }

  /** Which list node, counted from the head, holds sequence number s. */
  function NodeOf(hs: nat, s: nat): nat
    requires hs <= s
  {
    s / CAP - hs / CAP
  }

  function WordOf(s: nat): (w: nat)
    ensures 1 <= w < WORDS
  {
    1 + s % CAP
  }

  /** The item with sequence number s is where it belongs. */
  predicate ItemAt(up: PageMap, dk: PageMap, nodes: seq<nat>, queue: seq<nat>, hs: nat, s: nat)
    requires hs <= s < hs + |queue|
  {
    && NodeOf(hs, s) < |nodes| && Readable(up, dk, nodes[NodeOf(hs, s)])
    && Read(up, dk, nodes[NodeOf(hs, s)])[WordOf(s)] == queue[s - hs]
  }

  /** The list nodes are linked, and hold the queue from sequence number hs on. */
  ghost predicate ListOk(up: PageMap, dk: PageMap, nodes: seq<nat>, queue: seq<nat>, hs: nat, ts: nat) {
    && hs + |queue| == ts
    && (forall i :: 0 <= i < |nodes| ==> Readable(up, dk, nodes[i]))
    && (forall i :: 0 <= i < |nodes| - 1 ==> Read(up, dk, nodes[i])[0] == nodes[i + 1])
    && (forall s :: hs <= s < ts ==> ItemAt(up, dk, nodes, queue, hs, s))
  }

  /** Every page from 1 on is a list node, is queued or is in use, exactly once. */
  ghost predicate Partition(nodes: seq<nat>, queue: seq<nat>, inUse: set<nat>, n: nat) {
    forall p: nat :: Owned(nodes, queue, inUse)[p] == if 1 <= p < n then 1 else 0
  }

  ghost function Owned(nodes: seq<nat>, queue: seq<nat>, inUse: set<nat>): multiset<nat> {
    multiset(nodes) + multiset(queue) + multiset(inUse)
  }

  lemma Disjoint(nodes: seq<nat>, queue: seq<nat>, inUse: set<nat>, n: nat)
    requires Partition(nodes, queue, inUse, n)
    ensures forall i, j :: 0 <= i < j < |nodes| ==> nodes[i] != nodes[j]
    ensures forall i, j :: 0 <= i < j < |queue| ==> queue[i] != queue[j]
    ensures forall i, j {:trigger nodes[i], queue[j]} :: 0 <= i < |nodes| && 0 <= j < |queue| ==> nodes[i] != queue[j]
    ensures forall i :: 0 <= i < |nodes| ==> nodes[i] !in inUse && 1 <= nodes[i] < n
    ensures forall i :: 0 <= i < |queue| ==> queue[i] !in inUse && 1 <= queue[i] < n
    ensures forall p :: p in inUse ==> 1 <= p < n
  {
    var m := Owned(nodes, queue, inUse);
    forall i, j | 0 <= i < j < |nodes| ensures nodes[i] != nodes[j] { CountTwo(nodes, i, j); assert m[nodes[i]] <= 1; }
    forall i, j | 0 <= i < j < |queue| ensures queue[i] != queue[j] { CountTwo(queue, i, j); assert m[queue[i]] <= 1; }
    forall i | 0 <= i < |nodes| ensures nodes[i] !in inUse && 1 <= nodes[i] < n && nodes[i] !in queue {
      assert nodes[i] in multiset(nodes);
      assert 1 <= m[nodes[i]] <= 1;
    }
    forall i | 0 <= i < |queue| ensures queue[i] !in inUse && 1 <= queue[i] < n {
      assert queue[i] in multiset(queue);
      assert 1 <= m[queue[i]] <= 1;
    }
    forall p | p in inUse ensures 1 <= p < n { assert m[p] >= 1; }
  }

  lemma CountTwo(s: seq<nat>, i: nat, j: nat)
    requires i < j < |s|
    ensures s[i] == s[j] ==> multiset(s)[s[i]] >= 2
  {
    var a, b := s[..j], s[j..];
    assert s == a + b;
    assert s[i] in multiset(a) by { assert a[i] == s[i]; }
    assert s[j] in multiset(b) by { assert b[0] == s[j]; }
  }

  // ------------------------------------------------------------ single steps on the list

  /** Writing a page that is no list node. */
  lemma WriteElsewhere(up: PageMap, dk: PageMap, nodes: seq<nat>, queue: seq<nat>, hs: nat, ts: nat, p: nat, c: Page)
    requires ListOk(up, dk, nodes, queue, hs, ts) && p !in nodes
    ensures ListOk(up[p := c], dk, nodes, queue, hs, ts)
  {
    hide NodeOf, WordOf;
    var w := up[p := c];
    assert forall i :: 0 <= i < |nodes| ==> nodes[i] in nodes;
    forall s | hs <= s < ts ensures ItemAt(w, dk, nodes, queue, hs, s) {
      assert ItemAt(up, dk, nodes, queue, hs, s);
    }
  }

  /** The first item is gone; with the last item of a node, the node is. */
  lemma Popped(up: PageMap, dk: PageMap, nodes: seq<nat>, queue: seq<nat>, hs: nat, ts: nat)
    requires ListOk(up, dk, nodes, queue, hs, ts) && hs < ts
    ensures |nodes| > 0 && Readable(up, dk, nodes[0]) && Read(up, dk, nodes[0])[WordOf(hs)] == queue[0]
    ensures (hs + 1) % CAP != 0 ==> ListOk(up, dk, nodes, queue[1..], hs + 1, ts)
    ensures (hs + 1) % CAP == 0 ==> ListOk(up, dk, nodes[1..], queue[1..], hs + 1, ts)
  {
    hide WordOf;
    assert ItemAt(up, dk, nodes, queue, hs, hs) && NodeOf(hs, hs) == 0;
    var ns := if (hs + 1) % CAP == 0 then nodes[1..] else nodes;
    forall i | 0 <= i < |ns| - 1 ensures Read(up, dk, ns[i])[0] == ns[i + 1] {
      if (hs + 1) % CAP == 0 { assert ns[i] == nodes[i + 1]; }
    }
    var h := hs + 1;
    forall s | h <= s < ts ensures ItemAt(up, dk, ns, queue[1..], h, s) {
      assert ItemAt(up, dk, nodes, queue, hs, s);
      NodeShift(hs, s);
    }
  }

  lemma NodeShift(hs: nat, s: nat)
    requires hs + 1 <= s
    ensures NodeOf(hs + 1, s) == if (hs + 1) % CAP == 0 then NodeOf(hs, s) - 1 else NodeOf(hs, s)
  {
  }

  /** Two sequence numbers in one node have different words. */
  lemma SameNode(hs: nat, s: nat, r: nat)
    requires hs <= s < r && NodeOf(hs, s) == NodeOf(hs, r)
    ensures WordOf(s) != WordOf(r)
  {
  }

  /** An item is written behind the last one. */
  lemma Pushed(up: PageMap, dk: PageMap, nodes: seq<nat>, queue: seq<nat>, hs: nat, ts: nat, v: nat)
    requires ListOk(up, dk, nodes, queue, hs, ts) && |nodes| > 0 && NodeOf(hs, ts) == |nodes| - 1
    requires forall i, j :: 0 <= i < j < |nodes| ==> nodes[i] != nodes[j]
    ensures var t := nodes[|nodes| - 1];
      ListOk(up[t := Read(up, dk, t)[WordOf(ts) := v]], dk, nodes, queue + [v], hs, ts + 1)
  {
    hide NodeOf, WordOf;
    var t := nodes[|nodes| - 1];
    var w := up[t := Read(up, dk, t)[WordOf(ts) := v]];
    forall i | 0 <= i < |nodes| - 1 ensures Read(w, dk, nodes[i])[0] == nodes[i + 1] { assert nodes[i] != t; }
    forall s | hs <= s < ts + 1 ensures ItemAt(w, dk, nodes, queue + [v], hs, s) {
      if s < ts {
        assert ItemAt(up, dk, nodes, queue, hs, s);
        if NodeOf(hs, s) == |nodes| - 1 { SameNode(hs, s, ts); }
      }
    }
  }

  /** A fresh node behind the last one. */
  lemma Linked(up: PageMap, dk: PageMap, nodes: seq<nat>, queue: seq<nat>, hs: nat, ts: nat, next: nat)
    requires ListOk(up, dk, nodes, queue, hs, ts) && |nodes| > 0 && Readable(up, dk, next) && next !in nodes
    requires forall i, j :: 0 <= i < j < |nodes| ==> nodes[i] != nodes[j]
    ensures var t := nodes[|nodes| - 1];
      ListOk(up[t := Read(up, dk, t)[0 := next]], dk, nodes + [next], queue, hs, ts)
  {
    hide NodeOf, WordOf;
    var t := nodes[|nodes| - 1];
    var w, ns := up[t := Read(up, dk, t)[0 := next]], nodes + [next];
    forall s | hs <= s < ts ensures ItemAt(w, dk, ns, queue, hs, s) {
      assert ItemAt(up, dk, nodes, queue, hs, s);
    }
    forall i | 0 <= i < |ns| - 1 ensures Read(w, dk, ns[i])[0] == ns[i + 1] {
      if i < |nodes| - 1 { assert ns[i] != t; }
    }
  }

  // ------------------------------------------------------------ pages changing hands

  lemma FromQueue(nodes: seq<nat>, queue: seq<nat>, inUse: set<nat>, n: nat)
    requires Partition(nodes, queue, inUse, n) && queue != []
    ensures Partition(nodes, queue[1..], inUse + {queue[0]}, n) && queue[0] != 0
  {
    Disjoint(nodes, queue, inUse, n);
    assert queue == [queue[0]] + queue[1..];
    SetPlus(inUse, queue[0]);
    assert Owned(nodes, queue[1..], inUse + {queue[0]}) == Owned(nodes, queue, inUse);
  }

  lemma FromNodes(nodes: seq<nat>, queue: seq<nat>, inUse: set<nat>, n: nat)
    requires Partition(nodes, queue, inUse, n) && nodes != []
    ensures Partition(nodes[1..], queue, inUse + {nodes[0]}, n) && nodes[0] != 0
  {
    Disjoint(nodes, queue, inUse, n);
    assert nodes == [nodes[0]] + nodes[1..];
    SetPlus(inUse, nodes[0]);
    assert Owned(nodes[1..], queue, inUse + {nodes[0]}) == Owned(nodes, queue, inUse);
  }

  lemma SetPlus(s: set<nat>, p: nat)
    requires p !in s
    ensures multiset(s + {p}) == multiset(s) + multiset{p}
  {
  }

  lemma ToQueue(nodes: seq<nat>, queue: seq<nat>, inUse: set<nat>, n: nat, p: nat)
    requires Partition(nodes, queue, inUse, n) && p in inUse
    ensures Partition(nodes, queue + [p], inUse - {p}, n)
  {
    SetPlus(inUse - {p}, p);
    assert inUse - {p} + {p} == inUse;
    assert Owned(nodes, queue + [p], inUse - {p}) == Owned(nodes, queue, inUse);
  }

  lemma ToNodes(nodes: seq<nat>, queue: seq<nat>, inUse: set<nat>, n: nat, p: nat)
    requires Partition(nodes, queue, inUse, n) && p in inUse
    ensures Partition(nodes + [p], queue, inUse - {p}, n)
  {
    SetPlus(inUse - {p}, p);
    assert inUse - {p} + {p} == inUse;
    assert Owned(nodes + [p], queue, inUse - {p}) == Owned(nodes, queue, inUse);
  }

  lemma NewPage(nodes: seq<nat>, queue: seq<nat>, inUse: set<nat>, n: nat)
    requires Partition(nodes, queue, inUse, n) && n > 0
    ensures Partition(nodes, queue, inUse + {n}, n + 1) && n !in inUse && n !in nodes && n !in queue
  {
    assert Owned(nodes, queue, inUse)[n] == 0;
    SetPlus(inUse, n);
    assert Owned(nodes, queue, inUse + {n}) == Owned(nodes, queue, inUse) + multiset{n};
  }

  ghost predicate AllRead(up: PageMap, dk: PageMap, n: nat) { forall p :: 1 <= p < n ==> Readable(up, dk, p) }

  /** The pages of s read as before. */
  ghost predicate SameUse(up: PageMap, w: PageMap, dk: PageMap, s: set<nat>) {
    forall p :: p in s && Readable(up, dk, p) ==> Readable(w, dk, p) && Read(w, dk, p) == Read(up, dk, p)
  }

  lemma SameAfter(up: PageMap, dk: PageMap, s: set<nat>)
    ensures SameUse(up, up, dk, s)
  {
  }

  /** A write outside s. */
  lemma KeptWrite(up: PageMap, w: PageMap, dk: PageMap, s: set<nat>, p: nat, c: Page, n: nat)
    requires SameUse(up, w, dk, s) && |c| == WORDS
    ensures p !in s ==> SameUse(up, w[p := c], dk, s)
    ensures AllRead(w, dk, n) ==> AllRead(w[p := c], dk, n)
    ensures AllRead(w, dk, n) && p == n ==> AllRead(w[p := c], dk, n + 1)
  {
    if AllRead(w, dk, n) {
      var w1 := w[p := c];
      forall q | 1 <= q < n ensures Readable(w1, dk, q) { assert Readable(w, dk, q); }
    }
  }

  lemma SameThrough(u: PageMap, v: PageMap, w: PageMap, dk: PageMap, s: set<nat>, r: set<nat>)
    requires SameUse(u, v, dk, s) && SameUse(v, w, dk, r) && s <= r
    ensures SameUse(u, w, dk, s)
  {
  }

  lemma SameWithin(u: PageMap, v: PageMap, dk: PageMap, s: set<nat>, r: set<nat>)
    requires SameUse(u, v, dk, s) && r <= s
    ensures SameUse(u, v, dk, r)
  {
  }

  lemma SameLess(up: PageMap, w: PageMap, dk: PageMap, s: set<nat>, r: set<nat>)
    requires SameUse(up, w, dk, s) && r <= s
    ensures SameUse(up, w, dk, r)
  {
  }

  /** The list's head and tail, its pages, what is queued in them, and the pages that are in use elsewhere. */
  datatype FreeList = FreeList(headPage: nat, headSeq: nat, tailPage: nat, tailSeq: nat, nodes: seq<nat>, queue: seq<nat>, inUse: set<nat>)

  /** Head and tail are the first page and the last. */
  predicate Ends(l: FreeList) {
    if l.nodes == [] then l.headPage == l.tailPage == l.headSeq == l.tailSeq == 0
    else
      && l.headPage == l.nodes[0] && l.tailPage == l.nodes[|l.nodes| - 1] && l.headSeq <= l.tailSeq
      && |l.nodes| == NodeOf(l.headSeq, l.tailSeq) + 1
  }

  /** What holds of n - 1 pages between calls. */
  ghost predicate Consistent(n: nat, up: PageMap, dk: PageMap, l: FreeList)
  {
    && n > 0 && Ends(l) && Partition(l.nodes, l.queue, l.inUse, n)
    && AllRead(up, dk, n) && ListOk(up, dk, l.nodes, l.queue, l.headSeq, l.tailSeq)
  }

  /**
   * The queue is empty, and the page number being pushed fills its page's last slot and may be popped
   * at once: the page's own link is then read as the list's new head, although nothing was ever
   * linked behind it.
   */
  predicate Trapped(up: PageMap, dk: PageMap, headSeq: nat, tailPage: nat, tailSeq: nat, maxSeq: nat, ptr: nat) {
    headSeq == tailSeq && tailSeq % CAP == CAP - 1 && headSeq <= maxSeq
    && Readable(up, dk, tailPage) && Read(up, dk, tailPage)[0] != ptr
  }

  /** No list pages, queue and pages in use fit these ends. */
  ghost predicate NoList(up: PageMap, dk: PageMap, headPage: nat, headSeq: nat, tailPage: nat, tailSeq: nat) {
    forall n, ns, q, s :: !Consistent(n, up, dk, FreeList(headPage, headSeq, tailPage, tailSeq, ns, q, s))
  }

  const ZEROS: Page := seq(WORDS, i => 0)

  /** The oldest item and the first page are taken out. */
  ghost function HeadGone(up: PageMap, dk: PageMap, l: FreeList): FreeList
    requires l.nodes != [] && l.queue != [] && Readable(up, dk, l.headPage)
  {
    l.(headPage := Read(up, dk, l.headPage)[0], headSeq := l.headSeq + 1,
       nodes := l.nodes[1..], queue := l.queue[1..], inUse := l.inUse + {l.queue[0]} + {l.headPage})
  }

  /** A list begun in a new page n. */
  lemma Started(n: nat, up: PageMap, dk: PageMap, queue: seq<nat>, inUse: set<nat>, ptr: nat)
    requires Consistent(n, up, dk, FreeList(0, 0, 0, 0, [], queue, inUse)) && ptr in inUse
    ensures queue == []
    ensures Consistent(n + 1, up[n := ZEROS[1 := ptr]], dk, FreeList(n, 0, n, 1, [n], [ptr], inUse - {ptr}))
    ensures SameUse(up, up[n := ZEROS[1 := ptr]], dk, inUse - {ptr})
  {
    hide Partition, AllRead, SameUse;
    NewPage([], queue, inUse, n);
    ToNodes([], queue, inUse + {n}, n + 1, n);
    ToQueue([] + [n], queue, inUse + {n} - {n}, n + 1, ptr);
    assert [] + [n] == [n] && queue + [ptr] == [ptr] && inUse + {n} - {n} == inUse;
    var c := ZEROS[1 := ptr];
    SameAfter(up, dk, inUse);
    KeptWrite(up, up, dk, inUse, n, c, n);
    SameLess(up, up[n := c], dk, inUse, inUse - {ptr});
    assert WordOf(0) == 1 && NodeOf(0, 0) == 0 && NodeOf(0, 1) == 0;
  }

  /** The page with word i changed. */
  function PageWith(up: PageMap, dk: PageMap, p: nat, i: nat, v: nat): PageMap
    requires Readable(up, dk, p) && i < WORDS
  {
    up[p := Read(up, dk, p)[i := v]]
  }

  /** The last page is full, and the next one still missing. */
  ghost predicate Open(n: nat, up: PageMap, dk: PageMap, l: FreeList)
  {
    && n > 0 && l.nodes != [] && l.headPage == l.nodes[0] && l.tailPage == l.nodes[|l.nodes| - 1]
    && l.headSeq <= l.tailSeq && |l.nodes| == NodeOf(l.headSeq, l.tailSeq)
    && Partition(l.nodes, l.queue, l.inUse, n) && AllRead(up, dk, n) && ListOk(up, dk, l.nodes, l.queue, l.headSeq, l.tailSeq)
  }

  /** A page number written behind the last one. */
  lemma TailWritten(n: nat, up: PageMap, dk: PageMap, l: FreeList, ptr: nat)
    requires Consistent(n, up, dk, l) && l.nodes != [] && ptr in l.inUse
    ensures Readable(up, dk, l.tailPage) && l.tailPage in l.nodes && l.headSeq <= l.tailSeq
    ensures var w := PageWith(up, dk, l.tailPage, WordOf(l.tailSeq), ptr);
      && SameUse(up, w, dk, l.inUse - {ptr})
      && if (l.tailSeq + 1) % CAP != 0
         then Consistent(n, w, dk, l.(tailSeq := l.tailSeq + 1, queue := l.queue + [ptr], inUse := l.inUse - {ptr}))
         else Open(n, w, dk, l.(tailSeq := l.tailSeq + 1, queue := l.queue + [ptr], inUse := l.inUse - {ptr}))
  {
    hide Partition, ListOk, NodeOf, AllRead, SameUse, WordOf;
    Disjoint(l.nodes, l.queue, l.inUse, n);
    assert l.tailPage in l.nodes;
    ListReadable(up, dk, l.nodes, l.queue, l.headSeq, l.tailSeq, |l.nodes| - 1);
    Pushed(up, dk, l.nodes, l.queue, l.headSeq, l.tailSeq, ptr);
    ToQueue(l.nodes, l.queue, l.inUse, n, ptr);
    SameAfter(up, dk, l.inUse);
    KeptWrite(up, up, dk, l.inUse, l.tailPage, Read(up, dk, l.tailPage)[WordOf(l.tailSeq) := ptr], n);
    SameLess(up, PageWith(up, dk, l.tailPage, WordOf(l.tailSeq), ptr), dk, l.inUse, l.inUse - {ptr});
    NextNode(l.headSeq, l.tailSeq);
  }

  /** The missing page, linked behind the last one. */
  lemma TailLinked(n: nat, up: PageMap, dk: PageMap, l: FreeList, next: nat)
    requires Open(n, up, dk, l) && next in l.inUse
    ensures Readable(up, dk, l.tailPage)
    ensures var w := PageWith(up, dk, l.tailPage, 0, next);
      && SameUse(up, w, dk, l.inUse - {next})
      && Consistent(n, w, dk, l.(tailPage := next, nodes := l.nodes + [next], inUse := l.inUse - {next}))
  {
    hide Partition, ListOk, NodeOf, SameUse, WordOf;
    Disjoint(l.nodes, l.queue, l.inUse, n);
    assert l.tailPage in l.nodes;
    ListReadable(up, dk, l.nodes, l.queue, l.headSeq, l.tailSeq, |l.nodes| - 1);
    assert Readable(up, dk, next) && next !in l.nodes;
    Linked(up, dk, l.nodes, l.queue, l.headSeq, l.tailSeq, next);
    ToNodes(l.nodes, l.queue, l.inUse, n, next);
    SameAfter(up, dk, l.inUse);
    KeptWrite(up, up, dk, l.inUse, l.tailPage, Read(up, dk, l.tailPage)[0 := next], n);
    SameLess(up, PageWith(up, dk, l.tailPage, 0, next), dk, l.inUse, l.inUse - {next});
  }

  /** The only page of the list has just been emptied and taken off; the next page is the list. */
  lemma ListRestarted(n: nat, up: PageMap, dk: PageMap, at: nat, gone: nat, inUse: set<nat>, next: nat)
    requires n > 0 && Partition([], [], inUse, n) && AllRead(up, dk, n) && gone in inUse && next in inUse && gone != next
    ensures Readable(up, dk, gone)
    ensures var w := PageWith(up, dk, gone, 0, next);
      && SameUse(up, w, dk, inUse - {gone})
      && Consistent(n, w, dk, FreeList(next, at, next, at, [next], [], inUse - {next}))
  {
    hide Partition, SameUse;
    Disjoint([], [], inUse, n);
    assert 1 <= gone < n && 1 <= next < n;
    ToNodes([], [], inUse, n, next);
    assert [] + [next] == [next];
    SameAfter(up, dk, inUse - {gone});
    KeptWrite(up, up, dk, inUse - {gone}, gone, Read(up, dk, gone)[0 := next], n);
    assert Readable(up[gone := Read(up, dk, gone)[0 := next]], dk, next);
    OneNode(up[gone := Read(up, dk, gone)[0 := next]], dk, next, at);
  }

  /** A new page for the list. */
  lemma OpenAppended(n: nat, up: PageMap, dk: PageMap, l: FreeList)
    requires Open(n, up, dk, l)
    ensures Open(n + 1, up[n := ZEROS], dk, l.(inUse := l.inUse + {n}))
    ensures n !in l.inUse && SameUse(up, up[n := ZEROS], dk, l.inUse)
  {
    hide Partition, ListOk, NodeOf, SameUse, AllRead;
    NewPage(l.nodes, l.queue, l.inUse, n);
    WriteElsewhere(up, dk, l.nodes, l.queue, l.headSeq, l.tailSeq, n, ZEROS);
    SameAfter(up, dk, l.inUse);
    KeptWrite(up, up, dk, l.inUse, n, ZEROS, n);
  }

  /** The oldest item leaves a list whose last page is full. */
  lemma OpenPopped(n: nat, up: PageMap, dk: PageMap, l: FreeList)
    requires Open(n, up, dk, l)
    requires l.tailSeq % CAP == 0
    ensures l.queue != [] && Readable(up, dk, l.headPage)
    ensures (l.headSeq + 1) % CAP != 0 ==>
      Open(n, up, dk, l.(headSeq := l.headSeq + 1, queue := l.queue[1..], inUse := l.inUse + {l.queue[0]}))
    ensures (l.headSeq + 1) % CAP == 0 && l.headSeq + 1 < l.tailSeq ==>
      Open(n, up, dk, HeadGone(up, dk, l))
    ensures (l.headSeq + 1) % CAP == 0 && l.headSeq + 1 == l.tailSeq ==>
      l.nodes == [l.headPage] && l.headPage == l.tailPage && l.queue == [l.queue[0]] && l.queue[0] != l.headPage
  {
    hide Partition, AllRead;
    assert l.tailSeq > l.headSeq;
    Popped(up, dk, l.nodes, l.queue, l.headSeq, l.tailSeq);
    NodeShift(l.headSeq, l.tailSeq);
    Disjoint(l.nodes, l.queue, l.inUse, n);
    FromQueue(l.nodes, l.queue, l.inUse, n);
    FromNodes(l.nodes, l.queue[1..], l.inUse + {l.queue[0]}, n);
  }

  // ------------------------------------------------------------ the queue, step by step

  /** The list's pages and what is queued in them, the two sequence numbers, and the next new page of the file. */
  datatype Stock = Stock(nodes: seq<nat>, queue: seq<nat>, headSeq: nat, tailSeq: nat, next: nat)

  /** As many pages as the queue reaches over. */
  predicate WellStocked(s: Stock) {
    && s.headSeq + |s.queue| == s.tailSeq
    && if s.nodes == [] then s.tailSeq == 0 else |s.nodes| == NodeOf(s.headSeq, s.tailSeq) + 1
  }

  /** freePopHead: the oldest page number, if it may be reused; with the last one in it, the first page. */
  function StockPopped(s: Stock, maxSeq: nat): Stock {
    if s.headSeq > maxSeq then s
    else if s.queue == [] then Stock([], [], 0, 0, s.next)
    else if Empties(s, maxSeq) then Stock(s.nodes[1..], s.queue[1..], s.headSeq + 1, s.tailSeq, s.next)
    else s.(queue := s.queue[1..], headSeq := s.headSeq + 1)
  }

  /** It empties a list page. */
  predicate Empties(s: Stock, maxSeq: nat) {
    s.headSeq <= maxSeq && s.queue != [] && (s.headSeq + 1) % CAP == 0 && s.nodes != []
  }

  /** It gives a page number. */
  predicate Reuses(s: Stock, maxSeq: nat) { s.headSeq <= maxSeq && (s.queue != [] || s.nodes != []) }

  /** The list page emptied, or 0. */
  function EmptiedHead(s: Stock, maxSeq: nat): nat { if Empties(s, maxSeq) then s.nodes[0] else 0 }

  /** The page number, or 0. */
  function OldestFree(s: Stock, maxSeq: nat): nat {
    if !Reuses(s, maxSeq) then 0 else if s.queue != [] then s.queue[0] else s.nodes[0]
  }

  function Queued(s: Stock, p: nat): Stock { s.(queue := s.queue + [p], tailSeq := s.tailSeq + 1) }

  /** freePushTail's second half: a page is popped or appended, and an emptied one queued in it. */
  function StockGrown(s: Stock, maxSeq: nat): Stock {
    var p := StockPopped(s, maxSeq);
    var g := if Reuses(s, maxSeq) then p.(nodes := p.nodes + [OldestFree(s, maxSeq)])
      else p.(nodes := p.nodes + [s.next], next := s.next + 1);
    if Empties(s, maxSeq) then Queued(g, EmptiedHead(s, maxSeq)) else g
  }

  /** freePushTail */
  function StockPushed(s: Stock, maxSeq: nat, ptr: nat): Stock {
    if s.nodes == [] then Stock([s.next], [ptr], 0, 1, s.next + 1)
    else if (s.tailSeq + 1) % CAP != 0 then Queued(s, ptr)
    else StockGrown(Queued(s, ptr), maxSeq)
  }

  /** pageAlloc, without the page that is appended when there is none to reuse. */
  function StockReused(s: Stock, maxSeq: nat): Stock {
    var p := StockPopped(s, maxSeq);
    if Empties(s, maxSeq) then StockPushed(p, maxSeq, EmptiedHead(s, maxSeq)) else p
  }

  function StockTaken(s: Stock, maxSeq: nat): Stock {
    var r := StockReused(s, maxSeq);
    if Reuses(s, maxSeq) then r else r.(next := r.next + 1)
  }

  function PageTaken(s: Stock, maxSeq: nat): nat { if Reuses(s, maxSeq) then OldestFree(s, maxSeq) else s.next }

  /**
   * freePushTail on a list with pages: behind the last page number; and when the last page is full, the
   * oldest page number goes into the list, if it may be reused, or else a new page does, and a first
   * page that is empty then is queued.
   */
  lemma PushedExactly(s: Stock, maxSeq: nat, ptr: nat)
    requires s.nodes != []
    ensures var r := s.queue + [ptr]; var p := StockPushed(s, maxSeq, ptr);
      if (s.tailSeq + 1) % 511 != 0 then
        p == Stock(s.nodes, r, s.headSeq, s.tailSeq + 1, s.next)
      else if s.headSeq > maxSeq then
        p == Stock(s.nodes + [s.next], r, s.headSeq, s.tailSeq + 1, s.next + 1)
      else if (s.headSeq + 1) % 511 != 0 then
        p == Stock(s.nodes + [r[0]], r[1..], s.headSeq + 1, s.tailSeq + 1, s.next)
      else
        p == Stock(s.nodes[1..] + [r[0]], r[1..] + [s.nodes[0]], s.headSeq + 1, s.tailSeq + 2, s.next)
  {
  }

  /** pageAlloc: the page, and what is left unless a list page was emptied with it. */
  lemma TakenExactly(s: Stock, maxSeq: nat)
    ensures PageTaken(s, maxSeq) ==
            if s.headSeq <= maxSeq && s.queue != [] then s.queue[0]
            else if s.headSeq <= maxSeq && s.nodes != [] then s.nodes[0]
            else s.next
    ensures var r := StockTaken(s, maxSeq);
      if s.headSeq > maxSeq then r == s.(next := s.next + 1)
      else if s.queue == [] then r == Stock([], [], 0, 0, if s.nodes == [] then s.next + 1 else s.next)
      else if (s.headSeq + 1) % 511 != 0 then r == Stock(s.nodes, s.queue[1..], s.headSeq + 1, s.tailSeq, s.next)
      else s.nodes != [] ==>
        r == StockPushed(Stock(s.nodes[1..], s.queue[1..], s.headSeq + 1, s.tailSeq, s.next), maxSeq, s.nodes[0])
  {
  }

  // ------------------------------------------------------------ first in, first out, over whole runs

  datatype Event = Free(ptr: nat) | Alloc | Commit

  /** One event: what is queued afterwards, and what may be reused. */
  function After(s: Stock, maxSeq: nat, e: Event): (Stock, nat) {
    match e
    case Free(ptr) => (StockPushed(s, maxSeq, ptr), maxSeq)
    case Alloc => (StockTaken(s, maxSeq), maxSeq)
    case Commit => (s, s.tailSeq)
  }

  function AfterAll(s: Stock, maxSeq: nat, es: seq<Event>): (Stock, nat)
    decreases |es|
  {
    if es == [] then (s, maxSeq) else var r := After(s, maxSeq, es[0]); AfterAll(r.0, r.1, es[1..])
  }

  /** The page numbers that a pop takes out of the queue: its first one or none. */
  function Leaving(s: Stock, maxSeq: nat): seq<nat> { if s.headSeq <= maxSeq && s.queue != [] then [s.queue[0]] else [] }

  /** What freePushTail puts into the queue: the page number, and a list page emptied on the way. */
  function PushJoins(s: Stock, maxSeq: nat, ptr: nat): seq<nat> {
    var w := Queued(s, ptr);
    if s.nodes != [] && w.tailSeq % CAP == 0 && Empties(w, maxSeq) then [ptr, EmptiedHead(w, maxSeq)] else [ptr]
  }

  /** What it takes out of the queue: the number of the page that it links, if it does not append one. */
  function PushLeaves(s: Stock, maxSeq: nat, ptr: nat): seq<nat> {
    var w := Queued(s, ptr);
    if s.nodes != [] && w.tailSeq % CAP == 0 then Leaving(w, maxSeq) else []
  }

  function Joins(s: Stock, maxSeq: nat, e: Event): seq<nat> {
    match e
    case Free(ptr) => PushJoins(s, maxSeq, ptr)
    case Alloc => if Empties(s, maxSeq) then PushJoins(StockPopped(s, maxSeq), maxSeq, s.nodes[0]) else []
    case Commit => []
  }

  function Leaves(s: Stock, maxSeq: nat, e: Event): seq<nat> {
    match e
    case Free(ptr) => PushLeaves(s, maxSeq, ptr)
    case Alloc =>
      Leaving(s, maxSeq) + if Empties(s, maxSeq) then PushLeaves(StockPopped(s, maxSeq), maxSeq, s.nodes[0]) else []
    case Commit => []
  }

  function AllJoins(s: Stock, maxSeq: nat, es: seq<Event>): seq<nat>
    decreases |es|
  {
    if es == [] then [] else var r := After(s, maxSeq, es[0]); Joins(s, maxSeq, es[0]) + AllJoins(r.0, r.1, es[1..])
  }

  function AllLeaves(s: Stock, maxSeq: nat, es: seq<Event>): seq<nat>
    decreases |es|
  {
    if es == [] then [] else var r := After(s, maxSeq, es[0]); Leaves(s, maxSeq, es[0]) + AllLeaves(r.0, r.1, es[1..])
  }

  lemma PopStocked(s: Stock, maxSeq: nat)
    requires WellStocked(s)
    ensures WellStocked(StockPopped(s, maxSeq))
    ensures s.queue == Leaving(s, maxSeq) + StockPopped(s, maxSeq).queue
    ensures s.queue != [] ==> StockPopped(s, maxSeq).nodes != []
  {
    if s.queue != [] { NodeShift(s.headSeq, s.tailSeq); }
  }

  lemma GrowStocked(s: Stock, maxSeq: nat)
    requires s.nodes != [] && s.queue != [] && s.headSeq + |s.queue| == s.tailSeq && s.tailSeq % CAP == 0
    requires |s.nodes| == NodeOf(s.headSeq, s.tailSeq)
    ensures WellStocked(StockGrown(s, maxSeq))
    ensures s.queue + (if Empties(s, maxSeq) then [s.nodes[0]] else []) == Leaving(s, maxSeq) + StockGrown(s, maxSeq).queue
  {
    NodeShift(s.headSeq, s.tailSeq);
    NextNode(s.headSeq, s.tailSeq);
    if s.headSeq + 1 <= s.tailSeq { NextNode(s.headSeq + 1, s.tailSeq); }
  }

  lemma PushStocked(s: Stock, maxSeq: nat, ptr: nat)
    requires WellStocked(s)
    ensures WellStocked(StockPushed(s, maxSeq, ptr))
    ensures s.queue + PushJoins(s, maxSeq, ptr) == PushLeaves(s, maxSeq, ptr) + StockPushed(s, maxSeq, ptr).queue
  {
    hide StockGrown, Leaving;
    if s.nodes != [] {
      var w := Queued(s, ptr);
      NextNode(s.headSeq, s.tailSeq);
      if w.tailSeq % CAP == 0 { GrowStocked(w, maxSeq); }
    }
  }

  /** One event keeps the list as long as its queue, and what joins it goes behind what leaves it. */
  lemma EventFifo(s: Stock, maxSeq: nat, e: Event)
    requires WellStocked(s)
    ensures WellStocked(After(s, maxSeq, e).0)
    ensures s.queue + Joins(s, maxSeq, e) == Leaves(s, maxSeq, e) + After(s, maxSeq, e).0.queue
  {
    hide WellStocked, StockPushed, StockPopped, PushJoins, PushLeaves, Leaving;
    match e
    case Free(ptr) => PushStocked(s, maxSeq, ptr);
    case Commit =>
    case Alloc =>
      PopStocked(s, maxSeq);
      SameStocked(s, maxSeq);
      if Empties(s, maxSeq) {
        var p, h := StockPopped(s, maxSeq), s.nodes[0];
        PushStocked(p, maxSeq, h);
        Bytes.Associates(Leaving(s, maxSeq), p.queue, PushJoins(p, maxSeq, h));
        Bytes.Associates(Leaving(s, maxSeq), PushLeaves(p, maxSeq, h), StockPushed(p, maxSeq, h).queue);
      }
  }

  lemma SameStocked(s: Stock, maxSeq: nat)
    ensures WellStocked(StockReused(s, maxSeq)) ==> WellStocked(StockTaken(s, maxSeq))
    ensures StockTaken(s, maxSeq).queue == StockReused(s, maxSeq).queue
  {
    hide StockReused;
  }

  /**
   * First in, first out, over every run of allocations, releases and commits: what was queued, followed
   * by all that joined, is all that left, in order, followed by what is queued now. Nothing is lost.
   */
  lemma {:induction false} FifoRun(s: Stock, maxSeq: nat, es: seq<Event>)
    requires WellStocked(s)
    ensures WellStocked(AfterAll(s, maxSeq, es).0)
    ensures s.queue + AllJoins(s, maxSeq, es) == AllLeaves(s, maxSeq, es) + AfterAll(s, maxSeq, es).0.queue
    decreases |es|
  {
    hide WellStocked, After, Joins, Leaves;
    if es != [] {
      var r := After(s, maxSeq, es[0]);
      EventFifo(s, maxSeq, es[0]);
      FifoRun(r.0, r.1, es[1..]);
      var j, l, js, ls := Joins(s, maxSeq, es[0]), Leaves(s, maxSeq, es[0]), AllJoins(r.0, r.1, es[1..]), AllLeaves(r.0, r.1, es[1..]);
      Bytes.Associates(s.queue, j, js);
      Bytes.Associates(l, r.0.queue, js);
      Bytes.Associates(l, ls, AfterAll(r.0, r.1, es[1..]).0.queue);
    }
  }

  /** So the page number that pageAlloc gives, when it gives one from the queue, is the first to leave. */
  lemma TakenLeaves(s: Stock, maxSeq: nat)
    requires s.headSeq <= maxSeq && s.queue != []
    ensures Leaves(s, maxSeq, Alloc) != [] && PageTaken(s, maxSeq) == Leaves(s, maxSeq, Alloc)[0]
  {
  }

  class Pager {
    var flushed: nat
    var nappend: nat
    var updates: PageMap
    var disk: PageMap
    var headPage: nat
    var headSeq: nat
    var tailPage: nat
    var tailSeq: nat
    var maxSeq: nat
    ghost var nodes: seq<nat>  // the list's pages, head to tail
    ghost var queue: seq<nat>  // the free page numbers, oldest first
    ghost var inUse: set<nat>  // the pages handed out and not yet given back

    /** A new file: page 1 is named as the list's page, and exists nowhere yet. */
    ghost predicate NewFile()
      reads this
    {
      nodes == [1] && queue == [] && flushed + nappend == 2
    }

    ghost function List(): FreeList
      reads this
    {
      FreeList(headPage, headSeq, tailPage, tailSeq, nodes, queue, inUse)
    }

    ghost function Stocked(): Stock
      reads this
    {
      Stock(nodes, queue, headSeq, tailSeq, flushed + nappend)
    }

    ghost predicate Valid()
      reads this
    {
      if NewFile() then headPage == tailPage == 1 && headSeq == tailSeq == 0 && inUse == {}
      else Consistent(flushed + nappend, updates, disk, List())
    }

    /** readRoot on an empty file. */
    constructor ()
      ensures Valid() && NewFile() && inUse == {}
      ensures Stocked() == Stock([1], [], 0, 0, 2) && maxSeq == nappend == 0 && updates == disk == map[]
    {
      hide Consistent, Partition, AllRead, ListOk;
      flushed, nappend, updates, disk := 2, 0, map[], map[];
      headPage, tailPage, headSeq, tailSeq, maxSeq := 1, 1, 0, 0, 0;
      nodes, queue, inUse := [1], [], {};
    }

    method PageAppend(node: Page) returns (ptr: nat)
      requires Partition(nodes, queue, inUse, flushed + nappend) && flushed + nappend > 0 && |node| == WORDS
      modifies this`nappend, this`updates, this`inUse
      ensures ptr == old(flushed + nappend) && flushed + nappend == ptr + 1
      ensures updates == old(updates)[ptr := node]
      ensures Partition(nodes, queue, inUse, flushed + nappend) && inUse == old(inUse) + {ptr}
      ensures ptr !in old(inUse) && ptr !in nodes && ptr !in queue
    {
      NewPage(nodes, queue, inUse, flushed + nappend);
      ptr := flushed + nappend;
      nappend := nappend + 1;
      updates := updates[ptr := node];
      inUse := inUse + {ptr};
    }

    /** The page as this transaction may change it. */
    method PageWrite(ptr: nat) returns (node: Page)
      requires Readable(updates, disk, ptr)
      modifies this`updates
      ensures node == Read(old(updates), disk, ptr) && updates == old(updates)[ptr := node]
    {
      if ptr in updates {
        node := updates[ptr];
        assert updates == updates[ptr := node];
        return;
      }
      node := disk[ptr];
      updates := updates[ptr := node];
    }

    /**
     * freePopHead: the oldest queued page, and the list page that became empty with it; the last
     * list page itself once the queue is empty. Nothing while the head is beyond maxSeq.
     */
    method FreePopHead() returns (ptr: nat, head: nat)
      requires Partition(nodes, queue, inUse, flushed + nappend) && headSeq + |queue| == tailSeq
      requires headPage == if nodes == [] then 0 else nodes[0]
      requires queue == [] ==> |nodes| <= 1
      requires queue != [] ==> ListOk(updates, disk, nodes, queue, headSeq, tailSeq)
      modifies this`headPage, this`tailPage, this`headSeq, this`tailSeq, this`nodes, this`queue, this`inUse
      ensures Partition(nodes, queue, inUse, flushed + nappend)
      ensures queue != [] || (old(headSeq) <= maxSeq && old(queue) != []) ==> ListOk(updates, disk, nodes, queue, headSeq, tailSeq)
      ensures if old(headSeq) > maxSeq then
          && ptr == head == 0 && nodes == old(nodes) && queue == old(queue) && inUse == old(inUse)
          && headPage == old(headPage) && tailPage == old(tailPage) && headSeq == old(headSeq) && tailSeq == old(tailSeq)
        else if old(queue) == [] then
          && ptr == old(headPage) && head == 0 && nodes == [] && queue == []
          && headPage == tailPage == headSeq == tailSeq == 0 && inUse == old(inUse) + (if old(nodes) == [] then {} else {ptr})
        else
          && ptr == old(queue)[0] && ptr != 0 && queue == old(queue)[1..]
          && headSeq == old(headSeq) + 1 && tailSeq == old(tailSeq) && tailPage == old(tailPage)
          && old(nodes) != [] && Readable(updates, disk, old(nodes)[0])
          && if (old(headSeq) + 1) % CAP == 0 then
               && head == old(nodes)[0] && head != 0 && nodes == old(nodes)[1..] && inUse == old(inUse) + {ptr} + {head}
               && headPage == Read(updates, disk, head)[0]
             else
               head == 0 && nodes == old(nodes) && inUse == old(inUse) + {ptr} && headPage == old(headPage)
    {
      hide Partition, ListOk;
      if headSeq > maxSeq { return 0, 0; }
      if headSeq == tailSeq {
        ptr := headPage;
        if nodes != [] {
          FromNodes(nodes, queue, inUse, flushed + nappend);
          inUse := inUse + {ptr};
          nodes := nodes[1..];
        }
        headPage, tailPage, tailSeq, headSeq := 0, 0, 0, 0;
        return ptr, 0;
      }
      Popped(updates, disk, nodes, queue, headSeq, tailSeq);
      FromQueue(nodes, queue, inUse, flushed + nappend);
      var node := Read(updates, disk, headPage);
      ptr := node[1 + headSeq % CAP];
      headSeq := headSeq + 1;
      queue, inUse := queue[1..], inUse + {ptr};
      head := 0;
      if headSeq % CAP == 0 {
        FromNodes(nodes, queue, inUse, flushed + nappend);
        head := headPage;
        headPage := node[0];
        nodes, inUse := nodes[1..], inUse + {head};
      }
    }

    /** Pages in use read as before. */
    twostate predicate UseKept()
      reads this
    {
      SameUse(old(updates), updates, disk, inUse)
    }

    /** freePushTail on a list without pages. */
    method StartList(ptr: nat)
      requires Valid() && !NewFile() && nodes == [] && ptr in inUse
      modifies this`nappend, this`updates, this`inUse, this`headPage, this`tailPage, this`headSeq, this`tailSeq, this`nodes, this`queue
      ensures Valid() && !NewFile() && inUse == old(inUse) - {ptr} && queue == [ptr] && UseKept()
      ensures Stocked() == Stock([old(flushed + nappend)], [ptr], 0, 1, old(flushed + nappend) + 1)
      ensures updates == old(updates)[old(flushed + nappend) := ZEROS[1 := ptr]]
    {
      hide Partition, AllRead, SameUse, ListOk;
      ghost var n, u, q := flushed + nappend, updates, queue;
      Started(n, u, disk, queue, inUse, ptr);
      var newNode := ZEROS;
      var newptr := PageAppend(newNode);
      newNode := newNode[1 := ptr];
      OneInList(newptr, newNode, ptr, old(inUse) - {ptr});
      assert updates == u[n := ZEROS[1 := ptr]];
    }

    /** The fields of a list of one page with one page number. */
    method OneInList(newptr: nat, newNode: Page, ghost ptr: nat, ghost used: set<nat>)
      modifies this`updates, this`inUse, this`headPage, this`tailPage, this`headSeq, this`tailSeq, this`nodes, this`queue
      ensures List() == FreeList(newptr, 0, newptr, 1, [newptr], [ptr], used) && updates == old(updates)[newptr := newNode]
    {
      headPage, tailPage, tailSeq, headSeq := newptr, newptr, 0, 0;
      updates := updates[newptr := newNode];
      tailSeq := tailSeq + 1;
      nodes, queue, inUse := [newptr], [ptr], used;
    }

    ghost predicate Trap(ptr: nat)
      requires Valid() && !NewFile()
      reads this
    {
      nodes != [] && Trapped(updates, disk, headSeq, tailPage, tailSeq, maxSeq, ptr)
    }

    /** The next page is linked behind the last one; restart says that the last one has just left the list. */
    method LinkNext(next: nat, ghost restart: bool)
      requires next in inUse && flushed + nappend > 0
      requires if restart then
          && nodes == [] && queue == [] && headSeq == tailSeq && tailPage in inUse && tailPage != next
          && Partition([], [], inUse, flushed + nappend) && AllRead(updates, disk, flushed + nappend)
        else Open(flushed + nappend, updates, disk, List())
      modifies this`updates, this`tailPage, this`nodes, this`inUse
      ensures tailPage == next && nodes == old(nodes) + [next] && inUse == old(inUse) - {next}
      ensures SameUse(old(updates), updates, disk, if restart then old(inUse) - {old(tailPage)} else inUse)
      ensures Consistent(flushed + nappend, updates, disk, if restart then List().(headPage := next) else List())
    {
      hide Partition, ListOk, NodeOf, AllRead, SameUse, Consistent, Open;
      if restart {
        ListRestarted(flushed + nappend, updates, disk, tailSeq, tailPage, inUse, next);
        assert [] + [next] == [next];
      } else {
        TailLinked(flushed + nappend, updates, disk, List(), next);
      }
      var node := PageWrite(tailPage);
      node := node[0 := next];
      updates := updates[tailPage := node];
      assert updates == PageWith(old(updates), disk, tailPage, 0, next);
      tailPage := next;
      nodes, inUse := nodes + [next], inUse - {next};
    }

    /** An emptied list page is the first page number queued in the new one. */
    method QueueHead(head: nat, ghost hp: nat)
      requires Consistent(flushed + nappend, updates, disk, List().(headPage := hp))
      requires nodes != [] && head in inUse && tailSeq % CAP == 0
      modifies this`updates, this`tailSeq, this`queue, this`inUse
      ensures tailSeq == old(tailSeq) + 1 && queue == old(queue) + [head] && inUse == old(inUse) - {head} && UseKept()
      ensures Consistent(flushed + nappend, updates, disk, List().(headPage := hp))
    {
      hide Partition, ListOk, NodeOf, AllRead, SameUse, Consistent, Open;
      TailWritten(flushed + nappend, updates, disk, List().(headPage := hp), head);
      var newNode := PageWrite(tailPage);
      newNode := newNode[1 := head];
      updates := updates[tailPage := newNode];
      assert WordOf(tailSeq) == 1;
      assert updates == PageWith(old(updates), disk, tailPage, 1, head);
      tailSeq := tailSeq + 1;
      queue, inUse := queue + [head], inUse - {head};
    }

    /**
     * freePushTail's second half: the last page is full; another one is popped or appended, and
     * linked. A list page emptied by the pop is queued in it.
     */
    method GrowTail()
      requires Open(flushed + nappend, updates, disk, List())
      requires tailSeq % CAP == 0
      modifies this`nappend, this`updates, this`inUse, this`headPage, this`tailPage, this`headSeq, this`tailSeq, this`nodes, this`queue
      ensures inUse == old(inUse) && UseKept() && nodes != []
      ensures old(queue) != [] && Readable(old(updates), disk, old(tailPage)) && nappend >= old(nappend)
      ensures if old(headSeq) <= maxSeq && old(headSeq) + 1 == old(tailSeq) && Read(old(updates), disk, old(tailPage))[0] != old(queue)[0]
        then headPage != tailPage && headSeq / CAP == tailSeq / CAP
        else Consistent(flushed + nappend, updates, disk, List())
      ensures Stocked() == StockGrown(old(Stocked()), maxSeq)
    {
      hide Partition, ListOk, NodeOf, AllRead, SameUse, Consistent, Open, StockPopped, EmptiedHead, OldestFree, Empties, Reuses;
      ghost var u, s := updates, inUse;
      OpenTail(flushed + nappend, u, disk, List());
      OpenPopped(flushed + nappend, u, disk, List());
      var next, head := NextPage();
      ghost var u1 := updates;
      LinkAndQueue(next, head, head != 0 && nodes == []);
      SameThrough(u, u1, updates, disk, s, inUse);
    }

    /** A page is popped or appended for the list; with the pop an emptied one may leave it. */
    method NextPage() returns (next: nat, head: nat)
      requires Open(flushed + nappend, updates, disk, List()) && tailSeq % CAP == 0
      modifies this`nappend, this`updates, this`inUse, this`headPage, this`tailPage, this`headSeq, this`tailSeq, this`nodes, this`queue
      ensures flushed + nappend > 0 && nappend >= old(nappend) && tailPage == old(tailPage) && tailSeq == old(tailSeq)
      ensures next in inUse && next != 0 && next !in old(inUse)
      ensures head != 0 ==> head in inUse && head != next && head !in old(inUse)
      ensures inUse == old(inUse) + {next} + (if head == 0 then {} else {head}) && SameUse(old(updates), updates, disk, old(inUse))
      ensures var p := StockPopped(old(Stocked()), maxSeq);
        if Reuses(old(Stocked()), maxSeq) then Stocked() == p && next == OldestFree(old(Stocked()), maxSeq)
        else Stocked() == p.(next := p.next + 1) && next == p.next
      ensures (head != 0 <==> Empties(old(Stocked()), maxSeq)) && head == EmptiedHead(old(Stocked()), maxSeq)
      ensures StockPopped(old(Stocked()), maxSeq).next == old(flushed + nappend)
      ensures nodes == [] <==> head != 0 && old(headSeq) + 1 == tailSeq
      ensures nodes == [] <==> old(headSeq) <= maxSeq && old(headSeq) + 1 == tailSeq
      ensures if head != 0 && nodes == [] then
          && queue == [] && headSeq == tailSeq && tailPage == head && tailPage in inUse && tailPage != next && old(headSeq) <= maxSeq
          && Partition([], [], inUse, flushed + nappend) && AllRead(updates, disk, flushed + nappend) && next == old(queue)[0]
        else Open(flushed + nappend, updates, disk, List())
      ensures nodes == [] ==> updates == old(updates) && headPage == Read(updates, disk, tailPage)[0]
    {
      hide Partition, ListOk, NodeOf, AllRead, SameUse, Consistent;
      ghost var n, u, hs, ns, q, s := flushed + nappend, updates, headSeq, nodes, queue, inUse;
      OpenPopped(n, u, disk, List());
      ListLength(u, disk, ns, q, hs, tailSeq);
      SameAfter(u, disk, s);
      OpenTail(n, u, disk, List());
      next, head := FreePopHead();
      if next == 0 {
        OpenAppended(n, u, disk, List());
        next := PageAppend(ZEROS);
      }
    }

    /** The next page is linked, and a list page emptied before is queued in it. */
    method LinkAndQueue(next: nat, head: nat, ghost restart: bool)
      requires next in inUse && flushed + nappend > 0 && next != 0 && tailSeq % CAP == 0
      requires head != 0 ==> head in inUse && head != next
      requires if restart then
          && nodes == [] && queue == [] && headSeq == tailSeq && tailPage in inUse && tailPage == head != 0
          && Partition([], [], inUse, flushed + nappend) && AllRead(updates, disk, flushed + nappend)
        else Open(flushed + nappend, updates, disk, List())
      modifies this`updates, this`tailPage, this`nodes, this`inUse, this`tailSeq, this`queue
      ensures tailPage == next && nodes == old(nodes) + [next] && inUse == old(inUse) - {next} - (if head == 0 then {} else {head})
      ensures UseKept() && queue == (if head == 0 then old(queue) else old(queue) + [head])
      ensures tailSeq == old(tailSeq) + (if head == 0 then 0 else 1)
      ensures Consistent(flushed + nappend, updates, disk, if restart then List().(headPage := next) else List())
    {
      hide Partition, ListOk, NodeOf, AllRead, SameUse, Consistent, Open;
      ghost var u := updates;
      LinkNext(next, restart);
      ghost var u1 := updates;
      if head != 0 {
        QueueHead(head, if restart then next else headPage);
        SameWithin(u, u1, disk, if restart then old(inUse) - {old(tailPage)} else old(inUse) - {next}, inUse);
        SameThrough(u, u1, updates, disk, inUse, inUse);
      }
    }

    /** The page number written behind the last one, and nothing else. */
    twostate predicate OneWritten(ptr: nat)
      reads this
    {
      && nodes == old(nodes) && queue == old(queue) + [ptr] && headSeq == old(headSeq) && tailSeq == old(tailSeq) + 1
      && Readable(old(updates), disk, old(tailPage))
      && updates == PageWith(old(updates), disk, old(tailPage), WordOf(old(tailSeq)), ptr)
    }

    /** freePushTail's first half: the page number is written behind the last one. */
    method WriteTail(ptr: nat)
      requires Consistent(flushed + nappend, updates, disk, List())
      requires nodes != [] && ptr in inUse
      modifies this`updates, this`inUse, this`tailSeq, this`queue
      ensures tailSeq == old(tailSeq) + 1 && queue == old(queue) + [ptr] && inUse == old(inUse) - {ptr} && UseKept()
      ensures Readable(updates, disk, tailPage) && Readable(old(updates), disk, tailPage)
      ensures Read(updates, disk, tailPage)[0] == Read(old(updates), disk, tailPage)[0] && OneWritten(ptr)
      ensures if tailSeq % CAP != 0
        then Consistent(flushed + nappend, updates, disk, List())
        else Open(flushed + nappend, updates, disk, List())
    {
      hide Partition, ListOk, NodeOf, AllRead, SameUse, Consistent, Open;
      ghost var u, ts := updates, tailSeq;
      TailWritten(flushed + nappend, u, disk, List(), ptr);
      var node := PageWrite(tailPage);
      node := node[1 + tailSeq % CAP := ptr];
      updates := updates[tailPage := node];
      assert updates == PageWith(u, disk, tailPage, WordOf(ts), ptr);
      tailSeq := tailSeq + 1;
      queue, inUse := queue + [ptr], inUse - {ptr};
    }

    /** freePushTail on a list that has pages. */
    method PushBehind(ptr: nat)
      requires Consistent(flushed + nappend, updates, disk, List())
      requires nodes != [] && ptr in inUse && headSeq + |queue| == tailSeq && Readable(updates, disk, tailPage)
      modifies this`nappend, this`updates, this`inUse, this`headPage, this`tailPage, this`headSeq, this`tailSeq, this`nodes, this`queue
      ensures inUse == old(inUse) - {ptr} && UseKept() && nappend >= old(nappend)
      ensures if old(Trapped(updates, disk, headSeq, tailPage, tailSeq, maxSeq, ptr))
        then headPage != tailPage && headSeq / CAP == tailSeq / CAP
        else Consistent(flushed + nappend, updates, disk, List())
      ensures Stocked() == StockPushed(old(Stocked()), maxSeq, ptr)
      ensures (old(tailSeq) + 1) % CAP != 0 ==> OneWritten(ptr)
    {
      hide Partition, ListOk, NodeOf, AllRead, SameUse, Consistent, Open, StockGrown;
      ghost var u, q := updates, queue;
      WriteTail(ptr);
      ghost var w, s := updates, inUse;
      if tailSeq % CAP == 0 {
        assert queue[0] == if q == [] then ptr else q[0];
        GrowTail();
        SameThrough(u, w, updates, disk, s, s);
      }
    }

    /**
     * freePushTail. The list stays a list unless the page is caught in the trap; then the head and
     * tail fields fit no list at all.
     */
    method FreePushTail(ptr: nat)
      requires Valid() && ptr in inUse
      modifies this`nappend, this`updates, this`inUse, this`headPage, this`tailPage, this`headSeq, this`tailSeq, this`nodes, this`queue
      ensures !old(NewFile()) && inUse == old(inUse) - {ptr} && UseKept()
      ensures if old(Trap(ptr))
        then NoList(updates, disk, headPage, headSeq, tailPage, tailSeq)
        else Valid() && !NewFile()
      ensures Stocked() == StockPushed(old(Stocked()), maxSeq, ptr)
      ensures var n := old(flushed + nappend);
        old(nodes) == [] ==> updates == old(updates)[n := ZEROS[1 := ptr]]
      ensures old(nodes) != [] && (old(tailSeq) + 1) % CAP != 0 ==> OneWritten(ptr)
    {
      hide Partition, ListOk, NodeOf, AllRead, SameUse, Consistent, NoList;
      assert !NewFile();
      GoodEnds(flushed + nappend, updates, disk, List(), ptr);
      if tailPage == 0 {
        StartList(ptr);
        return;
      }
      PushBehind(ptr);
      if headPage != tailPage && headSeq / CAP == tailSeq / CAP { HeadTailApart(updates, disk, headPage, headSeq, tailPage, tailSeq); }
    }

    /** freePopHead between calls; a new file gives up the page it names. */
    method PopForUse() returns (ptr: nat, head: nat)
      requires Valid()
      modifies this`headPage, this`tailPage, this`headSeq, this`tailSeq, this`nodes, this`queue, this`inUse
      ensures if old(NewFile()) then ptr == 1 && headPage == headSeq == tailPage == tailSeq == 0 else Valid()
      ensures !NewFile() && (ptr == 0 ==> old(headSeq) > maxSeq || old(nodes) == [])
      ensures inUse == old(inUse) + (if ptr == 0 then {} else {ptr}) + (if head == 0 then {} else {head})
      ensures ptr !in old(inUse) && head !in old(inUse) && (head != 0 ==> ptr != 0 && head != ptr && headSeq % CAP == 0)
      ensures Stocked() == StockPopped(old(Stocked()), maxSeq)
      ensures ptr == OldestFree(old(Stocked()), maxSeq) && (ptr != 0 <==> Reuses(old(Stocked()), maxSeq))
      ensures head == EmptiedHead(old(Stocked()), maxSeq) && (head != 0 <==> Empties(old(Stocked()), maxSeq))
    {
      hide Partition, ListOk, NodeOf, AllRead, Consistent;
      ghost var n := flushed + nappend;
      if NewFile() {
        FirstPage(updates, disk, ZEROS);
      } else {
        GoodParts(n, updates, disk, List());
      }
      ghost var isNew := NewFile();
      if queue != [] {
        GoodPopped(n, updates, disk, List());
      } else if nodes != [] && !isNew {
        GoodEmptied(n, updates, disk, List());
      }
      ghost var s := inUse;
      ptr, head := FreePopHead();
      assert ptr == 0 ==> inUse == s;
      if ptr != 0 && !isNew { GoodEnds(n, updates, disk, List(), ptr); }
    }

    /** pageAlloc's first half: a page to reuse, or 0; a list page emptied with it is queued. */
    method TakeFree() returns (ptr: nat)
      requires Valid()
      modifies this`nappend, this`updates, this`inUse, this`headPage, this`tailPage, this`headSeq, this`tailSeq, this`nodes, this`queue
      ensures !NewFile() && if old(NewFile()) then ptr == 1 && List() == FreeList(0, 0, 0, 0, [], [], {1}) else Valid()
      ensures ptr !in old(inUse) && inUse == old(inUse) + (if ptr == 0 then {} else {ptr})
      ensures ptr == 0 ==> old(headSeq) > maxSeq || old(nodes) == []
      ensures SameUse(old(updates), updates, disk, old(inUse))
      ensures Stocked() == StockReused(old(Stocked()), maxSeq) && ptr == OldestFree(old(Stocked()), maxSeq)
      ensures ptr != 0 <==> Reuses(old(Stocked()), maxSeq)
      ensures !Empties(old(Stocked()), maxSeq) ==> updates == old(updates)
    {
      hide Partition, ListOk, NodeOf, AllRead, SameUse, Consistent, Open, NoList;
      ghost var u, q, s := updates, queue, inUse;
      var head;
      ptr, head := PopForUse();
      SameAfter(u, disk, s);
      if head != 0 {
        FreePushTail(head);
        SameThrough(u, u, updates, disk, s, inUse);
      }
    }

    /**
     * pageAlloc: the oldest queued page, if one may be reused yet; the page of an emptied list; or
     * one more page at the end of the file. The page was not in use, and no page in use changes.
     */
    method PageAlloc(node: Page) returns (ptr: nat)
      requires Valid() && |node| == WORDS
      modifies this`nappend, this`updates, this`inUse, this`headPage, this`tailPage, this`headSeq, this`tailSeq, this`nodes, this`queue
      ensures Valid() && !NewFile()
      ensures ptr >= 1 && ptr !in old(inUse) && inUse == old(inUse) + {ptr} && ptr in updates && updates[ptr] == node
      ensures SameUse(old(updates), updates, disk, old(inUse))
      ensures Stocked() == StockTaken(old(Stocked()), maxSeq) && ptr == PageTaken(old(Stocked()), maxSeq)
      ensures !Empties(old(Stocked()), maxSeq) ==> updates == old(updates)[ptr := node]
    {
      hide Partition, ListOk, NodeOf, AllRead, SameUse, Consistent, Open, NoList;
      ghost var u, s := updates, inUse;
      ghost var isNew := NewFile();
      ptr := TakeFree();
      if ptr != 0 {
        if isNew {
          FirstPage(updates, disk, node);
          assert inUse == {1};
        } else {
          WriteInUse(flushed + nappend, updates, disk, List(), ptr, node, u, s);
        }
        updates := updates[ptr := node];
        return;
      }
      Appended(flushed + nappend, updates, disk, List(), node);
      ptr := PageAppend(node);
    }

    /** saveMeta, at the start of a transaction: the state of the file. */
    method Begin() returns (m: Meta)
      requires Valid() && nappend == 0 && updates == map[]
      ensures Holds(m, disk, Stocked(), maxSeq, inUse)
    {
      m := Meta(flushed, headPage, headSeq, tailPage, tailSeq, maxSeq);
    }

    /** updateFile, when every write succeeds: no page reads differently. */
    method UpdateFile()
      requires Valid()
      modifies this`flushed, this`nappend, this`updates, this`disk, this`maxSeq
      ensures Valid() && nappend == 0 && updates == map[] && maxSeq == tailSeq && Stocked() == old(Stocked())
      ensures flushed == old(flushed + nappend)
      ensures forall p :: Readable(old(updates), old(disk), p) ==>
                p in disk && Readable(updates, disk, p) && Read(updates, disk, p) == Read(old(updates), old(disk), p)
    {
      hide Partition;
      if !NewFile() {
        Written(flushed + nappend, updates, disk, List());
      }
      disk := disk + updates;
      flushed := flushed + nappend;
      nappend := 0;
      updates := map[];
      maxSeq := tailSeq;
    }

    /**
     * Abort: whatever was allocated and freed since Begin, the list and the pages in use are those of
     * Begin again, and so are the page numbers that may be reused.
     */
    method Abort(m: Meta, ghost s: Stock, ghost max: nat, ghost used: set<nat>)
      requires Holds(m, disk, s, max, used)
      modifies this`flushed, this`nappend, this`updates, this`headPage, this`tailPage, this`headSeq, this`tailSeq, this`maxSeq,
               this`nodes, this`queue, this`inUse
      ensures Valid() && Stocked() == s && maxSeq == max && inUse == used && nappend == 0 && updates == map[]
      ensures PageTaken(Stocked(), maxSeq) == PageTaken(s, max)
    {
      hide Consistent, PageTaken;
      LoadMeta(m, s, used);
      nappend, updates := 0, map[];
    }

    /** loadMeta */
    method LoadMeta(m: Meta, ghost s: Stock, ghost used: set<nat>)
      modifies this`flushed, this`headPage, this`tailPage, this`headSeq, this`tailSeq, this`maxSeq, this`nodes, this`queue, this`inUse
      ensures List() == FreeList(m.headPage, m.headSeq, m.tailPage, m.tailSeq, s.nodes, s.queue, used)
      ensures flushed == m.flushed && maxSeq == m.maxSeq
    {
      flushed, headPage, headSeq, tailPage, tailSeq, maxSeq := m.flushed, m.headPage, m.headSeq, m.tailPage, m.tailSeq, m.maxSeq;
      nodes, queue, inUse := s.nodes, s.queue, used;
    }
  }

  /** The fields kept in the meta page. */
  datatype Meta = Meta(flushed: nat, headPage: nat, headSeq: nat, tailPage: nat, tailSeq: nat, maxSeq: nat)

  /** The meta page and the disk have this list, with these pages in use. */
  ghost predicate Holds(m: Meta, dk: PageMap, s: Stock, maxSeq: nat, inUse: set<nat>) {
    && m.flushed == s.next && m.headSeq == s.headSeq && m.tailSeq == s.tailSeq && m.maxSeq == maxSeq
    && if s.nodes == [1] && s.queue == [] && s.next == 2
       then m.headPage == m.tailPage == 1 && m.headSeq == m.tailSeq == 0 && inUse == {}
       else Consistent(m.flushed, map[], dk, FreeList(m.headPage, m.headSeq, m.tailPage, m.tailSeq, s.nodes, s.queue, inUse))
  }

  /** A transaction that is aborted, whatever number of pages it has taken: everything is as before. */
  method TakeAndAbort(p: Pager, n: nat)
    requires p.Valid() && p.nappend == 0 && p.updates == map[]
    modifies p
    ensures p.Valid() && p.Stocked() == old(p.Stocked()) && p.maxSeq == old(p.maxSeq) && p.inUse == old(p.inUse)
    ensures p.disk == old(p.disk) && p.nappend == 0 && p.updates == map[]
    ensures PageTaken(p.Stocked(), p.maxSeq) == old(PageTaken(p.Stocked(), p.maxSeq))
  {
    hide Consistent, Partition, ListOk, NodeOf, AllRead, SameUse, StockTaken, PageTaken, Empties, Holds;
    ghost var s, max, used, dk := p.Stocked(), p.maxSeq, p.inUse, p.disk;
    var m := p.Begin();
    for i := 0 to n
      invariant p.Valid() && p.disk == dk && Holds(m, dk, s, max, used)
    {
      var ptr := p.PageAlloc(ZEROS);
    }
    p.Abort(m, s, max, used);
  }

  /** Two pages given back and committed; then a transaction is aborted, and the next one is given the two, in order. */
  method ReuseAfterAbort() returns (x: nat, y: nat)
    ensures x == 1 && y == 2
  {
    hide Consistent, Partition, ListOk, NodeOf, AllRead, SameUse, NoList, Open, Holds, Read, Readable;
    var p := TwoFreed();
    TakeAndAbort(p, 1);
    x := p.PageAlloc(ZEROS);
    y := p.PageAlloc(ZEROS);
  }

  /** A file in which the pages 1 and 2 are free, and page 3 says so. */
  method TwoFreed() returns (p: Pager)
    ensures fresh(p) && p.Valid() && p.nappend == 0 && p.updates == map[]
    ensures p.Stocked() == Stock([3], [1, 2], 0, 2, 4) && p.maxSeq == 2 && p.inUse == {}
  {
    hide Consistent, Partition, ListOk, NodeOf, AllRead, SameUse, NoList, Open, Read, Readable;
    p := new Pager();
    assert p.Stocked() == Stock([1], [], 0, 0, 2) && p.maxSeq == 0;
    var a := p.PageAlloc(ZEROS);
    assert p.Stocked() == Stock([], [], 0, 0, 2);
    var b := p.PageAlloc(ZEROS);
    assert p.Stocked() == Stock([], [], 0, 0, 3);
    p.FreePushTail(a);
    assert p.Stocked() == Stock([3], [1], 0, 1, 4);
    p.FreePushTail(b);
    p.UpdateFile();
  }

  /**
   * Where the list is, in the words of its pages of 512: the next page's number in word 0, and the page
   * number with sequence number q in word 1 + q % 511 of its page.
   */
  lemma ListWords(p: Pager)
    requires p.Valid() && !p.NewFile() && p.nodes != []
    ensures p.headPage == p.nodes[0] && p.tailPage == p.nodes[|p.nodes| - 1] && p.headSeq + |p.queue| == p.tailSeq
    ensures forall i :: 0 <= i < |p.nodes| ==> Readable(p.updates, p.disk, p.nodes[i]) && |Read(p.updates, p.disk, p.nodes[i])| == 512
    ensures forall i :: 0 <= i < |p.nodes| - 1 ==> Read(p.updates, p.disk, p.nodes[i])[0] == p.nodes[i + 1]
    ensures forall q {:trigger p.queue[q - p.headSeq]} :: p.headSeq <= q < p.tailSeq ==>
              && 0 <= q / 511 - p.headSeq / 511 < |p.nodes|
              && Read(p.updates, p.disk, p.nodes[q / 511 - p.headSeq / 511])[1 + q % 511] == p.queue[q - p.headSeq]
  {
    hide Partition, AllRead;
    forall q: nat | p.headSeq <= q < p.tailSeq
      ensures 0 <= q / 511 - p.headSeq / 511 < |p.nodes|
      ensures Read(p.updates, p.disk, p.nodes[q / 511 - p.headSeq / 511])[1 + q % 511] == p.queue[q - p.headSeq]
    {
      assert ItemAt(p.updates, p.disk, p.nodes, p.queue, p.headSeq, q);
    }
  }

  /** Every valid state is one from which runs are first in, first out. */
  lemma ValidStocked(p: Pager)
    requires p.Valid()
    ensures WellStocked(p.Stocked())
  {
    hide Partition, AllRead;
  }

  /** A list of one page has it at both ends. */
  lemma OnlyPage(p: Pager)
    requires p.Valid() && !p.NewFile() && |p.nodes| == 1
    ensures p.tailPage == p.nodes[0] && Readable(p.updates, p.disk, p.nodes[0])
  {
    hide Partition, NodeOf;
  }

  /** Page 1 in one transaction given back, and in the next one taken again. */
  method GiveAndTake(p: Pager)
    requires p.Valid() && p.inUse == {1} && p.queue == [] && p.headSeq == p.tailSeq < 510
    requires if p.headSeq == 0 then p.nodes == [] && p.flushed + p.nappend == 2
      else p.nodes == [2] && Readable(p.updates, p.disk, 2) && Read(p.updates, p.disk, 2)[0] == 0
    modifies p
    ensures p.Valid() && !p.NewFile() && p.inUse == {1} && p.queue == []
    ensures p.headSeq == p.tailSeq == old(p.headSeq) + 1 && p.headSeq <= p.maxSeq
    ensures p.nodes == [2] && Readable(p.updates, p.disk, 2) && Read(p.updates, p.disk, 2)[0] == 0
  {
    hide Partition, ListOk, NodeOf, AllRead, SameUse, Consistent, Open, NoList;
    ghost var s := p.headSeq;
    GiveBack(p);
    p.UpdateFile();
    assert (s + 1) % CAP != 0;
    var ptr := p.PageAlloc(ZEROS);
    assert ptr == 1;
  }

  method GiveBack(p: Pager)
    requires p.Valid() && p.inUse == {1} && p.queue == [] && p.headSeq == p.tailSeq < 510
    requires if p.headSeq == 0 then p.nodes == [] && p.flushed + p.nappend == 2
      else p.nodes == [2] && Readable(p.updates, p.disk, 2) && Read(p.updates, p.disk, 2)[0] == 0
    modifies p
    ensures p.Valid() && !p.NewFile() && p.inUse == {} && p.queue == [1] && p.headSeq == old(p.headSeq) && p.tailSeq == old(p.tailSeq) + 1
    ensures p.nodes == [2] && Readable(p.updates, p.disk, 2) && Read(p.updates, p.disk, 2)[0] == 0
  {
    hide Partition, ListOk, NodeOf, AllRead, SameUse, Consistent, Open, NoList;
    if p.nodes != [] { OnlyPage(p); }
    p.FreePushTail(1);
    assert p.nodes == [2];
  }

  /**
   * A file in which freePushTail loses the list: page 1 is handed out, and in each of 510 transactions
   * it is given back and, after the commit, taken again. Giving it back once more fills the list page.
   */
  method ReachTrap() returns (p: Pager)
    ensures fresh(p) && p.Valid() && !p.NewFile() && p.nodes == [2] && p.queue == [] && p.inUse == {1} && p.Trap(1)
  {
    hide Partition, ListOk, NodeOf, AllRead, SameUse, Consistent, Open, NoList;
    p := new Pager();
    var ptr := p.PageAlloc(ZEROS);
    var i := 0;
    while i < 510
      invariant i <= 510 && fresh(p) && p.Valid() && !p.NewFile() && p.inUse == {1} && p.queue == []
      invariant p.headSeq == p.tailSeq == i && i <= p.maxSeq
      invariant if i == 0 then p.nodes == [] && p.flushed + p.nappend == 2
        else p.nodes == [2] && Readable(p.updates, p.disk, 2) && Read(p.updates, p.disk, 2)[0] == 0
    {
      GiveAndTake(p);
      i := i + 1;
    }
    OnlyPage(p);
  }

  /** On such a file freePushTail leaves a head and a tail that fit no list. */
  method LoseList() returns (p: Pager)
    ensures fresh(p) && NoList(p.updates, p.disk, p.headPage, p.headSeq, p.tailPage, p.tailSeq)
  {
    hide NoList;
    p := ReachTrap();
    p.FreePushTail(1);
  }

  /** The disk pages after a commit. */
  lemma Written(n: nat, up: PageMap, dk: PageMap, l: FreeList)
    requires Consistent(n, up, dk, l)
    ensures Consistent(n, map[], dk + up, l)
  {
    hide Partition, NodeOf, WordOf;
    forall s | l.headSeq <= s < l.tailSeq ensures ItemAt(map[], dk + up, l.nodes, l.queue, l.headSeq, s) {
      assert ItemAt(up, dk, l.nodes, l.queue, l.headSeq, s);
    }
    forall p | 1 <= p < n ensures Readable(map[], dk + up, p) { assert Readable(up, dk, p); }
    assert ListOk(map[], dk + up, l.nodes, l.queue, l.headSeq, l.tailSeq);
  }

  lemma GoodParts(n: nat, up: PageMap, dk: PageMap, l: FreeList)
    requires Consistent(n, up, dk, l)
    ensures n > 0 && Partition(l.nodes, l.queue, l.inUse, n) && ListOk(up, dk, l.nodes, l.queue, l.headSeq, l.tailSeq)
    ensures l.headSeq + |l.queue| == l.tailSeq && l.headPage == if l.nodes == [] then 0 else l.nodes[0]
    ensures l.nodes == [] ==> l.headPage == l.tailPage == l.headSeq == l.tailSeq == 0 && l.queue == []
    ensures l.queue == [] ==> |l.nodes| <= 1
    ensures 0 !in l.inUse
  {
    hide AllRead;
    Disjoint(l.nodes, l.queue, l.inUse, n);
  }

  /** The oldest item taken from a list between calls. */
  lemma GoodPopped(n: nat, up: PageMap, dk: PageMap, l: FreeList)
    requires Consistent(n, up, dk, l) && l.queue != []
    ensures Readable(up, dk, l.headPage) && l.nodes != [] && l.headPage == l.nodes[0]
    ensures l.queue[0] !in l.inUse && l.headPage !in l.inUse && l.headPage != l.queue[0] && l.headPage != 0 && l.queue[0] != 0
    ensures (l.headSeq + 1) % CAP != 0 ==>
      Consistent(n, up, dk, l.(headSeq := l.headSeq + 1, queue := l.queue[1..], inUse := l.inUse + {l.queue[0]}))
    ensures (l.headSeq + 1) % CAP == 0 ==>
      Consistent(n, up, dk, HeadGone(up, dk, l))
  {
    hide Partition, AllRead;
    Popped(up, dk, l.nodes, l.queue, l.headSeq, l.tailSeq);
    NodeShift(l.headSeq, l.tailSeq);
    Disjoint(l.nodes, l.queue, l.inUse, n);
    FromQueue(l.nodes, l.queue, l.inUse, n);
    FromNodes(l.nodes, l.queue[1..], l.inUse + {l.queue[0]}, n);
  }

  /** With nothing queued, the list's only page is taken. */
  lemma GoodEmptied(n: nat, up: PageMap, dk: PageMap, l: FreeList)
    requires Consistent(n, up, dk, l) && l.nodes != [] && l.queue == []
    ensures l.headPage == l.nodes[0] && l.headPage !in l.inUse && l.headPage != 0
    ensures Consistent(n, up, dk, FreeList(0, 0, 0, 0, [], [], l.inUse + {l.headPage}))
  {
    hide Partition, AllRead;
    FromNodes(l.nodes, [], l.inUse, n);
    Disjoint(l.nodes, [], l.inUse, n);
    assert |l.nodes| == 1;
    assert l.nodes[1..] == [];
  }

  /** The page a new file names, written for the first time. */
  lemma FirstPage(up: PageMap, dk: PageMap, c: Page)
    requires |c| == WORDS
    ensures Partition([1], [], {}, 2) && SameUse(up, up[1 := c], dk, {})
    ensures Consistent(2, up[1 := c], dk, FreeList(0, 0, 0, 0, [], [], {1}))
  {
    forall p: nat ensures Owned([1], [], {})[p] == if 1 <= p < 2 then 1 else 0 {
      assert multiset([1])[p] == if p == 1 then 1 else 0;
    }
    FromNodes([1], [], {}, 2);
    assert [1][1..] == [] && {} + {[1][0]} == {1};
  }

  /** A page in use rewritten. */
  lemma WriteInUse(n: nat, up: PageMap, dk: PageMap, l: FreeList, p: nat, c: Page, u: PageMap, s: set<nat>)
    requires Consistent(n, up, dk, l) && p in l.inUse && |c| == WORDS
    requires SameUse(u, up, dk, s) && p !in s
    ensures Consistent(n, up[p := c], dk, l)
    ensures SameUse(u, up[p := c], dk, s)
  {
    hide Partition, ListOk, NodeOf, AllRead, SameUse;
    Disjoint(l.nodes, l.queue, l.inUse, n);
    WriteElsewhere(up, dk, l.nodes, l.queue, l.headSeq, l.tailSeq, p, c);
    KeptWrite(u, up, dk, s, p, c, n);
  }

  /** One page more at the end of the file. */
  lemma Appended(n: nat, up: PageMap, dk: PageMap, l: FreeList, c: Page)
    requires Consistent(n, up, dk, l) && |c| == WORDS
    ensures n > 0 && Partition(l.nodes, l.queue, l.inUse, n) && n !in l.inUse
    ensures Consistent(n + 1, up[n := c], dk, l.(inUse := l.inUse + {n}))
    ensures SameUse(up, up[n := c], dk, l.inUse)
  {
    hide ListOk, NodeOf, AllRead, SameUse, Partition;
    NewPage(l.nodes, l.queue, l.inUse, n);
    WriteElsewhere(up, dk, l.nodes, l.queue, l.headSeq, l.tailSeq, n, c);
    SameAfter(up, dk, l.inUse);
    KeptWrite(up, up, dk, l.inUse, n, c, n);
  }

  lemma GoodEnds(n: nat, up: PageMap, dk: PageMap, l: FreeList, p: nat)
    requires Consistent(n, up, dk, l) && p in l.inUse
    ensures l.headSeq + |l.queue| == l.tailSeq
    ensures if l.nodes == [] then l.tailPage == 0 && l.queue == []
      else l.tailPage != 0 && l.tailPage in l.nodes && Readable(up, dk, l.tailPage) && n > 2
  {
    Disjoint(l.nodes, l.queue, l.inUse, n);
  }

  /** Head and tail in one list page, under different page numbers: no list has these ends. */
  lemma HeadTailApart(up: PageMap, dk: PageMap, headPage: nat, headSeq: nat, tailPage: nat, tailSeq: nat)
    requires headPage != tailPage && headSeq / CAP == tailSeq / CAP
    ensures NoList(up, dk, headPage, headSeq, tailPage, tailSeq)
  {
    hide Partition, AllRead, ListOk;
  }

  lemma OpenTail(n: nat, up: PageMap, dk: PageMap, l: FreeList)
    requires Open(n, up, dk, l)
    ensures Readable(up, dk, l.tailPage) && l.headPage !in l.inUse && (l.queue != [] ==> l.queue[0] !in l.inUse && l.queue[0] != l.headPage)
  {
    hide Partition, AllRead;
    Disjoint(l.nodes, l.queue, l.inUse, n);
  }

  /** How many nodes a queue reaches over when its tail moves on by one. */
  lemma NextNode(hs: nat, ts: nat)
    requires hs <= ts
    ensures NodeOf(hs, ts + 1) == NodeOf(hs, ts) + if (ts + 1) % CAP == 0 then 1 else 0
  {
  }

  lemma ListLength(up: PageMap, dk: PageMap, nodes: seq<nat>, queue: seq<nat>, hs: nat, ts: nat)
    requires ListOk(up, dk, nodes, queue, hs, ts)
    ensures hs + |queue| == ts
  {
  }

  lemma ListReadable(up: PageMap, dk: PageMap, nodes: seq<nat>, queue: seq<nat>, hs: nat, ts: nat, i: nat)
    requires ListOk(up, dk, nodes, queue, hs, ts) && i < |nodes|
    ensures Readable(up, dk, nodes[i]) && (i + 1 < |nodes| ==> Read(up, dk, nodes[i])[0] == nodes[i + 1])
    ensures hs + |queue| == ts
  {
  }

  lemma OneNode(up: PageMap, dk: PageMap, p: nat, s: nat)
    requires Readable(up, dk, p)
    ensures ListOk(up, dk, [p], [], s, s) && NodeOf(s, s) == 0
  {
  }
}
