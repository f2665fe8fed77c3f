/**
 * Filling page buffers in place: nodeAppendKV, nodeAppendRange and the page edits made of them
 * (storage/btree.go). Every edit is the matching edit of the entry sequence.
 */
module Builders {
  import opened Bytes
  import opened Pages

  lemma HeaderKept(s: bytes, p: nat, x: bytes)
    requires HEADER <= p && p + |x| <= |s|
    ensures Splice(s, p, x)[..HEADER] == s[..HEADER]
    ensures NKeys(Splice(s, p, x)) == NKeys(s)
  {
    assert forall i :: 0 <= i < HEADER ==> Splice(s, p, x)[i] == s[i];
  }

  /** Writing the next pointer. */
  lemma WritePtr(s: bytes, n: nat, ps: seq<Entry>, os: seq<Entry>, ds: seq<Entry>, e: Entry)
    requires Areas(s, n, ps, os, ds) && |ps| < n
    ensures Areas(Splice(s, PtrPos(|ps|), ToLE(e.ptr, 8)), n, ps + [e], os, ds)
  {
    hide DataSize, PtrBytes, OffsetBytes, DataBytes, ToLE, At, Splice, U16Bytes, NKeys;
    var p, x := PtrPos(|ps|), ToLE(e.ptr, 8);
    Snoc(ps, e);
    assert PtrBytes(ps + [e]) == PtrBytes(ps) + x;
    HeaderKept(s, p, x);
    AtBefore(s, p, x, HEADER, PtrBytes(ps));
    AtAfter(s, p, x, OffsetsStart(n), OffsetBytes(os));
    AtAfter(s, p, x, DataStart(n), DataBytes(ds));
    AtSpliced(s, p, x);
    AtJoin(Splice(s, p, x), HEADER, PtrBytes(ps), p, x);
  }

  /** Writing the next offset: where the slot of e ends. */
  lemma WriteOffset(s: bytes, n: nat, ps: seq<Entry>, os: seq<Entry>, ds: seq<Entry>, e: Entry, v: nat)
    requires Areas(s, n, ps, os, ds) && |os| < n && v == DataSize(os + [e])
    ensures Areas(Splice(s, OffsetsStart(n) + |os| + |os|, U16Bytes(v)), n, ps, os + [e], ds)
  {
    hide DataSize, PtrBytes, OffsetBytes, DataBytes, ToLE, At, Splice, U16Bytes, EntrySize, NKeys;
    var p, x := OffsetsStart(n) + |os| + |os|, U16Bytes(v);
    Snoc(os, e);
    HeaderKept(s, p, x);
    AtBefore(s, p, x, HEADER, PtrBytes(ps));
    AtBefore(s, p, x, OffsetsStart(n), OffsetBytes(os));
    AtAfter(s, p, x, DataStart(n), DataBytes(ds));
    AtSpliced(s, p, x);
    AtJoin(Splice(s, p, x), OffsetsStart(n), OffsetBytes(os), p, x);
  }

  /** Writing the data of the next entries. */
  lemma WriteData(s: bytes, n: nat, ps: seq<Entry>, os: seq<Entry>, ds: seq<Entry>, xs: seq<Entry>)
    requires Areas(s, n, ps, os, ds)
    requires DataStart(n) + DataSize(ds) + DataSize(xs) <= |s|
    ensures Areas(Splice(s, DataStart(n) + DataSize(ds), DataBytes(xs)), n, ps, os, ds + xs)
  {
    hide DataSize, PtrBytes, OffsetBytes, DataBytes, ToLE, At, Splice, U16Bytes, EntrySize, NKeys;
    var p, x := DataStart(n) + DataSize(ds), DataBytes(xs);
    HeaderKept(s, p, x);
    AtBefore(s, p, x, HEADER, PtrBytes(ps));
    AtBefore(s, p, x, OffsetsStart(n), OffsetBytes(os));
    AtBefore(s, p, x, DataStart(n), DataBytes(ds));
    AtSpliced(s, p, x);
    DataConcat(ds, xs);
    AtJoin(Splice(s, p, x), DataStart(n), DataBytes(ds), p, x);
  }

  // ------------------------------------------------------------ single writes

  method SetHeader(b: array<byte>, kind: Kind, nkeys: nat)
    requires DataStart(nkeys) <= b.Length < TWO_16
    modifies b
    ensures BType(b[..]) == KindCode(kind)
    ensures FilledFor(b[..], nkeys, [])
  {
    PutU16(b, 0, KindCode(kind));
    PutU16(b, 2, nkeys);
    EmptyData();
  }

  method SetPtr(b: array<byte>, idx: nat, ptr: nat)
    requires HEADER <= b.Length && KvStart(b[..]) <= b.Length && idx < NKeys(b[..])
    modifies b
    ensures b[..] == Splice(old(b[..]), PtrPos(idx), ToLE(ptr, 8))
  {
    PutU64(b, PtrPos(idx), ptr);
  }

  method SetOffset(b: array<byte>, idx: nat, val: nat)
    requires HEADER <= b.Length && KvStart(b[..]) <= b.Length && 1 <= idx <= NKeys(b[..])
    modifies b
    ensures b[..] == Splice(old(b[..]), OffsetPos(old(b[..]), idx), U16Bytes(val))
  {
    PutU16(b, OffsetPos(b[..], idx), val);
  }

  method PutEntry(b: array<byte>, pos: nat, ghost ptr: nat, key: bytes, val: bytes)
    requires pos + 4 + |key| + |val| <= b.Length
    modifies b
    ensures b[..] == Splice(old(b[..]), pos, EntryBytes(Entry(ptr, key, val)))
  {
    hide U16Bytes, Splice;
    ghost var s := b[..];
    ghost var k, v := U16Bytes(|key|), U16Bytes(|val|);
    PutU16(b, pos, |key|);
    PutU16(b, pos + 2, |val|);
    SpliceTwice(s, pos, k, v);
    Copy(b, pos + 4, key);
    SpliceTwice(s, pos, k + v, key);
    Copy(b, pos + 4 + |key|, val);
    SpliceTwice(s, pos, k + v + key, val);
  }

  // ------------------------------------------------------------ nodeAppendKV

  method NodeAppendKV(b: array<byte>, idx: nat, ptr: nat, key: bytes, val: bytes, ghost n: nat, ghost es: seq<Entry>)
    requires FilledFor(b[..], n, es) && idx == |es| < n
    requires StorableEntry(Entry(ptr, key, val))
    requires DataStart(n) + DataSize(es) + 4 + |key| + |val| <= b.Length
    modifies b
    ensures b[..HEADER] == old(b[..HEADER])
    ensures FilledFor(b[..], n, es + [Entry(ptr, key, val)])
  {
    hide DataSize, PtrBytes, OffsetBytes, DataBytes, EntryBytes, U16Bytes, At, ToLE, Splice, Storable;
    ghost var e := Entry(ptr, key, val);
    SingleData(e);
    assert es[..idx] == es;
    ghost var s := b[..];
    SetPtr(b, idx, ptr);
    HeaderKept(s, PtrPos(idx), ToLE(ptr, 8));
    WritePtr(s, n, es, es, es, e);
    s := b[..];
    ReadOffset(s, n, es + [e], es, es, idx);
    var pos := KvPos(b[..], idx);
    PutEntry(b, pos, ptr, key, val);
    HeaderKept(s, pos, EntryBytes(e));
    WriteData(s, n, es + [e], es, es, [e]);
    s := b[..];
    ReadOffset(s, n, es + [e], es, es + [e], idx);
    ghost var v := DataSize(es + [e]);
    DataConcat(es, [e]);
    SetOffset(b, idx + 1, GetOffset(b[..], idx) + 4 + |key| + |val|);
    HeaderKept(s, OffsetsStart(n) + idx + idx, U16Bytes(v));
    WriteOffset(s, n, es + [e], es, es + [e], e, v);
    StorableSnoc(es, e);
    assert b[..][..HEADER] == b[..HEADER];
  }

  lemma SingleData(e: Entry)
    ensures DataSize([e]) == EntrySize(e) && DataBytes([e]) == EntryBytes(e)
  {
    Snoc([], e);
    assert [] + [e] == [e];
  }

  lemma StorableSnoc(es: seq<Entry>, e: Entry)
    requires Storable(es) && StorableEntry(e)
    ensures Storable(es + [e])
  {
  }

  // ------------------------------------------------------------ nodeAppendRange

  /** A stretch of slots: where its data lies, and how far it reaches. */
  lemma RangeData(s: bytes, n: nat, os: seq<Entry>, src: nat, k: nat)
    requires FilledFor(s, n, os) && src + k <= |os| && DataSize(os) < TWO_16
    ensures GetOffset(s, src) == DataSize(os[..src]) <= GetOffset(s, src + k) == DataSize(os[..src + k]) <= DataSize(os)
    ensures DataSize(os[..src + k]) == DataSize(os[..src]) + DataSize(os[src..src + k])
    ensures s[KvPos(s, src)..KvPos(s, src + k)] == DataBytes(os[src..src + k])
  {
    hide DataSize, PtrBytes, OffsetBytes, DataBytes, At, Storable, GetOffset;
    ReadOffset(s, n, os, os, os, src);
    ReadOffset(s, n, os, os, os, src + k);
    var a, x, c := os[..src], os[src..src + k], os[src + k..];
    ThreePieces(os, src, src + k);
    DataConcat(a, x);
    DataConcat(a + x, c);
    var p, q := DataStart(n), KvPos(s, src);
    assert q == p + |DataBytes(a)|;
    AtConcat(s, p, DataBytes(a) + DataBytes(x), DataBytes(c));
    AtConcat(s, p, DataBytes(a), DataBytes(x));
    AtSlice(s, q, DataBytes(x), KvPos(s, src + k));
  }

  lemma AtSlice(s: bytes, p: nat, x: bytes, q: nat)
    requires At(s, p, x) && q == p + |x|
    ensures p <= q <= |s| && s[p..q] == x
  {
  }

  lemma RangeStorable(os: seq<Entry>, src: nat, k: nat)
    requires Storable(os) && src + k <= |os|
    ensures Storable(os[src..src + k])
  {
  }

  lemma StorableConcat(a: seq<Entry>, b: seq<Entry>)
    requires Storable(a) && Storable(b)
    ensures Storable(a + b)
  {
  }

  /** One more of xs behind es. */
  lemma NextOf(es: seq<Entry>, xs: seq<Entry>, i: nat)
    requires i < |xs|
    ensures es + xs[..i + 1] == (es + xs[..i]) + [xs[i]]
  {
  }

  lemma ReadPtr(s: bytes, n: nat, es: seq<Entry>, i: nat, e: Entry)
    requires FilledFor(s, n, es) && i < |es| && e == es[i]
    ensures GetPtr(s, i) == e.ptr
  {
    ReadBack(s, n, es, i);
  }

  /** The wrapped offset arithmetic gives the true offset. */
  lemma Shifted(os: seq<Entry>, src: nat, i: nat, es: seq<Entry>, xs: seq<Entry>, a: nat, b: nat, v: nat)
    requires src + i <= |os| && i <= |xs| && xs[..i] == os[src..src + i]
    requires a == DataSize(os[..src]) && b == DataSize(os[..src + i]) && v == DataSize(es + xs[..i]) < TWO_16
    ensures (b + (DataSize(es) - a) % TWO_16) % TWO_16 == v
  {
    hide DataSize;
    DataConcat(es, xs[..i]);
    ThreePieces(os, src, src + i);
    DataConcat(os[..src], xs[..i]);
    WrapsBack(b, DataSize(es) - a, v);
  }

  lemma WrapsBack(b: nat, d: int, v: nat)
    requires b + d == v < TWO_16
    ensures (b + d % TWO_16) % TWO_16 == v
  {
  }

  lemma PartSize(es: seq<Entry>, xs: seq<Entry>, i: nat)
    requires i <= |xs|
    ensures DataSize(es + xs[..i]) <= DataSize(es) + DataSize(xs) == DataSize(es + xs)
  {
    hide DataSize;
    DataConcat(es, xs[..i]);
    DataConcat(es, xs);
    DataConcat(xs[..i], xs[i..]);
    TwoPieces(xs, i);
  }

  /**
   * Copies k slots of old, from slot src on, behind the slots es that new already has. shiftDistance
   * is a uint16 difference: it wraps around when the slots move towards the front, and the sum with
   * the old offset wraps back.
   */
  method NodeAppendRange(new_: array<byte>, old_: bytes, dst: nat, src: nat, k: nat,
                         ghost n: nat, ghost es: seq<Entry>, ghost m: nat, ghost os: seq<Entry>)
    requires FilledFor(new_[..], n, es) && |es| == dst && dst + k <= n
    requires FilledFor(old_, m, os) && src + k <= |os|
    requires DataStart(n) + DataSize(es) + DataSize(os[src..src + k]) <= new_.Length
    modifies new_
    ensures new_[..HEADER] == old(new_[..HEADER])
    ensures FilledFor(new_[..], n, es + os[src..src + k])
  {
    hide DataSize, PtrBytes, OffsetBytes, DataBytes, At, ToLE, U16Bytes, Splice, Storable;
    ghost var xs := os[src..src + k];
    if k == 0 {
      assert es + xs == es;
      return;
    }
    AppendPtrs(new_, old_, dst, src, k, n, es, m, os, xs);
    AppendOffsets(new_, old_, dst, src, k, n, es, m, os, xs);
    ghost var s := new_[..];
    RangeData(old_, m, os, src, k);
    DataConcat(es, xs);
    ReadOffset(s, n, es + xs, es + xs, es, dst);
    assert (es + xs)[..dst] == es;
    var begin := GetOffset(old_, src) + KvStart(old_);
    var end := GetOffset(old_, src + k) + KvStart(old_);
    var newBegin := GetOffset(new_[..], dst) + KvStart(new_[..]);
    Copy(new_, newBegin, old_[begin..end]);
    HeaderKept(s, newBegin, DataBytes(xs));
    WriteData(s, n, es + xs, es + xs, es, xs);
    RangeStorable(os, src, k);
    StorableConcat(es, xs);
    assert new_[..][..HEADER] == new_[..HEADER] && s[..HEADER] == old(new_[..HEADER]);
  }

  /** nodeAppendRange's first loop. */
  method AppendPtrs(new_: array<byte>, old_: bytes, dst: nat, src: nat, k: nat,
                    ghost n: nat, ghost es: seq<Entry>, ghost m: nat, ghost os: seq<Entry>, ghost xs: seq<Entry>)
    requires Areas(new_[..], n, es, es, es) && |es| == dst && dst + k <= n
    requires FilledFor(old_, m, os) && src + k <= |os| && xs == os[src..src + k]
    modifies new_
    ensures new_[..HEADER] == old(new_[..HEADER])
    ensures Areas(new_[..], n, es + xs, es, es)
  {
    hide DataSize, PtrBytes, OffsetBytes, DataBytes, At, ToLE, U16Bytes, Splice, Storable;
    assert es + xs[..0] == es;
    for i := 0 to k
      invariant new_[..HEADER] == old(new_[..HEADER]) && Areas(new_[..], n, es + xs[..i], es, es)
    {
      ghost var s := new_[..];
      ReadPtr(old_, m, os, src + i, xs[i]);
      SetPtr(new_, dst + i, GetPtr(old_, src + i));
      ghost var p := PtrPos(dst + i);
      assert p == PtrPos(|es + xs[..i]|);
      HeaderKept(s, p, ToLE(xs[i].ptr, 8));
      WritePtr(s, n, es + xs[..i], es, es, xs[i]);
      NextOf(es, xs, i);
      assert new_[..][..HEADER] == new_[..HEADER] && s[..HEADER] == old(new_[..HEADER]);
    }
    assert xs[..k] == xs;
  }

  /** nodeAppendRange's second loop. */
  method AppendOffsets(new_: array<byte>, old_: bytes, dst: nat, src: nat, k: nat,
                       ghost n: nat, ghost es: seq<Entry>, ghost m: nat, ghost os: seq<Entry>, ghost xs: seq<Entry>)
    requires Areas(new_[..], n, es + xs, es, es) && |es| == dst && dst + k <= n
    requires FilledFor(old_, m, os) && src + k <= |os| && xs == os[src..src + k]
    requires DataStart(n) + DataSize(es) + DataSize(xs) <= new_.Length
    modifies new_
    ensures new_[..HEADER] == old(new_[..HEADER])
    ensures Areas(new_[..], n, es + xs, es + xs, es)
  {
    hide DataSize, PtrBytes, OffsetBytes, DataBytes, At, ToLE, U16Bytes, Splice, Storable;
    ReadOffset(new_[..], n, es + xs, es, es, dst);
    ReadOffset(old_, m, os, os, os, src);
    assert es[..dst] == es && es + xs[..0] == es;
    var dstBegin := GetOffset(new_[..], dst);
    var srcBegin := GetOffset(old_, src);
    var shiftDistance := (dstBegin - srcBegin) % TWO_16;
    for i := 1 to k + 1
      invariant new_[..HEADER] == old(new_[..HEADER]) && Areas(new_[..], n, es + xs, es + xs[..i - 1], es)
    {
      ghost var s := new_[..];
      ReadOffset(old_, m, os, os, os, src + i);
      var oldOffset := GetOffset(old_, src + i);
      ghost var v := DataSize(es + xs[..i]);
      PartSize(es, xs, i);
      assert xs[..i] == os[src..src + i];
      Shifted(os, src, i, es, xs, srcBegin, oldOffset, v);
      SetOffset(new_, dst + i, (oldOffset + shiftDistance) % TWO_16);
      ghost var p := OffsetPos(s, dst + i);
      assert p == OffsetsStart(n) + |es + xs[..i - 1]| + |es + xs[..i - 1]|;
      HeaderKept(s, p, U16Bytes(v));
      NextOf(es, xs, i - 1);
      WriteOffset(s, n, es + xs, es + xs[..i - 1], es, xs[i - 1], v);
      assert new_[..][..HEADER] == new_[..HEADER] && s[..HEADER] == old(new_[..HEADER]);
    }
    assert xs[..k] == xs;
  }
}
