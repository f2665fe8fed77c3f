/** Where nodeSplit2 and nodeSplit3 cut a node that is too big, in terms of its slots. */
module Cuts {
  import opened Bytes
  import opened Pages

  /** A slot's share of a page: pointer, offset, lengths, key and value. */
  function SlotSize(e: Entry): nat { 10 + EntrySize(e) }

  const HALF_PAGE := 2048

  /** What nodeSplit2's loop adds up: from slot idx on, until half is reached. */
  function CutFrom(es: seq<Entry>, half: nat, idx: nat): (r: nat)
    requires idx <= |es|
    ensures idx <= r <= |es|
    ensures forall j :: idx <= j < r ==> PageBytes(es[..j]) < half
    ensures r < |es| ==> PageBytes(es[..r]) >= half
    decreases |es| - idx
  {
    if PageBytes(es[..idx]) < half && idx < |es| then CutFrom(es, half, idx + 1) else idx
  }

  /** nodeSplit2 cuts behind the first slot that takes the left node to half the bytes. */
  function Cut(es: seq<Entry>): (r: nat)
    ensures r <= |es|
  {
    CutFrom(es, PageBytes(es) / 2, 0)
  }

  /** nodeSplit3 */
  function Pieces(es: seq<Entry>): seq<seq<Entry>> {
    if PageBytes(es) <= PAGE_SIZE then [es] else
    var i := Cut(es);
    if PageBytes(es[..i]) <= PAGE_SIZE then [es[..i], es[i..]] else
    var j := Cut(es[..i]);
    [es[..i][..j], es[..i][j..], es[i..]]
  }

  /** Each piece is within a page. */
  ghost predicate AllWithin(ps: seq<seq<Entry>>) { forall i :: 0 <= i < |ps| ==> PageBytes(ps[i]) <= PAGE_SIZE }

  lemma PrefixStep(es: seq<Entry>, i: nat)
    requires i < |es|
    ensures PageBytes(es[..i + 1]) == PageBytes(es[..i]) + SlotSize(es[i])
  {
    hide DataSize;
    assert es[..i + 1] == es[..i] + [es[i]];
    Snoc(es[..i], es[i]);
  }

  lemma TwoParts(es: seq<Entry>, i: nat)
    requires i <= |es|
    ensures PageBytes(es) + HEADER == PageBytes(es[..i]) + PageBytes(es[i..])
  {
    hide DataSize;
    assert es == es[..i] + es[i..];
    DataConcat(es[..i], es[i..]);
  }

  /** Both halves of a cut: the right one fits whenever the whole has at most 2 * PAGE_SIZE - 8 bytes. */
  lemma CutBounds(es: seq<Entry>)
    requires PAGE_SIZE < PageBytes(es) <= PAGE_SIZE + PAGE_SIZE - 8
    ensures 0 < Cut(es) <= |es|
    ensures PageBytes(es[Cut(es)..]) <= PAGE_SIZE
    ensures PageBytes(es[..Cut(es)]) >= PageBytes(es) / 2
    ensures PageBytes(es[..Cut(es)]) < PageBytes(es) / 2 + SlotSize(es[Cut(es) - 1])
  {
    hide DataSize;
    var h, i := PageBytes(es) / 2, Cut(es);
    EmptyData();
    assert es[..0] == [] && PageBytes(es[..0]) == HEADER;
    assert es[..|es|] == es;
    assert PageBytes(es[..i]) >= h;
    assert i > 0;
    PrefixStep(es, i - 1);
    assert PageBytes(es[..i - 1]) < h;
    TwoParts(es, i);
  }

  ghost predicate SmallSlots(es: seq<Entry>) { forall i :: 0 <= i < |es| ==> SlotSize(es[i]) <= HALF_PAGE }

  /** With slots of at most half a page, a cut leaves slots on both sides. */
  lemma CutInside(es: seq<Entry>)
    requires PAGE_SIZE < PageBytes(es) <= PAGE_SIZE + PAGE_SIZE - 8 && SmallSlots(es)
    ensures 0 < Cut(es) < |es|
    ensures PageBytes(es[..Cut(es) - 1]) < PageBytes(es) / 2
    ensures SlotSize(es[0]) < HALF_PAGE - 4 ==> Cut(es) > 1
  {
    hide DataSize;
    CutBounds(es);
    PrefixStep(es, Cut(es) - 1);
    assert es[..|es|] == es;
    EmptyData();
    assert es[..0] == [];
    PrefixStep(es, 0);
  }

  lemma PrefixGrows(es: seq<Entry>, i: nat, j: nat)
    requires i <= j <= |es|
    ensures PageBytes(es[..i]) <= PageBytes(es[..j])
  {
    hide DataSize;
    assert es[..j][..i] == es[..i];
    TwoParts(es[..j], i);
  }

  /**
   * nodeSplit3 on slots of at most half a page: one to three non-empty pieces, each within a page;
   * the assert in it holds.
   */
  lemma PiecesFit(es: seq<Entry>)
    requires PageBytes(es) <= PAGE_SIZE + PAGE_SIZE - 8 && SmallSlots(es) && es != []
    ensures 1 <= |Pieces(es)| <= 3
    ensures forall i :: 0 <= i < |Pieces(es)| ==> Pieces(es)[i] != [] && PageBytes(Pieces(es)[i]) <= PAGE_SIZE
    ensures |Pieces(es)| > 1 && SlotSize(es[0]) < HALF_PAGE - 4 ==> |Pieces(es)[0]| > 1
  {
    hide DataSize;
    if PageBytes(es) > PAGE_SIZE {
      CutBounds(es);
      CutInside(es);
      var i := Cut(es);
      var l := es[..i];
      if PageBytes(l) > PAGE_SIZE {
        TwoParts(es, i);
        CutBounds(l);
        CutInside(l);
        var j := Cut(l);
        PrefixGrows(l, j, i - 1);
        assert l[..i - 1] == es[..i - 1];
      }
    }
  }

  function Concat(ps: seq<seq<Entry>>): seq<Entry> { if ps == [] then [] else ps[0] + Concat(ps[1..]) }

  lemma ConcatPieces(a: seq<Entry>, b: seq<Entry>, c: seq<Entry>)
    ensures Concat([a]) == a && Concat([a, b]) == a + b && Concat([a, b, c]) == a + b + c
  {
    assert Concat([c]) == c + Concat([]) == c;
    assert Concat([a]) == a + Concat([]) == a;
    assert [b, c][1..] == [c] && [a, b][1..] == [b] && [a, b, c][1..] == [b, c];
    assert Concat([b]) == b + Concat([]) == b;
    assert a + (b + c) == a + b + c;
  }

  lemma PiecesConcat(es: seq<Entry>)
    ensures Concat(Pieces(es)) == es
  {
    hide Concat, Cut, PageBytes;
    var i := Cut(es);
    var l, r := es[..i], es[i..];
    var j := Cut(l);
    TwoPieces(es, i);
    TwoPieces(l, j);
    ConcatPieces(es, [], []);
    ConcatPieces(l, r, []);
    ConcatPieces(l[..j], l[j..], r);
  }
}
