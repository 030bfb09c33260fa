/** Aligned requests: when carving the hole that the search accepted leaves a heap that serves the caller. */
module HeapAlignment {
  import opened Words
  import opened ByteMemory
  import opened HeapLayout
  import opened HeapCarving

  // What the aligned search guarantees of a hole with room for a front hole: it ends before the next page
  // boundary, where the subtraction wraps, or has room for the request behind it.
  predicate AlignedRoom(h: Block, need: int) {
    OVERHEAD <= FrontGap(h.pos) ==> h.size < FrontGap(h.pos) || FrontGap(h.pos) + need <= h.size
  }

  lemma FitGivesRoom(m: seq<byte>, h: Block, need: uint32)
    requires PAGE <= h.pos && OVERHEAD <= h.size && HeaderOk(m, h) && NoWrap(h, need)
    requires Fits(m, h.pos, need, true)
    ensures AlignedRoom(h, need)
  {
    hide Word;
    if OVERHEAD <= FrontGap(h.pos) {
      var payload, offset := h.pos + HEADER, FrontGap(h.pos);
      assert Wrap(payload) == payload && PageMask(payload) != 0;
      assert PAGE - payload % PAGE == offset;
      assert h.size < offset ==> Wrap(h.size - offset) == h.size - offset + TWO_32;
    }
  }

  // Memory and index are those of a heap with all the old blocks but the hole, and a live block for the
  // caller at `granted`.
  ghost predicate Served(m: seq<byte>, index: seq<int>, start: int, end: int, a: seq<Block>, c: seq<Block>,
                         granted: int, need: int) {
    exists cs :: Layout(m, cs, start, end, end) && Indexed(index, cs) && Holds(cs, a, c) && Grants(cs, granted, need)
  }

  ghost predicate Holds(cs: seq<Block>, a: seq<Block>, c: seq<Block>) {
    (forall b | b in a :: b in cs) && (forall b | b in c :: b in cs)
  }

  ghost predicate Grants(cs: seq<Block>, granted: int, need: int) {
    exists n :: n in cs && n.pos == granted && !n.hole && n.size >= need
  }

  // ---- blocks of one layout ----

  lemma Apart(m: seq<byte>, cs: seq<Block>, start: int, end: int, x: Block, y: Block)
    requires Layout(m, cs, start, end, end) && x in cs && y in cs
    ensures x == y || x.End() <= y.pos || y.End() <= x.pos
    ensures x.size >= OVERHEAD && start <= x.pos && x.End() <= end && HeaderOk(m, x)
  {
    hide Layout, HeaderOk, Sealed;
    var k :| 0 <= k < |cs| && cs[k] == x;
    LayoutAround(m, cs, k, start, end, end);
    LayoutSplit(m, cs, k, start, end, end);
  }

  lemma {:induction false} BlockOver(m: seq<byte>, cs: seq<Block>, lo: int, hi: int, end: int, x: int)
    returns (b: Block)
    requires Layout(m, cs, lo, hi, end) && lo <= x < hi
    ensures b in cs && b.pos <= x < b.End()
  {
    hide HeaderOk, Sealed;
    if x < cs[0].End() {
      b := cs[0];
    } else {
      b := BlockOver(m, cs[1..], cs[0].End(), hi, end, x);
    }
  }

  // Where a block of the layout ends before its end, the next one starts.
  lemma BlockAfter(m: seq<byte>, cs: seq<Block>, start: int, end: int, l: Block) returns (b: Block)
    requires Layout(m, cs, start, end, end) && l in cs && l.End() < end
    ensures b in cs && b.pos == l.End()
  {
    hide Layout, HeaderOk;
    Apart(m, cs, start, end, l, l);
    b := BlockOver(m, cs, start, end, end, l.End());
    Apart(m, cs, start, end, l, b);
  }

  // So it does where the blocks before the hole end.
  lemma BlockAtHole(m0: seq<byte>, m: seq<byte>, cs: seq<Block>, a: seq<Block>, h: Block, start: int, end: int)
    returns (b: Block)
    requires Layout(m0, a, start, h.pos, end) && Layout(m, cs, start, end, end) && h.pos < end
    requires forall x | x in a :: x in cs
    ensures b in cs && b.pos == h.pos
  {
    hide HeaderOk, Sealed;
    if a == [] {
      b := BlockOver(m, cs, start, end, end, start);
      Apart(m, cs, start, end, b, b);
    } else {
      var l := LastBlock(m0, a, start, h.pos, end);
      b := BlockAfter(m, cs, start, end, l);
    }
  }

  lemma {:induction false} LastBlock(m: seq<byte>, a: seq<Block>, lo: int, hi: int, end: int) returns (l: Block)
    requires Layout(m, a, lo, hi, end) && a != []
    ensures l in a && l.End() == hi && l.size >= OVERHEAD
  {
    hide HeaderOk, Sealed;
    if |a| == 1 {
      l := a[0];
      assert a[1..] == [];
    } else {
      l := LastBlock(m, a[1..], a[0].End(), hi, end);
    }
  }

  // Nothing can follow a block of the layout within the twenty bytes before the end of the hole.
  lemma NoSliver(m0: seq<byte>, m: seq<byte>, cs: seq<Block>, c: seq<Block>, h: Block, start: int, end: int, n: Block)
    requires Layout(m0, c, h.End(), end, end) && Layout(m, cs, start, end, end) && n in cs
    requires forall x | x in c :: x in cs
    ensures n.pos < h.End() ==> n.End() <= h.End()
    ensures !(n.End() < h.End() < n.End() + OVERHEAD)
  {
    hide HeaderOk, Sealed;
    LayoutBounds(m0, c, h.End(), end, end);
    Apart(m, cs, start, end, n, n);
    if c != [] {
      Apart(m, cs, start, end, n, c[0]);
    }
    if n.End() < h.End() && h.End() < n.End() + OVERHEAD {
      var b := BlockAfter(m, cs, start, end, n);
      Apart(m, cs, start, end, b, b);
      if c != [] {
        Apart(m, cs, start, end, b, c[0]);
      }
    }
  }

  // ---- when the caller is not served ----

  // What the code has written for an aligned request, as far as it matters.
  ghost predicate Attempted(m: seq<byte>, h: Block, need: int) {
    OVERHEAD <= FrontGap(h.pos) ==>
      if h.size < FrontGap(h.pos) then HeaderAt(m, h.pos, FrontGap(h.pos), true)
      else HeaderAt(m, h.pos + FrontGap(h.pos), need, false)
  }

  lemma SameHeader(m: seq<byte>, b: Block, size: int, hole: bool)
    requires HeaderOk(m, b) && HeaderAt(m, b.pos, size, hole)
    ensures b.size == size && b.hole == hole
  {
    hide Word;
  }

  // A front hole too small for a header and a footer covers the block it makes room for.
  lemma ShortFront(m0: seq<byte>, m: seq<byte>, index: seq<int>, cs: seq<Block>, a: seq<Block>, h: Block, start: int,
                   end: int,
                   n: Block)
    requires start % PAGE == 0 && Layout(m0, a, start, h.pos, end) && h.pos < end && FrontGap(h.pos) < OVERHEAD
    requires Layout(m, cs, start, end, end) && Indexed(index, cs) && h.pos in multiset(index)
    requires forall b | b in a :: b in cs
    requires n in cs
    ensures n.pos == h.pos + FrontGap(h.pos) ==> n.hole
  {
    hide HeaderOk, Sealed, Layout;
    if n.pos == h.pos + FrontGap(h.pos) {
      var b := BlockAtHole(m0, m, cs, a, h, start, end);
      Apart(m, cs, start, end, b, n);
      Apart(m, cs, start, end, n, b);
      if FrontGap(h.pos) < 0 {
        StartAligned(m0, a, start, h.pos, end);
        var l := LastBlock(m0, a, start, h.pos, end);
        Apart(m, cs, start, end, l, n);
        Apart(m, cs, start, end, n, l);
      } else if FrontGap(h.pos) == 0 {
        HolesAre(cs, h.pos);
        var g :| g in cs && g.hole && g.pos == h.pos;
        Apart(m, cs, start, end, g, n);
        Apart(m, cs, start, end, n, g);
      }
    }
  }

  lemma StartAligned(m: seq<byte>, a: seq<Block>, start: int, p: int, end: int)
    requires start % PAGE == 0 && Layout(m, a, start, p, end) && FrontGap(p) < OVERHEAD
    ensures a != []
  {
    hide HeaderOk, Sealed;
  }

  lemma NotServed(m0: seq<byte>, m: seq<byte>, index: seq<int>, a: seq<Block>, h: Block, c: seq<Block>, need: int,
                  start: int, end: int)
    requires start % PAGE == 0 && Layout(m0, a, start, h.pos, end) && Layout(m0, c, h.End(), end, end)
    requires h.hole && h.size >= OVERHEAD && need >= OVERHEAD && AlignedRoom(h, need) && !Carvable(h, need, true)
    requires Attempted(m, h, need) && h.pos in multiset(index)
    ensures !Served(m, index, start, end, a, c, h.pos + FrontGap(h.pos), need)
  {
    hide HeaderOk, Sealed, Layout;
    LayoutBounds(m0, c, h.End(), end, end);
    forall cs: seq<Block> | Layout(m, cs, start, end, end) && Indexed(index, cs) && Holds(cs, a, c)
      ensures !Grants(cs, h.pos + FrontGap(h.pos), need)
    {
      if n :| n in cs && n.pos == h.pos + FrontGap(h.pos) && !n.hole && n.size >= need {
        if FrontGap(h.pos) < OVERHEAD {
          ShortFront(m0, m, index, cs, a, h, start, end, n);
        } else if h.size < FrontGap(h.pos) {
          var b := BlockAtHole(m0, m, cs, a, h, start, end);
          Apart(m, cs, start, end, b, b);
          SameHeader(m, b, FrontGap(h.pos), true);
          NoSliver(m0, m, cs, c, h, start, end, b);
        } else {
          Apart(m, cs, start, end, n, n);
          SameHeader(m, n, need, false);
          NoSliver(m0, m, cs, c, h, start, end, n);
        }
      }
    }
  }

  // ---- the unsigned sums on the way ----

  // No address of the attempt wraps.
  predicate NoWrap(h: Block, need: int) {
    h.End() + need + 2 * PAGE < TWO_32
  }

  // Room for the block and either nothing or a header and a footer behind it, within the heap.
  predicate Neat(pos: int, newSize: int, holeSize: int, heapEnd: int) {
    (holeSize == newSize || holeSize - newSize >= OVERHEAD) && pos + holeSize <= heapEnd
  }

  // Where the code puts the footer of the hole behind the block.
  function TailFooter(pos: int, holeSize: int): uint32 {
    Wrap(pos + holeSize - FOOTER)
  }

  predicate Addressable(pos: int, newSize: int, holeSize: int) {
    pos + newSize + HEADER <= TWO_32 && TailFooter(pos, holeSize) + FOOTER <= TWO_32
  }

  lemma TailFooterIs(pos: uint32, newSize: uint32, holeSize: uint32)
    requires pos as int + newSize < TWO_32
    ensures TailFooter(pos + newSize, Wrap(holeSize - newSize)) == TailFooter(pos, holeSize)
    ensures newSize <= holeSize ==> Wrap(holeSize - newSize) == holeSize - newSize
    ensures FOOTER <= pos && pos as int + holeSize <= TWO_32 ==> TailFooter(pos, holeSize) == pos + holeSize - FOOTER
  {
    assert Wrap(holeSize - newSize) == if newSize <= holeSize then holeSize - newSize else holeSize - newSize + TWO_32;
  }

  lemma FrontWraps(hole: uint32, size: uint32, size2: uint32)
    requires PAGE <= hole && hole + FrontGap(hole) < TWO_32 && size2 == Wrap(FrontGap(hole))
    ensures size2 == if FrontGap(hole) >= 0 then FrontGap(hole) else FrontGap(hole) + TWO_32
    ensures Wrap(hole as int + size2) == hole + FrontGap(hole)
    ensures Wrap(hole as int + size2 - FOOTER) == hole + FrontGap(hole) - FOOTER
    ensures Wrap(size - size2) == Wrap(size - FrontGap(hole))
  {
  }

  lemma SizeOf(m: seq<byte>, h: Block)
    requires HeaderOk(m, h)
    ensures SizeAt(m, h.pos) == h.size
  {
    hide Word;
  }

  lemma StampedHeader(m: seq<byte>, b: Block)
    requires Stamped(m, b)
    ensures HeaderAt(m, b.pos, b.size, b.hole)
  {
  }

  // What the block's size comes out as, and where the tail's footer lands.
  lemma CutCases(h: Block, need: uint32, align: bool, newSize: uint32, holeSize: uint32, pos: uint32, heapEnd: uint32)
    requires PAGE <= h.pos && h.End() <= heapEnd && OVERHEAD <= h.size && OVERHEAD <= need
    requires Carvable(h, need, align) || (align && h.hole && AlignedRoom(h, need) && NoWrap(h, need))
    requires newSize == if Wrap(h.size - need) < OVERHEAD then h.size else need
    requires pos == h.pos + Front(h.pos, align) && holeSize == Wrap(h.size - Front(h.pos, align))
    ensures OVERHEAD <= newSize
    ensures Carvable(h, need, align) ==>
              && newSize == CutSize(h, need, Front(h.pos, align)) && holeSize == h.size - Front(h.pos, align)
              && Neat(pos, newSize, holeSize, heapEnd)
    ensures Carvable(h, need, align) && align ==> OVERHEAD <= FrontGap(h.pos)
    ensures !Carvable(h, need, align) ==> Torn(h, need, newSize, holeSize, pos)
  {
    if Carvable(h, need, align) {
      NeatCut(h, need, align, newSize, holeSize, pos, heapEnd);
    } else {
      TornCut(h, need, newSize, holeSize, pos);
    }
  }

  predicate Torn(h: Block, need: int, newSize: int, holeSize: int, pos: int) {
    && Addressable(pos, newSize, holeSize) && pos + newSize + HEADER <= TWO_32
    && TailFooter(pos, holeSize) == h.End() - FOOTER
    && (OVERHEAD <= FrontGap(h.pos) <= h.size ==> newSize == need && pos + HEADER <= TailFooter(pos, holeSize))
  }

  lemma NeatCut(h: Block, need: uint32, align: bool, newSize: uint32, holeSize: uint32, pos: uint32, heapEnd: uint32)
    requires 0 <= h.pos && h.End() <= heapEnd && OVERHEAD <= need && Carvable(h, need, align)
    requires newSize == if Wrap(h.size - need) < OVERHEAD then h.size else need
    requires pos == h.pos + Front(h.pos, align) && holeSize == Wrap(h.size - Front(h.pos, align))
    ensures newSize == CutSize(h, need, Front(h.pos, align)) && holeSize == h.size - Front(h.pos, align)
    ensures Neat(pos, newSize, holeSize, heapEnd)
  {
    hide FrontGap;
    assert Wrap(h.size - need) == h.size - need && Wrap(h.size - Front(h.pos, align)) == h.size - Front(h.pos, align);
    hide Wrap;
  }

  lemma TornCut(h: Block, need: uint32, newSize: uint32, holeSize: uint32, pos: uint32)
    requires PAGE <= h.pos && OVERHEAD <= h.size && OVERHEAD <= need && h.hole
    requires AlignedRoom(h, need) && NoWrap(h, need) && !Carvable(h, need, true)
    requires newSize == if Wrap(h.size - need) < OVERHEAD then h.size else need
    requires pos == h.pos + FrontGap(h.pos) && holeSize == Wrap(h.size - FrontGap(h.pos))
    ensures Torn(h, need, newSize, holeSize, pos)
  {
    GapBounds(h.pos);
    hide FrontGap;
    SmallWrap(h.size - need);
    SmallWrap(h.size - FrontGap(h.pos));
    SmallWrap(pos as int + holeSize - FOOTER);
    hide Wrap;
  }

  lemma GapBounds(pos: int)
    ensures -HEADER < FrontGap(pos) <= PAGE - HEADER
  {
  }

  lemma SmallWrap(x: int)
    requires -TWO_32 <= x < 2 * TWO_32
    ensures Wrap(x) == if x < 0 then x + TWO_32 else if x < TWO_32 then x else x - TWO_32
  {
  }

  lemma FrontFits(h: Block, need: int, align: bool)
    requires OVERHEAD <= h.size && OVERHEAD <= need && h.End() < TWO_32
    requires Carvable(h, need, align) || (align && AlignedRoom(h, need) && NoWrap(h, need))
    ensures h.pos + HEADER <= TWO_32 && (align ==> h.pos + FrontGap(h.pos) < TWO_32)
  {
  }

  lemma CarvedNeatly(mem: seq<byte>, m1: seq<byte>, m: seq<byte>, h: Block, need: uint32, align: bool,
                     newSize: uint32, holeSize: uint32, pos: uint32, heapEnd: uint32)
    requires |mem| == |m1| == |m| == TWO_32 && 0 <= h.pos && h.End() <= heapEnd && OVERHEAD <= need
    requires Carvable(h, need, align) && pos == h.pos + Front(h.pos, align)
    requires newSize == CutSize(h, need, Front(h.pos, align)) && holeSize == h.size - Front(h.pos, align)
    requires if align
             then SameOutside(mem, m1, h.pos, pos) && Stamped(m1, Block(h.pos, pos - h.pos, true))
             else m1 == mem
    requires SameOutside(m1, m, pos, pos as int + holeSize) && Stamped(m, Block(pos, newSize, false))
    requires holeSize != newSize ==> Stamped(m, Block(pos + newSize, holeSize - newSize, true))
    ensures var front := Front(h.pos, align);
            && front >= 0 && (front > 0) == align && SameOutside(mem, m, h.pos, h.End()) && Splits(h, need, front)
            && CarvedInMemory(m, h, need, front)
            && Wrap(holeSize - newSize) == Rest(h, need, front)
            && Wrap(pos as int + newSize) == TailHole(h, need, front).pos
            && (pos as int + newSize + HEADER <= TWO_32 || Rest(h, need, front) == 0)
  {
    hide Stamped;
    var front := Front(h.pos, align);
    if align {
      StampedStands(m1, m, Block(h.pos, front, true));
    }
    assert NewBlock(h, need, front) == Block(pos, newSize, false);
    assert TailHole(h, need, front) == Block(pos + newSize, holeSize - newSize, true);
  }

  lemma CarvedTorn(m1: seq<byte>, m: seq<byte>, h: Block, need: uint32, newSize: uint32, holeSize: uint32, pos: uint32)
    requires |m1| == |m| == TWO_32 && 0 <= h.pos && OVERHEAD <= h.size && pos == h.pos + FrontGap(h.pos)
    requires OVERHEAD <= FrontGap(h.pos) ==> Stamped(m1, Block(h.pos, pos - h.pos, true))
    requires Torn(h, need, newSize, holeSize, pos)
    requires forall x | 0 <= x < pos ::
               m[x] == m1[x] || TailFooter(pos, holeSize) <= x < TailFooter(pos, holeSize) + FOOTER
    requires pos + HEADER <= TailFooter(pos, holeSize) ==> HeaderAt(m, pos, newSize, false)
    ensures Attempted(m, h, need) && Wrap(pos as int + newSize) + HEADER <= TWO_32
  {
    hide HeaderAt, FrontGap;
    if OVERHEAD <= FrontGap(h.pos) && h.size < FrontGap(h.pos) {
      StampedHeader(m1, Block(h.pos, pos - h.pos, true));
      HeaderStands(m1, m, h.pos, pos - h.pos, true);
    }
  }

  // Without alignment a hole the search accepts can be carved.
  lemma FitsUnaligned(m: seq<byte>, h: Block, need: uint32)
    requires 0 <= h.pos < TWO_32 && h.pos + HEADER <= |m| && HeaderOk(m, h) && h.hole && Fits(m, h.pos, need, false)
    ensures Carvable(h, need, false)
  {
    hide Word;
  }

  lemma CarvedServes(m: seq<byte>, index: seq<int>, a: seq<Block>, h: Block, c: seq<Block>, need: int, front: int,
                     start: int, end: int)
    requires Layout(m, a + Carved(h, need, front) + c, start, end, end)
             && Indexed(index, a + Carved(h, need, front) + c)
    requires OVERHEAD <= front && Splits(h, need, front)
    ensures Served(m, index, start, end, a, c, h.pos + front, need)
  {
    hide Layout;
    var cs := a + Carved(h, need, front) + c;
    var n := NewBlock(h, need, front);
    assert n in Carved(h, need, front) && n in cs;
    assert Holds(cs, a, c) && Grants(cs, h.pos + front, need);
  }
}
