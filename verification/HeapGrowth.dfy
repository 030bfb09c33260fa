/** Growing the heap: the hole with the highest address takes the new pages. */
module HeapGrowth {
  import opened Words
  import opened ByteMemory
  import opened HeapLayout
  import opened HeapCarving

  // What growth adds when `need` bytes are short: at least `need`, up to a page boundary.
  function Growth(length: nat, need: nat): int { RoundUp(length + need) - length }

  lemma GrowthBounds(length: nat, need: nat)
    requires PAGE <= length
    ensures need < Growth(length, need) <= need + PAGE
  {
  }

  // Growth extends the hole with the highest address, so that hole has to reach the end of the heap.
  ghost predicate CanGrow(bs: seq<Block>) {
    AnyHole(bs) ==> bs[|bs| - 1].hole
  }

  ghost function Grown(bs: seq<Block>, end: int, extra: int): seq<Block>
    requires CanGrow(bs)
  {
    if AnyHole(bs) then
      var last := bs[|bs| - 1];
      bs[..|bs| - 1] + [Block(last.pos, last.size + extra, true)]
    else bs + [Block(end, extra, true)]
  }

  lemma AppendTail(m: seq<byte>, m': seq<byte>, a: seq<Block>, tail: Block, start: int, mid: int, end: int, end': int)
    requires 0 <= start && mid <= |m| && Layout(m, a, start, mid, end) && (mid < end || !AnyHole(a))
    requires |m'| == |m| && forall x :: start <= x < mid ==> m'[x] == m[x]
    requires tail.pos == mid && tail.End() == end' && tail.size >= OVERHEAD && Stamped(m', tail)
    ensures Layout(m', a + [tail], start, end', end')
  {
    hide Layout;
    LayoutNewEnd(m, a, start, mid, end, end');
    LayoutStands(m, m', a, start, mid, end');
    OneBlock(m', tail, mid, end', end');
    LayoutJoin(m', a, [tail], start, mid, end', end');
  }

  lemma GrowLayout(m: seq<byte>, m': seq<byte>, bs: seq<Block>, a: seq<Block>, tail: Block,
                   start: int, end: int, end': int, pages: set<int>, pages': set<int>)
    requires Sound(m, bs, start, end, pages)
    requires Layout(m, a, start, tail.pos, end) && (tail.pos < end || !AnyHole(a))
    requires tail.size >= OVERHEAD && tail.End() == end' < TWO_32 && Covers(pages', start, end')
    requires SameOutside(m, m', tail.pos, end') && Stamped(m', tail)
    ensures Sound(m', a + [tail], start, end', pages')
  {
    hide Layout, Stamped, Covers;
    LayoutBounds(m, a, start, tail.pos, end);
    WordStands(m, m', start - FOOTER);
    AppendTail(m, m', a, tail, start, tail.pos, end, end');
  }

  // Enlarging a hole that another block follows loses that block: no reading of the memory as a
  // chain of blocks contains it any more.
  lemma GrowLoses(m: seq<byte>, m': seq<byte>, a: seq<Block>, h: Block, g: Block, bs: seq<Block>,
                  start: int, end: int, extra: int, end': int)
    requires 0 <= start && end < end' <= |m| && Layout(m, a, start, h.pos, end) && h.pos + OVERHEAD <= h.End() < end
    requires g.pos == h.End() && extra > 0
    requires SameOutside(m, m', h.pos, |m|) && HeaderAt(m', h.pos, h.size + extra, true)
    requires Layout(m', bs, start, end', end')
    ensures g !in bs
  {
    hide Layout;
    LayoutBounds(m, a, start, h.pos, end);
    LayoutNewEnd(m, a, start, h.pos, end, end');
    LayoutStands(m, m', a, start, h.pos, end');
    LayoutPrefix(m', a, start, h.pos, bs, end', end');
    LayoutAround(m', bs, |a|, start, end', end');
    assert bs[|a|] == Block(h.pos, h.size + extra, true);
  }

  lemma HoleBelow(index: seq<uint32>, i: nat, bs: seq<Block>, b: Block)
    requires Indexed(index, bs) && b in bs
    requires i < |index| && forall j :: 0 <= j < |index| ==> index[j] <= index[i]
    ensures b.hole ==> b.pos <= index[i]
  {
    HolesAre(bs, b.pos);
    if b.hole {
      assert b.pos in multiset(index);
    }
  }

  lemma NoEntryNoHole(index: seq<uint32>, bs: seq<Block>)
    requires Indexed(index, bs) && index == []
    ensures !AnyHole(bs)
  {
    forall b | b in bs
      ensures !b.hole
    {
      HolesAre(bs, b.pos);
    }
  }

  lemma AppendHole(bs: seq<Block>, pos: uint32, size: int)
    requires Indexed([], bs)
    ensures Indexed([pos], bs + [Block(pos, size, true)])
  {
    HolesJoin(bs, [Block(pos, size, true)]);
  }

  lemma ResizeLast(bs: seq<Block>, size: int)
    requires bs != []
    ensures var h := bs[|bs| - 1]; Holes(bs[..|bs| - 1] + [Block(h.pos, size, h.hole)]) == Holes(bs)
  {
    var h, a := bs[|bs| - 1], bs[..|bs| - 1];
    assert bs == a + [h];
    HolesJoin(a, [h]);
    HolesJoin(a, [Block(h.pos, size, h.hole)]);
  }

  // The hole with the highest address is the last block exactly when the heap can grow.
  lemma HighestHole(index: seq<uint32>, i: nat, m: seq<byte>, bs: seq<Block>, start: int, end: int) returns (k: nat)
    requires Indexed(index, bs) && Layout(m, bs, start, end, end)
    requires i < |index| && forall j :: 0 <= j < |index| ==> index[j] <= index[i]
    ensures k < |bs| && bs[k].hole && bs[k].pos == index[i]
    ensures AnyHole(bs) && (CanGrow(bs) <==> k == |bs| - 1)
    ensures k + 1 < |bs| ==> !bs[k + 1].hole && bs[k + 1].pos == bs[k].End()
  {
    IndexPositions(index, bs, i);
    var h :| h in bs && h.hole && h.pos == index[i];
    k :| 0 <= k < |bs| && bs[k] == h;
    LayoutSplit(m, bs, k, start, end, end);
    LayoutBounds(m, bs[k + 1..], bs[k].End(), end, end);
    forall j | k < j < |bs|
      ensures !bs[j].hole
    {
      assert bs[j] == bs[k + 1..][j - k - 1];
      HoleBelow(index, i, bs, bs[j]);
    }
    if k + 1 < |bs| {
      assert bs[k + 1] == bs[k + 1..][0];
    }
  }

  lemma StretchKeeps(m: seq<byte>, m': seq<byte>, bs: seq<Block>,
                     start: int, end: int, extra: int, end': int, pages: set<int>, pages': set<int>)
    requires Sound(m, bs, start, end, pages) && AnyHole(bs) && CanGrow(bs)
    requires end < end' == end + extra < TWO_32 && Covers(pages', start, end')
    requires var h := bs[|bs| - 1];
             SameOutside(m, m', h.pos, h.End() + extra) && Stamped(m', Block(h.pos, h.size + extra, true))
    ensures Sound(m', Grown(bs, end, extra), start, end', pages')
  {
    hide Stamped, Covers, HeaderOk, Sealed;
    var k := |bs| - 1;
    var tail := Block(bs[k].pos, bs[k].size + extra, true);
    LayoutSplit(m, bs, k, start, end, end);
    assert bs[k].End() == end by {
      assert bs[k + 1..] == [];
    }
    GrowLayout(m, m', bs, bs[..k], tail, start, end, end', pages, pages');
  }

  // Some block is in no chain of headers that the memory holds.
  ghost predicate Loses(m: seq<byte>, bs: seq<Block>, start: int, end: int) {
    exists g :: g in bs && !g.hole && forall cs :: Layout(m, cs, start, end, end) ==> g !in cs
  }

  lemma StretchLoses(m: seq<byte>, m': seq<byte>, bs: seq<Block>, k: nat, start: int, end: int, extra: int, end': int)
    requires 0 <= start && end < end' <= |m| && Layout(m, bs, start, end, end) && k + 1 < |bs|
    requires bs[k + 1].pos == bs[k].End() && !bs[k + 1].hole
    requires end' == end + extra && SameOutside(m, m', bs[k].pos, bs[k].End() + extra)
    requires Stamped(m', Block(bs[k].pos, bs[k].size + extra, true))
    ensures Loses(m', bs, start, end')
  {
    hide Layout;
    LayoutSplit(m, bs, k, start, end, end);
    LayoutBounds(m, bs, start, end, end);
    assert bs[k + 1] in bs;
    forall cs | Layout(m', cs, start, end', end')
      ensures bs[k + 1] !in cs
    {
      GrowLoses(m, m', bs[..k], bs[k], bs[k + 1], cs, start, end, extra, end');
    }
  }

  // A last hole enlarged beyond the end of the heap: no chain of headers leads to that end.
  lemma PastTheEnd(m: seq<byte>, m': seq<byte>, a: seq<Block>, h: Block, bs: seq<Block>, start: int, end: int,
                   extra: int, end': int)
    requires 0 <= start && end < end' <= |m| && Layout(m, a, start, h.pos, end) && h.pos + OVERHEAD <= h.End() == end
    requires end' < end + extra
    requires SameOutside(m, m', h.pos, |m|) && HeaderAt(m', h.pos, h.size + extra, true)
    ensures !Layout(m', bs, start, end', end')
  {
    hide Layout;
    if Layout(m', bs, start, end', end') {
      LayoutBounds(m, a, start, h.pos, end);
      LayoutNewEnd(m, a, start, h.pos, end, end');
      LayoutStands(m, m', a, start, h.pos, end');
      LayoutPrefix(m', a, start, h.pos, bs, end', end');
      LayoutAround(m', bs, |a|, start, end', end');
    }
  }

  // The heap has grown by less than the hole with the highest address is given.
  lemma StretchOverruns(m: seq<byte>, m': seq<byte>, bs: seq<Block>, k: nat, start: int, end: int, extra: int,
                        end': int)
    requires 0 <= start && end < end' < end + extra && end' <= |m| && Layout(m, bs, start, end, end) && k < |bs|
    requires k + 1 < |bs| ==> bs[k + 1].pos == bs[k].End() && !bs[k + 1].hole
    requires SameOutside(m, m', bs[k].pos, |m|) && HeaderAt(m', bs[k].pos, bs[k].size + extra, true)
    requires exists b :: b in bs && !b.hole
    ensures Loses(m', bs, start, end')
  {
    hide Layout, HeaderAt;
    LayoutSplit(m, bs, k, start, end, end);
    LayoutAround(m, bs, k, start, end, end);
    if k + 1 < |bs| {
      LayoutAround(m, bs, k + 1, start, end, end);
      assert bs[k + 1] in bs;
      forall cs | Layout(m', cs, start, end', end')
        ensures bs[k + 1] !in cs
      {
        GrowLoses(m, m', bs[..k], bs[k], bs[k + 1], cs, start, end, extra, end');
      }
    } else {
      LayoutBounds(m, bs[k + 1..], bs[k].End(), end, end);
      assert bs[k].End() == end by {
        EmptyEnds(m, bs[k + 1..], bs[k].End(), end);
      }
      forall cs
        ensures !Layout(m', cs, start, end', end')
      {
        PastTheEnd(m, m', bs[..k], bs[k], cs, start, end, extra, end');
      }
    }
  }

  lemma EmptyEnds(m: seq<byte>, bs: seq<Block>, lo: int, end: int)
    requires Layout(m, bs, lo, end, end) && bs == []
    ensures lo == end
  {
  }

  lemma StretchCases(m: seq<byte>, m': seq<byte>, bs: seq<Block>, k: nat, start: int, end: int, extra: int, end': int,
                     pages: set<int>, pages': set<int>)
    requires Sound(m, bs, start, end, pages) && k < |bs| && bs[k].hole && (CanGrow(bs) <==> k == |bs| - 1)
    requires k + 1 < |bs| ==> !bs[k + 1].hole && bs[k + 1].pos == bs[k].End()
    requires end < end' == end + extra < TWO_32 && Covers(pages', start, end')
    requires SameOutside(m, m', bs[k].pos, bs[k].End() + extra)
             && Stamped(m', Block(bs[k].pos, bs[k].size + extra, true))
    ensures CanGrow(bs) ==> Sound(m', Grown(bs, end, extra), start, end', pages')
    ensures CanGrow(bs) ==> LiveKept(m, m', bs, Grown(bs, end, extra)) && Holes(Grown(bs, end, extra)) == Holes(bs)
    ensures !CanGrow(bs) ==> Loses(m', bs, start, end')
  {
    hide Layout, Stamped, Covers, Loses, LiveKept, SameOutside, HeaderOk, Sealed, Holes;
    if CanGrow(bs) {
      StretchKeeps(m, m', bs, start, end, extra, end', pages, pages');
      ResizeLast(bs, bs[k].size + extra);
      LiveBeside(m, m', bs, k, Grown(bs, end, extra), start, bs[k].End() + extra, end);
    } else {
      StretchLoses(m, m', bs, k, start, end, extra, end');
    }
  }
}
