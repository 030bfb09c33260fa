/** Whole allocations and frees: which requests can be served, what a caller is granted, what a free undoes. */
module HeapService {
  import opened Words
  import opened ByteMemory
  import opened HeapLayout
  import opened HeapCarving
  import opened HeapFreeing
  import opened HeapGrowth

  ghost predicate AnyFit(m: seq<byte>, index: seq<uint32>, need: uint32, align: bool) {
    exists i :: 0 <= i < |index| && index[i] as int + HEADER <= |m| && Fits(m, index[i], need, align)
  }

  // With an index in order of size the first fit is a best fit.
  lemma FirstFitIsBest(m: seq<byte>, index: seq<uint32>, i: nat, need: uint32)
    requires SizeOrdered(m, index) && i < |index| && Fits(m, index[i], need, false)
    requires forall j :: 0 <= j < i ==> !Fits(m, index[j], need, false)
    ensures forall j :: 0 <= j < |index| && SizeAt(m, index[j]) >= need ==> SizeAt(m, index[i]) <= SizeAt(m, index[j])
  {
    forall j | 0 <= j < |index| && SizeAt(m, index[j]) >= need
      ensures SizeAt(m, index[i]) <= SizeAt(m, index[j])
    {
      assert Fits(m, index[j], need, false);
    }
  }

  // The aligned test accepts exactly the holes with room after the first page boundary past the header,
  // and the holes too small to reach that boundary at all, for which the subtraction wraps around.
  lemma AlignedFit(m: seq<byte>, p: uint32, need: uint32)
    requires p as int + HEADER <= |m| && p as int + HEADER < TWO_32 && PAGE <= p && need <= TWO_32 - 2 * PAGE
    ensures var offset := PAGE - (p + HEADER) % PAGE;
      Fits(m, p, need, true) <==> SizeAt(m, p) < offset || offset as int + need <= SizeAt(m, p)
    ensures p % PAGE < PAGE - HEADER ==> PAGE - (p + HEADER) % PAGE == FrontGap(p)
    ensures Fits(m, p, need, false) <==> need <= SizeAt(m, p)
  {
    var payload, offset := p + HEADER, PAGE - (p + HEADER) % PAGE;
    assert Wrap(payload) == payload && PageMask(payload) != 0;
    var size := SizeAt(m, p) as int;
    assert size < offset ==> Wrap(size - offset) == size - offset + TWO_32;
  }

  // How often an allocation has to grow the heap: with alignment, a hole made of new pages alone can still
  // be too small.
  ghost function Rounds(m: seq<byte>, index: seq<uint32>, bs: seq<Block>, need: uint32, align: bool): nat {
    if AnyFit(m, index, need, align) then 0 else if align && !AnyHole(bs) then 2 else 1
  }

  // How far above the end of the heap the sums of such an allocation reach.
  function Reach(rounds: nat, align: bool, need: nat): nat {
    var step := need + 2 * PAGE;
    (if rounds == 0 then 0 else if rounds == 1 then step else 2 * step) + if align then step else 0
  }

  lemma HoleIndexed(m: seq<byte>, index: seq<uint32>, bs: seq<Block>, k: nat, start: int, end: int) returns (i: nat)
    requires Layout(m, bs, start, end, end) && Indexed(index, bs) && k < |bs| && bs[k].hole && 0 <= start && end <= |m|
    ensures i < |index| && index[i] == bs[k].pos && start <= bs[k].pos && bs[k].pos + OVERHEAD <= bs[k].End() <= end
    ensures SizeAt(m, index[i]) == bs[k].size
  {
    hide Word, Layout, Sealed;
    HolesAre(bs, bs[k].pos);
    assert bs[k] in bs && bs[k].pos in multiset(index);
    i :| 0 <= i < |index| && index[i] == bs[k].pos;
    LayoutSplit(m, bs, k, start, end, end);
    LayoutAround(m, bs, k, start, end, end);
  }

  // A hole that was too small fits once it has grown, aligned or not.
  lemma GrownFits(m: seq<byte>, index: seq<uint32>, bs: seq<Block>, m': seq<byte>, index': seq<uint32>,
                  need: uint32, align: bool, start: int, end: int, extra: int)
    requires Layout(m, bs, start, end, end) && Indexed(index, bs) && CanGrow(bs) && AnyHole(bs) && need <= extra
    requires Layout(m', Grown(bs, end, extra), start, end + extra, end + extra)
             && Indexed(index', Grown(bs, end, extra))
    requires PAGE <= start && |m| == |m'| == TWO_32 && end + extra < TWO_32
    requires align ==> need + 2 * PAGE < TWO_32
    requires !AnyFit(m, index, need, align)
    ensures AnyFit(m', index', need, align)
  {
    hide Layout, Indexed, Word, FrontGap;
    var k := |bs| - 1;
    var i := HoleIndexed(m, index, bs, k, start, end);
    var j := HoleIndexed(m', index', Grown(bs, end, extra), k, start, end + extra);
    assert !Fits(m, index[i], need, align);
    if align {
      AlignedFit(m, index[i], need);
      AlignedFit(m', index'[j], need);
    }
    assert Fits(m', index'[j], need, align);
  }

  // Where the heap is made of whole pages, the hole that growth appends to it serves an aligned request at
  // once exactly when the request goes little beyond whole pages itself.
  lemma SecondRound(m: seq<byte>, end: uint32, length: nat, need: uint32)
    requires end % PAGE == 0 && length % PAGE == 0 && PAGE <= length && PAGE <= end
    requires end as int + HEADER <= |m| && end as int + HEADER < TWO_32 && need <= TWO_32 - 2 * PAGE
    requires SizeAt(m, end) == Growth(length, need)
    ensures Fits(m, end, need, true) <==> need % PAGE <= HEADER
  {
    hide Fits, Growth;
    AlignedFit(m, end, need);
    WholePages(length, need);
    assert (end + HEADER) % PAGE == HEADER;
  }

  lemma WholePages(length: nat, need: nat)
    requires length % PAGE == 0 && PAGE <= length
    ensures Growth(length, need) == need - need % PAGE + PAGE
  {
    assert (length + need) % PAGE == need % PAGE;
  }

  lemma RoundsSay(m: seq<byte>, index: seq<uint32>, bs: seq<Block>, need: uint32, align: bool)
    ensures Rounds(m, index, bs, need, align) == 0 <==> AnyFit(m, index, need, align)
    ensures Rounds(m, index, bs, need, align) <= 2
    ensures Rounds(m, index, bs, need, align) == 2 ==> !AnyHole(bs)
    ensures align ==> Reach(0, align, need) == need as int + 2 * PAGE
  {
  }

  lemma GrownHole(bs: seq<Block>, end: int, x: int)
    requires CanGrow(bs)
    ensures CanGrow(Grown(bs, end, x)) && AnyHole(Grown(bs, end, x))
  {
    var last := Grown(bs, end, x)[|Grown(bs, end, x)| - 1];
    assert last in Grown(bs, end, x) && last.hole;
  }

  lemma GrownTwice(bs: seq<Block>, end: int, x: int, y: int)
    requires CanGrow(bs) && CanGrow(Grown(bs, end, x))
    ensures Grown(Grown(bs, end, x), end + x, y) == Grown(bs, end, x + y)
  {
    GrownHole(bs, end, x);
  }

  lemma LiveKeptTwice(m0: seq<byte>, m1: seq<byte>, m2: seq<byte>, bs0: seq<Block>, bs1: seq<Block>, bs2: seq<Block>)
    requires LiveKept(m0, m1, bs0, bs1) && LiveKept(m1, m2, bs1, bs2)
    ensures LiveKept(m0, m2, bs0, bs2)
  {
  }

  // What a caller gets: room for the request that belongs to no other live block.
  ghost predicate Granted(bs: seq<Block>, p: int, request: int, bs': seq<Block>) {
    exists nb ::
      && nb in bs' && !nb.hole && nb.pos + HEADER == p && p + request + FOOTER <= nb.End()
      && forall b :: b in bs && !b.hole ==> b.End() <= nb.pos || nb.End() <= b.pos
  }

  lemma CarveGrants(m: seq<byte>, m': seq<byte>, a: seq<Block>, h: Block, c: seq<Block>, request: nat, front: nat,
                    start: int, end: int)
    requires 0 <= start && end <= |m| && Layout(m, a + [h] + c, start, end, end) && Splits(h, request + OVERHEAD, front)
    requires SameOutside(m, m', h.pos, h.End())
    ensures LiveKept(m, m', a + [h] + c, a + Carved(h, request + OVERHEAD, front) + c)
    ensures Granted(a + [h] + c, h.pos + front + HEADER, request, a + Carved(h, request + OVERHEAD, front) + c)
  {
    var bs, k := a + [h] + c, |a|;
    var bs' := a + Carved(h, request + OVERHEAD, front) + c;
    assert bs[k] == h;
    LayoutAround(m, bs, k, start, end, end);
    LiveBeside(m, m', bs, k, bs', start, h.End(), end);
    assert NewBlock(h, request + OVERHEAD, front) in bs';
  }

  // Freeing what an unaligned allocation carved gives back the blocks there were, if the hole had no
  // hole beside it and was not the last block.
  lemma AllocFreeRestores(a: seq<Block>, h: Block, c: seq<Block>, need: int)
    requires h.hole && OVERHEAD <= need <= h.size
    requires (a == [] || !a[|a| - 1].hole) && c != [] && !c[0].hole
    ensures var bs := a + Carved(h, need, 0) + c;
      Freeable(bs, |a|) && !LeftIsHole(bs, |a|) && Merged(bs, |a|) == a + [h] + c
  {
    var bs, k := a + Carved(h, need, 0) + c, |a|;
    assert bs[k] == NewBlock(h, need, 0) && bs[..k] == a;
    if Rest(h, need, 0) > 0 {
      assert bs[k + 1] == TailHole(h, need, 0) && bs[k + 2..] == c;
    } else {
      assert bs[k + 1] == c[0] && bs[k + 1..] == c;
    }
  }

  // What a client writes between the header and the footer of its block keeps the heap.
  lemma ClientKeepsSound(m: seq<byte>, m': seq<byte>, bs: seq<Block>, k: nat, start: int, end: int, pages: set<int>)
    requires Sound(m, bs, start, end, pages) && k < |bs| && !bs[k].hole
    requires SameOutside(m, m', bs[k].pos + HEADER, bs[k].End() - FOOTER)
    ensures Sound(m', bs, start, end, pages)
  {
    hide Layout, Covers, HeaderAt, FooterAt;
    var b := bs[k];
    LayoutSplit(m, bs, k, start, end, end);
    LayoutAround(m, bs, k, start, end, end);
    HeaderStands(m, m', b.pos, b.size, b.hole);
    FooterStands(m, m', b.End() - FOOTER, b.pos);
    WordStands(m, m', start - FOOTER);
    OneBlock(m', b, b.pos, b.End(), end);
    Splice(m, m', bs[..k], [b], bs[k + 1..], start, b.pos, b.End(), end);
    assert bs == bs[..k] + [b] + bs[k + 1..];
  }

  lemma ClientKeepsOrder(m: seq<byte>, m': seq<byte>, index: seq<uint32>, bs: seq<Block>, k: nat, start: int, end: int)
    requires 0 <= start && end <= |m| && Layout(m, bs, start, end, end) && Indexed(index, bs) && k < |bs| && !bs[k].hole
    requires SameOutside(m, m', bs[k].pos + HEADER, bs[k].End() - FOOTER)
    ensures SizeOrdered(m, index) ==> SizeOrdered(m', index)
  {
    hide Layout, Holes, HeaderOk, Sealed, SizeOrdered;
    LayoutSplit(m, bs, k, start, end, end);
    LayoutBounds(m, bs[..k], start, bs[k].pos, end);
    HolesSplit(bs, k);
    RestStands(m, m', index, bs[..k], bs[k].pos, bs[k].End(), bs[k + 1..], start, end);
  }

  // No hole lies next to another.
  ghost predicate Separated(bs: seq<Block>) {
    forall i :: 0 <= i < |bs| - 1 ==> !(bs[i].hole && bs[i + 1].hole)
  }

  lemma CarvedSeparated(a: seq<Block>, h: Block, c: seq<Block>, need: int, front: int)
    requires Separated(a + [h] + c) && h.hole && 0 <= front
    ensures Separated(a + Carved(h, need, front) + c)
  {
    var bs, bs', n := a + [h] + c, a + Carved(h, need, front) + c, |a| + |Carved(h, need, front)|;
    forall i | 0 <= i < |bs'| - 1
      ensures !(bs'[i].hole && bs'[i + 1].hole)
    {
      if i < |a| {
        assert bs[i] == a[i] == bs'[i] && (i + 1 < |a| ==> bs[i + 1] == a[i + 1] == bs'[i + 1]);
        assert bs[|a|] == h;
      } else if i + 1 >= n {
        assert bs'[i + 1] == c[i + 1 - n] == bs[i + 1 - n + |a| + 1];
        assert i >= n ==> bs'[i] == c[i - n] == bs[i - n + |a| + 1];
        assert bs[|a|] == h;
      }
    }
  }

  lemma MergedSeparated(bs: seq<Block>, k: nat)
    requires Separated(bs) && Freeable(bs, k)
    ensures Separated(Merged(bs, k))
  {
    var lo, hi, bs' := MergeLo(bs, k), MergeHi(bs, k), Merged(bs, k);
    forall i | 0 <= i < |bs'| - 1
      ensures !(bs'[i].hole && bs'[i + 1].hole)
    {
      assert i < lo ==> bs'[i] == bs[i];
      assert i + 1 > lo ==> bs'[i + 1] == bs[i + 1 - lo + hi];
      assert i > lo ==> bs'[i] == bs[i - lo + hi];
      assert i + 1 < lo ==> bs'[i + 1] == bs[i + 1];
    }
  }
}
