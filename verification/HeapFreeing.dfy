/** Freeing a block: the merge with the holes on either side, and when the merge goes wrong. */
module HeapFreeing {
  import opened Words
  import opened ByteMemory
  import opened OrderedArrays
  import opened HeapLayout
  import opened HeapCarving

  lemma JoinLeftExtent(l: Block, b: Block)
    requires 0 <= b.pos && b.size >= OVERHEAD && (l.hole ==> 0 <= l.pos && l.End() == b.pos && l.size >= OVERHEAD)
    ensures var h := JoinLeft(l, b); h.hole && 0 <= h.pos && h.size >= OVERHEAD && h.End() == b.End()
  {
  }

  // What joining a block to the hole header at `head` writes: the block's footer names `head`, and the
  // size there grows by `extra`.
  ghost predicate Joined(m: seq<byte>, m': seq<byte>, head: int, footer: int, extra: int) {
    && |m'| == |m| && 0 <= head && head + HEADER <= footer && footer + FOOTER <= |m|
    && (forall x :: 0 <= x < |m| && !(head + 8 <= x < head + 12) && !(footer + 4 <= x < footer + 8) ==> m'[x] == m[x])
    && FooterAt(m', footer, head)
    && SizeAt(m', head) == Wrap(SizeAt(m, head) + extra)
  }

  lemma JoinedToHole(m: seq<byte>, m': seq<byte>, l: Block, b: Block)
    requires Joined(m, m', l.pos, b.End() - FOOTER, b.size) && HeaderOk(m, l) && l.hole
    requires l.End() == b.pos && l.size >= OVERHEAD && b.size >= OVERHEAD && b.End() < TWO_32
    ensures Stamped(m', Block(l.pos, l.size + b.size, true)) && SameOutside(m, m', l.pos, b.End())
  {
    WordStands(m, m', l.pos);
  }

  lemma JoinedToStale(m: seq<byte>, m': seq<byte>, l: Block, b: Block, q: int)
    requires Joined(m, m', q, b.End() - FOOTER, b.size) && HeaderOk(m, l) && l.hole && FooterAt(m, l.End() - FOOTER, q)
    requires l.pos + OVERHEAD <= q && q + OVERHEAD <= l.End() == b.pos && m[q + 4] == 1
    requires b.size >= OVERHEAD && HeaderAt(m, b.pos, b.size, true)
    ensures HeaderOk(m', l) && FooterStale(m', l) && HeaderAt(m', b.pos, b.size, true)
    ensures SameOutside(m, m', l.pos, b.End()) && FooterAt(m', l.End() - FOOTER, q)
  {
    HeaderStands(m, m', l.pos, l.size, true);
    HeaderStands(m, m', b.pos, b.size, true);
    FooterStands(m, m', l.End() - FOOTER, q);
  }

  // The freed block `k` together with the holes on either side of it.
  function MergeLo(bs: seq<Block>, k: nat): nat
    requires k < |bs|
  {
    if k > 0 && bs[k - 1].hole then k - 1 else k
  }

  function MergeHi(bs: seq<Block>, k: nat): nat
    requires k + 1 < |bs|
  {
    if bs[k + 1].hole then k + 1 else k
  }

  // One hole over `b` and those of its neighbours that are holes; a live block stands for no neighbour.
  function JoinLeft(l: Block, b: Block): Block {
    if l.hole then Block(l.pos, l.size + b.size, true) else Block(b.pos, b.size, true)
  }

  function JoinRight(h: Block, r: Block): Block {
    if r.hole then Block(h.pos, h.size + r.size, true) else h
  }

  function MergedHole(bs: seq<Block>, k: nat): Block
    requires k + 1 < |bs|
  {
    JoinRight(JoinLeft(if k > 0 then bs[k - 1] else bs[k], bs[k]), bs[k + 1])
  }

  function Merged(bs: seq<Block>, k: nat): seq<Block>
    requires k + 1 < |bs|
  {
    bs[..MergeLo(bs, k)] + [MergedHole(bs, k)] + bs[MergeHi(bs, k) + 1..]
  }

  // Block `k` is live, and neither it nor a hole right after it reaches the end of the heap.
  predicate Freeable(bs: seq<Block>, k: nat) {
    k + 1 < |bs| && !bs[k].hole && (bs[k + 1].hole ==> k + 2 < |bs|)
  }

  // The four cases, block by block.
  lemma MergedBlocks(bs: seq<Block>, k: nat)
    requires Freeable(bs, k)
    ensures var b, r := bs[k], bs[k + 1];
      if k > 0 && bs[k - 1].hole
      then Merged(bs, k) == bs[..k - 1]
             + [Block(bs[k - 1].pos, bs[k - 1].size + b.size + (if r.hole then r.size else 0), true)]
             + bs[if r.hole then k + 2 else k + 1..]
      else Merged(bs, k) == bs[..k] + [Block(b.pos, b.size + (if r.hole then r.size else 0), true)]
             + bs[if r.hole then k + 2 else k + 1..]
  {
  }

  // The hole on the left cannot be found through its footer.
  ghost predicate LeftStale(m: seq<byte>, bs: seq<Block>, k: nat)
    requires k < |bs|
  {
    k > 0 && bs[k - 1].hole && !FooterOk(m, bs[k - 1])
  }

  // What a caller can see of it before the free of the block at `p`: a footer in front of the block whose
  // header says hole and is not in the index.
  predicate Misled(m: seq<byte>, index: seq<uint32>, p: int) {
    && FOOTER <= p && p + HEADER <= |m|
    && Word(m, p - FOOTER) == MAGIC
    && var q := Word(m, p - FOOTER + 4);
    && q as int + HEADER <= |m| && m[q + 4] == 1 && q !in index
  }

  lemma StaleIsMisled(m: seq<byte>, index: seq<uint32>, bs: seq<Block>, k: nat, p: uint32, start: int, end: int,
                      pages: set<int>)
    requires Sound(m, bs, start, end, pages) && Indexed(index, bs) && Freeable(bs, k) && p == bs[k].pos
    ensures LeftStale(m, bs, k) <==> Misled(m, index, p)
  {
    hide Layout, Covers, Word;
    Surroundings(m, bs, k, start, end);
    if k > 0 {
      hide Sealed, Sound, Indexed;
      var l, q := bs[k - 1], Word(m, p - FOOTER + 4);
      IndexedInside(m, index, bs, k - 1, q, start, end);
      SealedSays(m, l, end);
    }
  }

  lemma SealedSays(m: seq<byte>, l: Block, end: int)
    requires Sealed(m, l, end) && HeaderOk(m, l) && l.End() < end && FOOTER <= l.End() && l.End() <= |m|
    ensures Word(m, l.End() - FOOTER) == MAGIC
    ensures var q := Word(m, l.End() - FOOTER + 4);
            if FooterOk(m, l) then q == l.pos
            else l.hole && l.pos < q && q as int + OVERHEAD <= l.End() && m[q + 4] == 1
    ensures m[l.pos + 4] == if l.hole then 1 else 0
  {
    hide Word;
  }

  // Within a block the index has the block's own position if it is a hole, and no other.
  lemma IndexedInside(m: seq<byte>, index: seq<uint32>, bs: seq<Block>, k: nat, q: uint32, start: int, end: int)
    requires Layout(m, bs, start, end, end) && Indexed(index, bs) && k < |bs| && bs[k].pos <= q < bs[k].End()
    ensures q in index <==> q == bs[k].pos && bs[k].hole
  {
    hide Layout;
    var l := bs[k];
    LayoutAround(m, bs, k, start, end, end);
    assert l in bs;
    HolesAre(bs, q);
    assert q in index <==> q in multiset(index);
  }

  lemma JoinedRight(m0: seq<byte>, m: seq<byte>, m': seq<byte>, h: Block, r: Block, end: int)
    requires SameOutside(m0, m, h.pos, h.End())
    requires Stamped(m, h) && h.hole && HeaderOk(m, r) && Sealed(m, r, end) && r.pos == h.End()
    requires 0 <= h.pos && h.size >= OVERHEAD && r.size >= OVERHEAD && r.End() <= |m| && r.End() < TWO_32
    requires if r.hole
             then
               && r.End() != end && SameOutside(m, m', h.pos + 8, h.pos + HEADER)
               && SizeAt(m', h.pos) == Wrap(SizeAt(m, h.pos) + r.size)
             else m' == m
    ensures HeaderOk(m', JoinRight(h, r)) && Sealed(m', JoinRight(h, r), end)
    ensures FooterOk(m', JoinRight(h, r)) <==> !r.hole
    ensures JoinRight(h, r).pos == h.pos && SameOutside(m0, m', h.pos, JoinRight(h, r).End())
  {
    hide Word;
    if r.hole {
      WordStands(m, m', h.pos);
      BlockStands(m, m', r);
      assert FooterStale(m', JoinRight(h, r));
    }
  }

  lemma AroundMerged(m: seq<byte>, bs: seq<Block>, k: nat, start: int, end: int) returns (lo: int, hi: int)
    requires Layout(m, bs, start, end, end) && Freeable(bs, k)
    ensures lo == MergedHole(bs, k).pos && hi == MergedHole(bs, k).End()
    ensures Layout(m, bs[..MergeLo(bs, k)], start, lo, end)
    ensures Layout(m, bs[MergeHi(bs, k) + 1..], hi, end, end)
    ensures MergedHole(bs, k).size >= OVERHEAD && lo <= hi
  {
    hide Layout, HeaderOk, Sealed;
    Surroundings(m, bs, k, start, end);
    lo, hi := bs[MergeLo(bs, k)].pos, bs[MergeHi(bs, k)].End();
  }

  lemma FreeLayout(m: seq<byte>, m': seq<byte>, bs: seq<Block>, k: nat, start: int, end: int, pages: set<int>)
    requires Sound(m, bs, start, end, pages) && Freeable(bs, k)
    requires var h := MergedHole(bs, k); SameOutside(m, m', h.pos, h.End()) && HeaderOk(m', h) && Sealed(m', h, end)
    ensures Sound(m', Merged(bs, k), start, end, pages)
  {
    hide Layout, Covers, HeaderOk, Sealed, MergedHole;
    var lo, hi := AroundMerged(m, bs, k, start, end);
    OneHole(m, m', bs, bs[..MergeLo(bs, k)], lo, MergedHole(bs, k), hi, bs[MergeHi(bs, k) + 1..], start, end, pages);
  }

  lemma StaleStands(m0: seq<byte>, m: seq<byte>, m': seq<byte>, l: Block, b: Block, head: int)
    requires 0 <= l.pos && l.End() == b.pos && b.End() <= |m| == |m0|
    requires SameOutside(m0, m, l.pos, b.End()) && b.size >= OVERHEAD
    requires HeaderOk(m, l) && FooterStale(m, l) && HeaderAt(m, b.pos, b.size, true)
    requires FooterAt(m, l.End() - FOOTER, head) && l.pos + OVERHEAD <= head && head + OVERHEAD <= l.End()
    requires m' == m || SameOutside(m, m', head + 8, head + HEADER)
    ensures SameOutside(m0, m', l.pos, b.End()) && HeaderOk(m', l) && FooterStale(m', l)
            && HeaderAt(m', b.pos, b.size, true)
  {
    HeaderStands(m, m', l.pos, l.size, l.hole);
    HeaderStands(m, m', b.pos, b.size, true);
    FooterStands(m, m', l.End() - FOOTER, head);
  }

  lemma FreeStale(m: seq<byte>, m': seq<byte>, bs: seq<Block>, k: nat, start: int, end: int)
    requires 0 <= start && end <= |m| && Layout(m, bs, start, end, end) && Freeable(bs, k) && k > 0 && bs[k - 1].hole
    requires SameOutside(m, m', bs[k - 1].pos, bs[k].End()) && HeaderOk(m', bs[k - 1]) && FooterStale(m', bs[k - 1])
    ensures Layout(m', bs[..k], start, bs[k].pos, end)
  {
    hide HeaderOk, FooterStale, Layout;
    var l := bs[k - 1];
    Surroundings(m, bs, k, start, end);
    LayoutBounds(m, bs[..k - 1], start, l.pos, end);
    LayoutStands(m, m', bs[..k - 1], start, l.pos, end);
    OneBlock(m', l, l.pos, bs[k].pos, end);
    LayoutJoin(m', bs[..k - 1], [l], start, l.pos, bs[k].pos, end);
    assert bs[..k] == bs[..k - 1] + [l];
  }

  // One hole in place of the stretch of blocks it covers.
  lemma OneHole(m: seq<byte>, m': seq<byte>, bs: seq<Block>, a: seq<Block>, lo: int, h: Block, hi: int, c: seq<Block>,
                start: int, end: int, pages: set<int>)
    requires Sound(m, bs, start, end, pages) && lo == h.pos && hi == h.End()
    requires Layout(m, a, start, lo, end) && Layout(m, c, hi, end, end) && h.size >= OVERHEAD
    requires SameOutside(m, m', lo, hi) && HeaderOk(m', h) && Sealed(m', h, end)
    ensures Sound(m', a + [h] + c, start, end, pages)
  {
    hide Layout, Covers, HeaderOk, Sealed;
    LayoutBounds(m, a, start, lo, end);
    LayoutBounds(m, c, hi, end, end);
    WordStands(m, m', start - FOOTER);
    OneBlock(m', h, lo, hi, end);
    Splice(m, m', a, [h], c, start, lo, hi, end);
  }

  // Blocks `k - 1`, `k` and `k + 1` in memory.
  lemma Surroundings(m: seq<byte>, bs: seq<Block>, k: nat, start: int, end: int)
    requires Layout(m, bs, start, end, end) && k + 1 < |bs|
    ensures Layout(m, bs[..k], start, bs[k].pos, end)
    ensures HeaderOk(m, bs[k]) && Sealed(m, bs[k], end) && start <= bs[k].pos && bs[k].size >= OVERHEAD
    ensures bs[k + 1].pos == bs[k].End() && HeaderOk(m, bs[k + 1]) && Sealed(m, bs[k + 1], end)
    ensures bs[k + 1].size >= OVERHEAD && bs[k + 1].End() <= end
    ensures k + 2 < |bs| ==> bs[k + 1].End() < end
    ensures k == 0 ==> bs[k].pos == start
    ensures k > 0 ==> HeaderOk(m, bs[k - 1]) && Sealed(m, bs[k - 1], end) && bs[k - 1].size >= OVERHEAD
    ensures k > 0 ==> start <= bs[k - 1].pos && bs[k - 1].End() == bs[k].pos
    ensures k > 0 ==> Layout(m, bs[..k - 1], start, bs[k - 1].pos, end)
    ensures Layout(m, bs[k + 1..], bs[k].End(), end, end) && Layout(m, bs[k + 2..], bs[k + 1].End(), end, end)
  {
    hide HeaderOk, Sealed;
    LayoutSplit(m, bs, k, start, end, end);
    LayoutSplit(m, bs, k + 1, start, end, end);
    LayoutBounds(m, bs, start, end, end);
    assert bs[k + 1..][0] == bs[k + 1];
    if k + 2 < |bs| {
      assert bs[k + 2..][0] == bs[k + 2] && bs[k + 2] in bs;
    }
    if k > 0 {
      LayoutSplit(m, bs, k - 1, start, end, end);
      assert bs[k - 1 + 1..][0] == bs[k];
    }
  }

  lemma MergedHoles(bs: seq<Block>, k: nat)
    requires Freeable(bs, k)
    ensures Holes(Merged(bs, k))
            == Holes(bs[..MergeLo(bs, k)]) + multiset{MergedHole(bs, k).pos} + Holes(bs[MergeHi(bs, k) + 1..])
  {
    HolesAround(bs[..MergeLo(bs, k)], [MergedHole(bs, k)], bs[MergeHi(bs, k) + 1..]);
    HolesOne(MergedHole(bs, k));
  }

  function LeftHole(bs: seq<Block>, k: nat): multiset<int>
    requires k < |bs|
  {
    if k > 0 then HoleOf(bs[k - 1]) else multiset{}
  }

  lemma LeftNeighbour(bs: seq<Block>, k: nat)
    requires k < |bs|
    ensures Holes(bs[..k]) == Holes(bs[..MergeLo(bs, k)]) + LeftHole(bs, k)
  {
    if k > 0 {
      HolesSplit(bs[..k], k - 1);
      assert bs[..k][..k - 1] == bs[..k - 1] && bs[..k][k..] == [];
    }
  }

  lemma RightNeighbour(bs: seq<Block>, k: nat)
    requires k + 1 < |bs|
    ensures Holes(bs[k + 1..]) == HoleOf(bs[k + 1]) + Holes(bs[MergeHi(bs, k) + 1..])
  {
    assert bs[k + 1..][1..] == bs[k + 2..];
  }

  lemma NeighbourHoles(bs: seq<Block>, k: nat)
    requires Freeable(bs, k)
    ensures Holes(bs)
            == Holes(bs[..MergeLo(bs, k)]) + LeftHole(bs, k) + HoleOf(bs[k + 1]) + Holes(bs[MergeHi(bs, k) + 1..])
  {
    hide Holes, LeftHole, MergeLo, MergeHi;
    HolesSplit(bs, k);
    LeftNeighbour(bs, k);
    RightNeighbour(bs, k);
  }

  // The index after a free: the hole on the right is forgotten, a hole with no hole on its left is new.
  lemma MergedIndex(index: seq<int>, bs: seq<Block>, k: nat)
    requires Freeable(bs, k) && Indexed(index, bs)
    ensures HoleOf(bs[k + 1]) <= multiset(index)
    ensures var kept := multiset(index) - HoleOf(bs[k + 1]);
      if k > 0 && bs[k - 1].hole then kept == Holes(Merged(bs, k))
      else
        && kept == Holes(bs[..k]) + Holes(bs[MergeHi(bs, k) + 1..])
        && kept + multiset{bs[k].pos} == Holes(Merged(bs, k))
  {
    hide Holes, Merged, MergedHole;
    MergedHoles(bs, k);
    NeighbourHoles(bs, k);
    MergedStart(bs, k);
    LeftNeighbour(bs, k);
    DropThird(multiset(index), Holes(bs[..MergeLo(bs, k)]), LeftHole(bs, k), HoleOf(bs[k + 1]),
              Holes(bs[MergeHi(bs, k) + 1..]));
    LeftAlone(bs, k);
    hide HoleOf, LeftHole, MergeLo;
  }

  lemma LeftAlone(bs: seq<Block>, k: nat)
    requires k < |bs|
    ensures LeftHole(bs, k) == if k > 0 && bs[k - 1].hole then multiset{bs[MergeLo(bs, k)].pos} else multiset{}
    ensures !(k > 0 && bs[k - 1].hole) ==> MergeLo(bs, k) == k
  {
  }

  lemma DropThird(s: multiset<int>, a: multiset<int>, b: multiset<int>, c: multiset<int>, d: multiset<int>)
    requires s == a + b + c + d
    ensures c <= s && s - c == a + b + d
  {
  }

  lemma MergedStart(bs: seq<Block>, k: nat)
    requires k + 1 < |bs|
    ensures MergedHole(bs, k).pos == bs[MergeLo(bs, k)].pos
  {
  }

  // A live block's address is not in the index, so turning it into a hole without entering it is a leak.
  lemma LiveNotIndexed(m: seq<byte>, index: seq<int>, bs: seq<Block>, k: nat, start: int, end: int)
    requires Layout(m, bs, start, end, end) && Indexed(index, bs) && k < |bs| && !bs[k].hole
    ensures bs[k].pos !in multiset(index)
  {
    LayoutAround(m, bs, k, start, end, end);
    HolesAre(bs, bs[k].pos);
  }

  // Some reading of the memory as blocks has exactly the indexed holes.
  ghost predicate Representable(m: seq<byte>, index: seq<int>, start: int, end: int) {
    exists bs :: Layout(m, bs, start, end, end) && Indexed(index, bs)
  }

  lemma Leaked(m: seq<byte>, index: seq<int>, a: seq<Block>, pos: int, size: int, start: int, end: int)
    requires Layout(m, a, start, pos, end) && pos < end && HeaderAt(m, pos, size, true) && pos !in multiset(index)
    ensures !Representable(m, index, start, end)
  {
    forall bs: seq<Block> | Layout(m, bs, start, end, end)
      ensures !Indexed(index, bs)
    {
      LayoutPrefix(m, a, start, pos, bs, end, end);
      HolesAre(bs, pos);
      assert bs[|a|] in bs && bs[|a|].hole;
    }
  }

  ghost predicate LeftIsHole(bs: seq<Block>, k: nat)
    requires k < |bs|
  {
    k > 0 && bs[k - 1].hole
  }

  lemma RightIndexed(index: seq<uint32>, bs: seq<Block>, k: nat)
    requires Indexed(index, bs) && k + 1 < |bs| && bs[k + 1].hole
    ensures 0 <= bs[k + 1].pos < TWO_32 && bs[k + 1].pos in index
  {
    HolesAre(bs, bs[k + 1].pos);
    assert bs[k + 1].pos in multiset(index);
  }

  // What a free does to the index: `next` leaves it when `merged`, `head` enters it when `doAdd`.
  ghost predicate FreedIndex(index: seq<uint32>, i: nat, kept: seq<uint32>, j: nat, index': seq<uint32>,
                             merged: bool, next: uint32, doAdd: bool, head: uint32)
  {
    && (if merged then i < |index| && index[i] == next && kept == Without(index, i) else kept == index)
    && (if doAdd then j <= |kept| && index' == With(kept, j, head) else index' == kept)
  }

  ghost predicate FreedBeside(bs: seq<Block>, k: nat, merged: bool, next: uint32, doAdd: bool) {
    Freeable(bs, k) && merged == bs[k + 1].hole && next == bs[k + 1].pos && doAdd == !LeftIsHole(bs, k)
  }

  // The index after a free, entry by entry: the hole on the right is gone, a hole with no hole on its left is where
  // `Insert` puts it, and the others are in the order they were in, also where a hole on the left has grown.
  ghost predicate IndexAfter(m: seq<byte>, index: seq<uint32>, index': seq<uint32>, bs: seq<Block>, k: nat)
    requires Freeable(bs, k)
  {
    exists i: nat, kept: seq<uint32>, j: nat :: IndexSteps(m, index, i, kept, j, index', bs, k)
  }

  ghost predicate IndexSteps(m: seq<byte>, index: seq<uint32>, i: nat, kept: seq<uint32>, j: nat, index': seq<uint32>,
                             bs: seq<Block>, k: nat)
    requires Freeable(bs, k)
  {
    && (if bs[k + 1].hole then i < |index| && index[i] == bs[k + 1].pos && kept == index[..i] + index[i + 1..]
        else kept == index)
    && (if LeftIsHole(bs, k) then index' == kept
        else
          && 0 <= bs[k].pos <= TWO_32 - HEADER && Readable(m, kept) && |m| == TWO_32
          && InsertionPoint(m, kept, bs[k].pos, j) && index' == kept[..j] + [bs[k].pos] + kept[j..])
  }

  lemma IndexIsAfter(m: seq<byte>, index: seq<uint32>, i: nat, kept: seq<uint32>, j: nat, index': seq<uint32>,
                     merged: bool, next: uint32, doAdd: bool, head: uint32, bs: seq<Block>, k: nat)
    requires FreedIndex(index, i, kept, j, index', merged, next, doAdd, head)
    requires FreedBeside(bs, k, merged, next, doAdd) && head == MergedHole(bs, k).pos
    requires Readable(m, kept) && head + HEADER <= |m| == TWO_32 && (doAdd ==> InsertionPoint(m, kept, head, j))
    ensures IndexAfter(m, index, index', bs, k)
  {
    assert doAdd ==> head == bs[k].pos;
    assert IndexSteps(m, index, i, kept, j, index', bs, k);
  }

  lemma FreedIndexKept(index: seq<uint32>, i: nat, kept: seq<uint32>, j: nat, index': seq<uint32>,
                       merged: bool, next: uint32, doAdd: bool, head: uint32, bs: seq<Block>, k: nat)
    requires Indexed(index, bs) && FreedIndex(index, i, kept, j, index', merged, next, doAdd, head)
    requires FreedBeside(bs, k, merged, next, doAdd)
    ensures multiset(kept) <= multiset(index)
    ensures !doAdd ==> multiset(kept) == Holes(Merged(bs, k))
    ensures doAdd ==> multiset(kept) == Holes(bs[..k]) + Holes(bs[MergeHi(bs, k) + 1..])
    ensures doAdd ==> multiset(kept) + multiset{bs[k].pos} == Holes(Merged(bs, k))
  {
    hide Holes, Merged;
    MergedIndex(index, bs, k);
    if merged {
      WithoutMultiset(index, i);
    }
  }

  lemma FreedIndexExact(index: seq<uint32>, i: nat, kept: seq<uint32>, j: nat, index': seq<uint32>,
                        merged: bool, next: uint32, doAdd: bool, head: uint32, bs: seq<Block>, k: nat)
    requires Indexed(index, bs) && FreedIndex(index, i, kept, j, index', merged, next, doAdd, head)
    requires FreedBeside(bs, k, merged, next, doAdd) && head == MergedHole(bs, k).pos
    ensures Indexed(index', Merged(bs, k))
  {
    hide Holes, Merged, MergeHi, With, Without;
    FreedIndexKept(index, i, kept, j, index', merged, next, doAdd, head, bs, k);
    if doAdd {
      WithMultiset(kept, j, head);
    }
  }

  // With a stale footer on the left the freed block is a hole in memory that the index does not list.
  lemma FreedLeaks(m: seq<byte>, m': seq<byte>, index: seq<uint32>, i: nat, kept: seq<uint32>, j: nat,
                   index': seq<uint32>,
                   merged: bool, next: uint32, doAdd: bool, head: uint32, bs: seq<Block>, k: nat, start: int, end: int)
    requires Indexed(index, bs) && FreedIndex(index, i, kept, j, index', merged, next, doAdd, head)
    requires FreedBeside(bs, k, merged, next, doAdd) && !doAdd && Layout(m, bs, start, end, end)
    requires Layout(m', bs[..k], start, bs[k].pos, end) && HeaderAt(m', bs[k].pos, bs[k].size, true)
    ensures !Representable(m', index', start, end)
  {
    hide Holes, MergeHi, Merged, Without, With, HeaderAt, Layout;
    FreedIndexKept(index, i, kept, j, index', merged, next, doAdd, head, bs, k);
    LiveNotIndexed(m, index, bs, k, start, end);
    LayoutAround(m, bs, k, start, end, end);
    Leaked(m', index', bs[..k], bs[k].pos, bs[k].size, start, end);
  }

  // A free that does not merge to the left keeps the index in order of size.
  lemma FreedOrdered(m0: seq<byte>, m: seq<byte>, index: seq<uint32>, i: nat, kept: seq<uint32>, j: nat,
                     index': seq<uint32>,
                     merged: bool, next: uint32, head: uint32, bs: seq<Block>, k: nat, start: int, end: int)
    requires 0 <= start && end <= |m0| && Layout(m0, bs, start, end, end)
    requires Indexed(index, bs) && FreedIndex(index, i, kept, j, index', merged, next, true, head)
    requires FreedBeside(bs, k, merged, next, true)
             && SameOutside(m0, m, MergedHole(bs, k).pos, MergedHole(bs, k).End())
    requires Readable(m, kept) && head as int + HEADER <= |m| && InsertionPoint(m, kept, head, j)
    requires SizeOrdered(m0, index)
    ensures SizeOrdered(m, index')
  {
    hide Layout, Holes, Merged, MergedHole, Without, With, InsertionPoint, SizeOrdered;
    FreedIndexKept(index, i, kept, j, index', merged, next, true, head, bs, k);
    var lo, hi := AroundMerged(m0, bs, k, start, end);
    if merged {
      WithoutOrdered(m0, index, i);
    }
    RestStands(m0, m, kept, bs[..k], lo, hi, bs[MergeHi(bs, k) + 1..], start, end);
    InsertOrdered(m, kept, j, head);
  }

  // The blocks after the first two of three frees: the middle of three live neighbours, then the left one.
  lemma MiddleFreed(bs: seq<Block>, k: nat)
    requires k + 3 < |bs| && forall i :: k <= i <= k + 3 ==> !bs[i].hole
    ensures Freeable(bs, k + 1) && !LeftIsHole(bs, k + 1)
    ensures Merged(bs, k + 1) == bs[..k + 1] + [Block(bs[k + 1].pos, bs[k + 1].size, true)] + bs[k + 2..]
  {
  }

  lemma LeftFreed(bs: seq<Block>, bs': seq<Block>, k: nat)
    requires k + 3 < |bs| && (forall i :: k <= i <= k + 3 ==> !bs[i].hole) && !LeftIsHole(bs, k)
    requires bs' == bs[..k + 1] + [Block(bs[k + 1].pos, bs[k + 1].size, true)] + bs[k + 2..]
    ensures Freeable(bs', k) && !LeftIsHole(bs', k) && bs'[k].pos == bs[k].pos && bs'[k + 1].hole
    ensures Merged(bs', k) == bs[..k] + [MergedHole(bs', k)] + bs[k + 2..] && MergedHole(bs', k).hole
  {
  }

  lemma RightFreeable(bs: seq<Block>, h: Block, bs': seq<Block>, k: nat)
    requires k + 3 < |bs| && !bs[k + 2].hole && !bs[k + 3].hole && h.hole && bs' == bs[..k] + [h] + bs[k + 2..]
    ensures Freeable(bs', k + 1) && bs'[k + 1] == bs[k + 2] && bs'[k] == h
  {
  }
}
