/** Fitting a request into a hole and carving the hole: what becomes of the blocks, the bytes and the index. */
module HeapCarving {
  import opened Words
  import opened ByteMemory
  import opened OrderedArrays
  import opened HeapLayout

  const INDEX_SIZE := 0x2_0000

  // Bytes skipped so that the payload of a block carved from a hole at `pos` is page aligned.
  function FrontGap(pos: int): int { PAGE - pos % PAGE - HEADER }

  // The test of the search loop, with the unsigned wrap-around of the aligned case.
  predicate Fits(m: seq<byte>, p: uint32, need: uint32, align: bool)
    requires p + HEADER <= |m|
  {
    var size := SizeAt(m, p);
    if align then
      var payload := Wrap(p + HEADER);
      var offset := if PageMask(payload) != 0 then PAGE - payload % PAGE else 0;
      Wrap(size - offset) >= need
    else size >= need
  }

  function Front(pos: int, align: bool): int { if align then FrontGap(pos) else 0 }

  lemma FrontAligns(pos: int)
    ensures (pos + FrontGap(pos) + HEADER) % PAGE == 0
  {
  }

  // Room in hole `h` for `front` bytes, a block of `need` bytes and nothing smaller than a header and
  // a footer besides.
  predicate Splits(h: Block, need: int, front: int) {
    && h.hole
    && if front == 0 then need <= h.size
       else OVERHEAD <= front && (front + need == h.size || front + need + OVERHEAD <= h.size)
  }

  // When carving leaves well-formed blocks. Without alignment a hole that is large enough always
  // qualifies; with it, the front hole and the tail hole must each have room for a header and a footer.
  predicate Carvable(h: Block, need: int, align: bool) {
    (align ==> OVERHEAD <= FrontGap(h.pos)) && Splits(h, need, Front(h.pos, align))
  }

  // Without a front hole, a remainder too small for a header and a footer goes to the block.
  function CutSize(h: Block, need: int, front: int): int {
    if front == 0 && h.size - need < OVERHEAD then h.size else need
  }

  function Rest(h: Block, need: int, front: int): int { h.size - front - CutSize(h, need, front) }

  function NewBlock(h: Block, need: int, front: int): Block {
    Block(h.pos + front, CutSize(h, need, front), false)
  }

  function TailHole(h: Block, need: int, front: int): Block {
    Block(NewBlock(h, need, front).End(), Rest(h, need, front), true)
  }

  // The blocks that replace hole `h` when `need` bytes are carved from it.
  function Carved(h: Block, need: int, front: int): seq<Block> {
    (if front > 0 then [Block(h.pos, front, true)] else [])
    + [NewBlock(h, need, front)]
    + (if Rest(h, need, front) > 0 then [TailHole(h, need, front)] else [])
  }

  // The pieces of a carved hole. Without alignment, a remainder of less than twenty bytes goes to the block.
  lemma CarvedPlain(h: Block, need: int)
    requires OVERHEAD <= need
    ensures Carvable(h, need, false) <==> h.hole && need <= h.size
    ensures need <= h.size ==>
              Carved(h, need, Front(h.pos, false))
              == if h.size - need < 20 then [Block(h.pos, h.size, false)]
                 else [Block(h.pos, need, false), Block(h.pos + need, h.size - need, true)]
  {
  }

  // With it, a hole stays in front of the header that ends at the page boundary.
  lemma CarvedAligned(h: Block, need: int)
    requires OVERHEAD <= need
    ensures var f := 0x1000 - h.pos % 0x1000 - 12;
      && (Carvable(h, need, true) <==> h.hole && 20 <= f && (f + need == h.size || f + need + 20 <= h.size))
      && (Carvable(h, need, true) ==>
            Carved(h, need, Front(h.pos, true))
            == [Block(h.pos, f, true), Block(h.pos + f, need, false)]
               + if f + need < h.size then [Block(h.pos + f + need, h.size - f - need, true)] else [])
  {
  }

  ghost predicate Readable(m: seq<byte>, index: seq<uint32>) {
    forall i :: 0 <= i < |index| ==> index[i] as int + HEADER <= |m|
  }

  // Conjunct (d): the index is in order of size.
  ghost predicate SizeOrdered(m: seq<byte>, index: seq<uint32>) {
    Readable(m, index) && forall i, j :: 0 <= i < j < |index| ==> SizeAt(m, index[i]) <= SizeAt(m, index[j])
  }

  // Where `HeapOrderedArray::Insert` puts `item`.
  ghost predicate InsertionPoint(m: seq<byte>, index: seq<uint32>, item: uint32, j: nat)
    requires Readable(m, index) && item + HEADER <= |m|
  {
    && j <= |index|
    && (forall i :: 0 <= i < j ==> SizeAt(m, index[i]) < SizeAt(m, item))
    && (j < |index| ==> SizeAt(m, item) <= SizeAt(m, index[j]))
  }

  lemma IndexPositions(index: seq<uint32>, bs: seq<Block>, i: nat)
    requires Indexed(index, bs) && i < |index|
    ensures exists b :: b in bs && b.hole && b.pos == index[i]
  {
    assert index[i] in multiset(index);
    HolesAre(bs, index[i]);
  }

  lemma IndexReadable(m: seq<byte>, index: seq<uint32>, bs: seq<Block>, lo: int, hi: int, end: int)
    requires Indexed(index, bs) && Layout(m, bs, lo, hi, end) && hi <= |m|
    ensures Readable(m, index) && forall i :: 0 <= i < |index| ==> lo <= index[i]
  {
    LayoutBounds(m, bs, lo, hi, end);
    forall i | 0 <= i < |index|
      ensures index[i] as int + HEADER <= |m| && lo <= index[i]
    {
      IndexPositions(index, bs, i);
    }
  }

  function PagesFrom(first: int, last: int): (pages: set<int>)
    ensures forall k :: k in pages <==> first <= k <= last
    decreases last - first
  {
    if last < first then {} else {first} + PagesFrom(first + 1, last)
  }

  ghost predicate Covers(pages: set<int>, lo: int, hi: int) {
    forall k :: lo <= k * PAGE < hi ==> k in pages
  }

  lemma RegionCovers(start: int, end: int)
    requires start % PAGE == 0
    ensures Covers(PagesFrom(start / PAGE, start / PAGE + (end - start) / PAGE), start, end)
  {
  }

  // Everything but the index: conjuncts (a) and (c), a word below the heap that is not a footer, and
  // every page of the heap requested from the pager.
  ghost predicate Sound(m: seq<byte>, bs: seq<Block>, start: int, end: int, pages: set<int>) {
    && |m| == TWO_32
    && PAGE <= start <= end < TWO_32 && start % PAGE == 0
    && Layout(m, bs, start, end, end)
    && Word(m, start - FOOTER) != MAGIC
    && Covers(pages, start, end)
  }

  lemma SoundLayout(m: seq<byte>, bs: seq<Block>, start: int, end: int, pages: set<int>)
    requires Sound(m, bs, start, end, pages)
    ensures |m| == TWO_32 && PAGE <= start <= end < TWO_32 && Layout(m, bs, start, end, end)
  {
  }

  lemma InitialState(m: seq<byte>, m': seq<byte>, start: uint32, end: uint32, pages: set<int>)
    requires |m| == TWO_32 && PAGE <= start && start % PAGE == 0 && start as int + OVERHEAD <= end
    requires Covers(pages, start, end)
    requires SameOutside(m, m', start, start as int + HEADER) && HeaderAt(m', start, end - start, true)
    ensures Sound(m', [Block(start, end - start, true)], start, end, pages) <==> Word(m, start - FOOTER) != MAGIC
    ensures Indexed([start], [Block(start, end - start, true)])
  {
    var bs := [Block(start, end - start, true)];
    assert bs[1..] == [];
    WordStands(m, m', start - FOOTER);
    assert Layout(m', bs, start, end, end);
    assert Holes(bs) == multiset{start as int};
  }

  // ---- carving a hole ----

  ghost predicate Stamped(m: seq<byte>, b: Block) { HeaderOk(m, b) && FooterOk(m, b) }

  lemma StampedStands(m: seq<byte>, m': seq<byte>, b: Block)
    requires 0 <= b.pos && b.End() <= |m| == |m'| && b.size >= OVERHEAD && Stamped(m, b)
    requires forall x :: b.pos <= x < b.End() ==> m'[x] == m[x]
    ensures Stamped(m', b)
  {
    BlockStands(m, m', b);
  }

  ghost predicate CarvedInMemory(m: seq<byte>, h: Block, need: int, front: int) {
    && (front > 0 ==> Stamped(m, Block(h.pos, front, true)))
    && Stamped(m, NewBlock(h, need, front))
    && (Rest(h, need, front) > 0 ==> Stamped(m, TailHole(h, need, front)))
  }

  lemma CarveLayout(m: seq<byte>, m': seq<byte>, a: seq<Block>, h: Block, c: seq<Block>, need: int, front: int,
                    start: int, end: int, pages: set<int>)
    requires Sound(m, a + [h] + c, start, end, pages)
    requires Layout(m, a, start, h.pos, end) && Layout(m, c, h.End(), end, end)
    requires Splits(h, need, front) && need >= OVERHEAD
    requires SameOutside(m, m', h.pos, h.End()) && CarvedInMemory(m', h, need, front)
    ensures Sound(m', a + Carved(h, need, front) + c, start, end, pages)
  {
    hide Layout, Covers, CarvedInMemory, Carved;
    LayoutBounds(m, a, start, h.pos, end);
    WordStands(m, m', start - FOOTER);
    CarvedLayout(m', h, need, front, end);
    Splice(m, m', a, Carved(h, need, front), c, start, h.pos, h.End(), end);
  }

  lemma CarvedLayout(m: seq<byte>, h: Block, need: int, front: int, end: int)
    requires Splits(h, need, front) && need >= OVERHEAD && CarvedInMemory(m, h, need, front)
    ensures Layout(m, Carved(h, need, front), h.pos, h.End(), end)
  {
    var block, tail := NewBlock(h, need, front), TailHole(h, need, front);
    var f := if front > 0 then [Block(h.pos, front, true)] else [];
    var r := if Rest(h, need, front) > 0 then [tail] else [];
    assert Layout(m, [], h.End(), h.End(), end) && Layout(m, r, block.End(), h.End(), end);
    assert Layout(m, f, h.pos, block.pos, end) && Layout(m, [block], block.pos, block.End(), end);
    LayoutJoin(m, f, [block], h.pos, block.pos, block.End(), end);
    LayoutJoin(m, f + [block], r, h.pos, block.End(), h.End(), end);
  }

  lemma InsertOrdered(m: seq<byte>, s: seq<uint32>, j: nat, item: uint32)
    requires Readable(m, s) && item as int + HEADER <= |m|
    requires SizeOrdered(m, s) && InsertionPoint(m, s, item, j)
    ensures Readable(m, With(s, j, item)) && SizeOrdered(m, With(s, j, item))
  {
    var t := With(s, j, item);
    assert forall i :: 0 <= i < |t| ==> t[i] == if i < j then s[i] else if i == j then item else s[i - 1];
  }

  lemma HoleStands(m: seq<byte>, m': seq<byte>, e: int, bs: seq<Block>, lo: int, hi: int, end: int)
    requires 0 <= lo && hi <= |m| == |m'| && Layout(m, bs, lo, hi, end) && e in Holes(bs)
    requires forall x :: lo <= x < hi ==> m'[x] == m[x]
    ensures lo <= e && e + HEADER <= hi && SizeAt(m', e) == SizeAt(m, e)
  {
    LayoutBounds(m, bs, lo, hi, end);
    HolesAre(bs, e);
    WordStands(m, m', e + 8);
  }

  // Dropping the entry of hole `h` leaves the holes on either side of it.
  lemma RestOfIndex(index: seq<uint32>, i: nat, a: seq<Block>, h: Block, c: seq<Block>)
    requires i < |index| && h.hole && h.pos == index[i] && Indexed(index, a + [h] + c)
    ensures multiset(Without(index, i)) == Holes(a) + Holes(c)
  {
    hide Holes, Without;
    WithoutMultiset(index, i);
    HolesAround(a, [h], c);
    HolesOne(h);
  }

  lemma CarvedHoles(h: Block, need: int, front: int)
    requires h.hole
    ensures Holes([h]) == multiset{h.pos}
    ensures Holes(Carved(h, need, front))
         == (if front > 0 then multiset{h.pos} else multiset{})
          + (if Rest(h, need, front) > 0 then multiset{TailHole(h, need, front).pos} else multiset{})
  {
    hide Rest;
    HolesAround(if front > 0 then [Block(h.pos, front, true)] else [], [NewBlock(h, need, front)],
                if Rest(h, need, front) > 0 then [TailHole(h, need, front)] else []);
    HolesOne(h);
    HolesOne(Block(h.pos, front, true));
    HolesOne(NewBlock(h, need, front));
    HolesOne(TailHole(h, need, front));
  }

  lemma CarveIndex(index: seq<uint32>, i: nat, j: nat, tail: uint32, a: seq<Block>, h: Block, c: seq<Block>,
                   need: int, front: int)
    requires i < |index| && h.hole && h.pos == index[i] && Indexed(index, a + [h] + c)
    requires j <= |index| - (if front > 0 then 0 else 1) && tail == TailHole(h, need, front).pos
    ensures var kept := if front > 0 then index else Without(index, i);
            Indexed(if Rest(h, need, front) > 0 then With(kept, j, tail) else kept, a + Carved(h, need, front) + c)
  {
    hide Holes, With, Without, Carved, TailHole, Rest;
    var kept := if front > 0 then index else Without(index, i);
    RestOfIndex(index, i, a, h, c);
    HolesAround(a, [h], c);
    HolesAround(a, Carved(h, need, front), c);
    if Rest(h, need, front) > 0 {
      WithMultiset(kept, j, tail);
    }
    CarvedHoles(h, need, front);
  }

  lemma EntryStands(m: seq<byte>, m': seq<byte>, rest: seq<uint32>, j: nat,
                    a: seq<Block>, lo: int, hi: int, c: seq<Block>, start: int, end: int)
    requires 0 <= start && lo <= hi && end <= |m| && Layout(m, a, start, lo, end) && Layout(m, c, hi, end, end)
    requires j < |rest| && multiset(rest) == Holes(a) + Holes(c) && SameOutside(m, m', lo, hi)
    ensures rest[j] as int + HEADER <= |m| && SizeAt(m', rest[j]) == SizeAt(m, rest[j])
  {
    assert rest[j] in multiset(rest);
    LayoutBounds(m, a, start, lo, end);
    LayoutBounds(m, c, hi, end, end);
    if rest[j] as int in Holes(a) {
      HoleStands(m, m', rest[j], a, start, lo, end);
    } else {
      HoleStands(m, m', rest[j], c, hi, end, end);
    }
  }

  // Rewriting [lo, hi) does not change the sizes that the holes on either side are sorted by.
  lemma RestStands(m: seq<byte>, m': seq<byte>, rest: seq<uint32>,
                   a: seq<Block>, lo: int, hi: int, c: seq<Block>, start: int, end: int)
    requires 0 <= start && lo <= hi && end <= |m| && Layout(m, a, start, lo, end) && Layout(m, c, hi, end, end)
    requires multiset(rest) == Holes(a) + Holes(c) && SameOutside(m, m', lo, hi)
    ensures Readable(m', rest) && (SizeOrdered(m, rest) ==> SizeOrdered(m', rest))
  {
    forall j | 0 <= j < |rest|
      ensures rest[j] as int + HEADER <= |m| && SizeAt(m', rest[j]) == SizeAt(m, rest[j])
    {
      EntryStands(m, m', rest, j, a, lo, hi, c, start, end);
    }
  }

  lemma WithoutReadable(m: seq<byte>, index: seq<uint32>, i: nat)
    requires i < |index| && Readable(m, index)
    ensures Readable(m, Without(index, i))
  {
  }

  lemma WithoutOrdered(m: seq<byte>, index: seq<uint32>, i: nat)
    requires i < |index| && SizeOrdered(m, index)
    ensures SizeOrdered(m, Without(index, i))
  {
  }

  // The sizes that the rest of the index sorts by do not change when the hole `h` is rewritten.
  lemma SizesStand(m: seq<byte>, m': seq<byte>, index: seq<uint32>, i: nat,
                   a: seq<Block>, h: Block, c: seq<Block>, start: int, end: int)
    requires 0 <= start && end <= |m| && Layout(m, a, start, h.pos, end) && Layout(m, c, h.End(), end, end)
             && h.size >= 0
    requires i < |index| && h.hole && h.pos == index[i] && Indexed(index, a + [h] + c)
    requires SameOutside(m, m', h.pos, h.End())
    ensures SizeOrdered(m, index) ==> SizeOrdered(m', Without(index, i))
  {
    RestOfIndex(index, i, a, h, c);
    RestStands(m, m', Without(index, i), a, h.pos, h.End(), c, start, end);
    if SizeOrdered(m, index) {
      WithoutOrdered(m, index, i);
    }
  }

  // Memory and index before and after a hole was carved properly, as far as the index goes.
  ghost predicate Reindexable(m0: seq<byte>, m: seq<byte>, index: seq<uint32>, i: nat, keep: bool, rest: int, tail: int,
                              a: seq<Block>, h: Block, c: seq<Block>, need: int, front: int, start: int, end: int) {
    && 0 <= start && end <= |m| == |m0| && Layout(m0, a, start, h.pos, end) && Layout(m0, c, h.End(), end, end)
    && h.size >= 0 && SameOutside(m0, m, h.pos, h.End())
    && i < |index| && Indexed(index, a + [h] + c) && h.hole && h.pos == index[i]
    && front >= 0 && keep == (front > 0) && rest == Rest(h, need, front) && tail == TailHole(h, need, front).pos
  }

  lemma ReindexKeeps(m0: seq<byte>, m: seq<byte>, index: seq<uint32>, i: nat, keep: bool, rest: uint32, tail: uint32,
                     a: seq<Block>, h: Block, c: seq<Block>, need: int, front: int, start: int, end: int,
                     kept: seq<uint32>, j: nat, index': seq<uint32>)
    requires Reindexable(m0, m, index, i, keep, rest, tail, a, h, c, need, front, start, end)
    requires kept == if keep then index else Without(index, i)
    requires if rest > 0
             then && j <= |kept| && index' == With(kept, j, tail) && tail as int + HEADER <= |m| && Readable(m, kept)
                  && InsertionPoint(m, kept, tail, j)
             else index' == kept
    ensures Indexed(index', a + Carved(h, need, front) + c)
    ensures !keep && SizeOrdered(m0, index) ==> SizeOrdered(m, index')
  {
    hide Layout, Holes, Carved, Rest, TailHole, With, InsertionPoint, SizeOrdered;
    SizesStand(m0, m, index, i, a, h, c, start, end);
    if rest > 0 && !keep && SizeOrdered(m0, index) {
      InsertOrdered(m, kept, j, tail);
    }
    CarveIndex(index, i, if rest > 0 then j else 0, tail, a, h, c, need, front);
  }

  // Every live block is still there, and none of its bytes changed.
  ghost predicate LiveKept(m: seq<byte>, m': seq<byte>, bs: seq<Block>, bs': seq<Block>) {
    && |m'| == |m|
    && forall b :: b in bs && !b.hole ==>
         b in bs' && 0 <= b.pos <= b.End() <= |m| && m'[b.pos..b.End()] == m[b.pos..b.End()]
  }

  lemma LiveBeside(m: seq<byte>, m': seq<byte>, bs: seq<Block>, k: nat, bs': seq<Block>, start: int, hi: int, end: int)
    requires 0 <= start && end <= |m| && Layout(m, bs, start, end, end) && k < |bs| && bs[k].hole
    requires SameOutside(m, m', bs[k].pos, hi) && (hi == bs[k].End() || k == |bs| - 1)
    requires forall b :: b in bs && b != bs[k] ==> b in bs'
    ensures LiveKept(m, m', bs, bs')
  {
    hide HeaderOk, Sealed;
    LayoutBounds(m, bs, start, end, end);
    LayoutAround(m, bs, k, start, end, end);
    LayoutSplit(m, bs, k, start, end, end);
    LayoutBounds(m, bs[k + 1..], bs[k].End(), end, end);
    forall b | b in bs && !b.hole
      ensures m'[b.pos..b.End()] == m[b.pos..b.End()]
    {
      assert b.End() <= bs[k].pos || hi <= b.pos;
      assert forall x :: b.pos <= x < b.End() ==> m'[x] == m[x];
    }
  }

  lemma LiveBelow(m: seq<byte>, m': seq<byte>, bs: seq<Block>, bs': seq<Block>, start: int, end: int)
    requires 0 <= start && end <= |m| == |m'| && Layout(m, bs, start, end, end)
    requires forall x :: 0 <= x < end ==> m'[x] == m[x]
    requires forall b :: b in bs ==> b in bs'
    ensures LiveKept(m, m', bs, bs')
  {
    LayoutBounds(m, bs, start, end, end);
  }
}
