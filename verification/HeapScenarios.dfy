/** Short runs from a new heap that end in a lost block. */
module HeapScenarios {
  import opened Words
  import opened ByteMemory
  import opened HeapLayout
  import opened HeapCarving
  import opened HeapAlignment
  import opened HeapGrowth
  import opened HeapFreeing
  import opened HeapService
  import opened HeapTables
  import opened BoundaryTagHeap

  // Where the kernel puts its heap.
  const HEAP_START: uint32 := 0xC040_0000
  const HEAP_END: uint32 := 0xC050_0000
  const FIRST_HOLE: uint32 := 0xC048_1000
  // The slots that have their tables by then, other than the heap's own: of the identity map and of the kernel.
  const BOOT_SLOTS: set<int> := {0, 0x300}

  predicate BootSlots(linked: set<int>) {
    linked == BOOT_SLOTS + PagesFrom(SlotOf(HEAP_START), SlotOf(HEAP_END))
  }

  // The kernel's heap, as its initialisation leaves it.
  method NewHeap(memory: seq<byte>, slots: array<uint32>) returns (heap: Heap)
    requires |memory| == TWO_32 && slots.Length == INDEX_SIZE && Word(memory, FIRST_HOLE - FOOTER) != MAGIC
    modifies slots
    ensures fresh(heap) && fresh(heap.heapIndex) && heap.heapIndex.slots == slots && heap.Valid()
    ensures heap.heapStart == FIRST_HOLE && heap.heapEnd == HEAP_END && BootSlots(heap.linked)
    ensures heap.blocks == [Block(FIRST_HOLE, HEAP_END - FIRST_HOLE, true)]
  {
    heap := new Heap(memory, slots, HEAP_START, HEAP_END, BOOT_SLOTS);
  }

  // Live blocks and then one hole.
  ghost predicate OneHoleLast(bs: seq<Block>) {
    bs != [] && bs[|bs| - 1].hole && forall i | 0 <= i < |bs| - 1 :: !bs[i].hole
  }

  lemma {:induction false} NoHoles(bs: seq<Block>)
    requires forall i | 0 <= i < |bs| :: !bs[i].hole
    ensures Holes(bs) == multiset{}
  {
    if bs != [] {
      NoHoles(bs[1..]);
    }
  }

  lemma IndexOfOne(index: seq<uint32>, bs: seq<Block>)
    requires Indexed(index, bs) && OneHoleLast(bs)
    ensures |index| == 1 && index[0] == bs[|bs| - 1].pos
  {
    hide Holes;
    var n := |bs| - 1;
    HolesSplit(bs, n);
    NoHoles(bs[..n]);
    NoHoles(bs[n + 1..]);
    assert multiset(index) == multiset{bs[n].pos};
    assert |multiset(index)| == |index|;
    assert index[0] in multiset(index);
  }

  lemma IndexOfNone(index: seq<uint32>, bs: seq<Block>)
    requires Indexed(index, bs) && forall i | 0 <= i < |bs| :: !bs[i].hole
    ensures index == []
  {
    NoHoles(bs);
    assert |multiset(index)| == |index|;
  }

  // A hole of the heap that is large enough fits.
  lemma HoleFits(m: seq<byte>, index: seq<uint32>, bs: seq<Block>, k: nat, need: uint32, start: int, end: int)
    requires Layout(m, bs, start, end, end) && Indexed(index, bs) && k < |bs| && bs[k].hole && need <= bs[k].size
    requires 0 <= start && end <= |m|
    ensures AnyFit(m, index, need, false)
  {
    hide Word, Layout, Indexed;
    var i := HoleIndexed(m, index, bs, k, start, end);
    assert Fits(m, index[i], need, false);
  }

  // Holes that are all too small do not fit.
  lemma TooSmall(m: seq<byte>, index: seq<uint32>, bs: seq<Block>, need: uint32, start: int, end: int)
    requires Layout(m, bs, start, end, end) && Indexed(index, bs) && 0 <= start && end <= |m|
    requires forall b | b in bs && b.hole :: b.size < need
    ensures Readable(m, index) && forall i | 0 <= i < |index| :: !Fits(m, index[i], need, false)
    ensures !AnyFit(m, index, need, false)
  {
    hide Word, Layout, Sealed;
    IndexReadable(m, index, bs, start, end, end);
    forall i | 0 <= i < |index|
      ensures !Fits(m, index[i], need, false)
    {
      IndexPositions(index, bs, i);
      var h :| h in bs && h.hole && h.pos == index[i];
      var k :| 0 <= k < |bs| && bs[k] == h;
      LayoutSplit(m, bs, k, start, end, end);
    }
  }

  // The hole an allocation carves is the only one.
  lemma OnlyHole(bs: seq<Block>, a: seq<Block>, h: Block, c: seq<Block>)
    requires OneHoleLast(bs) && bs == a + [h] + c && h.hole
    ensures a == bs[..|bs| - 1] && h == bs[|bs| - 1] && c == []
  {
    assert bs[|a|] == h;
  }

  // One allocation from such a heap.
  method Take(heap: Heap, request: uint32) returns (p: uint32)
    requires heap.Valid() && OneHoleLast(heap.blocks) && heap.heapIndex.slots.Length == INDEX_SIZE
    requires request as int + OVERHEAD <= heap.blocks[|heap.blocks| - 1].size && request as int + OVERHEAD < TWO_32
    modifies heap`mem, heap`blocks, heap`heapEnd, heap`requested, heap`linked, heap.heapIndex`size, heap.heapIndex.slots
    ensures heap.Valid() && heap.heapEnd == old(heap.heapEnd) && heap.linked == old(heap.linked)
    ensures var n := |old(heap.blocks)| - 1;
            var h := old(heap.blocks)[n];
            p == h.pos + HEADER
            && heap.blocks == old(heap.blocks)[..n] + Carved(h, request as int + OVERHEAD, 0)
  {
    hide Sound, Indexed, Carved, Layout, LiveKept, Granted, AnyFit, Failed;
    ghost var bs := heap.blocks;
    IndexOfOne(heap.heapIndex.Contents(), bs);
    UnlinkedAtMost(heap.linked);
    heap.SaneNow();
    HoleFits(heap.mem, heap.heapIndex.Contents(), bs, |bs| - 1, request + OVERHEAD, heap.heapStart, heap.heapEnd);
    var outcome;
    ghost var cut;
    outcome, p, cut := heap.Alloc(request, false, false);
    OnlyHole(bs, cut.a, cut.h, cut.c);
  }

  lemma CutInTwo(h: Block, need: int)
    requires h.hole && need + OVERHEAD <= h.size
    ensures Carved(h, need, 0) == [Block(h.pos, need, false), Block(h.pos + need, h.size - need, true)]
  {
  }

  lemma CutWhole(h: Block)
    requires h.hole
    ensures Carved(h, h.size, 0) == [Block(h.pos, h.size, false)]
  {
  }

  // An allocation that leaves a hole behind.
  method TakeSome(heap: Heap, request: uint32) returns (p: uint32)
    requires heap.Valid() && OneHoleLast(heap.blocks) && heap.heapIndex.slots.Length == INDEX_SIZE
    requires request as int + OVERHEAD + OVERHEAD <= heap.blocks[|heap.blocks| - 1].size
    requires request as int + OVERHEAD < TWO_32
    modifies heap`mem, heap`blocks, heap`heapEnd, heap`requested, heap`linked, heap.heapIndex`size, heap.heapIndex.slots
    ensures heap.Valid() && heap.heapEnd == old(heap.heapEnd) && heap.linked == old(heap.linked)
            && OneHoleLast(heap.blocks)
    ensures var n, need := |old(heap.blocks)| - 1, request as int + OVERHEAD;
            var h := old(heap.blocks)[n];
            && p == h.pos + HEADER && |heap.blocks| == n + 2 && heap.blocks[..n] == old(heap.blocks)[..n]
            && heap.blocks[n] == Block(h.pos, need, false)
            && heap.blocks[n + 1] == Block(h.pos + need, h.size - need, true)
  {
    hide Sound, Indexed, Layout, Carved;
    ghost var bs := heap.blocks;
    p := Take(heap, request);
    CutInTwo(bs[|bs| - 1], request as int + OVERHEAD);
  }

  // Four allocations and three frees from a new heap lose a block.
  method FreeMiddleOfFour(memory: seq<byte>, slots: array<uint32>) returns (heap: Heap)
    requires |memory| == TWO_32 && slots.Length == INDEX_SIZE && Word(memory, FIRST_HOLE - FOOTER) != MAGIC
    modifies slots
    ensures fresh(heap) && heap.heapIndex.Valid()
    ensures !Representable(heap.mem, heap.heapIndex.Contents(), heap.heapStart, heap.heapEnd)
  {
    hide Sound, Indexed, Layout, Representable;
    heap := NewHeap(memory, slots);
    var p0 := TakeSome(heap, 8);
    var p1 := TakeSome(heap, 8);
    var p2 := TakeSome(heap, 8);
    var p3 := TakeSome(heap, 8);
    IndexOfOne(heap.heapIndex.Contents(), heap.blocks);
    heap.FreeMiddleFirst(p1, p0, p2, 0);
  }

  lemma FirstFreed(x: Block, y: Block)
    requires !x.hole && !y.hole
    ensures Freeable([x, y], 0) && Merged([x, y], 0) == [Block(x.pos, x.size, true), y]
  {
  }

  // A small block, one block over all the rest, the small block freed: the next request that does not fit
  // grows the hole over the live block.
  method GrowOverBlock(memory: seq<byte>, slots: array<uint32>) returns (heap: Heap)
    requires |memory| == TWO_32 && slots.Length == INDEX_SIZE && Word(memory, FIRST_HOLE - FOOTER) != MAGIC
    modifies slots
    ensures fresh(heap) && heap.heapIndex.Valid() && Loses(heap.mem, heap.blocks, heap.heapStart, heap.heapEnd)
  {
    hide Sound, Indexed, Layout, Carved, Loses, LiveKept, FooterOk, Representable, Fits, Grown, SizeOrdered, Linked;
    hide Crossing;
    hide Prepared, Taken, Tabled, OneTable, LiveIn, Growth, Merged, Rounds, BootSlots, Word;
    heap := NewHeap(memory, slots);
    var p := TakeSome(heap, 8);
    ghost var rest := heap.blocks[1];
    var q := Take(heap, HEAP_END - FIRST_HOLE - 28 - OVERHEAD);
    CutWhole(rest);
    IndexOfNone(heap.heapIndex.Contents(), heap.blocks);
    FirstFreed(heap.blocks[0], heap.blocks[1]);
    assert heap.blocks == [heap.blocks[0], heap.blocks[1]];
    heap.Free(p, 0);
    ghost var bs := heap.blocks;
    assert bs == [Block(FIRST_HOLE, 28, true), Block(FIRST_HOLE + 28, HEAP_END - FIRST_HOLE - 28, false)];
    UnlinkedAtMost(heap.linked);
    heap.SaneNow();
    TooSmall(heap.mem, heap.heapIndex.Contents(), bs, 120, heap.heapStart, heap.heapEnd);
    WholePages(HEAP_END - FIRST_HOLE, 120);
    assert Growth(heap.heapEnd - heap.heapStart, 120) == PAGE;
    SlotsNear(heap.linked);
    assert bs[0] in bs;
    var outcome, r;
    ghost var cut;
    outcome, r, cut := heap.Alloc(100, false, false);
  }

  // An aligned request that leaves five bytes of the hole: the search accepts the hole, and no reading of
  // the memory serves the caller.
  method SliverBehindAligned(memory: seq<byte>, slots: array<uint32>)
    returns (heap: Heap, p: uint32, ghost a: seq<Block>, ghost c: seq<Block>)
    requires |memory| == TWO_32 && slots.Length == INDEX_SIZE && Word(memory, FIRST_HOLE - FOOTER) != MAGIC
    modifies slots
    ensures fresh(heap) && heap.heapIndex.Valid() && HEADER <= p
    ensures !Served(heap.mem, heap.heapIndex.Contents(), heap.heapStart, heap.heapEnd, a, c, p - HEADER,
                    HEAP_END - FIRST_HOLE - FrontGap(FIRST_HOLE) - 5)
  {
    hide Sound, Indexed, Layout, Served;
    heap := NewHeap(memory, slots);
    var need: uint32 := HEAP_END - FIRST_HOLE - FrontGap(FIRST_HOLE) - 5;
    SoundLayout(heap.mem, heap.blocks, heap.heapStart, heap.heapEnd, heap.requested);
    IndexOfOne(heap.heapIndex.Contents(), heap.blocks);
    LayoutSplit(heap.mem, heap.blocks, 0, heap.heapStart, heap.heapEnd, heap.heapEnd);
    AlignedFit(heap.mem, FIRST_HOLE, need);
    var i := heap.FindSmallestHole(need, true);
    ghost var h, front;
    var fine;
    fine, p, a, h, c, front := heap.Carve(i, need, true);
  }

  // ---- growth into a slot without a page table ----

  // The heap lies in one slot, which has its table; the next slot has none.
  lemma SlotsNear(linked: set<int>)
    requires BootSlots(linked)
    ensures Linked(linked, HEAP_END, HEAP_END + 4 * PAGE) && Linked(linked, HEAP_END, HEAP_END + PAGE)
    ensures forall hi | HEAP_END + 0x30_0000 < hi :: !Linked(linked, HEAP_END, hi)
    ensures 0x301 in linked && 0x302 !in linked
  {
    forall hi | HEAP_END + 0x30_0000 < hi
      ensures !Linked(linked, HEAP_END, hi)
    {
      assert SlotOf(HEAP_END + 0x30_0000) == 0x302;
    }
  }

  // Once it has one, the stretch is linked.
  lemma OneSlotMissing(linked0: set<int>, linked: set<int>, hi: int)
    requires BootSlots(linked0) && HEAP_END <= hi <= 0xC0C0_0000
    requires linked0 <= linked && linked != linked0
    requires forall slot | slot in linked :: slot in linked0 || Touches(HEAP_END, hi, slot)
    ensures linked == linked0 + {0x302} && |linked - linked0| == 1 && Linked(linked, HEAP_END, hi)
  {
    SlotsNear(linked0);
    forall slot | slot in linked
      ensures slot in linked0 + {0x302}
    {
      if slot !in linked0 {
        var x :| HEAP_END <= x < hi && SlotOf(x) == slot;
      }
    }
    var slot :| slot in linked && slot !in linked0;
    assert linked - linked0 == {0x302};
  }

  lemma NothingFits(s: Snapshot, need: uint32)
    requires s.index == []
    ensures !AnyFit(s.mem, s.index, need, false) && !AnyFit(s.mem, s.index, TABLE, true)
  {
  }

  // Without a hole there is nothing to take a table from on the way.
  lemma NoTables(s: Snapshot, before: seq<Block>, end: int, linked: set<int>, start: int, need: uint32)
    requires start <= s.end && !AnyFit(s.mem, s.index, need, false) && !AnyHole(s.blocks)
    requires Prepared(s, before, end, linked, start, need, false)
    ensures linked == s.linked
  {
    hide Linked, AnyFit, AnyHole, GrownBy, GrownLength, Tabled, CanGrow, Grown;
    if linked != s.linked {
      var mid :| CanGrow(mid) && before == Grown(mid, s.end, end - s.end) && Tabled(s.blocks, mid, |linked - s.linked|);
      NewSlots(s.linked, linked);
      TabledAdds(s.blocks, mid, |linked - s.linked|);
    }
  }

  lemma LostNotSane(s: Snapshot, start: int)
    requires Loses(s.mem, s.blocks, start, s.end)
    ensures !Sane(s, start)
  {
    hide Layout;
  }

  // A full heap: the table is taken from memory that the heap grows by in the middle of its growth, and the
  // growth goes on as if that had not happened.
  method TableOverrun(memory: seq<byte>, slots: array<uint32>) returns (heap: Heap, outcome: Outcome)
    requires |memory| == TWO_32 && slots.Length == INDEX_SIZE && Word(memory, FIRST_HOLE - FOOTER) != MAGIC
    modifies slots
    ensures fresh(heap) && heap.heapIndex.Valid() && outcome.Lost? && !heap.Valid()
    ensures Loses(heap.mem, heap.blocks, heap.heapStart, heap.heapEnd)
  {
    hide Sound, Indexed, Layout, Carved, Linked, BootSlots, Word, Touches, AnyFit, Prepared, Tabled, Taken, OneTable;
    hide LiveIn, Growth;
    heap := NewHeap(memory, slots);
    ghost var whole := heap.blocks[0];
    var q := Take(heap, HEAP_END - FIRST_HOLE - OVERHEAD);
    CutWhole(whole);
    ghost var s := heap.Snap();
    IndexOfNone(heap.heapIndex.Contents(), heap.blocks);
    UnlinkedAtMost(heap.linked);
    SlotsNear(heap.linked);
    WholePages(HEAP_END - FIRST_HOLE, 0x40_0014);
    assert Growth(s.end - heap.heapStart, 0x40_0014) == 0x40_1000;
    NothingFits(s, 0x40_0014);
    ghost var cut, p;
    outcome, p, cut := heap.Alloc(0x40_0000, false, false);
    OneSlotMissing(s.linked, heap.linked, HEAP_END + 0x40_1000);
    if outcome.Done? {
      NoTables(s, cut.Before(), heap.heapEnd, heap.linked, heap.heapStart, 0x40_0014);
    }
    LostNotSane(heap.Snap(), heap.heapStart);
    if heap.Valid() {
      heap.SaneNow();
    }
  }

  lemma GrownAlone(s: Snapshot, before: seq<Block>, end: int, linked: set<int>, start: int, need: uint32, b: Block)
    requires start <= s.end && !AnyFit(s.mem, s.index, need, false) && s.blocks == [b] && !b.hole
    requires Prepared(s, before, end, linked, start, need, false)
    ensures linked == s.linked && before == [b, Block(s.end, Growth(s.end - start, need), true)]
    ensures end == s.end + Growth(s.end - start, need)
  {
    hide Linked, AnyFit, Tabled;
    NoTables(s, before, end, linked, start, need);
  }

  // The heap is full and ends where its slot does: the table for the next page is taken from the next page.
  method EndlessRequest(memory: seq<byte>, slots: array<uint32>) returns (heap: Heap, outcome: Outcome)
    requires |memory| == TWO_32 && slots.Length == INDEX_SIZE && Word(memory, FIRST_HOLE - FOOTER) != MAGIC
    modifies slots
    ensures fresh(heap) && outcome.Endless?
  {
    hide Sound, Indexed, Layout, Linked, Crossing, OneTable, AnyFit, Prepared, Taken, Failed, Growth, BootSlots;
    hide Rounds, Word;
    heap := NewHeap(memory, slots);
    FillSlot(heap);
    ghost var s := heap.Snap();
    IndexOfNone(heap.heapIndex.Contents(), heap.blocks);
    UnlinkedAtMost(heap.linked);
    WholePages(heap.heapEnd - heap.heapStart, 28);
    WholePages(heap.heapEnd - heap.heapStart, TABLE);
    NothingFits(s, 28);
    PastSlot(heap.linked);
    ghost var cut, p;
    outcome, p, cut := heap.Alloc(8, false, false);
  }

  lemma PastSlot(linked: set<int>)
    requires BootSlots(linked)
    ensures !Linked(linked, 0xC080_0000, 0xC080_0000 + PAGE) && !Linked(linked, 0xC080_0000, 0xC080_0000 + 2 * PAGE)
  {
    assert SlotOf(0xC080_0000) == 0x302;
  }

  lemma WithinSlot(linked: set<int>)
    requires BootSlots(linked)
    ensures Linked(linked, HEAP_END, 0xC080_0000)
  {
  }

  // Two blocks that fill the heap, and with it the slot.
  method FillSlot(heap: Heap)
    requires heap.Valid() && heap.heapIndex.slots.Length == INDEX_SIZE
    requires heap.heapStart == FIRST_HOLE && heap.heapEnd == HEAP_END
    requires heap.blocks == [Block(FIRST_HOLE, HEAP_END - FIRST_HOLE, true)]
    requires BootSlots(heap.linked)
    modifies heap`mem, heap`blocks, heap`heapEnd, heap`requested, heap`linked, heap.heapIndex`size, heap.heapIndex.slots
    ensures heap.Valid() && heap.heapEnd == 0xC080_0000 && heap.linked == old(heap.linked)
    ensures forall i | 0 <= i < |heap.blocks| :: !heap.blocks[i].hole
  {
    hide Sound, Indexed, Layout, Carved, Linked, Crossing, OneTable, AnyFit, Prepared, LiveKept, Granted, Failed;
    hide Growth;
    ghost var whole := heap.blocks[0];
    var q := Take(heap, HEAP_END - FIRST_HOLE - OVERHEAD);
    CutWhole(whole);
    ghost var s := heap.Snap();
    IndexOfNone(heap.heapIndex.Contents(), heap.blocks);
    UnlinkedAtMost(heap.linked);
    WholePages(HEAP_END - FIRST_HOLE, 0x2F_FFF0);
    NothingFits(s, 0x2F_FFF0);
    WithinSlot(heap.linked);
    var outcome, p;
    ghost var cut;
    outcome, p, cut := heap.Alloc(0x2F_FFDC, false, false);
    GrownAlone(s, cut.Before(), heap.heapEnd, heap.linked, heap.heapStart, 0x2F_FFF0, s.blocks[0]);
    OnlyHole(cut.Before(), cut.a, cut.h, cut.c);
    NearlyWhole(cut.h, 0x2F_FFF0);
  }

  lemma NearlyWhole(h: Block, need: int)
    requires h.hole && need <= h.size < need + OVERHEAD
    ensures Carved(h, need, 0) == [Block(h.pos, h.size, false)]
  {
  }

  // ---- a table from the hole that is about to grow ----

  const FRONT := Block(FIRST_HOLE, 0xFF4, true)
  const FIRST_TABLE := Block(0xC048_1FF4, TABLE, false)
  const BEHIND: int := 0xC048_3008

  lemma TableFromHole(mid: seq<Block>)
    requires Tabled([Block(FIRST_HOLE, HEAP_END - FIRST_HOLE, true)], mid, 1)
    ensures mid == [FRONT, FIRST_TABLE, Block(BEHIND, HEAP_END - BEHIND, true)] && AnyHole(mid) && CanGrow(mid)
  {
    var h := Block(FIRST_HOLE, HEAP_END - FIRST_HOLE, true);
    var cut: Cut :| TableCut(cut) && Tabled([h], cut.Before(), 0) && cut.After() == mid;
    NoneTabled([h], cut.Before());
    assert cut.Before()[|cut.a|] == cut.h;
    assert mid[0].hole && mid[0] in mid;
  }

  // The request's block comes to lie behind the table.
  lemma BehindTable(s: Snapshot, before: seq<Block>, end: int, linked: set<int>, start: int, cut: Cut)
    requires start <= s.end && s.blocks == [Block(FIRST_HOLE, HEAP_END - FIRST_HOLE, true)] && s.end == HEAP_END
    requires !AnyFit(s.mem, s.index, 0x40_0014, false) && linked != s.linked && |linked - s.linked| == 1
    requires Prepared(s, before, end, linked, start, 0x40_0014, false)
    requires before == cut.Before() && cut.Fine() && !cut.align && cut.need == 0x40_0014
    ensures cut.h.pos == BEHIND && cut.a == [FRONT, FIRST_TABLE]
  {
    hide Linked, AnyFit, Tabled, GrownBy, GrownLength;
    var mid :| CanGrow(mid) && before == Grown(mid, s.end, end - s.end) && Tabled(s.blocks, mid, |linked - s.linked|);
    TableFromHole(mid);
    assert before == [FRONT, FIRST_TABLE, Block(BEHIND, end - BEHIND, true)];
    assert before[|cut.a|] == cut.h && cut.a == before[..|cut.a|];
  }

  lemma HoleForTable(s: Snapshot, start: int)
    requires Sane(s, start) && Smooth(s, start) && s.blocks == [Block(FIRST_HOLE, HEAP_END - FIRST_HOLE, true)]
    ensures AnyFit(s.mem, s.index, TABLE, true)
  {
    hide Layout, Linked, Growth, AnyFit, Carvable;
    assert s.blocks[0] in s.blocks;
    if !AnyFit(s.mem, s.index, TABLE, true) {
      SmoothGrows(s, start);
    }
  }

  // A request larger than the whole heap, on a new heap: it lies one table further up than growth alone would
  // have put it.
  method TableInTheWay(memory: seq<byte>, slots: array<uint32>) returns (heap: Heap, p: uint32)
    requires |memory| == TWO_32 && slots.Length == INDEX_SIZE && Word(memory, FIRST_HOLE - FOOTER) != MAGIC
    modifies slots
    ensures fresh(heap) && heap.Valid() && p == BEHIND + HEADER && FIRST_TABLE in heap.blocks
  {
    hide Sound, Indexed, Layout, Carved, Linked, BootSlots, Word, Touches, AnyFit, Prepared, Tabled, LiveIn, Growth;
    hide LiveKept, Granted;
    heap := NewHeap(memory, slots);
    ghost var s := heap.Snap();
    IndexOfOne(heap.heapIndex.Contents(), heap.blocks);
    UnlinkedAtMost(heap.linked);
    SlotsNear(heap.linked);
    WholePages(HEAP_END - FIRST_HOLE, 0x40_0014);
    assert Growth(s.end - heap.heapStart, 0x40_0014) == 0x40_1000;
    heap.SaneNow();
    TooSmall(s.mem, s.index, s.blocks, 0x40_0014, heap.heapStart, s.end);
    assert s.blocks[0] in s.blocks && Smooth(s, heap.heapStart);
    HoleForTable(s, heap.heapStart);
    var outcome;
    ghost var cut;
    outcome, p, cut := heap.Alloc(0x40_0000, false, false);
    OneSlotMissing(s.linked, heap.linked, HEAP_END + 0x40_1000);
    if outcome.Lost? {
      TableFromHole(heap.blocks);
    }
    BehindTable(s, cut.Before(), heap.heapEnd, heap.linked, heap.heapStart, cut);
    assert FIRST_TABLE in cut.a;
  }
}
