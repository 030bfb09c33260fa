/** The boundary-tag allocator: search, carving, growth and coalescing over byte-addressed memory. */
module BoundaryTagHeap {
  import opened Words
  import opened ByteMemory
  import opened OrderedArrays
  import opened HeapLayout
  import opened HeapCarving
  import opened HeapAlignment
  import opened HeapGrowth
  import opened HeapFreeing
  import opened HeapService
  import opened HeapTables

  class Heap {
    var mem: seq<byte>
    const heapIndex: OrderedArray<uint32>
    const heapStart: uint32
    var heapEnd: uint32
    // Page numbers passed to `Paging::AllocatePage`.
    var requested: set<int>
    // The slots of the pager's directory that have a page table.
    var linked: set<int>
    ghost var blocks: seq<Block>

    ghost predicate Valid()
      reads this, heapIndex, heapIndex.slots
    {
      && heapIndex.Valid()
      && Sound(mem, blocks, heapStart, heapEnd, requested)
      && Indexed(heapIndex.Contents(), blocks)
    }

    // The state as a value, less the pages.
    ghost function Snap(): Snapshot
      requires heapIndex.Valid()
      reads this, heapIndex, heapIndex.slots
    {
      Snapshot(mem, heapIndex.Contents(), blocks, linked, heapEnd)
    }

    lemma SaneNow()
      requires Valid()
      ensures Sane(Snap(), heapStart) && Covers(requested, heapStart, heapEnd) && heapStart % PAGE == 0
    {
      hide Layout, Indexed, Covers;
    }

    // Room in the index for what allocations and the tables still missing can add.
    ghost predicate Roomy()
      reads this, heapIndex, heapIndex.slots
    {
      heapIndex.Valid() && Load(Snap()) + 2 <= heapIndex.slots.Length
    }

    // `Heap::Init`, on the memory behind the heap. One hole covers the whole heap; it gets no footer. Where a
    // footer would end below the heap, memory must not happen to hold the magic number.
    constructor (memory: seq<byte>, indexSlots: array<uint32>, start: uint32, end: uint32, linked: set<int>)
      modifies indexSlots
      requires |memory| == TWO_32 && indexSlots.Length == INDEX_SIZE
      requires start % PAGE == 0 && start as int + 4 * INDEX_SIZE + PAGE + OVERHEAD <= end
      ensures Valid() <==> Word(memory, start as int + 4 * INDEX_SIZE + PAGE - FOOTER) != MAGIC
      ensures heapIndex.Valid() && fresh(heapIndex) && heapIndex.slots == indexSlots
              && heapIndex.Contents() == [heapStart]
      ensures heapStart == start + 4 * INDEX_SIZE + PAGE && heapEnd == end
      ensures blocks == [Block(heapStart, end - heapStart, true)]
      ensures this.linked == linked + PagesFrom(SlotOf(start), SlotOf(end))
      ensures forall p :: p in requested <==> start / PAGE <= p <= start / PAGE + (end - start) / PAGE
    {
      hide Sound, Indexed, HeaderAt, PagesFrom, Word;
      requested := PagesFrom(start / PAGE, start / PAGE + (end - start) / PAGE);
      this.linked := linked + PagesFrom(SlotOf(start), SlotOf(end));
      heapIndex := new OrderedArray<uint32>(indexSlots);
      var first := RoundUp(start + 4 * INDEX_SIZE);
      assert first == start + 4 * INDEX_SIZE + PAGE;
      heapStart := first;
      heapEnd := end;
      var m := WriteHeader(memory, first, end - first, true);
      mem := m;
      blocks := [Block(first, end - first, true)];
      new;
      RegionCovers(start, end);
      InitialState(memory, mem, first, end, requested);
      ghost var _ := InsertHole(first);
      assert heapIndex.Contents() == [first];
    }

    method FindSmallestHole(need: uint32, align: bool) returns (r: int)
      requires Valid()
      ensures Readable(mem, heapIndex.Contents())
      ensures -1 <= r < heapIndex.size
      ensures r == -1 ==> forall j :: 0 <= j < heapIndex.size ==> !Fits(mem, heapIndex.Contents()[j], need, align)
      ensures r >= 0 ==> Fits(mem, heapIndex.Contents()[r], need, align)
      ensures forall j :: 0 <= j < r ==> !Fits(mem, heapIndex.Contents()[j], need, align)
    {
      IndexReadable(mem, heapIndex.Contents(), blocks, heapStart, heapEnd, heapEnd);
      var i := 0;
      while i < heapIndex.size
        invariant 0 <= i <= heapIndex.size
        invariant forall j :: 0 <= j < i ==> !Fits(mem, heapIndex.Contents()[j], need, align)
      {
        var header := heapIndex.Get(i);
        if Fits(mem, header, need, align) {
          return i;
        }
        i := i + 1;
      }
      return -1;
    }

    method InsertHole(item: uint32) returns (ghost j: nat)
      requires heapIndex.Valid() && heapIndex.size < heapIndex.slots.Length
      requires Readable(mem, heapIndex.Contents()) && item + HEADER <= |mem|
      modifies heapIndex`size, heapIndex.slots
      ensures heapIndex.Valid() && heapIndex.size == old(heapIndex.size) + 1
      ensures InsertionPoint(mem, old(heapIndex.Contents()), item, j)
      ensures heapIndex.Contents() == With(old(heapIndex.Contents()), j, item)
    {
      var i := 0;
      while i < heapIndex.size && SizeAt(mem, heapIndex.slots[i]) < SizeAt(mem, item)
        invariant 0 <= i <= heapIndex.size
        invariant forall k :: 0 <= k < i ==> SizeAt(mem, heapIndex.Contents()[k]) < SizeAt(mem, item)
      {
        i := i + 1;
      }
      heapIndex.InsertAt(i, item);
      j := i;
    }

    // Header and footer of one block; the code writes the footer of a hole only below the heap's end.
    static method StampBlock(mem: seq<byte>, pos: uint32, size: uint32, hole: bool, heapEnd: uint32)
      returns (m: seq<byte>)
      requires OVERHEAD <= size && pos as int + size <= |mem| == TWO_32
      requires hole ==> pos as int + size <= heapEnd
      ensures SameOutside(mem, m, pos, pos as int + size)
      ensures Stamped(m, Block(pos, size, hole))
    {
      m := WriteHeader(mem, pos, size, hole);
      var footer := pos + size - FOOTER;
      if !hole || footer < heapEnd {
        var m1 := WriteFooter(m, footer, pos);
        HeaderStands(m, m1, pos, size, hole);
        m := m1;
      }
    }

    // heap.cpp:357-371, whatever the remaining size: its footer's address wraps with it.
    static method StampTail(mem: seq<byte>, tail: uint32, rest: uint32, heapEnd: uint32) returns (m: seq<byte>)
      requires tail as int + HEADER <= |mem| == TWO_32 && TailFooter(tail, rest) + FOOTER <= |mem|
      ensures |m| == |mem|
      ensures forall x | 0 <= x < |mem| ::
                || m[x] == mem[x] || tail <= x < tail + HEADER
                || TailFooter(tail, rest) <= x < TailFooter(tail, rest) + FOOTER
      ensures OVERHEAD <= rest && tail as int + rest <= heapEnd ==> Stamped(m, Block(tail, rest, true))
    {
      m := WriteHeader(mem, tail, rest, true);
      var footer := Wrap(tail as int + rest - FOOTER);
      if footer < heapEnd {
        var m1 := WriteFooter(m, footer, tail);
        if OVERHEAD <= rest && tail as int + rest <= heapEnd {
          HeaderStands(m, m1, tail, rest, true);
        }
        m := m1;
      }
    }

    // heap.cpp:346-371: header and footer of the block, and of the hole left behind it.
    static method Stamp(mem: seq<byte>, pos: uint32, newSize: uint32, holeSize: uint32, heapEnd: uint32)
      returns (m: seq<byte>)
      requires OVERHEAD <= newSize && |mem| == TWO_32
      requires Neat(pos, newSize, holeSize, heapEnd) || Addressable(pos, newSize, holeSize)
      ensures |m| == |mem|
      ensures Neat(pos, newSize, holeSize, heapEnd) ==>
                && SameOutside(mem, m, pos, pos as int + holeSize) && Stamped(m, Block(pos, newSize, false))
                && (holeSize != newSize ==> Stamped(m, Block(pos + newSize, holeSize - newSize, true)))
      ensures forall x | 0 <= x < pos ::
                m[x] == mem[x] || TailFooter(pos, holeSize) <= x < TailFooter(pos, holeSize) + FOOTER
      ensures pos + HEADER <= TailFooter(pos, holeSize) ==> HeaderAt(m, pos, newSize, false)
    {
      hide HeaderAt, FooterAt, Word, Stamped;
      m := StampBlock(mem, pos, newSize, false, heapEnd);
      var rest := Wrap(holeSize - newSize);
      TailFooterIs(pos, newSize, holeSize);
      if rest > 0 {
        var m1 := StampTail(m, pos + newSize, rest, heapEnd);
        if Neat(pos, newSize, holeSize, heapEnd) {
          StampedStands(m, m1, Block(pos, newSize, false));
        }
        if pos + HEADER <= TailFooter(pos, holeSize) {
          StampedHeader(m, Block(pos, newSize, false));
          HeaderStands(m, m1, pos, newSize, false);
        }
        m := m1;
      } else {
        StampedHeader(m, Block(pos, newSize, false));
      }
    }

    // heap.cpp:309-314: a remainder too small for a header and a footer goes to the block.
    static method BlockSize(holeSize: uint32, need: uint32) returns (newSize: uint32)
      ensures newSize == (if Wrap(holeSize - need) < OVERHEAD then holeSize else need)
    {
      newSize := need;
      var leftover := Wrap(holeSize - newSize);
      if leftover < OVERHEAD {
        newSize := holeSize;
      }
    }

    // heap.cpp:317-339: with alignment, a hole stays in front (and in the index) and the rest is carved.
    static method FrontHole(mem: seq<byte>, hole: uint32, size: uint32, align: bool)
      returns (m: seq<byte>, kept: bool, pos: uint32, holeSize: uint32)
      requires PAGE <= hole && hole as int + HEADER <= |mem| == TWO_32 && (align ==> hole + FrontGap(hole) < |mem|)
      ensures |m| == |mem| && kept == align && (!align ==> m == mem)
      ensures pos == hole + Front(hole, align) && holeSize == Wrap(size - Front(hole, align))
      ensures align && OVERHEAD <= FrontGap(hole) ==>
                SameOutside(mem, m, hole, pos) && Stamped(m, Block(hole, pos - hole, true))
    {
      m, kept, pos, holeSize := mem, false, hole, size;
      if align && PageMask(hole) != 0 {
        var size2 := Wrap(PAGE - hole % PAGE - HEADER);
        FrontWraps(hole, size, size2);
        var m1 := WriteHeader(mem, hole, size2, true);
        m := WriteFooter(m1, Wrap(hole as int + size2 - FOOTER), hole);
        if OVERHEAD <= FrontGap(hole) {
          HeaderStands(m1, m, hole, size2, true);
        }
        kept, pos, holeSize := true, Wrap(hole as int + size2), Wrap(holeSize - size2);
      }
    }

    // heap.cpp:304-371, less the index: rewrites the bytes of hole `h` as the carved blocks, if that can be
    // done.
    static method Rewrite(mem: seq<byte>, ghost h: Block, hole: uint32, need: uint32, align: bool, heapEnd: uint32)
      returns (m: seq<byte>, kept: bool, pos: uint32, tail: uint32, rest: uint32, ghost front: int)
      requires hole == h.pos && PAGE <= h.pos && h.End() <= heapEnd < |mem| == TWO_32 && OVERHEAD <= h.size
      requires HeaderOk(mem, h) && OVERHEAD <= need
      requires Carvable(h, need, align) || (align && h.hole && AlignedRoom(h, need) && NoWrap(h, need))
      ensures |m| == |mem| && front == Front(h.pos, align) && align == kept && pos == h.pos + front
      ensures pos as int + HEADER < TWO_32 && (tail as int + HEADER <= |mem| || rest == 0)
      ensures Carvable(h, need, align) ==>
                && front >= 0 && (front > 0) == align
                && SameOutside(mem, m, h.pos, h.End()) && Splits(h, need, front) && CarvedInMemory(m, h, need, front)
                && rest == Rest(h, need, front) && tail == TailHole(h, need, front).pos
      ensures align && !Carvable(h, need, align) ==> Attempted(m, h, need)
    {
      hide Stamped, Word, HeaderAt, Carvable, AlignedRoom, Neat, Addressable, CarvedInMemory, Attempted, Wrap, FrontGap;
      SizeOf(mem, h);
      var holeSize: uint32 := SizeAt(mem, hole);
      var newSize := BlockSize(holeSize, need);
      var m1;
      FrontFits(h, need, align);
      m1, kept, pos, holeSize := FrontHole(mem, hole, holeSize, align);
      front := pos - hole;
      CutCases(h, need, align, newSize, holeSize, pos, heapEnd);
      m := Stamp(m1, pos, newSize, holeSize, heapEnd);
      tail, rest := Wrap(pos as int + newSize), Wrap(holeSize - newSize);
      if Carvable(h, need, align) {
        CarvedNeatly(mem, m1, m, h, need, align, newSize, holeSize, pos, heapEnd);
      } else {
        CarvedTorn(m1, m, h, need, newSize, holeSize, pos);
      }
    }

    // heap.cpp:343 and heap.cpp:374: the hole leaves the index, unless it stays as the front hole, and the
    // tail hole enters it.
    method Reindex(i: nat, keep: bool, rest: uint32, tail: uint32, ghost neat: bool,
                   ghost a: seq<Block>, ghost h: Block, ghost c: seq<Block>, ghost need: int, ghost front: int,
                   ghost before: seq<byte>)
      requires heapIndex.Valid() && i < heapIndex.size < heapIndex.slots.Length
      requires Readable(mem, heapIndex.Contents()) && (rest > 0 ==> tail as int + HEADER <= |mem|)
      requires neat ==>
                 Reindexable(before, mem, heapIndex.Contents(), i, keep, rest, tail, a, h, c, need, front, heapStart,
                             heapEnd)
      modifies heapIndex`size, heapIndex.slots
      ensures heapIndex.Valid()
      ensures neat ==> Indexed(heapIndex.Contents(), a + Carved(h, need, front) + c)
      ensures neat && !keep && SizeOrdered(before, old(heapIndex.Contents())) ==> SizeOrdered(mem, heapIndex.Contents())
      ensures keep ==> multiset(old(heapIndex.Contents())) <= multiset(heapIndex.Contents())
      ensures heapIndex.size <= old(heapIndex.size) + 1
    {
      hide Carved, With, Without, Indexed, Reindexable, InsertionPoint, SizeOrdered;
      ghost var index := heapIndex.Contents();
      if !keep {
        heapIndex.Remove(i);
      }
      ghost var kept, j := heapIndex.Contents(), 0;
      if rest > 0 {
        WithoutReadable(mem, index, i);
        j := InsertHole(tail);
        WithMultiset(kept, j, tail);
      }
      if neat {
        ReindexKeeps(before, mem, index, i, keep, rest, tail, a, h, c, need, front, heapStart, heapEnd,
                     kept, j, heapIndex.Contents());
      }
    }

    method CarveMemory(hole: uint32, need: uint32, align: bool, ghost a: seq<Block>, ghost h: Block,
                       ghost c: seq<Block>)
      returns (kept: bool, pos: uint32, tail: uint32, rest: uint32, ghost front: int)
      requires Sound(mem, blocks, heapStart, heapEnd, requested) && blocks == a + [h] + c && hole == h.pos
      requires Layout(mem, a, heapStart, h.pos, heapEnd) && Layout(mem, c, h.End(), heapEnd, heapEnd)
      requires heapStart <= h.pos && h.size >= OVERHEAD && h.End() <= heapEnd && HeaderOk(mem, h)
      requires OVERHEAD <= need
      requires Carvable(h, need, align) || (align && h.hole && AlignedRoom(h, need) && NoWrap(h, need))
      modifies this`mem, this`blocks
      ensures |mem| == TWO_32 && front == Front(h.pos, align) && align == kept && pos == h.pos + front
      ensures pos as int + HEADER < TWO_32 && (tail as int + HEADER <= |mem| || rest == 0)
      ensures Carvable(h, need, align) ==>
                && Sound(mem, blocks, heapStart, heapEnd, requested) && blocks == a + Carved(h, need, front) + c
                && front >= 0 && (front > 0) == align
                && rest == Rest(h, need, front) && tail == TailHole(h, need, front).pos
                && SameOutside(old(mem), mem, h.pos, h.End()) && pos as int + OVERHEAD <= heapEnd
                && Splits(h, need, front)
      ensures align && !Carvable(h, need, align) ==> Attempted(mem, h, need)
    {
      hide Carvable, AlignedRoom, Attempted, Layout, Covers;
      var m;
      m, kept, pos, tail, rest, front := Rewrite(mem, h, hole, need, align, heapEnd);
      if Carvable(h, need, align) {
        CarveLayout(mem, m, a, h, c, need, front, heapStart, heapEnd, requested);
        blocks := a + Carved(h, need, front) + c;
      }
      mem := m;
    }

    // The second half of `Alloc`: carve `need` bytes from the hole that the search found at position `i` of
    // the index. An aligned request is served exactly when the hole is carvable.
    method Carve(i: nat, need: uint32, align: bool)
      returns (fine: bool, p: uint32, ghost a: seq<Block>, ghost h: Block, ghost c: seq<Block>, ghost front: int)
      requires Valid() && i < heapIndex.size < heapIndex.slots.Length && OVERHEAD <= need
      requires Readable(mem, heapIndex.Contents()) && Fits(mem, heapIndex.Contents()[i], need, align)
      requires align ==> heapEnd as int + need + 2 * PAGE < TWO_32
      modifies this`mem, this`blocks, heapIndex`size, heapIndex.slots
      ensures heapIndex.Valid() && old(blocks) == a + [h] + c && h in old(blocks) && h.hole
              && h.pos == old(heapIndex.Contents())[i]
      ensures front == Front(h.pos, align) && p == h.pos + front + HEADER && (!align ==> Carvable(h, need, align))
      ensures fine <==> Carvable(h, need, align)
      ensures fine ==>
                && Valid() && blocks == a + Carved(h, need, front) + c && front >= 0 && Splits(h, need, front)
                && SameOutside(old(mem), mem, h.pos, h.End())
      ensures !fine ==> AlignedRoom(h, need)
      ensures heapIndex.size <= old(heapIndex.size) + 1
      ensures !align && SizeOrdered(old(mem), old(heapIndex.Contents())) ==> SizeOrdered(mem, heapIndex.Contents())
      ensures align ==>
                (Served(mem, heapIndex.Contents(), heapStart, heapEnd, a, c, p - HEADER, need) <==> fine)
    {
      hide Layout, Holes, Indexed, Covers, HeaderAt, Carved, Carvable, Rest, TailHole, SizeOrdered, Fits, Served;
      hide AlignedRoom;
      hide Attempted, FrontGap;
      ghost var m0, index := mem, heapIndex.Contents();
      a, h, c := HoleAt(i);
      assert h in blocks;
      if !align {
        FitsUnaligned(mem, h, need);
      } else if !Carvable(h, need, true) {
        FitGivesRoom(mem, h, need);
      }
      var hole := heapIndex.Get(i);
      SizeOf(mem, h);
      fine := Carvable(Block(hole, SizeAt(mem, hole), true), need, align);
      var kept, pos, tail, rest;
      kept, pos, tail, rest, front := CarveMemory(hole, need, align, a, h, c);
      Reindex(i, kept, rest, tail, Carvable(h, need, align), a, h, c, need, front, m0);
      p := pos + HEADER;
      if align {
        assert index[i] in multiset(index);
        if Carvable(h, need, align) {
          CarvedServes(mem, heapIndex.Contents(), a, h, c, need, front, heapStart, heapEnd);
        } else {
          NotServed(m0, mem, heapIndex.Contents(), a, h, c, need, heapStart, heapEnd);
        }
      }
    }

    // Splits the ghost layout at the hole that entry `i` of the index names.
    ghost method HoleAt(i: nat) returns (a: seq<Block>, h: Block, c: seq<Block>)
      requires Valid() && i < heapIndex.size
      ensures blocks == a + [h] + c && h.hole && h.pos == heapIndex.Contents()[i]
      ensures Layout(mem, a, heapStart, h.pos, heapEnd) && Layout(mem, c, h.End(), heapEnd, heapEnd)
      ensures heapStart <= h.pos && h.size >= OVERHEAD && h.End() <= heapEnd && HeaderOk(mem, h)
      ensures Readable(mem, heapIndex.Contents())
    {
      hide Holes, Covers, HeaderAt, Word;
      IndexReadable(mem, heapIndex.Contents(), blocks, heapStart, heapEnd, heapEnd);
      IndexPositions(heapIndex.Contents(), blocks, i);
      h :| h in blocks && h.hole && h.pos == heapIndex.Contents()[i];
      var k :| 0 <= k < |blocks| && blocks[k] == h;
      LayoutSplit(mem, blocks, k, heapStart, heapEnd, heapEnd);
      LayoutBounds(mem, blocks, heapStart, heapEnd, heapEnd);
      a, c := blocks[..k], blocks[k + 1..];
    }

    // `memset` of a page.
    static method ClearPage(mem: seq<byte>, p: nat) returns (m: seq<byte>)
      requires p + PAGE <= |mem|
      ensures SameOutside(mem, m, p, p + PAGE)
    {
      m := mem[..p] + seq(PAGE, _ => 0) + mem[p + PAGE..];
    }

    method ClearTable(p: uint32, ghost cut: Cut)
      requires Valid() && TableCut(cut) && blocks == cut.After() && p == cut.Start() + HEADER
      modifies this`mem
      ensures Valid() && SameOutside(old(mem), mem, p, p as int + PAGE)
    {
      hide Layout, Indexed, Covers, FrontGap;
      ghost var k := |cut.a| + 1;
      ghost var n := NewBlock(cut.h, cut.need, cut.Gap());
      assert blocks[k] == n;
      LayoutAround(mem, blocks, k, heapStart, heapEnd, heapEnd);
      var m := ClearPage(mem, p);
      ClientWrites(m, k);
    }

    // `Paging::AllocatePage` for a page in a slot without a table: the table comes from this heap.
    method MakeTable(slot: int) returns (outcome: Outcome, ghost cut: Cut)
      requires Valid() && Roomy() && PAGE <= heapEnd - heapStart && 0 <= slot < SLOTS && slot !in linked
      modifies this`mem, this`blocks, this`heapEnd, this`requested, this`linked, heapIndex`size, heapIndex.slots
      ensures heapIndex.Valid() && old(requested) <= requested
      ensures outcome.Done? ==> Load(Snap()) <= Load(old(Snap()))
      ensures outcome.Done? ==> Valid() && TableMade(old(Snap()), Snap(), slot)
      ensures outcome.Done? ==> PagesWithin(old(requested), requested, old(heapEnd), heapEnd)
      ensures !outcome.Done? ==> linked == old(linked) && Failed(outcome, old(blocks), Snap(), heapStart, cut, TABLE)
      ensures (Smooth(old(Snap()), heapStart) ==> outcome.Done?) && (Stuck(old(Snap()), heapStart) ==> outcome.Endless?)
      decreases 1, 0, 0, 0
    {
      hide Sound, Indexed, Failed, TableMade, Taken, Prepared, Smooth, Stuck, Load, Unlinked, AnyFit, Most;
      hide PagesWithin;
      ghost var s := Snap();
      SaneNow();
      var p;
      outcome, p, cut := Alloc(PAGE, true, true);
      if outcome.Done? {
        ghost var r := Snap();
        TakenSays(s, r, p, cut, PAGE, true);
        ClearTable(p, cut);
        linked := linked + {slot};
        LoadLinked(r, Snap(), slot);
        MadeTable(s, r, Snap(), p, cut, slot, heapStart);
      }
    }

    // `Paging::AllocatePage` for one of the heap's pages. A nested call, in the middle of a request for a table,
    // that needs a table again would make that request again in the same state.
    method AllocatePage(va: uint32, nested: bool) returns (outcome: Outcome, ghost cut: Cut)
      requires Valid() && Roomy() && PAGE <= heapEnd - heapStart
      modifies this`mem, this`blocks, this`heapEnd, this`requested, this`linked, heapIndex`size, heapIndex.slots
      ensures heapIndex.Valid() && old(requested) <= requested
      ensures SlotOf(va) in old(linked) ==> outcome.Done? && Snap() == old(Snap())
      ensures SlotOf(va) !in old(linked) && nested ==> outcome.Endless? && Snap() == old(Snap())
      ensures SlotOf(va) !in old(linked) && !nested ==>
                && (outcome.Done? ==> TableMade(old(Snap()), Snap(), SlotOf(va)))
                && (!outcome.Done? ==>
                      linked == old(linked) && Failed(outcome, old(blocks), Snap(), heapStart, cut, TABLE))
                && (Smooth(old(Snap()), heapStart) ==> outcome.Done?)
                && (Stuck(old(Snap()), heapStart) ==> outcome.Endless?)
      ensures outcome.Done? ==> Valid() && va / PAGE in requested && Load(Snap()) <= Load(old(Snap()))
      ensures outcome.Done? ==>
                forall hi | va < hi && heapEnd <= hi && old(heapEnd) <= va ::
                  PagesWithin(old(requested), requested, old(heapEnd), hi)
      decreases if nested then 0 else 1, 0, 0, 1
    {
      hide Sound, Indexed, Failed, TableMade, Smooth, Stuck, Load, PagesWithin;
      outcome, cut := Done, NO_CUT;
      NoPages(requested, heapEnd, heapEnd);
      if SlotOf(va) !in linked {
        if nested {
          outcome := Endless;
          return;
        }
        outcome, cut := MakeTable(SlotOf(va));
        if !outcome.Done? {
          return;
        }
      }
      SoundMore(mem, blocks, heapStart, heapEnd, requested, va / PAGE);
      ghost var pages := requested;
      requested := requested + {va / PAGE};
      forall hi | va < hi && heapEnd <= hi && old(heapEnd) <= va
        ensures PagesWithin(old(requested), requested, old(heapEnd), hi)
      {
        OnePage(pages, requested, old(heapEnd), va, hi);
        PagesOn(old(requested), pages, requested, old(heapEnd), old(heapEnd), heapEnd, hi);
      }
    }

    // The pages up to the new length, each one by way of the pager; what it takes from this heap in the
    // middle of it is not noticed afterwards.
    method Expand(length: nat, nested: bool) returns (outcome: Outcome, ghost cut: Cut, end: uint32)
      requires Valid() && Roomy() && PAGE <= heapEnd - heapStart
      requires heapEnd < heapStart as int + RoundUp(length) && heapStart as int + RoundUp(length) + PAGE < TWO_32
      requires PAGE <= length
      requires nested ==> !AnyFit(mem, heapIndex.Contents(), TABLE, true)
                          && heapStart + RoundUp(length) == heapEnd + Growth(heapEnd - heapStart, TABLE)
      modifies this`mem, this`blocks, this`heapEnd, this`requested, this`linked, heapIndex`size, heapIndex.slots
      ensures heapIndex.Valid() && old(requested) <= requested
      ensures outcome.Done? ==> Load(Snap()) <= Load(old(Snap()))
      ensures outcome.Done? ==>
                && heapEnd == heapStart + RoundUp(length) && end < heapEnd
                && Sound(mem, blocks, heapStart, end, requested) && Indexed(heapIndex.Contents(), blocks)
                && Covers(requested, heapStart, heapEnd)
                && Along(old(Snap()), Snap().(end := end)) && Linked(linked, old(heapEnd), heapEnd)
                && PagesWithin(old(requested), requested, old(heapEnd), heapEnd)
      ensures !outcome.Done? ==>
                && Failed(outcome, old(blocks), Snap(), heapStart, cut, TABLE)
                && !Linked(linked, old(heapEnd), heapStart + RoundUp(length))
      ensures Crossing(old(Snap()), linked, heapStart, heapStart + RoundUp(length), nested)
      ensures !old(Linked(linked, heapEnd, heapStart + RoundUp(length))) ==>
                (nested || Stuck(old(Snap()), heapStart) ==> outcome.Endless?)
      decreases if nested then 0 else 1, 0, 0, 2
    {
      hide Layout, Indexed, Failed, TableMade, Along, Smooth, Stuck, Load, Sound, AnyFit, Linked, RoundUp, Touches;
      hide LiveKept, Growth, Covers, PagesWithin;
      var newEnd := heapStart + RoundUp(length);
      ghost var s := Snap();
      var i: int := heapEnd;
      outcome, end, cut := Done, heapEnd, NO_CUT;
      SaneNow();
      AlongSelf(s, heapStart);
      LinkedNone(linked, heapEnd);
      CoversPart(requested, heapStart, PageMask(heapEnd), heapEnd);
      NoPages(requested, heapEnd, newEnd);
      while i < newEnd
        invariant PagesWithin(old(requested), requested, s.end, newEnd)
        invariant outcome.Done? && Valid() && Along(s, Snap()) && s.end <= heapEnd && old(requested) <= requested
                  && s.linked <= linked
        invariant Load(Snap()) <= Load(s) && heapEnd <= i && heapEnd < newEnd && (nested ==> linked == s.linked)
        invariant Covers(requested, heapStart, PageMask(i)) && Linked(linked, s.end, PageMask(i))
        invariant linked != s.linked ==> !Linked(s.linked, s.end, newEnd)
        invariant forall slot | slot in linked :: slot in s.linked || Touches(s.end, newEnd, slot)
        invariant !nested && (Smooth(s, heapStart) || Stuck(s, heapStart)) ==> linked != s.linked || Snap() == s
        invariant Stuck(s, heapStart) ==> linked == s.linked
      {
        ghost var r, pages := Snap(), requested;
        if SlotOf(i) !in linked {
          NotLinked(linked, s.linked, s.end, i, newEnd);
        }
        outcome, cut := AllocatePage(i, nested);
        if !outcome.Done? {
          if nested {
            EndlessHere(s, r, heapStart, cut, newEnd);
          } else {
            FailedAlong(outcome, s, r, Snap(), heapStart, cut);
          }
          return;
        }
        if SlotOf(i) !in r.linked {
          AlongTable(s, r, Snap(), SlotOf(i));
          MadeOnTheWay(r, Snap(), SlotOf(i), i);
        }
        PagesOn(old(requested), pages, requested, s.end, r.end, newEnd, newEnd);
        LinkedPage(linked, s.end, i);
        CoversPage(pages, requested, heapStart, i);
        i := i + PAGE;
      }
      LinkedPart(linked, s.end, newEnd, PageMask(i));
      CoversPart(requested, heapStart, newEnd, PageMask(i));
      end := heapEnd;
      heapEnd := newEnd;
      LoadSame(Snap().(end := end), Snap());
    }

    // heap.cpp:253-265: the index position of the hole with the highest address.
    method HighestEntry() returns (found: bool, idx: nat)
      requires heapIndex.Valid() && forall j :: 0 <= j < heapIndex.size ==> heapIndex.Contents()[j] > 0
      ensures found == (heapIndex.size > 0) && (found ==> idx < heapIndex.size)
      ensures forall j :: 0 <= j < heapIndex.size ==> heapIndex.Contents()[j] <= heapIndex.Contents()[idx]
    {
      var i := 0;
      var value: uint32 := 0;
      found, idx := false, 0;
      while i < heapIndex.size
        invariant 0 <= i <= heapIndex.size && found == (i > 0)
        invariant !found ==> value == 0
        invariant found ==> idx < i && value == heapIndex.Contents()[idx]
        invariant forall j :: 0 <= j < i ==> heapIndex.Contents()[j] <= value
      {
        var tmp := heapIndex.Get(i);
        assert heapIndex.Contents()[i] > 0;
        if tmp > value {
          value, idx, found := tmp, i, true;
        }
        i := i + 1;
      }
    }

    // heap.cpp:287-295: a larger size in the header, and a footer at the new end.
    static method Stretch(mem: seq<byte>, pos: uint32, extra: nat, ghost h: Block) returns (m: seq<byte>)
      requires h.hole && h.pos == pos && h.size >= OVERHEAD && HeaderOk(mem, h) && |mem| == TWO_32
               && h.End() + extra < |mem|
      ensures SameOutside(mem, m, pos, h.End() + extra)
      ensures Stamped(m, Block(pos, h.size + extra, true)) && SizeAt(m, pos) >= extra
    {
      var size := SizeAt(mem, pos) + extra;
      var m1 := PutWord(mem, pos + 8, size);
      WordStands(mem, m1, pos);
      m := WriteFooter(m1, pos + size - FOOTER, pos);
      HeaderStands(m1, m, pos, size, true);
    }

    // heap.cpp:268-282: no hole to extend, so the new pages become one.
    method NewTail(oldEnd: uint32, extra: uint32, ghost oldPages: set<int>)
      requires heapIndex.Valid() && heapIndex.size == 0 < heapIndex.slots.Length
      requires Sound(mem, blocks, heapStart, oldEnd, oldPages) && Indexed(heapIndex.Contents(), blocks)
      requires OVERHEAD <= extra && heapEnd == oldEnd as int + extra && Covers(requested, heapStart, heapEnd)
      modifies this`mem, this`blocks, heapIndex`size, heapIndex.slots
      ensures Valid() && !AnyHole(old(blocks)) && blocks == old(blocks) + [Block(oldEnd, extra, true)]
      ensures heapIndex.Contents() == [oldEnd] && SizeAt(mem, oldEnd) == extra
      ensures LiveKept(old(mem), mem, old(blocks), blocks)
    {
      hide Layout, Holes, Covers, LiveKept, HeaderAt, Sealed;
      NoEntryNoHole(heapIndex.Contents(), blocks);
      AppendHole(blocks, oldEnd, extra);
      LayoutBounds(mem, blocks, heapStart, oldEnd, oldEnd);
      ghost var tail := Block(oldEnd, extra, true);
      var m1 := WriteHeader(mem, oldEnd, extra, true);
      var m := WriteFooter(m1, oldEnd + extra - FOOTER, oldEnd);
      HeaderStands(m1, m, oldEnd, extra, true);
      GrowLayout(mem, m, blocks, blocks, tail, heapStart, oldEnd, heapEnd, oldPages, requested);
      LiveBelow(mem, m, blocks, blocks + [tail], heapStart, oldEnd);
      mem := m;
      ghost var _ := InsertHole(oldEnd);
      blocks := blocks + [tail];
    }

    // heap.cpp:284-296: the hole with the highest address takes the new pages. That is right if it reaches
    // `end`, where the heap ended before, and if the heap has not grown in between.
    method StretchHighest(idx: nat, end: uint32, extra: uint32, ghost oldPages: set<int>) returns (fine: bool)
      requires heapIndex.Valid() && idx < heapIndex.size
      requires forall j :: 0 <= j < heapIndex.size ==> heapIndex.Contents()[j] <= heapIndex.Contents()[idx]
      requires Sound(mem, blocks, heapStart, end, oldPages) && Indexed(heapIndex.Contents(), blocks)
      requires end < heapEnd <= end as int + extra < TWO_32 && Covers(requested, heapStart, heapEnd)
      requires heapEnd < end as int + extra ==> AnyLive(blocks)
      modifies this`mem, this`blocks
      ensures fine <==> heapEnd == end as int + extra && CanGrow(old(blocks))
      ensures fine ==> LiveKept(old(mem), mem, old(blocks), blocks)
      ensures fine ==> Valid() && blocks == Grown(old(blocks), end, extra)
      ensures !fine ==> blocks == old(blocks) && Loses(mem, blocks, heapStart, heapEnd)
    {
      hide Layout, Holes, Covers, Stamped, LiveKept, Loses, Grown, CanGrow, AnyHole, SizeAt, HeaderAt;
      ghost var k := HighestHole(heapIndex.Contents(), idx, mem, blocks, heapStart, end);
      LayoutAround(mem, blocks, k, heapStart, end, end);
      LayoutSplit(mem, blocks, k, heapStart, end, end);
      var pos := heapIndex.Get(idx);
      LastReaches(mem, blocks, k, heapStart, end);
      SizeOf(mem, blocks[k]);
      fine := heapEnd == end as int + extra && pos as int + SizeAt(mem, pos) == end;
      var m := Stretch(mem, pos, extra, blocks[k]);
      if heapEnd == end as int + extra {
        StretchCases(mem, m, blocks, k, heapStart, end, extra, heapEnd, oldPages, requested);
      } else {
        StampedHeader(m, Block(pos, blocks[k].size + extra, true));
        StretchOverruns(mem, m, blocks, k, heapStart, end, extra, heapEnd);
      }
      mem := m;
      ghost var bs := blocks;
      if fine {
        blocks := Grown(bs, end, extra);
      }
    }

    // heap.cpp:250-296: the space between the old end and the new one goes to the hole with the highest address,
    // or becomes one.
    method TakePages(oldEnd: uint32, end: uint32) returns (fine: bool)
      requires heapIndex.Valid() && heapIndex.size < heapIndex.slots.Length
      requires Sound(mem, blocks, heapStart, end, requested) && Indexed(heapIndex.Contents(), blocks)
      requires oldEnd <= end < heapEnd && OVERHEAD <= heapEnd - oldEnd && end as int + heapEnd - oldEnd < TWO_32
      requires Covers(requested, heapStart, heapEnd)
      requires oldEnd < end ==> AnyHole(blocks) && AnyLive(blocks)
      modifies this`mem, this`blocks, heapIndex`size, heapIndex.slots
      ensures heapIndex.Valid()
              && |heapIndex.Contents()| == if old(heapIndex.Contents()) == [] then 1 else old(heapIndex.size)
      ensures fine <==> end == oldEnd && CanGrow(old(blocks))
      ensures fine ==> Valid() && blocks == Grown(old(blocks), oldEnd, heapEnd - oldEnd)
      ensures fine ==> LiveKept(old(mem), mem, old(blocks), blocks)
      ensures !fine ==> blocks == old(blocks) && Loses(mem, blocks, heapStart, heapEnd)
    {
      hide Layout, Holes, Indexed, Covers, LiveKept, Loses, CanGrow, Grown, AnyHole, AnyLive;
      var extra := heapEnd - oldEnd;
      SoundLayout(mem, blocks, heapStart, end, requested);
      IndexReadable(mem, heapIndex.Contents(), blocks, heapStart, end, end);
      var found, idx := HighestEntry();
      fine := true;
      if !found {
        NoEntryNoHole(heapIndex.Contents(), blocks);
        GrownNone(blocks, oldEnd, extra);
        NewTail(oldEnd, extra, requested);
      } else {
        fine := StretchHighest(idx, end, extra, requested);
      }
    }

    // heap.cpp:237-296: more pages, and the space they give goes to the hole with the highest address.
    method Grow(need: uint32, nested: bool) returns (outcome: Outcome, ghost cut: Cut, ghost mid: seq<Block>)
      requires Valid() && Roomy() && OVERHEAD <= need && PAGE <= heapEnd - heapStart && heapEnd + Most(need) < TWO_32
      requires nested ==> need == TABLE && !AnyFit(mem, heapIndex.Contents(), TABLE, true)
      modifies this`mem, this`blocks, this`heapEnd, this`requested, this`linked, heapIndex`size, heapIndex.slots
      ensures heapIndex.Valid() && old(requested) <= requested
      ensures outcome.Done? ==> Load(Snap()) <= Load(old(Snap()))
      ensures outcome.Done? ==> Valid() && GrewTo(old(Snap()), Snap(), mid, heapStart, need)
      ensures outcome.Done? ==> PagesWithin(old(requested), requested, old(heapEnd), heapEnd)
      ensures !outcome.Done? ==> Failed(outcome, old(blocks), Snap(), heapStart, cut, need)
      ensures var s, newEnd := old(Snap()), old(heapEnd) + Growth(old(heapEnd) - heapStart, need);
              && Crossing(s, linked, heapStart, newEnd, nested) && (nested ==> linked == s.linked)
              && (outcome.Done? || outcome.Lost? || !Linked(linked, s.end, newEnd))
              && OneTable(s, Snap(), newEnd, outcome)
              && (Linked(s.linked, s.end, newEnd) ==> outcome == if CanGrow(s.blocks) then Done else Lost)
              && (!Linked(s.linked, s.end, newEnd) && (nested || Stuck(s, heapStart)) ==> outcome.Endless?)
      decreases if nested then 0 else 1, 0, 0, 3
    {
      hide Layout, Indexed, Covers, LiveKept, Loses, RoundUp, Failed, Along, Linked, CanGrow, Grown, AnyHole, AnyLive;
      hide AnyFit, Tabled, GrewTo, Smooth, Stuck, Touches, Sound, Load, OneTable, PagesWithin;
      ghost var s := Snap();
      SaneNow();
      LoadSays(s);
      mid := blocks;
      var oldEnd := heapEnd;
      var oldLength := heapEnd - heapStart;
      GrowthBounds(oldLength, need);
      var end;
      outcome, cut, end := Expand(oldLength + need, nested);
      if !outcome.Done? {
        FailedWider(outcome, s.blocks, Snap(), heapStart, cut, need);
        NotLinkedUp(s, Snap(), oldEnd + Growth(oldLength, need), outcome);
        return;
      }
      mid := blocks;
      ghost var r := Snap().(end := end);
      LoadSame(r, Snap());
      LoadSays(r);
      SoundLayout(mem, blocks, heapStart, end, requested);
      AlongSays(s, r);
      var fine := TakePages(oldEnd, end);
      LoadGrown(r, Snap());
      if fine {
        DoneHere(s, Snap(), heapEnd);
        GrewAll(s, r, Snap(), mid, heapStart, need);
      } else {
        outcome := Lost;
        LostAll(s, r, Snap(), heapStart, cut, need);
      }
    }

    // `header->size += extra`.
    static method Absorb(mem: seq<byte>, head: uint32, extra: uint32) returns (m: seq<byte>)
      requires head as int + HEADER <= |mem|
      ensures SameOutside(mem, m, head as int + 8, head as int + HEADER)
      ensures SizeAt(m, head) == Wrap(SizeAt(mem, head) + extra)
    {
      m := PutWord(mem, head + 8, Wrap(SizeAt(mem, head) + extra));
    }

    // heap.cpp:408-411.
    static method JoinTo(mem: seq<byte>, head: uint32, footer: uint32, extra: uint32) returns (m: seq<byte>)
      requires head as int + HEADER <= footer && footer as int + FOOTER <= |mem| == TWO_32 && Word(mem, footer) == MAGIC
      ensures Joined(mem, m, head, footer, extra)
    {
      var m1 := PutWord(mem, footer + 4, head);
      WordStands(mem, m1, footer);
      WordStands(mem, m1, head + 8);
      m := Absorb(m1, head, extra);
      FooterStands(m1, m, footer, head);
    }

    // Line 396: the block's header turns into that of a hole.
    static method Release(mem: seq<byte>, header: uint32, ghost b: Block) returns (m: seq<byte>)
      requires |mem| == TWO_32 && header == b.pos && b.End() < TWO_32 && b.size >= OVERHEAD && Stamped(mem, b)
               && !b.hole
      ensures SameOutside(mem, m, b.pos, b.End()) && Stamped(m, Block(b.pos, b.size, true))
    {
      m := mem[header + 4 := 1];
      WordStands(mem, m, header);
      WordStands(mem, m, header + 8);
      FooterStands(mem, m, b.End() - FOOTER, b.pos);
    }

    // heap.cpp:402-414: the freed block joins the hole whose footer lies before it.
    static method MergeLeft(mem: seq<byte>, header: uint32, size: uint32, ghost l: Block, ghost b: Block)
      returns (m: seq<byte>, head: uint32, doAdd: bool)
      requires |mem| == TWO_32 && FOOTER <= header == b.pos && b.End() < TWO_32 && size == b.size >= OVERHEAD
      requires Stamped(mem, b) && b.hole
      requires Word(mem, header - FOOTER) == MAGIC ==>
                 && 0 <= l.pos && l.End() == b.pos && l.size >= OVERHEAD && HeaderOk(mem, l)
                 && (FooterOk(mem, l) || (l.hole && FooterStale(mem, l)))
      requires l.hole ==> Word(mem, header - FOOTER) == MAGIC
      ensures doAdd == !l.hole && head <= header
      ensures !l.hole || FooterOk(mem, l) ==>
                var h := JoinLeft(l, b); head == h.pos && SameOutside(mem, m, h.pos, h.End()) && Stamped(m, h)
      ensures l.hole && !FooterOk(mem, l) ==>
                && SameOutside(mem, m, l.pos, b.End())
                && FooterAt(m, l.End() - FOOTER, head) && l.pos + OVERHEAD <= head && head as int + OVERHEAD <= l.End()
                && HeaderOk(m, l) && FooterStale(m, l) && HeaderAt(m, b.pos, b.size, true)
    {
      hide Joined, Word;
      m, head, doAdd := mem, header, true;
      var footer := header + size - FOOTER;
      if Word(mem, header - FOOTER) == MAGIC && mem[Word(mem, header - FOOTER + 4) + 4] == 1 {
        head, doAdd := Word(mem, header - FOOTER + 4), false;
        m := JoinTo(mem, head, footer, size);
        if FooterOk(mem, l) {
          JoinedToHole(mem, m, l, b);
        } else {
          JoinedToStale(mem, m, l, b, head);
        }
      }
    }

    // heap.cpp:392-414.
    static method ReleaseLeft(mem: seq<byte>, header: uint32, size: uint32, ghost l: Block, ghost b: Block)
      returns (m: seq<byte>, head: uint32, doAdd: bool)
      requires |mem| == TWO_32 && FOOTER <= header == b.pos && b.End() < TWO_32 && size == b.size >= OVERHEAD
      requires Stamped(mem, b) && !b.hole
      requires Word(mem, header - FOOTER) == MAGIC ==>
                 && 0 <= l.pos && l.End() == b.pos && l.size >= OVERHEAD && HeaderOk(mem, l)
                 && (FooterOk(mem, l) || (l.hole && FooterStale(mem, l)))
      requires l.hole ==> Word(mem, header - FOOTER) == MAGIC
      ensures doAdd == !l.hole && head <= header
      ensures !l.hole || FooterOk(mem, l) ==>
                var h := JoinLeft(l, b); head == h.pos && SameOutside(mem, m, h.pos, h.End()) && Stamped(m, h)
      ensures l.hole && !FooterOk(mem, l) ==>
                && SameOutside(mem, m, l.pos, b.End())
                && FooterAt(m, l.End() - FOOTER, head) && l.pos + OVERHEAD <= head && head as int + OVERHEAD <= l.End()
                && HeaderOk(m, l) && FooterStale(m, l) && HeaderAt(m, b.pos, b.size, true)
    {
      hide Word, FooterStale, FooterAt, HeaderAt;
      var m0 := Release(mem, header, b);
      WordStands(mem, m0, header - FOOTER);
      if Word(mem, header - FOOTER) == MAGIC {
        BlockStands(mem, m0, l);
      }
      m, head, doAdd := MergeLeft(m0, header, size, l, Block(b.pos, b.size, true));
    }

    // heap.cpp:417-427: a hole that follows is absorbed; its footer is left as it is.
    static method MergeRight(mem: seq<byte>, head: uint32, next: uint32, ghost r: Block)
      returns (m: seq<byte>, merged: bool)
      requires |mem| == TWO_32 && head as int + HEADER <= next == r.pos && HeaderOk(mem, r)
      ensures merged == r.hole && (!merged ==> m == mem)
      ensures merged ==> SameOutside(mem, m, head as int + 8, head as int + HEADER)
      ensures merged ==> SizeAt(m, head) == Wrap(SizeAt(mem, head) + r.size)
    {
      m, merged := mem, false;
      if Word(mem, next) == MAGIC && mem[next + 4] != 0 {
        m := Absorb(mem, head, SizeAt(mem, next));
        merged := true;
      }
    }

    // heap.cpp:392-427, less the index: the bytes of the freed block `b` and of the holes beside it.
    static method FreeBytes(mem: seq<byte>, header: uint32, ghost l: Block, ghost b: Block, ghost r: Block,
                            ghost end: int)
      returns (m: seq<byte>, head: uint32, next: uint32, doAdd: bool, merged: bool)
      requires |mem| == TWO_32 && FOOTER <= header == b.pos && b.size >= OVERHEAD && Stamped(mem, b) && !b.hole
      requires r.pos == b.End() && r.size >= OVERHEAD && HeaderOk(mem, r) && Sealed(mem, r, end) && r.End() < TWO_32
      requires r.hole ==> r.End() != end
      requires Word(mem, header - FOOTER) == MAGIC ==>
                 && 0 <= l.pos && l.End() == b.pos && l.size >= OVERHEAD && HeaderOk(mem, l)
                 && (FooterOk(mem, l) || (l.hole && FooterStale(mem, l)))
      requires l.hole ==> Word(mem, header - FOOTER) == MAGIC
      ensures next == r.pos && merged == r.hole && doAdd == !l.hole
      ensures |m| == |mem| && head as int + HEADER <= next
      ensures !l.hole || FooterOk(mem, l) ==>
                var h := JoinRight(JoinLeft(l, b), r);
                && head == h.pos && SameOutside(mem, m, h.pos, h.End()) && HeaderOk(m, h) && Sealed(m, h, end)
                && (FooterOk(m, h) <==> !r.hole)
      ensures l.hole && !FooterOk(mem, l) ==>
                && SameOutside(mem, m, l.pos, b.End())
                && HeaderOk(m, l) && FooterStale(m, l) && HeaderAt(m, b.pos, b.size, true)
    {
      hide JoinLeft, JoinRight, FooterStale, Layout, Word;
      JoinLeftExtent(l, b);
      var size := SizeAt(mem, header);
      next := header + size;
      var m1;
      m1, head, doAdd := ReleaseLeft(mem, header, size, l, b);
      BlockStands(mem, m1, r);
      m, merged := MergeRight(m1, head, next, r);
      if l.hole && !FooterOk(mem, l) {
        StaleStands(mem, m1, m, l, b, head);
      } else {
        JoinedRight(mem, m1, m, JoinLeft(l, b), r, end);
      }
    }

    // heap.cpp:429-434.
    method IndexOf(entry: uint32) returns (i: nat)
      requires heapIndex.Valid()
      ensures i <= heapIndex.size && (i < heapIndex.size ==> heapIndex.Contents()[i] == entry)
      ensures forall j :: 0 <= j < i ==> heapIndex.Contents()[j] != entry
    {
      i := 0;
      while i < heapIndex.size
        invariant 0 <= i <= heapIndex.size
        invariant forall j :: 0 <= j < i ==> heapIndex.Contents()[j] != entry
      {
        var x := heapIndex.Get(i);
        if x == entry {
          return;
        }
        i := i + 1;
      }
    }

    // What a caller can find out before a free.
    method IsMisled(header: uint32) returns (b: bool)
      requires heapIndex.Valid() && FOOTER <= header && header as int + HEADER <= |mem|
      ensures b == Misled(mem, heapIndex.Contents(), header)
    {
      b := false;
      if Word(mem, header - FOOTER) == MAGIC {
        var q: uint32 := Word(mem, header - FOOTER + 4);
        if q as int + HEADER <= |mem| && mem[q + 4] == 1 {
          var i := IndexOf(q);
          b := i == heapIndex.size;
        }
      }
    }

    method FreeMemory(header: uint32, ghost k: nat) returns (head: uint32, next: uint32, doAdd: bool, merged: bool)
      requires Sound(mem, blocks, heapStart, heapEnd, requested)
      requires Freeable(blocks, k) && header == blocks[k].pos
      modifies this`mem
      ensures |mem| == TWO_32 && head as int + HEADER <= |mem|
      ensures next == blocks[k + 1].pos && merged == blocks[k + 1].hole
      ensures doAdd == !(k > 0 && blocks[k - 1].hole)
      ensures !LeftStale(old(mem), blocks, k) ==>
                var h := MergedHole(blocks, k);
                && head == h.pos && Sound(mem, Merged(blocks, k), heapStart, heapEnd, requested)
                && SameOutside(old(mem), mem, h.pos, h.End()) && (FooterOk(mem, h) <==> !blocks[k + 1].hole)
      ensures LeftStale(old(mem), blocks, k) ==>
                && Layout(mem, blocks[..k], heapStart, blocks[k].pos, heapEnd)
                && HeaderAt(mem, blocks[k].pos, blocks[k].size, true)
    {
      hide Layout, Covers, JoinLeft, JoinRight, HeaderAt, Word;
      ghost var b, r := blocks[k], blocks[k + 1];
      ghost var l := if k > 0 then blocks[k - 1] else b;
      Surroundings(mem, blocks, k, heapStart, heapEnd);
      assert JoinRight(JoinLeft(l, b), r) == MergedHole(blocks, k);
      var m;
      m, head, next, doAdd, merged := FreeBytes(mem, header, l, b, r, heapEnd);
      if LeftStale(mem, blocks, k) {
        FreeStale(mem, m, blocks, k, heapStart, heapEnd);
      } else {
        FreeLayout(mem, m, blocks, k, heapStart, heapEnd, requested);
      }
      mem := m;
    }

    // heap.cpp:428-437 and 479-482: the index side of a free.
    method FreeIndex(head: uint32, next: uint32, doAdd: bool, merged: bool)
      returns (ghost i: nat, ghost kept: seq<uint32>, ghost j: nat)
      requires heapIndex.Valid() && heapIndex.size < heapIndex.slots.Length
      requires Readable(mem, heapIndex.Contents()) && head as int + HEADER <= |mem|
      requires merged ==> next in heapIndex.Contents()
      modifies heapIndex`size, heapIndex.slots
      ensures heapIndex.Valid() && Readable(mem, kept)
      ensures FreedIndex(old(heapIndex.Contents()), i, kept, j, heapIndex.Contents(), merged, next, doAdd, head)
      ensures doAdd ==> InsertionPoint(mem, kept, head, j)
      ensures heapIndex.size <= old(heapIndex.size) + 1
    {
      hide With, InsertionPoint;
      i, j := 0, 0;
      if merged {
        var at := IndexOf(next);
        i := at;
        heapIndex.Remove(at);
      }
      kept := heapIndex.Contents();
      if doAdd {
        j := InsertHole(head);
      }
    }

    method FreeBlock(header: uint32, ghost k: nat)
      requires Valid() && heapIndex.size < heapIndex.slots.Length
      requires Freeable(blocks, k) && header == blocks[k].pos
      modifies this`mem, this`blocks, heapIndex`size, heapIndex.slots
      ensures heapIndex.Valid() && heapIndex.size <= old(heapIndex.size) + 1
      ensures !LeftIsHole(old(blocks), k) && SizeOrdered(old(mem), old(heapIndex.Contents())) ==>
                SizeOrdered(mem, heapIndex.Contents())
      ensures Representable(mem, heapIndex.Contents(), heapStart, heapEnd)
              <==> !Misled(old(mem), old(heapIndex.Contents()), header)
      ensures LeftStale(old(mem), old(blocks), k) <==> Misled(old(mem), old(heapIndex.Contents()), header)
      ensures !LeftStale(old(mem), old(blocks), k) ==>
                && Valid() && blocks == Merged(old(blocks), k)
                && SameOutside(old(mem), mem, MergedHole(old(blocks), k).pos, MergedHole(old(blocks), k).End())
                && (FooterOk(mem, MergedHole(old(blocks), k)) <==> !old(blocks)[k + 1].hole)
                && IndexAfter(mem, old(heapIndex.Contents()), heapIndex.Contents(), old(blocks), k)
    {
      hide Sound, Layout, Indexed, Merged, MergedHole, HeaderAt, Sealed, FooterOk, SameOutside, InsertionPoint;
      hide FreedIndex, SizeOrdered;
      hide Misled, IndexAfter;
      ghost var bs, m0, index := blocks, mem, heapIndex.Contents();
      SoundLayout(mem, blocks, heapStart, heapEnd, requested);
      StaleIsMisled(mem, index, blocks, k, header, heapStart, heapEnd, requested);
      IndexReadable(mem, index, blocks, heapStart, heapEnd, heapEnd);
      if blocks[k + 1].hole {
        RightIndexed(index, blocks, k);
      }
      var head, next, doAdd, merged := FreeMemory(header, k);
      ghost var i, kept, j := FreeIndex(head, next, doAdd, merged);
      if LeftStale(m0, bs, k) {
        FreedLeaks(m0, mem, index, i, kept, j, heapIndex.Contents(), merged, next, doAdd, head, bs, k, heapStart,
                   heapEnd);
      } else {
        FreedIndexExact(index, i, kept, j, heapIndex.Contents(), merged, next, doAdd, head, bs, k);
        IndexIsAfter(mem, index, i, kept, j, heapIndex.Contents(), merged, next, doAdd, head, bs, k);
        blocks := Merged(bs, k);
        SoundLayout(mem, blocks, heapStart, heapEnd, requested);
        if doAdd && SizeOrdered(m0, index) {
          FreedOrdered(m0, mem, index, i, kept, j, heapIndex.Contents(), merged, next, head, bs, k, heapStart, heapEnd);
        }
      }
    }

    // `Heap::Free` of block `k`, for a block that does not make the heap shrink.
    method Free(p: uint32, ghost k: nat)
      requires Valid() && heapIndex.size < heapIndex.slots.Length
      requires p != 0 ==> Freeable(blocks, k) && p == blocks[k].pos + HEADER
      modifies this`mem, this`blocks, heapIndex`size, heapIndex.slots
      ensures heapIndex.Valid() && heapIndex.size <= old(heapIndex.size) + 1
      ensures p == 0 ==> mem == old(mem) && blocks == old(blocks) && heapIndex.Contents() == old(heapIndex.Contents())
      ensures p != 0 && !LeftIsHole(old(blocks), k) && SizeOrdered(old(mem), old(heapIndex.Contents())) ==>
                SizeOrdered(mem, heapIndex.Contents())
      ensures p != 0 ==>
                && (Representable(mem, heapIndex.Contents(), heapStart, heapEnd)
                    <==> !Misled(old(mem), old(heapIndex.Contents()), p - HEADER))
                && (LeftStale(old(mem), old(blocks), k) <==> Misled(old(mem), old(heapIndex.Contents()), p - HEADER))
      ensures p != 0 && !LeftStale(old(mem), old(blocks), k) ==>
                && Valid() && blocks == Merged(old(blocks), k)
                && SameOutside(old(mem), mem, MergedHole(old(blocks), k).pos, MergedHole(old(blocks), k).End())
                && (FooterOk(mem, MergedHole(old(blocks), k)) <==> !old(blocks)[k + 1].hole)
                && IndexAfter(mem, old(heapIndex.Contents()), heapIndex.Contents(), old(blocks), k)
    {
      hide Layout, Indexed, Merged, MergedHole, FooterOk, SameOutside, Representable, Covers, SizeOrdered, Misled;
      hide IndexAfter;
      if p != 0 {
        Surroundings(mem, blocks, k, heapStart, heapEnd);
        FreeBlock(p - HEADER, k);
      }
    }

    // An allocation from the hole that the search found.
    method Serve(i: nat, request: uint32, align: bool) returns (outcome: Outcome, p: uint32, ghost cut: Cut)
      requires Valid() && i < heapIndex.size < heapIndex.slots.Length && request as int + OVERHEAD < TWO_32
      requires Readable(mem, heapIndex.Contents()) && Fits(mem, heapIndex.Contents()[i], request + OVERHEAD, align)
      requires align ==> heapEnd as int + request + OVERHEAD + 2 * PAGE < TWO_32
      modifies this`mem, this`blocks, heapIndex`size, heapIndex.slots
      ensures heapIndex.Valid() && cut.Before() == old(blocks) && (align ==> p % PAGE == 0)
      ensures cut.need == request + OVERHEAD && cut.align == align
      ensures cut.h in old(blocks) && cut.h.hole && cut.h.pos == old(heapIndex.Contents())[i]
      ensures heapIndex.size <= old(heapIndex.size) + 1
      ensures outcome.Done? || (align && outcome.Torn?)
      ensures outcome.Done? ==> Valid() && Taken(old(Snap()), Snap(), p, cut, request, align)
      ensures outcome.Torn? ==> Failed(outcome, old(blocks), Snap(), heapStart, cut, request + OVERHEAD)
      ensures !align && SizeOrdered(old(mem), old(heapIndex.Contents())) ==> SizeOrdered(mem, heapIndex.Contents())
    {
      hide Sound, Layout, Indexed, Carvable, Carved, LiveKept, Granted, SameOutside, FrontGap, Served, SizeOrdered;
      hide AlignedRoom, Readable, Fits;
      ghost var m0, bs := mem, blocks;
      SoundLayout(mem, blocks, heapStart, heapEnd, requested);
      var fine;
      ghost var a, h, c, front;
      fine, p, a, h, c, front := Carve(i, request + OVERHEAD, align);
      cut := Cut(a, h, c, request + OVERHEAD, align);
      outcome := if fine then Done else Torn;
      if fine {
        CarveGrants(m0, mem, a, h, c, request, front, heapStart, heapEnd);
      }
      FrontAligns(h.pos);
    }

    // `Heap::Alloc`, aligned or not, from an existing hole or from grown memory. `nested` is a request for a page
    // table that the pager makes while this heap grows; if it would ask for one in turn, the same request in the
    // same state, it never returns.
    method Alloc(request: uint32, align: bool, nested: bool) returns (outcome: Outcome, p: uint32, ghost cut: Cut)
      requires Valid() && Roomy() && request as int + OVERHEAD < TWO_32
      requires AnyFit(mem, heapIndex.Contents(), request + OVERHEAD, align) || PAGE <= heapEnd - heapStart
      requires nested ==> request == PAGE && align
      modifies this`mem, this`blocks, this`heapEnd, this`requested, this`linked, heapIndex`size, heapIndex.slots
      ensures heapIndex.Valid() && old(requested) <= requested
      ensures outcome.Done? ==> Load(Snap()) <= Load(old(Snap())) + 1
      ensures outcome.Done? ==>
                && Valid() && Taken(old(Snap()), Snap(), p, cut, request, align) && (align ==> p % PAGE == 0)
                && Prepared(old(Snap()), cut.Before(), heapEnd, linked, heapStart, request + OVERHEAD, align)
                && PagesWithin(old(requested), requested, old(heapEnd), heapEnd)
      ensures !outcome.Done? ==> Failed(outcome, old(blocks), Snap(), heapStart, cut, request + OVERHEAD)
      ensures nested ==> linked == old(linked) && (Smooth(old(Snap()), heapStart) ==> outcome.Done?)
      ensures nested && Stuck(old(Snap()), heapStart) ==> outcome.Endless?
      ensures old(AnyFit(mem, heapIndex.Contents(), request + OVERHEAD, align)) ==>
                && heapEnd == old(heapEnd) && linked == old(linked) && requested == old(requested)
                && (if align then outcome.Done? || outcome.Torn? || outcome.Wraps? else outcome.Done?)
      ensures !align && !old(AnyFit(mem, heapIndex.Contents(), request + OVERHEAD, align)) ==>
                var s, newEnd := old(Snap()), old(heapEnd) + Growth(old(heapEnd) - heapStart, request + OVERHEAD);
                && (s.end + Most(request + OVERHEAD) < TWO_32 ==>
                      && Crossing(s, linked, heapStart, newEnd, false)
                      && (outcome.Done? || outcome.Lost? || !Linked(linked, s.end, newEnd))
                      && OneTable(s, Snap(), newEnd, outcome)
                      && (Linked(s.linked, s.end, newEnd) ==> outcome == if CanGrow(s.blocks) then Done else Lost)
                      && (!Linked(s.linked, s.end, newEnd) && Stuck(s, heapStart) ==> outcome.Endless?))
      ensures !align && SizeOrdered(old(mem), old(heapIndex.Contents())) && heapEnd == old(heapEnd) && outcome.Done? ==>
                SizeOrdered(mem, heapIndex.Contents())
      // Which hole: the first entry of the index that fits; on an index in order of size, a smallest that is large
      // enough; after growth, the last block.
      ensures old(AnyFit(mem, heapIndex.Contents(), request + OVERHEAD, align)) && (outcome.Done? || outcome.Torn?) ==>
                exists i: nat ::
                  && FitsFirst(old(mem), old(heapIndex.Contents()), request + OVERHEAD, align, i)
                  && cut.h.pos == old(heapIndex.Contents())[i]
      ensures !align && old(AnyFit(mem, heapIndex.Contents(), request + OVERHEAD, align)) ==>
                SizeOrdered(old(mem), old(heapIndex.Contents())) ==>
                  forall b | b in old(blocks) && b.hole && request as int + OVERHEAD <= b.size :: cut.h.size <= b.size
      ensures !old(AnyFit(mem, heapIndex.Contents(), request + OVERHEAD, align)) && outcome.Done? ==>
                !align || linked == old(linked) ==> cut.c == []
      decreases if nested then 0 else 1, Unlinked(linked),
                Rounds(mem, heapIndex.Contents(), blocks, request + OVERHEAD, align), 4
    {
      hide Sound, Layout, Indexed, Growth, Served, Rounds, AnyHole, SizeOrdered, Load, Smooth, Stuck, Taken, Prepared;
      hide Failed, PagesWithin;
      hide Crossing, Linked, CanGrow, GrewTo, Fits, Unlinked, OneTable;
      var need := request + OVERHEAD;
      ghost var s := Snap();
      cut := NO_CUT;
      SaneNow();
      LoadSays(s);
      if nested && Stuck(s, heapStart) {
        StuckSays(s, heapStart);
      }
      RoundsSay(mem, heapIndex.Contents(), blocks, need, align);
      var i := FindSmallestHole(need, align);
      if (align || i == -1) && heapEnd as int + Most(need) >= TWO_32 {
        if nested && Smooth(s, heapStart) {
          SmoothBelow(s, heapStart);
        }
        outcome, p := Wraps, 0;
        StopsShort(s, heapStart, cut, need);
      } else if i == -1 {
        ghost var mid;
        if nested && Smooth(s, heapStart) {
          SmoothGrows(s, heapStart);
        }
        outcome, cut, mid := Grow(need, nested);
        if !outcome.Done? {
          p := 0;
          return;
        }
        ghost var r, pages := Snap(), requested;
        SaneNow();
        RoomMade(s, r, mid, heapStart, need, align);
        if nested && Smooth(s, heapStart) {
          SmoothOn(s, r, mid, heapStart);
        }
        outcome, p, cut := Alloc(request, align, nested);
        DoneHere(s, Snap(), s.end + Growth(s.end - heapStart, need));
        Retried(s, r, Snap(), mid, heapStart, request, need, align, outcome, p, cut);
        if outcome.Done? {
          PagesOn(old(requested), pages, requested, s.end, r.end, r.end, heapEnd);
        }
        if outcome.Done? && (!align || linked == s.linked) {
          TakenSays(r, Snap(), p, cut, request, align);
          CarvesTheGrown(s, heapStart, cut, heapEnd, linked, need, align);
        }
      } else {
        outcome, p, cut := Serve(i, request, align);
        NoPages(requested, s.end, s.end);
        assert FitsFirst(s.mem, s.index, need, align, i);
        if !align && SizeOrdered(s.mem, s.index) {
          SmallestHole(s, heapStart, need, i, cut.h);
        }
        LoadOneMore(s, Snap());
        if outcome.Done? {
          ServedAtOnce(s, cut.Before(), heapStart, need, align);
        } else if nested {
          SmoothServed(s, Snap(), heapStart, cut);
        }
      }
    }

    // A client's writes to a block it was granted.
    method ClientWrites(contents: seq<byte>, ghost k: nat)
      requires Valid() && k < |blocks| && !blocks[k].hole
      requires SameOutside(mem, contents, blocks[k].pos + HEADER, blocks[k].End() - FOOTER)
      modifies this`mem
      ensures Valid() && mem == contents
      ensures SizeOrdered(old(mem), heapIndex.Contents()) ==> SizeOrdered(mem, heapIndex.Contents())
    {
      hide Layout, Covers, Sound, SizeOrdered;
      SoundLayout(mem, blocks, heapStart, heapEnd, requested);
      ClientKeepsSound(mem, contents, blocks, k, heapStart, heapEnd, requested);
      ClientKeepsOrder(mem, contents, heapIndex.Contents(), blocks, k, heapStart, heapEnd);
      mem := contents;
    }

    // Three frees that lose a block: the middle one of three neighbours, then the one before it, whose
    // merge leaves a stale footer, then the one after it.
    method FreeMiddleFirst(middle: uint32, left: uint32, right: uint32, ghost k: nat)
      requires Valid() && heapIndex.size + 2 < heapIndex.slots.Length
      requires k + 3 < |blocks| && forall i :: k <= i <= k + 3 ==> !blocks[i].hole
      requires !LeftIsHole(blocks, k)
      requires left == blocks[k].pos + HEADER && middle == blocks[k + 1].pos + HEADER
               && right == blocks[k + 2].pos + HEADER
      modifies this`mem, this`blocks, heapIndex`size, heapIndex.slots
      ensures heapIndex.Valid() && !Representable(mem, heapIndex.Contents(), heapStart, heapEnd)
    {
      hide Sound, Layout, Indexed, FooterOk, SameOutside, Representable, SizeOrdered, Merged, MergedHole, Misled;
      ghost var bs := blocks;
      SoundLayout(mem, bs, heapStart, heapEnd, requested);
      LayoutBounds(mem, bs, heapStart, heapEnd, heapEnd);
      assert bs[k] in bs && bs[k + 1] in bs && bs[k + 2] in bs;
      MiddleFreed(bs, k);
      Free(middle, k + 1);
      ghost var bs1 := blocks;
      LeftFreed(bs, bs1, k);
      Free(left, k);
      RightFreeable(bs, MergedHole(bs1, k), blocks, k);
      Free(right, k + 1);
    }
  }
}
