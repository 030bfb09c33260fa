/**
 * Growth into a part of the address space that has no page table yet: the pager takes the table from the
 * heap that is growing, in the middle of the growth.
 */
module HeapTables {
  import opened Words
  import opened ByteMemory
  import opened HeapLayout
  import opened HeapCarving
  import opened HeapAlignment
  import opened HeapGrowth
  import opened HeapService

  // The addresses that one page table maps, and how many such slots there are.
  const SLOT := 0x40_0000
  const SLOTS := 0x400
  // What a request for a page table takes from the heap.
  const TABLE: uint32 := PAGE + OVERHEAD

  function SlotOf(x: int): int { x / SLOT }

  // Every address of a stretch lies in a slot that has its table.
  ghost predicate Linked(linked: set<int>, lo: int, hi: int) {
    forall x | lo <= x < hi :: SlotOf(x) in linked
  }

  ghost predicate Touches(lo: int, hi: int, slot: int) {
    exists x :: lo <= x < hi && SlotOf(x) == slot
  }

  // Every page that has come to be requested lies between `lo` and `hi`.
  ghost predicate PagesWithin(before: set<int>, after: set<int>, lo: int, hi: int) {
    forall p | p in after && p !in before :: lo / PAGE <= p && p * PAGE < hi
  }

  lemma NoPages(pages: set<int>, lo: int, hi: int)
    ensures PagesWithin(pages, pages, lo, hi)
  {
  }

  lemma PagesOn(before: set<int>, mid: set<int>, after: set<int>, lo: int, lo': int, hi: int, hi': int)
    requires PagesWithin(before, mid, lo, hi) && PagesWithin(mid, after, lo', hi') && lo <= lo' && hi <= hi'
    ensures PagesWithin(before, after, lo, hi')
  {
  }

  lemma PagesWider(before: set<int>, after: set<int>, lo: int, hi: int, hi': int)
    requires PagesWithin(before, after, lo, hi) && hi <= hi'
    ensures PagesWithin(before, after, lo, hi')
  {
  }

  lemma OnePage(before: set<int>, after: set<int>, lo: int, va: int, hi: int)
    requires after == before + {va / PAGE} && lo <= va < hi
    ensures PagesWithin(before, after, lo, hi)
  {
  }

  function Unlinked(linked: set<int>): nat {
    |set s | 0 <= s < SLOTS && s !in linked|
  }

  lemma {:induction false} NumbersBelow(n: nat, part: set<int>)
    requires forall x | x in part :: 0 <= x < n
    ensures |part| <= n
  {
    if n > 0 {
      NumbersBelow(n - 1, part - {n - 1});
    } else {
      assert forall x: int :: x !in part;
      assert part == {};
    }
  }

  lemma UnlinkedAtMost(linked: set<int>)
    ensures Unlinked(linked) <= SLOTS
  {
    NumbersBelow(SLOTS, set s | 0 <= s < SLOTS && s !in linked);
  }

  lemma LinkOne(linked: set<int>, slot: int)
    requires 0 <= slot < SLOTS && slot !in linked
    ensures Unlinked(linked + {slot}) == Unlinked(linked) - 1
  {
    var before := set s | 0 <= s < SLOTS && s !in linked;
    assert (set s | 0 <= s < SLOTS && s !in linked + {slot}) == before - {slot};
  }

  // How an allocation ends: served; with a hole carved that could not be carved; with a live block lost;
  // in a recursion without end; or with sums that could pass 4 GiB, where the model stops.
  datatype Outcome = Done | Torn | Lost | Endless | Wraps

  // Blocks in front of a hole, the hole, blocks behind it, and what is carved from it.
  datatype Cut = Cut(a: seq<Block>, h: Block, c: seq<Block>, need: int, align: bool) {
    function Gap(): int { Front(h.pos, align) }

    function Start(): int { h.pos + Gap() }

    function Before(): seq<Block> { a + [h] + c }

    function After(): seq<Block> { a + Carved(h, need, Gap()) + c }

    predicate Fine() { Carvable(h, need, align) }
  }

  const NO_CUT := Cut([], Block(0, 0, false), [], 0, false)

  // The state that an allocation works on.
  datatype Snapshot = Snapshot(mem: seq<byte>, index: seq<uint32>, blocks: seq<Block>, linked: set<int>, end: int)

  ghost predicate Sane(s: Snapshot, start: int) {
    && |s.mem| == TWO_32 && PAGE <= start <= s.end < TWO_32
    && Layout(s.mem, s.blocks, start, s.end, s.end) && Indexed(s.index, s.blocks)
  }

  ghost predicate LiveIn(bs: seq<Block>, bs': seq<Block>) {
    forall b | b in bs && !b.hole :: b in bs'
  }

  // Addresses that the sums of an allocation with growth can reach above the end of the heap.
  function Most(need: int): int { 3 * (need + 2 * PAGE) }

  // What holds after an allocation that was not served.
  ghost predicate Failed(outcome: Outcome, bs: seq<Block>, s: Snapshot, start: int, cut: Cut, need: int) {
    match outcome
    case Done => false
    case Torn =>
      && LiveIn(bs, cut.Before()) && cut.h in cut.Before() && cut.h.hole && cut.align && !cut.Fine()
      && AlignedRoom(cut.h, cut.need) && !Served(s.mem, s.index, start, s.end, cut.a, cut.c, cut.Start(), cut.need)
    case Lost => LiveIn(bs, s.blocks) && Loses(s.mem, s.blocks, start, s.end)
    case Endless =>
      && start <= s.end && !AnyFit(s.mem, s.index, TABLE, true)
      && !Linked(s.linked, s.end, s.end + Growth(s.end - start, TABLE))
    case Wraps => s.end + Most(need) >= TWO_32 || s.end + Most(TABLE) >= TWO_32
  }

  lemma FailedBefore(outcome: Outcome, bs0: seq<Block>, bs: seq<Block>, s: Snapshot, start: int, cut: Cut, need: int)
    requires LiveIn(bs0, bs) && Failed(outcome, bs, s, start, cut, need)
    ensures Failed(outcome, bs0, s, start, cut, need)
  {
    hide Served, Loses, AnyFit, Linked, Growth, Carvable;
  }

  // ---- tables made during growth ----

  ghost predicate TableCut(cut: Cut) {
    cut.need == TABLE && cut.align && cut.Fine()
  }

  // `n` tables carved one after the other, each from one hole.
  ghost predicate Tabled(bs: seq<Block>, bs': seq<Block>, n: nat)
    decreases n
  {
    if n == 0 then bs' == bs
    else exists cut: Cut :: TableCut(cut) && Tabled(bs, cut.Before(), n - 1) && cut.After() == bs'
  }

  lemma CutAdds(cut: Cut)
    requires TableCut(cut)
    ensures |cut.After()| > |cut.Before()| && AnyHole(cut.Before()) && AnyHole(cut.After())
    ensures NewBlock(cut.h, cut.need, cut.Gap()) in cut.After()
  {
    assert cut.h in cut.Before();
    assert Block(cut.h.pos, cut.Gap(), true) in Carved(cut.h, cut.need, cut.Gap());
    assert Block(cut.h.pos, cut.Gap(), true) in cut.After();
    assert NewBlock(cut.h, cut.need, cut.Gap()) in Carved(cut.h, cut.need, cut.Gap());
  }

  lemma {:induction false} TabledAdds(bs: seq<Block>, bs': seq<Block>, n: nat)
    requires Tabled(bs, bs', n)
    ensures |bs'| >= |bs| + n
    ensures n > 0 ==> AnyHole(bs)
    decreases n
  {
    hide AnyHole, TableCut;
    if n > 0 {
      var cut: Cut :| TableCut(cut) && Tabled(bs, cut.Before(), n - 1) && cut.After() == bs';
      TabledAdds(bs, cut.Before(), n - 1);
      CutAdds(cut);
    }
  }

  lemma NoneTabled(bs: seq<Block>, bs': seq<Block>)
    requires Tabled(bs, bs', 0)
    ensures bs' == bs
  {
  }

  ghost predicate AnyLive(bs: seq<Block>) { exists b :: b in bs && !b.hole }

  // One table: it comes from a hole there was, or from growth through slots that have theirs.
  ghost predicate TableMade(s: Snapshot, r: Snapshot, slot: int) {
    && r.linked == s.linked + {slot} && Unlinked(r.linked) < Unlinked(s.linked)
    && s.end <= r.end && Linked(s.linked, s.end, r.end)
    && LiveKept(s.mem, r.mem, s.blocks, r.blocks) && AnyHole(r.blocks) && AnyLive(r.blocks)
    && (r.end == s.end <==> AnyFit(s.mem, s.index, TABLE, true))
    && (r.end == s.end ==> exists cut: Cut :: TableCut(cut) && cut.Before() == s.blocks && cut.After() == r.blocks)
  }

  // Any number of them.
  ghost predicate Along(s: Snapshot, r: Snapshot) {
    && s.linked <= r.linked && s.end <= r.end && LiveKept(s.mem, r.mem, s.blocks, r.blocks)
    && (r.linked == s.linked ==> r == s)
    && (r.linked != s.linked ==> Unlinked(r.linked) < Unlinked(s.linked))
    && (r.linked != s.linked ==> AnyHole(r.blocks) && AnyLive(r.blocks))
    && (r.linked != s.linked && r.end == s.end ==> AnyFit(s.mem, s.index, TABLE, true))
    && (|r.linked - s.linked| == 1 && AnyFit(s.mem, s.index, TABLE, true) ==> r.end == s.end)
    && (r.end == s.end ==> Tabled(s.blocks, r.blocks, |r.linked - s.linked|))
  }

  lemma AlongTable(s: Snapshot, r: Snapshot, t: Snapshot, slot: int)
    requires Along(s, r) && TableMade(r, t, slot) && slot !in r.linked
    ensures Along(s, t) && t.linked != s.linked
  {
    hide LiveKept, AnyFit, AnyHole, AnyLive, Linked, Unlinked;
    LiveKeptTwice(s.mem, r.mem, t.mem, s.blocks, r.blocks, t.blocks);
    assert slot in t.linked && slot !in s.linked;
    assert t.linked - s.linked == (r.linked - s.linked) + {slot};
    if t.end == s.end {
      var cut: Cut :| TableCut(cut) && cut.Before() == r.blocks && cut.After() == t.blocks;
      assert Tabled(s.blocks, t.blocks, |r.linked - s.linked| + 1);
    }
  }

  lemma AlongSelf(s: Snapshot, start: int)
    requires Sane(s, start)
    ensures Along(s, s)
  {
    hide Layout, Indexed;
    LayoutBounds(s.mem, s.blocks, start, s.end, s.end);
    assert s.linked - s.linked == {};
  }

  // Which tables growth up to `hi` has made: none if it needs none, only some that it needs, and one at least
  // where one can be had.
  ghost predicate Crossing(s: Snapshot, linked: set<int>, start: int, hi: int, nested: bool) {
    && s.linked <= linked && (nested || Linked(s.linked, s.end, hi) ==> linked == s.linked)
    && (forall slot | slot in linked :: slot in s.linked || Touches(s.end, hi, slot))
    && (!nested && !Linked(s.linked, s.end, hi) && Smooth(s, start) ==> linked != s.linked)
  }

  // With one table to make, and a hole for it, all depends on the blocks that are there once it is made.
  ghost predicate OneTable(s: Snapshot, r: Snapshot, hi: int, outcome: Outcome) {
    outcome.Lost? && |r.linked - s.linked| == 1 && AnyFit(s.mem, s.index, TABLE, true) ==>
      Linked(r.linked, s.end, hi) ==> Tabled(s.blocks, r.blocks, 1) && !CanGrow(r.blocks)
  }

  // ---- growth as a whole ----

  predicate LastAtLeast(bs: seq<Block>, size: int) {
    bs != [] && bs[|bs| - 1].hole && bs[|bs| - 1].size >= size
  }

  lemma GrownLast(m: seq<byte>, bs: seq<Block>, start: int, end: int, extra: int)
    requires Layout(m, bs, start, end, end) && CanGrow(bs)
    ensures LastAtLeast(Grown(bs, end, extra), extra)
  {
    hide Layout;
    LayoutBounds(m, bs, start, end, end);
    if AnyHole(bs) {
      assert bs[|bs| - 1] in bs;
    }
  }

  // The growth that `need` bytes ask for, with the tables made on the way in `mid`.
  ghost predicate GrewTo(s: Snapshot, r: Snapshot, mid: seq<Block>, start: int, need: nat)
    requires start <= s.end
  {
    && r.end == s.end + Growth(s.end - start, need) && s.linked <= r.linked
    && CanGrow(mid) && r.blocks == Grown(mid, s.end, r.end - s.end) && LastAtLeast(r.blocks, r.end - s.end)
    && Tabled(s.blocks, mid, |r.linked - s.linked|) && LiveKept(s.mem, r.mem, s.blocks, r.blocks)
    && Linked(r.linked, s.end, r.end) && (r.linked == s.linked <==> Linked(s.linked, s.end, r.end))
    && (r.linked != s.linked ==> AnyFit(s.mem, s.index, TABLE, true) && Unlinked(r.linked) < Unlinked(s.linked))
  }

  // ---- allocations ----

  // What an allocation of `request` bytes leaves when it is served at `p`.
  ghost predicate Taken(s: Snapshot, r: Snapshot, p: int, cut: Cut, request: int, align: bool) {
    && cut.Fine() && cut.need == request + OVERHEAD && cut.align == align && p == cut.Start() + HEADER
    && r.blocks == cut.After() && LiveKept(s.mem, r.mem, s.blocks, r.blocks)
    && Granted(cut.Before(), p, request, r.blocks)
  }

  // How many blocks growth leaves at least.
  ghost function GrownLength(bs: seq<Block>): nat { |bs| + if AnyHole(bs) then 0 else 1 }

  // The blocks before the cut, against those before the allocation: the same if something fitted, the
  // grown ones if not. They are exactly what growth alone makes of the old ones when every slot on the way
  // had its table.
  ghost predicate Prepared(s: Snapshot, before: seq<Block>, end: int, linked: set<int>, start: int, need: uint32,
                           align: bool)
    requires start <= s.end
  {
    && s.linked <= linked && LiveIn(s.blocks, before)
    && if AnyFit(s.mem, s.index, need, align) then before == s.blocks && end == s.end && linked == s.linked
       else
         && s.end < end && Linked(linked, s.end, end) && (linked == s.linked <==> Linked(s.linked, s.end, end))
         && |before| >= GrownLength(s.blocks)
         && (linked == s.linked ==> CanGrow(s.blocks) && before == Grown(s.blocks, s.end, end - s.end))
         && (linked != s.linked ==> |before| > GrownLength(s.blocks))
         && GrownBy(s, end, start, need, align, linked)
         && (!align ==> exists mid :: CanGrow(mid) && before == Grown(mid, s.end, end - s.end)
                                      && Tabled(s.blocks, mid, |linked - s.linked|))
  }

  // By how much the heap has grown.
  ghost predicate GrownBy(s: Snapshot, end: int, start: int, need: uint32, align: bool, linked: set<int>)
    requires start <= s.end <= end
  {
    var length := s.end - start;
    var once := Growth(length, need);
    && (!align || (linked == s.linked && AnyHole(s.blocks)) ==> end - s.end == once)
    && (align && linked == s.linked && !AnyHole(s.blocks) ==>
          end - s.end == once || (once >= 0 && end - s.end == once + Growth(length + once, need)))
  }

  lemma LinkedOn(linked: set<int>, linked': set<int>, lo: int, mid: int, hi: int)
    requires linked <= linked' && lo <= mid <= hi && Linked(linked, lo, mid) && Linked(linked', mid, hi)
    ensures Linked(linked', lo, hi)
  {
  }

  lemma LinkedPart(linked: set<int>, lo: int, mid: int, hi: int)
    requires lo <= mid <= hi && Linked(linked, lo, hi)
    ensures Linked(linked, lo, mid) && Linked(linked, mid, hi)
  {
  }

  lemma NewSlots(linked: set<int>, linked': set<int>)
    requires linked <= linked' && linked' != linked
    ensures |linked' - linked| > 0
  {
    if linked' - linked == {} {
      forall x | x in linked'
        ensures x in linked
      {
        assert x !in linked' - linked;
      }
    }
  }

  lemma GrewLonger(s: Snapshot, r: Snapshot, mid: seq<Block>, start: int, need: nat)
    requires start <= s.end && GrewTo(s, r, mid, start, need)
    ensures |r.blocks| >= GrownLength(s.blocks) && AnyHole(r.blocks) && CanGrow(r.blocks)
    ensures r.linked != s.linked ==> |r.blocks| > GrownLength(s.blocks)
    ensures r.linked == s.linked ==> mid == s.blocks
    ensures LiveIn(s.blocks, r.blocks)
  {
    hide AnyHole, Linked, AnyFit, Growth, Tabled;
    TabledAdds(s.blocks, mid, |r.linked - s.linked|);
    GrownHole(mid, s.end, r.end - s.end);
    if r.linked == s.linked {
      assert r.linked - s.linked == {};
      NoneTabled(s.blocks, mid);
    } else {
      NewSlots(s.linked, r.linked);
    }
  }

  // One round of growth in front of the rounds that follow.
  lemma PreparedStep(s: Snapshot, r: Snapshot, mid: seq<Block>, before: seq<Block>, end: int, linked: set<int>,
                     start: int, need: uint32, align: bool)
    requires start <= s.end && PAGE <= s.end - start && !AnyFit(s.mem, s.index, need, align)
    requires GrewTo(s, r, mid, start, need) && r.end > s.end
    requires Prepared(r, before, end, linked, start, need, align)
    requires !align || (r.linked == s.linked && AnyHole(s.blocks)) ==> AnyFit(r.mem, r.index, need, align)
    ensures Prepared(s, before, end, linked, start, need, align)
  {
    hide AnyFit, Tabled, Grown, CanGrow, AnyHole, Growth, Linked;
    GrewLonger(s, r, mid, start, need);
    if !AnyFit(r.mem, r.index, need, align) {
      LinkedOn(r.linked, linked, s.end, r.end, end);
      if Linked(s.linked, s.end, end) {
        LinkedPart(s.linked, s.end, r.end, end);
      }
      if linked == s.linked {
        GrownTwice(s.blocks, s.end, r.end - s.end, end - r.end);
      }
    }
  }

  // Index entries and tables still to come take room in the index.
  function Load(s: Snapshot): nat { (if s.index == [] then 1 else |s.index|) + Unlinked(s.linked) }

  // A heap from which a request for a page table is served: one whose one hole is the last block and can be
  // carved, or one of whole pages that is full and has the tables for the next four pages, or that has just
  // grown by two.
  ghost predicate Smooth(s: Snapshot, start: int) {
    && PAGE <= start && start % PAGE == 0 && s.end % PAGE == 0 && PAGE <= s.end - start && s.end + Most(TABLE) < TWO_32
    && if !AnyHole(s.blocks) then Linked(s.linked, s.end, s.end + 4 * PAGE) && s.end + Most(TABLE) + 4 * PAGE < TWO_32
       else
         && s.blocks != [] && (forall i | 0 <= i < |s.blocks| - 1 :: !s.blocks[i].hole)
         && var h := s.blocks[|s.blocks| - 1];
         && h.hole
         && (Carvable(h, TABLE, true) || (
               && h.pos % PAGE == 0 && h.size == 2 * PAGE && Linked(s.linked, s.end, s.end + 2 * PAGE)
               && s.end + Most(TABLE) + 2 * PAGE < TWO_32))
  }

  // A heap from which a request for a page table never returns: nothing fits, and the growth for the table
  // reaches a slot that needs one.
  ghost predicate Stuck(s: Snapshot, start: int) {
    && start <= s.end && !AnyFit(s.mem, s.index, TABLE, true) && s.end + Most(TABLE) < TWO_32
    && !Linked(s.linked, s.end, s.end + Growth(s.end - start, TABLE))
  }

  lemma FailedWider(outcome: Outcome, bs: seq<Block>, s: Snapshot, start: int, cut: Cut, need: int)
    requires Failed(outcome, bs, s, start, cut, TABLE)
    ensures Failed(outcome, bs, s, start, cut, need)
  {
    hide Served, Loses, AnyFit, Linked, Growth, Carvable;
  }

  lemma AlongSays(s: Snapshot, r: Snapshot)
    requires Along(s, r)
    ensures r.linked != s.linked ==> AnyLive(r.blocks) && AnyHole(r.blocks)
    ensures r.linked == s.linked ==> r == s
    ensures s.end <= r.end
  {
  }

  lemma LastReaches(m: seq<byte>, bs: seq<Block>, k: nat, start: int, end: int)
    requires Layout(m, bs, start, end, end) && k < |bs|
    ensures bs[k].End() == end <==> k == |bs| - 1
  {
    hide Layout, HeaderOk, Sealed;
    LayoutSplit(m, bs, k, start, end, end);
    if k + 1 < |bs| {
      LayoutBounds(m, bs[k + 1..], bs[k].End(), end, end);
      assert bs[k + 1..][0] in bs[k + 1..];
      LayoutAround(m, bs, k + 1, start, end, end);
    } else {
      EmptyEnds(m, bs[k + 1..], bs[k].End(), end);
    }
  }

  // Growth that ended well: no table request has grown the heap.
  lemma GrewAll(s: Snapshot, r: Snapshot, t: Snapshot, mid: seq<Block>, start: int, need: nat)
    requires start <= s.end && Along(s, r) && mid == r.blocks && r.end == s.end
    requires Layout(r.mem, r.blocks, start, r.end, r.end)
    requires t.linked == r.linked && t.end == s.end + Growth(s.end - start, need)
    requires CanGrow(mid) && t.blocks == Grown(mid, s.end, t.end - s.end) && LiveKept(r.mem, t.mem, r.blocks, t.blocks)
    requires Linked(t.linked, s.end, t.end) && (Linked(s.linked, s.end, t.end) ==> t.linked == s.linked)
    ensures GrewTo(s, t, mid, start, need)
  {
    hide AnyFit, AnyHole, AnyLive, Growth, Tabled, CanGrow, Grown, Layout, LastAtLeast, Linked;
    LiveKeptTwice(s.mem, r.mem, t.mem, s.blocks, r.blocks, t.blocks);
    GrownLast(r.mem, r.blocks, start, r.end, t.end - s.end);
  }

  lemma LostAll(s: Snapshot, r: Snapshot, t: Snapshot, start: int, cut: Cut, need: int)
    requires Along(s, r) && t.blocks == r.blocks && t.linked == r.linked && Loses(t.mem, t.blocks, start, t.end)
    requires r.end == s.end ==> !CanGrow(r.blocks)
    ensures Failed(Lost, s.blocks, t, start, cut, need) && OneTable(s, t, t.end, Lost)
  {
    hide AnyFit, AnyHole, AnyLive, Tabled, Loses, CanGrow;
  }

  lemma MadeTable(s: Snapshot, r: Snapshot, t: Snapshot, p: int, cut: Cut, slot: int, start: int)
    requires start <= s.end && Taken(s, r, p, cut, PAGE, true)
             && Prepared(s, cut.Before(), r.end, r.linked, start, TABLE, true)
    requires r.linked == s.linked && t == r.(mem := t.mem, linked := s.linked + {slot})
    requires Unlinked(t.linked) < Unlinked(s.linked)
    requires SameOutside(r.mem, t.mem, p, p + PAGE)
    ensures TableMade(s, t, slot)
  {
    hide AnyFit, Grown, CanGrow, Growth, GrownBy, GrownLength;
    CutAdds(cut);
    assert TableCut(cut);
    LiveBesideWrite(s, r, t.mem, p, cut);
  }

  lemma LiveBesideWrite(s: Snapshot, r: Snapshot, m: seq<byte>, p: int, cut: Cut)
    requires Taken(s, r, p, cut, PAGE, true) && LiveIn(s.blocks, cut.Before()) && SameOutside(r.mem, m, p, p + PAGE)
    ensures LiveKept(s.mem, m, s.blocks, r.blocks)
  {
    forall b | b in s.blocks && !b.hole
      ensures b in r.blocks && 0 <= b.pos <= b.End() <= |s.mem| && m[b.pos..b.End()] == s.mem[b.pos..b.End()]
    {
      assert r.mem[b.pos..b.End()] == s.mem[b.pos..b.End()];
      assert forall x | b.pos <= x < b.End() :: m[x] == r.mem[x];
    }
  }

  lemma StopsShort(s: Snapshot, start: int, cut: Cut, need: int)
    requires s.end + Most(need) >= TWO_32
    ensures Failed(Wraps, s.blocks, s, start, cut, need)
  {
  }

  // ---- the retry ----

  lemma RoomMade(s: Snapshot, r: Snapshot, mid: seq<Block>, start: int, need: uint32, align: bool)
    requires Sane(s, start) && Sane(r, start) && GrewTo(s, r, mid, start, need) && !AnyFit(s.mem, s.index, need, align)
    requires PAGE <= s.end - start && (align ==> need + 2 * PAGE < TWO_32)
    ensures !align || (r.linked == s.linked && AnyHole(s.blocks)) ==> AnyFit(r.mem, r.index, need, align)
    ensures Unlinked(r.linked) < Unlinked(s.linked)
            || (r.linked == s.linked
                && Rounds(r.mem, r.index, r.blocks, need, align) < Rounds(s.mem, s.index, s.blocks, need, align))
    ensures PAGE <= r.end - start && s.end < r.end && LiveIn(s.blocks, r.blocks)
  {
    hide AnyFit, AnyHole, Layout, Indexed, Tabled, CanGrow, Grown, Growth, Linked, Unlinked;
    GrowthBounds(s.end - start, need);
    GrewLonger(s, r, mid, start, need);
    if r.linked == s.linked && AnyHole(s.blocks) {
      GrownFits(s.mem, s.index, s.blocks, r.mem, r.index, need, align, start, s.end, r.end - s.end);
    }
    if !align {
      LastFits(r, start, need);
    }
  }

  lemma LastFits(r: Snapshot, start: int, need: uint32)
    requires Sane(r, start) && LastAtLeast(r.blocks, need)
    ensures AnyFit(r.mem, r.index, need, false)
  {
    hide Layout, Indexed;
    var i := HoleIndexed(r.mem, r.index, r.blocks, |r.blocks| - 1, start, r.end);
    assert Fits(r.mem, r.index[i], need, false);
  }

  // What the retry gives is what the whole allocation gives.
  lemma PreparedEnd(s: Snapshot, before: seq<Block>, end: int, linked: set<int>, start: int, need: uint32, align: bool)
    requires start <= s.end && Prepared(s, before, end, linked, start, need, align)
    ensures s.end <= end
  {
  }

  lemma Retried(s: Snapshot, r: Snapshot, t: Snapshot, mid: seq<Block>, start: int, request: nat, need: uint32,
                align: bool,
                outcome: Outcome, p: int, cut: Cut)
    requires start <= s.end && PAGE <= s.end - start && need == request + OVERHEAD
             && !AnyFit(s.mem, s.index, need, align)
    requires GrewTo(s, r, mid, start, need) && r.end > s.end
    requires !align || (r.linked == s.linked && AnyHole(s.blocks)) ==> AnyFit(r.mem, r.index, need, align)
    requires outcome.Done? ==>
               Taken(r, t, p, cut, request, align) && Prepared(r, cut.Before(), t.end, t.linked, start, need, align)
    requires !outcome.Done? ==> Failed(outcome, r.blocks, t, start, cut, need)
    ensures outcome.Done? ==>
              Taken(s, t, p, cut, request, align) && Prepared(s, cut.Before(), t.end, t.linked, start, need, align)
    ensures !outcome.Done? ==> Failed(outcome, s.blocks, t, start, cut, need)
    ensures outcome.Done? ==> r.end <= t.end
  {
    hide Prepared, Failed, GrewTo, AnyFit;
    GrewLonger(s, r, mid, start, need);
    if outcome.Done? {
      PreparedEnd(r, cut.Before(), t.end, t.linked, start, need, align);
      PreparedStep(s, r, mid, cut.Before(), t.end, t.linked, start, need, align);
      KeptOn(s, r, t, mid, start, need);
    } else {
      FailedBefore(outcome, s.blocks, r.blocks, t, start, cut, need);
    }
  }

  lemma KeptOn(s: Snapshot, r: Snapshot, t: Snapshot, mid: seq<Block>, start: int, need: nat)
    requires start <= s.end && GrewTo(s, r, mid, start, need) && LiveKept(r.mem, t.mem, r.blocks, t.blocks)
    ensures LiveKept(s.mem, t.mem, s.blocks, t.blocks)
  {
    LiveKeptTwice(s.mem, r.mem, t.mem, s.blocks, r.blocks, t.blocks);
  }

  lemma ServedAtOnce(s: Snapshot, before: seq<Block>, start: int, need: uint32, align: bool)
    requires start <= s.end && before == s.blocks && AnyFit(s.mem, s.index, need, align)
    ensures Prepared(s, before, s.end, s.linked, start, need, align)
  {
  }

  // ---- a table for a smooth heap ----

  lemma SmoothGrows(s: Snapshot, start: int)
    requires Sane(s, start) && Smooth(s, start) && !AnyFit(s.mem, s.index, TABLE, true)
    ensures Growth(s.end - start, TABLE) == 2 * PAGE && CanGrow(s.blocks)
    ensures AnyHole(s.blocks) ==> s.blocks[|s.blocks| - 1].size == 2 * PAGE && s.blocks[|s.blocks| - 1].pos % PAGE == 0
    ensures Linked(s.linked, s.end, s.end + 2 * PAGE)
  {
    hide Layout, Indexed, Fits;
    WholePages(s.end - start, TABLE);
    if AnyHole(s.blocks) {
      var k := |s.blocks| - 1;
      var i := HoleIndexed(s.mem, s.index, s.blocks, k, start, s.end);
      AlignedFit(s.mem, s.index[i], TABLE);
      assert !Fits(s.mem, s.index[i], TABLE, true);
    }
  }

  lemma SmoothOn(s: Snapshot, r: Snapshot, mid: seq<Block>, start: int)
    requires Sane(s, start) && Smooth(s, start) && !AnyFit(s.mem, s.index, TABLE, true)
    requires GrewTo(s, r, mid, start, TABLE) && r.linked == s.linked
    ensures Smooth(r, start)
  {
    hide Layout, Indexed, AnyFit, Growth, LiveKept, LastAtLeast;
    SmoothGrows(s, start);
    GrewLonger(s, r, mid, start, TABLE);
  }

  lemma SmoothServed(s: Snapshot, r: Snapshot, start: int, cut: Cut)
    requires Failed(Torn, s.blocks, r, start, cut, TABLE) && cut.Before() == s.blocks && cut.need == TABLE
    ensures !Smooth(s, start)
  {
    hide Served, Linked, LiveIn;
    var k: nat :| k < |s.blocks| && s.blocks[k] == cut.h;
  }

  // ---- steps of the methods ----

  lemma TakenSays(s: Snapshot, r: Snapshot, p: int, cut: Cut, request: int, align: bool)
    requires Taken(s, r, p, cut, request, align)
    ensures cut.Fine() && cut.need == request + OVERHEAD && cut.align == align && p == cut.Start() + HEADER
    ensures r.blocks == cut.After()
  {
  }

  lemma LoadLinked(r: Snapshot, t: Snapshot, slot: int)
    requires t.index == r.index && t.linked == r.linked + {slot} && 0 <= slot < SLOTS && slot !in r.linked
    ensures Load(t) == Load(r) - 1 && Unlinked(t.linked) < Unlinked(r.linked)
  {
    LinkOne(r.linked, slot);
  }

  lemma LinkedNone(linked: set<int>, end: int)
    ensures Linked(linked, end, PageMask(end))
  {
  }

  lemma LinkedPage(linked: set<int>, lo: int, i: int)
    requires Linked(linked, lo, PageMask(i)) && SlotOf(i) in linked && 0 <= i
    ensures Linked(linked, lo, PageMask(i + PAGE))
  {
    forall x | lo <= x < PageMask(i + PAGE)
      ensures SlotOf(x) in linked
    {
      if PageMask(i) <= x {
        assert x / PAGE == i / PAGE;
        assert SlotOf(x) == x / PAGE / (SLOT / PAGE);
      }
    }
  }

  lemma NotLinked(linked: set<int>, linked0: set<int>, lo: int, i: int, hi: int)
    requires SlotOf(i) !in linked && linked0 <= linked && lo <= i < hi
    ensures !Linked(linked, lo, hi) && !Linked(linked0, lo, hi) && Touches(lo, hi, SlotOf(i))
  {
  }

  lemma CoversPart(pages: set<int>, start: int, mid: int, end: int)
    requires Covers(pages, start, end) && mid <= end
    ensures Covers(pages, start, mid)
  {
  }

  lemma CoversPage(pages: set<int>, pages': set<int>, start: int, i: int)
    requires Covers(pages, start, PageMask(i)) && pages <= pages' && i / PAGE in pages'
    ensures Covers(pages', start, PageMask(i + PAGE))
  {
  }

  lemma SoundMore(m: seq<byte>, bs: seq<Block>, start: int, end: int, pages: set<int>, page: int)
    requires Sound(m, bs, start, end, pages)
    ensures Sound(m, bs, start, end, pages + {page})
  {
    hide Layout;
  }

  lemma MadeOnTheWay(r: Snapshot, t: Snapshot, slot: int, i: int)
    requires TableMade(r, t, slot) && slot !in r.linked && slot == SlotOf(i) && r.end <= i
    ensures t.end <= i && t.linked == r.linked + {slot} && t.linked != r.linked && r.end <= t.end
    ensures forall lo, hi | Linked(r.linked, lo, hi) :: Linked(t.linked, lo, hi)
  {
    assert slot in t.linked;
  }

  lemma EndlessHere(s: Snapshot, r: Snapshot, start: int, cut: Cut, hi: int)
    requires Along(s, r) && r.linked == s.linked && start <= s.end && hi == s.end + Growth(s.end - start, TABLE)
    requires !AnyFit(s.mem, s.index, TABLE, true) && !Linked(r.linked, s.end, hi)
    ensures Failed(Endless, s.blocks, r, start, cut, TABLE) && r == s
  {
  }

  lemma FailedAlong(outcome: Outcome, s: Snapshot, r: Snapshot, t: Snapshot, start: int, cut: Cut)
    requires Along(s, r) && Failed(outcome, r.blocks, t, start, cut, TABLE)
    ensures Failed(outcome, s.blocks, t, start, cut, TABLE)
  {
    hide Failed, Tabled, AnyFit;
    FailedBefore(outcome, s.blocks, r.blocks, t, start, cut, TABLE);
  }

  lemma LoadSame(r: Snapshot, t: Snapshot)
    requires t.index == r.index && t.linked == r.linked
    ensures Load(t) == Load(r)
  {
  }

  lemma NotLinkedUp(s: Snapshot, r: Snapshot, hi: int, outcome: Outcome)
    requires !Linked(r.linked, s.end, hi)
    ensures OneTable(s, r, hi, outcome)
  {
  }

  lemma DoneHere(s: Snapshot, r: Snapshot, hi: int)
    ensures OneTable(s, r, hi, Done)
  {
  }

  lemma LoadGrown(r: Snapshot, t: Snapshot)
    requires |t.index| == (if r.index == [] then 1 else |r.index|) && t.linked == r.linked
    ensures Load(t) == Load(r)
  {
  }

  lemma LoadAtMost(r: Snapshot)
    ensures Load(r) <= |r.index| + 1 + Unlinked(r.linked)
  {
  }

  lemma PreparedSays(s: Snapshot, before: seq<Block>, end: int, linked: set<int>, start: int, need: uint32, align: bool)
    requires start <= s.end && Prepared(s, before, end, linked, start, need, align)
    ensures LiveIn(s.blocks, before) && s.end <= end
  {
    hide AnyFit, Linked, GrownBy, Tabled, Grown, CanGrow, GrownLength;
  }

  lemma LoadSays(r: Snapshot)
    ensures |r.index| <= Load(r) && 1 <= Load(r)
  {
  }

  lemma LoadOneMore(r: Snapshot, t: Snapshot)
    requires |t.index| <= |r.index| + 1 && t.linked == r.linked
    ensures Load(t) <= Load(r) + 1
  {
  }

  lemma StuckSays(s: Snapshot, start: int)
    requires Stuck(s, start)
    ensures start <= s.end && !AnyFit(s.mem, s.index, TABLE, true) && s.end + Most(TABLE) < TWO_32
    ensures !Linked(s.linked, s.end, s.end + Growth(s.end - start, TABLE))
  {
  }

  lemma SmoothBelow(s: Snapshot, start: int)
    requires Smooth(s, start)
    ensures s.end + Most(TABLE) < TWO_32
  {
  }

  lemma GrownNone(bs: seq<Block>, end: int, extra: int)
    requires !AnyHole(bs)
    ensures CanGrow(bs) && Grown(bs, end, extra) == bs + [Block(end, extra, true)]
  {
  }

  // ---- which hole is carved ----

  // Entry `i` of the index passes the search, and none before it does.
  ghost predicate FitsFirst(m: seq<byte>, index: seq<uint32>, need: uint32, align: bool, i: nat) {
    && i < |index| && Readable(m, index) && Fits(m, index[i], need, align)
    && forall j | 0 <= j < i :: !Fits(m, index[j], need, align)
  }

  // On an index in order of size the hole that fits first is a smallest one that is large enough.
  lemma SmallestHole(s: Snapshot, start: int, need: uint32, i: nat, h: Block)
    requires Sane(s, start) && SizeOrdered(s.mem, s.index) && FitsFirst(s.mem, s.index, need, false, i)
    requires h in s.blocks && h.hole && h.pos == s.index[i]
    ensures need <= h.size && forall b | b in s.blocks && b.hole && need <= b.size :: h.size <= b.size
  {
    hide Layout, Indexed, Word;
    FirstFitIsBest(s.mem, s.index, i, need);
    forall b | b in s.blocks && b.hole
      ensures exists j :: 0 <= j < |s.index| && s.index[j] == b.pos && SizeAt(s.mem, s.index[j]) == b.size
    {
      var k: nat :| k < |s.blocks| && s.blocks[k] == b;
      var j := HoleIndexed(s.mem, s.index, s.blocks, k, start, s.end);
    }
  }

  // A hole that can be carved passes the search.
  lemma CarvableFits(s: Snapshot, start: int, b: Block, need: uint32, align: bool)
    requires Sane(s, start) && b in s.blocks && b.hole && Carvable(b, need, align) && need + 2 * PAGE < TWO_32
    ensures AnyFit(s.mem, s.index, need, align)
  {
    hide Layout, Indexed, Word;
    var k: nat :| k < |s.blocks| && s.blocks[k] == b;
    var j := HoleIndexed(s.mem, s.index, s.blocks, k, start, s.end);
    if align {
      AlignedFit(s.mem, s.index[j], need);
    }
    assert Fits(s.mem, s.index[j], need, align);
  }

  ghost predicate AllSmaller(bs: seq<Block>, need: int) {
    forall b | b in bs && b.hole :: b.size < need
  }

  // Tables leave smaller holes only.
  lemma {:induction false} TabledSmaller(bs: seq<Block>, bs': seq<Block>, n: nat, need: int)
    requires Tabled(bs, bs', n) && AllSmaller(bs, need)
    ensures AllSmaller(bs', need)
    decreases n
  {
    if n > 0 {
      var cut: Cut :| TableCut(cut) && Tabled(bs, cut.Before(), n - 1) && cut.After() == bs';
      TabledSmaller(bs, cut.Before(), n - 1, need);
      hide Tabled;
      CutSmaller(cut, need);
    }
  }

  lemma CutSmaller(cut: Cut, need: int)
    requires TableCut(cut) && AllSmaller(cut.Before(), need)
    ensures AllSmaller(cut.After(), need)
  {
    assert cut.h in cut.Before();
    forall b | b in cut.After() && b.hole
      ensures b.size < need
    {
      if b !in Carved(cut.h, cut.need, cut.Gap()) {
        assert b in cut.Before();
      }
    }
  }

  // After growth for an unaligned request the hole that grew is the one that is carved, and after growth that
  // made no table it is so for any request.
  lemma CarvesTheGrown(s: Snapshot, start: int, cut: Cut, end: int, linked: set<int>, need: uint32, align: bool)
    requires Sane(s, start) && !AnyFit(s.mem, s.index, need, align) && need + 2 * PAGE < TWO_32
    requires Prepared(s, cut.Before(), end, linked, start, need, align)
    requires cut.Fine() && cut.need == need && cut.align == align && (!align || linked == s.linked)
    ensures cut.c == []
  {
    hide AnyFit, Layout, Indexed, GrownBy, GrownLength, Linked, Tabled, FrontGap;
    var k := |cut.a|;
    assert cut.Before()[k] == cut.h;
    if linked == s.linked {
      if k < |cut.Before()| - 1 {
        assert cut.h == s.blocks[k];
        CarvableFits(s, start, cut.h, need, align);
      }
    } else {
      var mid :| CanGrow(mid) && cut.Before() == Grown(mid, s.end, end - s.end)
                 && Tabled(s.blocks, mid, |linked - s.linked|);
      NoneLarge(s, start, need);
      TabledSmaller(s.blocks, mid, |linked - s.linked|, need);
      OnlyLastLarge(mid, cut.Before(), s.end, end - s.end, k, need);
    }
  }

  lemma OnlyLastLarge(mid: seq<Block>, before: seq<Block>, end: int, extra: int, k: nat, need: int)
    requires AllSmaller(mid, need) && CanGrow(mid) && before == Grown(mid, end, extra)
    requires k < |before| && before[k].hole && need <= before[k].size
    ensures k == |before| - 1
  {
    assert k < |mid| ==> mid[k] in mid;
  }

  lemma NoneLarge(s: Snapshot, start: int, need: uint32)
    requires Sane(s, start) && !AnyFit(s.mem, s.index, need, false) && need + 2 * PAGE < TWO_32
    ensures AllSmaller(s.blocks, need)
  {
    hide AnyFit, Layout, Indexed;
    forall b | b in s.blocks && b.hole
      ensures b.size < need
    {
      if b.size >= need {
        CarvableFits(s, start, b, need, false);
      }
    }
  }
}
