/** Clients of the heap: over any run of allocations, writes and frees each finds in its bytes what it wrote. */
module HeapRuns {
  import opened Words
  import opened ByteMemory
  import opened HeapLayout
  import opened HeapCarving
  import opened HeapFreeing
  import opened HeapService
  import opened HeapTables
  import opened BoundaryTagHeap

  // `s` is what a client has at `p`, in a block of its own.
  ghost predicate Holding(m: seq<byte>, bs: seq<Block>, p: int, s: seq<byte>) {
    exists b :: b in bs && HeldIn(m, b, p, s)
  }

  ghost predicate HeldIn(m: seq<byte>, b: Block, p: int, s: seq<byte>) {
    && !b.hole && 0 <= b.pos && b.pos + HEADER == p && p + |s| + FOOTER <= b.End() <= |m|
    && m[p..p + |s|] == s
  }

  ghost predicate AllHeld(m: seq<byte>, bs: seq<Block>, mine: map<uint32, seq<byte>>) {
    forall p | p in mine :: Holding(m, bs, p, mine[p])
  }

  lemma KeptIn(m: seq<byte>, m': seq<byte>, b: Block, p: int, s: seq<byte>)
    requires HeldIn(m, b, p, s) && |m'| == |m| && m'[b.pos..b.End()] == m[b.pos..b.End()]
    ensures HeldIn(m', b, p, s)
  {
    forall x | p <= x < p + |s|
      ensures m'[x] == m[x]
    {
      assert m'[b.pos..b.End()][x - b.pos] == m[b.pos..b.End()][x - b.pos];
    }
  }

  // Blocks that stay live with their bytes stay with their clients.
  lemma KeptHeld(m: seq<byte>, m': seq<byte>, bs: seq<Block>, bs': seq<Block>, mine: map<uint32, seq<byte>>)
    requires AllHeld(m, bs, mine) && LiveKept(m, m', bs, bs')
    ensures AllHeld(m', bs', mine)
  {
    forall p | p in mine
      ensures Holding(m', bs', p, mine[p])
    {
      var b :| b in bs && HeldIn(m, b, p, mine[p]);
      KeptIn(m, m', b, p, mine[p]);
    }
  }

  // What two clients hold lies apart, headers and footers included.
  lemma HeldApart(m: seq<byte>, bs: seq<Block>, mine: map<uint32, seq<byte>>, p: uint32, q: uint32, start: int,
                  end: int)
    requires Layout(m, bs, start, end, end) && AllHeld(m, bs, mine) && p in mine && q in mine && p != q
    ensures p as int + |mine[p]| + OVERHEAD <= q || q as int + |mine[q]| + OVERHEAD <= p
  {
    hide Layout;
    var b :| b in bs && HeldIn(m, b, p, mine[p]);
    var c :| c in bs && HeldIn(m, c, q, mine[q]);
    var k: nat :| k < |bs| && bs[k] == b;
    LayoutAround(m, bs, k, start, end, end);
  }

  // A new grant is nobody else's.
  lemma GrantHeld(s: Snapshot, r: Snapshot, p: uint32, cut: Cut, request: nat, align: bool,
                  mine: map<uint32, seq<byte>>, start: int)
    requires Taken(s, r, p, cut, request, align) && LiveIn(s.blocks, cut.Before()) && Sane(r, start)
    requires AllHeld(s.mem, s.blocks, mine)
    ensures p !in mine && p as int + request <= |r.mem|
    ensures AllHeld(r.mem, r.blocks, mine[p := r.mem[p..p as int + request]])
  {
    hide Layout, Indexed, Carvable, Carved, AllHeld;
    LayoutBounds(r.mem, r.blocks, start, r.end, r.end);
    KeptHeld(s.mem, r.mem, s.blocks, r.blocks, mine);
    var nb :| nb in r.blocks && !nb.hole && nb.pos + HEADER == p && p + request + FOOTER <= nb.End()
              && forall b :: b in cut.Before() && !b.hole ==> b.End() <= nb.pos || nb.End() <= b.pos;
    GrantNew(s.mem, s.blocks, mine, nb, p, cut.Before());
    OneMoreHeld(r.mem, r.blocks, mine, nb, p, request);
  }

  lemma GrantNew(m: seq<byte>, bs: seq<Block>, mine: map<uint32, seq<byte>>, nb: Block, p: uint32, before: seq<Block>)
    requires AllHeld(m, bs, mine) && LiveIn(bs, before) && nb.pos + HEADER == p && nb.size > 0
    requires forall b :: b in before && !b.hole ==> b.End() <= nb.pos || nb.End() <= b.pos
    ensures p !in mine
  {
    forall q | q in mine
      ensures q != p
    {
      var b :| b in bs && HeldIn(m, b, q, mine[q]);
      assert b in before;
    }
  }

  lemma OneMoreHeld(m: seq<byte>, bs: seq<Block>, mine: map<uint32, seq<byte>>, nb: Block, p: uint32, request: nat)
    requires AllHeld(m, bs, mine) && nb in bs && !nb.hole && 0 <= nb.pos && nb.End() <= |m|
    requires nb.pos + HEADER == p && p + request + FOOTER <= nb.End()
    ensures p as int + request <= |m| && AllHeld(m, bs, mine[p := m[p..p as int + request]])
  {
    assert HeldIn(m, nb, p, m[p..p as int + request]);
  }

  lemma WriteHeld(m: seq<byte>, m': seq<byte>, bs: seq<Block>, mine: map<uint32, seq<byte>>, p: uint32, s: seq<byte>,
                  b: Block,
                  start: int, end: int)
    requires Layout(m, bs, start, end, end) && AllHeld(m, bs, mine) && p in mine && |s| == |mine[p]|
    requires b in bs && HeldIn(m, b, p, mine[p])
    requires SameOutside(m, m', p, p as int + |s|) && m'[p..p as int + |s|] == s
    ensures AllHeld(m', bs, mine[p := s])
  {
    hide Layout;
    forall q | q in mine
      ensures Holding(m', bs, q, mine[p := s][q])
    {
      if q == p {
        assert HeldIn(m', b, p, s);
      } else {
        HeldApart(m, bs, mine, p, q, start, end);
        var c :| c in bs && HeldIn(m, c, q, mine[q]);
        assert m'[q..q as int + |mine[q]|] == m[q..q as int + |mine[q]|];
        assert HeldIn(m', c, q, mine[q]);
      }
    }
  }

  // A free leaves every other live block alone.
  lemma OthersKept(m: seq<byte>, m': seq<byte>, bs: seq<Block>, k: nat, b: Block, start: int, end: int)
    requires 0 <= start && end <= |m| && Layout(m, bs, start, end, end) && Freeable(bs, k)
    requires SameOutside(m, m', MergedHole(bs, k).pos, MergedHole(bs, k).End())
    requires b in bs && !b.hole && b != bs[k]
    ensures b in Merged(bs, k) && 0 <= b.pos <= b.End() <= |m| && m'[b.pos..b.End()] == m[b.pos..b.End()]
  {
    hide Layout;
    var j: nat :| j < |bs| && bs[j] == b;
    LayoutAround(m, bs, j, start, end, end);
    LayoutAround(m, bs, k, start, end, end);
    if j < MergeLo(bs, k) {
      assert b in bs[..MergeLo(bs, k)];
    } else {
      assert j > MergeHi(bs, k) && bs[MergeHi(bs, k) + 1..][j - MergeHi(bs, k) - 1] == b;
    }
    ApartFromMerged(m, bs, k, b, start, end);
  }

  lemma ApartFromMerged(m: seq<byte>, bs: seq<Block>, k: nat, b: Block, start: int, end: int)
    requires Layout(m, bs, start, end, end) && Freeable(bs, k) && b in bs && !b.hole && b != bs[k]
    ensures b.End() <= MergedHole(bs, k).pos || MergedHole(bs, k).End() <= b.pos
  {
    hide Layout, HeaderOk, Sealed;
    Surroundings(m, bs, k, start, end);
    LayoutAround(m, bs, k, start, end, end);
    LayoutAround(m, bs, k + 1, start, end, end);
    if k > 0 {
      LayoutAround(m, bs, k - 1, start, end, end);
    }
  }

  lemma FreeHeld(m: seq<byte>, m': seq<byte>, bs: seq<Block>, k: nat, mine: map<uint32, seq<byte>>, p: uint32,
                 start: int, end: int)
    requires 0 <= start && end <= |m| && Layout(m, bs, start, end, end) && Freeable(bs, k) && AllHeld(m, bs, mine)
    requires SameOutside(m, m', MergedHole(bs, k).pos, MergedHole(bs, k).End()) && p == bs[k].pos + HEADER
    ensures AllHeld(m', Merged(bs, k), mine - {p})
  {
    hide Layout, Merged, MergedHole;
    var rest := mine - {p};
    forall q | q in rest
      ensures Holding(m', Merged(bs, k), q, rest[q])
    {
      var s := rest[q];
      var b :| b in bs && HeldIn(m, b, q, s);
      OthersKept(m, m', bs, k, b, start, end);
      KeptIn(m, m', b, q, s);
    }
  }

  // ---- frees that do not reach the end of the heap ----

  // The freed block, or a hole behind it, ends where the heap does.
  predicate ReachesEnd(m: seq<byte>, header: int, end: int) {
    && 0 <= header && header + HEADER <= |m|
    && var next := header + SizeAt(m, header);
    && (next == end || (next + HEADER <= |m| && m[next + 4] == 1 && next + SizeAt(m, next) == end))
  }

  lemma HolderAt(m: seq<byte>, bs: seq<Block>, mine: map<uint32, seq<byte>>, p: uint32) returns (k: nat)
    requires AllHeld(m, bs, mine) && p in mine
    ensures k < |bs| && !bs[k].hole && bs[k].pos + HEADER == p
  {
    var b :| b in bs && HeldIn(m, b, p, mine[p]);
    k :| k < |bs| && bs[k] == b;
  }

  lemma EndsInside(m: seq<byte>, bs: seq<Block>, k: nat, header: int, start: int, end: int)
    requires 0 <= start && end <= |m| && Layout(m, bs, start, end, end) && k < |bs| && !bs[k].hole
             && bs[k].pos == header
    requires !ReachesEnd(m, header, end)
    ensures Freeable(bs, k)
  {
    hide Layout, Word;
    LayoutSplit(m, bs, k, start, end, end);
    LayoutAround(m, bs, k, start, end, end);
    LastReaches(m, bs, k, start, end);
    if k + 1 < |bs| {
      Surroundings(m, bs, k, start, end);
      LastReaches(m, bs, k + 1, start, end);
    }
  }

  // ---- runs ----

  // What clients ask for.
  datatype Op = Take(request: uint32, align: bool) | Put(at: uint32, s: seq<byte>) | Give(at: uint32)

  // How a request, or a run of them, ends: done; not this client's to make; not covered here; with a hole that the
  // index does not list; or with an allocation that was not served.
  datatype Ending = Finished | Refused | Declined | Leaked | Unserved(outcome: Outcome)

  predicate Proper(mine: map<uint32, seq<byte>>, op: Op) {
    match op
    case Take(request, _) => request as int + OVERHEAD < TWO_32
    case Put(at, s) => at in mine && |s| == |mine[at]|
    case Give(at) => at in mine
  }

  // What a request makes of what the clients hold.
  ghost predicate Follows(mine: map<uint32, seq<byte>>, op: Op, mine': map<uint32, seq<byte>>) {
    match op
    case Take(request, align) =>
      exists p: uint32, s: seq<byte> ::
        && p !in mine && |s| == request && (align ==> p % PAGE == 0) && mine' == mine[p := s]
    case Put(at, s) => at in mine && mine' == mine[at := s]
    case Give(at) => at in mine && mine' == mine - {at}
  }

  // What the clients hold, from `mine` on, request after request.
  ghost predicate Traced(mine: map<uint32, seq<byte>>, ops: seq<Op>, states: seq<map<uint32, seq<byte>>>) {
    && |states| == |ops| + 1 && states[0] == mine
    && forall i | 0 <= i < |ops| :: Follows(states[i], ops[i], states[i + 1])
  }

  ghost function Latest(states: seq<map<uint32, seq<byte>>>): map<uint32, seq<byte>> {
    if states == [] then map[] else states[|states| - 1]
  }

  lemma TracedNone(mine: map<uint32, seq<byte>>)
    ensures Traced(mine, [], [mine])
  {
  }

  lemma TracedMore(mine: map<uint32, seq<byte>>, ops: seq<Op>, states: seq<map<uint32, seq<byte>>>, op: Op,
                   mine': map<uint32, seq<byte>>)
    requires Traced(mine, ops, states) && Follows(Latest(states), op, mine')
    ensures Traced(mine, ops + [op], states + [mine'])
  {
    hide Follows;
  }

  class Clients {
    const heap: Heap
    // What each granted address holds, for its client.
    var mine: map<uint32, seq<byte>>

    ghost predicate Valid()
      reads this, heap, heap.heapIndex, heap.heapIndex.slots
    {
      heap.Valid() && PAGE <= heap.heapEnd - heap.heapStart && AllHeld(heap.mem, heap.blocks, mine)
    }

    constructor (heap: Heap)
      requires heap.Valid() && PAGE <= heap.heapEnd - heap.heapStart
      ensures Valid() && this.heap == heap && mine == map[]
    {
      this.heap := heap;
      mine := map[];
    }

    // Ranges that are granted at the same time lie apart.
    lemma GrantsApart(p: uint32, q: uint32)
      requires Valid() && p in mine && q in mine && p != q
      ensures p as int + |mine[p]| + OVERHEAD <= q || q as int + |mine[q]| + OVERHEAD <= p
    {
      heap.SaneNow();
      HeldApart(heap.mem, heap.blocks, mine, p, q, heap.heapStart, heap.heapEnd);
    }

    method DoTake(request: uint32, align: bool) returns (outcome: Outcome, p: uint32)
      requires Valid() && request as int + OVERHEAD < TWO_32
      requires heap.heapIndex.size + SLOTS + 3 <= heap.heapIndex.slots.Length
      modifies this`mine, heap`mem, heap`blocks, heap`heapEnd, heap`requested, heap`linked, heap.heapIndex`size,
               heap.heapIndex.slots
      ensures outcome.Done? ==>
                && Valid() && p !in old(mine) && (align ==> p % PAGE == 0)
                && p as int + request <= |heap.mem| && mine == old(mine)[p := heap.mem[p..p as int + request]]
      ensures outcome.Done? && old(AnyFit(heap.mem, heap.heapIndex.Contents(), request + OVERHEAD, align)) ==>
                exists i: nat ::
                  && FitsFirst(old(heap.mem), old(heap.heapIndex.Contents()), request + OVERHEAD, align, i)
                  && p == old(heap.heapIndex.Contents())[i] + Front(old(heap.heapIndex.Contents())[i], align) + HEADER
    {
      hide AllHeld, Taken, Prepared, Failed, Load, Fits, FitsFirst, AnyFit, SizeOrdered, PagesWithin, Crossing;
      hide OneTable, Linked, Smooth, Stuck, Layout, Indexed, Sane, Front;
      ghost var s := heap.Snap();
      UnlinkedAtMost(heap.linked);
      LoadAtMost(s);
      ghost var cut;
      outcome, p, cut := heap.Alloc(request, align, false);
      if outcome.Done? {
        heap.SaneNow();
        PreparedSays(s, cut.Before(), heap.heapEnd, heap.linked, heap.heapStart, request + OVERHEAD, align);
        TakenSays(s, heap.Snap(), p, cut, request, align);
        GrantHeld(s, heap.Snap(), p, cut, request, align, mine, heap.heapStart);
        mine := mine[p := heap.mem[p..p as int + request]];
      }
    }

    method DoPut(p: uint32, s: seq<byte>)
      requires Valid() && p in mine && |s| == |mine[p]|
      modifies this`mine, heap`mem
      ensures Valid() && mine == old(mine)[p := s]
    {
      hide Layout, Indexed;
      heap.SaneNow();
      ghost var b :| b in heap.blocks && HeldIn(heap.mem, b, p, mine[p]);
      ghost var k: nat :| k < |heap.blocks| && heap.blocks[k] == b;
      var m := heap.mem[..p] + s + heap.mem[p as int + |s|..];
      assert m[p..p as int + |s|] == s;
      WriteHeld(heap.mem, m, heap.blocks, mine, p, s, b, heap.heapStart, heap.heapEnd);
      heap.ClientWrites(m, k);
      mine := mine[p := s];
    }

    // A free that does not reach the end of the heap.
    method DoGive(p: uint32) returns (kept: bool)
      requires Valid() && p in mine && heap.heapIndex.size < heap.heapIndex.slots.Length
      requires !ReachesEnd(heap.mem, p - HEADER, heap.heapEnd)
      modifies this`mine, heap`mem, heap`blocks, heap.heapIndex`size, heap.heapIndex.slots
      ensures kept <==> !old(Misled(heap.mem, heap.heapIndex.Contents(), p - HEADER))
      ensures kept ==> Valid() && mine == old(mine) - {p}
      ensures heap.heapIndex.Valid()
      ensures !kept ==> !Representable(heap.mem, heap.heapIndex.Contents(), heap.heapStart, heap.heapEnd)
    {
      hide Layout, Indexed, Misled, Merged, MergedHole, Representable, AllHeld, ReachesEnd;
      ghost var m, bs := heap.mem, heap.blocks;
      heap.SaneNow();
      ghost var k := HolderAt(m, bs, mine, p);
      EndsInside(m, bs, k, p - HEADER, heap.heapStart, heap.heapEnd);
      LayoutBounds(m, bs, heap.heapStart, heap.heapEnd, heap.heapEnd);
      assert bs[k] in bs;
      var misled := heap.IsMisled(p - HEADER);
      heap.Free(p, k);
      kept := !misled;
      if kept {
        FreeHeld(m, heap.mem, bs, k, mine, p, heap.heapStart, heap.heapEnd);
        mine := mine - {p};
      }
    }

    // One request, unless it is not a client's to make, is left out of the model, or goes wrong.
    method Do(op: Op) returns (end: Ending)
      requires Valid()
      modifies this`mine, heap`mem, heap`blocks, heap`heapEnd, heap`requested, heap`linked, heap.heapIndex`size,
               heap.heapIndex.slots
      ensures end.Finished? ==> Valid() && Follows(old(mine), op, mine)
      ensures end.Refused? ==> Valid() && mine == old(mine) && !Proper(mine, op)
      ensures end.Declined? ==>
                && Valid() && mine == old(mine)
                && (heap.heapIndex.size + SLOTS + 3 > heap.heapIndex.slots.Length
                    || (op.Give? && ReachesEnd(heap.mem, op.at - HEADER, heap.heapEnd)))
      ensures end.Leaked? ==> op.Give? && old(Misled(heap.mem, heap.heapIndex.Contents(), op.at - HEADER))
      ensures op.Give? ==> !end.Unserved?
    {
      hide AllHeld, Misled, Representable, ReachesEnd, Load;
      if !Proper(mine, op) {
        end := Refused;
      } else if heap.heapIndex.size + SLOTS + 3 > heap.heapIndex.slots.Length {
        end := Declined;
      } else {
        end := Finished;
        match op
        case Take(request, align) =>
          var outcome, p := DoTake(request, align);
          if !outcome.Done? {
            end := Unserved(outcome);
          } else {
            assert mine == old(mine)[p := mine[p]];
          }
        case Put(at, s) =>
          DoPut(at, s);
        case Give(at) =>
          if ReachesEnd(heap.mem, at - HEADER, heap.heapEnd) {
            end := Declined;
          } else {
            var kept := DoGive(at);
            end := if kept then Finished else Leaked;
          }
      }
    }

    // Any sequence of requests, up to the first that is not finished: each client finds what it last wrote.
    method Run(ops: seq<Op>) returns (end: Ending, n: nat, ghost states: seq<map<uint32, seq<byte>>>)
      requires Valid()
      modifies this`mine, heap`mem, heap`blocks, heap`heapEnd, heap`requested, heap`linked, heap.heapIndex`size,
               heap.heapIndex.slots
      ensures n <= |ops| && (end.Finished? <==> n == |ops|) && Traced(old(mine), ops[..n], states)
      ensures end.Finished? || end.Refused? || end.Declined? ==> Valid() && mine == Latest(states)
      ensures end.Refused? ==> !Proper(mine, ops[n])
      ensures end.Leaked? ==> ops[n].Give?
    {
      hide AllHeld, Follows, Proper, Traced, Sound, Indexed, ReachesEnd, Misled;
      end, n, states := Finished, 0, [mine];
      TracedNone(mine);
      while n < |ops|
        invariant n <= |ops| && Valid() && Traced(old(mine), ops[..n], states) && mine == Latest(states)
        invariant end.Finished?
      {
        end := Do(ops[n]);
        if !end.Finished? {
          return;
        }
        TracedMore(old(mine), ops[..n], states, ops[n], mine);
        assert ops[..n + 1] == ops[..n] + [ops[n]];
        states := states + [mine];
        n := n + 1;
      }
    }
  }
}
