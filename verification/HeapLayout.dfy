/**
 * The boundary-tag layout of the heap as a sequence of blocks, and what it means for bytes of memory
 * and an index of addresses to represent it.
 *
 * A block starts with a 12-byte header (magic, hole flag, size) and ends with an 8-byte footer
 * (magic, address of the header).
 */
module HeapLayout {
  import opened Words
  import opened ByteMemory

  const MAGIC: uint32 := 0xDEADBEEF
  const HEADER := 12
  const FOOTER := 8
  const OVERHEAD := HEADER + FOOTER

  datatype Block = Block(pos: int, size: int, hole: bool) {
    function End(): int { pos + size }
  }

  // ---- headers and footers in memory ----

  predicate HeaderAt(m: seq<byte>, p: int, size: int, hole: bool) {
    && 0 <= p && p + HEADER <= |m|
    && Word(m, p) == MAGIC && m[p + 4] == (if hole then 1 else 0) && Word(m, p + 8) == size
  }

  predicate FooterAt(m: seq<byte>, p: int, header: int) {
    0 <= p && p + FOOTER <= |m| && Word(m, p) == MAGIC && Word(m, p + 4) == header
  }

  function SizeAt(m: seq<byte>, p: int): int
    requires 0 <= p && p + HEADER <= |m|
  {
    Word(m, p + 8)
  }

  lemma HeaderStands(m: seq<byte>, m': seq<byte>, p: nat, size: int, hole: bool)
    requires HeaderAt(m, p, size, hole) && |m'| == |m|
    requires forall x :: p <= x < p + HEADER ==> m'[x] == m[x]
    ensures HeaderAt(m', p, size, hole)
  {
    WordStands(m, m', p);
    WordStands(m, m', p + 8);
  }

  lemma FooterStands(m: seq<byte>, m': seq<byte>, p: nat, header: int)
    requires FooterAt(m, p, header) && |m'| == |m|
    requires forall x :: p <= x < p + FOOTER ==> m'[x] == m[x]
    ensures FooterAt(m', p, header)
  {
    WordStands(m, m', p);
    WordStands(m, m', p + 4);
  }

  // Twelve bytes in front of a block and eight behind it, byte by byte.
  lemma HeaderBytes(m: seq<byte>, p: nat, size: uint32, hole: bool)
    requires p + 12 <= |m|
    ensures HeaderAt(m, p, size, hole) <==>
              && m[p..p + 4] == [0xEF, 0xBE, 0xAD, 0xDE] && m[p + 4] == (if hole then 1 else 0)
              && var w := m[p + 8..p + 12];
              size == w[0] as int + 0x100 * w[1] as int + 0x1_0000 * w[2] as int + 0x100_0000 * w[3] as int
  {
    MagicBytes(m, p);
    LittleEndianWord(m[p + 8..p + 12]);
  }

  lemma FooterBytes(m: seq<byte>, p: nat, header: uint32)
    requires p + 8 <= |m|
    ensures FooterAt(m, p, header) <==>
              && m[p..p + 4] == [0xEF, 0xBE, 0xAD, 0xDE]
              && var w := m[p + 4..p + 8];
              header == w[0] as int + 0x100 * w[1] as int + 0x1_0000 * w[2] as int + 0x100_0000 * w[3] as int
  {
    MagicBytes(m, p);
    LittleEndianWord(m[p + 4..p + 8]);
  }

  lemma MagicBytes(m: seq<byte>, p: nat)
    requires p + 4 <= |m|
    ensures Word(m, p) == MAGIC <==> m[p..p + 4] == [0xEF, 0xBE, 0xAD, 0xDE]
  {
    LittleEndianWord(m[p..p + 4]);
  }

  method WriteHeader(m: seq<byte>, p: nat, size: uint32, hole: bool) returns (m': seq<byte>)
    requires p + HEADER <= |m|
    ensures SameOutside(m, m', p, p + HEADER)
    ensures HeaderAt(m', p, size, hole)
  {
    var m1 := PutWord(m[p + 4 := if hole then 1 else 0], p, MAGIC);
    m' := PutWord(m1, p + 8, size);
    WordStands(m1, m', p);
  }

  method WriteFooter(m: seq<byte>, p: nat, header: uint32) returns (m': seq<byte>)
    requires p + FOOTER <= |m|
    ensures SameOutside(m, m', p, p + FOOTER)
    ensures FooterAt(m', p, header)
  {
    var m1 := PutWord(m, p, MAGIC);
    m' := PutWord(m1, p + 4, header);
    WordStands(m1, m', p);
  }

  // ---- layouts ----

  ghost predicate HeaderOk(m: seq<byte>, b: Block) { HeaderAt(m, b.pos, b.size, b.hole) }

  ghost predicate FooterOk(m: seq<byte>, b: Block) { FooterAt(m, b.End() - FOOTER, b.pos) }

  // What a right merge leaves: the footer names a former hole strictly inside the merged one.
  ghost predicate FooterStale(m: seq<byte>, b: Block) {
    && OVERHEAD <= b.size && 0 <= b.pos && b.End() <= |m|
    && var q := Word(m, b.End() - FOOTER + 4) as int;
    && Word(m, b.End() - FOOTER) == MAGIC
    && b.pos + OVERHEAD <= q && q + OVERHEAD <= b.End() && m[q + 4] == 1
  }

  // Every footer is right except, possibly, that of a hole that a right merge produced, and that of
  // a hole reaching the end of the heap (heap initialisation writes no footer there).
  ghost predicate Sealed(m: seq<byte>, b: Block, end: int) {
    FooterOk(m, b) || (b.hole && (FooterStale(m, b) || b.End() == end))
  }

  // Conjuncts (a) and (c): block after block the headers lead from `lo` to `hi` without a gap, each
  // block has room for its header and footer, and its footer is in order.
  ghost predicate Layout(m: seq<byte>, bs: seq<Block>, lo: int, hi: int, end: int) {
    if bs == [] then lo == hi
    else
      && bs[0].pos == lo && bs[0].size >= OVERHEAD
      && HeaderOk(m, bs[0]) && Sealed(m, bs[0], end)
      && Layout(m, bs[1..], bs[0].End(), hi, end)
  }

  ghost function Holes(bs: seq<Block>): multiset<int> {
    if bs == [] then multiset{} else HoleOf(bs[0]) + Holes(bs[1..])
  }

  // Conjunct (b): the index lists exactly the holes, each once.
  ghost predicate Indexed(index: seq<int>, bs: seq<Block>) {
    multiset(index) == Holes(bs)
  }

  lemma {:induction false} LayoutJoin(m: seq<byte>, a: seq<Block>, b: seq<Block>, lo: int, mid: int, hi: int, end: int)
    requires Layout(m, a, lo, mid, end) && Layout(m, b, mid, hi, end)
    ensures Layout(m, a + b, lo, hi, end)
  {
    hide HeaderOk, Sealed;
    if a == [] {
      assert a + b == b;
    } else {
      LayoutJoin(m, a[1..], b, a[0].End(), mid, hi, end);
      assert (a + b)[1..] == a[1..] + b;
    }
  }

  lemma {:induction false} LayoutSplit(m: seq<byte>, bs: seq<Block>, k: nat, lo: int, hi: int, end: int)
    requires Layout(m, bs, lo, hi, end) && k < |bs|
    ensures Layout(m, bs[..k], lo, bs[k].pos, end) && Layout(m, bs[k + 1..], bs[k].End(), hi, end)
    ensures HeaderOk(m, bs[k]) && Sealed(m, bs[k], end) && bs[k].size >= OVERHEAD
  {
    hide HeaderOk, Sealed;
    if k > 0 {
      LayoutSplit(m, bs[1..], k - 1, bs[0].End(), hi, end);
      assert bs[..k][1..] == bs[1..][..k - 1];
      assert bs[k + 1..] == bs[1..][k..];
    }
  }

  lemma {:induction false} LayoutBounds(m: seq<byte>, bs: seq<Block>, lo: int, hi: int, end: int)
    requires Layout(m, bs, lo, hi, end)
    ensures lo <= hi
    ensures forall b :: b in bs ==> lo <= b.pos && b.End() <= hi && b.size >= OVERHEAD
  {
    hide HeaderOk, Sealed;
    if bs != [] {
      LayoutBounds(m, bs[1..], bs[0].End(), hi, end);
    }
  }

  // Two layouts of the same memory between the same bounds are the same: the chain of headers
  // determines the blocks.
  lemma {:induction false} LayoutUnique(m: seq<byte>, bs: seq<Block>, cs: seq<Block>, lo: int, hi: int, end: int)
    requires Layout(m, bs, lo, hi, end) && Layout(m, cs, lo, hi, end)
    ensures bs == cs
  {
    hide Sealed, Word;
    LayoutBounds(m, bs, lo, hi, end);
    LayoutBounds(m, cs, lo, hi, end);
    if bs != [] && cs != [] {
      LayoutBounds(m, bs[1..], bs[0].End(), hi, end);
      LayoutUnique(m, bs[1..], cs[1..], bs[0].End(), hi, end);
    }
  }

  lemma {:induction false} HolesJoin(a: seq<Block>, b: seq<Block>)
    ensures Holes(a + b) == Holes(a) + Holes(b)
  {
    hide HoleOf;
    if a == [] {
      assert a + b == b;
    } else {
      HolesJoin(a[1..], b);
      assert (a + b)[0] == a[0] && (a + b)[1..] == a[1..] + b;
      assert Holes(a + b) == HoleOf(a[0]) + Holes(a[1..] + b);
    }
  }

  lemma HolesAround(a: seq<Block>, seg: seq<Block>, c: seq<Block>)
    ensures Holes(a + seg + c) == Holes(a) + Holes(seg) + Holes(c)
  {
    hide Holes;
    HolesJoin(a, seg);
    HolesJoin(a + seg, c);
  }

  function HoleOf(b: Block): multiset<int> { if b.hole then multiset{b.pos} else multiset{} }

  lemma HolesOne(b: Block)
    ensures Holes([b]) == HoleOf(b)
  {
    assert [b][1..] == [];
  }

  lemma HolesSplit(bs: seq<Block>, k: nat)
    requires k < |bs|
    ensures Holes(bs) == Holes(bs[..k]) + HoleOf(bs[k]) + Holes(bs[k + 1..])
  {
    hide Holes, HoleOf;
    assert bs == bs[..k] + [bs[k]] + bs[k + 1..];
    HolesAround(bs[..k], [bs[k]], bs[k + 1..]);
    HolesOne(bs[k]);
  }

  lemma {:induction false} HolesAre(bs: seq<Block>, p: int)
    ensures p in Holes(bs) <==> exists b :: b in bs && b.hole && b.pos == p
  {
    if bs != [] {
      HolesAre(bs[1..], p);
      assert forall b :: b in bs <==> b == bs[0] || b in bs[1..];
    }
  }

  lemma BlockStands(m: seq<byte>, m': seq<byte>, b: Block)
    requires 0 <= b.pos && b.End() <= |m| == |m'| && b.size >= OVERHEAD
    requires forall x :: b.pos <= x < b.End() ==> m'[x] == m[x]
    ensures HeaderOk(m', b) == HeaderOk(m, b)
    ensures FooterOk(m', b) == FooterOk(m, b)
    ensures FooterStale(m', b) == FooterStale(m, b)
  {
    WordStands(m, m', b.pos);
    WordStands(m, m', b.pos + 8);
    WordStands(m, m', b.End() - FOOTER);
    WordStands(m, m', b.End() - FOOTER + 4);
  }

  // Memory that agrees on [lo, hi) represents the same blocks there.
  lemma {:induction false} LayoutStands(m: seq<byte>, m': seq<byte>, bs: seq<Block>, lo: int, hi: int, end: int)
    requires Layout(m, bs, lo, hi, end) && 0 <= lo && hi <= |m| == |m'|
    requires forall x :: lo <= x < hi ==> m'[x] == m[x]
    ensures Layout(m', bs, lo, hi, end)
  {
    hide HeaderOk, FooterOk, FooterStale;
    if bs != [] {
      LayoutBounds(m, bs[1..], bs[0].End(), hi, end);
      BlockStands(m, m', bs[0]);
      LayoutStands(m, m', bs[1..], bs[0].End(), hi, end);
    }
  }

  lemma OneBlock(m: seq<byte>, b: Block, lo: int, hi: int, end: int)
    requires lo == b.pos && hi == b.End() && b.size >= OVERHEAD && HeaderOk(m, b) && Sealed(m, b, end)
    ensures Layout(m, [b], lo, hi, end)
  {
    hide HeaderOk, Sealed;
    assert Layout(m, [b][1..], hi, hi, end);
  }

  // Rewriting one stretch of memory leaves the layout on either side standing.
  lemma Splice(m: seq<byte>, m': seq<byte>, a: seq<Block>, seg: seq<Block>, c: seq<Block>,
               start: int, lo: int, hi: int, end: int)
    requires 0 <= start && end <= |m|
    requires Layout(m, a, start, lo, end) && Layout(m, c, hi, end, end)
    requires SameOutside(m, m', lo, hi)
    requires Layout(m', seg, lo, hi, end)
    ensures Layout(m', a + seg + c, start, end, end)
  {
    hide Layout;
    LayoutBounds(m, a, start, lo, end);
    LayoutBounds(m', seg, lo, hi, end);
    LayoutBounds(m, c, hi, end, end);
    LayoutStands(m, m', a, start, lo, end);
    LayoutStands(m, m', c, hi, end, end);
    LayoutJoin(m', a, seg, start, lo, hi, end);
    LayoutJoin(m', a + seg, c, start, hi, end, end);
  }

  ghost predicate AnyHole(bs: seq<Block>) { exists b :: b in bs && b.hole }

  // The end of the heap matters only to a hole that reaches it.
  lemma {:induction false} LayoutNewEnd(m: seq<byte>, bs: seq<Block>, lo: int, hi: int, end: int, end': int)
    requires Layout(m, bs, lo, hi, end) && (hi < end || !AnyHole(bs))
    ensures Layout(m, bs, lo, hi, end')
  {
    hide HeaderOk, FooterOk, FooterStale;
    if bs != [] {
      LayoutBounds(m, bs[1..], bs[0].End(), hi, end);
      LayoutNewEnd(m, bs[1..], bs[0].End(), hi, end, end');
    }
  }

  // Other blocks lie on either side of block `k`.
  lemma LayoutAround(m: seq<byte>, bs: seq<Block>, k: nat, lo: int, hi: int, end: int)
    requires Layout(m, bs, lo, hi, end) && k < |bs|
    ensures lo <= bs[k].pos && bs[k].End() <= hi
    ensures forall b :: b in bs ==> b.size >= OVERHEAD
    ensures forall b :: b in bs ==> b == bs[k] || b.End() <= bs[k].pos || bs[k].End() <= b.pos
  {
    hide Layout, HeaderOk, Sealed;
    LayoutBounds(m, bs, lo, hi, end);
    LayoutSplit(m, bs, k, lo, hi, end);
    LayoutBounds(m, bs[..k], lo, bs[k].pos, end);
    LayoutBounds(m, bs[k + 1..], bs[k].End(), hi, end);
    assert bs == bs[..k] + [bs[k]] + bs[k + 1..];
  }

  // Layouts that start alike stay alike as far as either goes.
  lemma {:induction false} LayoutPrefix(m: seq<byte>, a: seq<Block>, lo: int, p: int, bs: seq<Block>, hi: int, end: int)
    requires Layout(m, a, lo, p, end) && Layout(m, bs, lo, hi, end) && p < hi
    ensures |a| < |bs| && bs[..|a|] == a && bs[|a|].pos == p && HeaderOk(m, bs[|a|])
    ensures Layout(m, bs[|a| + 1..], bs[|a|].End(), hi, end)
  {
    hide Sealed, Word;
    if a != [] {
      LayoutBounds(m, a[1..], a[0].End(), p, end);
      LayoutPrefix(m, a[1..], a[0].End(), p, bs[1..], hi, end);
      assert bs[1..][|a| - 1] == bs[|a|] && bs[1..][|a|..] == bs[|a| + 1..];
      assert bs[..|a|] == [bs[0]] + bs[1..][..|a| - 1];
    }
  }
}
