/** The physical memory manager: one bit per 4 KiB frame in an array of 32-bit words. */
module FrameBitmap {
  import opened Words

  const BITS := 32
  const NO_FRAME: uint32 := 0xFFFF_FFFF

  function Index(n: nat): nat { n / BITS }

  function Offset(n: nat): bv32 { (n % BITS) as bv32 }

  predicate Bit(w: bv32, o: bv32)
    requires o < 32
  {
    (w >> o) & 1 != 0
  }

  // The frames that the words mark as taken.
  ghost function Used(words: seq<bv32>): set<nat> {
    set n: nat | n < BITS * |words| && Marked(words, n)
  }

  predicate Marked(words: seq<bv32>, n: nat)
    requires n < BITS * |words|
  {
    OffsetBound(n);
    Bit(words[Index(n)], Offset(n))
  }

  // ---- offsets as machine words ----

  lemma WordRoundTrip(x: int)
    requires 0 <= x < BITS
    ensures (x as bv32) as int == x
  {
  }

  lemma ShiftRoundTrip(x: int)
    requires 0 <= x < BITS
    ensures (x as bv32) as int == x && x as bv32 < 32
  {
    WordRoundTrip(x);
  }

  lemma OffsetBound(n: nat)
    ensures Offset(n) < 32
  {
    ShiftRoundTrip(n % BITS);
  }

  // A frame number is its word index and its bit offset.
  lemma FrameParts(a: nat, b: nat)
    ensures Index(a) == Index(b) && Offset(a) == Offset(b) <==> a == b
  {
    var x, y := a % BITS, b % BITS;
    ShiftRoundTrip(x);
    ShiftRoundTrip(y);
  }

  lemma OffsetOnto(i: nat, o: bv32) returns (n: nat)
    requires o < 32
    ensures Index(n) == i && Offset(n) == o && BITS * i <= n < BITS * i + BITS
  {
    var k := o as int;
    assert k as bv32 == o;
    n := BITS * i + k;
    assert n % BITS == k;
  }

  function ByteOffset(b: nat): (o: bv32)
    ensures o < 4 && o as int == b % 4
  {
    ShiftRoundTrip(b % 4);
    (b % 4) as bv32
  }

  // ---- bits inside one word ----

  function WithBit(w: bv32, o: bv32): bv32
    requires o < 32
  {
    w | (1 << o)
  }

  function WithoutBit(w: bv32, o: bv32): bv32
    requires o < 32
  {
    w & !(1 << o)
  }

  function WithoutByte(w: bv32, o: bv32): bv32
    requires o < 4
  {
    w & !(0xFF << (8 * o))
  }

  lemma BitOfWithBit(w: bv32, o: bv32, k: bv32)
    requires o < 32 && k < 32
    ensures Bit(WithBit(w, o), k) <==> k == o || Bit(w, k)
  {
  }

  lemma BitOfWithoutBit(w: bv32, o: bv32, k: bv32)
    requires o < 32 && k < 32
    ensures Bit(WithoutBit(w, o), k) <==> k != o && Bit(w, k)
  {
  }

  lemma BitOfWithoutByte(w: bv32, o: bv32, k: bv32)
    requires o < 4 && k < 32
    ensures Bit(WithoutByte(w, o), k) <==> k / 8 != o && Bit(w, k)
  {
  }

  predicate AgreeBelow(v: bv32, w: bv32, k: bv32)
    requires k <= 32
  {
    (v ^ w) & ((1 << k) - 1) == 0
  }

  lemma AgreeNext(v: bv32, w: bv32, k: bv32)
    requires k < 32 && AgreeBelow(v, w, k) && Bit(v, k) == Bit(w, k)
    ensures AgreeBelow(v, w, k + 1)
  {
  }

  lemma AgreeEnds(v: bv32, w: bv32)
    ensures AgreeBelow(v, w, 0)
    ensures AgreeBelow(v, w, 32) ==> v == w
  {
  }

  lemma {:induction false} AgreeUpTo(v: bv32, w: bv32, k: bv32)
    requires k <= 32 && forall o: bv32 :: o < 32 ==> Bit(v, o) == Bit(w, o)
    ensures AgreeBelow(v, w, k)
    decreases k
  {
    hide AgreeBelow, Bit;
    AgreeEnds(v, w);
    if k != 0 {
      AgreeUpTo(v, w, k - 1);
      assert Bit(v, k - 1) == Bit(w, k - 1);
      AgreeNext(v, w, k - 1);
    }
  }

  // Thirty-two bits determine a word.
  lemma SameBits(v: bv32, w: bv32)
    requires forall k: bv32 :: k < 32 ==> Bit(v, k) == Bit(w, k)
    ensures v == w
  {
    AgreeUpTo(v, w, 32);
    AgreeEnds(v, w);
  }

  // ---- the set of frames ----

  // The set of taken frames determines every word.
  lemma UsedDetermines(a: seq<bv32>, b: seq<bv32>)
    requires |a| == |b| && Used(a) == Used(b)
    ensures a == b
  {
    forall i | 0 <= i < |a|
      ensures a[i] == b[i]
    {
      forall o: bv32 | o < 32
        ensures Bit(a[i], o) == Bit(b[i], o)
      {
        var n := OffsetOnto(i, o);
        assert n in Used(a) <==> n in Used(b);
        assert Marked(a, n) == Marked(b, n);
      }
      SameBits(a[i], b[i]);
    }
  }

  lemma MarkedAfter(words: seq<bv32>, i: nat, w: bv32, m: nat)
    requires i < |words| && m < BITS * |words|
    ensures Offset(m) < 32
    ensures Marked(words[i := w], m) <==> if Index(m) == i then Bit(w, Offset(m)) else Marked(words, m)
  {
    OffsetBound(m);
  }

  lemma UsedAfterSet(words: seq<bv32>, n: nat)
    requires n < BITS * |words| && Offset(n) < 32
    ensures Used(words[Index(n) := WithBit(words[Index(n)], Offset(n))]) == Used(words) + {n}
  {
    hide Bit, Offset, WithBit;
    var i, o := Index(n), Offset(n);
    var w := WithBit(words[i], o);
    forall m: nat | m < BITS * |words|
      ensures Marked(words[i := w], m) <==> m == n || Marked(words, m)
    {
      MarkedAfter(words, i, w, m);
      FrameParts(n, m);
      BitOfWithBit(words[i], o, Offset(m));
    }
  }

  lemma UsedAfterClear(words: seq<bv32>, n: nat)
    requires n < BITS * |words| && Offset(n) < 32
    ensures Used(words[Index(n) := WithoutBit(words[Index(n)], Offset(n))]) == Used(words) - {n}
  {
    hide Bit, Offset, WithoutBit;
    var i, o := Index(n), Offset(n);
    var w := WithoutBit(words[i], o);
    forall m: nat | m < BITS * |words|
      ensures Marked(words[i := w], m) <==> m != n && Marked(words, m)
    {
      MarkedAfter(words, i, w, m);
      FrameParts(n, m);
      BitOfWithoutBit(words[i], o, Offset(m));
    }
  }

  lemma UsedAfterByte(words: seq<bv32>, b: nat, o: bv32)
    requires b < 4 * |words| && o < 4 && o as int == b % 4
    ensures var after := Used(words[b / 4 := WithoutByte(words[b / 4], o)]);
            forall n: nat :: n in after <==> n in Used(words) && !(8 * b <= n < 8 * b + 8)
  {
    hide Bit, Offset, WithoutByte;
    var i := b / 4;
    var w := WithoutByte(words[i], o);
    forall m: nat
      ensures m in Used(words[i := w]) <==> m in Used(words) && !(8 * b <= m < 8 * b + 8)
    {
      if m < BITS * |words| {
        MarkedAfter(words, i, w, m);
        ByteOf(m, b, o);
        BitOfWithoutByte(words[i], o, Offset(m));
      }
    }
  }

  // Byte b of the bitmap holds the frames 8b to 8b + 7.
  lemma ByteOf(m: nat, b: nat, o: bv32)
    requires o as int == b % 4
    ensures Index(m) == b / 4 && Offset(m) / 8 == o <==> 8 * b <= m < 8 * b + 8
  {
    var y := m % BITS;
    ShiftRoundTrip(y);
    EighthOf(y, Offset(m), o);
    ByteBounds(m, b);
  }

  lemma EighthOf(y: nat, k: bv32, o: bv32)
    requires y < BITS && k as int == y
    ensures k / 8 == o <==> y / 8 == o as int
  {
    assert (k / 8) as int == y / 8;
    assert (o as int) as bv32 == o;
  }

  lemma ByteBounds(m: nat, b: nat)
    ensures m / 32 == b / 4 && m % 32 / 8 == b % 4 <==> 8 * b <= m < 8 * b + 8
  {
  }

  // Freeing the frame that was just drawn restores every word.
  lemma SetThenClear(words: seq<bv32>, n: nat)
    requires n < BITS * |words| && !Marked(words, n) && Offset(n) < 32
    ensures var once := words[Index(n) := WithBit(words[Index(n)], Offset(n))];
            once[Index(n) := WithoutBit(once[Index(n)], Offset(n))] == words
  {
    hide Bit, Offset, WithBit, WithoutBit;
    var i, o := Index(n), Offset(n);
    var once := words[i := WithBit(words[i], o)];
    UsedAfterSet(words, n);
    UsedAfterClear(once, n);
    UsedDetermines(once[i := WithoutBit(once[i], o)], words);
  }

  // The scan of `GetFirstFreeBlock` over a set of frames.
  function FirstFree(used: set<nat>, i: nat, count: nat): (r: nat)
    requires i <= count <= NO_FRAME
    ensures r == NO_FRAME <==> forall n :: i <= n < count ==> n in used
    ensures r != NO_FRAME ==> i <= r < count && r !in used && forall n :: i <= n < r ==> n in used
    decreases count - i
  {
    if i == count then NO_FRAME else if i !in used then i else FirstFree(used, i + 1, count)
  }

  // Whether the next draw stays below a bound, and which frame it takes then, depends only on the
  // frames below that bound.
  lemma {:induction false} FirstFreeLow(taken: set<nat>, other: set<nat>, i: nat, count: nat, bound: nat)
    requires i <= bound <= count <= NO_FRAME
    requires forall n: nat :: n < bound ==> (n in other <==> n in taken)
    ensures FirstFree(taken, i, count) < bound <==> FirstFree(other, i, count) < bound
    ensures FirstFree(taken, i, count) < bound ==> FirstFree(other, i, count) == FirstFree(taken, i, count)
    decreases bound - i
  {
    if i < bound && i in taken {
      FirstFreeLow(taken, other, i + 1, count, bound);
    }
  }

  class FrameAllocator {
    var words: array<bv32>
    var count: nat
    var memSize: nat

    ghost predicate Valid()
      reads this
    {
      words.Length == memSize && count == BITS * memSize <= NO_FRAME
    }

    ghost function TakenFrames(): set<nat>
      reads this, words
    {
      Used(words[..])
    }

    // `Init`: the words take `memSize` entries, but `Clear` zeroes that many bytes.
    constructor (physical: uint32, memory: array<bv32>)
      requires memory.Length == physical / PAGE / BITS
      modifies memory
      ensures Valid() && words == memory && count == BITS * memory.Length
      ensures forall n :: n in TakenFrames() <==> n in old(Used(memory[..])) && 8 * memory.Length <= n
    {
      words := memory;
      memSize := physical / PAGE / BITS;
      count := physical / PAGE / BITS * BITS;
      new;
      Clear();
    }

    method ClearByte(b: nat)
      requires Valid() && b < 4 * memSize
      modifies words
      ensures Valid()
      ensures forall n :: n in TakenFrames() <==> n in old(TakenFrames()) && !(8 * b <= n < 8 * b + 8)
    {
      hide WithoutByte;
      ghost var before := words[..];
      var o := ByteOffset(b);
      UsedAfterByte(before, b, o);
      words[b / 4] := WithoutByte(words[b / 4], o);
      assert words[..] == before[b / 4 := words[b / 4]];
    }

    method Clear()
      requires Valid()
      modifies words
      ensures Valid()
      ensures forall n :: n in TakenFrames() <==> n in old(TakenFrames()) && 8 * memSize <= n
    {
      var b := 0;
      while b < memSize
        invariant b <= memSize
        invariant forall n :: n in TakenFrames() <==> n in old(TakenFrames()) && 8 * b <= n
      {
        ClearByte(b);
        b := b + 1;
      }
    }

    // The test of the search: a shift and a mask.
    method IsFree(n: nat) returns (b: bool)
      requires Valid() && n < count
      ensures b <==> n !in TakenFrames()
    {
      OffsetBound(n);
      assert words[..][Index(n)] == words[Index(n)];
      b := (words[Index(n)] >> Offset(n)) & 1 == 0;
    }

    method GetFirstFreeBlock() returns (frame: uint32)
      requires Valid()
      ensures frame == FirstFree(TakenFrames(), 0, count)
    {
      var i := 0;
      while i < count
        invariant i <= count
        invariant FirstFree(TakenFrames(), 0, count) == FirstFree(TakenFrames(), i, count)
      {
        var free := IsFree(i);
        if free {
          return i;
        }
        i := i + 1;
      }
      return NO_FRAME;
    }

    // The words behind the reserved `memSize` bytes are storage of other objects as well: of the
    // directory and the tables that the placement allocator hands out next.
    method Scribble()
      requires Valid()
      modifies words
      ensures Valid() && forall n: nat :: n < 8 * memSize ==> (n in TakenFrames() <==> n in old(TakenFrames()))
    {
      var n := 8 * memSize;
      while n < count
        invariant 8 * memSize <= n <= count && Valid()
        invariant forall k: nat :: k < 8 * memSize ==> (k in TakenFrames() <==> k in old(TakenFrames()))
      {
        if * {
          Mark(n);
        } else {
          FreeBlock(n);
        }
        n := n + 1;
      }
    }

    method Mark(frame: uint32)
      requires Valid() && frame < count
      modifies words
      ensures Valid() && TakenFrames() == old(TakenFrames()) + {frame as nat}
    {
      hide Offset, WithBit, WithoutBit;
      ghost var before := words[..];
      OffsetBound(frame);
      var index, offset := Index(frame), Offset(frame);
      UsedAfterSet(before, frame);
      words[index] := WithBit(words[index], offset);
      assert words[..] == before[index := words[index]];
    }

    // Out of frames, the code writes far past the bitmap, so a free frame must exist.
    method AllocateBlock() returns (frame: uint32)
      requires Valid() && exists n :: 0 <= n < count && n !in TakenFrames()
      modifies words
      ensures Valid() && frame < count
      ensures frame !in old(TakenFrames()) && forall n :: 0 <= n < frame ==> n in old(TakenFrames())
      ensures frame == FirstFree(old(TakenFrames()), 0, count)
      ensures TakenFrames() == old(TakenFrames()) + {frame as nat}
    {
      frame := GetFirstFreeBlock();
      Mark(frame);
    }

    method FreeBlock(frame: uint32)
      requires Valid() && frame < count
      modifies words
      ensures Valid() && TakenFrames() == old(TakenFrames()) - {frame as nat}
    {
      hide Offset, WithBit, WithoutBit;
      ghost var before := words[..];
      OffsetBound(frame);
      var index, offset := Index(frame), Offset(frame);
      UsedAfterClear(before, frame);
      words[index] := WithoutBit(words[index], offset);
      assert words[..] == before[index := words[index]];
    }
  }
}
