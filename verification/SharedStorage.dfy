/**
 * The bitmap addresses four times the bytes it reserves, so the directory that is allocated next lies in
 * its words. What a draw beyond the reserved bits does to that directory, and exactly when.
 */
module SharedStorage {
  import opened Words
  import opened FrameBitmap
  import opened PageTables
  import opened PageOwnership
  import opened Bootstrap

  // ---- a directory entry as a word ----

  // The fields of an entry in its 32-bit word; the code reads no other bit.
  function Decode(w: bv32): DirEntry {
    DirEntry(Bit(w, 0), Bit(w, 1), Bit(w, 2), Bit(w, 7), FrameField(w) as int)
  }

  function FrameField(w: bv32): bv20 {
    (w >> 12) as bv20
  }

  // Setting a clear bit changes the presence of an entry if it is bit 0, and its frame if it is one of the
  // upper twenty.
  lemma SetBitDecodes(w: bv32, o: bv32)
    requires o < 32 && !Bit(w, o)
    ensures Decode(WithBit(w, o)).present <==> o == 0 || Decode(w).present
    ensures Decode(WithBit(w, o)).frame == Decode(w).frame <==> o < 12
  {
    hide Bit, WithBit, FrameField;
    BitOfWithBit(w, o, 0);
    FrameWord(w, o);
    SameNumber(FrameField(WithBit(w, o)), FrameField(w));
  }

  lemma SameNumber(a: bv20, b: bv20)
    ensures a as int == b as int <==> a == b
  {
    assert (a as int) as bv20 == a && (b as int) as bv20 == b;
  }

  lemma FrameWord(w: bv32, o: bv32)
    requires o < 32 && !Bit(w, o)
    ensures FrameField(WithBit(w, o)) == FrameField(w) <==> o < 12
  {
  }

  // ---- the directory in the bitmap's words ----

  // A directory as the words from `at` on hold it: the processor's entries, and behind them the code's pointers.
  function Decoded(words: seq<bv32>, at: nat): Directory
    requires at + 2 * ENTRIES <= |words|
  {
    var entries: seq<DirEntry> := seq(ENTRIES, i requires 0 <= i < ENTRIES => Decode(words[at + i]));
    var refs: seq<uint32> := seq(ENTRIES, i requires 0 <= i < ENTRIES => words[at + ENTRIES + i] as int);
    Directory(entries, refs)
  }

  // The bitmap's words from `at` on are directory d.
  ghost predicate Overlaps(m: Machine, d: uint32, words: seq<bv32>, at: nat)
    requires Shaped(m)
  {
    && d in m.dirs && at + 2 * ENTRIES <= |words| && m.taken == Used(words) && m.frames == BITS * |words|
    && m.dirs[d] == Decoded(words, at)
  }

  // `AllocateBlock` on the shared words.
  function WordsAfter(words: seq<bv32>, f: nat): (r: seq<bv32>)
    requires f < BITS * |words|
    ensures |r| == |words|
  {
    OffsetBound(f);
    words[Index(f) := WithBit(words[Index(f)], Offset(f))]
  }

  // Entry i of a directory's contents `c`: the processor finds a table exactly if the code does, and the same.
  ghost predicate InStep(m: Machine, c: Directory, i: nat)
    requires Shaped(m) && i < ENTRIES
  {
    var e, t := c.tables[i], c.refs[i];
    (e.present <==> t != 0) && (t != 0 ==> t in m.tables && e.frame * PAGE == Physical(m, t))
  }

  lemma LinkedInStep(m: Machine, d: uint32, i: nat)
    requires Shaped(m) && d in m.dirs && i < ENTRIES
    ensures InStep(m, m.dirs[d], i) <==> Linked(m, d, i)
  {
    hide Physical;
  }

  // No two tables lie on the same frame.
  ghost predicate Apart(m: Machine)
    requires Shaped(m)
  {
    forall t, u | t in m.tables && u in m.tables && Physical(m, t) == Physical(m, u) :: t == u
  }

  lemma InvApart(m: Machine, drawn: set<Slot>)
    requires Inv(m, drawn)
    ensures Apart(m)
  {
    hide Physical, Coherent, Homes, Owned, OneIndex;
    forall t, u | t in m.tables && u in m.tables && Physical(m, t) == Physical(m, u)
      ensures t == u
    {
      TablesApart(m, drawn, t, u);
    }
  }

  // The frame's bit lies outside the directory, or is one of an entry that nobody needs to agree on.
  predicate Harmless(c: Directory, at: nat, f: nat) {
    var i := Index(f) - at;
    if 0 <= i < ENTRIES then (if c.refs[i] == 0 then f % BITS != 0 else f % BITS < 12)
    else !(ENTRIES <= i < 2 * ENTRIES)
  }

  // What a bit does to entry i.
  predicate HarmlessTo(c: Directory, at: nat, f: nat, i: nat)
    requires i < ENTRIES
  {
    && (Index(f) == at + i ==> if c.refs[i] == 0 then f % BITS != 0 else f % BITS < 12)
    && Index(f) != at + ENTRIES + i
  }

  lemma DrawnEntry(m: Machine, words: seq<bv32>, at: nat, i: nat, f: nat)
    requires Shaped(m) && at + 2 * ENTRIES <= |words| && i < ENTRIES && f < BITS * |words| && f !in Used(words)
    requires InStep(m, Decoded(words, at), i) && Apart(m)
    ensures InStep(m, Decoded(WordsAfter(words, f), at), i) <==> HarmlessTo(Decoded(words, at), at, f, i)
  {
    hide Bit, WithBit, Offset, Decode, Physical, Used, Index, Apart, Decoded, InStep, WordsAfter;
    var c, c' := Decoded(words, at), Decoded(WordsAfter(words, f), at);
    EntryAfter(words, at, i, f);
    FreeBit(words, f);
    OffsetNumber(f);
    if Index(f) == at + i {
      SetBitDecodes(words[at + i], Offset(f));
      ChangedEntry(m, c, c', i);
    } else if Index(f) == at + ENTRIES + i {
      SetBitMoves(words[at + ENTRIES + i], Offset(f));
      MovedRef(m, c, c', i);
    } else {
      SameEntry(m, c, c', i);
    }
  }

  // One bit more: in one word of the directory at most.
  lemma EntryAfter(words: seq<bv32>, at: nat, i: nat, f: nat)
    requires at + 2 * ENTRIES <= |words| && i < ENTRIES && f < BITS * |words|
    ensures Index(f) < |words|
    ensures var c, c' := Decoded(words, at), Decoded(WordsAfter(words, f), at);
            && c.tables[i] == Decode(words[at + i]) && c.refs[i] == words[at + ENTRIES + i] as int
            && c'.tables[i] == (if Index(f) == at + i then Decode(WithBit(words[at + i], Offset(f))) else c.tables[i])
            && c'.refs[i] == (if Index(f) == at + ENTRIES + i then WithBit(words[at + ENTRIES + i], Offset(f)) as int
                              else c.refs[i])
  {
    hide Bit, WithBit, Offset, Decode;
    OffsetBound(f);
  }

  // Presence and frame decide.
  lemma ChangedEntry(m: Machine, c: Directory, c': Directory, i: nat)
    requires Shaped(m) && i < ENTRIES && InStep(m, c, i) && c'.refs[i] == c.refs[i]
    ensures InStep(m, c', i) <==>
            && (c'.tables[i].present <==> c.tables[i].present)
            && (c.tables[i].present ==> c'.tables[i].frame == c.tables[i].frame)
    ensures c.tables[i].present <==> c.refs[i] != 0
  {
    hide Physical;
  }

  lemma SameEntry(m: Machine, c: Directory, c': Directory, i: nat)
    requires Shaped(m) && i < ENTRIES && InStep(m, c, i) && c'.refs[i] == c.refs[i] && c'.tables[i] == c.tables[i]
    ensures InStep(m, c', i)
  {
    hide Physical;
  }

  lemma MovedRef(m: Machine, c: Directory, c': Directory, i: nat)
    requires Shaped(m) && i < ENTRIES && Apart(m) && InStep(m, c, i)
    requires c'.tables[i] == c.tables[i] && c'.refs[i] != c.refs[i] && c'.refs[i] != 0
    ensures !InStep(m, c', i)
  {
    hide Physical;
  }

  lemma SetBitMoves(w: bv32, o: bv32)
    requires o < 32 && !Bit(w, o)
    ensures WithBit(w, o) as int != 0 && WithBit(w, o) as int != w as int
  {
    hide Bit, WithBit;
    BitOfWithBit(w, o, o);
    ZeroWord();
    SameWord(WithBit(w, o), w);
    SameWord(WithBit(w, o), 0);
  }

  lemma SameWord(a: bv32, b: bv32)
    ensures a as int == b as int <==> a == b
  {
    assert (a as int) as bv32 == a && (b as int) as bv32 == b;
  }

  lemma ZeroWord()
    ensures (0 as bv32) as int == 0 && forall o: bv32 :: o < 32 ==> !Bit(0, o)
  {
  }

  // Exactly when a draw keeps the processor's copy of a directory in step with the code's.
  lemma DrawKeepsDirectory(m: Machine, d: uint32, words: seq<bv32>, at: nat)
    requires Shaped(m) && Overlaps(m, d, words, at) && FirstFree(m.taken, 0, m.frames) != NO_FRAME && Apart(m)
    requires forall i | 0 <= i < ENTRIES :: Linked(m, d, i)
    ensures var f := FirstFree(m.taken, 0, m.frames);
            (forall i | 0 <= i < ENTRIES :: InStep(m, Decoded(WordsAfter(words, f), at), i))
            <==> Harmless(m.dirs[d], at, f)
  {
    hide Linked, Decode, FirstFree, InStep, WordsAfter, Physical, Apart, Index, HarmlessTo;
    var f := FirstFree(m.taken, 0, m.frames);
    var after := Decoded(WordsAfter(words, f), at);
    forall i | 0 <= i < ENTRIES
      ensures InStep(m, after, i) <==> HarmlessTo(m.dirs[d], at, f, i)
    {
      LinkedInStep(m, d, i);
      DrawnEntry(m, words, at, i, f);
    }
    HarmlessToAll(m.dirs[d], at, f);
  }

  lemma HarmlessToAll(c: Directory, at: nat, f: nat)
    ensures Harmless(c, at, f) <==> forall i | 0 <= i < ENTRIES :: HarmlessTo(c, at, f, i)
  {
    hide Index;
    var i := Index(f) - at;
    if 0 <= i < ENTRIES {
      assert HarmlessTo(c, at, f, i) <==> Harmless(c, at, f);
    } else if ENTRIES <= i < 2 * ENTRIES {
      assert !HarmlessTo(c, at, f, i - ENTRIES);
    }
  }

  lemma FreeBit(words: seq<bv32>, f: nat)
    requires f < BITS * |words| && f !in Used(words)
    ensures Offset(f) < 32 && !Bit(words[Index(f)], Offset(f))
  {
    OffsetBound(f);
    assert !Marked(words, f);
  }

  // ---- when the frames below the directory run out ----

  ghost function Draws(words: seq<bv32>, k: nat): (r: seq<bv32>)
    requires BITS * |words| <= NO_FRAME
    ensures |r| == |words|
    decreases k
  {
    var f := FirstFree(Used(words), 0, BITS * |words|);
    if k == 0 || f == NO_FRAME then words else Draws(WordsAfter(words, f), k - 1)
  }

  lemma FirstFreeBetween(taken: set<nat>, low: nat, c: nat, count: nat)
    requires low <= c < count <= NO_FRAME && c !in taken && forall n: nat :: n < low ==> n in taken
    ensures low <= FirstFree(taken, 0, count) <= c
  {
  }

  // With every frame below word i of the directory taken, and that entry missing or its frame field not
  // all ones, at most thirteen draws later the processor's entry is not the code's any more.
  lemma {:induction false} DrawsBreak(m: Machine, words: seq<bv32>, at: nat, i: nat, c: nat) returns (k: nat)
    requires Shaped(m) && Apart(m) && at + 2 * ENTRIES <= |words| && BITS * |words| <= NO_FRAME && i < ENTRIES
    requires InStep(m, Decoded(words, at), i)
    requires forall n: nat :: n < BITS * (at + i) ==> n in Used(words)
    requires c !in Used(words) && BITS * (at + i) <= c < BITS * (at + i) + BITS
    requires Decoded(words, at).refs[i] != 0 ==> BITS * (at + i) + 12 <= c
    ensures BITS * (at + i) <= FirstFree(Used(words), 0, BITS * |words|) <= c
    ensures var o := FirstFree(Used(words), 0, BITS * |words|) - BITS * (at + i); 1 <= k <= if o < 12 then 13 - o else 1
    ensures !InStep(m, Decoded(Draws(words, k), at), i)
    decreases c - FirstFree(Used(words), 0, BITS * |words|)
  {
    hide Decode, FirstFree, WordsAfter, Bit, Physical, Apart, InStep, Used;
    var low, count := BITS * (at + i), BITS * |words|;
    FirstFreeBetween(Used(words), low, c, count);
    var f := FirstFree(Used(words), 0, count);
    assert Index(f) == at + i && f % BITS == f - low;
    DrawnEntry(m, words, at, i, f);
    var after := WordsAfter(words, f);
    if Decoded(words, at).refs[i] == 0 {
      NotPresent(m, words, at, i);
      FirstFreeBetween(Used(words), low, low, count);
    }
    k := 1;
    assert Draws(words, 1) == Draws(after, 0);
    if Decoded(words, at).refs[i] != 0 && f - low < 12 {
      DrawTakes(words, f);
      SameRef(words, at, i, f);
      FirstFreeAbove(Used(after), f + 1, count);
      var j := DrawsBreak(m, after, at, i, c);
      k := j + 1;
    }
  }

  lemma NotPresent(m: Machine, words: seq<bv32>, at: nat, i: nat)
    requires Shaped(m) && at + 2 * ENTRIES <= |words| && i < ENTRIES
    requires InStep(m, Decoded(words, at), i) && Decoded(words, at).refs[i] == 0
    ensures BITS * (at + i) !in Used(words)
  {
    hide Bit, Physical;
    var n := BITS * (at + i);
    assert Index(n) == at + i && Offset(n) == 0;
    assert !Decode(words[at + i]).present;
    assert !Marked(words, n);
  }

  lemma SameRef(words: seq<bv32>, at: nat, i: nat, f: nat)
    requires at + 2 * ENTRIES <= |words| && i < ENTRIES && f < BITS * |words| && Index(f) == at + i
    ensures Decoded(WordsAfter(words, f), at).refs[i] == Decoded(words, at).refs[i]
  {
    hide Decode, WithBit;
  }

  lemma DrawTakes(words: seq<bv32>, f: nat)
    requires BITS * |words| <= NO_FRAME && f == FirstFree(Used(words), 0, BITS * |words|) && f != NO_FRAME
    ensures Used(WordsAfter(words, f)) == Used(words) + {f}
    ensures forall n: nat :: n <= f ==> n in Used(WordsAfter(words, f))
  {
    UsedAfterSet(words, f);
  }

  // All frames below `low` taken, the next draw is not below it.
  lemma FirstFreeAbove(taken: set<nat>, low: nat, count: nat)
    requires low <= count <= NO_FRAME && forall n: nat :: n < low ==> n in taken
    ensures FirstFree(taken, 0, count) >= low
  {
  }

  lemma OffsetNumber(f: nat)
    ensures Offset(f) < 32 && (Offset(f) == 0 <==> f % BITS == 0) && (Offset(f) < 12 <==> f % BITS < 12)
  {
    hide Index;
    var x := f % BITS;
    ShiftRoundTrip(x);
    BelowTwelve(x);
    assert (0 as bv32) as int == 0;
  }

  lemma BelowTwelve(x: int)
    requires 0 <= x < BITS
    ensures x as bv32 < 12 <==> x < 12
  {
  }

  // ---- after boot ----

  lemma AllOnes(w: bv32)
    requires forall o: bv32 | 12 <= o < 32 :: Bit(w, o)
    ensures FrameField(w) as int == 0xF_FFFF
  {
    assert Bit(w, 12) && Bit(w, 13) && Bit(w, 14) && Bit(w, 15) && Bit(w, 16) && Bit(w, 17) && Bit(w, 18) && Bit(w, 19);
    assert Bit(w, 20) && Bit(w, 21) && Bit(w, 22) && Bit(w, 23) && Bit(w, 24) && Bit(w, 25) && Bit(w, 26) && Bit(w, 27);
    assert Bit(w, 28) && Bit(w, 29) && Bit(w, 30) && Bit(w, 31);
    assert FrameField(w) == 0xF_FFFF;
  }

  // A frame field that is not all ones has a clear bit.
  lemma ClearBit(w: bv32) returns (o: bv32)
    requires FrameField(w) as int < 0xF_FFFF
    ensures 12 <= o < 32 && !Bit(w, o)
  {
    hide Bit, FrameField;
    if forall o: bv32 | 12 <= o < 32 :: Bit(w, o) {
      AllOnes(w);
    }
    o :| 12 <= o < 32 && !Bit(w, o);
  }

  lemma {:induction false} StaysEnabled(m: Machine, drawn: set<Slot>, events: seq<Event>)
    requires Runs(m, drawn, events)
    ensures var r := End(m, drawn, events).0;
            r.enabled == m.enabled && r.reserved == m.reserved && r.kernelDir == m.kernelDir
    decreases |events|
  {
    hide Allowed, DrawnAfter;
    if events != [] {
      StepEnabled(m, drawn, events[0]);
      StaysEnabled(Step(m, drawn, events[0]), DrawnAfter(m, drawn, events[0]), events[1..]);
    }
  }

  lemma StepEnabled(m: Machine, drawn: set<Slot>, e: Event)
    requires Allowed(m, drawn, e)
    ensures var r := Step(m, drawn, e); r.enabled == m.enabled && r.reserved == m.reserved && r.kernelDir == m.kernelDir
  {
    hide Hi, Lo, Virtual2Physical, FirstFree, AllocatePage, Allowed;
    AllowedShaped(m, drawn, e);
    match e
    case Draw(d, p) => PageEnabled(m, d, p, 0);
    case Pin(d, p, frame) => PageEnabled(m, d, p, frame);
    case _ =>
  }

  lemma AllowedShaped(m: Machine, drawn: set<Slot>, e: Event)
    requires Allowed(m, drawn, e)
    ensures Shaped(m)
    ensures e.Draw? ==> Page(m, e.d, e.p)
    ensures e.Pin? ==> Page(m, e.d, e.p)
  {
  }

  lemma PageEnabled(m: Machine, d: uint32, p: nat, frame: uint32)
    requires Shaped(m) && Page(m, d, p)
    ensures var r := AllocatePage(m, d, p, frame);
            r.enabled == m.enabled && r.reserved == m.reserved && r.kernelDir == m.kernelDir
  {
    hide Hi, Lo, Virtual2Physical, FirstFree;
  }

  // A linked entry names a frame below the reserved bound.
  lemma EntryFrame(m: Machine, drawn: set<Slot>, i: nat)
    requires Inv(m, drawn) && m.enabled && i < ENTRIES && m.dirs[m.kernelDir].refs[i] != 0
    ensures m.dirs[m.kernelDir].tables[i].frame < m.reserved
  {
    hide Hi, Lo, OneIndex, DistinctFrames, FrameAt, HeldFrames, Virtual2Physical;
    var t := m.dirs[m.kernelDir].refs[i];
    assert Linked(m, m.kernelDir, i);
    assert Home(m, drawn, t);
    HomeMapped(m, drawn, t);
  }

  // A linked entry of the kernel's directory, with every frame up to it taken.
  lemma LinkedBreaks(m: Machine, drawn: set<Slot>, words: seq<bv32>, at: nat, i: nat) returns (k: nat)
    requires Inv(m, drawn) && m.enabled && i < ENTRIES && m.dirs[m.kernelDir].refs[i] != 0
    requires Overlaps(m, m.kernelDir, words, at) && m.reserved <= BITS * at
    requires forall n: nat :: n < BITS * (at + i) ==> n in m.taken
    ensures 1 <= k <= 13 && at + 2 * ENTRIES <= |words| && BITS * |words| <= NO_FRAME
    ensures !InStep(m, Decoded(Draws(words, k), at), i)
  {
    hide Inv, InStep, Decode, Bit, Used, Linked, Draws, FirstFree;
    EntryFrame(m, drawn, i);
    InvApart(m, drawn);
    InvLinked(m, drawn, i);
    InvShaped(m, drawn);
    LinkedInStep(m, m.kernelDir, i);
    EntryWord(words, at, i);
    var o := ClearBit(words[at + i]);
    var c := BITS * (at + i) + o as int;
    BitFree(words, at + i, o, c);
    k := DrawsBreak(m, words, at, i, c);
  }

  lemma EntryWord(words: seq<bv32>, at: nat, i: nat)
    requires at + 2 * ENTRIES <= |words| && i < ENTRIES
    ensures Decoded(words, at).tables[i].frame == FrameField(words[at + i]) as int
  {
    hide Bit;
    assert Decoded(words, at).tables[i] == Decode(words[at + i]);
  }

  // Any run that starts with a linked entry of the kernel's directory and ends with every frame up to the entry
  // taken: within thirteen draws the entry is out of step.
  lemma RunBreaks(m: Machine, drawn: set<Slot>, events: seq<Event>, words: seq<bv32>, at: nat, i: nat) returns (k: nat)
    requires Inv(m, drawn) && m.enabled && i < ENTRIES && m.dirs[m.kernelDir].refs[i] != 0 && Runs(m, drawn, events)
    requires Shaped(End(m, drawn, events).0) && Overlaps(End(m, drawn, events).0, m.kernelDir, words, at)
    requires m.reserved <= BITS * at && forall n: nat :: n < BITS * (at + i) ==> n in End(m, drawn, events).0.taken
    ensures 1 <= k <= 13
    ensures Shaped(End(m, drawn, events).0) && at + 2 * ENTRIES <= |words| && BITS * |words| <= NO_FRAME
    ensures !InStep(End(m, drawn, events).0, Decoded(Draws(words, k), at), i)
  {
    hide Inv, Runs, End, InStep, Decoded, Draws, Overlaps;
    var (r, after) := End(m, drawn, events);
    RunInv(m, drawn, events);
    StaysEnabled(m, drawn, events);
    InvShaped(m, drawn);
    KeepsLink(m, drawn, events, i);
    k := LinkedBreaks(r, after, words, at, i);
  }

  lemma KeepsLink(m: Machine, drawn: set<Slot>, events: seq<Event>, i: nat)
    requires Shaped(m) && Runs(m, drawn, events) && i < ENTRIES && m.dirs[m.kernelDir].refs[i] != 0
    ensures var r := End(m, drawn, events).0; m.kernelDir in r.dirs && r.dirs[m.kernelDir].refs[i] != 0
  {
    hide Runs, End;
    SharedForever(m, drawn, events, m.kernelDir, i);
  }

  lemma InvLinked(m: Machine, drawn: set<Slot>, i: nat)
    requires Inv(m, drawn) && i < ENTRIES
    ensures Linked(m, m.kernelDir, i)
  {
    hide Linked, Homes, Owned, OneIndex;
  }

  lemma BitFree(words: seq<bv32>, w: nat, o: bv32, c: nat)
    requires w < |words| && 12 <= o < 32 && !Bit(words[w], o) && c == BITS * w + o as int
    ensures c !in Used(words) && BITS * w + 12 <= c < BITS * w + BITS
  {
    hide Bit;
    BitNumber(o);
    assert Index(c) == w && c % BITS == o as int && Offset(c) == o;
    assert !Marked(words, c);
  }

  lemma BitNumber(o: bv32)
    requires 12 <= o < 32
    ensures 12 <= o as int < 32 && (o as int) as bv32 == o
  {
  }

  // So it is with the first entry from boot on: the identity region has linked it.
  lemma BreaksAfterBoot(dir: uint32, frames: nat, reserved: nat, taken: set<nat>, drawn: set<Slot>, events: seq<Event>,
                        words: seq<bv32>, at: nat)
    returns (k: nat)
    requires Ready(dir, frames, reserved, taken) && Inv(Booted(dir, frames, reserved, taken), drawn)
    requires Runs(Booted(dir, frames, reserved, taken), drawn, events)
    requires var m := End(Booted(dir, frames, reserved, taken), drawn, events).0;
             && Shaped(m) && Overlaps(m, dir, words, at) && reserved <= BITS * at
             && forall n: nat :: n < BITS * at ==> n in m.taken
    ensures 1 <= k <= 13 && at + 2 * ENTRIES <= |words| && BITS * |words| <= NO_FRAME
    ensures var m := End(Booted(dir, frames, reserved, taken), drawn, events).0;
            Shaped(m) && !InStep(m, Decoded(Draws(words, k), at), 0)
  {
    hide Inv, Runs, End, InStep, Decoded, Used, Draws, Overlaps, Virtual2Physical, Booted, Linear, Enabled, Ready;
    hide Shaped, Physical, BootMap;
    var b := Booted(dir, frames, reserved, taken);
    var _ := BootTranslates(dir, frames, reserved, taken);
    InvShaped(b, drawn);
    FirstEntryLinked(b, drawn, dir);
    k := RunBreaks(b, drawn, events, words, at, 0);
  }

  lemma InvShaped(m: Machine, drawn: set<Slot>)
    requires Inv(m, drawn)
    ensures Shaped(m)
  {
  }

  lemma FirstEntryLinked(m: Machine, drawn: set<Slot>, dir: uint32)
    requires Inv(m, drawn) && m.enabled && m.kernelDir == dir
    requires forall va: uint32 :: Virtual2Physical(m, dir, va) == BootMap(va)
    ensures dir in m.dirs && m.dirs[dir].refs[0] != 0
  {
    assert Virtual2Physical(m, dir, PAGE) == PAGE;
    assert Hi(1) == 0;
  }

  // ---- one such state ----

  const DIR: uint32 := 0xC010_2000

  // The word of a linked entry: present, writable, user, and the frame.
  function EntryWordOf(i: nat): bv32 {
    if i == 0 then 0x0010_6007 else if i == 0x300 then 0x0010_4007 else if i == 0x301 then 0x0010_5007 else 0
  }

  function RefWordOf(i: nat): bv32 {
    if i == 0 then 0xC010_6000 else if i == 0x300 then 0xC010_4000 else if i == 0x301 then 0xC010_5000 else 0
  }

  // The bitmap's words: `at` full ones, and behind them the directory.
  function FullBelow(at: nat): (words: seq<bv32>)
    ensures |words| == at + 2 * ENTRIES
    ensures forall i | 0 <= i < at :: words[i] == 0xFFFF_FFFF
    ensures forall i | 0 <= i < ENTRIES :: words[at + i] == EntryWordOf(i) && words[at + ENTRIES + i] == RefWordOf(i)
  {
    seq(at, _ => 0xFFFF_FFFF) + seq(ENTRIES, i requires 0 <= i < ENTRIES => EntryWordOf(i))
    + seq(ENTRIES, i requires 0 <= i < ENTRIES => RefWordOf(i))
  }

  function LinearTable(): PageTable {
    var entries: seq<PageEntry> := seq(ENTRIES, i requires 0 <= i < ENTRIES => PageEntry(true, true, true, i));
    entries
  }

  // The directory after boot, with its tables behind it and the linear map in the one for 0xC0000000.
  ghost function BootLike(at: nat): (m: Machine)
    requires BITS * (at + 2 * ENTRIES) <= PAGES
    ensures Shaped(m)
  {
    var words := FullBelow(at);
    RefValues();
    Machine(map[DIR := Decoded(words, at)],
            map[0xC010_6000 := ZeroTable(), 0xC010_4000 := LinearTable(), 0xC010_5000 := ZeroTable()],
            Used(words), BITS * |words|, BITS * at, true, true, 0, [], DIR, DIR - KERNEL_BASE, DIR)
  }

  lemma RefValues()
    ensures RefWordOf(0) as int == 0xC010_6000 && RefWordOf(0x300) as int == 0xC010_4000
    ensures RefWordOf(0x301) as int == 0xC010_5000
    ensures forall i: nat | i != 0 && i != 0x300 && i != 0x301 :: RefWordOf(i) as int == 0
  {
  }

  // Entry i, present with its frame or absent.
  lemma EntryValue(i: nat)
    ensures i == 0 ==> Decode(EntryWordOf(i)) == DirEntry(true, true, true, false, 0x106)
    ensures i == 0x300 ==> Decode(EntryWordOf(i)) == DirEntry(true, true, true, false, 0x104)
    ensures i == 0x301 ==> Decode(EntryWordOf(i)) == DirEntry(true, true, true, false, 0x105)
    ensures i != 0 && i != 0x300 && i != 0x301 ==> !Decode(EntryWordOf(i)).present
  {
    hide Decode, Bit;
    if i == 0 {
      FirstEntry();
    } else if i == 0x300 {
      KernelEntry();
    } else if i == 0x301 {
      HeapEntry();
    } else {
      AbsentEntry();
    }
  }

  // Present, writable and user, with their frames.
  lemma FirstEntry()
    ensures Decode(0x0010_6007) == DirEntry(true, true, true, false, 0x106) && !Bit(0x0010_6007, 12)
  {
  }

  lemma ClearInFirst()
    ensures !Bit(EntryWordOf(0), 12)
  {
    hide Bit;
    FirstEntry();
  }

  lemma KernelEntry()
    ensures Decode(0x0010_4007) == DirEntry(true, true, true, false, 0x104)
  {
  }

  lemma HeapEntry()
    ensures Decode(0x0010_5007) == DirEntry(true, true, true, false, 0x105)
  {
  }

  lemma AbsentEntry()
    ensures !Decode(0).present
  {
  }

  // The boot directory with the reserved bits all set: the first entry, that of the identity map, is out of step
  // within thirteen draws.
  lemma FailingInput(at: nat) returns (k: nat)
    requires BITS * (at + 2 * ENTRIES) <= PAGES
    ensures var m := BootLike(at);
            && Overlaps(m, DIR, FullBelow(at), at) && Coherent(m) && Apart(m)
            && m.dirs[DIR].refs[0] != 0 && m.dirs[DIR].refs[0x300] != 0 && m.dirs[DIR].refs[0x301] != 0
            && 1 <= k <= 13 && !InStep(m, Decoded(Draws(FullBelow(at), k), at), 0)
  {
    hide Used, Decode, Bit, EntryWordOf, RefWordOf, InStep, Draws, FirstFree;
    var m, words := BootLike(at), FullBelow(at);
    RefValues();
    ClearInFirst();
    BootLikeLinked(at);
    LinkedInStep(m, DIR, 0);
    FullWords(words, at);
    BitFree(words, at, 12, BITS * at + 12);
    k := DrawsBreak(m, words, at, 0, BITS * at + 12);
  }

  lemma BootLikePhysical(at: nat, t: uint32)
    requires BITS * (at + 2 * ENTRIES) <= PAGES && t in {0xC010_4000, 0xC010_5000, 0xC010_6000}
    ensures Physical(BootLike(at), t) == t - KERNEL_BASE
  {
    hide Used, Decode, EntryWordOf, RefWordOf, FullBelow;
    var p := t / PAGE;
    assert Hi(p) == 0x300 && Lo(p) == p - 0xC_0000;
    RefValues();
    BootLikeRefs(at, 0x300);
  }

  lemma BootLikeRefs(at: nat, i: nat)
    requires BITS * (at + 2 * ENTRIES) <= PAGES && i < ENTRIES
    ensures BootLike(at).dirs == map[DIR := BootLike(at).dirs[DIR]]
    ensures BootLike(at).dirs[DIR].refs[i] == RefWordOf(i) as int
    ensures BootLike(at).dirs[DIR].tables[i] == Decode(EntryWordOf(i))
  {
    hide Used, Decode, EntryWordOf, RefWordOf;
  }

  lemma BootLikeLinked(at: nat)
    requires BITS * (at + 2 * ENTRIES) <= PAGES
    ensures Coherent(BootLike(at)) && Apart(BootLike(at))
  {
    hide Used, Decode, EntryWordOf, RefWordOf, Physical, FullBelow, BootLike, Linked;
    BootLikeTables(at);
    BootLikeRefs(at, 0);
    BootLikePhysical(at, 0xC010_4000);
    BootLikePhysical(at, 0xC010_5000);
    BootLikePhysical(at, 0xC010_6000);
    forall d, i | d in BootLike(at).dirs && 0 <= i < ENTRIES
      ensures Linked(BootLike(at), d, i)
    {
      BootLikeEntry(at, i);
    }
  }

  lemma BootLikeEntry(at: nat, i: nat)
    requires BITS * (at + 2 * ENTRIES) <= PAGES && i < ENTRIES
    ensures DIR in BootLike(at).dirs && Linked(BootLike(at), DIR, i)
  {
    hide Used, Decode, EntryWordOf, RefWordOf, Physical, FullBelow, BootLike;
    BootLikeRefs(at, i);
    RefValues();
    EntryValue(i);
    if i == 0 {
      BootLikePhysical(at, 0xC010_6000);
    } else if i == 0x300 {
      BootLikePhysical(at, 0xC010_4000);
    } else if i == 0x301 {
      BootLikePhysical(at, 0xC010_5000);
    }
  }

  lemma BootLikeTables(at: nat)
    requires BITS * (at + 2 * ENTRIES) <= PAGES
    ensures BootLike(at).tables.Keys == {0xC010_4000, 0xC010_5000, 0xC010_6000}
  {
    hide Used, Decode;
  }

  lemma FullWords(words: seq<bv32>, at: nat)
    requires at < |words| && forall i | 0 <= i < at :: words[i] == 0xFFFF_FFFF
    ensures forall n: nat :: n < BITS * at ==> n in Used(words)
  {
    assert forall o: bv32 :: o < 32 ==> Bit(0xFFFF_FFFF, o);
    hide Bit;
    forall n: nat | n < BITS * at
      ensures n in Used(words)
    {
      OffsetBound(n);
      assert Marked(words, n);
    }
  }
}
