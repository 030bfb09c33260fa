/** Who holds which frame, and how the two copies of a directory stay in step, over whole runs. */
module PageOwnership {
  import opened Words
  import opened FrameBitmap
  import opened PageTables

  // One entry of one page table.
  datatype Slot = Slot(table: uint32, entry: nat)

  function SlotOf(m: Machine, d: uint32, p: nat): Slot
    requires Page(m, d, p)
  {
    Slot(m.dirs[d].refs[Hi(p)], Lo(p))
  }

  predicate Held(m: Machine, s: Slot) {
    s.table in m.tables && s.entry < ENTRIES && m.tables[s.table][s.entry].present
  }

  function FrameAt(m: Machine, s: Slot): nat {
    if s.table in m.tables && s.entry < ENTRIES then m.tables[s.table][s.entry].frame else 0
  }

  function HeldFrames(m: Machine, drawn: set<Slot>): set<nat> {
    set s | s in drawn :: FrameAt(m, s)
  }

  ghost predicate DistinctFrames(m: Machine, drawn: set<Slot>) {
    forall s, u | s in drawn && u in drawn :: FrameAt(m, s) == FrameAt(m, u) ==> s == u
  }

  // `drawn` are the entries whose frame came from the physical memory manager: each holds a frame of its
  // own, and of the bits with storage of their own exactly theirs are set.
  ghost predicate Owned(m: Machine, drawn: set<Slot>) {
    && (forall s | s in drawn :: Held(m, s) && FrameAt(m, s) < m.reserved)
    && DistinctFrames(m, drawn)
    && forall n: nat :: n < m.reserved ==> (n in m.taken <==> n in HeldFrames(m, drawn))
  }

  // ---- the two copies of a directory ----

  function Physical(m: Machine, va: uint32): uint32
    requires Shaped(m)
  {
    Virtual2Physical(m, m.kernelDir, va)
  }

  predicate Linked(m: Machine, d: uint32, i: nat)
    requires Shaped(m) && d in m.dirs && i < ENTRIES
  {
    var e, t := m.dirs[d].tables[i], m.dirs[d].refs[i];
    (e.present <==> t != 0) && (t != 0 ==> e.frame * PAGE == Physical(m, t))
  }

  ghost predicate Coherent(m: Machine)
    requires Shaped(m)
  {
    forall d, i | d in m.dirs && 0 <= i < ENTRIES :: Linked(m, d, i)
  }

  predicate Aligned4K(m: Machine) {
    forall t | t in m.tables :: t != 0 && t % PAGE == 0
  }

  // Once paging is on, the page of every table is mapped in the kernel's directory, on a drawn frame.
  predicate Home(m: Machine, drawn: set<Slot>, t: uint32)
    requires Shaped(m)
  {
    m.enabled ==> SlotOf(m, m.kernelDir, t / PAGE) in drawn
  }

  ghost predicate Homes(m: Machine, drawn: set<Slot>)
    requires Shaped(m)
  {
    forall t | t in m.tables :: Home(m, drawn, t)
  }

  ghost predicate Inv(m: Machine, drawn: set<Slot>) {
    Shaped(m) && OneIndex(m) && Aligned4K(m) && Coherent(m) && Homes(m, drawn) && Owned(m, drawn)
  }

  // ---- what the processor sees ----

  // A walk through `tables`: the entry's frame is where the table lies in physical memory. The upper ten bits of the
  // page number select the directory's entry and the lower ten the table's.
  ghost predicate Walks(m: Machine, d: uint32, p: nat, r: Translation)
    requires Shaped(m) && Page(m, d, p)
  {
    var e := m.dirs[d].tables[p / 0x400];
    if !e.present then r == Unmapped
    else exists t :: t in m.tables && Physical(m, t) == e.frame * 0x1000 && r == Read(m.tables[t][p % 0x400])
  }

  lemma HomeMapped(m: Machine, drawn: set<Slot>, t: uint32)
    requires Inv(m, drawn) && Home(m, drawn, t) && m.enabled && t % PAGE == 0
    ensures m.dirs[m.kernelDir].refs[Hi(t / PAGE)] != 0
    ensures Lookup(m, m.kernelDir, t / PAGE).Mapped?
    ensures Physical(m, t) == FrameAt(m, SlotOf(m, m.kernelDir, t / PAGE)) * PAGE
  {
    hide Hi, Lo, OneIndex, Coherent, DistinctFrames;
    assert Held(m, SlotOf(m, m.kernelDir, t / PAGE));
  }

  // No two tables lie on the same frame.
  lemma TablesApart(m: Machine, drawn: set<Slot>, t: uint32, u: uint32)
    requires Inv(m, drawn) && t in m.tables && u in m.tables && Physical(m, t) == Physical(m, u)
    ensures t == u
  {
    hide Coherent, Hi, Lo, OneIndex, DistinctFrames, Physical, Held, FrameAt, HeldFrames, Shaped;
    if m.enabled {
      HomeMapped(m, drawn, t);
      HomeMapped(m, drawn, u);
      SameFrameSamePage(m, drawn, t / PAGE, u / PAGE);
    } else {
      LinearApart(m, t, u);
    }
  }

  lemma LinearApart(m: Machine, t: uint32, u: uint32)
    requires Shaped(m) && !m.enabled && Physical(m, t) == Physical(m, u)
    ensures t == u
  {
    WrapMinus(t);
    WrapMinus(u);
  }

  lemma WrapMinus(t: uint32)
    ensures Wrap(t - KERNEL_BASE) == if t >= KERNEL_BASE then t - KERNEL_BASE else t - KERNEL_BASE + TWO_32
  {
  }

  lemma SameFrameSamePage(m: Machine, drawn: set<Slot>, p: nat, q: nat)
    requires Shaped(m) && OneIndex(m) && DistinctFrames(m, drawn) && p < PAGES && q < PAGES
    requires SlotOf(m, m.kernelDir, p) in drawn && SlotOf(m, m.kernelDir, q) in drawn
    requires m.dirs[m.kernelDir].refs[Hi(p)] != 0
    requires FrameAt(m, SlotOf(m, m.kernelDir, p)) == FrameAt(m, SlotOf(m, m.kernelDir, q))
    ensures p == q
  {
    hide Hi, Lo;
    assert SlotOf(m, m.kernelDir, p) == SlotOf(m, m.kernelDir, q);
    PageParts(p, q);
  }

  lemma PageSplits(p: nat)
    requires p < PAGES
    ensures Hi(p) == p / 0x400 && Lo(p) == p % 0x400
  {
  }

  // The processor's walk finds exactly what the code's walk finds.
  lemma HardwareAgrees(m: Machine, drawn: set<Slot>, d: uint32, p: nat, r: Translation)
    requires Inv(m, drawn) && Page(m, d, p)
    ensures Walks(m, d, p, r) <==> r == Lookup(m, d, p)
  {
    PageSplits(p);
    hide Hi, Lo, OneIndex, Homes, Owned, Physical;
    assert Linked(m, d, Hi(p));
    var t := m.dirs[d].refs[Hi(p)];
    if t != 0 {
      forall u | u in m.tables && Physical(m, u) == Physical(m, t)
        ensures u == t
      {
        TablesApart(m, drawn, u, t);
      }
    }
  }

  // And it leads to the physical address that the code computes: the frame's, with the offset in the page.
  lemma HardwareTranslates(m: Machine, drawn: set<Slot>, d: uint32, va: uint32, r: Translation)
    requires Inv(m, drawn) && m.enabled && d in m.dirs && Walks(m, d, va / 0x1000, r)
    ensures Virtual2Physical(m, d, va) == if r.Unmapped? then 0 else r.frame * 0x1000 + va % 0x1000
  {
    hide Walks, Inv, Lookup;
    HardwareAgrees(m, drawn, d, va / 0x1000, r);
    InvParts(m, drawn);
  }

  // ---- every step keeps the invariant ----

  lemma LinkedKept(m: Machine, r: Machine, d: uint32, i: nat)
    requires Shaped(m) && Shaped(r) && d in m.dirs && d in r.dirs && i < ENTRIES && Linked(m, d, i)
    requires m.dirs[d].tables[i] == r.dirs[d].tables[i] && m.dirs[d].refs[i] == r.dirs[d].refs[i]
    requires m.dirs[d].refs[i] != 0 ==> Physical(r, m.dirs[d].refs[i]) == Physical(m, m.dirs[d].refs[i])
    ensures Linked(r, d, i)
  {
  }

  lemma PhysicalKept(m: Machine, r: Machine, t: uint32)
    requires Shaped(m) && Shaped(r) && m.kernelDir == r.kernelDir && m.enabled == r.enabled
    requires m.enabled ==> Lookup(r, m.kernelDir, t / PAGE) == Lookup(m, m.kernelDir, t / PAGE)
    ensures Physical(r, t) == Physical(m, t)
  {
    hide Lookup;
  }

  lemma PageAligned(m: Machine, t: uint32)
    requires Shaped(m) && t % PAGE == 0
    ensures Physical(m, t) % PAGE == 0
  {
    hide Lookup;
    WrapAligned(t);
    if m.enabled && Lookup(m, m.kernelDir, t / PAGE).Mapped? {
      FrameAligned(Lookup(m, m.kernelDir, t / PAGE).frame);
    }
  }

  lemma WrapAligned(t: uint32)
    requires t % PAGE == 0
    ensures Wrap(t - KERNEL_BASE) % PAGE == 0
  {
    WrapMinus(t);
  }

  lemma FrameAligned(f: int)
    ensures (f * PAGE + 0) % PAGE == 0
  {
  }

  lemma TableKeepsInv(m: Machine, drawn: set<Slot>, d: uint32, i: nat) returns (r: Machine)
    requires Inv(m, drawn) && d in m.dirs && i < ENTRIES && m.dirs[d].refs[i] == 0 && FreshTable(m)
    requires Home(m, drawn, NextTable(m))
    ensures r == WithTable(m, d, i) && Inv(r, drawn)
    ensures forall s :: Held(r, s) <==> Held(m, s)
    ensures forall s :: Held(m, s) ==> FrameAt(r, s) == FrameAt(m, s)
  {
    r := WithTable(m, d, i);
    TableKeepsSlots(m, d, i);
    InvParts(m, drawn);
    hide Inv, Hi, Lo, NextTable, Virtual2Physical, Lookup, Held, FrameAt, Coherent, OneIndex, Homes, WithTable;
    OwnedKept(m, r, drawn);
    TableKeepsHomes(m, r, drawn, d, i);
    TableKeepsCoherent(m, drawn, d, i);
    hide Owned;
    InvFrom(r, drawn);
  }

  lemma InvFrom(m: Machine, drawn: set<Slot>)
    requires Shaped(m) && OneIndex(m) && Aligned4K(m) && Coherent(m) && Homes(m, drawn) && Owned(m, drawn)
    ensures Inv(m, drawn)
  {
  }

  lemma TableKeepsSlots(m: Machine, d: uint32, i: nat)
    requires Shaped(m) && OneIndex(m) && Aligned4K(m)
    requires d in m.dirs && i < ENTRIES && m.dirs[d].refs[i] == 0 && FreshTable(m)
    ensures var r := WithTable(m, d, i);
            && OneIndex(r) && Aligned4K(r) && r.taken == m.taken && r.reserved == m.reserved
            && (forall s :: Held(r, s) <==> Held(m, s))
            && (forall s :: Held(m, s) ==> FrameAt(r, s) == FrameAt(m, s))
  {
    hide NextTable, Virtual2Physical, Lookup;
  }

  lemma OwnedKept(m: Machine, r: Machine, drawn: set<Slot>)
    requires Owned(m, drawn) && r.reserved == m.reserved
    requires forall n: nat :: n < m.reserved ==> (n in r.taken <==> n in m.taken)
    requires forall s :: s in drawn ==> Held(r, s) && FrameAt(r, s) == FrameAt(m, s)
    ensures Owned(r, drawn)
  {
    hide FrameAt, Held;
    assert HeldFrames(r, drawn) == HeldFrames(m, drawn);
  }

  // Links are only ever added, so a home stays one.
  predicate LinksKept(m: Machine, r: Machine, d: uint32) {
    d in m.dirs && d in r.dirs
    && forall i | 0 <= i < ENTRIES && m.dirs[d].refs[i] != 0 :: r.dirs[d].refs[i] == m.dirs[d].refs[i]
  }

  lemma HomeKept(m: Machine, r: Machine, drawn: set<Slot>, t: uint32)
    requires Shaped(m) && Shaped(r) && Home(m, drawn, t) && Aligned4K(m)
    requires forall s | s in drawn :: Held(m, s)
    requires r.kernelDir == m.kernelDir && r.enabled == m.enabled && LinksKept(m, r, m.kernelDir)
    ensures Home(r, drawn, t)
  {
    hide Hi, Lo, Shaped;
    if m.enabled {
      assert Held(m, SlotOf(m, m.kernelDir, t / PAGE));
    }
  }

  lemma TableKeepsHomes(m: Machine, r: Machine, drawn: set<Slot>, d: uint32, i: nat)
    requires Shaped(m) && d in m.dirs && i < ENTRIES && m.dirs[d].refs[i] == 0 && Aligned4K(m)
    requires Homes(m, drawn) && Home(m, drawn, NextTable(m)) && (forall s | s in drawn :: Held(m, s))
    requires r == WithTable(m, d, i)
    ensures Homes(r, drawn)
  {
    hide Hi, Lo, NextTable, Virtual2Physical, Held, Home;
    assert LinksKept(m, r, m.kernelDir);
    forall t | t in r.tables
      ensures Home(r, drawn, t)
    {
      HomeKept(m, r, drawn, t);
    }
  }

  lemma TableKeepsCoherent(m: Machine, drawn: set<Slot>, d: uint32, i: nat)
    requires Inv(m, drawn) && d in m.dirs && i < ENTRIES && m.dirs[d].refs[i] == 0 && FreshTable(m)
    ensures Coherent(WithTable(m, d, i))
  {
    hide Hi, Lo, NextTable, Virtual2Physical, OneIndex, Owned, Homes;
    var r, a := WithTable(m, d, i), TableTaken(m);
    var t := NextTable(m);
    forall u: uint32
      ensures Physical(r, u) == Physical(m, u) == Physical(a, u)
    {
      WithTableLookup(m, d, i, m.kernelDir, u / PAGE);
      PhysicalKept(m, r, u);
      PhysicalKept(m, a, u);
    }
    PageAligned(m, t);
    forall e, k | e in r.dirs && 0 <= k < ENTRIES
      ensures Linked(r, e, k)
    {
      if e == d && k == i {
        assert r.dirs[e].tables[k].frame == Physical(a, t) / PAGE;
      } else {
        assert Linked(m, e, k);
        LinkedKept(m, r, e, k);
      }
    }
  }

  ghost predicate HomesStand(m: Machine, r: Machine, after: set<Slot>)
    requires Shaped(m) && Shaped(r) && r.kernelDir == m.kernelDir
  {
    forall t | t in m.tables ::
      Home(m, after, t) && (m.enabled ==> Lookup(r, m.kernelDir, t / PAGE) == Lookup(m, m.kernelDir, t / PAGE))
  }

  // Nothing but the frames of entries that hold no table changes.
  lemma EntriesKeepInv(m: Machine, r: Machine, drawn: set<Slot>, after: set<Slot>)
    requires Shaped(m) && Shaped(r) && Inv(m, drawn) && Owned(r, after)
    requires r.dirs == m.dirs && r.tables.Keys == m.tables.Keys
    requires r.kernelDir == m.kernelDir && r.enabled == m.enabled && HomesStand(m, r, after)
    ensures Inv(r, after)
  {
    hide Hi, Lo, Lookup, Owned;
    forall d, i | d in r.dirs && 0 <= i < ENTRIES
      ensures Linked(r, d, i)
    {
      assert Linked(m, d, i);
      if m.dirs[d].refs[i] != 0 {
        PhysicalKept(m, r, m.dirs[d].refs[i]);
      }
      LinkedKept(m, r, d, i);
    }
    forall t | t in r.tables
      ensures Home(r, after, t)
    {
      assert Home(m, after, t);
    }
    assert OneIndex(r) && Aligned4K(r);
  }

  lemma PageKeepsOwned(m: Machine, t: uint32, j: nat, frame: uint32, drawn: set<Slot>)
    returns (after: set<Slot>)
    requires Shaped(m) && Owned(m, drawn) && t in m.tables && j < ENTRIES && !m.tables[t][j].present
    requires frame == 0 ==> FirstFree(m.taken, 0, m.frames) < m.reserved
    ensures after == if frame == 0 then drawn + {Slot(t, j)} else drawn
    ensures Owned(WithPage(m, t, j, frame), after)
  {
    var r := WithPage(m, t, j, frame);
    after := if frame == 0 then drawn + {Slot(t, j)} else drawn;
    assert !Held(m, Slot(t, j));
    forall s | s in drawn
      ensures Held(r, s) && FrameAt(r, s) == FrameAt(m, s)
    {
      assert Held(m, s);
    }
    if frame == 0 {
      var f := FirstFree(m.taken, 0, m.frames);
      assert FrameAt(r, Slot(t, j)) == f;
      assert f !in HeldFrames(m, drawn);
      assert HeldFrames(r, after) == HeldFrames(m, drawn) + {f};
    } else {
      assert HeldFrames(r, after) == HeldFrames(m, drawn);
    }
  }

  lemma InvParts(m: Machine, drawn: set<Slot>)
    requires Inv(m, drawn)
    ensures Shaped(m) && OneIndex(m) && Aligned4K(m) && Homes(m, drawn) && Owned(m, drawn)
  {
  }

  lemma TableMapped(m: Machine, drawn: set<Slot>, u: uint32)
    requires Inv(m, drawn) && u in m.tables && m.enabled
    ensures Shaped(m) && Lookup(m, m.kernelDir, u / PAGE).Mapped?
  {
    hide Owned, OneIndex, Coherent, Lookup;
    HomeMapped(m, drawn, u);
  }

  lemma PageKeepsInv(m: Machine, t: uint32, j: nat, frame: uint32, drawn: set<Slot>)
    returns (after: set<Slot>)
    requires Inv(m, drawn) && t in m.tables && j < ENTRIES && !m.tables[t][j].present
    requires frame == 0 ==> Shaped(m) && FirstFree(m.taken, 0, m.frames) < m.reserved
    ensures after == if frame == 0 then drawn + {Slot(t, j)} else drawn
    ensures Shaped(m) && Inv(WithPage(m, t, j, frame), after)
  {
    hide Inv, Hi, Lo, Owned, OneIndex, Coherent, FirstFree, Shaped, Lookup;
    InvParts(m, drawn);
    var r := WithPage(m, t, j, frame);
    after := PageKeepsOwned(m, t, j, frame, drawn);
    forall u | u in m.tables && m.enabled
      ensures Lookup(r, m.kernelDir, u / PAGE) == Lookup(m, m.kernelDir, u / PAGE)
    {
      TableMapped(m, drawn, u);
      WithPageLookup(m, t, j, frame, m.kernelDir, u / PAGE);
    }
    assert forall u | u in m.tables :: Home(m, drawn, u) ==> Home(m, after, u);
    EntriesKeepInv(m, r, drawn, after);
  }

  // ---- releasing a page ----

  lemma FreeKeepsOwned(m: Machine, t: uint32, j: nat, free: bool, drawn: set<Slot>)
    returns (r: Machine)
    requires Shaped(m) && Owned(m, drawn) && Held(m, Slot(t, j))
    requires free <==> Slot(t, j) in drawn
    ensures var e := m.tables[t][j];
            r == m.(tables := m.tables[t := m.tables[t][j := e.(present := false, frame := 0)]],
                    taken := if free then m.taken - {e.frame} else m.taken)
    ensures Owned(r, drawn - {Slot(t, j)})
  {
    var e := m.tables[t][j];
    r := m.(tables := m.tables[t := m.tables[t][j := e.(present := false, frame := 0)]],
            taken := if free then m.taken - {e.frame} else m.taken);
    var after := drawn - {Slot(t, j)};
    forall s | s in after
      ensures Held(r, s) && FrameAt(r, s) == FrameAt(m, s)
    {
      assert Held(m, s);
    }
    assert FrameAt(m, Slot(t, j)) == e.frame;
    if free {
      assert HeldFrames(r, after) == HeldFrames(m, drawn) - {e.frame};
    } else {
      assert after == drawn;
      assert HeldFrames(r, after) == HeldFrames(m, drawn);
    }
  }

  // The entry maps the page of a table.
  predicate IsHome(m: Machine, s: Slot)
    requires Shaped(m)
  {
    exists t | t in m.tables :: SlotOf(m, m.kernelDir, t / PAGE) == s
  }

  lemma MappedHeld(m: Machine, d: uint32, p: nat)
    requires Shaped(m) && Page(m, d, p)
    ensures Lookup(m, d, p).Mapped? <==> m.dirs[d].refs[Hi(p)] != 0 && Held(m, SlotOf(m, d, p))
  {
    hide Hi, Lo;
  }

  lemma FreeKeepsInv(m: Machine, d: uint32, p: nat, free: bool, drawn: set<Slot>)
    requires Inv(m, drawn) && Page(m, d, p) && Lookup(m, d, p).Mapped?
    requires free <==> SlotOf(m, d, p) in drawn
    requires m.enabled && free ==> !IsHome(m, SlotOf(m, d, p))
    ensures Inv(FreePage(m, d, p, free), drawn - {SlotOf(m, d, p)})
  {
    hide Inv, Hi, Lo, Owned, OneIndex, Coherent, Shaped, Lookup;
    InvParts(m, drawn);
    var s := SlotOf(m, d, p);
    var after := drawn - {s};
    var r := FreePage(m, d, p, free);
    MappedHeld(m, d, p);
    var _ := FreeKeepsOwned(m, s.table, s.entry, free, drawn);
    forall u | u in m.tables
      ensures Home(m, after, u)
      ensures m.enabled ==> Lookup(r, m.kernelDir, u / PAGE) == Lookup(m, m.kernelDir, u / PAGE)
    {
      assert Home(m, drawn, u);
      FreeRefines(m, d, p, free, m.kernelDir, u / PAGE);
    }
    EntriesKeepInv(m, r, drawn, after);
  }

  // ---- runs ----

  // `Draw` maps a page with frame argument 0, `Pin` with an explicit frame; `Release` and `Unpin`
  // free a page with and without giving the frame back; `Share` copies the kernel's directory; with
  // `HeapReady` the tables no longer come from the placement address but from the heap. Between any two
  // of these the bits that the bitmap shares with other objects may change in any way: `Overwrite`.
  datatype Event =
    | Draw(d: uint32, p: nat)
    | Pin(d: uint32, p: nat, frame: uint32)
    | Release(d: uint32, p: nat)
    | Unpin(d: uint32, p: nat)
    | Share(dst: uint32)
    | New(d: uint32)
    | HeapReady(answers: seq<uint32>)
    | Overwrite(high: set<nat>)

  ghost predicate Allowed(m: Machine, drawn: set<Slot>, e: Event) {
    Shaped(m) &&
    match e
    case Draw(d, p) =>
      CanAllocate(m, d, p) && LinkHome(m, drawn, d, p) && CanDraw(m, d, p, 0)
    case Pin(d, p, frame) => CanAllocate(m, d, p) && LinkHome(m, drawn, d, p) && frame != 0
    case Release(d, p) =>
      Page(m, d, p)
      && (Lookup(m, d, p).Mapped? ==> SlotOf(m, d, p) in drawn && (m.enabled ==> !IsHome(m, SlotOf(m, d, p))))
    case Unpin(d, p) => Page(m, d, p) && SlotOf(m, d, p) !in drawn
    case Share(dst) => dst in m.dirs
    case New(d) => d != 0 && d !in m.dirs
    case HeapReady(_) => true
    case Overwrite(_) => true
  }

  // A table that has to be linked gets a page that the kernel has mapped.
  predicate LinkHome(m: Machine, drawn: set<Slot>, d: uint32, p: nat)
    requires Shaped(m) && Page(m, d, p)
  {
    m.dirs[d].refs[Hi(p)] == 0 ==> Home(m, drawn, NextTable(m))
  }

  ghost function Step(m: Machine, drawn: set<Slot>, e: Event): Machine
    requires Allowed(m, drawn, e)
  {
    match e
    case Draw(d, p) => AllocatePage(m, d, p, 0)
    case Pin(d, p, frame) => AllocatePage(m, d, p, frame)
    case Release(d, p) => FreePage(m, d, p, true)
    case Unpin(d, p) => FreePage(m, d, p, false)
    case Share(dst) => CopyDirectory(m, m.kernelDir, dst)
    case New(d) => NewDirectory(m, d)
    case HeapReady(answers) => WithHeap(m, answers)
    case Overwrite(high) => WithHigh(m, high)
  }

  ghost function DrawnAfter(m: Machine, drawn: set<Slot>, e: Event): set<Slot>
    requires Allowed(m, drawn, e)
  {
    match e
    case Draw(d, p) =>
      if Lookup(m, d, p).Mapped? then drawn else drawn + {SlotOf(AllocatePage(m, d, p, 0), d, p)}
    case Release(d, p) => drawn - {SlotOf(m, d, p)}
    case _ => drawn
  }

  lemma AllocateKeepsInv(m: Machine, d: uint32, p: nat, frame: uint32, drawn: set<Slot>)
    requires Inv(m, drawn) && CanAllocate(m, d, p) && LinkHome(m, drawn, d, p)
    requires CanDraw(m, d, p, frame)
    ensures var r := AllocatePage(m, d, p, frame);
            Inv(r, if Lookup(m, d, p).Unmapped? && frame == 0 then drawn + {SlotOf(r, d, p)} else drawn)
  {
    hide Inv, Hi, Lo, FirstFree, Virtual2Physical;
    var t := m.dirs[d].refs[Hi(p)];
    if Lookup(m, d, p).Unmapped? {
      if t != 0 {
        var _ := PageKeepsInv(m, t, Lo(p), frame, drawn);
      } else {
        var a := TableKeepsInv(m, drawn, d, Hi(p));
        var _ := PageKeepsInv(a, NextTable(m), Lo(p), frame, drawn);
      }
    }
  }

  lemma LookupSame(m: Machine, r: Machine, d: uint32, q: nat)
    requires Shaped(m) && Shaped(r) && Page(m, d, q) && Page(r, d, q)
    requires r.tables == m.tables && r.dirs[d] == m.dirs[d]
    ensures Lookup(r, d, q) == Lookup(m, d, q)
  {
    hide Hi, Lo;
  }

  lemma DirectoryCoherent(m: Machine, r: Machine, dst: uint32, c: Directory)
    requires Shaped(m) && Shaped(r) && Coherent(m) && r == m.(dirs := m.dirs[dst := c])
    requires dst == m.kernelDir ==> c == m.dirs[dst]
    requires c == Directory(ZeroEntries(), ZeroRefs()) || c == m.dirs[m.kernelDir]
    ensures Coherent(r)
  {
    hide Hi, Lo, Lookup;
    forall d, i | d in r.dirs && 0 <= i < ENTRIES
      ensures Linked(r, d, i)
    {
      var from := if d != dst then d else m.kernelDir;
      assert Linked(m, from, i);
      if r.dirs[d].refs[i] != 0 {
        LookupSame(m, r, m.kernelDir, r.dirs[d].refs[i] / PAGE);
        PhysicalKept(m, r, r.dirs[d].refs[i]);
      }
    }
  }

  lemma DirectoryKeepsInv(m: Machine, r: Machine, dst: uint32, c: Directory, drawn: set<Slot>)
    requires Inv(m, drawn) && dst != 0 && r == m.(dirs := m.dirs[dst := c]) && Shaped(r)
    requires dst == m.kernelDir ==> c == m.dirs[dst]
    requires c == Directory(ZeroEntries(), ZeroRefs()) || c == m.dirs[m.kernelDir]
    ensures Inv(r, drawn)
  {
    hide Hi, Lo, Lookup, OneIndex, Coherent;
    OneIndexCopied(m, r, dst, c);
    OwnedKept(m, r, drawn);
    DirectoryCoherent(m, r, dst, c);
    forall t | t in r.tables
      ensures Home(r, drawn, t)
    {
      HomeSame(m, r, drawn, t);
    }
  }

  lemma LowKeepsInv(m: Machine, r: Machine, drawn: set<Slot>)
    requires Inv(m, drawn) && SameLow(m, r)
    ensures Inv(r, drawn)
  {
    hide OneIndex, Coherent, Homes, Owned;
    SameTablesKeepInv(m, r, drawn);
  }

  lemma HomeSame(m: Machine, r: Machine, drawn: set<Slot>, t: uint32)
    requires Shaped(m) && Shaped(r) && Home(m, drawn, t) && r.enabled == m.enabled && r.kernelDir == m.kernelDir
    requires r.dirs[r.kernelDir] == m.dirs[m.kernelDir]
    ensures Home(r, drawn, t)
  {
    hide Hi, Lo;
  }

  lemma OneIndexCopied(m: Machine, r: Machine, dst: uint32, c: Directory)
    requires Shaped(m) && OneIndex(m) && r == m.(dirs := m.dirs[dst := c])
    requires c == Directory(ZeroEntries(), ZeroRefs()) || c == m.dirs[m.kernelDir]
    ensures OneIndex(r)
  {
  }

  lemma StepInv(m: Machine, drawn: set<Slot>, e: Event)
    requires Inv(m, drawn) && Allowed(m, drawn, e)
    ensures Inv(Step(m, drawn, e), DrawnAfter(m, drawn, e))
  {
    hide Inv, AllocatePage, FreePage, IsHome, LinkHome;
    match e
    case Draw(d, p) => AllocateKeepsInv(m, d, p, 0, drawn);
    case Pin(d, p, frame) => AllocateKeepsInv(m, d, p, frame, drawn);
    case Release(d, p) => ReleaseKeepsInv(m, d, p, true, drawn);
    case Unpin(d, p) =>
      ReleaseKeepsInv(m, d, p, false, drawn);
      assert drawn - {SlotOf(m, d, p)} == drawn;
    case Share(dst) => DirectoryKeepsInv(m, CopyDirectory(m, m.kernelDir, dst), dst, m.dirs[m.kernelDir], drawn);
    case New(d) =>
      DirectoryKeepsInv(m, NewDirectory(m, d), d, Directory(ZeroEntries(), ZeroRefs()), drawn);
    case HeapReady(answers) => SameTablesKeepInv(m, WithHeap(m, answers), drawn);
    case Overwrite(high) => SameTablesKeepInv(m, WithHigh(m, high), drawn);
  }

  // Neither the allocator's state nor the shared bits matter to the invariant.
  lemma SameTablesKeepInv(m: Machine, r: Machine, drawn: set<Slot>)
    requires Inv(m, drawn) && r.dirs == m.dirs && r.tables == m.tables && Shaped(r)
    requires r.kernelDir == m.kernelDir && r.enabled == m.enabled && r.reserved == m.reserved
    requires forall n: nat :: n < m.reserved ==> (n in r.taken <==> n in m.taken)
    ensures Inv(r, drawn)
  {
    hide Hi, Lo, Lookup;
    OwnedKept(m, r, drawn);
    forall d, i | d in r.dirs && 0 <= i < ENTRIES
      ensures Linked(r, d, i)
    {
      assert Linked(m, d, i);
      if m.dirs[d].refs[i] != 0 {
        LookupSame(m, r, m.kernelDir, m.dirs[d].refs[i] / PAGE);
        PhysicalKept(m, r, m.dirs[d].refs[i]);
      }
    }
    forall t | t in r.tables
      ensures Home(r, drawn, t)
    {
      HomeSame(m, r, drawn, t);
    }
  }

  lemma ReleaseKeepsInv(m: Machine, d: uint32, p: nat, free: bool, drawn: set<Slot>)
    requires Inv(m, drawn) && Page(m, d, p)
    requires Lookup(m, d, p).Mapped? ==> (free <==> SlotOf(m, d, p) in drawn)
    requires Lookup(m, d, p).Mapped? && free ==> m.enabled ==> !IsHome(m, SlotOf(m, d, p))
    ensures Inv(FreePage(m, d, p, free), drawn - {SlotOf(m, d, p)})
  {
    hide Inv, IsHome, Hi, Lo;
    InvParts(m, drawn);
    if Lookup(m, d, p).Mapped? {
      FreeKeepsInv(m, d, p, free, drawn);
    } else {
      MappedHeld(m, d, p);
      assert SlotOf(m, d, p) !in drawn;
      assert drawn - {SlotOf(m, d, p)} == drawn;
    }
  }

  ghost predicate Runs(m: Machine, drawn: set<Slot>, events: seq<Event>)
    decreases |events|
  {
    events == [] ||
    (Allowed(m, drawn, events[0])
     && Runs(Step(m, drawn, events[0]), DrawnAfter(m, drawn, events[0]), events[1..]))
  }

  ghost function End(m: Machine, drawn: set<Slot>, events: seq<Event>): (Machine, set<Slot>)
    requires Runs(m, drawn, events)
    decreases |events|
  {
    if events == [] then (m, drawn)
    else End(Step(m, drawn, events[0]), DrawnAfter(m, drawn, events[0]), events[1..])
  }

  lemma {:induction false} RunInv(m: Machine, drawn: set<Slot>, events: seq<Event>)
    requires Inv(m, drawn) && Runs(m, drawn, events)
    ensures var (r, after) := End(m, drawn, events); Inv(r, after)
    decreases |events|
  {
    hide Inv, Allowed, Step, DrawnAfter;
    if events != [] {
      StepInv(m, drawn, events[0]);
      RunInv(Step(m, drawn, events[0]), DrawnAfter(m, drawn, events[0]), events[1..]);
    }
  }

  // Every page and every table that is mapped can be written, from user mode too, and no entry maps 4 MiB at once.
  ghost predicate UserWritable(m: Machine) {
    && (forall t, j | t in m.tables && 0 <= j < ENTRIES && m.tables[t][j].present ::
          m.tables[t][j].rw && m.tables[t][j].user)
    && (forall d, i | d in m.dirs && 0 <= i < ENTRIES && m.dirs[d].tables[i].present ::
          m.dirs[d].tables[i].rw && m.dirs[d].tables[i].user && !m.dirs[d].tables[i].pageSize)
  }

  lemma AllocateUserWritable(m: Machine, d: uint32, p: nat, frame: uint32)
    requires Shaped(m) && Page(m, d, p) && UserWritable(m)
    ensures UserWritable(AllocatePage(m, d, p, frame))
  {
    hide Hi, Lo, Virtual2Physical, NextTable, FirstFree;
  }

  lemma {:induction false} RegionUserWritable(m: Machine, d: uint32, p: nat, n: nat, identity: bool)
    requires Shaped(m) && d in m.dirs && p + n <= PAGES && UserWritable(m)
    ensures UserWritable(AllocateRegion(m, d, p, n, identity))
    decreases n
  {
    hide UserWritable, AllocatePage, Shaped;
    if n > 0 {
      var frame := if identity then p else 0;
      AllocateUserWritable(m, d, p, frame);
      RegionUserWritable(AllocatePage(m, d, p, frame), d, p + 1, n - 1, identity);
    }
  }

  lemma StepUserWritable(m: Machine, drawn: set<Slot>, e: Event)
    requires Allowed(m, drawn, e) && UserWritable(m)
    ensures UserWritable(Step(m, drawn, e))
  {
    hide Hi, Lo, Lookup, LinkHome, IsHome, NextTable, AllocatePage;
    match e
    case Draw(d, p) => AllocateUserWritable(m, d, p, 0);
    case Pin(d, p, frame) => AllocateUserWritable(m, d, p, frame);
    case _ =>
  }

  lemma {:induction false} RunUserWritable(m: Machine, drawn: set<Slot>, events: seq<Event>)
    requires Runs(m, drawn, events) && UserWritable(m)
    ensures UserWritable(End(m, drawn, events).0)
    decreases |events|
  {
    hide UserWritable, Allowed, Step, DrawnAfter;
    if events != [] {
      StepUserWritable(m, drawn, events[0]);
      RunUserWritable(Step(m, drawn, events[0]), DrawnAfter(m, drawn, events[0]), events[1..]);
    }
  }

  // Two pages on the same drawn frame are one page of one shared table.
  lemma FrameHeldOnce(m: Machine, drawn: set<Slot>, d: uint32, p: nat, e: uint32, q: nat)
    requires Inv(m, drawn) && Page(m, d, p) && Page(m, e, q)
    requires SlotOf(m, d, p) in drawn && SlotOf(m, e, q) in drawn
    requires Lookup(m, d, p) == Lookup(m, e, q)
    ensures p == q && Shares(m, d, e, p)
  {
    hide Hi, Lo, Coherent, Homes;
    assert Held(m, SlotOf(m, d, p)) && Held(m, SlotOf(m, e, q));
    assert SlotOf(m, d, p) == SlotOf(m, e, q);
    PageParts(p, q);
  }

  // Mapping an absent page on a drawn frame and freeing it again leaves the flat map and the set of
  // taken frames, and with it every word of the bitmap, as they were.
  lemma AllocateThenFree(m: Machine, d: uint32, p: nat, e: uint32, q: nat)
    requires CanAllocate(m, d, p) && OneIndex(m) && Page(m, e, q)
    requires Lookup(m, d, p).Unmapped? && FirstFree(m.taken, 0, m.frames) < m.reserved
    ensures var r := FreePage(AllocatePage(m, d, p, 0), d, p, true);
            r.taken == m.taken && Lookup(r, e, q) == Lookup(m, e, q)
  {
    hide Hi, Lo, Virtual2Physical;
    var a := AllocatePage(m, d, p, 0);
    AllocateRefines(m, d, p, 0, e, q);
    AllocateKeepsOneIndex(m, d, p, 0);
    FreeRefines(a, d, p, true, e, q);
  }

  // ---- shared directories ----

  ghost predicate Agree(m: Machine, d: uint32, e: uint32, i: nat) {
    d in m.dirs && e in m.dirs && i < ENTRIES && m.dirs[d].refs[i] == m.dirs[e].refs[i] != 0
    && m.dirs[d].tables[i] == m.dirs[e].tables[i]
  }

  // After the copy both directories translate every address alike.
  lemma CopyTranslatesAlike(m: Machine, src: uint32, dst: uint32, va: uint32)
    requires Shaped(m) && src in m.dirs && dst in m.dirs
    ensures var r := CopyDirectory(m, src, dst);
            Virtual2Physical(r, dst, va) == Virtual2Physical(r, src, va) == Virtual2Physical(m, src, va)
    ensures forall i | 0 <= i < ENTRIES && m.dirs[src].refs[i] != 0 :: Agree(CopyDirectory(m, src, dst), src, dst, i)
  {
    hide Hi, Lo;
  }

  // The copy is the only directory that changes, and a new directory maps nothing.
  lemma CopyLeavesOthers(m: Machine, src: uint32, dst: uint32, e: uint32, va: uint32)
    requires Shaped(m) && src in m.dirs && dst in m.dirs && e in m.dirs && e != dst
    ensures Virtual2Physical(CopyDirectory(m, src, dst), e, va) == Virtual2Physical(m, e, va)
    ensures CopyDirectory(m, src, dst).taken == m.taken && CopyDirectory(m, src, dst).tables == m.tables
  {
    hide Hi, Lo;
  }

  lemma NewMapsNothing(m: Machine, d: uint32, e: uint32, q: nat)
    requires Shaped(m) && d != 0 && (e == d || e in m.dirs) && q < PAGES
    ensures Lookup(NewDirectory(m, d), e, q) == if e == d then Unmapped else Lookup(m, e, q)
    ensures forall i :: 0 <= i < ENTRIES ==> !NewDirectory(m, d).dirs[d].tables[i].present
    ensures NewDirectory(m, d).taken == m.taken && NewDirectory(m, d).tables == m.tables
  {
    hide Hi, Lo;
  }

  lemma StepAgrees(m: Machine, drawn: set<Slot>, e: Event, c: uint32, i: nat)
    requires Allowed(m, drawn, e) && Agree(m, m.kernelDir, c, i)
    ensures Agree(Step(m, drawn, e), m.kernelDir, c, i) && Step(m, drawn, e).kernelDir == m.kernelDir
  {
    hide Hi, Lo, Lookup, LinkHome, IsHome, NextTable, AllocatePage;
    match e
    case Draw(d, p) => AllocateLinks(m, d, p, 0, c, i); AllocateLinks(m, d, p, 0, m.kernelDir, i);
    case Pin(d, p, frame) => AllocateLinks(m, d, p, frame, c, i); AllocateLinks(m, d, p, frame, m.kernelDir, i);
    case _ =>
  }

  // A table that both directories linked stays common to them, whatever is mapped or freed through
  // either or through any other directory, so they keep translating its 4 MiB alike.
  lemma {:induction false} SharedForever(m: Machine, drawn: set<Slot>, events: seq<Event>, c: uint32, i: nat)
    requires Runs(m, drawn, events) && Shaped(m) && Agree(m, m.kernelDir, c, i)
    ensures var r := End(m, drawn, events).0;
            && Shaped(r) && Agree(r, m.kernelDir, c, i)
            && forall p | Page(r, c, p) && Hi(p) == i :: Lookup(r, c, p) == Lookup(r, m.kernelDir, p)
    decreases |events|
  {
    hide Hi, Lo, Allowed, Step, DrawnAfter;
    if events != [] {
      var r := Step(m, drawn, events[0]);
      StepAgrees(m, drawn, events[0], c, i);
      StepShaped(m, drawn, events[0]);
      SharedForever(r, DrawnAfter(m, drawn, events[0]), events[1..], c, i);
    }
  }

  lemma StepShaped(m: Machine, drawn: set<Slot>, e: Event)
    requires Allowed(m, drawn, e)
    ensures Shaped(Step(m, drawn, e))
  {
  }

  // No common table at index i.
  ghost predicate Private(m: Machine, d: uint32, e: uint32, i: nat) {
    d in m.dirs && e in m.dirs && d != e && i < ENTRIES
    && (m.dirs[d].refs[i] == m.dirs[e].refs[i] ==> m.dirs[d].refs[i] == 0)
  }

  lemma StepPrivate(m: Machine, drawn: set<Slot>, ev: Event, d: uint32, e: uint32, i: nat)
    requires Allowed(m, drawn, ev) && Private(m, d, e, i) && !ev.Share?
    ensures Private(Step(m, drawn, ev), d, e, i)
  {
    hide Hi, Lo, Lookup, LinkHome, IsHome, NextTable, AllocatePage;
    match ev
    case Draw(a, p) => AllocateLinks(m, a, p, 0, d, i); AllocateLinks(m, a, p, 0, e, i);
    case Pin(a, p, frame) => AllocateLinks(m, a, p, frame, d, i); AllocateLinks(m, a, p, frame, e, i);
    case _ =>
  }

  // Where there was no common table, none appears without a further copy.
  lemma {:induction false} PrivateForever(
      m: Machine, drawn: set<Slot>, events: seq<Event>, d: uint32, e: uint32, i: nat)
    requires Runs(m, drawn, events) && Shaped(m) && Private(m, d, e, i)
    requires forall k | 0 <= k < |events| :: !events[k].Share?
    ensures Private(End(m, drawn, events).0, d, e, i)
    decreases |events|
  {
    hide Allowed, Step, DrawnAfter, Private;
    if events != [] {
      StepPrivate(m, drawn, events[0], d, e, i);
      StepShaped(m, drawn, events[0]);
      PrivateForever(Step(m, drawn, events[0]), DrawnAfter(m, drawn, events[0]), events[1..], d, e, i);
    }
  }

  // What happens to a private page stays out of the other directory.
  lemma PrivatePage(m: Machine, d: uint32, p: nat, frame: uint32, free: bool, e: uint32, q: nat)
    requires CanAllocate(m, d, p) && OneIndex(m) && Private(m, d, e, Hi(p)) && q < PAGES
    ensures Lookup(AllocatePage(m, d, p, frame), e, q) == Lookup(m, e, q) == Lookup(FreePage(m, d, p, free), e, q)
  {
    hide Hi, Lo, Virtual2Physical;
    AllocateRefines(m, d, p, frame, e, q);
    FreeRefines(m, d, p, free, e, q);
  }
}
