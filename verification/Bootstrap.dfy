/** The kernel's first page directory: the linear map that first-fit allocation leaves behind. */
module Bootstrap {
  import opened Words
  import opened FrameBitmap
  import opened PageTables
  import opened PageOwnership
  import opened PageRegions

  const DIRECTORY_SIZE := 0x2000
  const LINEAR_PAGE := 0xC_0000
  const LINEAR_PAGES := 0x401
  const IDENTITY_PAGES := 0x101

  // What holds before `InitPaging`: the bits with storage of their own are clear and more than the boot
  // draws, and the memory that the directory and its three tables take from the placement address lies
  // inside the linear range.
  predicate Ready(dir: uint32, frames: nat, reserved: nat, taken: set<nat>) {
    && Room(dir, reserved) && reserved <= frames <= PAGES
    && forall n: nat :: n < reserved ==> n !in taken
  }

  predicate Room(dir: uint32, reserved: nat) {
    && dir % PAGE == 0
    && KERNEL_BASE <= dir
    && dir as int + DIRECTORY_SIZE + 3 * PAGE <= KERNEL_BASE + LINEAR_PAGES * PAGE
    && LINEAR_PAGES < reserved
  }

  // The steps of `InitPaging`.
  function Start(dir: uint32, frames: nat, reserved: nat, taken: set<nat>): (m: Machine)
    requires Ready(dir, frames, reserved, taken)
    ensures Shaped(m)
  {
    Machine(map[dir := Directory(ZeroEntries(), ZeroRefs())], map[], taken, frames, reserved,
            false, false, dir + DIRECTORY_SIZE, [], dir, 0, 0)
  }

  function Linear(m: Machine): (r: Machine)
    requires Shaped(m)
    ensures Shaped(r)
  {
    AllocateRegion(m, m.kernelDir, LINEAR_PAGE, LINEAR_PAGES, false)
  }

  function Enabled(m: Machine): (r: Machine)
    requires Shaped(m)
    ensures Shaped(r)
  {
    m.(cr3 := Virtual2Physical(m, m.kernelDir, m.kernelDir), current := m.kernelDir, enabled := true)
  }

  function Identity(m: Machine): (r: Machine)
    requires Shaped(m)
    ensures Shaped(r)
  {
    AllocateRegion(m, m.kernelDir, 0, IDENTITY_PAGES, true)
  }

  // ---- drawing ----

  // With the frames below k taken and k free, first fit answers k.
  lemma {:induction false} FirstFreeIs(taken: set<nat>, i: nat, k: nat, count: nat)
    requires i <= k < count <= NO_FRAME && k !in taken && forall n | i <= n < k :: n in taken
    ensures FirstFree(taken, i, count) == k
    decreases k - i
  {
    if i < k {
      FirstFreeIs(taken, i + 1, k, count);
    }
  }

  // ---- one page while the placement allocator still serves ----

  // `bytes` is how much the tables have taken behind the directory.
  ghost predicate Stored(m: Machine, dir: uint32, bytes: nat) {
    && m.kernelDir == dir && m.dirs.Keys == {dir} && !m.ready && dir % PAGE == 0 && bytes % PAGE == 0
    && m.placement as int == dir + DIRECTORY_SIZE + bytes
    && forall t | t in m.tables :: dir + DIRECTORY_SIZE <= t && t + PAGE <= m.placement
  }

  ghost predicate Booting(m: Machine, drawn: set<Slot>, dir: uint32, bytes: nat) {
    Inv(m, drawn) && Stored(m, dir, bytes) && Room(dir, m.reserved) && bytes <= 3 * PAGE
  }

  predicate SameButTables(m: Machine, r: Machine) {
    r.frames == m.frames && r.reserved == m.reserved && r.enabled == m.enabled && r.cr3 == m.cr3
  }

  // Exactly one more directory entry is linked, if it was not linked already.
  ghost predicate LinksOnly(m: Machine, r: Machine, dir: uint32, i: nat) {
    && dir in m.dirs && dir in r.dirs
    && (forall k | 0 <= k < ENTRIES :: r.dirs[dir].refs[k] != 0 <==> m.dirs[dir].refs[k] != 0 || k == i)
    && (forall k | 0 <= k < ENTRIES && m.dirs[dir].refs[k] != 0 :: r.dirs[dir].refs[k] == m.dirs[dir].refs[k])
  }

  lemma PlacementFresh(m: Machine, dir: uint32, bytes: nat)
    requires Stored(m, dir, bytes)
    ensures NextTable(m) == m.placement && FreshTable(m)
  {
  }

  lemma StoredDir(m: Machine, dir: uint32, bytes: nat)
    requires Stored(m, dir, bytes)
    ensures dir in m.dirs && m.kernelDir == dir
  {
  }

  lemma TableStored(m: Machine, dir: uint32, bytes: nat, i: nat)
    requires Shaped(m) && Stored(m, dir, bytes) && i < ENTRIES && m.dirs[dir].refs[i] == 0
    requires dir as int + DIRECTORY_SIZE + bytes + PAGE < TWO_32
    ensures var r := WithTable(m, dir, i);
            Stored(r, dir, bytes + PAGE) && SameButTables(m, r) && r.taken == m.taken && LinksOnly(m, r, dir, i)
  {
    hide Virtual2Physical, NextTable;
    PlacementFresh(m, dir, bytes);
  }

  lemma PageStored(m: Machine, dir: uint32, bytes: nat, t: uint32, j: nat, frame: uint32)
    requires Shaped(m) && Stored(m, dir, bytes) && t in m.tables && j < ENTRIES && !m.tables[t][j].present
    ensures var r := WithPage(m, t, j, frame);
            && Stored(r, dir, bytes) && SameButTables(m, r) && r.dirs == m.dirs
            && r.taken == if frame == 0 then m.taken + {FirstFree(m.taken, 0, m.frames)} else m.taken
  {
    hide FirstFree;
  }

  // How the flat map, the links and the taken frames change.
  ghost predicate OnePage(m: Machine, r: Machine, dir: uint32, p: nat, frame: uint32)
    requires Shaped(m) && Shaped(r) && Page(m, dir, p) && Page(r, dir, p)
  {
    && SameButTables(m, r) && LinksOnly(m, r, dir, Hi(p))
    && r.taken == (if frame == 0 then m.taken + {FirstFree(m.taken, 0, m.frames)} else m.taken)
    && (forall q | 0 <= q < PAGES ::
          Lookup(r, dir, q) == if q == p then Mapped(Chosen(m, frame)) else Lookup(m, dir, q))
  }

  function BytesAfter(m: Machine, dir: uint32, p: nat, bytes: nat): nat
    requires Page(m, dir, p)
  {
    if m.dirs[dir].refs[Hi(p)] == 0 then bytes + PAGE else bytes
  }

  lemma AllocateStored(m: Machine, dir: uint32, bytes: nat, p: nat, frame: uint32)
    requires Shaped(m) && Stored(m, dir, bytes) && Page(m, dir, p) && Lookup(m, dir, p).Unmapped?
    requires dir as int + DIRECTORY_SIZE + bytes + PAGE < TWO_32
    ensures var r := AllocatePage(m, dir, p, frame);
            && Stored(r, dir, BytesAfter(m, dir, p, bytes)) && SameButTables(m, r) && LinksOnly(m, r, dir, Hi(p))
            && r.taken == if frame == 0 then m.taken + {FirstFree(m.taken, 0, m.frames)} else m.taken
  {
    hide Hi, Lo, FirstFree, WithTable, WithPage, NextTable, Stored, LinksOnly;
    var t := m.dirs[dir].refs[Hi(p)];
    if t != 0 {
      PageStored(m, dir, bytes, t, Lo(p), frame);
      SameLinks(m, AllocatePage(m, dir, p, frame), dir, Hi(p));
    } else {
      var a := WithTable(m, dir, Hi(p));
      TableStored(m, dir, bytes, Hi(p));
      TableReady(m, dir, Hi(p));
      PageStored(a, dir, bytes + PAGE, NextTable(m), Lo(p), frame);
      LinksMove(m, a, AllocatePage(m, dir, p, frame), dir, Hi(p));
    }
  }

  lemma SameLinks(m: Machine, r: Machine, dir: uint32, i: nat)
    requires dir in m.dirs && r.dirs == m.dirs && i < ENTRIES && m.dirs[dir].refs[i] != 0
    ensures LinksOnly(m, r, dir, i)
  {
  }

  lemma LinksMove(m: Machine, a: Machine, r: Machine, dir: uint32, i: nat)
    requires LinksOnly(m, a, dir, i) && r.dirs == a.dirs
    ensures LinksOnly(m, r, dir, i)
  {
  }

  lemma TableReady(m: Machine, d: uint32, i: nat)
    requires Shaped(m) && d in m.dirs && i < ENTRIES
    ensures var a := WithTable(m, d, i);
            NextTable(m) in a.tables && forall j | 0 <= j < ENTRIES :: !a.tables[NextTable(m)][j].present
  {
  }

  lemma BootPage(m: Machine, drawn: set<Slot>, dir: uint32, bytes: nat, p: nat, frame: uint32)
    returns (r: Machine, after: set<Slot>)
    requires Booting(m, drawn, dir, bytes) && Page(m, dir, p)
    requires Lookup(m, dir, p).Unmapped? && (frame == 0 ==> FirstFree(m.taken, 0, m.frames) < m.reserved)
    requires m.dirs[dir].refs[Hi(p)] == 0 ==> bytes <= 2 * PAGE && Home(m, drawn, m.placement)
    ensures CanAllocate(m, dir, p) && CanDraw(m, dir, p, frame)
    ensures r == AllocatePage(m, dir, p, frame) && r.reserved == m.reserved
    ensures Booting(r, after, dir, BytesAfter(m, dir, p, bytes))
    ensures after == if frame == 0 then drawn + {SlotOf(r, dir, p)} else drawn
    ensures OnePage(m, r, dir, p, frame)
  {
    hide Hi, Lo, Inv, Lookup, FirstFree, AllocatePage, Stored, LinksOnly, Shaped, FreshTable;
    InvParts(m, drawn);
    PlacementFresh(m, dir, bytes);
    r := AllocatePage(m, dir, p, frame);
    after := if frame == 0 then drawn + {SlotOf(r, dir, p)} else drawn;
    AllocateKeepsInv(m, dir, p, frame, drawn);
    AllocateStored(m, dir, bytes, p, frame);
    forall q | 0 <= q < PAGES
      ensures Lookup(r, dir, q) == if q == p then Mapped(Chosen(m, frame)) else Lookup(m, dir, q)
    {
      AllocateRefines(m, dir, p, frame, dir, q);
    }
  }

  // ---- the linear map ----

  function LinearBytes(k: nat): nat {
    if k == 0 then 0 else if k <= ENTRIES then PAGE else 2 * PAGE
  }

  function LinearMap(k: nat, q: nat): Translation {
    if LINEAR_PAGE <= q < LINEAR_PAGE + k <= PAGES then Mapped(q - LINEAR_PAGE) else Unmapped
  }

  // The state after k pages of the first region.
  ghost predicate LinearUpTo(m: Machine, drawn: set<Slot>, dir: uint32, k: nat) {
    && Booting(m, drawn, dir, LinearBytes(k)) && !m.enabled && k <= LINEAR_PAGES
    && (forall n: nat :: n < m.reserved ==> (n in m.taken <==> n < k))
    && (forall q | 0 <= q < PAGES :: Lookup(m, dir, q) == LinearMap(k, q))
    && (forall q | LINEAR_PAGE <= q < LINEAR_PAGE + k :: SlotOf(m, dir, q) in drawn)
    && (forall i | 0 <= i < ENTRIES ::
          m.dirs[dir].refs[i] != 0 <==> (k > 0 && i == 0x300) || (k > ENTRIES && i == 0x301))
  }

  lemma LinearIndex(k: nat)
    requires k < LINEAR_PAGES
    ensures Hi(LINEAR_PAGE + k) == if k < ENTRIES then 0x300 else 0x301
  {
  }

  // What drawing the next page needs.
  lemma LinearReady(m: Machine, drawn: set<Slot>, dir: uint32, k: nat)
    requires LinearUpTo(m, drawn, dir, k) && k < LINEAR_PAGES
    ensures Booting(m, drawn, dir, LinearBytes(k)) && Shaped(m) && Page(m, dir, LINEAR_PAGE + k)
    ensures Lookup(m, dir, LINEAR_PAGE + k).Unmapped? && !m.enabled
    ensures FirstFree(m.taken, 0, m.frames) == k < m.reserved
    ensures m.dirs[dir].refs[Hi(LINEAR_PAGE + k)] == 0 <==> k == 0 || k == ENTRIES
  {
    hide Hi, Lo, Inv, Stored, Lookup, FirstFree, Shaped;
    InvParts(m, drawn);
    LinearIndex(k);
    StoredDir(m, dir, LinearBytes(k));
    FirstFreeIs(m.taken, 0, k, m.frames);
  }

  lemma LinearGrows(m: Machine, r: Machine, drawn: set<Slot>, after: set<Slot>, dir: uint32, k: nat)
    requires LinearUpTo(m, drawn, dir, k) && k < LINEAR_PAGES && Booting(r, after, dir, LinearBytes(k + 1))
    requires Shaped(m) && Shaped(r) && Page(m, dir, LINEAR_PAGE + k) && Page(r, dir, LINEAR_PAGE + k)
    requires OnePage(m, r, dir, LINEAR_PAGE + k, 0) && FirstFree(m.taken, 0, m.frames) == k
    requires after == drawn + {SlotOf(r, dir, LINEAR_PAGE + k)}
    ensures LinearUpTo(r, after, dir, k + 1)
  {
    hide Hi, Lo, Lookup, FirstFree, Booting, Shaped;
    LinearIndex(k);
    LinearSlots(m, r, drawn, after, dir, k);
  }

  lemma LinearStep(m: Machine, drawn: set<Slot>, dir: uint32, k: nat)
    returns (r: Machine, after: set<Slot>)
    requires LinearUpTo(m, drawn, dir, k) && k < LINEAR_PAGES
    ensures CanAllocate(m, dir, LINEAR_PAGE + k) && CanDraw(m, dir, LINEAR_PAGE + k, 0)
    ensures r == AllocatePage(m, dir, LINEAR_PAGE + k, 0) && r.reserved == m.reserved
    ensures LinearUpTo(r, after, dir, k + 1)
  {
    hide LinearUpTo, Hi, Lo, Booting, Lookup, FirstFree, AllocatePage, Shaped, OnePage;
    LinearReady(m, drawn, dir, k);
    r, after := BootPage(m, drawn, dir, LinearBytes(k), LINEAR_PAGE + k, 0);
    LinearGrows(m, r, drawn, after, dir, k);
  }

  // Every page of the linear map so far still lies on a drawn slot.
  lemma LinearSlots(m: Machine, r: Machine, drawn: set<Slot>, after: set<Slot>, dir: uint32, k: nat)
    requires LinearUpTo(m, drawn, dir, k) && k < LINEAR_PAGES && dir in m.dirs && dir in r.dirs
    requires LinksOnly(m, r, dir, Hi(LINEAR_PAGE + k)) && after == drawn + {SlotOf(r, dir, LINEAR_PAGE + k)}
    ensures forall q | LINEAR_PAGE <= q < LINEAR_PAGE + k + 1 :: SlotOf(r, dir, q) in after
  {
    hide Hi, Lo, Booting, Lookup, LinearMap;
    forall q | LINEAR_PAGE <= q < LINEAR_PAGE + k
      ensures SlotOf(r, dir, q) in after
    {
      LinearIndex(q - LINEAR_PAGE);
      assert m.dirs[dir].refs[Hi(q)] != 0;
      assert SlotOf(r, dir, q) == SlotOf(m, dir, q);
    }
  }

  lemma {:induction false} LinearFrom(m: Machine, drawn: set<Slot>, dir: uint32, k: nat, n: nat)
    returns (r: Machine, after: set<Slot>)
    requires Shaped(m) && dir in m.dirs && LinearUpTo(m, drawn, dir, k) && k + n == LINEAR_PAGES
    ensures RegionFresh(m, dir, LINEAR_PAGE + k, n, false) && RegionDraws(m, dir, LINEAR_PAGE + k, n, false)
    ensures r == AllocateRegion(m, dir, LINEAR_PAGE + k, n, false) && r.reserved == m.reserved
    ensures LinearUpTo(r, after, dir, LINEAR_PAGES)
    decreases n
  {
    hide LinearUpTo, AllocatePage, AllocateRegion, Shaped, CanDraw, CanAllocate;
    RegionUnfolds(m, dir, LINEAR_PAGE + k, n, false);
    if n == 0 {
      r, after := m, drawn;
    } else {
      r, after := LinearStep(m, drawn, dir, k);
      LinearShape(r, after, dir, k + 1);
      r, after := LinearFrom(r, after, dir, k + 1, n - 1);
    }
  }

  lemma LinearShape(m: Machine, drawn: set<Slot>, dir: uint32, k: nat)
    requires LinearUpTo(m, drawn, dir, k)
    ensures Shaped(m) && dir in m.dirs && m.kernelDir == dir && k <= LINEAR_PAGES
  {
    hide Inv, Lookup, Stored;
    InvParts(m, drawn);
    StoredDir(m, dir, LinearBytes(k));
  }

  lemma LinearTaken(m: Machine, drawn: set<Slot>, dir: uint32)
    requires LinearUpTo(m, drawn, dir, LINEAR_PAGES)
    ensures forall n: nat :: n < m.reserved ==> (n in m.taken <==> n < LINEAR_PAGES)
  {
  }

  lemma StartLinear(dir: uint32, frames: nat, reserved: nat, taken: set<nat>)
    requires Ready(dir, frames, reserved, taken)
    ensures LinearUpTo(Start(dir, frames, reserved, taken), {}, dir, 0)
  {
    hide Hi, Lo;
    var m := Start(dir, frames, reserved, taken);
    assert HeldFrames(m, {}) == {};
    assert forall i | 0 <= i < ENTRIES :: Linked(m, dir, i);
    assert Stored(m, dir, 0);
  }

  // ---- turning paging on ----

  // The linear range translates as the formula says, before and after.
  lemma EnableTranslates(m: Machine, drawn: set<Slot>, dir: uint32)
    requires LinearUpTo(m, drawn, dir, LINEAR_PAGES)
    ensures Shaped(m) && Enabled(m).cr3 == dir - KERNEL_BASE && Enabled(m).reserved == m.reserved
    ensures forall va: uint32 | KERNEL_BASE <= va < KERNEL_BASE + LINEAR_PAGES * PAGE ::
              Physical(Enabled(m), va) == Physical(m, va) == va - KERNEL_BASE
  {
    hide Hi, Lo, Lookup, Inv;
    InvParts(m, drawn);
    var r := Enabled(m);
    forall va: uint32 | KERNEL_BASE <= va < KERNEL_BASE + LINEAR_PAGES * PAGE
      ensures Physical(r, va) == Physical(m, va) == va - KERNEL_BASE
    {
      LookupEnabled(m, dir, va / PAGE);
      assert Lookup(m, dir, va / PAGE) == LinearMap(LINEAR_PAGES, va / PAGE);
    }
  }

  // Every table lies in the linear range, on a drawn slot.
  lemma TablesLinear(m: Machine, drawn: set<Slot>, dir: uint32, t: uint32)
    requires LinearUpTo(m, drawn, dir, LINEAR_PAGES) && t in m.tables
    ensures KERNEL_BASE <= t < KERNEL_BASE + LINEAR_PAGES * PAGE && dir in m.dirs && m.kernelDir == dir
    ensures SlotOf(m, dir, t / PAGE) in drawn
  {
    hide Hi, Lo, Lookup, Inv;
    assert LINEAR_PAGE <= t / PAGE < LINEAR_PAGE + LINEAR_PAGES;
  }

  lemma EnableCoherent(m: Machine, drawn: set<Slot>, dir: uint32)
    requires LinearUpTo(m, drawn, dir, LINEAR_PAGES) && Shaped(m) && Coherent(m)
    ensures Coherent(Enabled(m)) && Homes(Enabled(m), drawn)
  {
    hide LinearUpTo, Hi, Lo, Lookup, Physical;
    LinearShape(m, drawn, dir, LINEAR_PAGES);
    EnableTranslates(m, drawn, dir);
    var r := Enabled(m);
    forall t | t in m.tables
      ensures Home(r, drawn, t) && Physical(r, t) == Physical(m, t)
    {
      TablesLinear(m, drawn, dir, t);
    }
    forall d, i | d in r.dirs && 0 <= i < ENTRIES
      ensures Linked(r, d, i)
    {
      assert Linked(m, d, i);
    }
  }

  // The pages of the two tables are mapped where they already were.
  lemma EnableKeepsInv(m: Machine, drawn: set<Slot>, dir: uint32)
    requires LinearUpTo(m, drawn, dir, LINEAR_PAGES)
    ensures Shaped(m) && Booting(Enabled(m), drawn, dir, 2 * PAGE)
  {
    LinearBooting(m, drawn, dir);
    hide LinearUpTo, Hi, Lo, Lookup, Physical, OneIndex, Homes, Coherent, Owned;
    EnableCoherent(m, drawn, dir);
    OwnedStands(m, Enabled(m), drawn);
    SameDirsOneIndex(m, Enabled(m));
  }

  lemma LinearBooting(m: Machine, drawn: set<Slot>, dir: uint32)
    requires LinearUpTo(m, drawn, dir, LINEAR_PAGES)
    ensures Booting(m, drawn, dir, 2 * PAGE)
  {
    hide Inv, Stored, Lookup;
  }

  lemma OwnedStands(m: Machine, r: Machine, drawn: set<Slot>)
    requires Owned(m, drawn) && r.tables == m.tables && r.taken == m.taken && r.reserved == m.reserved
    ensures Owned(r, drawn)
  {
    OwnedKept(m, r, drawn);
  }

  lemma SameDirsOneIndex(m: Machine, r: Machine)
    requires OneIndex(m) && r.dirs == m.dirs
    ensures OneIndex(r)
  {
  }

  lemma LookupEnabled(m: Machine, d: uint32, q: nat)
    requires Shaped(m) && Page(m, d, q)
    ensures Lookup(Enabled(m), d, q) == Lookup(m, d, q)
  {
    hide Hi, Lo;
  }

  // ---- the identity map ----

  // Page 0 asks for "frame 0", which draws a frame instead: the one after the linear map.
  function IdentityMap(k: nat, q: nat): Translation {
    if q < k && q < PAGES then Mapped(if q == 0 then LINEAR_PAGES else q) else LinearMap(LINEAR_PAGES, q)
  }

  ghost predicate IdentityUpTo(m: Machine, drawn: set<Slot>, dir: uint32, k: nat) {
    && Booting(m, drawn, dir, if k == 0 then 2 * PAGE else 3 * PAGE)
    && m.enabled && m.cr3 == dir - KERNEL_BASE && k <= IDENTITY_PAGES
    && (forall n: nat :: n < m.reserved ==> (n in m.taken <==> n < LINEAR_PAGES + (if k == 0 then 0 else 1)))
    && (forall q | 0 <= q < PAGES :: Lookup(m, dir, q) == IdentityMap(k, q))
    && (forall q | LINEAR_PAGE <= q < LINEAR_PAGE + LINEAR_PAGES ::
          m.dirs[dir].refs[Hi(q)] != 0 && SlotOf(m, dir, q) in drawn)
    && (m.dirs[dir].refs[0] != 0 <==> k > 0)
  }

  lemma IdentityIndex(k: nat)
    requires k < IDENTITY_PAGES
    ensures Hi(k) == 0
  {
  }

  lemma IdentityShape(m: Machine, drawn: set<Slot>, dir: uint32, k: nat)
    requires IdentityUpTo(m, drawn, dir, k)
    ensures Shaped(m) && dir in m.dirs && m.kernelDir == dir && k <= IDENTITY_PAGES
    ensures LINEAR_PAGES < m.reserved <= m.frames <= NO_FRAME
    ensures k == 0 ==> Home(m, drawn, m.placement)
  {
    hide Inv, Lookup, Hi, Lo;
    InvParts(m, drawn);
    if k == 0 {
      assert LINEAR_PAGE <= m.placement / PAGE < LINEAR_PAGE + LINEAR_PAGES;
    }
  }

  lemma IdentityStep(m: Machine, drawn: set<Slot>, dir: uint32, k: nat)
    returns (r: Machine, after: set<Slot>)
    requires IdentityUpTo(m, drawn, dir, k) && k < IDENTITY_PAGES
    ensures CanAllocate(m, dir, k) && CanDraw(m, dir, k, k)
    ensures r == AllocatePage(m, dir, k, k) && r.reserved == m.reserved
    ensures IdentityUpTo(r, after, dir, k + 1)
  {
    hide Hi, Lo, Inv, Stored, Lookup, FirstFree, AllocatePage, Shaped;
    IdentityShape(m, drawn, dir, k);
    IdentityIndex(k);
    if k == 0 {
      FirstFreeIs(m.taken, 0, LINEAR_PAGES, m.frames);
    }
    r, after := BootPage(m, drawn, dir, if k == 0 then 2 * PAGE else 3 * PAGE, k, k);
    StoredDir(r, dir, 3 * PAGE);
    forall q | LINEAR_PAGE <= q < LINEAR_PAGE + LINEAR_PAGES
      ensures r.dirs[dir].refs[Hi(q)] != 0 && SlotOf(r, dir, q) in after
    {
      assert SlotOf(r, dir, q) == SlotOf(m, dir, q);
    }
  }

  lemma {:induction false} IdentityFrom(m: Machine, drawn: set<Slot>, dir: uint32, k: nat, n: nat)
    returns (r: Machine, after: set<Slot>)
    requires Shaped(m) && dir in m.dirs && IdentityUpTo(m, drawn, dir, k) && k + n == IDENTITY_PAGES
    ensures RegionFresh(m, dir, k, n, true) && RegionDraws(m, dir, k, n, true)
    ensures r == AllocateRegion(m, dir, k, n, true) && r.reserved == m.reserved
    ensures IdentityUpTo(r, after, dir, IDENTITY_PAGES)
    decreases n
  {
    hide IdentityUpTo, AllocatePage, AllocateRegion, Shaped, CanDraw, CanAllocate;
    RegionUnfolds(m, dir, k, n, true);
    if n == 0 {
      r, after := m, drawn;
    } else {
      r, after := IdentityStep(m, drawn, dir, k);
      IdentityShape(r, after, dir, k + 1);
      r, after := IdentityFrom(r, after, dir, k + 1, n - 1);
    }
  }

  lemma StartIdentity(m: Machine, drawn: set<Slot>, dir: uint32)
    requires LinearUpTo(m, drawn, dir, LINEAR_PAGES)
    ensures Shaped(m) && IdentityUpTo(Enabled(m), drawn, dir, 0)
  {
    hide Hi, Lo, Lookup, Inv, Stored, Shaped;
    LinearShape(m, drawn, dir, LINEAR_PAGES);
    EnableTranslates(m, drawn, dir);
    EnableKeepsInv(m, drawn, dir);
    forall q | 0 <= q < PAGES
      ensures Lookup(Enabled(m), dir, q) == IdentityMap(0, q)
    {
      LookupEnabled(m, dir, q);
    }
    forall q | LINEAR_PAGE <= q < LINEAR_PAGE + LINEAR_PAGES
      ensures m.dirs[dir].refs[Hi(q)] != 0 && SlotOf(m, dir, q) in drawn
    {
      LinearIndex(q - LINEAR_PAGE);
    }
    assert m.dirs[dir].refs[0] == 0;
  }

  // ---- the whole of `InitPaging` ----

  function Booted(dir: uint32, frames: nat, reserved: nat, taken: set<nat>): Machine
    requires Ready(dir, frames, reserved, taken)
  {
    Identity(Enabled(Linear(Start(dir, frames, reserved, taken))))
  }

  // What every address translates to once the kernel has set up its directory.
  function BootMap(va: uint32): uint32 {
    if va < 0x1000 then 0x40_1000 + va
    else if va < 0x10_1000 then va
    else if 0xC000_0000 <= va < 0xC040_1000 then va - 0xC000_0000
    else 0
  }

  // Before paging is on, the formula `address - 0xC0000000` already agrees with the walk on the
  // linear range; the second region leaves that range alone, and the run invariant holds from here on.
  lemma BootTranslates(dir: uint32, frames: nat, reserved: nat, taken: set<nat>) returns (drawn: set<Slot>)
    requires Ready(dir, frames, reserved, taken)
    ensures var linear, r := Linear(Start(dir, frames, reserved, taken)), Booted(dir, frames, reserved, taken);
            && (forall va: uint32 | KERNEL_BASE <= va < KERNEL_BASE + LINEAR_PAGES * PAGE ::
                  Physical(linear, va) == Physical(Enabled(linear), va) == va - KERNEL_BASE)
            && RegionDraws(Start(dir, frames, reserved, taken), dir, LINEAR_PAGE, LINEAR_PAGES, false)
            && RegionDraws(Enabled(linear), dir, 0, IDENTITY_PAGES, true)
            && (forall n: nat :: n < reserved ==> (n in linear.taken <==> n < LINEAR_PAGES))
            && Inv(r, drawn) && r.enabled && r.kernelDir == dir && r.cr3 == dir - KERNEL_BASE && r.reserved == reserved
            && (forall va: uint32 :: Virtual2Physical(r, dir, va) == BootMap(va))
            && (forall n: nat :: n < reserved ==> (n in r.taken <==> n <= LINEAR_PAGES))
            && Stored(r, dir, 3 * PAGE)
  {
    hide AllocateRegion, Inv, LinearUpTo, IdentityUpTo, Physical, Shaped, Lookup, RegionDraws, Virtual2Physical;
    hide Enabled, Stored;
    var m, slots := LinearBoot(dir, frames, reserved, taken);
    LinearTaken(m, slots, dir);
    EnableTranslates(m, slots, dir);
    StartIdentity(m, slots, dir);
    m, drawn := IdentityBoot(Enabled(m), slots, dir);
    BootTranslation(m, drawn, dir);
  }

  lemma LinearBoot(dir: uint32, frames: nat, reserved: nat, taken: set<nat>) returns (m: Machine, drawn: set<Slot>)
    requires Ready(dir, frames, reserved, taken)
    ensures m == Linear(Start(dir, frames, reserved, taken)) && m.kernelDir == dir && m.reserved == reserved
    ensures LinearUpTo(m, drawn, dir, LINEAR_PAGES)
    ensures RegionDraws(Start(dir, frames, reserved, taken), dir, LINEAR_PAGE, LINEAR_PAGES, false)
  {
    hide AllocateRegion, LinearUpTo, Shaped, RegionDraws;
    m := Start(dir, frames, reserved, taken);
    StartLinear(dir, frames, reserved, taken);
    LinearShape(m, {}, dir, 0);
    m, drawn := LinearFrom(m, {}, dir, 0, LINEAR_PAGES);
    LinearShape(m, drawn, dir, LINEAR_PAGES);
  }

  lemma IdentityBoot(m: Machine, slots: set<Slot>, dir: uint32) returns (r: Machine, drawn: set<Slot>)
    requires IdentityUpTo(m, slots, dir, 0)
    ensures Shaped(m) && m.kernelDir == dir && RegionDraws(m, dir, 0, IDENTITY_PAGES, true)
    ensures r == Identity(m) && r.reserved == m.reserved && IdentityUpTo(r, drawn, dir, IDENTITY_PAGES)
  {
    hide AllocateRegion, IdentityUpTo, Shaped, RegionDraws;
    IdentityShape(m, slots, dir, 0);
    r, drawn := IdentityFrom(m, slots, dir, 0, IDENTITY_PAGES);
  }

  lemma BootTranslation(m: Machine, drawn: set<Slot>, dir: uint32)
    requires IdentityUpTo(m, drawn, dir, IDENTITY_PAGES)
    ensures Inv(m, drawn) && m.enabled && m.kernelDir == dir && m.cr3 == dir - KERNEL_BASE
    ensures Shaped(m) && dir in m.dirs && forall va: uint32 :: Virtual2Physical(m, dir, va) == BootMap(va)
    ensures forall n: nat :: n < m.reserved ==> (n in m.taken <==> n <= LINEAR_PAGES)
    ensures Stored(m, dir, 3 * PAGE)
  {
    hide Inv, Lookup, Shaped, Stored;
    IdentityShape(m, drawn, dir, IDENTITY_PAGES);
    forall va: uint32
      ensures Virtual2Physical(m, dir, va) == BootMap(va)
    {
      assert Lookup(m, dir, va / PAGE) == IdentityMap(IDENTITY_PAGES, va / PAGE);
    }
  }

  // Whatever is mapped, freed, copied and created after boot, the invariant holds.
  lemma FromBootOn(dir: uint32, frames: nat, reserved: nat, taken: set<nat>) returns (drawn: set<Slot>)
    requires Ready(dir, frames, reserved, taken)
    ensures forall events | Runs(Booted(dir, frames, reserved, taken), drawn, events) ::
              var (m, after) := End(Booted(dir, frames, reserved, taken), drawn, events); Inv(m, after)
  {
    hide Inv, Runs, End;
    drawn := BootTranslates(dir, frames, reserved, taken);
    var m := Booted(dir, frames, reserved, taken);
    forall events | Runs(m, drawn, events)
      ensures var (r, after) := End(m, drawn, events); Inv(r, after)
    {
      RunInv(m, drawn, events);
    }
  }

  // From boot on every mapped page can be written, from user mode too.
  lemma WritableFromBootOn(dir: uint32, frames: nat, reserved: nat, taken: set<nat>, drawn: set<Slot>,
                           events: seq<Event>)
    requires Ready(dir, frames, reserved, taken) && Runs(Booted(dir, frames, reserved, taken), drawn, events)
    ensures UserWritable(End(Booted(dir, frames, reserved, taken), drawn, events).0)
  {
    hide UserWritable, Runs, End, Booted;
    BootedUserWritable(dir, frames, reserved, taken);
    RunUserWritable(Booted(dir, frames, reserved, taken), drawn, events);
  }

  lemma BootedUserWritable(dir: uint32, frames: nat, reserved: nat, taken: set<nat>)
    requires Ready(dir, frames, reserved, taken)
    ensures UserWritable(Booted(dir, frames, reserved, taken))
  {
    var start := Start(dir, frames, reserved, taken);
    assert UserWritable(start);
    hide UserWritable, AllocateRegion, Shaped, Enabled;
    RegionUserWritable(start, dir, LINEAR_PAGE, LINEAR_PAGES, false);
    EnabledUserWritable(Linear(start));
    EnabledDir(dir, frames, reserved, taken);
    RegionUserWritable(Enabled(Linear(start)), dir, 0, IDENTITY_PAGES, true);
  }

  lemma EnabledUserWritable(m: Machine)
    requires Shaped(m) && UserWritable(m)
    ensures UserWritable(Enabled(m))
  {
  }

  // ---- the same on a machine whose shared bits change as it goes ----

  lemma FirstRegion(dir: uint32, frames: nat, reserved: nat, taken: set<nat>, first: Machine)
    requires Ready(dir, frames, reserved, taken) && SameLow(Start(dir, frames, reserved, taken), first)
    ensures Shaped(first) && dir in first.dirs && RegionDraws(first, dir, LINEAR_PAGE, LINEAR_PAGES, false)
    ensures SameLow(Linear(Start(dir, frames, reserved, taken)),
                    AllocateRegion(first, dir, LINEAR_PAGE, LINEAR_PAGES, false))
  {
    hide AllocateRegion, Shaped, RegionDraws;
    var start := Start(dir, frames, reserved, taken);
    DrawLow(start, first);
    var _, _ := LinearBoot(dir, frames, reserved, taken);
    RegionLow(start, first, dir, LINEAR_PAGE, LINEAR_PAGES, false);
  }

  lemma EnabledLow(linear: Machine, second: Machine, dir: uint32)
    requires Shaped(linear) && linear.kernelDir == dir && dir in linear.dirs && SameLow(linear, second)
    ensures Shaped(second) && dir in second.dirs && second.kernelDir == dir
    ensures var e := second.(cr3 := Virtual2Physical(second, dir, dir), current := dir, enabled := true);
            Shaped(e) && SameLow(Enabled(linear), e)
  {
    hide Lookup;
    DrawLow(linear, second);
    PhysicalLow(linear, second, dir, dir);
  }

  lemma SecondRegion(dir: uint32, frames: nat, reserved: nat, taken: set<nat>, first: Machine, second: Machine)
    requires Ready(dir, frames, reserved, taken) && SameLow(Start(dir, frames, reserved, taken), first)
    requires Shaped(first) && dir in first.dirs
    requires SameLow(AllocateRegion(first, dir, LINEAR_PAGE, LINEAR_PAGES, false), second)
    ensures Shaped(second) && dir in second.dirs && second.kernelDir == dir
    ensures var e := second.(cr3 := Virtual2Physical(second, dir, dir), current := dir, enabled := true);
            Shaped(e) && SameLow(Enabled(Linear(Start(dir, frames, reserved, taken))), e)
            && RegionDraws(e, dir, 0, IDENTITY_PAGES, true)
  {
    hide AllocateRegion, Shaped, RegionDraws, Virtual2Physical, SameLow, Start, Enabled, LinearUpTo;
    var linear, slots := LinearBoot(dir, frames, reserved, taken);
    FirstRegion(dir, frames, reserved, taken, first);
    SameLowTwice(linear, AllocateRegion(first, dir, LINEAR_PAGE, LINEAR_PAGES, false), second);
    LinearShape(linear, slots, dir, LINEAR_PAGES);
    EnabledLow(linear, second, dir);
    var e := second.(cr3 := Virtual2Physical(second, dir, dir), current := dir, enabled := true);
    StartIdentity(linear, slots, dir);
    var _, _ := IdentityBoot(Enabled(linear), slots, dir);
    RegionLow(Enabled(linear), e, dir, 0, IDENTITY_PAGES, true);
  }

  lemma BootedLow(dir: uint32, frames: nat, reserved: nat, taken: set<nat>, second: Machine, r: Machine)
    returns (drawn: set<Slot>)
    requires Ready(dir, frames, reserved, taken) && Shaped(second) && dir in second.dirs
    requires SameLow(Enabled(Linear(Start(dir, frames, reserved, taken))), second)
    requires SameLow(AllocateRegion(second, dir, 0, IDENTITY_PAGES, true), r)
    ensures Shaped(r) && dir in r.dirs && SameLow(Booted(dir, frames, reserved, taken), r) && Inv(r, drawn)
    ensures forall va: uint32 :: Virtual2Physical(r, dir, va) == BootMap(va)
    ensures r.cr3 == dir - 0xC000_0000 && r.placement as int == dir + 0x5000
    ensures forall t | t in r.tables :: dir + 0x2000 <= t <= dir + 0x4000
  {
    hide AllocateRegion, Shaped, RegionDraws, Virtual2Physical, Inv, Linear, Enabled;
    drawn := BootTranslates(dir, frames, reserved, taken);
    var booted := Booted(dir, frames, reserved, taken);
    var e := Enabled(Linear(Start(dir, frames, reserved, taken)));
    EnabledDir(dir, frames, reserved, taken);
    RegionLow(e, second, dir, 0, IDENTITY_PAGES, true);
    SameLowTwice(booted, AllocateRegion(second, dir, 0, IDENTITY_PAGES, true), r);
    InvParts(booted, drawn);
    DrawLow(booted, r);
    LowKeepsInv(booted, r, drawn);
    forall va: uint32
      ensures Virtual2Physical(r, dir, va) == BootMap(va)
    {
      PhysicalLow(booted, r, dir, va);
    }
  }

  lemma EnabledDir(dir: uint32, frames: nat, reserved: nat, taken: set<nat>)
    requires Ready(dir, frames, reserved, taken)
    ensures var e := Enabled(Linear(Start(dir, frames, reserved, taken)));
            Shaped(e) && dir in e.dirs && e.kernelDir == dir
  {
    hide AllocateRegion, Shaped;
    var linear, slots := LinearBoot(dir, frames, reserved, taken);
    LinearShape(linear, slots, dir, LINEAR_PAGES);
  }
}
