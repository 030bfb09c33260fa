/** Two-level page tables as the code writes them, and the flat map from page to frame they stand for. */
module PageTables {
  import opened Words
  import opened FrameBitmap

  const ENTRIES := 0x400
  const PAGES := 0x10_0000
  const KERNEL_BASE := 0xC000_0000

  // The 20-bit frame field of an entry.
  type Frame = n: int | 0 <= n < PAGES

  datatype PageEntry = PageEntry(present: bool, rw: bool, user: bool, frame: Frame)
  datatype DirEntry = DirEntry(present: bool, rw: bool, user: bool, pageSize: bool, frame: Frame)

  type PageTable = s: seq<PageEntry> | |s| == ENTRIES witness ZeroTable()
  type DirEntries = s: seq<DirEntry> | |s| == ENTRIES witness ZeroEntries()
  type TableRefs = s: seq<uint32> | |s| == ENTRIES witness ZeroRefs()

  function ZeroTable(): (s: seq<PageEntry>)
    ensures |s| == ENTRIES
  {
    seq(ENTRIES, _ => PageEntry(false, false, false, 0))
  }

  function ZeroEntries(): (s: seq<DirEntry>)
    ensures |s| == ENTRIES
  {
    seq(ENTRIES, _ => DirEntry(false, false, false, false, 0))
  }

  function ZeroRefs(): (s: seq<uint32>)
    ensures |s| == ENTRIES
  {
    seq(ENTRIES, _ => 0)
  }

  // `tables` is what the processor walks, `refs` what the code walks.
  datatype Directory = Directory(tables: DirEntries, refs: TableRefs)

  // Everything the paging code reads or writes. Directories and tables are keyed by virtual address;
  // `supply` holds the table addresses the initialised heap is going to hand out. Of the `frames` bits
  // of the bitmap only the first `reserved` have storage of their own: the others share theirs with
  // what was allocated next, the directory and the tables.
  datatype Machine = Machine(
    dirs: map<uint32, Directory>, tables: map<uint32, PageTable>, taken: set<nat>, frames: nat, reserved: nat,
    enabled: bool, ready: bool, placement: uint32, supply: seq<uint32>, kernelDir: uint32, cr3: uint32, current: uint32)

  predicate Shaped(m: Machine) {
    && m.reserved <= m.frames <= PAGES
    && m.kernelDir in m.dirs
    && 0 !in m.dirs
    && forall d, i | d in m.dirs && 0 <= i < ENTRIES && m.dirs[d].refs[i] != 0 :: m.dirs[d].refs[i] in m.tables
  }

  predicate Page(m: Machine, d: uint32, p: nat) {
    d in m.dirs && p < PAGES
  }

  function Hi(p: nat): (i: nat)
    ensures p < PAGES ==> i < ENTRIES
  {
    p / ENTRIES
  }

  function Lo(p: nat): (j: nat)
    ensures j < ENTRIES
  {
    p % ENTRIES
  }

  lemma PageParts(p: nat, q: nat)
    ensures Hi(p) == Hi(q) && Lo(p) == Lo(q) <==> p == q
  {
  }

  // ---- the flat map ----

  datatype Translation = Unmapped | Mapped(frame: Frame)

  function Read(e: PageEntry): Translation {
    if e.present then Mapped(e.frame) else Unmapped
  }

  function Lookup(m: Machine, d: uint32, p: nat): Translation
    requires Shaped(m) && Page(m, d, p)
  {
    var t := m.dirs[d].refs[Hi(p)];
    if t == 0 then Unmapped else Read(m.tables[t][Lo(p)])
  }

  function Virtual2Physical(m: Machine, d: uint32, va: uint32): uint32
    requires Shaped(m) && d in m.dirs
  {
    if !m.enabled then Wrap(va - KERNEL_BASE) else
    match Lookup(m, d, va / PAGE)
    case Unmapped => 0
    case Mapped(f) => f * PAGE + va % PAGE
  }

  // ---- the operations ----

  // The placement branch of `malloc_` with alignment: up to the next page boundary, which past the last page is 0.
  function Aligned(address: uint32): (r: uint32)
    ensures r % PAGE == 0
    ensures address <= TWO_32 - PAGE ==> address <= r < address + PAGE
    ensures address > TWO_32 - PAGE ==> r == 0
    ensures address % PAGE == 0 ==> r == address
  {
    if address % PAGE != 0 then Wrap(PageMask(address) + PAGE) else address
  }

  function NextTable(m: Machine): uint32 {
    if !m.ready then Aligned(m.placement) else if m.supply == [] then 0 else m.supply[0]
  }

  // A zeroed table has been allocated and is not yet linked.
  function TableTaken(m: Machine): (r: Machine)
    requires Shaped(m)
    ensures Shaped(r)
    ensures r == m.(tables := m.tables[NextTable(m) := ZeroTable()], placement := r.placement, supply := r.supply)
  {
    var a := m.(tables := m.tables[NextTable(m) := ZeroTable()]);
    if !m.ready then a.(placement := Wrap(NextTable(m) + PAGE))
    else if m.supply == [] then a else a.(supply := m.supply[1..])
  }

  // Tables made one after the other lie behind what was placed before, and apart.
  lemma TablesFollow(m: Machine)
    requires Shaped(m) && !m.ready && m.placement as int + 3 * PAGE <= TWO_32
    ensures var t, a := NextTable(m), TableTaken(m);
      && m.placement <= t < m.placement + PAGE && t % PAGE == 0 && a.placement == t + PAGE
      && NextTable(a) == t + PAGE && TableTaken(a).placement == t + 2 * PAGE
      && (m.placement % PAGE == 0 ==> t == m.placement)
  {
  }

  function WithTable(m: Machine, d: uint32, i: nat): (r: Machine)
    requires Shaped(m) && d in m.dirs && i < ENTRIES
    ensures Shaped(r) && r.dirs.Keys == m.dirs.Keys
  {
    var t := NextTable(m);
    var a := TableTaken(m);
    var e := DirEntry(true, true, true, false, Virtual2Physical(a, m.kernelDir, t) / PAGE);
    a.(dirs := m.dirs[d := Directory(m.dirs[d].tables[i := e], m.dirs[d].refs[i := t])])
  }

  function WithPage(m: Machine, t: uint32, j: nat, frame: uint32): (r: Machine)
    requires Shaped(m) && t in m.tables && j < ENTRIES
    ensures Shaped(r) && r.dirs.Keys == m.dirs.Keys
  {
    if m.tables[t][j].present then m else
    var f := if frame != 0 then frame else FirstFree(m.taken, 0, m.frames);
    m.(tables := m.tables[t := m.tables[t][j := PageEntry(true, true, true, f % PAGES)]],
       taken := if frame != 0 then m.taken else m.taken + {f})
  }

  // A frame argument of 0 asks for the least free frame.
  function AllocatePage(m: Machine, d: uint32, p: nat, frame: uint32): (r: Machine)
    requires Shaped(m) && Page(m, d, p)
    ensures Shaped(r) && r.dirs.Keys == m.dirs.Keys
  {
    var t := m.dirs[d].refs[Hi(p)];
    if t != 0 then WithPage(m, t, Lo(p), frame)
    else WithPage(WithTable(m, d, Hi(p)), NextTable(m), Lo(p), frame)
  }

  function FreePage(m: Machine, d: uint32, p: nat, free: bool): (r: Machine)
    requires Shaped(m) && Page(m, d, p)
    ensures Shaped(r)
  {
    var t := m.dirs[d].refs[Hi(p)];
    if t == 0 || !m.tables[t][Lo(p)].present then m else
    var e := m.tables[t][Lo(p)];
    m.(tables := m.tables[t := m.tables[t][Lo(p) := e.(present := false, frame := 0)]],
       taken := if free then m.taken - {e.frame} else m.taken)
  }

  function AllocateRegion(m: Machine, d: uint32, p: nat, n: nat, identity: bool): (r: Machine)
    requires Shaped(m) && d in m.dirs && p + n <= PAGES
    ensures Shaped(r) && r.dirs.Keys == m.dirs.Keys
    decreases n
  {
    if n == 0 then m else
    AllocateRegion(AllocatePage(m, d, p, if identity then p else 0), d, p + 1, n - 1, identity)
  }

  // Copying a directory all of whose tables are the kernel's own shares every table.
  function CopyDirectory(m: Machine, src: uint32, dst: uint32): (r: Machine)
    requires Shaped(m) && src in m.dirs && dst in m.dirs
    ensures Shaped(r)
  {
    m.(dirs := m.dirs[dst := m.dirs[src]])
  }

  // `Init` of a manager with `shouldClear`.
  function NewDirectory(m: Machine, d: uint32): (r: Machine)
    requires Shaped(m) && d != 0
    ensures Shaped(r)
  {
    m.(dirs := m.dirs[d := Directory(ZeroEntries(), ZeroRefs())])
  }

  // From now on tables come from the heap, which will answer with `answers`.
  function WithHeap(m: Machine, answers: seq<uint32>): Machine {
    m.(ready := true, supply := answers)
  }

  // ---- the shared part of the bitmap ----

  // The bits without storage of their own may be anything.
  function WithHigh(m: Machine, high: set<nat>): Machine {
    m.(taken := (set n | n in m.taken && n < m.reserved) + (set n | n in high && n >= m.reserved))
  }

  // The machines differ at most in those bits.
  ghost predicate SameLow(m: Machine, r: Machine) {
    r == m.(taken := r.taken) && forall n: nat :: n < m.reserved ==> (n in r.taken <==> n in m.taken)
  }

  // A draw, if one is made, finds a frame whose bit has storage of its own.
  predicate CanDraw(m: Machine, d: uint32, p: nat, frame: uint32)
    requires Shaped(m) && Page(m, d, p)
  {
    Lookup(m, d, p).Unmapped? && frame == 0 ==> FirstFree(m.taken, 0, m.frames) < m.reserved
  }

  lemma DrawLow(m: Machine, r: Machine)
    requires Shaped(m) && SameLow(m, r)
    ensures Shaped(r)
    ensures FirstFree(m.taken, 0, m.frames) < m.reserved <==> FirstFree(r.taken, 0, r.frames) < r.reserved
    ensures FirstFree(m.taken, 0, m.frames) < m.reserved ==>
              FirstFree(r.taken, 0, r.frames) == FirstFree(m.taken, 0, m.frames)
  {
    FirstFreeLow(m.taken, r.taken, 0, m.frames, m.reserved);
  }

  lemma LookupLow(m: Machine, r: Machine, d: uint32, p: nat)
    requires Shaped(m) && SameLow(m, r) && Shaped(r) && Page(m, d, p)
    ensures Lookup(r, d, p) == Lookup(m, d, p)
  {
  }

  lemma PhysicalLow(m: Machine, r: Machine, d: uint32, va: uint32)
    requires Shaped(m) && SameLow(m, r) && Shaped(r) && d in m.dirs
    ensures Virtual2Physical(r, d, va) == Virtual2Physical(m, d, va)
  {
    LookupLow(m, r, d, va / PAGE);
  }

  lemma WithTableLow(m: Machine, r: Machine, d: uint32, i: nat)
    requires Shaped(m) && Shaped(r) && SameLow(m, r) && d in m.dirs && i < ENTRIES
    ensures NextTable(r) == NextTable(m) && SameLow(WithTable(m, d, i), WithTable(r, d, i))
  {
    hide Lookup;
    var t := NextTable(m);
    LookupLow(TableTaken(m), TableTaken(r), m.kernelDir, t / PAGE);
  }

  lemma WithPageLow(m: Machine, r: Machine, t: uint32, j: nat, frame: uint32)
    requires Shaped(m) && Shaped(r) && SameLow(m, r) && t in m.tables && j < ENTRIES
    requires !m.tables[t][j].present && frame == 0 ==> FirstFree(m.taken, 0, m.frames) < m.reserved
    ensures SameLow(WithPage(m, t, j, frame), WithPage(r, t, j, frame))
  {
    hide FirstFree;
    DrawLow(m, r);
  }

  // What an allocation does to everything else does not depend on the shared bits, as long as its draw
  // stays below them.
  lemma AllocateLow(m: Machine, r: Machine, d: uint32, p: nat, frame: uint32)
    requires Shaped(m) && Shaped(r) && SameLow(m, r) && Page(m, d, p) && CanDraw(m, d, p, frame)
    ensures SameLow(AllocatePage(m, d, p, frame), AllocatePage(r, d, p, frame))
  {
    hide Hi, Lo, FirstFree, WithTable, WithPage, NextTable;
    var t := m.dirs[d].refs[Hi(p)];
    if t != 0 {
      WithPageLow(m, r, t, Lo(p), frame);
    } else {
      WithTableLow(m, r, d, Hi(p));
      TableAdded(m, d, Hi(p));
      WithPageLow(WithTable(m, d, Hi(p)), WithTable(r, d, Hi(p)), NextTable(m), Lo(p), frame);
    }
  }

  lemma SameLowSelf(m: Machine)
    ensures SameLow(m, m)
  {
  }

  // What a freshly linked table needs of a machine that agrees with the linked one.
  lemma LinkedLow(m: Machine, v: Machine, d: uint32, i: nat, t: uint32)
    requires Shaped(m) && Shaped(v) && d in m.dirs && i < ENTRIES && t == NextTable(m)
    requires SameLow(WithTable(m, d, i), v)
    ensures t in v.tables && t in WithTable(m, d, i).tables && v.frames == m.frames && v.reserved == m.reserved
    ensures forall j | 0 <= j < ENTRIES :: !v.tables[t][j].present && !WithTable(m, d, i).tables[t][j].present
    ensures WithTable(m, d, i).taken == m.taken && WithTable(m, d, i).frames == m.frames
    ensures WithTable(m, d, i).reserved == m.reserved
    ensures FirstFree(m.taken, 0, m.frames) < m.reserved ==> FirstFree(v.taken, 0, v.frames) < v.reserved
  {
    hide FirstFree;
    TableAdded(m, d, i);
    DrawLow(WithTable(m, d, i), v);
  }

  lemma TableAdded(m: Machine, d: uint32, i: nat)
    requires Shaped(m) && d in m.dirs && i < ENTRIES
    ensures var a := WithTable(m, d, i);
            && NextTable(m) in a.tables && a.taken == m.taken && a.frames == m.frames && a.reserved == m.reserved
            && forall j | 0 <= j < ENTRIES :: !a.tables[NextTable(m)][j].present
  {
  }

  lemma FreeLow(m: Machine, r: Machine, d: uint32, p: nat, free: bool)
    requires Shaped(m) && Shaped(r) && SameLow(m, r) && Page(m, d, p)
    ensures SameLow(FreePage(m, d, p, free), FreePage(r, d, p, free))
  {
    hide Hi, Lo;
  }

  // ---- refinement of the flat map ----

  // No table is linked at two different directory indices.
  ghost predicate OneIndex(m: Machine) {
    forall d, i, e, k | d in m.dirs && e in m.dirs && 0 <= i < ENTRIES && 0 <= k < ENTRIES ::
      m.dirs[d].refs[i] == m.dirs[e].refs[k] != 0 ==> i == k
  }

  // The allocator answers with a table-sized page that is not in use as a table yet.
  predicate FreshTable(m: Machine) {
    NextTable(m) != 0 && NextTable(m) % PAGE == 0 && NextTable(m) !in m.tables
  }

  predicate CanAllocate(m: Machine, d: uint32, p: nat) {
    Shaped(m) && Page(m, d, p) && (m.dirs[d].refs[Hi(p)] == 0 ==> FreshTable(m))
  }

  // Both directories link the same table for page p.
  predicate Shares(m: Machine, d: uint32, e: uint32, p: nat)
    requires Page(m, d, p) && Page(m, e, p)
  {
    m.dirs[d].refs[Hi(p)] == m.dirs[e].refs[Hi(p)] != 0
  }

  function Chosen(m: Machine, frame: uint32): Frame
    requires Shaped(m)
  {
    (if frame != 0 then frame else FirstFree(m.taken, 0, m.frames)) % PAGES
  }

  lemma WithTableLookup(m: Machine, d: uint32, i: nat, e: uint32, q: nat)
    requires Shaped(m) && d in m.dirs && i < ENTRIES && m.dirs[d].refs[i] == 0 && FreshTable(m) && Page(m, e, q)
    ensures Lookup(WithTable(m, d, i), e, q) == Lookup(m, e, q) == Lookup(TableTaken(m), e, q)
  {
    hide Hi, Lo, Virtual2Physical;
  }

  lemma WithPageLookup(m: Machine, t: uint32, j: nat, frame: uint32, e: uint32, q: nat)
    requires Shaped(m) && t in m.tables && j < ENTRIES && !m.tables[t][j].present && t != 0 && Page(m, e, q)
    ensures Lookup(WithPage(m, t, j, frame), e, q)
         == if m.dirs[e].refs[Hi(q)] == t && Lo(q) == j then Mapped(Chosen(m, frame)) else Lookup(m, e, q)
    ensures Lookup(m, e, q).Mapped? ==> Lookup(WithPage(m, t, j, frame), e, q) == Lookup(m, e, q)
  {
    hide Hi, Lo;
  }

  lemma AllocateRefines(m: Machine, d: uint32, p: nat, frame: uint32, e: uint32, q: nat)
    requires CanAllocate(m, d, p) && OneIndex(m) && Page(m, e, q)
    ensures var r := AllocatePage(m, d, p, frame);
            && (Lookup(m, d, p).Mapped? ==> r == m)
            && (Lookup(m, d, p).Unmapped? ==> Lookup(r, d, p) == Mapped(Chosen(m, frame)))
            && Lookup(r, e, q) == if q == p && Shares(r, d, e, p) then Lookup(r, d, p) else Lookup(m, e, q)
  {
    hide Hi, Lo, TableTaken, Virtual2Physical;
    var t := m.dirs[d].refs[Hi(p)];
    PageParts(p, q);
    if Lookup(m, d, p).Unmapped? {
      if t != 0 {
        WithPageLookup(m, t, Lo(p), frame, d, p);
        WithPageLookup(m, t, Lo(p), frame, e, q);
      } else {
        var a := WithTable(m, d, Hi(p));
        WithTableLookup(m, d, Hi(p), e, q);
        WithPageLookup(a, NextTable(m), Lo(p), frame, d, p);
        WithPageLookup(a, NextTable(m), Lo(p), frame, e, q);
      }
    }
  }

  lemma FreeRefines(m: Machine, d: uint32, p: nat, free: bool, e: uint32, q: nat)
    requires Shaped(m) && OneIndex(m) && Page(m, d, p) && Page(m, e, q)
    ensures Lookup(FreePage(m, d, p, free), e, q)
         == if q == p && Shares(m, d, e, p) then Unmapped else Lookup(m, e, q)
  {
    hide Hi, Lo;
    PageParts(p, q);
  }

  // The only link an allocation writes is a missing one, and it links a table that was none before.
  lemma AllocateLinks(m: Machine, d: uint32, p: nat, frame: uint32, e: uint32, i: nat)
    requires CanAllocate(m, d, p) && e in m.dirs && i < ENTRIES
    ensures var r := AllocatePage(m, d, p, frame);
            && r.kernelDir == m.kernelDir && r.dirs.Keys == m.dirs.Keys
            && if e == d && i == Hi(p) && m.dirs[e].refs[i] == 0
               then r.dirs[e].refs[i] == NextTable(m) && FreshTable(m)
               else r.dirs[e].refs[i] == m.dirs[e].refs[i] && r.dirs[e].tables[i] == m.dirs[e].tables[i]
  {
    hide Hi, Lo, Virtual2Physical;
  }

  lemma AllocateKeepsOneIndex(m: Machine, d: uint32, p: nat, frame: uint32)
    requires CanAllocate(m, d, p) && OneIndex(m)
    ensures OneIndex(AllocatePage(m, d, p, frame))
  {
    hide Hi, Lo, Virtual2Physical;
  }
}
