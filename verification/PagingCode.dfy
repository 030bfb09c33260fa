/** The paging code over its mutable state: directories, tables, the frame bitmap and the globals. */
module PagingCode {
  import opened Words
  import opened FrameBitmap
  import T = PageTables
  import opened PageOwnership
  import opened PageRegions
  import Bootstrap

  // The page number, split as the shifts in the code split the address.
  lemma AddressParts(va: uint32)
    ensures va / 0x40_0000 == T.Hi(va / PAGE) && va / PAGE % 0x400 == T.Lo(va / PAGE)
    ensures va / PAGE < T.PAGES
  {
  }

  function PageCount(start: uint32, end: uint32): (n: nat)
    ensures start / PAGE + n <= T.PAGES
  {
    if start <= end then (end - start) / PAGE + 1 else 0
  }

  lemma NextPage(i: uint32, end: uint32)
    requires i <= end && end as int + PAGE < TWO_32
    ensures PageCount(i, end) == PageCount(i + PAGE, end) + 1 && (i + PAGE) / PAGE == i / PAGE + 1
  {
  }

  // Bitmaps that mark the same frames below some word agree up to that word.
  lemma LowWords(a: seq<bv32>, b: seq<bv32>, k: nat)
    requires |a| == |b| && k <= |a| && forall n: nat :: n < BITS * k ==> (n in Used(a) <==> n in Used(b))
    ensures a[..k] == b[..k]
  {
    forall n: nat
      ensures n in Used(a[..k]) <==> n in Used(a) && n < BITS * k
      ensures n in Used(b[..k]) <==> n in Used(b) && n < BITS * k
    {
      if n < BITS * k {
        assert a[..k][Index(n)] == a[Index(n)] && b[..k][Index(n)] == b[Index(n)];
      }
    }
    UsedDetermines(a[..k], b[..k]);
  }

  class Paging {
    const pmm: FrameAllocator
    var dirs: map<uint32, T.Directory>
    var tables: map<uint32, T.PageTable>
    var enabled: bool
    var ready: bool
    var placement: uint32
    var supply: seq<uint32>
    var kernelDir: uint32
    var cr3: uint32

    // The directory last switched to.
    var current: uint32

    ghost function View(): T.Machine
      reads this, pmm, pmm.words
    {
      T.Machine(dirs, tables, pmm.TakenFrames(), pmm.count, 8 * pmm.memSize,
                enabled, ready, placement, supply, kernelDir, cr3, current)
    }

    ghost predicate Valid()
      reads this, pmm, pmm.words
    {
      pmm.Valid() && T.Shaped(View())
    }

    // The allocator before `InitPaging`: placement only.
    constructor (pmm: FrameAllocator, placement: uint32)
      requires pmm.Valid() && pmm.count <= T.PAGES
      ensures this.pmm == pmm
      ensures View() == T.Machine(map[], map[], pmm.TakenFrames(), pmm.count, 8 * pmm.memSize,
                                  false, false, placement, [], 0, 0, 0)
    {
      this.pmm := pmm;
      this.placement := placement;
      dirs, tables, supply := map[], map[], [];
      enabled, ready := false, false;
      kernelDir, cr3, current := 0, 0, 0;
    }

    // The placement branch of `malloc_`.
    method Place(size: uint32, shouldAlign: bool) returns (base: uint32)
      modifies this`placement
      ensures base == if shouldAlign then T.Aligned(old(placement)) else old(placement)
      ensures placement == Wrap(base + size)
      ensures shouldAlign ==> base % PAGE == 0
      ensures !shouldAlign || old(placement) <= TWO_32 - PAGE ==>
                && old(placement) <= base < old(placement) + PAGE
                && (base + size < TWO_32 ==> placement == base + size)
    {
      if shouldAlign && placement % PAGE != 0 {
        placement := PageMask(placement);
        placement := Wrap(placement + PAGE);
      }
      base := placement;
      placement := Wrap(placement + size);
    }

    method NewTable() returns (t: uint32)
      requires Valid()
      modifies this`placement, this`supply, this`tables
      ensures t == T.NextTable(old(View())) && View() == T.TableTaken(old(View()))
    {
      if !ready {
        t := Place(PAGE, true);
      } else if supply == [] {
        t := 0;
      } else {
        t := supply[0];
        supply := supply[1..];
      }
      tables := tables[t := T.ZeroTable()];
    }

    method Virtual2Physical(d: uint32, va: uint32) returns (phys: uint32)
      requires Valid() && d in dirs
      ensures phys == T.Virtual2Physical(View(), d, va)
      ensures !enabled ==> phys == (va - 0xC000_0000) % 0x1_0000_0000
      ensures enabled ==>
                var t := dirs[d].refs[va / 0x40_0000];
                phys == if t == 0 || !tables[t][va / 0x1000 % 0x400].present then 0
                        else tables[t][va / 0x1000 % 0x400].frame * 0x1000 + va % 0x1000
    {
      if !enabled {
        return Wrap(va - 0xC000_0000);
      }
      AddressParts(va);
      var i, j, offset := va / 0x40_0000, va / 0x1000 % 0x400, va % 0x1000;
      var t := dirs[d].refs[i];
      if t == 0 {
        return 0;
      }
      if !tables[t][j].present {
        return 0;
      }
      phys := tables[t][j].frame * 0x1000 + offset;
    }

    // Directories and tables may lie in words that the bitmap uses too: writing to them can change any bit
    // without storage of its own.
    method LinkTable(d: uint32, i: nat) returns (t: uint32)
      requires Valid() && d in dirs && i < T.ENTRIES
      modifies this`placement, this`supply, this`tables, this`dirs, pmm.words
      ensures Valid() && t == T.NextTable(old(View())) && T.SameLow(T.WithTable(old(View()), d, i), View())
    {
      t := NewTable();
      var phys := Virtual2Physical(kernelDir, t);
      var entry := T.DirEntry(true, true, true, false, phys / 0x1000);
      dirs := dirs[d := T.Directory(dirs[d].tables[i := entry], dirs[d].refs[i := t])];
      assert View() == T.WithTable(old(View()), d, i);
      pmm.Scribble();
    }

    method FillEntry(t: uint32, j: nat, frame: uint32)
      requires Valid() && t in tables && j < T.ENTRIES
      requires !tables[t][j].present && frame == 0 ==> FirstFree(View().taken, 0, View().frames) < View().reserved
      modifies this`tables, pmm.words
      ensures Valid() && T.SameLow(T.WithPage(old(View()), t, j, frame), View())
    {
      if !tables[t][j].present {
        var f := frame;
        if frame == 0 {
          f := pmm.AllocateBlock();
        }
        tables := tables[t := tables[t][j := T.PageEntry(true, true, true, f % T.PAGES)]];
        assert View() == T.WithPage(old(View()), t, j, frame);
        pmm.Scribble();
      }
    }

    // A draw must find a frame whose bit has storage of its own.
    method AllocatePage(d: uint32, va: uint32, frame: uint32)
      requires Valid() && d in dirs && T.CanDraw(View(), d, va / PAGE, frame)
      modifies this`placement, this`supply, this`tables, this`dirs, pmm.words
      ensures Valid() && T.SameLow(T.AllocatePage(old(View()), d, va / PAGE, frame), View())
    {
      hide T.WithTable, T.WithPage, T.NextTable, FirstFree, T.SameLow;
      AddressParts(va);
      var i, j := va / 0x40_0000, va / 0x1000 % 0x400;
      var t := dirs[d].refs[i];
      ghost var m := View();
      if t != 0 {
        FillEntry(t, j, frame);
      } else {
        t := LinkTable(d, i);
        T.LinkedLow(m, View(), d, i, t);
        T.WithPageLow(T.WithTable(m, d, i), View(), t, j, frame);
        ghost var linked := View();
        FillEntry(t, j, frame);
        SameLowTwice(T.WithPage(T.WithTable(m, d, i), t, j, frame), T.WithPage(linked, t, j, frame), View());
      }
    }

    // A directory's address is never null, the boot directory's reads as null after boot, so the
    // code's early return for the boot directory does not happen.
    method FreePage(d: uint32, va: uint32, free: bool)
      requires Valid() && d in dirs
      requires free && T.Lookup(View(), d, va / PAGE).Mapped? ==>
                 T.Lookup(View(), d, va / PAGE).frame < View().reserved
      modifies this`tables, pmm.words
      ensures Valid() && T.SameLow(T.FreePage(old(View()), d, va / PAGE, free), View())
    {
      AddressParts(va);
      var i, j := va / 0x40_0000, va / 0x1000 % 0x400;
      var t := dirs[d].refs[i];
      if t == 0 {
        return;
      }
      if !tables[t][j].present {
        return;
      }
      if free {
        pmm.FreeBlock(tables[t][j].frame);
      }
      tables := tables[t := tables[t][j := tables[t][j].(present := false, frame := 0)]];
      assert View() == T.FreePage(old(View()), d, va / PAGE, free);
      pmm.Scribble();
    }

    // Mapping an absent page on a drawn frame and freeing it: the flat map is as it was, and so is every
    // word of the bitmap that has storage of its own.
    method AllocateThenFree(d: uint32, va: uint32)
      requires Valid() && d in dirs && T.CanDraw(View(), d, va / PAGE, 0) && T.CanAllocate(View(), d, va / PAGE)
      requires T.OneIndex(View()) && T.Lookup(View(), d, va / PAGE).Unmapped?
      modifies this`placement, this`supply, this`tables, this`dirs, pmm.words
      ensures Valid() && dirs.Keys == old(dirs.Keys) && pmm.words.Length == old(pmm.words.Length)
      ensures pmm.words[..pmm.memSize / 4] == old(pmm.words[..pmm.memSize / 4])
      ensures forall e, q | e in old(dirs) && 0 <= q < T.PAGES ::
                T.Lookup(View(), e, q) == T.Lookup(old(View()), e, q)
    {
      hide T.AllocatePage, T.FreePage, T.Lookup, FirstFree, T.OneIndex, Used;
      ghost var m, p := View(), va / PAGE;
      AllocatePage(d, va, 0);
      ghost var a := View();
      PageDrawn(m, d, p, 0);
      T.LookupLow(T.AllocatePage(m, d, p, 0), a, d, p);
      FreePage(d, va, true);
      T.FreeLow(T.AllocatePage(m, d, p, 0), a, d, p, true);
      SameLowTwice(T.FreePage(T.AllocatePage(m, d, p, 0), d, p, true), T.FreePage(a, d, p, true), View());
      forall e, q | e in m.dirs && 0 <= q < T.PAGES
        ensures T.Lookup(View(), e, q) == T.Lookup(m, e, q)
      {
        PageOwnership.AllocateThenFree(m, d, p, e, q);
        T.LookupLow(T.FreePage(T.AllocatePage(m, d, p, 0), d, p, true), View(), e, q);
      }
      PageOwnership.AllocateThenFree(m, d, p, d, p);
      LowWords(old(pmm.words[..]), pmm.words[..], pmm.memSize / 4);
    }

    // Both bounds are inclusive, and the last page must not be the last of the address space.
    method AllocateRegion(d: uint32, start: uint32, end: uint32, identity: bool)
      requires Valid() && d in dirs && end as int + PAGE < TWO_32
      requires RegionDraws(View(), d, start / PAGE, PageCount(start, end), identity)
      modifies this`placement, this`supply, this`tables, this`dirs, pmm.words
      ensures Valid()
      ensures T.SameLow(T.AllocateRegion(old(View()), d, start / PAGE, PageCount(start, end), identity), View())
      ensures T.OneIndex(old(View())) && RegionFresh(old(View()), d, start / PAGE, PageCount(start, end), identity) ==>
                && RegionMapped(old(View()), View(), d, start / PAGE, PageCount(start, end), identity)
                && RegionDrawn(old(View()), View(), d, start / PAGE, PageCount(start, end), identity)
    {
      hide T.AllocatePage, T.AllocateRegion, T.Shaped, T.SameLow, RegionDraws, RegionFresh, RegionMapped, RegionDrawn;
      hide T.OneIndex;
      ghost var m, p, n := View(), start / PAGE, PageCount(start, end);
      ghost var s := m;
      T.SameLowSelf(m);
      var i := start;
      while i <= end
        invariant i == start || i as int <= end + PAGE
        invariant Valid() && d in dirs && T.Shaped(s) && d in s.dirs && T.SameLow(s, View())
        invariant RegionDraws(s, d, i / PAGE, PageCount(i, end), identity)
        invariant T.AllocateRegion(s, d, i / PAGE, PageCount(i, end), identity)
                  == T.AllocateRegion(m, d, p, n, identity)
        decreases end + PAGE - i
      {
        NextPage(i, end);
        ghost var v := View();
        RegionStep(s, v, d, i / PAGE, PageCount(i, end), identity);
        if identity {
          AllocatePage(d, i, i / 0x1000);
        } else {
          AllocatePage(d, i, 0);
        }
        s := T.AllocatePage(s, d, i / PAGE, FrameArgument(i / PAGE, identity));
        SameLowTwice(s, T.AllocatePage(v, d, i / PAGE, FrameArgument(i / PAGE, identity)), View());
        i := i + 0x1000;
      }
      RegionUnfolds(s, d, i / PAGE, 0, identity);
      if T.OneIndex(m) && RegionFresh(m, d, p, n, identity) {
        RegionRefines(m, d, p, n, identity);
        RegionDrawsFresh(m, d, p, n, identity);
        MappedLow(m, s, View(), d, p, n, identity);
      }
    }

    // The boot directory reads as null, so a virtual address is looked up in the directory itself.
    method SwitchToDirectory(d: uint32, isPhysical: bool, address: uint32)
      requires Valid() && d in dirs
      modifies this`cr3, this`current
      ensures Valid()
      ensures var a := if address != 0 then address else d;
              View() == old(View()).(
                cr3 := if isPhysical then a else T.Virtual2Physical(old(View()), d, a), current := d)
    {
      var t: uint32;
      if address != 0 {
        if !isPhysical {
          t := Virtual2Physical(d, address);
        } else {
          t := address;
        }
      } else if !isPhysical {
        t := Virtual2Physical(d, d);
      } else {
        t := d;
      }
      cr3 := t;
      current := d;
    }

    method EnablePaging()
      modifies this`enabled
      ensures View() == old(View()).(enabled := true)
    {
      if enabled {
        return;
      }
      enabled := true;
    }

    // `Init` of a manager whose directory the heap has just handed out.
    method NewDirectory(d: uint32)
      requires Valid() && d != 0
      modifies this`dirs, pmm.words
      ensures Valid() && T.SameLow(T.NewDirectory(old(View()), d), View())
    {
      dirs := dirs[d := T.Directory(T.ZeroEntries(), T.ZeroRefs())];
      assert View() == T.NewDirectory(old(View()), d);
      pmm.Scribble();
    }

    // `CopyDirectory` by the manager of `d`, from its own directory unless `src` names another. It shares the
    // kernel's tables; here every table of the copied directory is one.
    method CopyDirectory(d: uint32, dst: uint32, src: uint32)
      requires Valid() && d in dirs && dst in dirs && (src != 0 ==> src in dirs)
      requires dirs[if src != 0 then src else d].refs == dirs[kernelDir].refs
      modifies this`dirs, pmm.words
      ensures Valid() && T.SameLow(T.CopyDirectory(old(View()), if src != 0 then src else d, dst), View())
    {
      var c := d;
      if src != 0 {
        c := src;
      }
      ghost var source, kernel := dirs[c], dirs[kernelDir];
      var i := 0;
      while i < T.ENTRIES
        modifies this`dirs
        invariant i <= T.ENTRIES && dst in dirs && dirs.Keys == old(dirs.Keys)
        invariant dirs == old(dirs)[dst := dirs[dst]] && dirs[c] == source
        invariant forall k | 0 <= k < i ::
                    dirs[dst].tables[k] == source.tables[k] && dirs[dst].refs[k] == source.refs[k]
        invariant forall k | i <= k < T.ENTRIES :: dirs[kernelDir].refs[k] == kernel.refs[k]
      {
        if dirs[kernelDir].refs[i] == dirs[c].refs[i] {
          dirs := dirs[dst := T.Directory(dirs[dst].tables[i := dirs[c].tables[i]],
                                          dirs[dst].refs[i := dirs[c].refs[i]])];
        } else {
          assert false;
        }
        i := i + 1;
      }
      assert dirs[dst].tables == source.tables && dirs[dst].refs == source.refs;
      assert View() == T.CopyDirectory(old(View()), c, dst);
      pmm.Scribble();
    }

    // The heap takes over from the placement address; `answers` are the tables it will hand out.
    method HeapReady(answers: seq<uint32>)
      modifies this`ready, this`supply
      ensures View() == T.WithHeap(old(View()), answers)
    {
      ready, supply := true, answers;
    }

    method InitPaging()
      requires pmm.Valid() && dirs == map[] && tables == map[] && !enabled && !ready && supply == []
               && cr3 == current == 0
      requires Bootstrap.Ready(T.Aligned(placement), pmm.count, 8 * pmm.memSize, pmm.TakenFrames())
      modifies this, pmm.words
      ensures Valid() && kernelDir == T.Aligned(old(placement)) && enabled
      ensures old(placement) <= kernelDir < old(placement) + PAGE && kernelDir % PAGE == 0
      ensures placement == kernelDir + 0x5000
      ensures forall t :: t in tables ==> kernelDir + 0x2000 <= t <= kernelDir + 0x4000
      ensures cr3 == kernelDir - 0xC000_0000
      ensures T.SameLow(Bootstrap.Booted(kernelDir, pmm.count, 8 * pmm.memSize, old(pmm.TakenFrames())), View())
      ensures forall va: uint32 :: T.Virtual2Physical(View(), kernelDir, va) == Bootstrap.BootMap(va)
      ensures exists drawn :: Inv(View(), drawn)
    {
      hide T.AllocateRegion, T.Virtual2Physical, Inv, RegionDraws, T.Shaped, Bootstrap.Booted, Bootstrap.Linear;
      hide Bootstrap.Enabled, Bootstrap.Identity, Bootstrap.BootMap, RegionMapped, RegionDrawn, RegionFresh, T.OneIndex;
      ghost var taken, frames, reserved := pmm.TakenFrames(), pmm.count, 8 * pmm.memSize;
      var d := Place(0x2000, true);
      dirs := dirs[d := T.Directory(T.ZeroEntries(), T.ZeroRefs())];
      kernelDir := d;
      assert View() == Bootstrap.Start(d, frames, reserved, taken);
      pmm.Scribble();
      ghost var first := View();
      Bootstrap.FirstRegion(d, frames, reserved, taken, first);
      AllocateRegion(d, 0xC000_0000, 0xC000_0000 + 0x40_0000, false);
      Bootstrap.SecondRegion(d, frames, reserved, taken, first, View());
      SwitchToDirectory(d, false, 0);
      EnablePaging();
      ghost var second := View();
      AllocateRegion(d, 0x0, 0x10_0000, true);
      ghost var drawn := Bootstrap.BootedLow(d, frames, reserved, taken, second, View());
    }
  }
}
