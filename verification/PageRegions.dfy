/** Mapping a run of pages: what a region does to the flat map, and when it can. */
module PageRegions {
  import opened Words
  import opened FrameBitmap
  import opened PageTables

  function FrameArgument(p: nat, identity: bool): uint32
    requires p < PAGES
  {
    if identity then p else 0
  }

  lemma RegionUnfolds(m: Machine, d: uint32, p: nat, n: nat, identity: bool)
    requires Shaped(m) && d in m.dirs && p + n <= PAGES
    ensures n == 0 ==> AllocateRegion(m, d, p, n, identity) == m
    ensures n > 0 ==>
              AllocateRegion(m, d, p, n, identity)
              == AllocateRegion(AllocatePage(m, d, p, FrameArgument(p, identity)), d, p + 1, n - 1, identity)
  {
    hide AllocatePage, Shaped;
  }

  // Every draw on the way stays below the shared bits.
  predicate RegionDraws(m: Machine, d: uint32, p: nat, n: nat, identity: bool)
    requires Shaped(m) && d in m.dirs && p + n <= PAGES
    decreases n
  {
    n == 0 ||
    (CanDraw(m, d, p, FrameArgument(p, identity))
     && RegionDraws(AllocatePage(m, d, p, FrameArgument(p, identity)), d, p + 1, n - 1, identity))
  }

  // Every table that has to be linked on the way is fresh.
  predicate RegionFresh(m: Machine, d: uint32, p: nat, n: nat, identity: bool)
    requires Shaped(m) && d in m.dirs && p + n <= PAGES
    decreases n
  {
    n == 0 ||
    (CanAllocate(m, d, p)
     && RegionFresh(AllocatePage(m, d, p, FrameArgument(p, identity)), d, p + 1, n - 1, identity))
  }

  // The flat map before and after a region: mapped pages and pages outside stay, pages inside are mapped,
  // an identity region maps an absent page to itself, unless it is page 0; another directory sees
  // exactly the pages whose table it shares.
  ghost predicate RegionMapped(m: Machine, r: Machine, d: uint32, p: nat, n: nat, identity: bool)
    requires Shaped(m) && Shaped(r) && d in m.dirs && r.dirs.Keys == m.dirs.Keys && p + n <= PAGES
  {
    && (forall q | 0 <= q < PAGES && (Lookup(m, d, q).Mapped? || !(p <= q < p + n)) ::
          Lookup(r, d, q) == Lookup(m, d, q))
    && (forall q | p <= q < p + n :: Lookup(r, d, q).Mapped?)
    && (forall q | p <= q < p + n && Lookup(m, d, q).Unmapped? && identity && q != 0 ::
          Lookup(r, d, q) == Mapped(q))
    && (forall e, q | e in m.dirs && 0 <= q < PAGES ::
          Lookup(r, e, q) == if p <= q < p + n && Shares(r, d, e, q) then Lookup(r, d, q) else Lookup(m, e, q))
  }

  // The region gives page q a frame from the bitmap.
  predicate Draws(m: Machine, d: uint32, p: nat, n: nat, identity: bool, q: nat)
    requires Shaped(m) && d in m.dirs && p + n <= PAGES
  {
    p <= q < p + n && Lookup(m, d, q).Unmapped? && (identity ==> q == 0)
  }

  // The frames a region draws were free, are taken now, and are all different.
  ghost predicate RegionDrawn(m: Machine, r: Machine, d: uint32, p: nat, n: nat, identity: bool)
    requires Shaped(m) && Shaped(r) && d in m.dirs && r.dirs.Keys == m.dirs.Keys && p + n <= PAGES
  {
    && r.reserved == m.reserved && (forall n: nat :: n < m.reserved && n in m.taken ==> n in r.taken)
    && (forall q | p <= q < p + n && Draws(m, d, p, n, identity, q) ::
          Lookup(r, d, q).Mapped? && Lookup(r, d, q).frame < m.reserved
          && Lookup(r, d, q).frame !in m.taken && Lookup(r, d, q).frame in r.taken)
    && (forall q, s | p <= q < s < p + n && Draws(m, d, p, n, identity, q) && Draws(m, d, p, n, identity, s) ::
          Lookup(r, d, q) != Lookup(r, d, s))
  }

  // A region only adds links, and only to its own directory.
  ghost predicate RegionLinks(m: Machine, r: Machine, d: uint32) {
    && r.dirs.Keys == m.dirs.Keys
    && (forall e, i | e in m.dirs && 0 <= i < ENTRIES && (e != d || m.dirs[e].refs[i] != 0) ::
          r.dirs[e].refs[i] == m.dirs[e].refs[i])
  }

  lemma PageLinks(m: Machine, d: uint32, p: nat, frame: uint32)
    requires CanAllocate(m, d, p)
    ensures RegionLinks(m, AllocatePage(m, d, p, frame), d)
  {
    hide Hi, Lo, AllocatePage, FreshTable;
    forall e, i | e in m.dirs && 0 <= i < ENTRIES && (e != d || m.dirs[e].refs[i] != 0)
      ensures AllocatePage(m, d, p, frame).dirs[e].refs[i] == m.dirs[e].refs[i]
    {
      AllocateLinks(m, d, p, frame, e, i);
    }
  }

  lemma {:induction false} RegionKeepsLinks(m: Machine, d: uint32, p: nat, n: nat, identity: bool)
    requires Shaped(m) && d in m.dirs && p + n <= PAGES && RegionFresh(m, d, p, n, identity)
    ensures RegionLinks(m, AllocateRegion(m, d, p, n, identity), d)
    decreases n
  {
    RegionUnfolds(m, d, p, n, identity);
    hide AllocatePage, AllocateRegion, Shaped;
    if n > 0 {
      PageLinks(m, d, p, FrameArgument(p, identity));
      RegionKeepsLinks(AllocatePage(m, d, p, FrameArgument(p, identity)), d, p + 1, n - 1, identity);
    }
  }

  // One page in front of a region that is done, seen from directory e at page q.
  lemma MappedAt(m: Machine, a: Machine, r: Machine, d: uint32, p: nat, n: nat, identity: bool, e: uint32, q: nat)
    requires CanAllocate(m, d, p) && OneIndex(m) && p + n <= PAGES && n > 0 && Page(m, e, q)
    requires a == AllocatePage(m, d, p, FrameArgument(p, identity)) && Shaped(r)
    requires RegionLinks(a, r, d) && RegionMapped(a, r, d, p + 1, n - 1, identity)
    ensures Lookup(r, e, q) == if p <= q < p + n && Shares(r, d, e, q) then Lookup(r, d, q) else Lookup(m, e, q)
    ensures Lookup(m, d, q).Mapped? || !(p <= q < p + n) ==> Lookup(r, d, q) == Lookup(m, d, q)
    ensures p <= q < p + n ==> Lookup(r, d, q).Mapped?
    ensures p <= q < p + n && Lookup(m, d, q).Unmapped? && identity && q != 0 ==> Lookup(r, d, q) == Mapped(q)
  {
    hide Hi, Lo, Lookup, AllocatePage, Shaped, OneIndex;
    var f := FrameArgument(p, identity);
    AllocateRefines(m, d, p, f, e, q);
    AllocateRefines(m, d, p, f, d, q);
    LinkedAfter(m, a, d, p, f);
  }

  lemma MappedInFront(m: Machine, a: Machine, r: Machine, d: uint32, p: nat, n: nat, identity: bool)
    requires CanAllocate(m, d, p) && OneIndex(m) && p + n <= PAGES && n > 0
    requires a == AllocatePage(m, d, p, FrameArgument(p, identity)) && Shaped(r)
    requires RegionLinks(a, r, d) && RegionMapped(a, r, d, p + 1, n - 1, identity)
    ensures RegionMapped(m, r, d, p, n, identity)
  {
    forall e, q | e in m.dirs && 0 <= q < PAGES
      ensures Lookup(r, e, q) == if p <= q < p + n && Shares(r, d, e, q) then Lookup(r, d, q) else Lookup(m, e, q)
      ensures Lookup(m, d, q).Mapped? || !(p <= q < p + n) ==> Lookup(r, d, q) == Lookup(m, d, q)
      ensures p <= q < p + n ==> Lookup(r, d, q).Mapped?
      ensures p <= q < p + n && Lookup(m, d, q).Unmapped? && identity && q != 0 ==> Lookup(r, d, q) == Mapped(q)
    {
      hide RegionMapped, RegionLinks, Lookup, AllocatePage, OneIndex, CanAllocate;
      MappedAt(m, a, r, d, p, n, identity, e, q);
    }
    hide Lookup, AllocatePage, OneIndex, CanAllocate, RegionLinks;
  }

  lemma LinkedAfter(m: Machine, a: Machine, d: uint32, p: nat, frame: uint32)
    requires CanAllocate(m, d, p) && a == AllocatePage(m, d, p, frame)
    ensures a.dirs[d].refs[Hi(p)] != 0
  {
    hide Hi, Lo, AllocatePage;
    AllocateLinks(m, d, p, frame, d, Hi(p));
  }

  lemma NothingMapped(m: Machine, d: uint32, p: nat, identity: bool)
    requires Shaped(m) && d in m.dirs && p <= PAGES
    ensures RegionMapped(m, m, d, p, 0, identity)
  {
    hide Hi, Lo, Lookup;
  }

  // A region refines the flat map.
  lemma {:induction false} RegionRefines(m: Machine, d: uint32, p: nat, n: nat, identity: bool)
    requires Shaped(m) && d in m.dirs && p + n <= PAGES && OneIndex(m) && RegionFresh(m, d, p, n, identity)
    ensures RegionMapped(m, AllocateRegion(m, d, p, n, identity), d, p, n, identity)
    decreases n
  {
    hide AllocatePage, AllocateRegion, Shaped, OneIndex, RegionMapped;
    RegionUnfolds(m, d, p, n, identity);
    if n == 0 {
      NothingMapped(m, d, p, identity);
    } else {
      var f := FrameArgument(p, identity);
      var a := AllocatePage(m, d, p, f);
      AllocateKeepsOneIndex(m, d, p, f);
      RegionRefines(a, d, p + 1, n - 1, identity);
      RegionKeepsLinks(a, d, p + 1, n - 1, identity);
      MappedInFront(m, a, AllocateRegion(m, d, p, n, identity), d, p, n, identity);
    }
  }

  // What one page of a region draws.
  lemma PageDrawn(m: Machine, d: uint32, p: nat, frame: uint32)
    requires CanAllocate(m, d, p) && OneIndex(m) && CanDraw(m, d, p, frame)
    ensures var a := AllocatePage(m, d, p, frame);
            && m.taken <= a.taken && a.frames == m.frames && a.reserved == m.reserved
            && (Lookup(m, d, p).Unmapped? && frame == 0 ==>
                  var f := FirstFree(m.taken, 0, m.frames);
                  f < m.reserved && Lookup(a, d, p) == Mapped(f) && f !in m.taken && f in a.taken)
  {
    hide Hi, Lo, Virtual2Physical;
    AllocateRefines(m, d, p, frame, d, p);
  }

  lemma DrawnInFront(m: Machine, a: Machine, r: Machine, d: uint32, p: nat, n: nat, identity: bool)
    requires CanAllocate(m, d, p) && OneIndex(m) && p + n <= PAGES && n > 0
    requires CanDraw(m, d, p, FrameArgument(p, identity))
    requires a == AllocatePage(m, d, p, FrameArgument(p, identity)) && Shaped(r) && r.dirs.Keys == a.dirs.Keys
    requires RegionMapped(a, r, d, p + 1, n - 1, identity) && RegionDrawn(a, r, d, p + 1, n - 1, identity)
    ensures RegionDrawn(m, r, d, p, n, identity)
  {
    hide Hi, Lo, Lookup, AllocatePage, Shaped, FirstFree, CanDraw;
    var f := FrameArgument(p, identity);
    PageDrawn(m, d, p, f);
    assert Lookup(r, d, p) == Lookup(a, d, p);
    forall q | p < q < p + n && Draws(m, d, p, n, identity, q)
      ensures Draws(a, d, p + 1, n - 1, identity, q)
    {
      AllocateRefines(m, d, p, f, d, q);
    }
    forall q | p <= q < p + n && Draws(m, d, p, n, identity, q)
      ensures Lookup(r, d, q).Mapped? && Lookup(r, d, q).frame < m.reserved
      ensures Lookup(r, d, q).frame !in m.taken && Lookup(r, d, q).frame in r.taken
    {
      if q == p {
        assert Lookup(r, d, q).frame in a.taken;
      }
    }
  }

  // Its draws are fresh and different.
  lemma {:induction false} RegionDrawsFresh(m: Machine, d: uint32, p: nat, n: nat, identity: bool)
    requires Shaped(m) && d in m.dirs && p + n <= PAGES && OneIndex(m)
    requires RegionFresh(m, d, p, n, identity) && RegionDraws(m, d, p, n, identity)
    ensures RegionDrawn(m, AllocateRegion(m, d, p, n, identity), d, p, n, identity)
    decreases n
  {
    hide AllocatePage, AllocateRegion, Shaped, OneIndex, RegionMapped, CanDraw;
    RegionUnfolds(m, d, p, n, identity);
    if n > 0 {
      hide RegionDrawn;
      var f := FrameArgument(p, identity);
      var a := AllocatePage(m, d, p, f);
      AllocateKeepsOneIndex(m, d, p, f);
      RegionDrawsFresh(a, d, p + 1, n - 1, identity);
      RegionRefines(a, d, p + 1, n - 1, identity);
      DrawnInFront(m, a, AllocateRegion(m, d, p, n, identity), d, p, n, identity);
    }
  }

  // The shared bits do not matter to a region either.
  lemma {:induction false} RegionLow(m: Machine, r: Machine, d: uint32, p: nat, n: nat, identity: bool)
    requires Shaped(m) && Shaped(r) && SameLow(m, r) && d in m.dirs && p + n <= PAGES
    requires RegionDraws(m, d, p, n, identity)
    ensures RegionDraws(r, d, p, n, identity)
    ensures SameLow(AllocateRegion(m, d, p, n, identity), AllocateRegion(r, d, p, n, identity))
    decreases n
  {
    hide AllocatePage, AllocateRegion, Shaped, FirstFree, Lookup, SameLow, CanDraw;
    LowDirs(m, r);
    RegionUnfolds(m, d, p, n, identity);
    RegionUnfolds(r, d, p, n, identity);
    if n > 0 {
      var f := FrameArgument(p, identity);
      CanDrawLow(m, r, d, p, f);
      AllocateLow(m, r, d, p, f);
      RegionLow(AllocatePage(m, d, p, f), AllocatePage(r, d, p, f), d, p + 1, n - 1, identity);
    }
  }

  lemma LowDirs(m: Machine, r: Machine)
    requires SameLow(m, r)
    ensures r.dirs == m.dirs
  {
  }

  lemma CanDrawLow(m: Machine, r: Machine, d: uint32, p: nat, frame: uint32)
    requires Shaped(m) && Shaped(r) && SameLow(m, r) && Page(m, d, p) && Page(r, d, p) && CanDraw(m, d, p, frame)
    ensures CanDraw(r, d, p, frame)
  {
    hide FirstFree, Lookup;
    DrawLow(m, r);
    LookupLow(m, r, d, p);
  }

  lemma MappedLow(m: Machine, r: Machine, v: Machine, d: uint32, p: nat, n: nat, identity: bool)
    requires Shaped(m) && Shaped(r) && Shaped(v) && d in m.dirs && r.dirs.Keys == m.dirs.Keys && p + n <= PAGES
    requires SameLow(r, v) && RegionMapped(m, r, d, p, n, identity)
    ensures RegionMapped(m, v, d, p, n, identity)
    ensures RegionDrawn(m, r, d, p, n, identity) ==> RegionDrawn(m, v, d, p, n, identity)
  {
    hide Hi, Lo;
    forall e, q | e in m.dirs && 0 <= q < PAGES
      ensures Lookup(v, e, q) == Lookup(r, e, q)
    {
      LookupLow(r, v, e, q);
    }
    hide Lookup;
  }

  lemma SameLowTwice(m: Machine, a: Machine, r: Machine)
    requires SameLow(m, a) && SameLow(a, r)
    ensures SameLow(m, r)
  {
  }

  // A machine `v` that agrees with `s` outside the shared bits follows it through one page of a region.
  lemma RegionStep(s: Machine, v: Machine, d: uint32, p: nat, n: nat, identity: bool)
    requires Shaped(s) && Shaped(v) && SameLow(s, v) && d in s.dirs && d in v.dirs && p + n <= PAGES && n > 0
    requires RegionDraws(s, d, p, n, identity)
    ensures var f := FrameArgument(p, identity);
            && CanDraw(v, d, p, f) && SameLow(AllocatePage(s, d, p, f), AllocatePage(v, d, p, f))
            && RegionDraws(AllocatePage(s, d, p, f), d, p + 1, n - 1, identity)
            && AllocateRegion(s, d, p, n, identity)
               == AllocateRegion(AllocatePage(s, d, p, f), d, p + 1, n - 1, identity)
  {
    hide AllocatePage, AllocateRegion, Shaped, FirstFree, Lookup, SameLow, CanDraw;
    var f := FrameArgument(p, identity);
    RegionUnfolds(s, d, p, n, identity);
    CanDrawLow(s, v, d, p, f);
    AllocateLow(s, v, d, p, f);
  }

  // ---- enough frames ----

  function Low(m: Machine): set<nat> {
    set n | n in m.taken && n < m.reserved
  }

  // How many frames a region draws at most; an identity region draws only for page 0.
  function MostDraws(p: nat, n: nat, identity: bool): nat {
    if !identity then n else if p == 0 && n > 0 then 1 else 0
  }

  lemma {:induction false} FullBelow(taken: set<nat>, count: nat)
    requires forall n | 0 <= n < count :: n in taken
    ensures |taken| >= count
    decreases count
  {
    if count > 0 {
      FullBelow(taken - {count - 1}, count - 1);
    }
  }

  lemma SomeFree(m: Machine)
    requires Shaped(m) && |Low(m)| < m.reserved
    ensures FirstFree(m.taken, 0, m.frames) < m.reserved
  {
    if forall n | 0 <= n < m.reserved :: n in m.taken {
      FullBelow(Low(m), m.reserved);
    }
  }

  lemma LowGrows(m: Machine, d: uint32, p: nat, frame: uint32)
    requires Shaped(m) && Page(m, d, p)
    ensures var r := AllocatePage(m, d, p, frame);
            r.reserved == m.reserved && |Low(r)| <= |Low(m)| + (if frame == 0 then 1 else 0)
  {
    hide Hi, Lo, Virtual2Physical, FirstFree;
    var r := AllocatePage(m, d, p, frame);
    if frame == 0 {
      assert Low(r) <= Low(m) + {FirstFree(m.taken, 0, m.frames)};
      Smaller(Low(r), Low(m) + {FirstFree(m.taken, 0, m.frames)});
    } else {
      assert Low(r) == Low(m);
    }
  }

  lemma {:induction false} Smaller(a: set<nat>, b: set<nat>)
    requires a <= b
    ensures |a| <= |b|
  {
    if a != {} {
      var x :| x in a;
      Smaller(a - {x}, b - {x});
    }
  }

  // A region can be mapped when that many frames are free below the shared bits.
  lemma {:induction false} RoomForRegion(m: Machine, d: uint32, p: nat, n: nat, identity: bool)
    requires Shaped(m) && d in m.dirs && p + n <= PAGES
    requires |Low(m)| + MostDraws(p, n, identity) <= m.reserved
    ensures RegionDraws(m, d, p, n, identity)
    decreases n
  {
    hide AllocatePage, Shaped, FirstFree, Low, Lookup;
    if n > 0 {
      var f := FrameArgument(p, identity);
      if f == 0 {
        SomeFree(m);
      }
      LowGrows(m, d, p, f);
      RoomForRegion(AllocatePage(m, d, p, f), d, p + 1, n - 1, identity);
    }
  }
}
