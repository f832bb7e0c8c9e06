/** Address translation as a finite map from virtual pages: what get_pa returns before and after the
    mapping calls. */
module Translate {
  import opened Options
  import opened Sv39
  import opened PhysMem
  import opened TableSteps
  import opened MapSteps
  import opened PmapSteps

  /** (u_long)-1, the answer of get_pa and get_perm for an unmapped page. */
  const UNMAPPED: nat := 0xffff_ffff_ffff_ffff

  /** The physical address behind va: the frame of its page, and its offset in the page. */
  function Translated(m: Mem, d: nat, va: nat): Option<nat>
    requires Shaped(m)
  {
    match Page(m, d, VPN2(va), VPN1(va), VPN0(va))
    case None => None
    case Some(p) => Some(p.ppn * 0x1000 + va % PAGE_SIZE)
  }

  /** The flags of the page of va. */
  function Permission(m: Mem, d: nat, va: nat): Option<bv10>
    requires Shaped(m)
  {
    match Page(m, d, VPN2(va), VPN1(va), VPN0(va))
    case None => None
    case Some(p) => Some(p.flags)
  }

  /** Addresses on different pages have different table indices. */
  lemma OtherPage(va: nat, x: nat)
    requires va < 0x80_0000_0000 && x < 0x80_0000_0000 && va / PAGE_SIZE != x / PAGE_SIZE
    ensures (VPN2(va), VPN1(va), VPN0(va)) != (VPN2(x), VPN1(x), VPN0(x))
  {
    AddressOfVpns(va);
    AddressOfVpns(x);
  }

  lemma AddressInFrame(pa: nat)
    requires KERNBASE <= pa
    ensures (BASEPPN + FrameOf(pa)) * 0x1000 == pa / PAGE_SIZE * PAGE_SIZE
  {
  }

  /** After map_page the walk returns the frame of pa plus the offset of va, with the permissions asked for and
      PTE_V, for every address of that page; every other page of every directory is as before. */
  lemma MapThenTranslate(m: Mem, m': Mem, d: nat, va: nat, pa: nat, perm: bv10, x: nat)
    requires Shaped(m) && Shaped(m') && KERNBASE <= pa && va < 0x80_0000_0000 && x < 0x80_0000_0000
    requires PageMapped(m, m', d, VPN2(va), VPN1(va), VPN0(va), FrameOf(pa), perm)
    ensures Translated(m', d, va) == Some(pa / PAGE_SIZE * PAGE_SIZE + va % PAGE_SIZE)
    ensures Permission(m', d, va) == Some(perm | PTE_V)
    ensures forall d' :: d' != d || x / PAGE_SIZE != va / PAGE_SIZE ==>
      Translated(m', d', x) == Translated(m, d', x) && Permission(m', d', x) == Permission(m, d', x)
  {
    hide Page, UserDataDisjoint, NotTable, VPN0, VPN1, VPN2;
    AddressInFrame(pa);
    if x / PAGE_SIZE != va / PAGE_SIZE {
      OtherPage(va, x);
    }
  }

  /** After alloc_page the page is a cleared frame of its own, with the permissions asked for and PTE_V. */
  lemma AllocThenTranslate(m: Mem, m': Mem, d: nat, va: nat, perm: bv10, x: nat)
    requires Shaped(m) && Shaped(m') && va < 0x80_0000_0000 && x < 0x80_0000_0000
    requires PageAllocated(m, m', d, VPN2(va), VPN1(va), VPN0(va), perm)
    ensures Permission(m', d, va) == Some(perm | PTE_V)
    ensures exists g :: 0 <= g < NPAGE && m'.frames[g] == ZeroFrame() && m'.refs[g] == 1
                     && Translated(m', d, va) == Some(KERNBASE + g * 0x1000 + va % PAGE_SIZE)
    ensures forall d' :: d' != d || x / PAGE_SIZE != va / PAGE_SIZE ==>
      Translated(m', d', x) == Translated(m, d', x) && Permission(m', d', x) == Permission(m, d', x)
  {
    hide Page, UserDataDisjoint, NotTable, VPN0, VPN1, VPN2, Leaf;
    if x / PAGE_SIZE != va / PAGE_SIZE {
      OtherPage(va, x);
    }
    var g := Leaf(m', d, VPN2(va), VPN1(va), VPN0(va)).value;
    assert Translated(m', d, va) == Some(KERNBASE + g * 0x1000 + va % PAGE_SIZE);
  }

  /** unmap_page removes exactly one page from the map. */
  lemma UnmapThenTranslate(m: Mem, m': Mem, d: nat, va: nat, x: nat)
    requires Shaped(m) && Shaped(m') && va < 0x80_0000_0000 && x < 0x80_0000_0000
    requires PageUnmapped(m, m', d, VPN2(va), VPN1(va), VPN0(va))
    ensures Translated(m', d, va) == None
    ensures x / PAGE_SIZE != va / PAGE_SIZE ==> Translated(m', d, x) == Translated(m, d, x)
    ensures forall d' :: d' != d ==> Translated(m', d', x) == Translated(m, d', x)
  {
    hide Page, UserDataDisjoint, NotTable, VPN0, VPN1, VPN2;
    if x / PAGE_SIZE != va / PAGE_SIZE {
      OtherPage(va, x);
    }
  }

  /** Mapping and unmapping a page that was not mapped restores the whole map. */
  lemma MapThenUnmap(m: Mem, m1: Mem, m2: Mem, d: nat, va: nat, g: nat, perm: bv10)
    requires Shaped(m) && Shaped(m1) && Shaped(m2)
    requires Page(m, d, VPN2(va), VPN1(va), VPN0(va)) == None
    requires PageMapped(m, m1, d, VPN2(va), VPN1(va), VPN0(va), g, perm)
    requires PageUnmapped(m1, m2, d, VPN2(va), VPN1(va), VPN0(va))
    ensures SamePages(m, m2)
  {
    hide Page, UserDataDisjoint, NotTable, VPN0, VPN1, VPN2;
    forall x, a, b, c ensures Page(m2, x, a, b, c) == Page(m, x, a, b, c) {
    }
  }

  /** A page just allocated has a frame that no other slot references. */
  lemma FreshPageIsPrivate(m: Mem, m': Mem, pin: seq<nat>, d: nat, i: nat, j: nat, k: nat, perm: bv10, s: Slot)
    requires Shaped(m) && Inv(m', pin) && PageAllocated(m, m', d, i, j, k, perm)
    requires s != Slot0(d, i, j, k)
    ensures Target(m', s) != Leaf(m', d, i, j, k)
  {
    hide Trees, EntriesInRam, FreeListOk, Page, RefSet;
    var g := Leaf(m', d, i, j, k).value;
    var s0 := Slot0(d, i, j, k);
    RefSetMember(m', {}, g, s0);
    if Target(m', s) == Some(g) {
      RefSetMember(m', {}, g, s);
      var two := {s0, s};
      assert two <= RefSet(m', {}, g);
      SubsetSize(two, RefSet(m', {}, g));
    }
  }

  lemma SubsetSize<T>(a: set<T>, b: set<T>)
    requires a <= b
    ensures |a| <= |b|
  {
    assert b == a + (b - a);
  }

  /* ---- Before the first call ---- */

  /** The free list that page_init builds by inserting frames nboot, nboot + 1, ... at the head. */
  ghost predicate FreeFrom(free: seq<nat>, nboot: nat, n: nat)
  {
    nboot <= n && |free| == n - nboot && forall a :: 0 <= a < |free| ==> free[a] == n - 1 - a
  }

  lemma BootInvariant(m: Mem, pin: seq<nat>, nboot: nat)
    requires Shaped(m) && m.roots == map[] && pin == m.refs
    requires nboot <= NPAGE && forall f :: 0 <= f < NPAGE ==> m.refs[f] == if f < nboot then 1 else 0
    requires FreeFrom(m.free, nboot, NPAGE)
    ensures Inv(m, pin)
    ensures forall d, i, j, k :: Page(m, d, i, j, k) == None
  {
    forall s ensures Target(m, s) == None {
    }
    forall f | 0 <= f < NPAGE ensures |RefSet(m, {}, f)| == 0 {
      forall s ensures s !in RefSet(m, {}, f) {
        RefSetMember(m, {}, f, s);
      }
      assert RefSet(m, {}, f) == {};
    }
    forall f | 0 <= f < NPAGE ensures f in m.free <==> m.refs[f] == 0 {
      if f >= nboot {
        assert m.free[NPAGE - 1 - f] == f;
      }
    }
  }
}
