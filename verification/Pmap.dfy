/** The page-table code of kern/pmap.c (the Sv39 branch) on physical memory and `struct Page`s.

    `frames` is physical memory, one row of 64-bit words per frame; `pages` is the array of
    reference counts; `free` is page_free_list, first element first; `roots` holds the value of
    each directory variable that is not zero, as a frame number. Every read and write of a table
    goes through ReadEntry and WriteEntry, which require that the frame is not on the free list. */
module Pmap {
  import opened Errors
  import opened Options
  import opened Sv39
  import opened PhysMem
  import opened TableSteps
  import opened MapSteps
  import opened Window
  import opened PmapSteps
  import opened UserSteps
  import opened Teardown
  import opened Translate

  class PhysicalMemory {
    const frames: array<seq<Pte>>
    const pages: array<nat>
    var free: seq<nat>
    var roots: map<nat, nat>
    /** Fixed counts of the boot-time frames and of base_pgdir. */
    ghost const pin: seq<nat>

    ghost function S(): Mem
      reads this, frames, pages
    {
      Mem(frames[..], pages[..], free, roots)
    }

    ghost predicate Valid()
      reads this, frames, pages
      ensures Valid() ==> Shaped(S())
    {
      frames.Length == NPAGE && pages.Length == NPAGE && Inv(S(), pin)
    }

    /** page_init: the first nboot frames stay with the kernel, the others become free. */
    constructor (memory: seq<seq<Pte>>, nboot: nat)
      requires |memory| == NPAGE && (forall f :: 0 <= f < NPAGE ==> |memory[f]| == NPTE) && nboot <= NPAGE
      ensures Valid() && fresh(frames) && fresh(pages)
      ensures roots == map[] && frames[..] == memory && FreeFrom(free, nboot, NPAGE)
      ensures forall f :: 0 <= f < NPAGE ==> pin[f] == pages[f] == if f < nboot then 1 else 0
    {
      frames := new seq<Pte>[NPAGE](f requires 0 <= f < NPAGE => memory[f]);
      pages := new nat[NPAGE];
      free, roots := [], map[];
      pin := seq(NPAGE, f => if f < nboot then 1 else 0);
      new;
      assert frames[..] == memory;
      var i := 0;
      while i < NPAGE && i < nboot
        invariant 0 <= i <= nboot
        invariant forall f :: 0 <= f < i ==> pages[f] == 1
        invariant frames[..] == memory && roots == map[] && free == []
      {
        pages[i] := 1;
        i := i + 1;
      }
      while i < NPAGE
        invariant nboot <= i <= NPAGE
        invariant forall f :: 0 <= f < i ==> pages[f] == if f < nboot then 1 else 0
        invariant frames[..] == memory && roots == map[] && FreeFrom(free, nboot, i)
      {
        pages[i] := 0;
        free := [i] + free;
        i := i + 1;
      }
      assert pages[..] == pin;
      BootInvariant(S(), pin, nboot);
    }

    /* ---- Frames, counts and entries ---- */

    method PageAlloc() returns (r: int, f: nat)
      requires Shaped(S()) && (free != [] ==> free[0] < NPAGE)
      modifies this`free, frames
      ensures r == if old(free) == [] then -E_NO_MEM else 0
      ensures r == 0 ==> f == old(free[0]) && S() == TakeFrame(old(S()))
      ensures r != 0 ==> S() == old(S())
    {
      if free == [] {
        return -E_NO_MEM, 0;
      }
      f := free[0];
      free := free[1..];
      frames[f] := ZeroFrame();
      assert frames[..] == old(frames[..])[f := ZeroFrame()];
      r := 0;
    }

    method PageFree(f: nat)
      requires Shaped(S()) && f < NPAGE && pages[f] == 0 && f !in free
      modifies this`free
      ensures free == [f] + old(free)
    {
      free := [f] + free;
    }

    /** if (--pa2page(pa)->pp_ref == 0) page_free(pa2page(pa)) */
    method Release(f: nat)
      requires Shaped(S()) && f < NPAGE && 0 < pages[f] && f !in free
      modifies this`free, pages
      ensures S() == DecRef(old(S()), f)
    {
      pages[f] := pages[f] - 1;
      assert pages[..] == old(pages[..])[f := old(pages[f]) - 1];
      if pages[f] == 0 {
        PageFree(f);
      }
    }

    /** pp->pp_ref++, on a 16-bit counter. */
    method Retain(f: nat)
      requires Shaped(S()) && f < NPAGE && pages[f] < 0xffff
      modifies pages
      ensures S() == IncRef(old(S()), f)
    {
      pages[f] := (pages[f] + 1) % 0x1_0000;
      assert pages[..] == old(pages[..])[f := old(pages[f]) + 1];
    }

    function ReadEntry(t: nat, e: nat): (p: Pte)
      requires Shaped(S()) && t < NPAGE && e < NPTE && t !in free
      reads this, frames, pages
      ensures p == S().frames[t][e]
    {
      frames[t][e]
    }

    method WriteEntry(t: nat, e: nat, w: Pte)
      requires Shaped(S()) && t < NPAGE && e < NPTE && t !in free
      modifies frames
      ensures S() == WritePte(old(S()), t, e, w)
    {
      frames[t] := frames[t][e := w];
      assert frames[..] == old(frames[..])[t := old(frames[t])[e := w]];
    }

    /* ---- Walking and extending a directory ---- */

    /** create_pte2, and the body of alloc_pgdir. */
    method CreateRoot(d: nat) returns (r: int)
      requires Valid() && d !in roots
      modifies this`free, this`roots, frames, pages
      ensures Valid() && r == if old(free) == [] then -E_NO_MEM else 0
      ensures if r == 0 then TableAdded(old(S()), S(), RootSlot(d)) else S() == old(S())
    {
      hide InvX, Page, Leaf, Mid, Low, Out, UserDataDisjoint, NotTable;
      if free != [] { NewRoot(S(), pin, d); }
      var pp;
      r, pp := PageAlloc();
      if r != 0 {
        return;
      }
      roots := roots[d := pp];
      Retain(pp);
      assert S() == LinkRoot(old(S()), d);
    }

    /** create_pte1 */
    method CreateMid(d: nat, i: nat) returns (r: int)
      requires Valid() && d in roots && i < NPTE && !IsShared(i) && Mid(S(), d, i) == None
      modifies this`free, frames, pages
      ensures Valid() && r == if old(free) == [] then -E_NO_MEM else 0
      ensures if r == 0 then TableAdded(old(S()), S(), Slot2(d, i)) else S() == old(S())
    {
      hide InvX, Page, Leaf, Low, Out, UserDataDisjoint, NotTable;
      if free != [] { NewMid(S(), pin, d, i); }
      var pp;
      r, pp := PageAlloc();
      if r != 0 {
        return;
      }
      WriteEntry(roots[d], i, MkPte(pp, 0));
      Retain(pp);
      assert S() == LinkMid(old(S()), d, i);
    }

    /** create_pte0 */
    method CreateLow(d: nat, i: nat, j: nat, mid: nat) returns (r: int)
      requires Valid() && Mid(S(), d, i) == Some(mid) && j < NPTE && Low(S(), d, i, j) == None
      modifies this`free, frames, pages
      ensures Valid() && r == if old(free) == [] then -E_NO_MEM else 0
      ensures if r == 0 then TableAdded(old(S()), S(), Slot1(d, i, j)) else S() == old(S())
    {
      hide InvX, Page, Leaf, Root, Out, UserDataDisjoint, NotTable;
      if free != [] { NewLow(S(), pin, d, i, j); }
      var pp;
      r, pp := PageAlloc();
      if r != 0 {
        return;
      }
      WriteEntry(mid, j, MkPte(pp, 0));
      Retain(pp);
      assert S() == LinkLow(old(S()), d, i, j);
    }

    /** &((u_long *)*pgdir)[vpn2], read: the level-1 table behind it, if the entry is valid. */
    method ReadMid(d: nat, i: nat) returns (t: Option<nat>)
      requires Valid() && d in roots && i < NPTE && !IsShared(i)
      ensures t == Mid(S(), d, i)
    {
      hide InvX;
      assert Target(S(), RootSlot(d)) == Some(roots[d]);
      Referenced(S(), pin, {}, {}, RootSlot(d));
      MidEntry(S(), pin, d, i);
      var pte2 := ReadEntry(roots[d], i);
      t := if IsValid(pte2) then Some(pte2.ppn - BASEPPN) else None;
    }

    method ReadLow(d: nat, i: nat, j: nat, mid: nat) returns (t: Option<nat>)
      requires Valid() && Mid(S(), d, i) == Some(mid) && j < NPTE
      ensures t == Low(S(), d, i, j)
    {
      hide InvX;
      assert Target(S(), Slot2(d, i)) == Some(mid);
      Referenced(S(), pin, {}, {}, Slot2(d, i));
      LowEntry(S(), pin, d, i, j);
      var pte1 := ReadEntry(mid, j);
      t := if IsValid(pte1) then Some(pte1.ppn - BASEPPN) else None;
    }

    method ReadLeaf(d: nat, i: nat, j: nat, k: nat, low: nat) returns (t: Option<nat>)
      requires Valid() && Low(S(), d, i, j) == Some(low) && k < NPTE
      ensures t == Leaf(S(), d, i, j, k)
      ensures t.Some? <==> Page(S(), d, i, j, k).Some?
    {
      hide InvX;
      assert Target(S(), Slot1(d, i, j)) == Some(low);
      Referenced(S(), pin, {}, {}, Slot1(d, i, j));
      LeafEntry(S(), pin, d, i, j, k);
      var pte0 := ReadEntry(low, k);
      t := if IsValid(pte0) then Some(pte0.ppn - BASEPPN) else None;
    }

    /** The walk shared by the mapping calls: find the level-0 table for slot (i, j) of directory d,
        creating the root, the level-1 table and the level-0 table as needed. */
    method Descend(d: nat, i: nat, j: nat) returns (r: int, t: nat)
      requires Valid() && i < NPTE && j < NPTE && !IsShared(i)
      modifies this`free, this`roots, frames, pages
      ensures Valid() && TablesGrown(old(S()), S(), d, i, j)
      ensures r == if |old(free)| >= Missing(old(S()), d, i, j) then 0 else -E_NO_MEM
      ensures r == 0 ==> Low(S(), d, i, j) == Some(t) && |free| == |old(free)| - Missing(old(S()), d, i, j)
      ensures r != 0 ==> free == []
    {
      hide InvX, Page, Leaf, Out, UserDataDisjoint, NotTable, TablesGrown;
      ghost var m0 := S();
      TablesGrownNone(m0, pin, d, i, j);
      t := 0;
      if d !in roots {
        ghost var m := S();
        r := CreateRoot(d);
        if r != 0 {
          return;
        }
        TablesGrownMore(m0, m, S(), pin, d, i, j, RootSlot(d));
        assert Target(S(), Slot2(d, i)) == Target(m, Slot2(d, i));
      }
      var mid := ReadMid(d, i);
      if mid == None {
        ghost var m := S();
        r := CreateMid(d, i);
        if r != 0 {
          return;
        }
        TablesGrownMore(m0, m, S(), pin, d, i, j, Slot2(d, i));
        assert Target(S(), Slot1(d, i, j)) == Target(m, Slot1(d, i, j));
        assert Target(S(), Slot2(d, i)) == Mid(S(), d, i);
        mid := ReadMid(d, i);
      }
      ghost var m := S();
      r, t := LowTable(d, i, j, mid.value);
      if r == 0 && Low(m, d, i, j) == None {
        TablesGrownMore(m0, m, S(), pin, d, i, j, Slot1(d, i, j));
      }
    }

    /** The last step of the walk. */
    method LowTable(d: nat, i: nat, j: nat, mid: nat) returns (r: int, t: nat)
      requires Valid() && Mid(S(), d, i) == Some(mid) && j < NPTE
      modifies this`free, frames, pages
      ensures Valid() && r == if Low(old(S()), d, i, j) == None && old(free) == [] then -E_NO_MEM else 0
      ensures r == 0 ==> Low(S(), d, i, j) == Some(t)
      ensures if r == 0 && Low(old(S()), d, i, j) == None then TableAdded(old(S()), S(), Slot1(d, i, j))
              else S() == old(S())
    {
      hide InvX, Page, Leaf, Out, UserDataDisjoint, NotTable;
      r, t := 0, 0;
      var low := ReadLow(d, i, j, mid);
      if low == None {
        ghost var m := S();
        r := CreateLow(d, i, j, mid);
        if r != 0 {
          return;
        }
        assert Target(S(), Slot2(d, i)) == Target(m, Slot2(d, i));
        assert Target(S(), Slot1(d, i, j)) == Low(S(), d, i, j);
        low := ReadLow(d, i, j, mid);
      }
      t := low.value;
    }

    /* ---- Reading translations ---- */

    /** The walk of get_pa, get_perm and is_mapped_page. */
    method Walk(d: nat, va: nat) returns (pte: Option<Pte>)
      requires Valid() && !IsShared(VPN2(va))
      ensures pte == Page(S(), d, VPN2(va), VPN1(va), VPN0(va))
    {
      hide InvX, Page, Leaf, Out, VPN0, VPN1, VPN2;
      var i, j, k := VPN2(va), VPN1(va), VPN0(va);
      LeafNeedsTable(S(), d, i, j, k);
      if d !in roots {
        return None;
      }
      var mid := ReadMid(d, i);
      if mid == None {
        return None;
      }
      var low := ReadLow(d, i, j, mid.value);
      if low == None {
        return None;
      }
      TableInUse(S(), pin, {}, {}, d, i, j);
      LeafEntry(S(), pin, d, i, j, k);
      var pte0 := ReadEntry(low.value, k);
      pte := if IsValid(pte0) then Some(pte0) else None;
    }

    /** get_pa */
    method GetPa(d: nat, va: nat) returns (pa: nat)
      requires Valid() && d in roots && !IsShared(VPN2(va))
      ensures pa == match Translated(S(), d, va) case None => UNMAPPED case Some(x) => x
    {
      hide InvX, Page, VPN0, VPN1, VPN2;
      var pte := Walk(d, va);
      pa := if pte.Some? then pte.value.ppn * 0x1000 + va % PAGE_SIZE else UNMAPPED;
    }

    /** get_perm */
    method GetPerm(d: nat, va: nat) returns (perm: nat)
      requires Valid() && d in roots && !IsShared(VPN2(va))
      ensures perm == match Page(S(), d, VPN2(va), VPN1(va), VPN0(va))
                      case None => UNMAPPED
                      case Some(p) => p.flags as nat
    {
      hide InvX, Page, VPN0, VPN1, VPN2;
      var pte := Walk(d, va);
      perm := if pte.Some? then pte.value.flags as nat else UNMAPPED;
    }

    /** is_mapped_page */
    method IsMappedPage(d: nat, va: nat) returns (mapped: bool)
      requires Valid() && !IsShared(VPN2(va))
      ensures mapped <==> Translated(S(), d, va).Some?
    {
      hide InvX, Page, VPN0, VPN1, VPN2;
      var pte := Walk(d, va);
      mapped := pte.Some?;
    }

    /* ---- Mapping, allocating and unmapping one page ---- */

    /** --ref and page_free for the page mapped at the leaf, if there is one. */
    method ReleaseLeaf(d: nat, i: nat, j: nat, k: nat, leaf: Option<nat>)
      requires Valid() && leaf == Leaf(S(), d, i, j, k)
      modifies this`free, pages
      ensures frames[..] == old(frames[..])
      ensures InvX(S(), pin, {Slot0(d, i, j, k)}, {})
      ensures leaf.Some? ==> old(pages[leaf.value]) > 0 && S() == DecRef(old(S()), leaf.value)
      ensures leaf == None ==> S() == old(S())
      ensures forall s :: Target(S(), s) == Target(old(S()), s)
      ensures SamePages(old(S()), S())
    {
      hide InvX, Page, Leaf, Mid, Low, Root, Out;
      assert Target(S(), Slot0(d, i, j, k)) == leaf;
      DropLeafStep(S(), pin, Slot0(d, i, j, k));
      if leaf.Some? {
        Release(leaf.value);
      }
    }

    /** The end of alloc_page and alloc_page_user: clear the old mapping of the leaf, then map a new frame. */
    method AllocLeaf(d: nat, i: nat, j: nat, k: nat, t: nat, perm: bv10) returns (r: int)
      requires Valid() && Low(S(), d, i, j) == Some(t) && k < NPTE
      modifies this`free, frames, pages
      ensures Shaped(S())
      ensures r == if |old(free)| + Freed(old(S()), Slot0(d, i, j, k)) > 0 then 0 else -E_NO_MEM
      ensures r == 0 ==> Valid() && MappedFresh(old(S()), S(), d, i, j, k, perm)
      ensures r != 0 ==> SamePages(old(S()), S()) && forall s :: Target(S(), s) == Target(old(S()), s)
      ensures r != 0 ==> (Valid() <==> Leaf(old(S()), d, i, j, k) == None)
    {
      hide InvX, Page, Leaf, Mid, Root, Out, NotTable, UserDataDisjoint;
      ghost var m0, s0 := S(), Slot0(d, i, j, k);
      var leaf := ReadLeaf(d, i, j, k, t);
      ReleaseLeaf(d, i, j, k, leaf);
      ghost var m1 := S();
      assert Target(m0, s0) == leaf && Target(m1, s0) == leaf;
      assert Target(m1, Slot1(d, i, j)) == Target(m0, Slot1(d, i, j)) == Some(t);
      TableInUse(m1, pin, {s0}, {}, d, i, j);
      if free != [] {
        FillLeaf(m1, pin, d, i, j, k, perm);
      }
      var pp;
      r, pp := PageAlloc();
      if r != 0 {
        if leaf.Some? {
          StaleLeafIsMiscounted(m1, pin, s0);
        }
        return;
      }
      WriteEntry(t, k, MkPte(pp, perm));
      Retain(pp);
      ContentAfterLeaf(m0, S(), t, Slot1(d, i, j), Some(pp));
      UserDataSame(m0, m1);
      if UserDataDisjoint(m0) {
        UserDataAfterLeaf(m1, S(), d, i, j, k);
      }
    }

    /** alloc_page: map a new cleared page at va. */
    method AllocPage(d: nat, va: nat, perm: bv10) returns (r: int)
      requires Valid() && !IsShared(VPN2(va))
      modifies this`free, this`roots, frames, pages
      ensures Shaped(S())
      ensures var m, i, j, k := old(S()), VPN2(va), VPN1(va), VPN0(va);
              r == if |m.free| + Freed(m, Slot0(d, i, j, k)) > Missing(m, d, i, j) then 0 else -E_NO_MEM
      // Success maps exactly this page, to a cleared frame with no other reference.
      ensures r == 0 ==> Valid() && PageAllocated(old(S()), S(), d, VPN2(va), VPN1(va), VPN0(va), perm)
      // Failure maps nothing. It keeps the counts right exactly when no page was mapped there before:
      // otherwise the count of the page that stays mapped has already been dropped.
      ensures r != 0 ==> SamePages(old(S()), S())
      ensures r != 0 ==> (Valid() <==> Leaf(old(S()), d, VPN2(va), VPN1(va), VPN0(va)) == None)
    {
      hide InvX, Page, Leaf, Mid, Root, Out, NotTable, UserDataDisjoint, ContentKept, TablesKept, DataKept;
      var i, j, k := VPN2(va), VPN1(va), VPN0(va);
      ghost var m0 := S();
      LeafNeedsTable(m0, d, i, j, k);
      var t;
      r, t := Descend(d, i, j);
      if r != 0 {
        return;
      }
      ghost var m1 := S();
      FreedAfterGrowth(m0, m1, pin, d, i, j, k);
      r := AllocLeaf(d, i, j, k, t, perm);
      if r == 0 {
        ContentAfterGrowth(m0, m1, S(), d, i, j, Leaf(S(), d, i, j, k));
        TablesKeptAfterGrowth(m0, m1, S(), d, i, j, k);
      }
    }

    /** The end of map_page and map_page_user. Remapping the same frame only changes the flags. */
    method MapLeaf(d: nat, i: nat, j: nat, k: nat, t: nat, g: nat, perm: bv10)
      requires Valid() && Low(S(), d, i, j) == Some(t) && k < NPTE
      requires g < NPAGE && 0 < pages[g] < 0xffff
      modifies this`free, frames, pages
      ensures Valid() && MappedTo(old(S()), S(), d, i, j, k, g, perm)
      ensures Leaf(old(S()), d, i, j, k) == None ==> free == old(free)
    {
      hide InvX, Page, Leaf, Mid, Root, Out, NotTable, UserDataDisjoint, MappedTo;
      ghost var m0, s0 := S(), Slot0(d, i, j, k);
      var leaf := ReadLeaf(d, i, j, k, t);
      assert Target(m0, s0) == leaf;
      assert Target(m0, Slot1(d, i, j)) == Some(t);
      TableInUse(m0, pin, {}, {}, d, i, j);
      if leaf == Some(g) {
        ReflagLeaf(m0, pin, d, i, j, k, perm);
        WriteEntry(t, k, MkPte(g, perm));
        MappedBySame(m0, S(), d, i, j, k, t, g, perm);
        return;
      }
      ReleaseLeaf(d, i, j, k, leaf);
      ghost var m1 := S();
      assert Target(m1, Slot1(d, i, j)) == Some(t);
      TableInUse(m1, pin, {s0}, {}, d, i, j);
      InUse(m1, pin, {s0}, {}, g);
      PointLeaf(m1, pin, d, i, j, k, g, perm);
      WriteEntry(t, k, MkPte(g, perm));
      Retain(g);
      MappedByPointing(m0, m1, S(), d, i, j, k, t, g, perm);
    }

    /** map_page: map the RAM page of pa at va, with flags perm. */
    method MapPage(d: nat, va: nat, pa: nat, perm: bv10) returns (r: int)
      requires Valid() && !IsShared(VPN2(va))
      requires KERNBASE <= pa < KERNBASE + MEMORY_SIZE && FrameOf(pa) < NPAGE && 0 < pages[FrameOf(pa)] < 0xffff
      modifies this`free, this`roots, frames, pages
      ensures Valid()
      ensures r == if |old(free)| >= Missing(old(S()), d, VPN2(va), VPN1(va)) then 0 else -E_NO_MEM
      ensures r == 0 ==> PageMapped(old(S()), S(), d, VPN2(va), VPN1(va), VPN0(va), FrameOf(pa), perm)
      ensures r != 0 ==> TablesGrown(old(S()), S(), d, VPN2(va), VPN1(va)) && free == []
      ensures r == 0 && Leaf(old(S()), d, VPN2(va), VPN1(va), VPN0(va)) == None ==>
                |free| == |old(free)| - Missing(old(S()), d, VPN2(va), VPN1(va))
    {
      hide InvX, Page, Leaf, Mid, Root, Out, NotTable, UserDataDisjoint, ContentKept, TablesKept, DataKept;
      var i, j, k := VPN2(va), VPN1(va), VPN0(va);
      ghost var m0 := S();
      var t;
      r, t := Descend(d, i, j);
      if r != 0 {
        return;
      }
      ghost var m1 := S();
      MapLeaf(d, i, j, k, t, FrameOf(pa), perm);
      ContentAfterGrowth(m0, m1, S(), d, i, j, None);
      TablesKeptAfterGrowth(m0, m1, S(), d, i, j, k);
      InUseNoTable(m0, m1, S(), d, i, j, k);
      FreedAfterGrowth(m0, m1, pin, d, i, j, k);
    }

    /** unmap_page */
    method UnmapPage(d: nat, va: nat)
      requires Valid() && !IsShared(VPN2(va))
      modifies this`free, frames, pages
      ensures Valid() && PageUnmapped(old(S()), S(), d, VPN2(va), VPN1(va), VPN0(va))
    {
      hide InvX, Page, Leaf, Out, NotTable, UserDataDisjoint;
      var i, j, k := VPN2(va), VPN1(va), VPN0(va);
      ghost var m0, s0 := S(), Slot0(d, i, j, k);
      LeafNeedsTable(m0, d, i, j, k);
      UserDataSame(m0, m0);
      if d !in roots {
        return;
      }
      var mid := ReadMid(d, i);
      if mid == None {
        return;
      }
      var low := ReadLow(d, i, j, mid.value);
      if low == None {
        return;
      }
      var leaf := ReadLeaf(d, i, j, k, low.value);
      if leaf == None {
        return;
      }
      ReleaseLeaf(d, i, j, k, leaf);
      ghost var m1 := S();
      assert Target(m1, Slot1(d, i, j)) == Target(m0, Slot1(d, i, j)) == low;
      TableInUse(m1, pin, {s0}, {}, d, i, j);
      ClearLeaf(m1, pin, d, i, j, k);
      WriteEntry(low.value, k, ZeroPte);
      ContentAfterLeaf(m0, S(), low.value, Slot1(d, i, j), None);
      UserDataSame(m0, m1);
      if UserDataDisjoint(m0) {
        UserDataAfterLeaf(m1, S(), d, i, j, k);
      }
    }

    /* ---- Mapping below UTOP, with the page-table window kept up to date ---- */

    /** Map the table at pa, just linked at slot s0, into its window page; the result is ignored. */
    method OpenWindow(d: nat, window: nat, pa: nat, ghost s0: Slot)
      requires Valid() && TableToShow(S(), d, s0, window, pa)
      modifies this`free, this`roots, frames, pages
      ensures Valid() && WindowOpened(old(S()), S(), d, s0)
    {
      ghost var m, j, k := S(), WindowRow(s0), WindowColumn(s0);
      WindowPageEmpty(m, pin, d, s0);
      hide InvX, Page, Leaf, Mid, Low, Root, Target, NotTable, UserDataDisjoint, ContentKept, DataKept, VPN0, VPN1,
        VPN2, WindowLacks, WindowOk, FrameOf, PageMapped, TablesGrown, UserGrown, WindowOpened;
      var r := MapPage(d, window, pa, PTE_R | PTE_U);
      if r == 0 {
        WindowOpenedBySuccess(m, S(), pin, d, s0, FrameOf(pa));
      } else {
        WindowOpenedByFailure(m, S(), pin, d, s0);
      }
    }

    /** create_pte1 of the user calls: a new level-1 table is mapped read-only into the window. */
    method DescendToMid(d: nat, va: nat) returns (r: int, mid: nat)
      requires Valid() && WindowOk(S(), d) && va < UTOP
      modifies this`free, this`roots, frames, pages
      ensures Valid() && MidReached(old(S()), S(), d, VPN2(va), VPN1(va), r, mid)
    {
      var i, j := VPN2(va), VPN1(va);
      WindowGeometry(va);
      hide InvX, Page, Leaf, Out, Target, Mid, Low, Root, NotTable, UserDataDisjoint, VPN0, VPN1, VPN2, WindowLacks,
        WindowOk, TableAdded, UserGrown, FrameOf, MidReached, TableToShow, WindowOpened;
      ghost var m0 := S();
      WindowTables(m0, pin, d);
      r, mid := 0, 0;
      var t := ReadMid(d, i);
      if t == None {
        r := CreateMid(d, i);
        if r != 0 {
          MidNotReached(m0, d, i, j, mid);
          return;
        }
        ghost var m1 := S();
        t := ReadMid(d, i);
        var pa := PteAddress(t, j);
        NewMidToShow(m0, m1, d, va, t, pa);
        OpenWindow(d, Window1(va), pa, Slot2(d, i));
        MidReachedByNew(m0, m1, S(), pin, d, i, j, t);
      } else {
        MidFound(m0, d, i, j);
      }
      mid := t.value;
    }

    /** create_pte0 of the user calls: a new level-0 table is mapped read-only into the window; when
        that needs one more table and there is no frame left for it, the failure is ignored. */
    method DescendToLow(d: nat, va: nat, mid: nat) returns (r: int, t: nat)
      requires Valid() && WindowOk(S(), d) && va < UTOP && Mid(S(), d, VPN2(va)) == Some(mid)
      modifies this`free, this`roots, frames, pages
      ensures Valid() && LowReached(old(S()), S(), d, VPN2(va), VPN1(va), r, t)
    {
      var i, j, k := VPN2(va), VPN1(va), VPN0(va);
      WindowGeometry(va);
      hide InvX, Page, Leaf, Out, Target, Mid, Low, Root, NotTable, UserDataDisjoint, VPN0, VPN1, VPN2, WindowLacks,
        WindowOk, TableAdded, UserGrown, FrameOf, LowReached, TableToShow, WindowOpened;
      ghost var m0 := S();
      WindowTables(m0, pin, d);
      r, t := 0, 0;
      var low := ReadLow(d, i, j, mid);
      if low == None {
        r := CreateLow(d, i, j, mid);
        if r != 0 {
          LowNotReached(m0, d, i, j, t);
          return;
        }
        ghost var m1 := S();
        KeepsMid(m0, m1, d, i, j);
        low := ReadLow(d, i, j, mid);
        var pa := PteAddress(low, k);
        NewLowToShow(m0, m1, d, va, low, pa);
        OpenWindow(d, Window0(va), pa, Slot1(d, i, j));
        LowReachedByNew(m0, m1, S(), pin, d, i, j, low);
      } else {
        LowFound(m0, d, i, j);
      }
      t := low.value;
    }

    /** The walk of alloc_page_user and map_page_user: like Descend, with the window. */
    method DescendUser(d: nat, va: nat) returns (r: int, t: nat)
      requires Valid() && WindowOk(S(), d) && va < UTOP
      modifies this`free, this`roots, frames, pages
      ensures Valid() && UserReached(old(S()), S(), d, VPN2(va), VPN1(va), r, t)
    {
      var i, j := VPN2(va), VPN1(va);
      hide InvX, Page, Leaf, Out, Target, Mid, Low, Root, NotTable, UserDataDisjoint, VPN0, VPN1, VPN2, WindowOk,
        UserReached;
      ghost var m0 := S();
      WindowTables(m0, pin, d);
      var mid;
      r, mid := DescendToMid(d, va);
      ghost var m1, r1 := S(), r;
      t := 0;
      if r == 0 {
        r, t := DescendToLow(d, va, mid);
      }
      UserReachedVia(m0, m1, S(), d, i, j, r1, mid, r, t);
    }

    /** alloc_page_user: map a new cleared page at va. */
    method AllocPageUser(d: nat, va: nat, perm: bv10) returns (r: int)
      requires Valid() && WindowOk(S(), d) && va < UTOP
      modifies this`free, this`roots, frames, pages
      ensures Shaped(S())
      ensures var m, i, j, k := old(S()), VPN2(va), VPN1(va), VPN0(va);
              r == if |m.free| + Freed(m, Slot0(d, i, j, k)) > FramesToReach(m, d, i, j) then 0 else -E_NO_MEM
      ensures r == 0 ==> Valid() && UserAllocated(old(S()), S(), d, VPN2(va), VPN1(va), VPN0(va), perm)
      ensures r != 0 ==> UserFailed(old(S()), S(), d, VPN2(va), VPN1(va))
      ensures r != 0 ==> (Valid() <==> Page(old(S()), d, VPN2(va), VPN1(va), VPN0(va)) == None)
    {
      var i, j, k := VPN2(va), VPN1(va), VPN0(va);
      WindowGeometry(va);
      hide InvX, Page, Leaf, Out, Target, Mid, Low, Root, NotTable, UserDataDisjoint, VPN0, VPN1, VPN2, WindowOk,
        UserAllocated, MappedFresh;
      ghost var m0 := S();
      LeafNeedsTable(m0, d, i, j, k);
      var t;
      r, t := DescendUser(d, va);
      ghost var m1, r1 := S(), r;
      FreedAfterWalk(m0, m1, pin, d, i, j, k, r1, t);
      if r != 0 {
        UserFailedVia(m0, m1, m1, d, i, j, r1, t);
        return;
      }
      NoPageWithoutWindow(m0, m1, pin, d, i, j, k, r1, t);
      PageIsLeaf(m1, pin, d, i, j, k);
      r := AllocLeaf(d, i, j, k, t, perm);
      if r == 0 {
        UserAllocatedVia(m0, m1, S(), d, i, j, k, r1, t, perm);
      } else {
        UserFailedVia(m0, m1, S(), d, i, j, r1, t);
      }
    }

    /** map_page_user: map the page of pa, which is no table, at va. */
    method MapPageUser(d: nat, va: nat, pa: nat, perm: bv10) returns (r: int)
      requires Valid() && WindowOk(S(), d) && va < UTOP
      requires KERNBASE <= pa < KERNBASE + MEMORY_SIZE && FrameOf(pa) < NPAGE && 0 < pages[FrameOf(pa)] < 0xffff
      requires NotTable(S(), FrameOf(pa))
      modifies this`free, this`roots, frames, pages
      ensures Valid()
      ensures r == if old(|free|) >= Missing(old(S()), d, VPN2(va), VPN1(va)) then 0 else -E_NO_MEM
      ensures r == 0 ==> UserMapped(old(S()), S(), d, VPN2(va), VPN1(va), VPN0(va), FrameOf(pa), perm)
      ensures r != 0 ==> UserFailed(old(S()), S(), d, VPN2(va), VPN1(va))
    {
      var i, j, k := VPN2(va), VPN1(va), VPN0(va);
      WindowGeometry(va);
      hide InvX, Page, Leaf, Out, Target, Mid, Low, Root, NotTable, UserDataDisjoint, VPN0, VPN1, VPN2, WindowOk,
        UserMapped, MappedTo, FrameOf;
      ghost var m0 := S();
      var t;
      r, t := DescendUser(d, va);
      ghost var m1 := S();
      if r != 0 {
        UserFailedVia(m0, m1, m1, d, i, j, r, t);
        return;
      }
      MapLeaf(d, i, j, k, t, FrameOf(pa), perm);
      UserMappedVia(m0, m1, S(), d, i, j, k, r, t, FrameOf(pa), perm);
    }

    /** sys_mem_unmap on a user address: unmap_page keeps every window. */
    method UnmapPageUser(d: nat, va: nat)
      requires Valid() && va < UTOP
      modifies this`free, frames, pages
      ensures Valid() && PageUnmapped(old(S()), S(), d, VPN2(va), VPN1(va), VPN0(va))
      ensures forall x :: WindowOk(S(), x) <==> WindowOk(old(S()), x)
      ensures roots.Keys == old(roots.Keys)
    {
      WindowGeometry(va);
      hide InvX, Page, Leaf, Out, NotTable, UserDataDisjoint, VPN0, VPN1, VPN2, WindowOk, ContentKept;
      ghost var m0 := S();
      UnmapPage(d, va);
      LeafKeepsWindows(m0, S(), d, VPN2(va), VPN1(va), VPN0(va), None);
    }

    /* ---- New directories ---- */

    /** root[slot] = base_pgdir's entry, for the two aliased slots */
    method AliasKernelSlot(d: nat, slot: nat, w: Pte)
      requires Valid() && d in roots && IsShared(slot)
      modifies frames
      ensures Valid() && (forall s :: Target(S(), s) == Target(old(S()), s)) && SamePages(old(S()), S())
      ensures S() == WritePte(old(S()), old(roots[d]), slot, w) && EntryIs(S(), d, slot, w)
    {
      hide InvX, Page, Leaf, Out, Target, Mid, Low, Root;
      SharedWriteStep(S(), pin, d, slot, w);
      WriteEntry(roots[d], slot, w);
    }

    /** The two entries that sys_exofork writes into the root of the child. */
    method AliasKernel(d: nat, kern: Pte, envs: Pte)
      requires Valid() && d in roots
      modifies frames
      ensures Valid() && (forall s :: Target(S(), s) == Target(old(S()), s)) && SamePages(old(S()), S())
      ensures free == old(free) && EntryIs(S(), d, PKERN, kern) && EntryIs(S(), d, PENVS, envs)
    {
      hide InvX, Page, Target;
      AliasKernelSlot(d, PKERN, kern);
      AliasKernelSlot(d, PENVS, envs);
    }

    /** env_setup_vm: a directory whose window shows its root, with the envs and pages arrays aliased.
        It reports success even when the window could not be mapped. When there is no frame at all, the
        result of alloc_pgdir is ignored as well, and map_page panics on the physical address 0; ok is
        false then. */
    method EnvSetupVm(d: nat, envs: Pte) returns (ok: bool)
      requires Valid() && d !in roots
      modifies this`free, this`roots, frames, pages
      ensures ok <==> old(free) != []
      ensures !ok ==> S() == old(S())
      ensures Valid() && (d in roots <==> ok)
      ensures ok ==> EntryIs(S(), d, PENVS, envs)
      ensures WindowOk(S(), d) <==> |old(free)| >= 3
      ensures WindowOk(S(), d) ==> FreshDirectory(S(), d)
      ensures forall x, i, j, k :: x != d ==> Page(S(), x, i, j, k) == Page(old(S()), x, i, j, k)
      ensures OtherWindowsKept(old(S()), S(), d) && (UserDataDisjoint(old(S())) ==> UserDataDisjoint(S()))
    {
      hide InvX, Page, Leaf, Out, Mid, Low, Root, NotTable, UserDataDisjoint, VPN0, VPN1, VPN2, WindowOk, TableAdded,
        PageMapped, FrameOf;
      ghost var m0 := S();
      var r := CreateRoot(d);
      ghost var m1 := S();
      if r != 0 {
        NoWindowWithoutRoot(m1, d);
        return false;
      }
      ok := true;
      NewDirectory(m0, m1, d);
      RootWindow(roots[d]);
      assert Missing(m1, d, PPT, PPT) == 2;
      r := MapPage(d, WINDOW_ROOT, KERNBASE + roots[d] * 0x1000, PTE_R | PTE_U);
      ghost var m2 := S();
      if r == 0 {
        FirstWindowPage(m1, m2, d);
      } else {
        NoWindowPage(m1, m2, d);
      }
      KeepsDirectories(m0, m1, m2, d, r == 0);
      AliasKernelSlot(d, PENVS, envs);
      SameStateWindow(m2, S(), d);
      SameRoot(m2, S(), d);
      SameOtherWindows(m0, m2, S(), d);
    }

    /* ---- Tearing a directory down ---- */

    /** The innermost loop of destroy_pgdir: release and clear the leaves of table t. */
    method ClearLeaves(d: nat, i: nat, j: nat, t: nat, ghost m0: Mem)
      requires Valid() && Shaped(m0) && TornDown(m0, S(), d, i, j, 0) && Low(S(), d, i, j) == Some(t)
      modifies this`free, frames, pages
      ensures Valid() && TornDown(m0, S(), d, i, j, NPTE) && Low(S(), d, i, j) == Some(t)
    {
      hide InvX, Page, Leaf, Mid, Out, Root, TornDown, Low, Target;
      for k := 0 to NPTE
        invariant Valid() && TornDown(m0, S(), d, i, j, k) && Low(S(), d, i, j) == Some(t)
      {
        ghost var m := S();
        var leaf := ReadLeaf(d, i, j, k, t);
        if leaf.Some? {
          ReleaseLeaf(d, i, j, k, leaf);
          ClearOneLeaf(m0, m, S(), pin, d, i, j, k, t);
          WriteEntry(t, k, ZeroPte);
        } else {
          TornDownNoLeaf(m0, m, d, i, j, k);
        }
      }
    }

    method ReleaseTable(t: nat, ghost s: Slot)
      requires Valid() && Target(S(), s) == Some(t)
      modifies this`free, pages
      ensures Shaped(S()) && old(pages[t]) > 0 && S() == DecRef(old(S()), t)
      ensures InvX(S(), pin, {s}, {}) && SamePages(old(S()), S())
      ensures forall s' :: Target(S(), s') == Target(old(S()), s')
    {
      hide InvX, Page, Target;
      ReleaseTableStep(S(), pin, s);
      Release(t);
    }

    /** The middle loop: the level-0 tables below the level-1 table mid, and their leaves. */
    method ClearTables(d: nat, i: nat, mid: nat, ghost m0: Mem)
      requires Valid() && Shaped(m0) && TornDown(m0, S(), d, i, 0, 0) && Mid(S(), d, i) == Some(mid)
      modifies this`free, frames, pages
      ensures Valid() && TornDown(m0, S(), d, i, NPTE, 0) && Mid(S(), d, i) == Some(mid)
    {
      hide InvX, Page, Leaf, Mid, Out, Root, TornDown, Low;
      NotPassedYet(m0, S(), d, i, 0, 0);
      for j := 0 to NPTE
        invariant Valid() && TornDown(m0, S(), d, i, j, 0) && Mid(S(), d, i) == Some(mid)
      {
        var low := ReadLow(d, i, j, mid);
        if low.Some? {
          ClearLeaves(d, i, j, low.value, m0);
          ghost var m := S();
          NotPassedYet(m0, m, d, i, j, NPTE);
          ReleaseTable(low.value, Slot1(d, i, j));
          ClearLow(m0, m, S(), pin, d, i, j);
          WriteEntry(mid, j, ZeroPte);
        } else {
          TornDownNoLow(m0, S(), d, i, j);
        }
        NotPassedYet(m0, S(), d, i, j + 1, 0);
      }
    }

    /** destroy_pgdir. Every table that is read or written is in use at that moment. */
    method DestroyPgdir(d: nat)
      requires Valid()
      modifies this`free, this`roots, frames, pages
      ensures Valid() && Destroyed(old(S()), S(), d)
    {
      hide InvX, Page, Leaf, Mid, Out, TornDown, Low, Destroyed;
      ghost var m0 := S();
      if d !in roots {
        NoDirectory(m0, d);
        return;
      }
      NothingTornDown(m0, d);
      for i := 0 to NPTE
        invariant Valid() && TornDown(m0, S(), d, i, 0, 0) && roots == m0.roots
      {
        if IsShared(i) {
          SharedSlotIsNoTable(S(), d, i);
          TornDownNoMid(m0, S(), d, i);
          continue;
        }
        var mid := ReadMid(d, i);
        if mid.Some? {
          ClearTables(d, i, mid.value, m0);
          ghost var m := S();
          ReleaseTable(mid.value, Slot2(d, i));
          ClearMid(m0, m, S(), pin, d, i);
          WriteEntry(roots[d], i, ZeroPte);
        } else {
          TornDownNoMid(m0, S(), d, i);
        }
      }
      ghost var m := S();
      ReleaseTable(roots[d], RootSlot(d));
      ClearRoot(m0, m, S(), pin, d);
      roots := roots - {d};
    }
  }
}
