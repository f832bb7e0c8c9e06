/** The page walk of the machine (sections 4.3.2 and 4.4.1 of the RISC-V Privileged Architecture, version 20211203)
    on the tables that the kernel keeps, and what it does with the entries that kern/pmap.c writes. */
module Hardware {
  import opened Options
  import opened Sv39
  import opened PhysMem
  import opened PmapSteps
  import opened Translate
  import opened Window

  /** The exception that an access of user code ends in when it is not allowed. */
  datatype Cause = Fetch | LoadFault | StoreFault

  datatype Found = PageFault | Page4K(p: Pte) | Superpage

  /** Steps 2 to 4 of the walk, at the given level; the table is frame t. */
  function WalkFrom(m: Mem, t: nat, va: nat, level: nat): Found
    requires Shaped(m) && t < NPAGE && level <= 2
    decreases level
  {
    var index := if level == 2 then VPN2(va) else if level == 1 then VPN1(va) else VPN0(va);
    var p := m.frames[t][index];
    if p.flags & PTE_V == 0 || (p.flags & PTE_R == 0 && p.flags & PTE_W != 0) then PageFault
    else if p.flags & PTE_R != 0 || p.flags & PTE_X != 0 then if level == 0 then Page4K(p) else Superpage
    else if level == 0 || !InRam(p) then PageFault
    else WalkFrom(m, p.ppn - BASEPPN, va, level - 1)
  }

  /** Step 5: an access in user mode needs PTE_U and the flag for its kind. */
  predicate Permits(flags: bv10, cause: Cause)
  {
    flags & PTE_U != 0 &&
    match cause
    case Fetch => flags & PTE_X != 0
    case LoadFault => flags & PTE_R != 0
    case StoreFault => flags & PTE_W != 0
  }

  /** The physical address that an access of env d reaches, if it does not fault. */
  function Reaches(m: Mem, d: nat, va: nat, cause: Cause): Option<nat>
    requires Shaped(m)
  {
    if d !in m.roots then None else
    match WalkFrom(m, m.roots[d], va, 2)
    case Page4K(p) => if Permits(p.flags, cause) then Some(p.ppn * 0x1000 + va % PAGE_SIZE) else None
    case _ => None
  }

  /** A leaf that the walk accepts: PTE_W needs PTE_R, and without PTE_R and PTE_X it would be a pointer. */
  predicate IsLeaf(flags: bv10)
  {
    (flags & PTE_W != 0 ==> flags & PTE_R != 0) && (flags & PTE_R != 0 || flags & PTE_X != 0)
  }

  /** Every valid entry of a root or a level-1 table is a pointer, so no superpage is ever mapped. */
  lemma TablesArePointers(m: Mem, pin: seq<nat>)
    requires Inv(m, pin)
    ensures forall d, i :: d in m.roots && 0 <= i < NPTE && !IsShared(i) && IsValid(m.frames[m.roots[d]][i])
              ==> m.frames[m.roots[d]][i].flags & (PTE_R | PTE_W | PTE_X) == 0
    ensures forall d, i, j :: 0 <= j < NPTE && Mid(m, d, i).Some? && IsValid(m.frames[Mid(m, d, i).value][j])
              ==> m.frames[Mid(m, d, i).value][j].flags & (PTE_R | PTE_W | PTE_X) == 0
  {
    hide Counted, Trees, FreeListOk, Leaf;
    forall d, i | d in m.roots && 0 <= i < NPTE && !IsShared(i) && IsValid(m.frames[m.roots[d]][i])
      ensures m.frames[m.roots[d]][i].flags & (PTE_R | PTE_W | PTE_X) == 0 {
      assert Mid(m, d, i).Some?;
    }
    forall d, i, j | 0 <= j < NPTE && Mid(m, d, i).Some? && IsValid(m.frames[Mid(m, d, i).value][j])
      ensures m.frames[Mid(m, d, i).value][j].flags & (PTE_R | PTE_W | PTE_X) == 0 {
      assert Low(m, d, i, j).Some?;
    }
  }

  lemma PointerFlags(flags: bv10)
    requires flags & (PTE_R | PTE_W | PTE_X) == 0
    ensures flags & PTE_R == 0 && flags & PTE_W == 0 && flags & PTE_X == 0
  {
  }

  /** The machine and the walk of get_pa agree: they find the same entry, and the machine accepts it exactly if it
      is a leaf by its flags. */
  lemma HardwareAgrees(m: Mem, pin: seq<nat>, d: nat, va: nat)
    requires Inv(m, pin) && d in m.roots && !IsShared(VPN2(va))
    ensures WalkFrom(m, m.roots[d], va, 2)
            == match Page(m, d, VPN2(va), VPN1(va), VPN0(va))
               case None => PageFault
               case Some(p) => if IsLeaf(p.flags) then Page4K(p) else PageFault
  {
    var i, j, k := VPN2(va), VPN1(va), VPN0(va);
    hide VPN0, VPN1, VPN2, IsShared, WalkFrom, Counted, Trees, FreeListOk;
    RootStep(m, pin, d, va, i);
    if Mid(m, d, i).Some? {
      LowStep(m, pin, d, va, i, j);
      if Low(m, d, i, j).Some? {
        LeafStep(m, pin, d, va, i, j, k);
      }
    }
  }

  lemma RootStep(m: Mem, pin: seq<nat>, d: nat, va: nat, i: nat)
    requires Inv(m, pin) && d in m.roots && i == VPN2(va) && !IsShared(i)
    ensures WalkFrom(m, m.roots[d], va, 2)
            == match Mid(m, d, i) case None => PageFault case Some(t) => WalkFrom(m, t, va, 1)
  {
    hide VPN0, VPN1, VPN2, IsShared, Low, Leaf;
    TablesArePointers(m, pin);
    MidEntry(m, pin, d, i);
    var p := m.frames[m.roots[d]][i];
    if IsValid(p) { PointerFlags(p.flags); }
  }

  lemma LowStep(m: Mem, pin: seq<nat>, d: nat, va: nat, i: nat, j: nat)
    requires Inv(m, pin) && Mid(m, d, i).Some? && j == VPN1(va)
    ensures WalkFrom(m, Mid(m, d, i).value, va, 1)
            == match Low(m, d, i, j) case None => PageFault case Some(t) => WalkFrom(m, t, va, 0)
  {
    hide VPN0, VPN1, VPN2, IsShared, Mid, Leaf;
    TablesArePointers(m, pin);
    LowEntry(m, pin, d, i, j);
    var p := m.frames[Mid(m, d, i).value][j];
    if IsValid(p) { PointerFlags(p.flags); }
  }

  lemma LeafStep(m: Mem, pin: seq<nat>, d: nat, va: nat, i: nat, j: nat, k: nat)
    requires Inv(m, pin) && Low(m, d, i, j).Some? && k == VPN0(va)
    ensures WalkFrom(m, Low(m, d, i, j).value, va, 0)
            == match Page(m, d, i, j, k)
               case None => PageFault
               case Some(p) => if IsLeaf(p.flags) then Page4K(p) else PageFault
  {
    hide VPN0, VPN1, VPN2, IsShared, Low;
  }

  /** So an access reaches what get_pa computes, if the page is mapped and its flags permit it; otherwise it
      faults. */
  lemma AccessAgrees(m: Mem, pin: seq<nat>, d: nat, va: nat, cause: Cause)
    requires Inv(m, pin) && !IsShared(VPN2(va))
    ensures Reaches(m, d, va, cause)
            == match Permission(m, d, va)
               case None => None
               case Some(flags) => if IsLeaf(flags) && Permits(flags, cause) then Translated(m, d, va) else None
  {
    hide InvX, WalkFrom, VPN0, VPN1, VPN2, IsShared;
    if d in m.roots {
      HardwareAgrees(m, pin, d, va);
    }
  }

  /* ---- The user's window ---- */

  /** A load by user code, as module Window has it, is a load of the machine. */
  lemma UserLoadIsAccess(m: Mem, pin: seq<nat>, d: nat, addr: nat)
    requires Inv(m, pin) && !IsShared(VPN2(addr))
    ensures Reaches(m, d, addr, LoadFault).Some? ==>
              var pa := Reaches(m, d, addr, LoadFault).value;
              pa >= KERNBASE && FrameOf(pa) < NPAGE
    ensures UserLoad(m, d, addr)
            == match Reaches(m, d, addr, LoadFault)
               case None => None
               case Some(pa) => Some(m.frames[FrameOf(pa)][pa % PAGE_SIZE / 8])
  {
    AccessAgrees(m, pin, d, addr, LoadFault);
    var i, j, k := VPN2(addr), VPN1(addr), VPN0(addr);
    LeafNeedsTable(m, d, i, j, k);
    if Low(m, d, i, j).Some? && k < NPTE { LeafEntry(m, pin, d, i, j, k); }
    hide InvX, VPN0, VPN1, VPN2, Reaches, Low, Page, Leaf;
    var p := Page(m, d, i, j, k);
    if p.Some? {
      var f, off := p.value.ppn - BASEPPN, addr % PAGE_SIZE;
      FrameOfAddress(f, off);
      Div4K(p.value.ppn * 0x1000 + off, p.value.ppn, off);
    }
  }

  /** Through its window user code reads its page table and cannot change it: a store to any of the three entries that
      lead to an address below UTOP faults. */
  lemma WindowIsReadOnly(m: Mem, pin: seq<nat>, d: nat, va: nat)
    requires Inv(m, pin) && WindowOk(m, d) && va < UTOP
    ensures Reaches(m, d, Pt2Addr(va), StoreFault) == None
    ensures Reaches(m, d, Pt1Addr(va), StoreFault) == None
    ensures Reaches(m, d, Pt0Addr(va), StoreFault) == None
  {
    WindowGeometry(va);
    WindowReads(va);
    var i, j, k := VPN2(va), VPN1(va), VPN0(va);
    StoreFaults(m, pin, d, PPT, PPT, PPT, i * 8, Pt2Addr(va), Some(m.roots[d]));
    StoreFaults(m, pin, d, PPT, PPT, i, j * 8, Pt1Addr(va), Mid(m, d, i));
    StoreFaults(m, pin, d, PPT, i, j, k * 8, Pt0Addr(va), Low(m, d, i, j));
  }

  lemma StoreFaults(m: Mem, pin: seq<nat>, d: nat, i: nat, j: nat, k: nat, off: nat, addr: nat, t: Option<nat>)
    requires Inv(m, pin) && i < NPTE && j < NPTE && k < NPTE && off < PAGE_SIZE && i == PPT
    requires addr == Address(i, j, k, off) && Page(m, d, i, j, k) == Mirror(t)
    ensures Reaches(m, d, addr, StoreFault) == None
  {
    VpnsOfAddress(i, j, k, off);
    AccessAgrees(m, pin, d, addr, StoreFault);
    assert (WINDOW_PERM | PTE_V) & PTE_W == 0;
    hide InvX, VPN0, VPN1, VPN2, Reaches, Page, Address;
  }
}
