/** The window through which user code reads its own page table: PAGE_TABLE in include/mmu.h, and
    pt0, pt1, pt2 and is_mapped in user/include/lib.h. */
module Window {
  import opened Options
  import opened Sv39
  import opened PhysMem
  import opened TableSteps
  import opened MapSteps

  const WINDOW_PERM: bv10 := PTE_R | PTE_U

  /** The window entry that belongs to a table. */
  function Mirror(t: Option<nat>): Option<Pte>
  {
    if t.Some? then Some(MkPte(t.value, WINDOW_PERM)) else None
  }

  /** Exactly the root and the tables below UTOP are visible, each at its own window page. */
  ghost predicate WindowOk(m: Mem, d: nat)
    requires Shaped(m)
  {
    && d in m.roots
    && Page(m, d, PPT, PPT, PPT) == Mirror(Some(m.roots[d]))
    && (forall i :: 0 <= i < 2 ==> Page(m, d, PPT, PPT, i) == Mirror(Mid(m, d, i)))
    && (forall i, j :: 0 <= i < 2 && 0 <= j < NPTE ==> Page(m, d, PPT, i, j) == Mirror(Low(m, d, i, j)))
  }

  /** A 64-bit load in user mode: None is a page fault. */
  function UserLoad(m: Mem, d: nat, addr: nat): Option<Pte>
    requires Shaped(m)
  {
    var p := Page(m, d, VPN2(addr), VPN1(addr), VPN0(addr));
    if p.Some? && InRam(p.value) && p.value.flags & PTE_R != 0 && p.value.flags & PTE_U != 0 then
      Some(m.frames[p.value.ppn - BASEPPN][addr % PAGE_SIZE / 8])
    else
      None
  }

  /** The macro is_mapped: None is a page fault while evaluating it. */
  function UserIsMapped(m: Mem, d: nat, va: nat): Option<bool>
    requires Shaped(m)
  {
    match UserLoad(m, d, Pt2Addr(va))
    case None => None
    case Some(pte2) =>
      if !IsValid(pte2) then Some(false) else
      match UserLoad(m, d, Pt1Addr(va))
      case None => None
      case Some(pte1) =>
        if !IsValid(pte1) then Some(false) else
        match UserLoad(m, d, Pt0Addr(va))
        case None => None
        case Some(pte0) => Some(IsValid(pte0))
  }

  /** A load from a mirrored table reads that table's entry. */
  lemma LoadFromTable(m: Mem, d: nat, i: nat, j: nat, k: nat, e: nat, t: nat, addr: nat)
    requires Shaped(m) && t < NPAGE && e < NPTE && i < NPTE && j < NPTE && k < NPTE
    requires Page(m, d, i, j, k) == Mirror(Some(t))
    requires addr == Address(i, j, k, e * 8)
    ensures UserLoad(m, d, addr) == Some(m.frames[t][e])
  {
    hide Page, Address;
    assert (WINDOW_PERM | PTE_V) & PTE_R != 0 && (WINDOW_PERM | PTE_V) & PTE_U != 0;
    VpnsOfAddress(i, j, k, e * 8);
    hide VPN0, VPN1, VPN2;
    assert addr % PAGE_SIZE / 8 == e;
  }

  /** For every address below UTOP, the macros evaluated in user mode never fault, say exactly whether
      the kernel walk finds a page there, and read exactly the entry that the walk finds. */
  lemma WindowShowsTheWalk(m: Mem, pin: seq<nat>, d: nat, va: nat)
    requires Inv(m, pin) && WindowOk(m, d) && va < UTOP
    ensures var p := Page(m, d, VPN2(va), VPN1(va), VPN0(va));
            && UserIsMapped(m, d, va) == Some(p.Some?)
            && (p.Some? ==> UserLoad(m, d, Pt0Addr(va)) == p)
  {
    var i, j, k := VPN2(va), VPN1(va), VPN0(va);
    WindowGeometry(va);
    WindowReads(va);
    hide InvX, Address, VPN0, VPN1, VPN2, Pt0Addr, Pt1Addr, Pt2Addr, UserLoad, Mirror;
    var a2, a1, a0 := Pt2Addr(va), Pt1Addr(va), Pt0Addr(va);
    LoadFromTable(m, d, PPT, PPT, PPT, i, m.roots[d], a2);
    RootEntry(m, pin, d, i);
    if Mid(m, d, i).Some? {
      LoadFromTable(m, d, PPT, PPT, i, j, Mid(m, d, i).value, a1);
      MidTableEntry(m, pin, d, i, j);
      if Low(m, d, i, j).Some? {
        LoadFromTable(m, d, PPT, i, j, k, Low(m, d, i, j).value, a0);
      }
    }
  }

  lemma RootEntry(m: Mem, pin: seq<nat>, d: nat, i: nat)
    requires Inv(m, pin) && d in m.roots && i < NPTE && !IsShared(i)
    ensures IsValid(m.frames[m.roots[d]][i]) <==> Mid(m, d, i).Some?
  {
    hide Counted, Trees, FreeListOk;
  }

  lemma MidTableEntry(m: Mem, pin: seq<nat>, d: nat, i: nat, j: nat)
    requires Inv(m, pin) && Mid(m, d, i).Some? && j < NPTE
    ensures IsValid(m.frames[Mid(m, d, i).value][j]) <==> Low(m, d, i, j).Some?
  {
    hide Counted, Trees, FreeListOk;
  }

  /* ---- What keeps the window ---- */

  /** The window of directory d depends on its tables below UTOP and on its pages in slot PPT. */
  lemma WindowDependsOn(m: Mem, m': Mem, d: nat)
    requires Shaped(m) && Shaped(m') && Root(m', d) == Root(m, d)
    requires forall i :: 0 <= i < 2 ==> Mid(m', d, i) == Mid(m, d, i)
    requires forall i, j :: 0 <= i < 2 && 0 <= j < NPTE ==> Low(m', d, i, j) == Low(m, d, i, j)
    requires forall j, k :: Page(m', d, PPT, j, k) == Page(m, d, PPT, j, k)
    ensures WindowOk(m', d) <==> WindowOk(m, d)
  {
    hide Page, Mid, Low, Mirror;
  }

  /** Changing one leaf below UTOP, and no table, changes no window. */
  lemma UserLeafKeepsWindow(m: Mem, m': Mem, d: nat, i: nat, j: nat, k: nat, w: Option<Pte>, x: nat)
    requires Shaped(m) && Shaped(m') && i < 2
    requires forall s :: s != Slot0(d, i, j, k) ==> Target(m', s) == Target(m, s)
    requires PageUpdated(m, m', d, i, j, k, w)
    ensures WindowOk(m', x) <==> WindowOk(m, x)
  {
    hide Page, Leaf;
    assert Root(m', x) == Target(m', RootSlot(x)) && Root(m, x) == Target(m, RootSlot(x));
    forall a | 0 <= a < 2 ensures Mid(m', x, a) == Mid(m, x, a) {
      assert Target(m', Slot2(x, a)) == Target(m, Slot2(x, a));
    }
    forall a, b | 0 <= a < 2 && 0 <= b < NPTE ensures Low(m', x, a, b) == Low(m, x, a, b) {
      assert Target(m', Slot1(x, a, b)) == Target(m, Slot1(x, a, b));
    }
    hide Root, Mid, Low, Target;
    forall b, c ensures Page(m', x, PPT, b, c) == Page(m, x, PPT, b, c) {
      assert Slot0(x, PPT, b, c) != Slot0(d, i, j, k);
    }
    WindowDependsOn(m, m', x);
  }

  /** Adding the table behind s0, mapped nowhere yet, breaks the window at that table alone. */
  ghost predicate WindowLacks(m: Mem, d: nat, s0: Slot)
    requires Shaped(m)
  {
    && d in m.roots
    && Page(m, d, PPT, PPT, PPT) == Mirror(Some(m.roots[d]))
    && (forall i :: 0 <= i < 2 ==> Page(m, d, PPT, PPT, i) == if s0 == Slot2(d, i) then None else Mirror(Mid(m, d, i)))
    && (forall i, j :: 0 <= i < 2 && 0 <= j < NPTE ==>
          Page(m, d, PPT, i, j) == if s0 == Slot1(d, i, j) then None else Mirror(Low(m, d, i, j)))
  }

  lemma TableAddedToWindow(m: Mem, m': Mem, d: nat, s0: Slot)
    requires Shaped(m) && Shaped(m') && m.free != []
    requires WindowOk(m, d) && TableAdded(m, m', s0)
    requires s0.Slot2? || s0.Slot1?
    ensures WindowLacks(m', d, s0)
  {
    hide Page, Leaf, UserDataDisjoint, DataKept;
    assert Root(m', d) == Target(m', RootSlot(d)) && Root(m, d) == Target(m, RootSlot(d));
    forall i | 0 <= i < 2 ensures Page(m', d, PPT, PPT, i) == if s0 == Slot2(d, i) then None
        else Mirror(Mid(m', d, i)) {
      assert Mid(m', d, i) == Target(m', Slot2(d, i)) && Mid(m, d, i) == Target(m, Slot2(d, i));
      assert Page(m', d, PPT, PPT, i) == Page(m, d, PPT, PPT, i);
    }
    forall i, j | 0 <= i < 2 && 0 <= j < NPTE
      ensures Page(m', d, PPT, i, j) == if s0 == Slot1(d, i, j) then None else Mirror(Low(m', d, i, j)) {
      assert Low(m', d, i, j) == Target(m', Slot1(d, i, j)) && Low(m, d, i, j) == Target(m, Slot1(d, i, j));
      assert Page(m', d, PPT, i, j) == Page(m, d, PPT, i, j);
    }
  }

  /** The table slots below UTOP, and the window page (PPT, row, column) of each. */
  predicate UserTableSlot(s: Slot, d: nat)
  {
    s.d == d && ((s.Slot2? && s.i < 2) || (s.Slot1? && s.i < 2 && s.j < NPTE))
  }

  function WindowRow(s: Slot): nat
    requires s.Slot2? || s.Slot1?
  {
    if s.Slot2? then PPT else s.i
  }

  function WindowColumn(s: Slot): nat
    requires s.Slot2? || s.Slot1?
  {
    if s.Slot2? then s.i else s.j
  }

  /** Mapping the new table into its window page completes the window again. */
  lemma WindowCompleted(m: Mem, m': Mem, d: nat, s0: Slot, j: nat, k: nat, g: nat)
    requires Shaped(m) && Shaped(m') && WindowLacks(m, d, s0)
    requires UserTableSlot(s0, d) && j == WindowRow(s0) && k == WindowColumn(s0) && Target(m, s0) == Some(g)
    requires PageUpdated(m, m', d, PPT, j, k, Some(MkPte(g, WINDOW_PERM)))
    requires TablesKept(m, m', d, PPT, j)
    ensures WindowOk(m', d)
  {
    hide Page, Leaf;
    assert Root(m', d) == Target(m', RootSlot(d)) && Root(m, d) == Target(m, RootSlot(d));
    assert Slot0(d, PPT, PPT, PPT) != Slot0(d, PPT, j, k);
    forall a | 0 <= a < 2 ensures Page(m', d, PPT, PPT, a) == Mirror(Mid(m', d, a)) {
      assert Mid(m', d, a) == Target(m', Slot2(d, a)) == Target(m, Slot2(d, a)) == Mid(m, d, a);
    }
    forall a, b | 0 <= a < 2 && 0 <= b < NPTE ensures Page(m', d, PPT, a, b) == Mirror(Low(m', d, a, b)) {
      assert Low(m', d, a, b) == Target(m', Slot1(d, a, b)) == Target(m, Slot1(d, a, b)) == Low(m, d, a, b);
    }
  }

  /** A table that stays out of the window leaves the window incomplete. */
  lemma WindowIncomplete(m: Mem, m': Mem, d: nat, s0: Slot)
    requires Shaped(m) && Shaped(m') && WindowLacks(m, d, s0)
    requires UserTableSlot(s0, d) && Target(m, s0).Some?
    requires SamePages(m, m') && forall s :: Target(m, s).Some? ==> Target(m', s) == Target(m, s)
    ensures !WindowOk(m', d)
  {
    hide Page, Leaf;
    assert Target(m', s0) == Target(m, s0);
    if s0.Slot1? {
      assert Low(m', d, s0.i, s0.j) == Target(m', s0);
      assert Page(m', d, PPT, s0.i, s0.j) == Page(m, d, PPT, s0.i, s0.j) == None;
    } else {
      assert Mid(m', d, s0.i) == Target(m', s0);
      assert Page(m', d, PPT, PPT, s0.i) == Page(m, d, PPT, PPT, s0.i) == None;
    }
  }

  lemma SameTablesElsewhere(m: Mem, m': Mem, d: nat, x: nat)
    requires Shaped(m) && Shaped(m') && x != d
    requires forall s: Slot :: IsTableSlot(s) && s.d != d ==> Target(m', s) == Target(m, s)
    ensures Root(m', x) == Root(m, x)
    ensures forall a :: Mid(m', x, a) == Mid(m, x, a)
    ensures forall a, b :: Low(m', x, a, b) == Low(m, x, a, b)
  {
    assert Target(m', RootSlot(x)) == Target(m, RootSlot(x));
    forall a ensures Mid(m', x, a) == Mid(m, x, a) {
      assert Target(m', Slot2(x, a)) == Target(m, Slot2(x, a));
    }
    forall a, b ensures Low(m', x, a, b) == Low(m, x, a, b) {
      assert Target(m', Slot1(x, a, b)) == Target(m, Slot1(x, a, b));
    }
  }
}
