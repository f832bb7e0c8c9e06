/** What the calls of kern/pmap.c do to the memory state, as predicates on the states before and
    after, with the lemmas that put single steps together. */
module PmapSteps {
  import opened Errors
  import opened Options
  import opened Sv39
  import opened PhysMem
  import opened TableSteps
  import opened MapSteps
  import opened Window

  /** pa2page, as a frame number. */
  function FrameOf(pa: nat): nat
    requires pa >= KERNBASE
  {
    (pa - KERNBASE) / 0x1000
  }

  lemma FrameOfAddress(f: nat, off: nat)
    requires off < PAGE_SIZE
    ensures FrameOf(KERNBASE + f * 0x1000 + off) == f
  {
    Div4K(f * 0x1000 + off, f, off);
  }

  /** Reading entry i of a root: it is valid exactly when the slot has a target. */
  lemma MidEntry(m: Mem, pin: seq<nat>, d: nat, i: nat)
    requires Inv(m, pin) && d in m.roots && i < NPTE && !IsShared(i)
    ensures var p := m.frames[m.roots[d]][i];
            Mid(m, d, i) == if IsValid(p) then Some(p.ppn - BASEPPN) else None
  {
    hide Counted, Trees, FreeListOk;
  }

  lemma LowEntry(m: Mem, pin: seq<nat>, d: nat, i: nat, j: nat)
    requires Inv(m, pin) && Mid(m, d, i).Some? && j < NPTE
    ensures var p := m.frames[Mid(m, d, i).value][j];
            Low(m, d, i, j) == if IsValid(p) then Some(p.ppn - BASEPPN) else None
  {
    hide Counted, Trees, FreeListOk;
  }

  lemma LeafEntry(m: Mem, pin: seq<nat>, d: nat, i: nat, j: nat, k: nat)
    requires Inv(m, pin) && Low(m, d, i, j).Some? && k < NPTE
    ensures var p := m.frames[Low(m, d, i, j).value][k];
            && Leaf(m, d, i, j, k) == (if IsValid(p) then Some(p.ppn - BASEPPN) else None)
            && Page(m, d, i, j, k) == (if IsValid(p) then Some(p) else None)
  {
    hide Counted, Trees, FreeListOk;
  }

  /** Frames that dropping the page at leaf slot s gives back. */
  function Freed(m: Mem, s: Slot): nat
    requires Shaped(m)
  {
    if Target(m, s).Some? && m.refs[Target(m, s).value] == 1 then 1 else 0
  }

  lemma LeafNeedsTable(m: Mem, d: nat, i: nat, j: nat, k: nat)
    requires Shaped(m)
    ensures Low(m, d, i, j) == None ==> Leaf(m, d, i, j, k) == None && Page(m, d, i, j, k) == None
  {
  }

  lemma FreedAfterGrowth(m: Mem, m': Mem, pin: seq<nat>, d: nat, i: nat, j: nat, k: nat)
    requires Inv(m, pin) && Shaped(m') && TablesGrown(m, m', d, i, j)
    ensures Freed(m', Slot0(d, i, j, k)) == Freed(m, Slot0(d, i, j, k))
    ensures Leaf(m', d, i, j, k) == Leaf(m, d, i, j, k)
    ensures Missing(m, d, i, j) > 0 ==> Freed(m, Slot0(d, i, j, k)) == 0
  {
    hide InvX, Page, UserDataDisjoint, DataKept, NotTable;
    var s := Slot0(d, i, j, k);
    assert Target(m', s) == Target(m, s);
    if Target(m, s).Some? {
      Referenced(m, pin, {}, {}, s);
    }
  }

  lemma UserDataAfterPointing(m0: Mem, m1: Mem, m2: Mem, d: nat, i: nat, j: nat, k: nat, g: nat)
    requires Shaped(m0) && Shaped(m1) && Shaped(m2) && UserDataDisjoint(m1)
    requires forall s :: Target(m1, s) == Target(m0, s)
    requires forall s :: s != Slot0(d, i, j, k) ==> Target(m2, s) == Target(m1, s)
    requires Leaf(m2, d, i, j, k) == Some(g) && (i < 2 ==> NotTable(m0, g))
    ensures UserDataDisjoint(m2)
  {
    hide Target, Leaf;
    if i < 2 {
      assert NotTable(m1, g);
    }
    UserDataAfterLeaf(m1, m2, d, i, j, k);
  }

  lemma NoTableSame(m: Mem, m': Mem, d: nat, i: nat, j: nat, k: nat)
    requires Shaped(m) && Shaped(m') && forall s :: s != Slot0(d, i, j, k) ==> Target(m', s) == Target(m, s)
    ensures forall f :: 0 <= f < NPAGE && NotTable(m, f) ==> NotTable(m', f)
  {
    hide Target;
  }

  lemma InUseNoTable(m: Mem, m1: Mem, m2: Mem, d: nat, i: nat, j: nat, k: nat)
    requires Shaped(m) && Shaped(m1) && Shaped(m2) && TablesGrown(m, m1, d, i, j)
    requires forall s :: s != Slot0(d, i, j, k) ==> Target(m2, s) == Target(m1, s)
    ensures forall f :: 0 <= f < NPAGE && m.refs[f] > 0 && NotTable(m, f) ==> NotTable(m1, f) && NotTable(m2, f)
    ensures forall s :: Target(m, s).Some? && s != Slot0(d, i, j, k) ==> Target(m2, s) == Target(m, s)
    ensures forall s: Slot :: s.d != d ==> Target(m2, s) == Target(m, s)
    ensures forall f :: 0 <= f < NPAGE && m.refs[f] > 0 ==> m1.refs[f] == m.refs[f]
  {
    hide Target, Page, UserDataDisjoint, DataKept;
  }

  /** What mapping a new frame at one leaf does. */
  ghost predicate MappedFresh(m: Mem, m': Mem, d: nat, i: nat, j: nat, k: nat, perm: bv10)
    requires Shaped(m) && Shaped(m')
  {
    && (forall s :: s != Slot0(d, i, j, k) ==> Target(m', s) == Target(m, s))
    && Leaf(m', d, i, j, k).Some?
    && (var g := Leaf(m', d, i, j, k).value;
        && PageUpdated(m, m', d, i, j, k, Some(Pte(BASEPPN + g, perm | PTE_V)))
        && m'.frames[g] == ZeroFrame()
        && m'.refs[g] == 1)
    && ContentKept(m, m', Leaf(m', d, i, j, k))
    && (UserDataDisjoint(m) ==> UserDataDisjoint(m'))
  }

  /** alloc_page as a whole. */
  ghost predicate PageAllocated(m: Mem, m': Mem, d: nat, i: nat, j: nat, k: nat, perm: bv10)
    requires Shaped(m) && Shaped(m')
  {
    && Leaf(m', d, i, j, k).Some?
    && (var g := Leaf(m', d, i, j, k).value;
        && PageUpdated(m, m', d, i, j, k, Some(Pte(BASEPPN + g, perm | PTE_V)))
        && m'.frames[g] == ZeroFrame()
        && m'.refs[g] == 1)
    && TablesKept(m, m', d, i, j)
    && ContentKept(m, m', Leaf(m', d, i, j, k))
    && (UserDataDisjoint(m) ==> UserDataDisjoint(m'))
  }

  /** What mapping frame g at one leaf does. */
  ghost predicate MappedTo(m: Mem, m': Mem, d: nat, i: nat, j: nat, k: nat, g: nat, perm: bv10)
    requires Shaped(m) && Shaped(m')
  {
    && (forall s :: s != Slot0(d, i, j, k) ==> Target(m', s) == Target(m, s))
    && Leaf(m', d, i, j, k) == Some(g)
    && PageUpdated(m, m', d, i, j, k, Some(Pte(BASEPPN + g, perm | PTE_V)))
    && ContentKept(m, m', None)
    && (UserDataDisjoint(m) && (i < 2 ==> NotTable(m, g)) ==> UserDataDisjoint(m'))
    && (forall f :: 0 <= f < NPAGE && f != g && Leaf(m, d, i, j, k) != Some(f) ==> m'.refs[f] == m.refs[f])
    && (forall f :: 0 <= f < NPAGE && NotTable(m, f) ==> NotTable(m', f))
  }

  lemma MappedBySame(m0: Mem, m: Mem, d: nat, i: nat, j: nat, k: nat, t: nat, g: nat, perm: bv10)
    requires Shaped(m0) && Shaped(m) && Low(m0, d, i, j) == Some(t) && Leaf(m0, d, i, j, k) == Some(g)
    requires forall s :: Target(m, s) == Target(m0, s)
    requires PageUpdated(m0, m, d, i, j, k, Some(MkPte(g, perm)))
    requires forall f :: 0 <= f < NPAGE && f != t ==> m.frames[f] == m0.frames[f]
    requires m.refs == m0.refs
    ensures MappedTo(m0, m, d, i, j, k, g, perm)
  {
    hide Page, Leaf, Mid, Low, Root, Out, NotTable, UserDataDisjoint;
    assert Target(m, Slot0(d, i, j, k)) == Target(m0, Slot0(d, i, j, k));
    assert Target(m0, Slot1(d, i, j)) == Some(t);
    UserDataSame(m0, m);
    NoTableSame(m0, m, d, i, j, k);
    ContentAfterLeaf(m0, m, t, Slot1(d, i, j), None);
  }

  lemma MappedByPointing(m0: Mem, m1: Mem, m: Mem, d: nat, i: nat, j: nat, k: nat, t: nat, g: nat, perm: bv10)
    requires Shaped(m0) && Shaped(m1) && Shaped(m) && Low(m0, d, i, j) == Some(t)
    requires forall s :: Target(m1, s) == Target(m0, s)
    requires SamePages(m0, m1) && m1.frames == m0.frames
    requires forall f :: 0 <= f < NPAGE && Leaf(m0, d, i, j, k) != Some(f) ==> m1.refs[f] == m0.refs[f]
    requires forall s :: s != Slot0(d, i, j, k) ==> Target(m, s) == Target(m1, s)
    requires PageUpdated(m1, m, d, i, j, k, Some(MkPte(g, perm))) && Leaf(m, d, i, j, k) == Some(g)
    requires forall f :: 0 <= f < NPAGE && f != t ==> m.frames[f] == m1.frames[f]
    requires forall f :: 0 <= f < NPAGE && f != g ==> m.refs[f] == m1.refs[f]
    ensures MappedTo(m0, m, d, i, j, k, g, perm)
  {
    hide Page, Leaf, Mid, Low, Root, Out, NotTable, UserDataDisjoint;
    assert Target(m0, Slot1(d, i, j)) == Some(t);
    ContentAfterLeaf(m0, m, t, Slot1(d, i, j), None);
    UserDataSame(m0, m1);
    NoTableSame(m0, m, d, i, j, k);
    if UserDataDisjoint(m0) && (i < 2 ==> NotTable(m0, g)) {
      UserDataAfterPointing(m0, m1, m, d, i, j, k, g);
    }
  }

  /** map_page as a whole. */
  ghost predicate PageMapped(m: Mem, m': Mem, d: nat, i: nat, j: nat, k: nat, g: nat, perm: bv10)
    requires Shaped(m) && Shaped(m')
  {
    && Leaf(m', d, i, j, k) == Some(g)
    && PageUpdated(m, m', d, i, j, k, Some(Pte(BASEPPN + g, perm | PTE_V)))
    && TablesKept(m, m', d, i, j)
    && ContentKept(m, m', None)
    && (UserDataDisjoint(m) && (i < 2 ==> NotTable(m, g)) ==> UserDataDisjoint(m'))
    && (forall s :: Target(m, s).Some? && s != Slot0(d, i, j, k) ==> Target(m', s) == Target(m, s))
    && (forall s: Slot :: s.d != d ==> Target(m', s) == Target(m, s))
    && (forall f :: 0 <= f < NPAGE && f != g && Leaf(m, d, i, j, k) != Some(f) && m.refs[f] > 0
          ==> m'.refs[f] == m.refs[f])
    && (forall f :: 0 <= f < NPAGE && m.refs[f] > 0 && NotTable(m, f) ==> NotTable(m', f))
  }

  /** unmap_page as a whole. */
  ghost predicate PageUnmapped(m: Mem, m': Mem, d: nat, i: nat, j: nat, k: nat)
    requires Shaped(m) && Shaped(m')
  {
    && (forall s :: s != Slot0(d, i, j, k) ==> Target(m', s) == Target(m, s))
    && PageUpdated(m, m', d, i, j, k, None)
    && ContentKept(m, m', None)
    && (UserDataDisjoint(m) ==> UserDataDisjoint(m'))
  }

  /** What growing the user part of directory d leaves alone; the table slots in A may be filled. */
  ghost predicate UserGrown(m: Mem, m': Mem, d: nat, A: set<Slot>)
    requires Shaped(m) && Shaped(m')
  {
    && (forall s :: Target(m, s).Some? ==> Target(m', s) == Target(m, s))
    && (forall s: Slot :: s.d != d ==> Target(m', s) == Target(m, s))
    && (forall s: Slot :: IsTableSlot(s) && s !in A && (s.RootSlot? || s.i != PPT) ==> Target(m', s) == Target(m, s))
    && (forall x, a, b, c :: x != d || a != PPT ==> Page(m', x, a, b, c) == Page(m, x, a, b, c))
    && (forall f :: 0 <= f < NPAGE && m.refs[f] > 0 && NotTable(m, f)
          ==> NotTable(m', f) && m'.refs[f] == m.refs[f] && m'.frames[f] == m.frames[f])
    && (UserDataDisjoint(m) ==> UserDataDisjoint(m'))
  }

  lemma UserGrownAgain(m: Mem, m1: Mem, m2: Mem, d: nat, A: set<Slot>, B: set<Slot>)
    requires Shaped(m) && Shaped(m1) && Shaped(m2)
    requires UserGrown(m, m1, d, A) && UserGrown(m1, m2, d, B)
    ensures UserGrown(m, m2, d, A + B)
  {
    hide Target, Page, NotTable, UserDataDisjoint;
  }

  lemma UserGrownByTable(m: Mem, m': Mem, pin: seq<nat>, d: nat, s0: Slot)
    requires Inv(m, pin) && Shaped(m') && m.free != [] && TableAdded(m, m', s0) && s0.d == d && UserTableSlot(s0, d)
    ensures UserGrown(m, m', d, {s0})
  {
    var g := m.free[0];
    assert g < NPAGE && m.refs[g] == 0 by {
      assert g in m.free;
      hide Counted, Trees, EntriesInRam;
    }
    hide InvX, Page, UserDataDisjoint, Target;
    forall f | 0 <= f < NPAGE && m.refs[f] > 0 && NotTable(m, f) ensures NotTable(m', f) {
      assert f != g;
    }
  }

  lemma WindowPageEmpty(m: Mem, pin: seq<nat>, d: nat, s0: Slot)
    requires Inv(m, pin) && WindowLacks(m, d, s0) && UserTableSlot(s0, d)
    ensures Leaf(m, d, PPT, WindowRow(s0), WindowColumn(s0)) == None
    ensures d in m.roots && Mid(m, d, PPT).Some? && Low(m, d, PPT, PPT).Some?
    ensures Missing(m, d, PPT, WindowRow(s0)) == if Low(m, d, PPT, WindowRow(s0)).Some? then 0 else 1
  {
    hide Counted, Trees, FreeListOk;
    assert Page(m, d, PPT, PPT, PPT).Some?;
    assert Page(m, d, PPT, WindowRow(s0), WindowColumn(s0)) == None;
  }

  /** Everything is ready for showing the table at pa, linked at slot s0, through window address window. */
  ghost predicate TableToShow(m: Mem, d: nat, s0: Slot, window: nat, pa: nat)
    requires Shaped(m)
  {
    && WindowLacks(m, d, s0) && UserTableSlot(s0, d)
    && KERNBASE <= pa < KERNBASE + MEMORY_SIZE && FrameOf(pa) < NPAGE
    && Target(m, s0) == Some(FrameOf(pa)) && m.refs[FrameOf(pa)] == 1
    && VPN2(window) == PPT && VPN1(window) == WindowRow(s0) && VPN0(window) == WindowColumn(s0)
  }

  ghost predicate WindowOpened(m: Mem, m': Mem, d: nat, s0: Slot)
    requires Shaped(m) && Shaped(m') && (s0.Slot2? || s0.Slot1?)
  {
    && UserGrown(m, m', d, {})
    && (WindowOk(m', d) <==> |m.free| >= Missing(m, d, PPT, WindowRow(s0)))
    && |m'.free| == (if WindowOk(m', d) then |m.free| - Missing(m, d, PPT, WindowRow(s0)) else 0)
    && (forall s :: IsTableSlot(s) && s != Slot1(d, PPT, WindowRow(s0)) ==> Target(m', s) == Target(m, s))
  }

  lemma WindowOpenedBySuccess(m: Mem, m': Mem, pin: seq<nat>, d: nat, s0: Slot, g: nat)
    requires Inv(m, pin) && Shaped(m') && WindowLacks(m, d, s0) && UserTableSlot(s0, d) && Target(m, s0) == Some(g)
    requires Leaf(m, d, PPT, WindowRow(s0), WindowColumn(s0)) == None
    requires d in m.roots && Mid(m, d, PPT).Some?
    requires PageMapped(m, m', d, PPT, WindowRow(s0), WindowColumn(s0), g, WINDOW_PERM)
    requires |m'.free| == |m.free| - Missing(m, d, PPT, WindowRow(s0))
    ensures WindowOpened(m, m', d, s0)
  {
    hide InvX, Page, Leaf, Low, Root, NotTable, UserDataDisjoint, ContentKept, WindowLacks, WindowOk, UserGrown;
    assert Target(m, RootSlot(d)) == Root(m, d) && Target(m, Slot2(d, PPT)) == Mid(m, d, PPT);
    RootIsSome(m, d);
    WindowCompleted(m, m', d, s0, WindowRow(s0), WindowColumn(s0), g);
    UserGrownByWindow(m, m', pin, d, WindowRow(s0), WindowColumn(s0), g, s0);
  }

  lemma WindowOpenedByFailure(m: Mem, m': Mem, pin: seq<nat>, d: nat, s0: Slot)
    requires Inv(m, pin) && Shaped(m') && WindowLacks(m, d, s0) && UserTableSlot(s0, d) && Target(m, s0).Some?
    requires d in m.roots && Mid(m, d, PPT).Some?
    requires |m.free| < Missing(m, d, PPT, WindowRow(s0)) && m'.free == []
    requires TablesGrown(m, m', d, PPT, WindowRow(s0))
    ensures WindowOpened(m, m', d, s0)
  {
    hide InvX, Page, Leaf, Low, Root, NotTable, UserDataDisjoint, ContentKept, WindowLacks, WindowOk, UserGrown;
    assert Target(m, RootSlot(d)) == Root(m, d) && Target(m, Slot2(d, PPT)) == Mid(m, d, PPT);
    RootIsSome(m, d);
    WindowIncomplete(m, m', d, s0);
    UserGrownByTables(m, m', pin, d, WindowRow(s0));
  }

  lemma RootIsSome(m: Mem, d: nat)
    requires Shaped(m)
    ensures Root(m, d).Some? <==> d in m.roots
  {
  }

  /** The address of entry e of a table. */
  function PteAddress(t: Option<nat>, e: nat): nat
    requires t.Some?
  {
    KERNBASE + t.value * 0x1000 + e * 8
  }

  lemma PteAddressOk(t: Option<nat>, e: nat)
    requires t.Some? && t.value < NPAGE && e < NPTE
    ensures KERNBASE <= PteAddress(t, e) < KERNBASE + MEMORY_SIZE && FrameOf(PteAddress(t, e)) == t.value
  {
    FrameOfAddress(t.value, e * 8);
  }

  /* ---- Reaching the level-1 table ---- */

  ghost predicate MidReached(m: Mem, m': Mem, d: nat, i: nat, j: nat, r: int, mid: nat)
    requires Shaped(m) && Shaped(m')
  {
    && WindowOk(m', d)
    && UserGrown(m, m', d, {Slot2(d, i)})
    && r == (if Mid(m, d, i).Some? || m.free != [] then 0 else -E_NO_MEM)
    && (r == 0 ==> Mid(m', d, i) == Some(mid))
    && (Mid(m, d, i).Some? ==> m' == m)
    && |m'.free| == |m.free| - (if Mid(m, d, i).Some? || r != 0 then 0 else 1)
    && Low(m', d, i, j) == Low(m, d, i, j)
    && Low(m', d, PPT, i) == Low(m, d, PPT, i)
  }

  lemma MidFound(m: Mem, d: nat, i: nat, j: nat)
    requires Shaped(m) && WindowOk(m, d) && Mid(m, d, i).Some?
    ensures MidReached(m, m, d, i, j, 0, Mid(m, d, i).value)
  {
  }

  lemma MidNotReached(m: Mem, d: nat, i: nat, j: nat, mid: nat)
    requires Shaped(m) && WindowOk(m, d) && Mid(m, d, i) == None && m.free == []
    ensures MidReached(m, m, d, i, j, -E_NO_MEM, mid)
  {
  }

  lemma NewMidToShow(m0: Mem, m1: Mem, d: nat, va: nat, t: Option<nat>, pa: nat)
    requires Shaped(m0) && Shaped(m1) && m0.free != [] && va < UTOP
    requires WindowOk(m0, d) && TableAdded(m0, m1, Slot2(d, VPN2(va)))
    requires t == Mid(m1, d, VPN2(va)) && t.Some? && pa == PteAddress(t, VPN1(va))
    ensures TableToShow(m1, d, Slot2(d, VPN2(va)), Window1(va), pa)
  {
    WindowGeometry(va);
    PteAddressOk(t, VPN1(va));
    SlotTargets(m1, d, VPN2(va), 0);
    AddedTable(m0, m1, Slot2(d, VPN2(va)));
    hide Page, Leaf, Low, Mid, Root, WindowLacks, WindowOk, TableAdded, FrameOf, VPN0, VPN1, VPN2, PteAddress, Target;
    TableAddedToWindow(m0, m1, d, Slot2(d, VPN2(va)));
  }

  lemma MidReachedByNew(m0: Mem, m1: Mem, m2: Mem, pin: seq<nat>, d: nat, i: nat, j: nat, t: Option<nat>)
    requires Inv(m0, pin) && Shaped(m1) && Shaped(m2) && m0.free != [] && i < 2
    requires Mid(m0, d, i) == None && d in m0.roots && Low(m0, d, PPT, PPT).Some?
    requires TableAdded(m0, m1, Slot2(d, i)) && WindowOpened(m1, m2, d, Slot2(d, i))
    requires t == Mid(m1, d, i) && t.Some?
    ensures MidReached(m0, m2, d, i, j, 0, t.value)
  {
    hide InvX, Page, Leaf, Low, Mid, Root, Target, WindowOk, TableAdded, UserGrown;
    UserGrownByTable(m0, m1, pin, d, Slot2(d, i));
    AddedTable(m0, m1, Slot2(d, i));
    SlotTargets(m0, d, i, j);
    SlotTargets(m1, d, i, j);
    SlotTargets(m2, d, i, j);
    SlotTargets(m0, d, PPT, i);
    SlotTargets(m1, d, PPT, i);
    SlotTargets(m2, d, PPT, i);
    SlotTargets(m0, d, PPT, PPT);
    SlotTargets(m1, d, PPT, PPT);
    assert Missing(m1, d, PPT, PPT) == 0;
    UserGrownAgain(m0, m1, m2, d, {Slot2(d, i)}, {});
    assert {Slot2(d, i)} + {} == {Slot2(d, i)};
  }

  /* ---- Reaching the level-0 table ---- */

  ghost predicate LowReached(m: Mem, m': Mem, d: nat, i: nat, j: nat, r: int, t: nat)
    requires Shaped(m) && Shaped(m')
  {
    && UserGrown(m, m', d, {Slot1(d, i, j)})
    && r == (if Low(m, d, i, j).Some? || m.free != [] then 0 else -E_NO_MEM)
    && (r == 0 ==> Low(m', d, i, j) == Some(t))
    && (WindowOk(m', d) <==> !LosesWindow(m, d, i, j))
    && (!WindowOk(m', d) ==> m'.free == [])
    && (Low(m, d, i, j).Some? ==> m' == m)
    && |m'.free| == (if |m.free| >= FramesToShow(m, d, i, j) then |m.free| - FramesToShow(m, d, i, j) else 0)
  }

  /** Frames that a new level-0 table for slot (i, j) takes, with its window page. */
  function FramesToShow(m: Mem, d: nat, i: nat, j: nat): nat
    requires Shaped(m)
  {
    if Low(m, d, i, j).Some? then 0 else if Low(m, d, PPT, i).Some? then 1 else 2
  }

  lemma LowFound(m: Mem, d: nat, i: nat, j: nat)
    requires Shaped(m) && WindowOk(m, d) && Low(m, d, i, j).Some?
    ensures LowReached(m, m, d, i, j, 0, Low(m, d, i, j).value)
  {
  }

  lemma LowNotReached(m: Mem, d: nat, i: nat, j: nat, t: nat)
    requires Shaped(m) && WindowOk(m, d) && Low(m, d, i, j) == None && m.free == []
    ensures LowReached(m, m, d, i, j, -E_NO_MEM, t)
  {
  }

  lemma KeepsMid(m0: Mem, m1: Mem, d: nat, i: nat, j: nat)
    requires Shaped(m0) && Shaped(m1) && m0.free != [] && TableAdded(m0, m1, Slot1(d, i, j))
    ensures Mid(m1, d, i) == Mid(m0, d, i) && Low(m1, d, i, j).Some?
  {
    SlotTargets(m0, d, i, j);
    SlotTargets(m1, d, i, j);
    hide Page, UserDataDisjoint, Target;
  }

  lemma NewLowToShow(m0: Mem, m1: Mem, d: nat, va: nat, t: Option<nat>, pa: nat)
    requires Shaped(m0) && Shaped(m1) && m0.free != [] && va < UTOP
    requires WindowOk(m0, d) && TableAdded(m0, m1, Slot1(d, VPN2(va), VPN1(va)))
    requires t == Low(m1, d, VPN2(va), VPN1(va)) && t.Some? && pa == PteAddress(t, VPN0(va))
    ensures TableToShow(m1, d, Slot1(d, VPN2(va), VPN1(va)), Window0(va), pa)
  {
    WindowGeometry(va);
    PteAddressOk(t, VPN0(va));
    SlotTargets(m1, d, VPN2(va), VPN1(va));
    AddedTable(m0, m1, Slot1(d, VPN2(va), VPN1(va)));
    hide Page, Leaf, Low, Mid, Root, WindowLacks, WindowOk, TableAdded, FrameOf, VPN0, VPN1, VPN2, PteAddress, Target;
    TableAddedToWindow(m0, m1, d, Slot1(d, VPN2(va), VPN1(va)));
  }

  lemma LowReachedByNew(m0: Mem, m1: Mem, m2: Mem, pin: seq<nat>, d: nat, i: nat, j: nat, t: Option<nat>)
    requires Inv(m0, pin) && Shaped(m1) && Shaped(m2) && m0.free != [] && i < 2 && j < NPTE
    requires Low(m0, d, i, j) == None && Mid(m0, d, i).Some? && Mid(m0, d, PPT).Some?
    requires TableAdded(m0, m1, Slot1(d, i, j)) && WindowOpened(m1, m2, d, Slot1(d, i, j))
    requires t == Low(m1, d, i, j) && t.Some?
    ensures LowReached(m0, m2, d, i, j, 0, t.value)
  {
    hide InvX, Page, Leaf, Low, Mid, Root, Target, WindowOk, TableAdded, UserGrown;
    UserGrownByTable(m0, m1, pin, d, Slot1(d, i, j));
    AddedTable(m0, m1, Slot1(d, i, j));
    SlotTargets(m0, d, i, j);
    SlotTargets(m1, d, i, j);
    SlotTargets(m2, d, i, j);
    SlotTargets(m0, d, PPT, i);
    SlotTargets(m1, d, PPT, i);
    assert Missing(m1, d, PPT, i) == if Low(m0, d, PPT, i).Some? then 0 else 1;
    UserGrownAgain(m0, m1, m2, d, {Slot1(d, i, j)}, {});
    assert {Slot1(d, i, j)} + {} == {Slot1(d, i, j)};
  }

  lemma UserGrownByWindow(m: Mem, m': Mem, pin: seq<nat>, d: nat, j: nat, k: nat, g: nat, s0: Slot)
    requires Inv(m, pin) && Shaped(m') && d in m.roots && Mid(m, d, PPT).Some?
    requires Leaf(m, d, PPT, j, k) == None && Target(m, s0) == Some(g) && IsTableSlot(s0)
    requires PageMapped(m, m', d, PPT, j, k, g, WINDOW_PERM)
    ensures UserGrown(m, m', d, {})
  {
    hide InvX, Page, Leaf, Low;
    assert Target(m, RootSlot(d)).Some?;
    assert Target(m, Slot0(d, PPT, j, k)) == None;
    forall f | 0 <= f < NPAGE && m.refs[f] > 0 && NotTable(m, f)
      ensures m'.frames[f] == m.frames[f] && m'.refs[f] == m.refs[f] && NotTable(m', f) {
      assert f != g;
    }
  }

  lemma UserGrownByTables(m: Mem, m': Mem, pin: seq<nat>, d: nat, j: nat)
    requires Inv(m, pin) && Shaped(m') && d in m.roots && Mid(m, d, PPT).Some?
    requires TablesGrown(m, m', d, PPT, j)
    ensures UserGrown(m, m', d, {})
  {
    hide InvX, Page, Leaf, Low, UserDataDisjoint;
    assert Target(m, RootSlot(d)).Some?;
  }

  /** Whether extending the walk to (i, j) runs out of frames right between linking the level-0 table
      and mapping it into the window. */
  predicate LosesWindow(m: Mem, d: nat, i: nat, j: nat)
    requires Shaped(m)
  {
    && Low(m, d, i, j) == None
    && Low(m, d, PPT, i) == None
    && |m.free| == if Mid(m, d, i).Some? then 1 else 2
  }

  lemma WindowTables(m: Mem, pin: seq<nat>, d: nat)
    requires Inv(m, pin) && WindowOk(m, d)
    ensures d in m.roots && Mid(m, d, PPT).Some? && Low(m, d, PPT, PPT).Some?
  {
    hide InvX;
    assert Page(m, d, PPT, PPT, PPT).Some?;
  }

  lemma UserGrownNone(m: Mem, d: nat, A: set<Slot>)
    requires Shaped(m)
    ensures UserGrown(m, m, d, A)
  {
  }

  lemma AddedTable(m: Mem, m': Mem, s0: Slot)
    requires Shaped(m) && Shaped(m') && m.free != [] && TableAdded(m, m', s0)
    ensures Target(m', s0).Some? && m'.refs[Target(m', s0).value] == 1 && |m'.free| == |m.free| - 1
    ensures forall s :: s != s0 ==> Target(m', s) == Target(m, s)
  {
    hide Target, Page, UserDataDisjoint;
    assert Target(m', s0) == Some(m.free[0]);
  }

  lemma SlotTargets(m: Mem, d: nat, i: nat, j: nat)
    requires Shaped(m)
    ensures Target(m, RootSlot(d)) == Root(m, d)
    ensures Target(m, Slot2(d, i)) == Mid(m, d, i)
    ensures Target(m, Slot1(d, i, j)) == Low(m, d, i, j)
  {
  }
}
