/** What the calls that map below UTOP do (alloc_page_user, map_page_user, unmap_page) and what
    env_setup_vm establishes. */
module UserSteps {
  import opened Errors
  import opened Options
  import opened Sv39
  import opened PhysMem
  import opened TableSteps
  import opened MapSteps
  import opened Window
  import opened PmapSteps

  /** The map below UTOP, and every other directory, changes at one page only. */
  ghost predicate UserPageUpdated(m: Mem, m': Mem, d: nat, i: nat, j: nat, k: nat, w: Option<Pte>)
    requires Shaped(m) && Shaped(m')
  {
    && Page(m', d, i, j, k) == w
    && forall x, a, b, c :: (x != d || a != PPT) && Slot0(x, a, b, c) != Slot0(d, i, j, k)
         ==> Page(m', x, a, b, c) == Page(m, x, a, b, c)
  }

  ghost predicate UserPagesSame(m: Mem, m': Mem, d: nat)
    requires Shaped(m) && Shaped(m')
  {
    forall x, a, b, c :: x != d || a != PPT ==> Page(m', x, a, b, c) == Page(m, x, a, b, c)
  }

  ghost predicate OtherWindowsKept(m: Mem, m': Mem, d: nat)
    requires Shaped(m) && Shaped(m')
  {
    forall x :: x != d ==> (WindowOk(m', x) <==> WindowOk(m, x)) && (x in m'.roots <==> x in m.roots)
  }

  /** The effect of the extended walk to the level-0 table of slot (i, j). */
  ghost predicate UserReached(m: Mem, m': Mem, d: nat, i: nat, j: nat, r: int, t: nat)
    requires Shaped(m) && Shaped(m')
  {
    && UserGrown(m, m', d, {Slot2(d, i), Slot1(d, i, j)})
    && r == (if |m.free| >= Missing(m, d, i, j) then 0 else -E_NO_MEM)
    && (r == 0 ==> Low(m', d, i, j) == Some(t))
    && (r != 0 ==> Low(m, d, i, j) == None)
    && (WindowOk(m', d) <==> !LosesWindow(m, d, i, j))
    && (!WindowOk(m', d) ==> m'.free == [])
    && (Low(m, d, i, j).Some? ==> m' == m)
    && |m'.free| == (if |m.free| >= FramesToReach(m, d, i, j) then |m.free| - FramesToReach(m, d, i, j) else 0)
  }

  /** Frames that the extended walk takes, when there are as many. */
  function FramesToReach(m: Mem, d: nat, i: nat, j: nat): nat
    requires Shaped(m)
  {
    (if Mid(m, d, i).Some? then 0 else 1) + FramesToShow(m, d, i, j)
  }

  lemma UserReachedVia(m0: Mem, m1: Mem, m2: Mem, d: nat, i: nat, j: nat, r: int, mid: nat, r': int, t: nat)
    requires Shaped(m0) && Shaped(m1) && Shaped(m2) && d in m0.roots
    requires MidReached(m0, m1, d, i, j, r, mid)
    requires if r == 0 then LowReached(m1, m2, d, i, j, r', t) else r' == r && m2 == m1
    ensures UserReached(m0, m2, d, i, j, r', t)
  {
    hide Page, Leaf, Mid, Root, Target, WindowOk, UserGrown;
    MidForLow(m0, d, i, j);
    if r != 0 {
      UserGrownNone(m1, d, {Slot1(d, i, j)});
    }
    UserGrownAgain(m0, m1, m2, d, {Slot2(d, i)}, {Slot1(d, i, j)});
    assert {Slot2(d, i)} + {Slot1(d, i, j)} == {Slot2(d, i), Slot1(d, i, j)};
    if r == 0 {
      assert Mid(m1, d, i).Some?;
    }
  }

  lemma MidForLow(m: Mem, d: nat, i: nat, j: nat)
    requires Shaped(m)
    ensures Low(m, d, i, j).Some? ==> Mid(m, d, i).Some?
  {
  }

  /** Growing one directory changes no other directory's window. */
  lemma GrowthKeepsOtherWindows(m: Mem, m': Mem, d: nat, A: set<Slot>)
    requires Shaped(m) && Shaped(m') && UserGrown(m, m', d, A)
    ensures OtherWindowsKept(m, m', d)
  {
    hide Page, Leaf, UserDataDisjoint, NotTable, WindowOk;
    forall x | x != d ensures (WindowOk(m', x) <==> WindowOk(m, x)) && (x in m'.roots <==> x in m.roots) {
      SameTablesElsewhere(m, m', d, x);
      WindowDependsOn(m, m', x);
      RootIsSome(m, x);
      RootIsSome(m', x);
    }
  }

  lemma LeafKeepsWindows(m: Mem, m': Mem, d: nat, i: nat, j: nat, k: nat, w: Option<Pte>)
    requires Shaped(m) && Shaped(m') && i < 2
    requires forall s :: s != Slot0(d, i, j, k) ==> Target(m', s) == Target(m, s)
    requires PageUpdated(m, m', d, i, j, k, w)
    ensures forall x :: WindowOk(m', x) <==> WindowOk(m, x)
    ensures m'.roots.Keys == m.roots.Keys
  {
    hide WindowOk, PageUpdated;
    forall x ensures WindowOk(m', x) <==> WindowOk(m, x) {
      UserLeafKeepsWindow(m, m', d, i, j, k, w, x);
    }
    SameRoots(m, m');
  }

  lemma SameRoots(m: Mem, m': Mem)
    requires Shaped(m) && Shaped(m') && forall s: Slot :: s.RootSlot? ==> Target(m', s) == Target(m, s)
    ensures m'.roots.Keys == m.roots.Keys
  {
    forall x ensures x in m'.roots <==> x in m.roots {
      assert Target(m', RootSlot(x)) == Target(m, RootSlot(x));
      assert Target(m, RootSlot(x)) == Root(m, x) && Target(m', RootSlot(x)) == Root(m', x);
    }
  }

  lemma PageIsLeaf(m: Mem, pin: seq<nat>, d: nat, i: nat, j: nat, k: nat)
    requires Inv(m, pin)
    ensures Page(m, d, i, j, k).Some? <==> Leaf(m, d, i, j, k).Some?
    ensures Page(m, d, i, j, k).Some? ==> Page(m, d, i, j, k).value.ppn - BASEPPN == Leaf(m, d, i, j, k).value
  {
    hide Counted, Trees, FreeListOk;
  }

  /* ---- alloc_page_user ---- */

  ghost predicate UserAllocated(m: Mem, m': Mem, d: nat, i: nat, j: nat, k: nat, perm: bv10)
    requires Shaped(m) && Shaped(m')
  {
    && WindowOk(m', d)
    && Leaf(m', d, i, j, k).Some?
    && (var g := Leaf(m', d, i, j, k).value;
        && UserPageUpdated(m, m', d, i, j, k, Some(Pte(BASEPPN + g, perm | PTE_V)))
        && m'.frames[g] == ZeroFrame()
        && m'.refs[g] == 1)
    && ContentKept(m, m', Leaf(m', d, i, j, k))
    && (UserDataDisjoint(m) ==> UserDataDisjoint(m'))
    && OtherWindowsKept(m, m', d)
  }

  /** The walk changes nothing about the page that is mapped at the end of it. */
  lemma FreedAfterWalk(m: Mem, m': Mem, pin: seq<nat>, d: nat, i: nat, j: nat, k: nat, r: int, t: nat)
    requires Inv(m, pin) && Inv(m', pin) && i != PPT && UserReached(m, m', d, i, j, r, t)
    ensures Freed(m', Slot0(d, i, j, k)) == Freed(m, Slot0(d, i, j, k))
    ensures Low(m, d, i, j) == None ==> Freed(m, Slot0(d, i, j, k)) == 0
    ensures Page(m', d, i, j, k) == Page(m, d, i, j, k)
  {
    LeafNeedsTable(m, d, i, j, k);
    PageIsLeaf(m, pin, d, i, j, k);
    PageIsLeaf(m', pin, d, i, j, k);
    hide InvX, Page, Mid, Root, Low, Leaf, NotTable, WindowOk, UserDataDisjoint;
    assert Target(m, Slot0(d, i, j, k)) == Leaf(m, d, i, j, k) && Target(m', Slot0(d, i, j, k)) == Leaf(m', d, i, j, k);
  }

  /** Mapping has failed for want of frames: no page has changed, and the window is lost or not. */
  ghost predicate UserFailed(m: Mem, m': Mem, d: nat, i: nat, j: nat)
    requires Shaped(m) && Shaped(m')
  {
    && UserPagesSame(m, m', d) && OtherWindowsKept(m, m', d)
    && (UserDataDisjoint(m) ==> UserDataDisjoint(m'))
    && (WindowOk(m', d) <==> !LosesWindow(m, d, i, j))
  }

  lemma UserFailedVia(m0: Mem, m1: Mem, m2: Mem, d: nat, i: nat, j: nat, r: int, t: nat)
    requires Shaped(m0) && Shaped(m1) && Shaped(m2) && UserReached(m0, m1, d, i, j, r, t)
    requires SamePages(m1, m2) && forall s :: Target(m2, s) == Target(m1, s)
    ensures UserFailed(m0, m2, d, i, j)
  {
    hide FramesToReach, Missing;
    GrowthKeepsOtherWindows(m0, m1, d, {Slot2(d, i), Slot1(d, i, j)});
    hide Page, Leaf, Mid, Root, Low, Target, UserDataDisjoint, NotTable, WindowOk;
    SameOtherWindows(m0, m1, m2, d);
    SameStateWindow(m1, m2, d);
  }

  /** If the walk lost the window, there is no frame left for the page either. */
  lemma NoPageWithoutWindow(m0: Mem, m1: Mem, pin: seq<nat>, d: nat, i: nat, j: nat, k: nat, r: int, t: nat)
    requires Inv(m0, pin) && Inv(m1, pin) && i != PPT
    requires UserReached(m0, m1, d, i, j, r, t)
    ensures !WindowOk(m1, d) ==> |m1.free| + Freed(m1, Slot0(d, i, j, k)) == 0
  {
    hide InvX, Page, Leaf, Mid, Root, Low, UserDataDisjoint, NotTable, WindowOk;
    if !WindowOk(m1, d) {
      LeafNeedsTable(m0, d, i, j, k);
      PageIsLeaf(m1, pin, d, i, j, k);
      assert Page(m1, d, i, j, k) == Page(m0, d, i, j, k) == None;
      assert Target(m1, Slot0(d, i, j, k)) == Leaf(m1, d, i, j, k);
    }
  }

  lemma UserAllocatedVia(m0: Mem, m1: Mem, m2: Mem, d: nat, i: nat, j: nat, k: nat, r: int, t: nat, perm: bv10)
    requires Shaped(m0) && Shaped(m1) && Shaped(m2) && i < 2
    requires UserReached(m0, m1, d, i, j, r, t) && WindowOk(m1, d)
    requires MappedFresh(m1, m2, d, i, j, k, perm)
    ensures UserAllocated(m0, m2, d, i, j, k, perm)
  {
    hide Page, Leaf, Mid, Root, Low, Target, UserDataDisjoint, NotTable, WindowOk;
    var g := Leaf(m2, d, i, j, k).value;
    LeafKeepsWindows(m1, m2, d, i, j, k, Some(MkPte(g, perm)));
    GrowthKeepsOtherWindows(m0, m1, d, {Slot2(d, i), Slot1(d, i, j)});
  }

  /* ---- map_page_user ---- */

  ghost predicate UserMapped(m: Mem, m': Mem, d: nat, i: nat, j: nat, k: nat, g: nat, perm: bv10)
    requires Shaped(m) && Shaped(m')
  {
    && UserPageUpdated(m, m', d, i, j, k, Some(Pte(BASEPPN + g, perm | PTE_V)))
    && Leaf(m', d, i, j, k) == Some(g)
    && ContentKept(m, m', None)
    && (UserDataDisjoint(m) ==> UserDataDisjoint(m'))
    && OtherWindowsKept(m, m', d)
    && (WindowOk(m', d) <==> !LosesWindow(m, d, i, j))
  }

  lemma UserMappedVia(m0: Mem, m1: Mem, m2: Mem, d: nat, i: nat, j: nat, k: nat, r: int, t: nat, g: nat, perm: bv10)
    requires Shaped(m0) && Shaped(m1) && Shaped(m2) && i < 2
    requires UserReached(m0, m1, d, i, j, r, t)
    requires MappedTo(m1, m2, d, i, j, k, g, perm)
    requires g < NPAGE && m0.refs[g] > 0 && NotTable(m0, g)
    ensures UserMapped(m0, m2, d, i, j, k, g, perm)
  {
    hide Page, Leaf, Mid, Root, Low, Target, UserDataDisjoint, NotTable, WindowOk;
    LeafKeepsWindows(m1, m2, d, i, j, k, Some(MkPte(g, perm)));
    GrowthKeepsOtherWindows(m0, m1, d, {Slot2(d, i), Slot1(d, i, j)});
  }

  /* ---- env_setup_vm ---- */

  /** Root slots 2 and PENVS are outside the counted tables: writing them changes no target. */
  lemma SharedWriteStep(m: Mem, pin: seq<nat>, d: nat, i: nat, w: Pte)
    requires Inv(m, pin) && d in m.roots && IsShared(i) && i < NPTE
    ensures m.roots[d] !in m.free
    ensures var m' := WritePte(m, m.roots[d], i, w);
            && Inv(m', pin)
            && (forall s :: Target(m', s) == Target(m, s))
            && SamePages(m, m')
  {
    var t := m.roots[d];
    var m' := WritePte(m, t, i, w);
    assert Target(m, RootSlot(d)) == Some(t);
    Referenced(m, pin, {}, {}, RootSlot(d));
    SharedWriteTargets(m, d, i, w);
    SharedWriteEntries(m, d, i, w);
    forall f | 0 <= f < NPAGE ensures m'.refs[f] == pin[f] + |RefSet(m', {}, f)| {
      RefSetSame(m, m', {}, f);
    }
  }

  lemma SharedWriteTargets(m: Mem, d: nat, i: nat, w: Pte)
    requires Shaped(m) && Trees(m) && d in m.roots && IsShared(i) && i < NPTE
    ensures var m' := WritePte(m, m.roots[d], i, w); forall s :: Target(m', s) == Target(m, s)
  {
    var t := m.roots[d];
    var m' := WritePte(m, t, i, w);
    assert Target(m, RootSlot(d)) == Some(t);
    forall x ensures Root(m', x) == Root(m, x) && (Root(m, x) == Some(t) ==> x == d) {
      assert Target(m, RootSlot(x)) == Root(m, x);
    }
    forall x, a ensures Mid(m', x, a) == Mid(m, x, a) && Mid(m, x, a) != Some(t) {
      assert Target(m, Slot2(x, a)) == Mid(m, x, a);
    }
    forall x, a, b ensures Low(m', x, a, b) == Low(m, x, a, b) && Low(m, x, a, b) != Some(t) {
      assert Target(m, Slot1(x, a, b)) == Low(m, x, a, b);
    }
    assert forall x, a, b, c :: Leaf(m', x, a, b, c) == Leaf(m, x, a, b, c);
  }

  lemma SharedWriteEntries(m: Mem, d: nat, i: nat, w: Pte)
    requires Shaped(m) && Trees(m) && EntriesInRam(m) && d in m.roots && IsShared(i) && i < NPTE
    ensures var m' := WritePte(m, m.roots[d], i, w); Trees(m') && EntriesInRam(m') && SamePages(m, m')
  {
    var t := m.roots[d];
    var m' := WritePte(m, t, i, w);
    SharedWriteTargets(m, d, i, w);
    assert Target(m, RootSlot(d)) == Some(t);
    forall x, a | x in m'.roots && 0 <= a < NPTE && !IsShared(a) && IsValid(m'.frames[m'.roots[x]][a])
      ensures Mid(m', x, a).Some? {
      assert Target(m', Slot2(x, a)) == Target(m, Slot2(x, a));
    }
    forall x, a, b | 0 <= b < NPTE && Mid(m', x, a).Some? && IsValid(m'.frames[Mid(m', x, a).value][b])
      ensures Low(m', x, a, b).Some? {
      assert Target(m', Slot2(x, a)) == Target(m, Slot2(x, a));
      assert Target(m', Slot1(x, a, b)) == Target(m, Slot1(x, a, b));
    }
    forall x, a, b, c | 0 <= c < NPTE && Low(m', x, a, b).Some? && IsValid(m'.frames[Low(m', x, a, b).value][c])
      ensures Leaf(m', x, a, b, c).Some? {
      assert Target(m', Slot1(x, a, b)) == Target(m, Slot1(x, a, b));
      assert Target(m', Slot0(x, a, b, c)) == Target(m, Slot0(x, a, b, c));
    }
    forall x, a, b, c ensures Page(m', x, a, b, c) == Page(m, x, a, b, c) {
      assert Target(m', Slot1(x, a, b)) == Target(m, Slot1(x, a, b));
    }
  }

  /** A directory with a window and no page below UTOP. */
  ghost predicate FreshDirectory(m: Mem, d: nat)
    requires Shaped(m)
  {
    WindowOk(m, d) && forall i, j, k :: i < 2 ==> Page(m, d, i, j, k) == None
  }

  lemma NewDirectory(m0: Mem, m1: Mem, d: nat)
    requires Shaped(m0) && Shaped(m1) && m0.free != [] && d !in m0.roots && TableAdded(m0, m1, RootSlot(d))
    ensures d in m1.roots
    ensures forall i :: Mid(m1, d, i) == None
    ensures forall i, j :: Low(m1, d, i, j) == None
    ensures forall i, j, k :: Page(m1, d, i, j, k) == None && Leaf(m1, d, i, j, k) == None
    ensures Target(m1, RootSlot(d)) == Some(m1.roots[d]) && m1.refs[m1.roots[d]] == 1
    ensures |m1.free| == |m0.free| - 1
  {
    assert Target(m1, RootSlot(d)) == Some(m0.free[0]);
    assert Root(m1, d) == Some(m0.free[0]);
    forall i ensures Mid(m1, d, i) == None {
      assert Target(m1, Slot2(d, i)) == Target(m0, Slot2(d, i));
    }
  }

  lemma FirstWindowPage(m1: Mem, m2: Mem, d: nat)
    requires Shaped(m1) && Shaped(m2) && d in m1.roots
    requires forall i :: Mid(m1, d, i) == None
    requires forall i, j :: Low(m1, d, i, j) == None
    requires forall i, j, k :: Page(m1, d, i, j, k) == None
    requires PageMapped(m1, m2, d, PPT, PPT, PPT, m1.roots[d], WINDOW_PERM)
    ensures FreshDirectory(m2, d)
  {
    hide Page, Leaf, UserDataDisjoint, NotTable;
    assert Target(m1, RootSlot(d)) == Some(m1.roots[d]);
    assert Target(m2, RootSlot(d)) == Some(m1.roots[d]);
    assert Root(m2, d) == Some(m1.roots[d]);
    forall i | 0 <= i < 2 ensures Page(m2, d, PPT, PPT, i) == Mirror(Mid(m2, d, i)) {
      assert Target(m2, Slot2(d, i)) == Target(m1, Slot2(d, i));
    }
    forall i, j | 0 <= i < 2 && 0 <= j < NPTE ensures Page(m2, d, PPT, i, j) == Mirror(Low(m2, d, i, j)) {
      assert Target(m2, Slot1(d, i, j)) == Target(m1, Slot1(d, i, j));
    }
  }

  lemma NoWindowPage(m1: Mem, m2: Mem, d: nat)
    requires Shaped(m1) && Shaped(m2)
    requires forall i, j, k :: Page(m1, d, i, j, k) == None
    requires SamePages(m1, m2)
    ensures !WindowOk(m2, d)
  {
    hide Page;
    assert Page(m2, d, PPT, PPT, PPT) == None;
  }

  lemma SameStateWindow(m: Mem, m': Mem, d: nat)
    requires Shaped(m) && Shaped(m')
    requires forall s :: Target(m', s) == Target(m, s)
    requires SamePages(m, m')
    ensures WindowOk(m', d) <==> WindowOk(m, d)
    ensures FreshDirectory(m', d) <==> FreshDirectory(m, d)
  {
    hide Page, Leaf;
    assert Target(m', RootSlot(d)) == Target(m, RootSlot(d));
    forall a ensures Mid(m', d, a) == Mid(m, d, a) {
      assert Target(m', Slot2(d, a)) == Target(m, Slot2(d, a));
    }
    forall a, b ensures Low(m', d, a, b) == Low(m, d, a, b) {
      assert Target(m', Slot1(d, a, b)) == Target(m, Slot1(d, a, b));
    }
    WindowDependsOn(m, m', d);
  }

  lemma RootWindow(f: nat)
    requires f < NPAGE
    ensures VPN2(WINDOW_ROOT) == PPT && VPN1(WINDOW_ROOT) == PPT && VPN0(WINDOW_ROOT) == PPT
    ensures KERNBASE <= KERNBASE + f * 0x1000 < KERNBASE + MEMORY_SIZE && FrameOf(KERNBASE + f * 0x1000) == f
  {
    WindowGeometry(0);
    FrameOfAddress(f, 0);
  }

  lemma KeepsDirectories(m0: Mem, m1: Mem, m2: Mem, d: nat, mapped: bool)
    requires Shaped(m0) && Shaped(m1) && Shaped(m2) && m0.free != [] && d in m1.roots
    requires TableAdded(m0, m1, RootSlot(d))
    requires if mapped then PageMapped(m1, m2, d, PPT, PPT, PPT, m1.roots[d], WINDOW_PERM)
               else TablesGrown(m1, m2, d, PPT, PPT)
    ensures d in m2.roots
    ensures forall x, i, j, k :: x != d ==> Page(m2, x, i, j, k) == Page(m0, x, i, j, k)
    ensures OtherWindowsKept(m0, m2, d) && (UserDataDisjoint(m0) ==> UserDataDisjoint(m2))
  {
    hide Page, Leaf, UserDataDisjoint, NotTable, WindowOk;
    forall x | x != d ensures (WindowOk(m2, x) <==> WindowOk(m0, x)) && (x in m2.roots <==> x in m0.roots) {
      SameTablesElsewhere(m0, m2, d, x);
      WindowDependsOn(m0, m2, x);
      RootIsSome(m0, x);
      RootIsSome(m2, x);
    }
    assert Target(m1, RootSlot(d)).Some?;
    assert Root(m2, d) == Target(m2, RootSlot(d));
  }

  lemma NoWindowWithoutRoot(m: Mem, d: nat)
    requires Shaped(m) && d !in m.roots
    ensures !WindowOk(m, d)
  {
    RootIsSome(m, d);
    assert Page(m, d, PPT, PPT, PPT) == None;
  }

  lemma SameOtherWindows(m0: Mem, m: Mem, m': Mem, d: nat)
    requires Shaped(m0) && Shaped(m) && Shaped(m') && OtherWindowsKept(m0, m, d)
    requires SamePages(m, m') && forall s :: Target(m', s) == Target(m, s)
    ensures OtherWindowsKept(m0, m', d) && (UserDataDisjoint(m) ==> UserDataDisjoint(m'))
  {
    SameRoots(m, m');
    UserDataSame(m, m');
    hide WindowOk, Page, UserDataDisjoint, Target;
    forall x ensures WindowOk(m', x) <==> WindowOk(m, x) {
      SameStateWindow(m, m', x);
    }
  }

  lemma SameRoot(m: Mem, m': Mem, d: nat)
    requires Shaped(m) && Shaped(m') && forall s :: Target(m', s) == Target(m, s)
    ensures d in m.roots <==> d in m'.roots
  {
    assert Root(m', d) == Target(m', RootSlot(d)) && Root(m, d) == Target(m, RootSlot(d));
  }
}
