/** destroy_pgdir: what is left after each step of the triple loop, and the total effect. */
module Teardown {
  import opened Options
  import opened Sv39
  import opened PhysMem
  import opened TableSteps
  import opened MapSteps
  import opened Window
  import opened PmapSteps
  import opened UserSteps

  /** The slots of directory d that the loops have passed when they stand at (i, j, k). */
  predicate Passed(s: Slot, d: nat, i: nat, j: nat, k: nat)
  {
    s.d == d &&
    match s
    case RootSlot(_) => false
    case Slot2(_, a) => a < i
    case Slot1(_, a, b) => a < i || (a == i && b < j)
    case Slot0(_, a, b, c) => a < i || (a == i && (b < j || (b == j && c < k)))
  }

  /** The passed slots hold nothing; every other slot, every other directory and every frame that
      was no table are as before. */
  ghost predicate TornDown(m0: Mem, m: Mem, d: nat, i: nat, j: nat, k: nat)
    requires Shaped(m0) && Shaped(m)
  {
    && (forall s :: Target(m, s) == if Passed(s, d, i, j, k) then None else Target(m0, s))
    && (forall x, a, b, c :: x != d ==> Page(m, x, a, b, c) == Page(m0, x, a, b, c))
    && (forall f :: 0 <= f < NPAGE && NotTable(m0, f) ==> m.frames[f] == m0.frames[f])
  }

  lemma NothingTornDown(m: Mem, d: nat)
    requires Shaped(m)
    ensures TornDown(m, m, d, 0, 0, 0)
  {
  }

  lemma TornDownLeaf(m0: Mem, m: Mem, m': Mem, d: nat, i: nat, j: nat, k: nat, t: nat)
    requires Shaped(m0) && Shaped(m) && Shaped(m') && TornDown(m0, m, d, i, j, k)
    requires Low(m, d, i, j) == Some(t) && k < NPTE
    requires forall s :: s != Slot0(d, i, j, k) ==> Target(m', s) == Target(m, s)
    requires Leaf(m', d, i, j, k) == None
    requires PageUpdated(m, m', d, i, j, k, None)
    requires forall f :: 0 <= f < NPAGE && f != t ==> m'.frames[f] == m.frames[f]
    ensures TornDown(m0, m', d, i, j, k + 1)
  {
    hide Page;
    assert Target(m, Slot1(d, i, j)) == Target(m0, Slot1(d, i, j)) == Some(t);
    forall s ensures Target(m', s) == if Passed(s, d, i, j, k + 1) then None else Target(m0, s) {
      if s == Slot0(d, i, j, k) {
        assert Target(m', s) == Leaf(m', d, i, j, k);
      }
    }
  }

  /** An invalid leaf needs no step. */
  lemma TornDownNoLeaf(m0: Mem, m: Mem, d: nat, i: nat, j: nat, k: nat)
    requires Shaped(m0) && Shaped(m) && TornDown(m0, m, d, i, j, k) && Leaf(m, d, i, j, k) == None
    ensures TornDown(m0, m, d, i, j, k + 1)
  {
    hide Page;
    assert Target(m, Slot0(d, i, j, k)) == None;
  }

  lemma TornDownLow(m0: Mem, m: Mem, m': Mem, d: nat, i: nat, j: nat, t: nat)
    requires Shaped(m0) && Shaped(m) && Shaped(m') && TornDown(m0, m, d, i, j, NPTE)
    requires Mid(m, d, i) == Some(t) && j < NPTE
    requires forall s :: s != Slot1(d, i, j) ==> Target(m', s) == Target(m, s)
    requires Low(m', d, i, j) == None
    requires SamePages(m, m')
    requires forall f :: 0 <= f < NPAGE && f != t ==> m'.frames[f] == m.frames[f]
    ensures TornDown(m0, m', d, i, j + 1, 0)
  {
    hide Page;
    assert Target(m, Slot2(d, i)) == Target(m0, Slot2(d, i)) == Some(t);
    forall s ensures Target(m', s) == if Passed(s, d, i, j + 1, 0) then None else Target(m0, s) {
      if s == Slot1(d, i, j) {
        assert Target(m', s) == Low(m', d, i, j);
      } else if s.Slot0? && s.d == d && s.i == i && s.j == j {
        assert Target(m', s) == Target(m, s);
        assert s.k >= NPTE ==> Leaf(m, d, i, j, s.k) == None;
      }
    }
  }

  lemma TornDownNoLow(m0: Mem, m: Mem, d: nat, i: nat, j: nat)
    requires Shaped(m0) && Shaped(m) && TornDown(m0, m, d, i, j, 0) && Low(m, d, i, j) == None
    ensures TornDown(m0, m, d, i, j + 1, 0)
  {
    hide Page;
    forall s ensures Target(m, s) == if Passed(s, d, i, j + 1, 0) then None else Target(m0, s) {
      if s.d == d && (s == Slot1(d, i, j) || (s.Slot0? && s.i == i && s.j == j)) {
        assert Target(m, s) == None;
      }
    }
  }

  lemma TornDownMid(m0: Mem, m: Mem, m': Mem, d: nat, i: nat)
    requires Shaped(m0) && Shaped(m) && Shaped(m') && TornDown(m0, m, d, i, NPTE, 0)
    requires d in m.roots && i < NPTE
    requires forall s :: s != Slot2(d, i) ==> Target(m', s) == Target(m, s)
    requires Mid(m', d, i) == None
    requires SamePages(m, m')
    requires forall f :: 0 <= f < NPAGE && f != m.roots[d] ==> m'.frames[f] == m.frames[f]
    ensures TornDown(m0, m', d, i + 1, 0, 0)
  {
    hide Page;
    assert Target(m, RootSlot(d)) == Target(m0, RootSlot(d)) == Some(m.roots[d]);
    forall s ensures Target(m', s) == if Passed(s, d, i + 1, 0, 0) then None else Target(m0, s) {
      if s == Slot2(d, i) {
        assert Target(m', s) == Mid(m', d, i);
      } else if (s.Slot1? || s.Slot0?) && s.d == d && s.i == i {
        assert Target(m', s) == Target(m, s);
        assert s.j >= NPTE ==> Low(m, d, i, s.j) == None;
      }
    }
  }

  lemma TornDownNoMid(m0: Mem, m: Mem, d: nat, i: nat)
    requires Shaped(m0) && Shaped(m) && TornDown(m0, m, d, i, 0, 0) && Mid(m, d, i) == None
    ensures TornDown(m0, m, d, i + 1, 0, 0)
  {
    hide Page;
    forall s ensures Target(m, s) == if Passed(s, d, i + 1, 0, 0) then None else Target(m0, s) {
      if !s.RootSlot? && s.d == d && s.i == i {
        assert s.Slot0? || s.Slot1? ==> Low(m, d, i, s.j) == None;
        assert Target(m, s) == None;
      }
    }
  }

  /** A table whose slots have all been passed holds no valid entry. */
  lemma PassedTableIsEmpty(m0: Mem, m: Mem, pin: seq<nat>, d: nat, i: nat, j: nat)
    requires Inv(m, pin) && Shaped(m0)
    ensures TornDown(m0, m, d, i, j, NPTE) && Low(m, d, i, j).Some? ==> EmptyTable(m, Low(m, d, i, j).value)
    ensures TornDown(m0, m, d, i, NPTE, 0) && Mid(m, d, i).Some? ==> EmptyTable(m, Mid(m, d, i).value)
    ensures TornDown(m0, m, d, NPTE, 0, 0) ==> forall a: nat :: Mid(m, d, a) == None
  {
    hide Counted, Trees, FreeListOk;
    if TornDown(m0, m, d, i, j, NPTE) && Low(m, d, i, j).Some? {
      forall e | 0 <= e < NPTE ensures !IsValid(m.frames[Low(m, d, i, j).value][e]) {
        assert Target(m, Slot0(d, i, j, e)) == None;
      }
    }
    if TornDown(m0, m, d, i, NPTE, 0) && Mid(m, d, i).Some? {
      forall e | 0 <= e < NPTE ensures !IsValid(m.frames[Mid(m, d, i).value][e]) {
        assert Target(m, Slot1(d, i, e)) == None;
      }
    }
    if TornDown(m0, m, d, NPTE, 0, 0) {
      forall a: nat ensures Mid(m, d, a) == None {
        assert a < NPTE ==> Target(m, Slot2(d, a)) == None;
      }
    }
  }

  /* ---- The total effect ---- */

  /** The references that directory d holds on frame f: its leaves, its tables, its window, its root. */
  ghost function HeldBy(m: Mem, d: nat, f: nat): set<Slot>
    requires Shaped(m)
  {
    set s | s in AllSlots(m.roots.Keys) && s.d == d && Target(m, s) == Some(f)
  }

  /** The directory is gone and nothing else is: no other translation, no page content. */
  ghost predicate Destroyed(m: Mem, m': Mem, d: nat)
    requires Shaped(m) && Shaped(m')
  {
    && d !in m'.roots
    && (forall s: Slot :: Target(m', s) == if s.d == d then None else Target(m, s))
    && (forall x, a, b, c :: x != d ==> Page(m', x, a, b, c) == Page(m, x, a, b, c))
    && (forall f :: 0 <= f < NPAGE && NotTable(m, f) ==> m'.frames[f] == m.frames[f])
  }

  /** Every count drops by exactly the number of references the directory held, and exactly the frames
      whose last references those were are freed, once each. */
  lemma DestroyedCounts(m: Mem, m': Mem, pin: seq<nat>, d: nat)
    requires Inv(m, pin) && Inv(m', pin) && Destroyed(m, m', d)
    ensures forall f :: 0 <= f < NPAGE ==> m'.refs[f] == m.refs[f] - |HeldBy(m, d, f)|
    ensures Distinct(m'.free)
    ensures forall f :: 0 <= f < NPAGE ==>
              (f in m'.free <==> f in m.free || m.refs[f] == |HeldBy(m, d, f)|)
  {
    hide Page, Trees, EntriesInRam, Target, NotTable;
    forall f | 0 <= f < NPAGE ensures m'.refs[f] == m.refs[f] - |HeldBy(m, d, f)| {
      HeldByDrops(m, m', d, f);
    }
    forall f | 0 <= f < NPAGE && f in m.free ensures f in m'.free {
      assert m.refs[f] == 0;
      assert m'.refs[f] >= 0;
    }
  }

  lemma HeldByDrops(m: Mem, m': Mem, d: nat, f: nat)
    requires Shaped(m) && Shaped(m')
    requires forall s: Slot :: Target(m', s) == if s.d == d then None else Target(m, s)
    ensures |RefSet(m', {}, f)| == |RefSet(m, {}, f)| - |HeldBy(m, d, f)|
  {
    forall s ensures s in RefSet(m', {}, f) <==> s in RefSet(m, {}, f) - HeldBy(m, d, f) {
      RefSetMember(m', {}, f, s);
      RefSetMember(m, {}, f, s);
    }
    assert RefSet(m', {}, f) == RefSet(m, {}, f) - HeldBy(m, d, f);
    assert HeldBy(m, d, f) <= RefSet(m, {}, f);
  }

  /** Other directories keep their windows. */
  lemma DestroyedKeepsWindows(m: Mem, m': Mem, d: nat, x: nat)
    requires Shaped(m) && Shaped(m') && Destroyed(m, m', d) && x != d
    ensures WindowOk(m', x) <==> WindowOk(m, x)
  {
    hide Page, Leaf, NotTable;
    SameTablesElsewhere(m, m', d, x);
    WindowDependsOn(m, m', x);
  }

  lemma DestroyedKeepsUserData(m: Mem, m': Mem, d: nat)
    requires Shaped(m) && Shaped(m') && Destroyed(m, m', d) && UserDataDisjoint(m)
    ensures UserDataDisjoint(m')
  {
    hide Page;
    forall x, i, j, k | 0 <= i < 2 && Leaf(m', x, i, j, k).Some?
      ensures NotTable(m', Leaf(m', x, i, j, k).value) {
      assert Target(m', Slot0(x, i, j, k)) == Leaf(m', x, i, j, k);
      assert Leaf(m, x, i, j, k) == Target(m, Slot0(x, i, j, k));
    }
  }

  lemma DestroyedAtEnd(m0: Mem, m: Mem, m': Mem, d: nat)
    requires Shaped(m0) && Shaped(m) && Shaped(m') && TornDown(m0, m, d, NPTE, 0, 0)
    requires forall s :: s != RootSlot(d) ==> Target(m', s) == Target(m, s)
    requires Root(m', d) == None && SamePages(m, m') && m'.frames == m.frames
    ensures Destroyed(m0, m', d)
  {
    hide Page;
    forall s: Slot ensures Target(m', s) == if s.d == d then None else Target(m0, s) {
      if s == RootSlot(d) {
        assert Target(m', s) == Root(m', d);
      } else if s.d == d {
        assert Target(m', s) == Target(m, s);
        assert Target(m, s) == None by {
          if s.i >= NPTE {
            assert Mid(m, d, s.i) == None;
          }
        }
      }
    }
  }

  /* ---- Releasing a table and clearing the entry that named it ---- */

  /** The count of the table behind slot s is dropped. */
  lemma ReleaseTableStep(m: Mem, pin: seq<nat>, s: Slot)
    requires Inv(m, pin) && Target(m, s).Some?
    ensures m.refs[Target(m, s).value] > 0 && Target(m, s).value !in m.free
    ensures var m' := DecRef(m, Target(m, s).value);
            && InvX(m', pin, {s}, {})
            && (forall s' :: Target(m', s') == Target(m, s'))
            && SamePages(m, m')
  {
    hide InvX, Page, Leaf, Low, Mid, Root, Out;
    Referenced(m, pin, {}, {}, s);
    DropCount(m, pin, {}, {}, s);
    assert {} + {s} == {s};
    TargetsDependOnFrames(m, DecRef(m, Target(m, s).value));
  }

  lemma ClearLow(m0: Mem, m: Mem, m1: Mem, pin: seq<nat>, d: nat, i: nat, j: nat)
    requires Shaped(m0) && Inv(m, pin) && TornDown(m0, m, d, i, j, NPTE) && Low(m, d, i, j).Some?
    requires InvX(m1, pin, {Slot1(d, i, j)}, {}) && m1.frames == m.frames && SamePages(m, m1)
    requires forall s :: Target(m1, s) == Target(m, s)
    ensures j < NPTE && Mid(m1, d, i) == Mid(m, d, i) && Mid(m, d, i).Some? && Mid(m, d, i).value !in m1.free
    ensures var m2 := WritePte(m1, Mid(m, d, i).value, j, ZeroPte); Inv(m2, pin) && TornDown(m0, m2, d, i, j + 1, 0)
  {
    PassedTableIsEmpty(m0, m, pin, d, i, j);
    hide InvX, Page, Leaf, Out, Root, TornDown;
    var s0 := Slot1(d, i, j);
    assert Target(m1, s0) == Target(m, s0);
    assert Target(m1, Slot2(d, i)) == Target(m, Slot2(d, i));
    Referenced(m1, pin, {s0}, {}, Slot2(d, i));
    UnlinkLowStep(m1, pin, {s0}, {}, d, i, j);
    var m2 := WritePte(m1, Mid(m, d, i).value, j, ZeroPte);
    assert Target(m2, s0) == None;
    RestoreSlot(m2, pin, {s0}, {}, s0);
    assert {s0} - {s0} == {};
    TornDownLow(m0, m, m2, d, i, j, Mid(m, d, i).value);
  }

  lemma ClearMid(m0: Mem, m: Mem, m1: Mem, pin: seq<nat>, d: nat, i: nat)
    requires Shaped(m0) && Inv(m, pin) && TornDown(m0, m, d, i, NPTE, 0) && Mid(m, d, i).Some?
    requires InvX(m1, pin, {Slot2(d, i)}, {}) && m1.frames == m.frames && m1.roots == m.roots && SamePages(m, m1)
    requires forall s :: Target(m1, s) == Target(m, s)
    ensures i < NPTE && d in m.roots && m.roots[d] !in m1.free
    ensures var m2 := WritePte(m1, m.roots[d], i, ZeroPte); Inv(m2, pin) && TornDown(m0, m2, d, i + 1, 0, 0)
  {
    PassedTableIsEmpty(m0, m, pin, d, i, 0);
    hide InvX, Page, Leaf, Low, Out, TornDown;
    var s0 := Slot2(d, i);
    assert Target(m1, s0) == Target(m, s0);
    assert Target(m1, RootSlot(d)) == Target(m, RootSlot(d)) == Some(m.roots[d]);
    Referenced(m1, pin, {s0}, {}, RootSlot(d));
    UnlinkMidStep(m1, pin, {s0}, {}, d, i);
    var m2 := WritePte(m1, m.roots[d], i, ZeroPte);
    assert Target(m2, s0) == None;
    RestoreSlot(m2, pin, {s0}, {}, s0);
    assert {s0} - {s0} == {};
    TornDownMid(m0, m, m2, d, i);
  }

  lemma ClearRoot(m0: Mem, m: Mem, m1: Mem, pin: seq<nat>, d: nat)
    requires Shaped(m0) && Inv(m, pin) && TornDown(m0, m, d, NPTE, 0, 0) && d in m.roots
    requires InvX(m1, pin, {RootSlot(d)}, {}) && m1.frames == m.frames && m1.roots == m.roots && SamePages(m, m1)
    requires forall s :: Target(m1, s) == Target(m, s)
    ensures var m2 := DropRoot(m1, d); Inv(m2, pin) && Destroyed(m0, m2, d)
  {
    PassedTableIsEmpty(m0, m, pin, d, 0, 0);
    hide InvX, Page, Leaf, Low, Out, TornDown;
    var s0 := RootSlot(d);
    forall i: nat ensures Mid(m1, d, i) == None {
      assert Target(m1, Slot2(d, i)) == Target(m, Slot2(d, i));
    }
    UnlinkRootStep(m1, pin, {s0}, {}, d);
    var m2 := DropRoot(m1, d);
    assert Target(m2, s0) == None;
    RestoreSlot(m2, pin, {s0}, {}, s0);
    assert {s0} - {s0} == {};
    DestroyedAtEnd(m0, m, m2, d);
  }

  /** One leaf: its count dropped, then the entry cleared. */
  lemma ClearOneLeaf(m0: Mem, m: Mem, m1: Mem, pin: seq<nat>, d: nat, i: nat, j: nat, k: nat, t: nat)
    requires Shaped(m0) && Shaped(m) && TornDown(m0, m, d, i, j, k) && Low(m, d, i, j) == Some(t) && k < NPTE
    requires InvX(m1, pin, {Slot0(d, i, j, k)}, {}) && m1.frames == m.frames && SamePages(m, m1)
    requires forall s :: Target(m1, s) == Target(m, s)
    ensures t !in m1.free
    ensures var m2 := WritePte(m1, t, k, ZeroPte);
            Inv(m2, pin) && TornDown(m0, m2, d, i, j, k + 1) && Low(m2, d, i, j) == Some(t)
  {
    hide InvX, Page, Leaf, Mid, Out, Root, TornDown;
    assert Target(m1, Slot1(d, i, j)) == Target(m, Slot1(d, i, j));
    TableInUse(m1, pin, {Slot0(d, i, j, k)}, {}, d, i, j);
    ClearLeaf(m1, pin, d, i, j, k);
    var m2 := WritePte(m1, t, k, ZeroPte);
    assert Target(m2, Slot1(d, i, j)) == Target(m1, Slot1(d, i, j));
    TornDownLeaf(m0, m, m2, d, i, j, k, t);
  }

  /** A slot that no loop has passed yet is as it was at the start. */
  lemma NotPassedYet(m0: Mem, m: Mem, d: nat, i: nat, j: nat, k: nat)
    requires Shaped(m0) && Shaped(m) && TornDown(m0, m, d, i, j, k)
    ensures Root(m, d) == Root(m0, d) && Mid(m, d, i) == Mid(m0, d, i) && Low(m, d, i, j) == Low(m0, d, i, j)
  {
    hide Page;
    assert Target(m, RootSlot(d)) == Target(m0, RootSlot(d));
    assert Target(m, Slot2(d, i)) == Target(m0, Slot2(d, i));
    assert Target(m, Slot1(d, i, j)) == Target(m0, Slot1(d, i, j));
  }

  lemma SharedSlotIsNoTable(m: Mem, d: nat, i: nat)
    requires Shaped(m) && IsShared(i)
    ensures Mid(m, d, i) == None
  {
  }

  lemma NoDirectory(m: Mem, d: nat)
    requires Shaped(m) && d !in m.roots
    ensures Destroyed(m, m, d)
  {
  }
}
