/** Sequences of table steps that start and end at the full invariant: adding a table, and
    replacing the target of one leaf. */
module MapSteps {
  import opened Options
  import opened Sv39
  import opened PhysMem
  import opened TableSteps

  ghost predicate NotTable(m: Mem, f: nat)
    requires Shaped(m)
  {
    forall s :: IsTableSlot(s) ==> Target(m, s) != Some(f)
  }

  /** Frames in use that are not tables keep their content and their count. */
  ghost predicate DataKept(m: Mem, m': Mem)
    requires Shaped(m) && Shaped(m')
  {
    forall f :: 0 <= f < NPAGE && m.refs[f] > 0 && NotTable(m, f)
      ==> m'.frames[f] == m.frames[f] && m'.refs[f] == m.refs[f]
  }

  /** Frames in use that are no tables keep their content, apart from g. */
  ghost predicate ContentKept(m: Mem, m': Mem, g: Option<nat>)
    requires Shaped(m) && Shaped(m')
  {
    forall f :: 0 <= f < NPAGE && m.refs[f] > 0 && NotTable(m, f) && g != Some(f) ==> m'.frames[f] == m.frames[f]
  }

  /** Leaves below UTOP point at frames that are no tables. */
  ghost predicate UserDataDisjoint(m: Mem)
    requires Shaped(m)
  {
    forall d, i, j, k :: 0 <= i < 2 && Leaf(m, d, i, j, k).Some? ==> NotTable(m, Leaf(m, d, i, j, k).value)
  }

  /** How many tables the walk to page (i, j, _) of directory d lacks. */
  function Missing(m: Mem, d: nat, i: nat, j: nat): nat
    requires Shaped(m)
  {
    if Low(m, d, i, j).Some? then 0 else if Mid(m, d, i).Some? then 1 else if d in m.roots then 2 else 3
  }

  /** The part of a state that adding the table behind slot s0 leaves alone. */
  ghost predicate TableAdded(m: Mem, m': Mem, s0: Slot)
    requires Shaped(m) && Shaped(m') && m.free != []
  {
    && IsTableSlot(s0)
    && Target(m, s0) == None && Target(m', s0) == Some(m.free[0])
    && m'.free == m.free[1..]
    && (forall s :: s != s0 ==> Target(m', s) == Target(m, s))
    && (forall f :: 0 <= f < NPAGE && m.refs[f] > 0 ==> m'.refs[f] == m.refs[f])
    && m'.refs[m.free[0]] == 1
    && SamePages(m, m')
    && DataKept(m, m')
    && (UserDataDisjoint(m) ==> UserDataDisjoint(m'))
  }

  lemma UserDataAfterTable(m: Mem, m': Mem, s0: Slot, g: nat)
    requires Shaped(m) && Shaped(m') && UserDataDisjoint(m)
    requires IsTableSlot(s0) && Target(m', s0) == Some(g)
    requires forall s :: s != s0 ==> Target(m', s) == Target(m, s)
    requires forall s :: Target(m, s) != Some(g)
    ensures UserDataDisjoint(m')
  {
    forall d, i, j, k, s | 0 <= i < 2 && Leaf(m', d, i, j, k).Some? && IsTableSlot(s)
      ensures Target(m', s) != Leaf(m', d, i, j, k) {
      assert Target(m', Slot0(d, i, j, k)) == Target(m, Slot0(d, i, j, k));
      assert Leaf(m, d, i, j, k) == Leaf(m', d, i, j, k) != Some(g);
      assert NotTable(m, Leaf(m, d, i, j, k).value);
    }
  }

  function LinkLow(m: Mem, d: nat, i: nat, j: nat): (m': Mem)
    requires Shaped(m) && Mid(m, d, i).Some? && j < NPTE && m.free != [] && m.free[0] < NPAGE
    ensures Shaped(m')
  {
    IncRef(WritePte(TakeFrame(m), Mid(m, d, i).value, j, MkPte(m.free[0], 0)), m.free[0])
  }

  function LinkMid(m: Mem, d: nat, i: nat): (m': Mem)
    requires Shaped(m) && d in m.roots && i < NPTE && m.free != [] && m.free[0] < NPAGE
    ensures Shaped(m')
  {
    IncRef(WritePte(TakeFrame(m), m.roots[d], i, MkPte(m.free[0], 0)), m.free[0])
  }

  function LinkRoot(m: Mem, d: nat): (m': Mem)
    requires Shaped(m) && m.free != [] && m.free[0] < NPAGE
    ensures Shaped(m')
  {
    IncRef(SetRoot(TakeFrame(m), d, m.free[0]), m.free[0])
  }

  /** create_pte0: a new level-0 table. */
  lemma NewLow(m: Mem, pin: seq<nat>, d: nat, i: nat, j: nat)
    requires Inv(m, pin) && Mid(m, d, i).Some? && j < NPTE && Low(m, d, i, j) == None && m.free != []
    ensures m.free[0] < NPAGE && Mid(m, d, i).value !in m.free
    ensures var m' := LinkLow(m, d, i, j); Inv(m', pin) && TableAdded(m, m', Slot1(d, i, j))
  {
    hide InvX, Page, Leaf, Low, Mid, Root, Out;
    var s0, g, t := Slot1(d, i, j), m.free[0], Mid(m, d, i).value;
    TakeFrameStep(m, pin, {}, {});
    Referenced(m, pin, {}, {}, Slot2(d, i));
    var m1 := TakeFrame(m);
    assert Target(m1, Slot2(d, i)) == Some(t);
    assert Target(m1, s0) == None;
    SkipSlot(m1, pin, {}, {} + {g}, s0);
    assert {} + {s0} == {s0} && {} + {g} == {g};
    LinkLowStep(m1, pin, {g}, d, i, j, g);
    var m2 := WritePte(m1, t, j, MkPte(g, 0));
    AddCount(m2, pin, {s0}, {g}, s0);
    assert {s0} - {s0} == {} && {g} - {g} == {};
    var m3 := IncRef(m2, g);
    TargetsDependOnFrames(m2, m3);
    assert Target(m, Slot2(d, i)) == Some(t);
    if UserDataDisjoint(m) {
      UserDataAfterTable(m, m3, s0, g);
    }
  }

  /** create_pte1: a new level-1 table. */
  lemma NewMid(m: Mem, pin: seq<nat>, d: nat, i: nat)
    requires Inv(m, pin) && d in m.roots && i < NPTE && !IsShared(i) && Mid(m, d, i) == None && m.free != []
    ensures m.free[0] < NPAGE && m.roots[d] !in m.free
    ensures var m' := LinkMid(m, d, i); Inv(m', pin) && TableAdded(m, m', Slot2(d, i))
  {
    hide InvX, Page, Leaf, Low, Mid, Out;
    var s0, g, t := Slot2(d, i), m.free[0], m.roots[d];
    TakeFrameStep(m, pin, {}, {});
    assert Target(m, RootSlot(d)) == Some(t);
    Referenced(m, pin, {}, {}, RootSlot(d));
    var m1 := TakeFrame(m);
    assert Target(m1, s0) == None;
    SkipSlot(m1, pin, {}, {} + {g}, s0);
    assert {} + {s0} == {s0} && {} + {g} == {g};
    LinkMidStep(m1, pin, {g}, d, i, g);
    var m2 := WritePte(m1, t, i, MkPte(g, 0));
    AddCount(m2, pin, {s0}, {g}, s0);
    assert {s0} - {s0} == {} && {g} - {g} == {};
    var m3 := IncRef(m2, g);
    TargetsDependOnFrames(m2, m3);
    if UserDataDisjoint(m) {
      UserDataAfterTable(m, m3, s0, g);
    }
  }

  /** create_pte2 and alloc_pgdir: a new root. */
  lemma NewRoot(m: Mem, pin: seq<nat>, d: nat)
    requires Inv(m, pin) && d !in m.roots && m.free != []
    ensures m.free[0] < NPAGE
    ensures var m' := LinkRoot(m, d); Inv(m', pin) && TableAdded(m, m', RootSlot(d))
  {
    hide InvX, Page, Leaf, Low, Mid, Out;
    var s0, g := RootSlot(d), m.free[0];
    TakeFrameStep(m, pin, {}, {});
    var m1 := TakeFrame(m);
    assert Target(m1, s0) == None;
    SkipSlot(m1, pin, {}, {} + {g}, s0);
    assert {} + {s0} == {s0} && {} + {g} == {g};
    LinkRootStep(m1, pin, {g}, d, g);
    var m2 := SetRoot(m1, d, g);
    AddCount(m2, pin, {s0}, {g}, s0);
    assert {s0} - {s0} == {} && {g} - {g} == {};
    var m3 := IncRef(m2, g);
    TargetsDependOnFrames(m2, m3);
    if UserDataDisjoint(m) {
      UserDataAfterTable(m, m3, s0, g);
    }
  }

  /* ---- Replacing the target of one leaf ---- */

  /** Forget the count of the page at slot s, if one is mapped there. */
  function DropLeaf(m: Mem, s: Slot): (m': Mem)
    requires Shaped(m) && (Target(m, s).Some? ==> m.refs[Target(m, s).value] > 0)
    ensures Shaped(m')
  {
    if Target(m, s).Some? then DecRef(m, Target(m, s).value) else m
  }

  lemma DropLeafStep(m: Mem, pin: seq<nat>, s: Slot)
    requires Inv(m, pin) && s.Slot0?
    ensures Target(m, s).Some? ==> m.refs[Target(m, s).value] > 0 && Target(m, s).value !in m.free
    ensures var m' := DropLeaf(m, s);
            && InvX(m', pin, {s}, {})
            && (forall s' :: Target(m', s') == Target(m, s'))
            && SamePages(m, m')
            && m'.frames == m.frames
  {
    hide InvX, Page, Leaf, Low, Mid, Root, Out;
    if Target(m, s).Some? {
      Referenced(m, pin, {}, {}, s);
      DropCount(m, pin, {}, {}, s);
    } else {
      SkipSlot(m, pin, {}, {}, s);
    }
    assert {} + {s} == {s};
    TargetsDependOnFrames(m, DropLeaf(m, s));
  }

  /** The table behind a leaf slot is in use even while the leaf itself is not counted. */
  lemma TableInUse(m: Mem, pin: seq<nat>, X: set<Slot>, P: set<nat>, d: nat, i: nat, j: nat)
    requires InvX(m, pin, X, P) && OnlyLeaves(X) && Low(m, d, i, j).Some?
    ensures Low(m, d, i, j).value !in m.free
  {
    Referenced(m, pin, X, P, Slot1(d, i, j));
  }

  lemma UserDataAfterLeaf(m: Mem, m': Mem, d: nat, i: nat, j: nat, k: nat)
    requires Shaped(m) && Shaped(m') && UserDataDisjoint(m)
    requires forall s :: s != Slot0(d, i, j, k) ==> Target(m', s) == Target(m, s)
    requires i < 2 && Leaf(m', d, i, j, k).Some? ==> NotTable(m, Leaf(m', d, i, j, k).value)
    ensures UserDataDisjoint(m')
  {
    forall x, a, b, c | 0 <= a < 2 && Leaf(m', x, a, b, c).Some?
      ensures NotTable(m', Leaf(m', x, a, b, c).value) {
      if Slot0(x, a, b, c) != Slot0(d, i, j, k) {
        assert Target(m', Slot0(x, a, b, c)) == Target(m, Slot0(x, a, b, c));
      }
    }
  }

  /** Point an uncounted leaf at frame g, which is in use, and count it. */
  lemma PointLeaf(m: Mem, pin: seq<nat>, d: nat, i: nat, j: nat, k: nat, g: nat, perm: bv10)
    requires InvX(m, pin, {Slot0(d, i, j, k)}, {})
    requires Low(m, d, i, j).Some? && k < NPTE && g < NPAGE && g !in m.free
    ensures var m1 := WritePte(m, Low(m, d, i, j).value, k, MkPte(g, perm));
            var m' := IncRef(m1, g);
            && Inv(m', pin)
            && (forall s :: s != Slot0(d, i, j, k) ==> Target(m', s) == Target(m, s))
            && PageUpdated(m, m', d, i, j, k, Some(MkPte(g, perm)))
            && Leaf(m', d, i, j, k) == Some(g)
  {
    hide InvX, Page, Leaf, Low, Mid, Root, Out;
    var s0, t := Slot0(d, i, j, k), Low(m, d, i, j).value;
    var m1 := WritePte(m, t, k, MkPte(g, perm));
    WriteLeafStep(m, pin, {s0}, {}, d, i, j, k, MkPte(g, perm));
    AddCount(m1, pin, {s0}, {}, s0);
    assert {s0} - {s0} == {} && {} - {g} == {};
    var m' := IncRef(m1, g);
    TargetsDependOnFrames(m1, m');
    assert Target(m', s0) == Target(m1, s0);
  }

  /** Allocate a cleared frame for an uncounted leaf and count it. */
  lemma FillLeaf(m: Mem, pin: seq<nat>, d: nat, i: nat, j: nat, k: nat, perm: bv10)
    requires InvX(m, pin, {Slot0(d, i, j, k)}, {}) && m.free != []
    requires Low(m, d, i, j).Some? && k < NPTE
    ensures m.free[0] < NPAGE
    ensures var g := m.free[0];
            var m1 := WritePte(TakeFrame(m), Low(m, d, i, j).value, k, MkPte(g, perm));
            var m' := IncRef(m1, g);
            && Inv(m', pin)
            && (forall s :: s != Slot0(d, i, j, k) ==> Target(m', s) == Target(m, s))
            && PageUpdated(m, m', d, i, j, k, Some(MkPte(g, perm)))
            && Leaf(m', d, i, j, k) == Some(g)
            && m'.refs[g] == 1 && m'.frames[g] == ZeroFrame() && NotTable(m, g)
  {
    hide InvX, Page, Leaf, Low, Mid, Root, Out;
    var s0, t, g := Slot0(d, i, j, k), Low(m, d, i, j).value, m.free[0];
    TakeFrameStep(m, pin, {s0}, {});
    var m0 := TakeFrame(m);
    assert Low(m0, d, i, j) == Some(t) by {
      assert Target(m0, Slot1(d, i, j)) == Target(m, Slot1(d, i, j));
    }
    assert t != g by {
      assert Target(m, Slot1(d, i, j)) == Some(t);
    }
    assert {} + {g} == {g};
    var m1 := WritePte(m0, t, k, MkPte(g, perm));
    WriteLeafStep(m0, pin, {s0}, {g}, d, i, j, k, MkPte(g, perm));
    AddCount(m1, pin, {s0}, {g}, s0);
    assert {s0} - {s0} == {} && {g} - {g} == {};
    var m' := IncRef(m1, g);
    TargetsDependOnFrames(m1, m');
    assert Target(m', s0) == Target(m1, s0);
  }

  /** Clear an uncounted leaf. */
  lemma ClearLeaf(m: Mem, pin: seq<nat>, d: nat, i: nat, j: nat, k: nat)
    requires InvX(m, pin, {Slot0(d, i, j, k)}, {})
    requires Low(m, d, i, j).Some? && k < NPTE
    ensures var m' := WritePte(m, Low(m, d, i, j).value, k, ZeroPte);
            && Inv(m', pin)
            && (forall s :: s != Slot0(d, i, j, k) ==> Target(m', s) == Target(m, s))
            && PageUpdated(m, m', d, i, j, k, None)
            && Leaf(m', d, i, j, k) == None
  {
    var s0 := Slot0(d, i, j, k);
    WriteLeafStep(m, pin, {s0}, {}, d, i, j, k, ZeroPte);
    RestoreSlot(WritePte(m, Low(m, d, i, j).value, k, ZeroPte), pin, {s0}, {}, s0);
    assert {s0} - {s0} == {};
  }

  /** Rewriting the flags of a mapped page moves no reference. */
  lemma ReflagLeaf(m: Mem, pin: seq<nat>, d: nat, i: nat, j: nat, k: nat, perm: bv10)
    requires Inv(m, pin) && Leaf(m, d, i, j, k).Some?
    ensures k < NPTE && Low(m, d, i, j).Some?
    ensures var g := Leaf(m, d, i, j, k).value;
            var m' := WritePte(m, Low(m, d, i, j).value, k, MkPte(g, perm));
            && Inv(m', pin)
            && (forall s :: Target(m', s) == Target(m, s))
            && PageUpdated(m, m', d, i, j, k, Some(MkPte(g, perm)))
  {
    var s0, g := Slot0(d, i, j, k), Leaf(m, d, i, j, k).value;
    var t := Low(m, d, i, j).value;
    var m' := WritePte(m, t, k, MkPte(g, perm));
    LeafWriteTargets(m, d, i, j, k, MkPte(g, perm));
    LeafWritePages(m, d, i, j, k, MkPte(g, perm));
    LeafWriteEntries(m, d, i, j, k, MkPte(g, perm));
    assert Target(m, s0) == Target(m', s0);
    forall f | 0 <= f < NPAGE ensures m'.refs[f] == pin[f] + |RefSet(m', {}, f)| {
      RefSetSame(m, m', {}, f);
    }
  }

  /** If an uncounted slot still names a frame, the counts are off by one: the invariant is broken. */
  lemma StaleLeafIsMiscounted(m: Mem, pin: seq<nat>, s: Slot)
    requires InvX(m, pin, {s}, {}) && Target(m, s).Some?
    ensures !Inv(m, pin)
  {
    hide Trees, EntriesInRam, FreeListOk, RefSet;
    var f := Target(m, s).value;
    RefSetExclude(m, {}, s, f);
    assert {} + {s} == {s};
    assert m.refs[f] == pin[f] + |RefSet(m, {s}, f)| != pin[f] + |RefSet(m, {}, f)|;
  }

  /* ---- Completing the walk to a page ---- */

  /** What adding the missing tables on the way to page (d, i, j, _) leaves alone. */
  ghost predicate TablesGrown(m: Mem, m': Mem, d: nat, i: nat, j: nat)
    requires Shaped(m) && Shaped(m')
  {
    && (forall s :: Target(m, s).Some? ==> Target(m', s) == Target(m, s))
    && (forall s :: s != RootSlot(d) && s != Slot2(d, i) && s != Slot1(d, i, j) ==> Target(m', s) == Target(m, s))
    && (forall f :: 0 <= f < NPAGE && m.refs[f] > 0 ==> m'.refs[f] == m.refs[f])
    && (forall f :: 0 <= f < NPAGE && m.refs[f] > 0 && NotTable(m, f) ==> NotTable(m', f))
    && SamePages(m, m')
    && DataKept(m, m')
    && (UserDataDisjoint(m) ==> UserDataDisjoint(m'))
  }

  lemma TablesGrownMore(m: Mem, m1: Mem, m2: Mem, pin: seq<nat>, d: nat, i: nat, j: nat, s0: Slot)
    requires Inv(m1, pin) && Shaped(m) && Shaped(m2) && m1.free != []
    requires TablesGrown(m, m1, d, i, j) && TableAdded(m1, m2, s0)
    requires s0 == RootSlot(d) || s0 == Slot2(d, i) || s0 == Slot1(d, i, j)
    ensures TablesGrown(m, m2, d, i, j)
  {
    hide Target, Page, UserDataDisjoint;
    var g := m1.free[0];
    assert g < NPAGE && m1.refs[g] == 0 by {
      assert g in m1.free;
      hide Counted, Trees, EntriesInRam;
    }
    hide InvX;
    forall f | 0 <= f < NPAGE && m.refs[f] > 0 && NotTable(m, f) ensures NotTable(m2, f) {
      assert m1.refs[f] > 0 && NotTable(m1, f) && f != g;
    }
  }

  lemma TablesGrownNone(m: Mem, pin: seq<nat>, d: nat, i: nat, j: nat)
    requires Inv(m, pin)
    ensures TablesGrown(m, m, d, i, j)
  {
  }

  lemma InUse(m: Mem, pin: seq<nat>, X: set<Slot>, P: set<nat>, f: nat)
    requires InvX(m, pin, X, P) && f < NPAGE && m.refs[f] > 0
    ensures f !in m.free
  {
    hide Counted, Trees, EntriesInRam;
  }

  /** The table slots that had a target keep it, and the others stay empty outside the walk to (d, i, j). */
  ghost predicate TablesKept(m: Mem, m': Mem, d: nat, i: nat, j: nat)
    requires Shaped(m) && Shaped(m')
  {
    forall s :: IsTableSlot(s) && (Target(m, s).Some? || (s != RootSlot(d) && s != Slot2(d, i) && s != Slot1(d, i, j)))
      ==> Target(m', s) == Target(m, s)
  }

  /** Writing only table t, and frame g if any, keeps the content of the others. */
  lemma ContentAfterLeaf(m: Mem, m': Mem, t: nat, owner: Slot, g: Option<nat>)
    requires Shaped(m) && Shaped(m') && IsTableSlot(owner) && Target(m, owner) == Some(t)
    requires forall f :: 0 <= f < NPAGE && f != t && g != Some(f) ==> m'.frames[f] == m.frames[f]
    ensures ContentKept(m, m', g)
  {
    hide Target;
  }

  lemma ContentAfterGrowth(m0: Mem, m1: Mem, m2: Mem, d: nat, i: nat, j: nat, g: Option<nat>)
    requires Shaped(m0) && Shaped(m1) && Shaped(m2)
    requires TablesGrown(m0, m1, d, i, j) && ContentKept(m1, m2, g)
    ensures ContentKept(m0, m2, g)
  {
    hide Target, Page, UserDataDisjoint, NotTable;
  }

  /** After growing the tables, writing leaves keeps every table. */
  lemma TablesKeptAfterGrowth(m0: Mem, m1: Mem, m2: Mem, d: nat, i: nat, j: nat, k: nat)
    requires Shaped(m0) && Shaped(m1) && Shaped(m2) && TablesGrown(m0, m1, d, i, j)
    requires forall s :: s != Slot0(d, i, j, k) ==> Target(m2, s) == Target(m1, s)
    ensures TablesKept(m0, m2, d, i, j)
  {
    hide Target, Page, UserDataDisjoint, DataKept, NotTable;
  }

  lemma UserDataSame(m: Mem, m': Mem)
    requires Shaped(m) && Shaped(m') && forall s :: Target(m', s) == Target(m, s)
    ensures UserDataDisjoint(m) ==> UserDataDisjoint(m')
  {
    if UserDataDisjoint(m) {
      UserDataAfterLeaf(m, m', 0, 2, 0, 0);
    }
  }
}
