/** The single steps of the page-table code (take a frame, link it, write a leaf, clear an entry)
    and what each does to the reference counts and to the targets of the slots. */
module TableSteps {
  import opened Options
  import opened Sv39
  import opened PhysMem

  predicate OnlyLeaves(X: set<Slot>) { forall s :: s in X ==> s.Slot0? }

  /** page_alloc keeps the invariant; the new frame is pending and nothing counted refers to it. */
  lemma TakeFrameStep(m: Mem, pin: seq<nat>, X: set<Slot>, P: set<nat>)
    requires InvX(m, pin, X, P) && m.free != [] && OnlyLeaves(X)
    ensures m.free[0] < NPAGE
    ensures var m' := TakeFrame(m);
            && InvX(m', pin, X, P + {m.free[0]})
            && m'.refs[m.free[0]] == 0 && m.free[0] !in m'.free
            && (forall s :: Target(m', s) == Target(m, s))
            && (forall s :: s !in X ==> Target(m, s) != Some(m.free[0]))
            && SamePages(m, m')
  {
    var g := m.free[0];
    assert g in m.free;
    var m' := TakeFrame(m);
    Unreferenced(m, pin, X, g);
    NonTableWrite(m, m', g);
    forall x, a, b, c ensures Page(m', x, a, b, c) == Page(m, x, a, b, c) {
      assert Target(m', Slot1(x, a, b)) == Target(m, Slot1(x, a, b)) != Some(g);
    }
    forall f | 0 <= f < NPAGE ensures m'.refs[f] == pin[f] + |RefSet(m', X, f)| {
      RefSetSame(m, m', X, f);
    }
    assert m.free == [g] + m'.free;
    assert g !in m'.free by {
      assert forall a :: 0 <= a < |m'.free| ==> m'.free[a] == m.free[a + 1];
    }
    assert forall f :: f in m.free <==> f == g || f in m'.free;
  }

  /** Writing an uncounted leaf entry keeps the invariant. */
  lemma WriteLeafStep(m: Mem, pin: seq<nat>, X: set<Slot>, P: set<nat>, d: nat, i: nat, j: nat, k: nat, w: Pte)
    requires InvX(m, pin, X, P) && Slot0(d, i, j, k) in X
    requires k < NPTE && Low(m, d, i, j).Some? && (IsValid(w) ==> InRam(w))
    ensures var m' := WritePte(m, Low(m, d, i, j).value, k, w);
            && InvX(m', pin, X, P)
            && (forall s :: s != Slot0(d, i, j, k) ==> Target(m', s) == Target(m, s))
            && Leaf(m', d, i, j, k) == (if IsValid(w) then Some(w.ppn - BASEPPN) else None)
            && PageUpdated(m, m', d, i, j, k, if IsValid(w) then Some(w) else None)
  {
    var t := Low(m, d, i, j).value;
    var m' := WritePte(m, t, k, w);
    LeafWriteTargets(m, d, i, j, k, w);
    LeafWritePages(m, d, i, j, k, w);
    forall f | 0 <= f < NPAGE ensures m'.refs[f] == pin[f] + |RefSet(m', X, f)| {
      RefSetSame(m, m', X, f);
    }
    LeafWriteEntries(m, d, i, j, k, w);
  }

  lemma LeafWritePages(m: Mem, d: nat, i: nat, j: nat, k: nat, w: Pte)
    requires Shaped(m) && Trees(m) && k < NPTE && Low(m, d, i, j).Some?
    ensures PageUpdated(m, WritePte(m, Low(m, d, i, j).value, k, w), d, i, j, k, if IsValid(w) then Some(w) else None)
  {
    var t := Low(m, d, i, j).value;
    var m' := WritePte(m, t, k, w);
    LeafWriteTargets(m, d, i, j, k, w);
    assert Target(m, Slot1(d, i, j)) == Some(t);
    assert Target(m', Slot1(d, i, j)) == Some(t);
    forall x, a, b, c | Slot0(x, a, b, c) != Slot0(d, i, j, k)
      ensures Page(m', x, a, b, c) == Page(m, x, a, b, c) {
      assert Target(m', Slot1(x, a, b)) == Target(m, Slot1(x, a, b));
    }
  }

  lemma LeafWriteEntries(m: Mem, d: nat, i: nat, j: nat, k: nat, w: Pte)
    requires Shaped(m) && Trees(m) && EntriesInRam(m)
    requires k < NPTE && Low(m, d, i, j).Some? && (IsValid(w) ==> InRam(w))
    ensures var m' := WritePte(m, Low(m, d, i, j).value, k, w); Trees(m') && EntriesInRam(m')
  {
    var t := Low(m, d, i, j).value;
    var m' := WritePte(m, t, k, w);
    LeafWriteTargets(m, d, i, j, k, w);
    assert Target(m, Slot1(d, i, j)) == Some(t);
    forall x, a | x in m'.roots && 0 <= a < NPTE && !IsShared(a) && IsValid(m'.frames[m'.roots[x]][a])
      ensures Mid(m', x, a).Some? {
      assert Target(m, RootSlot(x)) == Some(m.roots[x]);
      assert Target(m', Slot2(x, a)) == Target(m, Slot2(x, a));
    }
    forall x, a, b | 0 <= b < NPTE && Mid(m', x, a).Some? && IsValid(m'.frames[Mid(m', x, a).value][b])
      ensures Low(m', x, a, b).Some? {
      assert Target(m', Slot2(x, a)) == Target(m, Slot2(x, a));
      assert Target(m', Slot1(x, a, b)) == Target(m, Slot1(x, a, b));
    }
    forall x, a, b, c | 0 <= c < NPTE && Low(m', x, a, b).Some? && IsValid(m'.frames[Low(m', x, a, b).value][c])
      ensures Leaf(m', x, a, b, c).Some? {
      assert Target(m', Slot1(x, a, b)) == Target(m, Slot1(x, a, b));
      if Slot0(x, a, b, c) != Slot0(d, i, j, k) {
        assert Target(m', Slot0(x, a, b, c)) == Target(m, Slot0(x, a, b, c));
      }
    }
  }

  /* ---- Linking a cleared frame as a new table ---- */

  /** A pending frame is the target of no slot at all, once the stale slot s targets nothing. */
  lemma PendingIsFresh(m: Mem, pin: seq<nat>, s: Slot, P: set<nat>, g: nat)
    requires InvX(m, pin, {s}, P) && g in P && Target(m, s) == None
    ensures forall s' :: Target(m, s') != Some(g)
  {
    Unreferenced(m, pin, {s}, g);
  }

  lemma LinkLowStep(m: Mem, pin: seq<nat>, P: set<nat>, d: nat, i: nat, j: nat, g: nat)
    requires InvX(m, pin, {Slot1(d, i, j)}, P)
    requires j < NPTE && Mid(m, d, i).Some? && Low(m, d, i, j) == None
    requires g in P && g < NPAGE && m.frames[g] == ZeroFrame()
    ensures var m' := WritePte(m, Mid(m, d, i).value, j, MkPte(g, 0));
            && InvX(m', pin, {Slot1(d, i, j)}, P)
            && (forall s :: s != Slot1(d, i, j) ==> Target(m', s) == Target(m, s))
            && Low(m', d, i, j) == Some(g)
            && SamePages(m, m')
  {
    var s0 := Slot1(d, i, j);
    var t := Mid(m, d, i).value;
    var m' := WritePte(m, t, j, MkPte(g, 0));
    PendingIsFresh(m, pin, s0, P, g);
    assert Target(m, Slot2(d, i)) == Some(t);
    LinkLowTargets(m, d, i, j, g);
    forall f | 0 <= f < NPAGE ensures m'.refs[f] == pin[f] + |RefSet(m', {s0}, f)| {
      RefSetSame(m, m', {s0}, f);
    }
    LinkedEntries(m, m', t, s0, g);
    TableWritePages(m, m', t, s0, Slot2(d, i));
  }

  lemma LinkLowTargets(m: Mem, d: nat, i: nat, j: nat, g: nat)
    requires Shaped(m) && Trees(m) && j < NPTE && Mid(m, d, i).Some? && Low(m, d, i, j) == None
    requires g < NPAGE && Mid(m, d, i) != Some(g) && m.frames[g] == ZeroFrame()
    ensures var m' := WritePte(m, Mid(m, d, i).value, j, MkPte(g, 0));
            && (forall s :: s != Slot1(d, i, j) ==> Target(m', s) == Target(m, s))
            && Low(m', d, i, j) == Some(g)
  {
    var m' := WritePte(m, Mid(m, d, i).value, j, MkPte(g, 0));
    LowWriteTargets(m, d, i, j, MkPte(g, 0));
    forall s | s != Slot1(d, i, j) ensures Target(m', s) == Target(m, s) {
      if s.Slot0? && s.d == d && s.i == i && s.j == j {
        assert m'.frames[g] == ZeroFrame();
      }
    }
  }

  lemma LinkMidStep(m: Mem, pin: seq<nat>, P: set<nat>, d: nat, i: nat, g: nat)
    requires InvX(m, pin, {Slot2(d, i)}, P)
    requires i < NPTE && !IsShared(i) && d in m.roots && Mid(m, d, i) == None
    requires g in P && g < NPAGE && m.frames[g] == ZeroFrame()
    ensures var m' := WritePte(m, m.roots[d], i, MkPte(g, 0));
            && InvX(m', pin, {Slot2(d, i)}, P)
            && (forall s :: s != Slot2(d, i) ==> Target(m', s) == Target(m, s))
            && Mid(m', d, i) == Some(g)
            && SamePages(m, m')
  {
    var s0 := Slot2(d, i);
    var t := m.roots[d];
    var m' := WritePte(m, t, i, MkPte(g, 0));
    PendingIsFresh(m, pin, s0, P, g);
    assert Target(m, RootSlot(d)) == Some(t);
    LinkMidTargets(m, d, i, g);
    forall f | 0 <= f < NPAGE ensures m'.refs[f] == pin[f] + |RefSet(m', {s0}, f)| {
      RefSetSame(m, m', {s0}, f);
    }
    LinkedEntries(m, m', t, s0, g);
    TableWritePages(m, m', t, s0, RootSlot(d));
  }

  lemma LinkMidTargets(m: Mem, d: nat, i: nat, g: nat)
    requires Shaped(m) && Trees(m) && i < NPTE && !IsShared(i) && d in m.roots && Mid(m, d, i) == None
    requires g < NPAGE && g != m.roots[d] && m.frames[g] == ZeroFrame()
    ensures var m' := WritePte(m, m.roots[d], i, MkPte(g, 0));
            && (forall s :: s != Slot2(d, i) ==> Target(m', s) == Target(m, s))
            && Mid(m', d, i) == Some(g)
  {
    var m' := WritePte(m, m.roots[d], i, MkPte(g, 0));
    MidWriteTargets(m, d, i, MkPte(g, 0));
    assert m'.frames[g] == ZeroFrame();
    forall s | s != Slot2(d, i) ensures Target(m', s) == Target(m, s) {
      if (s.Slot1? || s.Slot0?) && s.d == d && s.i == i {
        assert Low(m, d, i, s.j) == None && Low(m', d, i, s.j) == None;
      }
    }
  }

  lemma LinkRootStep(m: Mem, pin: seq<nat>, P: set<nat>, d: nat, g: nat)
    requires InvX(m, pin, {RootSlot(d)}, P)
    requires d !in m.roots
    requires g in P && g < NPAGE && m.frames[g] == ZeroFrame()
    ensures var m' := SetRoot(m, d, g);
            && InvX(m', pin, {RootSlot(d)}, P)
            && (forall s :: s != RootSlot(d) ==> Target(m', s) == Target(m, s))
            && Root(m', d) == Some(g)
            && SamePages(m, m')
  {
    var s0 := RootSlot(d);
    var m' := SetRoot(m, d, g);
    PendingIsFresh(m, pin, s0, P, g);
    RootTargets(m, m', d);
    RootPages(m, m');
    forall f | 0 <= f < NPAGE ensures m'.refs[f] == pin[f] + |RefSet(m', {s0}, f)| {
      RefSetSame(m, m', {s0}, f);
    }
    RootEntries(m, m', d);
  }

  /** Changing the root of a directory without entries changes no other target. */
  lemma RootTargets(m: Mem, m': Mem, d: nat)
    requires Shaped(m) && Shaped(m') && m'.frames == m.frames
    requires forall x :: x != d ==> Root(m', x) == Root(m, x)
    requires forall i :: Mid(m, d, i) == None
    requires d in m'.roots ==> forall i :: Mid(m', d, i) == None
    ensures forall s :: s != RootSlot(d) ==> Target(m', s) == Target(m, s)
  {
    forall x, a ensures Mid(m', x, a) == Mid(m, x, a) {
      assert x != d ==> Root(m', x) == Root(m, x);
    }
    assert forall x, a, b :: Low(m', x, a, b) == Low(m, x, a, b);
    assert forall x, a, b, c :: Leaf(m', x, a, b, c) == Leaf(m, x, a, b, c);
  }

  lemma RootPages(m: Mem, m': Mem)
    requires Shaped(m) && Shaped(m') && m'.frames == m.frames
    requires forall s: Slot :: !s.RootSlot? ==> Target(m', s) == Target(m, s)
    ensures SamePages(m, m')
  {
    forall x, a, b, c ensures Page(m', x, a, b, c) == Page(m, x, a, b, c) {
      assert Target(m', Slot1(x, a, b)) == Target(m, Slot1(x, a, b));
    }
  }

  /** Changing the root of a directory without entries keeps the other entries in RAM. */
  lemma RootEntries(m: Mem, m': Mem, d: nat)
    requires Shaped(m) && Shaped(m') && EntriesInRam(m) && m'.frames == m.frames
    requires forall x :: x != d ==> Root(m', x) == Root(m, x)
    requires forall s: Slot :: !s.RootSlot? ==> Target(m', s) == Target(m, s)
    requires d in m'.roots ==> EmptyTable(m', m'.roots[d])
    ensures EntriesInRam(m')
  {
    forall x, a | x in m'.roots && 0 <= a < NPTE && !IsShared(a) && IsValid(m'.frames[m'.roots[x]][a])
      ensures Mid(m', x, a).Some? {
      assert Root(m', x) == Root(m, x);
      assert Target(m', Slot2(x, a)) == Target(m, Slot2(x, a));
    }
    forall x, a, b | 0 <= b < NPTE && Mid(m', x, a).Some? && IsValid(m'.frames[Mid(m', x, a).value][b])
      ensures Low(m', x, a, b).Some? {
      assert Target(m', Slot2(x, a)) == Target(m, Slot2(x, a));
      assert Target(m', Slot1(x, a, b)) == Target(m, Slot1(x, a, b));
    }
    forall x, a, b, c | 0 <= c < NPTE && Low(m', x, a, b).Some? && IsValid(m'.frames[Low(m', x, a, b).value][c])
      ensures Leaf(m', x, a, b, c).Some? {
      assert Target(m', Slot1(x, a, b)) == Target(m, Slot1(x, a, b));
      assert Target(m', Slot0(x, a, b, c)) == Target(m, Slot0(x, a, b, c));
    }
  }

  /** Writing an entry of a root or level-1 table maps and unmaps no page, as long as the table
      that the entry named before, and the one it names now, hold no valid entry. */
  lemma TableWritePages(m: Mem, m': Mem, t: nat, s0: Slot, parent: Slot)
    requires Shaped(m) && Shaped(m') && Trees(m) && t < NPAGE
    requires s0.Slot2? || s0.Slot1?
    requires forall s :: s != s0 ==> Target(m', s) == Target(m, s)
    requires forall f :: 0 <= f < NPAGE && f != t ==> m'.frames[f] == m.frames[f]
    requires (parent.RootSlot? || parent.Slot2?) && Target(m, parent) == Some(t)
    requires Target(m, s0).Some? && s0.Slot1? ==> EmptyTable(m, Target(m, s0).value)
    requires Target(m', s0).Some? && s0.Slot1? ==> EmptyTable(m', Target(m', s0).value)
    ensures SamePages(m, m')
  {
    forall x, a, b, c ensures Page(m', x, a, b, c) == Page(m, x, a, b, c) {
      assert Target(m, Slot1(x, a, b)) != Some(t);
      if Slot1(x, a, b) != s0 {
        assert Target(m', Slot1(x, a, b)) == Target(m, Slot1(x, a, b));
      } else {
        assert Target(m, s0) == Low(m, x, a, b) && Target(m', s0) == Low(m', x, a, b);
      }
    }
  }

  /** Linking the cleared frame g at table slot s0 (an entry of table t) keeps the tables trees. */
  lemma LinkedEntries(m: Mem, m': Mem, t: nat, s0: Slot, g: nat)
    requires Shaped(m) && Shaped(m') && Trees(m) && EntriesInRam(m) && m'.roots == m.roots
    requires IsTableSlot(s0) && !s0.RootSlot? && t < NPAGE && g < NPAGE && t != g
    requires m'.frames[g] == ZeroFrame()
    requires Target(m', s0) == Some(g) && Target(m, s0) == None
    requires forall s :: s != s0 ==> Target(m', s) == Target(m, s)
    requires forall s :: Target(m, s) != Some(g)
    requires forall f :: 0 <= f < NPAGE && f != t ==> m'.frames[f] == m.frames[f]
    requires exists e :: 0 <= e < NPTE && m'.frames[t] == m.frames[t][e := m'.frames[t][e]] && SlotEntry(m, s0, t, e)
    ensures Trees(m') && EntriesInRam(m')
  {
    var e :| 0 <= e < NPTE && m'.frames[t] == m.frames[t][e := m'.frames[t][e]] && SlotEntry(m, s0, t, e);
    forall x, a | x in m'.roots && 0 <= a < NPTE && !IsShared(a) && IsValid(m'.frames[m'.roots[x]][a])
      ensures Mid(m', x, a).Some? {
      assert Target(m, RootSlot(x)) == Some(m.roots[x]);
      assert Slot2(x, a) != s0 ==> Target(m', Slot2(x, a)) == Target(m, Slot2(x, a));
    }
    forall x, a, b | 0 <= b < NPTE && Mid(m', x, a).Some? && IsValid(m'.frames[Mid(m', x, a).value][b])
      ensures Low(m', x, a, b).Some? {
      assert Slot2(x, a) != s0 ==> Target(m', Slot2(x, a)) == Target(m, Slot2(x, a));
      assert Slot1(x, a, b) != s0 ==> Target(m', Slot1(x, a, b)) == Target(m, Slot1(x, a, b));
    }
    forall x, a, b, c | 0 <= c < NPTE && Low(m', x, a, b).Some? && IsValid(m'.frames[Low(m', x, a, b).value][c])
      ensures Leaf(m', x, a, b, c).Some? {
      assert Slot1(x, a, b) != s0 ==> Target(m', Slot1(x, a, b)) == Target(m, Slot1(x, a, b));
      assert Target(m', Slot0(x, a, b, c)) == Target(m, Slot0(x, a, b, c));
    }
  }

  /** Entry e of table t is the memory behind slot s. */
  ghost predicate SlotEntry(m: Mem, s: Slot, t: nat, e: nat)
    requires Shaped(m)
  {
    match s
    case RootSlot(d) => false
    case Slot2(d, i) => Root(m, d) == Some(t) && i == e
    case Slot1(d, i, j) => Mid(m, d, i) == Some(t) && j == e
    case Slot0(d, i, j, k) => Low(m, d, i, j) == Some(t) && k == e
  }

  /* ---- Clearing an entry whose table is empty ---- */

  ghost predicate EmptyTable(m: Mem, t: nat)
    requires Shaped(m) && t < NPAGE
  {
    forall e :: 0 <= e < NPTE ==> !IsValid(m.frames[t][e])
  }

  lemma UnlinkLowStep(m: Mem, pin: seq<nat>, X: set<Slot>, P: set<nat>, d: nat, i: nat, j: nat)
    requires InvX(m, pin, X, P) && Slot1(d, i, j) in X
    requires Low(m, d, i, j).Some? && EmptyTable(m, Low(m, d, i, j).value)
    ensures j < NPTE && Mid(m, d, i).Some?
    ensures var m' := WritePte(m, Mid(m, d, i).value, j, ZeroPte);
            && InvX(m', pin, X, P)
            && (forall s :: s != Slot1(d, i, j) ==> Target(m', s) == Target(m, s))
            && Low(m', d, i, j) == None
            && SamePages(m, m')
  {
    var s0 := Slot1(d, i, j);
    var t := Mid(m, d, i).value;
    var m' := WritePte(m, t, j, ZeroPte);
    assert Target(m, Slot2(d, i)) == Some(t);
    LowWriteTargets(m, d, i, j, ZeroPte);
    forall s | s != s0 ensures Target(m', s) == Target(m, s) {
    }
    forall f | 0 <= f < NPAGE ensures m'.refs[f] == pin[f] + |RefSet(m', X, f)| {
      RefSetSame(m, m', X, f);
    }
    UnlinkedEntries(m, m', t, s0, j);
    TableWritePages(m, m', t, s0, Slot2(d, i));
  }

  lemma UnlinkMidStep(m: Mem, pin: seq<nat>, X: set<Slot>, P: set<nat>, d: nat, i: nat)
    requires InvX(m, pin, X, P) && Slot2(d, i) in X
    requires Mid(m, d, i).Some? && EmptyTable(m, Mid(m, d, i).value)
    ensures i < NPTE && d in m.roots
    ensures var m' := WritePte(m, m.roots[d], i, ZeroPte);
            && InvX(m', pin, X, P)
            && (forall s :: s != Slot2(d, i) ==> Target(m', s) == Target(m, s))
            && Mid(m', d, i) == None
            && SamePages(m, m')
  {
    var s0 := Slot2(d, i);
    var t := m.roots[d];
    var m' := WritePte(m, t, i, ZeroPte);
    assert Target(m, RootSlot(d)) == Some(t);
    MidWriteTargets(m, d, i, ZeroPte);
    forall s | s != s0 ensures Target(m', s) == Target(m, s) {
      if (s.Slot1? || s.Slot0?) && s.d == d && s.i == i {
        assert Low(m, d, i, s.j) == None && Low(m', d, i, s.j) == None;
      }
    }
    forall f | 0 <= f < NPAGE ensures m'.refs[f] == pin[f] + |RefSet(m', X, f)| {
      RefSetSame(m, m', X, f);
    }
    UnlinkedEntries(m, m', t, s0, i);
    TableWritePages(m, m', t, s0, RootSlot(d));
  }

  lemma UnlinkedEntries(m: Mem, m': Mem, t: nat, s0: Slot, e: nat)
    requires Shaped(m) && Shaped(m') && Trees(m) && EntriesInRam(m) && t < NPAGE && e < NPTE
    requires m' == WritePte(m, t, e, ZeroPte)
    requires Target(m', s0) == None && (s0.Slot2? || s0.Slot1?)
    requires forall s :: s != s0 ==> Target(m', s) == Target(m, s)
    ensures Trees(m') && EntriesInRam(m')
  {
    forall x, a | x in m'.roots && 0 <= a < NPTE && !IsShared(a) && IsValid(m'.frames[m'.roots[x]][a])
      ensures Mid(m', x, a).Some? {
      assert Slot2(x, a) != s0 ==> Target(m', Slot2(x, a)) == Target(m, Slot2(x, a));
    }
    forall x, a, b | 0 <= b < NPTE && Mid(m', x, a).Some? && IsValid(m'.frames[Mid(m', x, a).value][b])
      ensures Low(m', x, a, b).Some? {
      assert Target(m', Slot2(x, a)) == Target(m, Slot2(x, a));
      assert Slot1(x, a, b) != s0 ==> Target(m', Slot1(x, a, b)) == Target(m, Slot1(x, a, b));
    }
    forall x, a, b, c | 0 <= c < NPTE && Low(m', x, a, b).Some? && IsValid(m'.frames[Low(m', x, a, b).value][c])
      ensures Leaf(m', x, a, b, c).Some? {
      assert Target(m', Slot1(x, a, b)) == Target(m, Slot1(x, a, b));
      assert Target(m', Slot0(x, a, b, c)) == Target(m, Slot0(x, a, b, c));
    }
  }

  /** Forgetting a root whose own entries are all clear. */
  lemma UnlinkRootStep(m: Mem, pin: seq<nat>, X: set<Slot>, P: set<nat>, d: nat)
    requires InvX(m, pin, X, P) && RootSlot(d) in X && d in m.roots
    requires forall i :: Mid(m, d, i) == None
    ensures var m' := DropRoot(m, d);
            && InvX(m', pin, X, P)
            && (forall s :: s != RootSlot(d) ==> Target(m', s) == Target(m, s))
            && Root(m', d) == None
            && SamePages(m, m')
  {
    var s0 := RootSlot(d);
    var m' := DropRoot(m, d);
    RootTargets(m, m', d);
    RootPages(m, m');
    forall f | 0 <= f < NPAGE ensures m'.refs[f] == pin[f] + |RefSet(m', X, f)| {
      RefSetSame(m, m', X, f);
    }
    RootEntries(m, m', d);
  }
}
