/** Physical frames, reference counts and the page tables stored in the frames (kern/pmap.c).

    A directory is named by the variable that holds it (the `u_long *pgdir` of the source); the
    places from which a frame can be referenced are named by `Slot`s. The central invariant says
    that the count of a frame is the number of slots that reference it. */
module PhysMem {
  import opened Options
  import opened Sv39

  /** The counted places that can hold a reference to a frame. */
  datatype Slot =
    | RootSlot(d: nat)                        // *pgdir
    | Slot2(d: nat, i: nat)                   // entry i of the root
    | Slot1(d: nat, i: nat, j: nat)           // entry j of a level-1 table
    | Slot0(d: nat, i: nat, j: nat, k: nat)   // a leaf: entry k of a level-0 table

  /** Kernel memory state: the frames, pp_ref of every frame, page_free_list, and the directories. */
  datatype Mem = Mem(frames: seq<seq<Pte>>, refs: seq<nat>, free: seq<nat>, roots: map<nat, nat>)

  /** Root slots 2 and PENVS alias tables of base_pgdir and are not counted. */
  predicate IsShared(i: nat) { i == PKERN || i == PENVS }

  predicate IsTableSlot(s: Slot) { !s.Slot0? }

  predicate Shaped(m: Mem)
  {
    && |m.frames| == NPAGE
    && |m.refs| == NPAGE
    && (forall f :: 0 <= f < NPAGE ==> |m.frames[f]| == NPTE)
    && (forall d :: d in m.roots ==> m.roots[d] < NPAGE)
  }

  /* ---- What each slot references ---- */

  /** The frame that entry e of table frame t points at. */
  function Out(m: Mem, t: nat, e: nat): (r: Option<nat>)
    requires Shaped(m) && t < NPAGE && e < NPTE
    ensures r.Some? ==> r.value < NPAGE
  {
    var p := m.frames[t][e];
    if IsValid(p) && InRam(p) then Some(p.ppn - BASEPPN) else None
  }

  /** The table that entry e of table frame t points at: for the walk of the Sv39 hardware a valid entry
      points at a table only if it grants no access itself. */
  function Link(m: Mem, t: nat, e: nat): (r: Option<nat>)
    requires Shaped(m) && t < NPAGE && e < NPTE
    ensures r.Some? ==> r.value < NPAGE
  {
    if IsPointer(m.frames[t][e]) then Out(m, t, e) else None
  }

  function Root(m: Mem, d: nat): (r: Option<nat>)
    requires Shaped(m)
    ensures r.Some? ==> r.value < NPAGE
  {
    if d in m.roots then Some(m.roots[d]) else None
  }

  function Mid(m: Mem, d: nat, i: nat): (r: Option<nat>)
    requires Shaped(m)
    ensures r.Some? ==> r.value < NPAGE
  {
    var t := Root(m, d);
    if t.Some? && i < NPTE && !IsShared(i) then Link(m, t.value, i) else None
  }

  function Low(m: Mem, d: nat, i: nat, j: nat): (r: Option<nat>)
    requires Shaped(m)
    ensures r.Some? ==> r.value < NPAGE
  {
    var t := Mid(m, d, i);
    if t.Some? && j < NPTE then Link(m, t.value, j) else None
  }

  function Leaf(m: Mem, d: nat, i: nat, j: nat, k: nat): (r: Option<nat>)
    requires Shaped(m)
    ensures r.Some? ==> r.value < NPAGE
  {
    var t := Low(m, d, i, j);
    if t.Some? && k < NPTE then Out(m, t.value, k) else None
  }

  function Target(m: Mem, s: Slot): (r: Option<nat>)
    requires Shaped(m)
    ensures r.Some? ==> r.value < NPAGE
  {
    match s
    case RootSlot(d) => Root(m, d)
    case Slot2(d, i) => Mid(m, d, i)
    case Slot1(d, i, j) => Low(m, d, i, j)
    case Slot0(d, i, j, k) => Leaf(m, d, i, j, k)
  }

  /** The address space as a finite map: the valid leaf entry of page (i, j, k) of directory d. */
  function Page(m: Mem, d: nat, i: nat, j: nat, k: nat): Option<Pte>
    requires Shaped(m)
  {
    var t := Low(m, d, i, j);
    if t.Some? && k < NPTE && IsValid(m.frames[t.value][k]) then Some(m.frames[t.value][k]) else None
  }

  /** The map changes at one page and nowhere else. */
  ghost predicate PageUpdated(m: Mem, m': Mem, d: nat, i: nat, j: nat, k: nat, w: Option<Pte>)
    requires Shaped(m) && Shaped(m')
  {
    && Page(m', d, i, j, k) == w
    && forall x, a, b, c :: Slot0(x, a, b, c) != Slot0(d, i, j, k) ==> Page(m', x, a, b, c) == Page(m, x, a, b, c)
  }

  ghost predicate SamePages(m: Mem, m': Mem)
    requires Shaped(m) && Shaped(m')
  {
    forall x, a, b, c :: Page(m', x, a, b, c) == Page(m, x, a, b, c)
  }

  /* ---- Counting references ---- */

  predicate InRange(D: set<nat>, s: Slot)
  {
    match s
    case RootSlot(d) => d in D
    case Slot2(d, i) => d in D && i < NPTE
    case Slot1(d, i, j) => d in D && i < NPTE && j < NPTE
    case Slot0(d, i, j, k) => d in D && i < NPTE && j < NPTE && k < NPTE
  }

  ghost function AllSlots(D: set<nat>): set<Slot>
  {
    (set d | d in D :: RootSlot(d))
    + (set d, i | d in D && 0 <= i < NPTE :: Slot2(d, i))
    + (set d, i, j | d in D && 0 <= i < NPTE && 0 <= j < NPTE :: Slot1(d, i, j))
    + (set d, i, j, k | d in D && 0 <= i < NPTE && 0 <= j < NPTE && 0 <= k < NPTE :: Slot0(d, i, j, k))
  }

  lemma AllSlotsInRange(D: set<nat>, s: Slot)
    ensures s in AllSlots(D) <==> InRange(D, s)
  {
  }

  /** The slots outside X that reference frame f. */
  ghost function RefSet(m: Mem, X: set<Slot>, f: nat): set<Slot>
    requires Shaped(m)
  {
    set s | s in AllSlots(m.roots.Keys) && s !in X && Target(m, s) == Some(f)
  }

  lemma RefSetMember(m: Mem, X: set<Slot>, f: nat, s: Slot)
    requires Shaped(m)
    ensures s in RefSet(m, X, f) <==> s !in X && Target(m, s) == Some(f)
  {
    AllSlotsInRange(m.roots.Keys, s);
  }

  /* ---- The invariant ---- */

  /** pp_ref counts the references from slots outside X, on top of the fixed count pin[f] of the
      boot-time frames and base_pgdir. */
  ghost predicate Counted(m: Mem, pin: seq<nat>, X: set<Slot>)
    requires Shaped(m)
  {
    |pin| == NPAGE && forall f :: 0 <= f < NPAGE ==> m.refs[f] == pin[f] + |RefSet(m, X, f)|
  }

  /** The free list holds exactly the frames with count zero, once each, apart from those in P,
      which were just taken and are not linked yet. */
  ghost predicate FreeListOk(m: Mem, P: set<nat>)
    requires Shaped(m)
  {
    && Distinct(m.free)
    && (forall f :: f in m.free ==> f < NPAGE)
    && (forall f :: f in P ==> f < NPAGE && m.refs[f] == 0)
    && (forall f :: 0 <= f < NPAGE ==> (f in m.free <==> m.refs[f] == 0 && f !in P))
  }

  /** Each table frame is referenced from exactly one table slot: the tables form trees. */
  ghost predicate Trees(m: Mem)
    requires Shaped(m)
  {
    forall s, s' :: IsTableSlot(s) && IsTableSlot(s') && Target(m, s).Some? && Target(m, s) == Target(m, s')
      ==> s == s'
  }

  /** Every valid counted entry points at RAM, so the walk never leaves the modelled memory; above the leaves it is
      a pointer. */
  ghost predicate EntriesInRam(m: Mem)
    requires Shaped(m)
  {
    && (forall d, i :: d in m.roots && 0 <= i < NPTE && !IsShared(i) && IsValid(m.frames[m.roots[d]][i])
          ==> Mid(m, d, i).Some?)
    && (forall d, i, j :: 0 <= j < NPTE && Mid(m, d, i).Some? && IsValid(m.frames[Mid(m, d, i).value][j])
          ==> Low(m, d, i, j).Some?)
    && (forall d, i, j, k :: 0 <= k < NPTE && Low(m, d, i, j).Some? && IsValid(m.frames[Low(m, d, i, j).value][k])
          ==> Leaf(m, d, i, j, k).Some?)
  }

  /** The invariant in the middle of an operation: slots in X are not counted at the moment,
      frames in P are neither free nor referenced yet. */
  ghost predicate InvX(m: Mem, pin: seq<nat>, X: set<Slot>, P: set<nat>)
    ensures InvX(m, pin, X, P) ==> Shaped(m)
  {
    && Shaped(m)
    && Counted(m, pin, X)
    && FreeListOk(m, P)
    && Trees(m)
    && EntriesInRam(m)
  }

  /** The invariant between operations. */
  ghost predicate Inv(m: Mem, pin: seq<nat>) { InvX(m, pin, {}, {}) }

  /** Entry i of the root of directory d, as the hardware reads it. */
  predicate EntryIs(m: Mem, d: nat, i: nat, w: Pte)
    requires Shaped(m)
  {
    d in m.roots && i < NPTE && m.frames[m.roots[d]][i] == w
  }

  /* ---- The primitive updates ---- */

  function WritePte(m: Mem, t: nat, e: nat, w: Pte): (m': Mem)
    requires Shaped(m) && t < NPAGE && e < NPTE
    ensures Shaped(m')
  {
    m.(frames := m.frames[t := m.frames[t][e := w]])
  }

  function IncRef(m: Mem, f: nat): (m': Mem)
    requires Shaped(m) && f < NPAGE
    ensures Shaped(m')
  {
    m.(refs := m.refs[f := m.refs[f] + 1])
  }

  /** if (--pa2page(pa)->pp_ref == 0) page_free(pa2page(pa)) */
  function DecRef(m: Mem, f: nat): (m': Mem)
    requires Shaped(m) && f < NPAGE && m.refs[f] > 0
    ensures Shaped(m')
  {
    var m1 := m.(refs := m.refs[f := m.refs[f] - 1]);
    if m1.refs[f] == 0 then m1.(free := [f] + m1.free) else m1
  }

  /** page_alloc: take the first free frame and clear it. */
  function TakeFrame(m: Mem): (m': Mem)
    requires Shaped(m) && m.free != [] && m.free[0] < NPAGE
    ensures Shaped(m')
  {
    m.(free := m.free[1..], frames := m.frames[m.free[0] := ZeroFrame()])
  }

  function SetRoot(m: Mem, d: nat, g: nat): (m': Mem)
    requires Shaped(m) && g < NPAGE
    ensures Shaped(m')
  {
    m.(roots := m.roots[d := g])
  }

  function DropRoot(m: Mem, d: nat): (m': Mem)
    requires Shaped(m)
    ensures Shaped(m')
  {
    m.(roots := m.roots - {d})
  }

  /* ---- Consequences of the invariant ---- */

  /** A frame referenced from a counted slot is in use. */
  lemma Referenced(m: Mem, pin: seq<nat>, X: set<Slot>, P: set<nat>, s: Slot)
    requires InvX(m, pin, X, P)
    requires s !in X && Target(m, s).Some?
    ensures var f := Target(m, s).value; m.refs[f] > 0 && f !in m.free && f !in P
  {
    RefSetMember(m, X, Target(m, s).value, s);
  }

  /** A frame with count zero is not referenced from any counted slot. */
  lemma Unreferenced(m: Mem, pin: seq<nat>, X: set<Slot>, f: nat)
    requires Shaped(m) && Counted(m, pin, X) && f < NPAGE && m.refs[f] == 0
    ensures forall s :: s !in X ==> Target(m, s) != Some(f)
  {
    forall s | s !in X ensures Target(m, s) != Some(f) {
      RefSetMember(m, X, f, s);
    }
  }

  /* ---- Moving a slot in and out of the set X of uncounted slots ---- */

  lemma RefSetExclude(m: Mem, X: set<Slot>, s: Slot, f: nat)
    requires Shaped(m) && s !in X
    ensures |RefSet(m, X + {s}, f)| == |RefSet(m, X, f)| - (if Target(m, s) == Some(f) then 1 else 0)
  {
    RefSetMember(m, X, f, s);
    assert RefSet(m, X + {s}, f) == RefSet(m, X, f) - {s};
  }

  /** References do not change when the target of every slot outside X stays. */
  lemma RefSetSame(m: Mem, m': Mem, X: set<Slot>, f: nat)
    requires Shaped(m) && Shaped(m')
    requires forall s :: s !in X ==> Target(m', s) == Target(m, s)
    ensures RefSet(m', X, f) == RefSet(m, X, f)
  {
    forall s ensures s in RefSet(m', X, f) <==> s in RefSet(m, X, f) {
      RefSetMember(m, X, f, s);
      RefSetMember(m', X, f, s);
    }
  }

  /** A slot that references nothing can be left out of the count. */
  lemma SkipSlot(m: Mem, pin: seq<nat>, X: set<Slot>, P: set<nat>, s: Slot)
    requires InvX(m, pin, X, P)
    requires s !in X && Target(m, s) == None
    ensures InvX(m, pin, X + {s}, P)
  {
    hide Trees, EntriesInRam, RefSet;
    forall f | 0 <= f < NPAGE ensures m.refs[f] == pin[f] + |RefSet(m, X + {s}, f)| {
      RefSetExclude(m, X, s, f);
    }
  }

  /** ... and put back. */
  lemma RestoreSlot(m: Mem, pin: seq<nat>, X: set<Slot>, P: set<nat>, s: Slot)
    requires InvX(m, pin, X, P)
    requires s in X && Target(m, s) == None
    ensures InvX(m, pin, X - {s}, P)
  {
    hide Trees, EntriesInRam, RefSet;
    forall f | 0 <= f < NPAGE ensures m.refs[f] == pin[f] + |RefSet(m, X - {s}, f)| {
      RefSetExclude(m, X - {s}, s, f);
      assert X - {s} + {s} == X;
    }
  }

  /** Targets depend only on the frames and the roots. */
  lemma TargetsDependOnFrames(m: Mem, m': Mem)
    requires Shaped(m) && Shaped(m') && m'.frames == m.frames && m'.roots == m.roots
    ensures forall s :: Target(m', s) == Target(m, s)
    ensures Trees(m) ==> Trees(m')
    ensures EntriesInRam(m) ==> EntriesInRam(m')
    ensures SamePages(m, m')
  {
    assert forall d :: Root(m', d) == Root(m, d);
    assert forall d, i :: Mid(m', d, i) == Mid(m, d, i);
    assert forall d, i, j :: Low(m', d, i, j) == Low(m, d, i, j);
    assert forall d, i, j, k :: Leaf(m', d, i, j, k) == Leaf(m, d, i, j, k);
  }

  /** Dropping the count of a slot's target: afterwards the slot is stale and uncounted. */
  lemma DropCount(m: Mem, pin: seq<nat>, X: set<Slot>, P: set<nat>, s: Slot)
    requires InvX(m, pin, X, P)
    requires s !in X && Target(m, s).Some?
    ensures m.refs[Target(m, s).value] > 0
    ensures var m' := DecRef(m, Target(m, s).value);
            && InvX(m', pin, X + {s}, P)
            && (forall s' :: Target(m', s') == Target(m, s'))
  {
    hide Trees, EntriesInRam, RefSet;
    var g := Target(m, s).value;
    Referenced(m, pin, X, P, s);
    var m' := DecRef(m, g);
    TargetsDependOnFrames(m, m');
    forall f | 0 <= f < NPAGE ensures m'.refs[f] == pin[f] + |RefSet(m', X + {s}, f)| {
      RefSetExclude(m, X, s, f);
      RefSetSame(m, m', X + {s}, f);
    }
  }

  /** Raising the count of a slot's target makes the slot counted. */
  lemma AddCount(m: Mem, pin: seq<nat>, X: set<Slot>, P: set<nat>, s: Slot)
    requires InvX(m, pin, X, P)
    requires s in X && Target(m, s).Some?
    requires Target(m, s).value !in m.free
    ensures var m' := IncRef(m, Target(m, s).value);
            && InvX(m', pin, X - {s}, P - {Target(m, s).value})
            && (forall s' :: Target(m', s') == Target(m, s'))
  {
    hide Trees, EntriesInRam, RefSet;
    var g := Target(m, s).value;
    var m' := IncRef(m, g);
    TargetsDependOnFrames(m, m');
    forall f | 0 <= f < NPAGE ensures m'.refs[f] == pin[f] + |RefSet(m', X - {s}, f)| {
      RefSetExclude(m, X - {s}, s, f);
      assert X - {s} + {s} == X;
      RefSetSame(m, m', X - {s}, f);
    }
  }

  /* ---- How the writes change the targets ---- */

  /** Writing frames that no table slot references changes no target. */
  lemma NonTableWriteTargets(m: Mem, m': Mem, g: nat)
    requires Shaped(m) && Shaped(m') && m'.roots == m.roots && g < NPAGE
    requires forall t :: 0 <= t < NPAGE && t != g ==> m'.frames[t] == m.frames[t]
    requires forall s :: IsTableSlot(s) ==> Target(m, s) != Some(g)
    ensures forall s :: Target(m', s) == Target(m, s)
  {
    forall x ensures Root(m', x) == Root(m, x) && Root(m, x) != Some(g) {
      assert Target(m, RootSlot(x)) == Root(m, x);
    }
    forall x, a ensures Mid(m', x, a) == Mid(m, x, a) && Mid(m, x, a) != Some(g) {
      assert Target(m, Slot2(x, a)) == Mid(m, x, a);
    }
    forall x, a, b ensures Low(m', x, a, b) == Low(m, x, a, b) && Low(m, x, a, b) != Some(g) {
      assert Target(m, Slot1(x, a, b)) == Low(m, x, a, b);
    }
    forall x, a, b, c ensures Leaf(m', x, a, b, c) == Leaf(m, x, a, b, c) {
    }
  }

  lemma NonTableWrite(m: Mem, m': Mem, g: nat)
    requires Shaped(m) && Shaped(m') && m'.roots == m.roots && g < NPAGE
    requires forall t :: 0 <= t < NPAGE && t != g ==> m'.frames[t] == m.frames[t]
    requires forall s :: IsTableSlot(s) ==> Target(m, s) != Some(g)
    requires Trees(m) && EntriesInRam(m)
    ensures forall s :: Target(m', s) == Target(m, s)
    ensures Trees(m') && EntriesInRam(m')
  {
    NonTableWriteTargets(m, m', g);
    forall d, i | d in m'.roots && 0 <= i < NPTE && !IsShared(i) && IsValid(m'.frames[m'.roots[d]][i])
      ensures Mid(m', d, i).Some? {
      assert Target(m, RootSlot(d)) == Some(m.roots[d]);
      assert Target(m', Slot2(d, i)) == Target(m, Slot2(d, i));
    }
    forall d, i, j | 0 <= j < NPTE && Mid(m', d, i).Some? && IsValid(m'.frames[Mid(m', d, i).value][j])
      ensures Low(m', d, i, j).Some? {
      assert Target(m', Slot2(d, i)) == Target(m, Slot2(d, i));
      assert Target(m', Slot1(d, i, j)) == Target(m, Slot1(d, i, j));
    }
    forall d, i, j, k | 0 <= k < NPTE && Low(m', d, i, j).Some? && IsValid(m'.frames[Low(m', d, i, j).value][k])
      ensures Leaf(m', d, i, j, k).Some? {
      assert Target(m', Slot1(d, i, j)) == Target(m, Slot1(d, i, j));
      assert Target(m', Slot0(d, i, j, k)) == Target(m, Slot0(d, i, j, k));
    }
  }

  /** Writing a leaf entry changes the target of that leaf alone. */
  lemma LeafWriteTargets(m: Mem, d: nat, i: nat, j: nat, k: nat, w: Pte)
    requires Shaped(m) && Trees(m) && k < NPTE && Low(m, d, i, j).Some?
    ensures var m' := WritePte(m, Low(m, d, i, j).value, k, w);
            && (forall s :: s != Slot0(d, i, j, k) ==> Target(m', s) == Target(m, s))
            && Leaf(m', d, i, j, k) == if IsValid(w) && InRam(w) then Some(w.ppn - BASEPPN) else None
  {
    var t := Low(m, d, i, j).value;
    var m' := WritePte(m, t, k, w);
    assert Target(m, Slot1(d, i, j)) == Some(t);
    forall x ensures Root(m', x) == Root(m, x) && Root(m, x) != Some(t) {
      assert Target(m, RootSlot(x)) == Root(m, x);
    }
    forall x, a ensures Mid(m', x, a) == Mid(m, x, a) && Mid(m, x, a) != Some(t) {
      assert Target(m, Slot2(x, a)) == Mid(m, x, a);
    }
    forall x, a, b ensures Low(m', x, a, b) == Low(m, x, a, b)
                           && (Low(m, x, a, b) == Some(t) ==> x == d && a == i && b == j) {
      assert Target(m, Slot1(x, a, b)) == Low(m, x, a, b);
    }
    forall x, a, b, c | Slot0(x, a, b, c) != Slot0(d, i, j, k)
      ensures Leaf(m', x, a, b, c) == Leaf(m, x, a, b, c) {
    }
  }

  /** Writing an entry of a level-1 table changes that slot and the leaves below it. */
  lemma LowWriteTargets(m: Mem, d: nat, i: nat, j: nat, w: Pte)
    requires Shaped(m) && Trees(m) && j < NPTE && Mid(m, d, i).Some?
    ensures var m' := WritePte(m, Mid(m, d, i).value, j, w);
            && (forall s: Slot :: s != Slot1(d, i, j) && !(s.Slot0? && s.d == d && s.i == i && s.j == j)
                  ==> Target(m', s) == Target(m, s))
            && Low(m', d, i, j) == (if IsValid(w) && InRam(w) && IsPointer(w) then Some(w.ppn - BASEPPN) else None)
  {
    var t := Mid(m, d, i).value;
    var m' := WritePte(m, t, j, w);
    assert Target(m, Slot2(d, i)) == Some(t);
    forall x ensures Root(m', x) == Root(m, x) && Root(m, x) != Some(t) {
      assert Target(m, RootSlot(x)) == Root(m, x);
    }
    forall x, a ensures Mid(m', x, a) == Mid(m, x, a) && (Mid(m, x, a) == Some(t) ==> x == d && a == i) {
      assert Target(m, Slot2(x, a)) == Mid(m, x, a);
    }
    forall x, a, b | Slot1(x, a, b) != Slot1(d, i, j)
      ensures Low(m', x, a, b) == Low(m, x, a, b) && Low(m, x, a, b) != Some(t) {
      assert Target(m, Slot1(x, a, b)) == Low(m, x, a, b);
    }
    forall x, a, b, c | Slot1(x, a, b) != Slot1(d, i, j)
      ensures Leaf(m', x, a, b, c) == Leaf(m, x, a, b, c) {
    }
  }

  /** Writing an entry of a root changes that slot and everything below it. */
  lemma MidWriteTargets(m: Mem, d: nat, i: nat, w: Pte)
    requires Shaped(m) && Trees(m) && i < NPTE && d in m.roots
    ensures var m' := WritePte(m, m.roots[d], i, w);
            && (forall s: Slot :: s.RootSlot? || s.d != d || s.i != i ==> Target(m', s) == Target(m, s))
            && Mid(m', d, i) == (if IsValid(w) && InRam(w) && IsPointer(w) && !IsShared(i) then Some(w.ppn - BASEPPN)
                                 else None)
  {
    var t := m.roots[d];
    var m' := WritePte(m, t, i, w);
    assert Target(m, RootSlot(d)) == Some(t);
    forall x ensures Root(m', x) == Root(m, x) && (Root(m, x) == Some(t) ==> x == d) {
      assert Target(m, RootSlot(x)) == Root(m, x);
    }
    forall x, a | x != d || a != i
      ensures Mid(m', x, a) == Mid(m, x, a) && Mid(m, x, a) != Some(t) {
      assert Target(m, Slot2(x, a)) == Mid(m, x, a);
    }
    forall x, a, b | x != d || a != i
      ensures Low(m', x, a, b) == Low(m, x, a, b) && Low(m, x, a, b) != Some(t) {
      assert Target(m, Slot1(x, a, b)) == Low(m, x, a, b);
    }
    forall x, a, b, c | x != d || a != i
      ensures Leaf(m', x, a, b, c) == Leaf(m, x, a, b, c) {
    }
  }
}
