/** Copy-on-write fork (user/lib/fork.c, and the page-fault dispatch of kern/exception.c) as a machine
    whose steps are single stores, single system calls and single copied bytes, in any interleaving.

    A page is a virtual page of an env; a mapping is its frame and the flags of its entry. */
module CowFork {
  import opened Options
  import opened Sv39

  type Content = seq<bv8>

  datatype Place = Place(env: nat, vpn: nat)
  datatype Mapping = Mapping(frame: nat, perm: bv10)

  /** Where an env is in fork: between pages, after reading the flags of page v, or after mapping page v
      into the child but not yet again into itself. */
  datatype ForkPhase =
    | NoFork
    | Loop(child: nat, next: nat)
    | GotPerm(child: nat, v: nat, perm: bv10)
    | FirstMapped(child: nat, v: nat, perm: bv10)

  /** Where an env is in cow_entry; ucow is the frame mapped at UCOW. */
  datatype CowPhase =
    | NoCow
    | Fault(v: nat)
    | Copying(v: nat, perm: bv10, ucow: nat, done: nat)
    | Remapped(v: nat, ucow: nat)

  /** While an env is in fork, frames are the pages of the stack on which the frames of duppage and of the system call
      wrapper lie. */
  datatype Proc = Proc(started: bool, fork: ForkPhase, cow: CowPhase, frames: set<nat>)

  datatype State = State(pages: map<Place, Mapping>, mem: map<nat, Content>, procs: map<nat, Proc>)

  /** Virtual page numbers of UTEMP, UCOW and USTACKTOP. */
  const UTEMP_VPN: nat := 0x3fe
  const UCOW_VPN: nat := 0x3ff
  const USTACK_VPN: nat := 0x7fffe
  const UTOP_VPN: nat := 0x8_0000

  /* ---- Flags ---- */

  predicate Has(perm: bv10, flag: bv10) { perm & flag != 0 }

  /** A store of user code goes through. */
  predicate Writable(m: Mapping) { Has(m.perm, PTE_W) && Has(m.perm, PTE_U) }

  predicate IsLib(m: Mapping) { Has(m.perm, PTE_LIBRARY) }

  predicate IsCow(m: Mapping) { Has(m.perm, PTE_COW) && !Has(m.perm, PTE_W) }

  /** (perm | PTE_COW) & ~PTE_W */
  function Cowed(perm: bv10): bv10 { (perm | PTE_COW) & !PTE_W }

  /** perm & ~PTE_COW | PTE_R | PTE_W | PTE_U */
  function Uncowed(perm: bv10): bv10 { (perm & !PTE_COW) | PTE_R | PTE_W | PTE_U }

  /** The flags that sys_mem_map and sys_mem_alloc store. */
  function Entry(frame: nat, perm: bv10): Mapping { Mapping(frame, perm | PTE_V) }

  lemma Flags(frame: nat, perm: bv10)
    ensures var m := Entry(frame, Cowed(perm));
            IsCow(m) && !Writable(m) && (IsLib(m) <==> Has(perm, PTE_LIBRARY))
    ensures var m := Entry(frame, Uncowed(perm)); Writable(m) && (IsLib(m) <==> Has(perm, PTE_LIBRARY))
    ensures var m := Entry(frame, perm);
            && (Writable(m) <==> Has(perm, PTE_W) && Has(perm, PTE_U)) && (IsLib(m) <==> Has(perm, PTE_LIBRARY))
            && (IsCow(m) <==> Has(perm, PTE_COW) && !Has(perm, PTE_W))
  {
  }

  /** Marking a page copy-on-write changes PTE_COW and PTE_W alone, and undoing it sets PTE_R, PTE_W and PTE_U, clears
      PTE_COW and changes no other flag. */
  lemma OtherFlagsStay(perm: bv10, flag: bv10)
    ensures flag & (PTE_COW | PTE_W) == 0 ==> Cowed(perm) & flag == perm & flag
    ensures Has(Cowed(perm), PTE_COW) && !Has(Cowed(perm), PTE_W)
    ensures flag & (PTE_COW | PTE_R | PTE_W | PTE_U) == 0 ==> Uncowed(perm) & flag == perm & flag
    ensures Has(Uncowed(perm), PTE_R) && Has(Uncowed(perm), PTE_W) && Has(Uncowed(perm), PTE_U)
    ensures !Has(Uncowed(perm), PTE_COW)
  {
  }

  /* ---- Steps ---- */

  datatype Action =
    | Store(e: nat, v: nat, off: nat, b: bv8)
    | Touch(e: nat, v: nat, frame: nat)
    | MemAlloc(e: nat, v: nat, perm: bv10, frame: nat)
    | MemUnmap(e: nat, v: nat)
    | Exit(e: nat)
    | Exofork(e: nat, child: nat, frames: set<nat>)
    | DupSkip(e: nat)
    | DupRead(e: nat)
    | DupMap(e: nat)
    | DupRemap(e: nat)
    | StartChild(e: nat)
    | CowAlloc(e: nat, frame: nat)
    | CowCopy(e: nat)
    | CowMap(e: nat)
    | CowUnmap(e: nat)

  /** page_alloc gives a frame that nothing maps (module Pmap). */
  ghost predicate Unused(s: State, f: nat)
  {
    && (forall p :: p in s.pages ==> s.pages[p].frame != f)
    && (forall e :: e in s.procs && s.procs[e].cow.Copying? ==> s.procs[e].cow.ucow != f)
  }

  predicate UserPage(v: nat) { v < UTOP_VPN && v != UCOW_VPN }

  predicate StackPage(v: nat) { UTEMP_VPN <= v < USTACK_VPN && v != UCOW_VPN }

  predicate LegalVpn(v: nat) { UTEMP_VPN <= v < UTOP_VPN }

  /** User code of env e is running, outside cow_entry. */
  predicate Running(s: State, e: nat)
  {
    e in s.procs && s.procs[e].started && s.procs[e].cow.NoCow?
  }

  /** When a step can happen. Stores go to pages that are writable, or copy-on-write and private. Between reading the
      flags of a page and mapping it, fork only stores to its frames; and when it calls the kernel to map the page,
      it has stored to all of them, so that they are writable. */
  ghost predicate Possible(s: State, a: Action)
  {
    match a
    case Store(e, v, off, b) =>
      && Running(s, e) && Place(e, v) in s.pages && off < PAGE_SIZE
      && (var m := s.pages[Place(e, v)]; Writable(m) || (IsCow(m) && !IsLib(m)))
      && (s.procs[e].fork.GotPerm? ==> v in s.procs[e].frames)
    case Touch(e, v, f) => Running(s, e) && UserPage(v) && Place(e, v) !in s.pages && Unused(s, f)
    case MemAlloc(e, v, perm, f) =>
      Running(s, e) && UserPage(v) && LegalVpn(v) && s.procs[e].fork.NoFork? && Unused(s, f)
    case MemUnmap(e, v) => Running(s, e) && UserPage(v) && LegalVpn(v) && s.procs[e].fork.NoFork?
    case Exit(e) => Running(s, e) && s.procs[e].fork.NoFork?
    case Exofork(e, c, fs) => Running(s, e) && s.procs[e].fork.NoFork? && c !in s.procs && forall v :: v in fs ==>
      StackPage(v)
    case DupSkip(e) => Looping(s, e) && s.procs[e].fork.next < USTACK_VPN && Place(e, s.procs[e].fork.next) !in s.pages
    case DupRead(e) => Looping(s, e) && s.procs[e].fork.next < USTACK_VPN && Place(e, s.procs[e].fork.next) in s.pages
    case DupMap(e) =>
      && Running(s, e) && s.procs[e].fork.GotPerm? && Place(e, s.procs[e].fork.v) in s.pages
      && forall v :: v in s.procs[e].frames ==> Place(e, v) in s.pages && Writable(s.pages[Place(e, v)])
    case DupRemap(e) => Running(s, e) && s.procs[e].fork.FirstMapped? && Place(e, s.procs[e].fork.v) in s.pages
    case StartChild(e) => Looping(s, e) && s.procs[e].fork.next == USTACK_VPN && s.procs[e].fork.child in s.procs
    case CowAlloc(e, f) => Handling(s, e) && s.procs[e].cow.Fault? && Unused(s, f)
    case CowCopy(e) => Handling(s, e) && s.procs[e].cow.Copying? && s.procs[e].cow.done < PAGE_SIZE
    case CowMap(e) => Handling(s, e) && s.procs[e].cow.Copying? && s.procs[e].cow.done == PAGE_SIZE
    case CowUnmap(e) => e in s.procs && s.procs[e].cow.Remapped?
  }

  /** A page that cow_entry copies when its env stores to it. */
  predicate CowAt(s: State, e: nat, v: nat)
  {
    Place(e, v) in s.pages && IsCow(s.pages[Place(e, v)]) && !IsLib(s.pages[Place(e, v)])
  }

  /** fork comes to a page that is mapped before it comes to a copy-on-write page of its frames. */
  ghost predicate ForkSafe(s: State, e: nat, frames: set<nat>)
  {
    forall v :: v in frames && CowAt(s, e, v) ==> exists w: nat :: w < v && Place(e, w) in s.pages
  }

  /** The steps that the claim covers. A program meets the condition on fork as soon as its text, which begins at
      0x400000, lies below its stack. */
  ghost predicate Enabled(s: State, a: Action)
    ensures Enabled(s, a) ==> Possible(s, a)
  {
    Possible(s, a) && (a.Exofork? ==> ForkSafe(s, a.e, a.frames))
  }

  /** Steps in which no store goes to a copy-on-write page whose flags fork has just read and not used yet. */
  ghost predicate Guarded(s: State, a: Action)
    ensures Guarded(s, a) ==> Possible(s, a)
  {
    Possible(s, a) && (a.Store? ==> !StoreInGap(s, a.e, a.v))
  }

  predicate Looping(s: State, e: nat) { Running(s, e) && s.procs[e].fork.Loop? }

  predicate Handling(s: State, e: nat)
  {
    e in s.procs && (s.procs[e].cow.Fault? || s.procs[e].cow.Copying?) && Place(e, s.procs[e].cow.v) in s.pages
  }

  /** fork has read the flags of page v, found it copy-on-write, and has not mapped it yet. */
  predicate StoreInGap(s: State, e: nat, v: nat)
    requires e in s.procs
  {
    var f := s.procs[e].fork;
    f.GotPerm? && f.v == v && !Has(f.perm, PTE_W)
  }

  function SetFork(s: State, e: nat, f: ForkPhase): State
    requires e in s.procs
  {
    s.(procs := s.procs[e := s.procs[e].(fork := f)])
  }

  function SetCow(s: State, e: nat, c: CowPhase): State
    requires e in s.procs
  {
    s.(procs := s.procs[e := s.procs[e].(cow := c)])
  }

  function MapPage(s: State, p: Place, m: Mapping): State { s.(pages := s.pages[p := m]) }

  function Write(c: Content, off: nat, b: bv8): Content { if off < |c| then c[off := b] else c }

  /** Flags that duppage gives to the child's mapping. */
  function ChildPerm(perm: bv10): bv10
  {
    if Has(perm, PTE_U) && Has(perm, PTE_W) && !Has(perm, PTE_LIBRARY) then Cowed(perm) else perm
  }

  predicate TwoMaps(perm: bv10) { Has(perm, PTE_U) && Has(perm, PTE_W) && !Has(perm, PTE_LIBRARY) }

  ghost function Step(s: State, a: Action): State
    requires Possible(s, a) && Closed(s)
  {
    match a
    case Store(e, v, off, b) =>
      var m := s.pages[Place(e, v)];
      if Writable(m) then s.(mem := s.mem[m.frame := Write(s.mem[m.frame], off, b)]) else SetCow(s, e, Fault(v))
    case Touch(e, v, f) =>
      MapPage(s.(mem := s.mem[f := ZeroBytes()]), Place(e, v), Entry(f, PTE_R | PTE_W | PTE_U))
    case MemAlloc(e, v, perm, f) => MapPage(s.(mem := s.mem[f := ZeroBytes()]), Place(e, v), Entry(f, perm))
    case MemUnmap(e, v) => s.(pages := s.pages - {Place(e, v)})
    case Exit(e) => State(map p | p in s.pages && p.env != e :: s.pages[p], s.mem, s.procs - {e})
    case Exofork(e, c, fs) =>
      s.(procs := s.procs[e := s.procs[e].(fork := Loop(c, 0), frames := fs)][c := Proc(false, NoFork, NoCow, {})])
    case DupSkip(e) => SetFork(s, e, s.procs[e].fork.(next := s.procs[e].fork.next + 1))
    case DupRead(e) =>
      var f := s.procs[e].fork;
      SetFork(s, e, GotPerm(f.child, f.next, s.pages[Place(e, f.next)].perm))
    case DupMap(e) =>
      var f := s.procs[e].fork;
      if !LegalVpn(f.v) then SetFork(s, e, Loop(f.child, f.v + 1)) else
      var s1 := MapPage(s, Place(f.child, f.v), Entry(s.pages[Place(e, f.v)].frame, ChildPerm(f.perm)));
      SetFork(s1, e, if TwoMaps(f.perm) then FirstMapped(f.child, f.v, f.perm) else Loop(f.child, f.v + 1))
    case DupRemap(e) =>
      var f := s.procs[e].fork;
      var s1 := MapPage(s, Place(e, f.v), Entry(s.pages[Place(e, f.v)].frame, Cowed(f.perm)));
      SetFork(s1, e, Loop(f.child, f.v + 1))
    case StartChild(e) =>
      var c := s.procs[e].fork.child;
      s.(procs := s.procs[e := s.procs[e].(fork := NoFork)][c := s.procs[c].(started := true)])
    case CowAlloc(e, f) =>
      var v := s.procs[e].cow.v;
      SetCow(s.(mem := s.mem[f := ZeroBytes()]), e, Copying(v, Uncowed(s.pages[Place(e, v)].perm), f, 0))
    case CowCopy(e) =>
      var c := s.procs[e].cow;
      var b := if c.done < |s.mem[s.pages[Place(e, c.v)].frame]| then s.mem[s.pages[Place(e, c.v)].frame][c.done]
        else 0;
      SetCow(s.(mem := s.mem[c.ucow := Write(s.mem[c.ucow], c.done, b)]), e, c.(done := c.done + 1))
    case CowMap(e) =>
      var c := s.procs[e].cow;
      SetCow(MapPage(s, Place(e, c.v), Entry(c.ucow, c.perm)), e, Remapped(c.v, c.ucow))
    case CowUnmap(e) => SetCow(s, e, NoCow)
  }

  /** Every frame that is named has content. */
  predicate Closed(s: State)
  {
    && (forall p :: p in s.pages ==> s.pages[p].frame in s.mem)
    && (forall e :: e in s.procs && s.procs[e].cow.Copying? ==> s.procs[e].cow.ucow in s.mem)
    && (forall f :: f in s.mem ==> |s.mem[f]| == PAGE_SIZE)
  }

  /* ---- The invariant ---- */

  /** Page q is the child's side of a page that p's env is duplicating at the moment. */
  predicate Window(s: State, p: Place, q: Place)
  {
    && p.env in s.procs && s.procs[p.env].fork.FirstMapped?
    && s.procs[p.env].fork.child == q.env && s.procs[p.env].fork.v == p.vpn == q.vpn
  }

  /** A frame behind a private page that user code can write is behind no other page, apart from the
      child's page while it is being duplicated. */
  ghost predicate Exclusive(s: State)
  {
    forall p, q :: p in s.pages && q in s.pages && p != q && s.pages[p].frame == s.pages[q].frame ==>
                     Writable(s.pages[p]) && !IsLib(s.pages[p]) ==> Window(s, p, q)
  }

  /** A frame is private or shared with PTE_LIBRARY, for all its pages alike. */
  ghost predicate KindsAgree(s: State)
  {
    forall p, q :: p in s.pages && q in s.pages && s.pages[p].frame == s.pages[q].frame
      ==> IsLib(s.pages[p]) == IsLib(s.pages[q])
  }

  /** Pages belong to envs; an env that has not started does nothing; a child has not started, and has
      one parent. */
  ghost predicate ProcsOk(s: State)
  {
    && (forall p :: p in s.pages ==> p.env in s.procs && UserPage(p.vpn))
    && (forall e :: e in s.procs && !s.procs[e].started ==> s.procs[e].fork.NoFork? && s.procs[e].cow.NoCow?)
    && (forall e :: e in s.procs && !s.procs[e].fork.NoFork? ==>
          s.procs[e].fork.child in s.procs && !s.procs[s.procs[e].fork.child].started)
    && (forall e, d :: e in s.procs && d in s.procs && !s.procs[e].fork.NoFork? && !s.procs[d].fork.NoFork? ==>
          s.procs[e].fork.child == s.procs[d].fork.child ==> e == d)
  }

  /** What fork has noted about the page it is at still holds. */
  ghost predicate ForkOk(s: State, e: nat)
    requires e in s.procs
  {
    match s.procs[e].fork
    case NoFork => true
    case Loop(c, n) => n <= USTACK_VPN
    case GotPerm(c, v, perm) =>
      v < USTACK_VPN && Place(e, v) in s.pages && s.pages[Place(e, v)].perm == perm
    case FirstMapped(c, v, perm) =>
      && v < USTACK_VPN && LegalVpn(v) && TwoMaps(perm)
      && Place(e, v) in s.pages && s.pages[Place(e, v)].perm == perm
      && Place(c, v) in s.pages && s.pages[Place(c, v)] == Entry(s.pages[Place(e, v)].frame, Cowed(perm))
  }

  ghost predicate ForksOk(s: State)
  {
    forall e :: e in s.procs ==> ForkOk(s, e)
  }

  /** cow_entry works on a private copy-on-write page. */
  ghost predicate Faulting(s: State, e: nat, v: nat)
    requires e in s.procs
  {
    && Place(e, v) in s.pages && IsCow(s.pages[Place(e, v)]) && !IsLib(s.pages[Place(e, v)])
    && !StoreInGap(s, e, v)
  }

  /** The frame at UCOW is mapped nowhere else, and its first n bytes are copies. */
  ghost predicate CopyOk(s: State, v: nat, e: nat, f: nat, n: nat)
    requires e in s.procs && Place(e, v) in s.pages
  {
    var src := s.pages[Place(e, v)].frame;
    && f in s.mem && src in s.mem && n <= PAGE_SIZE
    && (forall j :: 0 <= j < n && j < |s.mem[f]| && j < |s.mem[src]| ==> s.mem[f][j] == s.mem[src][j])
    && (forall p :: p in s.pages ==> s.pages[p].frame != f)
    && (forall d :: d in s.procs && d != e && s.procs[d].cow.Copying? ==> s.procs[d].cow.ucow != f)
  }

  ghost predicate HandlerOk(s: State, e: nat)
    requires e in s.procs
  {
    match s.procs[e].cow
    case Fault(v) => Faulting(s, e, v)
    case Copying(v, perm, f, n) =>
      Faulting(s, e, v) && !Has(perm, PTE_LIBRARY) && Writable(Entry(f, perm)) && CopyOk(s, v, e, f, n)
    case _ => true
  }

  ghost predicate HandlersOk(s: State)
  {
    forall e :: e in s.procs ==> HandlerOk(s, e)
  }

  ghost predicate Inv(s: State)
    ensures Inv(s) ==> Closed(s)
  {
    Closed(s) && Exclusive(s) && KindsAgree(s) && ProcsOk(s) && ForksOk(s) && HandlersOk(s)
  }

  /* ---- What an env sees ---- */

  /** A page as the programmer sees it: private memory, a shared frame, or, for an env that has not
      started, a page whose content its parent can still change. */
  datatype View = Nothing | Private(c: Content) | Shared(frame: nat) | Pending

  ghost predicate InWindow(s: State, q: Place)
  {
    exists e :: Window(s, Place(e, q.vpn), q)
  }

  ghost function ViewOf(s: State, p: Place): View
    requires Closed(s)
  {
    if p !in s.pages then Nothing
    else if IsLib(s.pages[p]) then Shared(s.pages[p].frame)
    else if InWindow(s, p) then Pending
    else Private(s.mem[s.pages[p].frame])
  }

  /** The abstract machine: each env has its own memory. Only the views of the state before are used. */
  ghost function Expected(s: State, a: Action, p: Place): View
    requires Possible(s, a) && Closed(s)
  {
    match a
    case Store(e, v, off, b) =>
      if p == Place(e, v) && Writable(s.pages[p]) && ViewOf(s, p).Private? then Private(Write(ViewOf(s, p).c, off, b))
      else ViewOf(s, p)
    case Touch(e, v, f) => if p == Place(e, v) then Private(ZeroBytes()) else ViewOf(s, p)
    case MemAlloc(e, v, perm, f) =>
      if p == Place(e, v) then (if Has(perm, PTE_LIBRARY) then Shared(f) else Private(ZeroBytes())) else ViewOf(s, p)
    case MemUnmap(e, v) => if p == Place(e, v) then Nothing else ViewOf(s, p)
    case Exit(e) => if p.env == e then Nothing else ViewOf(s, p)
    case DupMap(e) =>
      var f := s.procs[e].fork;
      if p == Place(f.child, f.v) && LegalVpn(f.v) then
        (if TwoMaps(f.perm) then Pending else ViewOf(s, Place(e, f.v)))
      else ViewOf(s, p)
    case DupRemap(e) =>
      var f := s.procs[e].fork;
      if p == Place(f.child, f.v) then ViewOf(s, Place(e, f.v)) else ViewOf(s, p)
    case _ => ViewOf(s, p)
  }

  /** Shared frames change by stores through shared pages only. */
  ghost predicate SharedContent(s: State, a: Action, s': State)
    requires Possible(s, a) && Closed(s) && Closed(s')
  {
    forall p :: p in s.pages && IsLib(s.pages[p]) ==>
      var f := s.pages[p].frame;
      f in s'.mem && s'.mem[f] == if a.Store? && s.pages[Place(a.e, a.v)].frame == f then Write(s.mem[f], a.off, a.b)
        else s.mem[f]
  }

  /** The step keeps the invariant and does to every page what the abstract machine says. */
  ghost predicate Refines(s: State, a: Action)
    requires Inv(s) && Possible(s, a)
  {
    var s' := Step(s, a);
    && Inv(s')
    && (forall p :: ViewOf(s', p) == Expected(s, a, p))
    && SharedContent(s, a, s')
  }

  /* ---- Frames of the predicates ---- */

  ghost predicate SameWindows(s: State, s': State) { forall p, q :: Window(s', p, q) <==> Window(s, p, q) }

  /** Pages that keep their mapping, in a state with the same windows and the same content. */
  ghost predicate SamePage(s: State, s': State, p: Place)
    requires Closed(s) && Closed(s')
  {
    (p in s'.pages <==> p in s.pages)
    && (p in s.pages ==> s'.pages[p] == s.pages[p] && s'.mem[s.pages[p].frame] == s.mem[s.pages[p].frame])
  }

  lemma SameView(s: State, s': State, p: Place)
    requires Closed(s) && Closed(s') && SameWindows(s, s') && SamePage(s, s', p)
    ensures ViewOf(s', p) == ViewOf(s, p)
  {
    hide Window, IsLib;
    assert InWindow(s', p) <==> InWindow(s, p) by {
      assert forall e :: Window(s', Place(e, p.vpn), p) <==> Window(s, Place(e, p.vpn), p);
    }
  }

  /** Fewer pages, same mappings. */
  lemma FewerPages(s: State, s': State)
    requires Exclusive(s) && KindsAgree(s) && SameWindows(s, s')
    requires forall p :: p in s'.pages ==> p in s.pages && s'.pages[p] == s.pages[p]
    ensures Exclusive(s') && KindsAgree(s')
  {
    hide Window, Writable, IsLib;
  }

  /** One page on a frame that no other page has. */
  lemma FreshFrame(s: State, s': State, p: Place, m: Mapping)
    requires Exclusive(s) && KindsAgree(s) && SameWindows(s, s') && s'.pages == s.pages[p := m]
    requires forall q :: q in s.pages ==> s.pages[q].frame != m.frame
    ensures Exclusive(s') && KindsAgree(s')
  {
    hide Window, Writable, IsLib;
  }

  /** Env d is where it was, and so is what its notes are about. */
  ghost predicate Undisturbed(s: State, s': State, d: nat)
    requires Closed(s) && Closed(s') && d in s.procs && d in s'.procs
  {
    && s'.procs[d] == s.procs[d]
    && (match s.procs[d].fork
        case GotPerm(c, v, _) =>
          Place(d, v) in s.pages && Place(d, v) in s'.pages && s'.pages[Place(d, v)] == s.pages[Place(d, v)]
        case FirstMapped(c, v, _) => Place(d, v) in s'.pages && Place(c, v) in s'.pages && Place(d, v) in s.pages
                                     && Place(c, v) in s.pages && s'.pages[Place(d, v)] == s.pages[Place(d, v)]
                                     && s'.pages[Place(c, v)] == s.pages[Place(c, v)]
        case _ => true)
    && (match s.procs[d].cow
        case Fault(v) => SamePage(s, s', Place(d, v))
        case Copying(v, _, f, _) =>
          && SamePage(s, s', Place(d, v)) && f in s'.mem && f in s.mem && s'.mem[f] == s.mem[f]
          && (forall p :: p in s'.pages ==> s'.pages[p].frame != f)
          && (forall e :: e in s'.procs && e != d && s'.procs[e].cow.Copying? ==> s'.procs[e].cow.ucow != f)
        case _ => true)
  }

  lemma UndisturbedOk(s: State, s': State, d: nat)
    requires Closed(s) && Closed(s') && d in s.procs && d in s'.procs && Undisturbed(s, s', d)
    requires ForkOk(s, d) && HandlerOk(s, d)
    ensures ForkOk(s', d) && HandlerOk(s', d)
  {
    hide Writable, IsLib, IsCow, Has, Cowed, Entry;
  }

  /* ---- The steps, by what they change ---- */

  ghost predicate OthersUndisturbed(s: State, s': State, E: set<nat>)
    requires Closed(s) && Closed(s')
  {
    forall d :: d in s'.procs && d !in E ==> d in s.procs && Undisturbed(s, s', d)
  }

  lemma AllOk(s: State, s': State, E: set<nat>)
    requires Inv(s) && Closed(s') && OthersUndisturbed(s, s', E)
    requires forall e :: e in E && e in s'.procs ==> ForkOk(s', e) && HandlerOk(s', e)
    ensures ForksOk(s') && HandlersOk(s')
  {
    hide Undisturbed, Exclusive, KindsAgree, ProcsOk;
    forall d | d in s'.procs ensures ForkOk(s', d) && HandlerOk(s', d) {
      if d !in E {
        assert ForkOk(s, d) && HandlerOk(s, d);
        UndisturbedOk(s, s', d);
      }
    }
  }

  /** A page of a running env on a fresh cleared frame. */
  lemma FreshPage(s: State, s': State, p: Place, f: nat, perm: bv10)
    requires Inv(s) && Running(s, p.env) && UserPage(p.vpn) && Unused(s, f)
    requires p in s.pages ==> s.procs[p.env].fork.NoFork?
    requires s' == MapPage(s.(mem := s.mem[f := ZeroBytes()]), p, Entry(f, perm))
    ensures Inv(s')
    ensures forall q :: ViewOf(s', q) ==
              if q == p then (if Has(perm, PTE_LIBRARY) then Shared(f) else Private(ZeroBytes())) else ViewOf(s, q)
    ensures forall q :: q in s.pages ==>
              s.pages[q].frame in s'.mem && s'.mem[s.pages[q].frame] == s.mem[s.pages[q].frame]
  {
    Flags(f, perm);
    hide Has, Writable, IsLib, IsCow, Cowed, Exclusive, KindsAgree, ForksOk, HandlersOk, Window, OthersUndisturbed,
      ViewOf;
    assert SameWindows(s, s') by { SameProcsSameWindows(s, s'); }
    FreshFrame(s, s', p, Entry(f, perm));
    FreshPageUndisturbed(s, s', p, Entry(f, perm));
    AllOk(s, s', {p.env});
    FreshPageViews(s, s', p, Entry(f, perm));
  }

  lemma SameProcsSameWindows(s: State, s': State)
    requires s'.procs == s.procs
    ensures SameWindows(s, s')
  {
  }

  lemma FreshPageViews(s: State, s': State, p: Place, m: Mapping)
    requires Inv(s) && Running(s, p.env) && Unused(s, m.frame) && Closed(s') && SameWindows(s, s') && ProcsOk(s')
    requires s' == MapPage(s.(mem := s.mem[m.frame := ZeroBytes()]), p, m)
    ensures ViewOf(s', p) == if IsLib(m) then Shared(m.frame) else Private(ZeroBytes())
    ensures forall q :: q != p ==> ViewOf(s', q) == ViewOf(s, q)
  {
    hide IsLib, Exclusive, KindsAgree, ForksOk, HandlersOk, Window, InWindow, SameWindows;
    RunningNotInWindow(s', p);
    forall q | q != p ensures ViewOf(s', q) == ViewOf(s, q) {
      assert SamePage(s, s', q);
      SameView(s, s', q);
    }
  }

  lemma FreshPageUndisturbed(s: State, s': State, p: Place, m: Mapping)
    requires Inv(s) && Running(s, p.env) && Unused(s, m.frame) && Closed(s')
    requires p in s.pages ==> s.procs[p.env].fork.NoFork?
    requires s' == MapPage(s.(mem := s.mem[m.frame := ZeroBytes()]), p, m)
    ensures OthersUndisturbed(s, s', {p.env}) && ForkOk(s', p.env) && HandlerOk(s', p.env)
  {
    hide Exclusive, KindsAgree, Writable, IsLib, IsCow, Has, Cowed, Entry;
    assert ForkOk(s, p.env);
    forall d | d in s.procs && d != p.env ensures Undisturbed(s, s', d) {
      assert ForkOk(s, d) && HandlerOk(s, d);
      FreshPageUndisturbedAt(s, s', p, m, d);
    }
  }

  lemma FreshPageUndisturbedAt(s: State, s': State, p: Place, m: Mapping, d: nat)
    requires Closed(s) && Closed(s') && ProcsOk(s) && Running(s, p.env) && Unused(s, m.frame)
    requires s' == MapPage(s.(mem := s.mem[m.frame := ZeroBytes()]), p, m)
    requires d in s.procs && d != p.env && ForkOk(s, d) && HandlerOk(s, d)
    ensures Undisturbed(s, s', d)
  {
    hide Writable, IsLib, IsCow, Has, Cowed, Entry, TwoMaps, StoreInGap;
  }

  lemma RunningNotInWindow(s: State, p: Place)
    requires ProcsOk(s) && p.env in s.procs && s.procs[p.env].started
    ensures !InWindow(s, p)
  {
  }

  /** Only the notes of the envs in E change. */
  lemma NotesChange(s: State, s': State, E: set<nat>)
    requires Inv(s) && s'.pages == s.pages && s'.mem == s.mem && Closed(s') && SameWindows(s, s') && ProcsOk(s')
    requires forall d :: d in s'.procs && d !in E ==> d in s.procs && s'.procs[d] == s.procs[d]
    requires forall e :: e in E && e in s'.procs ==> ForkOk(s', e) && HandlerOk(s', e)
    requires forall e :: e in E && e in s'.procs && s'.procs[e].cow.Copying? ==>
               e in s.procs && s.procs[e].cow == s'.procs[e].cow
    ensures Inv(s') && forall p :: ViewOf(s', p) == ViewOf(s, p)
  {
    hide Window, SameWindows, ViewOf, InWindow, Writable, IsLib, IsCow, Entry, Cowed, Has, TwoMaps, ForkOk, HandlerOk,
      Undisturbed;
    FewerPages(s, s');
    forall d | d in s'.procs && d !in E ensures Undisturbed(s, s', d) {
      assert ForkOk(s, d) && HandlerOk(s, d);
      SamePagesUndisturbed(s, s', d);
    }
    AllOk(s, s', E);
    forall p ensures ViewOf(s', p) == ViewOf(s, p) {
      SameView(s, s', p);
    }
  }

  lemma SamePagesUndisturbed(s: State, s': State, d: nat)
    requires Closed(s) && Closed(s') && s'.pages == s.pages && s'.mem == s.mem
    requires d in s.procs && d in s'.procs && s'.procs[d] == s.procs[d] && ForkOk(s, d) && HandlerOk(s, d)
    requires forall e :: e in s'.procs && s'.procs[e].cow.Copying? ==> e in s.procs && s.procs[e].cow == s'.procs[e].cow
    ensures Undisturbed(s, s', d)
  {
    hide Writable, IsLib, IsCow, Has, Cowed, Entry, TwoMaps, StoreInGap;
  }

  /** Some pages of running env e go, and with Exit the env itself. */
  lemma PagesGo(s: State, s': State, e: nat)
    requires Inv(s) && Running(s, e) && s.procs[e].fork.NoFork?
    requires s'.mem == s.mem && (s'.procs == s.procs || s'.procs == s.procs - {e})
    requires forall p :: p in s'.pages ==> p in s.pages && s'.pages[p] == s.pages[p] && p.env in s'.procs
    requires forall p :: p in s.pages && p.env != e ==> p in s'.pages
    ensures Inv(s') && forall p :: ViewOf(s', p) == if p in s'.pages then ViewOf(s, p) else Nothing
  {
    hide ViewOf, InWindow, Writable, IsLib, IsCow, Entry, Cowed, Has, TwoMaps, Undisturbed, Exclusive, KindsAgree,
      CopyOk, Faulting;
    ProcsAfterGo(s, s', e);
    hide Window, SameWindows;
    FewerPages(s, s');
    forall d | d in s'.procs && d != e ensures Undisturbed(s, s', d) {
      assert ForkOk(s, d) && HandlerOk(s, d);
      OthersPagesStay(s, s', d, e);
    }
    AllOk(s, s', {e});
    forall p ensures ViewOf(s', p) == if p in s'.pages then ViewOf(s, p) else Nothing {
      PagesGoView(s, s', p);
    }
  }

  lemma ProcsAfterGo(s: State, s': State, e: nat)
    requires ProcsOk(s) && Running(s, e) && s.procs[e].fork.NoFork?
    requires s'.procs == s.procs || s'.procs == s.procs - {e}
    requires forall p :: p in s'.pages ==> p in s.pages && p.env in s'.procs
    ensures ProcsOk(s') && SameWindows(s, s')
  {
  }

  lemma PagesGoView(s: State, s': State, p: Place)
    requires Closed(s) && Closed(s') && SameWindows(s, s') && s'.mem == s.mem
    requires p in s'.pages ==> p in s.pages && s'.pages[p] == s.pages[p]
    ensures ViewOf(s', p) == if p in s'.pages then ViewOf(s, p) else Nothing
  {
    hide Window, SameWindows, IsLib, InWindow;
    if p in s'.pages {
      SameView(s, s', p);
    }
  }

  lemma OthersPagesStay(s: State, s': State, d: nat, e: nat)
    requires Closed(s) && Closed(s') && ProcsOk(s) && s'.mem == s.mem && e in s.procs && s.procs[e].started
    requires forall x :: x in s'.procs ==> x in s.procs && s'.procs[x] == s.procs[x]
    requires forall p :: p in s'.pages ==> p in s.pages && s'.pages[p] == s.pages[p]
    requires forall p :: p in s.pages && p.env != e ==> p in s'.pages
    requires d in s'.procs && d != e && ForkOk(s, d) && HandlerOk(s, d)
    ensures Undisturbed(s, s', d)
  {
    hide Writable, IsLib, IsCow, Has, Cowed, Entry, TwoMaps, StoreInGap;
  }

  lemma MemUnmapRefines(s: State, e: nat, v: nat)
    requires Inv(s) && Guarded(s, MemUnmap(e, v))
    ensures Refines(s, MemUnmap(e, v))
  {
    hide Exclusive, KindsAgree, ForksOk, HandlersOk, ViewOf;
    var s' := Step(s, MemUnmap(e, v));
    PagesGo(s, s', e);
    forall p ensures ViewOf(s', p) == Expected(s, MemUnmap(e, v), p) { NoPageNoView(s, p); }
  }

  lemma NoPageNoView(s: State, p: Place)
    requires Closed(s)
    ensures ViewOf(s, p) == Nothing <==> p !in s.pages
  {
  }

  lemma ExitRefines(s: State, e: nat)
    requires Inv(s) && Guarded(s, Exit(e))
    ensures Refines(s, Exit(e))
  {
    hide Exclusive, KindsAgree, ForksOk, HandlersOk, ViewOf;
    var s' := Step(s, Exit(e));
    PagesGo(s, s', e);
    forall p ensures ViewOf(s', p) == Expected(s, Exit(e), p) { NoPageNoView(s, p); }
  }

  lemma TouchRefines(s: State, e: nat, v: nat, f: nat)
    requires Inv(s) && Guarded(s, Touch(e, v, f))
    ensures Refines(s, Touch(e, v, f))
  {
    hide Exclusive, KindsAgree, ForksOk, HandlersOk, ViewOf, Unused;
    NewPageFlags();
    FreshPage(s, Step(s, Touch(e, v, f)), Place(e, v), f, PTE_R | PTE_W | PTE_U);
  }

  lemma NewPageFlags()
    ensures !Has(PTE_R | PTE_W | PTE_U, PTE_LIBRARY)
  {
  }

  lemma MemAllocRefines(s: State, e: nat, v: nat, perm: bv10, f: nat)
    requires Inv(s) && Guarded(s, MemAlloc(e, v, perm, f))
    ensures Refines(s, MemAlloc(e, v, perm, f))
  {
    hide Exclusive, KindsAgree, ForksOk, HandlersOk, ViewOf, Unused, Has;
    FreshPage(s, Step(s, MemAlloc(e, v, perm, f)), Place(e, v), f, perm);
  }

  /* ---- The notes of fork and cow_entry ---- */

  lemma ForkNotes(s: State, s': State, e: nat, f: ForkPhase)
    requires Inv(s) && Running(s, e) && !s.procs[e].fork.NoFork? && !s.procs[e].fork.FirstMapped?
    requires !f.NoFork? && !f.FirstMapped? && f.child == s.procs[e].fork.child
    requires s' == SetFork(s, e, f) && ForkOk(s', e)
    ensures Inv(s') && forall p :: ViewOf(s', p) == ViewOf(s, p)
  {
    hide Exclusive, KindsAgree, ViewOf, ForkOk, Faulting, CopyOk;
    NotesChange(s, s', {e});
  }

  lemma CowUnmapNotes(s: State, s': State, e: nat)
    requires Inv(s) && e in s.procs && s.procs[e].cow.Remapped? && s' == SetCow(s, e, NoCow)
    ensures Inv(s') && forall p :: ViewOf(s', p) == ViewOf(s, p)
  {
    hide Exclusive, KindsAgree, ViewOf, Faulting, CopyOk, Has, Entry, Cowed, IsCow, IsLib, Writable;
    assert ForkOk(s, e);
    assert ForkOk(s', e);
    hide ForkOk;
    NotesChange(s, s', {e});
  }

  lemma StartNotes(s: State, s': State, e: nat, c: nat)
    requires Inv(s) && Looping(s, e) && s.procs[e].fork.child == c && c in s.procs
    requires s' == s.(procs := s.procs[e := s.procs[e].(fork := NoFork)][c := s.procs[c].(started := true)])
    ensures Inv(s') && forall p :: ViewOf(s', p) == ViewOf(s, p)
  {
    hide Exclusive, KindsAgree, ViewOf, Faulting, CopyOk;
    assert ForkOk(s', e) && ForkOk(s', c);
    hide ForkOk;
    StartProcs(s, s', e, c);
    hide ProcsOk, SameWindows;
    NotesChange(s, s', {e, c});
  }

  lemma StartProcs(s: State, s': State, e: nat, c: nat)
    requires ProcsOk(s) && Looping(s, e) && s.procs[e].fork.child == c && c in s.procs && s'.pages == s.pages
    requires s'.procs == s.procs[e := s.procs[e].(fork := NoFork)][c := s.procs[c].(started := true)]
    ensures ProcsOk(s') && SameWindows(s, s') && s.procs[c].cow.NoCow? && s.procs[c].fork.NoFork? && c != e
  {
  }

  lemma ExoforkNotes(s: State, s': State, e: nat, c: nat, fs: set<nat>)
    requires Inv(s) && Running(s, e) && s.procs[e].fork.NoFork? && c !in s.procs
    requires var p := s.procs[e].(fork := Loop(c, 0), frames := fs);
             s' == s.(procs := s.procs[e := p][c := Proc(false, NoFork, NoCow, {})])
    ensures Inv(s') && forall p :: ViewOf(s', p) == ViewOf(s, p)
  {
    hide Exclusive, KindsAgree, ViewOf, Faulting, CopyOk;
    assert ForkOk(s', e) && ForkOk(s', c);
    hide ForkOk;
    ExoforkProcs(s, s', e, c, fs);
    hide ProcsOk, SameWindows;
    NotesChange(s, s', {e, c});
  }

  lemma ExoforkProcs(s: State, s': State, e: nat, c: nat, fs: set<nat>)
    requires ProcsOk(s) && Running(s, e) && s.procs[e].fork.NoFork? && c !in s.procs && s'.pages == s.pages
    requires s'.procs ==
               s.procs[e := s.procs[e].(fork := Loop(c, 0), frames := fs)][c := Proc(false, NoFork, NoCow, {})]
    ensures ProcsOk(s') && SameWindows(s, s')
  {
  }

  lemma ExoforkRefines(s: State, e: nat, c: nat, fs: set<nat>)
    requires Inv(s) && Guarded(s, Exofork(e, c, fs))
    ensures Refines(s, Exofork(e, c, fs))
  {
    hide Exclusive, KindsAgree, ProcsOk, ForksOk, HandlersOk, ViewOf;
    ExoforkNotes(s, Step(s, Exofork(e, c, fs)), e, c, fs);
  }

  lemma DupSkipRefines(s: State, e: nat)
    requires Inv(s) && Guarded(s, DupSkip(e))
    ensures Refines(s, DupSkip(e))
  {
    hide Exclusive, KindsAgree, ProcsOk, ForksOk, HandlersOk, ViewOf;
    ForkNotes(s, Step(s, DupSkip(e)), e, s.procs[e].fork.(next := s.procs[e].fork.next + 1));
  }

  lemma DupReadRefines(s: State, e: nat)
    requires Inv(s) && Guarded(s, DupRead(e))
    ensures Refines(s, DupRead(e))
  {
    hide Exclusive, KindsAgree, ProcsOk, ForksOk, HandlersOk, ViewOf;
    var f := s.procs[e].fork;
    ForkNotes(s, Step(s, DupRead(e)), e, GotPerm(f.child, f.next, s.pages[Place(e, f.next)].perm));
  }

  lemma StartChildRefines(s: State, e: nat)
    requires Inv(s) && Guarded(s, StartChild(e))
    ensures Refines(s, StartChild(e))
  {
    hide Exclusive, KindsAgree, ProcsOk, ForksOk, HandlersOk, ViewOf;
    StartNotes(s, Step(s, StartChild(e)), e, s.procs[e].fork.child);
  }

  lemma CowUnmapRefines(s: State, e: nat)
    requires Inv(s) && Guarded(s, CowUnmap(e))
    ensures Refines(s, CowUnmap(e))
  {
    hide Exclusive, KindsAgree, ProcsOk, ForksOk, HandlersOk, ViewOf;
    CowUnmapNotes(s, Step(s, CowUnmap(e)), e);
  }

  /* ---- Stores ---- */

  /** Frame g changes, and no page that an env is working on in fork or cow_entry has it. */
  ghost predicate NotInUseByHandlers(s: State, g: nat, e: nat)
  {
    forall d :: d in s.procs && d != e ==>
      (s.procs[d].cow.Copying? ==> s.procs[d].cow.ucow != g) &&
      (s.procs[d].cow.Copying? || s.procs[d].cow.Fault? ==>
         Place(d, s.procs[d].cow.v) in s.pages ==> s.pages[Place(d, s.procs[d].cow.v)].frame != g)
  }

  lemma ContentChange(s: State, s': State, g: nat, c: Content, e: nat)
    requires Inv(s) && e in s.procs && g in s.mem && |c| == PAGE_SIZE && NotInUseByHandlers(s, g, e)
    requires s'.pages == s.pages && s'.mem == s.mem[g := c]
    requires e in s'.procs && s'.procs == s.procs[e := s.procs[e].(cow := s'.procs[e].cow)] && s.procs[e].started
    requires s'.procs[e].cow.Copying? ==> s.procs[e].cow.Copying? && s.procs[e].cow.ucow == s'.procs[e].cow.ucow
    requires HandlerOk(s', e)
    ensures Inv(s') && SameWindows(s, s')
  {
    hide ViewOf, InWindow, Writable, IsLib, IsCow, Entry, Cowed, Has, TwoMaps, Undisturbed, HandlerOk;
    SameForksSameWindows(s, s', e);
    hide SameWindows, Window;
    FewerPages(s, s');
    hide Exclusive, KindsAgree;
    forall d | d in s'.procs && d != e ensures Undisturbed(s, s', d) {
      assert ForkOk(s, d) && HandlerOk(s, d);
      OthersContentStays(s, s', d, g, e);
    }
    assert ForkOk(s, e);
    hide ForksOk, HandlersOk, ForkOk;
    SameForkOk(s, s', e);
    AllOk(s, s', {e});
  }

  lemma SameForkOk(s: State, s': State, e: nat)
    requires e in s.procs && e in s'.procs && s'.procs[e].fork == s.procs[e].fork && s'.pages == s.pages && ForkOk(s, e)
    ensures ForkOk(s', e)
  {
    hide Has, Entry, Cowed;
  }

  lemma SameForksSameWindows(s: State, s': State, e: nat)
    requires ProcsOk(s) && e in s.procs && s.procs[e].started && s'.pages == s.pages
    requires e in s'.procs && s'.procs == s.procs[e := s.procs[e].(cow := s'.procs[e].cow)]
    ensures ProcsOk(s') && SameWindows(s, s')
  {
  }

  lemma OthersContentStays(s: State, s': State, d: nat, g: nat, e: nat)
    requires Closed(s) && Closed(s') && NotInUseByHandlers(s, g, e) && s'.pages == s.pages
    requires forall f :: f in s.mem && f != g ==> f in s'.mem && s'.mem[f] == s.mem[f]
    requires d in s.procs && d in s'.procs && d != e && s'.procs[d] == s.procs[d] && ForkOk(s, d) && HandlerOk(s, d)
    requires forall x :: x in s'.procs && s'.procs[x].cow.Copying? ==>
               x in s.procs && s.procs[x].cow.Copying? && s.procs[x].cow.ucow == s'.procs[x].cow.ucow
    ensures Undisturbed(s, s', d)
  {
    hide Writable, IsLib, IsCow, Has, Cowed, Entry, TwoMaps, StoreInGap;
  }

  /** No env is copying from a page that another env can write. */
  lemma WritableIsNotCopied(s: State, e: nat, v: nat)
    requires Inv(s) && Place(e, v) in s.pages && Writable(s.pages[Place(e, v)])
    ensures NotInUseByHandlers(s, s.pages[Place(e, v)].frame, e)
  {
    hide Writable, IsLib, IsCow, Has, Entry, Cowed, TwoMaps, ForkOk;
    var p := Place(e, v);
    forall d | d in s.procs && d != e
      ensures s.procs[d].cow.Copying? ==> s.procs[d].cow.ucow != s.pages[p].frame
      ensures s.procs[d].cow.Copying? || s.procs[d].cow.Fault? ==>
                Place(d, s.procs[d].cow.v) in s.pages ==>
                  s.pages[Place(d, s.procs[d].cow.v)].frame != s.pages[p].frame {
      assert HandlerOk(s, d);
      if s.procs[d].cow.Copying? || s.procs[d].cow.Fault? {
        OtherFrame(s, p, Place(d, s.procs[d].cow.v));
      }
    }
  }

  /** A page that can be written shares its frame with no private page of a started env. */
  lemma OtherFrame(s: State, p: Place, q: Place)
    requires Exclusive(s) && KindsAgree(s) && ProcsOk(s)
    requires p in s.pages && q in s.pages && p != q && Writable(s.pages[p]) && !IsLib(s.pages[q])
    requires q.env in s.procs && s.procs[q.env].started
    ensures s.pages[p].frame != s.pages[q].frame
  {
    hide Writable, IsLib;
  }

  lemma StoreViews(s: State, s': State, e: nat, v: nat, c: Content)
    requires Inv(s) && Closed(s') && SameWindows(s, s') && Place(e, v) in s.pages && Running(s, e)
    requires Writable(s.pages[Place(e, v)]) && |c| == PAGE_SIZE
    requires s'.pages == s.pages && s'.mem == s.mem[s.pages[Place(e, v)].frame := c] && s'.procs == s.procs
    ensures forall p :: ViewOf(s', p) ==
              if p == Place(e, v) && !IsLib(s.pages[p]) then Private(c) else ViewOf(s, p)
    ensures !IsLib(s.pages[Place(e, v)]) ==> ViewOf(s, Place(e, v)) == Private(s.mem[s.pages[Place(e, v)].frame])
  {
    hide Writable, IsLib, ForksOk, HandlersOk;
    var p0 := Place(e, v);
    var g := s.pages[p0].frame;
    RunningNotInWindow(s, p0);
    forall p ensures ViewOf(s', p) == if p == p0 && !IsLib(s.pages[p]) then Private(c) else ViewOf(s, p) {
      if p in s.pages && s.pages[p].frame == g && p != p0 && !IsLib(s.pages[p0]) {
        assert Window(s, p0, p);
        assert InWindow(s, p) && InWindow(s', p);
      } else if p !in s.pages || s.pages[p].frame != g {
        SameView(s, s', p);
      }
    }
  }

  lemma FaultNotes(s: State, s': State, e: nat, v: nat)
    requires Inv(s) && Running(s, e) && Faulting(s, e, v) && s' == SetCow(s, e, Fault(v))
    ensures Inv(s') && forall p :: ViewOf(s', p) == ViewOf(s, p)
  {
    hide Exclusive, KindsAgree, ViewOf, CopyOk, IsCow, IsLib, Writable, Has;
    assert ForkOk(s, e);
    SameForkOk(s, s', e);
    hide ForkOk;
    SameForksSameWindows(s, s', e);
    hide SameWindows, ProcsOk;
    NotesChange(s, s', {e});
  }

  lemma StoreRefines(s: State, e: nat, v: nat, off: nat, b: bv8)
    requires Inv(s) && Guarded(s, Store(e, v, off, b))
    ensures Refines(s, Store(e, v, off, b))
  {
    hide Exclusive, KindsAgree, ProcsOk, ForksOk, HandlersOk, ViewOf, Writable, IsLib, IsCow, SameWindows, Has;
    var s' := Step(s, Store(e, v, off, b));
    var m := s.pages[Place(e, v)];
    if Writable(m) {
      var c := Write(s.mem[m.frame], off, b);
      WritableIsNotCopied(s, e, v);
      hide NotInUseByHandlers;
      ContentChange(s, s', m.frame, c, e);
      StoreViews(s, s', e, v, c);
      SharedIsNotPrivate(s);
    } else {
      FaultNotes(s, s', e, v);
      PrivateFrame(s, Place(e, v));
    }
  }

  lemma PrivateFrame(s: State, q: Place)
    requires KindsAgree(s) && q in s.pages && !IsLib(s.pages[q])
    ensures forall p :: p in s.pages && IsLib(s.pages[p]) ==> s.pages[p].frame != s.pages[q].frame
  {
  }

  lemma SharedIsNotPrivate(s: State)
    requires Closed(s)
    ensures forall p :: p in s.pages && IsLib(s.pages[p]) ==> ViewOf(s, p) == Shared(s.pages[p].frame)
  {
  }

  /* ---- cow_entry ---- */

  lemma CowAllocRefines(s: State, e: nat, f: nat)
    requires Inv(s) && Guarded(s, CowAlloc(e, f))
    ensures Refines(s, CowAlloc(e, f))
  {
    hide Exclusive, KindsAgree, ProcsOk, ForksOk, HandlersOk, ViewOf, Writable, IsLib, IsCow, SameWindows, Has, Unused;
    CowAllocNotes(s, Step(s, CowAlloc(e, f)), e, f);
  }

  lemma CowAllocNotes(s: State, s': State, e: nat, f: nat)
    requires Inv(s) && Handling(s, e) && s.procs[e].cow.Fault? && Unused(s, f)
    requires var v := s.procs[e].cow.v;
             s' == SetCow(s.(mem := s.mem[f := ZeroBytes()]), e, Copying(v, Uncowed(s.pages[Place(e, v)].perm), f, 0))
    ensures Inv(s') && forall p :: ViewOf(s', p) == ViewOf(s, p)
    ensures forall p :: p in s.pages ==>
              s.pages[p].frame in s'.mem && s'.mem[s.pages[p].frame] == s.mem[s.pages[p].frame]
  {
    assert HandlerOk(s, e) && ForkOk(s, e);
    CowAllocHandler(s, s', e, f);
    hide Writable, IsLib, IsCow, Has, Entry, Cowed, Uncowed, TwoMaps, Window, ViewOf, Faulting, CopyOk, HandlerOk,
      StoreInGap;
    SameForkOk(s, s', e);
    hide ForkOk, HandlersOk, ForksOk;
    SameForksSameWindows(s, s', e);
    FewerPages(s, s');
    hide Exclusive, KindsAgree, ProcsOk, SameWindows;
    CowAllocMemory(s, s', f);
    hide Unused;
    forall d | d in s.procs && d != e ensures Undisturbed(s, s', d) {
      CowAllocUndisturbed(s, s', e, f, d);
    }
    hide Undisturbed;
    AllOk(s, s', {e});
  }

  lemma CowAllocMemory(s: State, s': State, f: nat)
    requires Closed(s) && Closed(s') && Unused(s, f) && SameWindows(s, s') && s'.pages == s.pages
             && s'.mem == s.mem[f := ZeroBytes()]
    ensures forall p :: ViewOf(s', p) == ViewOf(s, p)
    ensures forall p :: p in s.pages ==>
              s.pages[p].frame in s'.mem && s'.mem[s.pages[p].frame] == s.mem[s.pages[p].frame]
  {
    hide ViewOf, SameWindows;
    forall p ensures ViewOf(s', p) == ViewOf(s, p) {
      SameView(s, s', p);
    }
  }

  lemma CowAllocHandler(s: State, s': State, e: nat, f: nat)
    requires Closed(s) && Handling(s, e) && s.procs[e].cow.Fault? && Unused(s, f) && HandlerOk(s, e)
    requires var v := s.procs[e].cow.v;
             s' == SetCow(s.(mem := s.mem[f := ZeroBytes()]), e, Copying(v, Uncowed(s.pages[Place(e, v)].perm), f, 0))
    ensures HandlerOk(s', e)
  {
    Flags(f, s.pages[Place(e, s.procs[e].cow.v)].perm);
    NotShared(s.pages[Place(e, s.procs[e].cow.v)].perm);
    hide Has, Uncowed, Cowed;
  }

  lemma NotShared(perm: bv10)
    ensures Has(perm, PTE_LIBRARY) <==> Has(Uncowed(perm), PTE_LIBRARY)
  {
  }

  lemma CowAllocUndisturbed(s: State, s': State, e: nat, f: nat, d: nat)
    requires Inv(s) && Closed(s') && Unused(s, f) && e in s.procs && d in s.procs && d != e
    requires s'.pages == s.pages && s'.mem == s.mem[f := ZeroBytes()] && e in s'.procs
             && s'.procs == s.procs[e := s'.procs[e]]
    requires s'.procs[e].cow.Copying? && s'.procs[e].cow.ucow == f
    ensures Undisturbed(s, s', d)
  {
    hide Writable, IsLib, IsCow, Has, Cowed, Entry, TwoMaps, StoreInGap, Exclusive, KindsAgree, ProcsOk;
    assert ForkOk(s, d) && HandlerOk(s, d);
  }

  lemma CowCopyRefines(s: State, e: nat)
    requires Inv(s) && Guarded(s, CowCopy(e))
    ensures Refines(s, CowCopy(e))
  {
    hide Exclusive, KindsAgree, ProcsOk, ForksOk, HandlersOk, ViewOf, Writable, IsLib, IsCow, SameWindows, Has;
    CowCopyNotes(s, Step(s, CowCopy(e)), e);
  }

  lemma CowCopyNotes(s: State, s': State, e: nat)
    requires Inv(s) && Handling(s, e) && s.procs[e].cow.Copying? && s.procs[e].cow.done < PAGE_SIZE
    requires var c := s.procs[e].cow;
             var src := s.mem[s.pages[Place(e, c.v)].frame];
             s' == SetCow(s.(mem := s.mem[c.ucow := Write(s.mem[c.ucow], c.done, src[c.done])]), e,
                          c.(done := c.done + 1))
    ensures Inv(s') && forall p :: ViewOf(s', p) == ViewOf(s, p)
    ensures forall p :: p in s.pages ==>
              s.pages[p].frame in s'.mem && s'.mem[s.pages[p].frame] == s.mem[s.pages[p].frame]
  {
    var c := s.procs[e].cow;
    var src := s.mem[s.pages[Place(e, c.v)].frame];
    assert HandlerOk(s, e);
    hide Writable, IsLib, IsCow, Has, Entry, Cowed, Uncowed, TwoMaps, Window, ViewOf, ForksOk, Exclusive, KindsAgree;
    CowCopyHandler(s, s', e);
    hide HandlerOk, Faulting, CopyOk, HandlersOk, NotInUseByHandlers;
    assert s.procs[e].started;
    ContentChange(s, s', c.ucow, Write(s.mem[c.ucow], c.done, src[c.done]), e);
    hide ProcsOk, SameWindows;
    forall p ensures ViewOf(s', p) == ViewOf(s, p) {
      SameView(s, s', p);
    }
  }

  lemma CowCopyHandler(s: State, s': State, e: nat)
    requires Closed(s) && Handling(s, e) && s.procs[e].cow.Copying? && s.procs[e].cow.done < PAGE_SIZE
             && HandlerOk(s, e)
    requires var c := s.procs[e].cow;
             var src := s.mem[s.pages[Place(e, c.v)].frame];
             s' == SetCow(s.(mem := s.mem[c.ucow := Write(s.mem[c.ucow], c.done, src[c.done])]), e,
                          c.(done := c.done + 1))
    ensures HandlerOk(s', e) && NotInUseByHandlers(s, s.procs[e].cow.ucow, e)
    ensures forall p :: p in s.pages ==> s.pages[p].frame != s.procs[e].cow.ucow
  {
    hide Writable, IsLib, IsCow, Has, Entry;
  }

  lemma CowMapRefines(s: State, e: nat)
    requires Inv(s) && Guarded(s, CowMap(e))
    ensures Refines(s, CowMap(e))
  {
    hide Exclusive, KindsAgree, ProcsOk, ForksOk, HandlersOk, ViewOf, Writable, IsLib, IsCow, SameWindows, Has;
    CowMapNotes(s, Step(s, CowMap(e)), e);
  }

  /** The copy is mapped over the original: the same bytes, in a frame of its own. */
  lemma CowMapNotes(s: State, s': State, e: nat)
    requires Inv(s) && Handling(s, e) && s.procs[e].cow.Copying? && s.procs[e].cow.done == PAGE_SIZE
    requires var c := s.procs[e].cow;
             s' == SetCow(MapPage(s, Place(e, c.v), Entry(c.ucow, c.perm)), e, Remapped(c.v, c.ucow))
    ensures Inv(s') && forall p :: ViewOf(s', p) == ViewOf(s, p)
  {
    var c := s.procs[e].cow;
    var p0 := Place(e, c.v);
    assert HandlerOk(s, e) && ForkOk(s, e);
    Flags(c.ucow, c.perm);
    CowMapFork(s, s', e);
    hide Writable, IsLib, IsCow, Has, Cowed, Uncowed, TwoMaps, Window, ViewOf, InWindow;
    var m := Entry(c.ucow, c.perm);
    hide Entry, ForkOk, ForksOk, HandlersOk;
    SameForksSameWindows2(s, s', e);
    FreshFrame(s, s', p0, m);
    forall d | d in s.procs && d != e ensures Undisturbed(s, s', d) {
      CowMapUndisturbed(s, s', e, p0, m, d);
    }
    AllOk(s, s', {e});
    CopyIsComplete(s, e);
    hide Exclusive, KindsAgree, HandlerOk;
    RunningNotInWindow(s, p0);
    RunningNotInWindow(s', p0);
    forall p ensures ViewOf(s', p) == ViewOf(s, p) {
      if p != p0 {
        SameView(s, s', p);
      } else {
        PrivateView(s, p0);
        PrivateView(s', p0);
      }
    }
  }

  lemma PrivateView(s: State, p: Place)
    requires Closed(s) && p in s.pages && !IsLib(s.pages[p]) && !InWindow(s, p)
    ensures ViewOf(s, p) == Private(s.mem[s.pages[p].frame])
  {
  }

  lemma CopyIsComplete(s: State, e: nat)
    requires Closed(s) && Handling(s, e) && s.procs[e].cow.Copying? && s.procs[e].cow.done == PAGE_SIZE
             && HandlerOk(s, e)
    ensures s.mem[s.procs[e].cow.ucow] == s.mem[s.pages[Place(e, s.procs[e].cow.v)].frame]
    ensures !IsLib(s.pages[Place(e, s.procs[e].cow.v)])
  {
    hide Writable, IsLib, IsCow, Has, Entry;
  }

  /** fork is not in the middle of the page that cow_entry remaps. */
  lemma CowMapFork(s: State, s': State, e: nat)
    requires ProcsOk(s) && Handling(s, e) && s.procs[e].cow.Copying? && HandlerOk(s, e) && ForkOk(s, e)
    requires var c := s.procs[e].cow;
             s' == SetCow(MapPage(s, Place(e, c.v), Entry(c.ucow, c.perm)), e, Remapped(c.v, c.ucow))
    ensures ForkOk(s', e) && HandlerOk(s', e)
  {
    var c, f := s.procs[e].cow, s.procs[e].fork;
    hide Has, Cowed, Uncowed;
    if f.GotPerm? || f.FirstMapped? {
      assert f.perm == s.pages[Place(e, f.v)].perm;
      assert f.v != c.v;
      if f.FirstMapped? {
        assert f.child != e;
      }
    }
  }

  lemma SameForksSameWindows2(s: State, s': State, e: nat)
    requires ProcsOk(s) && e in s.procs && s.procs[e].started && e in s'.procs
    requires forall p :: p in s'.pages <==> p in s.pages
    requires s'.procs == s.procs[e := s.procs[e].(cow := s'.procs[e].cow)]
    ensures ProcsOk(s') && SameWindows(s, s')
  {
  }

  lemma CowMapUndisturbed(s: State, s': State, e: nat, p: Place, m: Mapping, d: nat)
    requires Inv(s) && Closed(s') && e in s.procs && e in s'.procs && d in s.procs && d != e && p.env == e
    requires s.procs[e].started && s.procs[e].cow.Copying? && s.procs[e].cow.ucow == m.frame
             && !s'.procs[e].cow.Copying?
    requires s'.pages == s.pages[p := m] && s'.mem == s.mem && s'.procs == s.procs[e := s'.procs[e]]
    ensures Undisturbed(s, s', d)
  {
    hide Writable, IsLib, IsCow, Has, Cowed, Entry, TwoMaps, StoreInGap, Exclusive, KindsAgree;
    assert ForkOk(s, d) && HandlerOk(s, d);
  }

  /* ---- duppage ---- */

  lemma DupMapRefines(s: State, e: nat)
    requires Inv(s) && Guarded(s, DupMap(e))
    ensures Refines(s, DupMap(e))
  {
    hide Exclusive, KindsAgree, ProcsOk, ForksOk, HandlersOk, ViewOf, Writable, IsLib, IsCow, SameWindows, Has,
      TwoMaps, ChildPerm;
    var f := s.procs[e].fork;
    var s' := Step(s, DupMap(e));
    GotPermBound(s, e);
    if !LegalVpn(f.v) {
      ForkNotes(s, s', e, Loop(f.child, f.v + 1));
    } else {
      DupMapNotes(s, s', e);
    }
  }

  lemma GotPermBound(s: State, e: nat)
    requires Inv(s) && e in s.procs && s.procs[e].fork.GotPerm?
    ensures s.procs[e].fork.v < USTACK_VPN
  {
    hide Exclusive, KindsAgree, HandlersOk;
    assert ForkOk(s, e);
  }

  lemma DupMapNotes(s: State, s': State, e: nat)
    requires Inv(s) && Running(s, e) && s.procs[e].fork.GotPerm? && Place(e, s.procs[e].fork.v) in s.pages
    requires LegalVpn(s.procs[e].fork.v)
    requires var f := s.procs[e].fork;
             var s1 := MapPage(s, Place(f.child, f.v), Entry(s.pages[Place(e, f.v)].frame, ChildPerm(f.perm)));
             s' == SetFork(s1, e, if TwoMaps(f.perm) then FirstMapped(f.child, f.v, f.perm) else Loop(f.child, f.v + 1))
    ensures Inv(s')
    ensures var f := s.procs[e].fork;
            forall p :: ViewOf(s', p) ==
              if p == Place(f.child, f.v) then (if TwoMaps(f.perm) then Pending else ViewOf(s, Place(e, f.v)))
              else ViewOf(s, p)
  {
    var f := s.procs[e].fork;
    assert ForkOk(s, e);
    var p, q := Place(e, f.v), Place(f.child, f.v);
    var m := Entry(s.pages[p].frame, ChildPerm(f.perm));
    ChildFlags(s.pages[p], m);
    DupMapPages(s, s', e, m);
    hide Writable, IsLib, IsCow, Has, Cowed, Uncowed, ChildPerm, Exclusive, KindsAgree, Entry, ForkOk, HandlersOk,
      ForksOk, ViewOf;
    forall d | d in s.procs && d != e ensures Undisturbed(s, s', d) {
      DupUndisturbed(s, s', e, q, m, d);
    }
    AllOk(s, s', {e});
    DupMapViews(s, s', e, m);
  }

  lemma ChildFlags(pm: Mapping, m: Mapping)
    requires m == Entry(pm.frame, ChildPerm(pm.perm))
    ensures IsLib(m) == IsLib(pm)
    ensures Writable(m) ==> IsLib(m)
    ensures TwoMaps(pm.perm) ==> !IsLib(pm) && Writable(pm) && m == Entry(pm.frame, Cowed(pm.perm))
    ensures Writable(pm) && !IsLib(pm) ==> TwoMaps(pm.perm)
  {
  }

  lemma DupMapPages(s: State, s': State, e: nat, m: Mapping)
    requires Inv(s) && Running(s, e) && s.procs[e].fork.GotPerm? && Place(e, s.procs[e].fork.v) in s.pages
    requires var f := s.procs[e].fork;
             && f.v < USTACK_VPN && LegalVpn(f.v) && s.pages[Place(e, f.v)].perm == f.perm
             && m == Entry(s.pages[Place(e, f.v)].frame, ChildPerm(f.perm))
             && s' == SetFork(MapPage(s, Place(f.child, f.v), m), e, if TwoMaps(f.perm)
                              then FirstMapped(f.child, f.v, f.perm) else Loop(f.child, f.v + 1))
    ensures Exclusive(s') && KindsAgree(s') && ProcsOk(s') && ForkOk(s', e) && HandlerOk(s', e)
  {
    var f := s.procs[e].fork;
    var p, q := Place(e, f.v), Place(f.child, f.v);
    ChildFlags(s.pages[p], m);
    assert UserPage(p.vpn) && f.child in s.procs && f.child != e;
    hide Writable, IsLib, IsCow, Has, Cowed, Uncowed, ChildPerm, ForkOk, HandlersOk, ForksOk, UserPage, LegalVpn;
    assert ForkOk(s', e) by { DupMapForkOk(s, s', e, m); }
    assert HandlerOk(s', e);
    hide HandlerOk, Entry;
    forall x, y | x in s'.pages && y in s'.pages && x != y && s'.pages[x].frame == s'.pages[y].frame
      ensures Writable(s'.pages[x]) && !IsLib(s'.pages[x]) ==> Window(s', x, y) {
      DupMapExclusive(s, s', e, m, x, y);
    }
  }

  lemma DupMapForkOk(s: State, s': State, e: nat, m: Mapping)
    requires e in s.procs && s.procs[e].fork.GotPerm? && Place(e, s.procs[e].fork.v) in s.pages
    requires var f := s.procs[e].fork;
             && f.v < USTACK_VPN && LegalVpn(f.v) && s.pages[Place(e, f.v)].perm == f.perm && f.child != e
             && m == Entry(s.pages[Place(e, f.v)].frame, ChildPerm(f.perm))
             && s' == SetFork(MapPage(s, Place(f.child, f.v), m), e, if TwoMaps(f.perm)
                              then FirstMapped(f.child, f.v, f.perm) else Loop(f.child, f.v + 1))
    ensures ForkOk(s', e)
  {
    ChildFlags(s.pages[Place(e, s.procs[e].fork.v)], m);
    hide Has, Cowed, ChildPerm;
  }

  lemma DupMapExclusive(s: State, s': State, e: nat, m: Mapping, x: Place, y: Place)
    requires Exclusive(s) && KindsAgree(s) && ProcsOk(s) && Running(s, e) && s.procs[e].fork.GotPerm?
    requires Place(e, s.procs[e].fork.v) in s.pages && m.frame == s.pages[Place(e, s.procs[e].fork.v)].frame
    requires var f := s.procs[e].fork; var pm := s.pages[Place(e, f.v)];
             && IsLib(m) == IsLib(pm) && (Writable(m) ==> IsLib(m)) && (Writable(pm) && !IsLib(pm) ==> TwoMaps(f.perm))
             && f.child != e
             && s' == SetFork(MapPage(s, Place(f.child, f.v), m), e, if TwoMaps(f.perm)
                              then FirstMapped(f.child, f.v, f.perm) else Loop(f.child, f.v + 1))
    requires x in s'.pages && y in s'.pages && x != y && s'.pages[x].frame == s'.pages[y].frame
    ensures Writable(s'.pages[x]) && !IsLib(s'.pages[x]) ==> Window(s', x, y)
  {
    var f := s.procs[e].fork;
    var p, q := Place(e, f.v), Place(f.child, f.v);
    hide Writable, IsLib, TwoMaps;
    if Writable(s'.pages[x]) && !IsLib(s'.pages[x]) {
      assert x != q;
      if y == q {
        if x != p {
          OtherFrame(s, x, p);
          assert false;
        }
      } else {
        assert Window(s, x, y);
      }
    }
  }

  lemma DupUndisturbed(s: State, s': State, e: nat, q: Place, m: Mapping, d: nat)
    requires Inv(s) && Closed(s') && Running(s, e) && e in s'.procs && d in s.procs && d != e
    requires !s.procs[e].fork.NoFork? && (q.env == s.procs[e].fork.child || q.env == e)
    requires exists p :: p in s.pages && s.pages[p].frame == m.frame
    requires s'.pages == s.pages[q := m] && s'.mem == s.mem && s'.procs == s.procs[e := s'.procs[e]]
             && s'.procs[e].cow == s.procs[e].cow
    ensures Undisturbed(s, s', d)
  {
    hide Writable, IsLib, IsCow, Has, Cowed, Entry, TwoMaps, StoreInGap, Exclusive, KindsAgree;
    assert ForkOk(s, d) && HandlerOk(s, d);
  }

  lemma DupMapViews(s: State, s': State, e: nat, m: Mapping)
    requires Closed(s) && Closed(s') && ProcsOk(s) && ProcsOk(s') && Running(s, e) && s.procs[e].fork.GotPerm?
    requires Place(e, s.procs[e].fork.v) in s.pages && m.frame == s.pages[Place(e, s.procs[e].fork.v)].frame
    requires var f := s.procs[e].fork;
             && f.child != e && IsLib(m) == IsLib(s.pages[Place(e, f.v)]) && (TwoMaps(f.perm) ==> !IsLib(m))
             && s' == SetFork(MapPage(s, Place(f.child, f.v), m), e, if TwoMaps(f.perm)
                              then FirstMapped(f.child, f.v, f.perm) else Loop(f.child, f.v + 1))
    ensures var f := s.procs[e].fork;
            forall p :: ViewOf(s', p) ==
              if p == Place(f.child, f.v) then (if TwoMaps(f.perm) then Pending else ViewOf(s, Place(e, f.v)))
              else ViewOf(s, p)
  {
    var f := s.procs[e].fork;
    var q := Place(f.child, f.v);
    hide IsLib, TwoMaps;
    RunningNotInWindow(s, Place(e, f.v));
    assert TwoMaps(f.perm) ==> Window(s', Place(e, q.vpn), q);
    forall p ensures InWindow(s', p) <==> (TwoMaps(f.perm) && p == q) || (p != q && InWindow(s, p)) {
      DupMapWindow(s, s', e, p);
    }
  }

  lemma DupMapWindow(s: State, s': State, e: nat, p: Place)
    requires ProcsOk(s) && e in s.procs && s.procs[e].fork.GotPerm?
    requires var f := s.procs[e].fork;
             && s'.procs ==
                  s.procs[e := s.procs[e].(fork := if TwoMaps(f.perm) then FirstMapped(f.child, f.v, f.perm)
                                           else Loop(f.child, f.v + 1))]
    ensures var f := s.procs[e].fork;
            InWindow(s', p) <==>
              (TwoMaps(f.perm) && p == Place(f.child, f.v)) || (p != Place(f.child, f.v) && InWindow(s, p))
  {
    hide TwoMaps;
    var f := s.procs[e].fork;
    if p == Place(f.child, f.v) && TwoMaps(f.perm) {
      assert Window(s', Place(e, p.vpn), p);
    }
    if InWindow(s, p) {
      var x :| Window(s, Place(x, p.vpn), p);
      assert x != e ==> Window(s', Place(x, p.vpn), p);
    }
    if InWindow(s', p) {
      var x :| Window(s', Place(x, p.vpn), p);
      assert x != e ==> Window(s, Place(x, p.vpn), p);
    }
  }

  lemma DupRemapRefines(s: State, e: nat)
    requires Inv(s) && Guarded(s, DupRemap(e))
    ensures Refines(s, DupRemap(e))
  {
    hide Exclusive, KindsAgree, ProcsOk, ForksOk, HandlersOk, ViewOf, Writable, IsLib, IsCow, SameWindows, Has, TwoMaps;
    DupRemapNotes(s, Step(s, DupRemap(e)), e);
  }

  /** The parent loses PTE_W: from now on the child's page has the content of this moment. */
  lemma DupRemapNotes(s: State, s': State, e: nat)
    requires Inv(s) && Running(s, e) && s.procs[e].fork.FirstMapped? && Place(e, s.procs[e].fork.v) in s.pages
    requires var f := s.procs[e].fork;
             s' == SetFork(MapPage(s, Place(e, f.v), Entry(s.pages[Place(e, f.v)].frame, Cowed(f.perm))), e,
                           Loop(f.child, f.v + 1))
    ensures Inv(s')
    ensures var f := s.procs[e].fork;
            forall p :: ViewOf(s', p) == if p == Place(f.child, f.v) then ViewOf(s, Place(e, f.v)) else ViewOf(s, p)
  {
    var f := s.procs[e].fork;
    var p := Place(e, f.v);
    assert ForkOk(s, e);
    var m := Entry(s.pages[p].frame, Cowed(f.perm));
    Flags(s.pages[p].frame, f.perm);
    hide Writable, IsLib, IsCow, Has, Cowed, Uncowed, Exclusive, KindsAgree, ForkOk, HandlersOk, ForksOk, ViewOf;
    DupRemapPages(s, s', e, m);
    hide Entry;
    forall d | d in s.procs && d != e ensures Undisturbed(s, s', d) {
      DupUndisturbed(s, s', e, p, m, d);
    }
    AllOk(s, s', {e});
    DupRemapViews(s, s', e, m);
  }

  lemma DupRemapPages(s: State, s': State, e: nat, m: Mapping)
    requires Inv(s) && Running(s, e) && s.procs[e].fork.FirstMapped? && ForkOk(s, e)
    requires var f := s.procs[e].fork;
             && Place(e, f.v) in s.pages && m.frame == s.pages[Place(e, f.v)].frame
             && !Writable(m) && !IsLib(m) && !IsLib(s.pages[Place(e, f.v)])
             && s' == SetFork(MapPage(s, Place(e, f.v), m), e, Loop(f.child, f.v + 1))
    ensures Exclusive(s') && KindsAgree(s') && ProcsOk(s') && ForkOk(s', e) && HandlerOk(s', e)
  {
    var f := s.procs[e].fork;
    var p := Place(e, f.v);
    hide Writable, IsLib, IsCow, Has, Cowed, Uncowed, Entry, ForksOk, HandlersOk, UserPage, TwoMaps, StoreInGap;
    forall x, y | x in s'.pages && y in s'.pages && x != y && s'.pages[x].frame == s'.pages[y].frame
      ensures Writable(s'.pages[x]) && !IsLib(s'.pages[x]) ==> Window(s', x, y) {
      if Writable(s'.pages[x]) && !IsLib(s'.pages[x]) {
        assert x != p && Window(s, x, y);
        assert x.env != e;
      }
    }
  }

  lemma DupRemapViews(s: State, s': State, e: nat, m: Mapping)
    requires Closed(s) && Closed(s') && ProcsOk(s) && ProcsOk(s') && Running(s, e) && s.procs[e].fork.FirstMapped?
             && ForkOk(s, e)
    requires var f := s.procs[e].fork;
             && Place(e, f.v) in s.pages && m.frame == s.pages[Place(e, f.v)].frame
             && !IsLib(m) && !IsLib(s.pages[Place(e, f.v)]) && Place(f.child, f.v) in s.pages
                && !IsLib(s.pages[Place(f.child, f.v)])
             && s' == SetFork(MapPage(s, Place(e, f.v), m), e, Loop(f.child, f.v + 1))
    ensures var f := s.procs[e].fork;
            forall p :: ViewOf(s', p) == if p == Place(f.child, f.v) then ViewOf(s, Place(e, f.v)) else ViewOf(s, p)
  {
    var f := s.procs[e].fork;
    var p, q := Place(e, f.v), Place(f.child, f.v);
    assert s.pages[q].frame == m.frame;
    hide IsLib, ForkOk;
    RunningNotInWindow(s, p);
    RunningNotInWindow(s', p);
    forall x ensures InWindow(s', x) <==> x != q && InWindow(s, x) {
      DupRemapWindow(s, s', e, x);
    }
  }

  lemma DupRemapWindow(s: State, s': State, e: nat, p: Place)
    requires ProcsOk(s) && e in s.procs && s.procs[e].fork.FirstMapped?
    requires var f := s.procs[e].fork; s'.procs == s.procs[e := s.procs[e].(fork := Loop(f.child, f.v + 1))]
    ensures InWindow(s', p) <==> p != Place(s.procs[e].fork.child, s.procs[e].fork.v) && InWindow(s, p)
  {
    var q := Place(s.procs[e].fork.child, s.procs[e].fork.v);
    if InWindow(s, p) && p != q {
      var x :| Window(s, Place(x, p.vpn), p);
      assert Window(s', Place(x, p.vpn), p);
    }
    if InWindow(s', p) {
      var x :| Window(s', Place(x, p.vpn), p);
      assert Window(s, Place(x, p.vpn), p);
    }
  }

  /* ---- Every step ---- */

  lemma GuardedRefines(s: State, a: Action)
    requires Inv(s) && Guarded(s, a)
    ensures Refines(s, a)
  {
    hide Guarded, Inv, Refines;
    match a
    case Store(e, v, off, b) => StoreRefines(s, e, v, off, b);
    case Touch(e, v, f) => TouchRefines(s, e, v, f);
    case MemAlloc(e, v, perm, f) => MemAllocRefines(s, e, v, perm, f);
    case MemUnmap(e, v) => MemUnmapRefines(s, e, v);
    case Exit(e) => ExitRefines(s, e);
    case Exofork(e, c, fs) => ExoforkRefines(s, e, c, fs);
    case DupSkip(e) => DupSkipRefines(s, e);
    case DupRead(e) => DupReadRefines(s, e);
    case DupMap(e) => DupMapRefines(s, e);
    case DupRemap(e) => DupRemapRefines(s, e);
    case StartChild(e) => StartChildRefines(s, e);
    case CowAlloc(e, f) => CowAllocRefines(s, e, f);
    case CowCopy(e) => CowCopyRefines(s, e);
    case CowMap(e) => CowMapRefines(s, e);
    case CowUnmap(e) => CowUnmapRefines(s, e);
  }

  /* ---- Why fork never stores in the gap ---- */

  /** fork comes to a mapped page before it comes to a copy-on-write page of its frames; when it has read the flags of
      a page of its frames, that page is not copy-on-write; and once it has mapped a page, no page of its frames ahead
      is. */
  ghost predicate CallOk(s: State, e: nat)
    requires e in s.procs
  {
    var frames := s.procs[e].frames;
    match s.procs[e].fork
    case NoFork => true
    case Loop(_, n) => forall v :: v in frames && n <= v && CowAt(s, e, v) ==> exists w: nat ::
      n <= w < v && Place(e, w) in s.pages
    case GotPerm(_, v, _) => v in frames ==> !CowAt(s, e, v)
    case FirstMapped(_, v, _) => forall w :: w in frames && v < w ==> !CowAt(s, e, w)
  }

  ghost predicate CallsOk(s: State) { forall e :: e in s.procs ==> CallOk(s, e) }

  /** The invariant of runs. */
  ghost predicate Safe(s: State)
    ensures Safe(s) ==> Inv(s)
  {
    Inv(s) && CallsOk(s)
  }

  lemma NeverInGap(s: State, a: Action)
    requires Safe(s) && Enabled(s, a)
    ensures Guarded(s, a)
  {
    if a.Store? && s.procs[a.e].fork.GotPerm? {
      assert CallOk(s, a.e) && ForkOk(s, a.e);
    }
    hide Exclusive, KindsAgree, HandlersOk, ProcsOk, IsLib, Has, CallsOk, ForksOk;
  }

  /** Pages of env d are there still, and none has become copy-on-write. */
  ghost predicate NoNewCow(s: State, s': State, d: nat)
  {
    && (forall v :: Place(d, v) in s.pages ==> Place(d, v) in s'.pages)
    && (forall v :: CowAt(s', d, v) ==> CowAt(s, d, v))
  }

  lemma CallStays(s: State, s': State, d: nat)
    requires d in s.procs && d in s'.procs && s'.procs[d].fork == s.procs[d].fork
             && s'.procs[d].frames == s.procs[d].frames
    requires CallOk(s, d) && NoNewCow(s, s', d)
    ensures CallOk(s', d)
  {
    hide CowAt;
  }

  lemma SamePagesNoNewCow(s: State, s': State, d: nat)
    requires forall v :: Place(d, v) in s'.pages <==> Place(d, v) in s.pages
    requires forall v :: Place(d, v) in s.pages ==> s'.pages[Place(d, v)] == s.pages[Place(d, v)]
    ensures NoNewCow(s, s', d)
  {
    hide IsCow, IsLib;
  }

  /** A page that becomes writable, or a new writable page. */
  lemma WritableNoNewCow(s: State, s': State, p: Place, m: Mapping, d: nat)
    requires s'.pages == s.pages[p := m] && Writable(m)
    ensures NoNewCow(s, s', d)
  {
    NotBoth(m);
    hide IsCow, IsLib, Writable;
  }

  lemma NotBoth(m: Mapping)
    ensures Writable(m) ==> !IsCow(m)
  {
  }

  /** An env that stays where it is in fork. */
  lemma OtherCalls(s: State, a: Action, d: nat)
    requires Inv(s) && Possible(s, a) && d in s.procs && !s.procs[d].fork.NoFork?
    requires d in Step(s, a).procs && Step(s, a).procs[d].fork == s.procs[d].fork
    ensures NoNewCow(s, Step(s, a), d) && Step(s, a).procs[d].frames == s.procs[d].frames
  {
    SameFrames(s, a, d);
    if a.Touch? {
      NewIsWritable(a.frame);
      WritableNoNewCow(s, Step(s, a), Place(a.e, a.v), Entry(a.frame, PTE_R | PTE_W | PTE_U), d);
    } else if a.CowMap? {
      var c := s.procs[a.e].cow;
      HandlerMakesWritable(s, a.e);
      WritableNoNewCow(s, Step(s, a), Place(a.e, c.v), Entry(c.ucow, c.perm), d);
    } else {
      hide Step, Possible, Inv, NoNewCow;
      OtherPages(s, a, d);
      SamePagesNoNewCow(s, Step(s, a), d);
    }
  }

  lemma SameFrames(s: State, a: Action, d: nat)
    requires Closed(s) && Possible(s, a) && d in s.procs && !s.procs[d].fork.NoFork?
    requires d in Step(s, a).procs && Step(s, a).procs[d].fork == s.procs[d].fork
    ensures Step(s, a).procs[d].frames == s.procs[d].frames
  {
    hide IsCow, IsLib, Writable, Has, Cowed, Uncowed, ChildPerm, TwoMaps, LegalVpn, UserPage, Unused, StackPage, Entry;
  }

  /** The other steps change pages of the env itself, which is not in fork then, or of its child, or of its page v. */
  lemma OtherPages(s: State, a: Action, d: nat)
    requires Inv(s) && Possible(s, a) && !a.Touch? && !a.CowMap? && d in s.procs && !s.procs[d].fork.NoFork?
    requires d in Step(s, a).procs && Step(s, a).procs[d].fork == s.procs[d].fork
    ensures forall v :: Place(d, v) in Step(s, a).pages <==> Place(d, v) in s.pages
    ensures forall v :: Place(d, v) in s.pages ==> Step(s, a).pages[Place(d, v)] == s.pages[Place(d, v)]
  {
    hide Exclusive, KindsAgree, HandlersOk, ForksOk, IsCow, IsLib, Writable, Has, Cowed, Uncowed, ChildPerm, TwoMaps,
      LegalVpn, UserPage, Unused, StackPage, Entry;
  }

  lemma NewIsWritable(f: nat)
    ensures Writable(Entry(f, PTE_R | PTE_W | PTE_U))
  {
  }

  lemma HandlerMakesWritable(s: State, e: nat)
    requires HandlersOk(s) && e in s.procs && s.procs[e].cow.Copying?
    ensures Writable(Entry(s.procs[e].cow.ucow, s.procs[e].cow.perm))
  {
    assert HandlerOk(s, e);
    hide Writable, Faulting, CopyOk, Has;
  }

  predicate MovesInFork(a: Action) { a.Exofork? || a.DupSkip? || a.DupRead? || a.DupMap? || a.DupRemap? }

  /** The env that goes on in fork. */
  lemma OwnCall(s: State, a: Action)
    requires Safe(s) && Enabled(s, a) && a.e in s.procs && a.e in Step(s, a).procs
    requires MovesInFork(a)
    ensures CallOk(Step(s, a), a.e)
  {
    assert CallOk(s, a.e);
    hide Step, Possible, CallOk, CallsOk, Inv;
    match a {
      case DupMap(e) => MappedCall(s, e);
      case DupRemap(e) => RemappedCall(s, e);
      case Exofork(e, c, fs) => StartedCall(s, e, c, fs);
      case DupSkip(e) => LoopCall(s, a);
      case DupRead(e) => LoopCall(s, a);
      case _ =>
    }
  }

  lemma StartedCall(s: State, e: nat, c: nat, fs: set<nat>)
    requires Closed(s) && Enabled(s, Exofork(e, c, fs))
    ensures e in Step(s, Exofork(e, c, fs)).procs && CallOk(Step(s, Exofork(e, c, fs)), e)
  {
    hide IsCow, IsLib;
  }

  lemma LoopCall(s: State, a: Action)
    requires Closed(s) && Possible(s, a) && (a.DupSkip? || a.DupRead?) && CallOk(s, a.e)
    ensures a.e in Step(s, a).procs && CallOk(Step(s, a), a.e)
  {
    hide IsCow, IsLib;
  }

  lemma MappedCall(s: State, e: nat)
    requires Inv(s) && Possible(s, DupMap(e))
    ensures CallOk(Step(s, DupMap(e)), e)
  {
    hide Exclusive, KindsAgree, HandlersOk, ForksOk, Has, Cowed, Uncowed, ChildPerm, TwoMaps, LegalVpn, UserPage,
      Writable, IsCow, IsLib;
    var s' := Step(s, DupMap(e));
    assert s.procs[e].fork.child != e;
    forall v | v in s.procs[e].frames ensures !CowAt(s', e, v) {
      assert s'.pages[Place(e, v)] == s.pages[Place(e, v)];
      NotBoth(s.pages[Place(e, v)]);
    }
  }

  lemma RemappedCall(s: State, e: nat)
    requires Inv(s) && Possible(s, DupRemap(e)) && CallOk(s, e)
    ensures CallOk(Step(s, DupRemap(e)), e)
  {
    hide Exclusive, KindsAgree, HandlersOk, ForksOk, ProcsOk, Has, Cowed, IsCow, IsLib;
  }

  lemma CallsKeep(s: State, a: Action)
    requires Safe(s) && Enabled(s, a)
    ensures CallsOk(Step(s, a))
  {
    var s' := Step(s, a);
    forall d | d in s'.procs ensures CallOk(s', d) {
      hide Inv, Step, Enabled, NoNewCow, CallOk, CallsOk;
      if s'.procs[d].fork.NoFork? {
        IdleCall(s', d);
      } else {
        CallKeeps(s, a, d);
      }
    }
  }

  lemma CallKeeps(s: State, a: Action, d: nat)
    requires Safe(s) && Enabled(s, a) && d in Step(s, a).procs && !Step(s, a).procs[d].fork.NoFork?
    ensures CallOk(Step(s, a), d)
  {
    Whose(s, a, d);
    hide Inv, Step, Enabled, NoNewCow, CallOk, CallsOk;
    if Step(s, a).procs[d].fork == s.procs[d].fork {
      OneCall(s, d);
      OtherCalls(s, a, d);
      CallStays(s, Step(s, a), d);
    } else {
      OwnCall(s, a);
    }
  }

  lemma IdleCall(s: State, d: nat)
    requires d in s.procs && s.procs[d].fork.NoFork?
    ensures CallOk(s, d)
  {
  }

  lemma OneCall(s: State, d: nat)
    requires CallsOk(s) && d in s.procs
    ensures CallOk(s, d)
  {
  }

  /** Only the env of the step moves in fork. */
  lemma Whose(s: State, a: Action, d: nat)
    requires Inv(s) && Possible(s, a) && d in Step(s, a).procs && !Step(s, a).procs[d].fork.NoFork?
    ensures d in s.procs && (Step(s, a).procs[d].fork == s.procs[d].fork || (d == a.e && MovesInFork(a)))
  {
    hide Exclusive, KindsAgree, HandlersOk, ForksOk;
  }

  /** Copy-on-write refines private memories: every step keeps the invariant and changes the views of all
      pages of all envs exactly as the abstract machine says. */
  lemma StepRefines(s: State, a: Action)
    requires Safe(s) && Enabled(s, a)
    ensures Refines(s, a) && Safe(Step(s, a))
  {
    NeverInGap(s, a);
    GuardedRefines(s, a);
    CallsKeep(s, a);
    hide Inv, Enabled, Guarded, Step, CallsOk, ViewOf, Expected, SharedContent;
  }

  /* ---- Every run ---- */

  /** A state in which envs run and none is in fork or in cow_entry, with a frame of its own behind every page. */
  lemma StartIsSafe(s: State)
    requires Closed(s) && forall p, q :: p in s.pages && q in s.pages && s.pages[p].frame == s.pages[q].frame ==> p == q
    requires forall p :: p in s.pages ==> p.env in s.procs && UserPage(p.vpn)
    requires forall e :: e in s.procs ==> s.procs[e].started && s.procs[e].fork.NoFork? && s.procs[e].cow.NoCow?
    ensures Safe(s)
  {
    hide IsLib, Writable;
  }

  ghost function Next(s: State, a: Action): (s': State)
    requires Safe(s) && Enabled(s, a)
    ensures Safe(s')
  {
    StepRefines(s, a); Step(s, a)
  }

  ghost predicate IsRun(s: State, acts: seq<Action>)
    requires Safe(s)
    decreases |acts|
  {
    acts == [] || (Enabled(s, acts[0]) && IsRun(Next(s, acts[0]), acts[1..]))
  }

  ghost function After(s: State, acts: seq<Action>): (s': State)
    requires Safe(s) && IsRun(s, acts)
    ensures Safe(s')
    decreases |acts|
  {
    if acts == [] then s else After(Next(s, acts[0]), acts[1..])
  }

  /** The stores to private page p in a run are the only things that change what its env reads there, as
      long as the env neither gives the page back nor exits. */
  predicate Replaces(a: Action, p: Place)
  {
    match a
    case MemAlloc(e, v, _, _) => p == Place(e, v)
    case MemUnmap(e, v) => p == Place(e, v)
    case Exit(e) => p.env == e
    case _ => false
  }

  ghost function Stored(s: State, acts: seq<Action>, p: Place, c: Content): Content
    requires Safe(s) && IsRun(s, acts)
    decreases |acts|
  {
    if acts == [] then c else
    Stored(Next(s, acts[0]), acts[1..], p,
           if acts[0].Store? && p == Place(acts[0].e, acts[0].v) && p in s.pages && Writable(s.pages[p])
           then Write(c, acts[0].off, acts[0].b) else c)
  }

  /** Isolation over runs: the private memory of a started env is what it was, with the env's own stores
      applied. No store, fault, fork or exit of another env shows in it. */
  lemma {:induction false} Isolation(s: State, acts: seq<Action>, p: Place)
    requires Safe(s) && IsRun(s, acts) && p.env in s.procs && s.procs[p.env].started
    requires ViewOf(s, p).Private? && forall a :: a in acts ==> !Replaces(a, p)
    ensures ViewOf(After(s, acts), p) == Private(Stored(s, acts, p, ViewOf(s, p).c))
    decreases |acts|
  {
    hide Safe, ViewOf, Enabled, Step;
    if acts != [] {
      StepRefines(s, acts[0]);
      assert !Replaces(acts[0], p);
      StartedStays(s, acts[0], p);
      OneStep(s, acts[0], p);
      Isolation(Next(s, acts[0]), acts[1..], p);
    }
  }

  lemma StartedStays(s: State, a: Action, p: Place)
    requires Safe(s) && Enabled(s, a) && p.env in s.procs && s.procs[p.env].started && !(a.Exit? && a.e == p.env)
    ensures p.env in Step(s, a).procs && Step(s, a).procs[p.env].started
  {
    hide Exclusive, KindsAgree, ForksOk, HandlersOk, ProcsOk;
  }

  lemma OneStep(s: State, a: Action, p: Place)
    requires Safe(s) && Enabled(s, a) && Refines(s, a) && p.env in s.procs && s.procs[p.env].started
    requires ViewOf(s, p).Private? && !Replaces(a, p)
    ensures ViewOf(Step(s, a), p) ==
              Private(if a.Store? && p == Place(a.e, a.v) && p in s.pages && Writable(s.pages[p])
                      then Write(ViewOf(s, p).c, a.off, a.b) else ViewOf(s, p).c)
  {
    hide Exclusive, KindsAgree, ForksOk, HandlersOk, Step, ViewOf, Has, Writable, IsLib, IsCow, SharedContent, LegalVpn;
    NoPageNoView(s, p);
    assert ViewOf(Step(s, a), p) == Expected(s, a, p);
  }

  /** When fork starts the child, none of the child's pages can be changed by the parent any more. */
  lemma ChildIsComplete(s: State, e: nat, v: nat)
    requires Safe(s) && Enabled(s, StartChild(e))
    ensures ViewOf(s, Place(s.procs[e].fork.child, v)) != Pending
  {
    hide Exclusive, KindsAgree, ForksOk, HandlersOk;
    assert !InWindow(s, Place(s.procs[e].fork.child, v));
  }

  /** The loop of fork in env e is past page v. */
  predicate Past(s: State, e: nat, v: nat)
  {
    e in s.procs &&
    match s.procs[e].fork
    case NoFork => false
    case Loop(_, n) => v < n
    case GotPerm(_, w, _) => v < w
    case FirstMapped(_, w, _) => v < w
  }

  /** A step that does not start the child leaves the child's pages behind the loop alone. */
  lemma PastStep(s: State, a: Action, e: nat, v: nat)
    requires Safe(s) && Enabled(s, a) && Past(s, e, v) && a != StartChild(e)
    ensures Past(Step(s, a), e, v) && Step(s, a).procs[e].fork.child == s.procs[e].fork.child
    ensures Expected(s, a, Place(s.procs[e].fork.child, v)) == ViewOf(s, Place(s.procs[e].fork.child, v))
  {
    hide CallsOk;
    hide Exclusive, KindsAgree, ForksOk, HandlersOk, ViewOf, IsLib, IsCow, Writable, Has, Cowed, Uncowed, ChildPerm,
      TwoMaps, Entry, LegalVpn, UserPage, Unused, ForkSafe, Closed, StackPage;
  }

  lemma PastNotIdle(s: State, e: nat, v: nat)
    requires Past(s, e, v)
    ensures e in s.procs && !s.procs[e].fork.NoFork?
  {
  }

  lemma {:induction false} ChildKeeps(s: State, acts: seq<Action>, e: nat, v: nat)
    requires Safe(s) && IsRun(s, acts) && Past(s, e, v) && forall a :: a in acts ==> a != StartChild(e)
    ensures var s', q := After(s, acts), Place(s.procs[e].fork.child, v);
            Past(s', e, v) && s'.procs[e].fork.child == q.env && ViewOf(s', q) == ViewOf(s, q)
    decreases |acts|
  {
    PastNotIdle(s, e, v);
    hide Safe, ViewOf, Enabled, Step, Expected, Past;
    if acts != [] {
      assert acts[0] in acts;
      StepRefines(s, acts[0]);
      PastStep(s, acts[0], e, v);
      var q := Place(s.procs[e].fork.child, v);
      assert ViewOf(Step(s, acts[0]), q) == Expected(s, acts[0], q);
      assert forall a :: a in acts[1..] ==> a in acts;
      ChildKeeps(Next(s, acts[0]), acts[1..], e, v);
    }
  }

  /** What a child starts with, over runs: its page has the content that the parent's page had when fork took
      PTE_W from it, or mapped it without, whatever all envs do until the child starts. A page that fork
      skips, because the parent has none or because it lies below UTEMP, is absent. */
  lemma ChildStartsWith(s: State, a: Action, acts: seq<Action>, e: nat)
    requires Safe(s) && IsRun(s, [a] + acts) && e in s.procs && forall b :: b in acts ==> b != StartChild(e)
    requires a == DupRemap(e)
             || (a == DupMap(e) && Enabled(s, a) && (TwoMaps(s.procs[e].fork.perm) ==> !LegalVpn(s.procs[e].fork.v)))
    ensures Enabled(s, a)
    ensures var s' := After(s, [a] + acts);
            var c, v := s.procs[e].fork.child, s.procs[e].fork.v;
            && e in s'.procs && (s'.procs[e].fork.Loop? || s'.procs[e].fork.GotPerm? || s'.procs[e].fork.FirstMapped?)
            && s'.procs[e].fork.child == c
            && ViewOf(s', Place(c, v)) == if LegalVpn(v) then ViewOf(s, Place(e, v)) else ViewOf(s, Place(c, v))
  {
    assert ([a] + acts)[0] == a && ([a] + acts)[1..] == acts;
    hide Safe, ViewOf, Enabled, Possible, Step, Refines, Past;
    StepRefines(s, a);
    PastOwn(s, a, e);
    ChildKeeps(Next(s, a), acts, e, s.procs[e].fork.v);
    PastInFork(After(s, [a] + acts), e, s.procs[e].fork.v);
  }

  lemma PastInFork(s: State, e: nat, v: nat)
    requires Past(s, e, v)
    ensures e in s.procs && (s.procs[e].fork.Loop? || s.procs[e].fork.GotPerm? || s.procs[e].fork.FirstMapped?)
  {
  }

  lemma PastOwn(s: State, a: Action, e: nat)
    requires Safe(s) && Enabled(s, a) && Refines(s, a)
    requires a == DupRemap(e) || (a == DupMap(e) && (TwoMaps(s.procs[e].fork.perm) ==> !LegalVpn(s.procs[e].fork.v)))
    ensures var c, v := s.procs[e].fork.child, s.procs[e].fork.v;
            && Past(Step(s, a), e, v) && Step(s, a).procs[e].fork.child == c
            && ViewOf(Step(s, a), Place(c, v)) == if LegalVpn(v) then ViewOf(s, Place(e, v)) else ViewOf(s, Place(c, v))
  {
    hide Exclusive, KindsAgree, HandlersOk, ViewOf;
    var c, v := s.procs[e].fork.child, s.procs[e].fork.v;
    assert ViewOf(Step(s, a), Place(c, v)) == Expected(s, a, Place(c, v));
  }


  /* ---- Every page is copied before the child starts ---- */

  /** With step a, fork in env e is done with page v: it has mapped the page into the child, and, where PTE_W goes, into
      e as well. */
  predicate DoneWith(s: State, a: Action, e: nat, v: nat)
  {
    e in s.procs &&
    match s.procs[e].fork
    case GotPerm(_, w, perm) => a == DupMap(e) && w == v && !TwoMaps(perm)
    case FirstMapped(_, w, _) => a == DupRemap(e) && w == v
    case _ => false
  }

  /** The flags of the child's page for flags of the parent's page: a private page that user code can write loses
      PTE_W and gets PTE_COW; any other page keeps its flags. */
  predicate ChildGets(perm: bv10, childPerm: bv10)
  {
    if Has(perm, PTE_W) && Has(perm, PTE_U) && !Has(perm, PTE_LIBRARY) then
      && !Has(childPerm, PTE_W) && Has(childPerm, PTE_COW) && Has(childPerm, PTE_V)
      && childPerm & !(PTE_W | PTE_COW | PTE_V) == perm & !(PTE_W | PTE_COW | PTE_V)
    else
      childPerm == perm | PTE_V
  }

  /** At some moment of the run, fork in e copies page v, and e sees w there then; m has that page's frame, and the
      flags of a child. */
  ghost predicate CopiedOnce(s: State, acts: seq<Action>, e: nat, v: nat, w: View, m: Mapping)
    requires Safe(s) && IsRun(s, acts)
    decreases |acts|
  {
    acts != [] &&
    (|| (DoneWith(s, acts[0], e, v) && Place(e, v) in s.pages && ViewOf(s, Place(e, v)) == w
         && m.frame == s.pages[Place(e, v)].frame && ChildGets(s.pages[Place(e, v)].perm, m.perm))
     || CopiedOnce(Next(s, acts[0]), acts[1..], e, v, w, m))
  }

  lemma GetsFlags(perm: bv10)
    ensures ChildGets(perm, ChildPerm(perm) | PTE_V)
  {
  }

  lemma CopyStep(s: State, a: Action, e: nat, v: nat)
    requires Safe(s) && Enabled(s, a) && LegalVpn(v) && DoneWith(s, a, e, v)
    ensures var c := s.procs[e].fork.child;
            && Place(e, v) in s.pages && Past(Step(s, a), e, v) && Step(s, a).procs[e].fork.child == c
            && ViewOf(Step(s, a), Place(c, v)) == ViewOf(s, Place(e, v)) && Place(c, v) in Step(s, a).pages
            && Step(s, a).pages[Place(c, v)].frame == s.pages[Place(e, v)].frame
            && ChildGets(s.pages[Place(e, v)].perm, Step(s, a).pages[Place(c, v)].perm)
  {
    StepRefines(s, a);
    PastOwn(s, a, e);
    CopyMaps(s, a, e, v);
    hide Safe, ViewOf, ChildGets, Refines, Step;
  }

  lemma CopyMaps(s: State, a: Action, e: nat, v: nat)
    requires Safe(s) && Possible(s, a) && LegalVpn(v) && DoneWith(s, a, e, v)
    ensures var q := Place(s.procs[e].fork.child, v);
            && Place(e, v) in s.pages && q in Step(s, a).pages
            && Step(s, a).pages[q].frame == s.pages[Place(e, v)].frame
            && ChildGets(s.pages[Place(e, v)].perm, Step(s, a).pages[q].perm)
  {
    assert ForkOk(s, e);
    GetsFlags(s.procs[e].fork.perm);
    ParentIsNotChild(s, e);
    hide Exclusive, KindsAgree, HandlersOk, ProcsOk, ForksOk, ViewOf, ChildGets, CallsOk;
  }

  lemma ParentIsNotChild(s: State, e: nat)
    requires Safe(s) && e in s.procs && Running(s, e) && !s.procs[e].fork.NoFork?
    ensures s.procs[e].fork.child != e
  {
  }

  /** Any other step leaves the page ahead of the loop, and mapped. */
  lemma AheadStays(s: State, a: Action, e: nat, v: nat)
    requires Safe(s) && Enabled(s, a) && a != StartChild(e) && e in s.procs && !s.procs[e].fork.NoFork?
    requires Place(e, v) in s.pages && LegalVpn(v) && !Past(s, e, v) && !DoneWith(s, a, e, v)
    ensures var s' := Step(s, a);
            && e in s'.procs && !s'.procs[e].fork.NoFork? && s'.procs[e].fork.child == s.procs[e].fork.child
            && Place(e, v) in s'.pages && !Past(s', e, v)
  {
    hide CallsOk;
    hide Exclusive, KindsAgree, ForksOk, HandlersOk, ViewOf, IsLib, IsCow, Writable, Has, Cowed, Uncowed, ChildPerm,
      TwoMaps, Entry, UserPage, Unused, ForkSafe, Closed, StackPage;
  }

  /** The child's page behind the loop stays mapped as it is. */
  lemma {:induction false} ChildPageStays(s: State, acts: seq<Action>, e: nat, v: nat)
    requires Safe(s) && IsRun(s, acts) && Past(s, e, v) && forall a :: a in acts ==> a != StartChild(e)
    requires Place(s.procs[e].fork.child, v) in s.pages
    ensures var s', q := After(s, acts), Place(s.procs[e].fork.child, v);
            q in s'.pages && s'.pages[q] == s.pages[q]
    decreases |acts|
  {
    PastNotIdle(s, e, v);
    hide Safe, Enabled, Step, Past;
    if acts != [] {
      assert acts[0] in acts;
      PastStep(s, acts[0], e, v);
      PageStaysStep(s, acts[0], e, v);
      assert forall a :: a in acts[1..] ==> a in acts;
      ChildPageStays(Next(s, acts[0]), acts[1..], e, v);
    }
  }

  lemma PageStaysStep(s: State, a: Action, e: nat, v: nat)
    requires Safe(s) && Enabled(s, a) && Past(s, e, v) && a != StartChild(e)
    requires Place(s.procs[e].fork.child, v) in s.pages
    ensures var q := Place(s.procs[e].fork.child, v); q in Step(s, a).pages && Step(s, a).pages[q] == s.pages[q]
  {
    hide CallsOk;
    hide Exclusive, KindsAgree, ForksOk, HandlersOk, ViewOf, IsLib, IsCow, Writable, Has, Cowed, Uncowed, ChildPerm,
      TwoMaps, Entry, LegalVpn, UserPage, Unused, ForkSafe, Closed, StackPage;
  }

  /** A page that is ahead of the loop and mapped is copied by the time the loop is past it. */
  lemma {:induction false} AheadIsCopied(s: State, acts: seq<Action>, e: nat, v: nat)
    requires Safe(s) && IsRun(s, acts) && forall a :: a in acts ==> a != StartChild(e)
    requires e in s.procs && !s.procs[e].fork.NoFork? && Place(e, v) in s.pages && LegalVpn(v) && !Past(s, e, v)
    requires Past(After(s, acts), e, v)
    ensures var s', q := After(s, acts), Place(s.procs[e].fork.child, v);
            && q in s'.pages && ViewOf(s', q) != Nothing
            && CopiedOnce(s, acts, e, v, ViewOf(s', q), s'.pages[q])
    decreases |acts|
  {
    hide Safe, Enabled, Step, Past, DoneWith, ViewOf, ChildGets;
    if acts != [] {
      var a, c := acts[0], s.procs[e].fork.child;
      assert a in acts;
      assert forall b :: b in acts[1..] ==> b in acts;
      if DoneWith(s, a, e, v) {
        CopyStep(s, a, e, v);
        ChildKeeps(Next(s, a), acts[1..], e, v);
        ChildPageStays(Next(s, a), acts[1..], e, v);
        MappedIsSeen(s, Place(e, v));
      } else {
        AheadStays(s, a, e, v);
        AheadIsCopied(Next(s, a), acts[1..], e, v);
      }
    }
  }

  lemma MappedIsSeen(s: State, p: Place)
    requires Safe(s) && p in s.pages
    ensures ViewOf(s, p) != Nothing
  {
  }

  /** fork copies the address space: between sys_exofork and the start of the child, every page of the parent from UTEMP
      to USTACKTOP that was there at sys_exofork is copied, and the child starts with it: with the content that the
      parent saw there at that moment, and with the flags of a child. */
  lemma ForkCopiesAll(s: State, e: nat, c: nat, frames: set<nat>, acts: seq<Action>, v: nat)
    requires Safe(s) && Enabled(s, Exofork(e, c, frames))
    requires IsRun(Next(s, Exofork(e, c, frames)), acts) && forall a :: a in acts ==> a != StartChild(e)
    requires Enabled(After(Next(s, Exofork(e, c, frames)), acts), StartChild(e))
    requires UTEMP_VPN <= v < USTACK_VPN && Place(e, v) in s.pages
    ensures var s1 := Next(s, Exofork(e, c, frames));
            var s', q := After(s1, acts), Place(c, v);
            && e in s'.procs && !s'.procs[e].fork.NoFork? && s'.procs[e].fork.child == c
            && q in s'.pages && ViewOf(s', q) != Nothing && ViewOf(s', q) != Pending
            && CopiedOnce(s1, acts, e, v, ViewOf(s', q), s'.pages[q])
  {
    var s1 := Next(s, Exofork(e, c, frames));
    var s' := After(s1, acts);
    ForkBegins(s, e, c, frames, v);
    LoopIsOver(s', e, v);
    ChildIsComplete(s', e, v);
    hide Safe, Enabled, Possible, Step, Past, ViewOf, CopiedOnce, LegalVpn;
    ChildStays(s1, acts, e);
    assert LegalVpn(v) by { UserIsLegal(v); }
    AheadIsCopied(s1, acts, e, v);
  }

  lemma UserIsLegal(v: nat)
    requires UTEMP_VPN <= v < USTACK_VPN
    ensures LegalVpn(v)
  {
  }

  /** fork always goes on, from page to page up to USTACKTOP and then to the start of the child, as long as the pages of
      its frames are writable when it maps a page. */
  lemma ForkGoesOn(s: State, e: nat)
    requires Safe(s) && Running(s, e) && !s.procs[e].fork.NoFork?
    requires s.procs[e].fork.GotPerm? ==>
               forall v :: v in s.procs[e].frames ==> Place(e, v) in s.pages && Writable(s.pages[Place(e, v)])
    ensures var f := s.procs[e].fork;
            match f
            case Loop(_, n) =>
              if n == USTACK_VPN then Enabled(s, StartChild(e)) && Step(s, StartChild(e)).procs[f.child].started
              else if Place(e, n) in s.pages then
                && Enabled(s, DupRead(e))
                && Step(s, DupRead(e)).procs[e].fork == GotPerm(f.child, n, s.pages[Place(e, n)].perm)
              else Enabled(s, DupSkip(e)) && Step(s, DupSkip(e)).procs[e].fork == Loop(f.child, n + 1)
            case GotPerm(_, v, perm) =>
              && Enabled(s, DupMap(e))
              && Step(s, DupMap(e)).procs[e].fork ==
                   if LegalVpn(v) && TwoMaps(perm) then FirstMapped(f.child, v, perm) else Loop(f.child, v + 1)
            case FirstMapped(_, v, _) =>
              Enabled(s, DupRemap(e)) && Step(s, DupRemap(e)).procs[e].fork == Loop(f.child, v + 1)
  {
    assert ForkOk(s, e);
    hide Exclusive, KindsAgree, HandlersOk, ForksOk, CallsOk, Has, IsLib, IsCow, Cowed, ChildPerm, Entry, Unused;
  }

  lemma ForkBegins(s: State, e: nat, c: nat, frames: set<nat>, v: nat)
    requires Safe(s) && Enabled(s, Exofork(e, c, frames)) && Place(e, v) in s.pages
    ensures var s1 := Step(s, Exofork(e, c, frames));
            && e in s1.procs && s1.procs[e].fork == Loop(c, 0) && Place(e, v) in s1.pages && !Past(s1, e, v)
  {
  }

  lemma LoopIsOver(s: State, e: nat, v: nat)
    requires Possible(s, StartChild(e)) && v < USTACK_VPN
    ensures Past(s, e, v)
  {
  }

  lemma {:induction false} ChildStays(s: State, acts: seq<Action>, e: nat)
    requires Safe(s) && IsRun(s, acts) && forall a :: a in acts ==> a != StartChild(e)
    requires e in s.procs && !s.procs[e].fork.NoFork?
    ensures var s' := After(s, acts);
            e in s'.procs && !s'.procs[e].fork.NoFork? && s'.procs[e].fork.child == s.procs[e].fork.child
    decreases |acts|
  {
    hide Safe, Enabled, Step;
    if acts != [] {
      assert acts[0] in acts;
      assert forall a :: a in acts[1..] ==> a in acts;
      ChildStaysStep(s, acts[0], e);
      ChildStays(Next(s, acts[0]), acts[1..], e);
    }
  }

  lemma ChildStaysStep(s: State, a: Action, e: nat)
    requires Safe(s) && Enabled(s, a) && a != StartChild(e) && e in s.procs && !s.procs[e].fork.NoFork?
    ensures var s' := Step(s, a);
            e in s'.procs && !s'.procs[e].fork.NoFork? && s'.procs[e].fork.child == s.procs[e].fork.child
  {
    hide CallsOk;
    hide Exclusive, KindsAgree, ForksOk, HandlersOk, ViewOf, IsLib, IsCow, Writable, Has, Cowed, Uncowed, ChildPerm,
      TwoMaps, Entry, LegalVpn, UserPage, Unused, ForkSafe, Closed, StackPage;
  }

  /* ---- A fork that comes to a copy-on-write page of its frames first ---- */

  /** A run of any steps. */
  ghost predicate IsAnyRun(s: State, acts: seq<Action>)
    ensures IsAnyRun(s, acts) ==> Closed(s)
    decreases |acts|
  {
    Closed(s) && (acts == [] || (Possible(s, acts[0]) && IsAnyRun(Step(s, acts[0]), acts[1..])))
  }

  ghost function AfterAny(s: State, acts: seq<Action>): (s': State)
    requires IsAnyRun(s, acts)
    ensures Closed(s')
    decreases |acts|
  {
    if acts == [] then s else AfterAny(Step(s, acts[0]), acts[1..])
  }

  lemma {:induction false} RunThen(s: State, acts: seq<Action>, more: seq<Action>)
    requires IsAnyRun(s, acts) && IsAnyRun(AfterAny(s, acts), more)
    ensures IsAnyRun(s, acts + more) && AfterAny(s, acts + more) == AfterAny(AfterAny(s, acts), more)
    decreases |acts|
  {
    hide Possible, Step, Closed;
    if acts == [] {
      assert acts + more == more;
    } else {
      RunThen(Step(s, acts[0]), acts[1..], more);
      assert (acts + more)[1..] == acts[1..] + more;
    }
  }

  lemma RunOne(s: State, a: Action)
    requires Closed(s) && Possible(s, a) && Closed(Step(s, a))
    ensures IsAnyRun(s, [a]) && AfterAny(s, [a]) == Step(s, a)
  {
    assert [a][1..] == [];
  }

  lemma NoStep(s: State)
    requires Closed(s)
    ensures IsAnyRun(s, []) && AfterAny(s, []) == s
  {
  }

  function Copies(e: nat, k: nat): seq<Action> { seq(k, _ => CowCopy(e)) }

  /** All of the page is copied. */
  function CopyDone(s: State, e: nat): State
    requires e in s.procs && s.procs[e].cow.Copying? && Place(e, s.procs[e].cow.v) in s.pages
    requires s.pages[Place(e, s.procs[e].cow.v)].frame in s.mem
  {
    var c := s.procs[e].cow;
    SetCow(s.(mem := s.mem[c.ucow := s.mem[s.pages[Place(e, c.v)].frame]]), e, c.(done := PAGE_SIZE))
  }

  /** In the copying loop of cow_entry. */
  predicate InCopy(s: State, e: nat)
  {
    && Closed(s) && Handling(s, e) && s.procs[e].cow.Copying? && s.procs[e].cow.done <= PAGE_SIZE
    && (var c := s.procs[e].cow;
        var src := s.pages[Place(e, c.v)].frame;
        src != c.ucow && forall j :: 0 <= j < c.done ==> s.mem[c.ucow][j] == s.mem[src][j])
  }

  /** The rest of the copying loop. */
  lemma {:induction false} CopyRun(s: State, e: nat, k: nat)
    requires InCopy(s, e) && s.procs[e].cow.done + k == PAGE_SIZE
    ensures IsAnyRun(s, Copies(e, k)) && AfterAny(s, Copies(e, k)) == CopyDone(s, e)
    decreases k
  {
    if k == 0 {
      CopyEnds(s, e);
    } else {
      CopyOne(s, e);
      hide InCopy, Step, Possible, CopyDone;
      CopyRun(Step(s, CowCopy(e)), e, k - 1);
      assert Copies(e, k)[1..] == Copies(e, k - 1);
    }
  }

  lemma CopyEnds(s: State, e: nat)
    requires InCopy(s, e) && s.procs[e].cow.done == PAGE_SIZE
    ensures CopyDone(s, e) == s
  {
    var c := s.procs[e].cow;
    var src := s.pages[Place(e, c.v)].frame;
    assert s.mem[c.ucow] == s.mem[src];
    assert s.mem[c.ucow := s.mem[src]] == s.mem;
    assert s.procs[e := s.procs[e].(cow := c)] == s.procs;
  }

  lemma CopyOne(s: State, e: nat)
    requires InCopy(s, e) && s.procs[e].cow.done < PAGE_SIZE
    ensures Closed(s) && Possible(s, CowCopy(e))
    ensures var s1 := Step(s, CowCopy(e));
            InCopy(s1, e) && s1.procs[e].cow.done == s.procs[e].cow.done + 1 && CopyDone(s1, e) == CopyDone(s, e)
  {
    var s1, c := Step(s, CowCopy(e)), s.procs[e].cow;
    var src := s.pages[Place(e, c.v)].frame;
    assert s1.procs[e].cow == c.(done := c.done + 1) && s1.mem[src] == s.mem[src];
    assert s1.mem[c.ucow := s.mem[src]] == s.mem[c.ucow := s.mem[src]];
    assert s1.procs[e := s1.procs[e].(cow := c.(done := PAGE_SIZE))] ==
        s.procs[e := s.procs[e].(cow := c.(done := PAGE_SIZE))];
  }

  /** A store to a copy-on-write page, and the handler. */
  function CowRun(e: nat, v: nat, g: nat, b: bv8): seq<Action>
  {
    [Store(e, v, 0, b), CowAlloc(e, g)] + Copies(e, PAGE_SIZE) + [CowMap(e), CowUnmap(e)]
  }

  /** The handler has its frame; n bytes are copied. */
  function HandlerAt(s: State, e: nat, v: nat, g: nat, c: Content, n: nat): State
    requires e in s.procs && Place(e, v) in s.pages
  {
    SetCow(s.(mem := s.mem[g := c]), e, Copying(v, Uncowed(s.pages[Place(e, v)].perm), g, n))
  }

  /** The page has the same content in a frame of its own, and is writable. */
  function Handled(s: State, e: nat, v: nat, g: nat): State
    requires Place(e, v) in s.pages && s.pages[Place(e, v)].frame in s.mem
  {
    var m := s.pages[Place(e, v)];
    MapPage(s.(mem := s.mem[g := s.mem[m.frame]]), Place(e, v), Entry(g, Uncowed(m.perm)))
  }

  /** A store that enters the handler. */
  ghost predicate Faults(s: State, e: nat, v: nat, g: nat, b: bv8)
  {
    Closed(s) && Possible(s, Store(e, v, 0, b)) && CowAt(s, e, v) && Unused(s, g)
  }

  lemma RunFault(s: State, e: nat, v: nat, g: nat, b: bv8)
    requires Faults(s, e, v, g, b)
    ensures s.pages[Place(e, v)].frame in s.mem && s.pages[Place(e, v)].frame != g
    ensures var acts := [Store(e, v, 0, b), CowAlloc(e, g)];
            IsAnyRun(s, acts) && AfterAny(s, acts) == HandlerAt(s, e, v, g, ZeroBytes(), 0)
  {
    NotBoth(s.pages[Place(e, v)]);
    hide Has, IsCow, IsLib, Writable, Uncowed;
    var s1 := Step(s, Store(e, v, 0, b));
    RunOne(s, Store(e, v, 0, b));
    assert s1.procs[e].cow == Fault(v);
    assert Unused(s1, g);
    var s2 := Step(s1, CowAlloc(e, g));
    RunOne(s1, CowAlloc(e, g));
    RunThen(s, [Store(e, v, 0, b)], [CowAlloc(e, g)]);
    assert s2.procs == HandlerAt(s, e, v, g, ZeroBytes(), 0).procs;
  }

  lemma RunCopies(s: State, e: nat, v: nat, g: nat, b: bv8)
    requires Faults(s, e, v, g, b)
    ensures var s2 := HandlerAt(s, e, v, g, ZeroBytes(), 0);
            && s.pages[Place(e, v)].frame in s.mem && IsAnyRun(s2, Copies(e, PAGE_SIZE))
            && AfterAny(s2, Copies(e, PAGE_SIZE)) == HandlerAt(s, e, v, g, s.mem[s.pages[Place(e, v)].frame], PAGE_SIZE)
  {
    hide Uncowed, Has, IsCow, IsLib, Writable;
    var frame := s.pages[Place(e, v)].frame;
    var s2 := HandlerAt(s, e, v, g, ZeroBytes(), 0);
    assert Closed(s2) && s2.mem[frame] == s.mem[frame];
    CopyRun(s2, e, PAGE_SIZE);
    assert s2.mem[g := s.mem[frame]] == s.mem[g := s.mem[frame]];
    assert AfterAny(s2, Copies(e, PAGE_SIZE)).procs == HandlerAt(s, e, v, g, s.mem[frame], PAGE_SIZE).procs;
  }

  lemma RunHandlerEnds(s: State, e: nat, v: nat, g: nat, b: bv8)
    requires Faults(s, e, v, g, b)
    ensures s.pages[Place(e, v)].frame in s.mem
    ensures var s3 := HandlerAt(s, e, v, g, s.mem[s.pages[Place(e, v)].frame], PAGE_SIZE);
            var acts := [CowMap(e), CowUnmap(e)];
            IsAnyRun(s3, acts) && AfterAny(s3, acts) == Handled(s, e, v, g)
  {
    hide Uncowed, Has, IsCow, IsLib, Writable;
    var s3 := HandlerAt(s, e, v, g, s.mem[s.pages[Place(e, v)].frame], PAGE_SIZE);
    assert Closed(s3);
    var s4 := Step(s3, CowMap(e));
    RunOne(s3, CowMap(e));
    var s5 := Step(s4, CowUnmap(e));
    RunOne(s4, CowUnmap(e));
    assert s5.procs == s.procs;
    RunThen(s3, [CowMap(e)], [CowUnmap(e)]);
    assert [CowMap(e)] + [CowUnmap(e)] == [CowMap(e), CowUnmap(e)];
  }

  lemma RunHandler(s: State, e: nat, v: nat, g: nat, b: bv8)
    requires Faults(s, e, v, g, b)
    ensures s.pages[Place(e, v)].frame in s.mem
    ensures IsAnyRun(s, CowRun(e, v, g, b)) && AfterAny(s, CowRun(e, v, g, b)) == Handled(s, e, v, g)
  {
    RunFault(s, e, v, g, b);
    RunCopies(s, e, v, g, b);
    RunHandlerEnds(s, e, v, g, b);
    hide IsAnyRun, AfterAny, HandlerAt, Handled, Copies, Faults;
    var start, end := [Store(e, v, 0, b), CowAlloc(e, g)], [CowMap(e), CowUnmap(e)];
    RunThen(s, start, Copies(e, PAGE_SIZE));
    RunThen(s, start + Copies(e, PAGE_SIZE), end);
  }

  lemma {:induction false} Above(xs: set<nat>) returns (n: nat)
    ensures forall x :: x in xs ==> x < n
  {
    if xs == {} {
      n := 0;
    } else {
      var x :| x in xs;
      n := Above(xs - {x});
      n := if n <= x then x + 1 else n;
      assert forall y :: y in xs ==> y == x || y in xs - {x};
    }
  }

  /** There is always a frame that nothing maps, as the model has no end of memory. */
  lemma SomeFrame(s: State) returns (g: nat)
    ensures Unused(s, g)
  {
    var xs := (set p | p in s.pages :: s.pages[p].frame)
      + (set e | e in s.procs && s.procs[e].cow.Copying? :: s.procs[e].cow.ucow);
    g := Above(xs);
    assert forall p :: p in s.pages ==> s.pages[p].frame in xs;
    assert forall e :: e in s.procs && s.procs[e].cow.Copying? ==> s.procs[e].cow.ucow in xs;
  }

  /** env e can store to page v. */
  predicate Storable(s: State, e: nat, v: nat)
  {
    UserPage(v) && (Place(e, v) in s.pages ==> Writable(s.pages[Place(e, v)]) || CowAt(s, e, v))
  }

  predicate WritableAt(s: State, e: nat, v: nat) { Place(e, v) in s.pages && Writable(s.pages[Place(e, v)]) }

  /** Between reading the flags of page v and mapping it. */
  ghost predicate InGap(s: State, e: nat, v: nat)
  {
    Closed(s) && Running(s, e) && s.procs[e].fork.GotPerm? && s.procs[e].fork.v == v
  }

  /** The pages of env e in vs are as they may be, everything else is as before. */
  ghost predicate OnlyPages(s: State, s': State, e: nat, vs: set<nat>)
    requires Closed(s) && Closed(s')
  {
    && s'.procs == s.procs
    && (forall p: Place :: p.env != e || p.vpn !in vs ==> SamePage(s, s', p))
  }

  lemma OnlyPagesTwice(s: State, s1: State, s2: State, e: nat, vs: set<nat>, v: nat)
    requires Closed(s) && Closed(s1) && Closed(s2) && OnlyPages(s, s1, e, {v}) && OnlyPages(s1, s2, e, vs - {v})
             && v in vs
    ensures OnlyPages(s, s2, e, vs)
  {
  }

  /** One store of fork to page w of its frames. */
  lemma FrameStored(s: State, e: nat, v: nat, w: nat, b: bv8) returns (acts: seq<Action>)
    requires InGap(s, e, v) && w in s.procs[e].frames && Storable(s, e, w)
    ensures IsAnyRun(s, acts)
    ensures var s' := AfterAny(s, acts);
            InGap(s', e, v) && WritableAt(s', e, w) && OnlyPages(s, s', e, {w})
    ensures CowAt(s, e, w) ==> var m, m' := s.pages[Place(e, w)], AfterAny(s, acts).pages[Place(e, w)];
              !IsLib(m') && AfterAny(s, acts).mem[m'.frame] == s.mem[m.frame]
  {
    var g := SomeFrame(s);
    if Place(e, w) !in s.pages {
      acts := [Touch(e, w, g)];
      NewIsWritable(g);
      hide Has, IsCow, IsLib, Writable;
      RunOne(s, Touch(e, w, g));
    } else if CowAt(s, e, w) {
      acts := CowRun(e, w, g, b);
      HandledIs(s, e, w, g);
      hide Has, IsCow, IsLib, Writable, Uncowed, Handled, CowRun;
      RunHandler(s, e, w, g, b);
    } else {
      acts := [];
      NoStep(s);
    }
  }

  lemma HandledIs(s: State, e: nat, w: nat, g: nat)
    requires Closed(s) && CowAt(s, e, w) && Unused(s, g)
    ensures var s' := Handled(s, e, w, g);
            && Closed(s') && WritableAt(s', e, w) && OnlyPages(s, s', e, {w}) && !IsLib(s'.pages[Place(e, w)])
            && s'.mem[s'.pages[Place(e, w)].frame] == s.mem[s.pages[Place(e, w)].frame]
  {
    Flags(g, s.pages[Place(e, w)].perm);
    hide Has, IsCow, Writable, Uncowed, Window;
  }

  /** The stores of fork to all pages of its frames in ws. */
  lemma {:induction false} FramesStored(s: State, e: nat, v: nat, ws: set<nat>, b: bv8) returns (acts: seq<Action>)
    requires InGap(s, e, v) && ws <= s.procs[e].frames && forall w :: w in ws ==> Storable(s, e, w)
    ensures IsAnyRun(s, acts)
    ensures var s' := AfterAny(s, acts);
            InGap(s', e, v) && OnlyPages(s, s', e, ws) && forall w :: w in ws ==> WritableAt(s', e, w)
    decreases ws
  {
    hide Possible, IsAnyRun, AfterAny, IsCow, IsLib, Writable, Running;
    if ws == {} {
      acts := [];
      NoStep(s);
    } else {
      var w :| w in ws;
      acts := FrameStored(s, e, v, w, b);
      var s1 := AfterAny(s, acts);
      assert forall x :: x in ws - {w} ==> SamePage(s, s1, Place(e, x));
      var more := FramesStored(s1, e, v, ws - {w}, b);
      RunThen(s, acts, more);
      OnlyPagesTwice(s, s1, AfterAny(s1, more), e, ws, w);
      assert SamePage(s1, AfterAny(s1, more), Place(e, w));
      acts := acts + more;
    }
  }

  /** The child has a page whose content the parent's stores change. */
  ghost predicate Leaks(s: State, e: nat, q: Place, b: bv8)
  {
    && Closed(s) && Possible(s, Store(e, q.vpn, 0, b)) && Closed(Step(s, Store(e, q.vpn, 0, b)))
       && ViewOf(s, q).Private?
    && q.env != e && ViewOf(Step(s, Store(e, q.vpn, 0, b)), q) == Private(Write(ViewOf(s, q).c, 0, b))
  }

  /** No other env is duplicating pages into the child of e. */
  predicate OnlyParent(s: State, e: nat)
    requires e in s.procs && !s.procs[e].fork.NoFork?
  {
    var c := s.procs[e].fork.child;
    c != e && forall d :: d in s.procs && d != e && !s.procs[d].fork.NoFork? ==> s.procs[d].fork.child != c
  }

  /** The flags that fork has read are copy-on-write, while the page is writable. */
  ghost predicate Stale(s: State, e: nat, v: nat)
  {
    && InGap(s, e, v) && OnlyParent(s, e) && LegalVpn(v) && WritableAt(s, e, v) && !IsLib(s.pages[Place(e, v)])
    && (forall w :: w in s.procs[e].frames ==> WritableAt(s, e, w))
    && Has(s.procs[e].fork.perm, PTE_COW) && !Has(s.procs[e].fork.perm, PTE_W)
       && !Has(s.procs[e].fork.perm, PTE_LIBRARY)
  }

  /** What fork leaves behind. */
  function StaleMapped(s: State, e: nat, v: nat): State
    requires e in s.procs && s.procs[e].fork.GotPerm? && Place(e, v) in s.pages
  {
    var f := s.procs[e].fork;
    SetFork(MapPage(s, Place(f.child, v), Entry(s.pages[Place(e, v)].frame, f.perm)), e, Loop(f.child, v + 1))
  }

  lemma StaleMaps(s: State, e: nat, v: nat)
    requires Stale(s, e, v)
    ensures IsAnyRun(s, [DupMap(e)]) && AfterAny(s, [DupMap(e)]) == StaleMapped(s, e, v) && Closed(StaleMapped(s, e, v))
    ensures !IsLib(Entry(s.pages[Place(e, v)].frame, s.procs[e].fork.perm))
  {
    var f := s.procs[e].fork;
    Flags(s.pages[Place(e, v)].frame, f.perm);
    assert !TwoMaps(f.perm) && ChildPerm(f.perm) == f.perm;
    hide Has, Writable, IsLib, IsCow, OnlyParent, TwoMaps, ChildPerm;
    StaleStep(s, e, v);
    hide Step, Possible;
    RunOne(s, DupMap(e));
  }

  lemma StaleStep(s: State, e: nat, v: nat)
    requires InGap(s, e, v) && LegalVpn(v) && Place(e, v) in s.pages
    requires forall w :: w in s.procs[e].frames ==> WritableAt(s, e, w)
    requires !TwoMaps(s.procs[e].fork.perm) && ChildPerm(s.procs[e].fork.perm) == s.procs[e].fork.perm
    ensures Possible(s, DupMap(e)) && Step(s, DupMap(e)) == StaleMapped(s, e, v) && Closed(StaleMapped(s, e, v))
  {
    hide Writable, ChildPerm, TwoMaps;
  }

  /** fork maps with the flags it has read. */
  lemma StaleFlags(s: State, e: nat, v: nat, b: bv8)
    requires Stale(s, e, v)
    ensures IsAnyRun(s, [DupMap(e)])
    ensures var s' := AfterAny(s, [DupMap(e)]);
            && Leaks(s', e, Place(s.procs[e].fork.child, v), b) && !Exclusive(s')
            && ViewOf(s', Place(s.procs[e].fork.child, v)) == Private(s.mem[s.pages[Place(e, v)].frame])
  {
    StaleMaps(s, e, v);
    hide Has, Writable, IsLib, IsCow, IsAnyRun, AfterAny;
    var p, q := Place(e, v), Place(s.procs[e].fork.child, v);
    var s' := StaleMapped(s, e, v);
    assert s'.pages[p] == s.pages[p] && s'.pages[q].frame == s.pages[p].frame;
    assert !Window(s', p, q) && !InWindow(s', q);
    var s2 := Step(s', Store(e, v, 0, b));
    assert !InWindow(s2, q);
  }

  /** In the gap on a copy-on-write page of its frames, fork can only go on by storing to it. */
  lemma GapBreaksIsolation(s: State, e: nat, v: nat, b: bv8) returns (acts: seq<Action>)
    requires InGap(s, e, v) && OnlyParent(s, e) && StackPage(v) && v in s.procs[e].frames && CowAt(s, e, v)
    requires s.procs[e].fork.perm == s.pages[Place(e, v)].perm
             && forall w :: w in s.procs[e].frames ==> Storable(s, e, w)
    ensures IsAnyRun(s, acts) && Leaks(AfterAny(s, acts), e, Place(s.procs[e].fork.child, v), b)
            && !Exclusive(AfterAny(s, acts))
    ensures ViewOf(AfterAny(s, acts), Place(s.procs[e].fork.child, v)) == Private(s.mem[s.pages[Place(e, v)].frame])
  {
    var frames := s.procs[e].frames;
    var perm := s.procs[e].fork.perm;
    assert Has(perm, PTE_COW) && !Has(perm, PTE_W) && !Has(perm, PTE_LIBRARY);
    hide Possible, IsAnyRun, AfterAny, IsCow, IsLib, Writable, Running, Leaks, OnlyParent, Has, WritableAt;
    var others := FramesStored(s, e, v, frames - {v}, b);
    var s1 := AfterAny(s, others);
    assert SamePage(s, s1, Place(e, v));
    var own := FrameStored(s1, e, v, v, b);
    var s2 := AfterAny(s1, own);
    forall w | w in frames ensures WritableAt(s2, e, w) {
      assert w != v ==> w in frames - {v} && SamePage(s1, s2, Place(e, w));
    }
    StaleFlags(s2, e, v, b);
    RunThen(s, others, own);
    RunThen(s, others + own, [DupMap(e)]);
    acts := others + own + [DupMap(e)];
  }

  function Skips(e: nat, k: nat): seq<Action> { if k == 0 then [] else [DupSkip(e)] + Skips(e, k - 1) }

  lemma RunCons(s: State, a: Action, acts: seq<Action>)
    requires Closed(s) && Possible(s, a) && IsAnyRun(Step(s, a), acts)
    ensures IsAnyRun(s, [a] + acts) && AfterAny(s, [a] + acts) == AfterAny(Step(s, a), acts)
  {
    RunOne(s, a);
    hide Possible, Step, Closed;
    RunThen(s, [a], acts);
  }

  /** The loop of fork over pages that are not mapped. */
  lemma {:induction false} RunSkips(s: State, e: nat, c: nat, n: nat, v: nat)
    requires Closed(s) && Looping(s, e) && s.procs[e].fork == Loop(c, n) && n <= v <= USTACK_VPN
    requires forall w :: n <= w < v ==> Place(e, w) !in s.pages
    ensures IsAnyRun(s, Skips(e, v - n)) && AfterAny(s, Skips(e, v - n)) == SetFork(s, e, Loop(c, v))
    decreases v - n
  {
    if n == v {
      NoSkips(s, e);
    } else {
      SkipOne(s, e);
      SetForkTwice(s, e, Loop(c, n + 1), Loop(c, v));
      hide Step, Possible, Closed, SetFork, IsAnyRun, AfterAny;
      RunSkips(SetFork(s, e, Loop(c, n + 1)), e, c, n + 1, v);
      RunCons(s, DupSkip(e), Skips(e, v - n - 1));
    }
  }

  lemma NoSkips(s: State, e: nat)
    requires Closed(s) && e in s.procs
    ensures IsAnyRun(s, Skips(e, 0)) && AfterAny(s, Skips(e, 0)) == s == SetFork(s, e, s.procs[e].fork)
  {
    assert s.procs[e := s.procs[e].(fork := s.procs[e].fork)] == s.procs;
  }

  lemma SetForkTwice(s: State, e: nat, f1: ForkPhase, f2: ForkPhase)
    requires e in s.procs
    ensures SetFork(SetFork(s, e, f1), e, f2) == SetFork(s, e, f2)
  {
    assert SetFork(SetFork(s, e, f1), e, f2).procs == SetFork(s, e, f2).procs;
  }

  lemma SkipOne(s: State, e: nat)
    requires Closed(s) && Looping(s, e) && s.procs[e].fork.next < USTACK_VPN
    requires Place(e, s.procs[e].fork.next) !in s.pages
    ensures var s1 := SetFork(s, e, Loop(s.procs[e].fork.child, s.procs[e].fork.next + 1));
            && Possible(s, DupSkip(e)) && Step(s, DupSkip(e)) == s1 && Closed(s1) && Looping(s1, e)
            && s1.pages == s.pages
            && s1.procs[e].fork == Loop(s.procs[e].fork.child, s.procs[e].fork.next + 1)
  {
  }

  /** fork has read the flags of the first page that is mapped. */
  function Reached(s: State, e: nat, c: nat, frames: set<nat>, v: nat): State
    requires e in s.procs && Place(e, v) in s.pages
  {
    s.(procs := s.procs[e := s.procs[e].(fork := GotPerm(c, v, s.pages[Place(e, v)].perm), frames := frames)]
                       [c := Proc(false, NoFork, NoCow, {})])
  }

  lemma RunToFirst(s: State, e: nat, c: nat, frames: set<nat>, v: nat)
    requires Closed(s) && Possible(s, Exofork(e, c, frames)) && v < USTACK_VPN && Place(e, v) in s.pages
    requires forall w: nat :: w < v ==> Place(e, w) !in s.pages
    ensures var acts := [Exofork(e, c, frames)] + Skips(e, v) + [DupRead(e)];
            IsAnyRun(s, acts) && AfterAny(s, acts) == Reached(s, e, c, frames, v)
  {
    var s1 := Step(s, Exofork(e, c, frames));
    RunOne(s, Exofork(e, c, frames));
    RunSkips(s1, e, c, 0, v);
    ReadsFirst(s, e, c, frames, v);
    hide Step, Possible, IsAnyRun, AfterAny;
    RunThen(s, [Exofork(e, c, frames)], Skips(e, v));
    RunThen(s, [Exofork(e, c, frames)] + Skips(e, v), [DupRead(e)]);
  }

  lemma ReadsFirst(s: State, e: nat, c: nat, frames: set<nat>, v: nat)
    requires Closed(s) && Possible(s, Exofork(e, c, frames)) && v < USTACK_VPN && Place(e, v) in s.pages
    ensures var s2 := SetFork(Step(s, Exofork(e, c, frames)), e, Loop(c, v));
            IsAnyRun(s2, [DupRead(e)]) && AfterAny(s2, [DupRead(e)]) == Reached(s, e, c, frames, v)
  {
    var s2 := SetFork(Step(s, Exofork(e, c, frames)), e, Loop(c, v));
    RunOne(s2, DupRead(e));
    assert Step(s2, DupRead(e)).procs == Reached(s, e, c, frames, v).procs;
  }

  /** The condition on fork is exact: where it does not hold, the stores of fork itself to its frames make the parent's
      later stores show in a page of the child. */
  lemma UnsafeForkLeaks(s: State, e: nat, c: nat, frames: set<nat>, b: bv8) returns (acts: seq<Action>, v: nat)
    requires Inv(s) && Possible(s, Exofork(e, c, frames)) && !ForkSafe(s, e, frames)
    requires forall w :: w in frames ==> Storable(s, e, w)
    ensures acts != [] && acts[0] == Exofork(e, c, frames) && IsAnyRun(s, acts)
    ensures Leaks(AfterAny(s, acts), e, Place(c, v), b) && !Exclusive(AfterAny(s, acts))
  {
    v :| v in frames && CowAt(s, e, v) && !exists w: nat :: w < v && Place(e, w) in s.pages;
    RunToFirst(s, e, c, frames, v);
    var start := [Exofork(e, c, frames)] + Skips(e, v) + [DupRead(e)];
    var s1 := Reached(s, e, c, frames, v);
    ReachedIs(s, e, c, frames, v);
    hide Possible, IsAnyRun, AfterAny, IsCow, IsLib, Writable, Running, Leaks, Has, Inv, Reached, InGap, OnlyParent;
    var more := GapBreaksIsolation(s1, e, v, b);
    RunThen(s, start, more);
    acts := start + more;
  }

  lemma ReachedIs(s: State, e: nat, c: nat, frames: set<nat>, v: nat)
    requires Inv(s) && Possible(s, Exofork(e, c, frames)) && v in frames && CowAt(s, e, v)
    requires forall w :: w in frames ==> Storable(s, e, w)
    ensures var s1 := Reached(s, e, c, frames, v);
            && InGap(s1, e, v) && OnlyParent(s1, e) && StackPage(v) && s1.procs[e].frames == frames && CowAt(s1, e, v)
            && s1.procs[e].fork.child == c && s1.procs[e].fork.perm == s1.pages[Place(e, v)].perm
            && forall w :: w in frames ==> Storable(s1, e, w)
  {
    hide Exclusive, KindsAgree, HandlersOk, ForksOk, IsCow, IsLib, Writable, UserPage;
  }
}
