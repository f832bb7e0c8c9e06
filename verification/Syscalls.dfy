/** The memory system calls of kern/syscall_all.c and the page-fault branch of kern/exception.c, on the
    kernel's data and physical memory together. The page directory of env e is directory e. */
module Syscalls {
  import opened Errors
  import opened Options
  import K = KernelState
  import Scheduling
  import opened Hardware
  import opened Kernel
  import opened PhysMem
  import opened MapSteps
  import opened Pmap
  import opened PmapSteps
  import opened Sv39
  import opened TableSteps
  import opened Teardown
  import opened Translate
  import opened UserSteps
  import opened Window

  const TRAPFRAME_SIZE: nat := 320
  /** Where the trap frame goes on the user exception stack. */
  const UXSTACK_VA: nat := UTOP - TRAPFRAME_SIZE - 8

  /** User pages are no tables, every live env sees its own page table, and there are no other directories. */
  ghost predicate Spaces(m: Mem, k: K.State)
    requires Shaped(m) && K.Shaped(k)
  {
    && UserDataDisjoint(m) && (forall e: nat :: K.Live(k, e) ==> WindowOk(m, e))
    && (forall d :: d in m.roots ==> K.Live(k, d))
  }

  lemma SpacesAfterAlloc(m: Mem, m': Mem, k: K.State, d: nat, i: nat, j: nat, n: nat, perm: bv10)
    requires Shaped(m) && Shaped(m') && K.Shaped(k) && Spaces(m, k) && K.Live(k, d)
             && UserAllocated(m, m', d, i, j, n, perm)
    ensures Spaces(m', k)
  {
    hide UserDataDisjoint, WindowOk, Page, Leaf, ContentKept;
  }

  lemma SpacesAfterMap(m: Mem, m': Mem, k: K.State, d: nat, i: nat, j: nat, n: nat, g: nat, perm: bv10)
    requires Shaped(m) && Shaped(m') && K.Shaped(k) && Spaces(m, k) && K.Live(k, d)
             && UserMapped(m, m', d, i, j, n, g, perm)
    ensures Spaces(m', k) <==> !LosesWindow(m, d, i, j)
  {
    hide UserDataDisjoint, WindowOk, Page, Leaf, ContentKept, LosesWindow;
  }

  lemma SpacesAfterUnmap(m: Mem, m': Mem, k: K.State, d: nat, i: nat, j: nat, n: nat)
    requires Shaped(m) && Shaped(m') && K.Shaped(k) && Spaces(m, k) && PageUnmapped(m, m', d, i, j, n)
    requires (forall x :: WindowOk(m', x) <==> WindowOk(m, x)) && m'.roots.Keys == m.roots.Keys
    ensures Spaces(m', k)
  {
    hide UserDataDisjoint, WindowOk, Page, Leaf, ContentKept;
  }

  /** Mapping has failed: the windows are as before, unless that of directory d is lost. */
  lemma SpacesAfterFailure(m: Mem, m': Mem, k: K.State, d: nat, i: nat, j: nat)
    requires Shaped(m) && Shaped(m') && K.Shaped(k) && Spaces(m, k) && K.Live(k, d) && UserFailed(m, m', d, i, j)
    ensures Spaces(m', k) <==> !LosesWindow(m, d, i, j)
  {
    hide UserDataDisjoint, WindowOk, Page, Leaf, LosesWindow, UserPagesSame;
  }

  /** Env e is new, with the directory that env_setup_vm gives it. */
  lemma SpacesAfterFork(m: Mem, m': Mem, k: K.State, k': K.State, e: nat)
    requires Shaped(m) && Shaped(m') && K.Shaped(k) && K.Shaped(k') && Spaces(m, k) && OtherWindowsKept(m, m', e)
    requires UserDataDisjoint(m') && forall x: nat :: K.Live(k', x) <==> K.Live(k, x) || x == e
    ensures Spaces(m', k') <==> WindowOk(m', e)
  {
    hide UserDataDisjoint, WindowOk;
  }

  /** Env e is gone with its directory. */
  lemma SpacesAfterDestroy(m: Mem, m': Mem, k: K.State, k': K.State, e: nat)
    requires Shaped(m) && Shaped(m') && K.Shaped(k) && K.Shaped(k') && Spaces(m, k) && Destroyed(m, m', e)
    requires forall x: nat :: K.Live(k', x) <==> K.Live(k, x) && x != e
    ensures Spaces(m', k')
  {
    DestroyedKeepsUserData(m, m', e);
    hide UserDataDisjoint, Page, Destroyed, WindowOk;
    forall x | x != e ensures (WindowOk(m', x) <==> WindowOk(m, x)) && (x in m'.roots <==> x in m.roots) {
      DestroyedKeepsWindows(m, m', e, x);
      OtherRootStays(m, m', e, x);
    }
    assert e !in m'.roots by { RootIsGone(m, m', e); }
  }

  lemma SpacesAfterExit(m: Mem, m': Mem, k: K.State, envid: nat, e: nat)
    requires Shaped(m) && Shaped(m') && K.Inv(k) && K.InSyscall(k) && Spaces(m, k) && Destroyed(m, m', e)
    requires K.EnvId2Env(k, envid, 1) == Some(e) && Scheduling.Enabled(k, Scheduling.Destroy(envid))
    requires Scheduling.Step(k, Scheduling.Destroy(envid)).Done?
    ensures var k' := Scheduling.Step(k, Scheduling.Destroy(envid)).k; K.Shaped(k') && Spaces(m', k')
  {
    K.EnvDestroyKeeps(k, envid);
    hide K.Inv, Spaces, Destroyed, K.SysEnvDestroy;
    DestroyLives(k, envid);
    SpacesAfterDestroy(m, m', k, K.SysEnvDestroy(k, envid).k, e);
  }

  lemma OtherRootStays(m: Mem, m': Mem, e: nat, x: nat)
    requires Shaped(m) && Shaped(m') && Destroyed(m, m', e) && x != e
    ensures x in m'.roots <==> x in m.roots
  {
    hide Page;
    assert Target(m', RootSlot(x)) == Target(m, RootSlot(x));
    assert Target(m, RootSlot(x)) == Root(m, x) && Target(m', RootSlot(x)) == Root(m', x);
  }

  lemma RootIsGone(m: Mem, m': Mem, e: nat)
    requires Shaped(m) && Shaped(m') && Destroyed(m, m', e)
    ensures e !in m'.roots
  {
  }

  /** The live envs after sys_exofork ... */
  lemma ForkLives(k: K.State)
    requires K.Inv(k) && K.InSyscall(k) && k.ids + 1 < K.ID_LIMIT
    ensures k.free != [] ==> k.free[0] < K.NENV && !K.Live(k, k.free[0])
    ensures var k' := K.Exofork(k).k;
            if k'.free == k.free then forall x: nat :: K.Live(k', x) <==> K.Live(k, x)
            else k.free != [] && forall x: nat :: K.Live(k', x) <==> K.Live(k, x) || x == k.free[0]
  {
    K.AllocGives(k, k.envs[k.cur.value].id);
    hide K.MkEnvId, K.AsidsOk, K.IdsOk, K.FirstClear;
    if k.free != [] { assert k.free[0] in k.free; }
  }

  /** ... and after sys_env_destroy. */
  lemma DestroyLives(k: K.State, envid: nat)
    requires K.Inv(k) && K.InSyscall(k) && K.EnvId2Env(k, envid, 1).Some?
    requires forall e :: 0 <= e < K.NENV && k.envs[e].status != K.ENV_FREE ==> k.envs[e].asid < K.NASID
    requires k.envs[k.cur.value].status != K.ENV_FREE && K.SysEnvDestroy(k, envid).Done?
    ensures var k' := K.SysEnvDestroy(k, envid).k;
            K.Shaped(k') && forall x: nat :: K.Live(k', x) <==> K.Live(k, x) && x != K.EnvId2Env(k, envid, 1).value
  {
    K.LookupFindsLive(k, envid, 1);
    hide K.ListsOk, K.AsidsOk, K.IdsOk, K.Removed;
  }

  /** A store of user code through a writable page changes no page table: every address translates as before, in
      every directory, and all counts and windows stay right. */
  lemma UserStoreKeepsTables(m: Mem, pin: seq<nat>, d: nat, va: nat, w: Pte)
    requires PhysMem.Inv(m, pin) && UserDataDisjoint(m) && va < UTOP && Translated(m, d, va).Some?
    ensures Translated(m, d, va).value >= KERNBASE && FrameOf(Translated(m, d, va).value) < NPAGE
            && va % PAGE_SIZE / 8 < NPTE
    ensures var m' := WritePte(m, FrameOf(Translated(m, d, va).value), va % PAGE_SIZE / 8, w);
            && PhysMem.Inv(m', pin) && UserDataDisjoint(m') && (forall s :: Target(m', s) == Target(m, s))
               && SamePages(m, m')
            && forall x :: WindowOk(m', x) <==> WindowOk(m, x)
  {
    UserPage(m, pin, d, va);
    var f := FrameOf(Translated(m, d, va).value);
    var m' := WritePte(m, f, va % PAGE_SIZE / 8, w);
    DataWriteStep(m, pin, f, va % PAGE_SIZE / 8, w);
    UserDataSame(m, m');
    hide Page, Target, WindowOk, UserDataDisjoint, InvX;
    forall x ensures WindowOk(m', x) <==> WindowOk(m, x) {
      SameStateWindow(m, m', x);
    }
  }

  lemma DataWriteStep(m: Mem, pin: seq<nat>, f: nat, e: nat, w: Pte)
    requires PhysMem.Inv(m, pin) && f < NPAGE && e < NPTE && m.refs[f] > 0 && NotTable(m, f)
    ensures var m' := WritePte(m, f, e, w);
            PhysMem.Inv(m', pin) && (forall s :: Target(m', s) == Target(m, s)) && SamePages(m, m')
  {
    var m' := WritePte(m, f, e, w);
    NonTableWrite(m, m', f);
    forall g | 0 <= g < NPAGE ensures m'.refs[g] == pin[g] + |RefSet(m', {}, g)| {
      RefSetSame(m, m', {}, g);
    }
    forall x, i, j, k ensures Page(m', x, i, j, k) == Page(m, x, i, j, k) {
      assert Target(m', Slot1(x, i, j)) == Target(m, Slot1(x, i, j));
      assert Target(m, Slot1(x, i, j)) == Low(m, x, i, j);
    }
  }

  /** The page behind a user address is in RAM, in use, and no table. */
  lemma UserPage(m: Mem, pin: seq<nat>, d: nat, va: nat)
    requires PhysMem.Inv(m, pin) && UserDataDisjoint(m) && va < UTOP && Translated(m, d, va).Some?
    ensures var pa := Translated(m, d, va).value;
            && KERNBASE <= pa < KERNBASE + MEMORY_SIZE && FrameOf(pa) < NPAGE && m.refs[FrameOf(pa)] > 0
            && NotTable(m, FrameOf(pa)) && Leaf(m, d, VPN2(va), VPN1(va), VPN0(va)) == Some(FrameOf(pa))
            && Page(m, d, VPN2(va), VPN1(va), VPN0(va)).Some?
            && Low(m, d, VPN2(va), VPN1(va)).Some?
  {
    var i, j, k := VPN2(va), VPN1(va), VPN0(va);
    WindowGeometry(va);
    PageIsLeaf(m, pin, d, i, j, k);
    LeafNeedsTable(m, d, i, j, k);
    hide InvX, Page, Low, VPN0, VPN1, VPN2;
    var p := Page(m, d, i, j, k).value;
    var f := p.ppn - BASEPPN;
    var off := va % PAGE_SIZE;
    FrameOfAddress(f, off);
    assert Target(m, Slot0(d, i, j, k)) == Some(f);
    Referenced(m, pin, {}, {}, Slot0(d, i, j, k));
  }

  /** Changing the flags of a mapped page keeps all windows. */
  lemma ReflagKeepsSpaces(m: Mem, m': Mem, pin: seq<nat>, k: K.State, d: nat, va: nat, g: nat, perm: bv10)
    requires PhysMem.Inv(m, pin) && Shaped(m') && K.Shaped(k) && Spaces(m, k) && va < UTOP
    requires Leaf(m, d, VPN2(va), VPN1(va), VPN0(va)) == Some(g) && Low(m, d, VPN2(va), VPN1(va)).Some?
    requires PageMapped(m, m', d, VPN2(va), VPN1(va), VPN0(va), g, perm)
    ensures Spaces(m', k)
  {
    var i, j, n := VPN2(va), VPN1(va), VPN0(va);
    WindowGeometry(va);
    assert NotTable(m, g);
    forall e: nat | K.Live(k, e) ensures WindowOk(m', e) {
      ReflagKeepsWindow(m, m', d, i, j, n, g, perm, e);
    }
    TableSlotsSame(m, m', d, i, j, n, g, perm);
    SameRoots(m, m');
  }

  lemma ReflagKeepsWindow(m: Mem, m': Mem, d: nat, i: nat, j: nat, n: nat, g: nat, perm: bv10, x: nat)
    requires Shaped(m) && Shaped(m') && i < 2 && Low(m, d, i, j).Some?
    requires PageMapped(m, m', d, i, j, n, g, perm)
    ensures WindowOk(m', x) <==> WindowOk(m, x)
  {
    TableSlotsSame(m, m', d, i, j, n, g, perm);
    hide Page, Leaf, NotTable, UserDataDisjoint, ContentKept;
    assert Root(m', x) == Target(m', RootSlot(x)) && Root(m, x) == Target(m, RootSlot(x));
    forall a ensures Mid(m', x, a) == Mid(m, x, a) {
      assert Target(m', Slot2(x, a)) == Target(m, Slot2(x, a));
    }
    forall a, b ensures Low(m', x, a, b) == Low(m, x, a, b) {
      assert Target(m', Slot1(x, a, b)) == Target(m, Slot1(x, a, b));
    }
    hide Root, Mid, Low, Target;
    forall b, c ensures Page(m', x, PPT, b, c) == Page(m, x, PPT, b, c) {
      assert Slot0(x, PPT, b, c) != Slot0(d, i, j, n);
    }
    WindowDependsOn(m, m', x);
  }

  lemma TableSlotsSame(m: Mem, m': Mem, d: nat, i: nat, j: nat, n: nat, g: nat, perm: bv10)
    requires Shaped(m) && Shaped(m') && Low(m, d, i, j).Some? && PageMapped(m, m', d, i, j, n, g, perm)
    ensures forall s :: IsTableSlot(s) ==> Target(m', s) == Target(m, s)
  {
    hide Page, Leaf, NotTable, UserDataDisjoint, ContentKept;
    assert Target(m, RootSlot(d)).Some? && Target(m, Slot2(d, i)).Some? && Target(m, Slot1(d, i, j)).Some?;
  }

  /** The page of d at dstva is now the frame behind srcva in s. */
  ghost predicate PageShared(m: Mem, m': Mem, s: nat, srcva: nat, d: nat, dstva: nat, perm: bv10)
    requires Shaped(m) && Shaped(m')
  {
    && Translated(m, s, srcva).Some? && Translated(m, s, srcva).value >= KERNBASE
    && UserMapped(m, m', d, VPN2(dstva), VPN1(dstva), VPN0(dstva), FrameOf(Translated(m, s, srcva).value), perm)
  }

  /** What mapping a page of env s into env d does; good says whether the machine's invariant holds after it. */
  ghost predicate Shared(m: Mem, m': Mem, s: nat, srcva: nat, d: nat, dstva: nat, perm: bv10, r: int, good: bool)
    requires Shaped(m) && Shaped(m')
  {
    if Translated(m, s, srcva) == None then m' == m && good && r == -E_INVAL
    else
      && (r == 0 || r == -E_NO_MEM) && (good <==> !LosesWindow(m, d, VPN2(dstva), VPN1(dstva)))
      && (r == 0 ==> PageShared(m, m', s, srcva, d, dstva, perm))
      && (r != 0 ==> UserFailed(m, m', d, VPN2(dstva), VPN1(dstva)))
  }

  lemma DirectoriesThere(m: Mem, k: K.State, e: nat)
    requires Shaped(m) && K.Shaped(k) && Spaces(m, k) && K.Live(k, e)
    ensures WindowOk(m, e)
  {
  }

  /** What handle_exception does after a page fault: go back to the instruction; run the user's handler; find
      no frame for its stack, which the kernel does not expect; or panic. */
  datatype FaultOutcome = Retry | UserHandler | NoStack | OutOfRange

  /** The four ways in which a page fault below UTOP is treated. */
  datatype FaultKind = AddExec | CopyOnWrite | AddWrite | NewPage

  function Kind(p: Option<Pte>, cause: Cause): FaultKind
  {
    if p == None then NewPage
    else if cause == Fetch then AddExec
    else if p.value.flags & PTE_COW != 0 then CopyOnWrite
    else if cause == StoreFault then AddWrite
    else NewPage
  }

  /** What becomes of a fault of env d at tval; good says whether the machine's invariant holds after it. */
  ghost predicate FaultHandled(m: Mem, m': Mem, d: nat, tval: nat, cause: Cause, o: FaultOutcome, good: bool)
    requires Shaped(m) && Shaped(m')
  {
    match Kind(Page(m, d, VPN2(tval), VPN1(tval), VPN0(tval)), cause)
    case AddExec => o == Retry && good && Reflagged(m, m', d, tval, PTE_X)
    case AddWrite => o == Retry && good && Reflagged(m, m', d, tval, PTE_W)
    // The user's handler gets a stack; that is the only page that can have changed.
    case CopyOnWrite =>
      if Translated(m, d, UXSTACK_VA).Some? then o == UserHandler && good && m' == m
      else if o == UserHandler then good && NewAt(m, m', d, UXSTACK_VA)
      else o == NoStack && |m.free| <= FramesFor(m, d, UXSTACK_VA)
    // Anything else gets a cleared page of its own.
    case NewPage => o == Retry && (|m.free| > FramesFor(m, d, tval) ==> good && NewAt(m, m', d, tval))
  }

  /** The page of va gets one more flag. */
  ghost predicate Reflagged(m: Mem, m': Mem, d: nat, va: nat, flag: bv10)
    requires Shaped(m) && Shaped(m')
  {
    Page(m, d, VPN2(va), VPN1(va), VPN0(va)).Some? && Translated(m, d, va).Some?
      && Translated(m, d, va).value >= KERNBASE
    && PageMapped(m, m', d, VPN2(va), VPN1(va), VPN0(va), FrameOf(Translated(m, d, va).value),
                  Page(m, d, VPN2(va), VPN1(va), VPN0(va)).value.flags | flag)
  }

  ghost predicate NewAt(m: Mem, m': Mem, d: nat, va: nat)
    requires Shaped(m) && Shaped(m')
  {
    UserAllocated(m, m', d, VPN2(va), VPN1(va), VPN0(va), PTE_R | PTE_W | PTE_U)
  }

  /** Whether the access that faulted goes through after the fault: always on a new page, except for a fetch; else if
      the page is the user's and its flags make a leaf with the new one. A store to a page without PTE_R faults again
      and again. */
  predicate GoesThrough(p: Option<Pte>, cause: Cause)
  {
    match Kind(p, cause)
    case NewPage => cause != Fetch
    case AddExec => p.value.flags & PTE_U != 0 && (p.value.flags & PTE_W != 0 ==> p.value.flags & PTE_R != 0)
    case AddWrite => p.value.flags & PTE_U != 0 && p.value.flags & PTE_R != 0
    case CopyOnWrite => false
  }

  lemma RetryGoesThrough(m: Mem, m': Mem, pin: seq<nat>, d: nat, tval: nat, cause: Cause)
    requires Shaped(m) && PhysMem.Inv(m', pin) && tval < UTOP && d in m'.roots
    requires FaultHandled(m, m', d, tval, cause, Retry, true)
    requires Kind(Page(m, d, VPN2(tval), VPN1(tval), VPN0(tval)), cause) == NewPage ==> |m.free| > FramesFor(m, d, tval)
    ensures Reaches(m', d, tval, cause).Some? <==> GoesThrough(Page(m, d, VPN2(tval), VPN1(tval), VPN0(tval)), cause)
  {
    UserSlots(tval);
    AccessAgrees(m', pin, d, tval, cause);
    hide PhysMem.InvX, VPN0, VPN1, VPN2, Page, Leaf, NotTable, UserDataDisjoint, ContentKept, WindowOk, Reaches,
      TablesKept, OtherWindowsKept, FrameOf, Target, FramesFor, Translated;
    var p := Page(m, d, VPN2(tval), VPN1(tval), VPN0(tval));
    var flags := Permission(m', d, tval).value;
    FlagsAfter(if p.Some? then p.value.flags else 0);
  }

  lemma FlagsAfter(f: bv10)
    ensures var x := f | PTE_X | PTE_V;
            x & PTE_X != 0 && x & PTE_U == f & PTE_U && x & PTE_R == f & PTE_R && x & PTE_W == f & PTE_W
    ensures var x := f | PTE_W | PTE_V; x & PTE_W != 0 && x & PTE_U == f & PTE_U && x & PTE_R == f & PTE_R
    ensures var x := PTE_R | PTE_W | PTE_U | PTE_V;
            x & PTE_R != 0 && x & PTE_W != 0 && x & PTE_U != 0 && x & PTE_X == 0
  {
  }

  /** A fetch from a page that is not mapped takes two faults: the new page may not be executed. */
  lemma FetchTakesTwoFaults(m: Mem, m1: Mem, m2: Mem, pin: seq<nat>, d: nat, tval: nat)
    requires Shaped(m) && Shaped(m1) && PhysMem.Inv(m2, pin) && tval < UTOP && d in m2.roots
    requires Page(m, d, VPN2(tval), VPN1(tval), VPN0(tval)) == None && |m.free| > FramesFor(m, d, tval)
    requires FaultHandled(m, m1, d, tval, Fetch, Retry, true) && FaultHandled(m1, m2, d, tval, Fetch, Retry, true)
    ensures Reaches(m2, d, tval, Fetch).Some?
  {
    hide PhysMem.InvX, VPN0, VPN1, VPN2, Page, Leaf, NotTable, UserDataDisjoint, ContentKept, WindowOk, Reaches;
    hide UserPagesSame, OtherWindowsKept, FramesFor;
    FlagsAfter(0);
    assert Page(m1, d, VPN2(tval), VPN1(tval), VPN0(tval)).Some?;
    RetryGoesThrough(m1, m2, pin, d, tval, Fetch);
  }

  function FramesFor(m: Mem, d: nat, va: nat): nat
    requires Shaped(m)
  {
    FramesToReach(m, d, VPN2(va), VPN1(va))
  }

  class Machine {
    const kernel: KernelData
    const memory: PhysicalMemory

    ghost predicate Valid()
      reads kernel, kernel.envs, kernel.asidBitmap, memory, memory.frames, memory.pages
      ensures Valid() ==> Shaped(memory.S()) && K.Shaped(kernel.S())
    {
      && {kernel as object, kernel.envs, kernel.asidBitmap} !! {memory as object, memory.frames, memory.pages}
      && kernel.Valid() && memory.Valid() && Spaces(memory.S(), kernel.S())
    }

    constructor (k: KernelData, m: PhysicalMemory)
      requires {k as object, k.envs, k.asidBitmap} !! {m as object, m.frames, m.pages}
      requires k.Valid() && m.Valid() && Spaces(m.S(), k.S())
      ensures Valid() && kernel == k && memory == m
    {
      kernel, memory := k, m;
    }

    /** The target of a system call that takes an env id. */
    ghost function TargetEnv(envid: nat): Option<nat>
      requires K.InSyscall(kernel.S())
      reads kernel, kernel.envs, kernel.asidBitmap
    {
      K.EnvId2Env(kernel.S(), envid, kernel.envs[kernel.curenv.value].id)
    }

    /** sys_mem_alloc. The frames decide, and on failure the state is in order exactly if nothing was mapped and the
        window is there. */
    method SysMemAlloc(envid: nat, va: nat, perm: bv10) returns (r: int)
      requires Valid() && K.InSyscall(kernel.S())
      modifies memory, memory.frames, memory.pages
      ensures kernel.S() == old(kernel.S())
      ensures K.IsIllegalVa(va) ==> r == -E_INVAL
      ensures !K.IsIllegalVa(va) && TargetEnv(envid) == None ==> r == -E_BAD_ENV
      ensures r == -E_INVAL || r == -E_BAD_ENV ==> Valid() && memory.S() == old(memory.S())
      ensures r == 0 ==> Valid() && TargetEnv(envid).Some?
                         && UserAllocated(old(memory.S()), memory.S(), TargetEnv(envid).value, VPN2(va), VPN1(va),
                                          VPN0(va), perm)
      ensures r == 0 || r == -E_INVAL || r == -E_BAD_ENV || r == -E_NO_MEM
      ensures !K.IsIllegalVa(va) && TargetEnv(envid).Some? ==>
                var m, d, i, j, n := old(memory.S()), TargetEnv(envid).value, VPN2(va), VPN1(va), VPN0(va);
                && (r == 0 <==> |m.free| + Freed(m, Slot0(d, i, j, n)) > FramesToReach(m, d, i, j))
                && (r != 0 ==> r == -E_NO_MEM && Shaped(memory.S()) && UserFailed(m, memory.S(), d, i, j)
                               && (Valid() <==> Page(m, d, i, j, n) == None && !LosesWindow(m, d, i, j)))
    {
      hide UserFailed, Freed, FramesToReach, LosesWindow;
      hide PhysMem.InvX, K.Inv, Spaces, UserAllocated, UserPagesSame, K.EnvId2Env, Page, VPN0, VPN1, VPN2;
      if va < UTEMP || va >= UTOP {
        return -E_INVAL;
      }
      var env;
      r, env := kernel.Envid2env(envid, kernel.envs[kernel.curenv.value].id);
      if r != 0 {
        return;
      }
      TargetHasWindow(memory.S(), kernel.S(), envid);
      ghost var m := memory.S();
      r := memory.AllocPageUser(env, va, perm);
      if r == 0 {
        SpacesAfterAlloc(m, memory.S(), kernel.S(), env, VPN2(va), VPN1(va), VPN0(va), perm);
      } else {
        SpacesAfterFailure(m, memory.S(), kernel.S(), env, VPN2(va), VPN1(va));
      }
    }

    /** sys_mem_map. Mapping keeps every env's view of its page table unless the walk in the target runs
        out of frames at the one point where map_page_user ignores it. */
    method SysMemMap(srcid: nat, srcva: nat, dstid: nat, dstva: nat, perm: bv10) returns (r: int)
      requires Valid() && K.InSyscall(kernel.S()) && forall f :: 0 <= f < NPAGE ==> memory.pages[f] < 0xffff
      modifies memory, memory.frames, memory.pages
      ensures kernel.S() == old(kernel.S()) && Shaped(memory.S())
      ensures K.IsIllegalVa(srcva) || K.IsIllegalVa(dstva) ==> r == -E_INVAL
      ensures !K.IsIllegalVa(srcva) && !K.IsIllegalVa(dstva) ==>
                TargetEnv(srcid) == None || TargetEnv(dstid) == None ==> r == -E_BAD_ENV
      ensures if K.IsIllegalVa(srcva) || K.IsIllegalVa(dstva) || TargetEnv(srcid) == None || TargetEnv(dstid) == None
              then Valid() && memory.S() == old(memory.S())
              else Shared(old(memory.S()), memory.S(), TargetEnv(srcid).value, srcva, TargetEnv(dstid).value, dstva,
                          perm, r, Valid())
    {
      hide PhysMem.InvX, K.Inv, Spaces, Shared, K.EnvId2Env, UserDataDisjoint, WindowOk, K.Live;
      if K.IsIllegalVa(srcva) || K.IsIllegalVa(dstva) {
        return -E_INVAL;
      }
      var srcenv, dstenv;
      r, srcenv := kernel.Envid2env(srcid, kernel.envs[kernel.curenv.value].id);
      if r != 0 {
        return;
      }
      r, dstenv := kernel.Envid2env(dstid, kernel.envs[kernel.curenv.value].id);
      if r != 0 {
        return;
      }
      TargetHasWindow(memory.S(), kernel.S(), srcid);
      TargetHasWindow(memory.S(), kernel.S(), dstid);
      r := SharePage(srcenv, srcva, dstenv, dstva, perm);
    }

    /** sys_mem_unmap */
    method SysMemUnmap(envid: nat, va: nat) returns (r: int)
      requires Valid() && K.InSyscall(kernel.S())
      modifies memory, memory.frames, memory.pages
      ensures Valid() && kernel.S() == old(kernel.S())
      ensures K.IsIllegalVa(va) ==> r == -E_INVAL
      ensures !K.IsIllegalVa(va) ==> r == if TargetEnv(envid) == None then -E_BAD_ENV else 0
      ensures r != 0 ==> memory.S() == old(memory.S())
      ensures r == 0 ==> PageUnmapped(old(memory.S()), memory.S(), TargetEnv(envid).value, VPN2(va), VPN1(va), VPN0(va))
    {
      hide PhysMem.InvX, K.Inv, Spaces, PageUnmapped, K.EnvId2Env, Page, VPN0, VPN1, VPN2, WindowOk;
      if K.IsIllegalVa(va) {
        return -E_INVAL;
      }
      var e;
      r, e := kernel.Envid2env(envid, kernel.envs[kernel.curenv.value].id);
      if r != 0 {
        return;
      }
      ghost var m := memory.S();
      memory.UnmapPageUser(e, va);
      SpacesAfterUnmap(m, memory.S(), kernel.S(), e, VPN2(va), VPN1(va), VPN0(va));
      return 0;
    }

    /** Map the page of env s at srcva at dstva of env d, as sys_mem_map and sys_ipc_try_send do. */
    method SharePage(s: nat, srcva: nat, d: nat, dstva: nat, perm: bv10) returns (r: int)
      requires Valid() && K.Live(kernel.S(), s) && K.Live(kernel.S(), d) && srcva < UTOP && dstva < UTOP
      requires forall f :: 0 <= f < NPAGE ==> memory.pages[f] < 0xffff
      modifies memory, memory.frames, memory.pages
      ensures kernel.S() == old(kernel.S()) && kernel.Valid() && Shaped(memory.S())
      ensures Shared(old(memory.S()), memory.S(), s, srcva, d, dstva, perm, r, Valid())
    {
      hide PhysMem.InvX, K.Inv, UserMapped, UserFailed, Page, VPN0, VPN1, VPN2, LosesWindow, NotTable, FrameOf,
        Translated, Leaf, Low;
      hide UserDataDisjoint, WindowOk, K.Live;
      ghost var m := memory.S();
      SpacesParts(m, kernel.S());
      DirectoriesThere(m, kernel.S(), s);
      DirectoriesThere(m, kernel.S(), d);
      hide Spaces;
      UserSlots(srcva);
      var mapped := memory.IsMappedPage(s, srcva);
      if !mapped {
        return -E_INVAL;
      }
      UserPage(m, memory.pin, s, srcva);
      var pa := memory.GetPa(s, srcva);
      r := memory.MapPageUser(d, dstva, pa, perm);
      if r == 0 {
        SpacesAfterMap(m, memory.S(), kernel.S(), d, VPN2(dstva), VPN1(dstva), VPN0(dstva), FrameOf(pa), perm);
      } else {
        SpacesAfterFailure(m, memory.S(), kernel.S(), d, VPN2(dstva), VPN1(dstva));
      }
    }

    /** sys_ipc_try_send with the page at srcva. The message is delivered even when the page is not there or
        cannot be mapped. */
    method SysIpcTrySend(envid: nat, value: nat, srcva: nat, perm: bv10) returns (r: int)
      requires Valid() && K.InSyscall(kernel.S()) && forall f :: 0 <= f < NPAGE ==> memory.pages[f] < 0xffff
      modifies kernel`envSchedList, kernel.envs, memory, memory.frames, memory.pages
      ensures Sent(old(kernel.S()), kernel.S(), old(memory.S()), memory.S(), envid, value, srcva, perm, r, Valid())
    {
      ghost var k, m := kernel.S(), memory.S();
      hide PhysMem.InvX, K.Inv, Spaces, Shared, K.IpcTrySend, K.IpcTarget, Delivered, CanShare, K.Live,
        UserDataDisjoint, WindowOk, Sent, PageSent;
      var sent, t := DeliverMessage(envid, value, srcva, perm);
      r := SendPage(t, srcva, perm, sent);
      SentIs(k, kernel.S(), m, memory.S(), envid, value, srcva, perm, sent, r, Valid());
    }

    /** The part of sys_ipc_try_send that maps the page, if there is one to map. */
    method SendPage(t: Option<nat>, srcva: nat, perm: bv10, sent: int) returns (r: int)
      requires Valid() && CanShare(kernel.S(), srcva, t)
      requires forall f :: 0 <= f < NPAGE ==> memory.pages[f] < 0xffff
      modifies memory, memory.frames, memory.pages
      ensures kernel.S() == old(kernel.S())
              && PageSent(kernel.S(), old(memory.S()), memory.S(), t, srcva, perm, sent, r, Valid())
    {
      hide PhysMem.InvX, K.Inv, Spaces, Shared, UserDataDisjoint, WindowOk;
      r := sent;
      if t.Some? && srcva != 0 {
        CurHasWindow(memory.S(), kernel.S());
        r := SharePage(kernel.curenv.value, srcva, t.value, kernel.envs[t.value].dstva, perm);
      }
    }

    /** The part of sys_ipc_try_send that does not look at the page. */
    method DeliverMessage(envid: nat, value: nat, srcva: nat, perm: bv10) returns (r: int, t: Option<nat>)
      requires Valid() && K.InSyscall(kernel.S())
      modifies kernel`envSchedList, kernel.envs
      ensures Valid() && Delivered(old(kernel.S()), kernel.S(), envid, value, srcva, perm, r)
              && t == K.IpcTarget(old(kernel.S()), envid, srcva)
      ensures CanShare(kernel.S(), srcva, t)
    {
      ghost var k, m := kernel.S(), memory.S();
      SendDelivers(k, envid, value, srcva, perm);
      hide PhysMem.InvX, K.Inv, Spaces, K.EnvId2Env, K.IpcTrySend, K.IpcTarget, Scheduling.Step, Scheduling.Enabled,
        K.Live, Delivered, CanShare;
      r, t := kernel.SysIpcTrySend(envid, value, srcva, perm, 0);
      SameLives(m, k, kernel.S());
    }

    /** sys_exofork. Without a frame for the directory env_alloc panics, and ok is false. The new env sees its own
        page table exactly if three frames were free. */
    method SysExofork(envs: Pte, kern: Pte) returns (ok: bool, r: int)
      requires Valid() && K.InSyscall(kernel.S()) && kernel.ids + 1 < K.ID_LIMIT
      modifies kernel, kernel.envs, kernel.asidBitmap, memory, memory.frames, memory.pages
      ensures Shaped(memory.S()) && kernel.Valid() && K.Done(kernel.S(), r) == old(ForkStep())
      ensures kernel.envFreeList == old(kernel.envFreeList) ==> ok && Valid() && memory.S() == old(memory.S())
      ensures kernel.envFreeList != old(kernel.envFreeList) ==>
                && old(kernel.envFreeList) != [] && (ok <==> old(memory.free) != [])
                && (ok ==> (Valid() <==> old(|memory.free|) >= 3))
                && (ok && Valid() ==> FreshDirectory(memory.S(), old(kernel.envFreeList)[0]))
                && (ok ==> EntryIs(memory.S(), old(kernel.envFreeList)[0], PKERN, kern)
                           && EntryIs(memory.S(), old(kernel.envFreeList)[0], PENVS, envs))
    {
      ghost var k, m := kernel.S(), memory.S();
      ForkLives(k);
      var before := kernel.envFreeList;
      SpacesParts(m, k);
      hide PhysMem.InvX, K.Inv, Spaces, UserDataDisjoint, WindowOk, Page, Target, FreshDirectory, K.Exofork, EntryIs;
      r := kernel.SysExofork();
      ok := true;
      if kernel.envFreeList == before {
        SameLives(m, k, kernel.S());
        return;
      }
      var e := before[0];
      ok := memory.EnvSetupVm(e, envs);
      if !ok {
        return;
      }
      ghost var m1 := memory.S();
      memory.AliasKernel(e, kern, envs);
      SameOtherWindows(m, m1, memory.S(), e);
      SameStateWindow(m1, memory.S(), e);
      SpacesAfterFork(m, memory.S(), k, kernel.S(), e);
    }

    ghost function ForkStep(): K.Outcome
      requires K.Inv(kernel.S()) && K.InSyscall(kernel.S()) && kernel.ids + 1 < K.ID_LIMIT
      reads kernel, kernel.envs, kernel.asidBitmap
    {
      ForkLives(kernel.S());
      K.Exofork(kernel.S())
    }

    /** sys_env_destroy with env_destroy: the directory goes, then the env; ok is false when schedule panics. */
    method SysEnvDestroy(envid: nat) returns (ok: bool, r: int)
      requires Valid() && K.InSyscall(kernel.S())
      modifies kernel, kernel.envs, kernel.asidBitmap, memory, memory.frames, memory.pages
      ensures Shaped(memory.S()) && (ok ==> Valid())
      ensures old(Scheduling.Enabled(kernel.S(), Scheduling.Destroy(envid)))
      ensures ok == old(Scheduling.Step(kernel.S(), Scheduling.Destroy(envid))).Done?
      ensures ok ==> kernel.S() == old(Scheduling.Step(kernel.S(), Scheduling.Destroy(envid))).k
      ensures old(K.EnvId2Env(kernel.S(), envid, 1)) == None ==> ok && r == -E_BAD_ENV && memory.S() == old(memory.S())
      ensures old(K.EnvId2Env(kernel.S(), envid, 1)).Some? ==>
                Destroyed(old(memory.S()), memory.S(), old(kernel.curenv.value))
    {
      ghost var k, m := kernel.S(), memory.S();
      K.OnlySelfIsDestroyed(k, envid);
      hide PhysMem.InvX, K.Inv, Spaces, K.EnvId2Env, Destroyed, K.SysEnvDestroy, Page, Target, UserDataDisjoint,
        WindowOk, K.Live;
      hide Scheduling.Step, Scheduling.Enabled;
      var e;
      r, e := kernel.Envid2env(envid, 1);
      if r != 0 {
        ok := true;
        return;
      }
      memory.DestroyPgdir(e);
      assert kernel.S() == k;
      ok, r := kernel.SysDestroy(envid);
      if ok {
        SpacesAfterExit(m, memory.S(), k, envid, e);
      }
    }

    /** alloc_page_user for the running env, when enough frames are free for it. */
    method NewUserPage(d: nat, va: nat) returns (r: int)
      requires Valid() && K.Live(kernel.S(), d) && va < UTOP
      modifies memory, memory.frames, memory.pages
      ensures kernel.S() == old(kernel.S()) && Shaped(memory.S())
      ensures old(|memory.free|) > FramesFor(old(memory.S()), d, va) ==> r == 0
      ensures r == 0 ==> Valid() && NewAt(old(memory.S()), memory.S(), d, va)
    {
      hide PhysMem.InvX, K.Inv, UserAllocated, UserPagesSame, Page, VPN0, VPN1, VPN2, FramesToReach, UserDataDisjoint,
        WindowOk;
      ghost var m := memory.S();
      r := memory.AllocPageUser(d, va, PTE_R | PTE_W | PTE_U);
      if r == 0 {
        hide Spaces;
        SpacesAfterAlloc(m, memory.S(), kernel.S(), d, VPN2(va), VPN1(va), VPN0(va), PTE_R | PTE_W | PTE_U);
      }
    }

    /** The page-fault branch of handle_exception, without the copy of the trap frame, for addresses below
        UTOP and with enough free frames. */
    method PageFault(cause: Cause, tval: nat) returns (o: FaultOutcome)
      requires Valid() && K.InSyscall(kernel.S()) && (tval < UTOP || tval >= 0x2_0000_0000)
      requires forall f :: 0 <= f < NPAGE ==> memory.pages[f] < 0xffff
      modifies memory, memory.frames, memory.pages
      ensures kernel.S() == old(kernel.S()) && Shaped(memory.S())
      ensures tval < 0x3000 || tval >= UTOP <==> o == OutOfRange
      ensures o == OutOfRange ==> Valid() && memory.S() == old(memory.S())
      ensures o != OutOfRange ==>
                FaultHandled(old(memory.S()), memory.S(), kernel.curenv.value, tval, cause, o, Valid())
    {
      hide PhysMem.InvX, K.Inv, Spaces, PageMapped, Page, VPN0, VPN1, VPN2, NotTable, FrameOf, Translated, Leaf, Low,
        NewAt, FramesFor, FaultHandled, Reflagged;
      if tval < 0x3000 || tval >= 0x2_0000_0000 {
        return OutOfRange;
      }
      var d := kernel.curenv.value;
      ghost var m := memory.S();
      CurHasWindow(m, kernel.S());
      UserSlots(tval);
      UserSlots(UXSTACK_VA);
      PageIsTranslated(m, d, tval);
      var pte := memory.Walk(d, tval);
      if pte.Some? {
        var perm := pte.value.flags;
        if cause == Fetch {
          Reflag(d, tval, perm, PTE_X);
          Reflags(m, memory.S(), d, tval, cause, PTE_X);
          return Retry;
        }
        if perm & PTE_COW != 0 {
          var stack := memory.IsMappedPage(d, UXSTACK_VA);
          var r := 0;
          if !stack {
            r := NewUserPage(d, UXSTACK_VA);
          }
          o := if r != 0 then NoStack else UserHandler;
          GoesToHandler(m, memory.S(), d, tval, cause, o, Valid());
          return;
        } else if cause == StoreFault {
          Reflag(d, tval, perm, PTE_W);
          Reflags(m, memory.S(), d, tval, cause, PTE_W);
          return Retry;
        }
      }
      var r := NewUserPage(d, tval);
      GetsNewPage(m, memory.S(), d, tval, cause, Valid());
      return Retry;
    }

    /** Give the page of va other flags: map_page of the page at its own address. */
    method Reflag(d: nat, va: nat, perm: bv10, flag: bv10)
      requires Valid() && va < UTOP && d in memory.roots
      requires Page(memory.S(), d, VPN2(va), VPN1(va), VPN0(va)).Some?
      requires perm == Page(memory.S(), d, VPN2(va), VPN1(va), VPN0(va)).value.flags
      requires forall f :: 0 <= f < NPAGE ==> memory.pages[f] < 0xffff
      modifies memory, memory.frames, memory.pages
      ensures Valid() && kernel.S() == old(kernel.S()) && Reflagged(old(memory.S()), memory.S(), d, va, flag)
    {
      hide PhysMem.InvX, K.Inv, Spaces, PageMapped, Page, VPN0, VPN1, VPN2, NotTable, FrameOf, Translated, Leaf, Low,
        TablesGrown;
      ghost var m := memory.S();
      SpacesParts(m, kernel.S());
      PageIsTranslated(m, d, va);
      UserPage(m, memory.pin, d, va);
      UserSlots(va);
      var pa := memory.GetPa(d, va);
      var r := memory.MapPage(d, va, pa, perm | flag);
      ReflagKeepsSpaces(m, memory.S(), memory.pin, kernel.S(), d, va, FrameOf(pa), perm | flag);
    }
  }

  /** The page at srcva, and the place for it in env t, are addresses of live envs. */
  ghost predicate CanShare(k: K.State, srcva: nat, t: Option<nat>)
  {
    K.InSyscall(k) && (t.Some? ==> K.Live(k, t.value) && srcva < UTOP && k.envs[t.value].dstva < UTOP)
  }

  /** What the page part of a send does. */
  ghost predicate PageSent(k: K.State, m: Mem, m': Mem, t: Option<nat>, srcva: nat, perm: bv10, sent: int, r: int,
                           good: bool)
  {
    && Shaped(m) && Shaped(m') && K.Shaped(k) && k.cur.Some? && (t.Some? ==> t.value < K.NENV)
    && if t == None || srcva == 0 then m' == m && good && r == sent
       else Shared(m, m', k.cur.value, srcva, t.value, k.envs[t.value].dstva, perm, r, good)
  }

  /** What sending a message does; good says whether the machine's invariant holds. */
  ghost predicate Sent(k: K.State, k': K.State, m: Mem, m': Mem, envid: nat, value: nat, srcva: nat, perm: bv10,
                       r: int, good: bool)
  {
    && K.InSyscall(k) && Shaped(m) && Shaped(m') && K.IpcTrySend(k, envid, value, srcva, perm, r) == K.Done(k', r)
    && (var t := K.IpcTarget(k, envid, srcva);
        if t == None || srcva == 0 then m' == m && good
        else Shared(m, m', k.cur.value, srcva, t.value, k.envs[t.value].dstva, perm, r, good))
  }

  lemma SentIs(k: K.State, k': K.State, m: Mem, m': Mem, envid: nat, value: nat, srcva: nat, perm: bv10, r1: int,
               r: int, good: bool)
    requires K.InSyscall(k) && Delivered(k, k', envid, value, srcva, perm, r1)
    requires PageSent(k', m, m', K.IpcTarget(k, envid, srcva), srcva, perm, r1, r, good)
    ensures Sent(k, k', m, m', envid, value, srcva, perm, r, good)
  {
    DeliveredAs(k, k', envid, value, srcva, perm, r1, r);
    DeliveredFacts(k, k', envid, value, srcva, perm, r1);
    hide K.IpcTrySend, K.IpcTarget, Shared, Delivered;
  }

  /** The message has been handled, whatever comes of the page. */
  ghost predicate Delivered(k: K.State, k': K.State, envid: nat, value: nat, srcva: nat, perm: bv10, r: int)
    requires K.InSyscall(k)
  {
    && K.Shaped(k') && k'.cur == k.cur && (forall x: nat :: K.Live(k', x) <==> K.Live(k, x))
    && (forall x :: 0 <= x < K.NENV ==> k'.envs[x].dstva == k.envs[x].dstva)
    && (forall p :: K.IpcTrySend(k, envid, value, srcva, perm, p).k == k')
    && (forall p ::
          K.IpcTrySend(k, envid, value, srcva, perm, p).r
          == if K.IpcTarget(k, envid, srcva).Some? && srcva != 0 then p else r)
  }

  lemma SendDelivers(k: K.State, envid: nat, value: nat, srcva: nat, perm: bv10)
    requires K.Inv(k) && K.InSyscall(k)
    ensures var o, t := K.IpcTrySend(k, envid, value, srcva, perm, 0), K.IpcTarget(k, envid, srcva);
            && Delivered(k, o.k, envid, value, srcva, perm, o.r) && CanShare(o.k, srcva, t)
            && forall x: nat :: K.Live(o.k, x) <==> K.Live(k, x)
    ensures Scheduling.Enabled(k, Scheduling.Send(envid, value, srcva, perm, 0))
    ensures Scheduling.Step(k, Scheduling.Send(envid, value, srcva, perm, 0))
            == K.IpcTrySend(k, envid, value, srcva, perm, 0)
  {
    K.LookupFindsLive(k, envid, 0);
    hide K.ListsOk, K.AsidsOk, K.IdsOk;
  }

  lemma DeliveredFacts(k: K.State, k': K.State, envid: nat, value: nat, srcva: nat, perm: bv10, r: int)
    requires K.InSyscall(k) && Delivered(k, k', envid, value, srcva, perm, r)
    ensures K.Shaped(k') && k'.cur == k.cur && forall x: nat :: K.Live(k', x) <==> K.Live(k, x)
    ensures forall x :: 0 <= x < K.NENV ==> k'.envs[x].dstva == k.envs[x].dstva
  {
    hide K.IpcTrySend, K.IpcTarget;
  }

  lemma DeliveredAs(k: K.State, k': K.State, envid: nat, value: nat, srcva: nat, perm: bv10, r1: int, r: int)
    requires K.InSyscall(k) && Delivered(k, k', envid, value, srcva, perm, r1)
    requires (K.IpcTarget(k, envid, srcva).Some? && srcva != 0) || r == r1
    ensures K.IpcTrySend(k, envid, value, srcva, perm, r) == K.Done(k', r)
  {
    hide K.IpcTrySend, K.IpcTarget;
  }

  lemma SameLives(m: Mem, k: K.State, k': K.State)
    requires Shaped(m) && K.Shaped(k) && K.Shaped(k') && Spaces(m, k)
             && forall x: nat :: K.Live(k', x) <==> K.Live(k, x)
    ensures Spaces(m, k')
  {
    hide WindowOk, UserDataDisjoint;
  }

  lemma SpacesParts(m: Mem, k: K.State)
    requires Shaped(m) && K.Shaped(k) && Spaces(m, k)
    ensures UserDataDisjoint(m) && forall d :: d in m.roots ==> K.Live(k, d)
  {
  }

  lemma Reflags(m: Mem, m': Mem, d: nat, tval: nat, cause: Cause, flag: bv10)
    requires Shaped(m) && Shaped(m') && Reflagged(m, m', d, tval, flag)
    requires var k := Kind(Page(m, d, VPN2(tval), VPN1(tval), VPN0(tval)), cause);
             (k == AddExec && flag == PTE_X) || (k == AddWrite && flag == PTE_W)
    ensures FaultHandled(m, m', d, tval, cause, Retry, true)
  {
    hide Reflagged, Kind, Page, Translated;
  }

  lemma GoesToHandler(m: Mem, m': Mem, d: nat, tval: nat, cause: Cause, o: FaultOutcome, good: bool)
    requires Shaped(m) && Shaped(m') && Kind(Page(m, d, VPN2(tval), VPN1(tval), VPN0(tval)), cause) == CopyOnWrite
    requires if Translated(m, d, UXSTACK_VA).Some? then o == UserHandler && good && m' == m
             else if o == UserHandler then good && NewAt(m, m', d, UXSTACK_VA)
             else o == NoStack && |m.free| <= FramesFor(m, d, UXSTACK_VA)
    ensures FaultHandled(m, m', d, tval, cause, o, good)
  {
    hide Reflagged, Kind, Page, Translated, NewAt, FramesFor;
  }

  lemma GetsNewPage(m: Mem, m': Mem, d: nat, tval: nat, cause: Cause, good: bool)
    requires Shaped(m) && Shaped(m') && Kind(Page(m, d, VPN2(tval), VPN1(tval), VPN0(tval)), cause) == NewPage
    requires |m.free| > FramesFor(m, d, tval) ==> good && NewAt(m, m', d, tval)
    ensures FaultHandled(m, m', d, tval, cause, Retry, good)
  {
    hide Reflagged, Kind, Page, Translated, NewAt, FramesFor;
  }

  lemma PageIsTranslated(m: Mem, d: nat, va: nat)
    requires Shaped(m)
    ensures Translated(m, d, va).Some? <==> Page(m, d, VPN2(va), VPN1(va), VPN0(va)).Some?
  {
    hide Page;
  }

  lemma CurHasWindow(m: Mem, k: K.State)
    requires Shaped(m) && K.Inv(k) && Spaces(m, k) && K.InSyscall(k)
    ensures K.Live(k, k.cur.value) && WindowOk(m, k.cur.value) && k.cur.value in m.roots
  {
    K.LookupFindsLive(k, 0, 0);
  }

  lemma UserSlots(va: nat)
    requires va < UTOP
    ensures !IsShared(VPN2(va)) && VPN2(va) < 2
  {
    WindowGeometry(va);
  }

  lemma TargetHasWindow(m: Mem, k: K.State, envid: nat)
    requires Shaped(m) && K.Inv(k) && Spaces(m, k) && K.InSyscall(k)
    ensures var t := K.EnvId2Env(k, envid, k.envs[k.cur.value].id);
            t.Some? ==> K.Live(k, t.value) && WindowOk(m, t.value) && t.value in m.roots
    ensures UserDataDisjoint(m)
  {
    K.LookupFindsLive(k, envid, k.envs[k.cur.value].id);
  }
}
