/** Environments, the scheduler and IPC (kern/env.c, kern/sched.c, kern/syscall_all.c) as a state
    machine: what each kernel entry does to the kernel's data, and the invariant that all of them keep.

    The two lists are sequences of env numbers here; module Queue shows that the pointer operations
    implement sequence insertion and removal. */
module KernelState {
  import opened Bitmap
  import opened Errors
  import opened Options
  import Sv39

  const LOG2NENV: nat := 10
  const NENV: nat := 1024
  const NASID: nat := 64
  /** 2^(LOG2NENV + 1), the step between the ids of two allocations */
  const ID_STEP: nat := 2048
  const U32: nat := 0x1_0000_0000
  /** Ids are distinct below this allocation number. */
  const ID_LIMIT: nat := 0x20_0000

  const ENV_FREE: nat := 0
  const ENV_RUNNABLE: nat := 1
  const ENV_NOT_RUNNABLE: nat := 2

  /** struct Env, without its registers and its page directory. */
  datatype Env = Env(status: nat, id: nat, parent: nat, asid: nat, pri: nat, runs: nat,
                     recving: bool, value: nat, from: nat, perm: bv10, dstva: nat)

  datatype State = State(envs: seq<Env>, free: seq<nat>, sched: seq<nat>, cur: Option<nat>, count: int,
                         ids: nat, asids: seq<bv32>)

  /** A kernel entry returns a result, or panics. */
  datatype Outcome = Done(k: State, r: int) | Panic

  /* ---- Lists ---- */

  /** TAILQ_REMOVE; removing an element that has already left changes nothing. */
  function Removed(s: seq<nat>, e: nat): (r: seq<nat>)
    ensures Distinct(s) ==> Distinct(r) && forall x :: x in r <==> x in s && x != e
    ensures e !in s ==> r == s
    ensures forall x :: x in r ==> x in s
  {
    if s == [] then [] else if s[0] == e then s[1..] else
      var r := Removed(s[1..], e);
      assert forall x :: x in s <==> x == s[0] || x in s[1..];
      assert Distinct(s) ==> Distinct(s[1..]) && s[0] !in s[1..];
      [s[0]] + r
  }

  predicate IsIllegalVa(va: nat) { va < Sv39.UTEMP || va >= Sv39.UTOP }

  /* ---- ids and ASIDs ---- */

  /** mkenvid for allocation number i, in 32-bit arithmetic. */
  function MkEnvId(i: nat, e: nat): nat
    requires e < NENV
  {
    i * ID_STEP % U32 + e
  }

  lemma DivStep(x: nat, q: nat, r: nat)
    requires x == q * ID_STEP + r && r < ID_STEP
    ensures x / ID_STEP == q && x % ID_STEP == r
  {
  }

  lemma ModNenv(x: nat, q: nat, r: nat)
    requires x == q * NENV + r && r < NENV
    ensures x % NENV == r
  {
  }

  lemma ModU32(x: nat, q: nat, r: nat)
    requires x == q * U32 + r && r < U32
    ensures x % U32 == r
  {
  }

  /** Below the limit an id tells its allocation number and its env. */
  lemma IdParts(i: nat, e: nat)
    requires i < ID_LIMIT && e < NENV
    ensures var id := MkEnvId(i, e); id / ID_STEP == i && id % ID_STEP == e && id % NENV == e && id < U32
  {
    ModU32(i * ID_STEP, 0, i * ID_STEP);
    DivStep(i * ID_STEP + e, i, e);
    ModNenv(i * ID_STEP + e, 2 * i, e);
  }

  /** The ids of the first 2^21 - 1 allocations are distinct, and none is 0. */
  lemma IdsAreDistinct(i: nat, e: nat, j: nat, f: nat)
    requires 1 <= i < ID_LIMIT && 1 <= j < ID_LIMIT && e < NENV && f < NENV
    ensures MkEnvId(i, e) != 0
    ensures MkEnvId(i, e) == MkEnvId(j, f) ==> i == j && e == f
  {
    hide MkEnvId;
    IdParts(i, e);
    IdParts(j, f);
  }

  /** One allocation later the ids start over; that of env 0 is then 0, which means curenv. */
  lemma IdsWrap(i: nat, e: nat)
    requires e < NENV
    ensures MkEnvId(i + ID_LIMIT, e) == MkEnvId(i, e)
    ensures MkEnvId(ID_LIMIT, 0) == 0
  {
    var q, r := i * ID_STEP / U32, i * ID_STEP % U32;
    assert (i + ID_LIMIT) * ID_STEP == (q + 1) * U32 + r;
    ModU32((i + ID_LIMIT) * ID_STEP, q + 1, r);
  }

  /** The first clear bit from i on. */
  function FirstClear(w: seq<bv32>, i: nat): (r: Option<nat>)
    requires |w| == 2 && i <= NASID
    decreases NASID - i
    ensures r.Some? ==> i <= r.value < NASID && !Test(w, r.value)
    ensures forall j :: i <= j < (if r.Some? then r.value else NASID) ==> Test(w, j)
  {
    if i == NASID then None else if !Test(w, i) then Some(i) else FirstClear(w, i + 1)
  }

  /* ---- The invariant ---- */

  predicate Shaped(k: State)
  {
    |k.envs| == NENV && |k.asids| == 2
  }

  predicate Live(k: State, e: nat)
    requires Shaped(k)
  {
    e < NENV && k.envs[e].status != ENV_FREE
  }

  /** Each list holds exactly the envs of its status, once each. */
  ghost predicate ListsOk(k: State)
    requires Shaped(k)
  {
    && Distinct(k.sched) && Distinct(k.free)
    && (forall e: nat :: e in k.sched <==> e < NENV && k.envs[e].status == ENV_RUNNABLE)
    && (forall e: nat :: e in k.free <==> e < NENV && k.envs[e].status == ENV_FREE)
  }

  /** Live envs have distinct nonzero ASIDs, and the bitmap marks those and ASID 0. */
  ghost predicate AsidsOk(k: State)
    requires Shaped(k)
  {
    && Test(k.asids, 0)
    && (forall e: nat :: Live(k, e) ==> 0 < k.envs[e].asid < NASID && Test(k.asids, k.envs[e].asid))
    && (forall e: nat, f: nat :: Live(k, e) && Live(k, f) && e != f ==> k.envs[e].asid != k.envs[f].asid)
    && (forall a :: 0 < a < NASID && Test(k.asids, a) ==> exists e: nat :: Live(k, e) && k.envs[e].asid == a)
  }

  /** The id of a live env encodes its number and its allocation. */
  ghost predicate IdsOk(k: State)
    requires Shaped(k)
  {
    && k.ids < ID_LIMIT
    && forall e: nat :: Live(k, e) ==> k.envs[e].id % ID_STEP == e && 1 <= k.envs[e].id / ID_STEP <= k.ids
  }

  /** A running curenv is the list head, with slices left. */
  ghost predicate CurOk(k: State)
    requires Shaped(k)
  {
    k.cur.Some? ==> k.sched != [] && k.sched[0] == k.cur.value < NENV
                    && 1 <= k.count <= k.envs[k.cur.value].pri
  }

  ghost predicate EnvsOk(k: State)
    requires Shaped(k)
  {
    forall e :: 0 <= e < NENV ==>
      && k.envs[e].status <= 2
      && (k.envs[e].status != ENV_FREE ==> k.envs[e].pri >= 1 && k.envs[e].parent != 1)
      && (k.envs[e].recving ==>
            k.envs[e].status == ENV_NOT_RUNNABLE && (k.envs[e].dstva == 0 || !IsIllegalVa(k.envs[e].dstva)))
  }

  ghost predicate Inv(k: State)
    ensures Inv(k) ==> Shaped(k)
  {
    Shaped(k) && ListsOk(k) && AsidsOk(k) && IdsOk(k) && CurOk(k) && EnvsOk(k)
  }

  /* ---- Operations ---- */

  function WithEnv(k: State, e: nat, v: Env): (k': State)
    requires Shaped(k) && e < NENV
    ensures Shaped(k')
  {
    k.(envs := k.envs[e := v])
  }

  /** envid2env: None is -E_BAD_ENV. */
  function EnvId2Env(k: State, envid: nat, checkperm: nat): (r: Option<nat>)
    requires Shaped(k) && k.cur.Some? && k.cur.value < NENV
    ensures r.Some? ==> r.value < NENV
  {
    if envid == 0 then k.cur else
    var e := envid % NENV;
    if k.envs[e].status == ENV_FREE || k.envs[e].id != envid then None else
    if checkperm != 0 && !(Some(e) == k.cur || k.envs[e].parent == checkperm) then None else Some(e)
  }

  /** env_run: its assertion fails on an env that is not runnable. */
  function Run(k: State, e: nat): (o: Outcome)
    requires Shaped(k) && e < NENV
    ensures o.Done? ==> Shaped(o.k)
  {
    if k.envs[e].status != ENV_RUNNABLE then Panic else
    Done(WithEnv(k, e, k.envs[e].(runs := (k.envs[e].runs + 1) % U32)).(cur := Some(e)), 0)
  }

  /** Start the head of the list with a full count. */
  function Pick(k: State): (o: Outcome)
    requires Shaped(k)
    ensures o.Done? ==> Shaped(o.k)
  {
    if k.sched == [] || k.sched[0] >= NENV then Panic else
    Run(k.(count := k.envs[k.sched[0]].pri), k.sched[0])
  }

  function Schedule(k: State, yield_: bool): (o: Outcome)
    requires Shaped(k) && (k.cur.Some? ==> k.cur.value < NENV)
    ensures o.Done? ==> Shaped(o.k)
  {
    var k1 := k.(count := k.count - 1);
    match k.cur
    case None => Pick(k1)
    case Some(e) =>
      if yield_ || k1.count == 0 then
        var l := Removed(k.sched, e);
        Pick(k1.(sched := if k.envs[e].status == ENV_RUNNABLE then l + [e] else l))
      else if k.envs[e].status != ENV_RUNNABLE then
        Pick(k1.(sched := Removed(k.sched, e)))
      else
        Run(k1, e)
  }

  /** env_alloc. The page directory is EnvSetupVm's concern (module Pmap). */
  function EnvAlloc(k: State, parent: nat): (o: Outcome)
    requires Shaped(k) && (k.free != [] ==> k.free[0] < NENV)
    ensures o.Done? && Shaped(o.k)
  {
    if k.free == [] then Done(k, -E_NO_FREE_ENV) else
    var e, i := k.free[0], (k.ids + 1) % U32;
    var k1 := WithEnv(k, e, k.envs[e].(runs := 0, id := MkEnvId(i, e))).(ids := i);
    match FirstClear(k.asids, 0)
    case None => Done(k1, -E_NO_FREE_ENV)
    case Some(a) =>
      Done(WithEnv(k1, e, k1.envs[e].(asid := a, parent := parent)).(asids := SetBit(k.asids, a),
                                                                     free := k.free[1..]), 0)
  }

  /** A u_int returned as int. */
  function AsInt(x: nat): int { if x % U32 >= U32 / 2 then x % U32 - U32 else x % U32 }

  function Exofork(k: State): (o: Outcome)
    requires Shaped(k) && (k.free != [] ==> k.free[0] < NENV) && k.cur.Some? && k.cur.value < NENV
    ensures o.Done? && Shaped(o.k)
  {
    var o := EnvAlloc(k, k.envs[k.cur.value].id);
    if o.r != 0 then o else
    var e := k.free[0];
    Done(WithEnv(o.k, e, o.k.envs[e].(status := ENV_NOT_RUNNABLE, pri := o.k.envs[k.cur.value].pri)),
         AsInt(o.k.envs[e].id))
  }

  /** env_create, used while the kernel starts: it relies on env_alloc to succeed. */
  function EnvCreate(k: State, pri: nat): (o: Outcome)
    requires Shaped(k) && (k.free != [] ==> k.free[0] < NENV)
    ensures o.Done? && Shaped(o.k)
  {
    var o := EnvAlloc(k, 0);
    if o.r != 0 then o else
    var e := k.free[0];
    Done(WithEnv(o.k, e, o.k.envs[e].(status := ENV_RUNNABLE, pri := pri)).(sched := [e] + o.k.sched), 0)
  }

  function EnvFree(k: State, e: nat): (k': State)
    requires Shaped(k) && e < NENV && k.envs[e].asid < NASID
    ensures Shaped(k')
  {
    WithEnv(k, e, k.envs[e].(status := ENV_FREE))
      .(asids := ClearBit(k.asids, k.envs[e].asid), free := [e] + k.free, sched := Removed(k.sched, e))
  }

  function EnvDestroy(k: State, e: nat): (o: Outcome)
    requires Shaped(k) && e < NENV && k.envs[e].asid < NASID && (k.cur.Some? ==> k.cur.value < NENV)
    ensures o.Done? ==> Shaped(o.k)
  {
    var k1 := EnvFree(k, e);
    if k.cur == Some(e) then Schedule(k1.(cur := None), true) else Done(k1, 0)
  }

  predicate InSyscall(k: State)
  {
    Shaped(k) && k.cur.Some? && k.cur.value < NENV
  }

  function SysEnvDestroy(k: State, envid: nat): (o: Outcome)
    requires InSyscall(k) && forall e :: 0 <= e < NENV && k.envs[e].status != ENV_FREE ==> k.envs[e].asid < NASID
    requires k.envs[k.cur.value].status != ENV_FREE
    ensures o.Done? ==> Shaped(o.k)
  {
    match EnvId2Env(k, envid, 1)
    case None => Done(k, -E_BAD_ENV)
    case Some(e) => EnvDestroy(k, e)
  }

  function SetEnvStatus(k: State, envid: nat, status: nat): (o: Outcome)
    requires InSyscall(k)
    ensures o.Done? && Shaped(o.k)
  {
    if status != ENV_RUNNABLE && status != ENV_NOT_RUNNABLE then Done(k, -E_INVAL) else
    match EnvId2Env(k, envid, k.envs[k.cur.value].id)
    case None => Done(k, -E_BAD_ENV)
    case Some(e) =>
      var was := k.envs[e].status;
      var list := if was == ENV_RUNNABLE && status != ENV_RUNNABLE then Removed(k.sched, e)
                  else if was != ENV_RUNNABLE && status == ENV_RUNNABLE then k.sched + [e]
                  else k.sched;
      Done(WithEnv(k, e, k.envs[e].(status := status)).(sched := list), 0)
  }

  /** sys_ipc_recv: block until a message arrives. */
  function IpcRecv(k: State, dstva: nat): (o: Outcome)
    requires InSyscall(k)
    ensures o.Done? ==> Shaped(o.k)
  {
    if dstva != 0 && IsIllegalVa(dstva) then Done(k, -E_INVAL) else
    var e := k.cur.value;
    var v := k.envs[e].(recving := true, dstva := dstva, status := ENV_NOT_RUNNABLE);
    Schedule(WithEnv(k, e, v).(sched := Removed(k.sched, e)), true)
  }

  /** The target of a send, if the send is accepted. */
  function IpcTarget(k: State, envid: nat, srcva: nat): (r: Option<nat>)
    requires InSyscall(k)
    ensures r.Some? ==> r.value < NENV && k.envs[r.value].recving
  {
    if srcva != 0 && IsIllegalVa(srcva) then None else
    var t := EnvId2Env(k, envid, 0);
    if t.Some? && k.envs[t.value].recving then t else None
  }

  /** sys_ipc_try_send; pageResult is what mapping the page at srcva returns. */
  function IpcTrySend(k: State, envid: nat, value: nat, srcva: nat, perm: bv10, pageResult: int): (o: Outcome)
    requires InSyscall(k)
    ensures o.Done? && Shaped(o.k)
  {
    if srcva != 0 && IsIllegalVa(srcva) then Done(k, -E_INVAL) else
    match EnvId2Env(k, envid, 0)
    case None => Done(k, -E_BAD_ENV)
    case Some(e) =>
      if !k.envs[e].recving then Done(k, -E_IPC_NOT_RECV) else
      var v := k.envs[e].(value := value, from := k.envs[k.cur.value].id, perm := perm | Sv39.PTE_V,
                             recving := false, status := ENV_RUNNABLE);
      Done(WithEnv(k, e, v).(sched := k.sched + [e]), if srcva == 0 then 0 else pageResult)
  }

  /* ---- Every operation keeps the invariant ---- */

  lemma RunKeeps(k: State, e: nat)
    requires Inv(k.(cur := None)) && k.sched != [] && k.sched[0] == e && e < NENV && 1 <= k.count <= k.envs[e].pri
    ensures Run(k, e).Done? && Inv(Run(k, e).k)
  {
    assert e in k.sched;
    LiveAs(k.(cur := None), Run(k, e).k);
  }

  /** The bitmap and the ids depend on the status, asid and id fields alone. */
  lemma LiveAs(k: State, k': State)
    requires Shaped(k) && Shaped(k') && AsidsOk(k) && IdsOk(k) && k'.asids == k.asids && k'.ids == k.ids
    requires forall e :: 0 <= e < NENV ==>
      (Live(k', e) <==> Live(k, e))
        && (Live(k, e) ==> k'.envs[e].asid == k.envs[e].asid && k'.envs[e].id == k.envs[e].id)
    ensures AsidsOk(k') && IdsOk(k')
  {
    hide Test;
    forall a | 0 < a < NASID && Test(k'.asids, a) ensures exists e: nat :: Live(k', e) && k'.envs[e].asid == a {
      var e: nat :| Live(k, e) && k.envs[e].asid == a;
      assert Live(k', e);
    }
  }

  lemma PickKeeps(k: State)
    requires Inv(k.(cur := None)) && k.sched != []
    ensures Pick(k).Done? && Inv(Pick(k).k)
    ensures Pick(k).k.cur == Some(k.sched[0]) && Pick(k).k.count == k.envs[k.sched[0]].pri && Pick(k).k.sched == k.sched
  {
    hide AsidsOk, IdsOk;
    var e := k.sched[0];
    assert e in k.sched;
    var k1 := k.(count := k.envs[e].pri);
    LiveAs(k.(cur := None), k1.(cur := None));
    RunKeeps(k1, e);
  }

  /** schedule panics exactly when no env is runnable. */
  lemma ScheduleKeeps(k: State, yield_: bool)
    requires Inv(k)
    ensures Schedule(k, yield_).Done? <==> k.sched != []
    ensures Schedule(k, yield_).Done? ==> Inv(Schedule(k, yield_).k) && Schedule(k, yield_).k.cur.Some?
  {
    hide AsidsOk, IdsOk, Removed;
    var k1 := k.(count := k.count - 1);
    match k.cur
    case None =>
      LiveAs(k, k1);
      if k.sched != [] { PickKeeps(k1); }
    case Some(e) =>
      if yield_ || k1.count == 0 {
        Rotated(k.sched, e);
        var k2 := k1.(sched := Removed(k.sched, e) + [e], cur := None);
        LiveAs(k, k2);
        PickKeeps(k1.(sched := Removed(k.sched, e) + [e]));
      } else {
        LiveAs(k, k1.(cur := None));
        RunKeeps(k1, e);
      }
  }

  lemma Rotated(s: seq<nat>, e: nat)
    requires Distinct(s) && e in s
    ensures Distinct(Removed(s, e) + [e]) && forall x :: x in Removed(s, e) + [e] <==> x in s
  {
  }

  /** The ASID bitmap after env e becomes live with the first free ASID a. */
  lemma AsidTaken(k: State, k': State, e: nat, a: nat)
    requires Shaped(k) && Shaped(k') && AsidsOk(k) && e < NENV && !Live(k, e) && Live(k', e)
    requires FirstClear(k.asids, 0) == Some(a) && k'.asids == SetBit(k.asids, a) && k'.envs[e].asid == a
    requires k'.envs == k.envs[e := k'.envs[e]]
    ensures AsidsOk(k')
  {
    hide Test, SetBit, FirstClear;
    AllBits(k.asids, a);
    assert a != 0;
    forall j: nat | 0 < j < NASID && Test(k'.asids, j) ensures exists f: nat :: Live(k', f) && k'.envs[f].asid == j {
      if j == a {
        assert Live(k', e);
      } else {
        var f: nat :| Live(k, f) && k.envs[f].asid == j;
        assert Live(k', f);
      }
    }
  }

  /** ... and after env e is freed. */
  lemma AsidReturned(k: State, k': State, e: nat)
    requires Shaped(k) && Shaped(k') && AsidsOk(k) && Live(k, e) && !Live(k', e)
    requires k'.asids == ClearBit(k.asids, k.envs[e].asid) && k'.envs == k.envs[e := k'.envs[e]]
    ensures AsidsOk(k')
  {
    hide Test, ClearBit;
    AllBits(k.asids, k.envs[e].asid);
    forall j: nat | 0 < j < NASID && Test(k'.asids, j) ensures exists f: nat :: Live(k', f) && k'.envs[f].asid == j {
      var f: nat :| Live(k, f) && k.envs[f].asid == j;
      assert Live(k', f);
    }
  }

  /** What env_alloc leaves: the id counter moved, and on success one env taken off the free list. */
  lemma AllocGives(k: State, parent: nat)
    requires Inv(k) && k.ids + 1 < ID_LIMIT
    ensures k.free != [] ==> k.free[0] < NENV
    ensures var k' := EnvAlloc(k, parent).k;
            if EnvAlloc(k, parent).r != 0 then Inv(k') else
            && k.free != [] && k'.free == k.free[1..] && k'.sched == k.sched && k'.cur == k.cur && k'.count == k.count
            && k'.ids == k.ids + 1
            && (var e := k.free[0];
                && k.envs[e].status == ENV_FREE
                && FirstClear(k.asids, 0) == Some(k'.envs[e].asid) && k'.asids == SetBit(k.asids, k'.envs[e].asid)
                && k'.envs[e] == k.envs[e].(runs := 0, id := MkEnvId(k.ids + 1, e), parent := parent,
                                            asid := k'.envs[e].asid)
                && k'.envs == k.envs[e := k'.envs[e]])
  {
    hide SetBit, Test, MkEnvId, FirstClear, AsidsOk, IdsOk;
    if k.free != [] {
      var e := k.free[0];
      assert e in k.free;
      var k1 := WithEnv(k, e, k.envs[e].(runs := 0, id := MkEnvId(k.ids + 1, e))).(ids := k.ids + 1);
      var r := FirstClear(k.asids, 0);
      if r == None {
        AllocFailsKeeps(k, k1, e);
      } else {
        assert k1.envs[e].status == ENV_FREE;
      }
    }
  }

  lemma AllocFailsKeeps(k: State, k1: State, e: nat)
    requires Inv(k) && e < NENV && k.envs[e].status == ENV_FREE && Shaped(k1)
    requires k1 == k.(envs := k.envs[e := k1.envs[e]], ids := k.ids + 1) && k1.ids < ID_LIMIT
    requires k1.envs[e] == k.envs[e].(runs := 0, id := k1.envs[e].id)
    ensures Inv(k1)
  {
    hide Test;
    var k2 := k1.(ids := k.ids);
    LiveAs(k, k2);
    assert AsidsOk(k1) by {
      forall a | 0 < a < NASID && Test(k1.asids, a) ensures exists f: nat :: Live(k1, f) && k1.envs[f].asid == a {
        var f: nat :| Live(k2, f) && k2.envs[f].asid == a;
        assert Live(k1, f);
      }
    }
  }

  /** A new env with a status: its list gets it, the rest of the invariant follows. */
  lemma NewEnvKeeps(k: State, k1: State, k': State, e: nat, a: nat)
    requires Inv(k) && Shaped(k1) && Shaped(k') && k.ids + 1 < ID_LIMIT
    requires k.free != [] && k.free[0] == e < NENV
    requires FirstClear(k.asids, 0) == Some(a) && k'.asids == SetBit(k.asids, a) && k'.envs[e].asid == a
    requires k'.envs == k.envs[e := k'.envs[e]] && k'.envs[e].id == MkEnvId(k.ids + 1, e)
    requires k'.envs[e].pri >= 1 && k'.envs[e].parent != 1 && !k'.envs[e].recving && k'.cur == k.cur
             && k'.count == k.count
    requires k'.free == k.free[1..] && k'.ids == k.ids + 1
    requires (k'.envs[e].status == ENV_NOT_RUNNABLE && k'.sched == k.sched)
          || (k'.envs[e].status == ENV_RUNNABLE && k'.sched == [e] + k.sched && k.cur == None)
    ensures Inv(k')
  {
    hide FirstClear, Test, SetBit, MkEnvId, AsidsOk, IdsOk, ListsOk;
    NewEnvLists(k, k', e);
    NewEnvIds(k, k', e);
    AsidTaken(k, k', e, a);
    assert k.cur.Some? ==> k.cur.value != e;
  }

  lemma NewEnvLists(k: State, k': State, e: nat)
    requires Shaped(k) && Shaped(k') && ListsOk(k) && k.free != [] && k.free[0] == e < NENV
    requires k'.envs == k.envs[e := k'.envs[e]] && k'.free == k.free[1..]
    requires (k'.envs[e].status == ENV_NOT_RUNNABLE && k'.sched == k.sched)
          || (k'.envs[e].status == ENV_RUNNABLE && k'.sched == [e] + k.sched)
    ensures ListsOk(k') && e !in k.sched && k.envs[e].status == ENV_FREE
  {
    assert e in k.free;
    assert forall x :: x in k.free <==> x == e || x in k'.free;
    assert e !in k'.free by {
      assert forall i :: 0 <= i < |k'.free| ==> k'.free[i] == k.free[i + 1];
    }
    assert e !in k.sched;
  }

  lemma NewEnvIds(k: State, k': State, e: nat)
    requires Shaped(k) && Shaped(k') && IdsOk(k) && e < NENV && k.ids + 1 < ID_LIMIT
    requires k'.envs == k.envs[e := k'.envs[e]] && k'.envs[e].id == MkEnvId(k.ids + 1, e) && k'.ids == k.ids + 1
    ensures IdsOk(k')
  {
    IdParts(k.ids + 1, e);
    hide MkEnvId;
    forall f: nat | Live(k', f) ensures k'.envs[f].id % ID_STEP == f && 1 <= k'.envs[f].id / ID_STEP <= k'.ids {
      assert f != e ==> Live(k, f);
    }
  }

  lemma ExoforkKeeps(k: State)
    requires Inv(k) && k.cur.Some? && k.ids + 1 < ID_LIMIT
    ensures k.free != [] ==> k.free[0] < NENV
    ensures k.cur.value < NENV && Inv(Exofork(k).k)
  {
    AllocGives(k, k.envs[k.cur.value].id);
    var o := EnvAlloc(k, k.envs[k.cur.value].id);
    assert k.cur.value in k.sched;
    IdFindsSelf(k);
    hide Test, SetBit, MkEnvId, AsidsOk, EnvAlloc;
    if o.r == 0 {
      var e := k.free[0];
      NewEnvKeeps(k, o.k, Exofork(k).k, e, o.k.envs[e].asid);
    }
  }

  lemma EnvCreateKeeps(k: State, pri: nat)
    requires Inv(k) && k.cur == None && k.ids + 1 < ID_LIMIT && pri >= 1
    ensures k.free != [] ==> k.free[0] < NENV
    ensures Inv(EnvCreate(k, pri).k)
  {
    AllocGives(k, 0);
    var o := EnvAlloc(k, 0);
    hide Test, SetBit, MkEnvId, AsidsOk, EnvAlloc;
    if o.r == 0 {
      var e := k.free[0];
      NewEnvKeeps(k, o.k, EnvCreate(k, pri).k, e, o.k.envs[e].asid);
    }
  }

  /** Freeing an env: curenv only if it is about to be forgotten. */
  lemma EnvFreeKeeps(k: State, e: nat)
    requires Inv(k) && Live(k, e) && !k.envs[e].recving
    ensures k.envs[e].asid < NASID
    ensures Inv(EnvFree(k, e).(cur := None))
    ensures k.cur != Some(e) ==> Inv(EnvFree(k, e))
  {
    hide Test, ClearBit, AsidsOk, IdsOk, ListsOk;
    LiveAsid(k, e);
    var k' := EnvFree(k, e);
    AsidReturned(k, k', e);
    AsidReturned(k, k'.(cur := None), e);
    FreedLists(k, k', e);
    FreedIds(k, k', e);
    FreedLists(k, k'.(cur := None), e);
    FreedIds(k, k'.(cur := None), e);
    if k.cur.Some? && k.cur != Some(e) {
      RemovedKeepsHead(k.sched, e);
    }
  }

  lemma LiveAsid(k: State, e: nat)
    requires Shaped(k) && AsidsOk(k) && Live(k, e)
    ensures k.envs[e].asid < NASID
  {
  }

  lemma FreedLists(k: State, k': State, e: nat)
    requires Shaped(k) && Shaped(k') && ListsOk(k) && Live(k, e)
    requires k'.envs == k.envs[e := k'.envs[e]] && k'.envs[e].status == ENV_FREE
    requires k'.free == [e] + k.free && k'.sched == Removed(k.sched, e)
    ensures ListsOk(k')
  {
    assert e !in k.free;
  }

  lemma FreedIds(k: State, k': State, e: nat)
    requires Shaped(k) && Shaped(k') && IdsOk(k) && Live(k, e) && k'.ids == k.ids
    requires k'.envs == k.envs[e := k'.envs[e]] && k'.envs[e].status == ENV_FREE
    ensures IdsOk(k')
  {
    forall f: nat | Live(k', f) ensures k'.envs[f].id % ID_STEP == f && 1 <= k'.envs[f].id / ID_STEP <= k'.ids {
      assert Live(k, f);
    }
  }

  lemma RemovedKeepsHead(s: seq<nat>, e: nat)
    requires s != [] && s[0] != e
    ensures Removed(s, e) != [] && Removed(s, e)[0] == s[0]
  {
  }

  /** envid2env finds every live env by its id, and nothing else. */
  lemma IdFindsEnv(k: State, e: nat)
    requires Inv(k) && InSyscall(k) && Live(k, e)
    ensures EnvId2Env(k, k.envs[e].id, 0) == Some(e)
    ensures forall f: nat :: Live(k, f) && k.envs[f].id == k.envs[e].id ==> f == e
  {
    hide Test, AsidsOk;
    var id := k.envs[e].id;
    ModNenv(id, id / ID_STEP * 2, e);
  }

  lemma LookupFindsLive(k: State, envid: nat, checkperm: nat)
    requires Inv(k) && InSyscall(k)
    ensures Live(k, k.cur.value) && k.envs[k.cur.value].status == ENV_RUNNABLE && !k.envs[k.cur.value].recving
    ensures var r := EnvId2Env(k, envid, checkperm);
            r.Some? ==> Live(k, r.value) && (envid == 0 || k.envs[r.value].id == envid)
                        && (envid != 0 && checkperm != 0 ==> r == k.cur || k.envs[r.value].parent == checkperm)
  {
    assert k.cur.value in k.sched;
  }

  /** curenv has blocked in sys_ipc_recv, and schedule is about to pick another env. */
  function Blocked(k: State, dstva: nat): (k': State)
    requires InSyscall(k)
    ensures Shaped(k')
  {
    var e := k.cur.value;
    WithEnv(k, e, k.envs[e].(recving := true, dstva := dstva, status := ENV_NOT_RUNNABLE))
      .(sched := Removed(k.sched, e), count := k.count - 1)
  }

  /** The second removal of curenv, by schedule, changes nothing. */
  lemma BlockedThenPicked(k: State, dstva: nat)
    requires Inv(k) && InSyscall(k) && (dstva == 0 || !IsIllegalVa(dstva))
    ensures Inv(Blocked(k, dstva).(cur := None)) && IpcRecv(k, dstva) == Pick(Blocked(k, dstva))
    ensures Blocked(k, dstva).sched == Removed(k.sched, k.cur.value)
    ensures forall x: nat :: x < NENV ==> Blocked(k, dstva).envs[x].pri == k.envs[x].pri
  {
    hide AsidsOk, IdsOk, Pick;
    var k1 := Blocked(k, dstva);
    assert k.cur.value in k.sched;
    LiveAs(k, k1.(cur := None));
    assert Removed(k1.sched, k.cur.value) == k1.sched;
  }

  lemma IpcRecvKeeps(k: State, dstva: nat)
    requires Inv(k) && InSyscall(k)
    ensures IpcRecv(k, dstva).Done? ==> Inv(IpcRecv(k, dstva).k)
  {
    if dstva == 0 || !IsIllegalVa(dstva) {
      BlockedThenPicked(k, dstva);
      hide Inv, Blocked;
      if Blocked(k, dstva).sched != [] { PickKeeps(Blocked(k, dstva)); }
    }
  }

  lemma IpcTrySendKeeps(k: State, envid: nat, value: nat, srcva: nat, perm: bv10, pageResult: int)
    requires Inv(k) && InSyscall(k)
    ensures Inv(IpcTrySend(k, envid, value, srcva, perm, pageResult).k)
  {
    hide AsidsOk, IdsOk;
    var k' := IpcTrySend(k, envid, value, srcva, perm, pageResult).k;
    LookupFindsLive(k, envid, 0);
    var t := IpcTarget(k, envid, srcva);
    if t.Some? {
      LiveAs(k, k');
      assert t.value !in k.sched;
    }
  }

  lemma EnvDestroyKeeps(k: State, envid: nat)
    requires Inv(k) && InSyscall(k)
    ensures forall e :: 0 <= e < NENV && k.envs[e].status != ENV_FREE ==> k.envs[e].asid < NASID
    ensures k.envs[k.cur.value].status != ENV_FREE
    ensures SysEnvDestroy(k, envid).Done? ==> Inv(SysEnvDestroy(k, envid).k)
  {
    hide Test, Removed, ListsOk, IdsOk;
    forall e | 0 <= e < NENV && k.envs[e].status != ENV_FREE ensures k.envs[e].asid < NASID {
      assert Live(k, e);
    }
    LookupFindsLive(k, envid, 1);
    if EnvId2Env(k, envid, 1).Some? {
      var e := k.cur.value;
      EnvFreeKeeps(k, e);
      ScheduleKeeps(EnvFree(k, e).(cur := None), true);
    }
  }

  /** sys_env_destroy passes 1 where envid2env expects the caller's id, so the only env that it can
      destroy is the caller; a child is refused. */
  lemma OnlySelfIsDestroyed(k: State, envid: nat)
    requires Inv(k) && InSyscall(k)
    ensures EnvId2Env(k, envid, 1) == if envid == 0 || envid == k.envs[k.cur.value].id then k.cur else None
  {
    IdFindsSelf(k);
    LookupFindsLive(k, envid, 1);
    hide AsidsOk, IdsOk, ListsOk;
    var e := envid % NENV;
    assert k.envs[e].status != ENV_FREE ==> k.envs[e].parent != 1;
  }

  lemma IdFindsSelf(k: State)
    requires Inv(k) && InSyscall(k)
    ensures k.envs[k.cur.value].id % NENV == k.cur.value && k.envs[k.cur.value].status != ENV_FREE
    ensures k.envs[k.cur.value].id >= ID_STEP
  {
    var e := k.cur.value;
    assert e in k.sched;
    assert Live(k, e);
    hide AsidsOk, ListsOk;
    ModNenv(k.envs[e].id, k.envs[e].id / ID_STEP * 2, e);
  }

  /** sys_set_env_status keeps the invariant exactly when it neither stops the caller itself nor wakes
      an env that is blocked in sys_ipc_recv. */
  lemma SetEnvStatusKeeps(k: State, envid: nat, status: nat)
    requires Inv(k) && InSyscall(k) && (status == ENV_RUNNABLE || status == ENV_NOT_RUNNABLE)
    requires EnvId2Env(k, envid, k.envs[k.cur.value].id).Some?
    ensures var e := EnvId2Env(k, envid, k.envs[k.cur.value].id).value;
            Inv(SetEnvStatus(k, envid, status).k)
            <==> !(Some(e) == k.cur && status == ENV_NOT_RUNNABLE) && !(k.envs[e].recving && status == ENV_RUNNABLE)
  {
    hide AsidsOk, IdsOk;
    LookupFindsLive(k, envid, k.envs[k.cur.value].id);
    var e := EnvId2Env(k, envid, k.envs[k.cur.value].id).value;
    var k' := SetEnvStatus(k, envid, status).k;
    LiveAs(k, k');
    assert k.cur.value in k.sched;
    if Some(e) == k.cur && status == ENV_NOT_RUNNABLE {
      assert k'.sched != [] && k'.sched[0] == e ==> e in k'.sched;
    } else if k.envs[e].recving && status == ENV_RUNNABLE {
      assert k'.envs[e].recving;
    } else {
      assert e in k.sched <==> k.envs[e].status == ENV_RUNNABLE;
    }
  }

  lemma SetEnvStatusRejects(k: State, envid: nat, status: nat)
    requires InSyscall(k)
    requires !(status == ENV_RUNNABLE || status == ENV_NOT_RUNNABLE)
             || EnvId2Env(k, envid, k.envs[k.cur.value].id) == None
    ensures SetEnvStatus(k, envid, status).k == k && SetEnvStatus(k, envid, status).r < 0
  {
  }
}
