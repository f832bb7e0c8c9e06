/** The kernel code on its own variables: envs, the two lists, curenv, the static counters of schedule
    and mkenvid, and asid_bitmap. Each method does what the state machine of KernelState says. */
module Kernel {
  import opened Bitmap
  import opened Errors
  import opened KernelState
  import opened Options
  import opened Scheduling
  import Sv39

  class KernelData {
    const envs: array<Env>
    const asidBitmap: array<bv32>
    var envFreeList: seq<nat>
    var envSchedList: seq<nat>
    var curenv: Option<nat>
    /** static count of schedule */
    var count: int
    /** static i of mkenvid */
    var ids: nat

    ghost function S(): State
      reads this, envs, asidBitmap
    {
      State(envs[..], envFreeList, envSchedList, curenv, count, ids, asidBitmap[..])
    }

    ghost predicate Valid()
      reads this, envs, asidBitmap
      ensures Valid() ==> Shaped(S())
    {
      Inv(S())
    }

    /** env_init: every env is free, and the free list has them in the order of the array. */
    constructor EnvInit()
      ensures Valid() && fresh(envs) && fresh(asidBitmap)
      ensures curenv == None && envSchedList == [] && ids == 0
      ensures envFreeList == seq(NENV, i => i)
    {
      var blank := Env(ENV_FREE, 0, 0, 0, 0, 0, false, 0, 0, 0, 0);
      envs := new Env[NENV](_ => blank);
      asidBitmap := new bv32[2](_ => 0);
      envFreeList, envSchedList, curenv, count, ids := [], [], None, 0, 0;
      new;
      var i := NENV - 1;
      while i >= 0
        invariant -1 <= i < NENV
        invariant envFreeList == seq(NENV - 1 - i, j requires 0 <= j => i + 1 + j)
        invariant forall j :: 0 <= j < NENV ==> envs[j] == blank
        invariant asidBitmap[..] == [0, 0] && envSchedList == [] && curenv == None && ids == 0
      {
        envs[i] := envs[i].(status := ENV_FREE);
        envFreeList := [i] + envFreeList;
        i := i - 1;
      }
      asidBitmap[0] := asidBitmap[0] | 1;
      InitialState(S());
    }

    /* ---- ids and ASIDs ---- */

    /** asid_alloc */
    method AsidAlloc() returns (r: int, asid: nat)
      requires asidBitmap.Length == 2
      modifies asidBitmap
      ensures FirstClear(old(asidBitmap[..]), 0) == None ==>
                r == -E_NO_FREE_ENV && asidBitmap[..] == old(asidBitmap[..])
      ensures FirstClear(old(asidBitmap[..]), 0).Some? ==>
                r == 0 && FirstClear(old(asidBitmap[..]), 0) == Some(asid)
                  && asidBitmap[..] == SetBit(old(asidBitmap[..]), asid)
    {
      var i := 0;
      while i < NASID
        invariant 0 <= i <= NASID
        invariant asidBitmap[..] == old(asidBitmap[..])
        invariant FirstClear(asidBitmap[..], 0) == FirstClear(asidBitmap[..], i)
      {
        if asidBitmap[i / 32] & Mask(i % 32) == 0 {
          assert !Test(asidBitmap[..], i);
          asidBitmap[i / 32] := asidBitmap[i / 32] | Mask(i % 32);
          assert asidBitmap[..] == SetBit(old(asidBitmap[..]), i);
          return 0, i;
        }
        assert Test(asidBitmap[..], i);
        i := i + 1;
      }
      return -E_NO_FREE_ENV, 0;
    }

    /** asid_free */
    method AsidFree(i: nat)
      requires asidBitmap.Length == 2 && i < NASID
      modifies asidBitmap
      ensures asidBitmap[..] == ClearBit(old(asidBitmap[..]), i)
    {
      asidBitmap[i / 32] := asidBitmap[i / 32] & !Mask(i % 32);
      assert asidBitmap[..] == ClearBit(old(asidBitmap[..]), i);
    }

    /** mkenvid */
    method MkEnvid(e: nat) returns (id: nat)
      requires e < NENV
      modifies this`ids
      ensures ids == (old(ids) + 1) % U32 && id == MkEnvId(ids, e)
    {
      ids := (ids + 1) % U32;
      id := ids * ID_STEP % U32 + e;
    }

    method SetEnv(e: nat, v: Env)
      requires Shaped(S()) && e < NENV
      modifies envs
      ensures S() == WithEnv(old(S()), e, v)
    {
      envs[e] := v;
      assert envs[..] == old(envs[..])[e := v];
    }

    /** envid2env */
    method Envid2env(envid: nat, checkperm: nat) returns (r: int, penv: nat)
      requires InSyscall(S())
      ensures r == 0 <==> EnvId2Env(S(), envid, checkperm).Some?
      ensures r == 0 ==> EnvId2Env(S(), envid, checkperm) == Some(penv)
      ensures r == 0 || r == -E_BAD_ENV
    {
      if envid == 0 {
        return 0, curenv.value;
      }
      var e := envid % NENV;
      if envs[e].status == ENV_FREE || envs[e].id != envid {
        return -E_BAD_ENV, 0;
      }
      if checkperm != 0 {
        if !(Some(e) == curenv || envs[e].parent == checkperm) {
          return -E_BAD_ENV, 0;
        }
      }
      return 0, e;
    }

    /* ---- Creating and destroying envs ---- */

    /** env_alloc, apart from the page directory and the registers. */
    method AllocEnv(parent: nat) returns (r: int, new_: nat)
      requires Shaped(S()) && (envFreeList != [] ==> envFreeList[0] < NENV)
      modifies this`envFreeList, this`ids, envs, asidBitmap
      ensures Done(S(), r) == EnvAlloc(old(S()), parent)
      ensures r == 0 ==> old(envFreeList) != [] && new_ == old(envFreeList[0])
    {
      hide SetBit, Test, MkEnvId, FirstClear;
      if envFreeList == [] {
        return -E_NO_FREE_ENV, 0;
      }
      var e := envFreeList[0];
      var id := MkEnvid(e);
      SetEnv(e, envs[e].(runs := 0, id := id));
      var asid;
      r, asid := AsidAlloc();
      if r != 0 {
        return r, 0;
      }
      SetEnv(e, envs[e].(asid := asid, parent := parent));
      envFreeList := envFreeList[1..];
      new_ := e;
    }

    /** sys_exofork */
    method SysExofork() returns (r: int)
      requires Valid() && InSyscall(S()) && ids + 1 < ID_LIMIT
      modifies this`envFreeList, this`ids, envs, asidBitmap
      ensures Valid() && old(Enabled(S(), Fork)) && Done(S(), r) == old(Step(S(), Fork))
    {
      HeadsOk(S());
      ExoforkKeeps(S());
      hide Inv, EnvAlloc, EnvId2Env, MkEnvId;
      var e;
      r, e := AllocEnv(envs[curenv.value].id);
      if r != 0 {
        return;
      }
      SetEnv(e, envs[e].(status := ENV_NOT_RUNNABLE, pri := envs[curenv.value].pri));
      r := AsInt(envs[e].id);
    }

    /** env_create: while the kernel starts, with an env and an ASID free. */
    method CreateEnv(priority: nat) returns (e: nat)
      requires Valid() && curenv == None && ids + 1 < ID_LIMIT && priority >= 1
      requires envFreeList != [] && FirstClear(asidBitmap[..], 0).Some?
      modifies this`envFreeList, this`envSchedList, this`ids, envs, asidBitmap
      ensures Valid() && old(envFreeList[0]) == e < NENV
      ensures S() == EnvCreate(old(S()), priority).k && envSchedList == [e] + old(envSchedList)
    {
      HeadsOk(S());
      EnvCreateKeeps(S(), priority);
      AllocSucceeds(S(), 0);
      hide Inv, EnvAlloc, FirstClear;
      var r;
      r, e := AllocEnv(0);
      SetEnv(e, envs[e].(pri := priority, status := ENV_RUNNABLE));
      envSchedList := [e] + envSchedList;
    }

    /** env_free, apart from the page directory. */
    method FreeEnv(e: nat)
      requires Shaped(S()) && e < NENV && envs[e].asid < NASID
      modifies this`envFreeList, this`envSchedList, envs, asidBitmap
      ensures S() == EnvFree(old(S()), e)
    {
      hide ClearBit, Removed;
      AsidFree(envs[e].asid);
      SetEnv(e, envs[e].(status := ENV_FREE));
      envFreeList := [e] + envFreeList;
      envSchedList := Removed(envSchedList, e);
    }

    /* ---- The scheduler ---- */

    /** env_run; false stands for the failed assertion. */
    method RunEnv(e: nat) returns (ok: bool)
      requires Shaped(S()) && e < NENV
      modifies this`curenv, envs
      ensures ok == Run(old(S()), e).Done? && (ok ==> S() == Run(old(S()), e).k)
    {
      if envs[e].status != ENV_RUNNABLE {
        return false;
      }
      curenv := Some(e);
      SetEnv(e, envs[e].(runs := (envs[e].runs + 1) % U32));
      return true;
    }

    /** The end of schedule: start the list head with a full count, or panic. */
    method RunFirst() returns (ok: bool)
      requires Shaped(S()) && (envSchedList != [] ==> envSchedList[0] < NENV)
      modifies this`count, this`curenv, envs
      ensures ok == Pick(old(S())).Done? && (ok ==> S() == Pick(old(S())).k)
    {
      if envSchedList == [] {
        return false;
      }
      var e := envSchedList[0];
      count := envs[e].pri;
      ok := RunEnv(e);
    }

    /** schedule; false stands for its panic. */
    method DoSchedule(yield_: bool) returns (ok: bool)
      requires Shaped(S()) && (curenv.Some? ==> curenv.value < NENV)
      requires forall x :: x in envSchedList ==> x < NENV
      modifies this`count, this`curenv, this`envSchedList, envs
      ensures ok == Schedule(old(S()), yield_).Done? && (ok ==> S() == Schedule(old(S()), yield_).k)
    {
      hide Run, Pick;
      count := count - 1;
      if yield_ || count == 0 || curenv == None {
        if curenv.Some? {
          var e := curenv.value;
          envSchedList := Removed(envSchedList, e);
          if envs[e].status == ENV_RUNNABLE {
            envSchedList := envSchedList + [e];
          }
        }
        assert envSchedList != [] ==> envSchedList[0] in envSchedList;
        ok := RunFirst();
      } else if envs[curenv.value].status != ENV_RUNNABLE {
        envSchedList := Removed(envSchedList, curenv.value);
        assert envSchedList != [] ==> envSchedList[0] in envSchedList;
        ok := RunFirst();
      } else {
        ok := RunEnv(curenv.value);
      }
    }

    lemma ListIsOfEnvs()
      requires Valid()
      ensures forall x :: x in envSchedList ==> x < NENV
    {
    }

    /** The timer interrupt and sys_yield. Panics exactly when no env is runnable. */
    method Tick(yield_: bool) returns (ok: bool)
      requires Valid()
      modifies this`count, this`curenv, this`envSchedList, envs
      ensures ok <==> old(envSchedList) != []
      ensures ok ==> Valid() && curenv.Some? && Done(S(), 0) == old(Step(S(), Yield(yield_)))
    {
      HeadsOk(S());
      ListIsOfEnvs();
      ScheduleKeeps(S(), yield_);
      ScheduleReturns(S(), yield_);
      hide Inv, Schedule;
      ok := DoSchedule(yield_);
    }

    /* ---- System calls ---- */

    /** sys_env_destroy with env_destroy. The call returns only when it is refused. */
    method SysDestroy(envid: nat) returns (ok: bool, r: int)
      requires Valid() && InSyscall(S())
      modifies this, envs, asidBitmap
      ensures old(Enabled(S(), Destroy(envid))) && ok == old(Step(S(), Destroy(envid))).Done?
      ensures ok ==> Valid() && S() == old(Step(S(), Destroy(envid))).k
      ensures r == -E_BAD_ENV <==> EnvId2Env(old(S()), envid, 1) == None
    {
      HeadsOk(S());
      ListIsOfEnvs();
      EnvDestroyKeeps(S(), envid);
      hide Inv, EnvFree, Removed, EnvId2Env, Schedule;
      ghost var k := S();
      var e;
      r, e := Envid2env(envid, 1);
      if r != 0 {
        return true, r;
      }
      FreedListIsOfEnvs(k, e);
      FreeEnv(e);
      if curenv == Some(e) {
        curenv := None;
        ok := DoSchedule(true);
      } else {
        ok := true;
      }
    }

    /** sys_set_env_status */
    method SysSetEnvStatus(envid: nat, status: nat) returns (r: int)
      requires Valid() && InSyscall(S())
      modifies this`envSchedList, envs
      ensures Done(S(), r) == SetEnvStatus(old(S()), envid, status)
      ensures old(Enabled(S(), SetStatus(envid, status))) ==> Valid()
    {
      if Enabled(S(), SetStatus(envid, status)) {
        StatusKeeps(S(), envid, status);
      }
      hide Inv, Removed, EnvId2Env, Enabled;
      if !(status == ENV_RUNNABLE || status == ENV_NOT_RUNNABLE) {
        return -E_INVAL;
      }
      var env;
      r, env := Envid2env(envid, envs[curenv.value].id);
      if r != 0 {
        return;
      }
      if envs[env].status == ENV_RUNNABLE && status != ENV_RUNNABLE {
        envSchedList := Removed(envSchedList, env);
      } else if envs[env].status != ENV_RUNNABLE && status == ENV_RUNNABLE {
        envSchedList := envSchedList + [env];
      }
      SetEnv(env, envs[env].(status := status));
      return 0;
    }

    /** sys_ipc_recv. The call returns only when dstva is refused. */
    method SysIpcRecv(dstva: nat) returns (ok: bool, r: int)
      requires Valid() && InSyscall(S())
      modifies this`count, this`curenv, this`envSchedList, envs
      ensures old(Enabled(S(), Receive(dstva))) && ok == old(Step(S(), Receive(dstva))).Done?
      ensures ok ==> Valid() && S() == old(Step(S(), Receive(dstva))).k
      ensures r == if dstva != 0 && IsIllegalVa(dstva) then -E_INVAL else 0
    {
      HeadsOk(S());
      ListIsOfEnvs();
      IpcRecvKeeps(S(), dstva);
      ReceiveReturns(S(), dstva);
      hide Inv, Removed, Schedule, Step;
      if dstva != 0 && IsIllegalVa(dstva) {
        return true, -E_INVAL;
      }
      var e := curenv.value;
      SetEnv(e, envs[e].(recving := true, dstva := dstva, status := ENV_NOT_RUNNABLE));
      envSchedList := Removed(envSchedList, e);
      r := 0;
      ok := DoSchedule(true);
    }

    /** sys_ipc_try_send; pageResult is the result of mapping the page at srcva, and t the env
        that gets the message. */
    method SysIpcTrySend(envid: nat, value: nat, srcva: nat, perm: bv10, pageResult: int)
      returns (r: int, t: Option<nat>)
      requires Valid() && InSyscall(S())
      modifies this`envSchedList, envs
      ensures Valid() && old(Enabled(S(), Send(envid, value, srcva, perm, pageResult)))
      ensures t == old(IpcTarget(S(), envid, srcva))
      ensures Done(S(), r) == old(Step(S(), Send(envid, value, srcva, perm, pageResult)))
    {
      HeadsOk(S());
      IpcTrySendKeeps(S(), envid, value, srcva, perm, pageResult);
      SendReturns(S(), envid, value, srcva, perm, pageResult);
      hide Inv, EnvId2Env, Step, Enabled;
      t := None;
      if srcva != 0 && IsIllegalVa(srcva) {
        return -E_INVAL, None;
      }
      var e;
      r, e := Envid2env(envid, 0);
      if r != 0 {
        return;
      }
      if !envs[e].recving {
        return -E_IPC_NOT_RECV, None;
      }
      SetEnv(e, envs[e].(value := value, from := envs[curenv.value].id, perm := perm | Sv39.PTE_V,
                               recving := false, status := ENV_RUNNABLE));
      envSchedList := envSchedList + [e];
      if srcva != 0 {
        return pageResult, Some(e);
      }
      return 0, Some(e);
    }
  }

  lemma InitialState(k: State)
    requires Shaped(k) && k.free == seq(NENV, i => i) && k.sched == [] && k.cur == None && k.ids == 0
    requires k.asids == [1, 0]
    requires forall j :: 0 <= j < NENV ==> k.envs[j].status == ENV_FREE && !k.envs[j].recving
    ensures Inv(k)
  {
    assert ListsOk(k) by {
      forall e: nat | e < NENV ensures e in k.free {
        assert k.free[e] == e;
      }
    }
    forall a: nat | 0 < a < NASID ensures !Test(k.asids, a) {
      if a < 32 { MasksAreDisjoint(0, a); }
    }
    assert Test(k.asids, 0);
  }

  lemma SendReturns(k: State, envid: nat, value: nat, srcva: nat, perm: bv10, pageResult: int)
    requires Inv(k) && InSyscall(k)
    ensures Enabled(k, Send(envid, value, srcva, perm, pageResult))
    ensures Step(k, Send(envid, value, srcva, perm, pageResult)) == IpcTrySend(k, envid, value, srcva, perm, pageResult)
  {
    hide Inv, IpcTrySend, EnvId2Env;
  }

  lemma ReceiveReturns(k: State, dstva: nat)
    requires Inv(k) && InSyscall(k)
    ensures Enabled(k, Receive(dstva)) && Step(k, Receive(dstva)) == IpcRecv(k, dstva)
  {
    hide Inv, IpcRecv, EnvId2Env;
  }

  lemma AllocSucceeds(k: State, parent: nat)
    requires Inv(k) && k.free != [] && k.free[0] < NENV && FirstClear(k.asids, 0).Some?
    ensures EnvAlloc(k, parent).r == 0
  {
    hide Inv, FirstClear, SetBit, MkEnvId, Test;
  }

  lemma ScheduleReturns(k: State, y: bool)
    requires Inv(k) && (k.cur.Some? ==> k.cur.value < NENV)
    ensures Schedule(k, y).Done? ==> Schedule(k, y).r == 0
  {
    hide Inv, Removed;
  }

  lemma FreedListIsOfEnvs(k: State, e: nat)
    requires Inv(k) && e < NENV && k.envs[e].asid < NASID
    ensures forall x :: x in EnvFree(k, e).sched ==> x < NENV
  {
  }
}
