/** What the calls about envs give to the env that makes them (kern/env.c, kern/syscall_all.c): who is found by
    an id, what a fork returns and leaves, how a child is started, how a receiver blocks and wakes up. */
module EnvCalls {
  import opened Bitmap
  import opened Errors
  import opened KernelState
  import opened Options
  import opened Scheduling
  import Sv39

  /* ---- Finding envs ---- */

  /** envid2env finds env e by an id exactly if e is live and has it, and no permission is asked for, or e is
      the caller, or e is a child of the env that the permission names. */
  lemma FoundIff(k: State, envid: nat, checkperm: nat, e: nat)
    requires Inv(k) && InSyscall(k) && envid != 0
    ensures EnvId2Env(k, envid, checkperm) == Some(e) <==>
            Live(k, e) && k.envs[e].id == envid
            && (checkperm == 0 || k.cur == Some(e) || k.envs[e].parent == checkperm)
    ensures EnvId2Env(k, 0, checkperm) == k.cur
  {
    if Live(k, e) && k.envs[e].id == envid {
      hide AsidsOk, ListsOk;
      ModNenv(envid, envid / ID_STEP * 2, e);
    }
  }

  /* ---- fork ---- */

  ghost predicate Unused(k: State, asid: nat)
    requires Shaped(k)
  {
    0 < asid < NASID && forall e: nat :: Live(k, e) ==> k.envs[e].asid != asid
  }

  /** An env is free, and an ASID that no live env has. */
  ghost predicate CanFork(k: State)
    requires Shaped(k)
  {
    k.free != [] && exists a :: Unused(k, a)
  }

  lemma FirstClearExists(k: State, a: nat)
    requires Inv(k) && Unused(k, a)
    ensures FirstClear(k.asids, 0).Some?
  {
    hide Test, IdsOk, ListsOk;
    assert !Test(k.asids, a);
  }

  lemma FirstClearIsFree(k: State)
    requires Inv(k) && FirstClear(k.asids, 0).Some?
    ensures Unused(k, FirstClear(k.asids, 0).value)
  {
    hide Test, IdsOk, ListsOk;
  }

  lemma ForkSucceedsIff(k: State)
    requires Inv(k)
    ensures CanFork(k) <==> k.free != [] && FirstClear(k.asids, 0).Some?
  {
    hide Inv, FirstClear, Test, Unused;
    if FirstClear(k.asids, 0).Some? {
      FirstClearIsFree(k);
    }
    if CanFork(k) {
      var a :| Unused(k, a);
      FirstClearExists(k, a);
    }
  }

  /** The child c that sys_exofork makes for env e: new, stopped, with an id and an ASID of its own, the caller
      as its parent and the caller's priority. */
  ghost predicate IsChildOf(k: State, k': State, c: nat, e: nat)
    requires Shaped(k) && Shaped(k') && e < NENV && c < NENV
  {
    && !Live(k, c) && k'.envs[c].status == ENV_NOT_RUNNABLE && !k'.envs[c].recving
    && k'.envs[c].id == (k.ids + 1) * ID_STEP + c && k'.envs[c].parent == k.envs[e].id
    && k'.envs[c].pri == k.envs[e].pri && k'.envs[c].runs == 0
    && (forall f: nat :: Live(k, f) ==> k.envs[f].id != k'.envs[c].id && k.envs[f].asid != k'.envs[c].asid)
    && (forall f :: 0 <= f < NENV && f != c ==> k'.envs[f] == k.envs[f])
  }

  /** sys_exofork makes a child whenever an env and an ASID are free. The result is the child's id as an int; the
      caller goes on, and no list that it is in changes. */
  lemma ForkGives(k: State)
    requires Inv(k) && InSyscall(k) && k.ids + 1 < ID_LIMIT
    ensures k.free != [] ==> k.free[0] < NENV
    ensures var o := Exofork(k);
            && o.k.cur == k.cur && o.k.sched == k.sched && o.k.count == k.count
            && if CanFork(k) then
                 && IsChildOf(k, o.k, k.free[0], k.cur.value) && o.r == AsInt(o.k.envs[k.free[0]].id)
                 && o.k.free == k.free[1..]
               else
                 o.r == -E_NO_FREE_ENV && o.k.free == k.free && forall f: nat :: Live(k, f) || Live(o.k, f) ==>
                   f < NENV && o.k.envs[f] == k.envs[f]
  {
    var caller := k.envs[k.cur.value].id;
    ForkSucceedsIff(k);
    AllocGives(k, caller);
    CallerIsLive(k);
    hide CanFork, EnvAlloc, IsChildOf, Inv, FirstClear, SetBit, Test, MkEnvId;
    AllocFailsIff(k, caller);
    if CanFork(k) {
      var c := k.free[0];
      IdParts(k.ids + 1, c);
      NewIdIs(k, c);
      FirstClearIsFree(k);
      IdIsNew(k, c);
      ChildIs(k, Exofork(k).k, c, k.cur.value);
    }
  }

  lemma NewIdIs(k: State, c: nat)
    requires k.ids + 1 < ID_LIMIT && c < NENV
    ensures MkEnvId(k.ids + 1, c) == (k.ids + 1) * ID_STEP + c
  {
  }

  lemma IdIsNew(k: State, c: nat)
    requires Inv(k) && k.ids + 1 < ID_LIMIT && c < NENV
    ensures forall f: nat :: Live(k, f) ==> k.envs[f].id != (k.ids + 1) * ID_STEP + c
  {
    hide AsidsOk, ListsOk;
    DivStep((k.ids + 1) * ID_STEP + c, k.ids + 1, c);
  }

  lemma CallerIsLive(k: State)
    requires Inv(k) && InSyscall(k)
    ensures k.envs[k.cur.value].status == ENV_RUNNABLE
    ensures k.free != [] ==> k.free[0] < NENV && !k.envs[k.free[0]].recving
  {
    assert k.cur.value in k.sched;
    if k.free != [] { assert k.free[0] in k.free; }
  }

  lemma AllocFailsIff(k: State, parent: nat)
    requires Inv(k) && (k.free != [] ==> k.free[0] < NENV)
    ensures EnvAlloc(k, parent).r == if k.free != [] && FirstClear(k.asids, 0).Some? then 0 else -E_NO_FREE_ENV
    ensures EnvAlloc(k, parent).r != 0 ==>
              var k' := EnvAlloc(k, parent).k;
              && k'.cur == k.cur && k'.sched == k.sched && k'.count == k.count && k'.free == k.free
              && forall f: nat :: Live(k, f) || Live(k', f) ==> f < NENV && k'.envs[f] == k.envs[f]
  {
    hide FirstClear, Test, MkEnvId, AsidsOk, IdsOk;
    if k.free != [] { assert k.free[0] in k.free; }
  }

  lemma ChildIs(k: State, k': State, c: nat, e: nat)
    requires Shaped(k) && Shaped(k') && e < NENV && c < NENV && k.envs[c].status == ENV_FREE && !k.envs[c].recving
    requires k'.envs == k.envs[c := k.envs[c].(runs := 0, id := (k.ids + 1) * ID_STEP + c, parent := k.envs[e].id,
                                               asid := k'.envs[c].asid, status := ENV_NOT_RUNNABLE,
                                               pri := k.envs[e].pri)]
    requires forall f: nat :: Live(k, f) ==> k.envs[f].asid != k'.envs[c].asid
    requires forall f: nat :: Live(k, f) ==> k.envs[f].id != (k.ids + 1) * ID_STEP + c
    ensures IsChildOf(k, k', c, e)
  {
  }

  lemma IdAsInt(i: nat, e: nat)
    requires 1 <= i < ID_LIMIT && e < NENV
    ensures var r := AsInt(i * ID_STEP + e); r % U32 == i * ID_STEP + e && r != 0 && (r > 0 <==> i < ID_LIMIT / 2)
  {
    var id := i * ID_STEP + e;
    ModU32(id, 0, id);
    if id >= U32 / 2 { MinusU32(id); }
  }

  lemma MinusU32(id: nat)
    requires id < U32
    ensures (id - U32) % U32 == id
  {
  }

  lemma ChildFacts(k: State, k': State, c: nat, e: nat)
    requires Shaped(k) && Shaped(k') && e < NENV && c < NENV && IsChildOf(k, k', c, e)
    ensures Live(k', c) && k'.envs[c].parent == k.envs[e].id && k'.envs[c].id == (k.ids + 1) * ID_STEP + c
  {
  }

  /** The result, cut to 32 bits as an argument of a system call is, finds the child for the caller. It is never 0,
      which is what the child gets; but from allocation 2^20 on it is negative, and spawn takes it for an error. */
  lemma ForkedIsFound(k: State)
    requires Inv(k) && InSyscall(k) && k.ids + 1 < ID_LIMIT && CanFork(k)
    ensures k.free[0] < NENV
    ensures var o, c := Exofork(k), k.free[0];
            && InSyscall(o.k) && o.r % U32 == o.k.envs[c].id != 0
            && EnvId2Env(o.k, o.r % U32, k.envs[k.cur.value].id) == Some(c)
            && o.r != 0 && (o.r > 0 <==> k.ids + 1 < ID_LIMIT / 2)
  {
    ForkGives(k);
    ExoforkKeeps(k);
    var o, c := Exofork(k), k.free[0];
    ChildFacts(k, o.k, c, k.cur.value);
    hide Inv, Exofork, EnvId2Env, CanFork, AsInt, IsChildOf;
    IdAsInt(k.ids + 1, c);
    FoundIff(o.k, o.k.envs[c].id, k.envs[k.cur.value].id, c);
  }

  /* ---- sys_set_env_status ---- */

  lemma RemovedStep(s: seq<nat>, e: nat)
    requires s != []
    ensures Removed(s, e) == if s[0] == e then s[1..] else [s[0]] + Removed(s[1..], e)
  {
  }

  lemma {:induction false} RemovedBetween(before: seq<nat>, e: nat, after: seq<nat>)
    requires e !in before
    ensures Removed(before + [e] + after, e) == before + after
  {
    hide Removed;
    var s := before + [e] + after;
    RemovedStep(s, e);
    if before == [] {
      assert s == [e] + after && [] + after == after;
    } else {
      var rest := before[1..];
      assert before == [before[0]] + rest;
      assert s == [before[0]] + (rest + [e] + after);
      RemovedBetween(rest, e, after);
      assert [before[0]] + (rest + after) == before + after;
    }
  }

  lemma RemovedAt(s: seq<nat>, i: nat)
    requires i < |s| && s[i] !in s[..i]
    ensures Removed(s, s[i]) == s[..i] + s[i + 1..]
  {
    hide Removed;
    assert s == s[..i] + [s[i]] + s[i + 1..];
    RemovedBetween(s[..i], s[i], s[i + 1..]);
  }

  /** Only the status of env e and the list of runnable envs differ: e is put last, taken out, or left where it is. */
  ghost predicate StatusSet(k: State, k': State, e: nat, status: nat)
    requires Shaped(k) && Shaped(k') && e < NENV
  {
    && k' == k.(envs := k.envs[e := k.envs[e].(status := status)], sched := k'.sched)
    && (k.envs[e].status == status ==> k'.sched == k.sched)
    && (k.envs[e].status != status == ENV_RUNNABLE ==> k'.sched == k.sched + [e])
    && (forall i :: 0 <= i < |k.sched| && k.sched[i] == e && status == ENV_NOT_RUNNABLE ==>
          k'.sched == k.sched[..i] + k.sched[i + 1..])
  }

  /** sys_set_env_status on an env by its id: the caller and its children can be set, nothing else. */
  lemma StatusGives(k: State, e: nat, status: nat)
    requires Inv(k) && InSyscall(k) && Live(k, e)
    ensures var o := SetEnvStatus(k, k.envs[e].id, status);
            if status != ENV_RUNNABLE && status != ENV_NOT_RUNNABLE then o == Done(k, -E_INVAL)
            else if k.cur != Some(e) && k.envs[e].parent != k.envs[k.cur.value].id then o == Done(k, -E_BAD_ENV)
            else o.r == 0 && StatusSet(k, o.k, e, status)
  {
    LiveIdIsPositive(k, e);
    FoundIff(k, k.envs[e].id, k.envs[k.cur.value].id, e);
    var found := EnvId2Env(k, k.envs[e].id, k.envs[k.cur.value].id);
    if found.Some? { FoundIff(k, k.envs[e].id, k.envs[k.cur.value].id, found.value); }
    IdFindsEnv(k, e);
    hide AsidsOk, IdsOk, EnvId2Env, Removed;
    LiveIdIsPositive(k, k.cur.value);
    forall i | 0 <= i < |k.sched| && k.sched[i] == e ensures Removed(k.sched, e) == k.sched[..i] + k.sched[i + 1..] {
      RemovedAt(k.sched, i);
    }
    assert e in k.sched <==> k.envs[e].status == ENV_RUNNABLE;
  }

  lemma LiveIdIsPositive(k: State, e: nat)
    requires Inv(k) && e < NENV && (Live(k, e) || k.cur == Some(e))
    ensures k.envs[e].id > 0
  {
    if k.cur == Some(e) { assert e in k.sched; }
    assert Live(k, e);
    hide AsidsOk, ListsOk;
  }

  /** An id that no live env has is refused. */
  lemma StatusRefused(k: State, envid: nat, status: nat)
    requires Inv(k) && InSyscall(k) && envid != 0 && forall e: nat :: Live(k, e) ==> k.envs[e].id != envid
    requires status == ENV_RUNNABLE || status == ENV_NOT_RUNNABLE
    ensures SetEnvStatus(k, envid, status) == Done(k, -E_BAD_ENV)
  {
    var found := EnvId2Env(k, envid, k.envs[k.cur.value].id);
    if found.Some? { FoundIff(k, envid, k.envs[k.cur.value].id, found.value); }
  }

  /** fork and then syscall_set_env_status(child, ENV_RUNNABLE): the child is runnable, last in the list, and the
      caller still runs. */
  lemma ChildIsStarted(k: State)
    requires Inv(k) && InSyscall(k) && k.ids + 1 < ID_LIMIT && CanFork(k)
    ensures k.free[0] < NENV
    ensures var k1, child := Exofork(k).k, Exofork(k).r;
            && InSyscall(k1)
            && var o := SetEnvStatus(k1, child % U32, ENV_RUNNABLE);
               && o.r == 0 && Inv(o.k) && o.k.cur == k.cur && o.k.sched == k.sched + [k.free[0]]
               && o.k.envs[k.free[0]] == k1.envs[k.free[0]].(status := ENV_RUNNABLE)
  {
    ForkGives(k);
    ForkedIsFound(k);
    ExoforkKeeps(k);
    var k1, c := Exofork(k).k, k.free[0];
    hide Inv, Exofork, CanFork, SetEnvStatus, EnvId2Env;
    assert Live(k1, c);
    CallerKeepsId(k, k1, c);
    StatusGives(k1, c, ENV_RUNNABLE);
    SetEnvStatusKeeps(k1, Exofork(k).r % U32, ENV_RUNNABLE);
  }

  lemma CallerKeepsId(k: State, k1: State, c: nat)
    requires Inv(k) && InSyscall(k) && Shaped(k1) && c < NENV && IsChildOf(k, k1, c, k.cur.value)
    ensures c != k.cur.value && k1.envs[k.cur.value] == k.envs[k.cur.value]
  {
    CallerIsLive(k);
  }

  /* ---- Message passing ---- */

  /** The sender is refused, or the receiver has the message and the sender's id, waits no longer and is last in the
      list of runnable envs; nothing else changes. */
  lemma SendGives(k: State, e: nat, value: nat, srcva: nat, perm: bv10, pageResult: int)
    requires Inv(k) && InSyscall(k) && Live(k, e)
    ensures var o := IpcTrySend(k, k.envs[e].id, value, srcva, perm, pageResult);
            if srcva != 0 && IsIllegalVa(srcva) then o == Done(k, -E_INVAL)
            else if !k.envs[e].recving then o == Done(k, -E_IPC_NOT_RECV)
            else
              && o.r == (if srcva == 0 then 0 else pageResult)
              && o.k == k.(envs := k.envs[e := o.k.envs[e]], sched := k.sched + [e])
              && o.k.envs[e].value == value && o.k.envs[e].from == k.envs[k.cur.value].id
              && o.k.envs[e].perm == perm | Sv39.PTE_V
              && !o.k.envs[e].recving && o.k.envs[e].status == ENV_RUNNABLE
              && o.k.envs[e].dstva == k.envs[e].dstva && o.k.envs[e].id == k.envs[e].id
              && o.k.envs[e].parent == k.envs[e].parent && o.k.envs[e].pri == k.envs[e].pri
  {
    IdFindsEnv(k, e);
    hide Inv, EnvId2Env;
  }

  lemma SendRefused(k: State, envid: nat, value: nat, srcva: nat, perm: bv10, pageResult: int)
    requires Inv(k) && InSyscall(k) && envid != 0 && forall e: nat :: Live(k, e) ==> k.envs[e].id != envid
    requires srcva == 0 || !IsIllegalVa(srcva)
    ensures IpcTrySend(k, envid, value, srcva, perm, pageResult) == Done(k, -E_BAD_ENV)
  {
    var found := EnvId2Env(k, envid, 0);
    if found.Some? { FoundIff(k, envid, 0, found.value); }
  }

  /** sys_ipc_recv with a good address: the caller waits, is out of the list, and the next env gets the CPU. */
  lemma ReceiveGives(k: State, dstva: nat)
    requires Inv(k) && InSyscall(k)
    ensures var o, e := IpcRecv(k, dstva), k.cur.value;
            if dstva != 0 && IsIllegalVa(dstva) then o == Done(k, -E_INVAL)
            else if |k.sched| == 1 then o == Panic
            else
              && o.Done? && k.sched[0] == e
              && Switched(k.(envs := k.envs[e := k.envs[e].(recving := true, dstva := dstva,
                                                            status := ENV_NOT_RUNNABLE)]), o.k, k.sched[1..])
  {
    if dstva == 0 || !IsIllegalVa(dstva) {
      hide Inv, IpcRecv, Pick, Removed, Blocked, Switched, IsIllegalVa;
      BlockedThenPicked(k, dstva);
      HeadGoes(k);
      var e, k1 := k.cur.value, Blocked(k, dstva);
      if |k.sched| > 1 { PickKeeps(k1); }
      var k2 := k.(envs := k.envs[e := k.envs[e].(recving := true, dstva := dstva, status := ENV_NOT_RUNNABLE)]);
      BlockedIs(k, dstva);
      PicksNext(k2, k1);
    } else {
      RefusedReceive(k, dstva);
    }
  }

  /** sys_env_destroy on the caller: it is free and first in the free list, and the next env gets the CPU. Any other
      env, a child too, is refused. */
  lemma ExitGives(k: State, envid: nat)
    requires Inv(k) && InSyscall(k)
    requires forall e :: 0 <= e < NENV && k.envs[e].status != ENV_FREE ==> k.envs[e].asid < NASID
    requires k.envs[k.cur.value].status != ENV_FREE
    ensures var o, e := SysEnvDestroy(k, envid), k.cur.value;
            if envid != 0 && envid != k.envs[e].id then o == Done(k, -E_BAD_ENV)
            else if |k.sched| == 1 then o == Panic
            else
              && o.Done? && k.sched[0] == e
              && Switched(k.(envs := k.envs[e := k.envs[e].(status := ENV_FREE)], free := [e] + k.free,
                             asids := ClearBit(k.asids, k.envs[e].asid)), o.k, k.sched[1..])
  {
    OnlySelfIsDestroyed(k, envid);
    if envid == 0 || envid == k.envs[k.cur.value].id {
      hide Inv, ClearBit, EnvId2Env, Removed, Schedule, Pick, Switched, EnvFree, SysEnvDestroy;
      HeadGoes(k);
      ExitSchedules(k, envid);
      EnvFreeKeeps(k, k.cur.value);
      var k1 := EnvFree(k, k.cur.value).(cur := None);
      ScheduleKeeps(k1, true);
      EnvFreeIs(k, k.cur.value);
      PicksNext(k1.(sched := k.sched, cur := k.cur), k1.(count := k1.count - 1));
    } else {
      RefusedDestroy(k, envid);
    }
  }

  lemma ExitSchedules(k: State, envid: nat)
    requires Inv(k) && InSyscall(k) && EnvId2Env(k, envid, 1) == k.cur
    requires forall e :: 0 <= e < NENV && k.envs[e].status != ENV_FREE ==> k.envs[e].asid < NASID
    requires k.envs[k.cur.value].status != ENV_FREE
    ensures Live(k, k.cur.value) && !k.envs[k.cur.value].recving
    ensures var k1 := EnvFree(k, k.cur.value).(cur := None);
            SysEnvDestroy(k, envid) == Schedule(k1, true) == Pick(k1.(count := k1.count - 1))
  {
    LookupFindsLive(k, envid, 1);
    hide Inv, EnvId2Env, Removed, ClearBit, Pick;
  }

  lemma EnvFreeIs(k: State, e: nat)
    requires Shaped(k) && e < NENV && k.envs[e].asid < NASID
    ensures EnvFree(k, e) == k.(envs := k.envs[e := k.envs[e].(status := ENV_FREE)], free := [e] + k.free,
                                asids := ClearBit(k.asids, k.envs[e].asid), sched := Removed(k.sched, e))
  {
  }

  lemma HeadGoes(k: State)
    requires Inv(k) && InSyscall(k)
    ensures k.sched != [] && k.sched[0] == k.cur.value && Removed(k.sched, k.cur.value) == k.sched[1..]
    ensures forall x :: x in k.sched ==> x < NENV
    ensures |k.sched| > 1 ==> k.sched[1] != k.sched[0]
  {
  }

  /** While the kernel starts, env_create makes an env of the given priority, without a parent, first in the list. */
  lemma CreateGives(k: State, pri: nat)
    requires Inv(k) && k.cur == None && k.ids + 1 < ID_LIMIT && CanFork(k)
    ensures k.free[0] < NENV
    ensures var k', e := EnvCreate(k, pri).k, k.free[0];
            && EnvCreate(k, pri).r == 0 && k'.sched == [e] + k.sched && k'.free == k.free[1..]
            && k'.envs[e].status == ENV_RUNNABLE && k'.envs[e].pri == pri && k'.envs[e].parent == 0
            && k'.envs[e].id == (k.ids + 1) * ID_STEP + e && k'.cur == None
            && (forall f :: 0 <= f < NENV && f != e ==> k'.envs[f] == k.envs[f])
  {
    ForkSucceedsIff(k);
    AllocGives(k, 0);
    hide CanFork, EnvAlloc, Inv, FirstClear, SetBit, Test, MkEnvId;
    AllocFailsIff(k, 0);
    NewIdIs(k, k.free[0]);
  }

  /* ---- An env that stops itself ---- */

  /** sys_set_env_status(0, ENV_NOT_RUNNABLE) leaves curenv stopped and the invariant broken; the next call of schedule
      goes on with the next env and restores it. */
  lemma StoppedThenScheduled(k: State, y: bool)
    requires Inv(k) && InSyscall(k)
    ensures var k1, e := SetEnvStatus(k, 0, ENV_NOT_RUNNABLE).k, k.cur.value;
            && !Inv(k1) && k1.cur == k.cur
            && var o := Schedule(k1, y);
               if |k.sched| == 1 then o == Panic
               else o.Done? && Inv(o.k) && Switched(k1, o.k, k.sched[1..])
  {
    hide Inv, SetEnvStatus, Schedule, Pick, Removed, Switched;
    var k1, e := SetEnvStatus(k, 0, ENV_NOT_RUNNABLE).k, k.cur.value;
    SetEnvStatusKeeps(k, 0, ENV_NOT_RUNNABLE);
    HeadGoes(k);
    StoppedInv(k, k1);
    var k2 := k1.(count := k1.count - 1);
    if |k.sched| > 1 { PickKeeps(k2); }
    StoppedIsRemoved(k1, y);
    PicksNext(k1, k2);
  }

  lemma StoppedIsRemoved(k: State, y: bool)
    requires InSyscall(k) && k.envs[k.cur.value].status == ENV_NOT_RUNNABLE && k.cur.value !in k.sched
    ensures Schedule(k, y) == Pick(k.(count := k.count - 1))
  {
    hide Pick, Removed;
  }

  /** Picking from k1 hands the CPU over as seen from k, which may have another list, count or curenv. */
  lemma PicksNext(k: State, k1: State)
    requires Shaped(k) && k1 == k.(sched := k1.sched, count := k1.count, cur := k1.cur)
    ensures k1.sched == [] ==> Pick(k1) == Panic
    ensures Pick(k1).Done? ==> Switched(k, Pick(k1).k, k1.sched) && Pick(k1).r == 0
  {
  }

  lemma BlockedIs(k: State, dstva: nat)
    requires InSyscall(k)
    ensures Blocked(k, dstva)
            == k.(envs := k.envs[k.cur.value := k.envs[k.cur.value].(recving := true, dstva := dstva,
                                                                     status := ENV_NOT_RUNNABLE)],
                  sched := Removed(k.sched, k.cur.value), count := k.count - 1)
  {
  }

  lemma StoppedInv(k: State, k1: State)
    requires Inv(k) && InSyscall(k) && k1 == SetEnvStatus(k, 0, ENV_NOT_RUNNABLE).k
    ensures k1 == k.(envs := k.envs[k.cur.value := k.envs[k.cur.value].(status := ENV_NOT_RUNNABLE)],
                     sched := Removed(k.sched, k.cur.value))
    ensures k.cur.value !in k1.sched && Inv(k1.(cur := None, count := k1.count - 1))
  {
    hide AsidsOk, IdsOk;
    assert k.cur.value in k.sched;
    LiveAs(k, k1.(cur := None, count := k1.count - 1));
  }
}
