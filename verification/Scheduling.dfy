/** Whole runs of the kernel: every entry keeps the invariant, a runnable env waits for a bounded number
    of calls of schedule, and an env gets at most env_pri slices in a row while another is runnable. */
module Scheduling {
  import opened Bitmap
  import opened Errors
  import opened KernelState
  import opened Options

  /** Kernel entries, each atomic. Yield with yield_ false is the timer interrupt. */
  datatype Action =
    | Yield(yield_: bool)
    | Fork
    | Destroy(envid: nat)
    | SetStatus(envid: nat, status: nat)
    | Receive(dstva: nat)
    | Send(envid: nat, value: nat, srcva: nat, perm: bv10, pageResult: int)

  /** An action in a state where the kernel can be entered with it: system calls need a running env, ids
      must not be used up, and sys_set_env_status is used within its scope. */
  ghost predicate Enabled(k: State, a: Action)
    requires Inv(k)
  {
    (a.Yield? || InSyscall(k)) &&
    match a
    case Fork => k.ids + 1 < ID_LIMIT
    case SetStatus(envid, status) =>
      var t := EnvId2Env(k, envid, k.envs[k.cur.value].id);
      t.Some? && (status == ENV_RUNNABLE || status == ENV_NOT_RUNNABLE) ==>
        !(t == k.cur && status == ENV_NOT_RUNNABLE) && !(k.envs[t.value].recving && status == ENV_RUNNABLE)
    case _ => true
  }

  lemma HeadsOk(k: State)
    requires Inv(k)
    ensures k.cur.Some? ==> k.cur.value < NENV && k.envs[k.cur.value].status == ENV_RUNNABLE
    ensures k.free != [] ==> k.free[0] < NENV
    ensures forall e :: 0 <= e < NENV && k.envs[e].status != ENV_FREE ==> k.envs[e].asid < NASID
  {
    hide IdsOk;
    assert k.cur.Some? ==> k.cur.value in k.sched;
    assert k.free != [] ==> k.free[0] in k.free;
    forall e | 0 <= e < NENV && k.envs[e].status != ENV_FREE ensures k.envs[e].asid < NASID {
      LiveAsid(k, e);
    }
  }

  ghost function Step(k: State, a: Action): Outcome
    requires Inv(k) && Enabled(k, a)
  {
    HeadsOk(k);
    match a
    case Yield(y) => Schedule(k, y)
    case Fork => Exofork(k)
    case Destroy(envid) => SysEnvDestroy(k, envid)
    case SetStatus(envid, status) => SetEnvStatus(k, envid, status)
    case Receive(dstva) => IpcRecv(k, dstva)
    case Send(envid, value, srcva, perm, pageResult) => IpcTrySend(k, envid, value, srcva, perm, pageResult)
  }

  lemma StepKeeps(k: State, a: Action)
    requires Inv(k) && Enabled(k, a)
    ensures Step(k, a).Done? ==> Inv(Step(k, a).k)
  {
    hide Inv, Schedule, Exofork, SysEnvDestroy, SetEnvStatus, IpcRecv, IpcTrySend, EnvId2Env;
    match a
    case Yield(y) => ScheduleKeeps(k, y);
    case Fork => ExoforkKeeps(k);
    case Destroy(envid) => EnvDestroyKeeps(k, envid);
    case SetStatus(envid, status) => StatusKeeps(k, envid, status);
    case Receive(dstva) => IpcRecvKeeps(k, dstva);
    case Send(envid, value, srcva, perm, pageResult) => IpcTrySendKeeps(k, envid, value, srcva, perm, pageResult);
  }

  lemma StatusKeeps(k: State, envid: nat, status: nat)
    requires Inv(k) && InSyscall(k) && Enabled(k, SetStatus(envid, status))
    ensures Inv(SetEnvStatus(k, envid, status).k)
  {
    hide Inv, SetEnvStatus, EnvId2Env;
    if (status == ENV_RUNNABLE || status == ENV_NOT_RUNNABLE) && EnvId2Env(k, envid, k.envs[k.cur.value].id).Some? {
      SetEnvStatusKeeps(k, envid, status);
    } else {
      SetEnvStatusRejects(k, envid, status);
    }
  }

  ghost function Next(k: State, a: Action): (k': State)
    requires Inv(k) && Enabled(k, a) && Step(k, a).Done?
    ensures Inv(k')
  {
    StepKeeps(k, a); Step(k, a).k
  }

  /** The actions happen one after the other, from k on, and none panics. */
  ghost predicate IsRun(k: State, acts: seq<Action>)
    requires Inv(k)
    decreases |acts|
  {
    acts == [] || (Enabled(k, acts[0]) && Step(k, acts[0]).Done? && IsRun(Next(k, acts[0]), acts[1..]))
  }

  ghost function After(k: State, acts: seq<Action>): (k': State)
    requires Inv(k) && IsRun(k, acts)
    ensures Inv(k')
    decreases |acts|
  {
    if acts == [] then k else After(Next(k, acts[0]), acts[1..])
  }

  /* ---- Calls of schedule ---- */

  /** The entry ends in a call of schedule. */
  ghost predicate CallsSchedule(k: State, a: Action)
    requires Inv(k) && Enabled(k, a)
  {
    match a
    case Yield(_) => true
    case Receive(dstva) => dstva == 0 || !IsIllegalVa(dstva)
    case Destroy(envid) => EnvId2Env(k, envid, 1) == k.cur
    case _ => false
  }

  ghost function ScheduleCalls(k: State, acts: seq<Action>): nat
    requires Inv(k) && IsRun(k, acts)
    decreases |acts|
  {
    if acts == [] then 0 else
    (if CallsSchedule(k, acts[0]) then 1 else 0) + ScheduleCalls(Next(k, acts[0]), acts[1..])
  }

  /* ---- Bounded waiting ---- */

  /** The part of the list in front of e. */
  function Before(s: seq<nat>, e: nat): (r: seq<nat>)
    ensures e !in r && r <= s
  {
    if s == [] || s[0] == e then [] else [s[0]] + Before(s[1..], e)
  }

  function PriSum(k: State, s: seq<nat>): nat
    requires Shaped(k)
  {
    if s == [] then 0 else (if s[0] < NENV then k.envs[s[0]].pri else 0) + PriSum(k, s[1..])
  }

  /** The remaining slices of the head plus the priorities of the envs between it and e. */
  function Wait(k: State, e: nat): int
    requires Shaped(k)
  {
    var b := Before(k.sched, e);
    if k.cur == None || b == [] then 1 + PriSum(k, b) else k.count + PriSum(k, b[1..])
  }

  ghost predicate Waiting(k: State, e: nat) { e in k.sched && k.cur != Some(e) }

  /** e stays runnable and is not picked, all along the run. */
  ghost predicate KeepsWaiting(k: State, acts: seq<Action>, e: nat)
    requires Inv(k) && IsRun(k, acts)
    decreases |acts|
  {
    Waiting(k, e) && (acts == [] || KeepsWaiting(Next(k, acts[0]), acts[1..], e))
  }

  lemma PriSumSame(k: State, k': State, s: seq<nat>)
    requires Shaped(k) && Shaped(k') && forall x :: x in s && x < NENV ==> k'.envs[x].pri == k.envs[x].pri
    ensures PriSum(k', s) == PriSum(k, s)
  {
  }

  lemma BeforeAppend(s: seq<nat>, t: seq<nat>, e: nat)
    requires e in s
    ensures Before(s + t, e) == Before(s, e)
  {
    if s[0] != e {
      assert (s + t)[1..] == s[1..] + t;
      BeforeAppend(s[1..], t, e);
    }
  }

  lemma RemovedBefore(k: State, s: seq<nat>, x: nat, e: nat)
    requires Shaped(k) && x != e && e in s
    ensures PriSum(k, Before(Removed(s, x), e)) <= PriSum(k, Before(s, e))
    ensures s[0] != x && s[0] != e ==>
              var b, b' := Before(s, e), Before(Removed(s, x), e);
              b != [] && b' != [] && b'[0] == b[0] == s[0] && PriSum(k, b'[1..]) <= PriSum(k, b[1..])
  {
    if s[0] != e && s[0] != x {
      RemovedBefore(k, s[1..], x, e);
    }
  }

  /** The head goes; it is put at the end or not. */
  lemma HeadLeaves(k: State, s: seq<nat>, t: seq<nat>, e: nat)
    requires Shaped(k) && s != [] && s[0] != e && e in s
    ensures Removed(s, s[0]) == s[1..] && e in s[1..]
    ensures Before(Removed(s, s[0]) + t, e) == Before(Removed(s, s[0]), e) == Before(s, e)[1..]
    ensures Before(s, e) != [] && Before(s, e)[0] == s[0]
  {
    BeforeAppend(s[1..], t, e);
  }

  /** Starting the head of list l, which still has e in it, behind the envs of b. */
  lemma PickWaits(k: State, e: nat)
    requires Inv(k.(cur := None)) && e in k.sched
    ensures Pick(k).Done?
    ensures Pick(k).k.cur == Some(e) || (Waiting(Pick(k).k, e) && Wait(Pick(k).k, e) == PriSum(k, Before(k.sched, e)))
    ensures Pick(k).k.cur == Some(e) <==> k.sched[0] == e
  {
    PickKeeps(k);
    hide AsidsOk, IdsOk;
    var k' := Pick(k).k;
    var b := Before(k.sched, e);
    assert k.sched[0] in k.sched;
    PriSumSame(k, k', b);
    if k.sched[0] != e {
      PriSumSame(k, k', b[1..]);
    }
  }

  /** Every call of schedule that does not pick e brings it closer. */
  lemma ScheduleWaits(k: State, y: bool, e: nat)
    requires Inv(k) && Waiting(k, e)
    ensures Schedule(k, y).Done?
    ensures var k' := Schedule(k, y).k; k'.cur == Some(e) || (Waiting(k', e) && Wait(k', e) < Wait(k, e))
  {
    ScheduleKeeps(k, y);
    hide AsidsOk, IdsOk, Pick;
    var k1 := k.(count := k.count - 1);
    if k.cur == None {
      PriSumOnEnvs(k, k1);
      SameForInv(k, k1);
      PickWaits(k1, e);
    } else if y || k1.count == 0 {
      RotateWaits(k, y, e);
    } else {
      var h, b := k.cur.value, Before(k.sched, e);
      assert h in k.sched;
      PriSumSame(k, Schedule(k, y).k, b[1..]);
    }
  }

  lemma RotateWaits(k: State, y: bool, e: nat)
    requires Inv(k) && Waiting(k, e) && k.cur.Some? && (y || k.count == 1) && k.cur.value < NENV
    ensures Schedule(k, y).Done?
    ensures var k' := Schedule(k, y).k; k'.cur == Some(e) || (Waiting(k', e) && Wait(k', e) < Wait(k, e))
  {
    hide AsidsOk, IdsOk, Pick;
    var h := k.cur.value;
    var l := Removed(k.sched, h);
    HeadLeaves(k, k.sched, [h], e);
    assert h in k.sched;
    Rotated(k.sched, h);
    var k2 := k.(count := k.count - 1, sched := l + [h]);
    SameForInv(k, k2);
    PriSumOnEnvs(k, k2);
    PickWaits(k2, e);
  }

  lemma PriSumOnEnvs(k: State, k': State)
    requires Shaped(k) && Shaped(k') && k'.envs == k.envs
    ensures forall s :: PriSum(k', s) == PriSum(k, s)
  {
    forall s ensures PriSum(k', s) == PriSum(k, s) {
      PriSumSame(k, k', s);
    }
  }

  lemma SameForInv(k: State, k': State)
    requires Inv(k) && k' == k.(count := k'.count, sched := k'.sched)
    requires Distinct(k'.sched) && forall x :: x in k'.sched <==> x in k.sched
    ensures Inv(k'.(cur := None))
  {
    hide AsidsOk, IdsOk;
    LiveAs(k, k'.(cur := None));
  }

  /** Blocking and exiting end in schedule as well. */
  lemma LeavingWaits(k: State, k1: State, e: nat)
    requires Inv(k) && InSyscall(k) && Waiting(k, e)
    requires Inv(k1.(cur := None)) && k1.sched == Removed(k.sched, k.cur.value)
    requires forall x: nat :: x < NENV ==> k1.envs[x].pri == k.envs[x].pri
    ensures Pick(k1).Done?
    ensures var k' := Pick(k1).k; k'.cur == Some(e) || (Waiting(k', e) && Wait(k', e) < Wait(k, e))
  {
    hide AsidsOk, IdsOk, Pick;
    HeadLeaves(k, k.sched, [], e);
    assert Removed(k.sched, k.cur.value) + [] == Removed(k.sched, k.cur.value);
    PickWaits(k1, e);
    PriSumSame(k, k1, Before(k1.sched, e));
  }

  lemma ReceiveWaits(k: State, dstva: nat, e: nat)
    requires Inv(k) && InSyscall(k) && Waiting(k, e) && (dstva == 0 || !IsIllegalVa(dstva))
    ensures IpcRecv(k, dstva).Done?
    ensures var k' := IpcRecv(k, dstva).k; k'.cur == Some(e) || (Waiting(k', e) && Wait(k', e) < Wait(k, e))
  {
    BlockedThenPicked(k, dstva);
    hide Inv, Pick, IpcRecv, Blocked, Wait, Removed;
    LeavingWaits(k, Blocked(k, dstva), e);
  }

  lemma DestroyWaits(k: State, envid: nat, e: nat)
    requires Inv(k) && InSyscall(k) && Waiting(k, e) && EnvId2Env(k, envid, 1) == k.cur
    requires forall e :: 0 <= e < NENV && k.envs[e].status != ENV_FREE ==> k.envs[e].asid < NASID
    requires k.envs[k.cur.value].status != ENV_FREE
    ensures SysEnvDestroy(k, envid).Done?
    ensures var k' := SysEnvDestroy(k, envid).k; k'.cur == Some(e) || (Waiting(k', e) && Wait(k', e) < Wait(k, e))
  {
    hide AsidsOk, IdsOk, Pick, EnvId2Env, ClearBit;
    var c := k.cur.value;
    assert c in k.sched;
    assert !k.envs[c].recving;
    EnvFreeKeeps(k, c);
    var k1 := EnvFree(k, c).(cur := None, count := k.count - 1);
    SameForInv(EnvFree(k, c).(cur := None), k1);
    LeavingWaits(k, k1, e);
  }

  /** The other system calls do not move e back. */
  lemma OthersWait(k: State, a: Action, e: nat)
    requires Inv(k) && Enabled(k, a) && !CallsSchedule(k, a) && Waiting(k, e)
    requires Step(k, a).Done? && e in Step(k, a).k.sched
    ensures var k' := Step(k, a).k; Waiting(k', e) && Wait(k', e) <= Wait(k, e)
  {
    HeadsOk(k);
    assert InSyscall(k);
    hide Inv, Exofork, SetEnvStatus, IpcTrySend, EnvId2Env;
    match a
    case Receive(_) =>
    case Destroy(envid) => OnlySelfIsDestroyed(k, envid);
    case Fork => ForkWaits(k, e);
    case SetStatus(envid, status) => StatusWaits(k, envid, status, e);
    case Send(envid, value, srcva, perm, pageResult) => SendWaits(k, envid, value, srcva, perm, pageResult, e);
  }

  lemma ForkWaits(k: State, e: nat)
    requires Inv(k) && InSyscall(k) && k.ids + 1 < ID_LIMIT && Waiting(k, e) && (k.free != [] ==> k.free[0] < NENV)
    ensures var k' := Exofork(k).k; Waiting(k', e) && Wait(k', e) == Wait(k, e)
  {
    ForkSame(k);
    hide AsidsOk, IdsOk, Exofork;
    var b := Before(k.sched, e);
    assert forall x :: x in b ==> x in k.sched;
    PriSumSame(k, Exofork(k).k, b[1..]);
  }

  lemma SendWaits(k: State, envid: nat, value: nat, srcva: nat, perm: bv10, pageResult: int, e: nat)
    requires Inv(k) && InSyscall(k) && Waiting(k, e)
    ensures var k' := IpcTrySend(k, envid, value, srcva, perm, pageResult).k;
            Waiting(k', e) && Wait(k', e) == Wait(k, e)
  {
    hide AsidsOk, IdsOk, ListsOk, EnvId2Env;
    var k' := IpcTrySend(k, envid, value, srcva, perm, pageResult).k;
    var b := Before(k.sched, e);
    PriSumSame(k, k', b[1..]);
    if k' != k {
      BeforeAppend(k.sched, [EnvId2Env(k, envid, 0).value], e);
    }
  }

  lemma ForkSame(k: State)
    requires Inv(k) && InSyscall(k) && k.ids + 1 < ID_LIMIT && (k.free != [] ==> k.free[0] < NENV)
    ensures var k' := Exofork(k).k;
            && k'.sched == k.sched && k'.cur == k.cur && k'.count == k.count
            && (forall x: nat :: x in k.sched && x < NENV ==> k'.envs[x].pri == k.envs[x].pri)
  {
    AllocGives(k, k.envs[k.cur.value].id);
    hide FirstClear, SetBit, Test, MkEnvId, AsidsOk, IdsOk;
    if k.free != [] {
      assert k.free[0] in k.free;
      assert k.free[0] !in k.sched;
    }
  }

  lemma StatusWaits(k: State, envid: nat, status: nat, e: nat)
    requires Inv(k) && InSyscall(k) && Enabled(k, SetStatus(envid, status)) && Waiting(k, e)
    requires e in SetEnvStatus(k, envid, status).k.sched
    ensures var k' := SetEnvStatus(k, envid, status).k; Waiting(k', e) && Wait(k', e) <= Wait(k, e)
  {
    hide AsidsOk, IdsOk;
    var k' := SetEnvStatus(k, envid, status).k;
    var t := EnvId2Env(k, envid, k.envs[k.cur.value].id);
    var h, b := k.cur.value, Before(k.sched, e);
    assert b != [] && b[0] == h;
    PriSumSame(k, k', b[1..]);
    if t.Some? && (status == ENV_RUNNABLE || status == ENV_NOT_RUNNABLE) {
      var x := t.value;
      if k.envs[x].status == ENV_RUNNABLE && status != ENV_RUNNABLE {
        assert x != e;
        RemovedBefore(k', k.sched, x, e);
      } else if k.envs[x].status != ENV_RUNNABLE && status == ENV_RUNNABLE {
        BeforeAppend(k.sched, [x], e);
      }
    }
  }

  lemma WaitPositive(k: State, e: nat)
    requires Inv(k) && Waiting(k, e)
    ensures Wait(k, e) >= 1
  {
    hide AsidsOk, IdsOk;
  }

  lemma StepWaits(k: State, a: Action, e: nat)
    requires Inv(k) && Enabled(k, a) && Waiting(k, e) && Step(k, a).Done? && Waiting(Step(k, a).k, e)
    ensures Wait(Step(k, a).k, e) + (if CallsSchedule(k, a) then 1 else 0) <= Wait(k, e)
  {
    HeadsOk(k);
    if !CallsSchedule(k, a) {
      OthersWait(k, a, e);
    } else {
      hide Inv, Schedule, SysEnvDestroy, IpcRecv, EnvId2Env, Wait;
      match a
      case Yield(y) => ScheduleWaits(k, y, e);
      case Destroy(envid) => DestroyWaits(k, envid, e);
      case Receive(dstva) => ReceiveWaits(k, dstva, e);
    }
  }

  /** A runnable env that stays runnable is picked at the latest by the Wait-th call of schedule. */
  lemma {:induction false} BoundedWaiting(k: State, acts: seq<Action>, e: nat)
    requires Inv(k) && IsRun(k, acts) && KeepsWaiting(k, acts, e)
    ensures ScheduleCalls(k, acts) < Wait(k, e)
    decreases |acts|
  {
    hide Inv, Enabled, Step, Wait, CallsSchedule;
    if acts == [] {
      WaitPositive(k, e);
    } else {
      var k' := Next(k, acts[0]);
      assert Waiting(k', e);
      StepWaits(k, acts[0], e);
      BoundedWaiting(k', acts[1..], e);
    }
  }

  /* ---- Slices in a row ---- */

  /** e runs and another env is runnable, all along the run. */
  ghost predicate KeepsRunning(k: State, acts: seq<Action>, e: nat)
    requires Inv(k) && IsRun(k, acts)
    decreases |acts|
  {
    k.cur == Some(e) && |k.sched| >= 2 && (acts == [] || KeepsRunning(Next(k, acts[0]), acts[1..], e))
  }

  /** Once the head has left the front, another env is picked. */
  lemma OtherPicked(k: State, k1: State, e: nat, t: seq<nat>)
    requires Inv(k) && k.cur == Some(e) && |k.sched| >= 2
    requires Inv(k1.(cur := None)) && k1.sched == Removed(k.sched, e) + t
    ensures Pick(k1).Done? && Pick(k1).k.cur != Some(e)
  {
    hide AsidsOk, IdsOk, Pick;
    PickKeeps(k1);
  }

  lemma YieldRuns(k: State, y: bool, e: nat)
    requires Inv(k) && k.cur == Some(e) && |k.sched| >= 2 && e < NENV && Schedule(k, y).Done?
    ensures var k' := Schedule(k, y).k; k'.cur == Some(e) ==> k'.count + 1 == k.count
  {
    hide AsidsOk, IdsOk, Pick;
    assert e in k.sched;
    if y || k.count == 1 {
      Rotated(k.sched, e);
      var k1 := k.(count := k.count - 1, sched := Removed(k.sched, e) + [e]);
      SameForInv(k, k1);
      OtherPicked(k, k1, e, [e]);
    }
  }

  lemma DestroyRuns(k: State, envid: nat, e: nat)
    requires Inv(k) && InSyscall(k) && k.cur == Some(e) && |k.sched| >= 2 && EnvId2Env(k, envid, 1) == k.cur
    requires forall e :: 0 <= e < NENV && k.envs[e].status != ENV_FREE ==> k.envs[e].asid < NASID
    requires k.envs[e].status != ENV_FREE && SysEnvDestroy(k, envid).Done?
    ensures SysEnvDestroy(k, envid).k.cur != Some(e)
  {
    hide AsidsOk, IdsOk, Pick, EnvId2Env, ClearBit;
    assert e in k.sched;
    EnvFreeKeeps(k, e);
    var k1 := EnvFree(k, e).(cur := None, count := k.count - 1);
    SameForInv(EnvFree(k, e).(cur := None), k1);
    assert k1.sched == Removed(k.sched, e) + [];
    OtherPicked(k, k1, e, []);
  }

  lemma ReceiveRuns(k: State, dstva: nat, e: nat)
    requires Inv(k) && InSyscall(k) && k.cur == Some(e) && |k.sched| >= 2 && (dstva == 0 || !IsIllegalVa(dstva))
    requires IpcRecv(k, dstva).Done?
    ensures IpcRecv(k, dstva).k.cur != Some(e)
  {
    BlockedThenPicked(k, dstva);
    hide Inv, Pick, IpcRecv, Blocked, Removed;
    assert Blocked(k, dstva).sched == Removed(k.sched, e) + [];
    OtherPicked(k, Blocked(k, dstva), e, []);
  }

  lemma StepRuns(k: State, a: Action, e: nat)
    requires Inv(k) && Enabled(k, a) && Step(k, a).Done? && k.cur == Some(e) && |k.sched| >= 2
    ensures Step(k, a).k.cur == Some(e) ==>
              Step(k, a).k.count + (if CallsSchedule(k, a) then 1 else 0) == k.count
  {
    HeadsOk(k);
    hide Inv, Schedule, Exofork, SysEnvDestroy, IpcRecv, EnvId2Env;
    match a
    case Yield(y) => YieldRuns(k, y, e);
    case Destroy(envid) =>
      OnlySelfIsDestroyed(k, envid);
      if CallsSchedule(k, a) {
        DestroyRuns(k, envid, e);
      } else {
        RefusedDestroy(k, envid);
      }
    case Receive(dstva) =>
      if CallsSchedule(k, a) {
        ReceiveRuns(k, dstva, e);
      } else {
        RefusedReceive(k, dstva);
      }
    case Fork => ForkSame(k);
    case SetStatus(_, _) =>
    case Send(_, _, _, _, _) =>
  }

  lemma RefusedDestroy(k: State, envid: nat)
    requires InSyscall(k) && EnvId2Env(k, envid, 1) == None
    requires forall e :: 0 <= e < NENV && k.envs[e].status != ENV_FREE ==> k.envs[e].asid < NASID
    requires k.envs[k.cur.value].status != ENV_FREE
    ensures SysEnvDestroy(k, envid) == Done(k, -E_BAD_ENV)
  {
  }

  lemma RefusedReceive(k: State, dstva: nat)
    requires InSyscall(k) && dstva != 0 && IsIllegalVa(dstva)
    ensures IpcRecv(k, dstva) == Done(k, -E_INVAL)
  {
  }

  /** No env gets more than env_pri slices in a row while another env is runnable: the slice it has plus
      the calls of schedule that return to it. */
  lemma {:induction false} SlicesInARow(k: State, acts: seq<Action>, e: nat)
    requires Inv(k) && IsRun(k, acts) && KeepsRunning(k, acts, e)
    ensures e < NENV && 1 + ScheduleCalls(k, acts) <= k.count <= k.envs[e].pri
    decreases |acts|
  {
    HeadsOk(k);
    assert 1 <= k.count <= k.envs[e].pri;
    hide Inv, Enabled, Step, CallsSchedule;
    if acts != [] {
      var k' := Next(k, acts[0]);
      assert k'.cur == Some(e);
      StepRuns(k, acts[0], e);
      SlicesInARow(k', acts[1..], e);
    }
  }

  /* ---- Exactly env_pri slices ---- */

  /** The head of list l got the CPU with a full count, and its run is counted. */
  ghost predicate Switched(k: State, k': State, l: seq<nat>)
    requires Shaped(k)
  {
    && l != [] && l[0] < NENV
    && k' == k.(sched := l, cur := Some(l[0]), count := k.envs[l[0]].pri,
                envs := k.envs[l[0] := k.envs[l[0]].(runs := (k.envs[l[0]].runs + 1) % U32)])
  }

  lemma PickSwitches(k: State)
    requires Shaped(k) && Pick(k).Done?
    ensures Switched(k, Pick(k).k, k.sched)
    ensures forall n :: Switched(k.(count := n), Pick(k).k, k.sched)
  {
  }

  /** A timer interrupt while curenv has slices left: it goes on with one slice less, and the list stays. */
  lemma TickGoesOn(k: State)
    requires Inv(k) && InSyscall(k) && k.count > 1
    ensures var e := k.cur.value;
            Schedule(k, false) == Done(k.(count := k.count - 1,
                                          envs := k.envs[e := k.envs[e].(runs := (k.envs[e].runs + 1) % U32)]), 0)
  {
    HeadsOk(k);
  }

  /** At its last slice, or when it yields, curenv goes to the end of the list and the head of what is left gets the
      CPU with all its slices; that is curenv itself only if no other env is runnable. */
  lemma SliceEnds(k: State, y: bool)
    requires Inv(k) && InSyscall(k) && (y || k.count == 1)
    ensures k.sched != [] && k.sched[0] == k.cur.value
    ensures Schedule(k, y).Done? && Switched(k, Schedule(k, y).k, k.sched[1..] + [k.cur.value])
    ensures Schedule(k, y).k.cur == k.cur <==> |k.sched| == 1
  {
    HeadsOk(k);
    hide AsidsOk, IdsOk;
    var k1 := k.(count := k.count - 1, sched := k.sched[1..] + [k.cur.value]);
    assert Removed(k.sched, k.cur.value) == k.sched[1..];
    assert k1.sched[0] in k.sched;
    PickSwitches(k1);
  }

  /** Without a curenv the head of the list gets the CPU. */
  lemma FirstIsPicked(k: State, y: bool)
    requires Inv(k) && k.cur == None && k.sched != []
    ensures Schedule(k, y).Done? && Switched(k, Schedule(k, y).k, k.sched)
  {
    ScheduleKeeps(k, y);
    PickSwitches(k.(count := k.count - 1));
  }

  /** e neither yields nor blocks nor exits: schedule is called by the timer only, until e has lost the CPU. */
  ghost predicate TicksOnly(k: State, acts: seq<Action>, e: nat)
    requires Inv(k) && IsRun(k, acts)
    decreases |acts|
  {
    acts == [] || k.cur != Some(e)
    || ((CallsSchedule(k, acts[0]) ==> acts[0] == Yield(false)) && TicksOnly(Next(k, acts[0]), acts[1..], e))
  }

  /** The run ends with e still on the CPU, or right when e has lost it. */
  ghost predicate UpToLoss(k: State, acts: seq<Action>, e: nat)
    requires Inv(k) && IsRun(k, acts)
    decreases |acts|
  {
    acts == [] || (k.cur == Some(e) && |k.sched| >= 2 && UpToLoss(Next(k, acts[0]), acts[1..], e))
  }

  lemma CallKeepsCpu(k: State, a: Action)
    requires Inv(k) && InSyscall(k) && Enabled(k, a) && Step(k, a).Done? && !CallsSchedule(k, a)
    ensures Step(k, a).k.cur == k.cur && Step(k, a).k.count == k.count
  {
    HeadsOk(k);
    hide Inv, Schedule, Exofork, SysEnvDestroy, IpcRecv, EnvId2Env;
    match a
    case Yield(_) =>
    case Fork => ForkSame(k);
    case Destroy(envid) => OnlySelfIsDestroyed(k, envid); RefusedDestroy(k, envid);
    case Receive(dstva) => RefusedReceive(k, dstva);
    case SetStatus(_, _) =>
    case Send(_, _, _, _, _) =>
  }

  /** An env that has the CPU with n slices left and neither yields nor blocks nor exits keeps it for n - 1 ticks and
      loses it at the n-th, if another env is runnable. SliceEnds and FirstIsPicked give it env_pri slices at the
      start. */
  lemma {:induction false} ExactSlices(k: State, acts: seq<Action>, e: nat)
    requires Inv(k) && IsRun(k, acts) && k.cur == Some(e) && TicksOnly(k, acts, e) && UpToLoss(k, acts, e)
    ensures var k', n := After(k, acts), ScheduleCalls(k, acts);
            && n <= k.count
            && (k'.cur == Some(e) <==> n < k.count)
            && (n < k.count ==> k'.count == k.count - n)
            && (n == k.count ==> k'.cur.Some? && k'.cur.value < NENV && k'.count == k'.envs[k'.cur.value].pri)
    decreases |acts|
  {
    HeadsOk(k);
    assert 1 <= k.count;
    hide Inv, Enabled, Step, CallsSchedule, Switched;
    if acts != [] {
      var a, k' := acts[0], Next(k, acts[0]);
      if CallsSchedule(k, a) {
        assert Step(k, a) == Schedule(k, false) by { YieldIsSchedule(k); }
        if k.count > 1 {
          TickGoesOn(k);
          ExactSlices(k', acts[1..], e);
        } else {
          SliceEnds(k, false);
          assert acts[1..] == [];
          SwitchedTo(k, k', k.sched[1..] + [e]);
        }
      } else {
        CallKeepsCpu(k, a);
        ExactSlices(k', acts[1..], e);
      }
    }
  }

  lemma YieldIsSchedule(k: State)
    requires Inv(k) && Enabled(k, Yield(false))
    ensures Step(k, Yield(false)) == Schedule(k, false)
  {
  }

  lemma SwitchedTo(k: State, k': State, l: seq<nat>)
    requires Shaped(k) && Shaped(k') && Switched(k, k', l)
    ensures k'.cur == Some(l[0]) && l[0] < NENV && k'.count == k'.envs[l[0]].pri
  {
  }
}
