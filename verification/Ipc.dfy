/** Message passing, kernel and library together (kern/syscall_all.c, user/lib/ipc.c): over every run an
    env gets exactly the messages that were accepted for it, in order. */
module Ipc {
  import opened Bitmap
  import opened KernelState
  import opened Options
  import opened Scheduling
  import Sv39

  /** The sender's id, the value sent, and the permissions with PTE_V. */
  datatype Msg = Msg(from: nat, value: nat, perm: bv10)

  /** Where the code of ipc_recv is. It reads the three fields of its own struct Env one after the other,
      and interrupts can come in between. */
  datatype Phase = Idle | Called | GotFrom(from: nat) | GotPerm(from: nat, perm: bv10)

  /** An env's progress, the sends to it that passed the env_ipc_recving check, and what its calls of
      ipc_recv have returned. */
  datatype User = User(phase: Phase, accepted: seq<Msg>, received: seq<Msg>)

  datatype System = System(k: State, users: seq<User>)

  datatype Event = Kernel(a: Action) | ReadFrom | ReadPerm | ReadValue

  ghost predicate UserOk(v: Env, u: User)
  {
    match u.phase
    case Idle => !v.recving && u.accepted == u.received
    case Called => u.accepted == u.received + if v.recving then [] else [Msg(v.from, v.value, v.perm)]
    case GotFrom(f) => !v.recving && u.accepted == u.received + [Msg(f, v.value, v.perm)]
    case GotPerm(f, p) => !v.recving && u.accepted == u.received + [Msg(f, v.value, p)]
  }

  ghost predicate SystemInv(s: System)
  {
    Inv(s.k) && |s.users| == NENV && forall e: nat :: Live(s.k, e) ==> UserOk(s.k.envs[e], s.users[e])
  }

  /** ipc_recv calls the kernel only when its previous call is complete. */
  ghost predicate Possible(s: System, ev: Event)
    requires SystemInv(s)
  {
    match ev
    case Kernel(a) => Enabled(s.k, a) && Step(s.k, a).Done? && (a.Receive? ==> s.users[s.k.cur.value].phase.Idle?)
    case ReadFrom => InSyscall(s.k) && s.users[s.k.cur.value].phase.Called?
    case ReadPerm => InSyscall(s.k) && s.users[s.k.cur.value].phase.GotFrom?
    case ReadValue => InSyscall(s.k) && s.users[s.k.cur.value].phase.GotPerm?
  }

  /** How a kernel entry moves the users along. */
  ghost function UsersAfter(s: System, a: Action): (users: seq<User>)
    requires SystemInv(s) && Possible(s, Kernel(a))
    ensures |users| == NENV
  {
    match a
    case Receive(dstva) =>
      if dstva != 0 && IsIllegalVa(dstva) then s.users else
      var c := s.k.cur.value;
      s.users[c := s.users[c].(phase := Called)]
    case Send(envid, value, srcva, perm, _) =>
      var t := IpcTarget(s.k, envid, srcva);
      if t == None then s.users else
      var u := s.users[t.value];
      s.users[t.value := u.(accepted := u.accepted + [Msg(s.k.envs[s.k.cur.value].id, value, perm | Sv39.PTE_V)])]
    case Fork =>
      HeadsOk(s.k);
      if Exofork(s.k).k.free == s.k.free then s.users else
      if s.k.free == [] then s.users else s.users[s.k.free[0] := User(Idle, [], [])]
    case _ => s.users
  }

  ghost function SystemStep(s: System, ev: Event): System
    requires SystemInv(s) && Possible(s, ev)
  {
    match ev
    case Kernel(a) => System(Step(s.k, a).k, UsersAfter(s, a))
    case ReadFrom =>
      var c := s.k.cur.value;
      s.(users := s.users[c := s.users[c].(phase := GotFrom(s.k.envs[c].from))])
    case ReadPerm =>
      var c := s.k.cur.value;
      s.(users := s.users[c := s.users[c].(phase := GotPerm(s.users[c].phase.from, s.k.envs[c].perm))])
    case ReadValue =>
      var c := s.k.cur.value;
      var u := s.users[c];
      var msg := Msg(u.phase.from, s.k.envs[c].value, u.phase.perm);
      s.(users := s.users[c := User(Idle, u.accepted, u.received + [msg])])
  }

  /* ---- What each kernel entry does to the message fields ---- */

  predicate SameMessage(v: Env, w: Env)
  {
    v.recving == w.recving && v.from == w.from && v.value == w.value && v.perm == w.perm
  }

  ghost predicate MessagesSame(k: State, k': State)
    requires Shaped(k) && Shaped(k')
  {
    forall e: nat :: Live(k', e) ==> Live(k, e) && SameMessage(k.envs[e], k'.envs[e])
  }

  lemma PickSame(k: State)
    requires Shaped(k) && Pick(k).Done?
    ensures MessagesSame(k, Pick(k).k)
  {
  }

  lemma ScheduleSame(k: State, y: bool)
    requires Shaped(k) && (k.cur.Some? ==> k.cur.value < NENV) && Schedule(k, y).Done?
    ensures MessagesSame(k, Schedule(k, y).k)
  {
    hide Removed;
  }

  lemma DestroySame(k: State, envid: nat)
    requires Inv(k) && Enabled(k, Destroy(envid)) && Step(k, Destroy(envid)).Done?
    ensures MessagesSame(k, Step(k, Destroy(envid)).k)
  {
    HeadsOk(k);
    OnlySelfIsDestroyed(k, envid);
    hide Inv, Removed, ClearBit, EnvId2Env, Schedule;
    if EnvId2Env(k, envid, 1).Some? {
      var k1 := EnvFree(k, k.cur.value).(cur := None);
      ScheduleSame(k1, true);
    }
  }

  lemma StatusSame(k: State, envid: nat, status: nat)
    requires Inv(k) && InSyscall(k)
    ensures MessagesSame(k, SetEnvStatus(k, envid, status).k)
  {
    hide AsidsOk, IdsOk, ListsOk, Removed;
    LookupFindsLive(k, envid, k.envs[k.cur.value].id);
  }

  /** A fork gives one new env, which waits for no message. */
  lemma ForkMessages(s: System)
    requires SystemInv(s) && Possible(s, Kernel(Fork))
    ensures var k' := Step(s.k, Fork).k;
            Inv(k') && forall e: nat :: Live(k', e) ==> UserOk(k'.envs[e], UsersAfter(s, Fork)[e])
  {
    var k := s.k;
    StepKeeps(k, Fork);
    HeadsOk(k);
    AllocGives(k, k.envs[k.cur.value].id);
    hide FirstClear, SetBit, Test, MkEnvId, AsidsOk, IdsOk, EnvAlloc;
    var k' := Exofork(k).k;
    if k.free != [] {
      assert k.free[0] in k.free;
      assert !k.envs[k.free[0]].recving;
    }
    forall e: nat | Live(k', e) ensures UserOk(k'.envs[e], UsersAfter(s, Fork)[e]) {
      if k'.free == k.free {
        assert Live(k, e) && SameMessage(k.envs[e], k'.envs[e]);
      } else if e != k.free[0] {
        assert Live(k, e);
      }
    }
  }

  lemma ReceiveMessages(s: System, dstva: nat)
    requires SystemInv(s) && Possible(s, Kernel(Receive(dstva)))
    ensures var k' := Step(s.k, Receive(dstva)).k;
            Inv(k') && forall e: nat :: Live(k', e) ==> UserOk(k'.envs[e], UsersAfter(s, Receive(dstva))[e])
  {
    var k, c := s.k, s.k.cur.value;
    StepKeeps(k, Receive(dstva));
    HeadsOk(k);
    CurIsLive(k);
    hide Inv, Removed, Schedule, Pick, IpcRecv, Blocked, UserOk, Enabled;
    if dstva == 0 || !IsIllegalVa(dstva) {
      BlockedThenPicked(k, dstva);
      PickSame(Blocked(k, dstva));
      BlockedMessages(k, Step(k, Receive(dstva)).k, s.users, dstva);
    } else {
      RefusedReceive(k, dstva);
    }
  }

  lemma BlockedMessages(k: State, k': State, users: seq<User>, dstva: nat)
    requires InSyscall(k) && Shaped(k') && |users| == NENV && Live(k, k.cur.value)
    requires forall e: nat :: Live(k, e) ==> UserOk(k.envs[e], users[e])
    requires users[k.cur.value].phase.Idle? && MessagesSame(Blocked(k, dstva), k')
    ensures forall e: nat :: Live(k', e) ==>
              UserOk(k'.envs[e], users[k.cur.value := users[k.cur.value].(phase := Called)][e])
  {
    hide Removed;
    var c, k1 := k.cur.value, Blocked(k, dstva);
    assert UserOk(k.envs[c], users[c]);
    forall e: nat | Live(k', e) ensures UserOk(k'.envs[e], users[c := users[c].(phase := Called)][e]) {
      assert Live(k1, e) && SameMessage(k1.envs[e], k'.envs[e]);
    }
  }

  lemma SendMessages(s: System, envid: nat, value: nat, srcva: nat, perm: bv10, pageResult: int)
    requires SystemInv(s) && Possible(s, Kernel(Send(envid, value, srcva, perm, pageResult)))
    ensures var a := Send(envid, value, srcva, perm, pageResult);
            Inv(Step(s.k, a).k) && forall e: nat ::
              Live(Step(s.k, a).k, e) ==> UserOk(Step(s.k, a).k.envs[e], UsersAfter(s, a)[e])
  {
    var k, a := s.k, Send(envid, value, srcva, perm, pageResult);
    StepKeeps(k, a);
    LookupFindsLive(k, envid, 0);
    hide Inv, EnvId2Env;
    var k', users := Step(k, a).k, UsersAfter(s, a);
    var t := IpcTarget(k, envid, srcva);
    forall e: nat | Live(k', e) ensures UserOk(k'.envs[e], users[e]) {
      assert Live(k, e) && UserOk(k.envs[e], s.users[e]);
      if t == Some(e) {
        MessageAccepted(k.envs[e], k'.envs[e], s.users[e]);
      } else {
        assert SameMessage(k.envs[e], k'.envs[e]) && users[e] == s.users[e];
      }
    }
  }

  /** The receiver was waiting, and has the message now. */
  lemma MessageAccepted(v: Env, w: Env, u: User)
    requires UserOk(v, u) && v.recving && !w.recving
    ensures UserOk(w, u.(accepted := u.accepted + [Msg(w.from, w.value, w.perm)]))
  {
  }

  lemma SystemStepKeeps(s: System, ev: Event)
    requires SystemInv(s) && Possible(s, ev)
    ensures SystemInv(SystemStep(s, ev))
  {
    hide Inv, Schedule, Exofork, SysEnvDestroy, SetEnvStatus, IpcRecv, IpcTrySend, EnvId2Env;
    match ev
    case Kernel(a) =>
      StepKeeps(s.k, a);
      HeadsOk(s.k);
      match a {
        case Yield(y) => ScheduleSame(s.k, y);
        case Fork => ForkMessages(s);
        case Destroy(envid) => DestroySame(s.k, envid);
        case SetStatus(envid, status) => StatusSame(s.k, envid, status);
        case Receive(dstva) => ReceiveMessages(s, dstva);
        case Send(envid, value, srcva, perm, pageResult) => SendMessages(s, envid, value, srcva, perm, pageResult);
      }
    case ReadFrom => CurIsLive(s.k);
    case ReadPerm => CurIsLive(s.k);
    case ReadValue => CurIsLive(s.k);
  }

  /** An env that runs again after its call of sys_ipc_recv can read the three fields one after the other, and has then
      received all that was accepted for it. */
  lemma ReadsDeliver(s: System)
    requires SystemInv(s) && InSyscall(s.k) && s.users[s.k.cur.value].phase.Called?
    ensures Possible(s, ReadFrom) && SystemInv(SystemStep(s, ReadFrom))
    ensures var s1 := SystemStep(s, ReadFrom); Possible(s1, ReadPerm) && SystemInv(SystemStep(s1, ReadPerm))
    ensures var s2 := SystemStep(SystemStep(s, ReadFrom), ReadPerm);
            Possible(s2, ReadValue) && SystemInv(SystemStep(s2, ReadValue))
    ensures var s3 := SystemStep(SystemStep(SystemStep(s, ReadFrom), ReadPerm), ReadValue);
            var u, v := s3.users[s.k.cur.value], s.k.envs[s.k.cur.value];
            && s3.k == s.k && u.phase == Idle && u.accepted == u.received == s.users[s.k.cur.value].accepted
            && u.received == s.users[s.k.cur.value].received + [Msg(v.from, v.value, v.perm)]
  {
    hide Inv, UserOk;
    SystemStepKeeps(s, ReadFrom);
    var s1 := SystemStep(s, ReadFrom);
    SystemStepKeeps(s1, ReadPerm);
    var s2 := SystemStep(s1, ReadPerm);
    SystemStepKeeps(s2, ReadValue);
    CurIsLive(s.k);
    CalledHas(s.k.envs[s.k.cur.value], s.users[s.k.cur.value]);
  }

  lemma CalledHas(v: Env, u: User)
    requires UserOk(v, u) && u.phase.Called? && !v.recving
    ensures u.accepted == u.received + [Msg(v.from, v.value, v.perm)]
  {
  }

  lemma CurIsLive(k: State)
    requires Inv(k) && InSyscall(k)
    ensures Live(k, k.cur.value) && !k.envs[k.cur.value].recving
  {
    assert k.cur.value in k.sched;
  }

  /* ---- Whole runs ---- */

  ghost function NextSystem(s: System, ev: Event): (s': System)
    requires SystemInv(s) && Possible(s, ev)
    ensures SystemInv(s')
  {
    SystemStepKeeps(s, ev); SystemStep(s, ev)
  }

  ghost predicate IsHistory(s: System, evs: seq<Event>)
    requires SystemInv(s)
    decreases |evs|
  {
    evs == [] || (Possible(s, evs[0]) && IsHistory(NextSystem(s, evs[0]), evs[1..]))
  }

  ghost function AfterHistory(s: System, evs: seq<Event>): (s': System)
    requires SystemInv(s) && IsHistory(s, evs)
    ensures SystemInv(s')
    decreases |evs|
  {
    if evs == [] then s else AfterHistory(NextSystem(s, evs[0]), evs[1..])
  }

  /** The messages that the events of a history get accepted for env e after its last allocation. */
  ghost function Accepted(s: System, evs: seq<Event>, e: nat, before: seq<Msg>): seq<Msg>
    requires SystemInv(s) && IsHistory(s, evs) && e < NENV
    decreases |evs|
  {
    if evs == [] then before else Accepted(NextSystem(s, evs[0]), evs[1..], e, AcceptedBy(s, evs[0], e, before))
  }

  /** One event: a send that finds env e receiving adds its message; an allocation starts over. */
  ghost function AcceptedBy(s: System, ev: Event, e: nat, before: seq<Msg>): seq<Msg>
    requires SystemInv(s) && Possible(s, ev) && e < NENV
  {
    match ev
    case Kernel(Send(envid, value, srcva, perm, _)) =>
      if IpcTarget(s.k, envid, srcva) != Some(e) then before else
      before + [Msg(s.k.envs[s.k.cur.value].id, value, perm | Sv39.PTE_V)]
    case Kernel(Fork) =>
      if s.k.free != [] && s.k.free[0] == e && Step(s.k, Fork).k.free != s.k.free then [] else before
    case _ => before
  }

  /** Exactly once: whenever env e is not in the middle of ipc_recv, what it has received is what was
      accepted for it; in the middle, at most the last message is still to be read. */
  lemma {:induction false} ExactlyOnce(s: System, evs: seq<Event>, e: nat)
    requires SystemInv(s) && IsHistory(s, evs) && e < NENV
    ensures var s' := AfterHistory(s, evs);
            var u := s'.users[e];
            && u.accepted == Accepted(s, evs, e, s.users[e].accepted)
            && (Live(s'.k, e) ==> u.received <= u.accepted && |u.accepted| <= |u.received| + 1)
            && (Live(s'.k, e) && u.phase.Idle? ==> u.received == u.accepted)
    decreases |evs|
  {
    hide Inv, Enabled;
    if evs == [] {
      assert Live(s.k, e) ==> UserOk(s.k.envs[e], s.users[e]);
    } else {
      var s1 := NextSystem(s, evs[0]);
      AcceptedGrows(s, evs[0], e);
      ExactlyOnce(s1, evs[1..], e);
    }
  }

  lemma AcceptedGrows(s: System, ev: Event, e: nat)
    requires SystemInv(s) && Possible(s, ev) && e < NENV
    ensures SystemStep(s, ev).users[e].accepted == AcceptedBy(s, ev, e, s.users[e].accepted)
  {
    hide Inv, Enabled, IpcTarget;
    if ev.Kernel? && ev.a.Fork? {
      HeadsOk(s.k);
    }
  }
}
