/** Who holds the two ends of a pipe (user/lib/pipe.c, user/lib/fd.c, user/lib/pageref.c): dup and close
    system call by system call, in any number of processes, and the answer of _pipe_is_closed. */
module PipeEnds {
  import opened Options

  datatype End = ReadEnd | WriteEnd

  function Other(end: End): End { if end.ReadEnd? then WriteEnd else ReadEnd }

  /** Descriptor number fd of a process. */
  datatype Key = Key(env: nat, fd: nat)

  /** What a descriptor number has mapped: the Fd page of one end, and the data page of the pipe. */
  datatype Slot = Slot(end: End, fd: bool, data: bool)

  /** Where a process is: in pipe_close after unmapping the Fd page, in dup after mapping the data page, in
      the loop of _pipe_is_closed, or with its answer. */
  datatype Phase =
    | Idle
    | Closing(n: nat)
    | Dupping(old_: nat, new_: nat)
    | Checking(n: nat, runs: nat, fdRef: Option<nat>, pipeRef: Option<nat>)
    | Answered(n: nat, closed: bool)

  /** runs is env_runs; only process cur executes until the next switch. */
  datatype State = State(slots: map<Key, Slot>, phase: map<nat, Phase>, runs: map<nat, nat>, cur: nat)

  datatype Action =
    | Switch(to: nat)
    | CloseFd(n: nat)
    | CloseData
    | DupData(old_: nat, new_: nat)
    | DupFd
    | Fork(child: nat)
    | Exit
    | CheckStart(n: nat)
    | CheckFd
    | CheckPipe
    | CheckEnd
    | Return

  /* ---- Page reference counts ---- */

  function FdHolders(s: State, end: End): set<Key>
  {
    set k | k in s.slots && s.slots[k].fd && s.slots[k].end == end
  }

  function DataHolders(s: State): set<Key> { set k | k in s.slots && s.slots[k].data }

  /** Descriptors in the middle of dup or close. */
  function HalfOpen(s: State): set<Key> { set k | k in s.slots && s.slots[k].data && !s.slots[k].fd }

  /** pageref of an Fd page and of the pipe page */
  function FdRef(s: State, end: End): nat { |FdHolders(s, end)| }
  function PipeRef(s: State): nat { |DataHolders(s)| }

  /* ---- Steps ---- */

  predicate Holds(s: State, e: nat, n: nat) { Key(e, n) in s.slots && s.slots[Key(e, n)].fd }

  predicate AtRest(s: State, e: nat) { e in s.phase && s.phase[e].Idle? }

  predicate Enabled(s: State, a: Action)
  {
    match a
    case Switch(to) => to in s.phase && to in s.runs
    case CloseFd(n) => AtRest(s, s.cur) && Holds(s, s.cur, n)
    case CloseData => s.cur in s.phase && s.phase[s.cur].Closing?
    case DupData(o, n) => AtRest(s, s.cur) && Holds(s, s.cur, o) && Key(s.cur, n) !in s.slots
    case DupFd => s.cur in s.phase && s.phase[s.cur].Dupping? && Key(s.cur, s.phase[s.cur].new_) in s.slots
    case Fork(c) => AtRest(s, s.cur) && c !in s.phase
    case Exit => AtRest(s, s.cur)
    case CheckStart(n) => AtRest(s, s.cur) && Holds(s, s.cur, n) && s.cur in s.runs
    case CheckFd => s.cur in s.phase && s.phase[s.cur].Checking? && s.phase[s.cur].fdRef == None
      && Holds(s, s.cur, s.phase[s.cur].n)
    case CheckPipe => s.cur in s.phase && s.phase[s.cur].Checking? && s.phase[s.cur].fdRef.Some?
      && s.phase[s.cur].pipeRef == None
    case CheckEnd => s.cur in s.phase && s.phase[s.cur].Checking? && s.phase[s.cur].pipeRef.Some? && s.cur in s.runs
    case Return => s.cur in s.phase && s.phase[s.cur].Answered?
  }

  function SetPhase(s: State, p: Phase): State { s.(phase := s.phase[s.cur := p]) }

  /** The descriptors of process e, for its child c: PTE_LIBRARY pages are the same pages in both. */
  function Copied(s: State, e: nat, c: nat): (r: map<Key, Slot>)
    ensures forall k :: k in r <==> k.env == c && Key(e, k.fd) in s.slots
    ensures forall k :: k in r ==> r[k] == s.slots[Key(e, k.fd)]
  {
    var r := map k | k in s.slots && k.env == e :: Key(c, k.fd) := s.slots[k];
    assert forall k :: k in s.slots && k.env == e ==> k == Key(e, k.fd) && Key(c, k.fd) in r;
    r
  }

  function Step(s: State, a: Action): State
    requires Enabled(s, a)
  {
    var e := s.cur;
    match a
    case Switch(to) => s.(cur := to, runs := s.runs[to := s.runs[to] + 1])
    case CloseFd(n) => SetPhase(s.(slots := s.slots[Key(e, n) := s.slots[Key(e, n)].(fd := false)]), Closing(n))
    case CloseData => SetPhase(s.(slots := s.slots - {Key(e, s.phase[e].n)}), Idle)
    case DupData(o, n) =>
      SetPhase(s.(slots := s.slots[Key(e, n) := Slot(s.slots[Key(e, o)].end, false, true)]), Dupping(o, n))
    case DupFd =>
      var k := Key(e, s.phase[e].new_);
      SetPhase(s.(slots := s.slots[k := s.slots[k].(fd := true)]), Idle)
    case Fork(c) =>
      s.(slots := s.slots + Copied(s, e, c),
         phase := s.phase[c := Idle], runs := s.runs[c := 0])
    case Exit => State(map k | k in s.slots && k.env != e :: s.slots[k], s.phase - {e}, s.runs, e)
    case CheckStart(n) => SetPhase(s, Checking(n, s.runs[e], None, None))
    case CheckFd => SetPhase(s, s.phase[e].(fdRef := Some(FdRef(s, s.slots[Key(e, s.phase[e].n)].end))))
    case CheckPipe => SetPhase(s, s.phase[e].(pipeRef := Some(PipeRef(s))))
    case CheckEnd =>
      var p := s.phase[e];
      if p.runs == s.runs[e] then SetPhase(s, Answered(p.n, p.fdRef == p.pipeRef))
      else SetPhase(s, Checking(p.n, s.runs[e], None, None))
    case Return => SetPhase(s, Idle)
  }

  /* ---- The invariant ---- */

  ghost predicate SlotsOk(s: State)
  {
    forall k :: k in s.slots ==>
      && k.env in s.phase && s.slots[k].data
      && (!s.slots[k].fd ==>
            s.phase[k.env] == Closing(k.fd) || (s.phase[k.env].Dupping? && s.phase[k.env].new_ == k.fd))
  }

  ghost predicate PhaseOk(s: State, e: nat)
    requires e in s.phase
  {
    match s.phase[e]
    case Idle => true
    case Closing(n) => Key(e, n) in s.slots && !s.slots[Key(e, n)].fd
    case Dupping(o, n) =>
      && Holds(s, e, o) && Key(e, n) in s.slots && !s.slots[Key(e, n)].fd
      && s.slots[Key(e, n)].end == s.slots[Key(e, o)].end
    case Checking(n, r, fdRef, pipeRef) =>
      && Holds(s, e, n) && e in s.runs && r <= s.runs[e]
      // An unchanged env_runs means that no other process has run since.
      && (s.cur == e && r == s.runs[e] ==>
            (fdRef.Some? ==> fdRef.value == FdRef(s, s.slots[Key(e, n)].end))
              && (pipeRef.Some? ==> pipeRef.value == PipeRef(s)))
    case Answered(n, closed) =>
      Holds(s, e, n) && (closed ==> FdRef(s, Other(s.slots[Key(e, n)].end)) == 0)
  }

  ghost predicate Inv(s: State)
  {
    SlotsOk(s) && forall e :: e in s.phase ==> PhaseOk(s, e)
  }

  /** Each descriptor holds its data page first and longest, so the pipe page has at least as many
      references as the two Fd pages together; the rest are descriptors in the middle of dup or close. */
  lemma PipeRefs(s: State)
    requires Inv(s)
    ensures PipeRef(s) == FdRef(s, ReadEnd) + FdRef(s, WriteEnd) + |HalfOpen(s)|
    ensures PipeRef(s) >= FdRef(s, ReadEnd) + FdRef(s, WriteEnd)
  {
    var r, w, h := FdHolders(s, ReadEnd), FdHolders(s, WriteEnd), HalfOpen(s);
    assert DataHolders(s) == r + w + h;
    assert r !! w && (r + w) !! h;
  }

  /** The answer "closed" of an undisturbed check means that nobody holds the other end; and it is given
      exactly when, besides, no descriptor is half open. */
  lemma ClosedMeansNoHolder(s: State)
    requires Inv(s) && Enabled(s, CheckEnd)
    requires s.phase[s.cur].runs == s.runs[s.cur] && s.phase[s.cur].fdRef.Some?
    ensures Step(s, CheckEnd).phase[s.cur].Answered?
    ensures var end := s.slots[Key(s.cur, s.phase[s.cur].n)].end;
            Step(s, CheckEnd).phase[s.cur].closed <==> FdRef(s, Other(end)) == 0 && HalfOpen(s) == {}
  {
    PipeRefs(s);
    assert PhaseOk(s, s.cur);
    hide FdRef, PipeRef, FdHolders, DataHolders;
  }

  /* ---- What the calls do ---- */

  /** A whole dup makes the new descriptor the same as the old one. */
  lemma DupGives(s: State, o: nat, n: nat)
    requires Inv(s) && AtRest(s, s.cur) && Holds(s, s.cur, o) && Key(s.cur, n) !in s.slots
    ensures Enabled(s, DupData(o, n)) && Enabled(Step(s, DupData(o, n)), DupFd)
    ensures var s' := Step(Step(s, DupData(o, n)), DupFd);
            && s'.slots == s.slots[Key(s.cur, n) := s.slots[Key(s.cur, o)]] && AtRest(s', s.cur)
    ensures var end := s.slots[Key(s.cur, o)].end;
            && FdRef(Step(s, DupData(o, n)), end) == FdRef(s, end)
            && FdRef(Step(Step(s, DupData(o, n)), DupFd), end) == FdRef(s, end) + 1
  {
    var k, end := Key(s.cur, n), s.slots[Key(s.cur, o)].end;
    var s1 := Step(s, DupData(o, n));
    var s2 := Step(s1, DupFd);
    assert FdHolders(s1, end) == FdHolders(s, end);
    assert FdHolders(s2, end) == FdHolders(s, end) + {k};
  }

  /** A whole close takes the descriptor away and nothing else; the other end is seen as it was. */
  lemma CloseGives(s: State, n: nat)
    requires Inv(s) && AtRest(s, s.cur) && Holds(s, s.cur, n)
    ensures Enabled(s, CloseFd(n)) && Enabled(Step(s, CloseFd(n)), CloseData)
    ensures var s' := Step(Step(s, CloseFd(n)), CloseData);
            && s'.slots == s.slots - {Key(s.cur, n)} && AtRest(s', s.cur)
    ensures var s', end := Step(Step(s, CloseFd(n)), CloseData), s.slots[Key(s.cur, n)].end;
            FdRef(s', end) == FdRef(s, end) - 1 && FdRef(s', Other(end)) == FdRef(s, Other(end))
  {
    var k, end := Key(s.cur, n), s.slots[Key(s.cur, n)].end;
    var s2 := Step(Step(s, CloseFd(n)), CloseData);
    assert FdHolders(s2, end) == FdHolders(s, end) - {k};
    assert FdHolders(s2, Other(end)) == FdHolders(s, Other(end));
  }

  /** fork gives the child exactly the descriptors of its parent; exit takes all of a process away. */
  lemma ForkAndExitGive(s: State, c: nat, k: Key)
    requires Inv(s)
    ensures AtRest(s, s.cur) && c !in s.phase ==>
              Enabled(s, Fork(c)) &&
              var s' := Step(s, Fork(c));
              && (k in s'.slots <==> k in s.slots || (k.env == c && Key(s.cur, k.fd) in s.slots))
              && (k in s'.slots ==> s'.slots[k] == s.slots[if k.env == c then Key(s.cur, k.fd) else k])
    ensures AtRest(s, s.cur) ==>
              Enabled(s, Exit) &&
              var s' := Step(s, Exit);
              (k in s'.slots <==> k in s.slots && k.env != s.cur) && (k in s'.slots ==> s'.slots[k] == s.slots[k])
  {
    assert k in s.slots ==> k.env in s.phase;
    hide FdRef, PipeRef;
  }

  /* ---- Once closed, always closed ---- */

  /** No step opens an end that nobody holds: dup and fork start from a descriptor that is open. */
  lemma ClosedStays(s: State, a: Action, end: End)
    requires Inv(s) && Enabled(s, a) && FdRef(s, end) == 0
    ensures FdRef(Step(s, a), end) == 0
  {
    NoHolders(s, end);
    var s' := Step(s, a);
    if s.cur in s.phase {
      assert PhaseOk(s, s.cur);
    }
    hide FdRef, PipeRef;
    assert FdHolders(s', end) == {};
  }

  lemma NoHolders(s: State, end: End)
    requires FdRef(s, end) == 0
    ensures forall k :: k in s.slots && s.slots[k].fd ==> s.slots[k].end != end
  {
    forall k | k in s.slots && s.slots[k].fd ensures s.slots[k].end != end {
      assert k !in FdHolders(s, end);
    }
  }

  /* ---- Every step keeps the invariant ---- */

  lemma SlotsStay(s: State, a: Action)
    requires Inv(s) && Enabled(s, a)
    ensures SlotsOk(Step(s, a))
  {
    hide FdRef, PipeRef;
    if s.cur in s.phase {
      assert PhaseOk(s, s.cur);
    }
    if a.Fork? {
      ForkSlots(s, a.child);
    }
  }

  lemma ForkSlots(s: State, c: nat)
    requires Inv(s) && Enabled(s, Fork(c))
    ensures SlotsOk(Step(s, Fork(c)))
  {
    hide FdRef, PipeRef;
    var s' := Step(s, Fork(c));
    forall k | k in s'.slots
      ensures k.env in s'.phase && s'.slots[k].data
      ensures !s'.slots[k].fd ==>
                s'.phase[k.env] == Closing(k.fd) || (s'.phase[k.env].Dupping? && s'.phase[k.env].new_ == k.fd) {
      if k.env == c {
        assert s'.slots[k] == s.slots[Key(s.cur, k.fd)];
      }
    }
  }

  /** The process that moves. */
  lemma OwnPhase(s: State, a: Action)
    requires Inv(s) && Enabled(s, a) && !a.Switch? && !a.CheckEnd?
    ensures s.cur in Step(s, a).phase ==> PhaseOk(Step(s, a), s.cur)
  {
    assert PhaseOk(s, s.cur);
    match a
    case CheckFd => SameCounts(s, Step(s, a));
    case CheckPipe => SameCounts(s, Step(s, a));
    case _ =>
      hide FdRef, PipeRef;
  }

  lemma SameCounts(s: State, s': State)
    requires s'.slots == s.slots
    ensures forall end :: FdRef(s', end) == FdRef(s, end)
    ensures PipeRef(s') == PipeRef(s)
  {
    assert forall end :: FdHolders(s', end) == FdHolders(s, end);
    assert DataHolders(s') == DataHolders(s);
  }

  lemma CheckEndPhase(s: State)
    requires Inv(s) && Enabled(s, CheckEnd)
    ensures PhaseOk(Step(s, CheckEnd), s.cur)
  {
    assert PhaseOk(s, s.cur);
    SameCounts(s, Step(s, CheckEnd));
    PipeRefs(s);
    hide FdRef, PipeRef, HalfOpen;
  }

  /** The descriptors of the other processes stay as they are. */
  lemma OthersKeepSlots(s: State, a: Action, e: nat)
    requires Inv(s) && Enabled(s, a) && e in s.phase && e != s.cur
    ensures forall n :: Key(e, n) in Step(s, a).slots <==> Key(e, n) in s.slots
    ensures forall n :: Key(e, n) in s.slots ==> Step(s, a).slots[Key(e, n)] == s.slots[Key(e, n)]
    ensures e in Step(s, a).phase && Step(s, a).phase[e] == s.phase[e]
    ensures a.Switch? || Step(s, a).cur == s.cur
    ensures e in s.runs ==>
              && e in Step(s, a).runs
              && (Step(s, a).runs[e] == s.runs[e] || (a == Switch(e) && Step(s, a).runs[e] == s.runs[e] + 1))
  {
    hide FdRef, PipeRef;
  }

  lemma OtherPhase(s: State, a: Action, e: nat)
    requires Inv(s) && Enabled(s, a) && e in s.phase && e != s.cur
    ensures PhaseOk(Step(s, a), e)
  {
    OthersKeepSlots(s, a, e);
    assert PhaseOk(s, e);
    if s.phase[e].Answered? && s.phase[e].closed {
      ClosedStays(s, a, Other(s.slots[Key(e, s.phase[e].n)].end));
    }
    hide FdRef, PipeRef, Step;
    if a.Switch? {
      SwitchRuns(s, a.to);
    }
  }

  lemma SwitchRuns(s: State, to: nat)
    requires Enabled(s, Switch(to))
    ensures var s' := Step(s, Switch(to));
            s'.cur == to && s'.runs[to] == s.runs[to] + 1 && s'.slots == s.slots && s'.phase == s.phase
  {
  }

  lemma SwitchPhase(s: State, to: nat)
    requires Inv(s) && Enabled(s, Switch(to)) && s.cur in s.phase
    ensures PhaseOk(Step(s, Switch(to)), s.cur)
  {
    assert PhaseOk(s, s.cur);
    SameCounts(s, Step(s, Switch(to)));
    hide FdRef, PipeRef;
  }

  lemma ChildPhase(s: State, c: nat)
    requires Enabled(s, Fork(c))
    ensures PhaseOk(Step(s, Fork(c)), c)
  {
  }

  lemma StepKeeps(s: State, a: Action)
    requires Inv(s) && Enabled(s, a)
    ensures Inv(Step(s, a))
  {
    SlotsStay(s, a);
    forall e | e in Step(s, a).phase ensures PhaseOk(Step(s, a), e) {
      if e in s.phase && e != s.cur {
        OtherPhase(s, a, e);
      } else if e !in s.phase {
        assert a.Fork? && e == a.child;
        ChildPhase(s, e);
      } else if a.Switch? {
        SwitchPhase(s, a.to);
      } else if a.CheckEnd? {
        CheckEndPhase(s);
      } else {
        OwnPhase(s, a);
      }
    }
  }

  /* ---- Runs ---- */

  predicate IsRun(s: State, acts: seq<Action>)
    decreases |acts|
  {
    acts == [] || (Enabled(s, acts[0]) && IsRun(Step(s, acts[0]), acts[1..]))
  }

  function After(s: State, acts: seq<Action>): State
    requires IsRun(s, acts)
    decreases |acts|
  {
    if acts == [] then s else After(Step(s, acts[0]), acts[1..])
  }

  /** A pipe that process e has just created, with read end n and write end m. */
  function Created(e: nat, n: nat, m: nat): State
  {
    State(map[Key(e, n) := Slot(ReadEnd, true, true), Key(e, m) := Slot(WriteEnd, true, true)], map[e := Idle],
          map[e := 0], e)
  }

  /** In every run from the creation of a pipe: an answer "closed" that a process has was right when it was
      given and is right for ever after. */
  lemma {:induction false} ClosedIsRight(s: State, acts: seq<Action>, d: nat)
    requires Inv(s) && IsRun(s, acts)
    ensures Inv(After(s, acts))
    ensures var s' := After(s, acts);
            d in s'.phase && s'.phase[d].Answered? && s'.phase[d].closed ==>
              Key(d, s'.phase[d].n) in s'.slots && FdRef(s', Other(s'.slots[Key(d, s'.phase[d].n)].end)) == 0
    decreases |acts|
  {
    hide FdRef, PipeRef, Step, Enabled;
    if acts == [] {
      assert d in s.phase ==> PhaseOk(s, d);
    } else {
      StepKeeps(s, acts[0]);
      ClosedIsRight(Step(s, acts[0]), acts[1..], d);
    }
  }

  lemma CreatedIsOk(e: nat, n: nat, m: nat)
    requires n != m
    ensures Inv(Created(e, n, m))
    ensures FdRef(Created(e, n, m), ReadEnd) == 1 && FdRef(Created(e, n, m), WriteEnd) == 1
            && PipeRef(Created(e, n, m)) == 2
  {
    var s := Created(e, n, m);
    assert FdHolders(s, ReadEnd) == {Key(e, n)};
    assert FdHolders(s, WriteEnd) == {Key(e, m)};
    assert DataHolders(s) == {Key(e, n), Key(e, m)};
  }

  /** An undisturbed check, as one step. */
  function Check(s: State, n: nat): State
    requires AtRest(s, s.cur) && Holds(s, s.cur, n) && s.cur in s.runs
  {
    hide FdRef, PipeRef;
    Step(Step(Step(Step(s, CheckStart(n)), CheckFd), CheckPipe), CheckEnd)
  }

  lemma CheckGives(s: State, n: nat)
    requires AtRest(s, s.cur) && Holds(s, s.cur, n) && s.cur in s.runs
    ensures var s1 := Check(s, n);
            && s1.slots == s.slots && s.cur in s1.phase
            && s1.phase[s.cur] == Answered(n, FdRef(s, s.slots[Key(s.cur, n)].end) == PipeRef(s))
  {
    var s2 := Step(s, CheckStart(n));
    SameCounts(s, s2);
    SameCounts(s, Step(s2, CheckFd));
    hide FdRef, PipeRef;
  }

  predicate AllHeld(s: State, e: nat, fds: set<nat>)
  {
    forall n :: n in fds ==> Key(e, n) in s.slots && s.slots[Key(e, n)].fd
  }

  /** A fork taken apart: of the descriptors of process e, those in fds have their Fd page in child c already, and
      those in datas their data page as well. */
  function PartFork(s: State, e: nat, c: nat, fds: set<nat>, datas: set<nat>): (s': State)
    requires AllHeld(s, e, fds)
    ensures forall k :: k in s'.slots <==> k in s.slots || (k.env == c && k.fd in fds)
    ensures forall k :: k in s'.slots ==>
              s'.slots[k] == if k.env == c && k.fd in fds then Slot(s.slots[Key(e, k.fd)].end, true, k.fd in datas)
                else s.slots[k]
    ensures s'.phase == s.phase && s'.runs == s.runs && s'.cur == s.cur
  {
    var new_ := map n | n in fds :: Key(c, n) := Slot(s.slots[Key(e, n)].end, true, n in datas);
    assert forall n :: n in fds ==>
      Key(c, n) in new_ && new_[Key(c, n)] == Slot(s.slots[Key(e, n)].end, true, n in datas);
    s.(slots := s.slots + new_)
  }

  /** Descriptors that have their Fd page only. */
  function FdOnly(s: State): set<Key> { set k | k in s.slots && s.slots[k].fd && !s.slots[k].data }

  /** The pipe page lacks a reference for each of them. */
  lemma PartRefs(s: State)
    requires forall k :: k in s.slots ==> s.slots[k].fd || s.slots[k].data
    ensures PipeRef(s) + |FdOnly(s)| == FdRef(s, ReadEnd) + FdRef(s, WriteEnd) + |HalfOpen(s)|
  {
    var r, w, h, d, o := FdHolders(s, ReadEnd), FdHolders(s, WriteEnd), HalfOpen(s), DataHolders(s), FdOnly(s);
    assert d + o == r + w + h;
    assert d !! o && r !! w && (r + w) !! h;
  }

  /** The child's descriptors that do not have their data page yet. */
  function Missing(c: nat, fds: set<nat>, datas: set<nat>): set<Key>
  {
    set m | m in fds && m !in datas :: Key(c, m)
  }

  lemma PartForkSets(s: State, e: nat, c: nat, fds: set<nat>, datas: set<nat>)
    requires Inv(s) && c !in s.phase && AllHeld(s, e, fds)
    ensures var s0 := PartFork(s, e, c, fds, datas);
            && (forall k :: k in s0.slots ==> s0.slots[k].fd || s0.slots[k].data)
            && FdOnly(s0) == Missing(c, fds, datas) && HalfOpen(s0) == HalfOpen(s)
            && forall k :: k in s.slots ==> k in s0.slots && s0.slots[k] == s.slots[k]
  {
    var s0 := PartFork(s, e, c, fds, datas);
    hide PartFork;
    assert forall k :: k in s.slots ==> k.env != c && s.slots[k].data;
    forall k ensures k in FdOnly(s0) <==> k.env == c && k.fd in fds && k.fd !in datas {
    }
  }

  /** What an undisturbed check answers, whatever pages the descriptors have. */
  lemma CheckIf(s: State, n: nat)
    requires (forall k :: k in s.slots ==> s.slots[k].fd || s.slots[k].data)
    requires AtRest(s, s.cur) && Holds(s, s.cur, n) && s.cur in s.runs
    ensures var s1, end := Check(s, n), s.slots[Key(s.cur, n)].end;
            && s.cur in s1.phase && s1.phase[s.cur].Answered? && s1.phase[s.cur].n == n && s1.slots == s.slots
            && FdRef(s1, Other(end)) == FdRef(s, Other(end))
            && (s1.phase[s.cur].closed <==> FdRef(s, Other(end)) + |HalfOpen(s)| == |FdOnly(s)|)
  {
    PartRefs(s);
    CheckGives(s, n);
    SameCounts(s, Check(s, n));
    hide Check, FdRef, PipeRef, HalfOpen, FdOnly;
  }

  /** fork maps the child's Fd pages before the data pages. In the middle of that, an undisturbed check answers
      "closed" exactly if as many descriptors lack their data page as there are holders of the other end and
      half-open descriptors; the answer is wrong exactly if somebody holds the other end besides. */
  lemma PartForkCheck(s: State, n: nat, e: nat, c: nat, fds: set<nat>, datas: set<nat>)
    requires Inv(s) && c !in s.phase && AllHeld(s, e, fds)
    requires AtRest(s, s.cur) && Holds(s, s.cur, n) && s.cur in s.runs
    ensures var s0 := PartFork(s, e, c, fds, datas);
            var s1, end := Check(s0, n), s.slots[Key(s.cur, n)].end;
            var missing := |Missing(c, fds, datas)|;
            && s.cur in s1.phase && s1.phase[s.cur].Answered? && s1.phase[s.cur].n == n
            && FdRef(s1, Other(end)) == FdRef(s0, Other(end))
            && (s1.phase[s.cur].closed <==> FdRef(s1, Other(end)) + |HalfOpen(s)| == missing)
            && (s1.phase[s.cur].closed && FdRef(s1, Other(end)) > 0 <==>
                0 < FdRef(s1, Other(end)) == missing - |HalfOpen(s)|)
  {
    var s0 := PartFork(s, e, c, fds, datas);
    PartForkSets(s, e, c, fds, datas);
    hide PartFork, Check, FdRef, PipeRef, HalfOpen, FdOnly, Missing;
    CheckIf(s0, n);
  }

  /** So fork must count as one step: with one writer left, the child's read end alone makes the two counts of
      a reader equal, and the answer is "closed" although the writer is there. */
  lemma ForkFdFirst(s: State, n: nat, c: nat)
    requires Inv(s) && HalfOpen(s) == {} && FdRef(s, WriteEnd) == 1 && c !in s.phase
    requires AtRest(s, s.cur) && Holds(s, s.cur, n) && s.slots[Key(s.cur, n)].end == ReadEnd && s.cur in s.runs
    ensures var s1 := Check(PartFork(s, s.cur, c, {n}, {}), n);
            s.cur in s1.phase && s1.phase[s.cur] == Answered(n, true) && FdRef(s1, WriteEnd) == 1
  {
    PartForkCheck(s, n, s.cur, c, {n}, {});
    SameWriters(s, n, c);
    assert Missing(c, {n}, {}) == {Key(c, n)};
    hide Check, PartFork, FdRef, HalfOpen;
  }

  lemma SameWriters(s: State, n: nat, c: nat)
    requires Inv(s) && c !in s.phase && Holds(s, s.cur, n) && s.slots[Key(s.cur, n)].end == ReadEnd
    ensures FdRef(PartFork(s, s.cur, c, {n}, {}), WriteEnd) == FdRef(s, WriteEnd)
  {
    var s0 := PartFork(s, s.cur, c, {n}, {});
    hide PartFork;
    assert forall k :: k in s.slots ==> k.env != c;
    assert FdHolders(s0, WriteEnd) == FdHolders(s, WriteEnd);
  }

  /* ---- Descriptor numbers ---- */

  const MAXFD: nat := 32
  const E_MAX_OPEN: int := 9

  /** fd_alloc: the smallest number whose Fd page is not mapped. The loop stops one short of MAXFD, so the
      last number is never given out. */
  method FdAlloc(mapped: seq<bool>) returns (r: int, fdno: nat)
    requires |mapped| == MAXFD
    ensures r == 0 ==> fdno < MAXFD - 1 && !mapped[fdno] && forall i :: 0 <= i < fdno ==> mapped[i]
    ensures r != 0 ==> r == -E_MAX_OPEN && forall i :: 0 <= i < MAXFD - 1 ==> mapped[i]
  {
    fdno := 0;
    while fdno < MAXFD - 1
      invariant fdno <= MAXFD - 1 && forall i :: 0 <= i < fdno ==> mapped[i]
    {
      if !mapped[fdno] {
        return 0, fdno;
      }
      fdno := fdno + 1;
    }
    return -E_MAX_OPEN, 0;
  }
}
