/** A pipe in use: a process that runs pipe_read and a process that runs pipe_write, interleaved with each
    other and with all that module PipeEnds lets any process do to the descriptors (user/lib/pipe.c).

    The test of a loop, the move of a byte with its index wrap, and each page reference count that is read
    are single steps; the running process can be switched between any two. */
module PipeRun {
  import E = PipeEnds
  import opened Options
  import opened PipeRing

  /** Where a process is in pipe_read or pipe_write, with the number of bytes moved so far: before the test
      of the loop; past the test; asking whether the pipe is closed, or with the answer; or back, because
      the pipe was closed. */
  datatype Side = Out | Test(count: nat) | May(count: nat) | Ask(count: nat) | Ended(count: nat)

  /** reader has the read end rn of the pipe and writer the write end wn. written and taken are all bytes
      moved so far; since is what was written since the reader last found the buffer empty. */
  datatype State = State(ends: E.State, ring: Ring, reader: nat, rn: nat, writer: nat, wn: nat,
                         reading: Side, writing: Side, written: seq<bv8>, taken: seq<bv8>, since: seq<bv8>)

  datatype Action =
    | Ends(a: E.Action)
    | StartRead
    | TestRead
    | MoveRead
    | FinishRead
    | StartWrite
    | TestWrite
    | MoveWrite(b: bv8)
    | FinishWrite

  predicate Busy(p: Side) { p.Test? || p.May? || p.Ask? }

  /** The steps of _pipe_is_closed on descriptor n. */
  predicate IsCheck(a: E.Action, n: nat)
  {
    match a
    case CheckStart(m) => m == n
    case CheckFd => true
    case CheckPipe => true
    case CheckEnd => true
    case Return => true
    case _ => false
  }

  /** What a process on side p of the pipe may do to descriptors: nothing while it is in the loop, apart from
      asking. */
  predicate Allowed(p: Side, n: nat, a: E.Action)
  {
    match p
    case Ask(_) => IsCheck(a, n)
    case Test(_) => false
    case May(_) => false
    case _ => true
  }

  predicate At(s: State, e: nat) { s.ends.cur == e && E.AtRest(s.ends, e) }

  predicate HasEnd(s: State, e: nat, n: nat, end: E.End)
  {
    E.Holds(s.ends, e, n) && s.ends.slots[E.Key(e, n)].end == end
  }

  predicate Enabled(s: State, a: Action)
  {
    match a
    case Ends(x) =>
      && E.Enabled(s.ends, x)
      && (x.Switch? || ((s.ends.cur == s.reader ==> Allowed(s.reading, s.rn, x))
                        && (s.ends.cur == s.writer ==> Allowed(s.writing, s.wn, x))))
    case StartRead => At(s, s.reader) && !Busy(s.reading) && HasEnd(s, s.reader, s.rn, E.ReadEnd)
    case TestRead => At(s, s.reader) && s.reading.Test?
    case MoveRead => At(s, s.reader) && s.reading.May?
    case FinishRead => At(s, s.reader) && s.reading.Test?
    case StartWrite => At(s, s.writer) && !Busy(s.writing) && HasEnd(s, s.writer, s.wn, E.WriteEnd)
    case TestWrite => At(s, s.writer) && s.writing.Test?
    case MoveWrite(_) => At(s, s.writer) && s.writing.May?
    case FinishWrite => At(s, s.writer) && s.writing.Test?
  }

  /** The answer of _pipe_is_closed: leave the loop, or yield and test again. */
  function Answered(p: Side, closed: bool): Side
  {
    if !p.Ask? then p else if closed then Ended(p.count) else Test(p.count)
  }

  function EndsStep(s: State, x: E.Action): State
    requires E.Enabled(s.ends, x)
  {
    var s1 := s.(ends := E.Step(s.ends, x));
    if !x.Return? then s1 else
    var closed := s.ends.phase[s.ends.cur].closed;
    if s.ends.cur == s.reader then s1.(reading := Answered(s.reading, closed))
    else if s.ends.cur == s.writer then s1.(writing := Answered(s.writing, closed))
    else s1
  }

  function Step(s: State, a: Action): State
    requires Valid(s.ring) && Enabled(s, a)
  {
    match a
    case Ends(x) => EndsStep(s, x)
    case StartRead => s.(reading := Test(0))
    case TestRead =>
      if IsEmpty(s.ring) then s.(reading := Ask(s.reading.count), since := []) else s.(reading := May(s.reading.count))
    case MoveRead =>
      s.(ring := Take(s.ring), taken := s.taken + [s.ring.buf[s.ring.rpos]], reading := Test(s.reading.count + 1))
    case FinishRead => s.(reading := Out)
    case StartWrite => s.(writing := Test(0))
    case TestWrite => s.(writing := if IsFull(s.ring) then Ask(s.writing.count) else May(s.writing.count))
    case MoveWrite(b) =>
      s.(ring := Put(s.ring, b), written := s.written + [b], since := s.since + [b],
         writing := Test(s.writing.count + 1))
    case FinishWrite => s.(writing := Out)
  }

  /* ---- The invariant ---- */

  /** Nothing is lost, doubled or out of order, and what a test has found still holds. */
  ghost predicate RingOk(s: State)
    ensures RingOk(s) ==> Valid(s.ring)
  {
    && Valid(s.ring) && s.taken + Buffered(s.ring) == s.written
    && (s.reading.May? ==> !IsEmpty(s.ring)) && (s.writing.May? ==> !IsFull(s.ring))
    && (s.reading.Ask? || s.reading.Ended? ==> Buffered(s.ring) == s.since)
  }

  /** A process in the loop has its end of the pipe, and does nothing else than ask about it. */
  ghost predicate SideOk(s: State, e: nat, n: nat, end: E.End, p: Side)
  {
    Busy(p) ==>
      && e in s.ends.phase && HasEnd(s, e, n, end)
      && (match s.ends.phase[e]
          case Idle => true
          case Checking(m, _, _, _) => p.Ask? && m == n
          case Answered(m, _) => p.Ask? && m == n
          case _ => false)
  }

  ghost predicate Inv(s: State)
    ensures Inv(s) ==> Valid(s.ring)
  {
    && RingOk(s) && E.Inv(s.ends) && s.reader != s.writer
    && SideOk(s, s.reader, s.rn, E.ReadEnd, s.reading) && SideOk(s, s.writer, s.wn, E.WriteEnd, s.writing)
    && (s.reading.Ended? ==> E.FdRef(s.ends, E.WriteEnd) == 0)
    && (s.writing.Ended? ==> E.FdRef(s.ends, E.ReadEnd) == 0)
  }

  /* ---- Every step ---- */

  lemma RingStep(s: State, a: Action)
    requires RingOk(s) && Enabled(s, a)
    ensures RingOk(Step(s, a))
  {
    BufferedBytes(s.ring);
    match a
    case Ends(x) =>
      hide Buffered, E.Step, E.Enabled;
    case MoveRead => TakeStep(s);
    case MoveWrite(b) => PutStep(s, b);
    case _ =>
      hide Buffered;
  }

  lemma TakeStep(s: State)
    requires RingOk(s) && Enabled(s, MoveRead)
    ensures RingOk(Step(s, MoveRead))
  {
    TakeDropsFirst(s.ring);
    var first := [s.ring.buf[s.ring.rpos]];
    Associate(s.taken, first, Buffered(Take(s.ring)));
    hide Buffered, Take, IsEmpty, IsFull;
    StaysFull(s.ring);
  }

  /** The reader's move fills nothing. */
  lemma StaysFull(p: Ring)
    requires Valid(p) && !IsEmpty(p)
    ensures !IsFull(p) ==> !IsFull(Take(p))
  {
  }

  /** The writer's move empties nothing. */
  lemma StaysEmpty(p: Ring, b: bv8)
    requires Valid(p) && !IsFull(p)
    ensures !IsEmpty(p) ==> !IsEmpty(Put(p, b))
  {
  }

  lemma PutStep(s: State, b: bv8)
    requires RingOk(s) && Enabled(s, MoveWrite(b))
    ensures RingOk(Step(s, MoveWrite(b)))
  {
    PutAppends(s.ring, b);
    StaysEmpty(s.ring, b);
    Associate(s.taken, Buffered(s.ring), [b]);
    hide Buffered, Put, IsEmpty, IsFull;
  }

  /** One side, seen by a step on the descriptors. */
  lemma SideStep(s: State, x: E.Action, e: nat, n: nat, end: E.End, p: Side)
    requires E.Inv(s.ends) && E.Enabled(s.ends, x) && SideOk(s, e, n, end, p)
    requires x.Switch? || s.ends.cur != e || Allowed(p, n, x)
    ensures var s' := s.(ends := E.Step(s.ends, x));
            SideOk(s', e, n, end, if x.Return? && s.ends.cur == e then Answered(p, s.ends.phase[e].closed) else p)
  {
    if Busy(p) {
      if s.ends.cur != e {
        E.OthersKeepSlots(s.ends, x, e);
        hide E.Step, E.FdRef, E.PipeRef, E.Inv;
      } else {
        hide E.FdRef, E.PipeRef, E.Inv;
      }
    }
  }

  lemma SidesStep(s: State, a: Action)
    requires Inv(s) && Enabled(s, a)
    ensures var s' := Step(s, a);
            SideOk(s', s.reader, s.rn, E.ReadEnd, s'.reading) && SideOk(s', s.writer, s.wn, E.WriteEnd, s'.writing)
  {
    hide E.FdRef, E.PipeRef, RingOk, E.Inv;
    if a.Ends? {
      SideStep(s, a.a, s.reader, s.rn, E.ReadEnd, s.reading);
      SideStep(s, a.a, s.writer, s.wn, E.WriteEnd, s.writing);
      hide E.Step, E.Enabled;
    } else {
      hide E.Step, E.Enabled, Put, Take, IsEmpty, IsFull;
    }
  }

  /** An answer "closed" means that nobody holds the other end. */
  lemma AnswerIsRight(s: State, e: nat, n: nat, end: E.End, p: Side)
    requires E.Inv(s.ends) && SideOk(s, e, n, end, p) && p.Ask? && e in s.ends.phase && s.ends.phase[e].Answered?
             && s.ends.phase[e].closed
    ensures E.FdRef(s.ends, E.Other(end)) == 0
  {
    assert E.PhaseOk(s.ends, e);
    hide E.FdRef;
  }

  lemma EndedStep(s: State, a: Action)
    requires Inv(s) && Enabled(s, a)
    ensures var s' := Step(s, a);
            (s'.reading.Ended? ==> E.FdRef(s'.ends, E.WriteEnd) == 0)
              && (s'.writing.Ended? ==> E.FdRef(s'.ends, E.ReadEnd) == 0)
  {
    if a.Ends? {
      var x := a.a;
      if x.Return? && s.ends.phase[s.ends.cur].closed {
        if s.ends.cur == s.reader && s.reading.Ask? {
          AnswerIsRight(s, s.reader, s.rn, E.ReadEnd, s.reading);
        } else if s.ends.cur == s.writer && s.writing.Ask? {
          AnswerIsRight(s, s.writer, s.wn, E.WriteEnd, s.writing);
        }
      }
      hide E.FdRef, E.Step, E.Enabled, RingOk, SideOk;
      if E.FdRef(s.ends, E.WriteEnd) == 0 { E.ClosedStays(s.ends, x, E.WriteEnd); }
      if E.FdRef(s.ends, E.ReadEnd) == 0 { E.ClosedStays(s.ends, x, E.ReadEnd); }
    } else {
      hide E.FdRef, E.Step, E.Enabled, RingOk, SideOk, Put, Take;
    }
  }

  lemma StepKeeps(s: State, a: Action)
    requires Inv(s) && Enabled(s, a)
    ensures Inv(Step(s, a))
  {
    RingStep(s, a);
    SidesStep(s, a);
    EndedStep(s, a);
    if a.Ends? { E.StepKeeps(s.ends, a.a); }
    hide RingOk, SideOk, E.Inv, E.FdRef, E.Step, E.Enabled, Put, Take, IsEmpty, IsFull;
  }

  /** A pipe that process e has just created. */
  lemma FreshIsOk(e: nat, n: nat, m: nat, writer: nat)
    requires n != m && e != writer
    ensures Inv(State(E.Created(e, n, m), Ring(0, 0, seq(BY2PIPE, _ => 0)), e, n, writer, m, Out, Out, [], [], []))
  {
    E.CreatedIsOk(e, n, m);
  }

  /* ---- Runs ---- */

  ghost predicate IsRun(s: State, acts: seq<Action>)
    requires Inv(s)
    decreases |acts|
  {
    acts == [] || (Enabled(s, acts[0]) && IsRun(Next(s, acts[0]), acts[1..]))
  }

  ghost function Next(s: State, a: Action): (s': State)
    requires Inv(s) && Enabled(s, a)
    ensures Inv(s')
  {
    StepKeeps(s, a); Step(s, a)
  }

  ghost function After(s: State, acts: seq<Action>): (s': State)
    requires Inv(s) && IsRun(s, acts)
    ensures Inv(s')
    decreases |acts|
  {
    if acts == [] then s else After(Next(s, acts[0]), acts[1..])
  }

  function BytesWritten(acts: seq<Action>): seq<bv8>
  {
    if acts == [] then [] else (if acts[0].MoveWrite? then [acts[0].b] else []) + BytesWritten(acts[1..])
  }

  /** First in, first out: in every run of one reader and one writer, whatever else happens to the
      descriptors, the bytes taken and then those in the buffer are the bytes written, in order; at most 31
      are in the buffer, and the indices stay in range. */
  lemma Fifo(s: State, acts: seq<Action>)
    requires Inv(s) && IsRun(s, acts)
    ensures var s' := After(s, acts);
            && Valid(s'.ring) && s'.taken + Buffered(s'.ring) == s'.written
               && s'.written == s.written + BytesWritten(acts)
            && |Buffered(s'.ring)| <= BY2PIPE - 1
  {
    WrittenRun(s, acts);
    BufferedBytes(After(s, acts).ring);
    hide Buffered, After, IsRun, E.Inv, SideOk, BytesWritten, E.FdRef;
  }

  lemma {:induction false} WrittenRun(s: State, acts: seq<Action>)
    requires Inv(s) && IsRun(s, acts)
    ensures After(s, acts).written == s.written + BytesWritten(acts)
    decreases |acts|
  {
    if acts == [] {
      assert s.written + [] == s.written;
    } else {
      WrittenStep(s, acts[0]);
      WrittenRun(Next(s, acts[0]), acts[1..]);
      hide Inv, Step, Enabled;
      Associate(s.written, BytesWritten([acts[0]]), BytesWritten(acts[1..]));
      FirstWritten(acts);
    }
  }

  lemma FirstWritten(acts: seq<Action>)
    requires acts != []
    ensures BytesWritten(acts) == BytesWritten([acts[0]]) + BytesWritten(acts[1..])
  {
    assert [acts[0]][1..] == [];
    var first := if acts[0].MoveWrite? then [acts[0].b] else [];
    assert first + [] == first;
  }

  /** pipe_read in a run: while it goes on, and when it has come back because of a closed pipe, its count is the number
      of bytes that it has taken since it was called. */
  lemma {:induction false} ReadCounts(s: State, acts: seq<Action>)
    requires Inv(s) && IsRun(s, acts) && StartRead !in acts && s.reading != Out
    ensures var s' := After(s, acts);
            && s.taken <= s'.taken
            && (s'.reading != Out ==> s'.reading.count == s.reading.count + |s'.taken| - |s.taken|)
            && (FinishRead in acts ==> s'.reading == Out)
    decreases |acts|
  {
    if acts != [] {
      InRun(acts, StartRead);
      InRun(acts, FinishRead);
      ReadStep(s, acts[0]);
      hide Inv, Enabled, Step;
      if Next(s, acts[0]).reading != Out {
        ReadCounts(Next(s, acts[0]), acts[1..]);
      } else {
        StaysOut(Next(s, acts[0]), acts[1..]);
      }
    }
  }

  /** The same for pipe_write. */
  lemma {:induction false} WriteCounts(s: State, acts: seq<Action>)
    requires Inv(s) && IsRun(s, acts) && StartWrite !in acts && s.writing != Out
    ensures var s' := After(s, acts);
            && s.written <= s'.written
            && (s'.writing != Out ==> s'.writing.count == s.writing.count + |s'.written| - |s.written|)
            && (FinishWrite in acts ==> s'.writing == Out)
    decreases |acts|
  {
    if acts != [] {
      InRun(acts, StartWrite);
      InRun(acts, FinishWrite);
      WriteStep(s, acts[0]);
      hide Inv, Enabled, Step;
      if Next(s, acts[0]).writing != Out {
        WriteCounts(Next(s, acts[0]), acts[1..]);
      } else {
        StaysOutWriting(Next(s, acts[0]), acts[1..]);
      }
    }
  }

  lemma InRun(acts: seq<Action>, a: Action)
    requires acts != []
    ensures a in acts <==> a == acts[0] || a in acts[1..]
  {
  }

  lemma ReadStep(s: State, a: Action)
    requires Inv(s) && Enabled(s, a) && a != StartRead
    ensures var s' := Step(s, a);
            && s.taken <= s'.taken
            && (s.reading != Out && s'.reading != Out ==>
                s'.reading.count - |s'.taken| == s.reading.count - |s.taken|)
            && (s.reading == Out ==> s'.reading == Out && a != FinishRead) && (a == FinishRead ==> s'.reading == Out)
  {
    hide E.Step, E.Enabled, RingOk, SideOk, E.Inv, Put, Take;
  }

  lemma WriteStep(s: State, a: Action)
    requires Inv(s) && Enabled(s, a) && a != StartWrite
    ensures var s' := Step(s, a);
            && s.written <= s'.written
            && (s.writing != Out && s'.writing != Out ==>
                s'.writing.count - |s'.written| == s.writing.count - |s.written|)
            && (s.writing == Out ==> s'.writing == Out && a != FinishWrite) && (a == FinishWrite ==> s'.writing == Out)
  {
    hide E.Step, E.Enabled, RingOk, SideOk, E.Inv, Put, Take;
  }

  lemma {:induction false} StaysOut(s: State, acts: seq<Action>)
    requires Inv(s) && IsRun(s, acts) && StartRead !in acts && s.reading == Out
    ensures After(s, acts).reading == Out && s.taken <= After(s, acts).taken
    decreases |acts|
  {
    if acts != [] {
      InRun(acts, StartRead);
      InRun(acts, FinishRead);
      ReadStep(s, acts[0]);
      hide Inv, Enabled, Step;
      StaysOut(Next(s, acts[0]), acts[1..]);
    }
  }

  lemma {:induction false} StaysOutWriting(s: State, acts: seq<Action>)
    requires Inv(s) && IsRun(s, acts) && StartWrite !in acts && s.writing == Out
    ensures After(s, acts).writing == Out && s.written <= After(s, acts).written
    decreases |acts|
  {
    if acts != [] {
      InRun(acts, StartWrite);
      InRun(acts, FinishWrite);
      WriteStep(s, acts[0]);
      hide Inv, Enabled, Step;
      StaysOutWriting(Next(s, acts[0]), acts[1..]);
    }
  }

  /** pipe_read takes a byte exactly when there is one, the first, and asks whether the pipe is closed otherwise. */
  lemma ReadTestDecides(s: State)
    requires Inv(s)
    ensures At(s, s.reader) && !Busy(s.reading) && HasEnd(s, s.reader, s.rn, E.ReadEnd) ==>
              Enabled(s, StartRead) && Step(s, StartRead).reading == Test(0)
    ensures At(s, s.reader) && s.reading.Test? ==>
              && Enabled(s, TestRead) && Enabled(s, FinishRead)
              && (Step(s, TestRead).reading.May? <==> Buffered(s.ring) != [])
              && (Step(s, TestRead).reading.Ask? <==> Buffered(s.ring) == [])
    ensures At(s, s.reader) && s.reading.May? ==>
              && Enabled(s, MoveRead) && Buffered(s.ring) != []
              && Step(s, MoveRead).taken == s.taken + [Buffered(s.ring)[0]]
              && Buffered(Step(s, MoveRead).ring) == Buffered(s.ring)[1..]
  {
    BufferedBytes(s.ring);
    if s.reading.May? { TakeDropsFirst(s.ring); }
    hide Buffered, E.FdRef, E.Inv, IsEmpty, IsFull, Take, Put;
  }

  /** pipe_write puts a byte exactly when there is room for one, and asks whether the pipe is closed otherwise. */
  lemma WriteTestDecides(s: State, b: bv8)
    requires Inv(s)
    ensures At(s, s.writer) && !Busy(s.writing) && HasEnd(s, s.writer, s.wn, E.WriteEnd) ==>
              Enabled(s, StartWrite) && Step(s, StartWrite).writing == Test(0)
    ensures At(s, s.writer) && s.writing.Test? ==>
              && Enabled(s, TestWrite) && Enabled(s, FinishWrite)
              && (Step(s, TestWrite).writing.May? <==> |Buffered(s.ring)| < BY2PIPE - 1)
              && (Step(s, TestWrite).writing.Ask? <==> |Buffered(s.ring)| == BY2PIPE - 1)
    ensures At(s, s.writer) && s.writing.May? ==>
              && Enabled(s, MoveWrite(b)) && Step(s, MoveWrite(b)).written == s.written + [b]
              && Buffered(Step(s, MoveWrite(b)).ring) == Buffered(s.ring) + [b]
  {
    BufferedBytes(s.ring);
    if s.writing.May? { PutAppends(s.ring, b); }
    hide Buffered, E.FdRef, E.Inv, IsEmpty, IsFull, Take, Put;
  }

  lemma WrittenStep(s: State, a: Action)
    requires Inv(s) && Enabled(s, a)
    ensures Step(s, a).written == s.written + BytesWritten([a])
  {
    hide E.Step, E.Enabled, RingOk, SideOk, E.Inv;
    assert [a][1..] == [];
  }

  /** The end of the stream, in every run: once pipe_read has come back because the pipe was closed, nobody holds
      the write end any more, and what is left in the buffer is exactly what was written between its test
      for an empty buffer and the answer. So it has read the whole stream exactly if that is nothing. */
  lemma {:induction false} EndOfStream(s: State, acts: seq<Action>)
    requires Inv(s) && IsRun(s, acts) && After(s, acts).reading.Ended?
    ensures var s' := After(s, acts);
            && E.FdRef(s'.ends, E.WriteEnd) == 0 && Buffered(s'.ring) == s'.since
            && s'.taken + s'.since == s'.written && (s'.taken == s'.written <==> s'.since == [])
  {
    var s' := After(s, acts);
    assert |s'.taken + s'.since| == |s'.taken| + |s'.since|;
    assert s'.since == [] ==> s'.taken + s'.since == s'.taken;
    hide Buffered, E.FdRef, E.Inv;
  }

  /** Without another test of the reader, since grows by what is written. */
  lemma {:induction false} SinceRun(s: State, acts: seq<Action>)
    requires Inv(s) && IsRun(s, acts) && TestRead !in acts
    ensures After(s, acts).since == s.since + BytesWritten(acts)
    decreases |acts|
  {
    if acts == [] {
      assert s.since + [] == s.since;
    } else {
      assert acts[0] != TestRead;
      SinceStep(s, acts[0]);
      SinceRun(Next(s, acts[0]), acts[1..]);
      hide Inv, Step, Enabled;
      Associate(s.since, BytesWritten([acts[0]]), BytesWritten(acts[1..]));
      FirstWritten(acts);
    }
  }

  lemma SinceStep(s: State, a: Action)
    requires Inv(s) && Enabled(s, a) && a != TestRead
    ensures Step(s, a).since == s.since + BytesWritten([a])
  {
    hide E.Step, E.Enabled, RingOk, SideOk, E.Inv;
    assert [a][1..] == [];
  }

  lemma {:induction false} NothingWritten(acts: seq<Action>)
    ensures BytesWritten(acts) == [] <==> forall a :: a in acts ==> !a.MoveWrite?
  {
    if acts != [] {
      NothingWritten(acts[1..]);
      assert acts == [acts[0]] + acts[1..];
    }
  }

  /** The same as a condition on the run: from the reader's last test for an empty buffer to its coming back because
      of a closed pipe. It has read the stream to its end exactly if no byte is written in between. */
  lemma EndOfStreamIf(s: State, acts: seq<Action>)
    requires Inv(s) && IsRun(s, [TestRead] + acts) && IsEmpty(s.ring) && TestRead !in acts
    requires After(s, [TestRead] + acts).reading.Ended?
    ensures var s' := After(s, [TestRead] + acts);
            s'.taken == s'.written <==> forall a :: a in acts ==> !a.MoveWrite?
  {
    var s1 := Next(s, TestRead);
    assert ([TestRead] + acts)[0] == TestRead && ([TestRead] + acts)[1..] == acts;
    assert s1.since == [];
    EndOfStream(s, [TestRead] + acts);
    hide Inv, Enabled, Step;
    SinceRun(s1, acts);
    assert [] + BytesWritten(acts) == BytesWritten(acts);
    NothingWritten(acts);
  }

  /* ---- The stream that is reported to end too early ---- */

  lemma {:induction false} RunThen(s: State, acts: seq<Action>, more: seq<Action>)
    requires Inv(s) && IsRun(s, acts) && IsRun(After(s, acts), more)
    ensures IsRun(s, acts + more) && After(s, acts + more) == After(After(s, acts), more)
    decreases |acts|
  {
    hide Enabled, Inv, Next;
    if acts == [] {
      assert acts + more == more;
    } else {
      RunThen(Next(s, acts[0]), acts[1..], more);
      assert (acts + more)[1..] == acts[1..] + more;
    }
  }

  lemma RunOne(s: State, a: Action)
    requires Inv(s) && Enabled(s, a)
    ensures IsRun(s, [a]) && After(s, [a]) == Step(s, a)
  {
    hide Enabled, Inv, Step;
    assert [a][1..] == [];
  }

  lemma RunMore(s: State, acts: seq<Action>, a: Action)
    requires Inv(s) && IsRun(s, acts) && Enabled(After(s, acts), a)
    ensures IsRun(s, acts + [a]) && After(s, acts + [a]) == Step(After(s, acts), a)
  {
    RunOne(After(s, acts), a);
    RunThen(s, acts, [a]);
  }

  /** The reader has found the buffer empty and is about to ask whether the pipe is closed; the writer, which
      alone holds the write end, is running. */
  ghost predicate AboutToAsk(s: State)
  {
    && Inv(s) && s.reading.Ask? && IsEmpty(s.ring) && s.ends.phase[s.reader].Idle? && s.reader in s.ends.runs
    && At(s, s.writer) && s.writing.Test?
    && E.FdHolders(s.ends, E.WriteEnd) == {E.Key(s.writer, s.wn)} && E.HalfOpen(s.ends) == {}
  }

  /** The writer writes a byte and leaves pipe_write. */
  lemma WriterWrites(s: State, b: bv8)
    requires AboutToAsk(s)
    ensures var acts := [TestWrite, MoveWrite(b), FinishWrite];
            && IsRun(s, acts)
            && var s' := After(s, acts);
               s'.ends == s.ends && s'.reading == s.reading && s'.writing == Out && s'.taken == s.taken
                 && Buffered(s'.ring) == [b]
  {
    BufferedBytes(s.ring);
    PutAppends(s.ring, b);
    assert [] + [b] == [b];
    hide E.Inv, E.FdHolders, E.HalfOpen, Buffered, Put, SideOk;
    RunOne(s, TestWrite);
    RunMore(s, [TestWrite], MoveWrite(b));
    assert [TestWrite] + [MoveWrite(b)] == [TestWrite, MoveWrite(b)];
    RunMore(s, [TestWrite, MoveWrite(b)], FinishWrite);
    assert [TestWrite, MoveWrite(b)] + [FinishWrite] == [TestWrite, MoveWrite(b), FinishWrite];
  }

  /** The writer closes its end. */
  lemma WriterCloses(s: State, m: nat)
    requires Inv(s) && !Busy(s.writing) && s.reading.Ask? && m == s.wn
    requires At(s, s.writer) && E.Holds(s.ends, s.writer, m) && s.reader in s.ends.runs && s.ends.phase[s.reader].Idle?
    ensures var acts := [Ends(E.CloseFd(m)), Ends(E.CloseData)];
            && IsRun(s, acts)
            && var s' := After(s, acts);
               && s'.(ends := s.ends) == s && s'.ends.slots == s.ends.slots - {E.Key(s.writer, m)}
               && E.AtRest(s'.ends, s.reader) && s.reader in s'.ends.runs
  {
    hide E.FdRef, E.PipeRef, E.HalfOpen, RingOk, E.Inv;
    RunOne(s, Ends(E.CloseFd(m)));
    RunMore(s, [Ends(E.CloseFd(m))], Ends(E.CloseData));
    assert [Ends(E.CloseFd(m))] + [Ends(E.CloseData)] == [Ends(E.CloseFd(m)), Ends(E.CloseData)];
  }

  lemma NobodyLeft(s: E.State, s': E.State, k: E.Key)
    requires s'.slots == s.slots - {k} && E.FdHolders(s, E.WriteEnd) == {k} && E.HalfOpen(s) == {}
    ensures E.FdRef(s', E.WriteEnd) == 0 && E.HalfOpen(s') == {}
  {
    forall x | x in s'.slots ensures !(s'.slots[x].fd && s'.slots[x].end == E.WriteEnd)
        && !(s'.slots[x].data && !s'.slots[x].fd) {
      assert x in E.FdHolders(s, E.WriteEnd) <==> x == k;
      assert x !in E.HalfOpen(s);
    }
    assert E.FdHolders(s', E.WriteEnd) == {};
  }

  /** The reader is switched to and starts to ask. */
  lemma ReaderStartsToAsk(s: State)
    requires Inv(s) && s.reading.Ask? && E.AtRest(s.ends, s.reader) && s.reader in s.ends.runs
    ensures var acts := [Ends(E.Switch(s.reader)), Ends(E.CheckStart(s.rn))];
            && IsRun(s, acts)
            && var s' := After(s, acts);
               && s'.(ends := s.ends) == s && s'.ends.slots == s.ends.slots && s'.ends.cur == s.reader
               && s.reader in s'.ends.runs && s.reader in s'.ends.phase
               && s'.ends.phase[s.reader] == E.Checking(s.rn, s'.ends.runs[s.reader], None, None)
  {
    hide E.FdRef, E.PipeRef, E.HalfOpen, RingOk, E.Inv;
    RunOne(s, Ends(E.Switch(s.reader)));
    RunMore(s, [Ends(E.Switch(s.reader))], Ends(E.CheckStart(s.rn)));
    assert [Ends(E.Switch(s.reader))] + [Ends(E.CheckStart(s.rn))] ==
        [Ends(E.Switch(s.reader)), Ends(E.CheckStart(s.rn))];
  }

  /** Both counts read, on the descriptors alone. */
  lemma CountsRead(s: E.State)
    requires s.cur in s.phase && s.cur in s.runs && s.phase[s.cur].Checking?
             && s.phase[s.cur].fdRef == s.phase[s.cur].pipeRef == None
    requires E.Holds(s, s.cur, s.phase[s.cur].n)
    ensures E.Enabled(s, E.CheckFd) && E.Enabled(E.Step(s, E.CheckFd), E.CheckPipe)
    ensures var s' := E.Step(E.Step(s, E.CheckFd), E.CheckPipe);
            && s'.slots == s.slots && s'.cur == s.cur && s'.runs == s.runs && E.Enabled(s', E.CheckEnd)
            && s'.phase[s.cur].runs == s.phase[s.cur].runs && s'.phase[s.cur].fdRef.Some?
  {
    hide E.FdRef, E.PipeRef;
  }

  /** It reads both counts, undisturbed. */
  lemma ReaderAsks(s: State)
    requires Inv(s) && s.reading.Ask? && s.ends.cur == s.reader && s.reader in s.ends.runs && s.reader in s.ends.phase
    requires s.ends.phase[s.reader] == E.Checking(s.rn, s.ends.runs[s.reader], None, None)
    ensures var acts := [Ends(E.CheckFd), Ends(E.CheckPipe)];
            && IsRun(s, acts)
            && var s' := After(s, acts);
               && s'.(ends := s.ends) == s && s'.ends.slots == s.ends.slots && s'.ends.cur == s.reader
               && E.Enabled(s'.ends, E.CheckEnd) && s'.ends.phase[s.reader].runs == s'.ends.runs[s.reader]
               && s'.ends.phase[s.reader].fdRef.Some?
  {
    hide E.FdRef, E.PipeRef, E.HalfOpen, RingOk, E.Inv;
    CountsRead(s.ends);
    RunOne(s, Ends(E.CheckFd));
    var s1 := Step(s, Ends(E.CheckFd));
    assert s1.ends.cur == s.ends.cur;
    hide E.Step, E.Enabled;
    RunMore(s, [Ends(E.CheckFd)], Ends(E.CheckPipe));
    assert [Ends(E.CheckFd)] + [Ends(E.CheckPipe)] == [Ends(E.CheckFd), Ends(E.CheckPipe)];
  }

  /** The answer is "closed", and pipe_read comes back. */
  lemma ReaderReturns(s: State)
    requires Inv(s) && s.reading.Ask? && s.ends.cur == s.reader && E.Enabled(s.ends, E.CheckEnd)
    requires s.ends.phase[s.reader].runs == s.ends.runs[s.reader] && s.ends.phase[s.reader].fdRef.Some?
    requires E.FdRef(s.ends, E.WriteEnd) == 0 && E.HalfOpen(s.ends) == {}
    ensures var acts := [Ends(E.CheckEnd), Ends(E.Return)];
            && IsRun(s, acts)
            && var s' := After(s, acts);
               s'.reading == Ended(s.reading.count) && s'.ring == s.ring && s'.taken == s.taken
  {
    hide E.FdRef, E.PipeRef, E.HalfOpen, RingOk, E.Inv;
    E.ClosedMeansNoHolder(s.ends);
    RunOne(s, Ends(E.CheckEnd));
    RunMore(s, [Ends(E.CheckEnd)], Ends(E.Return));
    assert [Ends(E.CheckEnd)] + [Ends(E.Return)] == [Ends(E.CheckEnd), Ends(E.Return)];
  }

  lemma SameHolders(s: E.State, s': E.State)
    requires s'.slots == s.slots
    ensures E.FdRef(s', E.WriteEnd) == E.FdRef(s, E.WriteEnd) && E.HalfOpen(s') == E.HalfOpen(s)
  {
    E.SameCounts(s, s');
  }

  function EarlyRun(s: State, b: bv8): seq<Action>
  {
    [TestWrite, MoveWrite(b), FinishWrite] + [Ends(E.CloseFd(s.wn)), Ends(E.CloseData)]
    + [Ends(E.Switch(s.reader)), Ends(E.CheckStart(s.rn))] + [Ends(E.CheckFd), Ends(E.CheckPipe)]
      + [Ends(E.CheckEnd), Ends(E.Return)]
  }

  /** So pipe_read can come back with nothing, or with less than there is, while a byte is buffered: it tests for
      an empty buffer before it asks whether the pipe is closed. */
  lemma EarlyEndOfFile(s: State, b: bv8)
    requires AboutToAsk(s)
    ensures IsRun(s, EarlyRun(s, b))
    ensures var s' := After(s, EarlyRun(s, b));
            s'.reading == Ended(s.reading.count) && s'.taken == s.taken && Buffered(s'.ring) == [b]
  {
    var a1 := [TestWrite, MoveWrite(b), FinishWrite];
    var a2 := [Ends(E.CloseFd(s.wn)), Ends(E.CloseData)];
    var a3 := [Ends(E.Switch(s.reader)), Ends(E.CheckStart(s.rn))];
    var a4 := [Ends(E.CheckFd), Ends(E.CheckPipe)];
    var a5 := [Ends(E.CheckEnd), Ends(E.Return)];
    WriterWrites(s, b);
    var s1 := After(s, a1);
    RunKeepsNames(s, a1);
    hide After, IsRun, E.FdRef, E.HalfOpen, E.FdHolders, RingOk, E.Inv, Buffered;
    WriterCloses(s1, s.wn);
    var s2 := After(s1, a2);
    NobodyLeft(s.ends, s2.ends, E.Key(s.writer, s.wn));
    ReaderStartsToAsk(s2);
    var s3 := After(s2, a3);
    ReaderAsks(s3);
    var s4 := After(s3, a4);
    SameHolders(s2.ends, s4.ends);
    ReaderReturns(s4);
    hide Inv;
    RunThen(s, a1, a2);
    RunThen(s, a1 + a2, a3);
    RunThen(s, a1 + a2 + a3, a4);
    RunThen(s, a1 + a2 + a3 + a4, a5);
  }

  lemma {:induction false} RunKeepsNames(s: State, acts: seq<Action>)
    requires Inv(s) && IsRun(s, acts)
    ensures var s' := After(s, acts); s'.reader == s.reader && s'.rn == s.rn && s'.writer == s.writer && s'.wn == s.wn
    decreases |acts|
  {
    hide Inv, Enabled, E.Step, Put, Take;
    if acts != [] {
      RunKeepsNames(Next(s, acts[0]), acts[1..]);
    }
  }

  /* ---- More than one reader ---- */

  /** Processes that read from one pipe, passed of which are past the test of their loops. */
  datatype Crowd = Crowd(ring: Ring, passed: nat)

  datatype Turn = PassTest | TakeByte | PutByte(b: bv8)

  predicate CanTurn(c: Crowd, readers: nat, t: Turn)
  {
    match t
    case PassTest => c.passed < readers && !IsEmpty(c.ring)
    case TakeByte => c.passed > 0
    case PutByte(_) => !IsFull(c.ring)
  }

  function DoTurn(c: Crowd, t: Turn): (c': Crowd)
    requires Valid(c.ring) && (t.TakeByte? ==> c.passed > 0)
    ensures Valid(c'.ring)
  {
    match t
    case PassTest => c.(passed := c.passed + 1)
    case TakeByte => Crowd(Take(c.ring), c.passed - 1)
    case PutByte(b) => c.(ring := Put(c.ring, b))
  }

  predicate AreTurns(c: Crowd, readers: nat, turns: seq<Turn>)
    requires Valid(c.ring)
    decreases |turns|
  {
    turns == [] || (CanTurn(c, readers, turns[0]) && AreTurns(DoTurn(c, turns[0]), readers, turns[1..]))
  }

  function DoTurns(c: Crowd, readers: nat, turns: seq<Turn>): (c': Crowd)
    requires Valid(c.ring) && AreTurns(c, readers, turns)
    ensures Valid(c'.ring)
    decreases |turns|
  {
    if turns == [] then c else DoTurns(DoTurn(c, turns[0]), readers, turns[1..])
  }

  /** There is a byte for every reader that is past the test. */
  predicate Served(c: Crowd)
    requires Valid(c.ring)
  {
    c.passed <= |Buffered(c.ring)|
  }

  /** That is so exactly if what they take are the bytes in the buffer. One reader too many leaves an empty buffer
      that looks full. */
  lemma ServedMeans(c: Crowd)
    requires Valid(c.ring)
    ensures Served(c) <==> BytesTaken(c.ring, c.passed) <= Buffered(c.ring)
    ensures c.passed == |Buffered(c.ring)| + 1 ==> |Buffered(TakeN(c.ring, c.passed))| == BY2PIPE - 1
  {
    if Served(c) {
      TakesPrefix(c.ring, c.passed);
    } else if c.passed == |Buffered(c.ring)| + 1 {
      OneTooMany(c.ring);
    }
    hide Buffered, BytesTaken, TakeN;
  }

  lemma OneTooMany(p: Ring)
    requires Valid(p)
    ensures |Buffered(TakeN(p, |Buffered(p)| + 1))| == BY2PIPE - 1
  {
    hide TakeN;
  }

  lemma {:induction false} OneReader(c: Crowd, readers: nat, turns: seq<Turn>)
    requires Valid(c.ring) && AreTurns(c, readers, turns) && Served(c) && readers <= 1
    ensures Served(DoTurns(c, readers, turns))
    decreases |turns|
  {
    if turns != [] {
      BufferedBytes(c.ring);
      match turns[0] {
        case PassTest =>
        case TakeByte => TakeDropsFirst(c.ring);
        case PutByte(b) => PutAppends(c.ring, b);
      }
      hide Buffered, Take, Put, IsEmpty, IsFull;
      OneReader(DoTurn(c, turns[0]), readers, turns[1..]);
    }
  }

  /** Two readers that both pass the test on one byte. */
  lemma TwoReaders(p: Ring, readers: nat, b: bv8)
    requires Valid(p) && IsEmpty(p) && readers >= 2
    ensures var turns := [PutByte(b), PassTest, PassTest];
            AreTurns(Crowd(p, 0), readers, turns) && !Served(DoTurns(Crowd(p, 0), readers, turns))
  {
    BufferedBytes(p);
    PutAppends(p, b);
    BufferedBytes(Put(p, b));
    var c1, c2, c3 := Crowd(Put(p, b), 0), Crowd(Put(p, b), 1), Crowd(Put(p, b), 2);
    hide Buffered, Put, IsEmpty, IsFull;
    var turns := [PutByte(b), PassTest, PassTest];
    assert turns[1..] == [PassTest, PassTest] && [PassTest, PassTest][1..] == [PassTest] && [PassTest][1..] == [];
    assert DoTurn(Crowd(p, 0), turns[0]) == c1 && DoTurn(c1, PassTest) == c2 && DoTurn(c2, PassTest) == c3;
    assert DoTurns(c2, readers, [PassTest]) == c3;
    assert DoTurns(c1, readers, [PassTest, PassTest]) == c3;
  }

  /** Every reader that passes the test gets a byte of its own in every run exactly if there is no second
      reader. */
  lemma SecondReader(p: Ring, readers: nat)
    requires Valid(p) && IsEmpty(p)
    ensures (forall turns :: AreTurns(Crowd(p, 0), readers, turns) ==>
             Served(DoTurns(Crowd(p, 0), readers, turns))) <==> readers <= 1
  {
    if readers <= 1 {
      forall turns | AreTurns(Crowd(p, 0), readers, turns) ensures Served(DoTurns(Crowd(p, 0), readers, turns)) {
        OneReader(Crowd(p, 0), readers, turns);
      }
    } else {
      TwoReaders(p, readers, 0);
    }
  }
}
