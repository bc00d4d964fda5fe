/** pipewrite, piperead and pipeclose (pipe.c) as clients of sleep and wakeup, one action under the
    pipe's lock at a time: any number of processes, with sleep() going from the pipe's lock to
    ptable.lock in steps of its own.  `Pipe` says which bytes are moved; here only the
    counters matter. */
module PipeSleep {
  import opened Common
  import opened SleepWakeup
  import opened Pipe

  datatype Ends = Ends(nread: int, nwrite: int, readopen: bool, writeopen: bool)

  datatype Local =
    | Idle
    | Writing(left: nat, news: bool)   // pipewrite, this many bytes to go; news: put some since the last wakeup
    | Waiting(left: nat)                // has woken the readers, about to sleep
    | Reading(n: nat)                   // piperead, at the test for an empty pipe
    | Copying(n: nat, news: bool)      // in the copy loop; news: has taken some
    | Closing(writable: bool)           // pipeclose
    | Flagged(writable: bool)           // has cleared the flag, before wakeup
    | Finished                          // after the last wakeup

  const NREAD: int := 0    // &p->nread
  const NWRITE: int := 1   // &p->nwrite

  type PipeState = State<Ends, Local>

  predicate IsFull(d: Ends) {
    d.nwrite == (d.nread + PIPESIZE) % U32
  }

  predicate IsEmpty(d: Ends) {
    d.nread == d.nwrite
  }

  function Act(p: int, d: Ends, l: Local, killed: bool): Action<Ends, Local> {
    match l
    case Writing(left, news) =>
      if left == 0 then Wake(NREAD, Finished)
      else if IsFull(d) then
        if !d.readopen || killed then Leave(Idle) else Wake(NREAD, Waiting(left))
      else Set(d.(nwrite := (d.nwrite + 1) % U32), Writing(left - 1, true))
    case Waiting(left) => Action.Sleep(NWRITE, Writing(left, false))
    case Reading(n) =>
      if IsEmpty(d) && d.writeopen then
        if killed then Leave(Idle) else Action.Sleep(NREAD, Reading(n))
      else Set(d, Copying(n, false))
    case Copying(n, news) =>
      if n == 0 || IsEmpty(d) then Wake(NWRITE, Finished)
      else Set(d.(nread := (d.nread + 1) % U32), Copying(n - 1, true))
    case Closing(writable) =>
      Set(if writable then d.(writeopen := false) else d.(readopen := false), Flagged(writable))
    case Flagged(writable) => Wake(if writable then NREAD else NWRITE, Finished)
    case _ => Leave(Idle)
  }

  predicate Starts(l: Local, l': Local) {
    (l'.Writing? && !l'.news) || l'.Reading? || l'.Closing?
  }

  /** What readers and writers wait for. */
  predicate Ready(d: Ends, chan: int) {
    (chan == NREAD && (!IsEmpty(d) || !d.writeopen)) || (chan == NWRITE && (!IsFull(d) || !d.readopen))
  }

  predicate Debt(l: Local, chan: int) {
    match l
    case Writing(_, news) => news && chan == NREAD
    case Copying(_, news) => news && chan == NWRITE
    case Flagged(writable) => chan == if writable then NREAD else NWRITE
    case _ => false
  }

  predicate Known(d: Ends, l: Local) {
    l.Waiting? ==> IsFull(d) && d.readopen
  }

  function Pipes(): Client<Ends, Local> {
    Client(Act, Starts, Ready, Debt, Known)
  }

  /** Whoever puts or takes a byte, or closes an end, wakes the other side before it gives up
      the lock, except for a writer that gives up. */
  lemma PipesDisciplined()
    ensures Discipline(Pipes())
  {
    forall p: int, d: Ends, l: Local, k: bool | Known(d, l)
      ensures ActOk(Pipes(), d, l, Act(p, d, l, k))
    {
    }
  }

  /** A writer gives up in debt: on a full pipe, killed or with no reader left, after it has put
      bytes that no reader has been told of. */
  predicate GivesUp(s: PipeState, step: Step) {
    && step.Go? && step.p in s.pc && s.pc[step.p].Work?
    && var l := s.pc[step.p].l;
       l.Writing? && l.news && l.left > 0 && IsFull(s.data) && (!s.data.readopen || step.p in s.killed)
  }

  lemma HonestIff(s: PipeState, step: Step)
    ensures Honest(Pipes(), s, step) <==> !GivesUp(s, step)
  {
    if GivesUp(s, step) {
      assert Debt(s.pc[step.p].l, NREAD);
    }
  }

  /** In every interleaving without such a writer, no reader sleeps on a pipe that has bytes or
      no writer left, and no writer on one that has room or no reader left, unless the holder
      of the pipe's lock is about to wake it. */
  lemma NoPipeWakeupLost(ss: seq<PipeState>, steps: seq<Step>, i: nat, q: int, chan: int)
    requires Run(Pipes(), ss, steps) && i < |ss|
    requires forall k :: 0 <= k < i ==> !GivesUp(ss[k], steps[k])
    requires q in ss[i].pc && Sleeps(ss[i].pc[q], chan) && Ready(ss[i].data, chan)
    ensures Pending(Pipes(), ss[i], chan)
  {
    PipesDisciplined();
    forall k | 0 <= k < i
      ensures Honest(Pipes(), ss[k], steps[k])
    {
      HonestIff(ss[k], steps[k]);
    }
    NoWakeupLost(Pipes(), ss, steps, i);
    assert Pipes().cond(ss[i].data, chan);
  }

  /** A writer that gives up loses a wakeup if and only if a reader sleeps. */
  lemma GivingUpLosesIff(s: PipeState, s': PipeState, p: int)
    requires Inv(Pipes(), s) && Next(Pipes(), s, s', Go(p)) && GivesUp(s, Go(p)) && CountsRight(s.data)
    ensures NoLostWakeup(Pipes(), s') <==> forall q :: q in s.pc ==> !Sleeps(s.pc[q], NREAD)
  {
    LosesIff(Pipes(), s, s', p);
    FullTest(s.data.nread, s.data.nwrite);
    assert Pipes().cond(s.data, NREAD) && Pipes().owes(s.pc[p].l, NREAD);
  }

  /** The occupancy is between 0 and PIPESIZE. */
  predicate CountsRight(d: Ends) {
    0 <= d.nread < U32 && 0 <= d.nwrite < U32 && Count(d.nread, d.nwrite) <= PIPESIZE
  }

  lemma KeepsCounts(s: PipeState, s': PipeState, step: Step)
    requires CountsRight(s.data) && Next(Pipes(), s, s', step)
    ensures CountsRight(s'.data)
  {
    Advance(s.data.nread, s.data.nwrite);
    FullTest(s.data.nread, s.data.nwrite);
  }

  lemma {:induction false} CountsStayRight(ss: seq<PipeState>, steps: seq<Step>, i: nat)
    requires Run(Pipes(), ss, steps) && i < |ss| && CountsRight(ss[0].data)
    ensures CountsRight(ss[i].data)
  {
    if i > 0 {
      CountsStayRight(ss, steps, i - 1);
      KeepsCounts(ss[i - 1], ss[i], steps[i - 1]);
    }
  }

  /** A writer has looked at killed when it has woken the readers; a reader looks last. */
  predicate HasLooked(l: Local) {
    l.Waiting?
  }

  /** A process that sleeps in the pipe although killed was killed while it held the pipe's
      lock, after its look at killed and before it took ptable.lock.  SleepsAnyway is the
      converse. */
  lemma KilledSleeper(ss: seq<PipeState>, steps: seq<Step>, i: nat, q: int) returns (k: nat)
    requires Run(Pipes(), ss, steps) && i < |ss| && ss[0].killed == {}
    requires q in ss[i].pc && ss[i].pc[q].Asleep? && q in ss[i].killed
    ensures k < i && steps[k] == Kill(q) && q in ss[k].pc && ss[k].lk == q
    ensures ss[k].pc[q].Tested? || ss[k].pc[q].l.Waiting?
  {
    LocksRight(Pipes(), ss, steps, i);
    k := KilledTooLate(Pipes(), HasLooked, ss, steps, i, q);
    LocksRight(Pipes(), ss, steps, k);
  }

  // ------------------------------------- the steps of a stretch, taken together

  datatype End = Returned | GaveUp | Blocks(chan: int, l: Local)

  /** What a process does from its taking the pipe's lock to its giving it up. */
  datatype Stretch = Stretch(d: Ends, woke: set<int>, end: End)

  function Rank(l: Local): nat {
    match l
    case Writing(left, _) => left + 2
    case Reading(n) => n + 3
    case Copying(n, _) => n + 2
    case Closing(_) => 2
    case Waiting(_) => 1
    case Flagged(_) => 1
    case _ => 0
  }

  /** All the actions of the stretch that begins at l, with the channels it has woken. */
  function Drive(d: Ends, l: Local, killed: bool, woke: set<int>): Stretch
    decreases Rank(l)
  {
    match Act(0, d, l, killed)
    case Set(d', l') => Drive(d', l', killed, woke)
    case Wake(c, l') => Drive(d, l', killed, woke + {c})
    case Sleep(c, l') => Stretch(d, woke, Blocks(c, l'))
    case Leave(_) => Stretch(d, woke, if l == Finished then Returned else GaveUp)
  }

  lemma {:induction false} DriveCopies(d: Ends, n: nat, news: bool, killed: bool, woke: set<int>)
    requires CountsRight(d)
    ensures var k := Min(n, Count(d.nread, d.nwrite));
            Drive(d, Copying(n, news), killed, woke) == Stretch(d.(nread := Plus(d.nread, k)), woke + {NWRITE}, Returned)
    decreases n
  {
    FullTest(d.nread, d.nwrite);
    if n > 0 && !IsEmpty(d) {
      Advance(d.nread, d.nwrite);
      var e := d.(nread := Plus(d.nread, 1));
      assert Act(0, d, Copying(n, news), killed) == Set(e, Copying(n - 1, true));
      hide Count, Plus, IsEmpty, Act;
      var k := Min(n - 1, Count(e.nread, e.nwrite));
      DriveCopies(e, n - 1, true, killed, woke);
      PlusMore(d.nread, 1, k);
    } else {
      PlusNone(d.nread);
    }
  }

  /** piperead: it takes what there is, up to n bytes, and wakes the writers; on an empty pipe
      with a writer it sleeps, or gives up if killed. */
  lemma DriveReads(d: Ends, n: nat, killed: bool)
    requires CountsRight(d)
    ensures var c := Count(d.nread, d.nwrite);
            Drive(d, Reading(n), killed, {}) ==
              if c == 0 && d.writeopen then Stretch(d, {}, if killed then GaveUp else Blocks(NREAD, Reading(n)))
              else Stretch(d.(nread := Plus(d.nread, Min(n, c))), {NWRITE}, Returned)
  {
    FullTest(d.nread, d.nwrite);
    hide Count, Plus;
    if !(IsEmpty(d) && d.writeopen) {
      DriveCopies(d, n, false, killed, {});
      assert {} + {NWRITE} == {NWRITE};
    }
  }

  /** pipewrite: it puts what there is room for; only if that is not all does it sleep, with the
      rest to go and the readers woken, or give up without waking them. */
  lemma {:induction false} DriveWrites(d: Ends, left: nat, news: bool, killed: bool)
    requires CountsRight(d)
    ensures var room := PIPESIZE - Count(d.nread, d.nwrite);
            var d' := d.(nwrite := Plus(d.nwrite, Min(left, room)));
            Drive(d, Writing(left, news), killed, {}) ==
              if left <= room then Stretch(d', {NREAD}, Returned)
              else if !d.readopen || killed then Stretch(d', {}, GaveUp)
              else Stretch(d', {NREAD}, Blocks(NWRITE, Writing(left - room, false)))
    decreases left
  {
    FullTest(d.nread, d.nwrite);
    assert {} + {NREAD} == {NREAD};
    if left > 0 && !IsFull(d) {
      Advance(d.nread, d.nwrite);
      var e := d.(nwrite := Plus(d.nwrite, 1));
      assert Act(0, d, Writing(left, news), killed) == Set(e, Writing(left - 1, true));
      hide Count, Plus, IsFull, Act;
      var k := Min(left - 1, PIPESIZE - Count(e.nread, e.nwrite));
      DriveWrites(e, left - 1, true, killed);
      PlusMore(d.nwrite, 1, k);
    } else {
      PlusNone(d.nwrite);
    }
  }

  /** pipeclose: one flag, and whoever waits for the other end is woken. */
  lemma DriveCloses(d: Ends, writable: bool, killed: bool)
    ensures Drive(d, Closing(writable), killed, {}) ==
              if writable then Stretch(d.(writeopen := false), {NREAD}, Returned)
              else Stretch(d.(readopen := false), {NWRITE}, Returned)
  {
    var e := if writable then d.(writeopen := false) else d.(readopen := false);
    var woke := if writable then {NREAD} else {NWRITE};
    assert {} + woke == woke;
    assert Drive(e, Finished, killed, woke) == Stretch(e, woke, Returned);
    assert Drive(e, Flagged(writable), killed, {}) == Drive(e, Finished, killed, woke);
    assert Drive(d, Closing(writable), killed, {}) == Drive(e, Flagged(writable), killed, {});
  }

  ghost function EndsOf(pipe: Pipe): Ends
    reads pipe
  {
    Ends(pipe.nread, pipe.nwrite, pipe.readopen, pipe.writeopen)
  }

  /** Who still sleeps on chan after the stretch x of process p. */
  function Sleepers(q: set<int>, chan: int, x: Stretch, p: int): set<int> {
    (if chan in x.woke then {} else q) + (if x.end.Blocks? && x.end.chan == chan then {p} else {})
  }

  /** `Pipe.Read` does to the counters and the sleepers what the actions of piperead do. */
  method ReadStretch(pipe: Pipe, p: int, n: nat, killed: bool) returns (r: Outcome, dst: seq<int>)
    requires pipe.Valid() && p !in pipe.readers
    modifies pipe`nread, pipe`readers, pipe`writers, pipe`got
    ensures var x := Drive(old(EndsOf(pipe)), Reading(n), killed, {});
            && EndsOf(pipe) == x.d && (r == Done <==> x.end == Returned) && (r == Failed <==> x.end == GaveUp)
            && pipe.readers == Sleepers(old(pipe.readers), NREAD, x, p) && pipe.writers == Sleepers(old(pipe.writers), NWRITE, x, p)
    ensures old(pipe.Contents()) == dst + pipe.Contents()
  {
    hide Drive;
    DriveReads(EndsOf(pipe), n, killed);
    r, dst := pipe.Read(p, n, killed);
  }

  /** The same for `Pipe.Write`; what a blocked writer has to go is what it has not put. */
  method WriteStretch(pipe: Pipe, p: int, addr: seq<int>, i0: int, killed: bool) returns (r: Outcome, i: int)
    requires pipe.Valid() && 0 <= i0 <= |addr| && p !in pipe.writers
    modifies pipe`nwrite, pipe`readers, pipe`writers, pipe`put, pipe.data
    ensures var x := Drive(old(EndsOf(pipe)), Writing(|addr| - i0, false), killed, {});
            && EndsOf(pipe) == x.d && (r == Done <==> x.end == Returned) && (r == Failed <==> x.end == GaveUp)
            && (r == Blocked ==> 0 <= i <= |addr| && x.end == Blocks(NWRITE, Writing(|addr| - i, false)))
            && pipe.readers == Sleepers(old(pipe.readers), NREAD, x, p) && pipe.writers == Sleepers(old(pipe.writers), NWRITE, x, p)
  {
    hide Drive;
    DriveWrites(EndsOf(pipe), |addr| - i0, false, killed);
    ghost var c := |pipe.Contents()|;
    r, i := pipe.Write(p, addr, i0, killed);
    assert |pipe.Contents()| == c + (i - i0);
  }

  /** And for `Pipe.Close`. */
  method CloseStretch(pipe: Pipe, writable: bool, killed: bool) returns (gone: bool)
    requires pipe.Valid()
    modifies pipe`readopen, pipe`writeopen, pipe`readers, pipe`writers
    ensures var x := Drive(old(EndsOf(pipe)), Closing(writable), killed, {});
            && EndsOf(pipe) == x.d && x.end == Returned
            && pipe.readers == Sleepers(old(pipe.readers), NREAD, x, 0) && pipe.writers == Sleepers(old(pipe.writers), NWRITE, x, 0)
    ensures gone <==> !pipe.readopen && !pipe.writeopen
  {
    hide Drive;
    DriveCloses(EndsOf(pipe), writable, killed);
    gone := pipe.Close(writable);
  }

  // ------------------------------------------------- a run that loses a wakeup

  /** Process 0 reads and process 1 writes. */
  function Two(d: Ends, lk: int, pt: int, killed: set<int>, reader: Pc<Local>, writer: Pc<Local>): PipeState {
    State(d, lk, pt, killed, map[0 := reader, 1 := writer])
  }

  /** The killed writer has put k bytes of PIPESIZE + 1 while the reader sleeps. */
  function Putting(k: nat): PipeState
    requires k <= PIPESIZE
  {
    Two(Ends(0, k, true, true), 1, FREE, {1}, Asleep(NREAD, Reading(1)), Work(Writing(PIPESIZE + 1 - k, k > 0)))
  }

  /** The reader finds the pipe empty and goes to sleep; the writer is killed. */
  function ReaderFirst(i: nat): PipeState {
    var d, idle := Ends(0, 0, true, true), Out(Idle);
    if i == 0 then Two(d, FREE, FREE, {}, idle, idle)
    else if i == 1 then Two(d, 0, FREE, {}, Work(Reading(1)), idle)
    else if i == 2 then Two(d, 0, FREE, {}, Tested(NREAD, Reading(1)), idle)
    else if i == 3 then Two(d, 0, 0, {}, Both(NREAD, Reading(1)), idle)
    else if i == 4 then Two(d, FREE, 0, {}, Parking(NREAD, Reading(1)), idle)
    else if i == 5 then Two(d, FREE, FREE, {}, Asleep(NREAD, Reading(1)), idle)
    else Two(d, FREE, FREE, {1}, Asleep(NREAD, Reading(1)), idle)
  }

  function Lost(): PipeState {
    Two(Ends(0, PIPESIZE, true, true), FREE, FREE, {1}, Asleep(NREAD, Reading(1)), Out(Idle))
  }

  lemma ReaderSleeps(i: nat)
    requires i < 6
    ensures Next(Pipes(), ReaderFirst(i), ReaderFirst(i + 1), if i < 5 then Go(0) else Kill(1))
  {
    assert ReaderFirst(i + 1).pc == ReaderFirst(i).pc[0 := ReaderFirst(i + 1).pc[0]];
  }

  lemma WriterPuts(k: nat)
    requires k < PIPESIZE
    ensures Next(Pipes(), Putting(k), Putting(k + 1), Go(1))
  {
    assert Putting(k + 1).pc == Putting(k).pc[1 := Putting(k + 1).pc[1]];
  }

  lemma WriterEnds()
    ensures Next(Pipes(), ReaderFirst(6), Putting(0), Go(1)) && Next(Pipes(), Putting(PIPESIZE), Lost(), Go(1))
  {
    assert Putting(0).pc == ReaderFirst(6).pc[1 := Putting(0).pc[1]];
    assert Lost().pc == Putting(PIPESIZE).pc[1 := Lost().pc[1]];
  }

  function StateAt(i: nat): PipeState {
    if i <= 6 then ReaderFirst(i) else if i <= 7 + PIPESIZE then Putting(i - 7) else Lost()
  }

  function StepAt(i: nat): Step {
    if i < 5 then Go(0) else if i == 5 then Kill(1) else Go(1)
  }

  /** A run in which a killed writer fills the pipe, gives up, and leaves a reader asleep on it
      with the pipe's lock free. */
  lemma GivingUpCanLose() returns (ss: seq<PipeState>, steps: seq<Step>)
    ensures Run(Pipes(), ss, steps)
    ensures var s := ss[|ss| - 1];
            s.lk == FREE && IsFull(s.data) && 0 in s.pc && s.pc[0].Asleep? && s.pc[0].chan == NREAD && !NoLostWakeup(Pipes(), s)
  {
    var n: nat := 8 + PIPESIZE;
    ss, steps := seq(n + 1, i requires 0 <= i => StateAt(i)), seq(n, i requires 0 <= i => StepAt(i));
    forall i {:trigger steps[i]} | 0 <= i < n
      ensures Next(Pipes(), ss[i], ss[i + 1], steps[i])
    {
      if i < 6 {
        ReaderSleeps(i);
      } else if 7 <= i < 7 + PIPESIZE {
        WriterPuts(i - 7);
      } else {
        WriterEnds();
      }
    }
    assert Sleeps(Lost().pc[0], NREAD) && Pipes().cond(Lost().data, NREAD);
  }
}
