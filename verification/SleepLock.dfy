/** Sleep locks (sleeplock.c) as a client of sleep and wakeup: lk is the spin lock inside the
    sleep lock, and the condition that sleepers wait for is that the sleep lock is free. */
module SleepLock {
  import opened SleepWakeup

  datatype Lock = Lock(locked: bool, pid: int)

  /** Where a process is with respect to the sleep lock. */
  datatype Local =
    | Idle        // does not want it
    | Acquiring   // at the test in acquiresleep
    | Won         // has set locked and pid
    | Holding     // acquiresleep has returned
    | Releasing   // in releasesleep, before clearing locked
    | Cleared     // has cleared locked and pid, before wakeup
    | Done        // after wakeup

  const CHAN: int := 0

  type LockState = State<Lock, Local>

  function Act(p: int, d: Lock, l: Local, killed: bool): Action<Lock, Local> {
    match l
    case Acquiring => if d.locked then Action.Sleep(CHAN, Acquiring) else Set(Lock(true, p), Won)
    case Won => Leave(Holding)
    case Releasing => Set(Lock(false, 0), Cleared)
    case Cleared => Wake(CHAN, Done)
    case Done => Leave(Idle)
    case _ => Leave(l)
  }

  function Locks(): Client<Lock, Local> {
    Client(Act,
           (l: Local, l': Local) => (l == Idle && l' == Acquiring) || (l == Holding && l' == Releasing),
           (d: Lock, chan: int) => chan == CHAN && !d.locked,
           (l: Local, chan: int) => l == Cleared && chan == CHAN,
           (d: Lock, l: Local) => true)
  }

  ghost predicate LockRun(ss: seq<LockState>, steps: seq<Step>) {
    && Run(Locks(), ss, steps)
    && !ss[0].data.locked && forall p :: p in ss[0].pc ==> ss[0].pc[p] == Out(Idle)
  }

  lemma LocksDisciplined()
    ensures Discipline(Locks())
  {
  }

  lemma LocksHonest(ss: seq<LockState>, steps: seq<Step>)
    requires LockRun(ss, steps)
    ensures AllHonest(Locks(), ss, steps, |steps|)
  {
  }

  predicate HoldsSleepLock(pc: Pc<Local>) {
    pc.l == Won || pc.l == Holding || pc.l == Releasing
  }

  /** While locked is set, and only then, one process holds the sleep lock: the one in pid. */
  ghost predicate HolderInv(s: LockState) {
    && (s.data.locked ==> s.data.pid in s.pc && HoldsSleepLock(s.pc[s.data.pid]))
    && (forall p :: p in s.pc && HoldsSleepLock(s.pc[p]) ==> s.data.locked && s.data.pid == p)
  }

  lemma KeepsHolder(s: LockState, s': LockState, step: Step)
    requires HolderInv(s) && Next(Locks(), s, s', step)
    ensures HolderInv(s')
  {
    if step.Go? && (s.pc[step.p].Out? || s.pc[step.p].Work?) {
      var p := step.p;
      assert forall q :: q in s.pc && q != p ==> s'.pc[q] == s.pc[q];
    } else {
      OnlyWorkChanges(Locks(), s, s', step);
    }
  }

  lemma {:induction false} HolderRight(ss: seq<LockState>, steps: seq<Step>, i: nat)
    requires LockRun(ss, steps) && i < |ss|
    ensures HolderInv(ss[i])
  {
    if i > 0 {
      HolderRight(ss, steps, i - 1);
      KeepsHolder(ss[i - 1], ss[i], steps[i - 1]);
    }
  }

  /** At most one process is between acquiresleep and releasesleep. */
  lemma MutualExclusion(ss: seq<LockState>, steps: seq<Step>, i: nat, p: int, q: int)
    requires LockRun(ss, steps) && i < |ss| && p in ss[i].pc && q in ss[i].pc
    requires ss[i].pc[p] == Out(Holding) && ss[i].pc[q] == Out(Holding)
    ensures p == q && ss[i].data == Lock(true, p)
  {
    HolderRight(ss, steps, i);
  }

  /** No process is asleep on a free sleep lock unless a releaser is about to wake it. */
  lemma NoneSleepsThroughRelease(ss: seq<LockState>, steps: seq<Step>, i: nat, q: int)
    requires LockRun(ss, steps) && i < |ss| && q in ss[i].pc && ss[i].pc[q] == Asleep(CHAN, Acquiring)
    requires !ss[i].data.locked
    ensures ss[i].lk in ss[i].pc && ss[i].pc[ss[i].lk] in {Work(Cleared), Calling(CHAN, Done), Waking(CHAN, Done)}
  {
    LocksDisciplined();
    LocksHonest(ss, steps);
    NoWakeupLost(Locks(), ss, steps, i);
    assert Sleeps(ss[i].pc[q], CHAN) && Locks().cond(ss[i].data, CHAN);
    CallsRight(ss, steps, i);
  }

  /** The only wakeup is the one of releasesleep. */
  lemma {:induction false} CallsRight(ss: seq<LockState>, steps: seq<Step>, i: nat)
    requires LockRun(ss, steps) && i < |ss|
    ensures forall p :: p in ss[i].pc ==>
              match ss[i].pc[p]
              case Calling(chan, l) => chan == CHAN && l == Done
              case Waking(chan, l) => chan == CHAN && l == Done
              case Woke(l) => l == Done
              case _ => true
  {
    if i > 0 {
      CallsRight(ss, steps, i - 1);
      assert Next(Locks(), ss[i - 1], ss[i], steps[i - 1]);
    }
  }

  // holdingsleep takes the spin lock and answers from the flag alone, without looking at pid.

  predicate HoldingSleep(s: LockState) {
    s.data.locked
  }

  /** Its answer is right for process p exactly when no other process holds the lock. */
  lemma HoldingSleepRightIff(ss: seq<LockState>, steps: seq<Step>, i: nat, p: int)
    requires LockRun(ss, steps) && i < |ss| && p in ss[i].pc
    ensures (HoldingSleep(ss[i]) <==> HoldsSleepLock(ss[i].pc[p]))
            <==> forall q :: q in ss[i].pc && q != p ==> !HoldsSleepLock(ss[i].pc[q])
  {
    HolderRight(ss, steps, i);
  }

  /** And it can be wrong: one process has acquired the lock, another asks; the spin lock that
      it takes to ask is free. */
  lemma HoldingSleepCanBeWrong() returns (ss: seq<LockState>, steps: seq<Step>, p: int)
    ensures LockRun(ss, steps)
    ensures var s := ss[|ss| - 1]; p in s.pc && s.lk == FREE && HoldingSleep(s) && !HoldsSleepLock(s.pc[p])
  {
    var s0 := State(Lock(false, 0), FREE, FREE, {}, map[0 := Out(Idle), 1 := Out(Idle)]);
    var s1 := State(Lock(false, 0), 0, FREE, {}, map[0 := Work(Acquiring), 1 := Out(Idle)]);
    var s2 := State(Lock(true, 0), 0, FREE, {}, map[0 := Work(Won), 1 := Out(Idle)]);
    var s3 := State(Lock(true, 0), FREE, FREE, {}, map[0 := Out(Holding), 1 := Out(Idle)]);
    assert s1.pc == s0.pc[0 := Work(Acquiring)];
    assert s2.pc == s1.pc[0 := Work(Won)];
    assert s3.pc == s2.pc[0 := Out(Holding)];
    ss, steps, p := [s0, s1, s2, s3], [Go(0), Go(0), Go(0)], 1;
    assert Next(Locks(), s0, s1, Go(0)) && Next(Locks(), s1, s2, Go(0)) && Next(Locks(), s2, s3, Go(0));
  }
}
