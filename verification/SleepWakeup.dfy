/** sleep, wakeup and kill (proc.c) for any number of processes that share data under a spin
    lock lk, as a state machine.  A step is one lock operation, or one thing done while lk is
    held; between the release of lk in sleep() and the process becoming SLEEPING others run.

    What the processes do under lk is a parameter, the client.  The rule that makes it safe:
    whoever makes a condition true owes its channel a wakeup, and pays before leaving lk. */
module SleepWakeup {

  const FREE: int := -1

  /** What a process does next while it holds lk; l is its local state afterwards. */
  datatype Action<D, L> =
    | Set(data: D, l: L)        // change the shared data, or only l
    | Wake(chan: int, l: L)     // wakeup(chan)
    | Sleep(chan: int, l: L)    // sleep(chan, lk)
    | Leave(l: L)               // release(lk)

  /** Where a process is. */
  datatype Pc<L> =
    | Out(l: L)                 // outside lk
    | Work(l: L)                // holds lk
    | Calling(chan: int, l: L)  // in wakeup(chan), holds lk, before acquire(&ptable.lock)
    | Waking(chan: int, l: L)   // holds both, before wakeup1
    | Woke(l: L)                // holds both, after wakeup1
    | Tested(chan: int, l: L)   // in sleep(chan, lk), holds lk, before acquire(&ptable.lock)
    | Both(chan: int, l: L)     // holds both, before release(lk)
    | Parking(chan: int, l: L)  // holds ptable.lock only, before becoming SLEEPING
    | Asleep(chan: int, l: L)   // SLEEPING on the channel
    | Runnable(l: L)            // made RUNNABLE
    | Running(l: L)             // scheduled again: holds ptable.lock
    | Back(l: L)                // released ptable.lock, before acquire(lk)

  /** lk and pt name the holder of lk and of ptable.lock. */
  datatype State<D, L> = State(data: D, lk: int, pt: int, killed: set<int>, pc: map<int, Pc<L>>)

  datatype Step = Go(p: int) | Kill(p: int)

  /** act: what process p does, given the data, its local state and whether it was killed.
      enter: how a process outside may start.  cond: what sleepers on a channel wait for.
      owes: the wakeups that a local state still has to make.  inv: what is known while lk is
      held. */
  datatype Client<!D, !L> = Client(
    act: (int, D, L, bool) -> Action<D, L>,
    enter: (L, L) -> bool,
    cond: (D, int) -> bool,
    owes: (L, int) -> bool,
    inv: (D, L) -> bool
  )

  // ---------------------------------------------------------------------- steps

  function Move<D, L>(s: State<D, L>, p: int, c: Pc<L>): State<D, L> {
    s.(pc := s.pc[p := c])
  }

  /** wakeup1(chan): every sleeper on the channel becomes RUNNABLE. */
  function WakeAll<L>(pc: map<int, Pc<L>>, chan: int): map<int, Pc<L>> {
    map p | p in pc :: if pc[p].Asleep? && pc[p].chan == chan then Runnable(pc[p].l) else pc[p]
  }

  /** A spin lock that the next step of p acquires must be free.  A sleeper has no step. */
  predicate Enabled<D, L>(s: State<D, L>, p: int)
    requires p in s.pc
  {
    match s.pc[p]
    case Out(_) => s.lk == FREE
    case Back(_) => s.lk == FREE
    case Calling(_, _) => s.pt == FREE
    case Tested(_, _) => s.pt == FREE
    case Runnable(_) => s.pt == FREE
    case Asleep(_, _) => false
    case _ => true
  }

  function Act<D, L>(c: Client<D, L>, s: State<D, L>, p: int, l: L): State<D, L> {
    match c.act(p, s.data, l, p in s.killed)
    case Set(d, m) => Move(s, p, Work(m)).(data := d)
    case Wake(chan, m) => Move(s, p, Calling(chan, m))
    case Sleep(chan, m) => Move(s, p, Tested(chan, m))
    case Leave(m) => Move(s, p, Out(m)).(lk := FREE)
  }

  /** The next step of process p, which is not outside lk. */
  function After<D, L>(c: Client<D, L>, s: State<D, L>, p: int): State<D, L>
    requires p in s.pc
  {
    match s.pc[p]
    case Work(l) => Act(c, s, p, l)
    // wakeup
    case Calling(chan, l) => Move(s, p, Waking(chan, l)).(pt := p)
    case Waking(chan, l) => s.(pc := WakeAll(s.pc, chan)[p := Woke(l)])
    case Woke(l) => Move(s, p, Work(l)).(pt := FREE)
    // sleep
    case Tested(chan, l) => Move(s, p, Both(chan, l)).(pt := p)
    case Both(chan, l) => Move(s, p, Parking(chan, l)).(lk := FREE)
    case Parking(chan, l) => Move(s, p, Asleep(chan, l)).(pt := FREE)
    case Runnable(l) => Move(s, p, Running(l)).(pt := p)
    case Running(l) => Move(s, p, Back(l)).(pt := FREE)
    case Back(l) => Move(s, p, Work(l)).(lk := p)
    case _ => s
  }

  /** kill(): marks the process, and wakes it if it sleeps. */
  function Killed<D, L>(s: State<D, L>, p: int): State<D, L>
    requires p in s.pc
  {
    s.(killed := s.killed + {p},
       pc := if s.pc[p].Asleep? then s.pc[p := Runnable(s.pc[p].l)] else s.pc)
  }

  ghost predicate Next<D, L>(c: Client<D, L>, s: State<D, L>, s': State<D, L>, step: Step) {
    && step.p in s.pc
    && match step
       case Kill(p) => s.pt == FREE && s' == Killed(s, p)
       case Go(p) =>
         && Enabled(s, p)
         && if s.pc[p].Out? then
              && p in s'.pc && s'.pc[p].Work? && c.enter(s.pc[p].l, s'.pc[p].l)
              && s' == Move(s, p, s'.pc[p]).(lk := p)
            else s' == After(c, s, p)
  }

  /** No process leaves lk while it owes a wakeup. */
  ghost predicate Honest<D, L>(c: Client<D, L>, s: State<D, L>, step: Step) {
    step.Go? && step.p in s.pc && s.pc[step.p].Work?
    && c.act(step.p, s.data, s.pc[step.p].l, step.p in s.killed).Leave? ==>
      forall ch :: !c.owes(s.pc[step.p].l, ch)
  }

  // ----------------------------------------------------------------- the rule

  ghost predicate SetOk<D, L>(c: Client<D, L>, d: D, l: L, d': D, l': L) {
    && c.inv(d', l')
    && forall ch :: c.owes(l, ch) || (!c.cond(d, ch) && c.cond(d', ch)) ==> c.owes(l', ch)
  }

  ghost predicate ActOk<D(!new), L>(c: Client<D, L>, d: D, l: L, a: Action<D, L>) {
    match a
    case Set(d', l') => SetOk(c, d, l, d', l')
    case Wake(chan, l') => c.inv(d, l') && forall ch :: c.owes(l, ch) && ch != chan ==> c.owes(l', ch)
    case Sleep(chan, l') => !c.cond(d, chan) && (forall ch :: !c.owes(l, ch)) && (forall d' :: c.inv(d', l'))
    case Leave(l') => true
  }

  /** A change that makes a condition true is owed a wakeup; nobody sleeps on a condition that
      is true, or in debt. */
  ghost predicate Discipline<D(!new), L(!new)>(c: Client<D, L>) {
    && (forall p, d, l, k :: c.inv(d, l) ==> ActOk(c, d, l, c.act(p, d, l, k)))
    && (forall l, l', d :: c.enter(l, l') ==> c.inv(d, l'))
  }

  // ---------------------------------------------------------------- invariants

  predicate HoldsLk<L>(c: Pc<L>) {
    c.Work? || c.Calling? || c.Waking? || c.Woke? || c.Tested? || c.Both?
  }

  predicate HoldsTable<L>(c: Pc<L>) {
    c.Waking? || c.Woke? || c.Both? || c.Parking? || c.Running?
  }

  ghost predicate LkInv<D, L>(s: State<D, L>) {
    && (forall p :: p in s.pc ==> p >= 0 && (HoldsLk(s.pc[p]) <==> s.lk == p))
    && (s.lk != FREE ==> s.lk in s.pc)
  }

  ghost predicate TableInv<D, L>(s: State<D, L>) {
    && (forall p :: p in s.pc ==> p >= 0 && (HoldsTable(s.pc[p]) <==> s.pt == p))
    && (s.pt != FREE ==> s.pt in s.pc)
  }

  /** The wakeups that a process still has to make before it leaves lk. */
  ghost predicate Owes<D, L>(c: Client<D, L>, pc: Pc<L>, ch: int) {
    match pc
    case Work(l) => c.owes(l, ch)
    case Calling(chan, l) => ch == chan || c.owes(l, ch)
    case Waking(chan, l) => ch == chan || c.owes(l, ch)
    case Woke(l) => c.owes(l, ch)
    case _ => false
  }

  /** What holds of the holder of lk and of those that will hold it again. */
  ghost predicate HolderOk<D(!new), L>(c: Client<D, L>, d: D, pc: Pc<L>) {
    match pc
    case Work(l) => c.inv(d, l)
    case Calling(_, l) => c.inv(d, l)
    case Waking(_, l) => c.inv(d, l)
    case Woke(l) => c.inv(d, l)
    case Tested(chan, l) => !c.cond(d, chan) && forall d' :: c.inv(d', l)
    case Both(chan, l) => !c.cond(d, chan) && forall d' :: c.inv(d', l)
    case Out(_) => true
    case _ => forall d' :: c.inv(d', pc.l)
  }

  ghost predicate LocalInv<D(!new), L>(c: Client<D, L>, s: State<D, L>) {
    forall p :: p in s.pc ==> HolderOk(c, s.data, s.pc[p])
  }

  /** Process q sleeps on chan, or has released lk in order to. */
  predicate Sleeps<L>(pc: Pc<L>, chan: int) {
    (pc.Parking? || pc.Asleep?) && pc.chan == chan
  }

  /** The holder of lk will wake the sleepers on chan. */
  ghost predicate Pending<D, L>(c: Client<D, L>, s: State<D, L>, chan: int) {
    s.lk in s.pc && Owes(c, s.pc[s.lk], chan)
  }

  /** Nobody sleeps on a channel whose condition is true unless a wakeup is still to come. */
  ghost predicate NoLostWakeup<D, L>(c: Client<D, L>, s: State<D, L>) {
    forall q, ch :: q in s.pc && Sleeps(s.pc[q], ch) && c.cond(s.data, ch) ==> Pending(c, s, ch)
  }

  ghost predicate Inv<D(!new), L>(c: Client<D, L>, s: State<D, L>) {
    LkInv(s) && TableInv(s) && LocalInv(c, s) && NoLostWakeup(c, s)
  }

  lemma KeepsLk<D, L>(c: Client<D, L>, s: State<D, L>, s': State<D, L>, step: Step)
    requires LkInv(s) && Next(c, s, s', step)
    ensures LkInv(s')
  {
  }

  lemma KeepsTable<D, L>(c: Client<D, L>, s: State<D, L>, s': State<D, L>, step: Step)
    requires TableInv(s) && Next(c, s, s', step)
    ensures TableInv(s')
  {
  }

  /** Only the holder of lk changes the data, and only it is known to have tested it. */
  lemma KeepsLocal<D(!new), L(!new)>(c: Client<D, L>, s: State<D, L>, s': State<D, L>, step: Step)
    requires Discipline(c) && LkInv(s) && LocalInv(c, s) && Next(c, s, s', step)
    ensures LocalInv(c, s')
  {
  }

  lemma KeepsWakeup<D(!new), L(!new)>(c: Client<D, L>, s: State<D, L>, s': State<D, L>, step: Step)
    requires Discipline(c) && Inv(c, s) && Next(c, s, s', step) && Honest(c, s, step)
    ensures NoLostWakeup(c, s')
  {
  }

  /** Data and local states change only when a process enters lk or does something under it. */
  lemma OnlyWorkChanges<D, L>(c: Client<D, L>, s: State<D, L>, s': State<D, L>, step: Step)
    requires Next(c, s, s', step) && !(step.Go? && (s.pc[step.p].Out? || s.pc[step.p].Work?))
    ensures s'.data == s.data && s'.pc.Keys == s.pc.Keys && forall q :: q in s.pc ==> s'.pc[q].l == s.pc[q].l
  {
    assert s'.pc.Keys == s.pc.Keys;
  }

  // ------------------------------------------------------------------------- runs

  ghost predicate Init<D, L>(s: State<D, L>) {
    s.lk == FREE && s.pt == FREE && forall p :: p in s.pc ==> p >= 0 && s.pc[p].Out?
  }

  ghost predicate Run<D, L>(c: Client<D, L>, ss: seq<State<D, L>>, steps: seq<Step>) {
    && |ss| == |steps| + 1
    && Init(ss[0])
    && forall i {:trigger steps[i]} :: 0 <= i < |steps| ==> Next(c, ss[i], ss[i + 1], steps[i])
  }

  /** In the first n steps nobody leaves lk in debt. */
  ghost predicate AllHonest<D, L>(c: Client<D, L>, ss: seq<State<D, L>>, steps: seq<Step>, n: nat)
    requires |ss| == |steps| + 1 && n <= |steps|
  {
    forall i {:trigger steps[i]} :: 0 <= i < n ==> Honest(c, ss[i], steps[i])
  }

  lemma {:induction false} LocksRight<D, L>(c: Client<D, L>, ss: seq<State<D, L>>, steps: seq<Step>, i: nat)
    requires Run(c, ss, steps) && i < |ss|
    ensures LkInv(ss[i]) && TableInv(ss[i])
  {
    if i > 0 {
      var k := i - 1;
      LocksRight(c, ss, steps, k);
      KeepsLk(c, ss[k], ss[i], steps[k]);
      KeepsTable(c, ss[k], ss[i], steps[k]);
    }
  }

  /** No wakeup is lost, in any state of any run in which nobody has left lk in debt so far. */
  lemma {:induction false} NoWakeupLost<D(!new), L(!new)>(c: Client<D, L>, ss: seq<State<D, L>>, steps: seq<Step>, i: nat)
    requires Discipline(c) && Run(c, ss, steps) && i < |ss| && AllHonest(c, ss, steps, i)
    ensures Inv(c, ss[i])
  {
    LocksRight(c, ss, steps, i);
    if i > 0 {
      var k := i - 1;
      NoWakeupLost(c, ss, steps, k);
      KeepsLocal(c, ss[k], ss[i], steps[k]);
      KeepsWakeup(c, ss[k], ss[i], steps[k]);
    }
  }

  /** Leaving lk in debt loses a wakeup exactly when somebody sleeps on a channel that is
      owed one and whose condition is true. */
  lemma LosesIff<D(!new), L(!new)>(c: Client<D, L>, s: State<D, L>, s': State<D, L>, p: int)
    requires Inv(c, s) && Next(c, s, s', Go(p)) && s.pc[p].Work?
    requires c.act(p, s.data, s.pc[p].l, p in s.killed).Leave?
    ensures NoLostWakeup(c, s') <==>
              forall q, ch :: q in s.pc && Sleeps(s.pc[q], ch) && c.cond(s.data, ch) ==> !c.owes(s.pc[p].l, ch)
  {
    assert s.lk == p;
    forall q, ch | q in s.pc && Sleeps(s.pc[q], ch)
      ensures q in s'.pc && Sleeps(s'.pc[q], ch)
    {
    }
  }

  /** The process to run next: whoever holds ptable.lock, else whoever holds lk, else q. */
  function Chosen<D, L>(s: State<D, L>, q: int): int {
    if s.pt != FREE then s.pt else if s.lk != FREE then s.lk else q
  }

  /** A process that has entered, and does not sleep on a condition that is false, is never
      stuck: it can step, or the holder of a spin lock in its way can. */
  lemma NeverStuck<D(!new), L(!new)>(c: Client<D, L>, ss: seq<State<D, L>>, steps: seq<Step>, i: nat, q: int)
    requires Discipline(c) && Run(c, ss, steps) && i < |ss| && AllHonest(c, ss, steps, i) && q in ss[i].pc
    requires !ss[i].pc[q].Out? && (ss[i].pc[q].Asleep? ==> c.cond(ss[i].data, ss[i].pc[q].chan))
    ensures var p := Chosen(ss[i], q); p in ss[i].pc && !ss[i].pc[p].Out? && Enabled(ss[i], p)
  {
    NoWakeupLost(c, ss, steps, i);
    var s := ss[i];
    if s.pc[q].Asleep? {
      assert Sleeps(s.pc[q], s.pc[q].chan);
    }
  }

  // ------------------------------------------------------------------------ kill

  /** A process looks at killed before it goes to sleep; the local states in looked are those
      in which it has looked, and will sleep next, maybe after a wakeup. */
  ghost predicate TestsKilled<D(!new), L(!new)>(c: Client<D, L>, looked: L -> bool) {
    && (forall l, l' :: c.enter(l, l') ==> !looked(l'))
    && (forall p, d, l, k :: c.act(p, d, l, k).Sleep? ==> !looked(c.act(p, d, l, k).l))
    && (forall p, d, l :: !looked(l) ==> !c.act(p, d, l, true).Sleep? && !looked(c.act(p, d, l, true).l))
    && (forall p, d, l, k :: looked(l) ==> c.act(p, d, l, k).Sleep?)
  }

  /** Past its look at killed, on the way to sleep or asleep. */
  predicate Bound<L>(looked: L -> bool, pc: Pc<L>) {
    pc.Tested? || pc.Both? || pc.Parking? || pc.Asleep? || (HoldsLk(pc) && looked(pc.l))
  }

  /** Local states kept over a sleep are not among those. */
  ghost predicate Unlooked<D, L>(looked: L -> bool, s: State<D, L>) {
    forall p :: p in s.pc && !s.pc[p].Out? && !(HoldsLk(s.pc[p]) && !s.pc[p].Tested? && !s.pc[p].Both?) ==> !looked(s.pc[p].l)
  }

  lemma {:induction false} StaysUnlooked<D(!new), L(!new)>(c: Client<D, L>, looked: L -> bool, ss: seq<State<D, L>>,
                                                           steps: seq<Step>, i: nat)
    requires TestsKilled(c, looked) && Run(c, ss, steps) && i < |ss|
    ensures Unlooked(looked, ss[i])
  {
    if i > 0 {
      StaysUnlooked(c, looked, ss, steps, i - 1);
      assert Next(c, ss[i - 1], ss[i], steps[i - 1]);
    }
  }

  /** A process that sleeps although killed was killed after it had looked and before it took
      ptable.lock. */
  lemma {:induction false} KilledTooLate<D(!new), L(!new)>(c: Client<D, L>, looked: L -> bool, ss: seq<State<D, L>>,
                                                           steps: seq<Step>, i: nat, q: int) returns (k: nat)
    requires TestsKilled(c, looked) && Run(c, ss, steps) && i < |ss| && ss[0].killed == {}
    requires q in ss[i].pc && Bound(looked, ss[i].pc[q]) && q in ss[i].killed
    ensures k < i && steps[k] == Kill(q) && q in ss[k].pc && ss[k].pt == FREE
    ensures forall j :: k <= j <= i ==> q in ss[j].pc && Bound(looked, ss[j].pc[q])
    ensures !ss[k].pc[q].Asleep? && HoldsLk(ss[k].pc[q])
  {
    var j := i - 1;
    LocksRight(c, ss, steps, j);
    StaysUnlooked(c, looked, ss, steps, j);
    assert Next(c, ss[j], ss[i], steps[j]);
    if q in ss[j].killed {
      k := KilledTooLate(c, looked, ss, steps, j, q);
    } else {
      assert steps[j] == Kill(q);
      k := j;
    }
  }

  /** A process past its look at killed, in whose way nobody stands, goes to sleep by its own
      steps. */
  lemma GoesToSleep<D(!new), L(!new)>(c: Client<D, L>, looked: L -> bool, s: State<D, L>, q: int) returns (ss: seq<State<D, L>>)
    requires TestsKilled(c, looked) && q in s.pc && Bound(looked, s.pc[q])
    requires s.pt == FREE || HoldsTable(s.pc[q])
    ensures |ss| >= 1 && ss[0] == s && forall i :: 0 < i < |ss| ==> Next(c, ss[i - 1], ss[i], Go(q))
    ensures var t := ss[|ss| - 1]; q in t.pc && t.pc[q].Asleep? && t.killed == s.killed
    decreases Distance(s.pc[q])
  {
    if s.pc[q].Asleep? {
      ss := [s];
    } else {
      var rest := GoesToSleep(c, looked, After(c, s, q), q);
      ss := [s] + rest;
      assert forall i :: 0 < i < |ss| ==> ss[i] == rest[i - 1];
    }
  }

  /** Steps from there to being asleep. */
  function Distance<L>(pc: Pc<L>): nat {
    match pc
    case Calling(_, _) => 7
    case Waking(_, _) => 6
    case Woke(_) => 5
    case Work(_) => 4
    case Tested(_, _) => 3
    case Both(_, _) => 2
    case Parking(_, _) => 1
    case _ => 0
  }

  /** And one killed at any such moment does go to sleep, with the mark set. */
  lemma SleepsAnyway<D(!new), L(!new)>(c: Client<D, L>, looked: L -> bool, s: State<D, L>, q: int) returns (ss: seq<State<D, L>>)
    requires TestsKilled(c, looked) && q in s.pc && s.pt == FREE && HoldsLk(s.pc[q]) && Bound(looked, s.pc[q])
    ensures |ss| >= 2 && ss[0] == s && Next(c, s, ss[1], Kill(q))
    ensures forall i :: 1 < i < |ss| ==> Next(c, ss[i - 1], ss[i], Go(q))
    ensures var t := ss[|ss| - 1]; q in t.pc && t.pc[q].Asleep? && q in t.killed
  {
    var rest := GoesToSleep(c, looked, Killed(s, q), q);
    ss := [s] + rest;
    assert forall i :: 0 < i < |ss| ==> ss[i] == rest[i - 1];
  }
}
