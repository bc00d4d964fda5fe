/** Runs of the process table: any interleaving of the critical sections of ptable.lock, and of
    the one assignment of fork outside it.  Which slots are marked killed, who is asleep, and why. */
module ProcRuns {
  import opened Procs

  datatype View = View(table: Table, nextpid: int, forker: map<int, int>)

  /** What happened; slots are named by index.  Kill(pid, k) is kill(pid) finding slot k, and
      Fault(p) a trap that makes process p mark itself. */
  datatype Event =
    | Wakeup(chan: int)
    | Alloc(p: int, np: int)
    | Abort(np: int)
    | SetParent(np: int)
    | MakeRunnable(np: int)
    | Exit(p: int)
    | Reap(p: int, z: int)
    | SleepInWait(p: int)
    | Kill(pid: int, k: int)
    | Fault(p: int)
    | Sleep(p: int, chan: int)
    | Switch(p: int)

  /** The first slot with this pid, as kill() looks for it. */
  ghost predicate FirstWith(s: Table, pid: int, k: int) {
    0 <= k < |s| && s[k].pid == pid && forall j :: 0 <= j < k ==> s[j].pid != pid
  }

  ghost predicate FirstFree(s: Table, k: int) {
    0 <= k < |s| && s[k].state == UNUSED && forall j :: 0 <= j < k ==> s[j].state != UNUSED
  }

  function Killed(p: Proc): Proc {
    p.(killed := true, state := if p.state == SLEEPING then RUNNABLE else p.state)
  }

  function Cleared(p: Proc): Proc {
    p.(state := UNUSED, pid := 0, parent := NONE, killed := false)
  }

  predicate IsRunning(s: Table, p: int) {
    0 <= p < |s| && s[p].state == RUNNING
  }

  ghost predicate Next(init: int, v: View, v': View, e: Event) {
    var s := v.table;
    match e
    case Wakeup(chan) => v' == v.(table := Woken(s, chan))
    case Alloc(p, np) =>
      && IsRunning(s, p) && p !in v.forker.Values && FirstFree(s, np)
      && v' == View(s[np := s[np].(state := EMBRYO, pid := v.nextpid)], v.nextpid + 1, v.forker[np := p])
    case Abort(np) =>
      && np in v.forker && 0 <= np < |s| && s[np].parent == NONE
      && v' == v.(table := s[np := s[np].(state := UNUSED)], forker := v.forker - {np})
    case SetParent(np) =>
      && np in v.forker && 0 <= np < |s|
      && v' == v.(table := s[np := s[np].(parent := v.forker[np])])
    case MakeRunnable(np) =>
      && np in v.forker && 0 <= np < |s| && s[np].parent == v.forker[np]
      && v' == v.(table := s[np := s[np].(state := RUNNABLE)], forker := v.forker - {np})
    case Exit(p) =>
      && IsRunning(s, p) && p != init && p !in v.forker.Values
      && v' == v.(table := Exited(s, p, init))
    case Reap(p, z) =>
      && IsRunning(s, p) && p !in v.forker.Values && 0 <= z < |s| && s[z].parent == p && s[z].state == ZOMBIE
      && v' == v.(table := s[z := Cleared(s[z])])
    case SleepInWait(p) =>
      && IsRunning(s, p) && p !in v.forker.Values && HasChild(s, p) && !HasZombieChild(s, p) && !s[p].killed
      && v' == v.(table := s[p := s[p].(state := SLEEPING, chan := p)])
    case Kill(pid, k) => FirstWith(s, pid, k) && v' == v.(table := s[k := Killed(s[k])])
    case Fault(p) => IsRunning(s, p) && v' == v.(table := s[p := s[p].(killed := true)])
    case Sleep(p, chan) =>
      IsRunning(s, p) && chan != p && v' == v.(table := s[p := s[p].(state := SLEEPING, chan := chan)])
    case Switch(p) =>
      && 0 <= p < |s| && (s[p].state == RUNNABLE || s[p].state == RUNNING)
      && v' == v.(table := s[p := s[p].(state := if s[p].state == RUNNABLE then RUNNING else RUNNABLE)])
  }

  ghost predicate ViewInv(init: int, v: View) {
    Inv(v.table, init, v.nextpid, v.forker)
  }

  // ------------------------------------------------- what every step keeps

  lemma NextInvOne(init: int, v: View, v': View, e: Event)
    requires ViewInv(init, v) && Next(init, v, v', e) && (e.Kill? || e.Fault? || e.Sleep? || e.Switch? || e.Wakeup?)
    ensures ViewInv(init, v')
  {
    hide Tree, Pids, Forking, Waiting;
    SameFamilyInv(v.table, v'.table, init, v.nextpid, v.forker);
  }

  lemma NextInv(init: int, v: View, v': View, e: Event)
    requires ViewInv(init, v) && Next(init, v, v', e)
    ensures ViewInv(init, v')
  {
    hide Inv;
    var s, n, f := v.table, v.nextpid, v.forker;
    match e
    case Alloc(p, np) => Embryo(s, init, n, f, p, np);
    case Abort(np) => Stillborn(s, init, n, f, np);
    case SetParent(np) => GetsParent(s, init, n, f, np);
    case MakeRunnable(np) => Born(s, init, n, f, np);
    case Exit(p) => ExitedInv(s, p, init, n, f);
    case Reap(p, z) => Reaped(s, init, n, f, z);
    case SleepInWait(p) => SleepsInWait(s, init, n, f, p);
    case _ => NextInvOne(init, v, v', e);
  }

  /** userinit: one process, and every other slot free. */
  ghost predicate Boot(init: int, v: View) {
    && 0 <= init < |v.table| && v.nextpid == 2 && v.forker == map[]
    && v.table[init] == Proc(RUNNABLE, 1, NONE, 0, false)
    && forall i :: 0 <= i < |v.table| && i != init ==> v.table[i] == Proc(UNUSED, 0, NONE, 0, false)
  }

  ghost predicate Run(init: int, vs: seq<View>, es: seq<Event>) {
    && |vs| == |es| + 1
    && Boot(init, vs[0])
    && forall j {:trigger es[j]} :: 0 <= j < |es| ==> Next(init, vs[j], vs[j + 1], es[j])
  }

  lemma BootInv(init: int, v: View)
    requires Boot(init, v)
    ensures ViewInv(init, v)
  {
    assert init == 0 || v.table[init].chan != init;
    assert forall p :: 0 <= p < |v.table| ==> !AsleepInWait(v.table, p);
  }

  /** In every state of every run the processes are a tree under init, pids are unique, and
      every process asleep in wait has a live child and no zombie. */
  lemma {:induction false} RunInv(init: int, vs: seq<View>, es: seq<Event>, j: nat)
    requires Run(init, vs, es) && j < |vs|
    ensures ViewInv(init, vs[j]) && |vs[j].table| == |vs[0].table|
  {
    hide ViewInv, Next;
    if j == 0 {
      BootInv(init, vs[0]);
    } else {
      RunInv(init, vs, es, j - 1);
      NextInv(init, vs[j - 1], vs[j], es[j - 1]);
      SameSize(init, vs[j - 1], vs[j], es[j - 1]);
    }
  }

  lemma SameSize(init: int, v: View, v': View, e: Event)
    requires Next(init, v, v', e)
    ensures |v'.table| == |v.table|
  {
  }

  // ------------------------------------------------------------ marks of kill

  predicate Hits(e: Event, i: int) {
    (e.Kill? && e.k == i) || e == Fault(i)
  }

  predicate Reaps(e: Event, i: int) {
    e.Reap? && e.z == i
  }

  /** Only kill and a fault set the mark of a slot, and only wait clears it. */
  lemma MarkStep(init: int, v: View, v': View, e: Event, i: int)
    requires Next(init, v, v', e) && 0 <= i < |v.table|
    ensures |v'.table| == |v.table|
    ensures v'.table[i].killed == (Hits(e, i) || (v.table[i].killed && !Reaps(e, i)))
  {
    if e.Exit? {
      ExitedAt(v.table, e.p, init, i);
    }
  }

  /** Slot i is not reaped after step k and before step j. */
  ghost predicate Unreaped(es: seq<Event>, i: int, k: nat, j: nat)
    requires j <= |es|
  {
    forall m :: k < m < j ==> !Reaps(es[m], i)
  }

  /** A kill or a fault has hit slot i since it was last reaped. */
  ghost predicate Marked(es: seq<Event>, i: int, j: nat)
    requires j <= |es|
  {
    exists k :: 0 <= k < j && Hits(es[k], i) && Unreaped(es, i, k, j)
  }

  lemma MarkedStep(es: seq<Event>, i: int, j: nat)
    requires j < |es|
    ensures Marked(es, i, j + 1) <==> Hits(es[j], i) || (Marked(es, i, j) && !Reaps(es[j], i))
  {
    if Hits(es[j], i) {
      assert Unreaped(es, i, j, j + 1);
    }
    if Marked(es, i, j) && !Reaps(es[j], i) {
      var k :| 0 <= k < j && Hits(es[k], i) && Unreaped(es, i, k, j);
      assert Unreaped(es, i, k, j + 1);
    }
    if Marked(es, i, j + 1) && !Hits(es[j], i) {
      var k :| 0 <= k < j + 1 && Hits(es[k], i) && Unreaped(es, i, k, j + 1);
      assert Unreaped(es, i, k, j);
    }
  }

  lemma {:induction false} KilledIff(init: int, vs: seq<View>, es: seq<Event>, i: int, j: nat)
    requires Run(init, vs, es) && j < |vs| && 0 <= i < |vs[0].table|
    ensures |vs[j].table| == |vs[0].table| && (vs[j].table[i].killed <==> Marked(es, i, j))
  {
    hide Next, Marked;
    if j == 0 {
      NoneMarked(es, i);
    } else {
      KilledIff(init, vs, es, i, j - 1);
      MarkStep(init, vs[j - 1], vs[j], es[j - 1], i);
      MarkedStep(es, i, j - 1);
    }
  }

  lemma NoneMarked(es: seq<Event>, i: int)
    ensures !Marked(es, i, 0)
  {
  }

  // ------------------------------------------------------------ who is asleep

  predicate FallsAsleep(e: Event, i: int) {
    (e.Sleep? || e.SleepInWait?) && e.p == i
  }

  function ChanOf(e: Event): int
    requires e.Sleep? || e.SleepInWait?
  {
    if e.Sleep? then e.chan else e.p
  }

  /** What wakes a process that sleeps in slot i on chan: a wakeup of chan, a kill that finds the
      slot, and the exit of a child, where chan is the parent, or of a process whose zombies
      pass to init, where chan is init. */
  ghost predicate Wakes(init: int, v: View, e: Event, i: int, chan: int) {
    || e == Wakeup(chan)
    || (e.Kill? && e.k == i)
    || (e.Exit? && 0 <= e.p < |v.table| && WokenByExit(v.table, e.p, init, chan))
  }

  lemma SleepStep(init: int, v: View, v': View, e: Event, i: int)
    requires ViewInv(init, v) && Next(init, v, v', e) && 0 <= i < |v.table| == |v'.table|
    ensures v'.table[i].state == SLEEPING <==>
              FallsAsleep(e, i) || (v.table[i].state == SLEEPING && !Wakes(init, v, e, i, v.table[i].chan))
    ensures v'.table[i].state == SLEEPING ==> v'.table[i].chan == if FallsAsleep(e, i) then ChanOf(e) else v.table[i].chan
    ensures FallsAsleep(e, i) ==> v.table[i].state == RUNNING && v'.table[i].killed == v.table[i].killed
  {
    hide Tree, Pids, Waiting;
    if e.Exit? {
      ExitedAt(v.table, e.p, init, i);
    } else if e.Abort? || e.MakeRunnable? {
      assert v.table[e.np].state == EMBRYO;
    } else {
      hide Forking;
    }
  }

  /** Step k put the process in slot i to sleep, and nothing before step j wakes it. */
  ghost predicate SleepsSince(init: int, vs: seq<View>, es: seq<Event>, i: int, k: nat, j: nat)
    requires |vs| == |es| + 1 && j <= |es|
  {
    k < j && FallsAsleep(es[k], i) && forall m :: k < m < j ==> !Wakes(init, vs[m], es[m], i, ChanOf(es[k]))
  }

  lemma {:induction false} StaysAsleep(init: int, vs: seq<View>, es: seq<Event>, i: int, k: nat, j: nat)
    requires Run(init, vs, es) && j <= |es| && 0 <= i < |vs[0].table| && SleepsSince(init, vs, es, i, k, j)
    ensures |vs[j].table| == |vs[0].table|
    ensures vs[j].table[i].state == SLEEPING && vs[j].table[i].chan == ChanOf(es[k])
    decreases j
  {
    hide Next, ViewInv, Wakes;
    RunInv(init, vs, es, j - 1);
    RunInv(init, vs, es, j);
    SleepStep(init, vs[j - 1], vs[j], es[j - 1], i);
    if k < j - 1 {
      StaysAsleep(init, vs, es, i, k, j - 1);
      NotBoth(init, vs, es, i, j - 1);
    }
  }

  lemma NotBoth(init: int, vs: seq<View>, es: seq<Event>, i: int, j: nat)
    requires Run(init, vs, es) && j < |es| && 0 <= i < |vs[j].table| && vs[j].table[i].state == SLEEPING
    ensures !FallsAsleep(es[j], i)
  {
    assert Next(init, vs[j], vs[j + 1], es[j]);
  }

  lemma {:induction false} FellAsleep(init: int, vs: seq<View>, es: seq<Event>, i: int, j: nat) returns (k: nat)
    requires Run(init, vs, es) && j < |vs| && 0 <= i < |vs[j].table| == |vs[0].table| && vs[j].table[i].state == SLEEPING
    ensures SleepsSince(init, vs, es, i, k, j) && vs[j].table[i].chan == ChanOf(es[k])
    decreases j
  {
    hide Next, ViewInv, Wakes;
    if j == 0 {
      assert false;
    } else {
      RunInv(init, vs, es, j - 1);
      SleepStep(init, vs[j - 1], vs[j], es[j - 1], i);
      if FallsAsleep(es[j - 1], i) {
        k := j - 1;
      } else {
        k := FellAsleep(init, vs, es, i, j - 1);
      }
    }
  }

  /** A process is asleep exactly when it has gone to sleep and there has been no wakeup of its
      channel, no kill and no such exit since: no wakeup is lost, and none is spurious. */
  lemma AsleepIff(init: int, vs: seq<View>, es: seq<Event>, i: int, j: nat)
    requires Run(init, vs, es) && j < |vs| && 0 <= i < |vs[0].table|
    ensures |vs[j].table| == |vs[0].table|
    ensures vs[j].table[i].state == SLEEPING <==> exists k: nat :: SleepsSince(init, vs, es, i, k, j)
  {
    RunInv(init, vs, es, j);
    hide Next, ViewInv, SleepsSince;
    if vs[j].table[i].state == SLEEPING {
      var k := FellAsleep(init, vs, es, i, j);
    }
    if k: nat :| SleepsSince(init, vs, es, i, k, j) {
      StaysAsleep(init, vs, es, i, k, j);
    }
  }

  /** A process that is asleep although it is marked was marked before it went to sleep; asleep in
      wait, it is never marked. */
  lemma MarkedBeforeSleep(init: int, vs: seq<View>, es: seq<Event>, i: int, j: nat) returns (k: nat)
    requires Run(init, vs, es) && j < |vs| && 0 <= i < |vs[j].table| == |vs[0].table|
    requires vs[j].table[i].state == SLEEPING && vs[j].table[i].killed
    ensures k < j && es[k] == Sleep(i, vs[j].table[i].chan) && |vs[k].table| == |vs[0].table| && vs[k].table[i].killed
    ensures forall m :: k < m < j ==> !Hits(es[m], i)
  {
    k := FellAsleep(init, vs, es, i, j);
    UnhitSince(init, vs, es, i, k, j);
    assert Next(init, vs[k], vs[k + 1], es[k]);
  }

  /** Nothing marks a process while it sleeps. */
  lemma {:induction false} UnhitSince(init: int, vs: seq<View>, es: seq<Event>, i: int, k: nat, j: nat)
    requires Run(init, vs, es) && j <= |es| && 0 <= i < |vs[0].table| && SleepsSince(init, vs, es, i, k, j)
    ensures |vs[j].table| == |vs[0].table| == |vs[k].table|
    ensures forall m :: k < m < j ==> !Hits(es[m], i)
    ensures vs[j].table[i].killed ==> vs[k].table[i].killed
    decreases j
  {
    hide Next, ViewInv;
    RunInv(init, vs, es, k);
    RunInv(init, vs, es, j - 1);
    RunInv(init, vs, es, j);
    MarkStep(init, vs[j - 1], vs[j], es[j - 1], i);
    if k < j - 1 {
      assert SleepsSince(init, vs, es, i, k, j - 1);
      UnhitSince(init, vs, es, i, k, j - 1);
      StaysAsleep(init, vs, es, i, k, j - 1);
      NoFault(init, vs, es, i, j - 1);
    }
  }

  lemma NoFault(init: int, vs: seq<View>, es: seq<Event>, i: int, j: nat)
    requires Run(init, vs, es) && j < |es| && 0 <= i < |vs[j].table| && vs[j].table[i].state == SLEEPING
    ensures es[j] != Fault(i)
  {
    assert Next(init, vs[j], vs[j + 1], es[j]);
  }

  // ----------------------------------------------- processes that are born killed

  predicate InUse(p: Proc) {
    Live(p) || p.state == ZOMBIE
  }

  /** A process in a slot stays in it until it is reaped; an embryo until it is aborted. */
  lemma UseStep(init: int, v: View, v': View, e: Event, i: int)
    requires ViewInv(init, v) && Next(init, v, v', e) && 0 <= i < |v.table| == |v'.table|
    ensures InUse(v.table[i]) && !Reaps(e, i) ==> InUse(v'.table[i])
    ensures v.table[i].state == EMBRYO && e != Abort(i) ==> v'.table[i].state == EMBRYO || InUse(v'.table[i])
  {
    hide Tree, Pids, Waiting;
    if e.Exit? {
      ExitedAt(v.table, e.p, init, i);
    } else if e.Abort? {
      assert v.table[e.np].state == EMBRYO;
    } else {
      hide Forking;
    }
  }

  lemma FaultInUse(init: int, v: View, v': View, e: Event)
    requires Next(init, v, v', e)
    ensures e.Fault? ==> 0 <= e.p < |v.table| && InUse(v.table[e.p])
  {
  }

  /** Slot i was given back by a fork that failed, after step k and before step j. */
  ghost predicate Aborted(es: seq<Event>, i: int, k: nat, j: nat)
    requires j <= |es|
  {
    exists m :: k < m < j && es[m] == Abort(i)
  }

  lemma {:induction false} StaysInUse(init: int, vs: seq<View>, es: seq<Event>, i: int, k: nat, j: nat)
    requires Run(init, vs, es) && k < j < |vs| && 0 <= i < |vs[0].table| && Unreaped(es, i, k, j) && !Reaps(es[k], i)
    requires |vs[k].table| == |vs[0].table| == |vs[j].table|
    requires InUse(vs[k].table[i]) || (vs[k].table[i].state == EMBRYO && es[k] != Abort(i) && !Aborted(es, i, k, j))
    ensures InUse(vs[j].table[i]) || (vs[k].table[i].state == EMBRYO && vs[j].table[i].state == EMBRYO)
    decreases j
  {
    hide Next, ViewInv;
    RunInv(init, vs, es, j - 1);
    SameSize(init, vs[j - 1], vs[j], es[j - 1]);
    UseStep(init, vs[j - 1], vs[j], es[j - 1], i);
    if k < j - 1 {
      assert Unreaped(es, i, k, j - 1) && (!Aborted(es, i, k, j) ==> !Aborted(es, i, k, j - 1));
      StaysInUse(init, vs, es, i, k, j - 1);
    }
  }

  /** Kill k marked slot i while it was free, or while it was an embryo that was then aborted,
      and the slot has not been reaped since. */
  ghost predicate LeftMarked(vs: seq<View>, es: seq<Event>, i: int, k: nat, j: nat)
    requires k < j <= |es| && |vs| == |es| + 1 && 0 <= i < |vs[k].table|
  {
    && es[k].Kill? && Hits(es[k], i) && Unreaped(es, i, k, j)
    && (vs[k].table[i].state == UNUSED || (vs[k].table[i].state == EMBRYO && Aborted(es, i, k, j)))
  }

  lemma MarkOfFreeSlot(init: int, vs: seq<View>, es: seq<Event>, i: int, k: nat, j: nat)
    requires Run(init, vs, es) && k < j < |vs| && 0 <= i < |vs[k].table| == |vs[0].table| == |vs[j].table|
    requires Hits(es[k], i) && Unreaped(es, i, k, j) && vs[j].table[i].state == UNUSED
    ensures LeftMarked(vs, es, i, k, j)
  {
    hide Next;
    FaultInUse(init, vs[k], vs[k + 1], es[k]);
    if InUse(vs[k].table[i]) || (vs[k].table[i].state == EMBRYO && !Aborted(es, i, k, j)) {
      StaysInUse(init, vs, es, i, k, j);
    }
  }

  /** fork makes a process that is born killed exactly when an earlier kill hit its slot while the
      slot was free, or was an embryo of a fork that then failed, and no process has been reaped
      from the slot since. */
  lemma BornKilledIff(init: int, vs: seq<View>, es: seq<Event>, j: nat)
    requires Run(init, vs, es) && j < |es| && es[j].Alloc?
    ensures 0 <= es[j].np < |vs[j + 1].table| && vs[j + 1].table[es[j].np].state == EMBRYO
    ensures forall k :: 0 <= k < j ==> |vs[k].table| == |vs[j + 1].table|
    ensures vs[j + 1].table[es[j].np].killed <==> exists k :: 0 <= k < j && LeftMarked(vs, es, es[j].np, k, j)
  {
    var np := es[j].np;
    assert Next(init, vs[j], vs[j + 1], es[j]);
    hide Next;
    forall k | 0 <= k <= j
      ensures |vs[k].table| == |vs[0].table|
    {
      RunInv(init, vs, es, k);
    }
    KilledIff(init, vs, es, np, j);
    if Marked(es, np, j) {
      var k :| 0 <= k < j && Hits(es[k], np) && Unreaped(es, np, k, j);
      MarkOfFreeSlot(init, vs, es, np, k, j);
    }
  }

  /** No free slot is marked killed, so that fork does not make a process that is. */
  ghost predicate CleanSlots(s: Table) {
    forall i :: 0 <= i < |s| && s[i].state == UNUSED ==> !s[i].killed
  }

  /** kill() of a free slot, or a failing fork of an embryo that has been killed. */
  ghost predicate Dirties(v: View, e: Event) {
    || (e.Kill? && 0 <= e.k < |v.table| && v.table[e.k].state == UNUSED)
    || (e.Abort? && 0 <= e.np < |v.table| && v.table[e.np].killed)
  }

  lemma DirtySlot(init: int, v: View, v': View, e: Event)
    requires Next(init, v, v', e) && Dirties(v, e)
    ensures !CleanSlots(v'.table)
  {
    var i := if e.Kill? then e.k else e.np;
    assert v'.table[i].state == UNUSED && v'.table[i].killed;
  }

  lemma SlotStaysClean(init: int, v: View, v': View, e: Event, i: int)
    requires ViewInv(init, v) && Next(init, v, v', e) && 0 <= i < |v.table| == |v'.table| && !Dirties(v, e)
    requires v.table[i].state == UNUSED ==> !v.table[i].killed
    ensures v'.table[i].state == UNUSED ==> !v'.table[i].killed
  {
    hide Next, ViewInv;
    FaultInUse(init, v, v', e);
    MarkStep(init, v, v', e, i);
    UseStep(init, v, v', e, i);
  }

  /** These two, and no other step, leave a free slot marked. */
  lemma CleanStep(init: int, v: View, v': View, e: Event)
    requires ViewInv(init, v) && Next(init, v, v', e) && CleanSlots(v.table)
    ensures CleanSlots(v'.table) <==> !Dirties(v, e)
  {
    SameSize(init, v, v', e);
    if Dirties(v, e) {
      DirtySlot(init, v, v', e);
    } else {
      hide Next, ViewInv, Dirties;
      forall i | 0 <= i < |v.table|
        ensures v'.table[i].state == UNUSED ==> !v'.table[i].killed
      {
        SlotStaysClean(init, v, v', e, i);
      }
    }
  }

  lemma CleanAfter(init: int, v: View, v': View, e: Event)
    requires ViewInv(init, v) && Next(init, v, v', e)
    ensures CleanSlots(v.table) ==> (CleanSlots(v'.table) <==> !Dirties(v, e))
  {
    if CleanSlots(v.table) {
      CleanStep(init, v, v', e);
    }
  }

  ghost predicate CleanUpTo(vs: seq<View>, n: nat)
    requires n < |vs|
  {
    forall j :: 0 <= j <= n ==> CleanSlots(vs[j].table)
  }

  ghost predicate NoDirtUpTo(vs: seq<View>, es: seq<Event>, n: nat)
    requires n <= |es| && n < |vs|
  {
    forall j :: 0 <= j < n ==> !Dirties(vs[j], es[j])
  }

  lemma UpToNone(vs: seq<View>, es: seq<Event>)
    requires 0 < |vs|
    ensures (CleanUpTo(vs, 0) <==> CleanSlots(vs[0].table)) && NoDirtUpTo(vs, es, 0)
  {
    hide CleanSlots;
  }

  lemma UpToMore(vs: seq<View>, es: seq<Event>, n: nat)
    requires 0 < n <= |es| && n < |vs|
    ensures CleanUpTo(vs, n) <==> CleanUpTo(vs, n - 1) && CleanSlots(vs[n].table)
    ensures NoDirtUpTo(vs, es, n) <==> NoDirtUpTo(vs, es, n - 1) && !Dirties(vs[n - 1], es[n - 1])
    ensures CleanUpTo(vs, n - 1) ==> CleanSlots(vs[n - 1].table)
  {
    hide CleanSlots, Dirties;
  }

  /** Free slots stay unmarked through a run exactly when it has neither. */
  lemma {:induction false} CleanRunIff(init: int, vs: seq<View>, es: seq<Event>, n: nat)
    requires Run(init, vs, es) && n < |vs|
    ensures CleanUpTo(vs, n) <==> NoDirtUpTo(vs, es, n)
  {
    hide Next, CleanSlots, Dirties, CleanUpTo, NoDirtUpTo;
    if n == 0 {
      BootClean(init, vs[0]);
      UpToNone(vs, es);
    } else {
      CleanRunIff(init, vs, es, n - 1);
      RunInv(init, vs, es, n - 1);
      if CleanSlots(vs[n - 1].table) {
        CleanStep(init, vs[n - 1], vs[n], es[n - 1]);
      }
      UpToMore(vs, es, n);
    }
  }

  lemma BootClean(init: int, v: View)
    requires Boot(init, v)
    ensures CleanSlots(v.table)
  {
  }

  // ------------------------------------------------------------- two such runs

  /** Two slots; process 0 runs, and slot 1 is as given. */
  function Pair(slot: Proc, nextpid: int, forker: map<int, int>): View {
    View([Proc(RUNNING, 1, NONE, 0, false), slot], nextpid, forker)
  }

  function Started(): View {
    View([Proc(RUNNABLE, 1, NONE, 0, false), Proc(UNUSED, 0, NONE, 0, false)], 2, map[])
  }

  /** kill(0) finds the free slot, and fork makes a process in it that is born killed. */
  lemma BornKilled() returns (vs: seq<View>, es: seq<Event>)
    ensures Run(0, vs, es) && es == [Switch(0), Kill(0, 1), Alloc(0, 1)]
    ensures |vs[3].table| == 2 && vs[3].table[1].state == EMBRYO && vs[3].table[1].killed
  {
    var free := Proc(UNUSED, 0, NONE, 0, false);
    vs := [Started(), Pair(free, 2, map[]), Pair(Killed(free), 2, map[]), Pair(Proc(EMBRYO, 2, NONE, 0, true), 3, map[1 := 0])];
    es := [Switch(0), Kill(0, 1), Alloc(0, 1)];
    assert vs[1].table == vs[0].table[0 := vs[1].table[0]];
    assert vs[2].table == vs[1].table[1 := vs[2].table[1]];
    assert vs[3].table == vs[2].table[1 := vs[3].table[1]];
    assert Next(0, vs[0], vs[1], es[0]) && Next(0, vs[1], vs[2], es[1]) && Next(0, vs[2], vs[3], es[2]);
  }

  /** An embryo is killed and its fork then fails; the next fork makes a process that is born
      killed, although no kill found a free slot. */
  lemma BornKilledAfterAbort() returns (vs: seq<View>, es: seq<Event>)
    ensures Run(0, vs, es) && es == [Switch(0), Alloc(0, 1), Kill(2, 1), Abort(1), Alloc(0, 1)]
    ensures |vs[2].table| == |vs[5].table| == 2
    ensures vs[2].table[1].state == EMBRYO && vs[5].table[1].state == EMBRYO && vs[5].table[1].killed
  {
    vs := [Started(),
           Pair(Proc(UNUSED, 0, NONE, 0, false), 2, map[]),
           Pair(Proc(EMBRYO, 2, NONE, 0, false), 3, map[1 := 0]),
           Pair(Proc(EMBRYO, 2, NONE, 0, true), 3, map[1 := 0]),
           Pair(Proc(UNUSED, 2, NONE, 0, true), 3, map[]),
           Pair(Proc(EMBRYO, 3, NONE, 0, true), 4, map[1 := 0])];
    es := [Switch(0), Alloc(0, 1), Kill(2, 1), Abort(1), Alloc(0, 1)];
    forall j {:trigger es[j]} | 0 <= j < 5
      ensures Next(0, vs[j], vs[j + 1], es[j])
    {
      var i := if j == 0 then 0 else 1;
      assert vs[j + 1].table == vs[j].table[i := vs[j + 1].table[i]];
      assert vs[3].forker - {1} == map[];
    }
  }
}
