/** fork, exit, wait and kill of proc.c as values: what each critical section of ptable.lock
    does to the process table, and the family tree that all of them keep. */
module Procs {

  datatype ProcState = UNUSED | EMBRYO | SLEEPING | RUNNABLE | RUNNING | ZOMBIE

  /** parent is a slot, or NONE.  A channel is an address: that of slot i is i. */
  datatype Proc = Proc(state: ProcState, pid: int, parent: int, chan: int, killed: bool)

  const NONE: int := -1

  type Table = seq<Proc>

  predicate Live(p: Proc) {
    p.state == SLEEPING || p.state == RUNNABLE || p.state == RUNNING
  }

  /** wakeup1 */
  function Woken(s: Table, chan: int): (r: Table)
    ensures |r| == |s|
  {
    seq(|s|, i requires 0 <= i < |s| =>
      if s[i].state == SLEEPING && s[i].chan == chan then s[i].(state := RUNNABLE) else s[i])
  }

  /** The reparenting loop of exit(), without its wakeups. */
  function Adopted(s: Table, p: int, init: int): (r: Table)
    ensures |r| == |s|
  {
    seq(|s|, i requires 0 <= i < |s| => if s[i].parent == p then s[i].(parent := init) else s[i])
  }

  ghost predicate HasZombieChild(s: Table, p: int) {
    exists i :: 0 <= i < |s| && s[i].parent == p && s[i].state == ZOMBIE
  }

  ghost predicate HasChild(s: Table, p: int) {
    exists i :: 0 <= i < |s| && s[i].parent == p
  }

  ghost predicate HasLiveChild(s: Table, p: int) {
    exists i :: 0 <= i < |s| && s[i].parent == p && Live(s[i])
  }

  predicate AsleepInWait(s: Table, p: int)
    requires 0 <= p < |s|
  {
    s[p].state == SLEEPING && s[p].chan == p
  }

  /** An embryo gets its parent some time after its slot. */
  predicate HasParent(p: Proc) {
    p.state != UNUSED && (p.state != EMBRYO || p.parent != NONE)
  }

  /** The parent of slot i is a live process, and an older one. */
  predicate ParentOk(s: Table, i: int)
    requires 0 <= i < |s|
  {
    var q := s[i].parent;
    0 <= q < |s| && Live(s[q]) && s[q].pid < s[i].pid
  }

  /** Processes form a tree under init: every parent is live and older than its children. */
  ghost predicate Tree(s: Table, init: int) {
    && 0 <= init < |s| && Live(s[init]) && s[init].parent == NONE
    && (forall i :: 0 <= i < |s| && s[i].state == UNUSED ==> s[i].parent == NONE)
    && (forall i :: 0 <= i < |s| && s[i].state != UNUSED && i != init ==> s[init].pid < s[i].pid)
    && (forall i :: 0 <= i < |s| && i != init && HasParent(s[i]) ==> ParentOk(s, i))
  }

  /** Process ids were handed out before nextpid and no two slots have the same one; a slot
      that was never used, or was reaped, has pid 0. */
  ghost predicate Pids(s: Table, nextpid: int) {
    && (forall i :: 0 <= i < |s| ==> 0 <= s[i].pid < nextpid)
    && (forall i :: 0 <= i < |s| && s[i].state != UNUSED ==> s[i].pid != 0)
    && (forall i, j :: 0 <= i < j < |s| && s[i].pid == s[j].pid ==> s[i].pid == 0)
  }

  /** An embryo belongs to the live process that is forking it, which is not asleep in wait(). */
  ghost predicate Forking(s: Table, forker: map<int, int>) {
    && (forall i :: 0 <= i < |s| ==> (s[i].state == EMBRYO <==> i in forker))
    && (forall i :: i in forker ==>
          && 0 <= i < |s| && 0 <= forker[i] < |s|
          && Live(s[forker[i]]) && !AsleepInWait(s, forker[i]) && s[forker[i]].pid < s[i].pid
          && (s[i].parent == NONE || s[i].parent == forker[i]))
  }

  /** A process asleep in wait() has a live child, which can exit and wake it, and none that it
      should have reaped. */
  ghost predicate Waiting(s: Table) {
    forall p :: 0 <= p < |s| && AsleepInWait(s, p) ==> HasLiveChild(s, p) && !HasZombieChild(s, p)
  }

  ghost predicate Inv(s: Table, init: int, nextpid: int, forker: map<int, int>) {
    Tree(s, init) && Pids(s, nextpid) && Forking(s, forker) && Waiting(s)
  }

  // ---------------------------------------------- scheduling, sleep, wakeup and kill

  /** Same process, same parent, still live if it was. */
  predicate Kin(a: Proc, b: Proc) {
    a.pid == b.pid && a.parent == b.parent && (a.state == b.state || (Live(a) && Live(b)))
  }

  ghost predicate SameFamily(s: Table, r: Table) {
    |r| == |s| && forall i :: 0 <= i < |s| ==> Kin(s[i], r[i])
  }

  lemma SameFamilyTree(s: Table, r: Table, init: int)
    requires Tree(s, init) && SameFamily(s, r)
    ensures Tree(r, init)
  {
  }

  lemma SameFamilyPids(s: Table, r: Table, nextpid: int)
    requires Pids(s, nextpid) && SameFamily(s, r)
    ensures Pids(r, nextpid)
  {
  }

  lemma SameFamilyForking(s: Table, r: Table, forker: map<int, int>)
    requires Forking(s, forker) && SameFamily(s, r)
    requires forall p :: 0 <= p < |r| && AsleepInWait(r, p) ==> AsleepInWait(s, p) || p !in forker.Values
    ensures Forking(r, forker)
  {
  }

  lemma SameFamilyChildren(s: Table, r: Table, p: int)
    requires SameFamily(s, r)
    ensures HasLiveChild(s, p) <==> HasLiveChild(r, p)
    ensures HasZombieChild(s, p) <==> HasZombieChild(r, p)
  {
  }

  /** A change that leaves the family alone and puts nobody to sleep in wait(). */
  lemma SameFamilyInv(s: Table, r: Table, init: int, nextpid: int, forker: map<int, int>)
    requires Inv(s, init, nextpid, forker) && SameFamily(s, r)
    requires forall p :: 0 <= p < |r| && AsleepInWait(r, p) ==> AsleepInWait(s, p)
    ensures Inv(r, init, nextpid, forker)
  {
    SameFamilyTree(s, r, init);
    SameFamilyPids(s, r, nextpid);
    SameFamilyForking(s, r, forker);
    forall p | 0 <= p < |r| && AsleepInWait(r, p)
      ensures HasLiveChild(r, p) && !HasZombieChild(r, p)
    {
      assert AsleepInWait(s, p);
      SameFamilyChildren(s, r, p);
    }
  }

  lemma WokenInv(s: Table, init: int, nextpid: int, forker: map<int, int>, chan: int)
    requires Inv(s, init, nextpid, forker)
    ensures Inv(Woken(s, chan), init, nextpid, forker)
    ensures 0 <= chan < |s| ==> !AsleepInWait(Woken(s, chan), chan)
  {
    SameFamilyInv(s, Woken(s, chan), init, nextpid, forker);
  }

  // -------------------------------------------------------------------------- exit

  /** exit(): wake the parent, hand the children to init, wake init if it gained a zombie,
      become a zombie. */
  ghost function Exited(s: Table, p: int, init: int): Table
    requires 0 <= p < |s|
  {
    var a := Woken(s, s[p].parent);
    var b := Adopted(a, p, init);
    var c := if HasZombieChild(a, p) then Woken(b, init) else b;
    c[p := c[p].(state := ZOMBIE)]
  }

  /** exit(), slot by slot. */
  lemma ExitedAt(s: Table, p: int, init: int, i: int)
    requires 0 <= p < |s| && 0 <= i < |s|
    ensures var e := Exited(s, p, init);
            && |e| == |s| && e[i].pid == s[i].pid && e[i].chan == s[i].chan && e[i].killed == s[i].killed
            && e[i].parent == (if s[i].parent == p then init else s[i].parent)
            && (i == p ==> e[i].state == ZOMBIE)
            && (i != p ==> e[i].state == s[i].state || (s[i].state == SLEEPING && e[i].state == RUNNABLE))
            && (i != p && s[i].state == SLEEPING ==> (e[i].state == RUNNABLE <==> WokenByExit(s, p, init, s[i].chan)))
  {
    WokenZombies(s, s[p].parent, p);
  }

  /** Whom the exit of p wakes: its parent, and init if init gains a zombie. */
  ghost predicate WokenByExit(s: Table, p: int, init: int, chan: int)
    requires 0 <= p < |s|
  {
    chan == s[p].parent || (chan == init && HasZombieChild(s, p))
  }

  lemma WokenZombies(s: Table, chan: int, p: int)
    ensures HasZombieChild(Woken(s, chan), p) <==> HasZombieChild(s, p)
  {
    var w := Woken(s, chan);
    assert forall i :: 0 <= i < |s| ==> w[i].parent == s[i].parent && (w[i].state == ZOMBIE <==> s[i].state == ZOMBIE);
  }

  lemma ExitedTree(s: Table, p: int, init: int)
    requires Tree(s, init) && 0 <= p < |s| && p != init && Live(s[p])
    ensures Tree(Exited(s, p, init), init)
  {
    var e := Exited(s, p, init);
    ExitedAt(s, p, init, init);
    forall i | 0 <= i < |e|
      ensures e[i].state == UNUSED ==> e[i].parent == NONE
      ensures e[i].state != UNUSED && i != init ==> e[init].pid < e[i].pid
      ensures i != init && HasParent(e[i]) ==> ParentOk(e, i)
    {
      ExitedAt(s, p, init, i);
      if i != init && HasParent(s[i]) {
        assert ParentOk(s, i);
        ExitedAt(s, p, init, s[i].parent);
      }
    }
  }

  lemma ExitedPids(s: Table, p: int, init: int, nextpid: int)
    requires Pids(s, nextpid) && 0 <= p < |s| && Live(s[p])
    ensures Pids(Exited(s, p, init), nextpid)
  {
    var e := Exited(s, p, init);
    forall i | 0 <= i < |e|
      ensures e[i].pid == s[i].pid && (e[i].state == UNUSED <==> s[i].state == UNUSED)
    {
      ExitedAt(s, p, init, i);
    }
  }

  lemma ExitedForking(s: Table, p: int, init: int, forker: map<int, int>)
    requires Forking(s, forker) && 0 <= p < |s| && Live(s[p]) && p != NONE
    requires p !in forker.Values
    ensures Forking(Exited(s, p, init), forker)
  {
    var e := Exited(s, p, init);
    forall i | 0 <= i < |e|
      ensures e[i].pid == s[i].pid && (e[i].state == EMBRYO <==> s[i].state == EMBRYO)
      ensures i != p && Live(s[i]) ==> Live(e[i])
      ensures s[i].state == EMBRYO ==> e[i].parent == s[i].parent
      ensures AsleepInWait(e, i) ==> AsleepInWait(s, i)
    {
      ExitedAt(s, p, init, i);
    }
  }

  lemma ExitedWaiting(s: Table, p: int, init: int)
    requires Tree(s, init) && Waiting(s) && 0 <= p < |s| && p != init && Live(s[p])
    ensures Waiting(Exited(s, p, init))
  {
    var e := Exited(s, p, init);
    forall q | 0 <= q < |e| && AsleepInWait(e, q)
      ensures HasLiveChild(e, q) && !HasZombieChild(e, q)
    {
      ExitedAt(s, p, init, q);
      assert q != p && AsleepInWait(s, q);
      var c :| 0 <= c < |s| && s[c].parent == q && Live(s[c]);
      ExitedAt(s, p, init, c);
      assert e[c].parent == q && Live(e[c]);
      forall i | 0 <= i < |e| && e[i].parent == q
        ensures e[i].state != ZOMBIE
      {
        ExitedAt(s, p, init, i);
        assert s[i].parent == q ==> s[i].state != ZOMBIE;
        assert ParentOk(s, p);
      }
    }
  }

  lemma ExitedInv(s: Table, p: int, init: int, nextpid: int, forker: map<int, int>)
    requires Inv(s, init, nextpid, forker) && 0 <= p < |s| && p != init && Live(s[p])
    requires p !in forker.Values
    ensures Inv(Exited(s, p, init), init, nextpid, forker)
  {
    ExitedTree(s, p, init);
    ExitedPids(s, p, init, nextpid);
    ExitedForking(s, p, init, forker);
    ExitedWaiting(s, p, init);
  }

  /** Following parents from any process leads to init. */
  lemma {:induction false} PathToInit(s: Table, init: int, i: int) returns (path: seq<int>)
    requires Tree(s, init) && 0 <= i < |s| && (i == init || HasParent(s[i]))
    ensures |path| >= 1 && path[0] == i && path[|path| - 1] == init
    ensures forall k :: 0 <= k < |path| ==> 0 <= path[k] < |s|
    ensures forall k :: 0 < k < |path| ==> Live(s[path[k]]) && s[path[k - 1]].parent == path[k]
    decreases s[i].pid - s[init].pid
  {
    if i == init {
      path := [i];
    } else {
      assert ParentOk(s, i) && s[init].pid < s[i].pid;
      hide Tree;
      var q := s[i].parent;
      var rest := PathToInit(s, init, q);
      path := [i] + rest;
      assert forall k :: 0 < k < |path| ==> path[k] == rest[k - 1];
    }
  }

  // ------------------------------------------- fork and wait: one slot at a time

  ghost predicate OnlySlot(s: Table, r: Table, i: int) {
    0 <= i < |s| == |r| && forall j :: 0 <= j < |s| && j != i ==> r[j] == s[j]
  }

  lemma SlotTree(s: Table, r: Table, init: int, i: int)
    requires Tree(s, init) && OnlySlot(s, r, i) && i != init
    requires Live(s[i]) ==> Live(r[i]) && r[i].pid == s[i].pid
    requires r[i].state == UNUSED ==> r[i].parent == NONE
    requires r[i].state != UNUSED ==> s[init].pid < r[i].pid
    requires HasParent(r[i]) ==> ParentOk(r, i)
    ensures Tree(r, init)
  {
  }

  lemma SlotPids(s: Table, r: Table, nextpid: int, nextpid': int, i: int)
    requires Pids(s, nextpid) && OnlySlot(s, r, i) && 1 <= nextpid <= nextpid'
    requires || (r[i].pid == s[i].pid && (s[i].state != UNUSED || r[i].state == UNUSED))
             || r[i].pid == nextpid < nextpid'
             || (r[i].pid == 0 && r[i].state == UNUSED)
    ensures Pids(r, nextpid')
  {
  }

  lemma SlotForking(s: Table, r: Table, forker: map<int, int>, forker': map<int, int>, i: int)
    requires Forking(s, forker) && OnlySlot(s, r, i) && !AsleepInWait(r, i)
    requires Live(s[i]) ==> Live(r[i]) && r[i].pid == s[i].pid
    requires forall j :: j != i ==> (j in forker' <==> j in forker) && (j in forker ==> forker'[j] == forker[j])
    requires r[i].state == EMBRYO <==> i in forker'
    requires i in forker' ==>
               && 0 <= forker'[i] < |s| && forker'[i] != i
               && Live(s[forker'[i]]) && !AsleepInWait(s, forker'[i]) && s[forker'[i]].pid < r[i].pid
               && (r[i].parent == NONE || r[i].parent == forker'[i])
    ensures Forking(r, forker')
  {
  }

  /** Slot i changes, but not in a way that a waiter would notice. */
  lemma SlotWaiting(s: Table, r: Table, i: int)
    requires Waiting(s) && OnlySlot(s, r, i) && !AsleepInWait(r, i)
    requires r[i].state == ZOMBIE ==> s[i].state == ZOMBIE && r[i].parent == s[i].parent
    requires Live(s[i]) ==> Live(r[i]) && r[i].parent == s[i].parent
    ensures Waiting(r)
  {
    forall p | 0 <= p < |r| && AsleepInWait(r, p)
      ensures HasLiveChild(r, p) && !HasZombieChild(r, p)
    {
      assert p != i && AsleepInWait(s, p);
      var c :| 0 <= c < |s| && s[c].parent == p && Live(s[c]);
      assert r[c].parent == p && Live(r[c]);
    }
  }

  lemma Embryo(s: Table, init: int, nextpid: int, forker: map<int, int>, p: int, i: int)
    requires Inv(s, init, nextpid, forker) && 0 <= i < |s| && s[i].state == UNUSED && 0 <= p < |s| && s[p].state == RUNNING
    ensures Inv(s[i := s[i].(state := EMBRYO, pid := nextpid)], init, nextpid + 1, forker[i := p])
  {
    var r := s[i := s[i].(state := EMBRYO, pid := nextpid)];
    SlotTree(s, r, init, i);
    SlotPids(s, r, nextpid, nextpid + 1, i);
    SlotForking(s, r, forker, forker[i := p], i);
    SlotWaiting(s, r, i);
  }

  /** allocproc or copyuvm failed: the slot goes back, keeping the pid it was given. */
  lemma Stillborn(s: Table, init: int, nextpid: int, forker: map<int, int>, i: int)
    requires Inv(s, init, nextpid, forker) && i in forker && s[i].parent == NONE
    ensures Inv(s[i := s[i].(state := UNUSED)], init, nextpid, forker - {i})
  {
    var r := s[i := s[i].(state := UNUSED)];
    assert i != init && s[i].state == EMBRYO;
    SlotTree(s, r, init, i);
    SlotPids(s, r, nextpid, nextpid, i);
    SlotForking(s, r, forker, forker - {i}, i);
    SlotWaiting(s, r, i);
  }

  /** The embryo gets its parent, without the lock. */
  lemma GetsParent(s: Table, init: int, nextpid: int, forker: map<int, int>, i: int)
    requires Inv(s, init, nextpid, forker) && i in forker
    ensures Inv(s[i := s[i].(parent := forker[i])], init, nextpid, forker)
  {
    var r := s[i := s[i].(parent := forker[i])];
    SlotTree(s, r, init, i);
    SlotPids(s, r, nextpid, nextpid, i);
    SlotForking(s, r, forker, forker, i);
    SlotWaiting(s, r, i);
  }

  lemma Born(s: Table, init: int, nextpid: int, forker: map<int, int>, i: int)
    requires Inv(s, init, nextpid, forker) && i in forker && s[i].parent == forker[i]
    ensures Inv(s[i := s[i].(state := RUNNABLE)], init, nextpid, forker - {i})
  {
    var r := s[i := s[i].(state := RUNNABLE)];
    SlotTree(s, r, init, i);
    SlotPids(s, r, nextpid, nextpid, i);
    SlotForking(s, r, forker, forker - {i}, i);
    SlotWaiting(s, r, i);
  }

  /** wait() takes a zombie child off the table. */
  lemma Reaped(s: Table, init: int, nextpid: int, forker: map<int, int>, i: int)
    requires Inv(s, init, nextpid, forker) && 0 <= i < |s| && s[i].state == ZOMBIE
    ensures Inv(s[i := s[i].(state := UNUSED, pid := 0, parent := NONE, killed := false)], init, nextpid, forker)
  {
    var r := s[i := s[i].(state := UNUSED, pid := 0, parent := NONE, killed := false)];
    SlotTree(s, r, init, i);
    SlotPids(s, r, nextpid, nextpid, i);
    SlotForking(s, r, forker, forker, i);
    SlotWaiting(s, r, i);
  }

  /** A child of a process that is not forking is live unless it is a zombie. */
  lemma ChildIsLive(s: Table, init: int, forker: map<int, int>, p: int)
    requires Tree(s, init) && Forking(s, forker) && 0 <= p && p !in forker.Values
    requires HasChild(s, p) && !HasZombieChild(s, p)
    ensures HasLiveChild(s, p)
  {
    assert forall i :: i in forker ==> forker[i] in forker.Values;
    var c :| 0 <= c < |s| && s[c].parent == p;
    assert Live(s[c]);
  }

  /** wait() goes to sleep after a scan that found a child and no zombie. */
  lemma SleepsInWait(s: Table, init: int, nextpid: int, forker: map<int, int>, p: int)
    requires Inv(s, init, nextpid, forker) && 0 <= p < |s| && Live(s[p]) && HasChild(s, p) && !HasZombieChild(s, p)
    requires p !in forker.Values
    ensures Inv(s[p := s[p].(state := SLEEPING, chan := p)], init, nextpid, forker)
  {
    hide Tree, Pids, Forking, HasLiveChild, HasZombieChild;
    var r := s[p := s[p].(state := SLEEPING, chan := p)];
    SameFamilyTree(s, r, init);
    SameFamilyPids(s, r, nextpid);
    SameFamilyForking(s, r, forker);
    ChildIsLive(s, init, forker, p);
    forall q | 0 <= q < |r| && AsleepInWait(r, q)
      ensures HasLiveChild(r, q) && !HasZombieChild(r, q)
    {
      SameFamilyChildren(s, r, q);
      assert q != p ==> AsleepInWait(s, q);
    }
  }
}
