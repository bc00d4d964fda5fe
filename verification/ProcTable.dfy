/** proc.c's process table.  Every method is one critical section of ptable.lock (or an
    unlocked assignment), so any run of any processes is a sequence of calls; each says which
    step of `ProcRuns` it makes. */
module ProcTable {
  import opened Procs
  import opened ProcRuns

  /** Pids that wait() has returned were handed out once and are in no slot any more. */
  ghost predicate Retired(s: Table, nextpid: int, reaped: set<int>) {
    && (forall pid :: pid in reaped ==> 1 <= pid < nextpid)
    && (forall i :: 0 <= i < |s| ==> s[i].pid !in reaped)
  }

  lemma ExitedRetired(s: Table, p: int, init: int, nextpid: int, reaped: set<int>)
    requires Retired(s, nextpid, reaped) && 0 <= p < |s|
    ensures Retired(Exited(s, p, init), nextpid, reaped)
  {
  }

  lemma EmbryoRetired(s: Table, nextpid: int, reaped: set<int>, i: int)
    requires Retired(s, nextpid, reaped) && 0 <= i < |s|
    ensures Retired(s[i := s[i].(state := EMBRYO, pid := nextpid)], nextpid + 1, reaped)
  {
  }

  lemma SamePidsRetired(s: Table, r: Table, nextpid: int, reaped: set<int>)
    requires Retired(s, nextpid, reaped) && SameFamily(s, r)
    ensures Retired(r, nextpid, reaped)
  {
  }

  /** Zombie z, a child of p, is off the table and nothing else has changed. */
  ghost predicate IsReaped(s: Table, r: Table, p: int, z: int, pid: int) {
    && 0 <= z < |s| && s[z].parent == p && s[z].state == ZOMBIE && s[z].pid == pid
    && r == s[z := Proc(UNUSED, 0, NONE, s[z].chan, false)]
  }

  lemma ReapedRetired(s: Table, nextpid: int, reaped: set<int>, z: int)
    requires Pids(s, nextpid) && Retired(s, nextpid, reaped) && 0 <= z < |s| && s[z].state != UNUSED
    ensures s[z].pid !in reaped
    ensures Retired(s[z := Cleared(s[z])], nextpid, reaped + {s[z].pid})
  {
  }

  /** kill(pid) reaches a process exactly when a process has that pid; otherwise, if it finds a
      slot at all, the slot is a free one.  kill(0) always finds a free one. */
  lemma KillReachesIff(s: Table, nextpid: int, pid: int, k: int)
    requires Pids(s, nextpid) && FirstWith(s, pid, k)
    ensures s[k].state != UNUSED <==> exists i :: 0 <= i < |s| && s[i].state != UNUSED && s[i].pid == pid
    ensures pid == 0 ==> s[k].state == UNUSED
  {
  }

  /** exit()'s loop over the first i slots, with or without a wakeup1(initproc) so far. */
  function Partly(a: Table, p: int, init: int, i: int, woke: bool): (r: Table)
    ensures |r| == |a|
  {
    seq(|a|, j requires 0 <= j < |a| =>
      var x := if j < i && a[j].parent == p then a[j].(parent := init) else a[j];
      if woke && x.state == SLEEPING && x.chan == init then x.(state := RUNNABLE) else x)
  }

  lemma PartlyAll(a: Table, p: int, init: int, woke: bool)
    ensures Partly(a, p, init, |a|, woke) == if woke then Woken(Adopted(a, p, init), init) else Adopted(a, p, init)
  {
  }

  datatype WaitResult = Reaped(pid: int) | NoChild | Asleep

  class Ptable {
    const procs: array<Proc>
    const initproc: int
    var nextpid: int
    ghost var forker: map<int, int>   // embryo slot to the process forking it
    ghost var reaped: set<int>        // pids that wait() has returned

    ghost predicate Valid()
      reads this, procs
    {
      Inv(procs[..], initproc, nextpid, forker) && Retired(procs[..], nextpid, reaped)
    }

    ghost function Now(): View
      reads this, procs
    {
      View(procs[..], nextpid, forker)
    }

    /** userinit: one process, and every other slot free. */
    constructor (n: nat)
      requires n >= 1
      ensures Valid() && fresh(procs) && procs.Length == n && Boot(initproc, Now()) && CleanSlots(procs[..])
    {
      procs := new Proc[n](i => if i == 0 then Proc(RUNNABLE, 1, NONE, 0, false) else Proc(UNUSED, 0, NONE, 0, false));
      initproc, nextpid, forker, reaped := 0, 2, map[], {};
    }

    /** wakeup1: a loop over the table. */
    method Wakeup1(chan: int)
      modifies procs
      ensures procs[..] == Woken(old(procs[..]), chan)
      ensures forall i :: 0 <= i < procs.Length ==>
                && procs[i] == old(procs[i]).(state := procs[i].state)
                && (if old(procs[i]).state == SLEEPING && old(procs[i]).chan == chan then procs[i].state == RUNNABLE
                    else procs[i].state == old(procs[i]).state)
    {
      ghost var s := procs[..];
      var i := 0;
      while i < procs.Length
        invariant 0 <= i <= procs.Length
        invariant procs[..i] == Woken(s, chan)[..i] && procs[i..] == s[i..]
      {
        assert procs[i] == s[i];
        if procs[i].state == SLEEPING && procs[i].chan == chan {
          procs[i] := procs[i].(state := RUNNABLE);
        }
        i := i + 1;
      }
    }

    method Wakeup(chan: int)
      requires Valid()
      modifies procs
      ensures Valid() && procs[..] == Woken(old(procs[..]), chan)
      ensures Next(initproc, old(Now()), Now(), ProcRuns.Wakeup(chan))
      ensures old(CleanSlots(procs[..])) ==> CleanSlots(procs[..])
    {
      hide Inv, CleanSlots;
      ghost var v := Now();
      WokenInv(procs[..], initproc, nextpid, forker, chan);
      Wakeup1(chan);
      CleanAfter(initproc, v, Now(), ProcRuns.Wakeup(chan));
    }

    method FindUnused() returns (np: int)
      ensures -1 <= np < procs.Length
      ensures np == -1 ==> forall i :: 0 <= i < procs.Length ==> procs[i].state != UNUSED
      ensures np != -1 ==> procs[np].state == UNUSED && forall i :: 0 <= i < np ==> procs[i].state != UNUSED
    {
      np := 0;
      while np < procs.Length
        invariant 0 <= np <= procs.Length && forall i :: 0 <= i < np ==> procs[i].state != UNUSED
      {
        if procs[np].state == UNUSED {
          return;
        }
        np := np + 1;
      }
      np := -1;
    }

    /** The first half of allocproc, run by process p in fork: the first free slot becomes an
        embryo with a new pid.  Its killed flag is whatever was left there. */
    method AllocProc(p: int) returns (np: int)
      requires Valid() && 0 <= p < procs.Length && procs[p].state == RUNNING && p !in forker.Values
      modifies this`nextpid, this`forker, procs
      ensures Valid() && -1 <= np < procs.Length
      ensures np == -1 ==> procs[..] == old(procs[..]) && nextpid == old(nextpid) && forker == old(forker)
      ensures np == -1 ==> forall i :: 0 <= i < procs.Length ==> procs[i].state != UNUSED
      ensures np != -1 ==>
                && old(procs[np]).state == UNUSED && (forall i :: 0 <= i < np ==> old(procs[i]).state != UNUSED)
                && procs[..] == old(procs[..])[np := old(procs[np]).(state := EMBRYO, pid := old(nextpid))]
                && nextpid == old(nextpid) + 1 && forker == old(forker)[np := p]
                && Next(initproc, old(Now()), Now(), Alloc(p, np))
      ensures old(CleanSlots(procs[..])) ==> CleanSlots(procs[..])
    {
      hide Inv, Retired, CleanSlots;
      ghost var v := Now();
      np := FindUnused();
      if np != -1 {
        ghost var s := procs[..];
        EmbryoRetired(s, nextpid, reaped, np);
        Embryo(s, initproc, nextpid, forker, p, np);
        procs[np] := procs[np].(state := EMBRYO, pid := nextpid);
        assert procs[..] == s[np := s[np].(state := EMBRYO, pid := nextpid)];
        nextpid, forker := nextpid + 1, forker[np := p];
        CleanAfter(initproc, v, Now(), Alloc(p, np));
      }
    }

    /** kalloc or copyuvm failed: the slot is free again but keeps its pid, and its mark if it was
        killed meanwhile. */
    method Abort(np: int)
      requires Valid() && np in forker && procs[np].parent == NONE
      modifies this`forker, procs
      ensures Valid() && procs[..] == old(procs[..])[np := old(procs[np]).(state := UNUSED)] && forker == old(forker) - {np}
      ensures Next(initproc, old(Now()), Now(), ProcRuns.Abort(np))
      ensures old(CleanSlots(procs[..])) ==> (CleanSlots(procs[..]) <==> !old(procs[np]).killed)
    {
      ghost var v := Now();
      Stillborn(procs[..], initproc, nextpid, forker, np);
      procs[np] := procs[np].(state := UNUSED);
      forker := forker - {np};
      assert procs[..] == v.table[np := v.table[np].(state := UNUSED)];
      CleanAfter(initproc, v, Now(), ProcRuns.Abort(np));
    }

    /** The embryo gets its parent, without the lock. */
    method SetParent(np: int, p: int)
      requires Valid() && np in forker && forker[np] == p
      modifies procs
      ensures Valid() && procs[..] == old(procs[..])[np := old(procs[np]).(parent := p)]
      ensures Next(initproc, old(Now()), Now(), ProcRuns.SetParent(np))
      ensures old(CleanSlots(procs[..])) ==> CleanSlots(procs[..])
    {
      ghost var v := Now();
      GetsParent(procs[..], initproc, nextpid, forker, np);
      procs[np] := procs[np].(parent := p);
      assert procs[..] == v.table[np := v.table[np].(parent := p)];
      CleanAfter(initproc, v, Now(), ProcRuns.SetParent(np));
    }

    /** The last critical section of fork. */
    method MakeRunnable(np: int)
      requires Valid() && np in forker && procs[np].parent == forker[np]
      modifies this`forker, procs
      ensures Valid() && procs[..] == old(procs[..])[np := old(procs[np]).(state := RUNNABLE)] && forker == old(forker) - {np}
      ensures Next(initproc, old(Now()), Now(), ProcRuns.MakeRunnable(np))
      ensures old(CleanSlots(procs[..])) ==> CleanSlots(procs[..])
    {
      ghost var v := Now();
      Born(procs[..], initproc, nextpid, forker, np);
      procs[np] := procs[np].(state := RUNNABLE);
      forker := forker - {np};
      assert procs[..] == v.table[np := v.table[np].(state := RUNNABLE)];
      CleanAfter(initproc, v, Now(), ProcRuns.MakeRunnable(np));
    }

    /** exit() after its checks. */
    method BecomeZombie(p: int)
      requires 0 <= p < procs.Length
      modifies procs
      ensures procs[..] == Exited(old(procs[..]), p, initproc)
    {
      Wakeup1(procs[p].parent);
      Reparent(p);
      procs[p] := procs[p].(state := ZOMBIE);
    }

    /** exit() of process p, which is not in the middle of a fork; false where init exits. */
    method Exit(p: int) returns (ok: bool)
      requires Valid() && 0 <= p < procs.Length && procs[p].state == RUNNING
      requires p !in forker.Values
      modifies procs
      ensures Valid() && (ok <==> p != initproc)
      ensures ok ==> procs[..] == Exited(old(procs[..]), p, initproc)
      ensures ok ==> Next(initproc, old(Now()), Now(), ProcRuns.Exit(p))
      ensures !ok ==> procs[..] == old(procs[..])
      ensures old(CleanSlots(procs[..])) ==> CleanSlots(procs[..])
    {
      hide Inv, Retired, CleanSlots;
      if p == initproc {
        return false;
      }
      ghost var s := procs[..];
      ExitedInv(s, p, initproc, nextpid, forker);
      ExitedRetired(s, p, initproc, nextpid, reaped);
      ghost var v := Now();
      BecomeZombie(p);
      CleanAfter(initproc, v, Now(), ProcRuns.Exit(p));
      ok := true;
    }

    /** exit()'s loop: initproc becomes the parent of every child of p. */
    method Reparent(p: int)
      requires 0 <= p < procs.Length
      modifies procs
      ensures var a := old(procs[..]);
              procs[..] == if HasZombieChild(a, p) then Woken(Adopted(a, p, initproc), initproc) else Adopted(a, p, initproc)
    {
      ghost var a, woke := procs[..], false;
      assert procs[..] == Partly(a, p, initproc, 0, false);
      var i := 0;
      while i < procs.Length
        invariant 0 <= i <= procs.Length
        invariant procs[..] == Partly(a, p, initproc, i, woke)
        invariant woke <==> exists j :: 0 <= j < i && a[j].parent == p && a[j].state == ZOMBIE
      {
        assert procs[i] == Partly(a, p, initproc, i, woke)[i];
        if procs[i].parent == p {
          procs[i] := procs[i].(parent := initproc);
          assert procs[..] == Partly(a, p, initproc, i + 1, woke);
          if procs[i].state == ZOMBIE {
            Wakeup1(initproc);
            woke := true;
          }
        }
        assert procs[..] == Partly(a, p, initproc, i + 1, woke);
        i := i + 1;
      }
      PartlyAll(a, p, initproc, woke);
    }

    /** wait()'s scan: it stops at the first zombie child. */
    method ScanChildren(p: int) returns (havekids: bool, z: int)
      ensures -1 <= z < procs.Length
      ensures z == -1 ==> !HasZombieChild(procs[..], p) && (havekids <==> HasChild(procs[..], p))
      ensures z != -1 ==> procs[z].parent == p && procs[z].state == ZOMBIE
      ensures z != -1 ==> forall i :: 0 <= i < z ==> !(procs[i].parent == p && procs[i].state == ZOMBIE)
    {
      havekids, z := false, 0;
      while z < procs.Length
        invariant 0 <= z <= procs.Length
        invariant forall i :: 0 <= i < z ==> !(procs[i].parent == p && procs[i].state == ZOMBIE)
        invariant havekids <==> exists i :: 0 <= i < z && procs[i].parent == p
      {
        if procs[z].parent == p {
          havekids := true;
          if procs[z].state == ZOMBIE {
            return;
          }
        }
        z := z + 1;
      }
      z := -1;
    }

    /** One turn of wait()'s loop, for a process that is not in the middle of a fork: reap a zombie
        child, give up, or go to sleep.  A pid that is
        returned was never returned before and never will be again. */
    method Wait(p: int) returns (r: WaitResult)
      requires Valid() && 0 <= p < procs.Length && procs[p].state == RUNNING && p !in forker.Values
      modifies this`reaped, procs
      ensures Valid()
      ensures r.Reaped? <==> HasZombieChild(old(procs[..]), p)
      ensures r.Reaped? ==>
                && r.pid !in old(reaped) && reaped == old(reaped) + {r.pid}
                && exists z :: 0 <= z < procs.Length && IsReaped(old(procs[..]), procs[..], p, z, r.pid)
                               && Next(initproc, old(Now()), Now(), ProcRuns.Reap(p, z))
      ensures !r.Reaped? ==> reaped == old(reaped)
      ensures r == NoChild ==> (!HasChild(old(procs[..]), p) || procs[p].killed) && procs[..] == old(procs[..])
      ensures r == Asleep ==>
                && HasChild(old(procs[..]), p) && !old(procs[p].killed)
                && procs[..] == old(procs[..])[p := old(procs[p]).(state := SLEEPING, chan := p)]
                && Next(initproc, old(Now()), Now(), SleepInWait(p))
      ensures old(CleanSlots(procs[..])) ==> CleanSlots(procs[..])
    {
      hide Inv, Retired, CleanSlots;
      ghost var v := Now();
      var havekids, z := ScanChildren(p);
      if z != -1 {
        var pid := Reap(p, z);
        return Reaped(pid);
      }
      if !havekids || procs[p].killed {
        return NoChild;
      }
      ghost var s := procs[..];
      SleepsInWait(s, initproc, nextpid, forker, p);
      procs[p] := procs[p].(state := SLEEPING, chan := p);
      assert procs[..] == s[p := s[p].(state := SLEEPING, chan := p)];
      SamePidsRetired(s, procs[..], nextpid, reaped);
      CleanAfter(initproc, v, Now(), SleepInWait(p));
      r := Asleep;
    }

    method Reap(p: int, z: int) returns (pid: int)
      requires Valid() && 0 <= p < procs.Length && procs[p].state == RUNNING && p !in forker.Values
      requires 0 <= z < procs.Length && procs[z].parent == p && procs[z].state == ZOMBIE
      modifies this`reaped, procs
      ensures Valid() && pid !in old(reaped) && reaped == old(reaped) + {pid}
      ensures IsReaped(old(procs[..]), procs[..], p, z, pid)
      ensures Next(initproc, old(Now()), Now(), ProcRuns.Reap(p, z))
      ensures old(CleanSlots(procs[..])) ==> CleanSlots(procs[..])
    {
      hide CleanSlots;
      ghost var s, v := procs[..], Now();
      Procs.Reaped(s, initproc, nextpid, forker, z);
      pid := procs[z].pid;
      ReapedRetired(s, nextpid, reaped, z);
      procs[z] := Cleared(procs[z]);
      assert procs[..] == s[z := Cleared(s[z])];
      CleanAfter(initproc, v, Now(), ProcRuns.Reap(p, z));
      reaped := reaped + {pid};
    }

    method FindPid(pid: int) returns (k: int)
      ensures -1 <= k < procs.Length
      ensures k == -1 ==> forall i :: 0 <= i < procs.Length ==> procs[i].pid != pid
      ensures k != -1 ==> FirstWith(procs[..], pid, k)
    {
      k := 0;
      while k < procs.Length
        invariant 0 <= k <= procs.Length && forall i :: 0 <= i < k ==> procs[i].pid != pid
      {
        if procs[k].pid == pid {
          return;
        }
        k := k + 1;
      }
      k := -1;
    }

    /** Marks the first slot with that pid, used or not.  Free slots stay clean exactly when
        that slot is not a free one. */
    method Kill(pid: int) returns (ok: bool, ghost k: int)
      requires Valid()
      modifies procs
      ensures Valid()
      ensures ok <==> exists i :: 0 <= i < procs.Length && old(procs[i]).pid == pid
      ensures !ok ==> procs[..] == old(procs[..])
      ensures ok ==> FirstWith(old(procs[..]), pid, k) && procs[..] == old(procs[..])[k := Killed(old(procs[k]))]
      // it is marked, and it is not asleep any more
      ensures ok ==> procs[k].killed && procs[k].state == if old(procs[k]).state == SLEEPING then RUNNABLE else old(procs[k]).state
      ensures ok ==> Next(initproc, old(Now()), Now(), ProcRuns.Kill(pid, k))
      ensures old(CleanSlots(procs[..])) ==> (CleanSlots(procs[..]) <==> !(ok && old(procs[k]).state == UNUSED))
    {
      hide Inv, Retired, CleanSlots;
      ghost var v := Now();
      var i := FindPid(pid);
      k, ok := i, i != -1;
      if ok {
        ghost var s := procs[..];
        procs[i] := procs[i].(killed := true);
        if procs[i].state == SLEEPING {
          procs[i] := procs[i].(state := RUNNABLE);
        }
        assert procs[..] == s[i := Killed(s[i])];
        SameFamilyInv(s, procs[..], initproc, nextpid, forker);
        SamePidsRetired(s, procs[..], nextpid, reaped);
        CleanAfter(initproc, v, Now(), ProcRuns.Kill(pid, k));
      }
    }

    /** A trap in user space makes the process mark itself. */
    method Fault(p: int)
      requires Valid() && 0 <= p < procs.Length && procs[p].state == RUNNING
      modifies procs
      ensures Valid() && procs[..] == old(procs[..])[p := old(procs[p]).(killed := true)]
      ensures Next(initproc, old(Now()), Now(), ProcRuns.Fault(p))
      ensures old(CleanSlots(procs[..])) ==> CleanSlots(procs[..])
    {
      hide Inv, Retired, CleanSlots;
      ghost var s, v := procs[..], Now();
      procs[p] := procs[p].(killed := true);
      assert procs[..] == s[p := s[p].(killed := true)];
      SameFamilyInv(s, procs[..], initproc, nextpid, forker);
      SamePidsRetired(s, procs[..], nextpid, reaped);
      CleanAfter(initproc, v, Now(), ProcRuns.Fault(p));
    }

    /** sleep() on a channel other than the process itself. */
    method Sleep(p: int, chan: int)
      requires Valid() && 0 <= p < procs.Length && procs[p].state == RUNNING && chan != p
      modifies procs
      ensures Valid() && procs[..] == old(procs[..])[p := old(procs[p]).(state := SLEEPING, chan := chan)]
      ensures Next(initproc, old(Now()), Now(), ProcRuns.Sleep(p, chan))
      ensures old(CleanSlots(procs[..])) ==> CleanSlots(procs[..])
    {
      hide Inv, Retired, CleanSlots;
      ghost var s, v := procs[..], Now();
      procs[p] := procs[p].(state := SLEEPING, chan := chan);
      assert procs[..] == s[p := s[p].(state := SLEEPING, chan := chan)];
      SameFamilyInv(s, procs[..], initproc, nextpid, forker);
      SamePidsRetired(s, procs[..], nextpid, reaped);
      CleanAfter(initproc, v, Now(), ProcRuns.Sleep(p, chan));
    }

    /** scheduler() picks a runnable process; yield() puts it back. */
    method Switch(p: int)
      requires Valid() && 0 <= p < procs.Length && (procs[p].state == RUNNABLE || procs[p].state == RUNNING)
      modifies procs
      ensures Valid()
      ensures procs[..] == old(procs[..])[p := old(procs[p]).(state := if old(procs[p]).state == RUNNABLE then RUNNING else RUNNABLE)]
      ensures Next(initproc, old(Now()), Now(), ProcRuns.Switch(p))
      ensures old(CleanSlots(procs[..])) ==> CleanSlots(procs[..])
    {
      hide Inv, Retired, CleanSlots;
      ghost var s, v := procs[..], Now();
      procs[p] := procs[p].(state := if procs[p].state == RUNNABLE then RUNNING else RUNNABLE);
      assert procs[..] == s[p := s[p].(state := if s[p].state == RUNNABLE then RUNNING else RUNNABLE)];
      SameFamilyInv(s, procs[..], initproc, nextpid, forker);
      SamePidsRetired(s, procs[..], nextpid, reaped);
      CleanAfter(initproc, v, Now(), ProcRuns.Switch(p));
    }
  }
}
