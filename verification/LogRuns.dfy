/** Theorems about whole runs of the logging protocol. */
module LogRuns {
  import opened Param
  import opened DiskBlock
  import opened LogFormat
  import opened LogProtocol
  import opened LogRefinement

  ghost predicate Behavior(cfg: Config, ss: seq<State>, steps: seq<Step>) {
    && |ss| == |steps| + 1
    && Init(cfg, ss[0])
    && forall i {:trigger steps[i]} :: 0 <= i < |steps| ==> Next(cfg, ss[i], ss[i + 1], steps[i])
  }

  /** The list of logged blocks never outgrows the log area. */
  ghost predicate Inside(cfg: Config, ss: seq<State>) {
    forall i :: 0 <= i < |ss| ==> |ss[i].lh| < cfg.size
  }

  lemma InitInv(cfg: Config, s: State)
    requires Init(cfg, s)
    ensures Inv(cfg, s)
  {
  }

  /** Every state of a run that stays inside the log area satisfies the invariant. */
  lemma {:induction false} Safety(cfg: Config, ss: seq<State>, steps: seq<Step>, i: nat)
    requires Behavior(cfg, ss, steps) && Inside(cfg, ss) && i < |ss|
    ensures Inv(cfg, ss[i])
  {
    hide Next, Inv;
    if i == 0 {
      InitInv(cfg, ss[0]);
    } else {
      Safety(cfg, ss, steps, i - 1);
      Refinement(cfg, ss[i - 1], ss[i], steps[i - 1]);
    }
  }

  /** In every interleaving and for a log of any size, the blocks logged plus the unused
      budgets of all outstanding operations fit in LOGSIZE. */
  lemma {:induction false} ReservationHolds(cfg: Config, ss: seq<State>, steps: seq<Step>, i: nat)
    requires Behavior(cfg, ss, steps) && i < |ss|
    ensures Reserved(ss[i]) && |ss[i].lh| <= LOGSIZE
    ensures forall p :: p in ss[i].ops && ss[i].ops[p].used < MAXOPBLOCKS ==> |ss[i].lh| < LOGSIZE
  {
    if i == 0 {
      InitInv(cfg, ss[0]);
    } else {
      ReservationHolds(cfg, ss, steps, i - 1);
      ReservationStep(cfg, ss[i - 1], ss[i], steps[i - 1]);
    }
    ReserveFull(ss[i].ops);
    forall p | p in ss[i].ops && ss[i].ops[p].used < MAXOPBLOCKS
      ensures |ss[i].lh| < LOGSIZE
    {
      AppendInBounds(ss[i], p);
    }
  }

  // ------------------------------------------------------------ crash atomicity

  /** Once recovery or commit has erased the header, the home blocks are the committed ones. */
  lemma RecoveredHome(cfg: Config, s: State, b: int)
    requires Inv(cfg, s) && s.phase == Cleared && HomeBlock(cfg, s, b)
    ensures Header(cfg, s.disk) == [] && s.disk[b] == Committed(cfg, s, b) == Current(cfg, s, b)
  {
  }

  /** No commit or recovery has been completed strictly between states i and j. */
  ghost predicate Unfinished(ss: seq<State>, i: nat, j: nat)
    requires j < |ss|
  {
    forall k :: i <= k < j ==> ss[k].phase != Idle && ss[k].phase != Cleared
  }

  ghost predicate HeaderWritten(steps: seq<Step>, i: nat, j: nat)
    requires j <= |steps|
  {
    exists k :: i <= k < j && steps[k] == WriteHead
  }

  /** One step of a run, seen at home block b. */
  lemma RunStep(cfg: Config, ss: seq<State>, steps: seq<Step>, k: nat, b: int)
    requires Behavior(cfg, ss, steps) && Inside(cfg, ss) && k < |steps|
    requires HomeBlock(cfg, ss[k], b)
    ensures WfDisk(cfg, ss[k].disk) && WfDisk(cfg, ss[k + 1].disk) && HomeBlock(cfg, ss[k + 1], b)
    ensures SimulatesAt(cfg, ss[k], ss[k + 1], steps[k], b)
    ensures ss[k].ops != map[] ==> ss[k].phase == Idle
  {
    Safety(cfg, ss, steps, k);
    Refinement(cfg, ss[k], ss[k + 1], steps[k]);
  }

  /** The order in which a commit goes through its phases. */
  lemma PhaseOrder(cfg: Config, s: State, s': State, step: Step)
    requires Next(cfg, s, s', step) && s.phase != Idle && s.phase != Cleared && s.ops == map[]
    ensures !step.Modify?
    ensures step == WriteHead ==> s.phase.CopyLog? && !s'.phase.CopyLog?
    ensures s'.phase.CopyLog? ==> s.phase.CopyLog? && !step.Crash?
    ensures s.phase.CopyLog? ==> s'.phase.CopyLog? || step == WriteHead || s'.phase == Down
    ensures Recovering(s) ==> Recovering(s') || s'.phase == Cleared
  {
  }

  lemma {:induction false} CommitProgress(cfg: Config, ss: seq<State>, steps: seq<Step>, i: nat, j: nat, b: int)
    requires Behavior(cfg, ss, steps) && Inside(cfg, ss) && i <= j < |ss|
    requires ss[i].phase.CopyLog? && Unfinished(ss, i, j) && WfDisk(cfg, ss[i].disk) && HomeBlock(cfg, ss[i], b)
    ensures WfDisk(cfg, ss[j].disk) && HomeBlock(cfg, ss[j], b)
    ensures Committed(cfg, ss[j], b)
         == if HeaderWritten(steps, i, j) then Current(cfg, ss[i], b) else Committed(cfg, ss[i], b)
    ensures ss[j].phase.CopyLog? ==> !HeaderWritten(steps, i, j) && Current(cfg, ss[j], b) == Current(cfg, ss[i], b)
    decreases j
  {
    hide Next, Committed, Current, WfDisk;
    if i < j {
      CommitProgress(cfg, ss, steps, i, j - 1, b);
      RunStep(cfg, ss, steps, j - 1, b);
      PhaseOrder(cfg, ss[j - 1], ss[j], steps[j - 1]);
      assert HeaderWritten(steps, i, j) <==> HeaderWritten(steps, i, j - 1) || steps[j - 1] == WriteHead;
    }
  }

  /** A commit that is cut short by any number of crashes, at any block write, also inside
      recovery, ends all-new if its header reached the disk and all-old otherwise. */
  lemma CrashAtomicity(cfg: Config, ss: seq<State>, steps: seq<Step>, i: nat, j: nat)
    requires Behavior(cfg, ss, steps) && Inside(cfg, ss) && i <= j < |ss|
    requires ss[i].phase.CopyLog? && Unfinished(ss, i, j) && ss[j].phase == Cleared
    ensures WfDisk(cfg, ss[i].disk) && WfDisk(cfg, ss[j].disk) && Header(cfg, ss[j].disk) == []
    ensures forall b :: HomeBlock(cfg, ss[i], b) ==>
              && b in ss[j].disk
              && ss[j].disk[b] == if HeaderWritten(steps, i, j) then Current(cfg, ss[i], b) else Committed(cfg, ss[i], b)
  {
    Safety(cfg, ss, steps, i);
    Safety(cfg, ss, steps, j);
    forall b | HomeBlock(cfg, ss[i], b)
      ensures b in ss[j].disk
      ensures ss[j].disk[b] == if HeaderWritten(steps, i, j) then Current(cfg, ss[i], b) else Committed(cfg, ss[i], b)
    {
      CommitProgress(cfg, ss, steps, i, j, b);
      RecoveredHome(cfg, ss[j], b);
    }
  }

  // --------------------------------------------------- operations are not split

  /** The contents of block b after the writes in j, starting from base. */
  ghost function Latest(j: seq<Write>, base: Block, b: int): Block {
    if j == [] then base
    else if j[|j| - 1].block == b then j[|j| - 1].data
    else Latest(j[..|j| - 1], base, b)
  }

  ghost predicate JournalInv(cfg: Config, s: State)
    requires WfDisk(cfg, s.disk)
  {
    && (forall b :: HomeBlock(cfg, s, b) ==> Current(cfg, s, b) == Latest(s.journal, Committed(cfg, s, b), b))
    && (forall i :: 0 <= i < |s.journal| ==> s.journal[i].block in s.lh || s.journal[i].block in s.held)
    && (s.journal != [] ==> s.phase == Idle || s.phase.CopyLog?)
  }

  lemma LatestAppend(j: seq<Write>, w: Write, base: Block, b: int)
    ensures Latest(j + [w], base, b) == if w.block == b then w.data else Latest(j, base, b)
  {
  }

  lemma LastOperation(s: State, p: nat)
    requires OpsInv(s) && s.ops - {p} == map[]
    ensures forall b :: b in s.held ==> s.held[b] == p
  {
    forall b | b in s.held
      ensures s.held[b] == p
    {
      assert s.held[b] !in s.ops - {p};
    }
  }

  lemma JournalBlocks(cfg: Config, s: State, s': State, step: Step)
    requires Inv(cfg, s) && JournalInv(cfg, s) && Next(cfg, s, s', step)
    ensures forall i :: 0 <= i < |s'.journal| ==> s'.journal[i].block in s'.lh || s'.journal[i].block in s'.held
    ensures s'.journal != [] ==> s'.phase == Idle || s'.phase.CopyLog?
  {
    if step.EndOp? && s'.ops == map[] {
      LastOperation(s, step.op);
      assert s.journal != [] ==> s.journal[0].block in s.lh;
    }
  }

  lemma JournalStep(cfg: Config, s: State, s': State, step: Step)
    requires Inv(cfg, s) && JournalInv(cfg, s) && Next(cfg, s, s', step) && (step.Append? ==> |s'.lh| < cfg.size)
    ensures Inv(cfg, s') && JournalInv(cfg, s')
  {
    Refinement(cfg, s, s', step);
    JournalBlocks(cfg, s, s', step);
    forall b | HomeBlock(cfg, s', b)
      ensures Current(cfg, s', b) == Latest(s'.journal, Committed(cfg, s', b), b)
    {
      assert HomeBlock(cfg, s, b) && SimulatesAt(cfg, s, s', step, b);
      if step.Modify? {
        LatestAppend(s.journal, Write(step.op, step.block, step.data), Committed(cfg, s, b), b);
      }
    }
  }

  lemma {:induction false} JournalHolds(cfg: Config, ss: seq<State>, steps: seq<Step>, i: nat)
    requires Behavior(cfg, ss, steps) && Inside(cfg, ss) && i < |ss|
    ensures Inv(cfg, ss[i]) && JournalInv(cfg, ss[i])
  {
    if i == 0 {
      InitInv(cfg, ss[0]);
    } else {
      JournalHolds(cfg, ss, steps, i - 1);
      JournalStep(cfg, ss[i - 1], ss[i], steps[i - 1]);
    }
  }

  /** A header write commits exactly the writes made since the last one, in order, when no
      operation is in progress, and the header names every block they touched. */
  lemma CommitIsWholeJournal(cfg: Config, ss: seq<State>, steps: seq<Step>, k: nat)
    requires Behavior(cfg, ss, steps) && Inside(cfg, ss) && k < |steps| && steps[k] == WriteHead
    ensures ss[k].ops == map[] && WfDisk(cfg, ss[k].disk) && WfDisk(cfg, ss[k + 1].disk)
    ensures forall i :: 0 <= i < |ss[k].journal| ==> ss[k].journal[i].block in Header(cfg, ss[k + 1].disk)
    ensures forall b :: HomeBlock(cfg, ss[k], b) ==>
              && b in ss[k + 1].disk
              && Committed(cfg, ss[k + 1], b) == Latest(ss[k].journal, Committed(cfg, ss[k], b), b)
  {
    JournalHolds(cfg, ss, steps, k);
    JournalHolds(cfg, ss, steps, k + 1);
    forall b | HomeBlock(cfg, ss[k], b)
      ensures b in ss[k + 1].disk
      ensures Committed(cfg, ss[k + 1], b) == Latest(ss[k].journal, Committed(cfg, ss[k], b), b)
    {
      RunStep(cfg, ss, steps, k, b);
    }
  }

  ghost function Written(step: Step): seq<Write> {
    if step.Modify? then [Write(step.op, step.block, step.data)] else []
  }

  /** The writes made by steps i up to j, in order. */
  ghost function Writes(steps: seq<Step>, i: nat, j: nat): seq<Write>
    requires i <= j <= |steps|
    decreases j
  {
    if i == j then [] else Writes(steps, i, j - 1) + Written(steps[j - 1])
  }

  /** None of the steps i up to j is a crash or a header write. */
  ghost predicate Uncommitted(steps: seq<Step>, i: nat, j: nat)
    requires j <= |steps|
  {
    forall k :: i <= k < j ==> !steps[k].Crash? && !steps[k].WriteHead?
  }

  lemma Regroup(a: seq<Write>, b: seq<Write>, c: seq<Write>)
    ensures (a + b) + c == a + (b + c)
  {
  }

  lemma JournalGrows(cfg: Config, s: State, s': State, step: Step)
    requires Next(cfg, s, s', step) && !step.Crash? && !step.WriteHead?
    ensures s'.journal == s.journal + Written(step)
  {
  }

  /** Until a crash or a header write the journal collects every write of every operation. */
  lemma {:induction false} JournalCollects(cfg: Config, ss: seq<State>, steps: seq<Step>, i: nat, j: nat)
    requires Behavior(cfg, ss, steps) && i <= j < |ss| && Uncommitted(steps, i, j)
    ensures ss[j].journal == ss[i].journal + Writes(steps, i, j)
    decreases j
  {
    hide Next;
    if i < j {
      var k := j - 1;
      JournalCollects(cfg, ss, steps, i, k);
      JournalGrows(cfg, ss[k], ss[j], steps[k]);
      Regroup(ss[i].journal, Writes(steps, i, k), Written(steps[k]));
    } else {
      assert ss[i].journal + [] == ss[i].journal;
    }
  }

  /** Operation p runs from state i up to and including state j. */
  ghost predicate Outstanding(ss: seq<State>, p: nat, i: nat, j: nat)
    requires j < |ss|
  {
    forall k :: i <= k <= j ==> p in ss[k].ops
  }

  /** While an operation is outstanding there is no crash and no commit. */
  lemma NoCommitInside(cfg: Config, ss: seq<State>, steps: seq<Step>, p: nat, i: nat, j: nat)
    requires Behavior(cfg, ss, steps) && Inside(cfg, ss) && i <= j < |ss| && Outstanding(ss, p, i, j)
    ensures Uncommitted(steps, i, j)
  {
    forall k | i <= k < j
      ensures !steps[k].Crash? && !steps[k].WriteHead?
    {
      Safety(cfg, ss, steps, k);
      assert Next(cfg, ss[k], ss[k + 1], steps[k]) && p in ss[k].ops && p in ss[k + 1].ops;
    }
  }

  /** An operation outstanding from i to j has all its writes in the journal that the next
      header write, at h, commits: what is then durable is that journal, with those writes in
      their place, on top of what was durable when the operation began. */
  lemma OperationNotSplit(cfg: Config, ss: seq<State>, steps: seq<Step>, p: nat, i: nat, j: nat, h: nat)
    requires Behavior(cfg, ss, steps) && Inside(cfg, ss) && i <= j <= h < |steps|
    requires Outstanding(ss, p, i, j) && Uncommitted(steps, j, h) && steps[h] == WriteHead
    ensures Uncommitted(steps, i, h) && ss[h].journal == ss[i].journal + Writes(steps, i, j) + Writes(steps, j, h)
    ensures WfDisk(cfg, ss[i].disk) && WfDisk(cfg, ss[h + 1].disk)
    ensures forall b :: HomeBlock(cfg, ss[i], b) ==>
              && b in ss[h + 1].disk
              && Committed(cfg, ss[h + 1], b) == Latest(ss[h].journal, Committed(cfg, ss[i], b), b)
  {
    NoCommitInside(cfg, ss, steps, p, i, j);
    JournalCollects(cfg, ss, steps, i, j);
    JournalCollects(cfg, ss, steps, j, h);
    CommitIsWholeJournal(cfg, ss, steps, h);
    Safety(cfg, ss, steps, i);
    forall b | HomeBlock(cfg, ss[i], b)
      ensures b in ss[h + 1].disk
      ensures Committed(cfg, ss[h + 1], b) == Latest(ss[h].journal, Committed(cfg, ss[i], b), b)
    {
      StillCommitted(cfg, ss, steps, i, h, b);
    }
  }

  /** Without a header write the durable contents stay. */
  lemma {:induction false} StillCommitted(cfg: Config, ss: seq<State>, steps: seq<Step>, i: nat, j: nat, b: int)
    requires Behavior(cfg, ss, steps) && Inside(cfg, ss) && i <= j < |ss|
    requires WfDisk(cfg, ss[i].disk) && HomeBlock(cfg, ss[i], b)
    requires forall k :: i <= k < j ==> !steps[k].WriteHead?
    ensures WfDisk(cfg, ss[j].disk) && HomeBlock(cfg, ss[j], b) && Committed(cfg, ss[j], b) == Committed(cfg, ss[i], b)
    decreases j
  {
    hide Next, Committed, WfDisk;
    if i < j {
      StillCommitted(cfg, ss, steps, i, j - 1, b);
      RunStep(cfg, ss, steps, j - 1, b);
    }
  }

  /** And if a crash comes first, at c, none of its writes is durable, nor is any other
      made since the last header write. */
  lemma OperationNotHalfLost(cfg: Config, ss: seq<State>, steps: seq<Step>, p: nat, i: nat, j: nat, c: nat)
    requires Behavior(cfg, ss, steps) && Inside(cfg, ss) && i <= j <= c < |steps|
    requires Outstanding(ss, p, i, j) && Uncommitted(steps, j, c) && steps[c] == Crash
    ensures WfDisk(cfg, ss[i].disk) && WfDisk(cfg, ss[c + 1].disk)
    ensures forall b :: HomeBlock(cfg, ss[i], b) ==>
              && b in ss[c + 1].disk
              && Committed(cfg, ss[c + 1], b) == Committed(cfg, ss[i], b) == Current(cfg, ss[c + 1], b)
  {
    NoCommitInside(cfg, ss, steps, p, i, j);
    Safety(cfg, ss, steps, i);
    Safety(cfg, ss, steps, c + 1);
    forall b | HomeBlock(cfg, ss[i], b)
      ensures b in ss[c + 1].disk
      ensures Committed(cfg, ss[c + 1], b) == Committed(cfg, ss[i], b) == Current(cfg, ss[c + 1], b)
    {
      StillCommitted(cfg, ss, steps, i, c, b);
      RunStep(cfg, ss, steps, c, b);
    }
  }

  lemma StaysUp(cfg: Config, s: State, s': State, step: Step)
    requires Next(cfg, s, s', step) && !step.Crash? && !Recovering(s)
    ensures !Recovering(s')
  {
  }

  /** Through loads, evictions and commits, a block reads as it was last written. */
  lemma {:induction false} ReadsLastWrite(cfg: Config, ss: seq<State>, steps: seq<Step>, i: nat, j: nat)
    requires Behavior(cfg, ss, steps) && Inside(cfg, ss) && i < j < |ss| && steps[i].Modify?
    requires forall k :: i < k < j ==> !steps[k].Crash? && !(steps[k].Modify? && steps[k].block == steps[i].block)
    ensures !Recovering(ss[j]) && steps[i].block in ss[j].disk && Look(ss[j], steps[i].block) == steps[i].data
    ensures !InLog(cfg, steps[i].block)
    decreases j
  {
    var b := steps[i].block;
    assert Next(cfg, ss[i], ss[i + 1], steps[i]);
    if i + 1 == j {
      Safety(cfg, ss, steps, i);
      RunStep(cfg, ss, steps, i, b);
    } else {
      ReadsLastWrite(cfg, ss, steps, i, j - 1);
      RunStep(cfg, ss, steps, j - 1, b);
      StaysUp(cfg, ss[j - 1], ss[j], steps[j - 1]);
    }
  }
}
