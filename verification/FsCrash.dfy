/** The file system on top of the log: what a crash leaves of it.

    A run of the logging protocol is read as a run of file system operations.  `fs` is the state
    that the operations have led to so far, as of the last moment at which none was outstanding;
    `dur` is the durable one.  Concurrent operations are assumed to be serializable: between two
    such moments their block writes amount to whole operations, one after the other, in some
    order.  Operations that run one at a time are the simplest case; `WriteOp` and `TruncOp` of
    the inode layer are operations in this sense. */
module FsCrash {
  import opened DiskBlock
  import opened FsLayout
  import opened FsImage
  import opened LogFormat
  import opened LogProtocol
  import opened LogRefinement
  import opened LogRuns

  /** Operations lead from ts[0] through ts[1], ts[2], .. and log the blocks of as. */
  ghost predicate Serial(sb: Super, ts: seq<St>, logs: seq<set<int>>) {
    && |ts| == |logs| + 1
    && forall k {:trigger logs[k]} :: 0 <= k < |logs| ==> Operation(sb, ts[k], ts[k + 1], logs[k])
  }

  function AllOf(logs: seq<set<int>>): set<int> {
    if logs == [] then {} else AllOf(logs[..|logs| - 1]) + logs[|logs| - 1]
  }

  /** The writes ws touch no block outside a, and leave the blocks of a as in state st'. */
  ghost predicate Performs(sb: Super, ws: seq<Write>, st: St, st': St, a: set<int>) {
    && (forall k :: 0 <= k < |ws| ==> ws[k].block in a)
    && (forall b :: b in a ==> Latest(ws, Image(sb, st, b), b) == Image(sb, st', b))
  }

  /** The writes ws are those of whole operations, in some order, from st to st'. */
  ghost predicate Serializable(sb: Super, ws: seq<Write>, st: St, st': St) {
    exists ts, logs ::
      && Serial(sb, ts, logs) && ts[0] == st && ts[|ts| - 1] == st'
      && Performs(sb, ws, st, st', AllOf(logs))
  }

  /** An operation that runs alone. */
  lemma AloneSerializable(sb: Super, ws: seq<Write>, st: St, st': St, a: set<int>)
    requires Operation(sb, st, st', a) && Performs(sb, ws, st, st', a)
    ensures Serializable(sb, ws, st, st')
  {
    var ts, logs := [st, st'], [a];
    assert logs[..0] == [] && AllOf(logs) == {} + a == a;
    assert Serial(sb, ts, logs);
  }

  /** The writes since the last moment at which no operation was outstanding. */
  ghost function Pending(ss: seq<State>, steps: seq<Step>, i: nat): seq<Write>
    requires |ss| == |steps| + 1 && i < |ss|
    decreases i
  {
    if i == 0 then []
    else if steps[i - 1].Crash? || (steps[i - 1].EndOp? && ss[i].ops == map[]) then []
    else Pending(ss, steps, i - 1) + Written(steps[i - 1])
  }

  /** How a step changes what the operations have led to, and what is durable: the last end_op
      completes a group of operations, the header write makes it durable, a crash goes back. */
  ghost predicate FsStep(sb: Super, s': State, step: Step, ws: seq<Write>, st: St, st': St, d: St, d': St) {
    && d' == (if step.WriteHead? then st else d)
    && if step.Crash? then st' == d
       else if step.EndOp? && s'.ops == map[] then Serializable(sb, ws, st, st')
       else st' == st
  }

  /** The home blocks, once the log is replayed, are the image of st. */
  ghost predicate Holds(cfg: Config, sb: Super, s: State, st: St) {
    WfDisk(cfg, s.disk) && forall b :: HomeBlock(cfg, s, b) ==> Committed(cfg, s, b) == Image(sb, st, b)
  }

  /** A run from any disk that holds a consistent file system, however an earlier run ended. */
  ghost predicate FsRun(cfg: Config, sb: Super, ss: seq<State>, steps: seq<Step>, fs: seq<St>, dur: seq<St>) {
    && Behavior(cfg, ss, steps) && Inside(cfg, ss) && |fs| == |dur| == |ss|
    && (forall b :: b in ss[0].disk ==> 0 <= b < sb.size)
    && ConsistentFs(sb, fs[0]) && dur[0] == fs[0] && Holds(cfg, sb, ss[0], fs[0])
    && forall i {:trigger steps[i]} :: 0 <= i < |steps| ==>
         FsStep(sb, ss[i + 1], steps[i], Pending(ss, steps, i), fs[i], fs[i + 1], dur[i], dur[i + 1])
  }

  // ----------------------------------------------------------- groups of operations

  lemma {:induction false} SerialCovers(sb: Super, ts: seq<St>, logs: seq<set<int>>)
    requires Serial(sb, ts, logs) && ConsistentFs(sb, ts[0])
    ensures Covers(sb, ts[0], ts[|ts| - 1], AllOf(logs)) && ConsistentFs(sb, ts[|ts| - 1])
    decreases |logs|
  {
    hide Covers, ConsistentFs;
    if logs == [] {
      CoversNone(sb, ts[0]);
    } else {
      var n := |logs| - 1;
      var ts', logs' := ts[..n + 1], logs[..n];
      assert forall k {:trigger logs'[k]} :: 0 <= k < n ==> logs'[k] == logs[k];
      SerialCovers(sb, ts', logs');
      assert logs[n] == logs[|logs| - 1];
      CoversTrans(sb, ts[0], ts[n], ts[n + 1], AllOf(logs'), logs[n]);
    }
  }

  lemma CoversNone(sb: Super, st: St)
    ensures Covers(sb, st, st, {})
  {
  }

  lemma {:induction false} LatestOutside(ws: seq<Write>, base: Block, b: int)
    requires forall k :: 0 <= k < |ws| ==> ws[k].block != b
    ensures Latest(ws, base, b) == base
  {
    if ws != [] {
      LatestOutside(ws[..|ws| - 1], base, b);
    }
  }

  lemma GroupDone(sb: Super, ws: seq<Write>, st: St, st': St)
    requires ConsistentFs(sb, st) && Serializable(sb, ws, st, st')
    ensures ConsistentFs(sb, st')
    ensures forall b :: 0 <= b < sb.size ==> Latest(ws, Image(sb, st, b), b) == Image(sb, st', b)
  {
    hide ConsistentFs, Image;
    var ts, logs :| Serial(sb, ts, logs) && ts[0] == st && ts[|ts| - 1] == st' && Performs(sb, ws, st, st', AllOf(logs));
    SerialCovers(sb, ts, logs);
    forall b | 0 <= b < sb.size
      ensures Latest(ws, Image(sb, st, b), b) == Image(sb, st', b)
    {
      if b !in AllOf(logs) {
        LatestOutside(ws, Image(sb, st, b), b);
      }
    }
  }

  // --------------------------------------------------------------- every step

  /** Durable contents, and contents that readers see, in terms of file system states. */
  ghost predicate FsInv(cfg: Config, sb: Super, s: State, ws: seq<Write>, st: St, d: St) {
    && WfDisk(cfg, s.disk) && (forall b :: b in s.disk ==> 0 <= b < sb.size)
    && ConsistentFs(sb, st) && ConsistentFs(sb, d)
    && (forall b :: HomeBlock(cfg, s, b) ==>
          Committed(cfg, s, b) == Image(sb, d, b) && Current(cfg, s, b) == Latest(ws, Image(sb, st, b), b))
    && (s.ops == map[] ==> ws == [])
  }

  lemma QuietBefore(cfg: Config, s: State, s': State, step: Step)
    requires Inv(cfg, s) && Next(cfg, s, s', step)
    ensures s'.ops == map[] ==> step.Crash? || step.EndOp? || (s.ops == map[] && !step.Modify?)
    ensures step.WriteHead? ==> s.ops == map[]
  {
    if step.BeginOp? {
      assert step.op in s'.ops;
    }
  }

  /** One home block: before, com is durable and cur is what readers see. */
  lemma BlockKeeps(sb: Super, s': State, step: Step, ws: seq<Write>, ws': seq<Write>, st: St, st': St, d: St, d': St,
                   b: int, com: Block, cur: Block)
    requires com == Image(sb, d, b) && cur == Latest(ws, Image(sb, st, b), b)
    requires FsStep(sb, s', step, ws, st, st', d, d') && (step.WriteHead? ==> ws == [])
    requires step.EndOp? && s'.ops == map[] ==> cur == Image(sb, st', b)
    requires ws' == if step.Crash? || (step.EndOp? && s'.ops == map[]) then [] else ws + Written(step)
    ensures (if step.WriteHead? then cur else com) == Image(sb, d', b)
    ensures (if step.Modify? && step.block == b then step.data else if step.Crash? then com else cur)
            == Latest(ws', Image(sb, st', b), b)
  {
    hide Image, Serializable;
    if step.Modify? {
      LatestAppend(ws, Write(step.op, step.block, step.data), Image(sb, st, b), b);
    } else {
      assert ws + [] == ws;
    }
  }

  lemma FsKeeps(cfg: Config, sb: Super, s: State, s': State, step: Step, ws: seq<Write>, ws': seq<Write>, st: St, st': St, d: St, d': St)
    requires Inv(cfg, s) && Inv(cfg, s') && Next(cfg, s, s', step) && Simulates(cfg, s, s', step)
    requires FsInv(cfg, sb, s, ws, st, d) && FsStep(sb, s', step, ws, st, st', d, d')
    requires ws' == if step.Crash? || (step.EndOp? && s'.ops == map[]) then [] else ws + Written(step)
    ensures FsInv(cfg, sb, s', ws', st', d')
  {
    hide Next, CacheInv, OpsInv, PhaseInv, Reserved, Committed, Current, ConsistentFs, Image, Serializable, WfDisk;
    QuietBefore(cfg, s, s', step);
    if step.EndOp? && s'.ops == map[] {
      GroupDone(sb, ws, st, st');
    }
    assert ws + [] == ws;
    forall b | HomeBlock(cfg, s', b)
      ensures Committed(cfg, s', b) == Image(sb, d', b) && Current(cfg, s', b) == Latest(ws', Image(sb, st', b), b)
    {
      assert HomeBlock(cfg, s, b) && SimulatesAt(cfg, s, s', step, b);
      BlockKeeps(sb, s', step, ws, ws', st, st', d, d', b, Committed(cfg, s, b), Current(cfg, s, b));
    }
  }

  lemma FsStart(cfg: Config, sb: Super, ss: seq<State>, steps: seq<Step>, fs: seq<St>, dur: seq<St>)
    requires FsRun(cfg, sb, ss, steps, fs, dur)
    ensures FsInv(cfg, sb, ss[0], [], fs[0], dur[0])
  {
  }

  lemma {:induction false} FsHolds(cfg: Config, sb: Super, ss: seq<State>, steps: seq<Step>, fs: seq<St>, dur: seq<St>, i: nat)
    requires FsRun(cfg, sb, ss, steps, fs, dur) && i < |ss|
    ensures FsInv(cfg, sb, ss[i], Pending(ss, steps, i), fs[i], dur[i])
  {
    hide FsInv, FsStep, Next, Inv, Holds, Simulates, ConsistentFs;
    if i == 0 {
      FsStart(cfg, sb, ss, steps, fs, dur);
    } else {
      var k := i - 1;
      FsHolds(cfg, sb, ss, steps, fs, dur, k);
      Safety(cfg, ss, steps, k);
      Refinement(cfg, ss[k], ss[i], steps[k]);
      FsKeeps(cfg, sb, ss[k], ss[i], steps[k], Pending(ss, steps, k), Pending(ss, steps, i), fs[k], fs[i], dur[k], dur[i]);
    }
  }

  lemma DurStep(sb: Super, s': State, step: Step, ws: seq<Write>, st: St, st': St, d: St, d': St)
    requires FsStep(sb, s', step, ws, st, st', d, d')
    ensures d' == if step.WriteHead? then st else d
  {
  }

  /** What is durable is what the operations had led to at some moment when none was
      outstanding. */
  lemma {:induction false} DurableIsWhole(cfg: Config, sb: Super, ss: seq<State>, steps: seq<Step>, fs: seq<St>, dur: seq<St>, i: nat)
      returns (k: nat)
    requires FsRun(cfg, sb, ss, steps, fs, dur) && i < |ss|
    ensures k <= i && ss[k].ops == map[] && dur[i] == fs[k]
    ensures forall j :: k < j < i ==> !steps[j].WriteHead?
    ensures k == 0 || (k < i && steps[k].WriteHead?)
  {
    hide Next, Inv, FsStep, Holds, ConsistentFs, Pending;
    if i == 0 {
      k := 0;
    } else {
      var j := i - 1;
      DurStep(sb, ss[i], steps[j], Pending(ss, steps, j), fs[j], fs[i], dur[j], dur[i]);
      if steps[j].WriteHead? {
        Safety(cfg, ss, steps, j);
        QuietBefore(cfg, ss[j], ss[i], steps[j]);
        k := j;
      } else {
        k := DurableIsWhole(cfg, sb, ss, steps, fs, dur, j);
      }
    }
  }

  /** After any crash, and any number of crashes during recovery, the disk holds a consistent file
      system: the one that the operations had led to at the last header write before the crash,
      when none was outstanding.  No operation is there in part. */
  lemma CrashLeavesWholeOperations(cfg: Config, sb: Super, ss: seq<State>, steps: seq<Step>, fs: seq<St>, dur: seq<St>, j: nat)
      returns (k: nat)
    requires FsRun(cfg, sb, ss, steps, fs, dur) && j < |ss| && ss[j].phase == LogProtocol.Cleared
    ensures k <= j && ss[k].ops == map[] && (k == 0 || (k < j && steps[k].WriteHead?))
    ensures forall m :: k < m < j ==> !steps[m].WriteHead?
    ensures ConsistentFs(sb, fs[k]) && WfDisk(cfg, ss[j].disk) && Header(cfg, ss[j].disk) == []
    ensures forall b :: HomeBlock(cfg, ss[j], b) ==> ss[j].disk[b] == Image(sb, fs[k], b)
  {
    hide Next, Image, ConsistentFs;
    k := DurableIsWhole(cfg, sb, ss, steps, fs, dur, j);
    FsHolds(cfg, sb, ss, steps, fs, dur, j);
    Safety(cfg, ss, steps, j);
    forall b | HomeBlock(cfg, ss[j], b)
      ensures ss[j].disk[b] == Image(sb, fs[k], b)
    {
      RecoveredHome(cfg, ss[j], b);
    }
  }

  /** And while no operation is outstanding, readers see what the operations have led to. */
  lemma QuietReads(cfg: Config, sb: Super, ss: seq<State>, steps: seq<Step>, fs: seq<St>, dur: seq<St>, i: nat, b: int)
    requires FsRun(cfg, sb, ss, steps, fs, dur) && i < |ss| && ss[i].ops == map[] && HomeBlock(cfg, ss[i], b)
    ensures WfDisk(cfg, ss[i].disk) && Current(cfg, ss[i], b) == Image(sb, fs[i], b)
  {
    hide Next, Image, ConsistentFs;
    FsHolds(cfg, sb, ss, steps, fs, dur, i);
  }
}
