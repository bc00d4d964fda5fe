/** The logging protocol as a state machine: any number of file system operations
    interleaved with group commit, cache loads and evictions, crashes and recovery.

    Every block write to the disk is one step, so a crash may fall between any two.
    The main results: the machine refines an atomic store in which a commit makes
    every write of every finished operation durable at once (`Refinement`), recovery
    always ends in the last committed contents (`RecoveredHome`), and the space an
    operation reserves is there when it needs it (`ReservationHolds`). */
module LogProtocol {
  import opened Param
  import opened DiskBlock
  import opened LogFormat

  datatype Buf = Buf(data: Block, dirty: bool)
  datatype Armed = Unarmed | At(block: int)
  datatype OpState = OpState(used: nat, armed: Armed)
  datatype Write = Write(op: nat, block: int, data: Block)

  /** Where commit() or recover_from_log() stands. */
  datatype Phase =
    | Idle                                  // log.committing == 0
    | CopyLog(done: int)                    // write_log: this many blocks copied
    | Install(done: int, recovering: bool)  // install_trans: this many installed
    | Cleared                               // header erased, not yet released
    | Down                                  // crashed, not yet rebooted

  datatype State = State(
    disk: Disk,
    cache: map<int, Buf>,
    lh: seq<int>,               // in-memory header: block numbers logged so far
    ops: map<nat, OpState>,     // outstanding operations
    held: map<int, nat>,        // buffers changed under their lock, not yet logged
    phase: Phase,
    journal: seq<Write>         // history: writes since the last commit
  )

  datatype Step =
    | BeginOp(op: nat)
    | Modify(op: nat, block: int, data: Block)
    | Guard(op: nat, block: int)
    | Append(op: nat)
    | EndOp(op: nat)
    | CopyBlock
    | WriteHead
    | InstallBlock
    | ClearHead
    | Finish
    | Load(block: int)
    | Evict(block: int)
    | Crash
    | ReadHead

  /** What bread returns. */
  function Look(s: State, b: int): Block
    requires b in s.cache || b in s.disk
  {
    if b in s.cache then s.cache[b].data else s.disk[b]
  }

  /** bwrite: the buffer goes to disk and becomes clean. */
  function Bwrite(s: State, b: int, data: Block): State {
    s.(disk := s.disk[b := data], cache := s.cache[b := Buf(data, false)])
  }

  ghost predicate BeginOpStep(s: State, s': State, p: nat) {
    && s.phase == Idle
    && p !in s.ops
    && |s.lh| + (|s.ops| + 1) * MAXOPBLOCKS <= LOGSIZE
    && s' == s.(ops := s.ops[p := OpState(0, Unarmed)])
  }

  ghost predicate ModifyStep(cfg: Config, s: State, s': State, p: nat, b: int, data: Block) {
    && p in s.ops
    && b in s.cache && b in s.disk && !InLog(cfg, b)
    && (b in s.held ==> s.held[b] == p)
    && s' == s.(cache := s.cache[b := s.cache[b].(data := data)],
                held := s.held[b := p],
                journal := s.journal + [Write(p, b, data)])
  }

  /** The two tests of log_write, made without the lock. */
  predicate GuardPasses(cfg: Config, n: int) {
    n < LOGSIZE && n < cfg.size - 1
  }

  ghost predicate GuardStep(cfg: Config, s: State, s': State, p: nat, b: int) {
    && p in s.ops && s.ops[p].armed == Unarmed
    && b in s.held && s.held[b] == p
    && GuardPasses(cfg, |s.lh|)
    && s' == s.(ops := s.ops[p := s.ops[p].(armed := At(b))])
  }

  /** The part of log_write under the lock.  An operation adds at most MAXOPBLOCKS blocks. */
  ghost predicate AppendStep(s: State, s': State, p: nat) {
    && p in s.ops && s.ops[p].armed.At?
    && var b := s.ops[p].armed.block;
    && b in s.cache
    && (b !in s.lh ==> s.ops[p].used < MAXOPBLOCKS)
    && s' == s.(lh := if b in s.lh then s.lh else s.lh + [b],
                ops := s.ops[p := OpState(if b in s.lh then s.ops[p].used else s.ops[p].used + 1, Unarmed)],
                cache := s.cache[b := s.cache[b].(dirty := true)],
                held := s.held - {b})
  }

  ghost predicate EndOpStep(s: State, s': State, p: nat) {
    && p in s.ops && s.ops[p].armed == Unarmed
    && (forall b :: b in s.held ==> s.held[b] != p)
    && var ops := s.ops - {p};
    && s' == s.(ops := ops,
                phase := if ops != map[] then s.phase else if s.lh == [] then Cleared else CopyLog(0))
  }

  ghost predicate CopyBlockStep(cfg: Config, s: State, s': State) {
    && s.phase.CopyLog? && 0 <= s.phase.done < |s.lh|
    && var k := s.phase.done;
    && s.lh[k] in s.cache
    && s' == Bwrite(s, LogBlock(cfg, k), s.cache[s.lh[k]].data).(phase := CopyLog(k + 1))
  }

  ghost predicate WriteHeadStep(cfg: Config, s: State, s': State) {
    && s.phase == CopyLog(|s.lh|)
    && |s.lh| <= LOGSIZE
    && cfg.start in s.disk && |Look(s, cfg.start).words| == BLOCKWORDS
    && s' == Bwrite(s, cfg.start, PutHeader(Look(s, cfg.start), s.lh)).(phase := Install(0, false), journal := [])
  }

  ghost predicate InstallBlockStep(cfg: Config, s: State, s': State) {
    && s.phase.Install? && 0 <= s.phase.done < |s.lh|
    && var k := s.phase.done;
    && LogBlock(cfg, k) in s.disk
    && s' == Bwrite(s, s.lh[k], Look(s, LogBlock(cfg, k))).(phase := s.phase.(done := k + 1))
  }

  ghost predicate ClearHeadStep(cfg: Config, s: State, s': State) {
    && s.phase.Install? && s.phase.done == |s.lh|
    && cfg.start in s.disk && |Look(s, cfg.start).words| == BLOCKWORDS
    && s' == Bwrite(s, cfg.start, PutHeader(Look(s, cfg.start), [])).(phase := Cleared, lh := [])
  }

  ghost predicate LoadStep(s: State, s': State, b: int) {
    && s.phase != Down
    && b in s.disk && b !in s.cache
    && s' == s.(cache := s.cache[b := Buf(s.disk[b], false)])
  }

  ghost predicate EvictStep(s: State, s': State, b: int) {
    && b in s.cache && !s.cache[b].dirty && b !in s.held
    && s' == s.(cache := s.cache - {b})
  }

  ghost predicate ReadHeadStep(cfg: Config, s: State, s': State) {
    && s.phase == Down
    && cfg.start in s.disk && WfHead(s.disk[cfg.start])
    && s' == s.(lh := HeaderOf(s.disk[cfg.start]), phase := Install(0, true))
  }

  ghost predicate Next(cfg: Config, s: State, s': State, step: Step) {
    match step
    case BeginOp(p) => BeginOpStep(s, s', p)
    case Modify(p, b, data) => ModifyStep(cfg, s, s', p, b, data)
    case Guard(p, b) => GuardStep(cfg, s, s', p, b)
    case Append(p) => AppendStep(s, s', p)
    case EndOp(p) => EndOpStep(s, s', p)
    case CopyBlock => CopyBlockStep(cfg, s, s')
    case WriteHead => WriteHeadStep(cfg, s, s')
    case InstallBlock => InstallBlockStep(cfg, s, s')
    case ClearHead => ClearHeadStep(cfg, s, s')
    case Finish => s.phase == Cleared && s' == s.(phase := Idle)
    case Load(b) => LoadStep(s, s', b)
    case Evict(b) => EvictStep(s, s', b)
    case Crash => s' == State(s.disk, map[], [], map[], map[], Down, [])
    case ReadHead => ReadHeadStep(cfg, s, s')
  }

  /** Any disk image left behind by an earlier run, however it ended. */
  ghost predicate Init(cfg: Config, s: State) {
    && WfDisk(cfg, s.disk)
    && s == State(s.disk, map[], [], map[], map[], Down, [])
  }

  /** Some steps lead from s to s'. */
  ghost predicate Leads(cfg: Config, s: State, s': State) {
    exists ss, steps :: StepsBetween(cfg, ss, steps) && ss[0] == s && ss[|ss| - 1] == s'
  }

  ghost predicate StepsBetween(cfg: Config, ss: seq<State>, steps: seq<Step>) {
    && |ss| == |steps| + 1
    && forall i {:trigger steps[i]} :: 0 <= i < |steps| ==> Next(cfg, ss[i], ss[i + 1], steps[i])
  }

  lemma LeadsNone(cfg: Config, s: State)
    ensures Leads(cfg, s, s)
  {
    var steps: seq<Step> := [];
    assert StepsBetween(cfg, [s], steps);
  }

  lemma LeadsOne(cfg: Config, s0: State, s: State, s': State, step: Step)
    requires Leads(cfg, s0, s) && Next(cfg, s, s', step)
    ensures Leads(cfg, s0, s')
  {
    hide Next;
    var ss, steps :| StepsBetween(cfg, ss, steps) && ss[0] == s0 && ss[|ss| - 1] == s;
    var ss', steps' := ss + [s'], steps + [step];
    forall i {:trigger steps'[i]} | 0 <= i < |steps'|
      ensures Next(cfg, ss'[i], ss'[i + 1], steps'[i])
    {
      assert i < |steps| ==> steps'[i] == steps[i];
    }
    assert StepsBetween(cfg, ss', steps');
  }

  lemma {:induction false} LeadsOn(cfg: Config, s0: State, s: State, ss: seq<State>, steps: seq<Step>)
    requires Leads(cfg, s0, s) && StepsBetween(cfg, ss, steps) && ss[0] == s
    ensures Leads(cfg, s0, ss[|ss| - 1])
    decreases |steps|
  {
    hide Next, Leads;
    if steps != [] {
      var n := |steps| - 1;
      var ss', steps' := ss[..n + 1], steps[..n];
      assert forall i {:trigger steps'[i]} :: 0 <= i < n ==> steps'[i] == steps[i];
      LeadsOn(cfg, s0, s, ss', steps');
      assert steps[n] == steps[|steps| - 1];
      LeadsOne(cfg, s0, ss[n], ss[n + 1], steps[n]);
    }
  }

  lemma LeadsTrans(cfg: Config, s0: State, s1: State, s2: State)
    requires Leads(cfg, s0, s1) && Leads(cfg, s1, s2)
    ensures Leads(cfg, s0, s2)
  {
    hide Next;
    var ss, steps :| StepsBetween(cfg, ss, steps) && ss[0] == s1 && ss[|ss| - 1] == s2;
    LeadsOn(cfg, s0, s1, ss, steps);
  }

  // ---------------------------------------------------------------- reservation

  /** Log space promised to the outstanding operations and not yet used. */
  ghost function Reserve(ops: map<nat, OpState>): int {
    if ops == map[] then 0
    else
      var p :| p in ops;
      MAXOPBLOCKS - ops[p].used + Reserve(ops - {p})
  }

  lemma {:induction false} ReserveSplit(ops: map<nat, OpState>, p: nat)
    requires p in ops
    ensures Reserve(ops) == MAXOPBLOCKS - ops[p].used + Reserve(ops - {p})
    decreases |ops|
  {
    var q :| q in ops && Reserve(ops) == MAXOPBLOCKS - ops[q].used + Reserve(ops - {q});
    if q != p {
      assert |ops - {q}| < |ops| by { assert (ops - {q}).Keys == ops.Keys - {q}; }
      assert |ops - {p}| < |ops| by { assert (ops - {p}).Keys == ops.Keys - {p}; }
      ReserveSplit(ops - {q}, p);
      ReserveSplit(ops - {p}, q);
      assert ops - {q} - {p} == ops - {p} - {q};
    }
  }

  lemma ReserveUpdate(ops: map<nat, OpState>, p: nat, o: OpState)
    ensures Reserve(ops[p := o]) == MAXOPBLOCKS - o.used + Reserve(ops - {p})
  {
    ReserveSplit(ops[p := o], p);
    assert ops[p := o] - {p} == ops - {p};
  }

  lemma {:induction false} ReserveFull(ops: map<nat, OpState>)
    requires forall p :: p in ops ==> ops[p].used <= MAXOPBLOCKS
    ensures 0 <= Reserve(ops) <= MAXOPBLOCKS * |ops|
    decreases |ops|
  {
    if ops != map[] {
      var p :| p in ops;
      ReserveSplit(ops, p);
      assert |ops - {p}| == |ops| - 1 by { assert (ops - {p}).Keys == ops.Keys - {p}; }
      ReserveFull(ops - {p});
    }
  }

  ghost predicate Reserved(s: State) {
    && (forall p :: p in s.ops ==> s.ops[p].used <= MAXOPBLOCKS)
    && |s.lh| + Reserve(s.ops) <= LOGSIZE
    && (s.phase == Down ==> s.ops == map[])
  }

  lemma ReservedBegin(s: State, s': State, p: nat)
    requires Reserved(s) && BeginOpStep(s, s', p)
    ensures Reserved(s')
  {
    hide Reserve;
    ReserveUpdate(s.ops, p, OpState(0, Unarmed));
    assert s.ops - {p} == s.ops;
    ReserveFull(s.ops);
  }

  lemma ReservedGuard(cfg: Config, s: State, s': State, p: nat, b: int)
    requires Reserved(s) && GuardStep(cfg, s, s', p, b)
    ensures Reserved(s')
  {
    hide Reserve;
    ReserveSplit(s.ops, p);
    ReserveUpdate(s.ops, p, s'.ops[p]);
  }

  lemma ReservedAppend(s: State, s': State, p: nat)
    requires Reserved(s) && AppendStep(s, s', p)
    ensures Reserved(s')
  {
    hide Reserve;
    ReserveSplit(s.ops, p);
    ReserveUpdate(s.ops, p, s'.ops[p]);
  }

  lemma ReservedEnd(s: State, s': State, p: nat)
    requires Reserved(s) && EndOpStep(s, s', p)
    ensures Reserved(s')
  {
    hide Reserve;
    ReserveSplit(s.ops, p);
  }

  /** Holds for a log of any size: the bound rests on begin_op's test alone. */
  lemma ReservationStep(cfg: Config, s: State, s': State, step: Step)
    requires Reserved(s) && Next(cfg, s, s', step)
    ensures Reserved(s')
  {
    match step
    case BeginOp(p) => ReservedBegin(s, s', p);
    case Guard(p, b) => ReservedGuard(cfg, s, s', p, b);
    case Append(p) => ReservedAppend(s, s', p);
    case EndOp(p) => ReservedEnd(s, s', p);
    case _ =>
  }

  /** A block that an operation within its budget adds lands inside lh.block[LOGSIZE]. */
  lemma AppendInBounds(s: State, p: nat)
    requires Reserved(s) && p in s.ops && s.ops[p].used < MAXOPBLOCKS
    ensures |s.lh| < LOGSIZE
  {
    ReserveSplit(s.ops, p);
    ReserveFull(s.ops - {p});
  }
}
