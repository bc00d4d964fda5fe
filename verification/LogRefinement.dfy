/** What every step of the logging protocol keeps, and the atomic store it refines. */
module LogRefinement {
  import opened Param
  import opened DiskBlock
  import opened LogFormat
  import opened LogProtocol

  /** Cache and disk agree except where a buffer is dirty or held. */
  ghost predicate CacheInv(cfg: Config, s: State) {
    && s.cache.Keys <= s.disk.Keys
    && s.held.Keys <= s.cache.Keys
    && (forall b :: b in s.cache && !s.cache[b].dirty && b !in s.held ==> s.cache[b].data == s.disk[b])
    && (forall b :: b in s.cache && s.cache[b].dirty ==> b in s.lh)
    && (forall b :: b in s.held ==> !InLog(cfg, b))
  }

  ghost predicate OpsInv(s: State) {
    && (forall b :: b in s.held ==> s.held[b] in s.ops)
    && (forall p :: p in s.ops && s.ops[p].armed.At? ==>
          s.ops[p].armed.block in s.held && s.held[s.ops[p].armed.block] == p)
    && (s.ops != map[] ==> s.phase == Idle)
  }

  /** Every logged block is cached and pinned by B_DIRTY. */
  ghost predicate Pinned(s: State) {
    forall i :: 0 <= i < |s.lh| ==> s.lh[i] in s.cache && s.cache[s.lh[i]].dirty
  }

  ghost predicate PhaseInv(cfg: Config, s: State)
    requires WfDisk(cfg, s.disk) && WfList(cfg, s.disk.Keys, s.lh)
  {
    match s.phase
    case Idle => Header(cfg, s.disk) == [] && Pinned(s)
    case CopyLog(k) =>
      && Header(cfg, s.disk) == [] && Pinned(s) && 0 <= k <= |s.lh|
      && forall i :: 0 <= i < k ==> s.disk[LogBlock(cfg, i)] == s.cache[s.lh[i]].data
    case Install(k, recovering) =>
      && Header(cfg, s.disk) == s.lh && 0 <= k <= |s.lh|
      && (forall i :: 0 <= i < k ==>
            && s.disk[s.lh[i]] == s.disk[LogBlock(cfg, i)]
            && (s.lh[i] in s.cache ==> !s.cache[s.lh[i]].dirty))
      && (forall i :: k <= i < |s.lh| ==>
            if recovering then s.lh[i] in s.cache ==> !s.cache[s.lh[i]].dirty
            else s.lh[i] in s.cache && s.cache[s.lh[i]] == Buf(s.disk[LogBlock(cfg, i)], true))
    case Cleared => Header(cfg, s.disk) == [] && s.lh == []
    case Down => s.lh == [] && s.cache == map[]
  }

  ghost predicate Core(cfg: Config, s: State) {
    && WfDisk(cfg, s.disk)
    && WfList(cfg, s.disk.Keys, s.lh)
    && CacheInv(cfg, s)
    && OpsInv(s)
    && PhaseInv(cfg, s)
  }

  ghost predicate Inv(cfg: Config, s: State) {
    Reserved(s) && Core(cfg, s)
  }

  // ------------------------------------------------------------ the atomic store

  ghost predicate HomeBlock(cfg: Config, s: State, b: int) {
    b in s.disk && !InLog(cfg, b)
  }

  /** What survives a crash now: the home block after replaying the log. */
  ghost function Committed(cfg: Config, s: State, b: int): Block
    requires WfDisk(cfg, s.disk) && b in s.disk
  {
    RedoAt(cfg, s.disk, b)
  }

  ghost predicate Recovering(s: State) {
    s.phase == Down || (s.phase.Install? && s.phase.recovering)
  }

  /** What a reader of the buffer cache sees; until recovery is done nobody reads. */
  ghost function Current(cfg: Config, s: State, b: int): Block
    requires WfDisk(cfg, s.disk) && b in s.disk
  {
    if Recovering(s) then RedoAt(cfg, s.disk, b) else Look(s, b)
  }

  /** The atomic store, block by block: writes change the current contents, the commit
      point makes them durable all at once, a crash goes back to the durable ones, and
      no other step can be seen. */
  ghost predicate SimulatesAt(cfg: Config, s: State, s': State, step: Step, b: int)
    requires WfDisk(cfg, s.disk) && WfDisk(cfg, s'.disk) && b in s.disk && b in s'.disk
  {
    && Committed(cfg, s', b) == (if step.WriteHead? then Current(cfg, s, b) else Committed(cfg, s, b))
    && Current(cfg, s', b) == (if step.Modify? && step.block == b then step.data
                               else if step.Crash? then Committed(cfg, s, b)
                               else Current(cfg, s, b))
  }

  ghost predicate Simulates(cfg: Config, s: State, s': State, step: Step)
    requires WfDisk(cfg, s.disk) && WfDisk(cfg, s'.disk)
  {
    && s'.disk.Keys == s.disk.Keys
    && forall b :: HomeBlock(cfg, s, b) ==> SimulatesAt(cfg, s, s', step, b)
  }

  lemma KeepsBegin(cfg: Config, s: State, s': State, p: nat)
    requires Core(cfg, s) && BeginOpStep(s, s', p)
    ensures Core(cfg, s') && Simulates(cfg, s, s', BeginOp(p))
  {
  }

  lemma KeepsModify(cfg: Config, s: State, s': State, p: nat, b: int, data: Block)
    requires Core(cfg, s) && ModifyStep(cfg, s, s', p, b, data)
    ensures Core(cfg, s') && Simulates(cfg, s, s', Modify(p, b, data))
  {
  }

  lemma KeepsGuard(cfg: Config, s: State, s': State, p: nat, b: int)
    requires Core(cfg, s) && GuardStep(cfg, s, s', p, b)
    ensures Core(cfg, s') && Simulates(cfg, s, s', Guard(p, b))
  {
  }

  lemma KeepsAppend(cfg: Config, s: State, s': State, p: nat)
    requires Core(cfg, s) && AppendStep(s, s', p) && |s'.lh| <= LOGSIZE && |s'.lh| < cfg.size
    ensures Core(cfg, s') && Simulates(cfg, s, s', Append(p))
  {
    hide RedoAt, WfDisk;
    var b := s.ops[p].armed.block;
    assert b in s.held;
    assert forall i :: 0 <= i < |s'.lh| ==> s'.lh[i] == b || s'.lh[i] == s.lh[i];
  }

  lemma KeepsEndOp(cfg: Config, s: State, s': State, p: nat)
    requires Core(cfg, s) && EndOpStep(s, s', p)
    ensures Core(cfg, s') && Simulates(cfg, s, s', EndOp(p))
  {
  }

  lemma KeepsCopyBlock(cfg: Config, s: State, s': State)
    requires Core(cfg, s) && CopyBlockStep(cfg, s, s')
    ensures Core(cfg, s')
  {
    RedoLogBlock(cfg, s.disk, s.phase.done, s.cache[s.lh[s.phase.done]].data);
  }

  lemma SimulatesCopyBlock(cfg: Config, s: State, s': State)
    requires Core(cfg, s) && CopyBlockStep(cfg, s, s') && WfDisk(cfg, s'.disk)
    ensures Simulates(cfg, s, s', CopyBlock)
  {
    RedoLogBlock(cfg, s.disk, s.phase.done, s.cache[s.lh[s.phase.done]].data);
  }

  lemma KeepsWriteHead(cfg: Config, s: State, s': State)
    requires Core(cfg, s) && WriteHeadStep(cfg, s, s')
    ensures Core(cfg, s')
  {
    RedoCommit(cfg, s.disk, s.lh, Look(s, cfg.start));
  }

  lemma SimulatesWriteHead(cfg: Config, s: State, s': State)
    requires Core(cfg, s) && WriteHeadStep(cfg, s, s') && WfDisk(cfg, s'.disk)
    ensures Simulates(cfg, s, s', WriteHead)
  {
    RedoCommit(cfg, s.disk, s.lh, Look(s, cfg.start));
  }

  lemma InstallReads(cfg: Config, s: State)
    requires Core(cfg, s) && s.phase.Install? && 0 <= s.phase.done < |s.lh|
    ensures Look(s, LogBlock(cfg, s.phase.done)) == s.disk[LogBlock(cfg, s.phase.done)]
  {
  }

  lemma InstallKeepsCache(cfg: Config, s: State, s': State)
    requires Core(cfg, s) && InstallBlockStep(cfg, s, s')
    ensures CacheInv(cfg, s') && s'.disk.Keys == s.disk.Keys
  {
  }

  lemma InstallKeepsPhase(cfg: Config, s: State, s': State)
    requires Core(cfg, s) && InstallBlockStep(cfg, s, s')
    requires WfDisk(cfg, s'.disk) && WfList(cfg, s'.disk.Keys, s.lh) && Header(cfg, s'.disk) == s.lh
    ensures PhaseInv(cfg, s')
  {
    hide RedoAt, Header;
    InstallReads(cfg, s);
  }

  lemma KeepsInstallBlock(cfg: Config, s: State, s': State)
    requires Core(cfg, s) && InstallBlockStep(cfg, s, s')
    ensures Core(cfg, s')
  {
    InstallReads(cfg, s);
    RedoInstall(cfg, s.disk, s.phase.done);
    InstallKeepsCache(cfg, s, s');
    InstallKeepsPhase(cfg, s, s');
  }

  lemma SimulatesInstallBlock(cfg: Config, s: State, s': State)
    requires Core(cfg, s) && InstallBlockStep(cfg, s, s') && WfDisk(cfg, s'.disk)
    ensures Simulates(cfg, s, s', InstallBlock)
  {
    hide RedoAt, OpsInv;
    InstallReads(cfg, s);
    RedoInstall(cfg, s.disk, s.phase.done);
  }

  lemma KeepsClearHead(cfg: Config, s: State, s': State)
    requires Core(cfg, s) && ClearHeadStep(cfg, s, s')
    ensures Core(cfg, s') && Simulates(cfg, s, s', ClearHead)
  {
    RedoClear(cfg, s.disk, Look(s, cfg.start));
  }

  lemma KeepsLoad(cfg: Config, s: State, s': State, b: int)
    requires Core(cfg, s) && LoadStep(s, s', b)
    ensures Core(cfg, s')
  {
  }

  lemma SimulatesLoad(cfg: Config, s: State, s': State, b: int)
    requires Core(cfg, s) && LoadStep(s, s', b)
    ensures Simulates(cfg, s, s', Load(b))
  {
  }

  lemma KeepsEvict(cfg: Config, s: State, s': State, b: int)
    requires Core(cfg, s) && EvictStep(s, s', b)
    ensures Core(cfg, s') && Simulates(cfg, s, s', Evict(b))
  {
    hide RedoAt, WfDisk;
  }

  lemma KeepsRest(cfg: Config, s: State, s': State, step: Step)
    requires step.Finish? || step.Crash? || step.ReadHead?
    requires Core(cfg, s) && Next(cfg, s, s', step)
    ensures Core(cfg, s') && Simulates(cfg, s, s', step)
  {
  }

  /** For a log of any size, as long as the list does not grow past the log area. */
  lemma Refinement(cfg: Config, s: State, s': State, step: Step)
    requires Inv(cfg, s) && Next(cfg, s, s', step) && (step.Append? ==> |s'.lh| < cfg.size)
    ensures Inv(cfg, s') && Simulates(cfg, s, s', step)
  {
    hide CacheInv, OpsInv, Pinned, PhaseInv, SimulatesAt, Reserve;
    ReservationStep(cfg, s, s', step);
    match step
    case BeginOp(p) => KeepsBegin(cfg, s, s', p);
    case Modify(p, b, data) => KeepsModify(cfg, s, s', p, b, data);
    case Guard(p, b) => KeepsGuard(cfg, s, s', p, b);
    case Append(p) => ReserveFull(s'.ops); KeepsAppend(cfg, s, s', p);
    case EndOp(p) => KeepsEndOp(cfg, s, s', p);
    case CopyBlock => KeepsCopyBlock(cfg, s, s'); SimulatesCopyBlock(cfg, s, s');
    case WriteHead => KeepsWriteHead(cfg, s, s'); SimulatesWriteHead(cfg, s, s');
    case InstallBlock => KeepsInstallBlock(cfg, s, s'); SimulatesInstallBlock(cfg, s, s');
    case ClearHead => KeepsClearHead(cfg, s, s');
    case Load(b) => KeepsLoad(cfg, s, s', b); SimulatesLoad(cfg, s, s', b);
    case Evict(b) => KeepsEvict(cfg, s, s', b);
    case _ => KeepsRest(cfg, s, s', step);
  }
}
