/** When log_write's unlocked tests are enough.  mkfs makes a log of LOGSIZE blocks, header
    included; two operations that both pass the tests before either appends then push the
    list past the log area.  The list stays inside exactly when the log has a spare block,
    or no room at all. */
module LogOverrun {
  import opened Param
  import opened DiskBlock
  import opened LogFormat
  import opened LogProtocol
  import opened LogRefinement
  import opened LogRuns

  ghost predicate Reach(cfg: Config, s: State) {
    exists ss, steps :: Behavior(cfg, ss, steps) && ss[|ss| - 1] == s
  }

  lemma OneMore(cfg: Config, ss: seq<State>, steps: seq<Step>, s': State, step: Step)
    requires Behavior(cfg, ss, steps) && Next(cfg, ss[|ss| - 1], s', step)
    ensures Behavior(cfg, ss + [s'], steps + [step])
  {
    var ss', steps' := ss + [s'], steps + [step];
    forall i | 0 <= i < |steps'|
      ensures Next(cfg, ss'[i], ss'[i + 1], steps'[i])
    {
      assert i < |steps| ==> steps'[i] == steps[i];
    }
  }

  /** The block after the log area: the first inode block. */
  function Victim(cfg: Config): int {
    cfg.start + cfg.size
  }

  /** Home blocks beyond it. */
  function HomeNo(cfg: Config, i: int): (b: int)
    ensures i >= 0 ==> !InLog(cfg, b) && b != Victim(cfg)
  {
    cfg.start + cfg.size + 1 + i
  }

  function Filling(w: int): (b: Block)
    ensures |b.words| == BLOCKWORDS
  {
    Block(seq(BLOCKWORDS, i => w))
  }

  /** What the operations below write. */
  function NewData(): Block {
    Filling(1)
  }

  function Blank(b: int): Block {
    Filling(0)
  }

  ghost function EmptyLogDisk(cfg: Config): Disk
    requires cfg.size >= 1
  {
    map b | cfg.start <= b <= cfg.start + cfg.size + LOGSIZE :: Blank(b)
  }

  /** A run from the empty disk in which no operation writes the victim. */
  ghost predicate Spares(cfg: Config, ss: seq<State>, steps: seq<Step>)
    requires cfg.size >= 1
  {
    && Behavior(cfg, ss, steps) && ss[0].disk == EmptyLogDisk(cfg)
    && forall i :: 0 <= i < |steps| ==> !(steps[i].Modify? && steps[i].block == Victim(cfg))
  }

  ghost predicate Path(cfg: Config, s: State) {
    cfg.size >= 1 && exists ss, steps :: Spares(cfg, ss, steps) && ss[|ss| - 1] == s
  }

  lemma PathInit(cfg: Config, s: State)
    requires cfg.size >= 1 && Init(cfg, s) && s.disk == EmptyLogDisk(cfg)
    ensures Path(cfg, s)
  {
    assert Spares(cfg, [s], []);
  }

  lemma PathStep(cfg: Config, s: State, s': State, step: Step)
    requires Path(cfg, s) && Next(cfg, s, s', step) && !(step.Modify? && step.block == Victim(cfg))
    ensures Path(cfg, s')
  {
    var ss, steps :| Spares(cfg, ss, steps) && ss[|ss| - 1] == s;
    OneMore(cfg, ss, steps, s', step);
    assert Spares(cfg, ss + [s'], steps + [step]);
  }

  lemma PathReach(cfg: Config, s: State)
    requires Path(cfg, s)
    ensures Reach(cfg, s)
  {
    var ss, steps :| Spares(cfg, ss, steps) && ss[|ss| - 1] == s;
  }

  /** Operation p has changed block b and passed the tests of log_write. */
  function ArmedState(s: State, p: nat, b: int): State
    requires p in s.ops
  {
    s.(cache := s.cache[b := Buf(NewData(), false)],
       held := s.held[b := p],
       journal := s.journal + [Write(p, b, NewData())],
       ops := s.ops[p := s.ops[p].(armed := At(b))])
  }

  lemma PathArmed(cfg: Config, s: State, p: nat, b: int)
    requires Path(cfg, s) && s.phase == Idle && p in s.ops && s.ops[p].armed == Unarmed
    requires b in s.disk && b !in s.cache && b !in s.held && !InLog(cfg, b) && b != Victim(cfg) && GuardPasses(cfg, |s.lh|)
    ensures Path(cfg, ArmedState(s, p, b))
  {
    var s1 := s.(cache := s.cache[b := Buf(s.disk[b], false)]);
    PathStep(cfg, s, s1, Load(b));
    var s2 := s1.(cache := s1.cache[b := Buf(NewData(), false)], held := s1.held[b := p],
                  journal := s1.journal + [Write(p, b, NewData())]);
    PathStep(cfg, s1, s2, Modify(p, b, NewData()));
    var s3 := s2.(ops := s2.ops[p := s2.ops[p].(armed := At(b))]);
    PathStep(cfg, s2, s3, Guard(p, b));
    assert s3.cache == ArmedState(s, p, b).cache;
  }

  function AppendedState(s: State, p: nat, b: int): State
    requires p in s.ops
  {
    s.(lh := s.lh + [b],
       ops := s.ops[p := OpState(s.ops[p].used + 1, Unarmed)],
       cache := s.cache[b := Buf(NewData(), true)],
       held := s.held - {b})
  }

  lemma PathAppended(cfg: Config, s: State, p: nat, b: int)
    requires Path(cfg, s) && p in s.ops && s.ops[p].armed == At(b) && s.ops[p].used < MAXOPBLOCKS
    requires b in s.cache && s.cache[b].data == NewData() && b !in s.lh
    ensures Path(cfg, AppendedState(s, p, b))
  {
    PathStep(cfg, s, AppendedState(s, p, b), Append(p));
  }

  // ------------------------------------------------------------- filling the log

  function Used(k: nat, p: nat): nat {
    if p <= k + 2 then (k + 2 - p) / 3 else 0
  }

  /** Operations 0, 1 and 2 have logged k blocks in turn. */
  ghost predicate TookTurns(s: State, k: nat) {
    && s.ops.Keys == {0, 1, 2}
    && (forall p :: p in s.ops ==> s.ops[p] == OpState(Used(k, p), Unarmed))
  }

  /** Three operations have taken turns to log the first k home blocks. */
  ghost predicate Filled(cfg: Config, s: State, k: nat) {
    && s.phase == Idle && s.held == map[]
    && |s.lh| == k
    && (forall i :: 0 <= i < k ==> s.lh[i] == HomeNo(cfg, i))
    && (forall i :: 0 <= i < LOGSIZE ==> HomeNo(cfg, i) in s.disk)
    && (forall i :: 0 <= i ==> (HomeNo(cfg, i) in s.cache <==> i < k))
    && (forall i :: 0 <= i < k ==> s.cache[HomeNo(cfg, i)].data == NewData())
    && TookTurns(s, k)
  }

  lemma UsedTurn(k: nat, q: nat)
    requires q < 3
    ensures Used(k + 1, q) == Used(k, q) + if q == k % 3 then 1 else 0
  {
  }

  lemma TurnTaken(s: State, k: nat, b: int)
    requires TookTurns(s, k)
    ensures TookTurns(AppendedState(ArmedState(s, k % 3, b), k % 3, b), k + 1)
  {
    hide Used, NewData;
    var s' := AppendedState(ArmedState(s, k % 3, b), k % 3, b);
    assert s'.ops.Keys == s.ops.Keys;
    forall q: nat | q in s'.ops
      ensures s'.ops[q] == OpState(Used(k + 1, q), Unarmed)
    {
      UsedTurn(k, q);
    }
  }

  lemma FilledNext(cfg: Config, s: State, k: nat)
    requires Filled(cfg, s, k)
    ensures var a := ArmedState(s, k % 3, HomeNo(cfg, k));
            Filled(cfg, AppendedState(a, k % 3, HomeNo(cfg, k)), k + 1)
  {
    var p, b := k % 3, HomeNo(cfg, k);
    TurnTaken(s, k, b);
    var s' := AppendedState(ArmedState(s, p, b), p, b);
    assert s'.held == map[];
  }

  lemma FillOne(cfg: Config, s: State, k: nat) returns (s': State)
    requires Path(cfg, s) && Filled(cfg, s, k) && GuardPasses(cfg, k)
    ensures Path(cfg, s') && Filled(cfg, s', k + 1)
  {
    var p, b := k % 3, HomeNo(cfg, k);
    var a := ArmedState(s, p, b);
    PathArmed(cfg, s, p, b);
    PathAppended(cfg, a, p, b);
    s' := AppendedState(a, p, b);
    FilledNext(cfg, s, k);
  }

  lemma Boot(cfg: Config) returns (s: State)
    requires cfg.size >= 1
    ensures Path(cfg, s) && s == State(s.disk, s.cache, [], map[], map[], Idle, [])
    ensures s.disk.Keys == EmptyLogDisk(cfg).Keys && s.cache.Keys == {cfg.start}
  {
    var d := EmptyLogDisk(cfg);
    s := State(d, map[], [], map[], map[], Down, []);
    assert HeaderOf(d[cfg.start]) == [];
    PathInit(cfg, s);
    var s1 := s.(phase := Install(0, true));
    PathStep(cfg, s, s1, ReadHead);
    var s2 := Bwrite(s1, cfg.start, PutHeader(d[cfg.start], [])).(phase := Cleared);
    PathStep(cfg, s1, s2, ClearHead);
    s := s2.(phase := Idle);
    PathStep(cfg, s2, s, Finish);
    assert s.disk.Keys == d.Keys;
  }

  lemma FillNone(cfg: Config) returns (s: State)
    requires cfg.size >= 1
    ensures Path(cfg, s) && Filled(cfg, s, 0)
  {
    s := Boot(cfg);
    var s1 := s.(ops := map[0 := OpState(0, Unarmed)]);
    PathStep(cfg, s, s1, BeginOp(0));
    var s2 := s.(ops := map[0 := OpState(0, Unarmed), 1 := OpState(0, Unarmed)]);
    assert s2.ops == s1.ops[1 := OpState(0, Unarmed)];
    PathStep(cfg, s1, s2, BeginOp(1));
    s := s.(ops := map[0 := OpState(0, Unarmed), 1 := OpState(0, Unarmed), 2 := OpState(0, Unarmed)]);
    assert s.ops == s2.ops[2 := OpState(0, Unarmed)];
    PathStep(cfg, s2, s, BeginOp(2));
    assert forall i :: 0 <= i < LOGSIZE ==> HomeNo(cfg, i) in EmptyLogDisk(cfg).Keys;
  }

  lemma {:induction false} Fill(cfg: Config, k: nat) returns (s: State)
    requires cfg.size >= 1 && k <= LOGSIZE && k < cfg.size
    ensures Path(cfg, s) && Filled(cfg, s, k)
    decreases k
  {
    if k == 0 {
      s := FillNone(cfg);
    } else {
      s := Fill(cfg, k - 1);
      s := FillOne(cfg, s, k - 1);
    }
  }

  /** Block b logged by p, then block c by q. */
  function InTurn(s: State, p: nat, b: int, q: nat, c: int): State
    requires p in s.ops && q in s.ops
  {
    AppendedState(ArmedState(AppendedState(ArmedState(s, p, b), p, b), q, c), q, c)
  }

  /** The same with both tests before both appends. */
  function Raced(s: State, p: nat, b: int, q: nat, c: int): State
    requires p in s.ops && q in s.ops
  {
    AppendedState(AppendedState(ArmedState(ArmedState(s, p, b), q, c), p, b), q, c)
  }

  lemma RacedMaps(s: State, p: nat, b: int, q: nat, c: int)
    requires p in s.ops && q in s.ops && p != q && b != c && b !in s.held && c !in s.held
    ensures InTurn(s, p, b, q, c).cache == Raced(s, p, b, q, c).cache
    ensures InTurn(s, p, b, q, c).held == Raced(s, p, b, q, c).held
  {
  }

  lemma RacedSame(s: State, p: nat, b: int, q: nat, c: int)
    requires p in s.ops && q in s.ops && p != q && b != c && b !in s.held && c !in s.held
    ensures InTurn(s, p, b, q, c) == Raced(s, p, b, q, c)
  {
    RacedMaps(s, p, b, q, c);
    assert InTurn(s, p, b, q, c).ops == Raced(s, p, b, q, c).ops;
  }

  lemma FilledTwice(cfg: Config, s: State, k: nat)
    requires Filled(cfg, s, k)
    ensures Filled(cfg, InTurn(s, k % 3, HomeNo(cfg, k), (k + 1) % 3, HomeNo(cfg, k + 1)), k + 2)
  {
    hide HomeNo, NewData, Used;
    var p, b := k % 3, HomeNo(cfg, k);
    FilledNext(cfg, s, k);
    FilledNext(cfg, AppendedState(ArmedState(s, p, b), p, b), k + 1);
  }

  /** A block that operation p can load, change and log. */
  ghost predicate Fresh(cfg: Config, s: State, p: nat, b: int) {
    && p in s.ops && s.ops[p].armed == Unarmed && s.ops[p].used < MAXOPBLOCKS
    && b in s.disk && b !in s.cache && b !in s.held && b !in s.lh && !InLog(cfg, b) && b != Victim(cfg)
  }

  lemma PathRaced(cfg: Config, s: State, p: nat, b: int, q: nat, c: int)
    requires Path(cfg, s) && s.phase == Idle && GuardPasses(cfg, |s.lh|)
    requires p != q && b != c && Fresh(cfg, s, p, b) && Fresh(cfg, s, q, c)
    ensures Path(cfg, Raced(s, p, b, q, c))
  {
    PathArmed(cfg, s, p, b);
    var s1 := ArmedState(s, p, b);
    PathArmed(cfg, s1, q, c);
    var s2 := ArmedState(s1, q, c);
    PathAppended(cfg, s2, p, b);
    PathAppended(cfg, AppendedState(s2, p, b), q, c);
  }

  /** Two operations both pass the tests with one log block left, then both append: the
      last block of the list is to be logged in a block outside the log area. */
  lemma Overrun(cfg: Config) returns (s: State)
    requires 2 <= cfg.size <= LOGSIZE
    ensures Path(cfg, s) && Filled(cfg, s, cfg.size) && LogBlock(cfg, |s.lh| - 1) == Victim(cfg)
  {
    var k := cfg.size - 2;
    var f := Fill(cfg, k);
    var p, q, b, c := k % 3, (k + 1) % 3, HomeNo(cfg, k), HomeNo(cfg, k + 1);
    PathRaced(cfg, f, p, b, q, c);
    FilledTwice(cfg, f, k);
    RacedSame(f, p, b, q, c);
    s := Raced(f, p, b, q, c);
  }

  // --------------------------------------------- the commit that follows

  /** The operations have ended and n log blocks have been copied. */
  ghost predicate Copied(cfg: Config, s: State, n: nat) {
    && s.phase == CopyLog(n) && n <= |s.lh| == cfg.size
    && (forall i :: 0 <= i < cfg.size ==> s.lh[i] == HomeNo(cfg, i) && HomeNo(cfg, i) in s.cache
                                          && s.cache[HomeNo(cfg, i)].data == NewData())
    && (forall i :: 0 <= i < n ==> LogBlock(cfg, i) in s.disk && s.disk[LogBlock(cfg, i)] == NewData())
  }

  lemma PathEnd(cfg: Config, s: State, p: nat, phase: Phase)
    requires Path(cfg, s) && p in s.ops && s.ops[p].armed == Unarmed && s.held == map[]
    requires phase == if s.ops - {p} != map[] then s.phase else if s.lh == [] then LogProtocol.Cleared else CopyLog(0)
    ensures Path(cfg, s.(ops := s.ops - {p}, phase := phase))
  {
    PathStep(cfg, s, s.(ops := s.ops - {p}, phase := phase), EndOp(p));
  }

  lemma EndAll(cfg: Config, s: State) returns (s': State)
    requires cfg.size >= 2 && Path(cfg, s) && Filled(cfg, s, cfg.size)
    ensures Path(cfg, s') && Copied(cfg, s', 0)
  {
    hide Path, Used;
    assert 1 in s.ops - {0} && 2 in s.ops - {0} - {1};
    PathEnd(cfg, s, 0, Idle);
    var s1 := s.(ops := s.ops - {0}, phase := Idle);
    PathEnd(cfg, s1, 1, Idle);
    var s2 := s1.(ops := s1.ops - {1}, phase := Idle);
    assert s2.ops.Keys == {2};
    assert s2.ops - {2} == map[];
    PathEnd(cfg, s2, 2, CopyLog(0));
    s' := s2.(ops := s2.ops - {2}, phase := CopyLog(0));
  }

  lemma {:induction false} CopyAll(cfg: Config, s: State, n: nat) returns (s': State)
    requires cfg.size >= 2 && Path(cfg, s) && Copied(cfg, s, 0) && n <= cfg.size
    ensures Path(cfg, s') && Copied(cfg, s', n)
  {
    s' := s;
    if n > 0 {
      var t := CopyAll(cfg, s, n - 1);
      s' := Bwrite(t, LogBlock(cfg, n - 1), NewData()).(phase := CopyLog(n));
      PathStep(cfg, t, s', CopyBlock);
    }
  }

  /** The commit writes over the first inode block, which no operation has written: the log
      that mkfs makes is open to this. */
  lemma OverrunCorrupts(cfg: Config) returns (ss: seq<State>, steps: seq<Step>)
    requires 2 <= cfg.size <= LOGSIZE
    ensures Behavior(cfg, ss, steps) && !InLog(cfg, Victim(cfg))
    ensures forall i :: 0 <= i < |steps| ==> !(steps[i].Modify? && steps[i].block == Victim(cfg))
    ensures Victim(cfg) in ss[0].disk && Victim(cfg) in ss[|ss| - 1].disk
    ensures ss[0].disk[Victim(cfg)] == Filling(0) && ss[|ss| - 1].disk[Victim(cfg)] == Filling(1) != Filling(0)
  {
    var s := Overrun(cfg);
    s := EndAll(cfg, s);
    s := CopyAll(cfg, s, cfg.size);
    ss, steps :| Spares(cfg, ss, steps) && ss[|ss| - 1] == s;
    assert LogBlock(cfg, cfg.size - 1) == Victim(cfg);
    assert Filling(1).words[0] == 1 && Filling(0).words[0] == 0;
  }

  // A log that is only a header: nothing can be logged at all.

  ghost predicate HeaderOnly(cfg: Config, s: State) {
    && s.lh == [] && !s.phase.CopyLog?
    && cfg.start in s.disk && WfHead(s.disk[cfg.start]) && HeaderOf(s.disk[cfg.start]) == []
    && forall p :: p in s.ops ==> s.ops[p].armed == Unarmed
  }

  lemma HeaderOnlyStep(cfg: Config, s: State, s': State, step: Step)
    requires cfg.size == 1 && HeaderOnly(cfg, s) && Next(cfg, s, s', step)
    ensures HeaderOnly(cfg, s')
  {
  }

  lemma {:induction false} HeaderOnlyHolds(cfg: Config, ss: seq<State>, steps: seq<Step>, i: nat)
    requires cfg.size == 1 && Behavior(cfg, ss, steps) && i < |ss|
    ensures HeaderOnly(cfg, ss[i])
  {
    if i > 0 {
      var k := i - 1;
      HeaderOnlyHolds(cfg, ss, steps, k);
      HeaderOnlyStep(cfg, ss[k], ss[k + 1], steps[k]);
    }
  }

  /** A log with a spare block: LOGSIZE data blocks fit beside the header. */
  ghost predicate Spare(cfg: Config) {
    cfg.size > LOGSIZE
  }

  /** With a spare block, or no room for anything, every run stays inside the log area. */
  lemma InsideWhenSpare(cfg: Config, ss: seq<State>, steps: seq<Step>)
    requires (cfg.size == 1 || Spare(cfg)) && Behavior(cfg, ss, steps)
    ensures Inside(cfg, ss)
  {
    forall i | 0 <= i < |ss|
      ensures |ss[i].lh| < cfg.size
    {
      if Spare(cfg) {
        ReservationHolds(cfg, ss, steps, i);
      } else {
        HeaderOnlyHolds(cfg, ss, steps, i);
      }
    }
  }

  // ------------------------------------- a smaller log: which schedules stay inside

  predicate IsGuard(step: Step, p: nat) {
    step.Guard? && step.op == p
  }

  /** Guard g is the one that append k of the same operation relies on. */
  ghost predicate Arms(steps: seq<Step>, g: nat, k: nat) {
    && g < k < |steps| && steps[g].Guard? && steps[k] == Append(steps[g].op)
    && forall x :: g < x < k ==> !IsGuard(steps[x], steps[g].op)
  }

  /** Nobody appends between an operation's tests in log_write and its own append. */
  ghost predicate Undisturbed(steps: seq<Step>) {
    forall g, m, k :: Arms(steps, g, k) && g < m < k ==> !steps[m].Append?
  }

  /** An operation that has passed the tests has just done so, or had before. */
  lemma ArmedBefore(cfg: Config, s: State, s': State, step: Step, p: nat)
    requires Next(cfg, s, s', step) && Reserved(s) && p in s'.ops && s'.ops[p].armed.At?
    ensures if IsGuard(step, p) then GuardPasses(cfg, |s.lh|) else p in s.ops && s.ops[p].armed.At?
    ensures !step.Append? ==> |s'.lh| <= |s.lh|
  {
    hide Reserve;
  }

  /** The tests that operation p passed last, and what has become of the list since. */
  lemma {:induction false} LastGuard(cfg: Config, ss: seq<State>, steps: seq<Step>, i: nat, p: nat) returns (g: nat)
    requires Behavior(cfg, ss, steps) && i < |ss| && p in ss[i].ops && ss[i].ops[p].armed.At?
    ensures g < i && IsGuard(steps[g], p) && GuardPasses(cfg, |ss[g].lh|)
    ensures forall x :: g < x < i ==> !IsGuard(steps[x], p)
    ensures (forall m :: g < m < i ==> !steps[m].Append?) ==> |ss[i].lh| <= |ss[g].lh|
  {
    hide Next;
    var k := i - 1;
    ReservationHolds(cfg, ss, steps, k);
    ArmedBefore(cfg, ss[k], ss[i], steps[k], p);
    if IsGuard(steps[k], p) {
      g := k;
    } else {
      g := LastGuard(cfg, ss, steps, k, p);
    }
  }

  /** Such a run stays inside a log of any size, also the one mkfs makes. */
  lemma {:induction false} UndisturbedInv(cfg: Config, ss: seq<State>, steps: seq<Step>, i: nat)
    requires Behavior(cfg, ss, steps) && Undisturbed(steps) && i < |ss|
    ensures Inv(cfg, ss[i])
  {
    if i == 0 {
      InitInv(cfg, ss[0]);
    } else {
      var k := i - 1;
      UndisturbedInv(cfg, ss, steps, k);
      if steps[k].Append? {
        var g := LastGuard(cfg, ss, steps, k, steps[k].op);
        assert Arms(steps, g, k);
        assert |ss[k].lh| <= |ss[g].lh|;
      }
      Refinement(cfg, ss[k], ss[i], steps[k]);
    }
  }

  lemma InsideWhenUndisturbed(cfg: Config, ss: seq<State>, steps: seq<Step>)
    requires Behavior(cfg, ss, steps) && Undisturbed(steps)
    ensures Inside(cfg, ss)
  {
    forall i | 0 <= i < |ss|
      ensures |ss[i].lh| < cfg.size
    {
      UndisturbedInv(cfg, ss, steps, i);
    }
  }

  /** Every run keeps the logged blocks inside the log area if and only if the log has room
      for LOGSIZE data blocks (or for none).  mkfs's log of LOGSIZE blocks is too small. */
  lemma StaysInsideIff(cfg: Config)
    requires cfg.size >= 1
    ensures (forall s :: Reach(cfg, s) ==> |s.lh| < cfg.size) <==> cfg.size == 1 || cfg.size > LOGSIZE
  {
    if cfg.size == 1 || Spare(cfg) {
      forall s | Reach(cfg, s)
        ensures |s.lh| < cfg.size
      {
        var ss, steps :| Behavior(cfg, ss, steps) && ss[|ss| - 1] == s;
        InsideWhenSpare(cfg, ss, steps);
      }
    } else {
      var s := Overrun(cfg);
      PathReach(cfg, s);
    }
  }

  /** With a spare block, an operation that still has budget never panics in log_write. */
  lemma NoPanicWithinBudget(cfg: Config, s: State, p: nat)
    requires Spare(cfg) && Reach(cfg, s) && p in s.ops && s.ops[p].used < MAXOPBLOCKS
    ensures GuardPasses(cfg, |s.lh|)
  {
    var ss, steps :| Behavior(cfg, ss, steps) && ss[|ss| - 1] == s;
    ReservationHolds(cfg, ss, steps, |ss| - 1);
  }

  /** Without one it can: three operations have filled the log, and the last has budget left. */
  lemma PanicWithinBudget(cfg: Config) returns (s: State, p: nat)
    requires 1 <= cfg.size <= LOGSIZE
    ensures Reach(cfg, s) && p in s.ops && s.ops[p].used < MAXOPBLOCKS && !GuardPasses(cfg, |s.lh|)
  {
    p := 2;
    s := Fill(cfg, cfg.size - 1);
    PathReach(cfg, s);
  }

  ghost predicate HasBudget(s: State, p: nat) {
    p in s.ops && s.ops[p].used < MAXOPBLOCKS
  }

  /** log_write never panics on an operation with budget left if and only if the log has a spare
      block.  The log that mkfs makes has none. */
  lemma NoPanicIff(cfg: Config)
    requires cfg.size >= 1
    ensures (forall s, p :: Reach(cfg, s) && HasBudget(s, p) ==> GuardPasses(cfg, |s.lh|)) <==> Spare(cfg)
  {
    if Spare(cfg) {
      forall s, p | Reach(cfg, s) && HasBudget(s, p)
        ensures GuardPasses(cfg, |s.lh|)
      {
        NoPanicWithinBudget(cfg, s, p);
      }
    } else {
      var s, p := PanicWithinBudget(cfg);
      assert HasBudget(s, p);
    }
  }

  /** The tests come before the search for an absorbing entry, so a full log panics even on
      a block that is already in it. */
  lemma AbsorbedWriteCanPanic(cfg: Config) returns (s: State, p: nat, b: int)
    requires cfg.size >= 2
    ensures Reach(cfg, s) && p in s.ops && b in s.held && s.held[b] == p
    ensures b in s.lh && !GuardPasses(cfg, |s.lh|)
  {
    var f := Fill(cfg, if cfg.size <= LOGSIZE then cfg.size - 1 else LOGSIZE);
    p, b := 0, HomeNo(cfg, 0);
    s := f.(cache := f.cache[b := f.cache[b].(data := NewData())], held := f.held[b := p],
            journal := f.journal + [Write(p, b, NewData())]);
    PathStep(cfg, f, s, Modify(p, b, NewData()));
    PathReach(cfg, s);
    assert s.lh[0] == b;
  }
}
