/** log.c as it is written: one object whose loops read through the buffer cache and write
    the disk a block at a time.  `trace` records the disk after every block write, so a
    contract about all of `trace` is a contract about a crash after any write. */
module Log {
  import opened Param
  import opened DiskBlock
  import opened LogFormat
  import LogProtocol

  datatype Outcome = Done | Sleep | Panic(message: string)

  /** Image t, once its log is replayed, holds base with the blocks of vals replaced. */
  ghost predicate Means(cfg: Config, t: Disk, base: Disk, vals: map<int, Block>) {
    && t.Keys == base.Keys
    && WfDisk(cfg, t)
    && forall b :: b in base && !InLog(cfg, b) ==> RedoAt(cfg, t, b) == if b in vals then vals[b] else base[b]
  }

  /** Replaying t gives what replaying d gives. */
  ghost predicate SameMeaning(cfg: Config, t: Disk, d: Disk)
    requires WfDisk(cfg, d)
  {
    && t.Keys == d.Keys
    && WfDisk(cfg, t)
    && forall b :: b in d && !InLog(cfg, b) ==> RedoAt(cfg, t, b) == RedoAt(cfg, d, b)
  }

  lemma MeansItself(cfg: Config, d: Disk)
    requires WfDisk(cfg, d) && Header(cfg, d) == []
    ensures Means(cfg, d, d, map[])
  {
  }

  lemma SameThenMeans(cfg: Config, t: Disk, d: Disk, base: Disk, vals: map<int, Block>)
    requires Means(cfg, d, base, vals) && SameMeaning(cfg, t, d)
    ensures Means(cfg, t, base, vals)
  {
  }

  ghost predicate Installed(cfg: Config, d: Disk, lh: seq<int>, k: int)
    requires WfDisk(cfg, d) && WfList(cfg, d.Keys, lh) && k <= |lh|
  {
    forall i :: 0 <= i < k ==> d[lh[i]] == d[LogBlock(cfg, i)]
  }

  lemma InstallOne(cfg: Config, d: Disk, lh: seq<int>, k: int)
    requires WfDisk(cfg, d) && Header(cfg, d) == lh && 0 <= k < |lh| && Installed(cfg, d, lh, k)
    ensures var d' := d[lh[k] := d[LogBlock(cfg, k)]];
            SameMeaning(cfg, d', d) && Header(cfg, d') == lh && Installed(cfg, d', lh, k + 1)
  {
    RedoInstall(cfg, d, k);
  }

  lemma SameTrans(cfg: Config, t: Disk, d: Disk, base: Disk)
    requires WfDisk(cfg, base) && SameMeaning(cfg, d, base) && SameMeaning(cfg, t, d)
    ensures SameMeaning(cfg, t, base)
  {
  }

  /** Before the header write, copying a block to the log leaves the meaning alone. */
  lemma CopyOne(cfg: Config, base: Disk, d: Disk, k: int, v: Block)
    requires Means(cfg, d, base, map[]) && Header(cfg, d) == [] && 0 <= k && 1 + k < cfg.size
    ensures var d' := d[LogBlock(cfg, k) := v];
            Means(cfg, d', base, map[]) && Header(cfg, d') == []
  {
  }

  /** The header write turns an image that means the old contents into one that means the new. */
  lemma CommitPoint(cfg: Config, base: Disk, d: Disk, lh: seq<int>, vals: map<int, Block>, hb: Block)
    requires Means(cfg, d, base, map[]) && Header(cfg, d) == [] && WfList(cfg, d.Keys, lh)
    requires |hb.words| == BLOCKWORDS
    requires forall b :: b in vals <==> b in lh
    requires forall i :: 0 <= i < |lh| ==> d[LogBlock(cfg, i)] == vals[lh[i]]
    ensures var d' := d[cfg.start := PutHeader(hb, lh)];
            Means(cfg, d', base, vals) && Header(cfg, d') == lh
  {
  }

  lemma Erased(cfg: Config, d: Disk, hb: Block)
    requires WfDisk(cfg, d) && |hb.words| == BLOCKWORDS && Installed(cfg, d, Header(cfg, d), |Header(cfg, d)|)
    ensures var d' := d[cfg.start := PutHeader(hb, [])];
            && SameMeaning(cfg, d', d) && Header(cfg, d') == []
            && forall b :: b in d && !InLog(cfg, b) ==> d'[b] == RedoAt(cfg, d, b) == d[b]
  {
  }

  /** Home blocks have the same buffers, if any. */
  ghost predicate SameHome(cfg: Config, c: map<int, LogProtocol.Buf>, c': map<int, LogProtocol.Buf>, except: seq<int>) {
    forall b :: !InLog(cfg, b) && b !in except ==> (b in c' <==> b in c) && (b in c ==> c'[b] == c[b])
  }

  // ------------------------------------- the code makes the steps of the protocol

  /** One turn of write_log. */
  lemma CopyTurn(cfg: Config, s0: LogProtocol.State, s: LogProtocol.State, s': LogProtocol.State, k: int)
    requires LogProtocol.Leads(cfg, s0, s) && s.phase == LogProtocol.CopyLog(k) && 0 <= k < |s.lh| && s.lh[k] in s.cache
    requires s' == LogProtocol.Bwrite(s, LogBlock(cfg, k), s.cache[s.lh[k]].data).(phase := LogProtocol.CopyLog(k + 1))
    ensures LogProtocol.Leads(cfg, s0, s')
  {
    LogProtocol.LeadsOne(cfg, s0, s, s', LogProtocol.CopyBlock);
  }

  /** Reading a block loads it if it is not cached. */
  function Loaded(s: LogProtocol.State, b: int): LogProtocol.State
    requires b in s.disk
  {
    if b in s.cache then s else s.(cache := s.cache[b := LogProtocol.Buf(s.disk[b], false)])
  }

  lemma LoadTurn(cfg: Config, s0: LogProtocol.State, s: LogProtocol.State, b: int)
    requires LogProtocol.Leads(cfg, s0, s) && s.phase != LogProtocol.Down && b in s.disk
    ensures LogProtocol.Leads(cfg, s0, Loaded(s, b))
  {
    if b !in s.cache {
      LogProtocol.LeadsOne(cfg, s0, s, Loaded(s, b), LogProtocol.Load(b));
    }
  }

  /** One turn of install_trans: the log block is loaded if need be, then installed. */
  lemma InstallTurn(cfg: Config, s0: LogProtocol.State, s: LogProtocol.State, s': LogProtocol.State, k: int)
    requires LogProtocol.Leads(cfg, s0, s) && s.phase.Install? && s.phase.done == k && 0 <= k < |s.lh|
    requires LogBlock(cfg, k) in s.disk
    requires var l := Loaded(s, LogBlock(cfg, k));
             s' == LogProtocol.Bwrite(l, s.lh[k], l.cache[LogBlock(cfg, k)].data).(phase := s.phase.(done := k + 1))
    ensures LogProtocol.Leads(cfg, s0, s')
  {
    LoadTurn(cfg, s0, s, LogBlock(cfg, k));
    LogProtocol.LeadsOne(cfg, s0, Loaded(s, LogBlock(cfg, k)), s', LogProtocol.InstallBlock);
  }

  /** read_head, and the load of the header block that it makes. */
  lemma ReadTurn(cfg: Config, s: LogProtocol.State, s': LogProtocol.State)
    requires WfDisk(cfg, s.disk) && s.phase == LogProtocol.Down
    requires s' == Loaded(s.(lh := Header(cfg, s.disk), phase := LogProtocol.Install(0, true)), cfg.start)
    ensures LogProtocol.Leads(cfg, s, s')
  {
    hide LogProtocol.Leads;
    var s1 := s.(lh := Header(cfg, s.disk), phase := LogProtocol.Install(0, true));
    LogProtocol.LeadsNone(cfg, s);
    LogProtocol.LeadsOne(cfg, s, s, s1, LogProtocol.ReadHead);
    LoadTurn(cfg, s, s1, cfg.start);
  }

  ghost predicate AllClean(c: map<int, LogProtocol.Buf>) {
    forall b :: b in c ==> !c[b].dirty
  }

  lemma OneFewer(s: LogProtocol.State, p: nat)
    requires p in s.ops
    ensures |s.ops - {p}| == |s.ops| - 1
  {
    assert (s.ops - {p}).Keys == s.ops.Keys - {p};
  }

  /** Where write_log stands after k blocks, from disk d0 and cache c0. */
  ghost predicate Copying(cfg: Config, d0: Disk, c0: map<int, LogProtocol.Buf>, d: Disk, c: map<int, LogProtocol.Buf>,
                          lh: seq<int>, k: int) {
    && Means(cfg, d, d0, map[]) && Header(cfg, d) == [] && WfList(cfg, d.Keys, lh) && 0 <= k <= |lh|
    && SameHome(cfg, c0, c, [])
    && (forall i :: 0 <= i < |lh| ==> lh[i] in c0)
    && forall i :: 0 <= i < k ==> d[LogBlock(cfg, i)] == c0[lh[i]].data
  }

  lemma CopyingNone(cfg: Config, d: Disk, c: map<int, LogProtocol.Buf>, lh: seq<int>)
    requires WfDisk(cfg, d) && Header(cfg, d) == [] && WfList(cfg, d.Keys, lh) && forall i :: 0 <= i < |lh| ==> lh[i] in c
    ensures Copying(cfg, d, c, d, c, lh, 0)
  {
    MeansItself(cfg, d);
  }

  lemma CopyingParts(cfg: Config, d0: Disk, c0: map<int, LogProtocol.Buf>, d: Disk, c: map<int, LogProtocol.Buf>, lh: seq<int>, k: int)
    requires Copying(cfg, d0, c0, d, c, lh, k)
    ensures WfDisk(cfg, d) && Header(cfg, d) == [] && WfList(cfg, d.Keys, lh) && Means(cfg, d, d0, map[])
    ensures SameHome(cfg, c0, c, []) && forall i :: 0 <= i < |lh| ==> lh[i] in c && lh[i] in c0 && c[lh[i]] == c0[lh[i]]
    ensures forall i :: 0 <= i < k ==> d[LogBlock(cfg, i)] == c0[lh[i]].data
  {
  }

  lemma CopyingNext(cfg: Config, d0: Disk, c0: map<int, LogProtocol.Buf>, d: Disk, c: map<int, LogProtocol.Buf>,
                    d': Disk, c': map<int, LogProtocol.Buf>, lh: seq<int>, k: int)
    requires Copying(cfg, d0, c0, d, c, lh, k) && k < |lh| && lh[k] in c
    requires d' == d[LogBlock(cfg, k) := c[lh[k]].data]
    requires c' == c[LogBlock(cfg, k) := LogProtocol.Buf(c[lh[k]].data, false)]
    ensures Copying(cfg, d0, c0, d', c', lh, k + 1) && Means(cfg, d', d0, map[])
  {
    hide RedoAt;
    CopyOne(cfg, d0, d, k, c[lh[k]].data);
  }

  /** What install_trans has done to the cache after the first k blocks, starting from c0. */
  ghost predicate Installing(cfg: Config, c0: map<int, LogProtocol.Buf>, d: Disk, c: map<int, LogProtocol.Buf>, lh: seq<int>, k: int)
    requires 0 <= k <= |lh|
  {
    && (forall i :: 0 <= i < k ==> lh[i] in d && lh[i] in c && c[lh[i]] == LogProtocol.Buf(d[lh[i]], false))
    && SameHome(cfg, c0, c, lh)
    && (AllClean(c0) ==> AllClean(c))
  }

  /** Where install_trans stands after k blocks, from disk d0 and cache c0. */
  ghost predicate Installs(cfg: Config, d0: Disk, c0: map<int, LogProtocol.Buf>, d: Disk, c: map<int, LogProtocol.Buf>,
                           lh: seq<int>, k: int) {
    && WfDisk(cfg, d0) && SameMeaning(cfg, d, d0) && Header(cfg, d) == lh && 0 <= k <= |lh|
    && Installed(cfg, d, lh, k) && Installing(cfg, c0, d, c, lh, k)
  }

  lemma InstallsNone(cfg: Config, d: Disk, c: map<int, LogProtocol.Buf>, lh: seq<int>)
    requires WfDisk(cfg, d) && Header(cfg, d) == lh
    ensures Installs(cfg, d, c, d, c, lh, 0)
  {
  }

  lemma InstallsParts(cfg: Config, d0: Disk, c0: map<int, LogProtocol.Buf>, d: Disk, c: map<int, LogProtocol.Buf>, lh: seq<int>, k: int)
    requires Installs(cfg, d0, c0, d, c, lh, k)
    ensures WfDisk(cfg, d0) && SameMeaning(cfg, d, d0) && WfDisk(cfg, d) && Header(cfg, d) == lh && 0 <= k <= |lh|
    ensures Installed(cfg, d, lh, k) && Installing(cfg, c0, d, c, lh, k)
  {
  }

  lemma InstallsNext(cfg: Config, d0: Disk, c0: map<int, LogProtocol.Buf>, d: Disk, c: map<int, LogProtocol.Buf>,
                     d': Disk, c': map<int, LogProtocol.Buf>, lh: seq<int>, k: int, v: Block)
    requires Installs(cfg, d0, c0, d, c, lh, k) && k < |lh|
    requires SameMeaning(cfg, d', d) && Header(cfg, d') == lh && Installed(cfg, d', lh, k + 1)
    requires d' == d[lh[k] := v]
    requires c' == (if LogBlock(cfg, k) in c then c
                    else c[LogBlock(cfg, k) := LogProtocol.Buf(v, false)])[lh[k] := LogProtocol.Buf(v, false)]
    ensures Installs(cfg, d0, c0, d', c', lh, k + 1) && SameMeaning(cfg, d', d0)
  {
    hide RedoAt;
    SameTrans(cfg, d', d, d0);
    InstallingNext(cfg, c0, d, c, d', c', lh, k, v);
  }

  lemma InstallingNext(cfg: Config, c0: map<int, LogProtocol.Buf>, d: Disk, c: map<int, LogProtocol.Buf>,
                       d': Disk, c': map<int, LogProtocol.Buf>, lh: seq<int>, k: int, v: Block)
    requires WfList(cfg, d.Keys, lh) && 0 <= k < |lh| && Installing(cfg, c0, d, c, lh, k)
    requires d' == d[lh[k] := v] && lh[k] in c' && c'[lh[k]] == LogProtocol.Buf(v, false)
    requires forall b :: b in c && b != lh[k] ==> b in c' && c'[b] == c[b]
    requires forall b :: b in c' ==> b in c || b == lh[k] || (InLog(cfg, b) && !c'[b].dirty)
    ensures Installing(cfg, c0, d', c', lh, k + 1)
  {
  }

  lemma HeadTurn(cfg: Config, s0: LogProtocol.State, s: LogProtocol.State, s': LogProtocol.State)
    requires LogProtocol.Leads(cfg, s0, s) && s.phase == LogProtocol.CopyLog(|s.lh|) && |s.lh| <= LOGSIZE
    requires cfg.start in s.disk && |LogProtocol.Look(s, cfg.start).words| == BLOCKWORDS
    requires s' == LogProtocol.Bwrite(s, cfg.start, PutHeader(LogProtocol.Look(s, cfg.start), s.lh))
                     .(phase := LogProtocol.Install(0, false), journal := [])
    ensures LogProtocol.Leads(cfg, s0, s')
  {
    LogProtocol.LeadsOne(cfg, s0, s, s', LogProtocol.WriteHead);
  }

  lemma ClearTurn(cfg: Config, s0: LogProtocol.State, s: LogProtocol.State, s': LogProtocol.State)
    requires LogProtocol.Leads(cfg, s0, s) && s.phase.Install? && s.phase.done == |s.lh|
    requires cfg.start in s.disk && |LogProtocol.Look(s, cfg.start).words| == BLOCKWORDS
    requires s' == LogProtocol.Bwrite(s, cfg.start, PutHeader(LogProtocol.Look(s, cfg.start), []))
                     .(phase := LogProtocol.Cleared, lh := [])
    ensures LogProtocol.Leads(cfg, s0, s')
  {
    LogProtocol.LeadsOne(cfg, s0, s, s', LogProtocol.ClearHead);
  }

  /** begin_op is a step of the protocol exactly when it does not sleep. */
  lemma BeginTurn(cfg: Config, s: LogProtocol.State, p: nat)
    requires s.phase == LogProtocol.Idle && p !in s.ops
    ensures (exists s' :: LogProtocol.Next(cfg, s, s', LogProtocol.BeginOp(p)))
            <==> |s.lh| + (|s.ops| + 1) * MAXOPBLOCKS <= LOGSIZE
  {
    var s' := s.(ops := s.ops[p := LogProtocol.OpState(0, LogProtocol.Unarmed)]);
    if |s.lh| + (|s.ops| + 1) * MAXOPBLOCKS <= LOGSIZE {
      assert LogProtocol.Next(cfg, s, s', LogProtocol.BeginOp(p));
    }
  }

  /** Operation p holds block b, has not tested it yet, and may log it. */
  ghost predicate MayLog(s: LogProtocol.State, p: nat, b: int) {
    && p in s.ops && s.ops[p].armed == LogProtocol.Unarmed && b in s.held && s.held[b] == p && b in s.cache
    && (b !in s.lh ==> s.ops[p].used < MAXOPBLOCKS)
  }

  /** The state after log_write of block b by operation p. */
  function Logging(s: LogProtocol.State, p: nat, b: int): LogProtocol.State
    requires p in s.ops && b in s.cache
  {
    var used := if b in s.lh then s.ops[p].used else s.ops[p].used + 1;
    s.(lh := if b in s.lh then s.lh else s.lh + [b],
       ops := s.ops[p := LogProtocol.OpState(used, LogProtocol.Unarmed)],
       cache := s.cache[b := s.cache[b].(dirty := true)],
       held := s.held - {b})
  }

  /** log_write is the two steps of testing and appending. */
  lemma LogTurn(cfg: Config, s: LogProtocol.State, p: nat, b: int)
    requires MayLog(s, p, b) && LogProtocol.GuardPasses(cfg, |s.lh|)
    ensures LogProtocol.Leads(cfg, s, Logging(s, p, b))
  {
    var s1 := s.(ops := s.ops[p := s.ops[p].(armed := LogProtocol.At(b))]);
    LogProtocol.LeadsNone(cfg, s);
    LogProtocol.LeadsOne(cfg, s, s, s1, LogProtocol.Guard(p, b));
    assert Logging(s, p, b).ops == s1.ops[p := Logging(s, p, b).ops[p]];
    LogProtocol.LeadsOne(cfg, s, s1, Logging(s, p, b), LogProtocol.Append(p));
  }

  /** Operation p has logged all it changed. */
  ghost predicate MayEnd(s: LogProtocol.State, p: nat) {
    && s.phase == LogProtocol.Idle && p in s.ops && s.ops[p].armed == LogProtocol.Unarmed
    && forall b :: b in s.held ==> s.held[b] != p && s.held[b] in s.ops
  }

  /** end_op when others are outstanding. */
  lemma LeaveTurn(cfg: Config, s: LogProtocol.State, p: nat)
    requires MayEnd(s, p) && |s.ops| > 1
    ensures LogProtocol.Leads(cfg, s, s.(ops := s.ops - {p}))
  {
    assert |s.ops.Keys - {p}| == |s.ops| - 1;
    assert (s.ops - {p}).Keys == s.ops.Keys - {p};
    LogProtocol.LeadsNone(cfg, s);
    LogProtocol.LeadsOne(cfg, s, s, s.(ops := s.ops - {p}), LogProtocol.EndOp(p));
  }

  lemma NobodyLeft(s: LogProtocol.State, p: nat)
    requires MayEnd(s, p) && |s.ops| == 1
    ensures s.ops - {p} == map[] && s.held == map[]
  {
    assert |s.ops.Keys - {p}| == 0;
    assert (s.ops - {p}).Keys == s.ops.Keys - {p};
    OnlyOne(s.ops.Keys, p);
    assert forall b :: b !in s.held;
  }

  lemma OnlyOne<T>(a: set<T>, p: T)
    requires p in a && |a| == 1
    ensures forall x :: x in a ==> x == p
  {
    assert |a - {p}| == 0;
  }

  /** end_op of the last operation: the commit, if there is anything to commit. */
  lemma LastTurn(cfg: Config, s: LogProtocol.State, s': LogProtocol.State, p: nat)
    requires MayEnd(s, p) && s.ops - {p} == map[] && s.held == map[]
    requires s'.phase == LogProtocol.Cleared
    requires if s.lh == [] then s' == s.(ops := map[], phase := LogProtocol.Cleared)
             else LogProtocol.Leads(cfg, s.(ops := map[], phase := LogProtocol.CopyLog(0)), s')
    ensures LogProtocol.Leads(cfg, s, s'.(phase := LogProtocol.Idle))
  {
    hide LogProtocol.Leads;
    LogProtocol.LeadsNone(cfg, s);
    if s.lh == [] {
      LogProtocol.LeadsOne(cfg, s, s, s', LogProtocol.EndOp(p));
    } else {
      var s1 := s.(ops := map[], phase := LogProtocol.CopyLog(0));
      LogProtocol.LeadsOne(cfg, s, s, s1, LogProtocol.EndOp(p));
      LogProtocol.LeadsTrans(cfg, s, s1, s');
    }
    LogProtocol.LeadsOne(cfg, s, s', s'.(phase := LogProtocol.Idle), LogProtocol.Finish);
  }

  class Log {
    const cfg: Config
    var disk: Disk
    var cache: map<int, LogProtocol.Buf>
    var lh: seq<int>
    var outstanding: int
    var committing: bool
    ghost var trace: seq<Disk>

    /** Clean buffers agree with the disk, and log blocks are always clean. */
    ghost predicate Coherent()
      reads this
    {
      && cache.Keys <= disk.Keys
      && forall b :: b in cache && (!cache[b].dirty || InLog(cfg, b)) ==> cache[b].data == disk[b]
    }

    /** As a state of the protocol; the rest of that state is not in the code. */
    ghost function View(phase: LogProtocol.Phase, journal: seq<LogProtocol.Write>): LogProtocol.State
      reads this
    {
      LogProtocol.State(disk, cache, lh, map[], map[], phase, journal)
    }

    /** The code is in a state that s describes; operations are counted, not named. */
    ghost predicate Shows(s: LogProtocol.State)
      reads this
    {
      s.disk == disk && s.cache == cache && s.lh == lh && |s.ops| == outstanding
    }

    /** What a reader of block b gets. */
    ghost function Seen(b: int): Block
      requires b in disk
      reads this
    {
      if b in cache then cache[b].data else disk[b]
    }

    constructor (cfg: Config, disk: Disk)
      ensures this.cfg == cfg && this.disk == disk && cache == map[] && lh == []
      ensures outstanding == 0 && !committing && trace == [] && Coherent()
    {
      this.cfg, this.disk, this.cache, this.lh := cfg, disk, map[], [];
      outstanding, committing, trace := 0, false, [];
    }

    method Bread(b: int) returns (data: Block)
      requires Coherent() && b in disk
      modifies this`cache
      ensures Coherent() && b in cache && data == cache[b].data
      ensures cache == if b in old(cache) then old(cache) else old(cache)[b := LogProtocol.Buf(disk[b], false)]
    {
      if b !in cache {
        cache := cache[b := LogProtocol.Buf(disk[b], false)];
      }
      data := cache[b].data;
    }

    method Bwrite(b: int, data: Block)
      requires Coherent() && b in disk
      modifies this`cache, this`disk, this`trace
      ensures Coherent()
      ensures disk == old(disk)[b := data] && trace == old(trace) + [disk]
      ensures cache == old(cache)[b := LogProtocol.Buf(data, false)]
    {
      disk := disk[b := data];
      cache := cache[b := LogProtocol.Buf(data, false)];
      trace := trace + [disk];
    }

    /** One pass of the loop in begin_op. */
    method BeginOp(ghost s: LogProtocol.State, ghost p: nat) returns (r: Outcome)
      modifies this`outstanding
      ensures r == Done <==> !committing && |lh| + (old(outstanding) + 1) * MAXOPBLOCKS <= LOGSIZE
      ensures r == Done || r == Sleep
      ensures outstanding == if r == Done then old(outstanding) + 1 else old(outstanding)
      ensures old(Shows(s)) && s.phase == LogProtocol.Idle && p !in s.ops && !committing ==>
                && (r == Done <==> exists s' :: LogProtocol.Next(cfg, s, s', LogProtocol.BeginOp(p)))
                && (r == Done ==> Shows(s.(ops := s.ops[p := LogProtocol.OpState(0, LogProtocol.Unarmed)])))
    {
      if s.phase == LogProtocol.Idle && p !in s.ops {
        BeginTurn(cfg, s, p);
      }
      if committing {
        return Sleep;
      } else if |lh| + (outstanding + 1) * MAXOPBLOCKS > LOGSIZE {
        return Sleep;
      }
      outstanding := outstanding + 1;
      return Done;
    }

    /** The loop looks for an entry to absorb the write; the list stays duplicate-free. */
    method LogWrite(b: int, ghost s: LogProtocol.State, ghost p: nat) returns (r: Outcome)
      requires b in cache
      modifies this`lh, this`cache
      ensures r == Done <==> old(|lh|) < LOGSIZE && old(|lh|) < cfg.size - 1 && outstanding >= 1
      ensures r != Done ==> r.Panic? && lh == old(lh) && cache == old(cache)
      ensures r == Done ==> lh == (if b in old(lh) then old(lh) else old(lh) + [b])
      ensures r == Done ==> cache == old(cache)[b := old(cache)[b].(dirty := true)]
      ensures old(Distinct(lh)) ==> Distinct(lh)
      ensures r == Done && old(Shows(s)) && MayLog(s, p, b) ==>
                LogProtocol.Leads(cfg, s, Logging(s, p, b)) && Shows(Logging(s, p, b))
    {
      hide LogProtocol.Leads;
      if MayLog(s, p, b) && LogProtocol.GuardPasses(cfg, |s.lh|) {
        LogTurn(cfg, s, p, b);
      }
      if |lh| >= LOGSIZE || |lh| >= cfg.size - 1 {
        return Panic("too big a transaction");
      }
      if outstanding < 1 {
        return Panic("log_write outside of trans");
      }
      var i := 0;
      while i < |lh|
        invariant 0 <= i <= |lh|
        invariant b !in lh[..i]
      {
        if lh[i] == b {
          break;
        }
        i := i + 1;
      }
      if i == |lh| {
        lh := lh + [b];
      } else {
        lh := lh[i := b];
      }
      cache := cache[b := cache[b].(dirty := true)];
      r := Done;
    }

    /** One turn of write_log. */
    method CopyBlock(tail: int)
      requires Coherent() && WfDisk(cfg, disk) && Header(cfg, disk) == [] && WfList(cfg, disk.Keys, lh)
      requires 0 <= tail < |lh| && lh[tail] in cache
      modifies this`cache, this`disk, this`trace
      ensures Coherent() && trace == old(trace) + [disk]
      ensures disk == old(disk)[LogBlock(cfg, tail) := old(cache[lh[tail]].data)]
      ensures cache == old(cache)[LogBlock(cfg, tail) := LogProtocol.Buf(old(cache[lh[tail]].data), false)]
    {
      var to := Bread(LogBlock(cfg, tail));
      var from := Bread(lh[tail]);
      Bwrite(LogBlock(cfg, tail), from);
    }

    method WriteLog(ghost journal: seq<LogProtocol.Write>)
      requires Coherent() && WfDisk(cfg, disk) && Header(cfg, disk) == [] && WfList(cfg, disk.Keys, lh)
      requires forall i :: 0 <= i < |lh| ==> lh[i] in cache
      modifies this`cache, this`disk, this`trace
      ensures Coherent() && Means(cfg, disk, old(disk), map[]) && Header(cfg, disk) == []
      ensures forall i :: 0 <= i < |lh| ==> disk[LogBlock(cfg, i)] == old(cache[lh[i]].data)
      ensures SameHome(cfg, old(cache), cache, [])
      ensures LogProtocol.Leads(cfg, old(View(LogProtocol.CopyLog(0), journal)), View(LogProtocol.CopyLog(|lh|), journal))
      ensures |trace| == |old(trace)| + |lh| && old(trace) <= trace
      ensures forall t :: |old(trace)| <= t < |trace| ==> Means(cfg, trace[t], old(disk), map[])
    {
      hide RedoAt, LogProtocol.Leads, Copying;
      ghost var s0 := View(LogProtocol.CopyLog(0), journal);
      LogProtocol.LeadsNone(cfg, s0);
      CopyingNone(cfg, disk, cache, lh);
      var tail := 0;
      while tail < |lh|
        invariant 0 <= tail <= |lh| && Coherent()
        invariant Copying(cfg, old(disk), old(cache), disk, cache, lh, tail)
        invariant LogProtocol.Leads(cfg, s0, View(LogProtocol.CopyLog(tail), journal))
        invariant |trace| == |old(trace)| + tail && old(trace) <= trace
        invariant forall t :: |old(trace)| <= t < |trace| ==> Means(cfg, trace[t], old(disk), map[])
      {
        ghost var s := View(LogProtocol.CopyLog(tail), journal);
        CopyingParts(cfg, old(disk), old(cache), disk, cache, lh, tail);
        CopyBlock(tail);
        CopyingNext(cfg, old(disk), old(cache), s.disk, s.cache, disk, cache, lh, tail);
        CopyTurn(cfg, s0, s, View(LogProtocol.CopyLog(tail + 1), journal), tail);
        tail := tail + 1;
      }
      CopyingParts(cfg, old(disk), old(cache), disk, cache, lh, tail);
    }

    method WriteHead() returns (ghost hb: Block)
      requires Coherent() && WfDisk(cfg, disk) && |lh| <= LOGSIZE
      modifies this`cache, this`disk, this`trace
      ensures Coherent() && trace == old(trace) + [disk]
      ensures |hb.words| == BLOCKWORDS && disk == old(disk)[cfg.start := PutHeader(hb, lh)]
      ensures hb == old(Seen(cfg.start)) && cache == old(cache)[cfg.start := LogProtocol.Buf(PutHeader(hb, lh), false)]
    {
      assert InLog(cfg, cfg.start);
      var buf := Bread(cfg.start);
      var words := buf.words[0 := |lh|];
      var i := 0;
      while i < |lh|
        invariant 0 <= i <= |lh|
        invariant words == [|lh|] + lh[..i] + buf.words[1 + i..]
      {
        words := words[1 + i := lh[i]];
        i := i + 1;
      }
      assert words == PutHeader(buf, lh).words;
      hb := buf;
      Bwrite(cfg.start, Block(words));
    }

    method InstallTrans(ghost recovering: bool, ghost journal: seq<LogProtocol.Write>)
      requires Coherent() && WfDisk(cfg, disk) && Header(cfg, disk) == lh
      modifies this`cache, this`disk, this`trace
      ensures Coherent() && SameMeaning(cfg, disk, old(disk)) && Header(cfg, disk) == lh
      ensures Installed(cfg, disk, lh, |lh|)
      // the buffers of the blocks installed are clean, and no other home block is touched
      ensures Installing(cfg, old(cache), disk, cache, lh, |lh|)
      ensures LogProtocol.Leads(cfg, old(View(LogProtocol.Install(0, recovering), journal)),
                                View(LogProtocol.Install(|lh|, recovering), journal))
      ensures |trace| == |old(trace)| + |lh| && old(trace) <= trace
      ensures forall t :: |old(trace)| <= t < |trace| ==> SameMeaning(cfg, trace[t], old(disk))
    {
      hide RedoAt, LogProtocol.Leads, Installs, Installed, SameMeaning;
      ghost var s0, d0, c0 := View(LogProtocol.Install(0, recovering), journal), disk, cache;
      LogProtocol.LeadsNone(cfg, s0);
      InstallsNone(cfg, disk, cache, lh);
      var tail := 0;
      while tail < |lh|
        invariant 0 <= tail <= |lh| && Coherent() && Installs(cfg, d0, c0, disk, cache, lh, tail)
        invariant LogProtocol.Leads(cfg, s0, View(LogProtocol.Install(tail, recovering), journal))
        invariant |trace| == |old(trace)| + tail && old(trace) <= trace
        invariant forall t :: |old(trace)| <= t < |trace| ==> SameMeaning(cfg, trace[t], d0)
      {
        ghost var s := View(LogProtocol.Install(tail, recovering), journal);
        InstallsParts(cfg, d0, c0, disk, cache, lh, tail);
        ghost var v := InstallBlock(tail);
        InstallsNext(cfg, d0, c0, s.disk, s.cache, disk, cache, lh, tail, v);
        InstallTurn(cfg, s0, s, View(LogProtocol.Install(tail + 1, recovering), journal), tail);
        tail := tail + 1;
      }
      InstallsParts(cfg, d0, c0, disk, cache, lh, tail);
    }

    /** One turn of install_trans: the log block, read if it is not cached, goes home. */
    method InstallBlock(tail: int) returns (ghost v: Block)
      requires Coherent() && WfDisk(cfg, disk) && Header(cfg, disk) == lh && 0 <= tail < |lh| && Installed(cfg, disk, lh, tail)
      modifies this`cache, this`disk, this`trace
      ensures Coherent() && trace == old(trace) + [disk]
      ensures LogBlock(cfg, tail) in old(disk) && v == old(disk)[LogBlock(cfg, tail)]
      ensures disk == old(disk)[lh[tail] := v]
      ensures cache == (if LogBlock(cfg, tail) in old(cache) then old(cache)
                        else old(cache)[LogBlock(cfg, tail) := LogProtocol.Buf(v, false)])[lh[tail] := LogProtocol.Buf(v, false)]
      ensures LogBlock(cfg, tail) in old(cache) ==> old(cache)[LogBlock(cfg, tail)].data == v
      ensures SameMeaning(cfg, disk, old(disk)) && WfDisk(cfg, disk) && Header(cfg, disk) == lh && Installed(cfg, disk, lh, tail + 1)
    {
      hide RedoAt, Installed;
      var lbuf := Bread(LogBlock(cfg, tail));
      var dbuf := Bread(lh[tail]);
      InstallOne(cfg, disk, lh, tail);
      v := lbuf;
      Bwrite(lh[tail], lbuf);
    }

    /** What the operations have last written to the logged blocks. */
    ghost function Logged(): map<int, Block>
      reads this
    {
      map b | b in lh && b in cache :: cache[b].data
    }

    /** The first |lh| images mean the old contents, every later one the new contents:
        the change is atomic at the first header write, whichever write a crash follows.
        Afterwards the buffers of the blocks committed are clean, with the data they had, and no
        other home block's buffer has changed. */
    method Commit(ghost journal: seq<LogProtocol.Write>)
      requires Coherent() && WfDisk(cfg, disk) && Header(cfg, disk) == [] && WfList(cfg, disk.Keys, lh)
      requires forall i :: 0 <= i < |lh| ==> lh[i] in cache
      modifies this`cache, this`disk, this`trace, this`lh
      ensures Coherent() && lh == [] && WfDisk(cfg, disk) && Header(cfg, disk) == []
      ensures forall b :: b in old(disk) && !InLog(cfg, b) ==>
                b in disk && disk[b] == if b in old(Logged()) then old(Logged())[b] else old(disk)[b]
      ensures forall b :: b in old(lh) ==> b in cache && cache[b] == LogProtocol.Buf(old(cache[b].data), false)
      ensures SameHome(cfg, old(cache), cache, old(lh))
      ensures if old(lh) == [] then disk == old(disk) && cache == old(cache)
              else LogProtocol.Leads(cfg, old(View(LogProtocol.CopyLog(0), journal)), View(LogProtocol.Cleared, []))
      ensures old(trace) <= trace
      ensures |trace| == |old(trace)| + if old(lh) == [] then 0 else 2 * |old(lh)| + 2
      ensures forall t :: |old(trace)| <= t < |trace| ==>
                Means(cfg, trace[t], old(disk), if t < |old(trace)| + |old(lh)| then map[] else old(Logged()))
    {
      if |lh| > 0 {
        CommitList(journal);
      }
    }

    method CommitList(ghost journal: seq<LogProtocol.Write>)
      requires Coherent() && WfDisk(cfg, disk) && Header(cfg, disk) == [] && WfList(cfg, disk.Keys, lh)
      requires lh != [] && forall i :: 0 <= i < |lh| ==> lh[i] in cache
      modifies this`cache, this`disk, this`trace, this`lh
      ensures Coherent() && lh == [] && WfDisk(cfg, disk) && Header(cfg, disk) == []
      ensures forall b :: b in old(disk) && !InLog(cfg, b) ==>
                b in disk && disk[b] == if b in old(Logged()) then old(Logged())[b] else old(disk)[b]
      ensures forall b :: b in old(lh) ==> b in cache && cache[b] == LogProtocol.Buf(old(cache[b].data), false)
      ensures SameHome(cfg, old(cache), cache, old(lh))
      ensures LogProtocol.Leads(cfg, old(View(LogProtocol.CopyLog(0), journal)), View(LogProtocol.Cleared, []))
      ensures old(trace) <= trace && |trace| == |old(trace)| + 2 * |old(lh)| + 2
      ensures forall t :: |old(trace)| <= t < |trace| ==>
                Means(cfg, trace[t], old(disk), if t < |old(trace)| + |old(lh)| then map[] else old(Logged()))
    {
      hide RedoAt, Installed, LogProtocol.Leads;
      ghost var base, vals := disk, Logged();
      ghost var s0 := View(LogProtocol.CopyLog(0), journal);
      WriteLog(journal);
      ghost var d, s1 := disk, View(LogProtocol.CopyLog(|lh|), journal);
      ghost var hb := WriteHead();
      HeadTurn(cfg, s0, s1, View(LogProtocol.Install(0, false), []));
      CommitPoint(cfg, base, d, lh, vals, hb);
      Finish(base, vals, s0);
    }

    /** The rest of a commit, after the header write. */
    method Finish(ghost base: Disk, ghost vals: map<int, Block>, ghost s0: LogProtocol.State)
      requires Coherent() && Means(cfg, disk, base, vals) && Header(cfg, disk) == lh
      requires LogProtocol.Leads(cfg, s0, View(LogProtocol.Install(0, false), []))
      requires forall b :: b in vals <==> b in lh
      modifies this`cache, this`disk, this`trace, this`lh
      ensures Coherent() && lh == [] && WfDisk(cfg, disk) && Header(cfg, disk) == []
      ensures forall b :: b in base && !InLog(cfg, b) ==> b in disk && disk[b] == if b in vals then vals[b] else base[b]
      ensures forall b :: b in old(lh) ==> b in cache && cache[b] == LogProtocol.Buf(vals[b], false)
      ensures SameHome(cfg, old(cache), cache, old(lh))
      ensures LogProtocol.Leads(cfg, s0, View(LogProtocol.Cleared, []))
      ensures old(trace) <= trace && |trace| == |old(trace)| + |old(lh)| + 1
      ensures forall t :: |old(trace)| <= t < |trace| ==> Means(cfg, trace[t], base, vals)
    {
      hide RedoAt, Installed, LogProtocol.Leads;
      ghost var committed, before := disk, |trace|;
      ghost var s1 := View(LogProtocol.Install(0, false), []);
      InstallTrans(false, []);
      ghost var s2 := View(LogProtocol.Install(|lh|, false), []);
      LogProtocol.LeadsTrans(cfg, s0, s1, s2);
      forall t | before <= t < |trace|
        ensures Means(cfg, trace[t], base, vals)
      {
        SameThenMeans(cfg, trace[t], committed, base, vals);
      }
      SameThenMeans(cfg, disk, committed, base, vals);
      ghost var d := disk;
      ClearHead(s0, false, []);
      SameThenMeans(cfg, disk, d, base, vals);
    }

    /** The second header write: nothing is left to install, and no home block changes. */
    method ClearHead(ghost s0: LogProtocol.State, ghost recovering: bool, ghost journal: seq<LogProtocol.Write>)
      requires Coherent() && WfDisk(cfg, disk) && Header(cfg, disk) == lh && Installed(cfg, disk, lh, |lh|)
      requires LogProtocol.Leads(cfg, s0, View(LogProtocol.Install(|lh|, recovering), journal))
      modifies this`cache, this`disk, this`trace, this`lh
      ensures Coherent() && lh == [] && trace == old(trace) + [disk]
      ensures SameMeaning(cfg, disk, old(disk)) && Header(cfg, disk) == []
      ensures forall b :: b in old(disk) && !InLog(cfg, b) ==> disk[b] == RedoAt(cfg, old(disk), b) == old(disk)[b]
      ensures SameHome(cfg, old(cache), cache, [])
      ensures old(AllClean(cache)) ==> AllClean(cache)
      ensures LogProtocol.Leads(cfg, s0, View(LogProtocol.Cleared, journal))
    {
      hide RedoAt, Installed, LogProtocol.Leads;
      ghost var s, d := View(LogProtocol.Install(|lh|, recovering), journal), disk;
      lh := [];
      ghost var hb := WriteHead();
      ClearTurn(cfg, s0, s, View(LogProtocol.Cleared, journal));
      Erased(cfg, d, hb);
    }

    /** Whoever leaves last writes everything logged so far to disk, as Commit does. */
    method EndOp(ghost s: LogProtocol.State, ghost p: nat) returns (r: Outcome)
      requires Coherent() && WfDisk(cfg, disk) && Header(cfg, disk) == [] && WfList(cfg, disk.Keys, lh)
      requires forall i :: 0 <= i < |lh| ==> lh[i] in cache
      modifies this
      ensures r.Panic? <==> old(committing)
      ensures outstanding == old(outstanding) - 1 && committing == old(committing)
      ensures Coherent() && WfDisk(cfg, disk) && Header(cfg, disk) == []
      ensures r == Done && outstanding == 0 ==>
                && lh == []
                && forall b :: b in old(disk) && !InLog(cfg, b) ==>
                     b in disk && disk[b] == if b in old(Logged()) then old(Logged())[b] else old(disk)[b]
      ensures r == Done && outstanding == 0 ==>
                && (forall b :: b in old(lh) ==> b in cache && cache[b] == LogProtocol.Buf(old(cache[b].data), false))
                && SameHome(cfg, old(cache), cache, old(lh))
      ensures r == Done && outstanding == 0 ==>
                && old(trace) <= trace
                && |trace| == |old(trace)| + (if old(lh) == [] then 0 else 2 * |old(lh)| + 2)
                && forall t :: |old(trace)| <= t < |trace| ==>
                     Means(cfg, trace[t], old(disk), if t < |old(trace)| + |old(lh)| then map[] else old(Logged()))
      ensures r != Done || outstanding != 0 ==>
                lh == old(lh) && disk == old(disk) && cache == old(cache) && trace == old(trace)
      // the steps of the protocol that it makes
      ensures r == Done && old(Shows(s)) && MayEnd(s, p) ==>
                var s' := LogProtocol.State(disk, cache, lh, s.ops - {p}, s.held, LogProtocol.Idle,
                                            if outstanding == 0 && old(lh) != [] then [] else s.journal);
                LogProtocol.Leads(cfg, s, s') && Shows(s')
    {
      hide RedoAt, Means, LogProtocol.Leads;
      outstanding := outstanding - 1;
      if committing {
        return Panic("log.committing");
      }
      ghost var ours := s.disk == disk && s.cache == cache && s.lh == lh && |s.ops| == outstanding + 1 && MayEnd(s, p);
      ghost var list := lh;
      if outstanding == 0 {
        committing := true;
        Commit(s.journal);
        committing := false;
        if ours {
          NobodyLeft(s, p);
          LastTurn(cfg, s, View(LogProtocol.Cleared, if list != [] then [] else s.journal), p);
        }
      } else if ours {
        OneFewer(s, p);
        LeaveTurn(cfg, s, p);
      }
      r := Done;
    }

    method ReadHead()
      requires Coherent() && WfDisk(cfg, disk)
      modifies this`cache, this`lh
      ensures Coherent() && lh == Header(cfg, disk)
      ensures cache == if cfg.start in old(cache) then old(cache) else old(cache)[cfg.start := LogProtocol.Buf(disk[cfg.start], false)]
    {
      assert InLog(cfg, cfg.start);
      var buf := Bread(cfg.start);
      ghost var c := cache;
      var n := buf.words[0];
      lh := [];
      var i := 0;
      while i < n
        invariant 0 <= i <= n && lh == buf.words[1..1 + i] && Coherent() && cache == c
      {
        lh := lh + [buf.words[1 + i]];
        i := i + 1;
      }
    }

    /** Every image on the way means the same as the first one, so a crash during recovery,
        and a crash during the next recovery, and so on, loses nothing. */
    method RecoverFromLog(ghost journal: seq<LogProtocol.Write>)
      requires Coherent() && WfDisk(cfg, disk)
      modifies this`cache, this`disk, this`trace, this`lh
      ensures Coherent() && lh == [] && WfDisk(cfg, disk) && Header(cfg, disk) == []
      ensures forall b :: b in old(disk) && !InLog(cfg, b) ==> b in disk && disk[b] == RedoAt(cfg, old(disk), b)
      ensures old(trace) < trace
      ensures forall t :: |old(trace)| <= t < |trace| ==> SameMeaning(cfg, trace[t], old(disk))
      // no buffer is left dirty, so readers see the replayed contents
      ensures old(AllClean(cache)) ==>
                && AllClean(cache)
                && forall b :: b in old(disk) && !InLog(cfg, b) ==> Seen(b) == RedoAt(cfg, old(disk), b)
      ensures SameHome(cfg, old(cache), cache, Header(cfg, old(disk)))
      ensures LogProtocol.Leads(cfg, old(View(LogProtocol.Down, journal)), View(LogProtocol.Cleared, journal))
    {
      hide RedoAt, LogProtocol.Leads;
      ghost var s0 := View(LogProtocol.Down, journal);
      ReadHead();
      ReadTurn(cfg, s0, View(LogProtocol.Install(0, true), journal));
      ghost var s1 := View(LogProtocol.Install(0, true), journal);
      InstallTrans(true, journal);
      ghost var s2 := View(LogProtocol.Install(|lh|, true), journal);
      LogProtocol.LeadsTrans(cfg, s0, s1, s2);
      ghost var d, c, list := disk, cache, lh;
      ClearHead(s0, true, journal);
      SameTrans(cfg, disk, d, old(disk));
    }
  }
}
