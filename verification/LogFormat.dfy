/** The on-disk format of the redo log and what a disk image means.

    A disk is a map from block numbers to blocks; a block is 128 words of four
    bytes.  The log area is `size` consecutive blocks from `start`: one header
    block followed by log data blocks.  `RedoAt` says, without running anything,
    what the home blocks hold once the log has been replayed. */
module LogFormat {
  import opened Param
  import opened DiskBlock

  type Disk = map<int, Block>

  datatype Config = Config(start: int, size: int)

  predicate InLog(cfg: Config, b: int) {
    cfg.start <= b < cfg.start + cfg.size
  }

  /** The i-th log data block, after the header. */
  function LogBlock(cfg: Config, i: int): (b: int)
    ensures 0 <= i < cfg.size - 1 ==> InLog(cfg, b) && b != cfg.start
  {
    cfg.start + 1 + i
  }

  /** A block that can be read as a header. */
  predicate WfHead(b: Block) {
    |b.words| == BLOCKWORDS && 0 <= b.words[0] <= LOGSIZE
  }

  /** The header block: word 0 is the count, the next words are block numbers. */
  function HeaderOf(b: Block): seq<int>
    requires WfHead(b)
  {
    b.words[1..1 + b.words[0]]
  }

  /** Only the count and the first |lh| entries are overwritten. */
  function PutHeader(b: Block, lh: seq<int>): (r: Block)
    requires |b.words| == BLOCKWORDS && |lh| <= LOGSIZE
    ensures WfHead(r) && HeaderOf(r) == lh
  {
    Block([|lh|] + lh + b.words[1 + |lh|..])
  }

  /** Where a list names block b. */
  ghost function IndexOf(lh: seq<int>, b: int): (i: int)
    requires b in lh
    ensures 0 <= i < |lh| && lh[i] == b
  {
    var i :| 0 <= i < |lh| && lh[i] == b;
    i
  }

  ghost predicate Distinct(s: seq<int>) {
    forall i, j :: 0 <= i < j < |s| ==> s[i] != s[j]
  }

  /** A list of home blocks that fits the log and names each block once. */
  ghost predicate WfList(cfg: Config, keys: set<int>, lh: seq<int>) {
    && |lh| <= LOGSIZE
    && |lh| < cfg.size
    && Distinct(lh)
    && forall i :: 0 <= i < |lh| ==> lh[i] in keys && !InLog(cfg, lh[i])
  }

  ghost predicate HasLog(cfg: Config, keys: set<int>) {
    && cfg.size >= 1
    && forall b :: InLog(cfg, b) ==> b in keys
  }

  ghost predicate WfDisk(cfg: Config, d: Disk) {
    && HasLog(cfg, d.Keys)
    && WfHead(d[cfg.start])
    && WfList(cfg, d.Keys, HeaderOf(d[cfg.start]))
  }

  ghost function Header(cfg: Config, d: Disk): seq<int>
    requires WfDisk(cfg, d)
  {
    HeaderOf(d[cfg.start])
  }

  /** What home block b holds once the log, if committed, has been replayed. */
  ghost function RedoAt(cfg: Config, d: Disk, b: int): Block
    requires WfDisk(cfg, d) && b in d
  {
    var h := Header(cfg, d);
    if b in h then d[LogBlock(cfg, IndexOf(h, b))] else d[b]
  }

  // ------------------------------------- the four kinds of disk write of a commit

  /** Before the commit point, writing a log block changes nothing that survives. */
  lemma RedoLogBlock(cfg: Config, d: Disk, k: nat, v: Block)
    requires WfDisk(cfg, d) && Header(cfg, d) == [] && 1 + k < cfg.size
    ensures var d' := d[LogBlock(cfg, k) := v];
            && d'.Keys == d.Keys && WfDisk(cfg, d') && Header(cfg, d') == []
            && forall b :: b in d && !InLog(cfg, b) ==> RedoAt(cfg, d', b) == RedoAt(cfg, d, b)
  {
  }

  /** The commit point: the header write replaces every listed block at once. */
  lemma RedoCommit(cfg: Config, d: Disk, lh: seq<int>, hb: Block)
    requires WfDisk(cfg, d) && Header(cfg, d) == [] && WfList(cfg, d.Keys, lh) && |hb.words| == BLOCKWORDS
    ensures var d' := d[cfg.start := PutHeader(hb, lh)];
            && d'.Keys == d.Keys && WfDisk(cfg, d') && Header(cfg, d') == lh
            && (forall i :: 0 <= i < |lh| ==> RedoAt(cfg, d', lh[i]) == d[LogBlock(cfg, i)])
            && (forall b :: b in d && !InLog(cfg, b) && b !in lh ==> RedoAt(cfg, d', b) == d[b])
  {
    var d' := d[cfg.start := PutHeader(hb, lh)];
    assert d'.Keys == d.Keys;
  }

  /** Installing any listed block is invisible, so it can be repeated after a crash. */
  lemma RedoInstall(cfg: Config, d: Disk, k: nat)
    requires WfDisk(cfg, d) && k < |Header(cfg, d)|
    ensures var d' := d[Header(cfg, d)[k] := d[LogBlock(cfg, k)]];
            && d'.Keys == d.Keys && WfDisk(cfg, d') && Header(cfg, d') == Header(cfg, d)
            && forall b :: b in d && !InLog(cfg, b) ==> RedoAt(cfg, d', b) == RedoAt(cfg, d, b)
  {
  }

  /** Once all blocks are installed the header can go. */
  lemma RedoClear(cfg: Config, d: Disk, hb: Block)
    requires WfDisk(cfg, d) && |hb.words| == BLOCKWORDS
    requires forall i :: 0 <= i < |Header(cfg, d)| ==> d[Header(cfg, d)[i]] == d[LogBlock(cfg, i)]
    ensures var d' := d[cfg.start := PutHeader(hb, [])];
            && d'.Keys == d.Keys && WfDisk(cfg, d') && Header(cfg, d') == []
            && forall b :: b in d && !InLog(cfg, b) ==> RedoAt(cfg, d', b) == RedoAt(cfg, d, b) == d[b]
  {
  }
}
