/** What an operation uses up: free blocks of the disk, and blocks of the log. */
module FsUsage {
  import opened Common
  import opened DiskBlock
  import opened FsLayout

  /** The bitmap block that covers block b. */
  function Bblock(sb: Super, b: int): int {
    b / BPB + sb.bmapstart
  }

  /** The inode block that holds inode i. */
  function Iblock(sb: Super, i: int): int {
    i / IPB + sb.inodestart
  }

  function Free(bitmap: seq<bool>): set<int> {
    set b | 0 <= b < |bitmap| && !bitmap[b]
  }

  /** Blocks held by a file of len bytes, the indirect block included. */
  function Blocks(len: int): int {
    (len + BSIZE - 1) / BSIZE + if len > NDIRECT * BSIZE then 1 else 0
  }

  /** New blocks that mapping the bn-th data block takes. */
  function Needed(st: St, i: int, bn: int): int {
    if Slot(st, i, DataSlot(bn)) != 0 then 0
    else if bn >= NDIRECT && Slot(st, i, NDIRECT) == 0 then 2
    else 1
  }

  ghost predicate SlotsKept(st: St, st': St, i: int, k: int) {
    && |st'.inodes| == |st.inodes|
    && forall j, l :: ValidSlot(st, j, l) && (j, l) != (i, k) ==> Slot(st', j, l) == Slot(st, j, l)
  }

  /** From st to st', n blocks were taken, no slot that held a block changed, and every block
      that changed, bitmap blocks included, is among those logged. */
  ghost predicate Grew(sb: Super, st: St, a: set<int>, st': St, a': set<int>, n: int) {
    && |st'.bitmap| == |st.bitmap| && |st'.blocks| == |st.blocks| && |st'.inodes| == |st.inodes|
    && a <= a'
    && |Free(st'.bitmap)| == |Free(st.bitmap)| - n
    && (forall b :: 0 <= b < |st.blocks| && st'.blocks[b] != st.blocks[b] ==> b in a')
    && (forall b :: 0 <= b < |st.bitmap| && st'.bitmap[b] != st.bitmap[b] ==> Bblock(sb, b) in a')
    && (forall j, l :: ValidSlot(st, j, l) && Slot(st, j, l) != 0 ==> Slot(st', j, l) == Slot(st, j, l))
  }

  lemma GrewNone(sb: Super, st: St, a: set<int>, a': set<int>)
    requires a <= a'
    ensures Grew(sb, st, a, st, a', 0)
  {
  }

  lemma GrewMore(sb: Super, st: St, a: set<int>, st1: St, a1: set<int>, n1: int, st2: St, a2: set<int>, n2: int)
    requires Grew(sb, st, a, st1, a1, n1) && Grew(sb, st1, a1, st2, a2, n2)
    ensures Grew(sb, st, a, st2, a2, n1 + n2)
  {
  }

  lemma GrewFrom(sb: Super, st: St, a: set<int>, st': St, a': set<int>, n: int)
    requires Grew(sb, st, a, st', a', n)
    ensures |Free(st.bitmap)| >= n
  {
  }

  lemma FreeTaken(st: St, r: int)
    requires 0 <= r < |st.bitmap| && r < |st.blocks| && !st.bitmap[r]
    ensures |Free(Taken(st, r).bitmap)| == |Free(st.bitmap)| - 1
  {
    assert Free(Taken(st, r).bitmap) == Free(st.bitmap) - {r};
  }

  lemma GrewAddr(sb: Super, st: St, a: set<int>, i: int, k: int, r: int)
    requires 0 <= r < |st.bitmap| && r < |st.blocks| && !st.bitmap[r]
    requires 0 <= i < |st.inodes| && 0 <= k < |st.inodes[i].addrs| && Slot(st, i, k) == 0
    requires SlotsKept(st, SetAddr(Taken(st, r), i, k, r), i, k)
    ensures Grew(sb, st, a, SetAddr(Taken(st, r), i, k, r), a + {Bblock(sb, r), r}, 1)
  {
    FreeTaken(st, r);
  }

  lemma GrewEntry(sb: Super, st: St, a: set<int>, i: int, ind: int, k: int, r: int)
    requires 0 <= r < |st.bitmap| && r < |st.blocks| && r < U32 && !st.bitmap[r]
    requires NDIRECT < k < NSLOT && 0 <= ind < |st.blocks| && |st.blocks[ind]| == BSIZE && Slot(st, i, k) == 0
    requires SlotsKept(st, Entered(st, ind, k, r), i, k)
    ensures Grew(sb, st, a, Entered(st, ind, k, r), a + {Bblock(sb, r), r, ind}, 1)
  {
    FreeTaken(st, r);
  }

  lemma GrewPatch(sb: Super, st: St, a: set<int>, b: int, v: Bytes)
    requires 0 <= b < |st.blocks| && b in a
    requires forall j, l :: ValidSlot(st, j, l) ==> Slot(SetBlock(st, b, v), j, l) == Slot(st, j, l)
    ensures Grew(sb, st, a, SetBlock(st, b, v), a, 0)
  {
  }

  /** Only recording a size logs no data block. */
  lemma GrewSized(sb: Super, st: St, a: set<int>, i: int, size: int, a': set<int>)
    requires 0 <= i < |st.inodes| && a <= a'
    ensures Grew(sb, st, a, st.(inodes := st.inodes[i := st.inodes[i].(size := size)]), a', 0)
  {
    var st' := st.(inodes := st.inodes[i := st.inodes[i].(size := size)]);
    forall j, l | ValidSlot(st, j, l)
      ensures Slot(st', j, l) == Slot(st, j, l)
    {
      assert Addr(st', j, NDIRECT) == Addr(st, j, NDIRECT) && Addr(st', j, l) == Addr(st, j, l);
    }
  }

  /** Blocks by which a file of size bytes grows when it is written up to end. */
  function Growth(size: int, end: int): int {
    if end <= size then 0 else Blocks(end) - Blocks(size)
  }

  lemma GrowthMono(size: int, end: int, end': int)
    requires end <= end'
    ensures 0 <= Growth(size, end) <= Growth(size, end')
  {
  }

  /** Too few blocks for a later part of a write are too few for the whole write. */
  lemma ShortAgain(free: int, free': int, size: int, size': int, end: int, end': int)
    requires free' + Blocks(size') == free + Blocks(size) && 0 <= free' < Growth(size', end) && end <= end'
    ensures free < Growth(size, end')
  {
    GrowthMono(size, end, end');
  }

  /** A file without holes needs exactly those blocks, one turn after another. */
  lemma NeededIsGrowth(st: St, i: int, size: int, off: int, m: int)
    requires NoHoles(st, i, if off <= size then size else off)
    requires 0 <= off && 0 < m && off % BSIZE + m <= BSIZE && off + m <= MAXFILE * BSIZE
    ensures Growth(size, off + m) == Growth(size, off) + Needed(st, i, off / BSIZE)
  {
    var bn := off / BSIZE;
    assert bn * BSIZE + off % BSIZE == off && bn < MAXFILE;
  }

  /** The bitmap blocks in which going from bm to bm' clears bits. */
  function Cleared(sb: Super, bm: seq<bool>, bm': seq<bool>): set<int>
    requires |bm'| == |bm|
  {
    set b | 0 <= b < |bm| && bm[b] && !bm'[b] :: Bblock(sb, b)
  }

  lemma ClearedOne(sb: Super, bm: seq<bool>, bm': seq<bool>, b: int)
    requires |bm'| == |bm| && 0 <= b < |bm| && bm[b]
    ensures Cleared(sb, bm, bm'[b := false]) == Cleared(sb, bm, bm') + {Bblock(sb, b)}
  {
    forall x | x in Cleared(sb, bm, bm')
      ensures x in Cleared(sb, bm, bm'[b := false])
    {
      var c :| 0 <= c < |bm| && bm[c] && !bm'[c] && x == Bblock(sb, c);
      assert !bm'[b := false][c];
    }
    assert !bm'[b := false][b];
  }
}
