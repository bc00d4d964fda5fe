/** The inode layer of fs.c: the block allocator, the block map of a file, truncation, and
    reading and writing bytes.  Panics are reported as the result -1. */
module FileSystem {
  import opened Common
  import opened DiskBlock
  import opened Param
  import opened FsLayout
  import opened FsBits
  import opened FsUsage
  import opened FsImage

  /** bitmap is what the bytes s say, block by block. */
  ghost predicate Encodes(s: seq<bv8>, bitmap: seq<bool>) {
    |bitmap| <= 8 * |s| && forall b :: 0 <= b < |bitmap| ==> bitmap[b] == GetBit(s, b)
  }

  /** The bytes that balloc and bfree work on are the bytes of the bitmap blocks. */
  lemma BitmapOnDisk(s: seq<bv8>, bitmap: seq<bool>, j: nat, k: nat)
    requires Encodes(s, bitmap) && k < BSIZE && BPB * j + 8 * k + 8 <= |bitmap|
    ensures BitmapBytes(bitmap, j)[k] == ByteInt(s[BSIZE * j + k])
  {
    hide GetBit, BitsFrom, ByteInt;
    var m := BSIZE * j + k;
    assert m < |s| && j * BPB + 8 * k == 8 * m;
    ByteOf(s, bitmap, m);
  }

  /** What bmap may do to the slots: fill the one it maps and, on the way, the indirect block's. */
  ghost predicate SlotsMapped(st: St, st': St, i: int, bn: int) {
    && |st'.inodes| == |st.inodes|
    && (forall j, l :: ValidSlot(st, j, l) && (j, l) != (i, DataSlot(bn)) && (j, l) != (i, NDIRECT) ==>
          Slot(st', j, l) == Slot(st, j, l))
    && Slot(st', i, DataSlot(bn)) != 0
    && (if Slot(st, i, NDIRECT) == 0 && bn >= NDIRECT then Slot(st', i, NDIRECT) != 0
        else Slot(st', i, NDIRECT) == Slot(st, i, NDIRECT))
  }

  lemma NoFree(st: St, i: int, bn: int)
    requires NDIRECT <= bn < MAXFILE && Slot(st, i, NDIRECT) == 0
    ensures Slot(st, i, DataSlot(bn)) == 0 && Needed(st, i, bn) == 2
  {
  }

  /** Loading the indirect block moves no entry, and takes a block if there was none. */
  lemma NewIndirect(sb: Super, st: St, a: set<int>, st1: St, a1: set<int>, n: int, i: int, bn: int)
    requires 0 <= i < |st.inodes| && NDIRECT <= bn < MAXFILE
    requires SlotsKept(st, st1, i, NDIRECT) && Grew(sb, st, a, st1, a1, n)
    requires n == if Slot(st, i, NDIRECT) == 0 then 1 else 0
    ensures Slot(st1, i, bn + 1) == Slot(st, i, DataSlot(bn))
    ensures Needed(st, i, bn) == if Slot(st1, i, bn + 1) != 0 then 0 else 1 + n
    ensures Slot(st1, i, bn + 1) != 0 ==> n == 0
    ensures |Free(st1.bitmap)| == |Free(st.bitmap)| - n
  {
    assert ValidSlot(st, i, bn + 1);
  }

  lemma NewEntry(st: St, st1: St, st2: St, i: int, bn: int)
    requires 0 <= i < |st.inodes| && NDIRECT <= bn < MAXFILE
    requires SlotsKept(st, st1, i, NDIRECT) && SlotsKept(st1, st2, i, bn + 1)
    requires Slot(st1, i, NDIRECT) != 0 && Slot(st2, i, bn + 1) != 0
    requires Slot(st, i, NDIRECT) != 0 ==> st1 == st
    ensures SlotsMapped(st, st2, i, bn) && Slot(st2, i, NDIRECT) == Slot(st1, i, NDIRECT)
    ensures Slot(st2, i, DataSlot(bn)) == Slot(st2, i, bn + 1)
  {
    assert ValidSlot(st1, i, NDIRECT);
  }

  lemma BytesKeptTrans(st: St, st1: St, st2: St)
    requires BytesKept(st, st1) && BytesKept(st1, st2)
    ensures BytesKept(st, st2)
  {
  }

  /** map is bm without the blocks in slots below k, or in the first j indirect entries, of inode i. */
  ghost predicate FreedTo(bm: seq<bool>, map': seq<bool>, owner: Owner, i: int, k: int, j: int) {
    && |map'| == |bm|
    && forall b :: 0 <= b < |bm| ==>
         (map'[b] <==> bm[b] && !(b in owner && owner[b].0 == i
                                  && (owner[b].1 < k || NDIRECT < owner[b].1 <= NDIRECT + j)))
  }

  lemma FreedNone(sb: Super, st: St, owner: Owner, i: int)
    requires Shape(sb, st) && Owned(sb, st, owner)
    ensures FreedTo(st.bitmap, st.bitmap, owner, i, 0, 0) && Cleared(sb, st.bitmap, st.bitmap) == {}
  {
  }

  /** Freeing the block of the next slot: it is still marked in use, and only it is cleared. */
  lemma FreedNext(sb: Super, st: St, map': seq<bool>, owner: Owner, i: int, k: int, j: int, l: int)
    requires Shape(sb, st) && Owned(sb, st, owner) && FreedTo(st.bitmap, map', owner, i, k, j)
    requires ValidSlot(st, i, l) && (l == k || l == NDIRECT + 1 + j) && 0 <= k <= NDIRECT && 0 <= j
    ensures Slot(st, i, l) != 0 ==> 0 <= Slot(st, i, l) < |st.bitmap| && st.bitmap[Slot(st, i, l)]
    ensures var b := Slot(st, i, l);
            var k', j' := if l == k then k + 1 else k, if l == k then j else j + 1;
            if b == 0 then FreedTo(st.bitmap, map', owner, i, k', j')
            else 0 <= b < |map'| && map'[b] && FreedTo(st.bitmap, map'[b := false], owner, i, k', j')
  {
    hide Slot;
  }

  lemma TruncateFiles(sb: Super, st: St, st': St, owner: Owner, i: int)
    requires Consistent(sb, st, owner) && 0 <= i < |st.inodes| && Truncated(st, st', owner, i)
    ensures |st'.inodes| == |st.inodes| && AllNoHoles(st')
    ensures forall j :: 0 <= j < |st.inodes| && j != i ==> Content(st', j) == Content(st, j)
    ensures forall b :: 0 <= b < sb.size ==>
              (st'.bitmap[b] <==> st.bitmap[b] && !exists k :: 0 <= k < NSLOT && Slot(st, i, k) == b != 0)
  {
    TruncateOwned(sb, st, st', owner, i);
    forall j | 0 <= j < |st.inodes|
      ensures NoHoles(st', j, st'.inodes[j].size)
      ensures j != i ==> Content(st', j) == Content(st, j)
    {
      if j != i {
        TruncateOther(st, st', i, j);
      }
    }
    forall b | 0 <= b < sb.size
      ensures (b in owner && owner[b].0 == i) <==> exists k :: 0 <= k < NSLOT && Slot(st, i, k) == b != 0
    {
      if b in owner && owner[b].0 == i {
        assert Slot(st, i, owner[b].1) == b;
      }
      if k :| 0 <= k < NSLOT && Slot(st, i, k) == b != 0 {
        assert ValidSlot(st, i, k);
      }
    }
  }

  /** The blocks in the first n slots of inode i. */
  function HeldIn(st: St, i: int, n: nat): set<int> {
    if n == 0 then {} else HeldIn(st, i, n - 1) + if Slot(st, i, n - 1) != 0 then {Slot(st, i, n - 1)} else {}
  }

  lemma {:induction false} HeldInIs(sb: Super, st: St, owner: Owner, i: int, n: nat)
    requires Shape(sb, st) && Owned(sb, st, owner) && 0 <= i < |st.inodes| && n <= NSLOT
    ensures forall b :: b in HeldIn(st, i, n) <==> b in owner && owner[b].0 == i && owner[b].1 < n
  {
    if n > 0 {
      HeldInIs(sb, st, owner, i, n - 1);
      assert ValidSlot(st, i, n - 1);
    }
  }

  lemma HeldOne(st: St, i: int, n: nat)
    requires n > 0 && Slot(st, i, n - 1) !in HeldIn(st, i, n - 1)
    ensures |HeldIn(st, i, n)| == |HeldIn(st, i, n - 1)| + if Slot(st, i, n - 1) != 0 then 1 else 0
  {
    hide Slot;
  }

  lemma HeldNew(sb: Super, st: St, owner: Owner, i: int, n: nat)
    requires Shape(sb, st) && Owned(sb, st, owner) && 0 <= i < |st.inodes| && 0 < n <= NSLOT
    ensures Slot(st, i, n - 1) !in HeldIn(st, i, n - 1)
  {
    hide Slot, HeldIn;
    HeldInIs(sb, st, owner, i, n - 1);
    assert ValidSlot(st, i, n - 1);
  }

  /** A file without holes fills its slots from the first one on. */
  lemma {:induction false} HeldCount(sb: Super, st: St, owner: Owner, i: int, len: int, n: nat)
    requires Shape(sb, st) && Owned(sb, st, owner) && 0 <= i < |st.inodes| && NoHoles(st, i, len) && n <= NSLOT
    ensures |HeldIn(st, i, n)| == Min(n, Blocks(len))
  {
    hide NoHoles, Blocks, Slot, Owned;
    MostBlocks(st, i, len);
    if n > 0 {
      HeldCount(sb, st, owner, i, len, n - 1);
      SlotFilled(st, i, len, n - 1);
      HeldNew(sb, st, owner, i, n);
      HeldOne(st, i, n);
    }
  }

  lemma SlotFilled(st: St, i: int, len: int, k: int)
    requires NoHoles(st, i, len) && 0 <= k < NSLOT
    ensures Slot(st, i, k) != 0 <==> k < Blocks(len)
  {
    if k != NDIRECT {
      var bn := if k < NDIRECT then k else k - 1;
      assert DataSlot(bn) == k;
    }
  }

  /** Truncation gives back as many blocks as the file held. */
  lemma FreedCount(sb: Super, st: St, map': seq<bool>, owner: Owner, i: int)
    requires Consistent(sb, st, owner) && 0 <= i < |st.inodes| && |map'| == |st.bitmap|
    requires forall b :: 0 <= b < |map'| ==> (map'[b] <==> st.bitmap[b] && !(b in owner && owner[b].0 == i))
    ensures |Free(map')| == |Free(st.bitmap)| + Blocks(st.inodes[i].size)
  {
    hide NoHoles, Slot, Blocks, HeldIn;
    var held := HeldIn(st, i, NSLOT);
    HeldInIs(sb, st, owner, i, NSLOT);
    HeldCount(sb, st, owner, i, st.inodes[i].size, NSLOT);
    MostBlocks(st, i, st.inodes[i].size);
    assert Free(map') == Free(st.bitmap) + held;
    assert Free(st.bitmap) !! held;
  }

  lemma MostBlocks(st: St, i: int, len: int)
    requires NoHoles(st, i, len)
    ensures 0 <= Blocks(len) <= NSLOT
  {
  }

  /** The bitmap blocks that cover the blocks of inode i. */
  function CoverBlocks(sb: Super, st: St, i: int): set<int> {
    set k | 0 <= k < NSLOT && Slot(st, i, k) != 0 :: Bblock(sb, Slot(st, i, k))
  }

  lemma ClearedIsCover(sb: Super, st: St, map': seq<bool>, owner: Owner, i: int)
    requires Shape(sb, st) && Owned(sb, st, owner) && 0 <= i < |st.inodes| && |map'| == |st.bitmap|
    requires forall b :: 0 <= b < |map'| ==> (map'[b] <==> st.bitmap[b] && !(b in owner && owner[b].0 == i))
    ensures Cleared(sb, st.bitmap, map') == CoverBlocks(sb, st, i)
  {
    forall x | x in Cleared(sb, st.bitmap, map')
      ensures x in CoverBlocks(sb, st, i)
    {
      var b :| 0 <= b < |map'| && st.bitmap[b] && !map'[b] && x == Bblock(sb, b);
      assert Slot(st, i, owner[b].1) == b;
    }
    forall x | x in CoverBlocks(sb, st, i)
      ensures x in Cleared(sb, st.bitmap, map')
    {
      var k :| 0 <= k < NSLOT && Slot(st, i, k) != 0 && x == Bblock(sb, Slot(st, i, k));
      SlotInRange(sb, st, owner, i, k);
    }
  }

  lemma TruncatedCovers(sb: Super, st: St, st': St, owner: Owner, i: int)
    requires Shape(sb, st) && Owned(sb, st, owner) && 0 <= i < |st.inodes| && Truncated(st, st', owner, i)
    ensures Covers(sb, st, st', CoverBlocks(sb, st, i) + {Iblock(sb, i)})
  {
    hide Owned, Covers, CoverBlocks;
    ClearedIsCover(sb, st, st'.bitmap, owner, i);
    CoversChanges(sb, st, st', CoverBlocks(sb, st, i) + {Iblock(sb, i)});
  }

  lemma TruncateOther(st: St, st': St, i: int, j: int)
    requires 0 <= i < |st.inodes| && 0 <= j < |st.inodes| && j != i
    requires st'.blocks == st.blocks && |st'.inodes| == |st.inodes| && st'.inodes[j] == st.inodes[j]
    requires st.inodes[j].size >= 0
    ensures forall len :: NoHoles(st, j, len) ==> NoHoles(st', j, len)
    ensures Content(st', j) == Content(st, j)
  {
  }

  lemma AllFreed(sb: Super, st: St, map': seq<bool>, owner: Owner, i: int)
    requires Shape(sb, st) && Owned(sb, st, owner) && 0 <= i < |st.inodes|
    requires if Addr(st, i, NDIRECT) == 0 then FreedTo(st.bitmap, map', owner, i, NDIRECT, 0)
             else FreedTo(st.bitmap, map', owner, i, NDIRECT + 1, NINDIRECT)
    ensures |map'| == |st.bitmap|
    ensures forall b :: 0 <= b < |map'| ==> (map'[b] <==> st.bitmap[b] && !(b in owner && owner[b].0 == i))
  {
  }

  /** Blocks with an owner other than slot (i, k) are as they were. */
  lemma BytesKeptTake(sb: Super, st: St, st': St, owner: Owner, i: int, k: int)
    requires Shape(sb, st) && Owned(sb, st, owner) && SlotsKept(st, st', i, k) && |st'.blocks| == |st.blocks|
    requires Slot(st, i, k) == 0
    requires forall b :: b in owner && owner[b].1 != NDIRECT ==> st'.blocks[b] == st.blocks[b]
    ensures BytesKept(st, st')
  {
  }

  /** Block r given to slot k of inode i, an address in the inode. */
  lemma AddrAllocated(sb: Super, st: St, owner: Owner, i: int, k: int, r: int)
    requires Shape(sb, st) && Owned(sb, st, owner)
    requires 0 <= i < |st.inodes| && 0 <= k <= NDIRECT && Slot(st, i, k) == 0
    requires 0 <= r < sb.size && !st.bitmap[r]
    ensures var st' := SetAddr(Taken(st, r), i, k, r);
            && Shape(sb, st') && Owned(sb, st', owner[r := (i, k)])
            && SlotsKept(st, st', i, k) && Slot(st', i, k) == r && r != 0 && BytesKept(st, st')
  {
    TakeForInode(sb, st, owner, i, k, r);
    BytesKeptTake(sb, st, SetAddr(Taken(st, r), i, k, r), owner, i, k);
  }

  lemma EntryAllocated(sb: Super, st: St, owner: Owner, i: int, k: int, r: int)
    requires Shape(sb, st) && Owned(sb, st, owner)
    requires 0 <= i < |st.inodes| && NDIRECT < k < NSLOT && Slot(st, i, k) == 0 && Slot(st, i, NDIRECT) != 0
    requires 0 <= r < sb.size && !st.bitmap[r]
    ensures var ind := Slot(st, i, NDIRECT);
            && 0 <= ind < |st.blocks| && r != ind
            && var st' := Entered(st, ind, k, r);
               && Shape(sb, st') && Owned(sb, st', owner[r := (i, k)])
               && SlotsKept(st, st', i, k) && Slot(st', i, k) == r && r != 0 && BytesKept(st, st')
  {
    TakeForEntry(sb, st, owner, i, k, r);
    BytesKeptTake(sb, st, Entered(st, Slot(st, i, NDIRECT), k, r), owner, i, k);
  }

  lemma NoHolesMap(st: St, st': St, i: int, bn: int, len: int)
    requires NoHoles(st, i, len) && SlotsMapped(st, st', i, bn) && 0 <= i < |st.inodes|
    requires 0 <= bn < MAXFILE && bn * BSIZE <= len
    ensures NoHoles(st', i, Max(len, bn * BSIZE + 1))
  {
  }

  /** A length that ends in the same block needs the same blocks. */
  lemma NoHolesLen(st: St, i: int, len: int, len': int)
    requires NoHoles(st, i, len) && 0 < len && len <= len' && (len' - 1) / BSIZE == (len - 1) / BSIZE
    ensures NoHoles(st, i, len')
  {
  }

  lemma NoHolesOther(st: St, st': St, i: int, bn: int, j: int, len: int)
    requires NoHoles(st, j, len) && SlotsMapped(st, st', i, bn) && j != i && 0 <= j < |st.inodes|
    ensures NoHoles(st', j, len)
  {
  }

  lemma BytesKeptWrote(st: St, st1: St, st2: St, i: int, off: int, data: seq<int>)
    requires BytesKept(st, st1) && Wrote(st1, st2, i, off, data)
    ensures Wrote(st, st2, i, off, data)
  {
  }

  lemma SlotsMappedPatch(st: St, st1: St, st2: St, i: int, bn: int)
    requires SlotsMapped(st, st1, i, bn) && 0 <= i < |st.inodes| && 0 <= bn < MAXFILE && |st2.inodes| == |st1.inodes|
    requires forall j, l :: ValidSlot(st1, j, l) ==> Slot(st2, j, l) == Slot(st1, j, l)
    ensures SlotsMapped(st, st2, i, bn)
  {
  }

  /** After bmap has led from st0 to st, copying bytes into the block, which is logged, writes
      them to the file. */
  lemma CopyIn(sb: Super, st0: St, a0: set<int>, st: St, a: set<int>, n: int, owner: Owner, i: int, off: int, bytes: seq<int>, b: int)
    requires Shape(sb, st) && Owned(sb, st, owner) && 0 <= i < |st.inodes| == |st0.inodes|
    requires 0 <= off < MAXFILE * BSIZE && off % BSIZE + |bytes| <= BSIZE
    requires SlotsMapped(st0, st, i, off / BSIZE) && BytesKept(st0, st)
    requires b == Slot(st, i, DataSlot(off / BSIZE)) && b in a && Grew(sb, st0, a0, st, a, n)
    ensures 0 < b < |st.blocks| && |st.blocks[b]| == BSIZE
    ensures var st' := SetBlock(st, b, Patch(st.blocks[b], off % BSIZE, bytes));
            && Shape(sb, st') && Owned(sb, st', owner)
            && SlotsMapped(st0, st', i, off / BSIZE) && Wrote(st0, st', i, off, bytes)
            && Slot(st', i, NDIRECT) == Slot(st, i, NDIRECT)
            && Grew(sb, st0, a0, st', a, n)
  {
    hide Owned, Shape, Wrote, BytesKept, Grew;
    PatchWrites(sb, st, owner, i, off, bytes, b);
    var v := Patch(st.blocks[b], off % BSIZE, bytes);
    SlotsMappedPatch(st0, st, SetBlock(st, b, v), i, off / BSIZE);
    BytesKeptWrote(st0, st, SetBlock(st, b, v), i, off, bytes);
    assert ValidSlot(st, i, NDIRECT);
    GrewPatch(sb, st, a, b, v);
    GrewMore(sb, st0, a0, st, a, n, SetBlock(st, b, v), a, 0);
  }

  // ------------------------------------------------------- blocks logged by a write

  /** The indirect block of inode i and the bitmap block that covers it. */
  function IndBlocks(sb: Super, st: St, i: int): set<int> {
    var ind := Slot(st, i, NDIRECT);
    if ind == 0 then {} else {ind, Bblock(sb, ind)}
  }

  /** Apart from the indirect block and its bitmap block, writing into one block logs that
      block and, if it is new, the bitmap block that covers it. */
  lemma LogGrowth(a: set<int>, x: set<int>, a': set<int>, x': set<int>, c: set<int>)
    requires x <= x' && a' <= a + c + x'
    ensures |a' - x'| <= |a - x| + |c|
  {
    CardSubset(a' - x', (a - x) + c);
    assert (a - x) + c == (a - x) + (c - (a - x));
    CardSubset(c - (a - x), c);
  }

  /** What bmap logs when it returns addr, from a to a'. */
  ghost predicate MapLogs(sb: Super, st: St, st': St, i: int, bn: int, addr: int, a: set<int>, a': set<int>) {
    var ind := Slot(st', i, NDIRECT);
    if Slot(st, i, DataSlot(bn)) != 0 then a' == a
    else a' == a + {Bblock(sb, addr), addr} + (if bn < NDIRECT then {} else {ind})
               + (if bn < NDIRECT || Slot(st, i, NDIRECT) != 0 then {} else {Bblock(sb, ind), ind})
  }

  lemma MapGrowth(sb: Super, st: St, st': St, i: int, bn: int, addr: int, a: set<int>, a': set<int>)
    requires SlotsMapped(st, st', i, bn) && MapLogs(sb, st, st', i, bn, addr, a, a')
    requires Slot(st, i, DataSlot(bn)) != 0 ==> st' == st
    ensures |a' + {addr} - IndBlocks(sb, st', i)| <= |a - IndBlocks(sb, st, i)|
                                                     + (if Slot(st, i, DataSlot(bn)) != 0 then 1 else 2)
  {
    LogGrowth(a, IndBlocks(sb, st, i), a' + {addr}, IndBlocks(sb, st', i),
              if Slot(st, i, DataSlot(bn)) != 0 then {addr} else {addr, Bblock(sb, addr)});
  }

  /** Blocks logged for the chunk that starts at off: the data block, and unless an unaligned
      start shows that it was there, the bitmap block that covers it. */
  function ChunkCost(off: int): int {
    if off % BSIZE != 0 then 1 else 2
  }

  function ChunkLen(off: int, n: int): (m: int)
    requires 0 <= off && 0 < n
    ensures 0 < m <= n && off % BSIZE + m <= BSIZE
  {
    Min(n, BSIZE - off % BSIZE)
  }

  /** The same for n bytes, chunk by chunk. */
  function Cost(off: int, n: int): int
    requires 0 <= off
    decreases n
  {
    if n <= 0 then 0
    else ChunkCost(off) + Cost(off + ChunkLen(off, n), n - ChunkLen(off, n))
  }

  lemma CostTurn(off: int, n: int, m: int)
    requires 0 <= off && 0 < n && m == ChunkLen(off, n)
    ensures Cost(off, n) == ChunkCost(off) + Cost(off + m, n - m)
  {
  }

  lemma CostDone(off: int)
    requires 0 <= off
    ensures Cost(off, 0) == 0
  {
  }

  /** The most blocks that writing n bytes at off logs: the data blocks, the bitmap blocks of
      new ones, the indirect block with its bitmap block, and the inode. */
  function Budget(off: int, n: int): int
    requires 0 <= off
  {
    Cost(off, n) + 3
  }

  lemma TurnNoHoles(st: St, st': St, i: int, off: int, m: int, size: int)
    requires NoHoles(st, i, Max(size, off)) && SlotsMapped(st, st', i, off / BSIZE) && 0 <= i < |st.inodes|
    requires 0 <= off && 0 < m <= BSIZE - off % BSIZE && off + m <= MAXFILE * BSIZE
    ensures NoHoles(st', i, Max(size, off + m))
  {
    var bn, len := off / BSIZE, Max(size, off);
    NoHolesMap(st, st', i, bn, len);
    var len' := Max(len, bn * BSIZE + 1);
    if size < off + m {
      NoHolesLen(st', i, len', off + m);
    }
  }

  /** What writei has done after tot bytes. */
  ghost predicate WriteInv(st0: St, st: St, i: int, off: int, src: seq<int>, tot: int)
    requires 0 <= i < |st0.inodes| && 0 <= tot <= |src|
  {
    && |st.inodes| == |st0.inodes|
    && st.inodes == st0.inodes[i := st0.inodes[i].(addrs := st.inodes[i].addrs)]
    && NoHoles(st, i, Max(st0.inodes[i].size, off + tot))
    && (forall j :: 0 <= j < |st.inodes| && j != i ==> NoHoles(st, j, st0.inodes[j].size))
    && Wrote(st0, st, i, off, src[..tot])
    && (off + tot <= st0.inodes[i].size ==> st.inodes == st0.inodes)
  }

  lemma WriteInvNone(st: St, i: int, off: int, src: seq<int>)
    requires 0 <= i < |st.inodes| && AllNoHoles(st) && off <= st.inodes[i].size
    ensures WriteInv(st, st, i, off, src, 0)
  {
  }

  lemma InsideIsMapped(st: St, i: int, off: int, len: int)
    requires NoHoles(st, i, len) && 0 <= off < len
    ensures off / BSIZE < MAXFILE && Slot(st, i, DataSlot(off / BSIZE)) != 0
  {
  }

  /** Why a write need not allocate its first block when it does not start on a boundary. */
  lemma UnalignedIsMapped(st: St, i: int, off: int, len: int)
    requires NoHoles(st, i, len) && 0 <= off <= len && off % BSIZE != 0
    ensures off / BSIZE < MAXFILE && Slot(st, i, DataSlot(off / BSIZE)) != 0
  {
  }

  lemma WriteTurnHoles(st0: St, st: St, st': St, i: int, off: int, src: seq<int>, tot: int, m: int)
    requires 0 <= i < |st0.inodes| && 0 <= tot && 0 < m && tot + m <= |src| && WriteInv(st0, st, i, off, src, tot)
    requires 0 <= off && off + |src| <= MAXFILE * BSIZE && m <= BSIZE - (off + tot) % BSIZE
    requires SlotsMapped(st, st', i, (off + tot) / BSIZE)
    ensures NoHoles(st', i, Max(st0.inodes[i].size, off + tot + m))
    ensures forall j :: 0 <= j < |st.inodes| && j != i ==> NoHoles(st', j, st0.inodes[j].size)
  {
    TurnNoHoles(st, st', i, off + tot, m, st0.inodes[i].size);
    forall j | 0 <= j < |st.inodes| && j != i
      ensures NoHoles(st', j, st0.inodes[j].size)
    {
      NoHolesOther(st, st', i, (off + tot) / BSIZE, j, st0.inodes[j].size);
    }
  }

  lemma WriteTurnBytes(st0: St, st: St, st': St, i: int, off: int, src: seq<int>, tot: int, m: int)
    requires 0 <= tot && 0 < m && tot + m <= |src|
    requires Wrote(st0, st, i, off, src[..tot]) && Wrote(st, st', i, off + tot, src[tot..tot + m])
    ensures Wrote(st0, st', i, off, src[..tot + m])
  {
  }

  lemma WriteTurn(st0: St, st: St, st': St, i: int, off: int, src: seq<int>, tot: int, m: int, at: int, bn: int)
    requires 0 <= i < |st0.inodes| && 0 <= tot && 0 < m && tot + m <= |src| && WriteInv(st0, st, i, off, src, tot)
    requires 0 <= off <= st0.inodes[i].size && off + |src| <= MAXFILE * BSIZE
    requires at == off + tot && bn == at / BSIZE && m <= BSIZE - at % BSIZE
    requires SlotsMapped(st, st', i, bn) && Wrote(st, st', i, at, src[tot..tot + m])
    requires st'.inodes == st.inodes[i := st.inodes[i].(addrs := st'.inodes[i].addrs)]
    requires Slot(st, i, DataSlot(bn)) != 0 ==> st'.inodes == st.inodes
    ensures WriteInv(st0, st', i, off, src, tot + m)
  {
    WriteTurnHoles(st0, st, st', i, off, src, tot, m);
    WriteTurnBytes(st0, st, st', i, off, src, tot, m);
    if at < st0.inodes[i].size {
      InsideIsMapped(st, i, at, Max(st0.inodes[i].size, at));
    }
  }

  /** c with data written over it from off, grown if need be. */
  function Splice(c: seq<int>, off: int, data: seq<int>): seq<int>
    requires 0 <= off <= |c|
  {
    c[..off] + data + if off + |data| < |c| then c[off + |data|..] else []
  }

  lemma SameAddrs(st: St, st': St, i: int)
    requires st'.blocks == st.blocks && |st'.inodes| == |st.inodes|
    requires forall j :: 0 <= j < |st.inodes| ==> st'.inodes[j].addrs == st.inodes[j].addrs
    ensures forall k :: Slot(st', i, k) == Slot(st, i, k)
    ensures forall off :: ByteAt(st', i, off) == ByteAt(st, i, off)
    ensures forall len :: NoHoles(st, i, len) ==> NoHoles(st', i, len)
  {
  }

  lemma WrittenContent(st0: St, st: St, i: int, off: int, src: seq<int>)
    requires 0 <= i < |st0.inodes| && WriteInv(st0, st, i, off, src, |src|)
    requires 0 <= off <= st0.inodes[i].size && NoHoles(st0, i, st0.inodes[i].size)
    ensures var size := st0.inodes[i].size;
            seq(Max(size, off + |src|), o => ByteAt(st, i, o)) == Splice(Content(st0, i), off, src)
  {
    var size := st0.inodes[i].size;
    var c := Splice(Content(st0, i), off, src);
    assert src[..|src|] == src;
    forall o | 0 <= o < Max(size, off + |src|)
      ensures ByteAt(st, i, o) == c[o]
    {
      if off <= o < off + |src| {
        assert Mapped(st, i, o);
      } else {
        InsideIsMapped(st0, i, o, size);
        assert Mapped(st0, i, o);
      }
    }
  }

  lemma OtherContent(st0: St, st: St, i: int, off: int, src: seq<int>, j: int)
    requires 0 <= i < |st0.inodes| && WriteInv(st0, st, i, off, src, |src|)
    requires 0 <= j < |st0.inodes| && j != i && NoHoles(st0, j, st0.inodes[j].size)
    ensures Content(st, j) == Content(st0, j)
  {
  }

  /** Every file but i has the same bytes, and file i has src spliced in. */
  ghost predicate Spliced(st0: St, st: St, i: int, off: int, src: seq<int>) {
    && |st.inodes| == |st0.inodes| && 0 <= i < |st.inodes|
    && (forall j :: 0 <= j < |st.inodes| ==> st0.inodes[j].size >= 0 && st.inodes[j].size >= 0)
    && 0 <= off <= st0.inodes[i].size
    && Content(st, i) == Splice(Content(st0, i), off, src)
    && forall j :: 0 <= j < |st.inodes| && j != i ==> Content(st, j) == Content(st0, j)
  }

  function Grown(st: St, i: int, end: int): St
    requires 0 <= i < |st.inodes|
  {
    st.(inodes := st.inodes[i := st.inodes[i].(size := Max(st.inodes[i].size, end))])
  }

  /** A completed write, from st with log a to st' with log a': file i has size bytes, the blocks
      by which it grew came from the free ones, and what changed is logged, the inode included. */
  ghost predicate Recorded(sb: Super, st: St, a: set<int>, st': St, a': set<int>, i: int, size: int) {
    && 0 <= i < |st.inodes| == |st'.inodes|
    && st'.inodes[i].size == size
    && Grew(sb, st, a, st', a', Growth(st.inodes[i].size, size))
    && (forall j :: 0 <= j < |st.inodes| && st'.inodes[j] != st.inodes[j] ==> Iblock(sb, j) in a')
  }

  /** Free blocks and the blocks of the file add up to the same as before. */
  lemma RecordedBalance(sb: Super, st: St, a: set<int>, st': St, a': set<int>, i: int, size: int)
    requires Recorded(sb, st, a, st', a', i, size) && st.inodes[i].size <= size
    ensures |Free(st'.bitmap)| + Blocks(size) == |Free(st.bitmap)| + Blocks(st.inodes[i].size)
  {
  }

  lemma RecordedSize(sb: Super, st: St, a: set<int>, st': St, a': set<int>, i: int, size: int)
    requires Recorded(sb, st, a, st', a', i, size)
    ensures 0 <= i < |st'.inodes| && st'.inodes[i].size == size
  {
  }

  lemma RecordedCovers(sb: Super, st: St, a: set<int>, st': St, a': set<int>, i: int, size: int)
    requires Recorded(sb, st, a, st', a', i, size)
    ensures Covers(sb, st, st', a')
  {
    hide Slot, Covers;
    CoversChanges(sb, st, st', a');
  }

  lemma RecordGrown(sb: Super, st0: St, a0: set<int>, st: St, a: set<int>, a': set<int>, i: int, end: int)
    requires 0 <= i < |st0.inodes| == |st.inodes|
    requires st.inodes == st0.inodes[i := st0.inodes[i].(addrs := st.inodes[i].addrs)]
    requires end <= st0.inodes[i].size ==> st.inodes == st0.inodes
    requires Grew(sb, st0, a0, st, a, Growth(st0.inodes[i].size, end))
    requires a' == a + if end > st0.inodes[i].size then {Iblock(sb, i)} else {}
    ensures Recorded(sb, st0, a0, Grown(st, i, end), a', i, Max(st0.inodes[i].size, end))
  {
    var size, n := Max(st0.inodes[i].size, end), Growth(st0.inodes[i].size, end);
    GrewSized(sb, st, a, i, size, a');
    GrewMore(sb, st0, a0, st, a, n, Grown(st, i, end), a', 0);
  }

  lemma NoNegative(st: St)
    requires AllNoHoles(st)
    ensures forall j :: 0 <= j < |st.inodes| ==> st.inodes[j].size >= 0
  {
  }

  lemma GrownConsistent(sb: Super, st0: St, st: St, owner: Owner, i: int, off: int, src: seq<int>)
    requires Shape(sb, st) && Owned(sb, st, owner)
    requires 0 <= i < |st0.inodes| && WriteInv(st0, st, i, off, src, |src|)
    ensures Consistent(sb, Grown(st, i, off + |src|), owner)
  {
    hide NoHoles;
    var st' := Grown(st, i, off + |src|);
    forall j | 0 <= j < |st.inodes|
      ensures forall k :: Slot(st', j, k) == Slot(st, j, k)
      ensures NoHoles(st', j, st'.inodes[j].size)
    {
      SameAddrs(st, st', j);
    }
  }

  lemma GrownContent(st0: St, st: St, i: int, off: int, src: seq<int>)
    requires 0 <= i < |st0.inodes| && WriteInv(st0, st, i, off, src, |src|) && 0 <= off <= st0.inodes[i].size
    requires AllNoHoles(st0)
    ensures Spliced(st0, Grown(st, i, off + |src|), i, off, src)
  {
    hide ByteAt, NoHoles;
    NoNegative(st0);
    var st' := Grown(st, i, off + |src|);
    forall j | 0 <= j < |st.inodes| && j != i
      ensures Content(st', j) == Content(st0, j)
    {
      OtherContent(st0, st, i, off, src, j);
      SameAddrs(st, st', j);
    }
    SameAddrs(st, st', i);
    WrittenContent(st0, st, i, off, src);
    assert Content(st', i) == seq(Max(st0.inodes[i].size, off + |src|), o => ByteAt(st, i, o));
  }

  /** Growing the recorded size to the bytes written leaves a consistent state. */
  lemma FinishWrite(sb: Super, st0: St, st: St, owner: Owner, i: int, off: int, src: seq<int>)
    requires Shape(sb, st) && Owned(sb, st, owner)
    requires 0 <= i < |st0.inodes| && WriteInv(st0, st, i, off, src, |src|) && 0 <= off <= st0.inodes[i].size
    requires AllNoHoles(st0)
    ensures Consistent(sb, Grown(st, i, off + |src|), owner)
    ensures Spliced(st0, Grown(st, i, off + |src|), i, off, src)
  {
    hide Consistent, Spliced, WriteInv;
    GrownConsistent(sb, st0, st, owner, i, off, src);
    GrownContent(st0, st, i, off, src);
  }

  datatype Result = Count(n: int) | Refused | Panicked

  /** The bytes of one block, read out, are those of the file at that offset. */
  lemma ReadChunk(sb: Super, st: St, owner: Owner, i: int, off: int, m: int)
    requires Consistent(sb, st, owner) && 0 <= i < |st.inodes| && 0 <= off && 0 < m
    requires off + m <= st.inodes[i].size && off % BSIZE + m <= BSIZE
    ensures off / BSIZE < MAXFILE && Slot(st, i, DataSlot(off / BSIZE)) != 0
    ensures var b := Slot(st, i, DataSlot(off / BSIZE));
            && 0 <= b < |st.blocks| && |st.blocks[b]| == BSIZE
            && st.blocks[b][off % BSIZE..off % BSIZE + m] == Content(st, i)[off..off + m]
  {
    hide Owned, Slot, NoHoles;
    var bn, o := off / BSIZE, off % BSIZE;
    InsideIsMapped(st, i, off, st.inodes[i].size);
    SlotInRange(sb, st, owner, i, DataSlot(bn));
    var b := Slot(st, i, DataSlot(bn));
    forall p | off <= p < off + m
      ensures ByteAt(st, i, p) == st.blocks[b][o + (p - off)]
    {
      assert p / BSIZE == bn && p % BSIZE == o + (p - off);
    }
    assert |Content(st, i)| == st.inodes[i].size;
  }

  const CHUNK: int := (MAXOPBLOCKS - 1 - 1 - 2) / 2 * 512

  /** A chunk of filewrite fits in one operation's share of the log, for every offset and
      length and however the allocated blocks are spread over bitmap blocks. */
  lemma ChunkFits(off: int, n: int)
    requires 0 <= off && 0 <= n <= CHUNK
    ensures Budget(off, n) <= MAXOPBLOCKS
  {
    if n > 0 {
      var m := ChunkLen(off, n);
      CostAligned(off + m, n - m);
      assert off % BSIZE != 0 ==> n - m <= 3 * BSIZE;
      assert off % BSIZE == 0 ==> n - m <= 2 * BSIZE;
    }
  }

  /** From a boundary on, every block may be new. */
  lemma {:induction false} CostAligned(off: int, n: int)
    requires 0 <= off && (n <= 0 || off % BSIZE == 0)
    ensures n <= 0 ==> Cost(off, n) == 0
    ensures n > 0 ==> Cost(off, n) == 2 * ((n + BSIZE - 1) / BSIZE)
    decreases n
  {
    if n > 0 {
      var m := ChunkLen(off, n);
      CostAligned(off + m, n - m);
    }
  }

  /** The bytes that filewrite of n bytes at off puts into a file of size bytes if blocks do not
      run out: all, or as many whole chunks as the largest file has room for. */
  function Accepted(size: int, off: int, n: int): int {
    if n <= 0 || off > size then 0
    else if off + n <= MAXFILE * BSIZE then n
    else (MAXFILE * BSIZE - off) / CHUNK * CHUNK
  }

  /** The size of the file afterwards. */
  function FinalSize(size: int, off: int, n: int): int {
    if off > size then size else Max(size, off + Accepted(size, off, n))
  }

  /** Every chunk that writei does not refuse is among them. */
  lemma ChunkAccepted(size: int, off: int, n: int, done: int, n1: int)
    requires 0 <= off <= size && 0 <= done < n && done % CHUNK == 0 && n1 == Min(n - done, CHUNK)
    requires off + done + n1 <= MAXFILE * BSIZE
    ensures done + n1 <= Accepted(size, off, n)
    ensures done + n1 == n || (done + n1) % CHUNK == 0
  {
    if off + n > MAXFILE * BSIZE {
      assert n1 == CHUNK;
      WholeChunks(done + CHUNK, MAXFILE * BSIZE - off);
    }
  }

  lemma WholeChunks(done: int, room: int)
    requires 0 <= done <= room && done % CHUNK == 0
    ensures done <= room / CHUNK * CHUNK
  {
  }

  /** And the first one that it refuses is not. */
  lemma ChunkRefused(size: int, off: int, n: int, done: int, n1: int)
    requires 0 <= off <= size && 0 <= done < n && done % CHUNK == 0 && n1 == Min(n - done, CHUNK)
    requires off + done <= MAXFILE * BSIZE < off + done + n1
    ensures done == Accepted(size, off, n)
  {
  }

  lemma AcceptedNone(size: int, off: int, n: int)
    requires n <= 0 || off > size
    ensures Accepted(size, off, n) == 0
  {
  }

  lemma SpliceTwice(c: seq<int>, off: int, a: seq<int>, b: seq<int>)
    requires 0 <= off <= |c|
    ensures off + |a| <= |Splice(c, off, a)|
    ensures Splice(Splice(c, off, a), off + |a|, b) == Splice(c, off, a + b)
  {
  }

  /** Of all inodes only the addresses and the size of inode i may differ. */
  ghost predicate SameMeta(st0: St, st: St, i: int) {
    && 0 <= i < |st0.inodes| == |st.inodes|
    && st.inodes == st0.inodes[i := st0.inodes[i].(addrs := st.inodes[i].addrs, size := st.inodes[i].size)]
  }

  /** What filewrite has done: data is spliced in at off, or nothing if off is past the end. */
  ghost predicate Progress(st0: St, st: St, i: int, off: int, data: seq<int>) {
    && SameMeta(st0, st, i)
    && if off > st0.inodes[i].size then data == [] && st == st0 else Spliced(st0, st, i, off, data)
  }

  lemma ProgressNone(st: St, i: int, off: int)
    requires 0 <= i < |st.inodes| && 0 <= off && AllNoHoles(st)
    ensures Progress(st, st, i, off, [])
  {
    hide NoHoles;
    NoNegative(st);
  }

  lemma ProgressMore(st0: St, st1: St, st2: St, i: int, off: int, data: seq<int>, j: int, m: int)
    requires 0 <= j && 0 <= m && j + m <= |data|
    requires Progress(st0, st1, i, off, data[..j]) && Spliced(st1, st2, i, off + j, data[j..j + m]) && SameMeta(st1, st2, i)
    ensures Progress(st0, st2, i, off, data[..j + m])
  {
    assert data[..j] + data[j..j + m] == data[..j + m];
    SpliceTwice(Content(st0, i), off, data[..j], data[j..j + m]);
  }

  lemma CountAll(a: set<int>, x: set<int>, b: set<int>, y: set<int>)
    requires |x| <= 2
    ensures |a| <= |a - x| + 2 && |b - y| <= |b|
  {
  }

  method MarkMetadata(sb: Super) returns (bits: seq<bv8>, ghost bitmap: seq<bool>)
    requires 0 <= sb.nmeta <= sb.size
    ensures |bitmap| == sb.size && Encodes(bits, bitmap)
    ensures forall b :: 0 <= b < sb.size ==> (GetBit(bits, b) <==> b < sb.nmeta)
  {
    bits := seq(sb.size / 8 + 1, i => 0);
    var b := 0;
    while b < sb.nmeta
      invariant 0 <= b <= sb.nmeta && |bits| == sb.size / 8 + 1
      invariant forall c :: 0 <= c < sb.size ==> (GetBit(bits, c) <==> c < b)
    {
      forall c | 0 <= c < sb.size
        ensures GetBit(SetBit(bits, b), c) <==> b == c || GetBit(bits, c)
      {
        SetBitAt(bits, b, c);
      }
      bits := SetBit(bits, b);
      b := b + 1;
    }
    bitmap := seq(sb.size, c => c < sb.nmeta);
  }

  lemma SliceJoin<T>(c: seq<T>, i: int, j: int, k: int)
    requires 0 <= i <= j <= k <= |c|
    ensures c[i..j] + c[j..k] == c[i..k]
  {
  }

  lemma SizeBound(sb: Super, st: St, owner: Owner, i: int)
    requires Consistent(sb, st, owner) && 0 <= i < |st.inodes|
    ensures 0 <= st.inodes[i].size <= MAXFILE * BSIZE
  {
  }

  /** Too few blocks for a chunk are too few for the whole write. */
  lemma ShortChunk(total: int, free: int, size: int, was: int, off: int, n: int, end: int)
    requires 0 <= off <= size <= was && 0 < end <= Accepted(size, off, n)
    requires free + Blocks(was) == total && 0 <= free < Growth(was, off + end)
    ensures total < Blocks(FinalSize(size, off, n)) && 0 < n
  {
    hide Blocks;
    GrowthMono(was, off + end, FinalSize(size, off, n));
  }

  /** What the end of the loop says of free0, the free blocks at its start. */
  lemma FileEnds(free0: int, free: int, size: int, off: int, n: int, done: int, r: Result)
    requires 0 <= off && 0 <= free0 && 0 <= free && 0 <= done && (n < 0 ==> done == 0) && (n >= 0 ==> done <= n)
    requires off > size ==> done == 0
    requires r.Count? ==> n <= done && (done > 0 ==> off + done <= MAXFILE * BSIZE)
    requires r == Refused ==> done == Accepted(size, off, n)
    requires r != Panicked ==>
               free + Blocks(if off > size then size else Max(size, off + done)) == free0 + Blocks(size)
    requires r == Panicked ==> off <= size && 0 < n && free0 + Blocks(size) < Blocks(FinalSize(size, off, n))
    ensures r != Panicked ==>
              done == Accepted(size, off, n) && FinalSize(size, off, n) == if off > size then size else Max(size, off + done)
    ensures r == Panicked <==> free0 < Blocks(FinalSize(size, off, n)) - Blocks(size)
    ensures r == Panicked ==> free0 < Growth(size, off + n)
  {
    hide Blocks;
    if r == Panicked {
      AcceptedBound(size, off, n);
      GrowthMono(size, FinalSize(size, off, n), off + n);
    }
  }

  lemma AcceptedBound(size: int, off: int, n: int)
    requires 0 <= off <= size && 0 < n
    ensures Accepted(size, off, n) <= n
  {
  }

  class Fs {
    const sb: Super
    var bits: seq<bv8>          // the bitmap blocks
    ghost var bitmap: seq<bool> // and what they say
    var blocks: seq<Bytes>
    var inodes: seq<Inode>      // in-memory inodes
    var dinodes: seq<Inode>     // the same inodes in the inode blocks
    var logged: set<int>        // block numbers passed to log_write
    ghost var owner: Owner

    ghost function State(): (st: St)
      reads this
    {
      St(bitmap, blocks, inodes)
    }

    ghost predicate Sound()
      reads this
    {
      Encodes(bits, bitmap) && Shape(sb, State()) && Owned(sb, State(), owner)
    }

    /** Between operations: the bitmap is exact, files have no holes, and the inodes on disk
        are the ones in memory. */
    ghost predicate Valid()
      reads this
    {
      && Sound()
      && dinodes == inodes
      && Consistent(sb, State(), owner)
    }

    /** An empty file system, as mkfs lays it out: the metadata blocks are in use. */
    constructor (sb: Super, ninodes: nat)
      requires 1 <= sb.nmeta <= sb.size < U32
      ensures Valid() && this.sb == sb && |inodes| == ninodes
      ensures forall i :: 0 <= i < ninodes ==> inodes[i].size == 0
    {
      this.sb := sb;
      var bs, bm := MarkMetadata(sb);
      bits, bitmap, blocks := bs, bm, seq(sb.size, i => ZeroBlock());
      var none := Inode(0, 0, 0, 0, 0, seq(NDIRECT + 1, k => 0));
      inodes := seq(ninodes, i => none);
      dinodes := seq(ninodes, i => none);
      logged, owner := {}, map[];
      new;
      assert forall i, k :: Addr(State(), i, k) == 0;
      assert forall i, k :: Slot(State(), i, k) == 0;
    }

    /** The file system on a disk that holds st. */
    constructor Mount(sb: Super, bits: seq<bv8>, st: St, ghost owner: Owner)
      requires Consistent(sb, st, owner) && Encodes(bits, st.bitmap)
      ensures Valid() && this.sb == sb && State() == st && logged == {}
    {
      this.sb, this.bits, this.owner := sb, bits, owner;
      bitmap, blocks, inodes, dinodes := st.bitmap, st.blocks, st.inodes, st.inodes;
      logged := {};
    }

    /** First fit over the bitmap, one bitmap block at a time. */
    method FindFree() returns (r: int)
      requires sb.size >= 0
      ensures -1 <= r < sb.size
      ensures r == -1 ==> forall b :: 0 <= b < sb.size ==> GetBit(bits, b)
      ensures r != -1 ==> !GetBit(bits, r) && forall b :: 0 <= b < r ==> GetBit(bits, b)
    {
      var b := 0;
      while b < sb.size
        invariant 0 <= b
        invariant forall c :: 0 <= c < b && c < sb.size ==> GetBit(bits, c)
      {
        var bi := 0;
        while bi < BPB && b + bi < sb.size
          invariant 0 <= bi <= BPB
          invariant forall c :: 0 <= c < b + bi && c < sb.size ==> GetBit(bits, c)
        {
          if !GetBit(bits, b + bi) {
            return b + bi;
          }
          bi := bi + 1;
        }
        b := b + BPB;
      }
      r := -1;
    }

    /** Allocate a zeroed block; -1 where the source panics. */
    method Balloc() returns (r: int)
      requires Encodes(bits, bitmap) && |bitmap| == |blocks| == sb.size
      modifies this`bits, this`bitmap, this`blocks, this`logged
      ensures Encodes(bits, bitmap) && -1 <= r < sb.size
      ensures r == -1 ==>
                && (forall b :: 0 <= b < sb.size ==> old(bitmap)[b])
                && State() == old(State()) && logged == old(logged)
      ensures r != -1 ==>
                && !old(bitmap)[r] && (forall b :: 0 <= b < r ==> old(bitmap)[b])
                && State() == Taken(old(State()), r)
                && |blocks[r]| == BSIZE && (forall k :: 0 <= k < BSIZE ==> blocks[r][k] == 0)
                && logged == old(logged) + {Bblock(sb, r), r}
    {
      r := FindFree();
      if r != -1 {
        forall c | 0 <= c < sb.size
          ensures GetBit(SetBit(bits, r), c) <==> r == c || GetBit(bits, c)
        {
          SetBitAt(bits, r, c);
        }
        bits, bitmap := SetBit(bits, r), bitmap[r := true];
        logged := logged + {Bblock(sb, r)};
        blocks := blocks[r := ZeroBlock()];
        logged := logged + {r};
      }
    }

    /** The caller must own the block: freeing a free block panics. */
    method Bfree(b: int) returns (ok: bool)
      requires Encodes(bits, bitmap) && |bitmap| == sb.size && 0 <= b < sb.size
      modifies this`bits, this`bitmap, this`logged
      ensures Encodes(bits, bitmap)
      ensures ok == old(bitmap)[b]
      ensures ok ==> bitmap == old(bitmap)[b := false] && logged == old(logged) + {Bblock(sb, b)}
      ensures !ok ==> bitmap == old(bitmap) && logged == old(logged)
    {
      if !GetBit(bits, b) {
        return false;
      }
      forall c | 0 <= c < sb.size
        ensures GetBit(ClearBit(bits, b), c) <==> b != c && GetBit(bits, c)
      {
        SetBitAt(bits, b, c);
      }
      bits, bitmap := ClearBit(bits, b), bitmap[b := false];
      logged := logged + {Bblock(sb, b)};
      ok := true;
    }

    /** Fills an empty address in the inode, direct or that of the indirect block, with a new
        block. */
    method AllocAddr(i: int, k: int) returns (r: int)
      requires Sound() && 0 <= i < |inodes| && 0 <= k <= NDIRECT && Slot(State(), i, k) == 0
      modifies this`bits, this`bitmap, this`blocks, this`inodes, this`logged, this`owner
      ensures Sound() && -1 <= r < sb.size && r != 0
      ensures r == -1 ==>
                && State() == old(State()) && logged == old(logged) && owner == old(owner)
                && forall b :: 0 <= b < sb.size ==> bitmap[b]
      ensures r != -1 ==>
                && State() == SetAddr(Taken(old(State()), r), i, k, r) && owner == old(owner)[r := (i, k)]
                && SlotsKept(old(State()), State(), i, k) && Slot(State(), i, k) == r
                && BytesKept(old(State()), State())
                && logged == old(logged) + {Bblock(sb, r), r}
      ensures r == -1 <==> Free(old(bitmap)) == {}
      ensures Grew(sb, old(State()), old(logged), State(), logged, if r == -1 then 0 else 1)
    {
      hide Owned, BytesKept, SlotsKept, Grew;
      ghost var st := State();
      GrewNone(sb, st, logged, logged);
      r := Balloc();
      if r != -1 {
        AddrAllocated(sb, st, owner, i, k, r);
        GrewAddr(sb, st, old(logged), i, k, r);
        inodes := inodes[i := inodes[i].(addrs := inodes[i].addrs[k := r])];
        owner := owner[r := (i, k)];
        assert State() == SetAddr(Taken(st, r), i, k, r);
      }
    }

    /** Fills an empty entry of the indirect block with a new block, and logs the indirect block. */
    method AllocEntry(i: int, k: int) returns (r: int)
      requires Sound() && 0 <= i < |inodes| && NDIRECT < k < NSLOT && Slot(State(), i, k) == 0
      requires Slot(State(), i, NDIRECT) != 0
      modifies this`bits, this`bitmap, this`blocks, this`logged, this`owner
      ensures Sound() && -1 <= r < sb.size && r != 0
      ensures r == -1 ==>
                && State() == old(State()) && logged == old(logged) && owner == old(owner)
                && forall b :: 0 <= b < sb.size ==> bitmap[b]
      ensures r != -1 ==>
                && owner == old(owner)[r := (i, k)]
                && State() == Entered(old(State()), Slot(old(State()), i, NDIRECT), k, r)
                && SlotsKept(old(State()), State(), i, k) && Slot(State(), i, k) == r
                && BytesKept(old(State()), State())
                && logged == old(logged) + {Bblock(sb, r), r, Slot(old(State()), i, NDIRECT)}
      ensures r == -1 <==> Free(old(bitmap)) == {}
      ensures Grew(sb, old(State()), old(logged), State(), logged, if r == -1 then 0 else 1)
    {
      hide Owned, BytesKept, SlotsKept, Grew;
      ghost var st := State();
      GrewNone(sb, st, logged, logged);
      var ind := inodes[i].addrs[NDIRECT];
      assert Slot(st, i, NDIRECT) == ind;
      r := Balloc();
      if r != -1 {
        EntryAllocated(sb, st, owner, i, k, r);
        GrewEntry(sb, st, old(logged), i, ind, k, r);
        blocks := blocks[ind := PutWord(blocks[ind], k - NDIRECT - 1, r)];
        logged := logged + {ind};
        owner := owner[r := (i, k)];
        assert State() == Entered(st, ind, k, r);
      }
    }

    /** The indirect block of inode i, allocated if necessary. */
    method LoadIndirect(i: int) returns (ind: int)
      requires Sound() && 0 <= i < |inodes|
      modifies this`bits, this`bitmap, this`blocks, this`inodes, this`logged, this`owner
      ensures Sound() && -1 <= ind < sb.size && ind != 0
      ensures ind == -1 ==> forall b :: 0 <= b < sb.size ==> bitmap[b]
      ensures ind != -1 ==>
                && SlotsKept(old(State()), State(), i, NDIRECT) && Slot(State(), i, NDIRECT) == ind
                && BytesKept(old(State()), State())
                && inodes == old(inodes)[i := old(inodes[i]).(addrs := inodes[i].addrs)]
                && logged == old(logged) + if Slot(old(State()), i, NDIRECT) == 0 then {Bblock(sb, ind), ind} else {}
      ensures Slot(old(State()), i, NDIRECT) != 0 ==>
                ind != -1 && State() == old(State()) && logged == old(logged) && owner == old(owner)
      ensures ind == -1 <==> Slot(old(State()), i, NDIRECT) == 0 && Free(old(bitmap)) == {}
      ensures Grew(sb, old(State()), old(logged), State(), logged,
                   if ind != -1 && Slot(old(State()), i, NDIRECT) == 0 then 1 else 0)
    {
      hide Owned, Grew;
      GrewNone(sb, State(), logged, logged);
      ind := inodes[i].addrs[NDIRECT];
      assert Slot(State(), i, NDIRECT) == ind;
      if ind != 0 {
        SlotInRange(sb, State(), owner, i, NDIRECT);
      }
      if ind == 0 {
        ind := AllocAddr(i, NDIRECT);
      }
    }

    /** Entry k of the indirect block ind of inode i, allocated if necessary. */
    method MapEntry(i: int, k: int, ind: int) returns (addr: int)
      requires Sound() && 0 <= i < |inodes| && NDIRECT < k < NSLOT && Slot(State(), i, NDIRECT) == ind != 0
      modifies this`bits, this`bitmap, this`blocks, this`logged, this`owner
      ensures Sound() && -1 <= addr < sb.size && addr != 0
      ensures addr == -1 ==> forall b :: 0 <= b < sb.size ==> bitmap[b]
      ensures addr == -1 <==> Slot(old(State()), i, k) == 0 && Free(old(bitmap)) == {}
      ensures addr != -1 ==>
                && SlotsKept(old(State()), State(), i, k) && Slot(State(), i, k) == addr
                && BytesKept(old(State()), State())
                && Grew(sb, old(State()), old(logged), State(), logged, if Slot(old(State()), i, k) == 0 then 1 else 0)
                && logged == old(logged) + if Slot(old(State()), i, k) == 0 then {Bblock(sb, addr), addr, ind} else {}
      ensures Slot(old(State()), i, k) != 0 ==> State() == old(State()) && logged == old(logged) && owner == old(owner)
    {
      hide Owned, Shape, Grew;
      SlotInRange(sb, State(), owner, i, NDIRECT);
      GrewNone(sb, State(), logged, logged);
      addr := Word(blocks[ind], k - NDIRECT - 1);
      assert Slot(State(), i, k) == addr;
      if addr != 0 {
        SlotInRange(sb, State(), owner, i, k);
      } else {
        addr := AllocEntry(i, k);
      }
    }

    /** The block of the bn-th data block of inode i, allocating what is missing. */
    method Bmap(i: int, bn: int) returns (addr: int)
      requires Sound() && 0 <= i < |inodes| && 0 <= bn
      modifies this`bits, this`bitmap, this`blocks, this`inodes, this`logged, this`owner
      ensures Sound() && -1 <= addr < sb.size && addr != 0
      // panic: out of range, or out of blocks
      ensures addr == -1 ==> bn >= MAXFILE || forall b :: 0 <= b < sb.size ==> bitmap[b]
      ensures addr != -1 ==>
                && bn < MAXFILE && addr == Slot(State(), i, DataSlot(bn))
                && SlotsMapped(old(State()), State(), i, bn)
                && BytesKept(old(State()), State())
                && inodes == old(inodes)[i := old(inodes[i]).(addrs := inodes[i].addrs)]
      // a mapped block is only looked up
      ensures bn < MAXFILE && Slot(old(State()), i, DataSlot(bn)) != 0 ==>
                addr != -1 && State() == old(State()) && logged == old(logged) && owner == old(owner)
      ensures addr != -1 ==> MapLogs(sb, old(State()), State(), i, bn, addr, old(logged), logged)
      ensures bn < MAXFILE ==> (addr == -1 <==> |Free(old(bitmap))| < Needed(old(State()), i, bn))
      ensures addr != -1 ==> Grew(sb, old(State()), old(logged), State(), logged, Needed(old(State()), i, bn))
    {
      hide Owned, Grew;
      GrewNone(sb, State(), logged, logged);
      if bn < NDIRECT {
        addr := inodes[i].addrs[bn];
        assert Slot(State(), i, bn) == addr;
        if addr != 0 {
          SlotInRange(sb, State(), owner, i, bn);
        }
        if addr == 0 {
          addr := AllocAddr(i, bn);
        }
      } else if bn - NDIRECT < NINDIRECT {
        addr := BmapIndirect(i, bn);
      } else {
        addr := -1;
      }
    }

    method BmapIndirect(i: int, bn: int) returns (addr: int)
      requires Sound() && 0 <= i < |inodes| && NDIRECT <= bn < MAXFILE
      modifies this`bits, this`bitmap, this`blocks, this`inodes, this`logged, this`owner
      ensures Sound() && -1 <= addr < sb.size && addr != 0
      ensures addr == -1 ==> forall b :: 0 <= b < sb.size ==> bitmap[b]
      ensures addr != -1 ==>
                && addr == Slot(State(), i, DataSlot(bn))
                && SlotsMapped(old(State()), State(), i, bn)
                && BytesKept(old(State()), State())
                && inodes == old(inodes)[i := old(inodes[i]).(addrs := inodes[i].addrs)]
      ensures Slot(old(State()), i, DataSlot(bn)) != 0 ==>
                addr != -1 && State() == old(State()) && logged == old(logged) && owner == old(owner)
      ensures addr != -1 && Slot(old(State()), i, DataSlot(bn)) == 0 ==>
                var ind := Slot(State(), i, NDIRECT);
                logged == old(logged) + {Bblock(sb, addr), addr, ind}
                          + (if Slot(old(State()), i, NDIRECT) != 0 then {} else {Bblock(sb, ind), ind})
      ensures addr == -1 <==> |Free(old(bitmap))| < Needed(old(State()), i, bn)
      ensures addr != -1 ==> Grew(sb, old(State()), old(logged), State(), logged, Needed(old(State()), i, bn))
    {
      hide Owned, Shape, BytesKept, Grew, SlotsKept, SlotsMapped, Needed, Slot, Free, Encodes;
      ghost var st0, a0, n := State(), logged, if Slot(State(), i, NDIRECT) == 0 then 1 else 0;
      addr := LoadIndirect(i);
      if addr == -1 {
        NoFree(st0, i, bn);
      } else {
        ghost var st, a := State(), logged;
        NewIndirect(sb, st0, a0, st, a, n, i, bn);
        addr := MapEntry(i, bn + 1, addr);
        if addr != -1 {
          BytesKeptTrans(st0, st, State());
          NewEntry(st0, st, State(), i, bn);
          GrewMore(sb, st0, a0, st, a, n, State(), logged, if Slot(st, i, bn + 1) == 0 then 1 else 0);
        }
      }
    }

    method TruncDirect(i: int)
      requires Sound() && 0 <= i < |inodes|
      modifies this`bits, this`bitmap, this`inodes, this`logged
      ensures Encodes(bits, bitmap)
      ensures FreedTo(old(bitmap), bitmap, owner, i, NDIRECT, 0)
      ensures |inodes| == |old(inodes)| && |inodes[i].addrs| == NDIRECT + 1
      ensures inodes == old(inodes)[i := old(inodes[i]).(addrs := inodes[i].addrs)]
      ensures inodes[i].addrs[NDIRECT] == old(inodes[i].addrs[NDIRECT])
      ensures forall l :: 0 <= l < NDIRECT ==> inodes[i].addrs[l] == 0
      ensures logged == old(logged) + Cleared(sb, old(bitmap), bitmap)
    {
      hide Owned, Cleared, GetBit;
      ghost var st, a := State(), logged;
      FreedNone(sb, st, owner, i);
      var k := 0;
      while k < NDIRECT
        invariant 0 <= k <= NDIRECT && Encodes(bits, bitmap)
        invariant FreedTo(st.bitmap, bitmap, owner, i, k, 0)
        invariant |inodes| == |st.inodes| && |inodes[i].addrs| == NDIRECT + 1
        invariant inodes == st.inodes[i := st.inodes[i].(addrs := inodes[i].addrs)]
        invariant forall l :: 0 <= l < k ==> inodes[i].addrs[l] == 0
        invariant forall l :: k <= l <= NDIRECT ==> inodes[i].addrs[l] == st.inodes[i].addrs[l]
        invariant logged == a + Cleared(sb, st.bitmap, bitmap)
      {
        FreedNext(sb, st, bitmap, owner, i, k, 0, k);
        assert Slot(st, i, k) == inodes[i].addrs[k];
        if inodes[i].addrs[k] != 0 {
          ClearedOne(sb, st.bitmap, bitmap, inodes[i].addrs[k]);
          var ok := Bfree(inodes[i].addrs[k]);
          assert ok;  // never "freeing free block"
          inodes := inodes[i := inodes[i].(addrs := inodes[i].addrs[k := 0])];
        }
        k := k + 1;
      }
    }

    /** Frees the blocks of the indirect block's entries, then the indirect block. */
    method TruncIndirect(i: int, ghost st: St, ghost a0: set<int>)
      requires Encodes(bits, bitmap) && Shape(sb, st) && Owned(sb, st, owner) && 0 <= i < |inodes| == |st.inodes|
      requires blocks == st.blocks && FreedTo(st.bitmap, bitmap, owner, i, NDIRECT, 0)
      requires |inodes[i].addrs| == NDIRECT + 1 && inodes[i].addrs[NDIRECT] == st.inodes[i].addrs[NDIRECT] != 0
      requires logged == a0 + Cleared(sb, st.bitmap, bitmap)
      modifies this`bits, this`bitmap, this`inodes, this`logged
      ensures Encodes(bits, bitmap)
      ensures FreedTo(st.bitmap, bitmap, owner, i, NDIRECT + 1, NINDIRECT)
      ensures inodes == old(inodes)[i := old(inodes[i]).(addrs := old(inodes[i].addrs)[NDIRECT := 0])]
      ensures logged == a0 + Cleared(sb, st.bitmap, bitmap)
    {
      hide Owned, Cleared, GetBit;
      var ind := inodes[i].addrs[NDIRECT];
      assert Slot(st, i, NDIRECT) == ind;
      SlotInRange(sb, st, owner, i, NDIRECT);
      var a := blocks[ind];
      var j := 0;
      while j < NINDIRECT
        invariant 0 <= j <= NINDIRECT && Encodes(bits, bitmap) && inodes == old(inodes)
        invariant FreedTo(st.bitmap, bitmap, owner, i, NDIRECT, j)
        invariant logged == a0 + Cleared(sb, st.bitmap, bitmap)
      {
        FreedNext(sb, st, bitmap, owner, i, NDIRECT, j, NDIRECT + 1 + j);
        if Word(a, j) != 0 {
          ClearedOne(sb, st.bitmap, bitmap, Word(a, j));
          var ok := Bfree(Word(a, j));
          assert ok;
        }
        j := j + 1;
      }
      FreedNext(sb, st, bitmap, owner, i, NDIRECT, NINDIRECT, NDIRECT);
      ClearedOne(sb, st.bitmap, bitmap, ind);
      var ok := Bfree(ind);
      assert ok;
      inodes := inodes[i := inodes[i].(addrs := inodes[i].addrs[NDIRECT := 0])];
    }

    /** Frees exactly the blocks of inode i, each once: bfree never sees a free block. */
    method FreeBlocks(i: int)
      requires Sound() && 0 <= i < |inodes| == |dinodes|
      modifies this
      ensures Sound() && Truncated(old(State()), State(), old(owner), i)
      ensures owner == map b | b in old(owner) && old(owner)[b].0 != i :: old(owner)[b]
      ensures dinodes == old(dinodes)[i := inodes[i]]
      ensures logged == old(logged) + Cleared(sb, old(bitmap), bitmap) + {Iblock(sb, i)}
    {
      hide Owned, Cleared, GetBit;
      ghost var st, a := State(), logged;
      TruncDirect(i);
      if inodes[i].addrs[NDIRECT] != 0 {
        TruncIndirect(i, st, a);
      }
      inodes := inodes[i := inodes[i].(size := 0)];
      dinodes := dinodes[i := inodes[i]];
      logged := logged + {Iblock(sb, i)};
      assert inodes[i].addrs == seq(NDIRECT + 1, k => 0);
      AllFreed(sb, st, bitmap, owner, i);
      TruncateOwned(sb, st, State(), owner, i);
      owner := map b | b in owner && owner[b].0 != i :: owner[b];
    }

    /** Truncation: the file becomes empty, its blocks and no others become free, and no other
        file changes.  The bitmap blocks that cover the file's blocks are logged, each once, and
        the inode. */
    method Itrunc(i: int)
      requires Valid() && 0 <= i < |inodes|
      modifies this
      ensures Valid() && Truncated(old(State()), State(), old(owner), i)
      ensures forall b :: 0 <= b < sb.size ==>
                (bitmap[b] <==> old(bitmap)[b] && !exists k :: 0 <= k < NSLOT && Slot(old(State()), i, k) == b != 0)
      ensures inodes[i].size == 0
      ensures forall j :: 0 <= j < |inodes| && j != i ==> inodes[j] == old(inodes[j]) && Content(State(), j) == Content(old(State()), j)
      ensures logged == old(logged) + CoverBlocks(sb, old(State()), i) + {Iblock(sb, i)}
      ensures |Free(bitmap)| == |Free(old(bitmap))| + Blocks(old(inodes[i].size))
    {
      hide Owned, AllNoHoles, Cleared, CoverBlocks, Blocks;
      ghost var st, own := State(), owner;
      FreeBlocks(i);
      TruncateFiles(sb, st, State(), own, i);
      ClearedIsCover(sb, st, State().bitmap, own, i);
      FreedCount(sb, st, bitmap, own, i);
    }

    /** bmap then log_write, counted: see LogGrowth. */
    method MapForWrite(i: int, bn: int) returns (addr: int)
      requires Sound() && 0 <= i < |inodes| && 0 <= bn < MAXFILE
      modifies this`bits, this`bitmap, this`blocks, this`inodes, this`logged, this`owner
      ensures Sound() && -1 <= addr < sb.size && addr != 0
      ensures addr == -1 ==> forall b :: 0 <= b < sb.size ==> bitmap[b]
      ensures addr != -1 ==>
                && addr == Slot(State(), i, DataSlot(bn))
                && SlotsMapped(old(State()), State(), i, bn)
                && BytesKept(old(State()), State())
                && inodes == old(inodes)[i := old(inodes[i]).(addrs := inodes[i].addrs)]
                && (Slot(old(State()), i, DataSlot(bn)) != 0 ==> inodes == old(inodes))
                && |logged - IndBlocks(sb, State(), i)| <= |old(logged) - IndBlocks(sb, old(State()), i)|
                                        + (if Slot(old(State()), i, DataSlot(bn)) != 0 then 1 else 2)
                && addr in logged
      ensures addr == -1 <==> |Free(old(bitmap))| < Needed(old(State()), i, bn)
      ensures addr != -1 ==> Grew(sb, old(State()), old(logged), State(), logged, Needed(old(State()), i, bn))
    {
      hide Owned, Shape, BytesKept, Grew, SlotsMapped, MapLogs;
      addr := Bmap(i, bn);
      if addr != -1 {
        ghost var a := logged;
        GrewNone(sb, State(), a, a + {addr});
        GrewMore(sb, old(State()), old(logged), State(), a, Needed(old(State()), i, bn), State(), a + {addr}, 0);
        MapGrowth(sb, old(State()), State(), i, bn, addr, old(logged), logged);
        logged := logged + {addr};
      }
    }

    /** One turn of the loop in writei: map the block, copy the bytes in, log it. */
    method WriteBlock(i: int, off: int, bytes: seq<int>) returns (ok: bool)
      requires Sound() && 0 <= i < |inodes| && 0 <= off < MAXFILE * BSIZE && off % BSIZE + |bytes| <= BSIZE
      modifies this`bits, this`bitmap, this`blocks, this`inodes, this`logged, this`owner
      ensures Sound()
      ensures !ok ==> forall b :: 0 <= b < sb.size ==> bitmap[b]
      ensures ok ==>
                && SlotsMapped(old(State()), State(), i, off / BSIZE)
                && Wrote(old(State()), State(), i, off, bytes)
                && inodes == old(inodes)[i := old(inodes[i]).(addrs := inodes[i].addrs)]
                && (Slot(old(State()), i, DataSlot(off / BSIZE)) != 0 ==> inodes == old(inodes))
                && |logged - IndBlocks(sb, State(), i)| <= |old(logged) - IndBlocks(sb, old(State()), i)|
                                        + (if Slot(old(State()), i, DataSlot(off / BSIZE)) != 0 then 1 else 2)
      ensures !ok <==> |Free(old(bitmap))| < Needed(old(State()), i, off / BSIZE)
      ensures ok ==> Grew(sb, old(State()), old(logged), State(), logged, Needed(old(State()), i, off / BSIZE))
    {
      hide Owned, Shape, BytesKept, Grew, SlotsMapped, Wrote;
      var bn, o := off / BSIZE, off % BSIZE;
      ghost var n := Needed(State(), i, bn);
      var addr := MapForWrite(i, bn);
      if addr == -1 {
        return false;
      }
      CopyIn(sb, old(State()), old(logged), State(), logged, n, owner, i, off, bytes, addr);
      blocks := blocks[addr := Patch(blocks[addr], o, bytes)];
      ok := true;
    }

    /** Blocks logged so far, not counting the indirect block and its bitmap block. */
    ghost function Counted(i: int): int
      reads this
    {
      |logged - IndBlocks(sb, State(), i)|
    }

    /** One turn: as many bytes as fit in the block at off. */
    method WriteChunk(i: int, src: seq<int>, off0: int, off: int, tot: int, left: int, ghost st0: St)
        returns (ok: bool, m: int)
      requires Sound() && 0 <= i < |st0.inodes| && 0 <= off0 <= st0.inodes[i].size && off0 + |src| <= MAXFILE * BSIZE
      requires 0 <= tot < |src| && off == off0 + tot && left == |src| - tot && WriteInv(st0, State(), i, off0, src, tot)
      modifies this`bits, this`bitmap, this`blocks, this`inodes, this`logged, this`owner
      ensures Sound() && 0 < m <= left
      ensures !ok ==> forall b :: 0 <= b < sb.size ==> bitmap[b]
      ensures ok ==> WriteInv(st0, State(), i, off0, src, tot + m)
      ensures ok ==> Counted(i) + Cost(off + m, left - m) <= old(Counted(i)) + Cost(off, left)
      ensures var n := Growth(st0.inodes[i].size, off + m) - Growth(st0.inodes[i].size, off);
              && (!ok <==> |Free(old(bitmap))| < n)
              && (ok ==> Grew(sb, old(State()), old(logged), State(), logged, n))
    {
      hide Owned, Shape, Grew, Growth, SlotsMapped, Wrote;
      m := ChunkLen(off, left);
      CostTurn(off, left, m);
      ghost var st := State();
      NeededIsGrowth(st, i, st0.inodes[i].size, off, m);
      if off % BSIZE != 0 {
        UnalignedIsMapped(st, i, off, Max(st0.inodes[i].size, off));
      }
      ok := WriteBlock(i, off, src[tot..tot + m]);
      if ok {
        WriteTurn(st0, st, State(), i, off0, src, tot, m, off, off / BSIZE);
      }
    }

    /** Where the loop of writei stands: tot bytes are in, left are not. */
    ghost predicate Writing(i: int, src: seq<int>, off0: int, tot: int, left: int, st0: St, a0: set<int>, budget: int)
      reads this
    {
      && 0 <= i < |st0.inodes| && 0 <= off0 && 0 <= tot <= |src| && left == |src| - tot
      && Sound() && WriteInv(st0, State(), i, off0, src, tot)
      && Counted(i) + Cost(off0 + tot, left) <= budget
      && Grew(sb, st0, a0, State(), logged, Growth(st0.inodes[i].size, off0 + tot))
    }

    method WriteStep(i: int, src: seq<int>, off0: int, tot: int, left: int, ghost st0: St, ghost a0: set<int>, ghost budget: int)
        returns (ok: bool, tot': int)
      requires Writing(i, src, off0, tot, left, st0, a0, budget) && left > 0
      requires off0 <= st0.inodes[i].size && off0 + |src| <= MAXFILE * BSIZE
      modifies this`bits, this`bitmap, this`blocks, this`inodes, this`logged, this`owner
      ensures Sound() && tot < tot' <= |src|
      ensures if ok then Writing(i, src, off0, tot', |src| - tot', st0, a0, budget) else forall b :: 0 <= b < sb.size ==> bitmap[b]
      ensures !ok ==> |Free(st0.bitmap)| < Growth(st0.inodes[i].size, off0 + |src|)
    {
      hide Owned, Shape, WriteInv, Cost, Growth;
      ghost var st, a, n, size := State(), logged, Growth(st0.inodes[i].size, off0 + tot), st0.inodes[i].size;
      var m;
      ok, m := WriteChunk(i, src, off0, off0 + tot, tot, left, st0);
      tot' := tot + m;
      if ok {
        GrewMore(sb, st0, a0, st, a, n, State(), logged, Growth(size, off0 + tot') - n);
      } else {
        GrowthMono(size, off0 + tot', off0 + |src|);
      }
    }

    /** The loop of writei. */
    method WriteLoop(i: int, src: seq<int>, off0: int) returns (ok: bool)
      requires Valid() && 0 <= i < |inodes| && 0 <= off0 <= inodes[i].size && off0 + |src| <= MAXFILE * BSIZE
      modifies this`bits, this`bitmap, this`blocks, this`inodes, this`logged, this`owner
      ensures Sound()
      ensures !ok ==> forall b :: 0 <= b < sb.size ==> bitmap[b]
      ensures ok ==> WriteInv(old(State()), State(), i, off0, src, |src|)
      ensures ok ==> Counted(i) <= old(Counted(i)) + Cost(off0, |src|)
      ensures !ok <==> |Free(old(bitmap))| < Growth(old(inodes[i].size), off0 + |src|)
      ensures ok ==> Grew(sb, old(State()), old(logged), State(), logged, Growth(old(inodes[i].size), off0 + |src|))
    {
      hide Owned, WriteInv, AllNoHoles, Grew, Cost, Free;
      var tot := 0;
      ghost var st0, a0, budget := State(), logged, Counted(i) + Cost(off0, |src|);
      WriteInvNone(st0, i, off0, src);
      GrewNone(sb, st0, a0, a0);
      ok := true;
      while tot < |src| && ok
        invariant 0 <= tot <= |src| && Sound()
        invariant if ok then Writing(i, src, off0, tot, |src| - tot, st0, a0, budget) else forall b :: 0 <= b < sb.size ==> bitmap[b]
        invariant !ok ==> |Free(st0.bitmap)| < Growth(st0.inodes[i].size, off0 + |src|)
        decreases |src| - tot
      {
        ok, tot := WriteStep(i, src, off0, tot, |src| - tot, st0, a0, budget);
      }
      if ok {
        CostDone(off0 + |src|);
        GrewFrom(sb, st0, a0, State(), logged, Growth(st0.inodes[i].size, off0 + |src|));
      }
    }

    /** The end of writei: record a larger size, and only then write the inode to disk. */
    method GrowTo(i: int, n: int, end: int)
      requires 0 <= i < |inodes| == |dinodes|
      requires end > inodes[i].size ==> n > 0
      modifies this`inodes, this`dinodes, this`logged
      ensures inodes == old(inodes)[i := old(inodes[i]).(size := Max(old(inodes[i].size), end))]
      ensures dinodes == if end > old(inodes[i].size) then old(dinodes)[i := inodes[i]] else old(dinodes)
      ensures logged == old(logged) + if end > old(inodes[i].size) then {Iblock(sb, i)} else {}
    {
      if n > 0 && end > inodes[i].size {
        inodes := inodes[i := inodes[i].(size := end)];
        dinodes := dinodes[i := inodes[i]];
        logged := logged + {Iblock(sb, i)};
      }
    }

    /** The loop of writei, and what remains to be done after it. */
    method WriteBody(i: int, src: seq<int>, off: int) returns (ok: bool)
      requires Valid() && 0 <= i < |inodes| && 0 <= off <= inodes[i].size && off + |src| <= MAXFILE * BSIZE
      modifies this`bits, this`bitmap, this`blocks, this`inodes, this`logged, this`owner
      ensures !ok ==> |bitmap| == sb.size && forall b :: 0 <= b < sb.size ==> bitmap[b]
      ensures ok ==>
                && Encodes(bits, bitmap) && |inodes| == |old(inodes)|
                && Consistent(sb, Grown(State(), i, off + |src|), owner)
                && Spliced(old(State()), Grown(State(), i, off + |src|), i, off, src)
                && inodes == old(inodes)[i := old(inodes[i]).(addrs := inodes[i].addrs)]
                && (off + |src| <= old(inodes[i].size) ==> inodes == old(inodes))
                && |logged| <= |old(logged)| + Cost(off, |src|) + 2
      ensures !ok <==> |Free(old(bitmap))| < Growth(old(inodes[i].size), off + |src|)
      ensures ok ==> Grew(sb, old(State()), old(logged), State(), logged, Growth(old(inodes[i].size), off + |src|))
    {
      ghost var st0 := State();
      hide Owned, Grew, Growth;
      ok := WriteLoop(i, src, off);
      if ok {
        FinishWrite(sb, st0, State(), owner, i, off, src);
        CountAll(logged, IndBlocks(sb, State(), i), old(logged), IndBlocks(sb, st0, i));
      }
    }

    /** writei after its tests. */
    method WriteAccepted(i: int, src: seq<int>, off: int) returns (ok: bool)
      requires Valid() && 0 <= i < |inodes| && 0 <= off <= inodes[i].size && off + |src| <= MAXFILE * BSIZE
      modifies this
      ensures !ok ==> |bitmap| == sb.size && forall b :: 0 <= b < sb.size ==> bitmap[b]
      ensures ok ==> Valid() && Spliced(old(State()), State(), i, off, src)
      ensures ok ==> |logged| <= |old(logged)| + Budget(off, |src|)
      ensures !ok <==> |Free(old(bitmap))| < Growth(old(inodes[i].size), off + |src|)
      ensures ok ==> Recorded(sb, old(State()), old(logged), State(), logged, i, Max(old(inodes[i].size), off + |src|))
      ensures ok ==> SameMeta(old(State()), State(), i)
    {
      hide Owned, Shape, Grew, Growth, AllNoHoles, Spliced;
      ok := WriteBody(i, src, off);
      if ok {
        ghost var st, before := State(), logged;
        GrowTo(i, |src|, off + |src|);
        CardSubset(logged, before + {Iblock(sb, i)});
        assert State() == Grown(st, i, off + |src|);
        RecordGrown(sb, old(State()), old(logged), st, before, logged, i, off + |src|);
      }
    }

    /** Writes all of src or refuses; nothing else in any file changes; and the inode on disk
        is again the one in memory although iupdate runs only when the file grows.  It panics
        exactly when the blocks by which the file grows are not free. */
    method Writei(i: int, src: seq<int>, off: int) returns (r: Result)
      requires Valid() && 0 <= i < |inodes| && 0 <= off < U32 && |src| < U32
      modifies this
      ensures r == Refused <==> off > old(inodes[i].size) || off + |src| > MAXFILE * BSIZE
      ensures r == Refused ==> State() == old(State()) && dinodes == old(dinodes) && logged == old(logged) && Valid()
      ensures r == Panicked ==> |bitmap| == sb.size && forall b :: 0 <= b < sb.size ==> bitmap[b]
      ensures r == Panicked <==> r != Refused && |Free(old(bitmap))| < Growth(old(inodes[i].size), off + |src|)
      ensures r.Count? ==>
                && r.n == |src| && Valid() && Spliced(old(State()), State(), i, off, src)
                && |logged| <= |old(logged)| + Budget(off, |src|)
                && Recorded(sb, old(State()), old(logged), State(), logged, i, Max(old(inodes[i].size), off + |src|))
                && SameMeta(old(State()), State(), i)
    {
      hide Owned, Shape, Growth, AllNoHoles, Spliced, Recorded;
      var n := |src|;
      if off > inodes[i].size || (off + n) % U32 < off {
        return Refused;
      }
      if off + n > MAXFILE * BSIZE {
        return Refused;
      }
      var ok := WriteAccepted(i, src, off);
      r := if ok then Count(n) else Panicked;
    }

    /** One turn of the loop in readi. */
    method ReadBlock(i: int, off: int, m: int) returns (bytes: seq<int>)
      requires Valid() && 0 <= i < |inodes| && 0 <= off && 0 < m && off + m <= inodes[i].size && off % BSIZE + m <= BSIZE
      modifies this`bits, this`bitmap, this`blocks, this`inodes, this`logged, this`owner
      ensures Valid() && State() == old(State()) && logged == old(logged) && owner == old(owner)
      ensures bytes == Content(State(), i)[off..off + m]
    {
      hide Owned, AllNoHoles, Slot, Grew, MapLogs, SlotsMapped;
      ReadChunk(sb, State(), owner, i, off, m);
      var o := off % BSIZE;
      var addr := Bmap(i, off / BSIZE);
      bytes := blocks[addr][o..o + m];
    }

    /** Reads a slice of the file and changes nothing: bmap never has to allocate. */
    method Readi(i: int, off0: int, n0: int) returns (ok: bool, dst: seq<int>)
      requires Valid() && 0 <= i < |inodes| && 0 <= off0 < U32 && 0 <= n0 < U32
      modifies this`bits, this`bitmap, this`blocks, this`inodes, this`logged, this`owner
      ensures Valid() && State() == old(State()) && logged == old(logged) && owner == old(owner)
      ensures !ok <==> off0 > inodes[i].size || off0 + n0 >= U32
      ensures !ok ==> dst == []
      ensures ok ==> dst == Content(State(), i)[off0..Min(off0 + n0, inodes[i].size)]
    {
      if off0 > inodes[i].size || (off0 + n0) % U32 < off0 {
        return false, [];
      }
      dst := ReadLoop(i, off0, Min(off0 + n0, inodes[i].size));
      ok := true;
    }

    method ReadLoop(i: int, off0: int, end: int) returns (dst: seq<int>)
      requires Valid() && 0 <= i < |inodes| && 0 <= off0 <= end <= inodes[i].size
      modifies this`bits, this`bitmap, this`blocks, this`inodes, this`logged, this`owner
      ensures Valid() && State() == old(State()) && logged == old(logged) && owner == old(owner)
      ensures dst == Content(State(), i)[off0..end]
    {
      ghost var c := Content(State(), i);
      var off := off0;
      dst := [];
      while off < end
        invariant off0 <= off <= end
        invariant Valid() && State() == old(State()) && logged == old(logged) && owner == old(owner)
        invariant c == Content(State(), i) && dst == c[off0..off]
      {
        var m := ChunkLen(off, end - off);
        var bytes := ReadBlock(i, off, m);
        SliceJoin(c, off0, off, off + m);
        dst := dst + bytes;
        off := off + m;
      }
    }

    /** One begin_op .. end_op of filewrite: at most MAXOPBLOCKS blocks are logged. */
    method WriteOp(i: int, src: seq<int>, off: int) returns (r: Result)
      requires Valid() && 0 <= i < |inodes| && 0 <= off < U32 && |src| <= CHUNK
      modifies this
      ensures r == Refused <==> off > old(inodes[i].size) || off + |src| > MAXFILE * BSIZE
      ensures r == Refused ==> State() == old(State()) && Valid()
      ensures r.Count? ==> r.n == |src| && Valid() && Spliced(old(State()), State(), i, off, src) && SameMeta(old(State()), State(), i)
      ensures r != Panicked ==> |logged| <= MAXOPBLOCKS
      ensures r == Panicked <==> r != Refused && |Free(old(bitmap))| < Growth(old(inodes[i].size), off + |src|)
      ensures r.Count? ==> Recorded(sb, old(State()), {}, State(), logged, i, Max(old(inodes[i].size), off + |src|))
      ensures r.Count? ==> Operation(sb, old(State()), State(), logged)
    {
      hide Owned, Shape, Growth, AllNoHoles, Spliced, Recorded, Covers;
      logged := {};
      ChunkFits(off, |src|);
      ghost var st := State();
      r := Writei(i, src, off);
      if r.Count? {
        RecordedCovers(sb, st, {}, State(), logged, i, Max(st.inodes[i].size, off + |src|));
      }
    }

    /** An operation that truncates file i.  FsTight says when what it logs fits in its share of
        the log. */
    method TruncOp(i: int)
      requires Valid() && 0 <= i < |inodes|
      modifies this
      ensures Valid() && Truncated(old(State()), State(), old(owner), i)
      ensures logged == CoverBlocks(sb, old(State()), i) + {Iblock(sb, i)}
      ensures |logged| <= MAXOPBLOCKS ==> Operation(sb, old(State()), State(), logged)
    {
      hide Owned, AllNoHoles, Covers, CoverBlocks;
      logged := {};
      ghost var st, own := State(), owner;
      Itrunc(i);
      assert {} + CoverBlocks(sb, st, i) == CoverBlocks(sb, st, i);
      TruncatedCovers(sb, st, State(), own, i);
    }

    /** One turn of the loop in filewrite. */
    method WriteTurnOp(i: int, addr: seq<int>, done: int, n1: int, off0: int, ghost st0: St) returns (r: Result)
      requires Valid() && 0 <= i < |inodes| && 0 <= off0 && off0 + done < U32 && 0 <= done && 0 < n1 <= CHUNK && done + n1 <= |addr|
      requires Progress(st0, State(), i, off0, addr[..done])
      modifies this
      ensures r == Refused <==> off0 + done > old(inodes[i].size) || off0 + done + n1 > MAXFILE * BSIZE
      ensures r == Refused ==> inodes == old(inodes)
      ensures r.Count? ==> r.n == n1
      ensures r != Panicked ==> Valid() && |inodes| == |old(inodes)|
      ensures r != Panicked ==> Progress(st0, State(), i, off0, addr[..if r.Count? then done + n1 else done])
      ensures r != Panicked ==> |Free(bitmap)| + Blocks(inodes[i].size) == |Free(old(bitmap))| + Blocks(old(inodes[i].size))
      ensures r.Count? ==> inodes[i].size == Max(old(inodes[i].size), off0 + done + n1)
      ensures r == Panicked ==> r != Refused && |Free(old(bitmap))| < Growth(old(inodes[i].size), off0 + done + n1)
    {
      hide Sound, Recorded, Growth, Progress, Content;
      ghost var st := State();
      r := WriteOp(i, addr[done..done + n1], off0 + done);
      if r.Count? {
        ProgressMore(st0, st, State(), i, off0, addr, done, n1);
        RecordedSize(sb, st, {}, State(), logged, i, Max(st.inodes[i].size, off0 + done + n1));
        RecordedBalance(sb, st, {}, State(), logged, i, inodes[i].size);
      }
    }

    /** The whole write, or a prefix of whole chunks when the file cannot take the rest. */
    method Filewrite(writable: bool, i: int, addr: seq<int>, n: int, off0: int) returns (r: Result, done: int)
      requires Valid() && 0 <= i < |inodes| && 0 <= off0 < U32 && n <= |addr|
      modifies this
      ensures r != Panicked ==> 0 <= done <= |addr| && Valid() && Progress(old(State()), State(), i, off0, addr[..done])
      ensures r.Count? ==> r.n == n == done
      ensures r == Refused ==>
                || !writable || n < 0 || off0 + done > inodes[i].size
                || off0 + done + Min(n - done, CHUNK) > MAXFILE * BSIZE
      ensures r != Panicked ==> |Free(bitmap)| + Blocks(inodes[i].size) == |Free(old(bitmap))| + Blocks(old(inodes[i].size))
      ensures r == Panicked ==> |Free(old(bitmap))| < Growth(old(inodes[i].size), off0 + n)
      ensures !writable ==> r == Refused && done == 0
      // how far it gets, and when it panics
      ensures var size, a := old(inodes[i].size), Accepted(old(inodes[i].size), off0, n);
              writable ==>
                && (r == Panicked <==> |Free(old(bitmap))| < Blocks(FinalSize(size, off0, n)) - Blocks(size))
                && (r != Panicked ==> done == a && r == if a == n then Count(n) else Refused)
                && (r != Panicked ==> inodes[i].size == FinalSize(size, off0, n))
    {
      hide Sound, Shape, Owned, AllNoHoles, Progress, Growth, Accepted, Blocks;
      if !writable {
        assert addr[..0] == [];
        ProgressNone(State(), i, off0);
        return Refused, 0;
      }
      r, done := FileLoop(i, addr, n, off0);
      if r.Count? {
        r := if done == n then Count(n) else Refused;
      }
    }

    /** Where the loop of filewrite stands: done bytes are in, of file i that had size bytes and
        total blocks with the free ones. */
    ghost predicate Chunking(i: int, off0: int, n: int, done: int, r: Result, size: int, total: int)
      requires r != Panicked ==> 0 <= i < |inodes|
      reads this
    {
      && (off0 > size ==> done == 0)
      && (r != Panicked ==>
            && |Free(bitmap)| + Blocks(inodes[i].size) == total
            && inodes[i].size == if off0 > size then size else Max(size, off0 + done))
      && (r.Count? ==> done == n || done % CHUNK == 0)
      && (r == Refused ==> done == Accepted(size, off0, n))
      && (r == Panicked ==> off0 <= size && 0 < n && total < Blocks(FinalSize(size, off0, n)))
    }

    method FileLoop(i: int, addr: seq<int>, n: int, off0: int) returns (r: Result, done: int)
      requires Valid() && 0 <= i < |inodes| && 0 <= off0 < U32 && n <= |addr|
      modifies this
      ensures 0 <= done <= |addr| && (r.Count? ==> n <= done) && (0 <= n ==> done <= n) && (n < 0 ==> done == 0)
      ensures r != Panicked ==> Valid() && |inodes| == |old(inodes)| && Progress(old(State()), State(), i, off0, addr[..done])
      ensures r == Refused ==> off0 + done > inodes[i].size || off0 + done + Min(n - done, CHUNK) > MAXFILE * BSIZE
      ensures r != Panicked ==> |Free(bitmap)| + Blocks(inodes[i].size) == |Free(old(bitmap))| + Blocks(old(inodes[i].size))
      ensures r == Panicked ==> |Free(old(bitmap))| < Growth(old(inodes[i].size), off0 + n)
      ensures r == Refused ==> done < n
      ensures var size := old(inodes[i].size);
              && (r == Panicked <==> |Free(old(bitmap))| < Blocks(FinalSize(size, off0, n)) - Blocks(size))
              && (r != Panicked ==> done == Accepted(size, off0, n) && inodes[i].size == FinalSize(size, off0, n))
    {
      hide Sound, Shape, Owned, AllNoHoles, Progress, Growth, Blocks, Accepted, FinalSize;
      ghost var st0, total, size := State(), |Free(bitmap)| + Blocks(inodes[i].size), inodes[i].size;
      done, r := 0, Count(0);
      assert addr[..0] == [];
      ProgressNone(st0, i, off0);
      while done < n && r.Count?
        invariant 0 <= done <= |addr| && (if n < 0 then done == 0 else done <= n)
        invariant done > 0 ==> off0 + done <= MAXFILE * BSIZE
        invariant r != Panicked ==> Valid() && |inodes| == |st0.inodes| && Progress(st0, State(), i, off0, addr[..done])
        invariant r == Refused ==> off0 + done > inodes[i].size || off0 + done + Min(n - done, CHUNK) > MAXFILE * BSIZE
        invariant Chunking(i, off0, n, done, r, size, total) && (r == Refused ==> done < n)
        decreases n - done, if r.Count? then 1 else 0
      {
        r, done := FileTurn(i, addr, n, off0, done, size, total, st0);
      }
      FileEnds(|Free(st0.bitmap)|, if r == Panicked then 0 else |Free(bitmap)|, size, off0, n, done, r);
    }

    /** One turn, with the choice of the chunk. */
    method FileTurn(i: int, addr: seq<int>, n: int, off0: int, done0: int, ghost size: int, ghost total: int, ghost st0: St)
        returns (r: Result, done: int)
      requires Valid() && 0 <= i < |inodes| && 0 <= off0 < U32 && 0 <= done0 < n <= |addr|
      requires (done0 > 0 ==> off0 + done0 <= MAXFILE * BSIZE) && Progress(st0, State(), i, off0, addr[..done0])
      requires Chunking(i, off0, n, done0, Count(0), size, total)
      modifies this
      ensures done0 <= done <= n && (r.Count? ==> done0 < done) && (done > 0 ==> off0 + done <= MAXFILE * BSIZE)
      ensures r != Panicked ==> Valid() && |inodes| == |old(inodes)| && Progress(st0, State(), i, off0, addr[..done])
      ensures r == Refused ==> off0 + done > inodes[i].size || off0 + done + Min(n - done, CHUNK) > MAXFILE * BSIZE
      ensures Chunking(i, off0, n, done, r, size, total) && (r == Refused ==> done < n)
    {
      hide Sound, Shape, Owned, AllNoHoles, Progress, Growth, Blocks, Accepted, FinalSize;
      var n1 := Min(n - done0, CHUNK);
      done := done0;
      ghost var free, was := |Free(bitmap)|, inodes[i].size;
      SizeBound(sb, State(), owner, i);
      r := WriteTurnOp(i, addr, done, n1, off0, st0);
      if off0 > size {
        AcceptedNone(size, off0, n);
      } else if off0 + done + n1 > MAXFILE * BSIZE {
        ChunkRefused(size, off0, n, done, n1);
      } else {
        ChunkAccepted(size, off0, n, done, n1);
        if r == Panicked {
          ShortChunk(total, free, size, was, off0, n, done + n1);
        }
      }
      if r.Count? {
        done := done + n1;
      }
    }
  }
}
