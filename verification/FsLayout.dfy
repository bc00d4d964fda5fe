/** Values of the inode layer: blocks, inodes, the slots that hold block addresses, and the
    invariant that ties the free bitmap to the blocks that inodes own. */
module FsLayout {
  import opened Common
  import opened DiskBlock

  const NDIRECT: int := 12
  const NINDIRECT: int := BLOCKWORDS
  const MAXFILE: int := NDIRECT + NINDIRECT
  const BPB: int := BSIZE * 8
  const IPB: int := 8
  const NSLOT: int := NDIRECT + 1 + NINDIRECT

  /** sb.size blocks; those below nmeta hold the boot block, the superblock, the log, the
      inode blocks and the bitmap. */
  datatype Super = Super(size: int, nmeta: int, inodestart: int, bmapstart: int)

  datatype Inode = Inode(itype: int, major: int, minor: int, nlink: int, size: int, addrs: seq<int>)

  datatype St = St(bitmap: seq<bool>, blocks: seq<Bytes>, inodes: seq<Inode>)

  function Addr(st: St, i: int, k: int): int {
    if 0 <= i < |st.inodes| && 0 <= k < |st.inodes[i].addrs| then st.inodes[i].addrs[k] else 0
  }

  function BlockAt(st: St, b: int): Bytes {
    if 0 <= b < |st.blocks| then st.blocks[b] else []
  }

  /** Every place where inode i can hold a block address: the direct addresses, the address
      of the indirect block (slot NDIRECT), then the entries of the indirect block. */
  function Slot(st: St, i: int, k: int): int {
    if k <= NDIRECT then Addr(st, i, k)
    else if Addr(st, i, NDIRECT) != 0 then Word(BlockAt(st, Addr(st, i, NDIRECT)), k - NDIRECT - 1)
    else 0
  }

  predicate ValidSlot(st: St, i: int, k: int) {
    0 <= i < |st.inodes| && 0 <= k < NSLOT
  }

  /** The slot of the bn-th data block of a file. */
  function DataSlot(bn: int): (k: int)
    ensures 0 <= bn < MAXFILE ==> 0 <= k < NSLOT && k != NDIRECT
  {
    if bn < NDIRECT then bn else bn + 1
  }

  ghost predicate Shape(sb: Super, st: St) {
    && 1 <= sb.nmeta <= sb.size < U32
    && |st.bitmap| == sb.size
    && |st.blocks| == sb.size
    && (forall b :: 0 <= b < sb.size ==> |st.blocks[b]| == BSIZE)
    && (forall i :: 0 <= i < |st.inodes| ==> |st.inodes[i].addrs| == NDIRECT + 1)
  }

  type Owner = map<int, (int, int)>

  /** owner names, for every block in use by a file, the one slot that refers to it. */
  ghost predicate Owned(sb: Super, st: St, owner: Owner)
    requires |st.bitmap| == sb.size
  {
    && (forall i, k :: ValidSlot(st, i, k) && Slot(st, i, k) != 0 ==>
          Slot(st, i, k) in owner && owner[Slot(st, i, k)] == (i, k))
    && (forall b :: b in owner ==>
          && sb.nmeta <= b < sb.size
          && ValidSlot(st, owner[b].0, owner[b].1)
          && Slot(st, owner[b].0, owner[b].1) == b)
    && (forall b :: 0 <= b < sb.size ==> (st.bitmap[b] <==> b < sb.nmeta || b in owner))
  }

  /** Some slot of some inode refers to block b. */
  ghost predicate Held(st: St, b: int) {
    exists i, k :: ValidSlot(st, i, k) && Slot(st, i, k) == b
  }

  /** The bitmap is the metadata blocks plus a disjoint union of the blocks of all inodes,
      data blocks, indirect blocks and indirect entries alike. */
  lemma OwnershipPartition(sb: Super, st: St, owner: Owner)
    requires Shape(sb, st) && Owned(sb, st, owner)
    ensures forall b :: 0 < b < sb.size ==> (st.bitmap[b] <==> b < sb.nmeta || Held(st, b))
    ensures forall i, k, j, l :: ValidSlot(st, i, k) && ValidSlot(st, j, l) && Slot(st, i, k) == Slot(st, j, l) != 0 ==>
              i == j && k == l
    ensures forall i, k :: ValidSlot(st, i, k) && Slot(st, i, k) != 0 ==>
              sb.nmeta <= Slot(st, i, k) < sb.size && st.bitmap[Slot(st, i, k)]
  {
  }

  lemma SlotInRange(sb: Super, st: St, owner: Owner, i: int, k: int)
    requires Shape(sb, st) && Owned(sb, st, owner) && ValidSlot(st, i, k) && Slot(st, i, k) != 0
    ensures 0 < sb.nmeta <= Slot(st, i, k) < sb.size == |st.blocks| && |st.blocks[Slot(st, i, k)]| == BSIZE
    ensures Slot(st, i, k) in owner && owner[Slot(st, i, k)] == (i, k)
  {
  }

  /** The state with block r taken from the free map, zeroed, and nothing else. */
  function Taken(st: St, r: int): St
    requires 0 <= r < |st.bitmap| && r < |st.blocks|
  {
    st.(bitmap := st.bitmap[r := true], blocks := st.blocks[r := ZeroBlock()])
  }

  function SetAddr(st: St, i: int, k: int, r: int): St
    requires 0 <= i < |st.inodes| && 0 <= k < |st.inodes[i].addrs|
  {
    st.(inodes := st.inodes[i := st.inodes[i].(addrs := st.inodes[i].addrs[k := r])])
  }

  /** A free block r that has become slot (i, k), and nothing else, has become owned. */
  lemma OwnedTaken(sb: Super, st: St, st': St, owner: Owner, i: int, k: int, r: int)
    requires Shape(sb, st) && Owned(sb, st, owner) && ValidSlot(st, i, k) && Slot(st, i, k) == 0
    requires 0 <= r < sb.size && !st.bitmap[r]
    requires st'.bitmap == st.bitmap[r := true] && |st'.inodes| == |st.inodes| && Slot(st', i, k) == r
    requires forall j, l :: ValidSlot(st, j, l) && (j, l) != (i, k) ==> Slot(st', j, l) == Slot(st, j, l)
    ensures Owned(sb, st', owner[r := (i, k)])
  {
    hide Slot;
  }

  lemma TakeForInode(sb: Super, st: St, owner: Owner, i: int, k: int, r: int)
    requires Shape(sb, st) && Owned(sb, st, owner)
    requires 0 <= i < |st.inodes| && 0 <= k <= NDIRECT && Slot(st, i, k) == 0
    requires 0 <= r < sb.size && !st.bitmap[r]
    ensures var st' := SetAddr(Taken(st, r), i, k, r);
            && Shape(sb, st') && Owned(sb, st', owner[r := (i, k)])
            && Slot(st', i, k) == r
            && forall j, l :: ValidSlot(st, j, l) && (j, l) != (i, k) ==> Slot(st', j, l) == Slot(st, j, l)
  {
    var st' := SetAddr(Taken(st, r), i, k, r);
    forall j, l | ValidSlot(st, j, l) && (j, l) != (i, k)
      ensures Slot(st', j, l) == Slot(st, j, l)
    {
      assert Slot(st, j, NDIRECT) == Addr(st, j, NDIRECT);
      ZeroWord(l - NDIRECT - 1);
    }
    hide Slot, Owned;
    OwnedTaken(sb, st, st', owner, i, k, r);
  }

  function SetBlock(st: St, b: int, v: Bytes): St
    requires 0 <= b < |st.blocks|
  {
    st.(blocks := st.blocks[b := v])
  }

  /** The state after block r has been taken and entered in the indirect block ind as slot k. */
  function Entered(st: St, ind: int, k: int, r: int): St
    requires 0 <= r < |st.bitmap| && r < |st.blocks| && r < U32
    requires 0 <= ind < |st.blocks| && |st.blocks[ind]| == BSIZE && NDIRECT < k < NSLOT
  {
    SetBlock(Taken(st, r), ind, PutWord(st.blocks[ind], k - NDIRECT - 1, r))
  }

  lemma OwnedInUse(sb: Super, st: St, owner: Owner, b: int)
    requires Shape(sb, st) && Owned(sb, st, owner) && b in owner
    ensures 0 <= b < sb.size && st.bitmap[b]
  {
  }

  lemma TakeForEntry(sb: Super, st: St, owner: Owner, i: int, k: int, r: int)
    requires Shape(sb, st) && Owned(sb, st, owner)
    requires 0 <= i < |st.inodes| && NDIRECT < k < NSLOT && Slot(st, i, k) == 0 && Addr(st, i, NDIRECT) != 0
    requires 0 <= r < sb.size && !st.bitmap[r]
    ensures sb.nmeta <= Addr(st, i, NDIRECT) < sb.size && r != Addr(st, i, NDIRECT)
    ensures var ind := Addr(st, i, NDIRECT);
            var st' := Entered(st, ind, k, r);
            && Shape(sb, st') && Owned(sb, st', owner[r := (i, k)])
            && Slot(st', i, k) == r
            && forall j, l :: ValidSlot(st, j, l) && (j, l) != (i, k) ==> Slot(st', j, l) == Slot(st, j, l)
  {
    hide Owned;
    var ind := Addr(st, i, NDIRECT);
    assert Slot(st, i, NDIRECT) == ind;
    SlotInRange(sb, st, owner, i, NDIRECT);
    OwnedInUse(sb, st, owner, ind);
    PutWordAt(st.blocks[ind], k - NDIRECT - 1, r);
    var st' := Entered(st, ind, k, r);
    forall j, l | ValidSlot(st, j, l) && (j, l) != (i, k)
      ensures Slot(st', j, l) == Slot(st, j, l)
    {
      assert Slot(st, j, NDIRECT) == Addr(st, j, NDIRECT);
      if Slot(st, j, NDIRECT) != 0 {
        SlotInRange(sb, st, owner, j, NDIRECT);
        OwnedInUse(sb, st, owner, Slot(st, j, NDIRECT));
      }
    }
    OwnedTaken(sb, st, st', owner, i, k, r);
  }

  /** Rewriting a data block moves no slot. */
  lemma WriteData(sb: Super, st: St, owner: Owner, b: int, v: Bytes)
    requires Shape(sb, st) && Owned(sb, st, owner) && b in owner && owner[b].1 != NDIRECT && |v| == BSIZE
    ensures Shape(sb, SetBlock(st, b, v)) && Owned(sb, SetBlock(st, b, v), owner)
    ensures forall j, l :: ValidSlot(st, j, l) ==> Slot(SetBlock(st, b, v), j, l) == Slot(st, j, l)
  {
    forall j, l | ValidSlot(st, j, l)
      ensures Slot(SetBlock(st, b, v), j, l) == Slot(st, j, l)
    {
      assert Slot(st, j, NDIRECT) == Addr(st, j, NDIRECT);
    }
  }

  /** Inode i with no blocks and size 0; the bitmap without the blocks it had. */
  ghost predicate Truncated(st: St, st': St, owner: Owner, i: int)
    requires 0 <= i < |st.inodes|
  {
    && |st'.bitmap| == |st.bitmap|
    && st'.blocks == st.blocks
    && st'.inodes == st.inodes[i := st.inodes[i].(addrs := seq(NDIRECT + 1, k => 0), size := 0)]
    && forall b :: 0 <= b < |st.bitmap| ==> (st'.bitmap[b] <==> st.bitmap[b] && !(b in owner && owner[b].0 == i))
  }

  lemma TruncateOwned(sb: Super, st: St, st': St, owner: Owner, i: int)
    requires Shape(sb, st) && Owned(sb, st, owner) && 0 <= i < |st.inodes| && Truncated(st, st', owner, i)
    ensures var owner' := map b | b in owner && owner[b].0 != i :: owner[b];
            Shape(sb, st') && Owned(sb, st', owner')
    ensures forall j, l :: ValidSlot(st, j, l) && j != i ==> Slot(st', j, l) == Slot(st, j, l)
    ensures forall l :: 0 <= l < NSLOT ==> Slot(st', i, l) == 0
  {
    var owner' := map b | b in owner && owner[b].0 != i :: owner[b];
    assert forall k :: Addr(st', i, k) == 0;
    forall j, l | ValidSlot(st, j, l) && j != i
      ensures Slot(st', j, l) == Slot(st, j, l)
    {
      assert Addr(st', j, NDIRECT) == Addr(st, j, NDIRECT);
    }
  }

  // ------------------------------------------------------------------- contents

  /** A file of len bytes has exactly the blocks that its bytes need. */
  ghost predicate NoHoles(st: St, i: int, len: int) {
    && 0 <= len <= MAXFILE * BSIZE
    && (forall bn :: 0 <= bn < MAXFILE ==> (Slot(st, i, DataSlot(bn)) != 0 <==> bn * BSIZE < len))
    && (Slot(st, i, NDIRECT) != 0 <==> NDIRECT * BSIZE < len)
  }

  /** Byte off of file i. */
  function ByteAt(st: St, i: int, off: int): int {
    var b := BlockAt(st, Slot(st, i, DataSlot(off / BSIZE)));
    if off % BSIZE < |b| then b[off % BSIZE] else 0
  }

  ghost predicate AllNoHoles(st: St) {
    forall i :: 0 <= i < |st.inodes| ==> NoHoles(st, i, st.inodes[i].size)
  }

  ghost predicate Consistent(sb: Super, st: St, owner: Owner) {
    Shape(sb, st) && Owned(sb, st, owner) && AllNoHoles(st)
  }

  ghost predicate ConsistentFs(sb: Super, st: St) {
    exists owner :: Consistent(sb, st, owner)
  }

  /** The bytes of file i. */
  function Content(st: St, i: int): (c: seq<int>)
    requires 0 <= i < |st.inodes| && st.inodes[i].size >= 0
  {
    seq(st.inodes[i].size, off => ByteAt(st, i, off))
  }

  // --------------------------------------------------------------- writing bytes

  function Patch(b: Bytes, o: int, bytes: seq<int>): (r: Bytes)
    requires 0 <= o && o + |bytes| <= |b|
  {
    b[..o] + bytes + b[o + |bytes|..]
  }

  ghost predicate Mapped(st: St, j: int, off: int) {
    0 <= j < |st.inodes| && 0 <= off < MAXFILE * BSIZE && Slot(st, j, DataSlot(off / BSIZE)) != 0
  }

  /** Every byte that had a block still has it and its value. */
  ghost predicate BytesKept(st: St, st': St) {
    forall j, off :: Mapped(st, j, off) ==> Mapped(st', j, off) && ByteAt(st', j, off) == ByteAt(st, j, off)
  }

  /** Like BytesKept, except that bytes off0.. of file i are now data. */
  ghost predicate Wrote(st: St, st': St, i: int, off0: int, data: seq<int>) {
    && (forall j, off :: Mapped(st, j, off) && !(j == i && off0 <= off < off0 + |data|) ==>
          Mapped(st', j, off) && ByteAt(st', j, off) == ByteAt(st, j, off))
    && (forall off :: off0 <= off < off0 + |data| ==>
          Mapped(st', i, off) && ByteAt(st', i, off) == data[off - off0])
  }

  lemma PatchByte(st: St, i: int, off0: int, bytes: seq<int>, b: int, j: int, off: int)
    requires 0 <= off0 < MAXFILE * BSIZE && off0 % BSIZE + |bytes| <= BSIZE
    requires 0 <= b < |st.blocks| && |st.blocks[b]| == BSIZE && Mapped(st, j, off)
    requires var l := DataSlot(off / BSIZE);
             && Slot(SetBlock(st, b, Patch(st.blocks[b], off0 % BSIZE, bytes)), j, l) == Slot(st, j, l)
             && (Slot(st, j, l) == b <==> j == i && off / BSIZE == off0 / BSIZE)
    ensures var st' := SetBlock(st, b, Patch(st.blocks[b], off0 % BSIZE, bytes));
            && Mapped(st', j, off)
            && ByteAt(st', j, off) == if j == i && off0 <= off < off0 + |bytes| then bytes[off - off0] else ByteAt(st, j, off)
  {
  }

  lemma PatchBytes(sb: Super, st: St, owner: Owner, i: int, off0: int, bytes: seq<int>, b: int)
    requires Shape(sb, st) && Owned(sb, st, owner) && 0 <= i < |st.inodes|
    requires 0 <= off0 < MAXFILE * BSIZE && off0 % BSIZE + |bytes| <= BSIZE
    requires b == Slot(st, i, DataSlot(off0 / BSIZE)) && 0 < b < |st.blocks| && |st.blocks[b]| == BSIZE
    requires forall j, l :: ValidSlot(st, j, l) ==>
               Slot(SetBlock(st, b, Patch(st.blocks[b], off0 % BSIZE, bytes)), j, l) == Slot(st, j, l)
    ensures Wrote(st, SetBlock(st, b, Patch(st.blocks[b], off0 % BSIZE, bytes)), i, off0, bytes)
  {
    var st' := SetBlock(st, b, Patch(st.blocks[b], off0 % BSIZE, bytes));
    forall j, off | Mapped(st, j, off)
      ensures Mapped(st', j, off)
      ensures ByteAt(st', j, off) == if j == i && off0 <= off < off0 + |bytes| then bytes[off - off0] else ByteAt(st, j, off)
    {
      assert ValidSlot(st, j, DataSlot(off / BSIZE)) && ValidSlot(st, i, DataSlot(off0 / BSIZE));
      PatchByte(st, i, off0, bytes, b, j, off);
    }
    forall off | off0 <= off < off0 + |bytes|
      ensures Mapped(st, i, off)
    {
      assert off / BSIZE == off0 / BSIZE;
    }
  }

  /** Patching one data block writes exactly those bytes of that file. */
  lemma PatchWrites(sb: Super, st: St, owner: Owner, i: int, off: int, bytes: seq<int>, b: int)
    requires Shape(sb, st) && Owned(sb, st, owner) && 0 <= i < |st.inodes|
    requires 0 <= off < MAXFILE * BSIZE && off % BSIZE + |bytes| <= BSIZE
    requires b == Slot(st, i, DataSlot(off / BSIZE)) != 0
    ensures 0 < b < |st.blocks| && |st.blocks[b]| == BSIZE
    ensures var st' := SetBlock(st, b, Patch(st.blocks[b], off % BSIZE, bytes));
            && Shape(sb, st') && Owned(sb, st', owner)
            && (forall j, l :: ValidSlot(st, j, l) ==> Slot(st', j, l) == Slot(st, j, l))
            && Wrote(st, st', i, off, bytes)
  {
    hide Wrote;
    SlotInRange(sb, st, owner, i, DataSlot(off / BSIZE));
    WriteData(sb, st, owner, b, Patch(st.blocks[b], off % BSIZE, bytes));
    PatchBytes(sb, st, owner, i, off, bytes, b);
  }
}
