/** How much of the log one operation can use: states in which a chunk of filewrite fills its
    share, and in which truncating one file does not fit. */
module FsTight {
  import opened Common
  import opened DiskBlock
  import opened Param
  import opened FsBits
  import opened FsLayout
  import opened FsUsage
  import opened FileSystem

  /** Where mkfs puts the log, the inode blocks and the bitmap. */
  function Mkfs(size: int, ninodes: int, nlog: int): Super {
    var ninodeblocks, nbitmap := ninodes / IPB + 1, size / BPB + 1;
    Super(size, 2 + nlog + ninodeblocks + nbitmap, 2 + nlog, 2 + nlog + ninodeblocks)
  }

  method PackBits(bitmap: seq<bool>) returns (bits: seq<bv8>)
    ensures Encodes(bits, bitmap)
  {
    bits := seq(|bitmap| / 8 + 1, i => 0);
    var b := 0;
    while b < |bitmap|
      invariant 0 <= b <= |bitmap| && |bits| == |bitmap| / 8 + 1
      invariant forall c :: 0 <= c < |bitmap| ==> (GetBit(bits, c) <==> c < b && bitmap[c])
    {
      if bitmap[b] {
        forall c | 0 <= c < |bitmap|
          ensures GetBit(SetBit(bits, b), c) <==> b == c || GetBit(bits, c)
        {
          SetBitAt(bits, b, c);
        }
        bits := SetBit(bits, b);
      }
      b := b + 1;
    }
  }

  function Empty(): Inode {
    Inode(0, 0, 0, 0, 0, seq(NDIRECT + 1, k => 0))
  }

  // ------------------------------------------------------------ a full share of the log

  const NINODES := 32464
  const SB := Mkfs(12289, NINODES, 30)

  /** Four blocks are free, and each is covered by another bitmap block. */
  predicate IsFree(b: int) {
    b == 4095 || b == 4096 || b == 8192 || b == 12288
  }

  /** File 0 has its direct blocks, lacking one byte; each of the next inodes one block. */
  function SlotOf(i: int, k: int): int {
    if i == 0 && 0 <= k < NDIRECT then 4097 + k
    else if 0 < i < 4084 && k == 0 then 4108 + i
    else if 4084 <= i <= 8178 && k == 0 then 4109 + i
    else 0
  }

  function InodeOf(i: int): Inode {
    Empty().(size := if i == 0 then NDIRECT * BSIZE - 1 else if 0 < i <= 8178 then 1 else 0,
             addrs := seq(NDIRECT + 1, k => SlotOf(i, k)))
  }

  function Full(): St {
    St(seq(SB.size, b => !IsFree(b)), seq(SB.size, b => ZeroBlock()), seq(NINODES, i => InodeOf(i)))
  }

  predicate IsHeld(b: int) {
    4097 <= b < 12288 && b != 8192
  }

  function OwnerOf(b: int): (int, int) {
    if b <= 4108 then (0, b - 4097) else if b < 8192 then (b - 4108, 0) else (b - 4109, 0)
  }

  function FullOwner(): Owner {
    map b | 0 <= b < SB.size && IsHeld(b) :: OwnerOf(b)
  }

  lemma FullSlot(i: int, k: int)
    requires 0 <= i < NINODES && 0 <= k
    ensures Slot(Full(), i, k) == SlotOf(i, k)
  {
    assert Addr(Full(), i, NDIRECT) == 0;
  }

  lemma SlotHeld(i: int, k: int)
    requires 0 <= i < NINODES && 0 <= k < NSLOT && SlotOf(i, k) != 0
    ensures IsHeld(SlotOf(i, k)) && OwnerOf(SlotOf(i, k)) == (i, k)
  {
  }

  lemma HeldSlot(b: int)
    requires IsHeld(b)
    ensures var (i, k) := OwnerOf(b); 0 <= i < NINODES && 0 <= k < NSLOT && SlotOf(i, k) == b
  {
  }

  lemma FullShape()
    ensures Shape(SB, Full())
  {
  }

  lemma FullOwned()
    ensures Shape(SB, Full()) && Owned(SB, Full(), FullOwner())
  {
    hide Slot, SlotOf, OwnerOf, Shape;
    FullShape();
    forall i, k | ValidSlot(Full(), i, k) && Slot(Full(), i, k) != 0
      ensures Slot(Full(), i, k) in FullOwner() && FullOwner()[Slot(Full(), i, k)] == (i, k)
    {
      FullSlot(i, k);
      SlotHeld(i, k);
    }
    forall b | b in FullOwner()
      ensures ValidSlot(Full(), FullOwner()[b].0, FullOwner()[b].1)
      ensures Slot(Full(), FullOwner()[b].0, FullOwner()[b].1) == b
    {
      HeldSlot(b);
      FullSlot(OwnerOf(b).0, OwnerOf(b).1);
    }
  }

  lemma FullNoHoles(i: int)
    requires 0 <= i < NINODES
    ensures NoHoles(Full(), i, InodeOf(i).size)
  {
    FullSlot(i, NDIRECT);
    forall bn | 0 <= bn < MAXFILE
      ensures Slot(Full(), i, DataSlot(bn)) == SlotOf(i, DataSlot(bn))
    {
      FullSlot(i, DataSlot(bn));
    }
  }

  lemma FullConsistent()
    ensures Consistent(SB, Full(), FullOwner())
  {
    hide NoHoles, InodeOf, SlotOf, Slot;
    FullOwned();
    forall i | 0 <= i < |Full().inodes|
      ensures NoHoles(Full(), i, Full().inodes[i].size)
    {
      FullNoHoles(i);
    }
  }

  lemma FullFree()
    ensures |Free(Full().bitmap)| == 4
  {
    assert Free(Full().bitmap) == {4095, 4096, 8192, 12288};
  }

  lemma HeldStays(st: St, a: set<int>, n: int)
    requires Grew(SB, Full(), {}, st, a, n)
    ensures forall b :: IsHeld(b) ==> Slot(st, OwnerOf(b).0, OwnerOf(b).1) == b
  {
    hide Slot, SlotOf, OwnerOf;
    forall b | IsHeld(b)
      ensures Slot(st, OwnerOf(b).0, OwnerOf(b).1) == b
    {
      HeldSlot(b);
      FullSlot(OwnerOf(b).0, OwnerOf(b).1);
    }
  }

  /** Slot k of file 0 was empty; the block in it now was one of the free ones, so the bitmap
      block that covers it is logged. */
  lemma NewIsFree(st: St, owner: Owner, a: set<int>, n: int, k: int)
    requires Shape(SB, st) && Owned(SB, st, owner) && Grew(SB, Full(), {}, st, a, n)
    requires NDIRECT <= k < NSLOT && Slot(st, 0, k) != 0
    ensures IsFree(Slot(st, 0, k)) && Bblock(SB, Slot(st, 0, k)) in a
  {
    hide Slot;
    var b := Slot(st, 0, k);
    SlotInRange(SB, st, owner, 0, k);
    HeldStays(st, a, n);
    assert IsHeld(b) ==> ValidSlot(st, OwnerOf(b).0, OwnerOf(b).1);
    assert !IsHeld(b);
  }

  /** A block with a byte that is not zero is not as it was. */
  lemma WrittenByte(st: St, a: set<int>, n: int, b: int, o: int)
    requires Grew(SB, Full(), {}, st, a, n) && 0 <= b < SB.size && 0 <= o < |st.blocks[b]| && st.blocks[b][o] != 0
    ensures b in a
  {
    assert Full().blocks[b] == ZeroBlock();
  }

  lemma WrittenWord(st: St, a: set<int>, n: int, b: int, j: int)
    requires Grew(SB, Full(), {}, st, a, n) && 0 <= b < SB.size && Word(st.blocks[b], j) != 0
    ensures b in a
  {
    assert Full().blocks[b] == ZeroBlock();
    ZeroWord(j);
  }

  /** Where file 0 of a state after the write keeps its byte off. */
  lemma ByteWritten(st: St, a: set<int>, n: int, off: int, x: int)
    requires Shape(SB, st) && Grew(SB, Full(), {}, st, a, n) && 0 <= off && ByteAt(st, 0, off) == x != 0
    ensures Slot(st, 0, DataSlot(off / BSIZE)) in a
  {
    var b := Slot(st, 0, DataSlot(off / BSIZE));
    WrittenByte(st, a, n, b, off % BSIZE);
  }

  lemma BytesWritten(st: St, src: seq<int>)
    requires Spliced(Full(), st, 0, NDIRECT * BSIZE - 1, src)
    ensures forall k :: 0 <= k < |src| ==> ByteAt(st, 0, NDIRECT * BSIZE - 1 + k) == src[k]
  {
    hide ByteAt;
    var off := NDIRECT * BSIZE - 1;
    forall k | 0 <= k < |src|
      ensures ByteAt(st, 0, off + k) == src[k]
    {
      assert Splice(Content(Full(), 0), off, src)[off + k] == src[k];
      assert Content(st, 0)[off + k] == ByteAt(st, 0, off + k);
    }
  }

  /** The blocks in the indirect block's slot and the first three entries are the four that
      were free. */
  lemma FourNew(st: St, owner: Owner, a: set<int>, n: int, len: int)
    requires Shape(SB, st) && Owned(SB, st, owner) && Grew(SB, Full(), {}, st, a, n)
    requires 0 < |st.inodes| && NoHoles(st, 0, len) && len == NDIRECT * BSIZE - 1 + CHUNK
    ensures {Slot(st, 0, 12), Slot(st, 0, 13), Slot(st, 0, 14), Slot(st, 0, 15)} == {4095, 4096, 8192, 12288}
    ensures {4091, 4092, 4093, 4094} <= a
  {
    hide Slot, Grew, Shape, Owned;
    assert DataSlot(12) == 13 && DataSlot(13) == 14 && DataSlot(14) == 15;
    Distinct(st, owner);
    NewIsFree(st, owner, a, n, 12);
    NewIsFree(st, owner, a, n, 13);
    NewIsFree(st, owner, a, n, 14);
    NewIsFree(st, owner, a, n, 15);
  }

  lemma Distinct(st: St, owner: Owner)
    requires Shape(SB, st) && Owned(SB, st, owner) && 0 < |st.inodes|
    ensures forall k, l :: NDIRECT <= k < l < NSLOT && Slot(st, 0, k) != 0 ==> Slot(st, 0, k) != Slot(st, 0, l)
  {
    hide Slot;
    forall k, l | NDIRECT <= k < l < NSLOT && Slot(st, 0, k) != 0
      ensures Slot(st, 0, k) != Slot(st, 0, l)
    {
      assert ValidSlot(st, 0, k) && ValidSlot(st, 0, l);
    }
  }

  /** The inode and the last direct block, as the record of the write has them. */
  lemma RecordParts(st: St, owner: Owner, a: set<int>, len: int)
    requires Consistent(SB, st, owner) && len == NDIRECT * BSIZE - 1 + CHUNK
    requires Recorded(SB, Full(), {}, st, a, 0, len)
    ensures NoHoles(st, 0, len) && Slot(st, 0, 11) == 4108 && 32 in a
  {
    hide Slot, Owned, NoHoles;
    FullSlot(0, 11);
    assert ValidSlot(Full(), 0, 11);
  }

  lemma IndirectWritten(st: St, owner: Owner, a: set<int>, n: int)
    requires Shape(SB, st) && Owned(SB, st, owner) && Grew(SB, Full(), {}, st, a, n)
    requires Slot(st, 0, 12) != 0 && Slot(st, 0, 13) != 0
    ensures Slot(st, 0, 12) in a
  {
    SlotInRange(SB, st, owner, 0, 12);
    WrittenWord(st, a, n, Slot(st, 0, 12), 0);
  }

  /** The last direct block, the indirect block, three blocks behind it, four bitmap blocks
      and the inode block. */
  lemma FillsShare(st: St, owner: Owner, a: set<int>, src: seq<int>)
    requires Consistent(SB, st, owner) && |src| == CHUNK && forall k :: 0 <= k < CHUNK ==> src[k] != 0
    requires Spliced(Full(), st, 0, NDIRECT * BSIZE - 1, src)
    requires Recorded(SB, Full(), {}, st, a, 0, NDIRECT * BSIZE - 1 + CHUNK)
    ensures {32, 4091, 4092, 4093, 4094, 4108, 4095, 4096, 8192, 12288} <= a
  {
    hide Slot, Grew, Spliced, Shape, Owned, ByteAt, AllNoHoles;
    var len := NDIRECT * BSIZE - 1 + CHUNK;
    var n := Growth(Full().inodes[0].size, len);
    RecordParts(st, owner, a, len);
    BytesWritten(st, src);
    ByteWritten(st, a, n, 6143, src[0]);
    ByteWritten(st, a, n, 6144, src[1]);
    ByteWritten(st, a, n, 6656, src[513]);
    ByteWritten(st, a, n, 7168, src[1025]);
    FourNew(st, owner, a, n, len);
    IndirectWritten(st, owner, a, n);
  }

  lemma ShareIsTen(a: set<int>)
    requires {32, 4091, 4092, 4093, 4094, 4108, 4095, 4096, 8192, 12288} <= a
    ensures |a| >= MAXOPBLOCKS
  {
    CardSubset({32, 4091, 4092, 4093, 4094, 4108, 4095, 4096, 8192, 12288}, a);
  }

  /** The bound of WriteOp is met: a write of one chunk to a consistent file system that logs
      MAXOPBLOCKS blocks. */
  method ChunkFillsShare() returns (fs: Fs, r: Result)
    ensures fs.sb == SB && fs.Valid()
    ensures r == Count(CHUNK) && |fs.logged| == MAXOPBLOCKS
  {
    hide Full, Consistent, Spliced, Recorded;
    FullConsistent();
    FullFree();
    FullFirst();
    var st := Full();
    var bits := PackBits(st.bitmap);
    fs := new Fs.Mount(SB, bits, st, FullOwner());
    var src := seq(CHUNK, k => 1);
    r := fs.WriteOp(0, src, NDIRECT * BSIZE - 1);
    FillsShare(fs.State(), fs.owner, fs.logged, src);
    ShareIsTen(fs.logged);
  }

  lemma FullFirst()
    ensures |Full().inodes| == NINODES && Full().inodes[0].size == NDIRECT * BSIZE - 1
  {
  }

  // -------------------------------------------------------- truncation and the log

  /** The inode block is not a bitmap block. */
  lemma {:induction false} InodeBlockApart(size: int, ninodes: int, nlog: int, i: int, st: St, owner: Owner)
    requires 0 <= i < ninodes == |st.inodes|
    requires var sb := Mkfs(size, ninodes, nlog); Shape(sb, st) && Owned(sb, st, owner)
    ensures var sb := Mkfs(size, ninodes, nlog); Iblock(sb, i) !in CoverBlocks(sb, st, i)
  {
    hide Slot, Owned;
    var sb := Mkfs(size, ninodes, nlog);
    forall k | 0 <= k < NSLOT && Slot(st, i, k) != 0
      ensures Bblock(sb, Slot(st, i, k)) > Iblock(sb, i)
    {
      SlotInRange(sb, st, owner, i, k);
    }
  }

  /** Truncating file i fits in one operation's share of the log exactly when its blocks are
      covered by fewer than MAXOPBLOCKS bitmap blocks. */
  lemma TruncateFitsIff(size: int, ninodes: int, nlog: int, i: int, st: St, owner: Owner)
    requires 0 <= i < ninodes == |st.inodes|
    requires var sb := Mkfs(size, ninodes, nlog); Shape(sb, st) && Owned(sb, st, owner)
    ensures var sb := Mkfs(size, ninodes, nlog);
            |{} + CoverBlocks(sb, st, i) + {Iblock(sb, i)}| <= MAXOPBLOCKS <==> |CoverBlocks(sb, st, i)| < MAXOPBLOCKS
  {
    InodeBlockApart(size, ninodes, nlog, i, st, owner);
    var cover := CoverBlocks(Mkfs(size, ninodes, nlog), st, i);
    assert {} + cover == cover;
  }

  function Span(from: int, n: nat): set<int> {
    if n == 0 then {} else Span(from, n - 1) + {from + (n - 1)}
  }

  lemma {:induction false} SpanIs(from: int, n: nat)
    ensures forall b :: b in Span(from, n) <==> from <= b < from + n
    ensures |Span(from, n)| == n
  {
    if n > 0 {
      SpanIs(from, n - 1);
    }
  }

  /** On a disk that MAXOPBLOCKS - 1 bitmap blocks cover, every file fits; the disk that mkfs
      makes has 1000 blocks. */
  lemma TruncateFits(sb: Super, st: St, owner: Owner, i: int)
    requires Shape(sb, st) && Owned(sb, st, owner) && 0 <= i < |st.inodes|
    requires sb.size <= (MAXOPBLOCKS - 1) * BPB
    ensures |CoverBlocks(sb, st, i)| < MAXOPBLOCKS
  {
    hide Slot, Owned;
    SpanIs(sb.bmapstart, MAXOPBLOCKS - 1);
    forall k | 0 <= k < NSLOT && Slot(st, i, k) != 0
      ensures Bblock(sb, Slot(st, i, k)) in Span(sb.bmapstart, MAXOPBLOCKS - 1)
    {
      SlotInRange(sb, st, owner, i, k);
    }
    CardSubset(CoverBlocks(sb, st, i), Span(sb.bmapstart, MAXOPBLOCKS - 1));
  }

  const WIDE := Mkfs(MAXOPBLOCKS * BPB, 200, 30)

  /** File 0 has ten blocks, each covered by another bitmap block. */
  function Spaced(k: int): int {
    if 0 <= k < MAXOPBLOCKS then WIDE.nmeta + k * BPB else 0
  }

  predicate IsSpaced(b: int) {
    WIDE.nmeta <= b < WIDE.size && (b - WIDE.nmeta) % BPB == 0
  }

  function SpacedInode(i: int): Inode {
    if i == 0 then Empty().(size := MAXOPBLOCKS * BSIZE, addrs := seq(NDIRECT + 1, k => Spaced(k))) else Empty()
  }

  function Spread(): St {
    St(seq(WIDE.size, b => b < WIDE.nmeta || IsSpaced(b)), seq(WIDE.size, b => ZeroBlock()), seq(200, i => SpacedInode(i)))
  }

  function SpreadOwner(): Owner {
    map b | 0 <= b < WIDE.size && IsSpaced(b) :: (0, (b - WIDE.nmeta) / BPB)
  }

  lemma SpreadSlot(i: int, k: int)
    requires 0 <= i < 200 && 0 <= k
    ensures Slot(Spread(), i, k) == if i == 0 then Spaced(k) else 0
  {
    assert Addr(Spread(), i, NDIRECT) == 0;
  }

  lemma SpacedBack(b: int, k: int)
    requires IsSpaced(b) && k == (b - WIDE.nmeta) / BPB
    ensures 0 <= k < MAXOPBLOCKS && Spaced(k) == b >= WIDE.nmeta
  {
  }

  lemma SpacedNone(k: int)
    ensures Spaced(k) != 0 ==> 0 <= k < MAXOPBLOCKS
  {
  }

  lemma SpacedThere(k: int)
    requires 0 <= k < MAXOPBLOCKS
    ensures IsSpaced(Spaced(k)) && (Spaced(k) - WIDE.nmeta) / BPB == k && 0 < Spaced(k) < WIDE.size
  {
  }

  lemma SpreadShape()
    ensures Shape(WIDE, Spread())
  {
  }

  lemma SpreadOwned()
    ensures Shape(WIDE, Spread()) && Owned(WIDE, Spread(), SpreadOwner())
  {
    hide Slot, Shape, Spaced, IsSpaced;
    SpreadShape();
    forall i, k | ValidSlot(Spread(), i, k) && Slot(Spread(), i, k) != 0
      ensures Slot(Spread(), i, k) in SpreadOwner() && SpreadOwner()[Slot(Spread(), i, k)] == (i, k)
    {
      SpreadSlot(i, k);
      SpacedNone(k);
      SpacedThere(k);
    }
    forall b | b in SpreadOwner()
      ensures WIDE.nmeta <= b && ValidSlot(Spread(), SpreadOwner()[b].0, SpreadOwner()[b].1)
      ensures Slot(Spread(), SpreadOwner()[b].0, SpreadOwner()[b].1) == b
    {
      SpacedBack(b, SpreadOwner()[b].1);
      SpreadSlot(0, SpreadOwner()[b].1);
    }
  }

  lemma SpreadConsistent()
    ensures Consistent(WIDE, Spread(), SpreadOwner())
  {
    SpreadOwned();
    hide Slot, Owned;
    forall i | 0 <= i < 200
      ensures NoHoles(Spread(), i, Spread().inodes[i].size)
    {
      SpreadSlot(i, NDIRECT);
      forall bn | 0 <= bn < MAXFILE
        ensures Slot(Spread(), i, DataSlot(bn)) == if i == 0 then Spaced(DataSlot(bn)) else 0
      {
        SpreadSlot(i, DataSlot(bn));
      }
    }
  }

  lemma SpreadCover()
    ensures |CoverBlocks(WIDE, Spread(), 0)| >= MAXOPBLOCKS
  {
    hide Slot;
    SpanIs(WIDE.bmapstart, MAXOPBLOCKS);
    forall c | c in Span(WIDE.bmapstart, MAXOPBLOCKS)
      ensures c in CoverBlocks(WIDE, Spread(), 0)
    {
      var k := c - WIDE.bmapstart;
      SpreadSlot(0, k);
      assert Bblock(WIDE, Spaced(k)) == c;
    }
    CardSubset(Span(WIDE.bmapstart, MAXOPBLOCKS), CoverBlocks(WIDE, Spread(), 0));
  }

  /** A file whose truncation logs more than one operation's share. */
  method TruncateOverflows() returns (fs: Fs)
    ensures fs.sb == WIDE && fs.Valid() && fs.logged == CoverBlocks(WIDE, Spread(), 0) + {Iblock(WIDE, 0)}
    ensures |fs.logged| > MAXOPBLOCKS
  {
    hide Spread, Consistent, CoverBlocks;
    SpreadConsistent();
    SpreadCover();
    var st := Spread();
    var bits := PackBits(st.bitmap);
    fs := new Fs.Mount(WIDE, bits, st, SpreadOwner());
    SpreadCount();
    fs.Itrunc(0);
    ConsistentParts(WIDE, st, SpreadOwner());
    TruncateFitsIff(WIDE.size, 200, 30, 0, st, SpreadOwner());
  }

  lemma SpreadCount()
    ensures |Spread().inodes| == 200
  {
  }

  lemma ConsistentParts(sb: Super, st: St, owner: Owner)
    requires Consistent(sb, st, owner)
    ensures Shape(sb, st) && Owned(sb, st, owner)
  {
  }
}
