/** The file system as it lies on the disk: bitmap blocks, inode blocks and data blocks. */
module FsImage {
  import opened Param
  import opened Common
  import opened DiskBlock
  import opened FsBits
  import opened FsLayout
  import opened FsUsage

  /** Bitmap block j. */
  function BitmapBytes(bm: seq<bool>, j: int): (r: Bytes)
    ensures |r| == BSIZE
  {
    seq(BSIZE, k => BitsFrom(bm, j * BPB + 8 * k, 8))
  }

  function LittleEndian(w: int, n: nat): (r: seq<int>)
    ensures |r| == n
    decreases n
  {
    if n == 0 then [] else [w % 0x100] + LittleEndian(w / 0x100, n - 1)
  }

  lemma FirstOf<T>(r: seq<T>, o: int, e: int)
    requires 0 <= o < e <= |r|
    ensures r[o..e] == [r[o]] + r[o + 1..e]
  {
  }

  /** The entries of an indirect block are laid out as the addresses in an inode are. */
  lemma {:induction false} PutNumberBytes(b: Bytes, o: int, n: nat, w: int)
    requires 0 <= o && o + n <= |b| && 0 <= w
    ensures PutNumber(b, o, n, w)[o..o + n] == LittleEndian(w, n)
    decreases n
  {
    if n > 0 {
      var c := b[o := w % 0x100];
      var r := PutNumber(c, o + 1, n - 1, w / 0x100);
      PutNumberBytes(c, o + 1, n - 1, w / 0x100);
      assert r[o] == c[o];
      FirstOf(r, o, o + n);
    }
  }

  function AddressBytes(a: seq<int>): (r: seq<int>)
    ensures |r| == 4 * |a|
  {
    if a == [] then [] else LittleEndian(a[0], 4) + AddressBytes(a[1..])
  }

  const DINODE: int := 64

  /** An inode on disk: four shorts, the size, and the addresses. */
  function Dinode(ip: Inode): (r: seq<int>)
    ensures |r| == 12 + 4 * |ip.addrs|
  {
    LittleEndian(ip.itype, 2) + LittleEndian(ip.major, 2) + LittleEndian(ip.minor, 2) + LittleEndian(ip.nlink, 2)
    + LittleEndian(ip.size, 4) + AddressBytes(ip.addrs)
  }

  function InodeByte(inodes: seq<Inode>, i: int, o: int): int {
    if 0 <= i < |inodes| && 0 <= o < |Dinode(inodes[i])| then Dinode(inodes[i])[o] else 0
  }

  /** Inode block j. */
  function InodeBytes(inodes: seq<Inode>, j: int): (r: Bytes)
    ensures |r| == BSIZE
  {
    seq(BSIZE, k => InodeByte(inodes, j * IPB + k / DINODE, k % DINODE))
  }

  predicate InBitmap(sb: Super, b: int) {
    sb.bmapstart <= b <= sb.bmapstart + sb.size / BPB
  }

  predicate InInodes(sb: Super, ninodes: int, b: int) {
    sb.inodestart <= b <= sb.inodestart + ninodes / IPB
  }

  function BytesAt(sb: Super, st: St, b: int): Bytes {
    if InBitmap(sb, b) then BitmapBytes(st.bitmap, b - sb.bmapstart)
    else if InInodes(sb, |st.inodes|, b) then InodeBytes(st.inodes, b - sb.inodestart)
    else BlockAt(st, b)
  }

  /** What block b of the disk holds when the file system is in state st. */
  function Image(sb: Super, st: St, b: int): Block {
    AsWords(BytesAt(sb, st, b))
  }

  // -------------------------------------------------- what an operation may change

  /** Every block of the disk that differs between st and st' is in a. */
  ghost predicate Covers(sb: Super, st: St, st': St, a: set<int>) {
    forall b :: 0 <= b < sb.size && Image(sb, st', b) != Image(sb, st, b) ==> b in a
  }

  /** What a file system operation may do: it leads to a consistent state, and the blocks that it
      logs, which are all that it changes, fit in one operation's share of the log. */
  ghost predicate Operation(sb: Super, st: St, st': St, a: set<int>) {
    ConsistentFs(sb, st') && Covers(sb, st, st', a) && |a| <= MAXOPBLOCKS
  }

  lemma {:induction false} BitsSame(bm: seq<bool>, bm': seq<bool>, o: int, n: nat)
    requires |bm'| == |bm| && forall i :: 0 <= i < |bm| && o <= i < o + n ==> bm'[i] == bm[i]
    ensures BitsFrom(bm', o, n) == BitsFrom(bm, o, n)
    decreases n
  {
    if n > 0 {
      BitsSame(bm, bm', o + 1, n - 1);
    }
  }

  lemma BitmapByteSame(sb: Super, bm: seq<bool>, bm': seq<bool>, j: int, k: int)
    requires |bm'| == |bm| && 0 <= k < BSIZE
    requires forall b :: 0 <= b < |bm| && bm'[b] != bm[b] ==> Bblock(sb, b) != sb.bmapstart + j
    ensures BitsFrom(bm', j * BPB + 8 * k, 8) == BitsFrom(bm, j * BPB + 8 * k, 8)
  {
    hide BitsFrom;
    var o := j * BPB + 8 * k;
    forall i | 0 <= i < |bm| && o <= i < o + 8
      ensures bm'[i] == bm[i]
    {
      assert i / BPB == j;
    }
    BitsSame(bm, bm', o, 8);
  }

  lemma BitmapSame(sb: Super, bm: seq<bool>, bm': seq<bool>, j: int)
    requires |bm'| == |bm|
    requires forall b :: 0 <= b < |bm| && bm'[b] != bm[b] ==> Bblock(sb, b) != sb.bmapstart + j
    ensures BitmapBytes(bm', j) == BitmapBytes(bm, j)
  {
    hide BitsFrom, Bblock;
    forall k | 0 <= k < BSIZE
      ensures BitsFrom(bm', j * BPB + 8 * k, 8) == BitsFrom(bm, j * BPB + 8 * k, 8)
    {
      BitmapByteSame(sb, bm, bm', j, k);
    }
  }

  lemma InodesSame(sb: Super, inodes: seq<Inode>, inodes': seq<Inode>, j: int)
    requires |inodes'| == |inodes|
    requires forall i :: 0 <= i < |inodes| && inodes'[i] != inodes[i] ==> Iblock(sb, i) != sb.inodestart + j
    ensures InodeBytes(inodes', j) == InodeBytes(inodes, j)
  {
    hide Dinode;
    forall k | 0 <= k < BSIZE
      ensures InodeByte(inodes', j * IPB + k / DINODE, k % DINODE) == InodeByte(inodes, j * IPB + k / DINODE, k % DINODE)
    {
      var i := j * IPB + k / DINODE;
      assert i / IPB == j;
      assert 0 <= i < |inodes| ==> Iblock(sb, i) == sb.inodestart + j;
    }
  }

  lemma CoversChanges(sb: Super, st: St, st': St, a: set<int>)
    requires |st'.bitmap| == |st.bitmap| && |st'.blocks| == |st.blocks| && |st'.inodes| == |st.inodes|
    requires forall b :: 0 <= b < |st.blocks| && st'.blocks[b] != st.blocks[b] ==> b in a
    requires forall b :: 0 <= b < |st.bitmap| && st'.bitmap[b] != st.bitmap[b] ==> Bblock(sb, b) in a
    requires forall i :: 0 <= i < |st.inodes| && st'.inodes[i] != st.inodes[i] ==> Iblock(sb, i) in a
    ensures Covers(sb, st, st', a)
  {
    hide BitmapBytes, InodeBytes, AsWords;
    forall b | 0 <= b < sb.size && b !in a
      ensures BytesAt(sb, st', b) == BytesAt(sb, st, b)
    {
      if InBitmap(sb, b) {
        BitmapSame(sb, st.bitmap, st'.bitmap, b - sb.bmapstart);
      } else if InInodes(sb, |st.inodes|, b) {
        InodesSame(sb, st.inodes, st'.inodes, b - sb.inodestart);
      }
    }
  }

  lemma CoversTrans(sb: Super, st: St, st1: St, st2: St, a1: set<int>, a2: set<int>)
    requires Covers(sb, st, st1, a1) && Covers(sb, st1, st2, a2)
    ensures Covers(sb, st, st2, a1 + a2)
  {
  }

  // ------------------------------------------------------- the image tells the state

  /** Fields fit where they are stored. */
  predicate Storable(ip: Inode) {
    && 0 <= ip.itype < 0x1_0000 && 0 <= ip.major < 0x1_0000 && 0 <= ip.minor < 0x1_0000 && 0 <= ip.nlink < 0x1_0000
    && 0 <= ip.size < U32 && |ip.addrs| == NDIRECT + 1
    && forall k :: 0 <= k < |ip.addrs| ==> 0 <= ip.addrs[k] < U32
  }

  /** As mkfs lays it out: inode blocks, then the bitmap, then data. */
  predicate LaidOut(sb: Super, ninodes: int) {
    && 0 <= sb.inodestart && sb.inodestart + ninodes / IPB < sb.bmapstart
    && sb.bmapstart + sb.size / BPB < sb.nmeta <= sb.size
  }

  lemma {:induction false} EndianBytes(w: int, n: nat)
    ensures forall i :: 0 <= i < n ==> 0 <= LittleEndian(w, n)[i] < 0x100
    decreases n
  {
    if n > 0 {
      EndianBytes(w / 0x100, n - 1);
    }
  }

  lemma {:induction false} EndianInjective(v: int, w: int, n: nat)
    requires 0 <= v < Power(n) && 0 <= w < Power(n) && LittleEndian(v, n) == LittleEndian(w, n)
    ensures v == w
    decreases n
  {
    if n > 0 {
      var a, b := LittleEndian(v, n), LittleEndian(w, n);
      assert a[1..] == LittleEndian(v / 0x100, n - 1) && b[1..] == LittleEndian(w / 0x100, n - 1);
      assert a[0] == b[0];
      EndianInjective(v / 0x100, w / 0x100, n - 1);
    }
  }

  lemma {:induction false} AddressesInjective(a: seq<int>, b: seq<int>)
    requires |a| == |b| && AddressBytes(a) == AddressBytes(b)
    requires forall k :: 0 <= k < |a| ==> 0 <= a[k] < U32 && 0 <= b[k] < U32
    ensures a == b
  {
    if a != [] {
      var x, y := AddressBytes(a), AddressBytes(b);
      assert x[..4] == LittleEndian(a[0], 4) && y[..4] == LittleEndian(b[0], 4);
      assert x[4..] == AddressBytes(a[1..]) && y[4..] == AddressBytes(b[1..]);
      WordPower();
      EndianInjective(a[0], b[0], 4);
      AddressesInjective(a[1..], b[1..]);
      assert a == [a[0]] + a[1..] && b == [b[0]] + b[1..];
    }
  }

  lemma WordPower()
    ensures Power(2) == 0x1_0000 && Power(4) == U32
  {
    assert Power(2) == 0x100 * (0x100 * Power(0));
    assert Power(4) == 0x100 * (0x100 * Power(2));
  }

  lemma DinodeInjective(p: Inode, q: Inode)
    requires Storable(p) && Storable(q) && Dinode(p) == Dinode(q)
    ensures p == q
  {
    hide LittleEndian, AddressBytes;
    var x, y := Dinode(p), Dinode(q);
    assert x[0..2] == LittleEndian(p.itype, 2) && y[0..2] == LittleEndian(q.itype, 2);
    assert x[2..4] == LittleEndian(p.major, 2) && y[2..4] == LittleEndian(q.major, 2);
    assert x[4..6] == LittleEndian(p.minor, 2) && y[4..6] == LittleEndian(q.minor, 2);
    assert x[6..8] == LittleEndian(p.nlink, 2) && y[6..8] == LittleEndian(q.nlink, 2);
    assert x[8..12] == LittleEndian(p.size, 4) && y[8..12] == LittleEndian(q.size, 4);
    assert x[12..] == AddressBytes(p.addrs) && y[12..] == AddressBytes(q.addrs);
    WordPower();
    EndianInjective(p.itype, q.itype, 2);
    EndianInjective(p.major, q.major, 2);
    EndianInjective(p.minor, q.minor, 2);
    EndianInjective(p.nlink, q.nlink, 2);
    EndianInjective(p.size, q.size, 4);
    AddressesInjective(p.addrs, q.addrs);
  }

  lemma {:induction false} BitsInjective(bm: seq<bool>, bm': seq<bool>, o: int, n: nat)
    requires |bm'| == |bm| && BitsFrom(bm', o, n) == BitsFrom(bm, o, n)
    ensures forall i :: 0 <= i < |bm| && o <= i < o + n ==> bm'[i] == bm[i]
    decreases n
  {
    if n > 0 {
      BitsInjective(bm, bm', o + 1, n - 1);
    }
  }

  lemma BitmapInjective(bm: seq<bool>, bm': seq<bool>, b: int)
    requires |bm'| == |bm| && 0 <= b < |bm| && BitmapBytes(bm', b / BPB) == BitmapBytes(bm, b / BPB)
    ensures bm'[b] == bm[b]
  {
    hide BitsFrom;
    var j, k := b / BPB, b % BPB / 8;
    assert BitmapBytes(bm', j)[k] == BitmapBytes(bm, j)[k];
    BitsInjective(bm, bm', j * BPB + 8 * k, 8);
  }

  lemma InodesInjective(inodes: seq<Inode>, inodes': seq<Inode>, i: int)
    requires |inodes'| == |inodes| && 0 <= i < |inodes| && Storable(inodes[i]) && Storable(inodes'[i])
    requires InodeBytes(inodes', i / IPB) == InodeBytes(inodes, i / IPB)
    ensures inodes'[i] == inodes[i]
  {
    hide Dinode;
    var j := i / IPB;
    forall o | 0 <= o < DINODE
      ensures Dinode(inodes'[i])[o] == Dinode(inodes[i])[o]
    {
      var k := i % IPB * DINODE + o;
      assert k / DINODE == i % IPB && k % DINODE == o;
      assert InodeBytes(inodes', j)[k] == InodeBytes(inodes, j)[k];
    }
    assert Dinode(inodes'[i]) == Dinode(inodes[i]);
    DinodeInjective(inodes'[i], inodes[i]);
  }

  lemma {:induction false} BitsBound(bm: seq<bool>, o: int, n: nat)
    ensures 0 <= BitsFrom(bm, o, n) < TwoTo(n)
    decreases n
  {
    if n > 0 {
      BitsBound(bm, o + 1, n - 1);
    }
  }

  function TwoTo(n: nat): int {
    if n == 0 then 1 else 2 * TwoTo(n - 1)
  }

  lemma BitmapAreBytes(bm: seq<bool>, j: int)
    ensures AllBytes(BitmapBytes(bm, j))
  {
    hide BitsFrom;
    assert TwoTo(8) == 16 * TwoTo(4) && TwoTo(4) == 16 * TwoTo(0);
    forall k | 0 <= k < BSIZE
      ensures 0 <= BitsFrom(bm, j * BPB + 8 * k, 8) < 0x100
    {
      BitsBound(bm, j * BPB + 8 * k, 8);
    }
  }

  lemma {:induction false} AddressesAreBytes(a: seq<int>)
    ensures forall o :: 0 <= o < 4 * |a| ==> 0 <= AddressBytes(a)[o] < 0x100
  {
    if a != [] {
      EndianBytes(a[0], 4);
      AddressesAreBytes(a[1..]);
    }
  }

  lemma DinodeAreBytes(ip: Inode)
    ensures forall o :: 0 <= o < |Dinode(ip)| ==> 0 <= Dinode(ip)[o] < 0x100
  {
    hide LittleEndian, AddressBytes;
    EndianBytes(ip.itype, 2);
    EndianBytes(ip.major, 2);
    EndianBytes(ip.minor, 2);
    EndianBytes(ip.nlink, 2);
    EndianBytes(ip.size, 4);
    AddressesAreBytes(ip.addrs);
  }

  lemma InodesAreBytes(inodes: seq<Inode>, j: int)
    ensures AllBytes(InodeBytes(inodes, j))
  {
    hide Dinode;
    forall k | 0 <= k < BSIZE
      ensures 0 <= InodeByte(inodes, j * IPB + k / DINODE, k % DINODE) < 0x100
    {
      var i := j * IPB + k / DINODE;
      if 0 <= i < |inodes| {
        DinodeAreBytes(inodes[i]);
      }
    }
  }

  lemma BytesAtSame(sb: Super, st: St, st': St, b: int)
    requires |st'.inodes| == |st.inodes| && Image(sb, st', b) == Image(sb, st, b)
    requires AllBytes(BlockAt(st, b)) && AllBytes(BlockAt(st', b))
    ensures BytesAt(sb, st', b) == BytesAt(sb, st, b)
  {
    hide BitmapBytes, InodeBytes, AllBytes, AsWords;
    BitmapAreBytes(st.bitmap, b - sb.bmapstart);
    BitmapAreBytes(st'.bitmap, b - sb.bmapstart);
    InodesAreBytes(st.inodes, b - sb.inodestart);
    InodesAreBytes(st'.inodes, b - sb.inodestart);
    AsWordsInjective(BytesAt(sb, st', b), BytesAt(sb, st, b));
  }

  ghost predicate Stored(sb: Super, st: St) {
    && Shape(sb, st) && LaidOut(sb, |st.inodes|)
    && (forall i :: 0 <= i < |st.inodes| ==> Storable(st.inodes[i]))
    && (forall b :: 0 <= b < sb.size ==> AllBytes(st.blocks[b]))
  }

  lemma BitmapTold(sb: Super, st: St, st': St)
    requires Stored(sb, st) && Stored(sb, st') && forall b :: 0 <= b < sb.size ==> BytesAt(sb, st', b) == BytesAt(sb, st, b)
    ensures st'.bitmap == st.bitmap
  {
    hide BitmapBytes, InodeBytes, AllBytes, Storable;
    forall b | 0 <= b < sb.size
      ensures st'.bitmap[b] == st.bitmap[b]
    {
      var c := sb.bmapstart + b / BPB;
      assert InBitmap(sb, c) && BytesAt(sb, st', c) == BytesAt(sb, st, c);
      BitmapInjective(st.bitmap, st'.bitmap, b);
    }
  }

  lemma InodesTold(sb: Super, st: St, st': St)
    requires Stored(sb, st) && Stored(sb, st') && |st'.inodes| == |st.inodes|
    requires forall b :: 0 <= b < sb.size ==> BytesAt(sb, st', b) == BytesAt(sb, st, b)
    ensures st'.inodes == st.inodes
  {
    hide BitmapBytes, InodeBytes, AllBytes;
    forall i | 0 <= i < |st.inodes|
      ensures st'.inodes[i] == st.inodes[i]
    {
      var c := sb.inodestart + i / IPB;
      assert InInodes(sb, |st.inodes|, c) && BytesAt(sb, st', c) == BytesAt(sb, st, c);
      InodesInjective(st.inodes, st'.inodes, i);
    }
  }

  /** Two states with the same disk image are the same file system. */
  lemma ImageTellsState(sb: Super, st: St, st': St)
    requires Stored(sb, st) && Stored(sb, st') && |st'.inodes| == |st.inodes|
    requires forall b :: 0 <= b < sb.size ==> Image(sb, st', b) == Image(sb, st, b)
    ensures st'.bitmap == st.bitmap && st'.inodes == st.inodes
    ensures forall b :: sb.nmeta <= b < sb.size ==> st'.blocks[b] == st.blocks[b]
  {
    hide Image, BitmapBytes, InodeBytes, AllBytes, Storable;
    forall b | 0 <= b < sb.size
      ensures BytesAt(sb, st', b) == BytesAt(sb, st, b)
    {
      BytesAtSame(sb, st, st', b);
    }
    BitmapTold(sb, st, st');
    InodesTold(sb, st, st');
    forall b | sb.nmeta <= b < sb.size
      ensures st'.blocks[b] == st.blocks[b]
    {
      assert BytesAt(sb, st', b) == BytesAt(sb, st, b);
    }
  }
}
