/** Disk blocks: 512 bytes to the file system, 128 words of four bytes to the log. */
module DiskBlock {
  import opened Common

  const BSIZE: int := 512
  const BLOCKWORDS: nat := 128

  type Bytes = seq<int>

  datatype Block = Block(words: seq<int>)

  function ZeroBlock(): Bytes {
    seq(BSIZE, i => 0)
  }

  /** The number in the n bytes from o on, least significant first. */
  function Number(b: Bytes, o: int, n: nat): int
    requires 0 <= o && o + n <= |b|
    decreases n
  {
    if n == 0 then 0 else b[o] + 0x100 * Number(b, o + 1, n - 1)
  }

  /** Word j of a block: four bytes. */
  function Word(b: Bytes, j: int): int {
    if |b| == BSIZE && 0 <= j < BLOCKWORDS then Number(b, 4 * j, 4) else 0
  }

  function PutNumber(b: Bytes, o: int, n: nat, w: int): (r: Bytes)
    requires 0 <= o && o + n <= |b| && 0 <= w
    ensures |r| == |b| && forall i :: 0 <= i < |b| && !(o <= i < o + n) ==> r[i] == b[i]
    decreases n
  {
    if n == 0 then b else PutNumber(b[o := w % 0x100], o + 1, n - 1, w / 0x100)
  }

  function Power(n: nat): int {
    if n == 0 then 1 else 0x100 * Power(n - 1)
  }

  lemma {:induction false} NumberBack(b: Bytes, o: int, n: nat, w: int)
    requires 0 <= o && o + n <= |b| && 0 <= w < Power(n)
    ensures Number(PutNumber(b, o, n, w), o, n) == w
    decreases n
  {
    if n > 0 {
      NumberBack(b[o := w % 0x100], o + 1, n - 1, w / 0x100);
    }
  }

  lemma {:induction false} NumberSame(b: Bytes, r: Bytes, o: int, n: nat)
    requires 0 <= o && o + n <= |b| == |r| && forall i :: o <= i < o + n ==> r[i] == b[i]
    ensures Number(r, o, n) == Number(b, o, n)
    decreases n
  {
    if n > 0 {
      NumberSame(b, r, o + 1, n - 1);
    }
  }

  function PutWord(b: Bytes, j: int, w: int): (r: Bytes)
    requires |b| == BSIZE && 0 <= j < BLOCKWORDS && 0 <= w < U32
    ensures |r| == BSIZE
  {
    PutNumber(b, 4 * j, 4, w)
  }

  lemma PutWordAt(b: Bytes, j: int, w: int)
    requires |b| == BSIZE && 0 <= j < BLOCKWORDS && 0 <= w < U32
    ensures Word(PutWord(b, j, w), j) == w
    ensures forall l :: l != j ==> Word(PutWord(b, j, w), l) == Word(b, l)
  {
    assert Power(4) == 0x100 * (0x100 * (0x100 * (0x100 * Power(0))));
    NumberBack(b, 4 * j, 4, w);
    forall l | 0 <= l < BLOCKWORDS && l != j
      ensures Word(PutWord(b, j, w), l) == Word(b, l)
    {
      NumberSame(b, PutWord(b, j, w), 4 * l, 4);
    }
  }

  lemma {:induction false} ZeroNumber(o: int, n: nat)
    requires 0 <= o && o + n <= BSIZE
    ensures Number(ZeroBlock(), o, n) == 0
    decreases n
  {
    if n > 0 {
      ZeroNumber(o + 1, n - 1);
    }
  }

  lemma ZeroWord(j: int)
    ensures Word(ZeroBlock(), j) == 0
  {
    if 0 <= j < BLOCKWORDS {
      ZeroNumber(4 * j, 4);
    }
  }

  /** The block as the log sees it. */
  function AsWords(b: Bytes): (r: Block)
    ensures |r.words| == BLOCKWORDS
  {
    Block(seq(BLOCKWORDS, j => Word(b, j)))
  }

  predicate AllBytes(b: Bytes) {
    |b| == BSIZE && forall i :: 0 <= i < BSIZE ==> 0 <= b[i] < 0x100
  }

  lemma {:induction false} NumberInjective(a: Bytes, b: Bytes, o: int, n: nat)
    requires 0 <= o && o + n <= |a| == |b| && Number(a, o, n) == Number(b, o, n)
    requires forall i :: 0 <= i < |a| ==> 0 <= a[i] < 0x100 && 0 <= b[i] < 0x100
    ensures forall i :: o <= i < o + n ==> a[i] == b[i]
    decreases n
  {
    if n > 0 {
      assert a[o] == b[o];
      NumberInjective(a, b, o + 1, n - 1);
    }
  }

  /** Nothing is lost in that. */
  lemma AsWordsInjective(a: Bytes, b: Bytes)
    requires AllBytes(a) && AllBytes(b) && AsWords(a) == AsWords(b)
    ensures a == b
  {
    forall i | 0 <= i < BSIZE
      ensures a[i] == b[i]
    {
      var j := i / 4;
      assert AsWords(a).words[j] == AsWords(b).words[j];
      NumberInjective(a, b, 4 * j, 4);
    }
  }
}
