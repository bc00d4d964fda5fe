/** The free bitmap as bytes: block b is bit b % 8 of byte b / 8, as in fs.c. */
module FsBits {

  function Mask(b: int): bv8
    requires b >= 0
  {
    (1 as bv8) << (b % 8)
  }

  predicate GetBit(s: seq<bv8>, b: int) {
    0 <= b && b / 8 < |s| && s[b / 8] & Mask(b) != 0
  }

  function SetBit(s: seq<bv8>, b: int): seq<bv8>
    requires 0 <= b && b / 8 < |s|
  {
    s[b / 8 := s[b / 8] | Mask(b)]
  }

  function ClearBit(s: seq<bv8>, b: int): seq<bv8>
    requires 0 <= b && b / 8 < |s|
  {
    s[b / 8 := s[b / 8] & !Mask(b)]
  }

  lemma MaskDisjoint(b: int, c: int)
    requires b >= 0 && c >= 0
    ensures Mask(b) & Mask(c) == if b % 8 == c % 8 then Mask(c) else 0
    ensures Mask(c) != 0
  {
  }

  lemma OrAnd(x: bv8, m: bv8, n: bv8)
    requires n != 0 && (m == n || m & n == 0)
    ensures (x | m) & n == if m == n then n else x & n
    ensures (x & !m) & n == if m == n then 0 else x & n
  {
  }

  lemma SetBitAt(s: seq<bv8>, b: int, c: int)
    requires 0 <= b && b / 8 < |s| && 0 <= c && c / 8 < |s|
    ensures GetBit(SetBit(s, b), c) <==> b == c || GetBit(s, c)
    ensures GetBit(ClearBit(s, b), c) <==> b != c && GetBit(s, c)
  {
    MaskDisjoint(b, c);
    if b / 8 == c / 8 {
      assert b == c <==> b % 8 == c % 8;
      OrAnd(s[c / 8], Mask(b), Mask(c));
    }
  }

  // ------------------------------------------------- the bitmap as it lies on disk

  /** n bits from o on, the first one least significant. */
  function BitsFrom(bm: seq<bool>, o: int, n: nat): int
    decreases n
  {
    if n == 0 then 0 else (if 0 <= o < |bm| && bm[o] then 1 else 0) + 2 * BitsFrom(bm, o + 1, n - 1)
  }

  function OneIf(c: bool): int {
    if c then 1 else 0
  }

  /** Eight bits, the first one least significant. */
  function Sum(a: int, b: int, c: int, d: int, e: int, f: int, g: int, h: int): int {
    a + 2 * b + 4 * c + 8 * d + 16 * e + 32 * f + 64 * g + 128 * h
  }

  lemma EightBits(bm: seq<bool>, o: int)
    requires 0 <= o && o + 8 <= |bm|
    ensures BitsFrom(bm, o, 8) == Sum(OneIf(bm[o]), OneIf(bm[o + 1]), OneIf(bm[o + 2]), OneIf(bm[o + 3]),
                                      OneIf(bm[o + 4]), OneIf(bm[o + 5]), OneIf(bm[o + 6]), OneIf(bm[o + 7]))
  {
    assert BitsFrom(bm, o + 8, 0) == 0;
    assert BitsFrom(bm, o + 7, 1) == OneIf(bm[o + 7]);
    assert BitsFrom(bm, o + 6, 2) == OneIf(bm[o + 6]) + 2 * BitsFrom(bm, o + 7, 1);
    assert BitsFrom(bm, o + 5, 3) == OneIf(bm[o + 5]) + 2 * BitsFrom(bm, o + 6, 2);
    assert BitsFrom(bm, o + 4, 4) == OneIf(bm[o + 4]) + 2 * BitsFrom(bm, o + 5, 3);
    assert BitsFrom(bm, o + 3, 5) == OneIf(bm[o + 3]) + 2 * BitsFrom(bm, o + 4, 4);
    assert BitsFrom(bm, o + 2, 6) == OneIf(bm[o + 2]) + 2 * BitsFrom(bm, o + 3, 5);
    assert BitsFrom(bm, o + 1, 7) == OneIf(bm[o + 1]) + 2 * BitsFrom(bm, o + 2, 6);
  }

  function ByteInt(x: bv8): int {
    x as int
  }

  lemma ByteSum(x: bv8)
    ensures ByteInt(x) == Sum(OneIf(x & 1 != 0), OneIf(x & 2 != 0), OneIf(x & 4 != 0), OneIf(x & 8 != 0),
                              OneIf(x & 16 != 0), OneIf(x & 32 != 0), OneIf(x & 64 != 0), OneIf(x & 128 != 0))
  {
  }

  lemma BitOf(s: seq<bv8>, m: nat, i: nat)
    requires m < |s| && i < 8
    ensures GetBit(s, 8 * m + i) <==> s[m] & Mask(i) != 0
  {
    var b := 8 * m + i;
    assert b / 8 == m && b % 8 == i;
  }

  lemma BitsOf(s: seq<bv8>, m: nat)
    requires m < |s|
    ensures var x, o := s[m], 8 * m;
            && (GetBit(s, o) <==> x & 1 != 0) && (GetBit(s, o + 1) <==> x & 2 != 0)
            && (GetBit(s, o + 2) <==> x & 4 != 0) && (GetBit(s, o + 3) <==> x & 8 != 0)
            && (GetBit(s, o + 4) <==> x & 16 != 0) && (GetBit(s, o + 5) <==> x & 32 != 0)
            && (GetBit(s, o + 6) <==> x & 64 != 0) && (GetBit(s, o + 7) <==> x & 128 != 0)
  {
    assert Mask(0) == 1 && Mask(1) == 2 && Mask(2) == 4 && Mask(3) == 8;
    assert Mask(4) == 16 && Mask(5) == 32 && Mask(6) == 64 && Mask(7) == 128;
    hide GetBit, Mask;
    BitOf(s, m, 0);
    BitOf(s, m, 1);
    BitOf(s, m, 2);
    BitOf(s, m, 3);
    BitOf(s, m, 4);
    BitOf(s, m, 5);
    BitOf(s, m, 6);
    BitOf(s, m, 7);
  }

  /** A byte of the bitmap, from the blocks that it says are in use. */
  lemma ByteOf(s: seq<bv8>, bm: seq<bool>, m: nat)
    requires m < |s| && 8 * m + 8 <= |bm| && forall b :: 0 <= b < |bm| ==> bm[b] == GetBit(s, b)
    ensures BitsFrom(bm, 8 * m, 8) == ByteInt(s[m])
  {
    hide GetBit, BitsFrom, ByteInt, OneIf, Sum;
    EightBits(bm, 8 * m);
    BitsOf(s, m);
    ByteSum(s[m]);
  }
}
