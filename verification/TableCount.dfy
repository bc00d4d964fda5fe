/** How many page tables a directory has, or needs: directory slots as a sequence of bits. */
module TableCount {
  import opened PageTable

  ghost function Count(b: seq<bool>): int {
    if b == [] then 0 else Count(b[..|b| - 1]) + if b[|b| - 1] then 1 else 0
  }

  lemma {:induction false} CountBounds(b: seq<bool>)
    ensures 0 <= Count(b) <= |b|
  {
    if b != [] {
      CountBounds(b[..|b| - 1]);
    }
  }

  lemma {:induction false} CountSet(b: seq<bool>, c: seq<bool>, k: int)
    requires |c| == |b| && 0 <= k < |b| && c[k]
    requires forall i :: 0 <= i < |b| && i != k ==> c[i] == b[i]
    ensures Count(c) == Count(b) + if b[k] then 0 else 1
  {
    var n := |b| - 1;
    if k < n {
      CountSet(b[..n], c[..n], k);
    } else {
      assert b[..n] == c[..n];
    }
  }

  lemma {:induction false} CountMono(b: seq<bool>, c: seq<bool>)
    requires |c| == |b| && forall i :: 0 <= i < |b| && b[i] ==> c[i]
    ensures Count(b) <= Count(c)
  {
    if b != [] {
      CountMono(b[..|b| - 1], c[..|b| - 1]);
    }
  }

  lemma CountLess(b: seq<bool>, c: seq<bool>, k: int)
    requires |c| == |b| && 0 <= k < |b| && !b[k] && c[k]
    requires forall i :: 0 <= i < |b| && b[i] ==> c[i]
    ensures Count(b) < Count(c)
  {
    CountSet(b, b[k := true], k);
    CountMono(b[k := true], c);
  }

  /** The directory entries in use. */
  ghost function Bits(m: Mem, d: int): (b: seq<bool>)
    ensures |b| == NENTRIES
  {
    seq(NENTRIES, i => Pde(m, d, i).present)
  }

  predicate NeedsTable(lo: int, hi: int, i: int) {
    lo < hi && Pdx(lo) <= i <= Pdx(hi - 1)
  }

  /** b together with the entries that pages lo..hi need. */
  ghost function With(b: seq<bool>, lo: int, hi: int): (c: seq<bool>)
    requires |b| == NENTRIES
    ensures |c| == NENTRIES
  {
    seq(NENTRIES, i requires 0 <= i < |b| => b[i] || NeedsTable(lo, hi, i))
  }

  lemma WithNothing(b: seq<bool>, lo: int)
    requires |b| == NENTRIES
    ensures With(b, lo, lo) == b
  {
  }

  lemma WithOne(b: seq<bool>, lo: int, v: int)
    requires |b| == NENTRIES && 0 <= lo <= v < VPAGES
    ensures With(b, lo, v + 1) == With(b, lo, v)[Pdx(v) := true]
  {
  }

  lemma WithWider(b: seq<bool>, lo: int, v: int, hi: int)
    requires |b| == NENTRIES && 0 <= lo <= v <= hi
    ensures Count(With(b, lo, v)) <= Count(With(b, lo, hi))
  {
    forall i | 0 <= i < NENTRIES && NeedsTable(lo, v, i)
      ensures NeedsTable(lo, hi, i)
    {
    }
    CountMono(With(b, lo, v), With(b, lo, hi));
  }

  lemma WithMore(b: seq<bool>, lo: int, v: int, hi: int)
    requires |b| == NENTRIES && 0 <= lo <= v < hi <= VPAGES && !With(b, lo, v)[Pdx(v)]
    ensures Count(With(b, lo, v)) < Count(With(b, lo, hi))
  {
    assert NeedsTable(lo, hi, Pdx(v));
    forall i | 0 <= i < NENTRIES && NeedsTable(lo, v, i)
      ensures NeedsTable(lo, hi, i)
    {
    }
    CountLess(With(b, lo, v), With(b, lo, hi), Pdx(v));
  }

  /** Tables that user pages 0..v need. */
  function TablesFor(v: int): int {
    (v + NENTRIES - 1) / NENTRIES
  }

  /** Of a directory with no user tables, mapping 0..v takes that many. */
  lemma {:induction false} UserTables(b: seq<bool>, v: int)
    requires |b| == NENTRIES && 0 <= v <= UPAGES && forall i :: 0 <= i < 512 ==> !b[i]
    ensures Count(With(b, 0, v)) == Count(b) + TablesFor(v)
  {
    if v == 0 {
      WithNothing(b, 0);
    } else {
      UserTables(b, v - 1);
      WithOne(b, 0, v - 1);
      NewTable(b, v - 1);
      CountSet(With(b, 0, v - 1), With(b, 0, v), Pdx(v - 1));
    }
  }

  /** Mapping page v after 0..v takes a new table exactly at a multiple of 1024. */
  lemma NewTable(b: seq<bool>, v: int)
    requires |b| == NENTRIES && 0 <= v < UPAGES && forall i :: 0 <= i < 512 ==> !b[i]
    ensures !With(b, 0, v)[Pdx(v)] <==> v % NENTRIES == 0
    ensures TablesFor(v + 1) == TablesFor(v) + if v % NENTRIES == 0 then 1 else 0
  {
  }
}
