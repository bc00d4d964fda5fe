/** The buffer cache of bio.c: NBUF buffers on a circular doubly linked list threaded
    through prev/next, most recently released first.  Buffers are indices into one array;
    index NBUF is the list head. */
module BufferCache {
  import opened Common
  import opened Param

  const HEAD: nat := NBUF

  datatype Buf = Buf(valid: bool, dirty: bool, dev: int, blockno: int, refcnt: int, prev: int, next: int)

  /** Position i of the ring that starts and ends at the head. */
  function At(order: seq<int>, i: int): int {
    if 1 <= i <= |order| then order[i - 1] else HEAD
  }

  ghost predicate Listed(order: seq<int>) {
    && (forall i :: 0 <= i < |order| ==> 0 <= order[i] < NBUF)
    && (forall i, j :: 0 <= i < j < |order| ==> order[i] != order[j])
  }

  /** prev and next go through exactly the buffers of order, in that order, and back. */
  ghost predicate Ring(s: seq<Buf>, order: seq<int>) {
    && |s| == NBUF + 1
    && Listed(order)
    && (forall i :: 0 <= i <= |order| ==> s[At(order, i)].next == At(order, i + 1))
    && (forall i :: 0 <= i <= |order| ==> s[At(order, i + 1)].prev == At(order, i))
  }

  function SetNext(s: seq<Buf>, b: int, n: int): seq<Buf>
    requires 0 <= b < |s|
  {
    s[b := s[b].(next := n)]
  }

  function SetPrev(s: seq<Buf>, b: int, p: int): seq<Buf>
    requires 0 <= b < |s|
  {
    s[b := s[b].(prev := p)]
  }

  function Without(order: seq<int>, k: int): seq<int>
    requires 0 <= k < |order|
  {
    order[..k] + order[k + 1..]
  }

  /** The ring position of a listed buffer. */
  ghost function Pos(order: seq<int>, b: int): (i: int)
    requires b in order
    ensures 1 <= i <= |order| && At(order, i) == b
  {
    var j :| 0 <= j < |order| && order[j] == b;
    j + 1
  }

  lemma WithoutAt(order: seq<int>, k: int)
    requires Listed(order) && 0 <= k < |order|
    ensures var o := Without(order, k);
            && Listed(o) && |o| == |order| - 1 && order[k] !in o
            && forall i :: 0 <= i <= |o| + 1 ==> At(o, i) == At(order, if i <= k then i else i + 1)
  {
  }

  /** Linking the two neighbours of a buffer to each other takes it off the ring. */
  lemma UnlinkRing(s: seq<Buf>, order: seq<int>, k: int)
    requires Ring(s, order) && 0 <= k < |order|
    ensures var b := order[k];
            && s[b].next == At(order, k + 2) && s[b].prev == At(order, k)
            && Ring(SetNext(SetPrev(s, s[b].next, s[b].prev), s[b].prev, s[b].next), Without(order, k))
  {
    var b, p, n := order[k], At(order, k), At(order, k + 2);
    assert At(order, k + 1) == b;
    assert s[b].next == n && s[b].prev == p;
    var s', o' := SetNext(SetPrev(s, n, p), p, n), Without(order, k);
    WithoutAt(order, k);
    forall i | 0 <= i <= |o'|
      ensures s'[At(o', i)].next == At(o', i + 1) && s'[At(o', i + 1)].prev == At(o', i)
    {
      var j := if i <= k then i else i + 1;
      assert s[At(order, j)].next == At(order, j + 1);
      if i == k {
        assert At(o', i) == p && At(o', i + 1) == n;
      } else {
        assert At(o', i + 1) == At(order, j + 1);
      }
    }
  }

  /** Put b, on no list, right after the head. */
  lemma PushRing(s: seq<Buf>, order: seq<int>, b: int)
    requires Ring(s, order) && 0 <= b < NBUF && b !in order
    ensures var h := s[HEAD].next;
            && h == At(order, 1)
            && Ring(SetNext(SetPrev(SetPrev(SetNext(s, b, h), b, HEAD), h, b), HEAD, b), [b] + order)
  {
    assert At(order, 0) == HEAD;
    var o' := [b] + order;
    assert forall i :: 2 <= i <= |o'| + 1 ==> At(o', i) == At(order, i - 1);
    assert At(o', 1) == b && At(o', 0) == HEAD;
  }

  predicate Is(b: Buf, dev: int, blockno: int) {
    b.dev == dev && b.blockno == blockno
  }

  /** Not in use: no reference, and nothing that log.c still has to commit. */
  predicate Free(b: Buf) {
    b.refcnt == 0 && !b.dirty
  }

  /** No two buffers hold the same block; never-used buffers all have identity (0,0). */
  ghost predicate Unique(s: seq<Buf>)
    requires |s| == NBUF + 1
  {
    forall i, j :: 0 <= i < j < NBUF && Is(s[i], s[j].dev, s[j].blockno) ==> Is(s[i], 0, 0)
  }

  /** The list runs from the most to the least recently released buffer. */
  ghost predicate ByRelease(order: seq<int>, stamp: seq<int>, clock: int)
    requires Listed(order) && |stamp| == NBUF
  {
    && (forall i, j :: 0 <= i < j < |order| ==> stamp[order[i]] > stamp[order[j]])
    && (forall b :: 0 <= b < NBUF ==> stamp[b] < clock)
  }

  /** The same buffers, whatever their list links. */
  ghost predicate SameButLinks(s: seq<Buf>, s': seq<Buf>) {
    |s| == |s'| && forall c :: 0 <= c < |s| ==> s'[c] == s[c].(prev := s'[c].prev, next := s'[c].next)
  }

  lemma LinksKeepUnique(s: seq<Buf>, s': seq<Buf>)
    requires |s| == NBUF + 1 && Unique(s) && SameButLinks(s, s')
    ensures Unique(s')
  {
  }

  /** order with its k-th buffer moved to the front. */
  function Front(order: seq<int>, k: int): seq<int>
    requires 0 <= k < |order|
  {
    [order[k]] + Without(order, k)
  }

  lemma FrontPermutes(order: seq<int>, k: int)
    requires 0 <= k < |order|
    ensures var o := Front(order, k);
            |o| == |order| && multiset(o) == multiset(order) && forall c :: c in order ==> c in o
  {
    var o := [order[k]] + Without(order, k);
    assert order == order[..k] + [order[k]] + order[k + 1..];
    forall c | c in order
      ensures c in o
    {
      assert c in multiset(o);
    }
  }

  lemma ReleaseOrder(order: seq<int>, stamp: seq<int>, clock: int, k: int)
    requires Listed(order) && |stamp| == NBUF && ByRelease(order, stamp, clock) && 0 <= k < |order|
    ensures var o := Front(order, k);
            && Listed(o) && ByRelease(o, stamp[order[k] := clock], clock + 1)
            && (forall b :: b in order ==> b in o) && multiset(o) == multiset(order)
  {
    var w := Without(order, k);
    WithoutAt(order, k);
    FrontPermutes(order, k);
    assert forall i :: 0 <= i < |w| ==> w[i] == order[if i < k then i else i + 1];
  }

  class Cache {
    var bufs: array<Buf>
    ghost var order: seq<int>   // the buffers from head.next to head.prev
    ghost var stamp: seq<int>   // when each buffer's refcnt last fell to 0
    ghost var clock: int

    ghost predicate Valid()
      reads this, bufs
    {
      && bufs.Length == NBUF + 1
      && Ring(bufs[..], order)
      && |order| == NBUF && (forall b :: 0 <= b < NBUF ==> b in order)
      && |stamp| == NBUF && ByRelease(order, stamp, clock)
      && Unique(bufs[..])
      && (forall b :: 0 <= b < NBUF ==> bufs[b].refcnt >= 0)
    }

    /** binit: an empty ring, then every buffer pushed to the front. */
    constructor ()
      ensures Valid() && fresh(bufs)
      ensures forall b :: 0 <= b < NBUF ==> Is(bufs[b], 0, 0) && Free(bufs[b]) && !bufs[b].valid
    {
      bufs := new Buf[NBUF + 1](i => Buf(false, false, 0, 0, 0, HEAD, HEAD));
      order, stamp, clock := [], seq(NBUF, i => i), NBUF;
      new;
      ghost var s := bufs[..];
      var b := 0;
      while b < NBUF
        invariant 0 <= b <= NBUF && bufs.Length == NBUF + 1 && fresh(bufs)
        invariant |order| == b && forall i :: 0 <= i < b ==> order[i] == b - 1 - i
        invariant Ring(bufs[..], order) && SameButLinks(s, bufs[..])
        invariant stamp == seq(NBUF, i => i) && clock == NBUF
      {
        PushFront(b, order);
        order := [b] + order;
        b := b + 1;
      }
      forall c | 0 <= c < NBUF
        ensures c in order && Is(bufs[c], 0, 0) && Free(bufs[c])
      {
        assert order[NBUF - 1 - c] == c && s[c].dev == 0;
      }
    }

    /** Forward scan: is the block already cached? */
    method FindCached(dev: int, blockno: int) returns (b: int)
      requires Valid()
      ensures b == HEAD <==> forall c :: 0 <= c < NBUF ==> !Is(bufs[c], dev, blockno)
      ensures b != HEAD ==> 0 <= b < NBUF && Is(bufs[b], dev, blockno)
    {
      ghost var i := 1;
      assert At(order, 0) == HEAD;
      b := bufs[HEAD].next;
      while b != HEAD
        invariant 1 <= i <= NBUF + 1 && b == At(order, i)
        invariant forall j :: 1 <= j < i ==> !Is(bufs[At(order, j)], dev, blockno)
        decreases NBUF + 1 - i
      {
        if bufs[b].dev == dev && bufs[b].blockno == blockno {
          return;
        }
        b := bufs[b].next;
        i := i + 1;
      }
      forall c | 0 <= c < NBUF
        ensures !Is(bufs[c], dev, blockno)
      {
        assert At(order, Pos(order, c)) == c;
      }
    }

    /** Backward scan: the least recently released buffer that nobody uses. */
    method FindFree() returns (b: int)
      requires Valid()
      ensures b == HEAD <==> forall c :: 0 <= c < NBUF ==> !Free(bufs[c])
      ensures b != HEAD ==> 0 <= b < NBUF && Free(bufs[b])
      ensures b != HEAD ==> forall c :: 0 <= c < NBUF && c != b && Free(bufs[c]) ==> stamp[b] < stamp[c]
    {
      ghost var i := NBUF;
      assert At(order, NBUF + 1) == HEAD;
      b := bufs[HEAD].prev;
      while b != HEAD
        invariant 0 <= i <= NBUF && b == At(order, i)
        invariant forall j :: i < j <= NBUF ==> !Free(bufs[At(order, j)])
        decreases i
      {
        if bufs[b].refcnt == 0 && !bufs[b].dirty {
          forall c | 0 <= c < NBUF && c != b && Free(bufs[c])
            ensures stamp[b] < stamp[c]
          {
            assert At(order, Pos(order, c)) == c;
          }
          return;
        }
        assert At(order, i - 1 + 1) == b;
        b := bufs[b].prev;
        i := i - 1;
      }
      forall c | 0 <= c < NBUF
        ensures !Free(bufs[c])
      {
        assert At(order, Pos(order, c)) == c;
      }
    }

    /** A buffer for (dev, blockno), or the head where the source panics. */
    method Bget(dev: int, blockno: int) returns (b: int)
      requires Valid()
      modifies bufs
      ensures Valid()
      ensures 0 <= b < NBUF || b == HEAD
      // a cached block is found, wherever it is, and gains a reference
      ensures (exists c :: 0 <= c < NBUF && old(Is(bufs[c], dev, blockno))) ==>
                && b != HEAD && old(Is(bufs[b], dev, blockno))
                && bufs[b] == old(bufs[b]).(refcnt := old(bufs[b].refcnt) + 1)
      // otherwise the least recently released free buffer is recycled
      ensures (forall c :: 0 <= c < NBUF ==> !old(Is(bufs[c], dev, blockno))) && b != HEAD ==>
                && old(Free(bufs[b]))
                && bufs[b] == old(bufs[b]).(dev := dev, blockno := blockno, valid := false, dirty := false, refcnt := 1)
                && forall c :: 0 <= c < NBUF && c != b && old(Free(bufs[c])) ==> stamp[b] < stamp[c]
      ensures b == HEAD <==> forall c :: 0 <= c < NBUF ==> !old(Is(bufs[c], dev, blockno)) && !old(Free(bufs[c]))
      ensures forall c :: 0 <= c <= NBUF && c != b ==> bufs[c] == old(bufs[c])
    {
      b := FindCached(dev, blockno);
      if b != HEAD {
        bufs[b] := bufs[b].(refcnt := bufs[b].refcnt + 1);
        return;
      }
      b := FindFree();
      if b != HEAD {
        bufs[b] := bufs[b].(dev := dev, blockno := blockno, valid := false, dirty := false, refcnt := 1);
      }
    }

    /** Take b off the list. */
    method Unlink(b: int, ghost o: seq<int>, ghost k: int)
      requires bufs.Length == NBUF + 1 && Ring(bufs[..], o) && 0 <= k < |o| && o[k] == b
      modifies bufs
      ensures Ring(bufs[..], Without(o, k)) && SameButLinks(old(bufs[..]), bufs[..])
    {
      UnlinkRing(bufs[..], o, k);
      bufs[bufs[b].next] := bufs[bufs[b].next].(prev := bufs[b].prev);
      bufs[bufs[b].prev] := bufs[bufs[b].prev].(next := bufs[b].next);
    }

    /** Put b right after the head. */
    method PushFront(b: int, ghost o: seq<int>)
      requires bufs.Length == NBUF + 1 && Ring(bufs[..], o) && 0 <= b < NBUF && b !in o
      modifies bufs
      ensures Ring(bufs[..], [b] + o) && SameButLinks(old(bufs[..]), bufs[..])
    {
      PushRing(bufs[..], o, b);
      bufs[b] := bufs[b].(next := bufs[HEAD].next);
      bufs[b] := bufs[b].(prev := HEAD);
      bufs[bufs[HEAD].next] := bufs[bufs[HEAD].next].(prev := b);
      bufs[HEAD] := bufs[HEAD].(next := b);
    }

    method MoveToFront(b: int)
      requires Valid() && 0 <= b < NBUF
      modifies this, bufs
      ensures Valid() && bufs == old(bufs) && SameButLinks(old(bufs[..]), bufs[..])
      ensures order[0] == b && multiset(order) == multiset(old(order))
      ensures stamp == old(stamp)[b := old(clock)] && clock == old(clock) + 1
    {
      ghost var k := Pos(order, b) - 1;
      ghost var s, o := bufs[..], Front(order, k);
      ReleaseOrder(order, stamp, clock, k);
      WithoutAt(order, k);
      Unlink(b, order, k);
      PushFront(b, Without(order, k));
      LinksKeepUnique(s, bufs[..]);
      order, stamp, clock := o, stamp[b := clock], clock + 1;
    }

    /** Drop a reference; the last one moves the buffer to the front of the list. */
    method Brelse(b: int)
      requires Valid() && 0 <= b < NBUF && bufs[b].refcnt >= 1
      modifies this, bufs
      ensures Valid() && bufs == old(bufs)
      ensures SameButLinks(old(bufs[..])[b := old(bufs[b]).(refcnt := old(bufs[b].refcnt) - 1)], bufs[..])
      ensures bufs[b].refcnt > 0 ==> order == old(order) && stamp == old(stamp) && clock == old(clock)
      ensures bufs[b].refcnt == 0 ==>
                && order[0] == b && multiset(order) == multiset(old(order))
                && stamp == old(stamp)[b := old(clock)] && clock == old(clock) + 1
    {
      bufs[b] := bufs[b].(refcnt := bufs[b].refcnt - 1);
      if bufs[b].refcnt == 0 {
        MoveToFront(b);
      }
    }
  }

  // --------------------------------------------------- buffers during a commit

  /** The buffers that bget may not recycle: referenced, or dirty. */
  function Busy(s: seq<Buf>): set<int> {
    set b | 0 <= b < NBUF && b < |s| && !Free(s[b])
  }

  lemma {:induction false} Pigeons(a: set<int>, n: nat)
    requires forall b :: b in a ==> 0 <= b < n
    ensures |a| <= n && (|a| == n <==> forall b :: 0 <= b < n ==> b in a)
  {
    if n > 0 {
      Pigeons(a - {n - 1}, n - 1);
      if n - 1 in a {
        assert forall b :: 0 <= b < n - 1 ==> (b in a <==> b in a - {n - 1});
      } else {
        assert a - {n - 1} == a;
      }
    } else {
      assert forall b :: b !in a;
      assert a == {};
    }
  }

  /** Some buffer can be recycled exactly when fewer than NBUF are busy. */
  lemma RoomIff(s: seq<Buf>)
    requires |s| == NBUF + 1
    ensures (forall b :: 0 <= b < NBUF ==> !Free(s[b])) <==> |Busy(s)| == NBUF
  {
    Pigeons(Busy(s), NBUF);
    assert forall b :: 0 <= b < NBUF ==> (b in Busy(s) <==> !Free(s[b]));
  }

  ghost predicate InDirty(s: seq<Buf>, dev: int, blockno: int)
    requires |s| == NBUF + 1
  {
    exists b :: 0 <= b < NBUF && Is(s[b], dev, blockno) && s[b].dirty
  }

  /** Every block of the in-memory log list is in a dirty buffer, where log_write left it. */
  ghost predicate Pinned(s: seq<Buf>, dev: int, lh: seq<int>) {
    && |s| == NBUF + 1
    && (forall i, j :: 0 <= i < j < |lh| ==> lh[i] != lh[j])
    && forall i :: 0 <= i < |lh| ==> InDirty(s, dev, lh[i])
  }

  /** The buffers that hold blocks of the list. */
  function Holding(s: seq<Buf>, dev: int, lh: seq<int>): set<int> {
    set b | 0 <= b < NBUF && b < |s| && s[b].dirty && s[b].dev == dev && s[b].blockno in lh
  }

  lemma {:induction false} HoldingAll(s: seq<Buf>, dev: int, lh: seq<int>)
    requires Pinned(s, dev, lh)
    ensures |Holding(s, dev, lh)| >= |lh|
    decreases |lh|
  {
    if lh != [] {
      var init, x := lh[..|lh| - 1], lh[|lh| - 1];
      assert forall i :: 0 <= i < |init| ==> init[i] == lh[i];
      HoldingAll(s, dev, init);
      assert InDirty(s, dev, x);
      var b :| 0 <= b < NBUF && Is(s[b], dev, x) && s[b].dirty;
      CardSubset(Holding(s, dev, init) + {b}, Holding(s, dev, lh));
    }
  }

  lemma {:induction false} HoldingAtMost(s: seq<Buf>, dev: int, lh: seq<int>)
    requires |s| == NBUF + 1 && Unique(s) && dev != 0
    ensures |Holding(s, dev, lh)| <= |lh|
    decreases |lh|
  {
    if lh != [] {
      var init, x := lh[..|lh| - 1], lh[|lh| - 1];
      HoldingAtMost(s, dev, init);
      if b :| b in Holding(s, dev, lh) && s[b].blockno == x {
        CardSubset(Holding(s, dev, lh), Holding(s, dev, init) + {b});
      } else {
        CardSubset(Holding(s, dev, lh), Holding(s, dev, init));
      }
    }
  }

  /** A list of NBUF blocks takes every buffer. */
  lemma ListTakesAll(s: seq<Buf>, dev: int, lh: seq<int>, blockno: int)
    requires Pinned(s, dev, lh) && |lh| >= NBUF && blockno !in lh
    ensures |Busy(s)| == NBUF && forall b :: 0 <= b < NBUF ==> !Is(s[b], dev, blockno)
  {
    var held := Holding(s, dev, lh);
    HoldingAll(s, dev, lh);
    Pigeons(held, NBUF);
    assert forall b :: 0 <= b < NBUF ==> b in held && s[b].blockno in lh;
    RoomIff(s);
  }

  /** write_log reads a log block while the blocks of the list are pinned.  It panics exactly
      when the log block is not cached and NBUF buffers are dirty or referenced; so always when
      the list has NBUF blocks, which is also LOGSIZE, and never when nothing but a shorter
      list is busy. */
  method ReadLogBlock(cache: Cache, dev: int, lh: seq<int>, blockno: int) returns (b: int)
    requires cache.Valid() && dev != 0 && Pinned(cache.bufs[..], dev, lh) && blockno !in lh
    modifies cache.bufs
    ensures cache.Valid()
    ensures b == HEAD <==>
              |old(Busy(cache.bufs[..]))| == NBUF && forall c :: 0 <= c < NBUF ==> !old(Is(cache.bufs[c], dev, blockno))
    ensures |lh| >= NBUF ==> b == HEAD
    ensures |lh| < NBUF && old(Busy(cache.bufs[..])) == old(Holding(cache.bufs[..], dev, lh)) ==> b != HEAD
  {
    ghost var s := cache.bufs[..];
    RoomIff(s);
    if |lh| >= NBUF {
      ListTakesAll(s, dev, lh, blockno);
    } else if Busy(s) == Holding(s, dev, lh) {
      HoldingAtMost(s, dev, lh);
    }
    b := cache.Bget(dev, blockno);
  }
}
