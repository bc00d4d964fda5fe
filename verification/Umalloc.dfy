/** umalloc.c: malloc and free over a coalescing free list.  Addresses count header-sized
    units.  sbrk is a parameter: the address of a region that malloc has never seen, or -1. */
module Umalloc {
  import opened Common
  import opened FreeList

  const HEADER: int := 8
  const MINCORE: int := 4096

  /** The units malloc asks for, in 32-bit unsigned arithmetic. */
  function Units(nbytes: int): (n: int)
    requires 0 <= nbytes < U32
    ensures 1 <= n <= U32 / HEADER
  {
    (nbytes + HEADER - 1) % U32 / HEADER + 1
  }

  /** A block of that many units, less its header, holds nbytes exactly when the rounding up
      does not wrap around. */
  lemma UnitsCoverIff(nbytes: int)
    requires 0 <= nbytes < U32
    ensures (Units(nbytes) - 1) * HEADER >= nbytes <==> nbytes + HEADER - 1 < U32
  {
  }

  /** The argument of sbrk for nu units, as the int that it takes. */
  function SbrkArgument(nu: int): int {
    var bytes := nu * HEADER % U32;
    if bytes < U32 / 2 then bytes else bytes - U32
  }

  /** morecore asks for what it then records exactly when the request is below 2 gigabytes. */
  lemma SbrkArgumentIff(nu: int)
    requires 1 <= nu <= U32 / HEADER
    ensures SbrkArgument(nu) == nu * HEADER <==> nu < 0x1000_0000
  {
  }

  ghost function Range(a: int, n: int): (s: set<int>)
    ensures forall u :: u in s <==> a <= u < a + n
    decreases n
  {
    if n <= 0 then {} else {a} + Range(a + 1, n - 1)
  }

  ghost predicate InLive(h: Heap, live: set<int>, u: int) {
    exists a :: a in live && InBlock(h, a, u)
  }

  /** Live blocks overlap neither each other nor a free block, and together with the free
      blocks they are exactly the memory obtained from sbrk. */
  ghost predicate Accounted(h: Heap, base: int, order: seq<int>, live: set<int>, owned: set<int>) {
    && (forall a :: a in live ==> a in h.size && h.size[a] >= 1 && a > base)
    && (forall a, b, u :: a in live && b in live && InBlock(h, a, u) && InBlock(h, b, u) ==> a == b)
    && (forall a, u :: a in live && InBlock(h, a, u) ==> !InFree(h, order, u))
    && (forall u :: u in owned <==> InFree(h, order, u) || InLive(h, live, u))
  }

  lemma LiveNotListed(h: Heap, base: int, order: seq<int>, live: set<int>, owned: set<int>, a: int, i: int)
    requires List(h, base, order, -1) && Accounted(h, base, order, live, owned) && a in live && 0 <= i < |order|
    ensures order[i] != a
  {
    assert InBlock(h, a, a);
    if 1 <= i {
      assert InBlock(h, order[i], order[i]);
      FreeAt(h, order, i, order[i]);
    }
  }

  /** Accounted, in terms of intervals: no two blocks overlap, live or free. */
  lemma BlocksApart(h: Heap, base: int, order: seq<int>, live: set<int>, owned: set<int>, a: int, b: int)
    requires List(h, base, order, -1) && Accounted(h, base, order, live, owned)
    requires a in live && a != b && (b in live || b in order)
    ensures b in h.size && (a + h.size[a] <= b || b + h.size[b] <= a)
  {
    if b in live {
      assert a <= b < a + h.size[a] ==> InBlock(h, a, b) && InBlock(h, b, b);
      assert b <= a < b + h.size[b] ==> InBlock(h, a, a) && InBlock(h, b, a);
    } else {
      var i :| 0 <= i < |order| && order[i] == b;
      if 1 <= i {
        if a <= b < a + h.size[a] { FreeAt(h, order, i, b); assert InBlock(h, a, b); }
        if b <= a < b + h.size[b] { FreeAt(h, order, i, a); assert InBlock(h, a, a); }
      }
    }
  }

  /** The program may write anything into its blocks: only the headers on the free list and
      of live blocks matter. */
  lemma PayloadIsFree(h: Heap, g: Heap, base: int, order: seq<int>, live: set<int>, owned: set<int>)
    requires List(h, base, order, -1) && Accounted(h, base, order, live, owned)
    requires forall i :: 0 <= i < |order| ==>
               && order[i] in g.next && order[i] in g.size
               && g.next[order[i]] == h.next[order[i]] && g.size[order[i]] == h.size[order[i]]
    requires forall a :: a in live ==> a in g.size && g.size[a] == h.size[a]
    ensures List(g, base, order, -1) && Accounted(g, base, order, live, owned)
  {
    assert forall i, u :: 0 <= i < |order| ==> (InBlock(g, order[i], u) <==> InBlock(h, order[i], u));
    assert forall a, u :: a in live ==> (InBlock(g, a, u) <==> InBlock(h, a, u));
    forall u
      ensures InFree(g, order, u) <==> InFree(h, order, u)
      ensures InLive(g, live, u) <==> InLive(h, live, u)
    {
      if InLive(g, live, u) { var a :| a in live && InBlock(g, a, u); assert InBlock(h, a, u); }
      if InLive(h, live, u) { var a :| a in live && InBlock(h, a, u); assert InBlock(g, a, u); }
    }
  }

  /** A live block lies between two neighbours of the list. */
  lemma LiveFits(h: Heap, base: int, order: seq<int>, live: set<int>, owned: set<int>, bp: int, k: int)
    requires List(h, base, order, -1) && Accounted(h, base, order, live, owned) && bp in live
    requires 0 <= k < |order| && order[k] < bp && (k + 1 < |order| ==> bp < order[k + 1])
    ensures Fits(h, order, k, bp)
  {
    assert InBlock(h, bp, bp);
    if k >= 1 && bp < order[k] + h.size[order[k]] {
      FreeAt(h, order, k, bp);
    }
    if k + 1 < |order| {
      FreeAt(h, order, k + 1, order[k + 1]);
      assert !InBlock(h, bp, order[k + 1]);
    }
  }

  /** A change that frees the units of bp, keeps the size of every other live block and frees
      nothing else leaves all memory accounted for. */
  lemma FreedAccounted(h: Heap, g: Heap, base: int, order: seq<int>, o: seq<int>, live: set<int>, owned: set<int>, bp: int)
    requires Accounted(h, base, order, live, owned) && bp in live
    requires forall a :: a in live && a != bp ==> a in g.size && g.size[a] == h.size[a]
    requires forall u :: InFree(g, o, u) <==> InFree(h, order, u) || InBlock(h, bp, u)
    ensures Accounted(g, base, o, live - {bp}, owned)
  {
    assert forall a, u :: a in live && a != bp ==> (InBlock(g, a, u) <==> InBlock(h, a, u));
    forall u
      ensures InLive(h, live, u) <==> InLive(g, live - {bp}, u) || InBlock(h, bp, u)
    {
      if InLive(h, live, u) {
        var a :| a in live && InBlock(h, a, u);
        assert a != bp ==> a in live - {bp} && InBlock(g, a, u);
      }
    }
  }

  /** The other direction: block t, taken out of the free blocks, becomes live. */
  lemma TakenAccounted(h: Heap, g: Heap, base: int, order: seq<int>, o: seq<int>, live: set<int>, owned: set<int>, t: int)
    requires Accounted(h, base, order, live, owned) && t !in live
    requires forall a :: a in live ==> a in g.size && g.size[a] == h.size[a]
    requires t in g.size && g.size[t] >= 1 && t > base
    requires forall u :: InBlock(g, t, u) ==> InFree(h, order, u)
    requires forall u :: InFree(g, o, u) <==> InFree(h, order, u) && !InBlock(g, t, u)
    ensures Accounted(g, base, o, live + {t}, owned)
  {
    assert forall a, u :: a in live ==> (InBlock(g, a, u) <==> InBlock(h, a, u));
    forall u
      ensures InLive(g, live + {t}, u) <==> InLive(h, live, u) || InBlock(g, t, u)
    {
      if InLive(h, live, u) {
        var a :| a in live && InBlock(h, a, u);
        assert a in live + {t} && InBlock(g, a, u);
      }
    }
  }

  /** A fresh region joins the live blocks. */
  lemma FreshAccounted(h: Heap, base: int, order: seq<int>, live: set<int>, owned: set<int>, r: int, n: int)
    requires List(h, base, order, -1) && Accounted(h, base, order, live, owned)
    requires r > base && n >= 1 && Range(r, n) !! owned
    ensures var g := Heap(h.next, h.size[r := n]);
            List(g, base, order, -1) && Accounted(g, base, order, live + {r}, owned + Range(r, n))
  {
    var g := Heap(h.next, h.size[r := n]);
    assert r in Range(r, n);
    forall i | 0 <= i < |order|
      ensures order[i] != r
    {
      if 1 <= i { FreeAt(h, order, i, order[i]); }
    }
    forall a | a in live
      ensures a != r
    {
      assert InBlock(h, a, a);
      assert InLive(h, live, a);
    }
    FreshUnits(h, base, order, live, owned, r, n);
  }

  lemma NotLive(h: Heap, base: int, order: seq<int>, live: set<int>, owned: set<int>, r: int, n: int)
    requires Accounted(h, base, order, live, owned) && n >= 1 && Range(r, n) !! owned
    ensures r !in live
  {
  }

  lemma FreshUnits(h: Heap, base: int, order: seq<int>, live: set<int>, owned: set<int>, r: int, n: int)
    requires Accounted(h, base, order, live, owned) && r > base && n >= 1 && Range(r, n) !! owned
    requires r !in order && r !in live
    ensures Accounted(Heap(h.next, h.size[r := n]), base, order, live + {r}, owned + Range(r, n))
  {
    var g := Heap(h.next, h.size[r := n]);
    assert forall a, u :: a != r ==> (InBlock(g, a, u) <==> InBlock(h, a, u));
    forall u
      ensures InFree(g, order, u) <==> InFree(h, order, u)
      ensures InLive(g, live + {r}, u) <==> InLive(h, live, u) || r <= u < r + n
      ensures InFree(h, order, u) || InLive(h, live, u) ==> !(r <= u < r + n)
    {
      if InLive(h, live, u) {
        var a :| a in live && InBlock(h, a, u);
        assert a in live + {r} && InBlock(g, a, u);
      }
      if r <= u < r + n {
        assert r in live + {r} && InBlock(g, r, u);
        assert u in Range(r, n);
      }
    }
    forall a, b, u | a in live + {r} && b in live + {r} && InBlock(g, a, u) && InBlock(g, b, u)
      ensures a == b
    {
      assert a in live ==> InLive(h, live, u);
      assert b in live ==> InLive(h, live, u);
    }
  }

  lemma FreeAccounts(h: Heap, base: int, order: seq<int>, live: set<int>, owned: set<int>, bp: int, k: int)
      returns (o: seq<int>)
    requires List(h, base, order, -1) && Accounted(h, base, order, live, owned) && bp in live
    requires 0 <= k < |order| && order[k] < bp && (k + 1 < |order| ==> bp < order[k + 1])
    ensures h.next[order[k]] in h.next && h.next[order[k]] in h.size
    ensures var g := LinkDown(LinkUp(h, order[k], bp), order[k], bp);
            && List(g, base, o, -1) && order[k] in o && Accounted(g, base, o, live - {bp}, owned)
            && (forall a :: a in live && a != bp ==> a in g.size && g.size[a] == h.size[a])
            && forall u :: InFree(g, o, u) <==> InFree(h, order, u) || InBlock(h, bp, u)
  {
    LiveFits(h, base, order, live, owned, bp, k);
    o := FreeBlock(h, base, order, k, bp);
    var g := LinkDown(LinkUp(h, order[k], bp), order[k], bp);
    forall a | a in live && a != bp
      ensures a in g.size && g.size[a] == h.size[a]
    {
      LiveNotListed(h, base, order, live, owned, a, k);
    }
    FreedAccounted(h, g, base, order, o, live, owned, bp);
  }

  lemma FreeNotLive(h: Heap, base: int, order: seq<int>, live: set<int>, owned: set<int>, t: int)
    requires Accounted(h, base, order, live, owned) && InFree(h, order, t)
    ensures t !in live
  {
  }

  lemma TakeWholeAccounts(h: Heap, base: int, order: seq<int>, live: set<int>, owned: set<int>, k: int)
    requires List(h, base, order, -1) && Accounted(h, base, order, live, owned) && 1 <= k < |order|
    ensures order[k] !in live
    ensures var g := Heap(h.next[order[k - 1] := h.next[order[k]]], h.size);
            List(g, base, DropAt(order, k), -1) && Accounted(g, base, DropAt(order, k), live + {order[k]}, owned)
  {
    var t, o := order[k], DropAt(order, k);
    var g := Heap(h.next[order[k - 1] := h.next[t]], h.size);
    TakeWhole(h, base, order, k);
    FreeAt(h, order, k, t);
    FreeNotLive(h, base, order, live, owned, t);
    forall u
      ensures InFree(g, o, u) <==> InFree(h, order, u) && !InBlock(g, t, u)
      ensures InBlock(g, t, u) ==> InFree(h, order, u)
    {
      TakeWholeUnits(h, base, order, k, u);
      InFreeSize(g, h, o, u);
      if InBlock(g, t, u) { FreeAt(h, order, k, u); }
    }
    TakenAccounted(h, g, base, order, o, live, owned, t);
  }

  lemma TakeTailAccounts(h: Heap, base: int, order: seq<int>, live: set<int>, owned: set<int>, k: int, n: int)
    requires List(h, base, order, -1) && Accounted(h, base, order, live, owned)
    requires 1 <= k < |order| && 1 <= n < h.size[order[k]]
    ensures var g, t := SplitTail(h, order[k], n), order[k] + (h.size[order[k]] - n);
            t !in live && List(g, base, order, -1) && Accounted(g, base, order, live + {t}, owned)
    ensures forall a :: a in live ==> a != order[k]
  {
    var g, t := SplitTail(h, order[k], n), order[k] + (h.size[order[k]] - n);
    TakeTail(h, base, order, k, n);
    FreeAt(h, order, k, t);
    FreeNotLive(h, base, order, live, owned, t);
    FreeAt(h, order, k, order[k]);
    FreeNotLive(h, base, order, live, owned, order[k]);
    forall u
      ensures InFree(g, order, u) <==> InFree(h, order, u) && !InBlock(g, t, u)
      ensures InBlock(g, t, u) ==> InFree(h, order, u)
    {
      TakeTailUnits(h, base, order, k, n, u);
      if InBlock(g, t, u) { FreeAt(h, order, k, u); }
    }
    TakenAccounted(h, g, base, order, order, live, owned, t);
  }

  /** The position of the last free header below bp. */
  lemma {:induction false} Locate(order: seq<int>, bp: int, n: int) returns (k: int)
    requires 1 <= n <= |order| && order[0] < bp && (n < |order| ==> bp < order[n])
    requires forall i, j :: 0 <= i < j < |order| ==> order[i] < order[j]
    requires forall i :: 0 <= i < |order| ==> order[i] != bp
    ensures 0 <= k < |order| && order[k] < bp && (k + 1 < |order| ==> bp < order[k + 1])
    decreases n
  {
    if order[n - 1] < bp {
      k := n - 1;
    } else {
      k := Locate(order, bp, n - 1);
    }
  }

  /** Because free blocks never touch, a run of free units lies in a single one. */
  lemma {:induction false} RunInOneBlock(h: Heap, base: int, order: seq<int>, r: int, n: int) returns (j: int)
    requires List(h, base, order, -1) && n >= 1
    requires forall u :: r <= u < r + n ==> InFree(h, order, u)
    ensures 1 <= j < |order| && order[j] <= r && r + n <= order[j] + h.size[order[j]]
    decreases n
  {
    if n == 1 {
      assert InFree(h, order, r);
      j :| 1 <= j < |order| && InBlock(h, order[j], r);
    } else {
      j := RunInOneBlock(h, base, order, r, n - 1);
      var u := r + n - 1;
      assert InFree(h, order, u);
      var i :| 1 <= i < |order| && InBlock(h, order[i], u);
      if i < j { EndsBefore(h, base, order, i, j); } else if j < i { EndsBefore(h, base, order, j, i); }
    }
  }

  /** How far position i is ahead of position f on a circle of n, counting f itself as n. */
  function Ahead(f: int, i: int, n: int): int {
    if i > f then i - f else i + n - f
  }

  /** Every block from the one after f up to, not including, i is too small. */
  ghost predicate Searched(h: Heap, order: seq<int>, f: int, i: int, nunits: int)
    requires forall j :: 0 <= j < |order| ==> order[j] in h.size
  {
    forall j :: 0 <= j < |order| && Ahead(f, j, |order|) < Ahead(f, i, |order|) ==> h.size[order[j]] < nunits
  }

  function NextPos(i: int, n: int): int {
    if i + 1 < n then i + 1 else 0
  }

  lemma SearchedNone(h: Heap, order: seq<int>, f: int, nunits: int)
    requires forall j :: 0 <= j < |order| ==> order[j] in h.size
    requires 0 <= f < |order|
    ensures Searched(h, order, f, NextPos(f, |order|), nunits)
  {
  }

  lemma SearchedNext(h: Heap, order: seq<int>, f: int, i: int, nunits: int)
    requires forall j :: 0 <= j < |order| ==> order[j] in h.size
    requires 0 <= f < |order| && 0 <= i < |order| && Searched(h, order, f, i, nunits) && h.size[order[i]] < nunits
    ensures i != f ==> Searched(h, order, f, NextPos(i, |order|), nunits)
    ensures i != f ==> Ahead(f, i, |order|) < Ahead(f, NextPos(i, |order|), |order|) <= |order|
    ensures i == f ==> forall j :: 0 <= j < |order| ==> h.size[order[j]] < nunits
  {
  }

  /** Some free block has n units. */
  ghost predicate HasFit(h: Heap, order: seq<int>, n: int) {
    exists j :: 0 <= j < |order| && order[j] in h.size && h.size[order[j]] >= n
  }

  /** Block i is the first one with n units on the way round from the block after freep. */
  ghost predicate FirstOf(h: Heap, order: seq<int>, freep: int, i: int, n: int) {
    && 1 <= i < |order|
    && (forall j :: 0 <= j < |order| ==> order[j] in h.size)
    && h.size[order[i]] >= n
    && exists f :: 0 <= f < |order| && order[f] == freep && Searched(h, order, f, i, n)
  }

  lemma RunFits(h: Heap, base: int, order: seq<int>, r: int, n: int, m: int)
    requires List(h, base, order, -1) && n >= m && n >= 1
    requires forall u :: r <= u < r + n ==> InFree(h, order, u)
    ensures HasFit(h, order, m)
  {
    var j := RunInOneBlock(h, base, order, r, n);
    assert h.size[order[j]] >= m;
  }

  class Allocator {
    const base: int
    var next: map<int, int>    // s.ptr of every header
    var size: map<int, int>    // s.size of every header
    var freep: int             // 0 before the first call
    ghost var order: seq<int>  // the free list from base up
    ghost var live: set<int>   // headers of blocks handed out
    ghost var owned: set<int>  // units obtained from sbrk

    ghost function H(): Heap
      reads this
    {
      Heap(next, size)
    }

    ghost predicate Valid()
      reads this
    {
      && base > 0
      && (freep == 0 ==> live == {} && owned == {})
      && (freep != 0 ==> Ready())
    }

    ghost predicate Ready()
      reads this
    {
      List(H(), base, order, -1) && freep in order && Accounted(H(), base, order, live, owned)
    }

    /** No call has to come first, and some free block has n units. */
    ghost predicate CanServe(n: int)
      reads this
    {
      freep != 0 && HasFit(H(), order, n)
    }

    constructor (base: int)
      requires base > 0
      ensures Valid() && freep == 0 && this.base == base
    {
      this.base := base;
      next, size, freep := map[], map[], 0;
      order, live, owned := [], {}, {};
    }

    /** The search loop of free(): it stops at the header below bp within one turn of the
        circle. */
    method FindBelow(bp: int) returns (p: int, ghost k: int)
      requires Ready() && bp in live
      ensures 0 <= k < |order| && p == order[k] < bp && (k + 1 < |order| ==> bp < order[k + 1])
      ensures forall a :: a in order && a < bp ==> a <= p
    {
      forall i | 0 <= i < |order|
        ensures order[i] != bp
      {
        LiveNotListed(H(), base, order, live, owned, bp, i);
      }
      k := Locate(order, bp, |order|);
      p := freep;
      ghost var i :| 0 <= i < |order| && order[i] == freep;
      while !(bp > p && bp < next[p])
        invariant 0 <= i < |order| && p == order[i]
        decreases if i <= k then k - i else k + |order| - i
      {
        assert next[p] == Succ(order, i);
        if p >= next[p] && (bp > p || bp < next[p]) {
          break;
        }
        p := next[p];
        i := if i + 1 < |order| then i + 1 else 0;
      }
      assert next[p] == Succ(order, i);
      k := i;
    }

    /** The pointer work of free(), after the search. */
    method Link(p: int, bp: int)
      requires bp in size && p in size && p in next && next[p] in next && next[p] in size
      modifies this`next, this`size
      ensures H() == LinkDown(LinkUp(old(H()), p, bp), p, bp)
    {
      if bp + size[bp] == next[p] {
        next, size := next[bp := next[next[p]]], size[bp := size[bp] + size[next[p]]];
      } else {
        next := next[bp := next[p]];
      }
      if p + size[p] == bp {
        next, size := next[p := next[bp]], size[p := size[p] + size[bp]];
      } else {
        next := next[p := bp];
      }
    }

    /** ap must be the address of a live block. */
    method Free(ap: int)
      requires Ready() && ap - 1 in live
      modifies this
      ensures Ready() && live == old(live) - {ap - 1} && owned == old(owned)
      ensures forall a :: a in live ==> a in size && size[a] == old(size[a])
      ensures forall u :: InFree(H(), order, u) <==> InFree(old(H()), old(order), u) || InBlock(old(H()), ap - 1, u)
      // the next search starts at the free header below the block
      ensures freep in old(order) && freep < ap - 1 && forall a :: a in old(order) && a < ap - 1 ==> a <= freep
    {
      var bp := ap - 1;
      ghost var h := H();
      assert bp in h.size;
      hide InFree, InBlock, Accounted;
      var p, k := FindBelow(bp);
      assert p in size && p in next;
      hide List;
      ghost var o := FreeAccounts(h, base, order, live, owned, bp, k);
      Link(p, bp);
      freep := p;
      order, live := o, live - {bp};
    }

    /** Get a region from sbrk and free it; afterwards some free block has nu units. */
    method MoreCore(nu0: int, region: int) returns (ok: bool)
      requires Ready() && nu0 >= 1
      requires region != -1 ==> region > base && Range(region, Max(nu0, MINCORE)) !! owned
      modifies this
      ensures Ready() && live == old(live) && (forall a :: a in live ==> size[a] == old(size[a]))
      ensures ok <==> region != -1
      ensures !ok ==> H() == old(H()) && order == old(order) && owned == old(owned) && freep == old(freep)
      ensures ok ==> owned == old(owned) + Range(region, Max(nu0, MINCORE))
      ensures ok ==> HasFit(H(), order, nu0)
    {
      hide List, InLive;
      var nu := if nu0 < MINCORE then MINCORE else nu0;
      if region == -1 {
        return false;
      }
      FreshAccounted(H(), base, order, live, owned, region, nu);
      ghost var keep := live;
      NotLive(H(), base, order, live, owned, region, nu);
      size := size[region := nu];
      live, owned := live + {region}, owned + Range(region, nu);
      Free(region + 1);
      assert live == keep;
      RunFits(H(), base, order, region, nu, nu0);
      ok := true;
    }

    method TakeAll(prevp: int, p: int, ghost k: int)
      requires Ready() && 1 <= k < |order| && order[k] == p && order[k - 1] == prevp
      modifies this
      ensures Ready() && freep == prevp && owned == old(owned)
      ensures p !in old(live) && live == old(live) + {p} && size == old(size) && order == DropAt(old(order), k)
    {
      ghost var h, o := H(), DropAt(order, k);
      TakeWholeAccounts(h, base, order, live, owned, k);
      next := next[prevp := next[p]];
      freep := prevp;
      assert H() == Heap(h.next[order[k - 1] := h.next[order[k]]], h.size);
      assert o[k - 1] == prevp;
      order, live := o, live + {p};
    }

    method TakeEnd(prevp: int, p0: int, nunits: int, ghost k: int) returns (p: int)
      requires Ready() && 1 <= k < |order| && order[k] == p0 && prevp in order && 1 <= nunits < size[p0]
      modifies this
      ensures Ready() && freep == prevp && owned == old(owned)
      ensures p !in old(live) && live == old(live) + {p} && p == p0 + old(size[p0]) - nunits
      ensures size == old(size)[p0 := old(size[p0]) - nunits][p := nunits] && next == old(next) && order == old(order)
      ensures forall a :: a in old(live) ==> a in size && size[a] == old(size[a])
    {
      ghost var h := H();
      TakeTailAccounts(h, base, order, live, owned, k, nunits);
      size := size[p0 := size[p0] - nunits];
      p := p0 + size[p0];
      size := size[p := nunits];
      freep := prevp;
      assert H() == SplitTail(h, p0, nunits);
      live := live + {p};
    }

    /** Take nunits out of block p0: all of it, or its tail. */
    method Take(prevp: int, p0: int, nunits: int, ghost k: int) returns (p: int)
      requires Ready() && 1 <= k < |order| && order[k] == p0 && order[k - 1] == prevp && 1 <= nunits <= size[p0]
      modifies this
      ensures Ready() && freep == prevp && owned == old(owned)
      ensures p !in old(live) && live == old(live) + {p} && p in size && size[p] == nunits
      ensures p == p0 + old(size[p0]) - nunits && p > base && freep >= base
      ensures order == if p == p0 then DropAt(old(order), k) else old(order)
      ensures forall a :: a in old(live) ==> a in size && size[a] == old(size[a])
    {
      if size[p0] == nunits {
        TakeAll(prevp, p0, k);
        p := p0;
      } else {
        p := TakeEnd(prevp, p0, nunits, k);
      }
    }

    /** The first call makes base the only free header. */
    method Start()
      requires Valid()
      modifies this
      ensures Ready() && live == old(live) && owned == old(owned)
      ensures forall a :: a in live ==> a in old(size) && size[a] == old(size[a])
      ensures freep >= base
      ensures if old(freep) == 0 then freep == base && order == [base] && size[base] == 0
              else freep == old(freep) && order == old(order) && H() == old(H())
    {
      if freep == 0 {
        next, size := next[base := base], size[base := 0];
        freep, order := base, [base];
      }
    }

    /** One lap of malloc's loop, from the block after freep round to freep itself. */
    method FirstFit(nunits: int) returns (found: bool, prevp: int, p: int, ghost i: int)
      requires List(H(), base, order, -1) && freep in order && nunits >= 1
      ensures found <==> HasFit(H(), order, nunits)
      ensures found ==> FirstOf(H(), order, freep, i, nunits) && order[i] == p && order[i - 1] == prevp
    {
      hide Searched;
      prevp := freep;
      ghost var f :| 0 <= f < |order| && order[f] == freep;
      ghost var pi := f;
      i := NextPos(f, |order|);
      SearchedNone(H(), order, f, nunits);
      assert next[prevp] == Succ(order, f);
      p := next[prevp];
      while true
        invariant 0 <= pi < |order| && order[pi] == prevp
        invariant i == NextPos(pi, |order|) && order[i] == p
        invariant Searched(H(), order, f, i, nunits)
        decreases |order| - Ahead(f, i, |order|)
      {
        if size[p] >= nunits {
          return true, prevp, p, i;
        }
        SearchedNext(H(), order, f, i, nunits);
        if p == freep {
          assert i == f;
          return false, prevp, p, i;
        }
        assert next[p] == Succ(order, i);
        prevp, pi := p, i;
        p, i := next[p], NextPos(i, |order|);
      }
    }

    /** The search, with one retry after morecore, which cannot fail. */
    method FindOrGrow(nunits: int, region: int) returns (found: bool, prevp: int, p: int, ghost i: int)
      requires Ready() && nunits >= 1
      requires region != -1 ==> region > base && Range(region, Max(nunits, MINCORE)) !! owned
      modifies this
      ensures Ready() && live == old(live) && (forall a :: a in live ==> size[a] == old(size[a]))
      ensures found ==> FirstOf(H(), order, freep, i, nunits) && order[i] == p && order[i - 1] == prevp
      ensures found <==> region != -1 || HasFit(old(H()), old(order), nunits)
      ensures if region == -1 || HasFit(old(H()), old(order), nunits)
              then H() == old(H()) && order == old(order) && freep == old(freep) && owned == old(owned)
              else owned == old(owned) + Range(region, Max(nunits, MINCORE))
    {
      hide Searched, List, Accounted;
      found, prevp, p, i := FirstFit(nunits);
      if !found {
        var ok := MoreCore(nunits, region);
        if ok {
          found, prevp, p, i := FirstFit(nunits);
        }
      }
    }

    /** First fit: the first block after freep that is large enough gives up its tail, or all of
        itself.  Only when there is no such block is sbrk asked for memory, once; region is what
        it would answer.  The result is 0 exactly when it is asked and refuses. */
    method Malloc(nbytes: int, region: int) returns (r: int, ghost i: int)
      requires Valid() && 0 <= nbytes < U32
      requires region != -1 ==> region > base && Range(region, Max(Units(nbytes), MINCORE)) !! owned
      modifies this
      ensures Valid()
      ensures r == 0 <==> region == -1 && !old(CanServe(Units(nbytes)))
      ensures r == 0 ==> live == old(live) && owned == old(owned)
      ensures r != 0 ==> r - 1 !in old(live) && live == old(live) + {r - 1} && r - 1 in size && size[r - 1] == Units(nbytes)
      ensures forall a :: a in old(live) ==> a in old(size) && a in size && size[a] == old(size[a])
      ensures owned == if region == -1 || old(CanServe(Units(nbytes))) then old(owned)
                       else old(owned) + Range(region, Max(Units(nbytes), MINCORE))
      ensures old(CanServe(Units(nbytes))) ==>
                && FirstOf(old(H()), old(order), old(freep), i, Units(nbytes))
                && r - 1 == old(order)[i] + old(size)[old(order)[i]] - Units(nbytes)
                && freep == old(order)[i - 1]
                && order == if r - 1 == old(order)[i] then DropAt(old(order), i) else old(order)
    {
      hide Searched, List, Accounted;
      var nunits := Units(nbytes);
      Start();
      assert old(freep) == 0 ==> !HasFit(H(), order, nunits);
      var found, prevp, p, at := FindOrGrow(nunits, region);
      i := at;
      if !found {
        return 0, i;
      }
      p := Take(prevp, p, nunits, i);
      r := p + 1;
    }
  }
}
