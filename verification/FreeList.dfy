/** The free list of umalloc.c as values: headers addressed in header-sized units, linked
    through next in a circle that starts at the static header `base`. */
module FreeList {

  datatype Heap = Heap(next: map<int, int>, size: map<int, int>)

  /** The header after position i of the circle. */
  function Succ(order: seq<int>, i: int): int
    requires 0 <= i < |order|
  {
    if i + 1 < |order| then order[i + 1] else order[0]
  }

  /** order lists the free headers by address; links close the circle; blocks do not touch,
      except that block w may end where the next one starts. */
  ghost predicate List(h: Heap, base: int, order: seq<int>, w: int) {
    && |order| >= 1 && order[0] == base
    && (forall i :: 0 <= i < |order| ==> order[i] in h.next && order[i] in h.size)
    && (forall i, j :: 0 <= i < j < |order| ==> order[i] < order[j])
    && (forall i {:trigger Succ(order, i)} :: 0 <= i < |order| ==> h.next[order[i]] == Succ(order, i))
    && h.size[base] == 0
    && (forall i :: 1 <= i < |order| ==> h.size[order[i]] >= 1)
    && (forall i {:trigger Succ(order, i)} :: 1 <= i < |order| - 1 ==>
          && order[i] + h.size[order[i]] <= Succ(order, i)
          && (i != w ==> order[i] + h.size[order[i]] != Succ(order, i)))
  }

  /** Unit u lies in a free block. */
  ghost predicate InFree(h: Heap, order: seq<int>, u: int) {
    exists i :: 1 <= i < |order| && InBlock(h, order[i], u)
  }

  // ---------------------------------------------------------------------- free()

  /** The first half of free(): link bp, joined with the block above if it touches it. */
  function LinkUp(h: Heap, p: int, bp: int): Heap
    requires bp in h.size && p in h.next && h.next[p] in h.next && h.next[p] in h.size
  {
    if bp + h.size[bp] == h.next[p] then
      Heap(h.next[bp := h.next[h.next[p]]], h.size[bp := h.size[bp] + h.size[h.next[p]]])
    else
      Heap(h.next[bp := h.next[p]], h.size)
  }

  /** The second half: hang bp below p, or join it to p. */
  function LinkDown(h: Heap, p: int, bp: int): Heap
    requires p in h.size && bp in h.size && bp in h.next
  {
    if p + h.size[p] == bp then
      Heap(h.next[p := h.next[bp]], h.size[p := h.size[p] + h.size[bp]])
    else
      Heap(h.next[p := bp], h.size)
  }

  /** bp lies between position k and the next one and overlaps neither. */
  ghost predicate Fits(h: Heap, order: seq<int>, k: int, bp: int) {
    && 0 <= k < |order| && bp in h.size && h.size[bp] >= 1
    && order[k] in h.size && order[k] < bp && order[k] + h.size[order[k]] <= bp
    && (k + 1 < |order| ==> bp + h.size[bp] <= order[k + 1])
  }

  function InsertAt(order: seq<int>, k: int, bp: int): (o: seq<int>)
    requires 0 <= k < |order|
    ensures |o| == |order| + 1
  {
    order[..k + 1] + [bp] + order[k + 1..]
  }

  function ReplaceAt(order: seq<int>, k: int, bp: int): seq<int>
    requires 0 <= k && k + 1 < |order|
  {
    order[k + 1 := bp]
  }

  lemma InsertIndex(order: seq<int>, k: int, bp: int, i: int)
    requires 0 <= k < |order| && 0 <= i <= |order|
    ensures var o := InsertAt(order, k, bp);
            && o[i] == (if i <= k then order[i] else if i == k + 1 then bp else order[i - 1])
            && Succ(o, i) == if i < k then Succ(order, i) else if i == k then bp else Succ(order, i - 1)
  {
  }

  /** What List asks of position i of a list. */
  ghost predicate LinkOk(h: Heap, order: seq<int>, w: int, i: int)
    requires 0 <= i < |order|
  {
    && order[i] in h.next && order[i] in h.size
    && h.next[order[i]] == Succ(order, i)
    && (1 <= i ==> h.size[order[i]] >= 1)
    && (1 <= i < |order| - 1 ==>
          order[i] + h.size[order[i]] <= Succ(order, i) && (i != w ==> order[i] + h.size[order[i]] != Succ(order, i)))
  }

  lemma ListByLinks(h: Heap, base: int, order: seq<int>, w: int)
    requires |order| >= 1 && order[0] == base && base in h.size && h.size[base] == 0
    requires forall i, j :: 0 <= i < j < |order| ==> order[i] < order[j]
    requires forall i :: 0 <= i < |order| ==> LinkOk(h, order, w, i)
    ensures List(h, base, order, w)
  {
    forall i | 0 <= i < |order|
      ensures order[i] in h.next && order[i] in h.size && h.next[order[i]] == Succ(order, i)
      ensures 1 <= i ==> h.size[order[i]] >= 1
      ensures 1 <= i < |order| - 1 ==>
                order[i] + h.size[order[i]] <= Succ(order, i) && (i != w ==> order[i] + h.size[order[i]] != Succ(order, i))
    {
      assert LinkOk(h, order, w, i);
    }
  }

  lemma InsertLink(h: Heap, base: int, order: seq<int>, k: int, bp: int, i: int)
    requires List(h, base, order, -1) && Fits(h, order, k, bp) && (k + 1 < |order| ==> bp + h.size[bp] != order[k + 1])
    requires 0 <= i <= |order|
    ensures LinkOk(Heap(h.next[bp := h.next[order[k]]][order[k] := bp], h.size), InsertAt(order, k, bp), k, i)
  {
    assert Succ(order, k) == if k + 1 < |order| then order[k + 1] else base;
    InsertIndex(order, k, bp, i);
    hide InsertAt, Succ;
  }

  lemma InsertSorted(h: Heap, base: int, order: seq<int>, k: int, bp: int, i: int, j: int)
    requires List(h, base, order, -1) && Fits(h, order, k, bp) && 0 <= i < j <= |order|
    ensures InsertAt(order, k, bp)[i] < InsertAt(order, k, bp)[j]
  {
    hide InsertAt, Succ;
    InsertIndex(order, k, bp, i);
    InsertIndex(order, k, bp, j);
  }

  lemma InsertPlain(h: Heap, base: int, order: seq<int>, k: int, bp: int)
    requires List(h, base, order, -1) && Fits(h, order, k, bp) && (k + 1 < |order| ==> bp + h.size[bp] != order[k + 1])
    ensures List(Heap(h.next[bp := h.next[order[k]]][order[k] := bp], h.size), base, InsertAt(order, k, bp), k)
  {
    hide LinkOk, Succ;
    InsertIndex(order, k, bp, 0);
    var g, o := Heap(h.next[bp := h.next[order[k]]][order[k] := bp], h.size), InsertAt(order, k, bp);
    forall i | 0 <= i < |o|
      ensures LinkOk(g, o, k, i)
    {
      InsertLink(h, base, order, k, bp, i);
    }
    forall i, j | 0 <= i < j < |o|
      ensures o[i] < o[j]
    {
      InsertSorted(h, base, order, k, bp, i, j);
    }
    ListByLinks(g, base, o, k);
  }

  lemma ReplaceSucc(order: seq<int>, k: int, bp: int)
    requires 0 <= k && k + 1 < |order|
    ensures var o := ReplaceAt(order, k, bp);
            && |o| == |order| && (forall i :: 0 <= i < |o| ==> o[i] == if i == k + 1 then bp else order[i])
            && (forall i :: 0 <= i < |o| ==> Succ(o, i) == if i == k then bp else Succ(order, i))
    ensures Succ(order, k) == order[k + 1]
  {
  }

  lemma InsertJoin(h: Heap, base: int, order: seq<int>, k: int, bp: int)
    requires List(h, base, order, -1) && Fits(h, order, k, bp) && k + 1 < |order| && bp + h.size[bp] == order[k + 1]
    ensures var n := order[k + 1];
            List(Heap(h.next[bp := h.next[n]][order[k] := bp], h.size[bp := h.size[bp] + h.size[n]]),
                 base, ReplaceAt(order, k, bp), k)
  {
    hide ReplaceAt, Succ;
    ReplaceSucc(order, k, bp);
  }

  function DropAt(order: seq<int>, k: int): (o: seq<int>)
    requires 0 <= k < |order|
    ensures |o| == |order| - 1
  {
    order[..k] + order[k + 1..]
  }

  lemma DropIndex(order: seq<int>, k: int, i: int)
    requires 1 <= k < |order| && 0 <= i < |order| - 1
    ensures var o := DropAt(order, k);
            && o[i] == (if i < k then order[i] else order[i + 1])
            && Succ(o, i) == if i < k - 1 then Succ(order, i) else Succ(order, i + 1)
  {
  }

  lemma JoinLink(h: Heap, base: int, order: seq<int>, k: int, i: int)
    requires List(h, base, order, k) && 1 <= k && k + 1 < |order| && 0 <= i < |order| - 1
    requires order[k] + h.size[order[k]] == order[k + 1]
    ensures var p, bp := order[k], order[k + 1];
            LinkOk(Heap(h.next[p := h.next[bp]], h.size[p := h.size[p] + h.size[bp]]), DropAt(order, k + 1), -1, i)
  {
    assert Succ(order, k) == order[k + 1];
    DropIndex(order, k + 1, i);
    hide DropAt, Succ;
  }

  lemma JoinSorted(h: Heap, base: int, order: seq<int>, k: int, i: int, j: int)
    requires List(h, base, order, k) && 1 <= k && k + 1 < |order| && 0 <= i < j < |order| - 1
    ensures DropAt(order, k + 1)[i] < DropAt(order, k + 1)[j]
  {
    hide DropAt, Succ;
    DropIndex(order, k + 1, i);
    DropIndex(order, k + 1, j);
  }

  /** Joining block k with block k + 1, which it touches. */
  lemma JoinDown(h: Heap, base: int, order: seq<int>, k: int)
    requires List(h, base, order, k) && 1 <= k && k + 1 < |order|
    requires order[k] + h.size[order[k]] == order[k + 1]
    ensures var p, bp := order[k], order[k + 1];
            List(Heap(h.next[p := h.next[bp]], h.size[p := h.size[p] + h.size[bp]]),
                 base, DropAt(order, k + 1), -1)
  {
    hide LinkOk, Succ;
    var p, bp := order[k], order[k + 1];
    var g := Heap(h.next[p := h.next[bp]], h.size[p := h.size[p] + h.size[bp]]);
    var o := DropAt(order, k + 1);
    forall i | 0 <= i < |o|
      ensures LinkOk(g, o, -1, i)
    {
      JoinLink(h, base, order, k, i);
    }
    forall i, j | 0 <= i < j < |o|
      ensures o[i] < o[j]
    {
      JoinSorted(h, base, order, k, i, j);
    }
    ListByLinks(g, base, o, -1);
  }

  // Which units are free, before and after.

  ghost predicate InBlock(h: Heap, a: int, u: int) {
    a in h.size && a <= u < a + h.size[a]
  }

  lemma FreeAt(h: Heap, order: seq<int>, i: int, u: int)
    requires 1 <= i < |order| && InBlock(h, order[i], u)
    ensures InFree(h, order, u)
  {
  }

  lemma InsertPlainUnits(h: Heap, order: seq<int>, k: int, bp: int, u: int)
    requires 0 <= k < |order|
    ensures InFree(h, InsertAt(order, k, bp), u) <==> InFree(h, order, u) || InBlock(h, bp, u)
  {
    var o := InsertAt(order, k, bp);
    if InFree(h, o, u) {
      var i :| 1 <= i < |o| && InBlock(h, o[i], u);
      InsertIndex(order, k, bp, i);
      if i <= k { FreeAt(h, order, i, u); } else if i > k + 1 { FreeAt(h, order, i - 1, u); }
    }
    if InFree(h, order, u) {
      var i :| 1 <= i < |order| && InBlock(h, order[i], u);
      var j := if i <= k then i else i + 1;
      InsertIndex(order, k, bp, j);
      FreeAt(h, o, j, u);
    }
    if InBlock(h, bp, u) {
      InsertIndex(order, k, bp, k + 1);
      FreeAt(h, o, k + 1, u);
    }
  }

  lemma InsertJoinUnits(h: Heap, base: int, order: seq<int>, k: int, bp: int, u: int)
    requires List(h, base, order, -1) && Fits(h, order, k, bp) && k + 1 < |order| && bp + h.size[bp] == order[k + 1]
    ensures var n := order[k + 1];
            var g := Heap(h.next, h.size[bp := h.size[bp] + h.size[n]]);
            InFree(g, ReplaceAt(order, k, bp), u) <==> InFree(h, order, u) || InBlock(h, bp, u)
  {
    var n, o := order[k + 1], ReplaceAt(order, k, bp);
    var g := Heap(h.next, h.size[bp := h.size[bp] + h.size[n]]);
    assert InBlock(g, bp, u) <==> InBlock(h, bp, u) || InBlock(h, n, u);
    assert forall i :: 0 <= i < |o| && i != k + 1 ==> o[i] == order[i] != bp;
    hide List, Fits, ReplaceAt;
    if InFree(g, o, u) {
      var i :| 1 <= i < |o| && InBlock(g, o[i], u);
      if i != k + 1 || InBlock(h, n, u) { FreeAt(h, order, i, u); }
    }
    if InFree(h, order, u) {
      var i :| 1 <= i < |order| && InBlock(h, order[i], u);
      FreeAt(g, o, i, u);
    }
    if InBlock(h, bp, u) {
      FreeAt(g, o, k + 1, u);
    }
  }

  /** Joining blocks k and k + 1 changes no unit's state: the two directions. */
  lemma JoinDownKeeps(h: Heap, base: int, order: seq<int>, k: int, u: int)
    requires List(h, base, order, k) && 1 <= k && k + 1 < |order| && order[k] + h.size[order[k]] == order[k + 1]
    requires InFree(h, order, u)
    ensures var g := Heap(h.next, h.size[order[k] := h.size[order[k]] + h.size[order[k + 1]]]);
            InFree(g, DropAt(order, k + 1), u)
  {
    hide DropAt, Succ;
    var p, bp, o := order[k], order[k + 1], DropAt(order, k + 1);
    var g := Heap(h.next, h.size[p := h.size[p] + h.size[bp]]);
    var i :| 1 <= i < |order| && InBlock(h, order[i], u);
    var j := if i <= k then i else i - 1;
    DropIndex(order, k + 1, j);
    FreeAt(g, o, j, u);
  }

  lemma JoinDownAdds(h: Heap, base: int, order: seq<int>, k: int, u: int)
    requires List(h, base, order, k) && 1 <= k && k + 1 < |order| && order[k] + h.size[order[k]] == order[k + 1]
    requires var g := Heap(h.next, h.size[order[k] := h.size[order[k]] + h.size[order[k + 1]]]);
             InFree(g, DropAt(order, k + 1), u)
    ensures InFree(h, order, u)
  {
  }

  lemma InFreeSize(h: Heap, g: Heap, order: seq<int>, u: int)
    requires h.size == g.size
    ensures InFree(h, order, u) <==> InFree(g, order, u)
  {
  }

  lemma LinkUpBlock(h: Heap, base: int, order: seq<int>, k: int, bp: int) returns (o: seq<int>)
    requires List(h, base, order, -1) && Fits(h, order, k, bp)
    ensures h.next[order[k]] in h.next && h.next[order[k]] in h.size
    ensures var l := Heap(LinkUp(h, order[k], bp).next[order[k] := bp], LinkUp(h, order[k], bp).size);
            && List(l, base, o, k) && k + 1 < |o| && o[k] == order[k] && o[k + 1] == bp
            && forall u :: InFree(l, o, u) <==> InFree(h, order, u) || InBlock(h, bp, u)
  {
    var p := order[k];
    assert h.next[p] == Succ(order, k);
    var h1 := LinkUp(h, p, bp);
    var l := Heap(h1.next[p := bp], h1.size);
    if k + 1 < |order| && bp + h.size[bp] == order[k + 1] {
      InsertJoin(h, base, order, k, bp);
      o := ReplaceAt(order, k, bp);
      forall u ensures InFree(l, o, u) <==> InFree(h, order, u) || InBlock(h, bp, u) {
        InsertJoinUnits(h, base, order, k, bp, u);
        InFreeSize(l, Heap(h.next, l.size), o, u);
      }
    } else {
      InsertPlain(h, base, order, k, bp);
      o := InsertAt(order, k, bp);
      forall u ensures InFree(l, o, u) <==> InFree(h, order, u) || InBlock(h, bp, u) {
        InsertPlainUnits(h, order, k, bp, u);
        InFreeSize(l, h, o, u);
      }
    }
  }

  lemma JoinUnits(l: Heap, base: int, order: seq<int>, k: int, u: int)
    requires List(l, base, order, k) && 1 <= k && k + 1 < |order| && order[k] + l.size[order[k]] == order[k + 1]
    ensures InFree(LinkDown(l, order[k], order[k + 1]), DropAt(order, k + 1), u) <==> InFree(l, order, u)
  {
    hide InFree, DropAt, Succ;
    var g, o := LinkDown(l, order[k], order[k + 1]), DropAt(order, k + 1);
    InFreeSize(g, Heap(l.next, g.size), o, u);
    if InFree(l, order, u) {
      JoinDownKeeps(l, base, order, k, u);
    }
    if InFree(g, o, u) {
      JoinDownAdds(l, base, order, k, u);
    }
  }

  lemma LinkDownBlock(l: Heap, base: int, order: seq<int>, k: int) returns (o: seq<int>)
    requires List(l, base, order, k) && 0 <= k && k + 1 < |order|
    ensures List(LinkDown(l, order[k], order[k + 1]), base, o, -1) && order[k] in o
    ensures forall u :: InFree(LinkDown(l, order[k], order[k + 1]), o, u) <==> InFree(l, order, u)
  {
    hide InFree, DropAt;
    var p, bp := order[k], order[k + 1];
    var g := LinkDown(l, p, bp);
    if p + l.size[p] == bp {
      JoinDown(l, base, order, k);
      o := DropAt(order, k + 1);
      DropIndex(order, k + 1, k);
      assert o[k] == p;
      forall u
        ensures InFree(g, o, u) <==> InFree(l, order, u)
      {
        JoinUnits(l, base, order, k, u);
      }
    } else {
      o := order;
      assert l.next[p] == Succ(order, k) == bp;
      assert g == Heap(l.next, l.size);
    }
  }

  /** All of free(): the list stays sorted, circular and coalesced, p stays on it, and the
      free units are the old ones and those of bp. */
  lemma FreeBlock(h: Heap, base: int, order: seq<int>, k: int, bp: int) returns (o: seq<int>)
    requires List(h, base, order, -1) && Fits(h, order, k, bp)
    ensures h.next[order[k]] in h.next && h.next[order[k]] in h.size
    ensures var g := LinkDown(LinkUp(h, order[k], bp), order[k], bp);
            && List(g, base, o, -1) && order[k] in o
            && forall u :: InFree(g, o, u) <==> InFree(h, order, u) || InBlock(h, bp, u)
  {
    var p := order[k];
    var o1 := LinkUpBlock(h, base, order, k, bp);
    var h1 := LinkUp(h, p, bp);
    var l := Heap(h1.next[p := bp], h1.size);
    o := LinkDownBlock(l, base, o1, k);
    assert l.next[bp] == h1.next[bp];
    assert LinkDown(l, p, bp).next == LinkDown(h1, p, bp).next;
  }

  // -------------------------------------------------------------------- malloc()

  /** Free blocks are in order, so they cannot overlap. */
  lemma {:induction false} EndsBefore(h: Heap, base: int, order: seq<int>, i: int, j: int)
    requires List(h, base, order, -1) && 1 <= i < j < |order|
    ensures order[i] + h.size[order[i]] < order[j]
  {
    assert Succ(order, i) == order[i + 1];
  }

  /** Exact fit: the block leaves the list. */
  lemma TakeWhole(h: Heap, base: int, order: seq<int>, k: int)
    requires List(h, base, order, -1) && 1 <= k < |order|
    ensures var g := Heap(h.next[order[k - 1] := h.next[order[k]]], h.size);
            List(g, base, DropAt(order, k), -1)
  {
    var g, o := Heap(h.next[order[k - 1] := h.next[order[k]]], h.size), DropAt(order, k);
    assert Succ(order, k - 1) == order[k];
    forall i | 0 <= i < |o|
      ensures o[i] in g.next && o[i] in g.size
      ensures g.next[o[i]] == Succ(o, i)
      ensures 1 <= i ==> g.size[o[i]] >= 1
      ensures 1 <= i < |o| - 1 ==> o[i] + g.size[o[i]] <= Succ(o, i) && o[i] + g.size[o[i]] != Succ(o, i)
    {
      DropIndex(order, k, i);
    }
    forall i, j | 0 <= i < j < |o|
      ensures o[i] < o[j]
    {
      DropIndex(order, k, i);
      DropIndex(order, k, j);
    }
  }

  lemma TakeWholeKeeps(h: Heap, base: int, order: seq<int>, k: int, u: int)
    requires List(h, base, order, -1) && 1 <= k < |order| && InFree(h, order, u) && !InBlock(h, order[k], u)
    ensures InFree(h, DropAt(order, k), u)
  {
    var i :| 1 <= i < |order| && InBlock(h, order[i], u);
    var j := if i < k then i else i - 1;
    DropIndex(order, k, j);
    FreeAt(h, DropAt(order, k), j, u);
  }

  lemma TakeWholeUnits(h: Heap, base: int, order: seq<int>, k: int, u: int)
    requires List(h, base, order, -1) && 1 <= k < |order|
    ensures InFree(h, DropAt(order, k), u) <==> InFree(h, order, u) && !InBlock(h, order[k], u)
  {
    var o := DropAt(order, k);
    if InFree(h, o, u) {
      var i :| 1 <= i < |o| && InBlock(h, o[i], u);
      DropIndex(order, k, i);
      var j := if i < k then i else i + 1;
      FreeAt(h, order, j, u);
      if j < k { EndsBefore(h, base, order, j, k); } else { EndsBefore(h, base, order, k, j); }
    }
    if InFree(h, order, u) && !InBlock(h, order[k], u) {
      TakeWholeKeeps(h, base, order, k, u);
    }
  }

  /** A larger block gives up its tail, which gets a header of its own. */
  function SplitTail(h: Heap, a: int, n: int): Heap
    requires a in h.size
  {
    Heap(h.next, h.size[a := h.size[a] - n][a + (h.size[a] - n) := n])
  }

  lemma TakeTail(h: Heap, base: int, order: seq<int>, k: int, n: int)
    requires List(h, base, order, -1) && 1 <= k < |order| && 1 <= n < h.size[order[k]]
    ensures List(SplitTail(h, order[k], n), base, order, -1)
    ensures forall i :: 0 <= i < |order| ==> order[i] != order[k] + (h.size[order[k]] - n)
  {
    var a := order[k];
    var t := a + (h.size[a] - n);
    forall i | 0 <= i < |order|
      ensures order[i] != t
    {
      if k < i { EndsBefore(h, base, order, k, i); }
    }
  }

  lemma TakeTailUnits(h: Heap, base: int, order: seq<int>, k: int, n: int, u: int)
    requires List(h, base, order, -1) && 1 <= k < |order| && 1 <= n < h.size[order[k]]
    ensures var g := SplitTail(h, order[k], n);
            var t := order[k] + (h.size[order[k]] - n);
            InFree(g, order, u) <==> InFree(h, order, u) && !InBlock(g, t, u)
  {
    TakeTail(h, base, order, k, n);
    var g, a := SplitTail(h, order[k], n), order[k];
    var t := a + (h.size[a] - n);
    if InFree(g, order, u) {
      var i :| 1 <= i < |order| && InBlock(g, order[i], u);
      FreeAt(h, order, i, u);
      if i < k { EndsBefore(h, base, order, i, k); } else if k < i { EndsBefore(h, base, order, k, i); }
    }
    if InFree(h, order, u) && !InBlock(g, t, u) {
      var i :| 1 <= i < |order| && InBlock(h, order[i], u);
      FreeAt(g, order, i, u);
    }
  }
}
