/** kalloc.c and vm.c: the page allocator and the address spaces built from its pages.

    `total` is every page that the allocator has ever been given and that has not left
    through kalloc to somebody else.  Ledger says that free pages, the pages of the address
    space, and pages in hand are disjoint and make up `total`: no page is lost or freed
    twice. */
module Vm {
  import opened PageTable
  import opened TableCount
  import opened KernelMap

  ghost function Pages(free: seq<int>): set<int> {
    set x | x in free
  }

  ghost predicate Ledger(free: seq<int>, used: set<int>, total: set<int>) {
    && (forall i, j :: 0 <= i < j < |free| ==> free[i] != free[j])
    && Pages(free) !! used
    && Pages(free) + used == total
    && (forall pg :: pg in total ==> pg > 0)
  }

  lemma LedgerAlloc(free: seq<int>, used: set<int>, total: set<int>)
    requires Ledger(free, used, total) && free != []
    ensures free[0] !in used && Ledger(free[1..], used + {free[0]}, total)
  {
  }

  lemma LedgerFree(free: seq<int>, used: set<int>, total: set<int>, pg: int)
    requires Ledger(free, used, total) && pg in used
    ensures Ledger([pg] + free, used - {pg}, total)
  {
  }

  lemma LedgerGrow(free: seq<int>, total: set<int>, pg: int)
    requires Ledger(free, {}, total) && pg !in free && pg > 0
    ensures Ledger(free, {pg}, total + {pg})
  {
  }

  /** The pages that sz bytes reach into: PGROUNDUP(sz) / PGSIZE. */
  function RoundUp(sz: int): int {
    (sz + PGSIZE - 1) / PGSIZE
  }

  const UTABLES: int := 512    // directory entries below KERNBASE

  ghost predicate SameView(m: Mem, m': Mem, d: int) {
    forall v :: 0 <= v < VPAGES ==> PteAt(m', d, v) == PteAt(m, d, v)
  }

  /** Page pg was mapped somewhere in lo..hi. */
  ghost predicate WasMapped(m: Mem, d: int, lo: int, hi: int, pg: int) {
    exists v :: lo <= v < hi && PteAt(m, d, v).present && PteAt(m, d, v).pa == pg
  }

  /** Pages lo..hi are gone and all others are mapped as before. */
  ghost predicate Cleared(m: Mem, m': Mem, d: int, lo: int, hi: int) {
    && (forall v :: 0 <= v < VPAGES && lo <= v < hi ==> !PteAt(m', d, v).present)
    && (forall v :: 0 <= v < VPAGES && !(lo <= v < hi) ==> PteAt(m', d, v) == PteAt(m, d, v))
  }

  /** The free pages have gained exactly those that lo..hi mapped. */
  ghost predicate Released(free: seq<int>, free': seq<int>, m: Mem, d: int, lo: int, hi: int) {
    forall pg :: pg in free' <==> pg in free || WasMapped(m, d, lo, hi, pg)
  }

  lemma ReleasedOne(free: seq<int>, free': seq<int>, m: Mem, d: int, lo: int, v: int)
    requires Released(free, free', m, d, lo, v) && lo <= v
    ensures var e := PteAt(m, d, v);
            Released(free, if e.present then [e.pa] + free' else free', m, d, lo, v + 1)
  {
  }

  lemma ReleasedSkip(free: seq<int>, free': seq<int>, m: Mem, d: int, lo: int, v: int, hi: int)
    requires Released(free, free', m, d, lo, v) && lo <= v <= hi
    requires forall w :: v <= w < hi ==> !PteAt(m, d, w).present
    ensures Released(free, free', m, d, lo, hi)
  {
  }

  /** The first page that the next directory entry covers. */
  function NextTable(v: int): int {
    (Pdx(v) + 1) * NENTRIES
  }

  /** Jumping there from an absent table passes over no mapped page. */
  lemma SkipsNothing(m: Mem, d: int, v: int)
    requires !Pde(m, d, Pdx(v)).present
    ensures v < NextTable(v)
    ensures forall w :: v <= w < NextTable(v) ==> !PteAt(m, d, w).present
  {
  }

  /** Pages in keep hold what they held: nobody else's memory is written. */
  ghost predicate Frame(m: Mem, m': Mem, keep: set<int>) {
    forall pg :: pg in keep ==> (pg in m' <==> pg in m) && (pg in m ==> m'[pg] == m[pg])
  }

  /** Pages lo..hi were free and now map pa, pa + 1, ..; all others are as before. */
  ghost predicate MappedRange(m: Mem, m': Mem, d: int, lo: int, hi: int, pa: int, perm: int) {
    && (forall v :: 0 <= v < VPAGES && lo <= v < hi ==>
          !PteAt(m, d, v).present && PteAt(m', d, v) == Pte(true, pa + v - lo, perm))
    && (forall v :: 0 <= v < VPAGES && !(lo <= v < hi) ==> PteAt(m', d, v) == PteAt(m, d, v))
  }

  /** The directory entries below KERNBASE are as before. */
  ghost predicate LowTables(m: Mem, m': Mem, d: int) {
    forall i :: 0 <= i < UTABLES ==> Pde(m', d, i) == Pde(m, d, i)
  }

  /** What mapping page v of a directory costs: a table if there is none yet. */
  function TableCost(m: Mem, d: int, v: int): int {
    if Pde(m, d, Pdx(v)).present then 0 else 1
  }

  ghost predicate AnyPresent(m: Mem, d: int, lo: int, hi: int) {
    exists v :: lo <= v < hi && PteAt(m, d, v).present
  }

  ghost predicate SameOutside(m: Mem, m': Mem, d: int, lo: int, hi: int) {
    forall v :: 0 <= v < VPAGES && !(lo <= v < hi) ==> PteAt(m', d, v) == PteAt(m, d, v)
  }

  /** had - has free pages went into tables for lo..hi, and no others. */
  ghost predicate Spent(m: Mem, m': Mem, d: int, had: int, has: int, lo: int, hi: int) {
    Bits(m', d) == With(Bits(m, d), lo, hi) && has + Count(Bits(m', d)) == had + Count(Bits(m, d))
  }

  lemma SpentOne(m: Mem, m1: Mem, m2: Mem, d: int, had: int, has: int, lo: int, v: int)
    requires Spent(m, m1, d, had, has, lo, v) && 0 <= lo <= v < VPAGES
    requires Pde(m2, d, Pdx(v)).present
    requires forall i :: 0 <= i < NENTRIES && i != Pdx(v) ==> Pde(m2, d, i) == Pde(m1, d, i)
    ensures Spent(m, m2, d, had, has - TableCost(m1, d, v), lo, v + 1)
  {
    WithOne(Bits(m, d), lo, v);
    CountSet(Bits(m1, d), Bits(m2, d), Pdx(v));
  }

  /** had free pages are too few for the tables that lo..hi still needs. */
  ghost predicate RanOut(m: Mem, d: int, had: int, lo: int, hi: int) {
    had + Count(Bits(m, d)) < Count(With(Bits(m, d), lo, hi))
  }

  lemma RunsOut(m: Mem, m1: Mem, d: int, had: int, lo: int, v: int, hi: int)
    requires Spent(m, m1, d, had, 0, lo, v) && 0 <= lo <= v < hi <= VPAGES && TableCost(m1, d, v) == 1
    ensures RanOut(m, d, had, lo, hi)
  {
    assert !Bits(m1, d)[Pdx(v)];
    WithMore(Bits(m, d), lo, v, hi);
  }

  /** mappages has come to page v: what it has done to the directory and the free list. */
  ghost predicate Partway(m: Mem, m': Mem, d: int, a: int, v: int, pa: int, perm: int, had: int, has: int) {
    && MappedRange(m, m', d, a, v, pa, perm)
    && Spent(m, m', d, had, has, a, v)
    && (a >= UPAGES ==> LowTables(m, m', d))
    && (v == a ==> m' == m && has == had)
  }

  lemma PartwayStep(m: Mem, m1: Mem, m2: Mem, d: int, a: int, v: int, pa: int, perm: int, had: int, has: int)
    requires Partway(m, m1, d, a, v, pa, perm, had, has) && 0 <= a <= v < VPAGES
    requires MappedRange(m1, m2, d, v, v + 1, pa + v - a, perm) && Pde(m2, d, Pdx(v)).present
    requires forall i :: 0 <= i < NENTRIES && i != Pdx(v) ==> Pde(m2, d, i) == Pde(m1, d, i)
    ensures Partway(m, m2, d, a, v + 1, pa, perm, had, has - TableCost(m1, d, v))
  {
    SpentOne(m, m1, m2, d, had, has, a, v);
    assert a >= UPAGES ==> Pdx(v) >= UTABLES;
  }

  /** Pages lo..hi can be used as perm says, both levels taken together. */
  ghost predicate Permits(m: Mem, d: int, lo: int, hi: int, perm: int) {
    forall v :: 0 <= v < VPAGES && lo <= v < hi ==> Effective(m, d, v) == Access(perm)
  }

  lemma PermitsRange(m: Mem, d: int, owner: Owner, lo: int, hi: int, perm: int)
    requires Space(m, d, owner)
    requires forall v :: 0 <= v < VPAGES && lo <= v < hi ==> PteAt(m, d, v).present && PteAt(m, d, v).flags == perm
    ensures Permits(m, d, lo, hi, perm)
  {
    hide Space, Effective;
    forall v | 0 <= v < VPAGES && lo <= v < hi
      ensures Effective(m, d, v) == Access(perm)
    {
      EffectiveAccess(m, d, owner, v);
    }
  }

  datatype Mapping = Mapped | NoMemory | Remap

  /** How mapping lo..hi ends. */
  ghost predicate RangeResult(m: Mem, m': Mem, d: int, lo: int, hi: int, pa: int, perm: int,
                              r: Mapping, had: int, has: int) {
    && (lo >= UPAGES ==> LowTables(m, m', d))
    && SameOutside(m, m', d, lo, hi)
    && match r
       case Mapped => MappedRange(m, m', d, lo, hi, pa, perm) && Spent(m, m', d, had, has, lo, hi)
       case NoMemory => has == 0 && RanOut(m, d, had, lo, hi)
       case Remap => AnyPresent(m, d, lo, hi)
  }

  lemma FinishesAt(m: Mem, m': Mem, d: int, lo: int, hi: int, pa: int, perm: int, had: int, has: int)
    requires Partway(m, m', d, lo, hi, pa, perm, had, has)
    ensures RangeResult(m, m', d, lo, hi, pa, perm, Mapped, had, has)
  {
  }

  lemma StopsAt(m: Mem, m': Mem, d: int, lo: int, v: int, hi: int, pa: int, perm: int,
                r: Mapping, had: int, has: int)
    requires 0 <= lo <= v < hi <= VPAGES && Partway(m, m', d, lo, v, pa, perm, had, has)
    requires r == NoMemory ==> has == 0 && TableCost(m', d, v) == 1
    requires r == Remap <==> PteAt(m', d, v).present
    requires r != Mapped
    ensures RangeResult(m, m', d, lo, hi, pa, perm, r, had, has)
  {
    if r == NoMemory {
      RunsOut(m, m', d, had, lo, v, hi);
    } else {
      assert PteAt(m, d, v).present;
    }
  }

  /** How mapping the single page v ends. */
  ghost predicate OnePage(m: Mem, m': Mem, d: int, v: int, r: Mapping, had: int, has: int) {
    && (r == Mapped ==> has == had - TableCost(m, d, v) && Pde(m', d, Pdx(v)).present)
    && (r == NoMemory ==> had == 0 && TableCost(m, d, v) == 1)
    && (r != Mapped ==> m' == m && has == had)
    && (r == Remap <==> PteAt(m, d, v).present)
    && (forall i :: 0 <= i < NENTRIES && i != Pdx(v) ==> Pde(m', d, i) == Pde(m, d, i))
  }

  /** Of the address space, the directory and the tables from slot n on are left. */
  ghost predicate Remaining(m: Mem, d: int, owner: Owner, n: int) {
    && d in owner
    && (forall i :: n <= i < NENTRIES && Pde(m, d, i).present ==>
          Pde(m, d, i).pa in owner && owner[Pde(m, d, i).pa] == Table(i) && Pde(m, d, i).pa != d)
    && (forall pg :: pg in owner && pg != d ==>
          owner[pg].Table? && n <= owner[pg].i < NENTRIES && Pde(m, d, owner[pg].i).present && Pde(m, d, owner[pg].i).pa == pg)
  }

  lemma OnlyTables(m: Mem, d: int, owner: Owner)
    requires Space(m, d, owner) && forall v :: 0 <= v < UPAGES ==> !PteAt(m, d, v).present
    ensures Remaining(m, d, owner, 0)
  {
  }

  lemma OnlyDir(m: Mem, d: int, owner: Owner)
    requires Remaining(m, d, owner, NENTRIES)
    ensures owner.Keys == {d}
  {
    forall pg
      ensures pg in owner.Keys <==> pg == d
    {
    }
  }

  lemma DropTable(m: Mem, d: int, owner: Owner, i: int)
    requires Remaining(m, d, owner, i) && 0 <= i < NENTRIES && Pde(m, d, i).present
    ensures var pa := Pde(m, d, i).pa; Remaining(m - {pa}, d, owner - {pa}, i + 1)
  {
    var pa := Pde(m, d, i).pa;
    forall j
      ensures Pde(m - {pa}, d, j) == Pde(m, d, j)
    {
    }
  }

  /** One turn of the loop of mappages, at page v. */
  lemma Turn(m: Mem, m1: Mem, m2: Mem, d: int, a: int, v: int, last: int, pa: int, perm: int,
             r: Mapping, had: int, has: int, left: int)
    requires 0 <= a <= v <= last < VPAGES && Partway(m, m1, d, a, v, pa, perm, had, has)
    requires OnePage(m1, m2, d, v, r, has, left)
    requires r == Mapped ==> MappedRange(m1, m2, d, v, v + 1, pa + v - a, perm)
    ensures r == Mapped ==> Partway(m, m2, d, a, v + 1, pa, perm, had, left)
    ensures r != Mapped || v == last ==> RangeResult(m, m2, d, a, last + 1, pa, perm, r, had, left)
  {
    if r != Mapped {
      StopsAt(m, m2, d, a, v, last + 1, pa, perm, r, had, left);
    } else {
      PartwayStep(m, m1, m2, d, a, v, pa, perm, had, has);
      if v == last {
        FinishesAt(m, m2, d, a, last + 1, pa, perm, had, left);
      }
    }
  }

  lemma NoBits(m: Mem, d: int, kmap: seq<Seg>)
    requires d in m && m[d] == Zeros()
    ensures Bits(m, d) == KernelBits(kmap, 0) && Count(Bits(m, d)) == 0 && Kernel(m, d, kmap, 0)
  {
    EmptySpace(m, d);
    NoneCount(Bits(m, d));
  }

  lemma {:induction false} NoneCount(b: seq<bool>)
    requires forall i :: 0 <= i < |b| ==> !b[i]
    ensures Count(b) == 0
  {
    if b != [] {
      NoneCount(b[..|b| - 1]);
    }
  }

  /** setupkvm has mapped k segments, starting from had free pages. */
  ghost predicate Segments(m0: Mem, m: Mem, d: int, kmap: seq<Seg>, k: int, had: int, has: int)
    requires 0 <= k <= |kmap|
  {
    && Kernel(m, d, kmap, k) && Bits(m, d) == KernelBits(kmap, k)
    && has + Count(Bits(m, d)) == had
    && LowTables(m0, m, d)
  }

  /** Mapping segment k of the kernel never meets a mapped page. */
  lemma SegmentDone(m0: Mem, m: Mem, m': Mem, d: int, kmap: seq<Seg>, k: int, r: Mapping, had: int, has: int, left: int)
    requires WfMap(kmap) && 0 <= k < |kmap| && Segments(m0, m, d, kmap, k, had, has)
    requires var s := kmap[k]; RangeResult(m, m', d, First(s), End(s), s.pa, s.perm, r, has, left)
    ensures r != Remap && LowTables(m0, m', d)
    ensures r == Mapped ==> Segments(m0, m', d, kmap, k + 1, had, left)
    ensures r == NoMemory ==> had < Count(KernelBits(kmap, |kmap|))
  {
    forall v | 0 <= v < VPAGES && Covers(kmap[k], v)
      ensures !PteAt(m, d, v).present
    {
      NoRemap(m, d, kmap, k, v);
    }
    KernelBitsMono(kmap, k + 1);
    if r == Mapped {
      KernelNext(m, m', d, kmap, k);
    }
  }

  datatype Placing = Placed | NoPage | NoTable(pg: int) | Remapped(pg: int)
  datatype Growth = Sized(sz: int) | Panic

  /** User pages lo..v were free and are mapped now; had - has pages went into them and their tables. */
  ghost predicate Grown(m: Mem, m': Mem, d: int, lo: int, v: int, had: int, has: int) {
    && (forall w :: 0 <= w < VPAGES && lo <= w < v ==> !PteAt(m, d, w).present && PteAt(m', d, w).present)
    && (forall w :: 0 <= w < VPAGES && !(lo <= w < v) ==> PteAt(m', d, w) == PteAt(m, d, w))
    && Bits(m', d) == With(Bits(m, d), lo, v)
    && has + Count(Bits(m', d)) + v - lo == had + Count(Bits(m, d))
  }

  /** had free pages are too few for user pages lo..hi and their tables. */
  ghost predicate Short(m: Mem, d: int, had: int, lo: int, hi: int) {
    had + Count(Bits(m, d)) < Count(With(Bits(m, d), lo, hi)) + hi - lo
  }

  lemma GrownNothing(m: Mem, d: int, lo: int, has: int)
    ensures Grown(m, m, d, lo, lo, has, has)
  {
  }

  /** How kalloc and mappages of one page end. */
  ghost predicate PlaceResult(m: Mem, m': Mem, d: int, v: int, r: Placing, had: int, has: int) {
    match r
    case Placed =>
      && !PteAt(m, d, v).present && PteAt(m', d, v).present && OnlyPage(m, m', d, v)
      && has == had - 1 - TableCost(m, d, v) && Pde(m', d, Pdx(v)).present
      && (forall i :: 0 <= i < NENTRIES && i != Pdx(v) ==> Pde(m', d, i) == Pde(m, d, i))
    case NoPage => m' == m && had == 0
    case NoTable(pg) => m' == m && had == 1 && TableCost(m, d, v) == 1
    case Remapped(pg) => PteAt(m, d, v).present
  }

  lemma GrowStep(m: Mem, m1: Mem, m2: Mem, d: int, lo: int, v: int, had: int, has: int, left: int)
    requires 0 <= lo <= v < UPAGES && Grown(m, m1, d, lo, v, had, has) && PlaceResult(m1, m2, d, v, Placed, has, left)
    ensures Grown(m, m2, d, lo, v + 1, had, left)
  {
    WithOne(Bits(m, d), lo, v);
    CountSet(Bits(m1, d), Bits(m2, d), Pdx(v));
  }

  lemma GrowFails(m: Mem, m1: Mem, d: int, lo: int, v: int, hi: int, had: int, has: int)
    requires 0 <= lo <= v < hi <= UPAGES && Grown(m, m1, d, lo, v, had, has)
    requires has == 0 || (has == 1 && TableCost(m1, d, v) == 1)
    ensures Short(m, d, had, lo, hi)
  {
    var b := Bits(m, d);
    if has == 0 {
      WithWider(b, lo, v, hi);
    } else {
      assert !Bits(m1, d)[Pdx(v)];
      WithMore(b, lo, v, hi);
    }
  }

  /** How allocuvm from page lo to page hi ends. */
  ghost predicate GrowResult(m: Mem, m': Mem, d: int, lo: int, hi: int, newsz: int, had: int, has: int, r: Growth) {
    match r
    case Panic => AnyPresent(m, d, lo, hi)
    case Sized(sz) =>
      if Short(m, d, had, lo, hi) then sz == 0 && Cleared(m, m', d, lo, hi)
      else sz == newsz && UserMapped(m, m', d, lo, hi) && Grown(m, m', d, lo, hi, had, has)
  }

  ghost predicate UserMapped(m: Mem, m': Mem, d: int, lo: int, hi: int) {
    && (forall v :: 0 <= v < VPAGES && lo <= v < hi ==>
          !PteAt(m, d, v).present && PteAt(m', d, v).present && PteAt(m', d, v).flags == PTE_W + PTE_U)
    && (forall v :: 0 <= v < VPAGES && !(lo <= v < hi) ==> PteAt(m', d, v) == PteAt(m, d, v))
  }

  /** The pages held, with the one that a failed step leaves in hand. */
  ghost function InHand(held: set<int>, p: Placing): set<int> {
    if p.NoTable? || p.Remapped? then held + {p.pg} else held
  }

  /** Grown, with the flags of user memory. */
  ghost predicate Growing(m: Mem, m': Mem, d: int, lo: int, v: int, had: int, has: int) {
    && Grown(m, m', d, lo, v, had, has)
    && (forall w :: 0 <= w < VPAGES && lo <= w < v ==> PteAt(m', d, w).flags == PTE_W + PTE_U)
  }

  /** How the loop of allocuvm ends. */
  ghost predicate LoopResult(m: Mem, m': Mem, d: int, lo: int, hi: int, p: Placing, had: int, has: int) {
    match p
    case Placed => UserMapped(m, m', d, lo, hi) && Grown(m, m', d, lo, hi, had, has) && !Short(m, d, had, lo, hi)
    case Remapped(pg) => AnyPresent(m, d, lo, hi)
    case _ => SameOutside(m, m', d, lo, hi) && Short(m, d, had, lo, hi)
  }

  lemma LoopTurn(m: Mem, m1: Mem, m2: Mem, d: int, lo: int, v: int, hi: int, p: Placing, had: int, has: int, left: int)
    requires 0 <= lo <= v < hi <= UPAGES && Growing(m, m1, d, lo, v, had, has)
    requires PlaceResult(m1, m2, d, v, p, has, left) && (p == Placed ==> PteAt(m2, d, v).flags == PTE_W + PTE_U)
    ensures p == Placed ==> Growing(m, m2, d, lo, v + 1, had, left)
    ensures p != Placed ==> LoopResult(m, m2, d, lo, hi, p, had, left)
  {
    match p
    case Placed => GrowStep(m, m1, m2, d, lo, v, had, has, left);
    case Remapped(pg) => assert PteAt(m, d, v).present;
    case _ => GrowFails(m, m1, d, lo, v, hi, had, has);
  }

  lemma LoopEnds(m: Mem, m': Mem, d: int, lo: int, hi: int, had: int, has: int)
    requires Growing(m, m', d, lo, hi, had, has) && has >= 0
    ensures LoopResult(m, m', d, lo, hi, Placed, had, has)
  {
  }

  /** Nothing is mapped from the end of a process of sz bytes up to the kernel. */
  ghost predicate TopAt(m: Mem, d: int, sz: int) {
    forall v :: RoundUp(sz) <= v < UPAGES ==> !PteAt(m, d, v).present
  }

  lemma NoUserPages(m: Mem, d: int, kmap: seq<Seg>)
    requires WfMap(kmap) && Kernel(m, d, kmap, |kmap|)
    ensures forall v :: 0 <= v < UPAGES ==> !PteAt(m, d, v).present
  {
  }

  /** The pages from KERNBASE up are mapped as kmap says. */
  ghost predicate KernelPart(m: Mem, d: int, kmap: seq<Seg>) {
    && (forall i, v :: 0 <= i < |kmap| && UPAGES <= v < VPAGES && Covers(kmap[i], v) ==>
          PteAt(m, d, v) == Pte(true, kmap[i].pa + v - First(kmap[i]), kmap[i].perm))
    && (forall v :: UPAGES <= v < VPAGES && !Covered(kmap, |kmap|, v) ==> !PteAt(m, d, v).present)
  }

  datatype Option<T> = None | Some(value: T)
  datatype Copy = Copied(d: int) | Full | Crashed

  /** What copyuvm has left after setupkvm decides whether running out loses a page. */
  predicate Leaks(left: int) {
    0 <= left && left % (NENTRIES + 1) == 1
  }

  lemma LeakAt(left: int, v: int, has: int)
    requires 0 <= v && left == v + TablesFor(v) + has && (has == 0 || (has == 1 && v % NENTRIES == 0))
    ensures Leaks(left) <==> has == 1
  {
  }

  /** Another address space, whose pages are not written, keeps its mappings. */
  lemma OtherSpace(m: Mem, m': Mem, p: int, po: Owner, keep: set<int>)
    requires Space(m, p, po) && po.Keys <= keep && Frame(m, m', keep)
    ensures Space(m', p, po) && SameView(m, m', p)
    ensures forall i :: 0 <= i < NENTRIES ==> Pde(m', p, i) == Pde(m, p, i)
  {
    forall i | 0 <= i < NENTRIES
      ensures Pde(m', p, i) == Pde(m, p, i)
    {
    }
    forall v | 0 <= v < VPAGES
      ensures PteAt(m', p, v) == PteAt(m, p, v)
    {
      assert Pde(m, p, Pdx(v)).present ==> Pde(m, p, Pdx(v)).pa in po;
    }
  }

  /** The first n user pages of p, with the same flags, on pages of their own. */
  ghost predicate CopyOf(m: Mem, p: int, m': Mem, d: int, n: int, taken: set<int>) {
    forall v :: 0 <= v < n ==>
      && PteAt(m, p, v).present && PteAt(m', d, v).present
      && PteAt(m', d, v).flags == PteAt(m, p, v).flags && PteAt(m', d, v).pa !in taken
  }

  lemma SameAccess(m: Mem, p: int, po: Owner, m': Mem, d: int, owner: Owner, n: int, taken: set<int>)
    requires Space(m, p, po) && Space(m', d, owner) && 0 <= n <= UPAGES && CopyOf(m, p, m', d, n, taken)
    ensures forall v :: 0 <= v < n ==> Effective(m', d, v) == Effective(m, p, v)
  {
    hide Space, Effective;
    forall v | 0 <= v < n
      ensures Effective(m', d, v) == Effective(m, p, v)
    {
      EffectiveAccess(m, p, po, v);
      EffectiveAccess(m', d, owner, v);
    }
  }

  /** Where copying stands at page v: the child's state k was after setupkvm. */
  lemma CopyLeft(k: Mem, m: Mem, d: int, v: int, left: int, has: int)
    requires 0 <= v < UPAGES && Grown(k, m, d, 0, v, left, has)
    requires forall i :: 0 <= i < UTABLES ==> !Pde(k, d, i).present
    ensures left == v + TablesFor(v) + has
    ensures TableCost(m, d, v) == 1 <==> v % NENTRIES == 0
  {
    UserTables(Bits(k, d), v);
    NewTable(Bits(k, d), v);
    assert Bits(m, d)[Pdx(v)] <==> Pde(m, d, Pdx(v)).present;
  }

  /** copyuvm stops at page v: for want of a page, or of a table with a page in hand. */
  lemma CopyStops(k: Mem, m: Mem, d: int, v: int, n: int, left: int, has: int)
    requires 0 <= v < n <= UPAGES && Grown(k, m, d, 0, v, left, has)
    requires forall i :: 0 <= i < UTABLES ==> !Pde(k, d, i).present
    requires has == 0 || (has == 1 && TableCost(m, d, v) == 1)
    ensures left < n + TablesFor(n)
    ensures Leaks(left) <==> has == 1
  {
    CopyLeft(k, m, d, v, left, has);
    LeakAt(left, v, has);
    if has == 1 {
      assert TablesFor(v + 1) == TablesFor(v) + 1;
    }
    assert TablesFor(v + 1) <= TablesFor(n);
  }

  lemma CopyDone(k: Mem, m: Mem, d: int, n: int, left: int, has: int)
    requires 0 <= n <= UPAGES && Grown(k, m, d, 0, n, left, has) && has >= 0
    requires forall i :: 0 <= i < UTABLES ==> !Pde(k, d, i).present
    ensures left >= n + TablesFor(n) && SameOutside(k, m, d, 0, n)
  {
    UserTables(Bits(k, d), n);
  }

  /** How the loop of copyuvm ends; None is its panic on an absent page. */
  ghost predicate CopyResult(k: Mem, m: Mem, p: int, d: int, n: int, a: Option<Placing>, left: int, taken: set<int>) {
    match a
    case None => exists v :: 0 <= v < n && !PteAt(k, p, v).present
    case Some(Placed) => CopyOf(k, p, m, d, n, taken) && SameOutside(k, m, d, 0, n) && left >= n + TablesFor(n)
    case Some(NoPage) => left < n + TablesFor(n) && !Leaks(left)
    case Some(NoTable(pg)) => left < n + TablesFor(n) && Leaks(left) && pg !in taken
    case Some(Remapped(pg)) => false
  }

  ghost predicate Copying(k: Mem, m: Mem, p: int, d: int, v: int, left: int, has: int, taken: set<int>) {
    Grown(k, m, d, 0, v, left, has) && CopyOf(k, p, m, d, v, taken)
  }

  lemma CopyTurn(k: Mem, m1: Mem, m2: Mem, p: int, d: int, v: int, n: int, r: Placing,
                 left: int, has: int, has2: int, taken: set<int>)
    requires 0 <= v < n <= UPAGES && Copying(k, m1, p, d, v, left, has, taken)
    requires forall i :: 0 <= i < UTABLES ==> !Pde(k, d, i).present
    requires !PteAt(k, d, v).present && PteAt(k, p, v).present
    requires PlaceResult(m1, m2, d, v, r, has, has2) && (r.NoTable? ==> r.pg !in taken)
    requires r == Placed ==> PteAt(m2, d, v).flags == PteAt(k, p, v).flags && PteAt(m2, d, v).pa !in taken
    ensures r == Placed ==> Copying(k, m2, p, d, v + 1, left, has2, taken)
    ensures r != Placed ==> CopyResult(k, m2, p, d, n, Some(r), left, taken)
  {
    if r == Placed {
      GrowStep(k, m1, m2, d, 0, v, left, has, has2);
    } else {
      assert !PteAt(m1, d, v).present;
      CopyStops(k, m1, d, v, n, left, has);
    }
  }

  lemma SameFree(free: seq<int>, free': seq<int>, used: set<int>, total: set<int>)
    requires Ledger(free, used, total) && Ledger(free', used, total)
    ensures Pages(free) == Pages(free')
  {
  }

  /** All pages of free but one. */
  ghost predicate OneFewer(free: seq<int>, free': seq<int>) {
    exists pg :: pg in free && Pages(free') == Pages(free) - {pg}
  }

  lemma LosesOne(free: seq<int>, free': seq<int>, used: set<int>, pg: int, total: set<int>)
    requires Ledger(free, used, total) && Ledger(free', used + {pg}, total) && pg !in used
    ensures OneFewer(free, free')
  {
  }

  class Vm {
    var free: seq<int>        // kmem.freelist, first page first
    var mem: Mem
    ghost var owner: Owner    // the pages of the address space at hand
    ghost var held: set<int>  // pages allocated and not yet placed
    ghost var total: set<int>

    ghost predicate Balanced()
      reads this
    {
      owner.Keys !! held && Ledger(free, owner.Keys + held, total)
    }

    ghost predicate Valid(d: int)
      reads this
    {
      Balanced() && Space(mem, d, owner)
    }

    /** kinit: freerange gives the allocator every whole page between vstart and vend. */
    constructor (vstart: int, vend: int)
      requires 0 < vstart
      ensures Balanced() && owner == map[] && held == {} && mem == map[]
      ensures forall pg :: pg in free <==> RoundUp(vstart) <= pg && (pg + 1) * PGSIZE <= vend
      ensures RoundUp(vstart) * PGSIZE <= vend ==> |free| == vend / PGSIZE - RoundUp(vstart)
    {
      free, mem, owner, held, total := [], map[], map[], {}, {};
      new;
      var p := RoundUp(vstart);
      while (p + 1) * PGSIZE <= vend
        invariant RoundUp(vstart) <= p && Balanced() && owner == map[] && held == {} && mem == map[]
        invariant forall pg :: pg in free <==> RoundUp(vstart) <= pg < p && (pg + 1) * PGSIZE <= vend
        invariant |free| == p - RoundUp(vstart) && (RoundUp(vstart) < p ==> p * PGSIZE <= vend)
        decreases vend - p * PGSIZE
      {
        held, total := {p}, total + {p};
        LedgerGrow(free, total - {p}, p);
        Kfree(p);
        p := p + 1;
      }
    }

    method Kalloc() returns (pg: int)
      requires Balanced()
      modifies this`free, this`held
      ensures Balanced() && owner.Keys !! held
      ensures old(free) == [] ==> pg == -1 && free == [] && held == old(held)
      ensures old(free) != [] ==> pg == old(free)[0] && free == old(free)[1..] && held == old(held) + {pg}
                                  && pg !in owner && pg !in old(held)
    {
      if free == [] {
        return -1;
      }
      LedgerAlloc(free, owner.Keys + held, total);
      pg := free[0];
      free := free[1..];
      held := held + {pg};
      assert owner.Keys + held == owner.Keys + (held - {pg}) + {pg};
    }

    /** The page goes back on the list and its contents are lost. */
    method Kfree(pg: int)
      requires Balanced() && pg in held
      modifies this`free, this`held, this`mem
      ensures Balanced() && free == [pg] + old(free) && held == old(held) - {pg} && mem == old(mem) - {pg}
    {
      LedgerFree(free, owner.Keys + held, total, pg);
      mem := mem - {pg};
      free := [pg] + free;
      assert owner.Keys + held - {pg} == owner.Keys + (held - {pg});
      held := held - {pg};
    }

    /** The table page for virtual page v, made if alloc; -1 if there is none. */
    method WalkPgdir(d: int, v: int, alloc: bool) returns (t: int)
      requires Valid(d) && 0 <= v < VPAGES
      modifies this`free, this`held, this`mem, this`owner
      ensures Valid(d) && held == old(held) && SameView(old(mem), mem, d)
      ensures t != -1 ==> Pde(mem, d, Pdx(v)).present && t == Pde(mem, d, Pdx(v)).pa
      ensures t == -1 ==> !Pde(mem, d, Pdx(v)).present && (alloc ==> free == [])
      ensures !alloc || Pde(old(mem), d, Pdx(v)).present || t == -1 ==>
                mem == old(mem) && free == old(free) && owner == old(owner)
      ensures forall i :: 0 <= i < NENTRIES && i != Pdx(v) ==> Pde(mem, d, i) == Pde(old(mem), d, i)
      ensures t != -1 && !Pde(old(mem), d, Pdx(v)).present ==>
                |free| == |old(free)| - 1 && Pde(mem, d, Pdx(v)) == Pte(true, old(free)[0], PTE_W + PTE_U)
      ensures Frame(old(mem), mem, held)
    {
      var i := Pdx(v);
      var pde := mem[d][i];
      if pde.present {
        return pde.pa;
      }
      if !alloc {
        return -1;
      }
      var pgtab := Kalloc();
      if pgtab == -1 {
        return -1;
      }
      AddTableView(mem, d, owner, i, pgtab, PTE_W + PTE_U);
      AddTable(mem, d, owner, i, pgtab, PTE_W + PTE_U);
      mem := mem[pgtab := Zeros()];
      mem := mem[d := mem[d][i := Pte(true, pgtab, PTE_W + PTE_U)]];
      owner := owner[pgtab := Table(i)];
      held := held - {pgtab};
      t := pgtab;
    }

    /** kfree the page that v maps and clear its entry. */
    method Unmap(d: int, v: int, t: int)
      requires Valid(d) && 0 <= v < UPAGES && PteAt(mem, d, v).present
      requires Pde(mem, d, Pdx(v)).present && t == Pde(mem, d, Pdx(v)).pa
      modifies this`free, this`held, this`mem, this`owner
      ensures Valid(d) && held == old(held) && free == [PteAt(old(mem), d, v).pa] + old(free)
      ensures PteAt(mem, d, v) == ZERO && OnlyPage(old(mem), mem, d, v)
      ensures forall i :: 0 <= i < NENTRIES ==> Pde(mem, d, i) == Pde(old(mem), d, i)
      ensures Frame(old(mem), mem, held)
    {
      ghost var m, o := mem, owner;
      var pa := mem[t][Ptx(v)].pa;
      UnmapUser(m, d, o, v);
      SetPte(m, d, o, v, ZERO);
      ghost var m1 := SetEntry(m, t, Ptx(v), ZERO);
      Clobber(m1, d, o - {pa}, pa);
      owner, held := owner - {pa}, held + {pa};
      assert owner.Keys + held == o.Keys + old(held);
      Kfree(pa);
      mem := mem[t := mem[t][Ptx(v) := ZERO]];
      assert mem == m1 - {pa};
    }

    /** Frees exactly the pages that lay in PGROUNDUP(newsz) .. oldsz, once each. */
    method Deallocuvm(d: int, oldsz: int, newsz: int) returns (sz: int)
      requires Valid(d) && 0 <= oldsz <= KERNBASE && 0 <= newsz
      modifies this`free, this`held, this`mem, this`owner
      ensures Valid(d) && held == old(held) && Frame(old(mem), mem, held)
      ensures newsz >= oldsz ==> sz == oldsz && mem == old(mem) && free == old(free)
      ensures newsz < oldsz ==>
                && sz == newsz
                && Cleared(old(mem), mem, d, RoundUp(newsz), RoundUp(oldsz))
                && Released(old(free), free, old(mem), d, RoundUp(newsz), RoundUp(oldsz))
    {
      if newsz >= oldsz {
        return oldsz;
      }
      DeallocRange(d, RoundUp(newsz), RoundUp(oldsz));
      sz := newsz;
    }

    method DeallocRange(d: int, lo: int, hi: int)
      requires Valid(d) && 0 <= lo <= hi <= UPAGES
      modifies this`free, this`held, this`mem, this`owner
      ensures Valid(d) && held == old(held) && Frame(old(mem), mem, held)
      ensures Cleared(old(mem), mem, d, lo, hi)
      ensures Released(old(free), free, old(mem), d, lo, hi)
    {
      ghost var m, f := mem, free;
      var v := lo;
      ghost var done := lo;
      while v < hi
        invariant Valid(d) && held == old(held) && lo <= v && done == (if v < hi then v else hi)
        invariant Cleared(m, mem, d, lo, done)
        invariant Released(f, free, m, d, lo, done)
        invariant forall i :: 0 <= i < NENTRIES ==> Pde(mem, d, i) == Pde(m, d, i)
        invariant Frame(m, mem, held)
      {
        var t := WalkPgdir(d, v, false);
        if t == -1 {
          SkipsNothing(m, d, v);
          SkipsNothing(mem, d, v);
          done := if NextTable(v) < hi then NextTable(v) else hi;
          ReleasedSkip(f, free, m, d, lo, v, done);
          v := NextTable(v);
        } else {
          ReleasedOne(f, free, m, d, lo, v);
          if mem[t][Ptx(v)].present {
            Unmap(d, v, t);
          }
          v := v + 1;
          done := v;
        }
      }
    }

    /** One turn of mappages.  Remap is its panic. */
    method MapOne(d: int, v: int, pa: int, perm: int) returns (r: Mapping)
      requires Valid(d) && 0 <= v < VPAGES && (v < UPAGES ==> pa in held)
      modifies this`free, this`held, this`mem, this`owner
      ensures Valid(d) && Frame(old(mem), mem, held)
      ensures r == Mapped ==> MappedRange(old(mem), mem, d, v, v + 1, pa, perm)
      ensures held == if r == Mapped && v < UPAGES then old(held) - {pa} else old(held)
      ensures OnePage(old(mem), mem, d, v, r, |old(free)|, |free|)
    {
      var t := WalkPgdir(d, v, true);
      if t == -1 {
        return NoMemory;
      }
      if mem[t][Ptx(v)].present {
        assert PteAt(mem, d, v).present;
        return Remap;
      }
      Place(d, v, t, Pte(true, pa, perm));
      r := Mapped;
    }

    /** Maps the pages that va .. va + size touches to pa, pa + 1, ... */
    method Mappages(d: int, va: int, size: int, pa: int, perm: int) returns (r: Mapping)
      requires Valid(d) && 0 <= va && 1 <= size && va + size <= VPAGES * PGSIZE
      requires PageOf(va) < UPAGES ==> PageOf(va + size - 1) == PageOf(va) && pa in held
      modifies this`free, this`held, this`mem, this`owner
      ensures Valid(d) && Frame(old(mem), mem, held)
      ensures held == if r == Mapped && PageOf(va) < UPAGES then old(held) - {pa} else old(held)
      ensures RangeResult(old(mem), mem, d, PageOf(va), PageOf(va + size - 1) + 1, pa, perm, r, |old(free)|, |free|)
      ensures PageOf(va + size - 1) == PageOf(va) ==> OnePage(old(mem), mem, d, PageOf(va), r, |old(free)|, |free|)
      ensures r == Mapped ==> Permits(mem, d, PageOf(va), PageOf(va + size - 1) + 1, perm)
    {
      hide Space, Ledger, Permits, OnePage;
      r := MapRange(d, PageOf(va), PageOf(va + size - 1), pa, perm);
      if r == Mapped {
        PermitsRange(mem, d, owner, PageOf(va), PageOf(va + size - 1) + 1, perm);
      }
    }

    method MapRange(d: int, a: int, last: int, pa: int, perm: int) returns (r: Mapping)
      requires Valid(d) && 0 <= a <= last < VPAGES && (a < UPAGES ==> last == a && pa in held)
      modifies this`free, this`held, this`mem, this`owner
      ensures Valid(d) && Frame(old(mem), mem, held)
      ensures held == if r == Mapped && a < UPAGES then old(held) - {pa} else old(held)
      ensures RangeResult(old(mem), mem, d, a, last + 1, pa, perm, r, |old(free)|, |free|)
      ensures last == a ==> OnePage(old(mem), mem, d, a, r, |old(free)|, |free|)
    {
      ghost var m, had := mem, |free|;
      var v, f := a, pa;
      WithNothing(Bits(m, d), a);
      while true
        invariant Valid(d) && a <= v <= last && f == pa + v - a && Frame(m, mem, held) && held == old(held)
        invariant Partway(m, mem, d, a, v, pa, perm, had, |free|)
        decreases last - v
      {
        ghost var m1, has := mem, |free|;
        r := MapOne(d, v, f, perm);
        Turn(m, m1, mem, d, a, v, last, pa, perm, r, had, has, |free|);
        if r != Mapped || v == last {
          return;
        }
        v, f := v + 1, f + 1;
      }
    }

    /** Fills the entry of v in table t. */
    method Place(d: int, v: int, t: int, e: Pte)
      requires Valid(d) && 0 <= v < VPAGES && e.present && (v < UPAGES ==> e.pa in held)
      requires Pde(mem, d, Pdx(v)).present && t == Pde(mem, d, Pdx(v)).pa && !PteAt(mem, d, v).present
      modifies this`held, this`mem, this`owner
      ensures Valid(d) && held == (if v < UPAGES then old(held) - {e.pa} else old(held))
      ensures PteAt(mem, d, v) == e && OnlyPage(old(mem), mem, d, v)
      ensures forall i :: 0 <= i < NENTRIES ==> Pde(mem, d, i) == Pde(old(mem), d, i)
      ensures Frame(old(mem), mem, held)
    {
      ghost var o, h := owner, held;
      SetPte(mem, d, o, v, e);
      if v < UPAGES {
        MapUser(mem, d, o, v, e);
        owner, held := o[e.pa := User(v)], h - {e.pa};
        assert owner.Keys + held == o.Keys + h;
      } else {
        MapKernel(mem, d, o, v, e);
      }
      mem := mem[t := mem[t][Ptx(v) := e]];
    }

    /** Gives back every page of the address space. */
    method Freevm(d: int)
      requires Valid(d)
      modifies this`free, this`held, this`mem, this`owner
      ensures Balanced() && owner == map[] && held == old(held) && Frame(old(mem), mem, held)
    {
      assert RoundUp(0) == 0 && RoundUp(KERNBASE) == UPAGES;
      var sz := Deallocuvm(d, KERNBASE, 0);
      OnlyTables(mem, d, owner);
      FreeTables(d);
      OnlyDir(mem, d, owner);
      held, owner := held + {d}, map[];
      Kfree(d);
    }

    method FreeTables(d: int)
      requires Balanced() && HasTable(mem, d) && Remaining(mem, d, owner, 0)
      modifies this`free, this`held, this`mem, this`owner
      ensures Balanced() && Remaining(mem, d, owner, NENTRIES) && held == old(held) && Frame(old(mem), mem, held)
    {
      var i := 0;
      while i < NENTRIES
        invariant 0 <= i <= NENTRIES && Balanced() && held == old(held) && Frame(old(mem), mem, held)
        invariant HasTable(mem, d) && Remaining(mem, d, owner, i)
      {
        var pde := mem[d][i];
        assert pde == Pde(mem, d, i);
        if pde.present {
          FreeTable(d, i, pde.pa);
        }
        i := i + 1;
      }
    }

    method FreeTable(d: int, ghost i: int, pa: int)
      requires Balanced() && HasTable(mem, d) && Remaining(mem, d, owner, i)
      requires 0 <= i < NENTRIES && Pde(mem, d, i).present && pa == Pde(mem, d, i).pa
      modifies this`free, this`held, this`mem, this`owner
      ensures Balanced() && HasTable(mem, d) && Remaining(mem, d, owner, i + 1)
      ensures held == old(held) && Frame(old(mem), mem, held)
    {
      ghost var o, h := owner, held;
      owner, held := o - {pa}, h + {pa};
      assert owner.Keys + held == o.Keys + h;
      Kfree(pa);
      DropTable(old(mem), d, o, i);
    }

    /** A new address space with the kernel's part mapped; -1 if pages run out. */
    method Setupkvm(kmap: seq<Seg>) returns (d: int)
      requires Balanced() && owner == map[] && WfMap(kmap)
      modifies this`free, this`held, this`mem, this`owner
      ensures held == old(held) && Frame(old(mem), mem, held)
      ensures d == -1 <==> |old(free)| < SetupCost(kmap)
      ensures d == -1 ==> Balanced() && owner == map[]
      ensures d != -1 ==> Valid(d) && Kernel(mem, d, kmap, |kmap|) && |free| == |old(free)| - SetupCost(kmap)
      ensures d != -1 ==> forall i :: 0 <= i < UTABLES ==> !Pde(mem, d, i).present
    {
      CountBounds(KernelBits(kmap, |kmap|));
      d := Kalloc();
      if d == -1 {
        return;
      }
      mem := mem[d := Zeros()];
      EmptySpace(mem, d);
      owner, held := map[d := Dir], held - {d};
      NoBits(mem, d, kmap);
      var ok := MapKernelSegs(d, kmap);
      if !ok {
        Freevm(d);
        d := -1;
      }
    }

    /** mappages of segment k. */
    method MapSeg(d: int, kmap: seq<Seg>, k: int, ghost m0: Mem, ghost had: int) returns (ok: bool)
      requires Valid(d) && WfMap(kmap) && 0 <= k < |kmap| && Segments(m0, mem, d, kmap, k, had, |free|)
      modifies this`free, this`held, this`mem, this`owner
      ensures Valid(d) && held == old(held) && Frame(old(mem), mem, held) && LowTables(m0, mem, d)
      ensures ok ==> Segments(m0, mem, d, kmap, k + 1, had, |free|)
      ensures !ok ==> had < Count(KernelBits(kmap, |kmap|))
    {
      hide Space, Ledger, Segments, RangeResult, OnePage;
      var s := kmap[k];
      var r := Mappages(d, s.virt, s.size, s.pa, s.perm);
      SegmentDone(m0, old(mem), mem, d, kmap, k, r, had, |old(free)|, |free|);
      ok := r == Mapped;
    }

    method MapKernelSegs(d: int, kmap: seq<Seg>) returns (ok: bool)
      requires Valid(d) && WfMap(kmap) && Segments(mem, mem, d, kmap, 0, |free|, |free|)
      modifies this`free, this`held, this`mem, this`owner
      ensures Valid(d) && held == old(held) && Frame(old(mem), mem, held) && LowTables(old(mem), mem, d)
      ensures ok ==> Segments(old(mem), mem, d, kmap, |kmap|, |old(free)|, |free|)
      ensures !ok ==> |old(free)| < Count(KernelBits(kmap, |kmap|))
    {
      ghost var m0, had := mem, |free|;
      var k := 0;
      ok := true;
      while k < |kmap| && ok
        invariant 0 <= k <= |kmap| && Valid(d) && held == old(held) && Frame(m0, mem, held) && LowTables(m0, mem, d)
        invariant if ok then Segments(m0, mem, d, kmap, k, had, |free|) else had < Count(KernelBits(kmap, |kmap|))
      {
        ok := MapSeg(d, kmap, k, m0, had);
        k := k + 1;
      }
    }

    /** kalloc and mappages of one user page. */
    method AllocPage(d: int, v: int, perm: int) returns (r: Placing)
      requires Valid(d) && 0 <= v < UPAGES
      modifies this`free, this`held, this`mem, this`owner
      ensures Valid(d) && Frame(old(mem), mem, old(held))
      ensures PlaceResult(old(mem), mem, d, v, r, |old(free)|, |free|)
      ensures r == Placed ==> PteAt(mem, d, v).flags == perm && PteAt(mem, d, v).pa !in old(held)
      ensures held == InHand(old(held), r) && (r.NoTable? ==> r.pg !in old(held))
    {
      var pg := Kalloc();
      if pg == -1 {
        return NoPage;
      }
      ghost var h := held;
      assert PageOf(v * PGSIZE) == v && PageOf(v * PGSIZE + PGSIZE - 1) == v;
      var m := Mappages(d, v * PGSIZE, PGSIZE, pg, perm);
      match m
      case Mapped =>
        assert held == h - {pg} == old(held);
        r := Placed;
      case NoMemory => r := NoTable(pg);
      case Remap => r := Remapped(pg);
    }

    /** Grows the address space, or leaves it as it was when pages run out.  Panic is
        mappages meeting a page that is already mapped. */
    method Allocuvm(d: int, oldsz: int, newsz: int) returns (r: Growth)
      requires Valid(d) && 0 <= oldsz && 0 <= newsz
      modifies this`free, this`held, this`mem, this`owner
      ensures r != Panic ==> Valid(d) && held == old(held) && Frame(old(mem), mem, held)
      ensures newsz >= KERNBASE ==> r == Sized(0) && mem == old(mem) && free == old(free)
      ensures newsz < KERNBASE && newsz < oldsz ==> r == Sized(oldsz) && mem == old(mem) && free == old(free)
      ensures oldsz <= newsz < KERNBASE ==>
                GrowResult(old(mem), mem, d, RoundUp(oldsz), RoundUp(newsz), newsz, |old(free)|, |free|, r)
      // the program can read and write what it was given
      ensures oldsz <= newsz < KERNBASE && r == Sized(newsz) ==> Permits(mem, d, RoundUp(oldsz), RoundUp(newsz), PTE_W + PTE_U)
    {
      hide Space, Ledger, Permits, Grown, Short;
      if newsz >= KERNBASE {
        return Sized(0);
      }
      if newsz < oldsz {
        return Sized(oldsz);
      }
      r := AllocRange(d, oldsz, newsz);
      if r == Sized(newsz) {
        PermitsRange(mem, d, owner, RoundUp(oldsz), RoundUp(newsz), PTE_W + PTE_U);
      }
    }

    /** The failure path: what was mapped goes, and so does the page in hand. */
    method Undo(d: int, oldsz: int, newsz: int, p: Placing)
      requires Valid(d) && 0 <= oldsz < newsz < KERNBASE && (p == NoPage || (p.NoTable? && p.pg in held))
      modifies this`free, this`held, this`mem, this`owner
      ensures Valid(d) && held == (if p == NoPage then old(held) else old(held) - {p.pg})
      ensures Cleared(old(mem), mem, d, RoundUp(oldsz), RoundUp(newsz)) && Frame(old(mem), mem, held)
    {
      var sz := Deallocuvm(d, newsz, oldsz);
      if p != NoPage {
        Clobber(mem, d, owner, p.pg);
        Kfree(p.pg);
      }
    }

    method AllocRange(d: int, oldsz: int, newsz: int) returns (r: Growth)
      requires Valid(d) && 0 <= oldsz <= newsz < KERNBASE
      modifies this`free, this`held, this`mem, this`owner
      ensures r != Panic ==> Valid(d) && held == old(held) && Frame(old(mem), mem, held)
      ensures GrowResult(old(mem), mem, d, RoundUp(oldsz), RoundUp(newsz), newsz, |old(free)|, |free|, r)
    {
      var p := AllocLoop(d, RoundUp(oldsz), RoundUp(newsz));
      match p
      case Placed => r := Sized(newsz);
      case Remapped(pg) => r := Panic;
      case _ =>
        Undo(d, oldsz, newsz, p);
        r := Sized(0);
    }

    method AllocLoop(d: int, lo: int, hi: int) returns (p: Placing)
      requires Valid(d) && 0 <= lo <= hi <= UPAGES
      modifies this`free, this`held, this`mem, this`owner
      ensures Valid(d) && Frame(old(mem), mem, old(held)) && held == InHand(old(held), p)
      ensures LoopResult(old(mem), mem, d, lo, hi, p, |old(free)|, |free|)
      ensures p.NoTable? ==> p.pg !in old(held)
      ensures p != Placed ==> lo < hi
    {
      hide Space, Ledger, Grown, PlaceResult, LoopResult;
      ghost var m, had := mem, |free|;
      var v := lo;
      GrownNothing(m, d, lo, had);
      p := Placed;
      while v < hi && p == Placed
        invariant lo <= v <= hi && Valid(d) && held == InHand(old(held), p) && Frame(m, mem, old(held))
        invariant if p == Placed then Growing(m, mem, d, lo, v, had, |free|) else LoopResult(m, mem, d, lo, hi, p, had, |free|)
        invariant p.NoTable? ==> p.pg !in old(held)
        invariant p != Placed ==> lo < hi
      {
        ghost var m1, has := mem, |free|;
        p := AllocPage(d, v, PTE_W + PTE_U);
        LoopTurn(m, m1, mem, d, lo, v, hi, p, had, has, |free|);
        v := v + 1;
      }
      if p == Placed {
        LoopEnds(m, mem, d, lo, hi, had, |free|);
      }
    }

    /** An address space made, resized any number of times and freed: the free pages are
        what they were, whichever requests ran out of memory on the way. */
    method Lifetime(kmap: seq<Seg>, sizes: seq<int>)
      requires Balanced() && owner == map[] && WfMap(kmap) && forall i :: 0 <= i < |sizes| ==> 0 <= sizes[i]
      modifies this`free, this`held, this`mem, this`owner
      ensures Balanced() && owner == map[] && held == old(held) && Frame(old(mem), mem, held)
      ensures Pages(free) == old(Pages(free))
    {
      var d := Setupkvm(kmap);
      if d != -1 {
        NoUserPages(mem, d, kmap);
        var sz, i := 0, 0;
        while i < |sizes|
          invariant 0 <= i <= |sizes| && Valid(d) && held == old(held) && Frame(old(mem), mem, held)
          invariant 0 <= sz < KERNBASE && TopAt(mem, d, sz)
        {
          sz := Resize(d, sz, sizes[i]);
          i := i + 1;
        }
        Freevm(d);
      }
      SameFree(old(free), free, owner.Keys + held, total);
    }

    method Resize(d: int, sz: int, newsz: int) returns (sz': int)
      requires Valid(d) && 0 <= sz < KERNBASE && 0 <= newsz && TopAt(mem, d, sz)
      modifies this`free, this`held, this`mem, this`owner
      ensures Valid(d) && held == old(held) && Frame(old(mem), mem, held)
      ensures 0 <= sz' < KERNBASE && TopAt(mem, d, sz')
    {
      if newsz < sz {
        sz' := Deallocuvm(d, sz, newsz);
      } else {
        var r := Allocuvm(d, sz, newsz);
        sz' := if r == Sized(0) then sz else r.sz;
      }
    }

    /** Copies the first sz bytes' worth of pages of p into a new address space.  The pages of
        p, named by po, are among those held and are not touched.  Crashed is a panic.  When
        pages run out the copy is freed, but if they run out on a page table the page in
        hand is lost: exactly when the number of pages left after setupkvm is 1 modulo 1025. */
    method Copyuvm(p: int, sz: int, kmap: seq<Seg>, ghost po: Owner) returns (r: Copy)
      requires Balanced() && owner == map[] && WfMap(kmap) && 0 <= sz <= KERNBASE
      requires Space(mem, p, po) && po.Keys <= held
      modifies this`free, this`held, this`mem, this`owner
      ensures Frame(old(mem), mem, old(held)) && Space(mem, p, po) && SameView(old(mem), mem, p)
      ensures r == Crashed ==> exists v :: 0 <= v < RoundUp(sz) && !PteAt(old(mem), p, v).present
      ensures r.Copied? ==>
                && Valid(r.d) && held == old(held) && CopyOf(old(mem), p, mem, r.d, RoundUp(sz), held)
                && TopAt(mem, r.d, sz) && KernelPart(mem, r.d, kmap)
                && (forall v :: 0 <= v < RoundUp(sz) ==> Effective(mem, r.d, v) == Effective(old(mem), p, v))
      ensures r != Crashed ==> (r == Full <==> |old(free)| - SetupCost(kmap) < RoundUp(sz) + TablesFor(RoundUp(sz)))
      ensures r == Full ==>
                && Balanced() && owner == map[]
                && (if Leaks(|old(free)| - SetupCost(kmap)) then OneFewer(old(free), free) else Pages(free) == old(Pages(free)))
    {
      hide Space, OneFewer, SetupCost;
      ghost var left := |free| - SetupCost(kmap);
      var d := Setupkvm(kmap);
      OtherSpace(old(mem), mem, p, po, held);
      if d == -1 {
        SameFree(old(free), free, owner.Keys + held, total);
        return Full;
      }
      NoUserPages(mem, d, kmap);
      r := CopyPages(p, RoundUp(sz), d, po, left);
      OtherSpace(old(mem), mem, p, po, old(held));
      if r.Copied? {
        SameAccess(old(mem), p, po, mem, d, owner, RoundUp(sz), held);
      }
      if r == Full {
        if Leaks(left) {
          var pg :| pg !in old(held) && held == old(held) + {pg};
          LosesOne(old(free), free, old(held), pg, total);
        } else {
          SameFree(old(free), free, held, total);
        }
      }
    }

    method CopyPages(p: int, n: int, d: int, ghost po: Owner, ghost left: int) returns (r: Copy)
      requires Valid(d) && 0 <= n <= UPAGES && left == |free| && Space(mem, p, po) && po.Keys <= held
      requires forall i :: 0 <= i < UTABLES ==> !Pde(mem, d, i).present
      requires forall v :: 0 <= v < UPAGES ==> !PteAt(mem, d, v).present
      modifies this`free, this`held, this`mem, this`owner
      ensures Frame(old(mem), mem, old(held))
      ensures r == Crashed ==> exists v :: 0 <= v < n && !PteAt(old(mem), p, v).present
      ensures r.Copied? ==>
                && r.d == d && Valid(d) && held == old(held) && CopyOf(old(mem), p, mem, d, n, held)
                && SameOutside(old(mem), mem, d, 0, n) && left >= n + TablesFor(n)
      ensures r == Full ==>
                && Balanced() && owner == map[] && left < n + TablesFor(n)
                && (if Leaks(left) then exists pg :: pg !in old(held) && held == old(held) + {pg} else held == old(held))
    {
      var a := CopyLoop(p, n, d, po, left);
      if a == None {
        r := Crashed;
      } else if a == Some(Placed) {
        r := Copied(d);
      } else {
        Freevm(d);
        r := Full;
      }
    }

    method CopyLoop(p: int, n: int, d: int, ghost po: Owner, ghost left: int) returns (a: Option<Placing>)
      requires Valid(d) && 0 <= n <= UPAGES && left == |free| && Space(mem, p, po) && po.Keys <= held
      requires forall i :: 0 <= i < UTABLES ==> !Pde(mem, d, i).present
      requires forall v :: 0 <= v < UPAGES ==> !PteAt(mem, d, v).present
      modifies this`free, this`held, this`mem, this`owner
      ensures Valid(d) && Frame(old(mem), mem, old(held)) && held == (if a.Some? then InHand(old(held), a.value) else old(held))
      ensures CopyResult(old(mem), mem, p, d, n, a, left, old(held))
    {
      ghost var k, h := mem, held;
      GrownNothing(k, d, 0, left);
      var v := 0;
      a := Some(Placed);
      while v < n && a == Some(Placed)
        invariant 0 <= v <= n && Valid(d) && held == (if a.Some? then InHand(h, a.value) else h) && Frame(k, mem, h)
        invariant if a == Some(Placed) then Copying(k, mem, p, d, v, left, |free|, h)
                  else CopyResult(k, mem, p, d, n, a, left, h)
      {
        a := CopyPage(p, v, n, d, po, k, left);
        v := v + 1;
      }
      if a == Some(Placed) {
        CopyDone(k, mem, d, n, left, |free|);
      }
    }

    method CopyPage(p: int, v: int, ghost n: int, d: int, ghost po: Owner, ghost k: Mem, ghost left: int)
      returns (a: Option<Placing>)
      requires Valid(d) && 0 <= v < n <= UPAGES && Space(k, p, po) && po.Keys <= held && Frame(k, mem, held)
      requires forall i :: 0 <= i < UTABLES ==> !Pde(k, d, i).present
      requires !PteAt(k, d, v).present && Copying(k, mem, p, d, v, left, |free|, held)
      modifies this`free, this`held, this`mem, this`owner
      ensures Valid(d) && Frame(k, mem, old(held)) && held == (if a.Some? then InHand(old(held), a.value) else old(held))
      ensures if a == Some(Placed) then Copying(k, mem, p, d, v + 1, left, |free|, old(held))
              else CopyResult(k, mem, p, d, n, a, left, old(held))
    {
      OtherSpace(k, mem, p, po, held);
      var e := Lookup(p, v, po);
      if !e.present {
        return None;
      }
      ghost var m1, has, h := mem, |free|, held;
      var r := AllocPage(d, v, e.flags);
      CopyTurn(k, m1, mem, p, d, v, n, r, left, has, |free|, h);
      a := Some(r);
    }

    /** walkpgdir without alloc, and the entry it finds. */
    method Lookup(p: int, v: int, ghost po: Owner) returns (e: Pte)
      requires Space(mem, p, po) && 0 <= v < VPAGES
      ensures e == PteAt(mem, p, v)
    {
      var pde := mem[p][Pdx(v)];
      if !pde.present {
        return ZERO;
      }
      assert pde == Pde(mem, p, Pdx(v));
      e := mem[pde.pa][Ptx(v)];
    }
  }

  /** A process of one page, made where n pages are then left free.  Its pages are set aside
      as held, so that another address space can be the one at hand. */
  method OnePageProcess(data: int, n: nat) returns (vm: Vm, p: int, ghost po: Owner)
    requires KERNLINK < data < KERNBASE + PHYSTOP && data % PGSIZE == 0
    ensures fresh(vm) && vm.Balanced() && vm.owner == map[] && |vm.free| == n
    ensures Space(vm.mem, p, po) && po.Keys <= vm.held && PteAt(vm.mem, p, 0).present
  {
    hide Space, Ledger, Kmap, Kernel, UserMapped;
    KmapWfIff(data);
    KmapCost(data);
    var kmap := Kmap(data);
    vm := new Vm(PGSIZE, (1 + 65 + 2 + n) * PGSIZE);
    p := vm.Setupkvm(kmap);
    ghost var k := vm.mem;
    NoUserPages(k, p, kmap);
    UserTables(Bits(k, p), 1);
    var r := vm.Allocuvm(p, 0, PGSIZE);
    CopyLeft(k, vm.mem, p, 1, 2 + n, |vm.free|);
    po := vm.owner;
    vm.owner, vm.held := map[], vm.held + po.Keys;
    assert vm.owner.Keys + vm.held == po.Keys + {};
  }

  /** Copying a process of one page with n free pages: 67 are enough, and with 66 the page that
      finds no table is lost. */
  method CopyOnePage(data: int, n: nat) returns (vm: Vm, r: Copy, ghost before: seq<int>)
    requires KERNLINK < data < KERNBASE + PHYSTOP && data % PGSIZE == 0
    ensures |before| == n && r != Crashed && (r == Full <==> n < 67)
    ensures r == Full ==>
              && vm.Balanced() && vm.owner == map[]
              && (if n == 66 then OneFewer(before, vm.free) else Pages(vm.free) == Pages(before))
  {
    hide Space, Ledger, Kmap, OneFewer, Pages, Frame;
    KmapWfIff(data);
    KmapCost(data);
    var p;
    ghost var po;
    vm, p, po := OnePageProcess(data, n);
    before := vm.free;
    r := vm.Copyuvm(p, PGSIZE, Kmap(data), po);
  }
}
