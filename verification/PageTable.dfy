/** Two-level page tables as values.  Addresses are counted in pages: a frame number for a
    physical page, a page number below 2^20 for a virtual one. */
module PageTable {

  const NENTRIES: int := 1024
  const UPAGES: int := 0x8_0000     // pages below KERNBASE
  const VPAGES: int := 0x10_0000
  const PTE_W: int := 2
  const PTE_U: int := 4

  datatype Pte = Pte(present: bool, pa: int, flags: int)
  const ZERO: Pte := Pte(false, 0, 0)

  /** What every page that serves as a directory or table holds. */
  type Mem = map<int, seq<Pte>>

  function Pdx(v: int): int {
    v / NENTRIES
  }

  function Ptx(v: int): int {
    v % NENTRIES
  }

  function Entry(m: Mem, pg: int, i: int): Pte {
    if pg in m && 0 <= i < |m[pg]| then m[pg][i] else ZERO
  }

  function Pde(m: Mem, d: int, i: int): Pte {
    Entry(m, d, i)
  }

  /** The entry that maps virtual page v: the flat view of the two levels. */
  function PteAt(m: Mem, d: int, v: int): Pte {
    var t := Pde(m, d, Pdx(v));
    if t.present then Entry(m, t.pa, Ptx(v)) else ZERO
  }

  predicate Has(flags: int, bit: int)
    requires bit > 0
  {
    flags / bit % 2 == 1
  }

  /** The permission bits among the flags. */
  function Access(flags: int): int {
    (if Has(flags, PTE_W) then PTE_W else 0) + (if Has(flags, PTE_U) then PTE_U else 0)
  }

  /** What the processor allows on page v: only what both levels allow. */
  function Effective(m: Mem, d: int, v: int): int {
    var t, e := Pde(m, d, Pdx(v)), PteAt(m, d, v);
    (if Has(t.flags, PTE_W) && Has(e.flags, PTE_W) then PTE_W else 0) +
    (if Has(t.flags, PTE_U) && Has(e.flags, PTE_U) then PTE_U else 0)
  }

  /** What a page of an address space is for. */
  datatype Use = Dir | Table(i: int) | User(v: int)
  type Owner = map<int, Use>

  ghost predicate HasTable(m: Mem, pg: int) {
    pg in m && |m[pg]| == NENTRIES
  }

  /** owner names the one use of every page of the address space d. */
  ghost predicate Space(m: Mem, d: int, owner: Owner) {
    && d in owner && owner[d] == Dir && HasTable(m, d)
    && (forall i :: 0 <= i < NENTRIES && Pde(m, d, i).present ==>
          && Pde(m, d, i).pa in owner && owner[Pde(m, d, i).pa] == Table(i) && HasTable(m, Pde(m, d, i).pa)
          && Pde(m, d, i).flags == PTE_W + PTE_U)
    && (forall v :: 0 <= v < UPAGES && PteAt(m, d, v).present ==>
          PteAt(m, d, v).pa in owner && owner[PteAt(m, d, v).pa] == User(v))
    && (forall pg :: pg in owner ==>
          match owner[pg]
          case Dir => pg == d
          case Table(i) => 0 <= i < NENTRIES && Pde(m, d, i).present && Pde(m, d, i).pa == pg
          case User(v) => 0 <= v < UPAGES && PteAt(m, d, v).present && PteAt(m, d, v).pa == pg)
  }

  /** Every mapped page can be used as its own entry says. */
  lemma EffectiveAccess(m: Mem, d: int, owner: Owner, v: int)
    requires Space(m, d, owner) && 0 <= v < VPAGES && PteAt(m, d, v).present
    ensures Effective(m, d, v) == Access(PteAt(m, d, v).flags)
  {
    assert Pde(m, d, Pdx(v)).present;
  }

  function SetEntry(m: Mem, pg: int, i: int, e: Pte): Mem
    requires pg in m && 0 <= i < |m[pg]|
  {
    m[pg := m[pg][i := e]]
  }

  /** Every virtual page other than v is mapped as before. */
  ghost predicate OnlyPage(m: Mem, m': Mem, d: int, v: int) {
    forall w :: 0 <= w < VPAGES && w != v ==> PteAt(m', d, w) == PteAt(m, d, w)
  }

  /** Writing the entry of v, whose table exists. */
  lemma SetPte(m: Mem, d: int, owner: Owner, v: int, e: Pte)
    requires Space(m, d, owner) && 0 <= v < VPAGES && Pde(m, d, Pdx(v)).present
    ensures HasTable(m, Pde(m, d, Pdx(v)).pa) && Pde(m, d, Pdx(v)).pa != d
    ensures var m' := SetEntry(m, Pde(m, d, Pdx(v)).pa, Ptx(v), e);
            && PteAt(m', d, v) == e && OnlyPage(m, m', d, v)
            && (forall i :: 0 <= i < NENTRIES ==> Pde(m', d, i) == Pde(m, d, i))
            && (forall pg :: HasTable(m, pg) ==> HasTable(m', pg))
  {
  }

  lemma MapUser(m: Mem, d: int, owner: Owner, v: int, e: Pte)
    requires Space(m, d, owner) && 0 <= v < UPAGES && Pde(m, d, Pdx(v)).present && !PteAt(m, d, v).present
    requires e.present && e.pa !in owner
    ensures HasTable(m, Pde(m, d, Pdx(v)).pa)
    ensures Space(SetEntry(m, Pde(m, d, Pdx(v)).pa, Ptx(v), e), d, owner[e.pa := User(v)])
  {
    SetPte(m, d, owner, v, e);
  }

  lemma MapKernel(m: Mem, d: int, owner: Owner, v: int, e: Pte)
    requires Space(m, d, owner) && UPAGES <= v < VPAGES && Pde(m, d, Pdx(v)).present
    ensures HasTable(m, Pde(m, d, Pdx(v)).pa)
    ensures Space(SetEntry(m, Pde(m, d, Pdx(v)).pa, Ptx(v), e), d, owner)
  {
    SetPte(m, d, owner, v, e);
  }

  lemma UnmapUser(m: Mem, d: int, owner: Owner, v: int)
    requires Space(m, d, owner) && 0 <= v < UPAGES && PteAt(m, d, v).present
    ensures Pde(m, d, Pdx(v)).present && HasTable(m, Pde(m, d, Pdx(v)).pa) && PteAt(m, d, v).pa in owner
    ensures Space(SetEntry(m, Pde(m, d, Pdx(v)).pa, Ptx(v), ZERO), d, owner - {PteAt(m, d, v).pa})
  {
    SetPte(m, d, owner, v, ZERO);
  }

  function Zeros(): (t: seq<Pte>)
    ensures |t| == NENTRIES
  {
    seq(NENTRIES, i => ZERO)
  }

  /** The memory with page pg cleared and hooked into directory slot i. */
  function WithTable(m: Mem, d: int, i: int, pg: int, flags: int): Mem
    requires d in m && 0 <= i < |m[d]| && pg != d
  {
    SetEntry(m[pg := Zeros()], d, i, Pte(true, pg, flags))
  }

  /** An empty table changes no mapping. */
  lemma AddTableView(m: Mem, d: int, owner: Owner, i: int, pg: int, flags: int)
    requires Space(m, d, owner) && 0 <= i < NENTRIES && !Pde(m, d, i).present && pg !in owner
    ensures pg != d
    ensures var m' := WithTable(m, d, i, pg, flags);
            && (forall v :: 0 <= v < VPAGES ==> PteAt(m', d, v) == PteAt(m, d, v))
            && Pde(m', d, i) == Pte(true, pg, flags)
            && (forall j :: 0 <= j < NENTRIES && j != i ==> Pde(m', d, j) == Pde(m, d, j))
  {
  }

  lemma AddTable(m: Mem, d: int, owner: Owner, i: int, pg: int, flags: int)
    requires Space(m, d, owner) && 0 <= i < NENTRIES && !Pde(m, d, i).present && pg !in owner && flags == PTE_W + PTE_U
    ensures pg != d && Space(WithTable(m, d, i, pg, flags), d, owner[pg := Table(i)])
  {
    AddTableView(m, d, owner, i, pg, flags);
  }

  /** A directory of zeros. */
  lemma EmptySpace(m: Mem, d: int)
    requires d in m && m[d] == Zeros()
    ensures Space(m, d, map[d := Dir])
    ensures forall v :: 0 <= v < VPAGES ==> PteAt(m, d, v) == ZERO
  {
  }

  /** What a page outside the address space holds does not matter to it. */
  lemma Clobber(m: Mem, d: int, owner: Owner, pg: int)
    requires Space(m, d, owner) && (pg !in owner || owner[pg].User?)
    ensures Space(m - {pg}, d, owner)
    ensures forall i :: 0 <= i < NENTRIES ==> Pde(m - {pg}, d, i) == Pde(m, d, i)
    ensures forall v :: 0 <= v < VPAGES ==> PteAt(m - {pg}, d, v) == PteAt(m, d, v)
  {
    forall i | 0 <= i < NENTRIES
      ensures Pde(m - {pg}, d, i) == Pde(m, d, i)
    {
    }
    forall v | 0 <= v < VPAGES
      ensures PteAt(m - {pg}, d, v) == PteAt(m, d, v)
    {
      assert Pde(m, d, Pdx(v)).present ==> Pde(m, d, Pdx(v)).pa != pg;
    }
  }
}
