/** The kernel's part of every address space: the table kmap of vm.c. */
module KernelMap {
  import opened PageTable
  import opened TableCount

  const PGSIZE: int := 4096
  const KERNBASE: int := 0x8000_0000
  const EXTMEM: int := 0x10_0000
  const PHYSTOP: int := 0xE00_0000
  const DEVSPACE: int := 0xFE00_0000
  const KERNLINK: int := KERNBASE + EXTMEM

  /** PGROUNDDOWN(va) / PGSIZE. */
  function PageOf(va: int): int {
    va / PGSIZE
  }

  /** Virtual address and length in bytes; first frame. */
  datatype Seg = Seg(virt: int, size: int, pa: int, perm: int)

  function First(s: Seg): int {
    PageOf(s.virt)
  }

  /** The page after the last one. */
  function End(s: Seg): int {
    PageOf(s.virt + s.size - 1) + 1
  }

  predicate Above(s: Seg) {
    KERNBASE <= s.virt && 1 <= s.size && s.virt + s.size <= VPAGES * PGSIZE
  }

  /** No page belongs to two segments. */
  ghost predicate WfMap(kmap: seq<Seg>) {
    && (forall i :: 0 <= i < |kmap| ==> Above(kmap[i]))
    && (forall i, j :: 0 <= i < j < |kmap| ==> End(kmap[i]) <= First(kmap[j]))
  }

  /** kmap as the source lists it; data is where the linker puts the data segment. */
  function Kmap(data: int): seq<Seg> {
    [Seg(KERNBASE, EXTMEM, 0, PTE_W),
     Seg(KERNLINK, data - KERNLINK, PageOf(KERNLINK - KERNBASE), 0),
     Seg(data, KERNBASE + PHYSTOP - data, PageOf(data - KERNBASE), PTE_W),
     Seg(DEVSPACE, VPAGES * PGSIZE - DEVSPACE, PageOf(DEVSPACE), PTE_W)]
  }

  /** The segments are disjoint exactly when the linker aligns data to a page. */
  lemma KmapWfIff(data: int)
    requires KERNLINK < data < KERNBASE + PHYSTOP
    ensures WfMap(Kmap(data)) <==> data % PGSIZE == 0
  {
    var k := Kmap(data);
    if data % PGSIZE != 0 {
      assert PageOf(data - 1) == PageOf(data);
      assert End(k[1]) > First(k[2]);
    } else {
      assert PageOf(data - 1) + 1 == PageOf(data);
    }
  }

  predicate Covers(s: Seg, v: int) {
    First(s) <= v < End(s)
  }

  /** Page v belongs to one of the first n segments. */
  ghost predicate Covered(kmap: seq<Seg>, n: int, v: int)
    requires 0 <= n <= |kmap|
  {
    exists i :: 0 <= i < n && Covers(kmap[i], v)
  }

  /** The directory maps the first n segments and nothing else. */
  ghost predicate Kernel(m: Mem, d: int, kmap: seq<Seg>, n: int)
    requires 0 <= n <= |kmap|
  {
    && (forall i, v :: 0 <= i < n && 0 <= v < VPAGES && Covers(kmap[i], v) ==>
          PteAt(m, d, v) == Pte(true, kmap[i].pa + v - First(kmap[i]), kmap[i].perm))
    && (forall v :: 0 <= v < VPAGES && !Covered(kmap, n, v) ==> !PteAt(m, d, v).present)
  }

  /** What setupkvm maps, page by page: physical memory from KERNBASE up, with the kernel's text
      and read-only data, and nothing else, write-protected; device space where it is; and no other page. */
  lemma KernelLayout(m: Mem, d: int, data: int, v: int)
    requires KERNLINK < data < KERNBASE + PHYSTOP && data % PGSIZE == 0 && 0 <= v < VPAGES
    requires Kernel(m, d, Kmap(data), 4)
    ensures PteAt(m, d, v).present <==> 0x8_0000 <= v < 0x8_E000 || 0xF_E000 <= v
    ensures 0x8_0000 <= v < 0x8_E000 ==>
              PteAt(m, d, v) == Pte(true, v - 0x8_0000, if 0x8_0100 <= v < data / 4096 then 0 else PTE_W)
    ensures 0xF_E000 <= v ==> PteAt(m, d, v) == Pte(true, v, PTE_W)
  {
    var k := Kmap(data);
    assert PageOf(data - 1) + 1 == data / 4096;
    assert Covers(k[0], v) <==> 0x8_0000 <= v < 0x8_0100;
    assert Covers(k[1], v) <==> 0x8_0100 <= v < data / 4096;
    assert Covers(k[2], v) <==> data / 4096 <= v < 0x8_E000;
    assert Covers(k[3], v) <==> 0xF_E000 <= v;
    assert Covered(k, 4, v) <==> Covers(k[0], v) || Covers(k[1], v) || Covers(k[2], v) || Covers(k[3], v);
  }

  lemma KernelNext(m: Mem, m': Mem, d: int, kmap: seq<Seg>, n: int)
    requires WfMap(kmap) && 0 <= n < |kmap| && Kernel(m, d, kmap, n)
    requires forall v :: 0 <= v < VPAGES && Covers(kmap[n], v) ==>
               PteAt(m', d, v) == Pte(true, kmap[n].pa + v - First(kmap[n]), kmap[n].perm)
    requires forall v :: 0 <= v < VPAGES && !Covers(kmap[n], v) ==> PteAt(m', d, v) == PteAt(m, d, v)
    ensures Kernel(m', d, kmap, n + 1)
  {
  }

  /** The next segment meets no page that is already mapped. */
  lemma NoRemap(m: Mem, d: int, kmap: seq<Seg>, n: int, v: int)
    requires WfMap(kmap) && 0 <= n < |kmap| && Kernel(m, d, kmap, n) && 0 <= v < VPAGES && Covers(kmap[n], v)
    ensures !PteAt(m, d, v).present
  {
  }

  /** The directory entries that the first n segments need. */
  ghost function KernelBits(kmap: seq<Seg>, n: int): (b: seq<bool>)
    requires 0 <= n <= |kmap|
    ensures |b| == NENTRIES
  {
    if n == 0 then seq(NENTRIES, i => false) else With(KernelBits(kmap, n - 1), First(kmap[n - 1]), End(kmap[n - 1]))
  }

  lemma {:induction false} KernelBitsMono(kmap: seq<Seg>, n: int)
    requires 0 <= n <= |kmap|
    ensures Count(KernelBits(kmap, n)) <= Count(KernelBits(kmap, |kmap|))
    decreases |kmap| - n
  {
    if n < |kmap| {
      KernelBitsMono(kmap, n + 1);
      CountMono(KernelBits(kmap, n), KernelBits(kmap, n + 1));
    }
  }

  /** Pages that setupkvm takes: the directory and the kernel's tables. */
  ghost function SetupCost(kmap: seq<Seg>): int {
    1 + Count(KernelBits(kmap, |kmap|))
  }

  lemma {:induction false} CountSpans(b: seq<bool>)
    requires |b| <= NENTRIES && forall i :: 0 <= i < |b| ==> (b[i] <==> 512 <= i < 568 || 1016 <= i < 1024)
    ensures var n := |b|;
            Count(b) == if n <= 512 then 0 else if n <= 568 then n - 512 else if n <= 1016 then 56 else n - 960
  {
    if b != [] {
      CountSpans(b[..|b| - 1]);
    }
  }

  /** The directory and 64 tables, whatever the size of the kernel. */
  lemma KmapCost(data: int)
    requires KERNLINK < data < KERNBASE + PHYSTOP
    ensures SetupCost(Kmap(data)) == 65
  {
    var k := Kmap(data);
    var b := KernelBits(k, 4);
    assert KernelBits(k, 0) == seq(NENTRIES, i => false);
    forall i | 0 <= i < NENTRIES
      ensures b[i] <==> 512 <= i < 568 || 1016 <= i < 1024
    {
      assert KernelBits(k, 1)[i] <==> i == 512;
      assert KernelBits(k, 2)[i] <==> 512 <= i <= Pdx(PageOf(data - 1));
      assert KernelBits(k, 3)[i] <==> 512 <= i < 568;
    }
    CountSpans(b);
  }
}
