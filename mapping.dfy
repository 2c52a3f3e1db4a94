/** The per-level insertion of one virtual-to-physical mapping (`create_pte_mapping`,
    `create_pmd_mapping`, `create_pud_mapping`, `create_pgd_mapping`) and the early
    table allocators (`alloc_pte`, `alloc_pmd`, `alloc_pud`), as functions of the
    physical memory they read and write. The class in `boot.dfy` runs them in place
    and is proved equal to these definitions. */
module Mapping {
  import opened PgTable

  /** Outcome of a step that may hit a `BUG_ON`: `Bug` means the kernel halts. */
  datatype Result<T> = Ok(value: T) | Bug

  /** Physical memory seen as page tables, keyed by frame number, together with the
      cursor of the general physical allocator (`memblock_phys_alloc`). Frames that
      are not in `mem` read as all-empty tables. */
  datatype Heap = Heap(mem: map<nat, Table>, brk: nat)

  /** Every frame that holds a table was handed out before the allocator cursor. */
  predicate HeapOk(h: Heap)
  {
    forall f :: f in h.mem ==> f < h.brk
  }

  /** What the allocators and the insertion read of the global state:
      `mmu_enabled`, `pgtable_l4_enabled`, `PAGE_OFFSET` (`kernel_virt_addr`)
      and the frames of the two static early tables. */
  datatype Config = Config(mmu: bool, l4: bool, pageOffset: nat, earlyPmd: nat, earlyPud: nat)

  function Frame(m: map<nat, Table>, f: nat): Table
  {
    if f in m then m[f] else Zeros()
  }

  /** `PGDIR_SIZE`: the region one root entry covers, which depends on the mode. */
  function PgdirSize(l4: bool): (s: nat)
    ensures s == (if l4 then BlockSize(Pgd) else BlockSize(Pud))
  {
    if l4 then P4D_SIZE else PUD_SIZE
  }

  /** `a - b` on `uintptr_t`. */
  function Sub64(a: nat, b: nat): (r: nat)
    ensures r < WORD
    ensures b <= a < b + WORD ==> r == a - b
  {
    (a - b) % WORD
  }

  /** The general allocator: one page-aligned page that holds no table yet. */
  function FreshFrame(h: Heap): (r: (nat, Heap))
    ensures HeapOk(h) ==> r.0 !in h.mem && HeapOk(r.1)
    ensures r.1.mem == h.mem && r.1.brk > r.0 >= h.brk
  {
    (h.brk, Heap(h.mem, h.brk + 1))
  }

  /** `alloc_pte`: no PTE table exists before the MMU is on, so asking for one then
      is fatal; afterwards the page comes from the general allocator. */
  function AllocPte(c: Config, h: Heap, va: nat): (r: Result<(nat, Heap)>)
    ensures r.Bug? <==> !c.mmu
    ensures r.Ok? ==> r.value.0 >= h.brk && r.value.1.mem == h.mem
    ensures r.Ok? && HeapOk(h) ==> r.value.0 !in h.mem && HeapOk(r.value.1)
  {
    if !c.mmu then Bug else Ok(FreshFrame(h))
  }

  /** `alloc_pmd`: with the MMU off, the single static `early_pmd`, which can serve
      only the first gigabyte above `PAGE_OFFSET`. */
  function AllocPmd(c: Config, h: Heap, va: nat): (r: Result<(nat, Heap)>)
    ensures r.Bug? <==> !c.mmu && Sub64(va, c.pageOffset) >= PUD_SIZE
    ensures r.Ok? && !c.mmu ==> r.value == (c.earlyPmd, h)
    ensures r.Ok? && c.mmu ==> r.value.0 >= h.brk && r.value.1.mem == h.mem
    ensures r.Ok? && c.mmu && HeapOk(h) ==> r.value.0 !in h.mem && HeapOk(r.value.1)
  {
    if c.mmu then Ok(FreshFrame(h))
    else if Sub64(va, c.pageOffset) >= PUD_SIZE then Bug
    else Ok((c.earlyPmd, h))
  }

  /** `alloc_pud`: with the MMU off, the single static `early_pud`, which can serve
      only the first `PGDIR_SIZE` above `PAGE_OFFSET`. */
  function AllocPud(c: Config, h: Heap, va: nat): (r: Result<(nat, Heap)>)
    ensures r.Bug? <==> !c.mmu && Sub64(va, c.pageOffset) >= PgdirSize(c.l4)
    ensures r.Ok? && !c.mmu ==> r.value == (c.earlyPud, h)
    ensures r.Ok? && c.mmu ==> r.value.0 >= h.brk && r.value.1.mem == h.mem
    ensures r.Ok? && c.mmu && HeapOk(h) ==> r.value.0 !in h.mem && HeapOk(r.value.1)
  {
    if c.mmu then Ok(FreshFrame(h))
    else if Sub64(va, c.pageOffset) >= PgdirSize(c.l4) then Bug
    else Ok((c.earlyPud, h))
  }

  /** The allocator a level-`l` table uses for its missing next-level table. */
  function AllocBelow(c: Config, h: Heap, l: Level, va: nat): Result<(nat, Heap)>
    requires l != Pte
  {
    match l
    case Pmd => AllocPte(c, h, va)
    case Pud => AllocPmd(c, h, va)
    case Pgd => AllocPud(c, h, va)
  }

  /** The guarded leaf write `if (x_none(p[i])) p[i] = pfn_x(PFN_DOWN(pa), prot)`. */
  function Fill(h: Heap, t: nat, i: nat, e: Entry): Heap
    requires i < PTRS
  {
    h.(mem := h.mem[t := SetIfNone(Frame(h.mem, t), i, e)])
  }

  /** Linking a new table, `p[i] = pfn_x(PFN_DOWN(next_phys), PAGE_TABLE)`, then
      `memset(next, 0, PAGE_SIZE)`. */
  function LinkZeroed(h: Heap, t: nat, i: nat, f: nat): Heap
    requires i < PTRS
  {
    var linked := h.mem[t := Frame(h.mem, t)[i := MakeEntry(f, PAGE_TABLE)]];
    h.(mem := linked[f := Zeros()])
  }

  /** `create_<level>_mapping(table t, va, pa, sz, prot)`. At the level whose block
      size is `sz` the leaf is written only into an empty slot. Below that, a
      missing table is allocated, linked and zero-filled, an existing one (whatever
      the entry holds) is followed. The PTE level halts unless `sz` is a page. */
  function InsertAt(c: Config, h: Heap, l: Level, t: nat, va: nat, pa: nat, sz: nat, prot: nat): (r: Result<Heap>)
    decreases Rank(l)
  {
    var i := Index(l, va);
    var e := Frame(h.mem, t)[i];
    if l == Pte then
      if sz != PAGE_SIZE then Bug else Ok(Fill(h, t, i, MakeEntry(PfnDown(pa), prot)))
    else if sz == BlockSize(l) then
      Ok(Fill(h, t, i, MakeEntry(PfnDown(pa), prot)))
    else if e == None then
      match AllocBelow(c, h, l, va)
      case Bug => Bug
      case Ok((f, h1)) => InsertAt(c, LinkZeroed(h1, t, i, f), Below(l), f, va, pa, sz, prot)
    else
      InsertAt(c, h, Below(l), EntryPfn(e), va, pa, sz, prot)
  }

  /** The level the root table plays: with `pgtable_l4_enabled` false the root is
      treated as the PUD table (Sv39), otherwise it is the Sv48 PGD. */
  function RootLevel(l4: bool): (l: Level)
    ensures BlockSize(l) == PgdirSize(l4)
  {
    if l4 then Pgd else Pud
  }

  /** `create_pgd_mapping` on a root table. */
  function InsertPgd(c: Config, h: Heap, root: nat, va: nat, pa: nat, sz: nat, prot: nat): Result<Heap>
  {
    InsertAt(c, h, RootLevel(c.l4), root, va, pa, sz, prot)
  }

  /** The entry found at level `target` when following the links for `va` down
      from table `t` at level `l`; `None` when the walk meets an empty entry or a
      leaf before reaching `target`. */
  function EntryAt(m: map<nat, Table>, t: nat, l: Level, target: Level, va: nat): Entry
    requires Rank(target) <= Rank(l)
    decreases Rank(l)
  {
    var e := Frame(m, t)[Index(l, va)];
    if l == target then e
    else if e.Link? then EntryAt(m, e.pfn, Below(l), target, va)
    else None
  }

  /** Result of a hardware walk. */
  datatype Translation = Fault | Maps(pa: nat, prot: nat)

  /** The translation the hardware performs from table `t` at level `l` (section
      4.3.2 of the RISC-V Privileged Architecture): an empty entry, one without
      V and one with W but not R fault; a pointer (a link, or any valid entry
      with neither R nor X) descends, and faults at the last level; a leaf maps
      its block, unless it is a misaligned superpage. */
  function Translate(m: map<nat, Table>, t: nat, l: Level, va: nat): Translation
    decreases Rank(l)
  {
    match Frame(m, t)[Index(l, va)]
    case None => Fault
    case Link(p) => if l == Pte then Fault else Translate(m, p, Below(l), va)
    case Leaf(pfn, prot) =>
      if !ValidProt(prot) then Fault
      else if !LeafProt(prot) then (if l == Pte then Fault else Translate(m, pfn, Below(l), va))
      else if (pfn * PAGE_SIZE) % BlockSize(l) != 0 then Fault
      else Maps(pfn * PAGE_SIZE + va % BlockSize(l), prot)
  }
}
