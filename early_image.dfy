/** The image loop of `setup_vm`: with the MMU off, `early_pg_dir` receives one
    2 MiB leaf per step for the kernel image, and afterwards every address of
    the image translates to its place in the loaded image. */
module EarlyImage {
  import opened PgTable
  import opened Mapping
  import opened MappingFacts

  /** `MAX_EARLY_MAPPING_SIZE`: the largest image the early tables may map. */
  const MAX_EARLY_MAPPING_SIZE: nat := 0x800_0000

  /** With the MMU off, inserting a block of 2 MiB or more for an address less
      than 1 GiB above `PAGE_OFFSET` never halts: the static early tables
      always reach it. */
  lemma {:induction false} EarlyInsertSucceeds(c: Config, h: Heap, l: Level, t: nat, va: nat, pa: nat, prot: nat, target: Level)
    requires !c.mmu && 1 <= Rank(target) <= Rank(l)
    requires Sub64(va, c.pageOffset) < PUD_SIZE
    ensures InsertAt(c, h, l, t, va, pa, BlockSize(target), prot).Ok?
    decreases Rank(l)
  {
    BlockSizeInjective(l, target);
    var sz := BlockSize(target);
    var i := Index(l, va);
    var e := Frame(h.mem, t)[i];
    if sz != BlockSize(l) {
      if e == None {
        var (f, h1) := AllocBelow(c, h, l, va).value;
        EarlyInsertSucceeds(c, LinkZeroed(h1, t, i, f), Below(l), f, va, pa, prot, target);
      } else {
        EarlyInsertSucceeds(c, h, Below(l), EntryPfn(e), va, pa, prot, target);
      }
    }
  }

  /** An offset below 1 GiB from a 1 GiB aligned base keeps the root and PUD
      slots of the base and selects PMD slot `x / PMD_SIZE`. */
  lemma SameGiB(po: nat, x: nat)
    requires po % PUD_SIZE == 0 && x < PUD_SIZE
    ensures Index(Pgd, po + x) == Index(Pgd, po) && Index(Pud, po + x) == Index(Pud, po)
    ensures Index(Pmd, po + x) == x / PMD_SIZE
  {
    GiBQuotient(po, x);
    TopQuotient(po, x);
    PmdQuotient(po, x);
  }

  lemma GiBQuotient(po: nat, x: nat)
    requires po % 0x4000_0000 == 0 && x < 0x4000_0000
    ensures (po + x) / 0x4000_0000 == po / 0x4000_0000
  {
    var m := po / 0x4000_0000;
    assert po + x == m * 0x4000_0000 + x;
  }

  lemma TopQuotient(po: nat, x: nat)
    requires po % 0x4000_0000 == 0 && x < 0x4000_0000
    ensures (po + x) / 0x80_0000_0000 == po / 0x80_0000_0000
  {
    var m := po / 0x4000_0000;
    var hi, lo := m / 512, m % 512;
    assert po == hi * 0x80_0000_0000 + lo * 0x4000_0000;
    assert lo * 0x4000_0000 + x < 0x80_0000_0000;
    assert (hi * 0x80_0000_0000 + (lo * 0x4000_0000 + x)) / 0x80_0000_0000 == hi;
    assert (hi * 0x80_0000_0000 + lo * 0x4000_0000) / 0x80_0000_0000 == hi;
  }

  lemma PmdQuotient(po: nat, x: nat)
    requires po % 0x4000_0000 == 0 && x < 0x4000_0000
    ensures ((po + x) / 0x20_0000) % 512 == x / 0x20_0000
  {
    var m := po / 0x4000_0000;
    var j := x / 0x20_0000;
    assert po + x == (m * 512 + j) * 0x20_0000 + x % 0x20_0000;
    assert (po + x) / 0x20_0000 == m * 512 + j;
  }

  /** Block `j` of the image lies in the gigabyte of `PAGE_OFFSET`, in PMD slot `j`. */
  lemma ImageSlot(po: nat, j: nat)
    requires po % PUD_SIZE == 0 && j < PTRS
    ensures Index(Pgd, ImageBlock(po, j)) == Index(Pgd, po) && Index(Pud, ImageBlock(po, j)) == Index(Pud, po)
    ensures Index(Pmd, ImageBlock(po, j)) == j
  {
    var x := j * 0x20_0000;
    assert x < 0x4000_0000 && x / 0x20_0000 == j;
    SameGiB(po, x);
  }

  /** Two addresses of the same gigabyte agree above the PMD level. */
  lemma SameGiBUpper(po: nat, x: nat, y: nat, top: Level)
    requires po % PUD_SIZE == 0 && x < PUD_SIZE && y < PUD_SIZE
    requires top == Pgd || top == Pud
    ensures SameUpper(top, Pmd, po + x, po + y)
  {
    SameGiB(po, x);
    SameGiB(po, y);
    assert SameUpper(Pud, Pmd, po + x, po + y);
  }

  /** The walk to `target` reads only the slots selected by the indices down
      to `target`, so two addresses with equal indices find the same entry. */
  lemma {:induction false} SameSlotsSameEntry(m: map<nat, Table>, t: nat, l: Level, target: Level, va: nat, v: nat)
    requires Rank(target) <= Rank(l) && SameUpper(l, target, va, v)
    requires Index(target, va) == Index(target, v)
    ensures EntryAt(m, t, l, target, va) == EntryAt(m, t, l, target, v)
    decreases Rank(l)
  {
    var e := Frame(m, t)[Index(l, va)];
    if l != target && e.Link? {
      SameSlotsSameEntry(m, e.pfn, Below(l), target, va, v);
    }
  }

  /** The address of block `j` of the image loop, counted from `base`: the
      physical one from `load_pa`, the virtual one from `PAGE_OFFSET`. */
  function ImageBlock(base: nat, j: nat): nat
  {
    base + j * 0x20_0000
  }

  /** A block that starts inside an image of at most 128 MiB is one of its
      first 64. */
  lemma ImageBlockBound(n: nat, loadSz: nat)
    requires n * PMD_SIZE < loadSz <= MAX_EARLY_MAPPING_SIZE
    ensures n < 64
  {
    assert n * 0x20_0000 < 0x800_0000;
  }

  /** The static frames the early walk may use: the root and the two
      static scratch tables. */
  function EarlyFrames(c: Config, root: nat): set<nat>
  {
    {root, c.earlyPud, c.earlyPmd}
  }

  /** The preconditions under which `setup_vm` runs its image loop. */
  predicate EarlySetup(c: Config, h: Heap, root: nat)
  {
    !c.mmu && c.pageOffset % PUD_SIZE == 0 && root in h.mem &&
    root != c.earlyPud && root != c.earlyPmd && c.earlyPud != c.earlyPmd
  }

  /** The state of `early_pg_dir` after `k` steps of the image loop: the walk
      for `PAGE_OFFSET` is sound and stays within the early frames, the first
      `k` PMD slots hold the image leaves and the others are still empty. */
  ghost predicate ImageInv(c: Config, h: Heap, root: nat, loadPa: nat, k: nat)
  {
    var top := RootLevel(c.l4);
    PathOk(c, h, top, root, c.pageOffset, PMD_SIZE, {}) &&
    PathFrames(h.mem, root, top, Pmd, c.pageOffset) <= EarlyFrames(c, root) &&
    (forall j :: 0 <= j < k ==>
      EntryAt(h.mem, root, top, Pmd, ImageBlock(c.pageOffset, j)) == Leaf(PfnDown(ImageBlock(loadPa, j)), PAGE_KERNEL_EXEC)) &&
    (forall j :: k <= j < PTRS ==> EntryAt(h.mem, root, top, Pmd, ImageBlock(c.pageOffset, j)) == None)
  }

  /** Before the loop the root slot for `PAGE_OFFSET` is empty. */
  lemma ImageStart(c: Config, h: Heap, root: nat, loadPa: nat)
    requires EarlySetup(c, h, root)
    requires Frame(h.mem, root)[Index(RootLevel(c.l4), c.pageOffset)] == None
    ensures ImageInv(c, h, root, loadPa, 0)
  {
    var top := RootLevel(c.l4);
    var po := c.pageOffset;
    assert FreshOk(c, top, {} + {root});
    assert PathOk(c, h, top, root, po, PMD_SIZE, {});
    forall j | 0 <= j < PTRS
      ensures EntryAt(h.mem, root, top, Pmd, ImageBlock(po, j)) == None
    {
      SameGiB(po, j * PMD_SIZE);
    }
  }

  /** What the image loop may change: the tables only grow, the allocator
      cursor stays, nothing outside the early frames is written, and in the
      root only the slot of `PAGE_OFFSET`. */
  ghost predicate Confined(c: Config, h0: Heap, h: Heap, root: nat)
  {
    h0.brk == h.brk && h0.mem.Keys <= h.mem.Keys &&
    (forall x {:trigger Frame(h.mem, x)} :: x != root && x != c.earlyPud && x != c.earlyPmd ==> Frame(h.mem, x) == Frame(h0.mem, x)) &&
    (forall j {:trigger Frame(h.mem, root)[j]} :: 0 <= j < PTRS && j != Index(RootLevel(c.l4), c.pageOffset) ==>
      Frame(h.mem, root)[j] == Frame(h0.mem, root)[j])
  }

  lemma ConfinedTrans(c: Config, h0: Heap, h1: Heap, h2: Heap, root: nat)
    requires Confined(c, h0, h1, root) && Confined(c, h1, h2, root)
    ensures Confined(c, h0, h2, root)
  {
  }

  /** One step of the image loop succeeds and advances the invariant, within
      the bounds of `Confined`. */
  lemma ImageStep(c: Config, h: Heap, root: nat, loadPa: nat, k: nat) returns (h': Heap)
    requires EarlySetup(c, h, root) && ImageInv(c, h, root, loadPa, k) && k < PTRS
    ensures InsertPgd(c, h, root, ImageBlock(c.pageOffset, k), ImageBlock(loadPa, k), PMD_SIZE, PAGE_KERNEL_EXEC) == Ok(h')
    ensures EarlySetup(c, h', root) && ImageInv(c, h', root, loadPa, k + 1)
    ensures Confined(c, h, h', root)
  {
    var top := RootLevel(c.l4);
    var po := c.pageOffset;
    var va := ImageBlock(po, k);
    var pa := ImageBlock(loadPa, k);
    assert PathOk(c, h, top, root, va, PMD_SIZE, {}) &&
           PathFrames(h.mem, root, top, Pmd, va) == PathFrames(h.mem, root, top, Pmd, po) by {
      SameGiBUpper(po, 0, k * PMD_SIZE, top);
      SameUpperSharesPath(c, h, top, root, Pmd, po, va, {});
    }
    assert InsertPgd(c, h, root, va, pa, PMD_SIZE, PAGE_KERNEL_EXEC).Ok? by {
      EarlyInsertSucceeds(c, h, top, root, va, pa, PAGE_KERNEL_EXEC, Pmd);
    }
    h' := InsertPgd(c, h, root, va, pa, PMD_SIZE, PAGE_KERNEL_EXEC).value;
    assert InsertPost(c, h, h', top, root, va, pa, PMD_SIZE, PAGE_KERNEL_EXEC, Pmd, {}) by {
      InsertFindsEntry(c, h, top, root, va, pa, PMD_SIZE, PAGE_KERNEL_EXEC, Pmd, {});
    }
    assert ImageInv(c, h', root, loadPa, k + 1) by {
      ImageStepInv(c, h, h', root, loadPa, k);
    }
    assert Confined(c, h, h', root) by {
      EarlyInsertKeepsCursor(c, h, top, root, va, pa, PMD_SIZE, PAGE_KERNEL_EXEC);
      ImageStepConfined(c, h, h', root, loadPa, k);
    }
  }

  lemma ImageStepInv(c: Config, h: Heap, h': Heap, root: nat, loadPa: nat, k: nat)
    requires EarlySetup(c, h, root) && ImageInv(c, h, root, loadPa, k) && k < PTRS
    requires InsertPost(c, h, h', RootLevel(c.l4), root, ImageBlock(c.pageOffset, k), ImageBlock(loadPa, k),
                        PMD_SIZE, PAGE_KERNEL_EXEC, Pmd, {})
    ensures ImageInv(c, h', root, loadPa, k + 1)
  {
    var top := RootLevel(c.l4);
    var po := c.pageOffset;
    var va := ImageBlock(po, k);
    ImageStepEntries(c, h, h', root, loadPa, k);
    SameGiBUpper(po, 0, k * PMD_SIZE, top);
    SameUpperSharesPath(c, h, top, root, Pmd, po, va, {});
    SameGiBUpper(po, k * PMD_SIZE, 0, top);
    SameUpperSharesPath(c, h', top, root, Pmd, va, po, {});
  }

  lemma ImageStepConfined(c: Config, h: Heap, h': Heap, root: nat, loadPa: nat, k: nat)
    requires EarlySetup(c, h, root) && ImageInv(c, h, root, loadPa, k) && k < PTRS && h'.brk == h.brk
    requires InsertPost(c, h, h', RootLevel(c.l4), root, ImageBlock(c.pageOffset, k), ImageBlock(loadPa, k),
                        PMD_SIZE, PAGE_KERNEL_EXEC, Pmd, {})
    ensures Confined(c, h, h', root)
  {
    var top := RootLevel(c.l4);
    var po := c.pageOffset;
    var va := ImageBlock(po, k);
    ImageSlot(po, k);
    assert SameUpper(top, Pmd, po, va) by {
      assert SameUpper(Pud, Pmd, po, va);
    }
    SameUpperSharesPath(c, h, top, root, Pmd, po, va, {});
  }



  /** The tables after the first `n` turns of the image loop of `setup_vm`
      (`create_pgd_mapping(early_pg_dir, PAGE_OFFSET + i, load_pa + i,
      PMD_SIZE, PAGE_KERNEL_EXEC)` for `i` in steps of 2 MiB). */
  function ImageMap(c: Config, h: Heap, root: nat, loadPa: nat, n: nat): Result<Heap>
    decreases n
  {
    if n == 0 then Ok(h)
    else match ImageMap(c, h, root, loadPa, n - 1)
      case Ok(prev) =>
        InsertPgd(c, prev, root, ImageBlock(c.pageOffset, n - 1), ImageBlock(loadPa, n - 1), PMD_SIZE, PAGE_KERNEL_EXEC)
      case Bug => Bug
  }

  lemma ImageMapNext(c: Config, h: Heap, root: nat, loadPa: nat, k: nat, prev: Heap)
    requires ImageMap(c, h, root, loadPa, k) == Ok(prev)
    ensures ImageMap(c, h, root, loadPa, k + 1) ==
      InsertPgd(c, prev, root, ImageBlock(c.pageOffset, k), ImageBlock(loadPa, k), PMD_SIZE, PAGE_KERNEL_EXEC)
  {
  }

  /** What `n` turns of the image loop, started from `h`, leave: the tables
      `h'` of `ImageMap`, the invariant for `n` turns, and no write beyond
      what `Confined` allows. */
  ghost predicate ImageSound(c: Config, h: Heap, h': Heap, root: nat, loadPa: nat, n: nat)
  {
    ImageMap(c, h, root, loadPa, n) == Ok(h') &&
    EarlySetup(c, h', root) && ImageInv(c, h', root, loadPa, n) && Confined(c, h, h', root)
  }

  /** Started on an empty root slot, up to 512 turns of the image loop never
      hit a `BUG_ON`; after `n` of them the first `n` PMD slots for
      `PAGE_OFFSET` hold the image leaves and the rest are empty, and nothing
      was written beyond what `Confined` allows. */
  lemma ImageMapSound(c: Config, h: Heap, root: nat, loadPa: nat, n: nat) returns (h': Heap)
    requires EarlySetup(c, h, root) && Frame(h.mem, root)[Index(RootLevel(c.l4), c.pageOffset)] == None
    requires n <= PTRS
    ensures ImageSound(c, h, h', root, loadPa, n)
  {
    h' := ImageMapBase(c, h, root, loadPa);
    var k := 0;
    while k < n
      invariant k <= n && ImageSound(c, h, h', root, loadPa, k)
    {
      h' := ImageMapGrow(c, h, root, loadPa, k, h');
      k := k + 1;
    }
  }

  /** Before the first turn of the image loop, what `ImageMapSound` promises holds. */
  lemma ImageMapBase(c: Config, h: Heap, root: nat, loadPa: nat) returns (h': Heap)
    requires EarlySetup(c, h, root) && Frame(h.mem, root)[Index(RootLevel(c.l4), c.pageOffset)] == None
    ensures ImageSound(c, h, h', root, loadPa, 0)
  {
    ImageStart(c, h, root, loadPa);
    h' := h;
  }

  /** One more turn of the image loop keeps what `ImageMapSound` promises. */
  lemma ImageMapGrow(c: Config, h: Heap, root: nat, loadPa: nat, k: nat, prev: Heap) returns (h': Heap)
    requires k < PTRS && ImageSound(c, h, prev, root, loadPa, k)
    ensures ImageSound(c, h, h', root, loadPa, k + 1)
  {
    h' := ImageStep(c, prev, root, loadPa, k);
    ImageMapNext(c, h, root, loadPa, k, prev);
    ConfinedTrans(c, h, prev, h', root);
  }

  /** Up to 512 turns of the image loop, started on an empty root slot,
      never hit a `BUG_ON`. */
  lemma ImageMapOk(c: Config, h: Heap, root: nat, loadPa: nat, n: nat)
    requires EarlySetup(c, h, root) && Frame(h.mem, root)[Index(RootLevel(c.l4), c.pageOffset)] == None
    requires n <= PTRS
    ensures ImageMap(c, h, root, loadPa, n).Ok?
  {
    var h' := ImageMapSound(c, h, root, loadPa, n);
  }

  /** From a set-up root, the turn after `k` successful turns succeeds too,
      and is the insertion of block `k` into the tables `prev` left. */
  lemma ImageMapStepOk(c: Config, h: Heap, root: nat, loadPa: nat, k: nat, prev: Heap)
    requires EarlySetup(c, h, root) && Frame(h.mem, root)[Index(RootLevel(c.l4), c.pageOffset)] == None
    requires k < PTRS && ImageMap(c, h, root, loadPa, k) == Ok(prev)
    ensures InsertPgd(c, prev, root, ImageBlock(c.pageOffset, k), ImageBlock(loadPa, k), PMD_SIZE, PAGE_KERNEL_EXEC).Ok?
    ensures ImageMap(c, h, root, loadPa, k + 1) ==
      InsertPgd(c, prev, root, ImageBlock(c.pageOffset, k), ImageBlock(loadPa, k), PMD_SIZE, PAGE_KERNEL_EXEC)
  {
    ImageMapNext(c, h, root, loadPa, k, prev);
    ImageMapOk(c, h, root, loadPa, k + 1);
  }

  /** One step leaves the 2 MiB slots of the other image blocks as they were. */
  lemma ImageStepOthers(c: Config, h: Heap, h': Heap, root: nat, loadPa: nat, k: nat)
    requires EarlySetup(c, h, root) && k < PTRS
    requires InsertPost(c, h, h', RootLevel(c.l4), root, ImageBlock(c.pageOffset, k), ImageBlock(loadPa, k),
                        PMD_SIZE, PAGE_KERNEL_EXEC, Pmd, {})
    ensures forall j :: 0 <= j < PTRS && j != k ==>
      EntryAt(h'.mem, root, RootLevel(c.l4), Pmd, ImageBlock(c.pageOffset, j)) ==
      EntryAt(h.mem, root, RootLevel(c.l4), Pmd, ImageBlock(c.pageOffset, j))
  {
    var top := RootLevel(c.l4);
    var po := c.pageOffset;
    var va := ImageBlock(po, k);
    ImageSlot(po, k);
    forall j | 0 <= j < PTRS && j != k
      ensures EntryAt(h'.mem, root, top, Pmd, ImageBlock(po, j)) == EntryAt(h.mem, root, top, Pmd, ImageBlock(po, j))
    {
      var v := ImageBlock(po, j);
      ImageSlot(po, j);
      assert SameUpper(top, Pmd, va, v) by {
        assert SameUpper(Pud, Pmd, va, v);
      }
    }
  }

  /** The entries after one step: the new leaf in slot `k`, the rest as before. */
  lemma ImageStepEntries(c: Config, h: Heap, h': Heap, root: nat, loadPa: nat, k: nat)
    requires EarlySetup(c, h, root) && ImageInv(c, h, root, loadPa, k) && k < PTRS
    requires InsertPost(c, h, h', RootLevel(c.l4), root, ImageBlock(c.pageOffset, k), ImageBlock(loadPa, k),
                        PMD_SIZE, PAGE_KERNEL_EXEC, Pmd, {})
    ensures forall j :: 0 <= j < k + 1 ==>
      EntryAt(h'.mem, root, RootLevel(c.l4), Pmd, ImageBlock(c.pageOffset, j)) == Leaf(PfnDown(ImageBlock(loadPa, j)), PAGE_KERNEL_EXEC)
    ensures forall j :: k + 1 <= j < PTRS ==> EntryAt(h'.mem, root, RootLevel(c.l4), Pmd, ImageBlock(c.pageOffset, j)) == None
  {
    ImageStepOthers(c, h, h', root, loadPa, k);
    SameGiB(c.pageOffset, k * PMD_SIZE);
  }

  /** What remains of the invariant once the loop is over: the leaves, and the
      early frames the walks go through. */
  ghost predicate KernelMapped(c: Config, m: map<nat, Table>, root: nat, loadPa: nat, n: nat)
  {
    var top := RootLevel(c.l4);
    PathFrames(m, root, top, Pmd, c.pageOffset) <= EarlyFrames(c, root) &&
    forall j :: 0 <= j < n ==>
      EntryAt(m, root, top, Pmd, ImageBlock(c.pageOffset, j)) == Leaf(PfnDown(ImageBlock(loadPa, j)), PAGE_KERNEL_EXEC)
  }

  /** The image mapping depends only on the early frames: writes to any other
      table (the fixmap PTE table, say) leave it in place. */
  lemma KernelMappedFrame(c: Config, m: map<nat, Table>, m': map<nat, Table>, root: nat, loadPa: nat, n: nat)
    requires c.pageOffset % PUD_SIZE == 0 && n <= PTRS
    requires KernelMapped(c, m, root, loadPa, n)
    requires forall x :: x in EarlyFrames(c, root) ==> Frame(m', x) == Frame(m, x)
    ensures KernelMapped(c, m', root, loadPa, n)
  {
    var top := RootLevel(c.l4);
    var po := c.pageOffset;
    var h := Heap(m, 0);
    EntryAtUnchanged(m, m', root, top, Pmd, po);
    forall j | 0 <= j < n
      ensures EntryAt(m', root, top, Pmd, ImageBlock(po, j)) == EntryAt(m, root, top, Pmd, ImageBlock(po, j))
    {
      SameGiBUpper(po, 0, j * PMD_SIZE, top);
      SameUpperSharesPath(c, h, top, root, Pmd, po, ImageBlock(po, j), {});
      EntryAtUnchanged(m, m', root, top, Pmd, ImageBlock(po, j));
    }
  }

  /** Every address of the image, from `po` for `loadSz` bytes, translates
      through `root` to its byte of the image loaded at `loadPa`, executable. */
  ghost predicate ImageTranslates(m: map<nat, Table>, root: nat, top: Level, po: nat, loadPa: nat, loadSz: nat)
  {
    forall va :: po <= va < po + loadSz ==> Translate(m, root, top, va) == Maps(loadPa + (va - po), PAGE_KERNEL_EXEC)
  }

  /** Once `n` steps cover `load_sz`, every address of the image translates
      to the corresponding byte of the loaded image. */
  lemma KernelTranslates(c: Config, m: map<nat, Table>, root: nat, loadPa: nat, loadSz: nat, n: nat)
    requires c.pageOffset % PUD_SIZE == 0 && loadPa % PMD_SIZE == 0
    requires n <= PTRS && loadSz <= n * PMD_SIZE
    requires KernelMapped(c, m, root, loadPa, n)
    ensures ImageTranslates(m, root, RootLevel(c.l4), c.pageOffset, loadPa, loadSz)
  {
    forall va | c.pageOffset <= va < c.pageOffset + loadSz
      ensures Translate(m, root, RootLevel(c.l4), va) == Maps(loadPa + (va - c.pageOffset), PAGE_KERNEL_EXEC)
    {
      TranslatesAt(c, m, root, loadPa, n, va);
    }
  }

  /** The image loop as a whole: once it has covered `load_sz`, the image
      is mapped, every address of it translates to its byte of the loaded
      image, and nothing was written beyond what `Confined` allows. */
  lemma ImageLoopDone(c: Config, h0: Heap, root: nat, loadPa: nat, loadSz: nat, n: nat) returns (h: Heap)
    requires EarlySetup(c, h0, root) && Frame(h0.mem, root)[Index(RootLevel(c.l4), c.pageOffset)] == None
    requires loadPa % PMD_SIZE == 0 && n <= PTRS && loadSz <= n * PMD_SIZE
    ensures ImageMap(c, h0, root, loadPa, n) == Ok(h)
    ensures KernelMapped(c, h.mem, root, loadPa, n)
    ensures ImageTranslates(h.mem, root, RootLevel(c.l4), c.pageOffset, loadPa, loadSz)
    ensures Confined(c, h0, h, root)
  {
    h := ImageMapSound(c, h0, root, loadPa, n);
    KernelTranslates(c, h.mem, root, loadPa, loadSz, n);
  }

  lemma TranslatesAt(c: Config, m: map<nat, Table>, root: nat, loadPa: nat, n: nat, va: nat)
    requires c.pageOffset % PUD_SIZE == 0 && loadPa % PMD_SIZE == 0
    requires n <= PTRS && c.pageOffset <= va < c.pageOffset + n * PMD_SIZE
    requires KernelMapped(c, m, root, loadPa, n)
    ensures Translate(m, root, RootLevel(c.l4), va) == Maps(loadPa + (va - c.pageOffset), PAGE_KERNEL_EXEC)
  {
    var top := RootLevel(c.l4);
    var po := c.pageOffset;
    var x := va - po;
    var j := x / 0x20_0000;
    assert x == j * 0x20_0000 + x % 0x20_0000 && j < n && x < 0x4000_0000;
    SameGiB(po, x);
    ImageSlot(po, j);
    assert SameUpper(top, Pmd, ImageBlock(po, j), va) by {
      assert SameUpper(Pud, Pmd, ImageBlock(po, j), va);
    }
    SameSlotsSameEntry(m, root, top, Pmd, ImageBlock(po, j), va);
    TranslateViaEntry(m, root, top, Pmd, va);
    LeafArithmetic(po, loadPa, va);
  }

  /** The address arithmetic of one image leaf: its frame is 2 MiB aligned and
      adding the offset within the block gives the byte of the image. */
  lemma ModMul(m: nat, r: nat)
    requires r < 0x20_0000
    ensures (m * 0x20_0000 + r) % 0x20_0000 == r
    ensures (m * 0x20_0000 + r) / 0x20_0000 == m
  {
  }

  lemma LeafArithmetic(po: nat, loadPa: nat, va: nat)
    requires po % PUD_SIZE == 0 && loadPa % PMD_SIZE == 0 && po <= va
    ensures var j := (va - po) / PMD_SIZE;
      var base := PfnDown(ImageBlock(loadPa, j)) * PAGE_SIZE;
      base == ImageBlock(loadPa, j) && base % PMD_SIZE == 0 &&
      base + va % PMD_SIZE == loadPa + (va - po)
  {
    var x := va - po;
    var j := x / 0x20_0000;
    var r := x % 0x20_0000;
    assert x == j * 0x20_0000 + r;
    var a := loadPa / 0x20_0000;
    assert loadPa == a * 0x20_0000;
    var b := po / 0x4000_0000;
    assert po == b * 0x4000_0000;
    var k := a + j;
    assert loadPa + j * 0x20_0000 == k * 0x20_0000;
    assert (k * 0x20_0000) / 0x1000 == k * 0x200;
    assert (k * 0x20_0000) % 0x20_0000 == 0;
    assert va == (b * 0x200 + j) * 0x20_0000 + r;
    ModMul(b * 0x200 + j, r);
  }}
