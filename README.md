# RISC-V early boot page tables, modelled in Dafny

This project models the page-table builder that the RISC-V Linux kernel runs
at boot, in `arch/riscv/mm/init.c`. The tables follow the Sv39 and Sv48
schemes of sections 4.4 and 4.5 of the RISC-V Privileged Architecture (v1.12).
The model covers these parts:

- `setup_vm` runs with the MMU off. It checks the load address and size of
  the image, relocates the image, and fills three roots:
  - `early_pg_dir` gets the image and the fixmap window;
  - `trampoline_pg_dir` gets the first 2 MiB of the image;
  - `fixmap_pte` gets the pages of the flattened device tree.
- `setup_vm_fold_pud` is the fall-back from Sv48 to Sv39.
- `setup_vm_final` runs with the MMU on. It walks the memory regions into
  `swapper_pg_dir`, unmaps the fixmap pages it used, and switches `satp`.

All of them insert mappings through `create_{pte,pmd,pud,pgd}_mapping`. A
leaf goes only into an empty slot, so the first write wins. A missing table
is allocated, linked with `PAGE_TABLE` and zeroed. An existing table is
followed. In Sv39 mode the root array plays the PUD level. While the MMU is
off, the allocators `alloc_{pte,pmd,pud}` can only hand out the static
`early_pmd` and `early_pud`. With the MMU on, they take fresh pages.

Physical memory is a map from frame number to a 512-entry table. An entry is
empty, a link to a next-level table, or a leaf with its protection.

The modules are:

- `PgTable` (`pgtable.dfy`): levels, entries, indices, and the guarded write.
- `Mapping` (`mapping.dfy`): the allocators and the insertion as functions of
  the tables, plus the hardware walk `Translate`.
- `MappingFacts` (`mapping_facts.dfy`): what one insertion does, and lookup
  after insert.
- `Granularity` (`granularity.dfy`): `best_map_size`.
- `Relocation` (`relocate.dfy`): the `R_RISCV_RELATIVE` pass over `Elf64_Rela`
  records (RISC-V ELF psABI; System V gABI, relocation entries).
- `EarlyImage` (`early_image.dfy`): the image loop of `setup_vm`, and the
  translation of every image address afterwards.
- `Regions` (`regions.dfy`): the region walk of `setup_vm_final`.
- `Boot` (`boot.dfy`): the class `BootMm`. Its fields are the globals of
  `init.c`, and its methods change them in place. Each table method is proved
  equal to the `Mapping` functions, so the facts proved about those functions
  hold of the state.

## Model

| member | source | states |
|---|---|---|
| Granularity.BestMapSize | arch/riscv/mm/init.c:414-421 | The result is the 2 MiB block exactly when both base and size are multiples of 2 MiB. Otherwise it is the 4 KiB page. It never fails. |
| Granularity.BestMapSizeTiles | arch/riscv/mm/init.c:414-421 | For a page-aligned range, the chosen size divides both the base and the size. So stepping by it tiles the range exactly. |
| PgTable.SetIfNone | arch/riscv/mm/init.c:253-254 | The guarded store writes the slot only when it is empty. A filled slot leaves the table unchanged. Every other slot stays as it was. |
| PgTable.FirstWriteWins | arch/riscv/mm/init.c:295-298 | A second guarded write to a filled slot changes nothing, whatever it stores. |
| PgTable.EntryValueRoundTrip | arch/riscv/mm/init.c:253-254 | The entry `pfn_pte(pfn, prot)` has the value `pfn << 10 \| prot`. It is empty, as `pte_none` tests, exactly when that value is zero. Reading the value back as an entry gives the same entry. |
| PgTable.ValueEntryRoundTrip | arch/riscv/mm/init.c:303 | Every 64-bit entry value is the value of the entry it decodes to, so the encoding loses nothing. |
| Mapping.FreshFrame | arch/riscv/mm/init.c:242 | The general allocator hands out a frame at or above its cursor. That frame holds no table yet, and the cursor moves past it. |
| Mapping.AllocPte | arch/riscv/mm/init.c:234-243 | It halts exactly when the MMU is off. Otherwise it returns a fresh frame. |
| Mapping.AllocPmd | arch/riscv/mm/init.c:276-285 | With the MMU off, it returns `early_pmd`. It halts exactly when `va - PAGE_OFFSET` (as `uintptr_t`) is 1 GiB or more. With the MMU on, it returns a fresh frame. |
| Mapping.AllocPud | arch/riscv/mm/init.c:324-333 | With the MMU off, it returns `early_pud`. It halts exactly when `va - PAGE_OFFSET` is `PGDIR_SIZE` or more. With the MMU on, it returns a fresh frame. |
| Mapping.Sub64 | arch/riscv/mm/init.c:468 | Subtraction on `uintptr_t` wraps modulo 2^64. It is the plain difference when that difference is in range. |
| MappingFacts.InsertHaltsIff | arch/riscv/mm/init.c:251 | With the MMU on, an insertion halts exactly when `sz` is not the block size of the starting level or of a level below it. The only failure is the PTE level's `BUG_ON(sz != PAGE_SIZE)`. |
| MappingFacts.LeafInsertFirstWriteWins | arch/riscv/mm/init.c:395-398 | At the level whose block size is `sz`, a filled slot makes the insertion a no-op for any `pa` and `prot`. An empty slot receives exactly the new leaf, and nothing else changes. |
| MappingFacts.NewTableLinked | arch/riscv/mm/init.c:401-405 | An empty slot above the target level gets one newly allocated table, not on the path, linked with `PAGE_TABLE`. That table is all-zero before the recursion. Every other slot and table is unchanged. |
| MappingFacts.FourLevelSharesLowerPath | arch/riscv/mm/init.c:406-411 | In Sv48 mode, a root slot that is not empty (`!= None`) is followed, whatever kind of entry it holds: the insertion is the PUD-level insertion into the table its `EntryPfn` names, and nothing is allocated. |
| MappingFacts.ThreeLevelRootIsPud | arch/riscv/mm/init.c:388-393 | In Sv39 mode, `create_pgd_mapping` on a root is `create_pud_mapping` on that same array. |
| MappingFacts.InsertFindsEntry | arch/riscv/mm/init.c:380-412 | Lookup after insert. When the walk for `va` is sound and the insertion succeeds, the walk reaches the entry that was there if the slot was filled, and otherwise the new leaf. Other slots and off-path tables are unchanged, and the path only gained new tables. |
| MappingFacts.InsertNeverOverwrites | arch/riscv/mm/init.c:380-412 | With the MMU on, an insertion never changes a filled entry of a table that existed before it. |
| MappingFacts.KeepsFilled | arch/riscv/mm/init.c:380-412 | The same holds for every table in any set below the allocator cursor, and the cursor only rises. |
| MappingFacts.InsertFilledNoop | arch/riscv/mm/init.c:380-412 | Once the walk for `va` reaches a filled entry at the level of `sz`, inserting `va` again, with any `pa` and `prot`, allocates nothing and leaves the tables as they are. |
| MappingFacts.InsertTwice | arch/riscv/mm/init.c:380-412 | Insertion is idempotent: after a successful insertion of a non-empty entry on a sound walk, inserting the same `va` again, with any `pa` and `prot`, returns exactly the tables the first one left. |
| MappingFacts.EarlyInsertKeepsCursor | arch/riscv/mm/init.c:276-285 | With the MMU off, a successful insertion leaves the general allocator's cursor where it was: only the static early tables are handed out. |
| MappingFacts.InsertGrows | arch/riscv/mm/init.c:401-405 | A successful insertion only adds tables and only advances the allocator. |
| Boot.BootMm.CreatePteMapping | arch/riscv/mm/init.c:245-255 | The in-place method equals `InsertAt` at the PTE level. It succeeds exactly when `sz` is `PAGE_SIZE`, and then it does the guarded store into slot `pte_index(va)` only. |
| Boot.BootMm.CreatePmdMapping | arch/riscv/mm/init.c:287-312 | It equals `InsertAt` at the PMD level. With `sz == PMD_SIZE`, it is the guarded store into the one slot, and no allocation happens. |
| Boot.BootMm.CreatePudMapping | arch/riscv/mm/init.c:335-360 | It equals `InsertAt` at the PUD level. With `sz == PUD_SIZE`, it is the guarded store into the one slot, and no allocation happens. |
| Boot.BootMm.CreatePgdMapping | arch/riscv/mm/init.c:380-412 | It equals `InsertPgd`, which starts at the PUD level in Sv39 mode. With `sz == PGDIR_SIZE`, it is the guarded store into the root slot. |
| Boot.BootMm.LinkRootSlot | arch/riscv/mm/init.c:387-398 | A store of a link into a root slot changes only that one slot, and only if the slot was empty. In Sv39 this is the PUD slot of the same table. Nothing is allocated. |
| Boot.BootMm.SetPudSlot | arch/riscv/mm/init.c:341-345 | A gigapage-sized mapping changes only its one PUD slot, and only if the slot was empty. Nothing is allocated. |
| Boot.BootMm.SetPmdSlot | arch/riscv/mm/init.c:293-297 | A megapage-sized mapping changes only its one PMD slot, and only if the slot was empty. Nothing is allocated. |
| Boot.BootMm.SetFixmap | arch/riscv/mm/init.c:207-222 | It fails (`BUG_ON`) exactly for indices outside `(FIX_HOLE, __end_of_fixed_addresses)`, and then nothing changes. Otherwise only the index's slot of `fixmap_pte` is set, or cleared. A clear also records a flush of that page. |
| Boot.BootMm.FixmapOthers | arch/riscv/mm/init.c:214-221 | `__set_fixmap` leaves every other table and every other fixmap slot as it was. |
| Boot.BootMm.FixmapTranslates | arch/riscv/mm/init.c:216-219 | After `__set_fixmap`, each byte of the index's page translates to the same byte of the page of `phys` with `prot`, exactly when `prot` is a valid leaf protection (V set, not W without R, R or X set). Every other `prot` faults: 0, which clears the slot, and `PAGE_TABLE`, which makes a pointer rather than a leaf. |
| Relocation.RelocTarget | arch/riscv/mm/init.c:471 | The record is stored at `r_offset - (link_addr - load_pa)` on 64 bits. |
| Relocation.RelocValue | arch/riscv/mm/init.c:472-484 | An addend below the link base is stored unchanged. Otherwise it moves by `PAGE_OFFSET - link_addr`. |
| Relocation.RelocatedWord | arch/riscv/mm/init.c:470-487 | After the pass, each word holds the value of the last relative record that targets it. A word that no relative record targets keeps its contents. Other record kinds are skipped. |
| Relocation.RelocateTwice | arch/riscv/mm/init.c:578-593 | Relocating again for a new base, as the Sv39 fall-back does, gives the image relocated once for that base. |
| Boot.BootMm.RelocateKernel | arch/riscv/mm/init.c:454-488 | The loop leaves the image equal to `ApplyRelocs` of the records in order, for the current `PAGE_OFFSET` and `load_pa`. |
| Boot.BootMm.MapFixmapEarly | arch/riscv/mm/init.c:523-533 | The fixmap root slot of `early_pg_dir` and the fixmap PUD and PMD slots for `FIXADDR_START` get their links. In Sv39 the PUD step is skipped. Each link goes in only if the slot was empty. No other table changes, and nothing is allocated. |
| Boot.BootMm.MapTrampoline | arch/riscv/mm/init.c:535-542 | The same holds for the trampoline chain. It ends in one executable 2 MiB leaf for `load_pa` in `trampoline_pmd`. |
| Boot.BootMm.MapImageLoop | arch/riscv/mm/init.c:554-558 | The loop over `[PAGE_OFFSET, PAGE_OFFSET + load_sz)` in 2 MiB steps ends with the tables of `ImageMap`: its `n` insertions, where `n * 2 MiB` covers `load_sz` and `n` is at most 512. |
| Boot.BootMm.MapImageBlock | arch/riscv/mm/init.c:556-558 | One turn of the image loop maps block `k` of the image. The tables become exactly those of `ImageMap` after `k + 1` insertions, and that insertion cannot hit a `BUG_ON`. |
| EarlyImage.EarlyInsertSucceeds | arch/riscv/mm/init.c:276-285 | With the MMU off, an insertion of 2 MiB or more within 1 GiB above `PAGE_OFFSET` never halts. |
| EarlyImage.ImageMapSound | arch/riscv/mm/init.c:554-558 | Started on an empty root slot, up to 512 turns never halt. After `n` turns, the first `n` PMD slots for `PAGE_OFFSET` hold the image leaves and the rest are empty. Only the early tables and the root slot were written. |
| EarlyImage.ImageLoopDone | arch/riscv/mm/init.c:554-558 | Once the turns cover `load_sz`, every address of the image translates to its byte of the loaded image, as executable. |
| EarlyImage.KernelTranslates | arch/riscv/mm/init.c:554-558 | The leaves left by the loop translate every `va` in `[PAGE_OFFSET, PAGE_OFFSET + load_sz)` to `load_pa + (va - PAGE_OFFSET)`. |
| EarlyImage.KernelMappedFrame | arch/riscv/mm/init.c:560-565 | Writes outside the early tables, such as the FDT loop into `fixmap_pte`, leave the image mapping in place. |
| Boot.BootMm.MapKernel | arch/riscv/mm/init.c:549-558 | After the image loop, `early_pg_dir` translates the whole image. No table other than the early ones changes, and neither does any other root slot. |
| Boot.BootMm.FdtTableSlots | arch/riscv/mm/init.c:560-565 | Page `p` of the FDT window maps page `p` of the FDT, unless its slot was already filled. No slot outside the window changes. |
| Boot.BootMm.MapFdt | arch/riscv/mm/init.c:560-565 | The loop leaves `fixmap_pte` equal to `FdtTable` over all `FIX_FDT_SIZE / PAGE_SIZE` pages, and nothing else changes. |
| Boot.BootMm.MapEarlyLinks | arch/riscv/mm/init.c:523-542 | The fixmap and trampoline chains are written as `EarlyLinks` describes: each table is its old contents with its one slot written unless filled, and the PUD steps only in Sv48. `early_pg_dir` changes only in the fixmap's root slot, no other table changes, and the cursor stays. |
| Boot.BootMm.MapImageAndFdt | arch/riscv/mm/init.c:554-565 | The image loop and the FDT loop make the whole image translate through `early_pg_dir` and leave `fixmap_pte` as `FdtTable`. They write no root slot but the kernel's, no table but the early ones and `fixmap_pte`, and keep the cursor. |
| Boot.BootMm.TrampolineReach | arch/riscv/mm/init.c:535-542 | When the three trampoline slots were empty (or already held what is written), every `va` in `[PAGE_OFFSET, PAGE_OFFSET + 2 MiB)` translates through `trampoline_pg_dir` to `load_pa + (va - PAGE_OFFSET)`, executable. |
| Boot.BootMm.FdtReach | arch/riscv/mm/init.c:560-565 | When its slot was empty, every byte of page `p` of the FDT window translates through `fixmap_pte` to the same byte of page `p` of the FDT, as `PAGE_KERNEL`. |
| Boot.BootMm.DtbReach | arch/riscv/mm/init.c:560-568 | When the window's first slot was empty, `fix_to_virt(FIX_FDT)` plus the offset of `dtb_pa` in its page translates through `fixmap_pte` to `dtb_pa` itself. |
| Boot.BootMm.FixmapChain | arch/riscv/mm/init.c:523-533 | Once the fixmap links are in place under a root, every address of the 2 MiB block at `FIXADDR_START` translates through that root exactly as through `fixmap_pte`. |
| Boot.BootMm.SetupReach | arch/riscv/mm/init.c:523-570 | From the links and the FDT window: the trampoline maps the image's first 2 MiB when its chain was free, and `dtb_early_va` reaches `dtb_pa` through `fixmap_pte` when the first window slot was free, and through `early_pg_dir` when the fixmap chain was free too. |
| Boot.BootMm.BuildEarlyTables | arch/riscv/mm/init.c:523-565 | The tables after the links, the image loop and the FDT loop are those `EarlyBuilt` describes: image translated, FDT window filled, links written, no other slot of `early_pg_dir` and no table outside the fixmap, trampoline and early tables changed. The cursor stays. |
| Boot.BootMm.CheckAndRelocate | arch/riscv/mm/init.c:497-521 | `va_pa_offset` and `pfn_base` are set first. It succeeds exactly when none of the five checks fires, and only then has the image been relocated for the current base. |
| Boot.BootMm.FinishSetupVm | arch/riscv/mm/init.c:523-570 | After the checks passed: `EarlyBuilt`, `swapper_pg_dir` and the cursor unchanged, the FDT pointer saved, and the three reachability facts of `SetupReach`. |
| Boot.BootMm.SetupAcceptsIff | arch/riscv/mm/init.c:508-521 | Given the layout, `setup_vm` passes all five checks exactly when three hold: `load_pa` is 2 MiB aligned, `CONFIG_PAGE_OFFSET` is `PGDIR_SIZE` aligned and `load_sz` is at most 128 MiB. `PAGE_OFFSET` is then 1 GiB aligned. |
| Boot.BootMm.SetupVm | arch/riscv/mm/init.c:491-571 | `va_pa_offset` and `pfn_base` are always set. The call succeeds exactly when none of the five checks fires. Then the image is relocated, the cursor and `swapper_pg_dir` are unchanged, and the tables are those `EarlyBuilt` describes: the fixmap and trampoline links, every image address translating in `early_pg_dir`, the FDT window. The trampoline maps the first 2 MiB of the image when its chain was free. `dtb_early_va` translates to `dtb_pa` through `fixmap_pte` when the first window slot was free, and through `early_pg_dir` when the fixmap chain was free too. |
| Boot.BootMm.FoldClearedFree | arch/riscv/mm/init.c:589-590 | Zeroing `trampoline_pg_dir` and `early_pg_dir` changes no other table and frees their root slots, so the trampoline chain is free once its PMD slot was, and the fixmap chain once its PMD slot was. |
| Boot.BootMm.FoldPud | arch/riscv/mm/init.c:578-593 | It switches to three levels, `PAGE_OFFSET_L3` and `SATP_MODE_39`, and reruns `setup_vm` for the saved FDT on the tables with both roots zeroed (`FoldCleared`): on success they are those `EarlyBuilt` describes from there, in Sv39. No table outside the fixmap, trampoline and early ones changes, and the cursor stays. The image is relocated once for the Sv39 base. The trampoline maps the first 2 MiB when its PMD slot was free, and `dtb_early_va` reaches `dtb_early_pa` when the first window slot was free (through `early_pg_dir` when the fixmap PMD slot was free too). |
| Regions.RegionStart | arch/riscv/mm/init.c:619-621 | The start of a region is raised to `__pa(PAGE_OFFSET)` exactly when the region contains it. |
| Regions.WalkRequestsInRegions | arch/riscv/mm/init.c:611-629 | Every mapping the walk requests comes from a region it reaches (no empty region before it) and does not skip (not nomap). It lies at or above the possibly raised start and below the end. It is on that region's block grid and uses that region's block size. |
| Regions.WalkCoversRegions | arch/riscv/mm/init.c:611-629 | Every address of every reached, non-nomap region, from its possibly raised start to its end, is covered by one request. |
| Regions.WalkSizes | arch/riscv/mm/init.c:623 | The walk uses only 4 KiB pages and 2 MiB blocks. |
| Regions.StepsInRange | arch/riscv/mm/init.c:624-628 | The inner loop's steps lie in `[start, end)` on the grid of the step size. |
| Regions.StepsCover | arch/riscv/mm/init.c:624-628 | The inner loop's steps cover every address of `[start, end)`. |
| Regions.MapAllOk | arch/riscv/mm/init.c:624-627 | With the MMU on, inserting pages and 2 MiB blocks into the root never halts. |
| Regions.MapAllKeepsFilled | arch/riscv/mm/init.c:611-629 | The walk only adds tables and advances the allocator. It never overwrites a filled entry of a table that existed before it. |
| Boot.BootMm.LinkSwapperFixmap | arch/riscv/mm/init.c:605-608 | The fixmap root slot of `swapper_pg_dir` gets its link if it was empty. No other table changes. |
| Boot.BootMm.MapRange | arch/riscv/mm/init.c:624-628 | The inner loop adds exactly the insertions of `Steps(start, end, map_size)`, each at `__va(pa)`. |
| Boot.BootMm.MapRegion | arch/riscv/mm/init.c:619-628 | One region's body adds exactly that region's requests. |
| Boot.BootMm.MapRegions | arch/riscv/mm/init.c:611-629 | The outer loop, with its `break` and `continue`, leaves the tables of `MapAll` over `WalkRegions`. |
| Boot.BootMm.ClearedFixmapSlots | arch/riscv/mm/init.c:631-634 | Clearing `FIX_PTE`, `FIX_PMD` and `FIX_PUD` empties their three slots. Every other slot and table is left alone. |
| Boot.BootMm.ClearFixmap | arch/riscv/mm/init.c:631-634 | Three `clear_fixmap` calls leave `ClearedFixmap` and record three page flushes. |
| Boot.BootMm.SwitchToSwapper | arch/riscv/mm/init.c:636-638 | It records the `satp` write of `swapper_pg_dir`'s frame with the mode, then a full flush. |
| Boot.BootMm.FinalTables | arch/riscv/mm/init.c:596-639 | The final walk never halts. The fixmap link of `swapper_pg_dir` survives it, or whatever the slot held before does. The three fixmap pages end unmapped. |
| Boot.BootMm.SetupVmFinal | arch/riscv/mm/init.c:596-639 | The MMU flag is set, and the tables are the fixmap link plus the region walk, then the three fixmap clears. The events are three flushes, the `satp` write and a full flush. |

## Left out

- `get_pte_virt`, `get_pmd_virt` and `get_pud_virt` are the identity. Tables
  are read and written by frame number. The aliasing through fixmap pages
  that they set up once the MMU is on, with their `set_fixmap_offset` and
  `clear_fixmap` calls, is not modelled.
- `memblock_phys_alloc` is a bump allocator that hands out a frame no table
  uses yet, and it never fails. Its reservation bookkeeping is not modelled.
  The real allocator returns 0 when memory runs out, and `alloc_pte`,
  `alloc_pmd` and `alloc_pud` (lines 242, 279 and 327) pass that on
  unchecked. The source would then link physical frame 0 as a table and zero
  it. That failure path is not modelled.
- The memory-region list is an input sequence whose elements carry the
  `memblock_is_nomap` flag. `__pa_symbol(PAGE_OFFSET)` is an input, and
  `__pa_symbol` of each static table is a constructor parameter.
- Header constants are constructor parameters, constrained by `Layout`:
  - `CONFIG_PAGE_OFFSET`;
  - `FIXADDR_START` and `FIXADDR_TOP`;
  - `__end_of_fixed_addresses`;
  - `FIX_FDT` and `FIX_FDT_SIZE`;
  - `FIX_PTE`, `FIX_PMD` and `FIX_PUD`.
- Entries are a datatype. Their 64-bit value `pfn << 10 | prot` is given by
  `PteValue` and proved equivalent, but tables hold entries, not words.
- `Translate` follows the V, R, W and X rules of the page walk: invalid and
  reserved encodings fault, pointers descend, misaligned superpages fault.
  It does not check U, G, A or D, the access type, or the privilege mode.
- `csr_write(CSR_SATP, …)`, `local_flush_tlb_page` and `local_flush_tlb_all`
  are ghost events. The `satp` value is written as frame number plus mode.
  This equals the source's OR because static frames lie below 2^40 and the
  mode occupies bits 60-63. The bit-level equality is not proved.
- The 32-bit and `__PAGETABLE_PMD_FOLDED` branches are not modelled, and
  neither are kernels built without `CONFIG_RELOCATABLE`. This covers lines
  371-378 and 543-547. The Sv39/Sv48 switch `pgtable_l4_enabled` is modelled.
- `Boot.BootMm.MapImageLoop`: steps by `PMD_SIZE` rather than `map_size`.
  Once the checks at lines 516-520 pass, `map_size` can only be `PMD_SIZE`.
  `SetupAcceptsIff` proves this.
- `Boot.BootMm.SetupVm`: requires two things of its caller:
  - the kernel's root slot of `early_pg_dir` is empty (it lies in `.initdata`
    and is zero at entry);
  - every relocation field fits in 64 bits.
- `Boot.BootMm.SetupVmFinal`: gives the final tables as the insertions of the
  walk's requests. It does not state that every region address translates
  through `swapper_pg_dir`. Requests can overlap, and with first write wins,
  the translation of a region then depends on the regions mapped before it.
  The requests themselves are characterised by the `Regions` lemmas.
- `Boot.BootMm.SetupVmFinal`: requires that every existing table lies below
  the allocator cursor. This is the model's stand-in for memblock never
  handing out a page that already holds a table.
- `Relocation.RelocatedWord`: the image maps each store address to the whole
  64-bit word stored there. Two stores less than 8 bytes apart would overlap
  in memory, but the model keeps them as separate words. Overlapping and
  unaligned 8-byte stores are not modelled.
- Physical-address sums (`start + size`, `pa += map_size`) use unbounded
  integers. They are not wrapped at 2^64.
- A `BUG_ON` halts the kernel. The model returns `Bug` or `ok == false`, and
  the state after a halt carries no meaning.
- Not modelled, because they are bookkeeping or printing outside the page-table
  builder:
  - `setup_bootmem`, `setup_initrd`, `zone_sizes_init`, `mem_init`,
    `paging_init`;
  - `print_vm_layout`;
  - `vmemmap_populate`;
  - the no-MMU `setup_vm` stub.
