/** The boot-time state of `arch/riscv/mm/init.c` and the functions that change it
    in place: the per-level `create_*_mapping`, `__set_fixmap`,
    `relocate_kernel`, `setup_vm`, `setup_vm_fold_pud` and `setup_vm_final`.
    Each table operation is proved equal to the insertion of `Mapping`, so the
    facts proved there about the tables hold of the state here. */
module Boot {
  import opened PgTable
  import opened Mapping
  import opened MappingFacts
  import opened Granularity
  import opened Relocation
  import opened Regions
  import opened EarlyImage

  /** `PAGE_OFFSET_L3`: the kernel base used once the fall-back to Sv39 ran. */
  const PAGE_OFFSET_L3: nat := 0xffff_ffe0_0000_0000
  /** `SATP_MODE_39` and `SATP_MODE_48`: the mode field of `satp`. */
  const SATP_MODE_39: nat := 0x8000_0000_0000_0000
  const SATP_MODE_48: nat := 0x9000_0000_0000_0000
  /** `FIX_HOLE`: fixmap index 0 is never mapped. */
  const FIX_HOLE: nat := 0
  /** Frame numbers of physical addresses below `PA_LIMIT`. */
  const PFN_LIMIT: nat := 0x100_0000_0000

  /** The statically allocated tables, by frame number. */
  datatype Statics = Statics(earlyPgDir: nat, trampolinePgDir: nat, swapperPgDir: nat,
                             fixmapPte: nat, fixmapPmd: nat, fixmapPud: nat,
                             trampolinePmd: nat, trampolinePud: nat, earlyPmd: nat, earlyPud: nat)

  /** The static tables are ten different frames. */
  predicate Distinct(f: Statics)
  {
    f.earlyPgDir != f.trampolinePgDir && f.earlyPgDir != f.swapperPgDir && f.earlyPgDir != f.fixmapPte &&
    f.earlyPgDir != f.fixmapPmd && f.earlyPgDir != f.fixmapPud && f.earlyPgDir != f.trampolinePmd &&
    f.earlyPgDir != f.trampolinePud && f.earlyPgDir != f.earlyPmd && f.earlyPgDir != f.earlyPud &&
    f.trampolinePgDir != f.swapperPgDir && f.trampolinePgDir != f.fixmapPte && f.trampolinePgDir != f.fixmapPmd &&
    f.trampolinePgDir != f.fixmapPud && f.trampolinePgDir != f.trampolinePmd && f.trampolinePgDir != f.trampolinePud &&
    f.trampolinePgDir != f.earlyPmd && f.trampolinePgDir != f.earlyPud &&
    f.swapperPgDir != f.fixmapPte && f.swapperPgDir != f.fixmapPmd && f.swapperPgDir != f.fixmapPud &&
    f.swapperPgDir != f.trampolinePmd && f.swapperPgDir != f.trampolinePud && f.swapperPgDir != f.earlyPmd &&
    f.swapperPgDir != f.earlyPud &&
    f.fixmapPte != f.fixmapPmd && f.fixmapPte != f.fixmapPud && f.fixmapPte != f.trampolinePmd &&
    f.fixmapPte != f.trampolinePud && f.fixmapPte != f.earlyPmd && f.fixmapPte != f.earlyPud &&
    f.fixmapPmd != f.fixmapPud && f.fixmapPmd != f.trampolinePmd && f.fixmapPmd != f.trampolinePud &&
    f.fixmapPmd != f.earlyPmd && f.fixmapPmd != f.earlyPud &&
    f.fixmapPud != f.trampolinePmd && f.fixmapPud != f.trampolinePud && f.fixmapPud != f.earlyPmd &&
    f.fixmapPud != f.earlyPud &&
    f.trampolinePmd != f.trampolinePud && f.trampolinePmd != f.earlyPmd && f.trampolinePmd != f.earlyPud &&
    f.trampolinePud != f.earlyPmd && f.trampolinePud != f.earlyPud &&
    f.earlyPmd != f.earlyPud
  }

  /** Every static table lies below `limit`. */
  predicate AllBelow(f: Statics, limit: nat)
  {
    f.earlyPgDir < limit && f.trampolinePgDir < limit && f.swapperPgDir < limit && f.fixmapPte < limit &&
    f.fixmapPmd < limit && f.fixmapPud < limit && f.trampolinePmd < limit && f.trampolinePud < limit &&
    f.earlyPmd < limit && f.earlyPud < limit
  }

  /** Every static table is present in `m`. */
  predicate Present(f: Statics, m: map<nat, Table>)
  {
    f.earlyPgDir in m && f.trampolinePgDir in m && f.swapperPgDir in m && f.fixmapPte in m &&
    f.fixmapPmd in m && f.fixmapPud in m && f.trampolinePmd in m && f.trampolinePud in m &&
    f.earlyPmd in m && f.earlyPud in m
  }

  /** Tables only grow, and the cursor only rises, so the static tables stay. */
  lemma StaticsStay(f: Statics, m: map<nat, Table>, b: nat, m': map<nat, Table>, b': nat)
    requires Present(f, m) && AllBelow(f, b) && m.Keys <= m'.Keys && b <= b'
    ensures Present(f, m') && AllBelow(f, b')
  {
  }

  /** The fixmap geometry from the headers: `FIXADDR_START`, `FIXADDR_TOP`,
      `__end_of_fixed_addresses`, `FIX_FDT`, `FIX_FDT_SIZE`, `FIX_PTE`,
      `FIX_PMD` and `FIX_PUD`. */
  datatype FixLayout = FixLayout(start: nat, top: nat, endOfFixed: nat, fdt: nat, fdtSize: nat,
                                 pte: nat, pmd: nat, pud: nat)

  /** Hardware events the model records but does not interpret. */
  datatype Event = FlushPage(va: nat) | FlushAll | WriteSatp(value: nat)

  /** `satp_mode` for the translation depth. */
  function SatpMode(l4: bool): nat
  {
    if l4 then SATP_MODE_48 else SATP_MODE_39
  }

  /** The entry `setup_vm` stores in a slot that already held `before`:
      the first write wins. */
  function FirstWins(before: Entry, e: Entry): (r: Entry)
    ensures r != None <== e != None
    ensures before != None ==> r == before
  {
    if before != None then before else e
  }

  class BootMm {
    /** Physical memory holding tables, and the general allocator's cursor. */
    var mem: map<nat, Table>
    var brk: nat
    var mmuEnabled: bool
    var l4Enabled: bool
    var satpMode: nat
    /** `kernel_virt_addr`, which is what `PAGE_OFFSET` reads. */
    var kernelVirtAddr: nat
    var vaPaOffset: nat
    var pfnBase: nat
    var dtbEarlyVa: nat
    var dtbEarlyPa: nat
    /** The words of the kernel image that relocation writes. */
    var image: Image
    /** TLB flushes and `satp` writes, in order. */
    ghost var events: seq<Event>

    /** `CONFIG_PAGE_OFFSET`, the link-time base of the image. */
    const linkAddr: nat
    const frames: Statics
    const fix: FixLayout

    /** The facts about constants that the headers and the linker script
        guarantee: distinct static tables below the physical limit, a fixmap
        window inside one 2 MiB block holding at most 512 pages, with the FDT
        window of at least one page inside it, and a root slot for it apart
        from the kernel's. */
    predicate Layout()
    {
      linkAddr < WORD && Distinct(frames) && AllBelow(frames, PFN_LIMIT) &&
      FIX_HOLE < fix.pte < fix.endOfFixed && FIX_HOLE < fix.pmd < fix.endOfFixed &&
      FIX_HOLE < fix.pud < fix.endOfFixed && FIX_HOLE < fix.fdt < fix.endOfFixed &&
      fix.endOfFixed <= PTRS &&
      fix.start % PMD_SIZE == 0 && fix.top % PAGE_SIZE == 0 &&
      fix.start + fix.endOfFixed * PAGE_SIZE <= fix.top <= fix.start + PMD_SIZE && fix.top < WORD &&
      fix.fdtSize % PAGE_SIZE == 0 && PAGE_SIZE <= fix.fdtSize <= fix.fdt * PAGE_SIZE &&
      Index(Pgd, fix.start) != Index(Pgd, linkAddr) &&
      Index(Pud, fix.start) != Index(Pud, linkAddr) &&
      Index(Pud, fix.start) != Index(Pud, PAGE_OFFSET_L3)
    }

    /** The state invariant: every static table exists and lies below the
        allocator cursor, `PAGE_OFFSET` is the link base, or the Sv39 base once
        the depth dropped, and `satp_mode` matches the depth. */
    predicate Valid()
      reads this
    {
      Layout() && Present(frames, mem) && AllBelow(frames, brk) &&
      (l4Enabled ==> kernelVirtAddr == linkAddr) &&
      (kernelVirtAddr == linkAddr || kernelVirtAddr == PAGE_OFFSET_L3) &&
      satpMode == SatpMode(l4Enabled)
    }

    /** The boot state on entry from `head.S`: MMU off, four levels, the
        image linked at `CONFIG_PAGE_OFFSET`. */
    constructor (link: nat, statics: Statics, layout: FixLayout, mem0: map<nat, Table>, brk0: nat, image0: Image)
      requires Present(statics, mem0) && AllBelow(statics, brk0)
      ensures linkAddr == link && frames == statics && fix == layout
      ensures mem == mem0 && brk == brk0 && image == image0 && events == []
      ensures !mmuEnabled && l4Enabled && satpMode == SATP_MODE_48 && kernelVirtAddr == link
      ensures Layout() ==> Valid()
    {
      linkAddr := link;
      frames := statics;
      fix := layout;
      mem := mem0;
      brk := brk0;
      mmuEnabled := false;
      l4Enabled := true;
      satpMode := SATP_MODE_48;
      kernelVirtAddr := link;
      vaPaOffset := 0;
      pfnBase := 0;
      dtbEarlyVa := 0;
      dtbEarlyPa := 0;
      image := image0;
      events := [];
    }

    function Cfg(): Config
      reads this
    {
      Config(mmuEnabled, l4Enabled, kernelVirtAddr, frames.earlyPmd, frames.earlyPud)
    }

    function HeapOf(): Heap
      reads this
    {
      Heap(mem, brk)
    }

    /** The method's outcome `ok` and the new tables are those of `r`. */
    predicate Reached(ok: bool, r: Result<Heap>)
      reads this
    {
      ok == r.Ok? && (ok ==> HeapOf() == r.value)
    }

    /** `create_pte_mapping`. */
    method CreatePteMapping(t: nat, va: nat, pa: nat, sz: nat, prot: nat) returns (ok: bool)
      modifies this`mem
      ensures Reached(ok, InsertAt(old(Cfg()), old(HeapOf()), Pte, t, va, pa, sz, prot))
      ensures ok <==> sz == PAGE_SIZE
      ensures ok ==> mem == old(mem)[t := SetIfNone(old(Frame(mem, t)), Index(Pte, va), MakeEntry(PfnDown(pa), prot))]
    {
      var i := Index(Pte, va);
      if sz != PAGE_SIZE {
        return false;
      }
      if Frame(mem, t)[i] == None {
        mem := mem[t := Frame(mem, t)[i := MakeEntry(PfnDown(pa), prot)]];
      } else {
        assert mem[t := Frame(mem, t)] == mem;
      }
      return true;
    }

    /** `create_pmd_mapping`. */
    method CreatePmdMapping(t: nat, va: nat, pa: nat, sz: nat, prot: nat) returns (ok: bool)
      modifies this`mem, this`brk
      ensures Reached(ok, InsertAt(old(Cfg()), old(HeapOf()), Pmd, t, va, pa, sz, prot))
      ensures sz == PMD_SIZE ==>
        ok && brk == old(brk) &&
        mem == old(mem)[t := SetIfNone(old(Frame(mem, t)), Index(Pmd, va), MakeEntry(PfnDown(pa), prot))]
    {
      var i := Index(Pmd, va);
      if sz == PMD_SIZE {
        if Frame(mem, t)[i] == None {
          mem := mem[t := Frame(mem, t)[i := MakeEntry(PfnDown(pa), prot)]];
        } else {
          assert mem[t := Frame(mem, t)] == mem;
        }
        return true;
      }
      var ptePhys: nat;
      if Frame(mem, t)[i] == None {
        var a := AllocPte(Cfg(), HeapOf(), va);
        if a.Bug? {
          return false;
        }
        ptePhys := a.value.0;
        brk := a.value.1.brk;
        mem := mem[t := Frame(mem, t)[i := MakeEntry(ptePhys, PAGE_TABLE)]];
        mem := mem[ptePhys := Zeros()];
      } else {
        ptePhys := EntryPfn(Frame(mem, t)[i]);
      }
      ok := CreatePteMapping(ptePhys, va, pa, sz, prot);
    }

    /** `create_pud_mapping`. */
    method CreatePudMapping(t: nat, va: nat, pa: nat, sz: nat, prot: nat) returns (ok: bool)
      modifies this`mem, this`brk
      ensures Reached(ok, InsertAt(old(Cfg()), old(HeapOf()), Pud, t, va, pa, sz, prot))
      ensures sz == PUD_SIZE ==>
        ok && brk == old(brk) &&
        mem == old(mem)[t := SetIfNone(old(Frame(mem, t)), Index(Pud, va), MakeEntry(PfnDown(pa), prot))]
    {
      var i := Index(Pud, va);
      if sz == PUD_SIZE {
        if Frame(mem, t)[i] == None {
          mem := mem[t := Frame(mem, t)[i := MakeEntry(PfnDown(pa), prot)]];
        } else {
          assert mem[t := Frame(mem, t)] == mem;
        }
        return true;
      }
      var nextPhys: nat;
      if Frame(mem, t)[i] == None {
        var a := AllocPmd(Cfg(), HeapOf(), va);
        if a.Bug? {
          return false;
        }
        nextPhys := a.value.0;
        brk := a.value.1.brk;
        mem := mem[t := Frame(mem, t)[i := MakeEntry(nextPhys, PAGE_TABLE)]];
        mem := mem[nextPhys := Zeros()];
      } else {
        nextPhys := EntryPfn(Frame(mem, t)[i]);
      }
      ok := CreatePmdMapping(nextPhys, va, pa, sz, prot);
    }

    /** `create_pgd_mapping`: in Sv39 mode the root is handed to
        `create_pud_mapping` as it stands. */
    method CreatePgdMapping(t: nat, va: nat, pa: nat, sz: nat, prot: nat) returns (ok: bool)
      modifies this`mem, this`brk
      ensures Reached(ok, InsertPgd(old(Cfg()), old(HeapOf()), t, va, pa, sz, prot))
      ensures sz == PgdirSize(l4Enabled) ==>
        ok && brk == old(brk) &&
        mem == old(mem)[t := SetIfNone(old(Frame(mem, t)), Index(RootLevel(l4Enabled), va), MakeEntry(PfnDown(pa), prot))]
    {
      if !l4Enabled {
        ok := CreatePudMapping(t, va, pa, sz, prot);
        return;
      }
      var i := Index(Pgd, va);
      if sz == P4D_SIZE {
        if Frame(mem, t)[i] == None {
          mem := mem[t := Frame(mem, t)[i := MakeEntry(PfnDown(pa), prot)]];
        } else {
          assert mem[t := Frame(mem, t)] == mem;
        }
        return true;
      }
      var nextPhys: nat;
      if Frame(mem, t)[i] == None {
        var a := AllocPud(Cfg(), HeapOf(), va);
        if a.Bug? {
          return false;
        }
        nextPhys := a.value.0;
        brk := a.value.1.brk;
        mem := mem[t := Frame(mem, t)[i := MakeEntry(nextPhys, PAGE_TABLE)]];
        mem := mem[nextPhys := Zeros()];
      } else {
        nextPhys := EntryPfn(Frame(mem, t)[i]);
      }
      ok := CreatePudMapping(nextPhys, va, pa, sz, prot);
    }
  
    /** `__fix_to_virt(idx)`: fixmap pages are counted down from `FIXADDR_TOP`. */
    function FixToVirt(idx: nat): nat
    {
      Sub64(fix.top, idx * PAGE_SIZE)
    }

    /** The slot of `fixmap_pte` that backs fixmap page `idx`. */
    function FixSlot(idx: nat): nat
    {
      Index(Pte, FixToVirt(idx))
    }

    /** Every fixmap page lies in the window above `FIXADDR_START`, page
        aligned, and two distinct indices use distinct slots of `fixmap_pte`. */
    lemma FixSlots(i: nat, j: nat)
      requires Layout() && FIX_HOLE < i < fix.endOfFixed && FIX_HOLE < j < fix.endOfFixed
      ensures FixToVirt(i) == fix.top - i * PAGE_SIZE
      ensures fix.start <= FixToVirt(i) < fix.top && FixToVirt(i) % PAGE_SIZE == 0
      ensures i != j ==> FixSlot(i) != FixSlot(j)
    {
      var t := fix.top / PAGE_SIZE;
      PageIndex(t, i);
      PageIndex(t, j);
      if i != j {
        ModDistinct(t, i, j);
      }
    }

    lemma PageIndex(t: nat, i: nat)
      requires Layout() && t == fix.top / PAGE_SIZE && FIX_HOLE < i < fix.endOfFixed
      ensures FixToVirt(i) == fix.top - i * PAGE_SIZE == (t - i) * PAGE_SIZE
      ensures fix.start <= FixToVirt(i) < fix.top && FixToVirt(i) % PAGE_SIZE == 0
      ensures FixSlot(i) == (t - i) % PTRS
    {
      PageBelow(fix.start, fix.top, t, i, fix.endOfFixed);
    }

    /** The arithmetic of `PageIndex`, on plain numbers. */
    static lemma PageBelow(start: nat, top: nat, t: nat, i: nat, e: nat)
      requires top == t * 0x1000 && start + e * 0x1000 <= top && 0 < i < e && top < WORD
      ensures Sub64(top, i * 0x1000) == top - i * 0x1000 == (t - i) * 0x1000
      ensures start <= top - i * 0x1000 < top && (top - i * 0x1000) % 0x1000 == 0
      ensures Index(Pte, top - i * 0x1000) == (t - i) % PTRS
    {
      assert top - i * 0x1000 == (t - i) * 0x1000;
      assert ((t - i) * 0x1000) / 0x1000 == t - i;
    }

    /** `a - i` and `a - j` differ modulo 512 when `i` and `j` do. */
    static lemma ModDistinct(a: nat, i: nat, j: nat)
      requires i < PTRS && j < PTRS && i != j && i <= a && j <= a
      ensures (a - i) % PTRS != (a - j) % PTRS
    {
    }

    /** A byte of a fixmap page: same slot, offset kept. */
    lemma FixPageByte(i: nat, va: nat)
      requires Layout() && FIX_HOLE < i < fix.endOfFixed && FixToVirt(i) <= va < FixToVirt(i) + PAGE_SIZE
      ensures Index(Pte, va) == FixSlot(i)
      ensures va % PAGE_SIZE == va - FixToVirt(i)
    {
      FixSlots(i, i);
      var v := FixToVirt(i) / PAGE_SIZE;
      assert FixToVirt(i) == v * PAGE_SIZE;
      assert va / PAGE_SIZE == v;
    }

    /** The entry `__set_fixmap` stores: the leaf `pfn_pte(phys >> PAGE_SHIFT, prot)`,
        or the zero entry when `prot` is 0, which clears the slot. */
    function FixEntry(phys: nat, prot: nat): Entry
    {
      if prot != 0 then MakeEntry(phys / PAGE_SIZE, prot) else None
    }

    /** The tables after `__set_fixmap(idx, phys, prot)`: only the slot of `idx`
        in the fixmap page table changes. */
    function FixmapAfter(m: map<nat, Table>, idx: nat, phys: nat, prot: nat): map<nat, Table>
    {
      m[frames.fixmapPte := Frame(m, frames.fixmapPte)[FixSlot(idx) := FixEntry(phys, prot)]]
    }

    /** `__set_fixmap(idx, phys, prot)`: out-of-range indices are refused (the
        source's `BUG_ON`); otherwise the slot is written, and a clear is
        followed by a flush of that page. */
    method SetFixmap(idx: nat, phys: nat, prot: nat) returns (ok: bool)
      requires frames.fixmapPte in mem
      modifies this`mem, this`events
      ensures ok <==> FIX_HOLE < idx < fix.endOfFixed
      ensures !ok ==> mem == old(mem) && events == old(events)
      ensures ok ==> mem == FixmapAfter(old(mem), idx, phys, prot)
      ensures ok ==> events == old(events) + (if prot == 0 then [FlushPage(FixToVirt(idx))] else [])
    {
      var addr := FixToVirt(idx);
      if idx <= FIX_HOLE || idx >= fix.endOfFixed {
        return false;
      }
      var t := frames.fixmapPte;
      var i := Index(Pte, addr);
      if prot != 0 {
        mem := mem[t := Frame(mem, t)[i := MakeEntry(phys / PAGE_SIZE, prot)]];
      } else {
        mem := mem[t := Frame(mem, t)[i := None]];
        events := events + [FlushPage(addr)];
      }
      return true;
    }

    /** `__set_fixmap` leaves every other fixmap slot, and every other table, as
        it was. */
    lemma FixmapOthers(m: map<nat, Table>, idx: nat, phys: nat, prot: nat)
      requires Layout() && FIX_HOLE < idx < fix.endOfFixed
      ensures forall x :: x != frames.fixmapPte ==> Frame(FixmapAfter(m, idx, phys, prot), x) == Frame(m, x)
      ensures forall j :: FIX_HOLE < j < fix.endOfFixed && j != idx ==>
        Frame(FixmapAfter(m, idx, phys, prot), frames.fixmapPte)[FixSlot(j)] == Frame(m, frames.fixmapPte)[FixSlot(j)]
    {
      forall j | FIX_HOLE < j < fix.endOfFixed && j != idx
        ensures FixSlot(j) != FixSlot(idx)
      {
        FixSlots(idx, j);
      }
    }

    /** After `__set_fixmap`, every byte of the page of `idx` translates through
        the fixmap page table to the same byte of the page of `phys` with
        `prot`, exactly when `prot` makes a leaf the hardware accepts. Every
        other `prot` faults: 0, which clears the slot, one without V or with W
        but not R, and a pointer such as `PAGE_TABLE`, which is no leaf at the
        last level. */
    lemma FixmapTranslates(m: map<nat, Table>, idx: nat, phys: nat, prot: nat, va: nat)
      requires Layout() && FIX_HOLE < idx < fix.endOfFixed
      requires FixToVirt(idx) <= va < FixToVirt(idx) + PAGE_SIZE
      ensures Translate(FixmapAfter(m, idx, phys, prot), frames.fixmapPte, Pte, va) ==
        if ValidProt(prot) && LeafProt(prot) then Maps(phys / PAGE_SIZE * PAGE_SIZE + (va - FixToVirt(idx)), prot)
        else Fault
    {
      FixPageByte(idx, va);
      PageAligned(phys / PAGE_SIZE);
    }

    /** `relocate_kernel(load_pa)`: one pass over the relocation records. */
    method RelocateKernel(relas: seq<Rela>, loadPa: nat)
      requires ValidRelas(relas)
      modifies this`image
      ensures image == ApplyRelocs(old(image), relas, linkAddr, kernelVirtAddr, loadPa)
    {
      var relocOffset := Sub64(kernelVirtAddr, linkAddr);
      var vaLinkPaOffset := Sub64(linkAddr, loadPa);
      var k := 0;
      while k < |relas|
        invariant 0 <= k <= |relas|
        invariant image == ApplyRelocs(old(image), relas[..k], linkAddr, kernelVirtAddr, loadPa)
      {
        var r := relas[k];
        var addr := Sub64(r.offset, vaLinkPaOffset);
        var relocated := r.addend;
        assert relas[..k + 1][..k] == relas[..k];
        if r.info == R_RISCV_RELATIVE {
          if relocated >= linkAddr {
            relocated := (relocated + relocOffset) % WORD;
          }
          image := image[addr := relocated];
        }
        k := k + 1;
      }
      assert relas[..k] == relas;
    }

    /** The root slot of `va` in the current translation depth. */
    function RootSlot(va: nat): nat
      reads this
    {
      Index(RootLevel(l4Enabled), va)
    }

    /** `fixmap_pgd_next` and `trampoline_pgd_next`: the table the root links
        to, which is the PUD in Sv48 and the PMD in Sv39. */
    function FixmapPgdNext(l4: bool): nat
    {
      if l4 then frames.fixmapPud else frames.fixmapPmd
    }

    function TrampolinePgdNext(l4: bool): nat
    {
      if l4 then frames.trampolinePud else frames.trampolinePmd
    }

    /** `create_pgd_mapping` with `PGDIR_SIZE` and `PAGE_TABLE`: the root slot
        of `va` links table `next`, unless it was already filled. */
    method LinkRootSlot(root: nat, va: nat, next: nat)
      requires Valid()
      modifies this`mem, this`brk
      ensures Valid() && brk == old(brk)
      ensures mem == old(mem)[root := SetIfNone(old(Frame(mem, root)), RootSlot(va), Link(next))]
    {
      PfnOfFrame(next);
      var ok := CreatePgdMapping(root, va, next * PAGE_SIZE, PgdirSize(l4Enabled), PAGE_TABLE);
    }

    /** `create_pud_mapping` with `PUD_SIZE`: the PUD slot of `va` in `t`
        receives the entry for `pa` and `prot`, unless it was already filled. */
    method SetPudSlot(t: nat, va: nat, pa: nat, prot: nat)
      requires Valid()
      modifies this`mem, this`brk
      ensures Valid() && brk == old(brk)
      ensures mem == old(mem)[t := SetIfNone(old(Frame(mem, t)), Index(Pud, va), MakeEntry(PfnDown(pa), prot))]
    {
      var ok := CreatePudMapping(t, va, pa, PUD_SIZE, prot);
    }

    /** `create_pmd_mapping` with `PMD_SIZE`: the PMD slot of `va` in `t`
        receives the entry for `pa` and `prot`, unless it was already filled. */
    method SetPmdSlot(t: nat, va: nat, pa: nat, prot: nat)
      requires Valid()
      modifies this`mem, this`brk
      ensures Valid() && brk == old(brk)
      ensures mem == old(mem)[t := SetIfNone(old(Frame(mem, t)), Index(Pmd, va), MakeEntry(PfnDown(pa), prot))]
    {
      var ok := CreatePmdMapping(t, va, pa, PMD_SIZE, prot);
    }

    /** The fixmap chain of the early root: link `FIXADDR_START` through the fixmap
        tables down to `fixmap_pte`; each link is written only into an empty
        slot. */
    method MapFixmapEarly()
      requires Valid() && !mmuEnabled
      modifies this`mem, this`brk
      ensures Valid() && brk == old(brk)
      ensures Frame(mem, frames.earlyPgDir) ==
        SetIfNone(old(Frame(mem, frames.earlyPgDir)), RootSlot(fix.start), Link(FixmapPgdNext(l4Enabled)))
      ensures l4Enabled ==>
        Frame(mem, frames.fixmapPud) == SetIfNone(old(Frame(mem, frames.fixmapPud)), Index(Pud, fix.start), Link(frames.fixmapPmd))
      ensures Frame(mem, frames.fixmapPmd) ==
        SetIfNone(old(Frame(mem, frames.fixmapPmd)), Index(Pmd, fix.start), Link(frames.fixmapPte))
      ensures forall x :: x != frames.earlyPgDir && x != frames.fixmapPmd && (l4Enabled ==> x != frames.fixmapPud) ==>
        Frame(mem, x) == old(Frame(mem, x))
    {
      PfnOfFrame(frames.fixmapPmd);
      PfnOfFrame(frames.fixmapPte);
      LinkRootSlot(frames.earlyPgDir, fix.start, FixmapPgdNext(l4Enabled));
      if l4Enabled {
        SetPudSlot(frames.fixmapPud, fix.start, frames.fixmapPmd * PAGE_SIZE, PAGE_TABLE);
      }
      SetPmdSlot(frames.fixmapPmd, fix.start, frames.fixmapPte * PAGE_SIZE, PAGE_TABLE);
    }

    /** The trampoline tables: a single 2 MiB leaf for the first
        block of the image at `PAGE_OFFSET`, in tables of its own. */
    method MapTrampoline(loadPa: nat)
      requires Valid() && !mmuEnabled
      modifies this`mem, this`brk
      ensures Valid() && brk == old(brk)
      ensures Frame(mem, frames.trampolinePgDir) ==
        SetIfNone(old(Frame(mem, frames.trampolinePgDir)), RootSlot(kernelVirtAddr), Link(TrampolinePgdNext(l4Enabled)))
      ensures l4Enabled ==>
        Frame(mem, frames.trampolinePud) == SetIfNone(old(Frame(mem, frames.trampolinePud)), Index(Pud, kernelVirtAddr), Link(frames.trampolinePmd))
      ensures Frame(mem, frames.trampolinePmd) ==
        SetIfNone(old(Frame(mem, frames.trampolinePmd)), Index(Pmd, kernelVirtAddr), Leaf(PfnDown(loadPa), PAGE_KERNEL_EXEC))
      ensures forall x :: x != frames.trampolinePgDir && x != frames.trampolinePmd && (l4Enabled ==> x != frames.trampolinePud) ==>
        Frame(mem, x) == old(Frame(mem, x))
    {
      PfnOfFrame(frames.trampolinePmd);
      LinkRootSlot(frames.trampolinePgDir, kernelVirtAddr, TrampolinePgdNext(l4Enabled));
      if l4Enabled {
        SetPudSlot(frames.trampolinePud, kernelVirtAddr, frames.trampolinePmd * PAGE_SIZE, PAGE_TABLE);
      }
      SetPmdSlot(frames.trampolinePmd, kernelVirtAddr, loadPa, PAGE_KERNEL_EXEC);
    }

    /** One turn of the image loop: the 2 MiB block `k` of the image. */
    method MapImageBlock(root: nat, va: nat, pa: nat, ghost c: Config, ghost h0: Heap, ghost loadPa: nat, ghost k: nat)
      requires EarlySetup(c, h0, root) && Frame(h0.mem, root)[Index(RootLevel(c.l4), c.pageOffset)] == None
      requires Cfg() == c && k < PTRS && va == ImageBlock(c.pageOffset, k) && pa == ImageBlock(loadPa, k)
      requires ImageMap(c, h0, root, loadPa, k) == Ok(HeapOf())
      modifies this`mem, this`brk
      ensures ImageMap(c, h0, root, loadPa, k + 1) == Ok(HeapOf())
    {
      ImageMapStepOk(c, h0, root, loadPa, k, HeapOf());
      var ok := CreatePgdMapping(root, va, pa, PMD_SIZE, PAGE_KERNEL_EXEC);
    }

    /** The image loop of `setup_vm`: `create_pgd_mapping(early_pg_dir, va,
        load_pa + (va - PAGE_OFFSET), PMD_SIZE, PAGE_KERNEL_EXEC)` for `va` from
        `PAGE_OFFSET` below `PAGE_OFFSET + load_sz` in steps of 2 MiB. */
    method MapImageLoop(loadPa: nat, loadSz: nat) returns (ghost n: nat)
      requires EarlySetup(Cfg(), HeapOf(), frames.earlyPgDir) && loadSz <= MAX_EARLY_MAPPING_SIZE
      requires Frame(mem, frames.earlyPgDir)[Index(RootLevel(l4Enabled), kernelVirtAddr)] == None
      modifies this`mem, this`brk
      ensures n <= PTRS && loadSz <= n * PMD_SIZE
      ensures ImageMap(old(Cfg()), old(HeapOf()), frames.earlyPgDir, loadPa, n) == Ok(HeapOf())
    {
      var root := frames.earlyPgDir;
      ghost var c, h0 := Cfg(), HeapOf();
      var va := kernelVirtAddr;
      var endVa := kernelVirtAddr + loadSz;
      n := 0;
      while va < endVa
        invariant n <= 64 && va == ImageBlock(kernelVirtAddr, n)
        invariant Cfg() == c && ImageMap(c, h0, root, loadPa, n) == Ok(HeapOf())
        decreases endVa - va
      {
        ImageBlockBound(n, loadSz);
        MapImageBlock(root, va, loadPa + (va - kernelVirtAddr), c, h0, loadPa, n);
        va := va + PMD_SIZE;
        n := n + 1;
      }
    }

    /** The image in the early root: 2 MiB leaves for `[PAGE_OFFSET, PAGE_OFFSET +
        load_sz)` in `early_pg_dir`, the first at `load_pa`. */
    method MapKernel(loadPa: nat, loadSz: nat) returns (ghost n: nat)
      requires Valid() && !mmuEnabled && kernelVirtAddr % PUD_SIZE == 0
      requires loadPa % PMD_SIZE == 0 && loadSz <= MAX_EARLY_MAPPING_SIZE
      requires Frame(mem, frames.earlyPgDir)[RootSlot(kernelVirtAddr)] == None
      modifies this`mem, this`brk
      ensures Valid() && brk == old(brk)
      ensures n <= PTRS && loadSz <= n * PMD_SIZE && KernelMapped(Cfg(), mem, frames.earlyPgDir, loadPa, n)
      ensures ImageTranslates(mem, frames.earlyPgDir, RootLevel(l4Enabled), kernelVirtAddr, loadPa, loadSz)
      ensures forall x :: x != frames.earlyPgDir && x != frames.earlyPud && x != frames.earlyPmd ==> Frame(mem, x) == old(Frame(mem, x))
      ensures forall j :: 0 <= j < PTRS && j != RootSlot(kernelVirtAddr) ==>
        Frame(mem, frames.earlyPgDir)[j] == old(Frame(mem, frames.earlyPgDir))[j]
    {
      ghost var c, h0 := Cfg(), HeapOf();
      n := MapImageLoop(loadPa, loadSz);
      ghost var h := ImageLoopDone(c, h0, frames.earlyPgDir, loadPa, loadSz, n);
      StaticsStay(frames, h0.mem, h0.brk, mem, brk);
    }

    /** Fixmap page `p` of the FDT window and its slot. */
    function FdtVa(p: nat): nat
    {
      FixToVirt(fix.fdt) + p * PAGE_SIZE
    }

    function FdtSlot(p: nat): nat
    {
      Index(Pte, FdtVa(p))
    }

    function FdtPages(): nat
    {
      fix.fdtSize / PAGE_SIZE
    }

    /** The FDT window is the run of fixmap pages ending at `FIX_FDT`, so its
        pages use distinct slots of `fixmap_pte`. */
    lemma FdtWindow(p: nat, q: nat)
      requires Layout() && p < FdtPages() && q < FdtPages()
      ensures FdtVa(p) == FixToVirt(fix.fdt - p) && FdtSlot(p) == FixSlot(fix.fdt - p)
      ensures p != q ==> FdtSlot(p) != FdtSlot(q)
    {
      FixSlots(fix.fdt, fix.fdt - p);
      FixSlots(fix.fdt - p, fix.fdt - q);
      FixSlots(fix.fdt - q, fix.fdt - p);
    }

    /** `fixmap_pte` after the first `n` turns of the FDT loop, started from
        `t0`, for the FDT whose first page is frame `pfn`. */
    function FdtTable(t0: Table, pfn: nat, n: nat): Table
    {
      if n == 0 then t0
      else SetIfNone(FdtTable(t0, pfn, n - 1), FdtSlot(n - 1), Leaf(pfn + (n - 1), PAGE_KERNEL))
    }

    /** Page `p` of the window maps page `p` of the FDT unless its slot was
        already filled, and no slot outside the window changes. */
    lemma {:induction false} FdtTableSlots(t0: Table, pfn: nat, n: nat)
      requires Layout() && n <= FdtPages()
      ensures forall p :: 0 <= p < n ==>
        FdtTable(t0, pfn, n)[FdtSlot(p)] == FirstWins(t0[FdtSlot(p)], Leaf(pfn + p, PAGE_KERNEL))
      ensures forall j :: 0 <= j < PTRS && (forall p :: 0 <= p < n ==> j != FdtSlot(p)) ==>
        FdtTable(t0, pfn, n)[j] == t0[j]
    {
      if n > 0 {
        FdtTableSlots(t0, pfn, n - 1);
        forall p | 0 <= p < n - 1
          ensures FdtSlot(p) != FdtSlot(n - 1)
        {
          FdtWindow(p, n - 1);
        }
      }
    }

    /** One turn of the FDT loop: page `p` of the window. */
    method MapFdtPage(va: nat, pa: nat, ghost m0: map<nat, Table>, ghost pfn: nat, ghost p: nat)
      requires frames.fixmapPte in m0 && va == FdtVa(p) && PfnDown(pa) == pfn + p
      requires mem == m0[frames.fixmapPte := FdtTable(m0[frames.fixmapPte], pfn, p)]
      modifies this`mem
      ensures mem == m0[frames.fixmapPte := FdtTable(m0[frames.fixmapPte], pfn, p + 1)]
    {
      var ok := CreatePteMapping(frames.fixmapPte, va, pa, PAGE_SIZE, PAGE_KERNEL);
    }

    /** The FDT window for early parsing: page `p` of the window
        maps page `p` from the start of the page holding `dtb_pa`, unless its
        slot was already filled. */
    method MapFdt(dtbPa: nat)
      requires Valid()
      modifies this`mem
      ensures Valid()
      ensures mem == old(mem)[frames.fixmapPte := FdtTable(old(mem)[frames.fixmapPte], PfnDown(dtbPa), FdtPages())]
    {
      var t := frames.fixmapPte;
      ghost var m0 := mem;
      ghost var pfn := PfnDown(dtbPa);
      var va := FixToVirt(fix.fdt);
      var endVa := FixToVirt(fix.fdt) + fix.fdtSize;
      ghost var p := 0;
      while va < endVa
        invariant p <= FdtPages() && va == FdtVa(p)
        invariant mem == m0[t := FdtTable(m0[t], pfn, p)]
        decreases endVa - va
      {
        FdtCount(p);
        FdtPfn(dtbPa, p);
        MapFdtPage(va, dtbPa + (va - FixToVirt(fix.fdt)), m0, pfn, p);
        va := va + PAGE_SIZE;
        p := p + 1;
      }
      FdtCount(p);
      StaticsStay(frames, m0, brk, mem, brk);
    }

    /** The loop over the window's addresses runs once per FDT page. */
    lemma FdtCount(p: nat)
      requires Layout()
      ensures p * PAGE_SIZE < fix.fdtSize <==> p < FdtPages()
    {
      var q := fix.fdtSize / 0x1000;
      assert fix.fdtSize == q * 0x1000;
      assert p * 0x1000 < q * 0x1000 <==> p < q;
    }

    /** The frame of page `p` of the FDT. */
    lemma FdtPfn(dtbPa: nat, p: nat)
      ensures PfnDown(dtbPa + p * PAGE_SIZE) == PfnDown(dtbPa) + p
    {
    }

    /** The root slot of the fixmap is not the one of the kernel, in either mode. */
    lemma RootSlotsApart()
      requires Valid()
      ensures RootSlot(fix.start) != RootSlot(kernelVirtAddr)
    {
    }

    /** The checks of `setup_vm`: the image must not cross the gigabyte that
        `PAGE_OFFSET` starts, `best_map_size(load_pa, MAX_EARLY_MAPPING_SIZE)`
        must be the megapage and divide `load_pa`, `CONFIG_PAGE_OFFSET` must be
        `PGDIR_SIZE` aligned, and the image at most 128 MiB. */
    predicate SetupAccepts(po: nat, l4: bool, loadPa: nat, loadSz: nat)
    {
      var mapSize := BestMapSize(loadPa, MAX_EARLY_MAPPING_SIZE);
      PUD_SIZE - po % PUD_SIZE >= loadSz &&
      mapSize != PAGE_SIZE &&
      linkAddr % PgdirSize(l4) == 0 &&
      loadPa % mapSize == 0 &&
      loadSz <= MAX_EARLY_MAPPING_SIZE
    }

    /** `setup_vm` halts exactly when `load_pa` is not 2 MiB aligned,
        `CONFIG_PAGE_OFFSET` is not `PGDIR_SIZE` aligned, or the image exceeds
        128 MiB; the gigabyte check never decides on its own. When it goes on,
        `PAGE_OFFSET` is gigabyte aligned. */
    lemma SetupAcceptsIff(loadPa: nat, loadSz: nat)
      requires Valid()
      ensures SetupAccepts(kernelVirtAddr, l4Enabled, loadPa, loadSz) <==>
        loadPa % PMD_SIZE == 0 && linkAddr % PgdirSize(l4Enabled) == 0 && loadSz <= MAX_EARLY_MAPPING_SIZE
      ensures SetupAccepts(kernelVirtAddr, l4Enabled, loadPa, loadSz) ==> kernelVirtAddr % PUD_SIZE == 0
    {
      if linkAddr % PgdirSize(l4Enabled) == 0 {
        if l4Enabled {
          var q := linkAddr / 0x80_0000_0000;
          assert linkAddr == (q * 0x200) * 0x4000_0000;
        }
        assert kernelVirtAddr % PUD_SIZE == 0;
      }
    }

    /** The tables `setup_vm` may write: `early_pg_dir` with the two early
        tables below it, and the fixmap and trampoline tables. */
    function SetupFrames(): set<nat>
    {
      {frames.earlyPgDir, frames.earlyPud, frames.earlyPmd, frames.fixmapPud, frames.fixmapPmd,
       frames.fixmapPte, frames.trampolinePgDir, frames.trampolinePud, frames.trampolinePmd}
    }

    /** After a guarded write of `e`, slot `i` of `t` holds `e`: it is empty,
        or holds `e` already. */
    predicate Admits(t: Table, i: nat, e: Entry)
      requires i < PTRS
    {
      t[i] == None || t[i] == e
    }

    /** The links of `setup_vm` for `FIXADDR_START` and the trampoline, in mode
        `l4` with `po` for `PAGE_OFFSET`, from the tables `m0` before it to `m`
        after it: the fixmap's root slot in `early_pg_dir` keeps a filled entry
        and otherwise links the next fixmap table, and every fixmap and
        trampoline table is its old contents with its one slot written unless
        filled (the PUD ones only in Sv48). */
    ghost predicate EarlyLinks(m0: map<nat, Table>, m: map<nat, Table>, l4: bool, po: nat, loadPa: nat)
    {
      var top := RootLevel(l4);
      Frame(m, frames.earlyPgDir)[Index(top, fix.start)] ==
        FirstWins(Frame(m0, frames.earlyPgDir)[Index(top, fix.start)], Link(FixmapPgdNext(l4))) &&
      Frame(m, frames.fixmapPud) ==
        (if l4 then SetIfNone(Frame(m0, frames.fixmapPud), Index(Pud, fix.start), Link(frames.fixmapPmd))
         else Frame(m0, frames.fixmapPud)) &&
      Frame(m, frames.fixmapPmd) == SetIfNone(Frame(m0, frames.fixmapPmd), Index(Pmd, fix.start), Link(frames.fixmapPte)) &&
      Frame(m, frames.trampolinePgDir) ==
        SetIfNone(Frame(m0, frames.trampolinePgDir), Index(top, po), Link(TrampolinePgdNext(l4))) &&
      Frame(m, frames.trampolinePud) ==
        (if l4 then SetIfNone(Frame(m0, frames.trampolinePud), Index(Pud, po), Link(frames.trampolinePmd))
         else Frame(m0, frames.trampolinePud)) &&
      Frame(m, frames.trampolinePmd) ==
        SetIfNone(Frame(m0, frames.trampolinePmd), Index(Pmd, po), Leaf(PfnDown(loadPa), PAGE_KERNEL_EXEC))
    }

    /** Everything `setup_vm` leaves in the tables once its checks passed,
        from `m0`: the image mapped at `po` through `early_pg_dir`, the FDT
        window in `fixmap_pte`, the fixmap and trampoline links, no other slot
        of `early_pg_dir` written, and no table outside `SetupFrames` (such as
        `swapper_pg_dir`) touched. */
    ghost predicate EarlyBuilt(m0: map<nat, Table>, m: map<nat, Table>, l4: bool, po: nat, loadPa: nat, loadSz: nat, dtbPa: nat)
    {
      ImageTranslates(m, frames.earlyPgDir, RootLevel(l4), po, loadPa, loadSz) &&
      Frame(m, frames.fixmapPte) == FdtTable(Frame(m0, frames.fixmapPte), PfnDown(dtbPa), FdtPages()) &&
      EarlyLinks(m0, m, l4, po, loadPa) &&
      (forall j :: 0 <= j < PTRS && j != Index(RootLevel(l4), fix.start) && j != Index(RootLevel(l4), po) ==>
         Frame(m, frames.earlyPgDir)[j] == Frame(m0, frames.earlyPgDir)[j]) &&
      (forall x :: x !in SetupFrames() ==> Frame(m, x) == Frame(m0, x))
    }

    /** The three slots of the trampoline chain are empty, or already hold what
        `setup_vm` writes there. */
    predicate TrampolineFree(m: map<nat, Table>, l4: bool, po: nat, loadPa: nat)
    {
      Admits(Frame(m, frames.trampolinePgDir), Index(RootLevel(l4), po), Link(TrampolinePgdNext(l4))) &&
      (l4 ==> Admits(Frame(m, frames.trampolinePud), Index(Pud, po), Link(frames.trampolinePmd))) &&
      Admits(Frame(m, frames.trampolinePmd), Index(Pmd, po), Leaf(PfnDown(loadPa), PAGE_KERNEL_EXEC))
    }

    /** The same for the fixmap chain from `early_pg_dir` to `fixmap_pte`. */
    predicate FixmapFree(m: map<nat, Table>, l4: bool)
    {
      Admits(Frame(m, frames.earlyPgDir), Index(RootLevel(l4), fix.start), Link(FixmapPgdNext(l4))) &&
      (l4 ==> Admits(Frame(m, frames.fixmapPud), Index(Pud, fix.start), Link(frames.fixmapPmd))) &&
      Admits(Frame(m, frames.fixmapPmd), Index(Pmd, fix.start), Link(frames.fixmapPte))
    }

    /** The trampoline: once its chain holds what `setup_vm` writes, the first
        2 MiB above `po` translate through `trampoline_pg_dir` to the image at
        `loadPa`, executable. */
    lemma TrampolineReach(m0: map<nat, Table>, m: map<nat, Table>, l4: bool, po: nat, loadPa: nat)
      requires Layout() && po % PUD_SIZE == 0 && loadPa % PMD_SIZE == 0
      requires EarlyLinks(m0, m, l4, po, loadPa) && TrampolineFree(m0, l4, po, loadPa)
      ensures ImageTranslates(m, frames.trampolinePgDir, RootLevel(l4), po, loadPa, PMD_SIZE)
    {
      var c := Config(false, l4, po, frames.trampolinePmd, frames.trampolinePud);
      var root := frames.trampolinePgDir;
      var top := RootLevel(l4);
      assert Frame(m, frames.trampolinePmd)[Index(Pmd, po)] == Leaf(PfnDown(loadPa), PAGE_KERNEL_EXEC);
      if l4 {
        assert Frame(m, root)[Index(Pgd, po)] == Link(frames.trampolinePud);
        assert Frame(m, frames.trampolinePud)[Index(Pud, po)] == Link(frames.trampolinePmd);
        assert PathFrames(m, frames.trampolinePud, Pud, Pmd, po) == {frames.trampolinePud, frames.trampolinePmd};
      } else {
        assert Frame(m, root)[Index(Pud, po)] == Link(frames.trampolinePmd);
      }
      assert ImageBlock(po, 0) == po && ImageBlock(loadPa, 0) == loadPa;
      assert KernelMapped(c, m, root, loadPa, 1);
      KernelTranslates(c, m, root, loadPa, PMD_SIZE, 1);
    }

    /** Page `p` of the FDT window, once its slot holds what `setup_vm` writes:
        every byte of it translates through `fixmap_pte` to the same byte of
        page `p` of the FDT, as kernel data. */
    lemma FdtReach(t0: Table, m: map<nat, Table>, pfn: nat, p: nat, va: nat)
      requires Layout() && p < FdtPages() && Frame(m, frames.fixmapPte) == FdtTable(t0, pfn, FdtPages())
      requires Admits(t0, FdtSlot(p), Leaf(pfn + p, PAGE_KERNEL))
      requires FdtVa(p) <= va < FdtVa(p) + PAGE_SIZE
      ensures Translate(m, frames.fixmapPte, Pte, va) == Maps((pfn + p) * PAGE_SIZE + (va - FdtVa(p)), PAGE_KERNEL)
    {
      FdtTableSlots(t0, pfn, FdtPages());
      FdtWindow(p, p);
      FixPageByte(fix.fdt - p, va);
      PageAligned(pfn + p);
    }

    static lemma PageAligned(f: nat)
      ensures (f * 0x1000) % 0x1000 == 0
    {
    }

    /** The saved FDT pointer: once the first page of the window holds what
        `setup_vm` writes, `dtb_early_va` translates through `fixmap_pte` to
        `dtb_pa` itself. */
    lemma DtbReach(t0: Table, m: map<nat, Table>, dtbPa: nat)
      requires Layout() && Frame(m, frames.fixmapPte) == FdtTable(t0, PfnDown(dtbPa), FdtPages())
      requires Admits(t0, FdtSlot(0), Leaf(PfnDown(dtbPa), PAGE_KERNEL))
      ensures Translate(m, frames.fixmapPte, Pte, FixToVirt(fix.fdt) + dtbPa % PAGE_SIZE) == Maps(dtbPa, PAGE_KERNEL)
    {
      FdtCount(0);
      FdtReach(t0, m, PfnDown(dtbPa), 0, FixToVirt(fix.fdt) + dtbPa % PAGE_SIZE);
    }

    /** With the links for `FIXADDR_START` in place under `root`, every address
        of its 2 MiB block translates through `root` as through `fixmap_pte`. */
    lemma FixmapChain(m: map<nat, Table>, root: nat, l4: bool, va: nat)
      requires Layout() && fix.start <= va < fix.start + PMD_SIZE
      requires Frame(m, root)[Index(RootLevel(l4), fix.start)] == Link(FixmapPgdNext(l4))
      requires l4 ==> Frame(m, frames.fixmapPud)[Index(Pud, fix.start)] == Link(frames.fixmapPmd)
      requires Frame(m, frames.fixmapPmd)[Index(Pmd, fix.start)] == Link(frames.fixmapPte)
      ensures Translate(m, root, RootLevel(l4), va) == Translate(m, frames.fixmapPte, Pte, va)
    {
      BlockQuotient(fix.start, va - fix.start);
    }

    /** An offset inside a 2 MiB aligned block keeps the block's PMD, PUD and
        root slots. */
    static lemma BlockQuotient(a: nat, x: nat)
      requires a % 0x20_0000 == 0 && x < 0x20_0000
      ensures (a + x) / 0x20_0000 == a / 0x20_0000
      ensures (a + x) / 0x4000_0000 == a / 0x4000_0000
      ensures (a + x) / 0x80_0000_0000 == a / 0x80_0000_0000
    {
      var q := a / 0x20_0000;
      assert a == q * 0x20_0000;
      var g, s := q / 512, q % 512;
      assert a == g * 0x4000_0000 + s * 0x20_0000;
      assert s * 0x20_0000 + x < 0x4000_0000;
      var t, u := q / 0x4_0000, q % 0x4_0000;
      assert a == t * 0x80_0000_0000 + u * 0x20_0000;
      assert u * 0x20_0000 + x < 0x80_0000_0000;
    }

    /** What `setup_vm` makes reachable: the trampoline when its chain was
        free, `dtb_early_va` through `fixmap_pte` when the window's first slot
        was, and through `early_pg_dir` when the fixmap chain was too. */
    lemma SetupReach(m0: map<nat, Table>, m: map<nat, Table>, l4: bool, po: nat, loadPa: nat, dtbPa: nat, dtbVa: nat)
      requires Layout() && po % PUD_SIZE == 0 && loadPa % PMD_SIZE == 0
      requires dtbVa == FixToVirt(fix.fdt) + dtbPa % PAGE_SIZE
      requires EarlyLinks(m0, m, l4, po, loadPa)
      requires Frame(m, frames.fixmapPte) == FdtTable(Frame(m0, frames.fixmapPte), PfnDown(dtbPa), FdtPages())
      ensures TrampolineFree(m0, l4, po, loadPa) ==>
        ImageTranslates(m, frames.trampolinePgDir, RootLevel(l4), po, loadPa, PMD_SIZE)
      ensures Admits(Frame(m0, frames.fixmapPte), FdtSlot(0), Leaf(PfnDown(dtbPa), PAGE_KERNEL)) ==>
        Translate(m, frames.fixmapPte, Pte, dtbVa) == Maps(dtbPa, PAGE_KERNEL)
      ensures Admits(Frame(m0, frames.fixmapPte), FdtSlot(0), Leaf(PfnDown(dtbPa), PAGE_KERNEL)) && FixmapFree(m0, l4) ==>
        Translate(m, frames.earlyPgDir, RootLevel(l4), dtbVa) == Maps(dtbPa, PAGE_KERNEL)
    {
      if TrampolineFree(m0, l4, po, loadPa) {
        TrampolineReach(m0, m, l4, po, loadPa);
      }
      if Admits(Frame(m0, frames.fixmapPte), FdtSlot(0), Leaf(PfnDown(dtbPa), PAGE_KERNEL)) {
        DtbReach(Frame(m0, frames.fixmapPte), m, dtbPa);
        if FixmapFree(m0, l4) {
          FixSlots(fix.fdt, fix.fdt);
          FixmapChain(m, frames.earlyPgDir, l4, dtbVa);
        }
      }
    }

    /** The fixmap and trampoline links of `setup_vm`: `early_pg_dir` changes
        only in the fixmap's root slot, and only the fixmap and trampoline
        tables besides it. */
    method MapEarlyLinks(loadPa: nat)
      requires Valid() && !mmuEnabled
      modifies this`mem, this`brk
      ensures Valid() && brk == old(brk)
      ensures EarlyLinks(old(mem), mem, l4Enabled, kernelVirtAddr, loadPa)
      ensures forall j :: 0 <= j < PTRS && j != RootSlot(fix.start) ==>
        Frame(mem, frames.earlyPgDir)[j] == old(Frame(mem, frames.earlyPgDir))[j]
      ensures forall x :: x !in {frames.earlyPgDir, frames.fixmapPud, frames.fixmapPmd,
                                 frames.trampolinePgDir, frames.trampolinePud, frames.trampolinePmd} ==>
        Frame(mem, x) == old(Frame(mem, x))
    {
      MapFixmapEarly();
      MapTrampoline(loadPa);
    }

    /** `EarlyLinks` survives writes that leave the fixmap's root slot of
        `early_pg_dir` and the fixmap and trampoline tables alone. */
    lemma LinksKept(m0: map<nat, Table>, m1: map<nat, Table>, m: map<nat, Table>, l4: bool, po: nat, loadPa: nat)
      requires EarlyLinks(m0, m1, l4, po, loadPa)
      requires Frame(m, frames.earlyPgDir)[Index(RootLevel(l4), fix.start)] ==
        Frame(m1, frames.earlyPgDir)[Index(RootLevel(l4), fix.start)]
      requires Frame(m, frames.fixmapPud) == Frame(m1, frames.fixmapPud)
      requires Frame(m, frames.fixmapPmd) == Frame(m1, frames.fixmapPmd)
      requires Frame(m, frames.trampolinePgDir) == Frame(m1, frames.trampolinePgDir)
      requires Frame(m, frames.trampolinePud) == Frame(m1, frames.trampolinePud)
      requires Frame(m, frames.trampolinePmd) == Frame(m1, frames.trampolinePmd)
      ensures EarlyLinks(m0, m, l4, po, loadPa)
    {
    }

    /** The tables `setup_vm` builds once its checks passed: the fixmap and
        trampoline links, the image, and the FDT window. */
    method BuildEarlyTables(dtbPa: nat, loadPa: nat, loadSz: nat)
      requires Valid() && !mmuEnabled && kernelVirtAddr % PUD_SIZE == 0
      requires loadPa % PMD_SIZE == 0 && loadSz <= MAX_EARLY_MAPPING_SIZE
      requires Frame(mem, frames.earlyPgDir)[RootSlot(kernelVirtAddr)] == None
      modifies this`mem, this`brk
      ensures Valid() && brk == old(brk)
      ensures EarlyBuilt(old(mem), mem, l4Enabled, kernelVirtAddr, loadPa, loadSz, dtbPa)
    {
      RootSlotsApart();
      MapEarlyLinks(loadPa);
      ghost var m1 := mem;
      MapImageAndFdt(dtbPa, loadPa, loadSz);
      BuiltFromSteps(old(mem), m1, mem, l4Enabled, kernelVirtAddr, loadPa, loadSz, dtbPa);
    }

    /** The image loop and the FDT loop of `setup_vm`, one after the other:
        they write `early_pg_dir` only in the kernel's root slot, besides it
        only the two early tables and `fixmap_pte`. */
    method MapImageAndFdt(dtbPa: nat, loadPa: nat, loadSz: nat)
      requires Valid() && !mmuEnabled && kernelVirtAddr % PUD_SIZE == 0
      requires loadPa % PMD_SIZE == 0 && loadSz <= MAX_EARLY_MAPPING_SIZE
      requires Frame(mem, frames.earlyPgDir)[RootSlot(kernelVirtAddr)] == None
      modifies this`mem, this`brk
      ensures Valid() && brk == old(brk)
      ensures ImageTranslates(mem, frames.earlyPgDir, RootLevel(l4Enabled), kernelVirtAddr, loadPa, loadSz)
      ensures Frame(mem, frames.fixmapPte) == FdtTable(old(Frame(mem, frames.fixmapPte)), PfnDown(dtbPa), FdtPages())
      ensures forall x :: x !in {frames.earlyPgDir, frames.earlyPud, frames.earlyPmd, frames.fixmapPte} ==>
        Frame(mem, x) == old(Frame(mem, x))
      ensures forall j :: 0 <= j < PTRS && j != RootSlot(kernelVirtAddr) ==>
        Frame(mem, frames.earlyPgDir)[j] == old(Frame(mem, frames.earlyPgDir))[j]
    {
      ghost var n := MapKernel(loadPa, loadSz);
      ghost var mk := mem;
      MapFdt(dtbPa);
      KernelMappedFrame(Cfg(), mk, mem, frames.earlyPgDir, loadPa, n);
      KernelTranslates(Cfg(), mem, frames.earlyPgDir, loadPa, loadSz, n);
    }

    /** The three steps of `BuildEarlyTables` together: links, image, FDT window. */
    lemma BuiltFromSteps(m0: map<nat, Table>, m1: map<nat, Table>, m: map<nat, Table>,
                         l4: bool, po: nat, loadPa: nat, loadSz: nat, dtbPa: nat)
      requires Layout() && Index(RootLevel(l4), fix.start) != Index(RootLevel(l4), po)
      requires EarlyLinks(m0, m1, l4, po, loadPa)
      requires forall j :: 0 <= j < PTRS && j != Index(RootLevel(l4), fix.start) ==>
        Frame(m1, frames.earlyPgDir)[j] == Frame(m0, frames.earlyPgDir)[j]
      requires forall x :: x !in {frames.earlyPgDir, frames.fixmapPud, frames.fixmapPmd,
                                  frames.trampolinePgDir, frames.trampolinePud, frames.trampolinePmd} ==>
        Frame(m1, x) == Frame(m0, x)
      requires ImageTranslates(m, frames.earlyPgDir, RootLevel(l4), po, loadPa, loadSz)
      requires Frame(m, frames.fixmapPte) == FdtTable(Frame(m1, frames.fixmapPte), PfnDown(dtbPa), FdtPages())
      requires forall x :: x !in {frames.earlyPgDir, frames.earlyPud, frames.earlyPmd, frames.fixmapPte} ==>
        Frame(m, x) == Frame(m1, x)
      requires forall j :: 0 <= j < PTRS && j != Index(RootLevel(l4), po) ==>
        Frame(m, frames.earlyPgDir)[j] == Frame(m1, frames.earlyPgDir)[j]
      ensures EarlyBuilt(m0, m, l4, po, loadPa, loadSz, dtbPa)
    {
      LinksKept(m0, m1, m, l4, po, loadPa);
    }

    /** The rest of `setup_vm` once its checks passed: the tables, the saved
        FDT pointer, and what they make reachable. */
    method FinishSetupVm(dtbPa: nat, loadPa: nat, loadSz: nat)
      requires Valid() && !mmuEnabled && kernelVirtAddr % PUD_SIZE == 0
      requires loadPa % PMD_SIZE == 0 && loadSz <= MAX_EARLY_MAPPING_SIZE
      requires Frame(mem, frames.earlyPgDir)[RootSlot(kernelVirtAddr)] == None
      modifies this`mem, this`brk, this`dtbEarlyVa, this`dtbEarlyPa
      ensures Valid() && brk == old(brk)
      ensures EarlyBuilt(old(mem), mem, l4Enabled, kernelVirtAddr, loadPa, loadSz, dtbPa)
      ensures Frame(mem, frames.swapperPgDir) == old(Frame(mem, frames.swapperPgDir))
      ensures dtbEarlyVa == FixToVirt(fix.fdt) + dtbPa % PAGE_SIZE && dtbEarlyPa == dtbPa
      ensures TrampolineFree(old(mem), l4Enabled, kernelVirtAddr, loadPa) ==>
        ImageTranslates(mem, frames.trampolinePgDir, RootLevel(l4Enabled), kernelVirtAddr, loadPa, PMD_SIZE)
      ensures Admits(old(Frame(mem, frames.fixmapPte)), FdtSlot(0), Leaf(PfnDown(dtbPa), PAGE_KERNEL)) ==>
        Translate(mem, frames.fixmapPte, Pte, dtbEarlyVa) == Maps(dtbPa, PAGE_KERNEL)
      ensures Admits(old(Frame(mem, frames.fixmapPte)), FdtSlot(0), Leaf(PfnDown(dtbPa), PAGE_KERNEL)) &&
              FixmapFree(old(mem), l4Enabled) ==>
        Translate(mem, frames.earlyPgDir, RootLevel(l4Enabled), dtbEarlyVa) == Maps(dtbPa, PAGE_KERNEL)
    {
      BuildEarlyTables(dtbPa, loadPa, loadSz);
      SaveDtb(dtbPa);
      SetupReach(old(mem), mem, l4Enabled, kernelVirtAddr, loadPa, dtbPa, dtbEarlyVa);
    }

    /** `setup_vm(dtb_pa)` for an image loaded at `load_pa` (`_start`), of
        `load_sz` bytes (`_end - _start`), whose relocation records are `relas`.
        A failed check halts the boot (`ok` false). Otherwise the general
        allocator is untouched, the tables are those `EarlyBuilt` describes,
        the trampoline maps the image's first 2 MiB when its chain was free,
        and `dtb_early_va` reaches `dtb_pa` when the window's first slot (and,
        through `early_pg_dir`, the fixmap chain) was free. */
    method SetupVm(dtbPa: nat, loadPa: nat, loadSz: nat, relas: seq<Rela>) returns (ok: bool)
      requires Valid() && !mmuEnabled && ValidRelas(relas)
      requires Frame(mem, frames.earlyPgDir)[RootSlot(kernelVirtAddr)] == None
      modifies this`mem, this`brk, this`vaPaOffset, this`pfnBase, this`image, this`dtbEarlyVa, this`dtbEarlyPa
      ensures ok <==> SetupAccepts(kernelVirtAddr, l4Enabled, loadPa, loadSz)
      ensures vaPaOffset == Sub64(kernelVirtAddr, loadPa) && pfnBase == PfnDown(loadPa)
      ensures ok ==> Valid() && brk == old(brk) && image == ApplyRelocs(old(image), relas, linkAddr, kernelVirtAddr, loadPa)
      ensures ok ==> EarlyBuilt(old(mem), mem, l4Enabled, kernelVirtAddr, loadPa, loadSz, dtbPa)
      ensures ok ==> Frame(mem, frames.swapperPgDir) == old(Frame(mem, frames.swapperPgDir))
      ensures ok ==> dtbEarlyVa == FixToVirt(fix.fdt) + dtbPa % PAGE_SIZE && dtbEarlyPa == dtbPa
      ensures ok && TrampolineFree(old(mem), l4Enabled, kernelVirtAddr, loadPa) ==>
        ImageTranslates(mem, frames.trampolinePgDir, RootLevel(l4Enabled), kernelVirtAddr, loadPa, PMD_SIZE)
      ensures ok && Admits(old(Frame(mem, frames.fixmapPte)), FdtSlot(0), Leaf(PfnDown(dtbPa), PAGE_KERNEL)) ==>
        Translate(mem, frames.fixmapPte, Pte, dtbEarlyVa) == Maps(dtbPa, PAGE_KERNEL)
      ensures ok && Admits(old(Frame(mem, frames.fixmapPte)), FdtSlot(0), Leaf(PfnDown(dtbPa), PAGE_KERNEL)) &&
              FixmapFree(old(mem), l4Enabled) ==>
        Translate(mem, frames.earlyPgDir, RootLevel(l4Enabled), dtbEarlyVa) == Maps(dtbPa, PAGE_KERNEL)
    {
      ok := CheckAndRelocate(loadPa, loadSz, relas);
      if ok {
        FinishSetupVm(dtbPa, loadPa, loadSz);
      }
    }

    /** The part of `setup_vm` before the tables: the offsets, the gigabyte
        check, `relocate_kernel`, and the alignment and size checks. */
    method CheckAndRelocate(loadPa: nat, loadSz: nat, relas: seq<Rela>) returns (ok: bool)
      requires Valid() && ValidRelas(relas)
      modifies this`vaPaOffset, this`pfnBase, this`image
      ensures ok <==> SetupAccepts(kernelVirtAddr, l4Enabled, loadPa, loadSz)
      ensures vaPaOffset == Sub64(kernelVirtAddr, loadPa) && pfnBase == PfnDown(loadPa)
      ensures ok ==> image == ApplyRelocs(old(image), relas, linkAddr, kernelVirtAddr, loadPa)
      ensures ok ==> kernelVirtAddr % PUD_SIZE == 0 && loadPa % PMD_SIZE == 0 && loadSz <= MAX_EARLY_MAPPING_SIZE
    {
      vaPaOffset := Sub64(kernelVirtAddr, loadPa);
      pfnBase := PfnDown(loadPa);
      if PUD_SIZE - kernelVirtAddr % PUD_SIZE < loadSz {
        return false;
      }
      RelocateKernel(relas, loadPa);
      var mapSize := BestMapSize(loadPa, MAX_EARLY_MAPPING_SIZE);
      if mapSize == PAGE_SIZE || linkAddr % PgdirSize(l4Enabled) != 0 || loadPa % mapSize != 0 ||
         loadSz > MAX_EARLY_MAPPING_SIZE {
        return false;
      }
      SetupAcceptsIff(loadPa, loadSz);
      return true;
    }

    /** The last step of `setup_vm`: the FDT pointer for early parsing is the
        FDT window's virtual address plus the offset of `dtb_pa` in its page,
        and the physical address is kept for the memblock reservation. What
        this pointer reaches is stated on `SetupVm`. */
    method SaveDtb(dtbPa: nat)
      requires Valid()
      modifies this`dtbEarlyVa, this`dtbEarlyPa
      ensures Valid()
      ensures dtbEarlyVa == FixToVirt(fix.fdt) + dtbPa % PAGE_SIZE && dtbEarlyPa == dtbPa
    {
      dtbEarlyVa := FixToVirt(fix.fdt) + dtbPa % PAGE_SIZE;
      dtbEarlyPa := dtbPa;
    }

    /** The tables `setup_vm_fold_pud` hands to `setup_vm`: both roots zeroed. */
    function FoldCleared(m: map<nat, Table>): map<nat, Table>
    {
      m[frames.trampolinePgDir := Zeros()][frames.earlyPgDir := Zeros()]
    }

    /** Zeroing the roots frees their slots and touches no other table. */
    lemma FoldClearedFree(m: map<nat, Table>, loadPa: nat)
      requires Layout()
      ensures forall x :: x != frames.trampolinePgDir && x != frames.earlyPgDir ==> Frame(FoldCleared(m), x) == Frame(m, x)
      ensures Admits(Frame(m, frames.trampolinePmd), Index(Pmd, PAGE_OFFSET_L3), Leaf(PfnDown(loadPa), PAGE_KERNEL_EXEC)) ==>
        TrampolineFree(FoldCleared(m), false, PAGE_OFFSET_L3, loadPa)
      ensures Admits(Frame(m, frames.fixmapPmd), Index(Pmd, fix.start), Link(frames.fixmapPte)) ==>
        FixmapFree(FoldCleared(m), false)
    {
    }

    /** `setup_vm_fold_pud`: the fall-back to Sv39 when the hardware has no
        Sv48. Three levels, the Sv39 kernel base and mode, and `setup_vm` run
        again for the saved FDT on the tables with both roots zeroed; so the
        trampoline is in place once its PMD slot was free, and the FDT pointer
        reaches the FDT once its first window slot (and, through
        `early_pg_dir`, the fixmap PMD slot) was. `img0` is the image before
        the first relocation pass; the second pass leaves it as if relocated
        once, for the Sv39 base. */
    method FoldPud(loadPa: nat, loadSz: nat, relas: seq<Rela>, ghost img0: Image) returns (ok: bool)
      requires Valid() && !mmuEnabled && ValidRelas(relas)
      requires image == ApplyRelocs(img0, relas, linkAddr, kernelVirtAddr, loadPa)
      modifies this`l4Enabled, this`kernelVirtAddr, this`satpMode, this`mem, this`brk, this`vaPaOffset,
               this`pfnBase, this`image, this`dtbEarlyVa, this`dtbEarlyPa
      ensures !l4Enabled && kernelVirtAddr == PAGE_OFFSET_L3 && satpMode == SATP_MODE_39
      ensures ok <==> SetupAccepts(kernelVirtAddr, l4Enabled, loadPa, loadSz)
      ensures ok ==> Valid() && brk == old(brk) && image == ApplyRelocs(img0, relas, linkAddr, PAGE_OFFSET_L3, loadPa)
      ensures ok ==> EarlyBuilt(FoldCleared(old(mem)), mem, false, PAGE_OFFSET_L3, loadPa, loadSz, old(dtbEarlyPa))
      ensures ok ==> forall x :: x !in SetupFrames() ==> Frame(mem, x) == old(Frame(mem, x))
      ensures ok ==> dtbEarlyPa == old(dtbEarlyPa)
      ensures ok && Admits(old(Frame(mem, frames.trampolinePmd)), Index(Pmd, PAGE_OFFSET_L3), Leaf(PfnDown(loadPa), PAGE_KERNEL_EXEC)) ==>
        ImageTranslates(mem, frames.trampolinePgDir, Pud, PAGE_OFFSET_L3, loadPa, PMD_SIZE)
      ensures ok && Admits(old(Frame(mem, frames.fixmapPte)), FdtSlot(0), Leaf(PfnDown(old(dtbEarlyPa)), PAGE_KERNEL)) ==>
        Translate(mem, frames.fixmapPte, Pte, dtbEarlyVa) == Maps(old(dtbEarlyPa), PAGE_KERNEL)
      ensures ok && Admits(old(Frame(mem, frames.fixmapPte)), FdtSlot(0), Leaf(PfnDown(old(dtbEarlyPa)), PAGE_KERNEL)) &&
              Admits(old(Frame(mem, frames.fixmapPmd)), Index(Pmd, fix.start), Link(frames.fixmapPte)) ==>
        Translate(mem, frames.earlyPgDir, Pud, dtbEarlyVa) == Maps(old(dtbEarlyPa), PAGE_KERNEL)
    {
      ghost var po1 := kernelVirtAddr;
      FoldClearedFree(mem, loadPa);
      l4Enabled := false;
      kernelVirtAddr := PAGE_OFFSET_L3;
      satpMode := SATP_MODE_39;
      mem := mem[frames.trampolinePgDir := Zeros()][frames.earlyPgDir := Zeros()];
      ok := SetupVm(dtbEarlyPa, loadPa, loadSz, relas);
      if ok {
        RelocateTwice(img0, relas, linkAddr, po1, PAGE_OFFSET_L3, loadPa);
      }
    }

    /** The fixmap chain of the final root: link `FIXADDR_START` in the final root
        to the fixmap tables built during `setup_vm`. */
    method LinkSwapperFixmap()
      requires Valid()
      modifies this`mem, this`brk
      ensures Valid() && brk == old(brk)
      ensures mem == old(mem)[frames.swapperPgDir :=
        SetIfNone(old(Frame(mem, frames.swapperPgDir)), RootSlot(fix.start), Link(FixmapPgdNext(l4Enabled)))]
    {
      LinkRootSlot(frames.swapperPgDir, fix.start, FixmapPgdNext(l4Enabled));
    }

    /** One turn of the inner loop of `setup_vm_final`: the block at `pa`
        mapped at `__va(pa)` in `swapper_pg_dir`. */
    method MapRequest(va: nat, pa: nat, sz: nat, ghost c: Config, ghost h0: Heap, ghost done: seq<Req>)
      requires Cfg() == c && c.mmu && (sz == PAGE_SIZE || sz == PMD_SIZE) && va == VaOf(pa, vaPaOffset)
      requires MapAll(c, h0, frames.swapperPgDir, done, vaPaOffset) == Ok(HeapOf())
      modifies this`mem, this`brk
      ensures MapAll(c, h0, frames.swapperPgDir, done + [Req(pa, sz)], vaPaOffset) == Ok(HeapOf())
    {
      ghost var prev := HeapOf();
      MapAllNext(c, h0, frames.swapperPgDir, done, Req(pa, sz), vaPaOffset, prev);
      InsertHaltsIff(c, prev, RootLevel(c.l4), frames.swapperPgDir, va, pa, sz, PAGE_KERNEL_EXEC);
      var ok := CreatePgdMapping(frames.swapperPgDir, va, pa, sz, PAGE_KERNEL_EXEC);
    }

    /** The inner loop: `for (pa = start; pa < end; pa += map_size)`. */
    method MapRange(start: nat, end: nat, sz: nat, ghost c: Config, ghost h0: Heap, ghost done: seq<Req>)
      requires Cfg() == c && c.mmu && (sz == PAGE_SIZE || sz == PMD_SIZE)
      requires MapAll(c, h0, frames.swapperPgDir, done, vaPaOffset) == Ok(HeapOf())
      modifies this`mem, this`brk
      ensures MapAll(c, h0, frames.swapperPgDir, done + Steps(start, end, sz), vaPaOffset) == Ok(HeapOf())
    {
      var pa := start;
      ghost var cur := done;
      while pa < end
        invariant Cfg() == c && cur + Steps(pa, end, sz) == done + Steps(start, end, sz)
        invariant MapAll(c, h0, frames.swapperPgDir, cur, vaPaOffset) == Ok(HeapOf())
        decreases end - pa
      {
        var va := VaOf(pa, vaPaOffset);
        MapRequest(va, pa, sz, c, h0, cur);
        StepsFront(cur, pa, end, sz);
        cur := cur + [Req(pa, sz)];
        pa := pa + sz;
      }
      assert cur + Steps(pa, end, sz) == cur;
    }

    /** The body of the outer loop for a region that is neither empty nor
        nomap: raise its start to the kernel's physical base when it holds
        it, pick one block size for the whole range, and map the range. */
    method MapRegion(start: nat, end: nat, kernPa: nat, ghost r: Region, ghost c: Config, ghost h0: Heap, ghost done: seq<Req>)
      requires start == r.base && end == End(r) && Cfg() == c && c.mmu
      requires MapAll(c, h0, frames.swapperPgDir, done, vaPaOffset) == Ok(HeapOf())
      modifies this`mem, this`brk
      ensures MapAll(c, h0, frames.swapperPgDir, done + RegionRequests(r, kernPa), vaPaOffset) == Ok(HeapOf())
    {
      var pa := start;
      if start <= kernPa && kernPa < end {
        pa := kernPa;
      }
      var mapSize := BestMapSize(pa, end - pa);
      assert pa == RegionStart(r, kernPa) && mapSize == RegionMapSize(r, kernPa);
      ghost var reqs := Steps(pa, end, mapSize);
      assert reqs == RegionRequests(r, kernPa);
      MapRange(pa, end, mapSize, c, h0, done);
    }

    /** Every memory bank into the final root: the outer loop over the memory regions, which
        stops at the first empty one and skips those flagged nomap. */
    method MapRegions(regions: seq<Region>, kernPa: nat)
      requires mmuEnabled
      modifies this`mem, this`brk
      ensures MapAll(Cfg(), old(HeapOf()), frames.swapperPgDir, WalkRegions(regions, kernPa), vaPaOffset) == Ok(HeapOf())
    {
      ghost var c, h0 := Cfg(), HeapOf();
      ghost var done: seq<Req> := [];
      var k := 0;
      while k < |regions|
        invariant k <= |regions| && Cfg() == c
        invariant done + WalkRegions(regions[k..], kernPa) == WalkRegions(regions, kernPa)
        invariant MapAll(c, h0, frames.swapperPgDir, done, vaPaOffset) == Ok(HeapOf())
      {
        WalkFront(done, regions, k, kernPa);
        var start := regions[k].base;
        var end := start + regions[k].size;
        if start >= end {
          break;
        }
        if regions[k].nomap {
          k := k + 1;
          continue;
        }
        MapRegion(start, end, kernPa, regions[k], c, h0, done);
        done := done + RegionRequests(regions[k], kernPa);
        k := k + 1;
      }
      if k == |regions| {
        WalkEnd(done, regions, kernPa);
      }
    }
  
    /** The tables after `clear_fixmap(FIX_PTE)`, `clear_fixmap(FIX_PMD)` and
        `clear_fixmap(FIX_PUD)`. */
    function ClearedFixmap(m: map<nat, Table>): map<nat, Table>
    {
      FixmapAfter(FixmapAfter(FixmapAfter(m, fix.pte, 0, 0), fix.pmd, 0, 0), fix.pud, 0, 0)
    }

    /** Clearing the three fixmap pages used to reach new tables empties their
        slots and leaves every other slot and every other table alone. */
    lemma ClearedFixmapSlots(m: map<nat, Table>)
      requires Layout()
      ensures forall x :: x != frames.fixmapPte ==> Frame(ClearedFixmap(m), x) == Frame(m, x)
      ensures Frame(ClearedFixmap(m), frames.fixmapPte)[FixSlot(fix.pte)] == None
      ensures Frame(ClearedFixmap(m), frames.fixmapPte)[FixSlot(fix.pmd)] == None
      ensures Frame(ClearedFixmap(m), frames.fixmapPte)[FixSlot(fix.pud)] == None
      ensures forall j :: FIX_HOLE < j < fix.endOfFixed && j != fix.pte && j != fix.pmd && j != fix.pud ==>
        Frame(ClearedFixmap(m), frames.fixmapPte)[FixSlot(j)] == Frame(m, frames.fixmapPte)[FixSlot(j)]
    {
      var m1 := FixmapAfter(m, fix.pte, 0, 0);
      var m2 := FixmapAfter(m1, fix.pmd, 0, 0);
      FixmapOthers(m, fix.pte, 0, 0);
      FixmapOthers(m1, fix.pmd, 0, 0);
      FixmapOthers(m2, fix.pud, 0, 0);
    }

    /** Unmap the three fixmap pages that gave access to new tables. */
    method ClearFixmap()
      requires Valid()
      modifies this`mem, this`events
      ensures Valid() && mem == ClearedFixmap(old(mem))
      ensures events == old(events) + [FlushPage(FixToVirt(fix.pte)), FlushPage(FixToVirt(fix.pmd)), FlushPage(FixToVirt(fix.pud))]
    {
      var ok := SetFixmap(fix.pte, 0, 0);
      ok := SetFixmap(fix.pmd, 0, 0);
      ok := SetFixmap(fix.pud, 0, 0);
    }

    /** The switch to the final root: `satp` gets the frame number of
        `swapper_pg_dir` with the mode bits above it, then the whole TLB is
        flushed. */
    method SwitchToSwapper()
      requires Valid()
      modifies this`events
      ensures Valid() && events == old(events) + [WriteSatp(frames.swapperPgDir + satpMode), FlushAll]
    {
      events := events + [WriteSatp(frames.swapperPgDir + satpMode), FlushAll];
    }

    /** The tables and cursor of `setup_vm_final`'s region walk, with the MMU
        on and `va_pa_offset` `vpo`, started from tables `m` and cursor `b`
        once the fixmap link is in the final root. */
    ghost function FinalWalk(l4: bool, po: nat, vpo: nat, m: map<nat, Table>, b: nat, regions: seq<Region>, kernPa: nat): Result<Heap>
    {
      var root := frames.swapperPgDir;
      var next := FixmapPgdNext(l4);
      var linked := m[root := SetIfNone(Frame(m, root), Index(RootLevel(l4), fix.start), Link(next))];
      MapAll(Config(true, l4, po, frames.earlyPmd, frames.earlyPud), Heap(linked, b),
             root, WalkRegions(regions, kernPa), vpo)
    }

    /** The region walk keeps the static tables and raises the cursor only. */
    lemma WalkKeepsStatics(c: Config, h1: Heap, h: Heap, regions: seq<Region>, kernPa: nat, vpo: nat)
      requires c.mmu && Present(frames, h1.mem) && AllBelow(frames, h1.brk) && HeapOk(h1)
      requires MapAll(c, h1, frames.swapperPgDir, WalkRegions(regions, kernPa), vpo) == Ok(h)
      ensures Present(frames, h.mem) && AllBelow(frames, h.brk) && h1.brk <= h.brk
    {
      MapAllKeepsFilled(c, h1, frames.swapperPgDir, WalkRegions(regions, kernPa), vpo);
      StaticsStay(frames, h1.mem, h1.brk, h.mem, h.brk);
    }

    /** What `setup_vm_final` leaves in the tables: the walk never halts, the
        fixmap link of the final root survives it (or whatever the slot held
        before, which the first write keeps), and the three fixmap pages used
        to reach new tables are unmapped. */
    lemma FinalTables(l4: bool, po: nat, vpo: nat, m: map<nat, Table>, b: nat, regions: seq<Region>, kernPa: nat)
      requires Layout() && HeapOk(Heap(m, b)) && frames.swapperPgDir in m
      ensures FinalWalk(l4, po, vpo, m, b, regions, kernPa).Ok?
      ensures var m' := ClearedFixmap(FinalWalk(l4, po, vpo, m, b, regions, kernPa).value.mem);
        Frame(m', frames.swapperPgDir)[Index(RootLevel(l4), fix.start)] ==
          FirstWins(m[frames.swapperPgDir][Index(RootLevel(l4), fix.start)], Link(FixmapPgdNext(l4))) &&
        Frame(m', frames.fixmapPte)[FixSlot(fix.pte)] == None &&
        Frame(m', frames.fixmapPte)[FixSlot(fix.pmd)] == None &&
        Frame(m', frames.fixmapPte)[FixSlot(fix.pud)] == None
    {
      var c := Config(true, l4, po, frames.earlyPmd, frames.earlyPud);
      var root := frames.swapperPgDir;
      var slot := Index(RootLevel(l4), fix.start);
      var linked := m[root := SetIfNone(Frame(m, root), slot, Link(FixmapPgdNext(l4)))];
      var h1 := Heap(linked, b);
      assert HeapOk(h1);
      WalkSizes(regions, kernPa);
      MapAllOk(c, h1, root, WalkRegions(regions, kernPa), vpo);
      MapAllKeepsFilled(c, h1, root, WalkRegions(regions, kernPa), vpo);
      var w := MapAll(c, h1, root, WalkRegions(regions, kernPa), vpo).value.mem;
      assert Frame(w, root)[slot] == linked[root][slot];
      ClearedFixmapSlots(w);
    }

    /** The first three steps of `setup_vm_final`: set `mmu_enabled`, put the
        fixmap link in `swapper_pg_dir`, then walk the regions. */
    method BuildSwapper(regions: seq<Region>, kernPa: nat)
      requires Valid() && HeapOk(HeapOf())
      modifies this`mmuEnabled, this`mem, this`brk
      ensures Valid() && mmuEnabled && old(brk) <= brk
      ensures FinalWalk(l4Enabled, kernelVirtAddr, vaPaOffset, old(mem), old(brk), regions, kernPa) == Ok(HeapOf())
    {
      mmuEnabled := true;
      LinkSwapperFixmap();
      ghost var h1 := HeapOf();
      assert HeapOk(h1);
      MapRegions(regions, kernPa);
      WalkKeepsStatics(Cfg(), h1, HeapOf(), regions, kernPa, vaPaOffset);
    }

    /** `setup_vm_final()`: with the MMU on, build `swapper_pg_dir` (the
        fixmap link, then the region walk), unmap the fixmap pages, and switch
        `satp` to the new root. */
    method SetupVmFinal(regions: seq<Region>, kernPa: nat)
      requires Valid() && HeapOk(HeapOf())
      modifies this`mmuEnabled, this`mem, this`brk, this`events
      ensures Valid() && mmuEnabled && old(brk) <= brk
      ensures FinalWalk(l4Enabled, kernelVirtAddr, vaPaOffset, old(mem), old(brk), regions, kernPa).Ok?
      ensures mem == ClearedFixmap(FinalWalk(l4Enabled, kernelVirtAddr, vaPaOffset, old(mem), old(brk), regions, kernPa).value.mem)
      ensures brk == FinalWalk(l4Enabled, kernelVirtAddr, vaPaOffset, old(mem), old(brk), regions, kernPa).value.brk
      ensures events == old(events) + [FlushPage(FixToVirt(fix.pte)), FlushPage(FixToVirt(fix.pmd)),
        FlushPage(FixToVirt(fix.pud)), WriteSatp(frames.swapperPgDir + satpMode), FlushAll]
    {
      BuildSwapper(regions, kernPa);
      ClearFixmap();
      SwitchToSwapper();
    }
  }
}
