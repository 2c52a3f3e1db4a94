/** The region walk of `setup_vm_final`: which (physical address, block size)
    mappings it requests for the memory regions reported by memblock, and the
    tables that result from inserting them one after another. */
module Regions {
  import opened PgTable
  import opened Mapping
  import opened MappingFacts
  import opened Granularity

  /** Physical addresses of Sv39 and Sv48 are at most 56 bits wide. */
  const PA_LIMIT: nat := 0x100_0000_0000_0000

  /** One `struct memblock_region` of the memory list: base, size and whether
      it carries the "do not map" flag (`memblock_is_nomap`). */
  datatype Region = Region(base: nat, size: nat, nomap: bool)

  predicate ValidRegions(rs: seq<Region>)
  {
    forall k :: 0 <= k < |rs| ==> rs[k].base + rs[k].size <= PA_LIMIT
  }

  function End(r: Region): nat
  {
    r.base + r.size
  }

  /** `start >= end`: the walk stops at the first such region. */
  predicate Empty(r: Region)
  {
    r.base >= End(r)
  }

  /** The start of the mapped range: raised to `kernPa` (`__pa_symbol(PAGE_OFFSET)`)
      when the region contains it, so that no mapping begins below the kernel. */
  function RegionStart(r: Region, kernPa: nat): (s: nat)
    ensures r.base <= s
    ensures r.base <= kernPa < End(r) ==> s == kernPa
  {
    if r.base <= kernPa && kernPa < End(r) then kernPa else r.base
  }

  /** The block size used throughout one region. */
  function RegionMapSize(r: Region, kernPa: nat): nat
  {
    var s := RegionStart(r, kernPa);
    BestMapSize(s, End(r) - s)
  }

  /** A request to map physical address `pa` with block size `sz`. */
  datatype Req = Req(pa: nat, sz: nat)

  /** `for (pa = start; pa < end; pa += map_size)`. */
  function Steps(pa: nat, end: nat, sz: nat): seq<Req>
    requires sz > 0
    decreases end - pa
  {
    if pa >= end then [] else [Req(pa, sz)] + Steps(pa + sz, end, sz)
  }

  function RegionRequests(r: Region, kernPa: nat): seq<Req>
  {
    Steps(RegionStart(r, kernPa), End(r), RegionMapSize(r, kernPa))
  }

  /** `for_each_memblock(memory, reg)` with its `break` and `continue`. */
  function WalkRegions(rs: seq<Region>, kernPa: nat): seq<Req>
    decreases |rs|
  {
    if rs == [] then []
    else if Empty(rs[0]) then []
    else if rs[0].nomap then WalkRegions(rs[1..], kernPa)
    else RegionRequests(rs[0], kernPa) + WalkRegions(rs[1..], kernPa)
  }

  /** The walk from region `k` on, one region at a time: with `done` the
      requests of the regions before `k`, what the turn for region `k` leaves
      still matches the whole walk. */
  lemma WalkFront(done: seq<Req>, rs: seq<Region>, k: nat, kernPa: nat)
    requires k < |rs| && done + WalkRegions(rs[k..], kernPa) == WalkRegions(rs, kernPa)
    ensures Empty(rs[k]) ==> done == WalkRegions(rs, kernPa)
    ensures !Empty(rs[k]) && rs[k].nomap ==> done + WalkRegions(rs[k + 1..], kernPa) == WalkRegions(rs, kernPa)
    ensures !Empty(rs[k]) && !rs[k].nomap ==>
      (done + RegionRequests(rs[k], kernPa)) + WalkRegions(rs[k + 1..], kernPa) == WalkRegions(rs, kernPa)
  {
    assert rs[k..][0] == rs[k] && rs[k..][1..] == rs[k + 1..];
    if Empty(rs[k]) {
      assert done + [] == done;
    }
  }

  /** Once every region was seen, the requests gathered are the whole walk. */
  lemma WalkEnd(done: seq<Req>, rs: seq<Region>, kernPa: nat)
    requires done + WalkRegions(rs[|rs|..], kernPa) == WalkRegions(rs, kernPa)
    ensures done == WalkRegions(rs, kernPa)
  {
    assert rs[|rs|..] == [];
    assert done + [] == done;
  }

  /** `k` is a region the walk reaches (no empty region before it, and not
      itself empty) and maps (it is not flagged nomap). */
  predicate Mapped(rs: seq<Region>, k: nat)
  {
    k < |rs| && (forall j :: 0 <= j <= k ==> !Empty(rs[j])) && !rs[k].nomap
  }

  lemma ModShift(x: nat, sz: nat)
    requires sz == PAGE_SIZE || sz == PMD_SIZE
    ensures (x + sz) % sz == x % sz
  {
    if sz == PAGE_SIZE {
      assert (x + 0x1000) % 0x1000 == x % 0x1000;
    } else {
      assert (x + 0x20_0000) % 0x20_0000 == x % 0x20_0000;
    }
  }

  /** Taking the first step off the front of a region's steps. */
  lemma StepsFront(done: seq<Req>, pa: nat, end: nat, sz: nat)
    requires sz > 0 && pa < end
    ensures done + Steps(pa, end, sz) == (done + [Req(pa, sz)]) + Steps(pa + sz, end, sz)
  {
  }

  /** Each step of a region lies in `[start, end)` on the grid of its size. */
  lemma {:induction false} StepsInRange(pa: nat, end: nat, sz: nat)
    requires sz == PAGE_SIZE || sz == PMD_SIZE
    ensures forall q :: q in Steps(pa, end, sz) ==> pa <= q.pa < end && q.sz == sz && (q.pa - pa) % sz == 0
    decreases end - pa
  {
    if pa < end {
      StepsInRange(pa + sz, end, sz);
      forall q | q in Steps(pa + sz, end, sz) ensures (q.pa - pa) % sz == 0 {
        ModShift(q.pa - (pa + sz), sz);
      }
    }
  }

  /** The steps of a region cover every address of `[start, end)`. */
  lemma {:induction false} StepsCover(pa: nat, end: nat, sz: nat, p: nat)
    requires sz > 0 && pa <= p < end
    ensures exists q :: q in Steps(pa, end, sz) && q.pa <= p < q.pa + sz
    decreases end - pa
  {
    if p >= pa + sz {
      StepsCover(pa + sz, end, sz, p);
      var q :| q in Steps(pa + sz, end, sz) && q.pa <= p < q.pa + sz;
      assert q in Steps(pa, end, sz);
    } else {
      assert Steps(pa, end, sz)[0] == Req(pa, sz);
    }
  }

  /** Every request of the walk comes from a region it reaches and maps, lies
      in that region at or above its (possibly raised) start, is aligned to
      the region's block size from that start, and uses that block size. */
  lemma {:induction false} WalkRequestsInRegions(rs: seq<Region>, kernPa: nat)
    ensures forall q :: q in WalkRegions(rs, kernPa) ==>
      exists k: nat :: Mapped(rs, k) && RegionStart(rs[k], kernPa) <= q.pa < End(rs[k]) &&
        q.sz == RegionMapSize(rs[k], kernPa) && (q.pa - RegionStart(rs[k], kernPa)) % q.sz == 0
    decreases |rs|
  {
    if rs != [] && !Empty(rs[0]) {
      WalkRequestsInRegions(rs[1..], kernPa);
      var r := rs[0];
      StepsInRange(RegionStart(r, kernPa), End(r), RegionMapSize(r, kernPa));
      forall q | q in WalkRegions(rs, kernPa)
        ensures exists k: nat :: Mapped(rs, k) && RegionStart(rs[k], kernPa) <= q.pa < End(rs[k]) &&
                  q.sz == RegionMapSize(rs[k], kernPa) && (q.pa - RegionStart(rs[k], kernPa)) % q.sz == 0
      {
        if !r.nomap && q in RegionRequests(r, kernPa) {
          assert Mapped(rs, 0);
        } else {
          assert q in WalkRegions(rs[1..], kernPa);
          var k: nat :| Mapped(rs[1..], k) && RegionStart(rs[1..][k], kernPa) <= q.pa < End(rs[1..][k]) &&
            q.sz == RegionMapSize(rs[1..][k], kernPa) && (q.pa - RegionStart(rs[1..][k], kernPa)) % q.sz == 0;
          assert rs[k + 1] == rs[1..][k];
          assert Mapped(rs, k + 1);
        }
      }
    }
  }

  /** Every address of every region the walk reaches and maps, from its
      (possibly raised) start to its end, is covered by one request. */
  lemma {:induction false} WalkCoversRegions(rs: seq<Region>, kernPa: nat, k: nat, p: nat)
    requires Mapped(rs, k)
    requires RegionStart(rs[k], kernPa) <= p < End(rs[k])
    ensures exists q :: q in WalkRegions(rs, kernPa) && q.pa <= p < q.pa + q.sz
    decreases |rs|
  {
    var r := rs[0];
    if k == 0 {
      StepsCover(RegionStart(r, kernPa), End(r), RegionMapSize(r, kernPa), p);
      StepsInRange(RegionStart(r, kernPa), End(r), RegionMapSize(r, kernPa));
      var q :| q in RegionRequests(r, kernPa) && q.pa <= p < q.pa + RegionMapSize(r, kernPa);
      assert q in WalkRegions(rs, kernPa);
    } else {
      assert Mapped(rs[1..], k - 1);
      WalkCoversRegions(rs[1..], kernPa, k - 1, p);
      var q :| q in WalkRegions(rs[1..], kernPa) && q.pa <= p < q.pa + q.sz;
      assert q in WalkRegions(rs, kernPa);
    }
  }

  /** The block sizes the walk requests are the base page and the megapage. */
  lemma WalkSizes(rs: seq<Region>, kernPa: nat)
    ensures forall q :: q in WalkRegions(rs, kernPa) ==> q.sz == PAGE_SIZE || q.sz == PMD_SIZE
  {
    WalkRequestsInRegions(rs, kernPa);
  }

  /** `__va(pa)`: `pa + va_pa_offset` on `uintptr_t`. */
  function VaOf(pa: nat, vaPaOffset: nat): nat
  {
    (pa + vaPaOffset) % WORD
  }

  /** The tables after inserting the requests in order into the root `root`
      (`create_pgd_mapping(swapper_pg_dir, __va(pa), pa, map_size,
      PAGE_KERNEL_EXEC)` for each), or `Bug` if one of them halts. */
  function MapAll(c: Config, h: Heap, root: nat, reqs: seq<Req>, vaPaOffset: nat): Result<Heap>
    decreases |reqs|
  {
    if reqs == [] then Ok(h)
    else match MapAll(c, h, root, reqs[..|reqs| - 1], vaPaOffset)
      case Ok(prev) =>
        var q := reqs[|reqs| - 1];
        InsertPgd(c, prev, root, VaOf(q.pa, vaPaOffset), q.pa, q.sz, PAGE_KERNEL_EXEC)
      case Bug => Bug
  }

  /** One more request is one more insertion on top of the tables so far. */
  lemma MapAllNext(c: Config, h: Heap, root: nat, done: seq<Req>, q: Req, vaPaOffset: nat, prev: Heap)
    requires MapAll(c, h, root, done, vaPaOffset) == Ok(prev)
    ensures MapAll(c, h, root, done + [q], vaPaOffset) ==
      InsertPgd(c, prev, root, VaOf(q.pa, vaPaOffset), q.pa, q.sz, PAGE_KERNEL_EXEC)
  {
    assert (done + [q])[..|done|] == done;
  }

  /** With the MMU on, requests for base pages and megapages never halt: every
      allocation succeeds and the root reaches both levels. */
  lemma {:induction false} MapAllOk(c: Config, h: Heap, root: nat, reqs: seq<Req>, vaPaOffset: nat)
    requires c.mmu
    requires forall q :: q in reqs ==> q.sz == PAGE_SIZE || q.sz == PMD_SIZE
    ensures MapAll(c, h, root, reqs, vaPaOffset).Ok?
    decreases |reqs|
  {
    if reqs != [] {
      var init := reqs[..|reqs| - 1];
      assert forall q :: q in init ==> q in reqs;
      MapAllOk(c, h, root, init, vaPaOffset);
      var q := reqs[|reqs| - 1];
      InsertHaltsIff(c, MapAll(c, h, root, init, vaPaOffset).value, RootLevel(c.l4), root,
                     VaOf(q.pa, vaPaOffset), q.pa, q.sz, PAGE_KERNEL_EXEC);
    }
  }

  /** The region walk only adds tables, only advances the allocator, and never
      overwrites an entry that was already filled in a table that existed
      before it; in particular the fixmap link installed in the root just
      before the walk survives it. */
  lemma {:induction false} MapAllKeepsFilled(c: Config, h: Heap, root: nat, reqs: seq<Req>, vaPaOffset: nat)
    requires c.mmu && HeapOk(h)
    requires MapAll(c, h, root, reqs, vaPaOffset).Ok?
    ensures h.brk <= MapAll(c, h, root, reqs, vaPaOffset).value.brk
    ensures h.mem.Keys <= MapAll(c, h, root, reqs, vaPaOffset).value.mem.Keys
    ensures forall f, j :: f in h.mem && 0 <= j < PTRS && h.mem[f][j] != None ==>
      Frame(MapAll(c, h, root, reqs, vaPaOffset).value.mem, f)[j] == h.mem[f][j]
    decreases |reqs|
  {
    if reqs != [] {
      var init := reqs[..|reqs| - 1];
      var prev := MapAll(c, h, root, init, vaPaOffset).value;
      MapAllKeepsFilled(c, h, root, init, vaPaOffset);
      var q := reqs[|reqs| - 1];
      KeepsFilled(c, prev, RootLevel(c.l4), root, VaOf(q.pa, vaPaOffset), q.pa, q.sz, PAGE_KERNEL_EXEC, h.mem.Keys);
      InsertGrows(c, prev, RootLevel(c.l4), root, VaOf(q.pa, vaPaOffset), q.pa, q.sz, PAGE_KERNEL_EXEC);
    }
  }
}
