/** Page-table vocabulary of the RISC-V Sv39/Sv48 schemes (sections 4.4 and 4.5 of
    the RISC-V Privileged Architecture, v1.12): page and block sizes, table entries,
    translation levels, and the indexing of a virtual address at each level. */
module PgTable {

  const PAGE_SHIFT: nat := 12
  const PAGE_SIZE: nat := 0x1000          // 4 KiB base page
  const PMD_SIZE: nat := 0x20_0000        // 2 MiB megapage
  const PUD_SIZE: nat := 0x4000_0000      // 1 GiB gigapage
  const P4D_SIZE: nat := 0x80_0000_0000   // 512 GiB terapage (root level of Sv48)

  /** Entries per table at every level: a table fills exactly one 4 KiB page. */
  const PTRS: nat := 512

  /** 2^64: every `uintptr_t` and `phys_addr_t` computation wraps modulo this. */
  const WORD: nat := 0x1_0000_0000_0000_0000

  /** Protection bits (RISC-V PTE bits V, R, W, X, A, D). `PAGE_TABLE` has only the
      valid bit: the entry points to the next-level table. */
  const PAGE_TABLE: nat := 0x01
  const PAGE_KERNEL: nat := 0xC7
  const PAGE_KERNEL_EXEC: nat := 0xCF

  /** A table entry. `None` is the all-zero entry (`pte_none`, `pud_val(..) == 0`). */
  datatype Entry = None | Link(pfn: nat) | Leaf(pfn: nat, prot: nat)

  /** The entry `pfn_pte(pfn, prot)` builds: the zero entry when both parts
      are zero, a pointer to a next-level table when the protection is
      `PAGE_TABLE`, and otherwise a leaf carrying both parts. */
  function MakeEntry(pfn: nat, prot: nat): (e: Entry)
    ensures e.None? <==> pfn == 0 && prot == 0
    ensures e.Link? <==> prot == PAGE_TABLE
    ensures !e.None? ==> e.pfn == pfn
    ensures e.Leaf? ==> e.prot == prot
  {
    if pfn == 0 && prot == 0 then None
    else if prot == PAGE_TABLE then Link(pfn)
    else Leaf(pfn, prot)
  }

  /** The 64-bit value of an entry, `pfn << 10 | prot`: the frame number above
      the ten protection bits, and zero for the empty entry. */
  function PteValue(e: Entry): nat
  {
    match e
    case None => 0
    case Link(pfn) => pfn * 1024 + PAGE_TABLE
    case Leaf(pfn, prot) => pfn * 1024 + prot
  }

  /** The entry a value stands for: the frame number `v >> 10` and the
      protection bits `v & 0x3FF`. */
  function EntryOf(v: nat): Entry
  {
    MakeEntry(v / 1024, v % 1024)
  }

  /** `MakeEntry` is the value `pfn << 10 | prot` read as an entry: it has that
      value, it is the empty entry exactly when that value is zero (what
      `pte_none` tests), and reading the value back gives the same entry. */
  lemma EntryValueRoundTrip(pfn: nat, prot: nat)
    requires prot < 1024
    ensures PteValue(MakeEntry(pfn, prot)) == pfn * 1024 + prot
    ensures MakeEntry(pfn, prot).None? <==> pfn * 1024 + prot == 0
    ensures EntryOf(PteValue(MakeEntry(pfn, prot))) == MakeEntry(pfn, prot)
  {
    assert (pfn * 1024 + prot) / 1024 == pfn && (pfn * 1024 + prot) % 1024 == prot;
  }

  /** Every value is the value of the entry it stands for. */
  lemma ValueEntryRoundTrip(v: nat)
    ensures PteValue(EntryOf(v)) == v
  {
    assert v == (v / 1024) * 1024 + v % 1024;
  }

  /** The protection bits of an entry the hardware walk accepts: V is set, and
      the encoding is not the reserved one with W but not R (section 4.3.2 of
      the RISC-V Privileged Architecture, step 3). */
  predicate ValidProt(prot: nat)
  {
    prot % 2 == 1 && !((prot / 2) % 2 == 0 && (prot / 4) % 2 == 1)
  }

  /** R or X is set: the entry is a leaf. A valid entry with neither points to
      the next level (step 4). */
  predicate LeafProt(prot: nat)
  {
    (prot / 2) % 2 == 1 || (prot / 8) % 2 == 1
  }

  /** The frame an entry names (`_pmd_pfn`, `_pud_pfn`, `_pgd_pfn`); zero for `None`. */
  function EntryPfn(e: Entry): nat
  {
    if e.None? then 0 else e.pfn
  }

  function Zeros(): (z: seq<Entry>)
    ensures |z| == PTRS && forall i :: 0 <= i < |z| ==> z[i] == None
  {
    seq(PTRS, _ => None)
  }

  /** One page-sized table of 512 entries. */
  type Table = s: seq<Entry> | |s| == PTRS witness Zeros()

  predicate IsZero(t: Table)
  {
    forall i :: 0 <= i < PTRS ==> t[i] == None
  }

  /** Translation levels, leaf first. Sv39 uses Pud, Pmd, Pte below its root;
      Sv48 adds Pgd on top. */
  datatype Level = Pte | Pmd | Pud | Pgd

  function Rank(l: Level): nat
  {
    match l
    case Pte => 0
    case Pmd => 1
    case Pud => 2
    case Pgd => 3
  }

  function Below(l: Level): (b: Level)
    requires l != Pte
    ensures Rank(b) + 1 == Rank(l)
  {
    match l
    case Pmd => Pte
    case Pud => Pmd
    case Pgd => Pud
  }

  /** The size of the region one entry of a level-`l` table covers. */
  function BlockSize(l: Level): (s: nat)
    ensures s % PAGE_SIZE == 0 && s > 0
  {
    match l
    case Pte => PAGE_SIZE
    case Pmd => PMD_SIZE
    case Pud => PUD_SIZE
    case Pgd => P4D_SIZE
  }

  /** `pte_index`, `pmd_index`, `pud_index`, `pgd_index`: `(va >> shift) & (PTRS - 1)`. */
  function Index(l: Level, va: nat): (i: nat)
    ensures i < PTRS
  {
    (va / BlockSize(l)) % PTRS
  }

  /** `PFN_DOWN`. */
  function PfnDown(pa: nat): nat
  {
    pa / PAGE_SIZE
  }

  /** The frame number of a frame's own address is the frame. */
  lemma PfnOfFrame(f: nat)
    ensures PfnDown(f * PAGE_SIZE) == f
  {
    assert f * 0x1000 / 0x1000 == f;
  }

  /** The write the source guards with `pte_none`/`pmd_none`/`pud_val(..) == 0`:
      store `e` at slot `i` only when that slot is empty. */
  function SetIfNone(t: Table, i: nat, e: Entry): (r: Table)
    requires i < PTRS
    ensures t[i] == None ==> r[i] == e
    ensures t[i] != None ==> r == t
    ensures forall j :: 0 <= j < PTRS && j != i ==> r[j] == t[j]
  {
    if t[i] == None then t[i := e] else t
  }

  /** First write wins: a second guarded write to the same slot, whatever it
      stores, leaves the result of the first one in place (and a repeated
      identical write is idempotent). */
  lemma FirstWriteWins(t: Table, i: nat, e1: Entry, e2: Entry)
    requires i < PTRS && e1 != None
    ensures SetIfNone(SetIfNone(t, i, e1), i, e2) == SetIfNone(t, i, e1)
    ensures SetIfNone(t, i, e1)[i] != None
  {
  }
}
