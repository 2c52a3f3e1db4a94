/** `relocate_kernel`: applies the `R_RISCV_RELATIVE` entries (RISC-V ELF psABI)
    of the image's `Elf64_Rela` table (System V gABI, relocation entries) to the
    image while it still runs at its physical load address. */
module Relocation {
  import opened PgTable
  import Mapping

  /** `R_RISCV_RELATIVE`: the stored word is the link-time address `r_addend`,
      to be moved by the difference between final and link-time bases. */
  const R_RISCV_RELATIVE: nat := 3

  /** One `Elf64_Rela` record; all three fields are 64-bit unsigned. */
  datatype Rela = Rela(offset: nat, info: nat, addend: nat)

  /** The image's 64-bit words, by physical address; unwritten words read 0. */
  type Image = map<nat, nat>

  function Word(img: Image, a: nat): nat
  {
    if a in img then img[a] else 0
  }

  /** `rela->r_offset - (link_addr - load_pa)`: where the word lives physically. */
  function RelocTarget(r: Rela, linkAddr: nat, loadPa: nat): (a: nat)
    ensures a < WORD
  {
    Mapping.Sub64(r.offset, Mapping.Sub64(linkAddr, loadPa))
  }

  /** The word stored: addresses at or above the link base move by
      `PAGE_OFFSET - link_addr`; lower ones (vDSO offsets linked at 0) stay. */
  function RelocValue(r: Rela, linkAddr: nat, pageOffset: nat): (v: nat)
    requires r.addend < WORD
    ensures v < WORD
    ensures r.addend < linkAddr ==> v == r.addend
    ensures r.addend >= linkAddr && linkAddr <= pageOffset < WORD && r.addend + (pageOffset - linkAddr) < WORD
            ==> v == r.addend + (pageOffset - linkAddr)
  {
    if r.addend >= linkAddr then (r.addend + Mapping.Sub64(pageOffset, linkAddr)) % WORD
    else r.addend
  }

  predicate ValidRelas(rs: seq<Rela>)
  {
    forall k :: 0 <= k < |rs| ==> rs[k].offset < WORD && rs[k].addend < WORD
  }

  /** The effect of one record: only relative records store anything. */
  function ApplyOne(img: Image, r: Rela, linkAddr: nat, pageOffset: nat, loadPa: nat): Image
    requires r.addend < WORD
  {
    if r.info != R_RISCV_RELATIVE then img
    else img[RelocTarget(r, linkAddr, loadPa) := RelocValue(r, linkAddr, pageOffset)]
  }

  /** The records applied in order, first to last. */
  function ApplyRelocs(img: Image, rs: seq<Rela>, linkAddr: nat, pageOffset: nat, loadPa: nat): Image
    requires ValidRelas(rs)
    decreases |rs|
  {
    if rs == [] then img
    else ApplyOne(ApplyRelocs(img, rs[..|rs| - 1], linkAddr, pageOffset, loadPa), rs[|rs| - 1], linkAddr, pageOffset, loadPa)
  }

  /** Whether record `r` stores to address `a`. */
  predicate Writes(r: Rela, a: nat, linkAddr: nat, loadPa: nat)
  {
    r.info == R_RISCV_RELATIVE && RelocTarget(r, linkAddr, loadPa) == a
  }

  /** Index of the last record that stores to `a`, or -1 when none does. */
  function LastWriter(rs: seq<Rela>, a: nat, linkAddr: nat, loadPa: nat): (k: int)
    ensures -1 <= k < |rs|
    ensures k >= 0 ==> Writes(rs[k], a, linkAddr, loadPa)
    ensures forall j :: k < j < |rs| ==> !Writes(rs[j], a, linkAddr, loadPa)
    decreases |rs|
  {
    if rs == [] then -1
    else if Writes(rs[|rs| - 1], a, linkAddr, loadPa) then |rs| - 1
    else LastWriter(rs[..|rs| - 1], a, linkAddr, loadPa)
  }

  /** After the pass, each word holds the value computed by the last relative
      record that targets it; a word no relative record targets keeps its old
      contents (records of other kinds are ignored). */
  lemma {:induction false} RelocatedWord(img: Image, rs: seq<Rela>, linkAddr: nat, pageOffset: nat, loadPa: nat, a: nat)
    requires ValidRelas(rs)
    ensures var k := LastWriter(rs, a, linkAddr, loadPa);
      Word(ApplyRelocs(img, rs, linkAddr, pageOffset, loadPa), a) ==
        (if k < 0 then Word(img, a) else RelocValue(rs[k], linkAddr, pageOffset))
    ensures (a in ApplyRelocs(img, rs, linkAddr, pageOffset, loadPa)) <==> (a in img || LastWriter(rs, a, linkAddr, loadPa) >= 0)
    decreases |rs|
  {
    if rs != [] {
      var init := rs[..|rs| - 1];
      assert ValidRelas(init);
      RelocatedWord(img, init, linkAddr, pageOffset, loadPa, a);
    }
  }

  /** The fall-back to Sv39 runs the pass a second time with a different final
      base. Because every stored word is computed from the records and not from
      memory, the second pass fully overrides the first: the image ends up as
      if it had been relocated once, for the final base. */
  lemma RelocateTwice(img: Image, rs: seq<Rela>, linkAddr: nat, po1: nat, po2: nat, loadPa: nat)
    requires ValidRelas(rs)
    ensures ApplyRelocs(ApplyRelocs(img, rs, linkAddr, po1, loadPa), rs, linkAddr, po2, loadPa)
         == ApplyRelocs(img, rs, linkAddr, po2, loadPa)
  {
    var once := ApplyRelocs(img, rs, linkAddr, po1, loadPa);
    var lhs := ApplyRelocs(once, rs, linkAddr, po2, loadPa);
    var rhs := ApplyRelocs(img, rs, linkAddr, po2, loadPa);
    forall a ensures (a in lhs <==> a in rhs) && (a in lhs ==> lhs[a] == rhs[a]) {
      RelocatedWord(img, rs, linkAddr, po1, loadPa, a);
      RelocatedWord(once, rs, linkAddr, po2, loadPa, a);
      RelocatedWord(img, rs, linkAddr, po2, loadPa, a);
    }
  }
}
