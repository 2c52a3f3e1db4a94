/** `best_map_size`: the block size used to map a physical range. The source tests
    the low bits with `x & (PMD_SIZE - 1)`; for a power of two that mask is the
    remainder `x % PMD_SIZE`, which is how it is written here. */
module Granularity {
  import opened PgTable

  /** 2 MiB when both the base and the size are 2 MiB aligned, else 4 KiB.
      Total: there is no failure case. */
  function BestMapSize(base: nat, size: nat): (s: nat)
    ensures s == PMD_SIZE <==> base % PMD_SIZE == 0 && size % PMD_SIZE == 0
    ensures s == PAGE_SIZE <==> !(base % PMD_SIZE == 0 && size % PMD_SIZE == 0)
  {
    if base % PMD_SIZE != 0 || size % PMD_SIZE != 0 then PAGE_SIZE else PMD_SIZE
  }

  /** The size returned always divides the base and the size it was asked about
      when it is the megapage, and the base page always divides any page-aligned
      range; so stepping through `[base, base + size)` by it never straddles the end. */
  lemma BestMapSizeTiles(base: nat, size: nat)
    requires base % PAGE_SIZE == 0 && size % PAGE_SIZE == 0
    ensures base % BestMapSize(base, size) == 0 && size % BestMapSize(base, size) == 0
  {
  }
}
