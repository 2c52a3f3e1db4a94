/** What one insertion does to the tables: which sizes it accepts, that a filled
    slot is never overwritten, and that afterwards the walk for the inserted
    address reaches the entry the insertion chose (lookup after insert). */
module MappingFacts {
  import opened PgTable
  import opened Mapping

  /** `sz` is the block size of level `l` or of a level below it. */
  predicate SizeFits(l: Level, sz: nat)
  {
    sz == PAGE_SIZE || (Rank(l) >= 1 && sz == PMD_SIZE) ||
    (Rank(l) >= 2 && sz == PUD_SIZE) || (Rank(l) >= 3 && sz == P4D_SIZE)
  }

  /** With the MMU on every allocation succeeds, so an insertion halts exactly when
      no level on the way down has the requested block size: the `BUG_ON(sz !=
      PAGE_SIZE)` of the PTE level is the only way to fail. */
  lemma {:induction false} InsertHaltsIff(c: Config, h: Heap, l: Level, t: nat, va: nat, pa: nat, sz: nat, prot: nat)
    requires c.mmu
    ensures InsertAt(c, h, l, t, va, pa, sz, prot).Ok? <==> SizeFits(l, sz)
    decreases Rank(l)
  {
    var i := Index(l, va);
    var e := Frame(h.mem, t)[i];
    if l != Pte && sz != BlockSize(l) {
      if e == None {
        var a := AllocBelow(c, h, l, va);
        assert a.Ok?;
        var (f, h1) := a.value;
        InsertHaltsIff(c, LinkZeroed(h1, t, i, f), Below(l), f, va, pa, sz, prot);
      } else {
        InsertHaltsIff(c, h, Below(l), EntryPfn(e), va, pa, sz, prot);
      }
    }
  }

  /** At the level whose block size is `sz`, an occupied slot makes the insertion
      a no-op, whatever `pa` and `prot` are: the first write wins. An empty slot
      receives exactly the new entry and nothing else changes. */
  lemma LeafInsertFirstWriteWins(c: Config, h: Heap, l: Level, t: nat, va: nat, pa: nat, sz: nat, prot: nat)
    requires sz == BlockSize(l)
    ensures Frame(h.mem, t)[Index(l, va)] != None ==> InsertAt(c, h, l, t, va, pa, sz, prot) == Ok(h)
    ensures Frame(h.mem, t)[Index(l, va)] == None ==>
      InsertAt(c, h, l, t, va, pa, sz, prot)
        == Ok(h.(mem := h.mem[t := Frame(h.mem, t)[Index(l, va) := MakeEntry(PfnDown(pa), prot)]]))
  {
    if Frame(h.mem, t)[Index(l, va)] != None {
      assert h.mem[t := Frame(h.mem, t)] == h.mem;
    }
  }

  /** With the MMU on, an insertion never changes an entry that was already
      filled in any table that existed before it: it only fills empty slots
      and initialises pages fresh from the allocator. */
  lemma InsertNeverOverwrites(c: Config, h: Heap, l: Level, t: nat, va: nat, pa: nat, sz: nat, prot: nat)
    requires c.mmu && HeapOk(h)
    requires InsertAt(c, h, l, t, va, pa, sz, prot).Ok?
    ensures h.brk <= InsertAt(c, h, l, t, va, pa, sz, prot).value.brk
    ensures forall f, j :: f in h.mem && 0 <= j < PTRS && h.mem[f][j] != None ==>
      Frame(InsertAt(c, h, l, t, va, pa, sz, prot).value.mem, f)[j] == h.mem[f][j]
  {
    KeepsFilled(c, h, l, t, va, pa, sz, prot, h.mem.Keys);
  }

  lemma {:induction false} KeepsFilled(c: Config, h: Heap, l: Level, t: nat, va: nat, pa: nat, sz: nat, prot: nat, keep: set<nat>)
    requires c.mmu
    requires forall f :: f in keep ==> f < h.brk
    requires InsertAt(c, h, l, t, va, pa, sz, prot).Ok?
    ensures h.brk <= InsertAt(c, h, l, t, va, pa, sz, prot).value.brk
    ensures forall f, j :: f in keep && 0 <= j < PTRS && Frame(h.mem, f)[j] != None ==>
      Frame(InsertAt(c, h, l, t, va, pa, sz, prot).value.mem, f)[j] == Frame(h.mem, f)[j]
    decreases Rank(l)
  {
    var i := Index(l, va);
    var e := Frame(h.mem, t)[i];
    if l == Pte || sz == BlockSize(l) {
    } else if e == None {
      var (f, h1) := AllocBelow(c, h, l, va).value;
      var h2 := LinkZeroed(h1, t, i, f);
      assert f >= h.brk && h1.brk > f;
      assert forall g, j :: g in keep && 0 <= j < PTRS && Frame(h.mem, g)[j] != None ==>
        Frame(h2.mem, g)[j] == Frame(h.mem, g)[j];
      KeepsFilled(c, h2, Below(l), f, va, pa, sz, prot, keep);
    } else {
      KeepsFilled(c, h, Below(l), EntryPfn(e), va, pa, sz, prot, keep);
    }
  }

  /** A successful insertion only adds tables and only advances the allocator. */
  lemma {:induction false} InsertGrows(c: Config, h: Heap, l: Level, t: nat, va: nat, pa: nat, sz: nat, prot: nat)
    requires InsertAt(c, h, l, t, va, pa, sz, prot).Ok?
    ensures h.mem.Keys <= InsertAt(c, h, l, t, va, pa, sz, prot).value.mem.Keys
    ensures h.brk <= InsertAt(c, h, l, t, va, pa, sz, prot).value.brk
    decreases Rank(l)
  {
    var i := Index(l, va);
    var e := Frame(h.mem, t)[i];
    if l != Pte && sz != BlockSize(l) {
      if e == None {
        var (f, h1) := AllocBelow(c, h, l, va).value;
        InsertGrows(c, LinkZeroed(h1, t, i, f), Below(l), f, va, pa, sz, prot);
      } else {
        InsertGrows(c, h, Below(l), EntryPfn(e), va, pa, sz, prot);
      }
    }
  }

  /** With the MMU off the allocators only hand out the static early tables,
      so an insertion leaves the general allocator's cursor where it was. */
  lemma {:induction false} EarlyInsertKeepsCursor(c: Config, h: Heap, l: Level, t: nat, va: nat, pa: nat, sz: nat, prot: nat)
    requires !c.mmu && InsertAt(c, h, l, t, va, pa, sz, prot).Ok?
    ensures InsertAt(c, h, l, t, va, pa, sz, prot).value.brk == h.brk
    decreases Rank(l)
  {
    var i := Index(l, va);
    var e := Frame(h.mem, t)[i];
    if l != Pte && sz != BlockSize(l) {
      if e == None {
        var (f, h1) := AllocBelow(c, h, l, va).value;
        EarlyInsertKeepsCursor(c, LinkZeroed(h1, t, i, f), Below(l), f, va, pa, sz, prot);
      } else {
        EarlyInsertKeepsCursor(c, h, Below(l), EntryPfn(e), va, pa, sz, prot);
      }
    }
  }

  /** What an insertion may allocate does not collide with the tables already on
      the path (`anc`): with the MMU on every page is fresh; with it off the
      static early PUD and PMD must be distinct from them and from each other. */
  predicate FreshOk(c: Config, l: Level, anc: set<nat>)
  {
    c.mmu ||
    ((l == Pgd ==> c.earlyPud !in anc && c.earlyPmd !in anc && c.earlyPud != c.earlyPmd) &&
     (l == Pud ==> c.earlyPmd !in anc))
  }

  /** The walk for `va` from table `t` at level `l` down to the level of `sz`
      visits distinct existing tables, meets no leaf on the way, and, if it meets
      an empty entry, can allocate the missing tables without aliasing. */
  predicate PathOk(c: Config, h: Heap, l: Level, t: nat, va: nat, sz: nat, anc: set<nat>)
    decreases Rank(l)
  {
    t in h.mem && t !in anc &&
    (l == Pte || sz == BlockSize(l) ||
      (var e := Frame(h.mem, t)[Index(l, va)];
       (e.None? && FreshOk(c, l, anc + {t})) ||
       (e.Link? && PathOk(c, h, Below(l), e.pfn, va, sz, anc + {t}))))
  }

  /** `va` and `v` select the same slot at every level strictly above `target`. */
  predicate SameUpper(l: Level, target: Level, va: nat, v: nat)
    requires Rank(target) <= Rank(l)
    decreases Rank(l)
  {
    l == target || (Index(l, va) == Index(l, v) && SameUpper(Below(l), target, va, v))
  }

  /** The tables the walk for `va` visits from `t` at level `l` down to `target`. */
  function PathFrames(m: map<nat, Table>, t: nat, l: Level, target: Level, va: nat): set<nat>
    requires Rank(target) <= Rank(l)
    decreases Rank(l)
  {
    var e := Frame(m, t)[Index(l, va)];
    {t} + (if l != target && e.Link? then PathFrames(m, e.pfn, Below(l), target, va) else {})
  }

  /** A table page an insertion may have newly linked in. */
  predicate IsNew(c: Config, h: Heap, h': Heap, x: nat)
  {
    if c.mmu then h.brk <= x < h'.brk else x == c.earlyPud || x == c.earlyPmd
  }

  lemma BlockSizeInjective(a: Level, b: Level)
    ensures BlockSize(a) == BlockSize(b) ==> a == b
  {
  }

  /** What an insertion from table `t` at level `l` leaves behind (`h'`), given
      the state before it (`h`):
      - the walk from `t` reaches, at the level of `sz`, the entry that was
        there if the slot was filled, otherwise the new entry for `pa`;
      - every other slot of that last table is as before (in a new table:
        empty, since the table was zeroed before it was linked);
      - the tables on the path above (`anc`) are untouched, and so is every
        table off the new path and every other slot of `t`;
      - the path is still sound, and it only gained newly allocated tables. */
  ghost predicate InsertPost(c: Config, h: Heap, h': Heap, l: Level, t: nat, va: nat, pa: nat, sz: nat, prot: nat,
                       target: Level, anc: set<nat>)
    requires Rank(target) <= Rank(l)
  {
    (c.mmu ==> HeapOk(h')) && h.brk <= h'.brk && h.mem.Keys <= h'.mem.Keys &&
    (forall a :: a in anc ==> Frame(h'.mem, a) == Frame(h.mem, a)) &&
    (forall x :: x !in PathFrames(h'.mem, t, l, target, va) ==> Frame(h'.mem, x) == Frame(h.mem, x)) &&
    (forall j :: 0 <= j < PTRS && j != Index(l, va) ==> Frame(h'.mem, t)[j] == Frame(h.mem, t)[j]) &&
    EntryAt(h'.mem, t, l, target, va) ==
      (if EntryAt(h.mem, t, l, target, va) != None then EntryAt(h.mem, t, l, target, va)
       else MakeEntry(PfnDown(pa), prot)) &&
    (forall v :: SameUpper(l, target, va, v) && Index(target, v) != Index(target, va) ==>
      EntryAt(h'.mem, t, l, target, v) == EntryAt(h.mem, t, l, target, v)) &&
    PathOk(c, h', l, t, va, sz, anc) &&
    (forall x :: x in PathFrames(h'.mem, t, l, target, va) ==>
      x in PathFrames(h.mem, t, l, target, va) || IsNew(c, h, h', x))
  }

  /** Lookup after insert: if the walk for `va` is sound (`PathOk`) and the
      insertion succeeds, it leaves the tables as `InsertPost` describes. */
  lemma {:induction false} InsertFindsEntry(c: Config, h: Heap, l: Level, t: nat, va: nat, pa: nat, sz: nat, prot: nat,
                                            target: Level, anc: set<nat>)
    requires (c.mmu ==> HeapOk(h)) && forall a :: a in anc ==> a in h.mem
    requires Rank(target) <= Rank(l) && sz == BlockSize(target)
    requires PathOk(c, h, l, t, va, sz, anc)
    requires InsertAt(c, h, l, t, va, pa, sz, prot).Ok?
    ensures InsertPost(c, h, InsertAt(c, h, l, t, va, pa, sz, prot).value, l, t, va, pa, sz, prot, target, anc)
    decreases Rank(l), 1
  {
    var e := Frame(h.mem, t)[Index(l, va)];
    BlockSizeInjective(l, target);
    if l == Pte || sz == BlockSize(l) {
      FindsAtTarget(c, h, l, t, va, pa, sz, prot, anc);
    } else if e == None {
      FindsThroughNewTable(c, h, l, t, va, pa, sz, prot, target, anc);
    } else {
      FindsThroughLink(c, h, l, t, va, pa, sz, prot, target, anc);
    }
  }

  lemma FindsAtTarget(c: Config, h: Heap, l: Level, t: nat, va: nat, pa: nat, sz: nat, prot: nat, anc: set<nat>)
    requires (c.mmu ==> HeapOk(h)) && forall a :: a in anc ==> a in h.mem
    requires sz == BlockSize(l)
    requires PathOk(c, h, l, t, va, sz, anc)
    ensures InsertAt(c, h, l, t, va, pa, sz, prot).Ok?
    ensures InsertPost(c, h, InsertAt(c, h, l, t, va, pa, sz, prot).value, l, t, va, pa, sz, prot, l, anc)
  {
    var i := Index(l, va);
    var h' := Fill(h, t, i, MakeEntry(PfnDown(pa), prot));
    assert InsertAt(c, h, l, t, va, pa, sz, prot) == Ok(h');
    forall v | SameUpper(l, l, va, v) && Index(l, v) != i
      ensures EntryAt(h'.mem, t, l, l, v) == EntryAt(h.mem, t, l, l, v)
    {
    }
  }

  /** The state right after a missing table `f` was obtained, linked into slot
      `Index(l, va)` of `t` and zero-filled. */
  lemma NewTableLinked(c: Config, h: Heap, l: Level, t: nat, va: nat, sz: nat, anc: set<nat>)
    requires (c.mmu ==> HeapOk(h)) && forall a :: a in anc ==> a in h.mem
    requires l != Pte && sz != BlockSize(l)
    requires PathOk(c, h, l, t, va, sz, anc)
    requires Frame(h.mem, t)[Index(l, va)] == None
    requires AllocBelow(c, h, l, va).Ok?
    ensures var (f, h1) := AllocBelow(c, h, l, va).value;
      var h2 := LinkZeroed(h1, t, Index(l, va), f);
      f !in anc + {t} && (c.mmu ==> HeapOk(h2)) && h.brk <= h2.brk && h.mem.Keys <= h2.mem.Keys &&
      (c.mmu ==> h.brk <= f < h2.brk) && (!c.mmu ==> f == c.earlyPud || f == c.earlyPmd) &&
      Frame(h2.mem, t)[Index(l, va)] == Link(f) && Frame(h2.mem, f) == Zeros() &&
      (forall j :: 0 <= j < PTRS && j != Index(l, va) ==> Frame(h2.mem, t)[j] == Frame(h.mem, t)[j]) &&
      (forall a :: a in anc ==> Frame(h2.mem, a) == Frame(h.mem, a)) &&
      (forall x :: x != t && x != f ==> Frame(h2.mem, x) == Frame(h.mem, x)) &&
      PathOk(c, h2, Below(l), f, va, sz, anc + {t})
  {
    var (f, h1) := AllocBelow(c, h, l, va).value;
    var h2 := LinkZeroed(h1, t, Index(l, va), f);
    assert f !in anc + {t};
    assert Frame(h2.mem, f) == Zeros();
    assert c.mmu ==> HeapOk(h2);
    assert FreshOk(c, Below(l), anc + {t} + {f});
  }

  lemma {:induction false} FindsThroughNewTable(c: Config, h: Heap, l: Level, t: nat, va: nat, pa: nat, sz: nat, prot: nat,
                                                target: Level, anc: set<nat>)
    requires (c.mmu ==> HeapOk(h)) && forall a :: a in anc ==> a in h.mem
    requires Rank(target) < Rank(l) && sz == BlockSize(target) && sz != BlockSize(l)
    requires PathOk(c, h, l, t, va, sz, anc)
    requires Frame(h.mem, t)[Index(l, va)] == None
    requires InsertAt(c, h, l, t, va, pa, sz, prot).Ok?
    ensures InsertPost(c, h, InsertAt(c, h, l, t, va, pa, sz, prot).value, l, t, va, pa, sz, prot, target, anc)
    decreases Rank(l), 0
  {
    var (f, h1) := AllocBelow(c, h, l, va).value;
    var h2 := LinkZeroed(h1, t, Index(l, va), f);
    NewTableLinked(c, h, l, t, va, sz, anc);
    InsertFindsEntry(c, h2, Below(l), f, va, pa, sz, prot, target, anc + {t});
    PostThroughNewTable(c, h, h2, InsertAt(c, h2, Below(l), f, va, pa, sz, prot).value, l, t, f, va, pa, sz, prot, target, anc);
  }

  /** Lifts the post-state of the insertion into the new table `f` to the
      insertion from its parent `t`. */
  lemma PostThroughNewTable(c: Config, h: Heap, h2: Heap, h': Heap, l: Level, t: nat, f: nat, va: nat, pa: nat, sz: nat, prot: nat,
                            target: Level, anc: set<nat>)
    requires Rank(target) < Rank(l) && sz == BlockSize(target) && sz != BlockSize(l)
    requires Frame(h.mem, t)[Index(l, va)] == None && t in h.mem && t !in anc
    requires f !in anc + {t} && h.brk <= h2.brk && h.mem.Keys <= h2.mem.Keys
    requires (c.mmu ==> h.brk <= f < h2.brk) && (!c.mmu ==> f == c.earlyPud || f == c.earlyPmd)
    requires Frame(h2.mem, t)[Index(l, va)] == Link(f) && Frame(h2.mem, f) == Zeros()
    requires forall a :: a in anc ==> Frame(h2.mem, a) == Frame(h.mem, a)
    requires forall x :: x != t && x != f ==> Frame(h2.mem, x) == Frame(h.mem, x)
    requires forall j :: 0 <= j < PTRS && j != Index(l, va) ==> Frame(h2.mem, t)[j] == Frame(h.mem, t)[j]
    requires InsertPost(c, h2, h', Below(l), f, va, pa, sz, prot, target, anc + {t})
    ensures InsertPost(c, h, h', l, t, va, pa, sz, prot, target, anc)
  {
    assert Frame(h'.mem, t) == Frame(h2.mem, t);
    assert EntryAt(h2.mem, f, Below(l), target, va) == None;
    assert EntryAt(h'.mem, t, l, target, va) == EntryAt(h'.mem, f, Below(l), target, va);
    forall v | SameUpper(l, target, va, v) && Index(target, v) != Index(target, va)
      ensures EntryAt(h'.mem, t, l, target, v) == EntryAt(h.mem, t, l, target, v)
    {
      assert EntryAt(h2.mem, f, Below(l), target, v) == None;
    }
    assert PathFrames(h2.mem, f, Below(l), target, va) == {f};
    assert PathFrames(h'.mem, t, l, target, va) == {t} + PathFrames(h'.mem, f, Below(l), target, va);
  }

  lemma {:induction false} FindsThroughLink(c: Config, h: Heap, l: Level, t: nat, va: nat, pa: nat, sz: nat, prot: nat,
                                            target: Level, anc: set<nat>)
    requires (c.mmu ==> HeapOk(h)) && forall a :: a in anc ==> a in h.mem
    requires Rank(target) < Rank(l) && sz == BlockSize(target) && sz != BlockSize(l)
    requires PathOk(c, h, l, t, va, sz, anc)
    requires Frame(h.mem, t)[Index(l, va)] != None
    requires InsertAt(c, h, l, t, va, pa, sz, prot).Ok?
    ensures InsertPost(c, h, InsertAt(c, h, l, t, va, pa, sz, prot).value, l, t, va, pa, sz, prot, target, anc)
    decreases Rank(l), 0
  {
    var e := Frame(h.mem, t)[Index(l, va)];
    assert e.Link?;
    var h' := InsertAt(c, h, l, t, va, pa, sz, prot).value;
    assert h' == InsertAt(c, h, Below(l), e.pfn, va, pa, sz, prot).value;
    InsertFindsEntry(c, h, Below(l), e.pfn, va, pa, sz, prot, target, anc + {t});
    PostThroughLink(c, h, h', l, t, e.pfn, va, pa, sz, prot, target, anc);
  }

  /** Lifts the post-state of the insertion into the linked table `p` to the
      insertion from its parent `t`. */
  lemma PostThroughLink(c: Config, h: Heap, h': Heap, l: Level, t: nat, p: nat, va: nat, pa: nat, sz: nat, prot: nat,
                        target: Level, anc: set<nat>)
    requires Rank(target) < Rank(l) && t in h.mem && t !in anc
    requires Frame(h.mem, t)[Index(l, va)] == Link(p)
    requires InsertPost(c, h, h', Below(l), p, va, pa, sz, prot, target, anc + {t})
    ensures InsertPost(c, h, h', l, t, va, pa, sz, prot, target, anc)
  {
    assert Frame(h'.mem, t) == Frame(h.mem, t);
    assert PathFrames(h'.mem, t, l, target, va) == {t} + PathFrames(h'.mem, p, Below(l), target, va);
    assert PathFrames(h.mem, t, l, target, va) == {t} + PathFrames(h.mem, p, Below(l), target, va);
  }

  /** A walk whose path ends in a leaf the hardware accepts translates through
      it: lookup by `EntryAt` and the hardware walk agree. */
  lemma {:induction false} TranslateViaEntry(m: map<nat, Table>, t: nat, l: Level, target: Level, va: nat)
    requires Rank(target) <= Rank(l)
    requires EntryAt(m, t, l, target, va).Leaf?
    requires ValidProt(EntryAt(m, t, l, target, va).prot) && LeafProt(EntryAt(m, t, l, target, va).prot)
    ensures var e := EntryAt(m, t, l, target, va);
      Translate(m, t, l, va) ==
        (if (e.pfn * PAGE_SIZE) % BlockSize(target) != 0 then Fault
         else Maps(e.pfn * PAGE_SIZE + va % BlockSize(target), e.prot))
    decreases Rank(l)
  {
    if l != target {
      var e := Frame(m, t)[Index(l, va)];
      TranslateViaEntry(m, e.pfn, Below(l), target, va);
    }
  }

  /** The walk depends only on the slots it reads: a change to tables off the
      path leaves it and its result unchanged. */
  lemma {:induction false} EntryAtUnchanged(m: map<nat, Table>, m': map<nat, Table>, t: nat, l: Level, target: Level, va: nat)
    requires Rank(target) <= Rank(l)
    requires forall x :: x in PathFrames(m, t, l, target, va) ==> Frame(m', x) == Frame(m, x)
    ensures EntryAt(m', t, l, target, va) == EntryAt(m, t, l, target, va)
    ensures PathFrames(m', t, l, target, va) == PathFrames(m, t, l, target, va)
    decreases Rank(l)
  {
    var e := Frame(m, t)[Index(l, va)];
    if l != target && e.Link? {
      EntryAtUnchanged(m, m', e.pfn, Below(l), target, va);
    }
  }

  /** Two addresses that agree on every index down to `target` share the walk. */
  lemma {:induction false} SameUpperSharesPath(c: Config, h: Heap, l: Level, t: nat, target: Level, va: nat, v: nat, anc: set<nat>)
    requires Rank(target) <= Rank(l) && SameUpper(l, target, va, v)
    ensures PathOk(c, h, l, t, va, BlockSize(target), anc) ==> PathOk(c, h, l, t, v, BlockSize(target), anc)
    ensures PathFrames(h.mem, t, l, target, v) == PathFrames(h.mem, t, l, target, va)
    decreases Rank(l)
  {
    BlockSizeInjective(l, target);
    if l != target {
      var e := Frame(h.mem, t)[Index(l, va)];
      if e.Link? {
        SameUpperSharesPath(c, h, Below(l), e.pfn, target, va, v, anc + {t});
      }
    }
  }

  /** Once the walk for `va` reaches a filled entry at the level of `sz`,
      inserting `va` again follows the existing links, allocates nothing and
      leaves the tables as they are, whatever `pa` and `prot` it carries. */
  lemma {:induction false} InsertFilledNoop(c: Config, h: Heap, l: Level, t: nat, va: nat, pa: nat, sz: nat, prot: nat,
                                            target: Level, anc: set<nat>)
    requires Rank(target) <= Rank(l) && sz == BlockSize(target)
    requires PathOk(c, h, l, t, va, sz, anc) && EntryAt(h.mem, t, l, target, va) != None
    ensures InsertAt(c, h, l, t, va, pa, sz, prot) == Ok(h)
    decreases Rank(l)
  {
    BlockSizeInjective(l, target);
    if l == target {
      assert h.mem[t := Frame(h.mem, t)] == h.mem;
    } else {
      var e := Frame(h.mem, t)[Index(l, va)];
      InsertFilledNoop(c, h, Below(l), e.pfn, va, pa, sz, prot, target, anc + {t});
    }
  }

  /** Insertion is idempotent: on a sound walk, once `va` was inserted with a
      non-zero entry, inserting it again, with any `pa` and `prot`, leaves the
      tables exactly as the first insertion left them. */
  lemma InsertTwice(c: Config, h: Heap, l: Level, t: nat, va: nat, pa: nat, pa': nat, sz: nat, prot: nat, prot': nat,
                    target: Level, anc: set<nat>)
    requires (c.mmu ==> HeapOk(h)) && forall a :: a in anc ==> a in h.mem
    requires Rank(target) <= Rank(l) && sz == BlockSize(target)
    requires PathOk(c, h, l, t, va, sz, anc) && (PfnDown(pa) != 0 || prot != 0)
    requires InsertAt(c, h, l, t, va, pa, sz, prot).Ok?
    ensures var h1 := InsertAt(c, h, l, t, va, pa, sz, prot).value;
      InsertAt(c, h1, l, t, va, pa', sz, prot') == Ok(h1)
  {
    var h1 := InsertAt(c, h, l, t, va, pa, sz, prot).value;
    InsertFindsEntry(c, h, l, t, va, pa, sz, prot, target, anc);
    InsertFilledNoop(c, h1, l, t, va, pa', sz, prot', target, anc);
  }

  /** In Sv48 mode, once the root entry for `va` is filled, inserting at the
      root is exactly the Sv39 insertion into the table that entry names,
      whatever kind of entry it is: both modes share everything below the
      root. */
  lemma FourLevelSharesLowerPath(c: Config, h: Heap, root: nat, va: nat, pa: nat, sz: nat, prot: nat)
    requires c.l4 && sz != P4D_SIZE
    requires Frame(h.mem, root)[Index(Pgd, va)] != None
    ensures InsertPgd(c, h, root, va, pa, sz, prot)
      == InsertAt(c, h, Pud, EntryPfn(Frame(h.mem, root)[Index(Pgd, va)]), va, pa, sz, prot)
  {
  }

  /** In Sv39 mode the root array is treated as the PUD table. */
  lemma ThreeLevelRootIsPud(c: Config, h: Heap, root: nat, va: nat, pa: nat, sz: nat, prot: nat)
    requires !c.l4
    ensures InsertPgd(c, h, root, va, pa, sz, prot) == InsertAt(c, h, Pud, root, va, pa, sz, prot)
  {
  }
}
