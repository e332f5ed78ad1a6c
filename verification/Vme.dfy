/** The virtual memory manager: address spaces are created, mapped, unmapped and torn
    down by writing page tables in memory taken from the page allocator. */
module Vme {
  import opened Bits
  import opened Paging
  import opened VmSpec
  import PmmLayout

  datatype Slot = NoSlot | Slot(page: nat, index: nat)

  class AddrSpace {
    var pgsize: nat
    var start: nat
    var end: nat
    var ptr: nat

    constructor () {
      pgsize, start, end, ptr := 0, 0, 0, 0;
    }
  }

  class Mmu {
    const heap: PmmLayout.Heap   // the allocator's memory
    var mem: Memory          // every page frame: tables, data and free pages
    var avail: set<nat>      // the frames the page allocator can still hand out
    ghost var at: Tree       // where the table pages of all address spaces stand

    ghost predicate Valid()
      reads this
    {
      TreeOk(mem, avail, at)
    }

    // Start-up: the boot tables, free pages, and no address space.
    constructor (heap: PmmLayout.Heap, mem: Memory, avail: set<nat>)
      requires BootOk(mem) && FreeOk(mem, avail)
      ensures Valid() && this.heap == heap && this.mem == mem && this.avail == avail && at == map[]
    {
      this.heap, this.mem, this.avail, at := heap, mem, avail, map[];
    }

    ghost predicate Live(sp: AddrSpace)
      reads this, sp
    {
      && sp.ptr >= 5 && Root(sp.ptr - 5) in at
      && sp.pgsize == PG_SIZE && sp.start == USER_START && sp.end == USER_END
    }

    ghost function Now(): State
      reads this
    {
      State(mem, avail, at)
    }

    // The allocator: a free frame with unknown contents, or NULL.
    method PgAlloc() returns (p: nat)
      requires Valid()
      modifies this`avail
      ensures PmmLayout.PageTaken(old(avail), avail, p) && (p != 0 ==> |avail| == |old(avail)| - 1)
      ensures p != 0 ==> Step(old(Now()), Now(), Took(p))
    {
      if avail == {} {
        return 0;
      }
      p :| p in avail;
      avail := avail - {p};
      forall m | m in at
        ensures at[m] !in avail
      {
        assert NodeOk(at, m);
      }
    }

    // A zeroed page, or NULL, on which the caller panics.
    method PgAllocz() returns (p: nat)
      requires Valid()
      modifies this`avail, this`mem
      ensures p == 0 ==> avail == old(avail) == {} && mem == old(mem)
      ensures p != 0 ==> |avail| == |old(avail)| - 1
      ensures p != 0 ==> p in old(avail) && avail == old(avail) - {p} && mem == old(mem)[p := ZERO_PAGE]
    {
      p := PgAlloc();
      if p == 0 {
        return;
      }
      var i := 0;
      while i < ENTRIES
        modifies this`mem
        invariant i <= ENTRIES
        invariant p in old(mem) && |old(mem)[p]| == ENTRIES
        invariant p in mem && |mem[p]| == ENTRIES
        invariant mem == old(mem)[p := mem[p]]
        invariant forall j :: 0 <= j < i ==> mem[p][j] == 0
      {
        mem := WithEntry(mem, p, i, 0);
        i := i + 1;
      }
      assert mem[p] == ZERO_PAGE;
    }

    // A missing table is allocated and hung into its slot.
    method AddLevel(cur: nat, index: nat, flags: nat, ghost n: Node) returns (page: nat)
      requires Valid() && flags == Or(PTE_W, PTE_U)
      requires n in at && at[n] == cur && n.level < 4 && index < ENTRIES
      requires !KernelSlot(n, index) && Child(n, index) !in at
      modifies this`mem, this`avail, this`at
      ensures Valid() && Grown(old(mem), old(avail), old(at), mem, avail, at)
      ensures page != 0 ==> Child(n, index) in at && at[Child(n, index)] == page
      ensures page != 0 ==> at == old(at)[Child(n, index) := page] && |avail| == |old(avail)| - 1
      ensures page == 0 <==> old(avail) == {}
      ensures page == 0 ==> mem == old(mem) && avail == old(avail) && at == old(at)
    {
      page := PgAllocz();
      if page == 0 {
        return;
      }
      TableEntryIs(page);
      AddTable(old(mem), old(avail), at, n, index, page);
      AddTableGrown(old(mem), old(avail), at, n, index, page);
      mem := WithEntry(mem, cur, index, TableEntry(page, flags));
      at := at[Child(n, index) := page];
    }

    // One level of the walk: the table behind the slot of an address.
    method WalkLevel(cur: nat, addr: nat, i: nat, flags: nat, ghost s: nat) returns (next: nat)
      requires Valid() && KERNEL_END <= addr < VA_END && 1 <= i < 4
      requires flags == Or(PTE_W, PTE_U)
      requires PathNode(s, addr, i) in at && at[PathNode(s, addr, i)] == cur
      modifies this`mem, this`avail, this`at
      ensures Valid() && Grown(old(mem), old(avail), old(at), mem, avail, at)
      ensures next != 0 ==> PathNode(s, addr, i + 1) in at && at[PathNode(s, addr, i + 1)] == next
      ensures next != 0 ==> forall n {:trigger n in at} :: n in at <==> n in old(at) || n == PathNode(s, addr, i + 1)
      ensures next != 0 && PathNode(s, addr, i + 1) !in old(at) ==> |avail| == |old(avail)| - 1
      ensures next == 0 <==> PathNode(s, addr, i + 1) !in old(at) && old(avail) == {}
      ensures next == 0 || PathNode(s, addr, i + 1) in old(at) ==>
                mem == old(mem) && avail == old(avail) && at == old(at)
    {
      IndexOfField(addr, i);
      var index := IndexOf(addr, PGTABLES[i]);
      SlotOnPath(s, addr, i);
      var e := mem[cur][index];
      if !TestBit(e, PTE_P) {
        next := AddLevel(cur, index, flags, PathNode(s, addr, i));
      } else {
        next := BaseOf(e);
      }
    }

    // The slot of the leaf entry of an address; missing tables are added on the way.
    method PtWalk(sp: AddrSpace, addr: nat, flags: nat) returns (slot: Slot)
      requires Valid() && Live(sp) && KERNEL_END <= addr < VA_END
      requires flags == Or(PTE_W, PTE_U)
      modifies this`mem, this`avail, this`at
      ensures Valid() && Live(sp)
      ensures Grown(old(mem), old(avail), old(at), mem, avail, at)
      ensures slot.Slot? ==>
                var n := PathNode(sp.ptr - 5, addr, 4);
                n in at && slot == Slot(at[n], Index(addr, 4))
      ensures slot.Slot? ==> PathAdded(old(at), at, sp.ptr - 5, addr, PT_LEVELS)
      ensures slot.Slot? ==> |old(avail)| == |avail| + Missing(old(at), sp.ptr - 5, addr, PT_LEVELS)
      ensures slot.NoSlot? <==> |old(avail)| < Missing(old(at), sp.ptr - 5, addr, PT_LEVELS)
      ensures slot.NoSlot? ==> avail == {}
      ensures PathNode(sp.ptr - 5, addr, 4) in old(at) ==>
                slot.Slot? && mem == old(mem) && avail == old(avail) && at == old(at)
    {
      ghost var s := sp.ptr - 5;
      RootPointer(sp);
      assert PathNode(s, addr, 1) == Root(s);
      ghost var had := PathNode(s, addr, 4) in at;
      // level 0: the table is the space's own root pointer, always present once protected
      var cur := BaseOf(sp.ptr);
      var i := 1;
      while i < PT_LEVELS
        invariant 1 <= i <= PT_LEVELS
        invariant Valid()
        invariant PathNode(s, addr, i) in at && cur == at[PathNode(s, addr, i)]
        invariant Grown(old(mem), old(avail), old(at), mem, avail, at)
        invariant PathAdded(old(at), at, s, addr, i)
        invariant |old(avail)| == |avail| + Missing(old(at), s, addr, i)
        invariant had ==> mem == old(mem) && avail == old(avail) && at == old(at)
      {
        PathAbove(at, s, addr, i + 1);
        ghost var mem1, avail1, at1 := mem, avail, at;
        cur := WalkLevel(cur, addr, i, flags, s);
        GrownTwice(old(mem), old(avail), old(at), mem1, avail1, at1, mem, avail, at);
        if cur == 0 {
          StillMissing(old(at), at1, s, addr, i);
          return NoSlot;
        }
        PathAddedNext(old(at), at1, at, s, addr, i);
        i := i + 1;
      }
      IndexOfField(addr, 4);
      slot := Slot(cur, IndexOf(addr, PGTABLES[4]));
    }

    // A walk that finds no free page would have needed one more.
    lemma StillMissing(at0: Tree, at1: Tree, s: nat, addr: nat, i: nat)
      requires 1 <= i < PT_LEVELS && PathAdded(at0, at1, s, addr, i) && PathNode(s, addr, i + 1) !in at1
      ensures Missing(at0, s, addr, i) < Missing(at0, s, addr, PT_LEVELS)
    {
      MissingGrows(at0, s, addr, i + 1, PT_LEVELS);
    }

    // One page is mapped or unmapped; every check that fails halts the machine.
    method Map(sp: AddrSpace, va: nat, pa: nat, prot: nat) returns (r: Outcome)
      requires Valid() && Live(sp) && va < TWO64 && pa < TWO64
      modifies this`mem, this`avail, this`at
      ensures Valid() && Live(sp) && InUse(old(mem), old(avail), old(at), mem, avail, at)
      ensures r == MapResult(|old(avail)|, old(at), Entry(old(mem), old(at), sp.ptr - 5, va / PG_SIZE),
                             sp.ptr - 5, va, pa, prot)
      ensures r == Panic(NoMemory) ==> avail == {}
      ensures r == Done ==> PathAdded(old(at), at, sp.ptr - 5, va, PT_LEVELS)
      ensures r == Done ==> |old(avail)| == |avail| + Missing(old(at), sp.ptr - 5, va, PT_LEVELS)
      ensures OneLeaf(old(mem), old(at), mem, at, sp.ptr - 5, va / PG_SIZE,
                      After(r, pa, prot, Entry(old(mem), old(at), sp.ptr - 5, va / PG_SIZE)))
      ensures r == Done ==> Step(old(Now()), Now(), Set(sp.ptr - 5, va / PG_SIZE, Installed(pa, prot)))
    {
      if !InUserArea(va) {
        return Panic(BadAddress);
      }
      AlignedByMask(va);
      AlignedByMask(pa);
      if va != BaseOf(va) || pa != BaseOf(pa) {
        return Panic(Unaligned);
      }
      r := MapPage(sp, va, pa, prot);
    }

    // The walk, the check and the write of map, and its second walk.
    method MapPage(sp: AddrSpace, va: nat, pa: nat, prot: nat) returns (r: Outcome)
      requires Valid() && Live(sp) && InUserArea(va) && va % PG_SIZE == 0 && pa < TWO64 && pa % PG_SIZE == 0
      modifies this`mem, this`avail, this`at
      ensures Valid() && Live(sp) && InUse(old(mem), old(avail), old(at), mem, avail, at)
      ensures r == if |old(avail)| < Missing(old(at), sp.ptr - 5, va, PT_LEVELS) then Panic(NoMemory)
                   else MapVerdict(prot, Entry(old(mem), old(at), sp.ptr - 5, va / PG_SIZE))
      ensures r == Panic(NoMemory) ==> avail == {}
      ensures r == Done ==> PathAdded(old(at), at, sp.ptr - 5, va, PT_LEVELS)
      ensures r == Done ==> |old(avail)| == |avail| + Missing(old(at), sp.ptr - 5, va, PT_LEVELS)
      ensures OneLeaf(old(mem), old(at), mem, at, sp.ptr - 5, va / PG_SIZE,
                      After(r, pa, prot, Entry(old(mem), old(at), sp.ptr - 5, va / PG_SIZE)))
      ensures r == Done ==> Step(old(Now()), Now(), Set(sp.ptr - 5, va / PG_SIZE, Installed(pa, prot)))
    {
      ghost var was := Now();
      r := WalkAndUpdate(sp, va, pa, prot);
      if r == Done {
        Rewalk(sp, va);
        SetStep(was, Now(), sp.ptr - 5, va, Installed(pa, prot));
      }
    }

    // The second walk of map finds every table in place.
    method Rewalk(sp: AddrSpace, va: nat)
      requires Valid() && Live(sp) && KERNEL_END <= va < VA_END && PathNode(sp.ptr - 5, va, 4) in at
      modifies this`mem, this`avail, this`at
      ensures mem == old(mem) && avail == old(avail) && at == old(at)
    {
      var slot := PtWalk(sp, va, Or(PTE_W, PTE_U));
    }

    // The first walk of map, then the check and the write.
    method WalkAndUpdate(sp: AddrSpace, va: nat, pa: nat, prot: nat) returns (r: Outcome)
      requires Valid() && Live(sp) && InUserArea(va) && pa < TWO64 && pa % PG_SIZE == 0
      modifies this`mem, this`avail, this`at
      ensures Valid() && Live(sp) && InUse(old(mem), old(avail), old(at), mem, avail, at)
      ensures r == if |old(avail)| < Missing(old(at), sp.ptr - 5, va, PT_LEVELS) then Panic(NoMemory)
                   else MapVerdict(prot, Entry(old(mem), old(at), sp.ptr - 5, va / PG_SIZE))
      ensures r == Panic(NoMemory) ==> avail == {}
      ensures r == Done ==> PathNode(sp.ptr - 5, va, 4) in at
      ensures r == Done ==> PathAdded(old(at), at, sp.ptr - 5, va, PT_LEVELS)
      ensures r == Done ==> |old(avail)| == |avail| + Missing(old(at), sp.ptr - 5, va, PT_LEVELS)
      ensures RootsKept(old(at), at)
      ensures OneLeaf(old(mem), old(at), mem, at, sp.ptr - 5, va / PG_SIZE,
                      After(r, pa, prot, Entry(old(mem), old(at), sp.ptr - 5, va / PG_SIZE)))
    {
      ghost var s, v := sp.ptr - 5, va / PG_SIZE;
      ghost var e0 := Entry(mem, at, s, v);
      var slot := PtWalk(sp, va, Or(PTE_W, PTE_U));
      if slot == NoSlot {
        return Panic(NoMemory);
      }
      ghost var n := PathNode(s, va, 4);
      PrefixStep(va, 4);
      assert v == n.prefix * 512 + slot.index;
      ghost var mem1, avail1, at1 := mem, avail, at;
      assert Entry(mem, at, s, v) == e0;
      r := UpdateSlot(slot.page, slot.index, pa, prot, n);
      GrownThenLeaf(old(mem), old(avail), old(at), mem1, avail1, at1, mem, s, v, After(r, pa, prot, e0));
    }

    // The check and the write of map, on the slot that the walk found.
    method UpdateSlot(page: nat, index: nat, pa: nat, prot: nat, ghost n: Node) returns (r: Outcome)
      requires Valid() && n in at && n.level == 4 && at[n] == page && index < ENTRIES
      requires pa < TWO64 && pa % PG_SIZE == 0
      modifies this`mem
      ensures Valid() && InUse(old(mem), avail, at, mem, avail, at)
      ensures r == MapVerdict(prot, Entry(old(mem), at, n.space, n.prefix * 512 + index))
      ensures OneLeaf(old(mem), at, mem, at, n.space, n.prefix * 512 + index,
                      After(r, pa, prot, Entry(old(mem), at, n.space, n.prefix * 512 + index)))
    {
      var present := SlotPresent(page, index, n);
      if prot == MMAP_NONE {
        if !present {
          return Panic(NotMapped);
        }
        WriteLeaf(page, index, 0, n);
      } else {
        if present {
          return Panic(AlreadyMapped);
        }
        var pte := BuildPte(pa, prot);
        WriteLeaf(page, index, pte, n);
      }
      r := Done;
    }

    // *ptentry & PTE_P.
    method SlotPresent(page: nat, index: nat, ghost n: Node) returns (present: bool)
      requires Valid() && n in at && n.level == 4 && at[n] == page && index < ENTRIES
      ensures present <==> Entry(mem, at, n.space, n.prefix * 512 + index) != 0
    {
      LeafSlot(n, index);
      present := TestBit(mem[page][index], PTE_P);
    }

    method BuildPte(pa: nat, prot: nat) returns (pte: nat)
      requires pa < TWO64 && pa % PG_SIZE == 0 && prot != MMAP_NONE
      ensures pte == Installed(pa, prot) && LeafShape(pte)
    {
      pte := LeafEntry(pa, TestBit(prot, MMAP_WRITE));
      InstalledShape(pa, prot);
    }

    lemma LeafSlot(n: Node, i: nat)
      requires Valid() && n in at && n.level == 4 && i < ENTRIES
      ensures at[n] in mem && |mem[at[n]]| == ENTRIES
      ensures mem[at[n]][i] == Entry(mem, at, n.space, n.prefix * 512 + i)
      ensures TestBit(mem[at[n]][i], PTE_P) <==> mem[at[n]][i] != 0
    {
      assert NodeOk(at, n) && TableOk(mem, at, n);
      var e := mem[at[n]][i];
      DivModUnique(n.prefix * 512 + i, n.prefix, 512, i);
      assert EntryOk(e, at, n, i);
      LeafFields(e);
      FlagTests(e);
    }

    method WriteLeaf(page: nat, index: nat, e: nat, ghost n: Node)
      requires Valid() && n in at && n.level == 4 && at[n] == page && index < ENTRIES && LeafShape(e)
      modifies this`mem
      ensures Valid() && InUse(old(mem), avail, at, mem, avail, at)
      ensures OneLeaf(old(mem), at, mem, at, n.space, n.prefix * 512 + index, e)
    {
      LeafSlot(n, index);
      SetLeaf(mem, avail, at, n, index, e);
      forall s, vpn
        ensures Entry(WithEntry(mem, page, index, e), at, s, vpn)
             == if s == n.space && vpn == n.prefix * 512 + index then e else Entry(mem, at, s, vpn)
      {
        SetLeafEntry(mem, avail, at, n, index, e, s, vpn);
      }
      assert page in Pages(at);
      mem := WithEntry(mem, page, index, e);
    }

    // A new address space: an empty root that shares the kernel entries.
    method Protect(sp: AddrSpace) returns (r: Outcome)
      requires Valid()
      modifies this`mem, this`avail, this`at, sp
      ensures Valid() && InUse(old(mem), old(avail), old(at), mem, avail, at)
      ensures r == if old(avail) == {} then Panic(NoMemory) else Done
      ensures r == Done ==> Live(sp) && Root(sp.ptr - 5) !in old(at) && sp.ptr - 5 in old(avail)
      ensures r == Done ==> avail == old(avail) - {sp.ptr - 5} && |avail| == |old(avail)| - 1
      ensures r == Done ==> Step(old(Now()), Now(), Created(sp.ptr - 5))
    {
      var upt := NewRoot();
      if upt == 0 {
        return Panic(NoMemory);
      }
      sp.pgsize, sp.start, sp.end := PG_SIZE, USER_START, USER_END;
      TableEntryIs(upt);
      sp.ptr := Or(Or(upt, PTE_P), PTE_U);
      r := Done;
    }

    method NewRoot() returns (upt: nat)
      requires Valid()
      modifies this`mem, this`avail, this`at
      ensures Valid() && InUse(old(mem), old(avail), old(at), mem, avail, at)
      ensures upt == 0 <==> old(avail) == {}
      ensures upt != 0 ==> upt in old(avail) && avail == old(avail) - {upt} && |avail| == |old(avail)| - 1
      ensures upt != 0 ==> upt % PG_SIZE == 0 && Root(upt) !in old(at) && Step(old(Now()), Now(), Created(upt))
    {
      upt := PgAllocz();
      if upt == 0 {
        return;
      }
      ShareKernel(upt);
      assert mem == old(mem)[upt := ROOT_PAGE];
      AddRoot(old(mem), old(avail), at, upt);
      AddRootUse(old(mem), old(avail), at, upt);
      at := at[Root(upt) := upt];
    }

    // The level-1 entries of the kernel area are copied from the boot tables.
    method ShareKernel(upt: nat)
      requires BootOk(mem) && upt in mem && mem[upt] == ZERO_PAGE && upt != PML4_ADDR
      modifies this`mem
      ensures mem == old(mem)[upt := ROOT_PAGE]
    {
      var cur := KERNEL_START;
      while cur != KERNEL_END
        invariant cur == KERNEL_START || cur == KERNEL_END
        invariant mem == old(mem)[upt := if cur == KERNEL_START then ZERO_PAGE else ROOT_PAGE]
        decreases KERNEL_END - cur
      {
        IndexOfField(cur, 1);
        var index := IndexOf(cur, PGTABLES[1]);
        mem := WithEntry(mem, upt, index, mem[PML4_ADDR][index]);
        cur := cur + 0x8000000000;
      }
    }

    // memcpy of a whole page into a data page in use.
    method StorePage(p: nat, words: seq<nat>)
      requires Valid() && DataPage(Now(), p)
      modifies this`mem
      ensures mem == old(mem)[p := words] && Step(old(Now()), Now(), Wrote(p, words))
    {
      StoreKeepsTree(Now(), p, words);
      mem := mem[p := words];
    }

    // Freeing a page twice is excluded: it must not be free already. The allocator keeps
    // its own link in the first word, and halts at the page it takes for a small block.
    method PgFree(p: nat) returns (ok: bool)
      requires p in mem && |mem[p]| == ENTRIES && p !in avail && PmmLayout.IsBlock(heap, 8, p)
      modifies this`mem, this`avail
      ensures ok <==> p != PmmLayout.PageStart(heap)
      ensures ok ==> PmmLayout.PageReturned(old(avail), avail, p)
      ensures ok ==> SameExcept(old(mem), mem, {p})
    {
      PmmLayout.FreeRouteExact(heap, 8, p);
      if PmmLayout.FreeRoute(heap, p) == PmmLayout.Stuck {
        return false;
      }
      var link: nat := *;
      mem := WithEntry(mem, p, 0, link);
      avail := avail + {p};
      return true;
    }

    // Frees the tables below (and at) one table: at level 5 the entry is a data frame.
    method Teardown(level: nat, pt: nat, ghost n: Node, ghost mem0: Memory, ghost avail0: set<nat>) returns (ok: bool)
      requires TreeOk(mem0, avail0, at) && AllBlocks(heap, SubPages(at, n))
      requires 1 <= level <= 5 && n.level == level && (level <= 4 ==> n in at && at[n] == pt)
      requires SubPages(at, n) !! avail && SamePages(mem0, mem, SubPages(at, n))
      modifies this`mem, this`avail
      ensures ok <==> PmmLayout.PageStart(heap) !in SubPages(at, n)
      ensures ok ==> avail == old(avail) + SubPages(at, n)
      ensures ok ==> SameExcept(old(mem), mem, SubPages(at, n))
      decreases 6 - level, 1, 1
    {
      if level > PT_LEVELS {
        assert n in at ==> NodeOk(at, n);
        SubPagesEmpty(at, n);
        return true;
      }
      UpToAll(at, n);
      SubPagesApart(mem0, avail0, at, n, 0);
      ok := TeardownEntries(level, pt, n, mem0, avail0);
      if !ok {
        return;
      }
      assert TableOk(mem0, at, n);
      ok := PgFree(pt);
    }

    method TeardownEntries(level: nat, pt: nat, ghost n: Node, ghost mem0: Memory, ghost avail0: set<nat>)
      returns (ok: bool)
      requires TreeOk(mem0, avail0, at) && AllBlocks(heap, SubPages(at, n))
      requires 1 <= level <= 4 && n.level == level && n in at && at[n] == pt
      requires SubPages(at, n) !! avail && SamePages(mem0, mem, SubPages(at, n)) && at[n] in SubPages(at, n)
      modifies this`mem, this`avail
      ensures ok <==> PmmLayout.PageStart(heap) !in PagesUpTo(at, n, 512)
      ensures ok ==> avail == old(avail) + PagesUpTo(at, n, 512)
      ensures ok ==> SameExcept(old(mem), mem, PagesUpTo(at, n, 512))
      decreases 6 - level, 1, 0
    {
      var index := 0;
      while index < ENTRIES
        modifies this`mem, this`avail
        invariant index <= ENTRIES
        invariant PmmLayout.PageStart(heap) !in PagesUpTo(at, n, index)
        invariant avail == old(avail) + PagesUpTo(at, n, index)
        invariant SameExcept(old(mem), mem, PagesUpTo(at, n, index))
      {
        SubPagesApart(mem0, avail0, at, n, index);
        UpToStep(at, n, index);
        ok := TeardownEntry(level, pt, index, n, mem0, avail0);
        if !ok {
          UpToInAll(at, n, index);
          return;
        }
        index := index + 1;
      }
      ok := true;
    }

    // What lies below one entry lies below them all.
    lemma UpToInAll(t: Tree, n: Node, index: nat)
      requires index < 512
      ensures SubPages(t, Child(n, index)) <= PagesUpTo(t, n, 512)
    {
      UpToStep(t, n, index);
      UpToMono(t, n, index + 1, 512);
    }

    method TeardownEntry(level: nat, pt: nat, index: nat, ghost n: Node, ghost mem0: Memory, ghost avail0: set<nat>)
      returns (ok: bool)
      requires TreeOk(mem0, avail0, at) && index < ENTRIES && AllBlocks(heap, SubPages(at, Child(n, index)))
      requires 1 <= level <= 4 && n.level == level && n in at && at[n] == pt
      requires SubPages(at, Child(n, index)) !! avail
      requires SamePages(mem0, mem, SubPages(at, Child(n, index)) + {pt})
      modifies this`mem, this`avail
      ensures ok <==> PmmLayout.PageStart(heap) !in SubPages(at, Child(n, index))
      ensures ok ==> avail == old(avail) + SubPages(at, Child(n, index))
      ensures ok ==> SameExcept(old(mem), mem, SubPages(at, Child(n, index)))
      decreases 6 - level, 0, 0
    {
      EntryForTeardown(mem0, avail0, at, n, index);
      ok := true;
      var e := mem[pt][index];
      if TestBit(e, PTE_P) && TestBit(e, PTE_U) {
        ok := Teardown(level + 1, BaseOf(e), Child(n, index), mem0, avail0);
      }
    }

    // All tables of the space go back to the allocator, each once, and nothing else does;
    // the allocator halts if the page at the start of the page area is one of them.
    method Unprotect(sp: AddrSpace) returns (r: Outcome)
      requires Valid() && Live(sp) && FromHeap(heap, Now())
      modifies this`mem, this`avail, this`at
      ensures r == if PmmLayout.PageStart(heap) in SpacePages(old(at), sp.ptr - 5) then Panic(NotABlock) else Done
      ensures r == Done ==>
                && Valid() && avail == old(avail) + SpacePages(old(at), sp.ptr - 5)
                && at == OtherSpaces(old(at), sp.ptr - 5)
                && SameExcept(old(mem), mem, SpacePages(old(at), sp.ptr - 5))
                && Step(old(Now()), Now(), Destroyed(sp.ptr - 5))
      ensures r == Done ==> forall s, vpn ::
                s != sp.ptr - 5 ==> Entry(mem, at, s, vpn) == Entry(old(mem), old(at), s, vpn)
    {
      ghost var s := sp.ptr - 5;
      RootPointer(sp);
      SpaceIsSubtree(mem, avail, at, s);
      SpaceApartFromFree(mem, avail, at, s);
      // level 0: one entry, the root pointer itself
      if TestBit(sp.ptr, PTE_P) && TestBit(sp.ptr, PTE_U) {
        var ok := Teardown(1, BaseOf(sp.ptr), Root(s), mem, avail);
        if !ok {
          return Panic(NotABlock);
        }
      }
      DropSpace(old(mem), mem, old(avail), at, s);
      forall t, vpn | t != s
        ensures Entry(mem, OtherSpaces(at, s), t, vpn) == Entry(old(mem), at, t, vpn)
      {
        DropSpaceEntry(old(mem), mem, old(avail), at, s, t, vpn);
      }
      at := OtherSpaces(at, s);
      r := Done;
    }

    lemma RootPointer(sp: AddrSpace)
      requires Valid() && Live(sp)
      ensures BaseOf(sp.ptr) == sp.ptr - 5 && at[Root(sp.ptr - 5)] == sp.ptr - 5
      ensures TestBit(sp.ptr, PTE_P) && TestBit(sp.ptr, PTE_U)
    {
      assert NodeOk(at, Root(sp.ptr - 5));
      RootFields(sp.ptr - 5);
      BaseOfFrame(sp.ptr);
      FlagTests(sp.ptr);
    }

    // The slot of an address in a table of its path leads to the next table or is empty.
    lemma SlotOnPath(s: nat, addr: nat, i: nat)
      requires Valid() && KERNEL_END <= addr < VA_END && 1 <= i < 4
      requires PathNode(s, addr, i) in at
      ensures var n, c := PathNode(s, addr, i), PathNode(s, addr, i + 1);
              && at[n] in mem && |mem[at[n]]| == ENTRIES
              && c == Child(n, Index(addr, i)) && !KernelSlot(n, Index(addr, i))
              && var e := mem[at[n]][Index(addr, i)];
                 && (TestBit(e, PTE_P) <==> c in at)
                 && (c in at ==> BaseOf(e) == at[c] && at[c] != 0)
    {
      var n := PathNode(s, addr, i);
      PathStep(s, addr, i);
      assert NodeOk(at, n) && TableOk(mem, at, n);
      var e := mem[at[n]][Index(addr, i)];
      assert EntryOk(e, at, n, Index(addr, i));
      FlagTests(e);
      var c := PathNode(s, addr, i + 1);
      if c in at {
        assert NodeOk(at, c);
        TableEntryFields(at[c], e);
        BaseOfFrame(e);
      }
    }
  }
}
