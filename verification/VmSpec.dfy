/** What the operations of the virtual memory manager do to memory, free pages and page
    tables, stated on values. */
module VmSpec {
  import opened Bits
  import opened Paging
  import PmmLayout

  const MMAP_NONE: nat := 0
  const MMAP_WRITE: nat := 2

  datatype Reason = NoMemory | BadAddress | Unaligned | NotMapped | AlreadyMapped | TooManyPages | NotABlock

  // A panic halts the machine.
  datatype Outcome = Done | Panic(reason: Reason)

  predicate InUserArea(va: nat) { USER_START <= va < USER_END }

  // New tables, but no new space.
  ghost predicate RootsKept(at0: Tree, at: Tree) {
    forall s :: Root(s) in at <==> Root(s) in at0
  }

  // The leaf entry that map installs.
  function Installed(pa: nat, prot: nat): nat {
    if prot == MMAP_NONE then 0 else pa + if Writable(prot) then 7 else 5
  }

  // Only a mapped page can be unmapped, only an unmapped page can be mapped.
  function MapVerdict(prot: nat, e: nat): Outcome {
    if prot == MMAP_NONE then (if e == 0 then Panic(NotMapped) else Done)
    else (if e == 0 then Done else Panic(AlreadyMapped))
  }

  // The tables missing between the root and the leaf entry of an address, down to a level.
  function Missing(at: Tree, s: nat, va: nat, level: nat): nat {
    if level <= 1 then 0
    else Missing(at, s, va, level - 1) + if PathNode(s, va, level) in at then 0 else 1
  }

  // n is a table between the root and the leaf entry of an address, down to a level.
  predicate OnPath(n: Node, s: nat, va: nat, level: nat) {
    2 <= n.level <= level && n == PathNode(s, va, n.level)
  }

  // The tables of a path have been added, and no others.
  ghost predicate PathAdded(at0: Tree, at: Tree, s: nat, va: nat, level: nat) {
    forall n {:trigger n in at} :: n in at <==> n in at0 || OnPath(n, s, va, level)
  }

  lemma PathAddedNext(at0: Tree, at1: Tree, at: Tree, s: nat, va: nat, level: nat)
    requires 1 <= level < 4 && PathAdded(at0, at1, s, va, level)
    requires forall n {:trigger n in at} :: n in at <==> n in at1 || n == PathNode(s, va, level + 1)
    ensures PathAdded(at0, at, s, va, level + 1)
    ensures PathNode(s, va, level + 1) in at0 <==> PathNode(s, va, level + 1) in at1
  {
  }

  lemma {:induction false} MissingGrows(at: Tree, s: nat, va: nat, i: nat, j: nat)
    requires i <= j
    ensures Missing(at, s, va, i) <= Missing(at, s, va, j)
  {
    if i < j {
      MissingGrows(at, s, va, i, j - 1);
    }
  }

  // Where the leaf table exists, so does the whole path.
  lemma NothingMissing(at: Tree, s: nat, va: nat, level: nat)
    requires va < VA_END && forall n {:trigger NodeOk(at, n)} :: n in at ==> NodeOk(at, n)
    requires PathNode(s, va, 4) in at && level <= 4
    ensures Missing(at, s, va, level) == 0
  {
    if level > 1 {
      NothingMissing(at, s, va, level - 1);
      PathAbove(at, s, va, level);
    }
  }

  // How map ends, with so many free pages: the checks in their order, then the missing
  // tables, then the entry.
  function MapResult(free: nat, at: Tree, e: nat, s: nat, va: nat, pa: nat, prot: nat): Outcome {
    if !InUserArea(va) then Panic(BadAddress)
    else if va % PG_SIZE != 0 || pa % PG_SIZE != 0 then Panic(Unaligned)
    else if free < Missing(at, s, va, PT_LEVELS) then Panic(NoMemory)
    else MapVerdict(prot, e)
  }

  // A panic leaves the entry as it was.
  function After(r: Outcome, pa: nat, prot: nat, e: nat): nat {
    if r == Done then Installed(pa, prot) else e
  }

  /** On an aligned page of the user area an unmap succeeds exactly if the page is mapped, and
      leaves its entry empty; a map, with memory enough, exactly if it is not, and leaves the frame
      with present and user bits. Everything else is refused and leaves the entry as it was. */
  lemma MapMeaning(free: nat, at: Tree, e: nat, s: nat, va: nat, pa: nat, prot: nat)
    ensures var r, aligned := MapResult(free, at, e, s, va, pa, prot), va % PG_SIZE == 0 && pa % PG_SIZE == 0;
            && (r == Panic(BadAddress) <==> va < USER_START || USER_END <= va)
            && (r == Panic(Unaligned) <==> USER_START <= va < USER_END && !aligned)
            && (r == Panic(NoMemory) ==> free < Missing(at, s, va, PT_LEVELS))
            && (USER_START <= va < USER_END && aligned && free >= Missing(at, s, va, PT_LEVELS) ==>
                 && (prot == 0 && e != 0 ==> r == Done && After(r, pa, prot, e) == 0)
                 && (prot == 0 && e == 0 ==> r == Panic(NotMapped))
                 && (prot != 0 && e != 0 ==> r == Panic(AlreadyMapped))
                 && (prot != 0 && e == 0 ==>
                      r == Done && (After(r, pa, prot, e) == pa + 5 || After(r, pa, prot, e) == pa + 7)))
            && (r != Done ==> After(r, pa, prot, e) == e)
  {
  }

  // A mapped page can be unmapped however few pages are free.
  lemma UnmapSucceeds(st: State, s: nat, va: nat, pa: nat)
    requires TreeOk(st.mem, st.avail, st.at) && USER_START <= va < USER_END
    requires va % PG_SIZE == 0 && pa % PG_SIZE == 0 && Entry(st.mem, st.at, s, va / PG_SIZE) != 0
    ensures MapResult(|st.avail|, st.at, Entry(st.mem, st.at, s, va / PG_SIZE), s, va, pa, MMAP_NONE) == Done
  {
    PrefixStep(va, 4);
    assert PathNode(s, va, 4) in st.at;
    NothingMissing(st.at, s, va, PT_LEVELS);
  }

  lemma InstalledShape(pa: nat, prot: nat)
    requires pa < TWO64 && pa % PG_SIZE == 0 && prot != MMAP_NONE
    ensures LeafEntry(pa, TestBit(prot, MMAP_WRITE)) == Installed(pa, prot)
    ensures LeafShape(Installed(pa, prot))
  {
    LeafEntryIs(pa, TestBit(prot, MMAP_WRITE));
    FlagTests(prot);
  }

  lemma AlignedByMask(a: nat)
    requires a < TWO64
    ensures a == BaseOf(a) <==> a % PG_SIZE == 0
  {
    BaseOfFrame(a);
  }

  // Tables only grow, out of the free pages; pages in use that are no tables keep their bytes.
  ghost predicate InUse(mem0: Memory, avail0: set<nat>, at0: Tree, mem: Memory, avail: set<nat>, at: Tree) {
    && (forall n :: n in at0 ==> n in at && at[n] == at0[n])
    && avail <= avail0
    && Pages(at) == Pages(at0) + (avail0 - avail)
    && mem.Keys == mem0.Keys
    && (forall p :: p in mem0 && p !in avail0 && p !in Pages(at0) ==> mem[p] == mem0[p])
  }

  // At most one leaf entry of one space changed.
  ghost predicate OneLeaf(mem0: Memory, at0: Tree, mem: Memory, at: Tree, s0: nat, vpn0: nat, e: nat) {
    forall s, vpn {:trigger Entry(mem, at, s, vpn)} ::
      Entry(mem, at, s, vpn) == if s == s0 && vpn == vpn0 then e else Entry(mem0, at0, s, vpn)
  }

  lemma GrownThenLeaf(mem0: Memory, avail0: set<nat>, at0: Tree, mem1: Memory, avail1: set<nat>, at1: Tree,
                      mem2: Memory, s: nat, vpn: nat, e: nat)
    requires Grown(mem0, avail0, at0, mem1, avail1, at1)
    requires InUse(mem1, avail1, at1, mem2, avail1, at1)
    requires OneLeaf(mem1, at1, mem2, at1, s, vpn, e)
    ensures InUse(mem0, avail0, at0, mem2, avail1, at1)
    ensures OneLeaf(mem0, at0, mem2, at1, s, vpn, e)
  {
  }

  // A space without any mapping has come into being; the others are as before.
  ghost predicate NothingMapped(mem0: Memory, at0: Tree, mem: Memory, at: Tree, s0: nat) {
    forall s, vpn {:trigger Entry(mem, at, s, vpn)} ::
      Entry(mem, at, s, vpn) == if s == s0 then 0 else Entry(mem0, at0, s, vpn)
  }

  lemma AddRootUse(mem: Memory, avail: set<nat>, at: Tree, p: nat)
    requires TreeOk(mem, avail, at) && p in avail
    ensures Root(p) !in at
    ensures InUse(mem, avail, at, mem[p := ROOT_PAGE], avail - {p}, at[Root(p) := p])
    ensures NothingMapped(mem, at, mem[p := ROOT_PAGE], at[Root(p) := p], p)
  {
    AddRoot(mem, avail, at, p);
    PagesAdd(at, Root(p), p);
    assert avail - (avail - {p}) == {p};
    AddRootEmpty(mem, avail, at, p);
  }

  lemma AddRootEmpty(mem: Memory, avail: set<nat>, at: Tree, p: nat)
    requires TreeOk(mem, avail, at) && p in avail
    ensures NothingMapped(mem, at, mem[p := ROOT_PAGE], at[Root(p) := p], p)
  {
    forall s, vpn
      ensures Entry(mem[p := ROOT_PAGE], at[Root(p) := p], s, vpn) == if s == p then 0 else Entry(mem, at, s, vpn)
    {
      AddRootEntry(mem, avail, at, p, s, vpn);
    }
  }

  ghost predicate SamePages(mem0: Memory, mem: Memory, pages: set<nat>) {
    forall p :: p in pages && p in mem0 ==> p in mem && mem[p] == mem0[p]
  }

  lemma SpaceApartFromFree(mem: Memory, avail: set<nat>, at: Tree, s: nat)
    requires TreeOk(mem, avail, at)
    ensures SpacePages(at, s) !! avail
  {
    forall n | n in at
      ensures at[n] !in avail
    {
      assert NodeOk(at, n);
    }
  }

  lemma PathAbove(at: Tree, s: nat, va: nat, level: nat)
    requires va < VA_END && 1 <= level <= 4
    requires forall n {:trigger NodeOk(at, n)} :: n in at ==> NodeOk(at, n)
    ensures PathNode(s, va, 4) in at ==> PathNode(s, va, level) in at
  {
    if level < 4 && PathNode(s, va, 4) in at {
      PathClosed(at, s, va, level);
    }
  }

  // Tables were added and no leaf entry of any space changed.
  ghost predicate Grown(mem0: Memory, avail0: set<nat>, at0: Tree, mem: Memory, avail: set<nat>, at: Tree) {
    && InUse(mem0, avail0, at0, mem, avail, at)
    && RootsKept(at0, at)
    && (forall s, vpn {:trigger Entry(mem, at, s, vpn)} :: Entry(mem, at, s, vpn) == Entry(mem0, at0, s, vpn))
  }

  lemma AddTableGrown(mem: Memory, avail: set<nat>, at: Tree, n: Node, i: nat, p: nat)
    requires TreeOk(mem, avail, at)
    requires n in at && n.level < 4 && i < ENTRIES && !KernelSlot(n, i) && Child(n, i) !in at
    requires p in avail
    ensures at[n] in mem && |mem[at[n]]| == ENTRIES
    ensures Grown(mem, avail, at, WithEntry(mem[p := ZERO_PAGE], at[n], i, p + 7), avail - {p}, at[Child(n, i) := p])
  {
    assert NodeOk(at, n) && TableOk(mem, at, n);
    PagesAdd(at, Child(n, i), p);
    var mem', at' := WithEntry(mem[p := ZERO_PAGE], at[n], i, p + 7), at[Child(n, i) := p];
    forall s, vpn
      ensures Entry(mem', at', s, vpn) == Entry(mem, at, s, vpn)
    {
      AddTableEntry(mem, avail, at, n, i, p, s, vpn);
    }
    assert at[n] in Pages(at);
    assert avail - (avail - {p}) == {p};
  }

  lemma PagesAdd(at: Tree, c: Node, p: nat)
    requires c !in at
    ensures Pages(at[c := p]) == Pages(at) + {p}
  {
    var at' := at[c := p];
    forall q | q in Pages(at)
      ensures q in Pages(at')
    {
      var n :| n in at && at[n] == q;
      assert at'[n] == q;
    }
    assert at'[c] == p;
  }

  lemma InUseTwice(mem0: Memory, avail0: set<nat>, at0: Tree, mem1: Memory, avail1: set<nat>, at1: Tree,
                   mem2: Memory, avail2: set<nat>, at2: Tree)
    requires InUse(mem0, avail0, at0, mem1, avail1, at1)
    requires InUse(mem1, avail1, at1, mem2, avail2, at2)
    ensures InUse(mem0, avail0, at0, mem2, avail2, at2)
  {
    assert avail0 - avail2 == (avail0 - avail1) + (avail1 - avail2);
    forall p | p in mem0 && p !in avail0 && p !in Pages(at0)
      ensures mem2[p] == mem0[p]
    {
      assert p !in Pages(at1);
    }
  }

  lemma GrownTwice(mem0: Memory, avail0: set<nat>, at0: Tree, mem1: Memory, avail1: set<nat>, at1: Tree,
                   mem2: Memory, avail2: set<nat>, at2: Tree)
    requires Grown(mem0, avail0, at0, mem1, avail1, at1)
    requires Grown(mem1, avail1, at1, mem2, avail2, at2)
    ensures Grown(mem0, avail0, at0, mem2, avail2, at2)
  {
    InUseTwice(mem0, avail0, at0, mem1, avail1, at1, mem2, avail2, at2);
  }

  // ---- single steps ------------------------------------------------------------------

  datatype State = State(mem: Memory, avail: set<nat>, at: Tree)

  datatype Op =
    | Created(space: nat)
    | Set(space: nat, vpn: nat, entry: nat)   // map, or unmap with entry 0
    | Destroyed(space: nat)
    | Took(frame: nat)                        // a data page leaves the allocator
    | Wrote(frame: nat, words: seq<nat>)      // a store to a data page in use

  // Pages are blocks of the allocator's page class.
  ghost predicate AllBlocks(h: PmmLayout.Heap, pages: set<nat>) {
    forall p :: p in pages ==> PmmLayout.IsBlock(h, 8, p)
  }

  ghost predicate FromHeap(h: PmmLayout.Heap, st: State) {
    AllBlocks(h, st.avail) && AllBlocks(h, Pages(st.at))
  }

  // A page in use that is no page table.
  ghost predicate DataPage(st: State, p: nat) {
    p in st.mem && p !in st.avail && p !in Pages(st.at) && p != PML4_ADDR && p != PDPT_ADDR
  }

  // What the operations of the manager guarantee about the raw state.
  ghost predicate Step(a: State, b: State, op: Op) {
    && TreeOk(b.mem, b.avail, b.at)
    && match op
       case Created(s) =>
         && Root(s) !in a.at && Root(s) in b.at
         && b.at == a.at[Root(s) := s]
         && InUse(a.mem, a.avail, a.at, b.mem, b.avail, b.at)
         && NothingMapped(a.mem, a.at, b.mem, b.at, s)
       case Set(s, vpn, e) =>
         && Root(s) in a.at && USER_START <= vpn * PG_SIZE < USER_END
         && RootsKept(a.at, b.at)
         && InUse(a.mem, a.avail, a.at, b.mem, b.avail, b.at)
         && OneLeaf(a.mem, a.at, b.mem, b.at, s, vpn, e)
       case Destroyed(s) =>
         && Root(s) in a.at
         && b.at == OtherSpaces(a.at, s)
         && b.avail == a.avail + SpacePages(a.at, s)
         && SameExcept(a.mem, b.mem, SpacePages(a.at, s))
       case Took(p) =>
         p in a.avail && b == a.(avail := a.avail - {p})
       case Wrote(p, words) =>
         DataPage(a, p) && b == a.(mem := a.mem[p := words])
  }

  lemma SetStep(a: State, b: State, s: nat, va: nat, e: nat)
    requires TreeOk(b.mem, b.avail, b.at) && Root(s) in a.at && RootsKept(a.at, b.at)
    requires USER_START <= va < USER_END && va % PG_SIZE == 0
    requires InUse(a.mem, a.avail, a.at, b.mem, b.avail, b.at)
    requires OneLeaf(a.mem, a.at, b.mem, b.at, s, va / PG_SIZE, e)
    ensures Step(a, b, Set(s, va / PG_SIZE, e))
  {
  }

  lemma StoreKeepsTree(st: State, p: nat, words: seq<nat>)
    requires TreeOk(st.mem, st.avail, st.at) && DataPage(st, p)
    ensures TreeOk(st.mem[p := words], st.avail, st.at)
  {
    var mem' := st.mem[p := words];
    forall n | n in st.at
      ensures NodeOk(st.at, n) && st.at[n] !in st.avail && TableOk(mem', st.at, n)
    {
      assert NodeOk(st.at, n) && TableOk(st.mem, st.at, n);
      assert st.at[n] in Pages(st.at);
      forall j | 0 <= j < ENTRIES
        ensures EntryOk(mem'[st.at[n]][j], st.at, n, j)
      {
        assert EntryOk(st.mem[st.at[n]][j], st.at, n, j);
      }
    }
  }
}
