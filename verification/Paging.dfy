/** Four-level paging as the hardware walks it (section 4.5 of the Intel SDM, Volume 3A),
    the table geometry of the kernel, and the shape its page tables keep in raw memory. */
module Paging {
  import opened Bits

  const PTE_P: nat := 0x1
  const PTE_W: nat := 0x2
  const PTE_U: nat := 0x4

  const PG_SIZE: nat := 4096
  const PT_LEVELS: nat := 4
  const ENTRIES: nat := 512

  datatype PtInfo = PtInfo(mask: nat, shift: nat, bits: nat)

  const PGTABLES: seq<PtInfo> := [
    PtInfo(0x000000000000, 0, 0),
    PtInfo(0xff8000000000, 39, 9),
    PtInfo(0x007fc0000000, 30, 9),
    PtInfo(0x00003fe00000, 21, 9),
    PtInfo(0x0000001ff000, 12, 9)]

  const USER_START: nat := 0x100000000000
  const USER_END: nat := 0x108000000000
  const KERNEL_START: nat := 0x000000000000
  const KERNEL_END: nat := 0x008000000000
  const VA_END: nat := 0x1000000000000

  const PML4_ADDR: nat := 0x1000
  const PDPT_ADDR: nat := 0x2000

  // ---- the fields of an address and of an entry ------------------------------

  function IndexOf(addr: nat, info: PtInfo): nat {
    Shr(And(addr, info.mask), info.shift)
  }

  function BaseOf(addr: nat): nat {
    And(addr, 0xFFFF_FFFF_FFFF_F000)
  }

  // What the masks of the table mean: nine bits each, level 1 the most significant.
  function Index(va: nat, level: nat): (i: nat)
    ensures i < ENTRIES
  {
    if level == 1 then va / 0x8000000000 % 512
    else if level == 2 then va / 0x40000000 % 512
    else if level == 3 then va / 0x200000 % 512
    else if level == 4 then va / 0x1000 % 512
    else 0
  }

  // The part of an address that selects the table at a level.
  function Prefix(va: nat, level: nat): nat {
    if level <= 1 then va / VA_END
    else if level == 2 then va / 0x8000000000
    else if level == 3 then va / 0x40000000
    else if level == 4 then va / 0x200000
    else va / 0x1000
  }

  lemma PrefixStep(va: nat, level: nat)
    requires 1 <= level <= 4
    ensures Prefix(va, level + 1) == Prefix(va, level) * 512 + Index(va, level)
    ensures Prefix(va, level + 1) / 512 == Prefix(va, level)
    ensures Prefix(va, level + 1) % 512 == Index(va, level)
  {
  }

  lemma MaskedField(addr: nat, mask: nat, shift: nat, bits: nat)
    requires mask == Shl(Ones(bits), shift)
    ensures Shr(And(addr, mask), shift) == Low(Shr(addr, shift), bits)
  {
    AndShl(addr, Ones(bits), shift);
    AndOnes(Shr(addr, shift), bits);
    SplitUnique(Low(Shr(addr, shift), bits), 0, shift);
  }

  lemma TableMask(level: nat)
    requires 1 <= level <= 4
    ensures PGTABLES[level].mask == Shl(Ones(9), PGTABLES[level].shift)
  {
    ShlPow2(Ones(9), PGTABLES[level].shift);
    ShiftPowers();
  }

  lemma ShiftPowers()
    ensures Ones(9) == 511
    ensures Pow2(9) == 512 && Pow2(12) == 0x1000 && Pow2(21) == 0x200000
    ensures Pow2(30) == 0x40000000 && Pow2(39) == 0x8000000000
  {
    OnesPow2(9);
    Pow2Add(9, 12);
    Pow2Add(9, 21);
    Pow2Add(9, 30);
  }

  /** The four masks and shifts select the four nine-bit fields. */
  lemma IndexOfField(addr: nat, level: nat)
    requires level <= 4
    ensures IndexOf(addr, PGTABLES[level]) == Index(addr, level)
  {
    if level == 0 {
      AndZero(addr);
    } else {
      var info := PGTABLES[level];
      TableMask(level);
      MaskedField(addr, info.mask, info.shift, 9);
      ShrLowDivMod(addr, info.shift);
      ShrLowDivMod(Shr(addr, info.shift), 9);
      ShiftPowers();
    }
  }

  // Two user pages that agree on all four indices are the same page.
  lemma IndicesInjective(va: nat, va': nat)
    requires va < VA_END && va' < VA_END
    requires forall level :: 1 <= level <= 4 ==> Index(va, level) == Index(va', level)
    ensures va / PG_SIZE == va' / PG_SIZE
  {
    PrefixesAgree(va, va', 4);
  }

  lemma {:induction false} PrefixesAgree(va: nat, va': nat, level: nat)
    requires va < VA_END && va' < VA_END && 1 <= level <= 4
    requires forall l :: 1 <= l <= 4 ==> Index(va, l) == Index(va', l)
    ensures Prefix(va, level + 1) == Prefix(va', level + 1)
  {
    PrefixStep(va, level);
    PrefixStep(va', level);
    if level > 1 {
      PrefixesAgree(va, va', level - 1);
    }
  }

  predicate Present(e: nat) { e % 2 == 1 }
  predicate Writable(e: nat) { e / 2 % 2 == 1 }
  predicate User(e: nat) { e / 4 % 2 == 1 }
  predicate Large(e: nat) { e / 0x80 % 2 == 1 }

  function FrameOf(e: nat): nat { e - e % PG_SIZE }

  predicate TestBit(e: nat, flag: nat) { And(e, flag) != 0 }

  lemma FlagTests(e: nat)
    ensures TestBit(e, PTE_P) <==> Present(e)
    ensures TestBit(e, PTE_W) <==> Writable(e)
    ensures TestBit(e, PTE_U) <==> User(e)
  {
    AndShl(e, Ones(1), 0);
    AndShl(e, Ones(1), 1);
    AndShl(e, Ones(1), 2);
    AndOnes(e, 1);
    AndOnes(e / 2, 1);
    AndOnes(e / 2 / 2, 1);
    assert Low(e / 2, 1) == e / 2 % 2;
    assert Low(e / 2 / 2, 1) == e / 2 / 2 % 2;
  }

  lemma BaseOfFrame(e: nat)
    requires e < TWO64
    ensures BaseOf(e) == FrameOf(e)
  {
    ShiftPowers();
    Pow2Long();
    Pow2Add(12, 52);
    OnesPow2(52);
    ShlPow2(Ones(52), 12);
    AndShl(e, Ones(52), 12);
    AndOnes(Shr(e, 12), 52);
    ShrBound(e, 12, 52);
    LowSmall(Shr(e, 12), 52);
    ShrLow(e, 12);
    ShrLowDivMod(e, 12);
  }

  predicate IsFrame(p: nat) {
    p % PG_SIZE == 0 && 0 < p < 0x10000000000000
  }

  lemma {:induction false} OrWithin(h: nat, l: nat, f: nat, k: nat)
    requires l < Pow2(k) && f < Pow2(k)
    ensures Or(Shl(h, k) + l, f) == Shl(h, k) + Or(l, f)
  {
    if k == 0 {
      OrZero(h);
    } else {
      OrWithin(h, l / 2, f / 2, k - 1);
      var x := Shl(h, k) + l;
      assert x / 2 == Shl(h, k - 1) + l / 2 && x % 2 == l % 2;
    }
  }

  // Flags or-ed into a page-aligned address add up.
  lemma OrFlags(p: nat, l: nat, f: nat)
    requires p % PG_SIZE == 0 && l < 8 && f < 8
    ensures Or(p + l, f) == p + Or(l, f)
  {
    ShiftPowers();
    var h := p / PG_SIZE;
    ShlPow2(h, 12);
    OrWithin(h, l, f, 12);
  }

  function TableEntry(page: nat, flags: nat): nat {
    Or(Or(page, PTE_P), flags)
  }

  lemma SmallOrs()
    ensures Or(0, 1) == 1 && Or(2, 4) == 6 && Or(1, 6) == 7 && Or(1, 4) == 5 && Or(5, 2) == 7 && Or(5, 0) == 5
  {
  }

  lemma TableEntryIs(page: nat)
    requires page % PG_SIZE == 0
    ensures TableEntry(page, Or(PTE_W, PTE_U)) == page + 7
    ensures Or(Or(page, PTE_P), PTE_U) == page + 5
  {
    SmallOrs();
    OrFlags(page, 0, 1);
    OrFlags(page, 1, 6);
    OrFlags(page, 1, 4);
  }

  function LeafEntry(pa: nat, write: bool): nat {
    Or(Or(Or(pa, PTE_P), PTE_U), if write then PTE_W else 0)
  }

  lemma LeafEntryIs(pa: nat, write: bool)
    requires pa % PG_SIZE == 0
    ensures LeafEntry(pa, write) == pa + if write then 7 else 5
  {
    TableEntryIs(pa);
    OrFlags(pa, 5, if write then 2 else 0);
    SmallOrs();
  }

  // ---- the hardware walk -----------------------------------------------------

  datatype Translation = Fault | To(pa: nat, writable: bool, user: bool)

  type Memory = map<nat, seq<nat>>

  // From the table of one level down to the page; bit 7 at levels 2 and 3 maps a large page.
  function Walk(mem: Memory, level: nat, table: nat, va: nat, w: bool, u: bool): Translation
    requires 1 <= level <= 4
    decreases 5 - level
  {
    if table !in mem || |mem[table]| != ENTRIES then Fault else
    var e := mem[table][Index(va, level)];
    var w', u' := w && Writable(e), u && User(e);
    if !Present(e) then Fault
    else if level == 4 then To(FrameOf(e) + va % 0x1000, w', u')
    else if level == 2 && Large(e) then To(e - e % 0x40000000 + va % 0x40000000, w', u')
    else if level == 3 && Large(e) then To(e - e % 0x200000 + va % 0x200000, w', u')
    else Walk(mem, level + 1, FrameOf(e), va, w', u')
  }

  function Translate(mem: Memory, cr3: nat, va: nat): Translation {
    Walk(mem, 1, FrameOf(cr3), va, true, true)
  }

  // ---- the shape of the tables -----------------------------------------------

  // The place of a table: its address space (named by its root page), its level, and
  // the address bits that lead to it.
  datatype Node = Node(space: nat, level: nat, prefix: nat)

  type Tree = map<Node, nat>

  function Root(s: nat): Node { Node(s, 1, 0) }

  function Child(n: Node, i: nat): Node { Node(n.space, n.level + 1, n.prefix * 512 + i) }

  function Parent(n: Node): Node
    requires n.level >= 1
  {
    Node(n.space, n.level - 1, n.prefix / 512)
  }

  lemma ChildParent(n: Node, i: nat)
    requires i < 512
    ensures Parent(Child(n, i)) == n && Child(n, i).prefix % 512 == i
  {
  }

  // Entry 0 of a root is the shared kernel entry.
  predicate KernelSlot(n: Node, i: nat) { n.level == 1 && i == 0 }

  predicate LeafShape(e: nat) {
    e == 0 || (e < TWO64 && (e % PG_SIZE == 5 || e % PG_SIZE == 7))
  }

  ghost predicate EntryOk(e: nat, at: Tree, n: Node, i: nat) {
    if n.level == 4 then LeafShape(e)
    else if KernelSlot(n, i) then e == PDPT_ADDR + 3
    else if Child(n, i) in at then e == at[Child(n, i)] + 7
    else e == 0
  }

  ghost predicate TableOk(mem: Memory, at: Tree, n: Node)
    requires n in at
  {
    && at[n] in mem && |mem[at[n]]| == ENTRIES
    && forall i :: 0 <= i < ENTRIES ==> EntryOk(mem[at[n]][i], at, n, i)
  }

  ghost predicate NodeOk(at: Tree, n: Node)
    requires n in at
  {
    && 1 <= n.level <= 4
    && IsFrame(at[n]) && at[n] != PML4_ADDR && at[n] != PDPT_ADDR
    && (n.level == 1 ==> n.prefix == 0 && at[n] == n.space)
    && (n.level > 1 ==> Parent(n) in at && !KernelSlot(Parent(n), n.prefix % 512))
  }

  // No page stands in two places.
  ghost predicate Apart(at: Tree, n: Node, m: Node)
    requires n in at && m in at
  {
    at[n] == at[m] ==> n == m
  }

  // The tables the boot code left: 512 large pages that map the kernel half to itself.
  ghost predicate BootOk(mem: Memory) {
    && PML4_ADDR in mem && |mem[PML4_ADDR]| == ENTRIES && mem[PML4_ADDR][0] == PDPT_ADDR + 3
    && PDPT_ADDR in mem && |mem[PDPT_ADDR]| == ENTRIES
    && forall i :: 0 <= i < ENTRIES ==> mem[PDPT_ADDR][i] == i * 0x40000000 + 0x83
  }

  ghost predicate FreeOk(mem: Memory, avail: set<nat>) {
    forall p :: p in avail ==>
      IsFrame(p) && p != PML4_ADDR && p != PDPT_ADDR && p in mem && |mem[p]| == ENTRIES
  }

  /** Every space is a tree of pages of its own, disjoint from the free pages, whose
      entries lead exactly to its children. */
  ghost predicate TreeOk(mem: Memory, avail: set<nat>, at: Tree) {
    && BootOk(mem)
    && FreeOk(mem, avail)
    && (forall n {:trigger NodeOk(at, n)} :: n in at ==> NodeOk(at, n) && at[n] !in avail)
    && (forall n {:trigger TableOk(mem, at, n)} :: n in at ==> TableOk(mem, at, n))
    && (forall n, m {:trigger Apart(at, n, m)} :: n in at && m in at ==> Apart(at, n, m))
  }

  function Pages(at: Tree): set<nat> { at.Values }

  // The leaf entry of a page, read through the tree; 0 when a table is missing.
  function Entry(mem: Memory, at: Tree, s: nat, vpn: nat): nat {
    var n := Node(s, 4, vpn / 512);
    if n in at && at[n] in mem && |mem[at[n]]| == ENTRIES then mem[at[n]][vpn % 512] else 0
  }

  // The table of a level on the path of an address.
  function PathNode(s: nat, va: nat, level: nat): Node { Node(s, level, Prefix(va, level)) }

  lemma PathStep(s: nat, va: nat, level: nat)
    requires 1 <= level <= 4
    ensures PathNode(s, va, level + 1) == Child(PathNode(s, va, level), Index(va, level))
    ensures Parent(PathNode(s, va, level + 1)) == PathNode(s, va, level)
  {
    PrefixStep(va, level);
  }

  // A table on the path has all the tables above it.
  lemma {:induction false} PathClosed(at: Tree, s: nat, va: nat, level: nat)
    requires va < VA_END && 1 <= level < 4
    requires forall n {:trigger NodeOk(at, n)} :: n in at ==> NodeOk(at, n)
    requires PathNode(s, va, 4) in at
    ensures PathNode(s, va, level) in at
    decreases 4 - level
  {
    PathStep(s, va, level);
    if level < 3 {
      PathClosed(at, s, va, level + 1);
    }
    assert NodeOk(at, PathNode(s, va, level + 1));
  }

  // What an entry of the leaf table means to the hardware.
  function LeafTranslation(e: nat, va: nat): Translation {
    if e == 0 then Fault else To(FrameOf(e) + va % PG_SIZE, Writable(e), true)
  }

  lemma TableEntryFields(page: nat, e: nat)
    requires page % PG_SIZE == 0 && e == page + 7
    ensures Present(e) && Writable(e) && User(e) && !Large(e) && FrameOf(e) == page
  {
    var q := page / PG_SIZE;
    BitIs(e, 1, q * 0x800 + 3, 1, 0);
    BitIs(e, 2, q * 0x400 + 1, 1, 1);
    BitIs(e, 4, q * 0x200, 1, 3);
    BitIs(e, 0x80, q * 0x10, 0, 7);
    DivModUnique(e, q, PG_SIZE, 7);
  }

  lemma LeafFields(e: nat)
    requires LeafShape(e)
    ensures Present(e) <==> e != 0
    ensures e != 0 ==> User(e)
  {
  }

  // Below the root, the walk of a user address ends at the leaf entry.
  lemma {:induction false} WalkIsEntry(mem: Memory, avail: set<nat>, at: Tree, s: nat, va: nat, level: nat)
    requires TreeOk(mem, avail, at)
    requires va < VA_END && va >= KERNEL_END && 1 <= level <= 4
    requires PathNode(s, va, level) in at
    ensures Walk(mem, level, at[PathNode(s, va, level)], va, true, true)
         == LeafTranslation(Entry(mem, at, s, va / PG_SIZE), va)
    decreases 5 - level
  {
    var n := PathNode(s, va, level);
    var i := Index(va, level);
    assert TableOk(mem, at, n);
    var e := mem[at[n]][i];
    assert EntryOk(e, at, n, i);
    if level == 4 {
      LeafFields(e);
      assert Node(s, 4, va / PG_SIZE / 512) == n;
    } else {
      PathStep(s, va, level);
      var c := PathNode(s, va, level + 1);
      if c in at {
        assert NodeOk(at, c);
        TableEntryFields(at[c], e);
        WalkIsEntry(mem, avail, at, s, va, level + 1);
      } else {
        NoLeaf(at, s, va, level + 1);
      }
    }
  }

  lemma NoLeaf(at: Tree, s: nat, va: nat, level: nat)
    requires va < VA_END && 1 <= level <= 4
    requires forall n {:trigger NodeOk(at, n)} :: n in at ==> NodeOk(at, n)
    requires PathNode(s, va, level) !in at
    ensures Node(s, 4, va / PG_SIZE / 512) !in at
  {
    assert Node(s, 4, va / PG_SIZE / 512) == PathNode(s, va, 4);
    if level < 4 && PathNode(s, va, 4) in at {
      PathClosed(at, s, va, level);
    }
  }

  lemma RootFields(s: nat)
    requires s % PG_SIZE == 0
    ensures FrameOf(s + 5) == s && Present(s + 5) && User(s + 5)
  {
    var q := s / PG_SIZE;
    BitIs(s + 5, 1, q * 0x800 + 2, 1, 0);
    BitIs(s + 5, 4, q * 0x200, 1, 1);
    DivModUnique(s + 5, q, PG_SIZE, 5);
  }

  /** The hardware translates an address outside the kernel half by its leaf entry. */
  lemma TranslateIsEntry(mem: Memory, avail: set<nat>, at: Tree, s: nat, va: nat)
    requires TreeOk(mem, avail, at) && Root(s) in at
    requires KERNEL_END <= va < VA_END
    ensures Translate(mem, s + 5, va) == LeafTranslation(Entry(mem, at, s, va / PG_SIZE), va)
  {
    assert NodeOk(at, Root(s));
    RootFields(s);
    assert PathNode(s, va, 1) == Root(s);
    WalkIsEntry(mem, avail, at, s, va, 1);
  }

  /** The kernel half is the identity in every space: writable, closed to user code. */
  lemma KernelHalf(mem: Memory, avail: set<nat>, at: Tree, s: nat, va: nat)
    requires TreeOk(mem, avail, at) && Root(s) in at
    requires va < KERNEL_END
    ensures Translate(mem, s + 5, va) == To(va, true, false)
  {
    assert NodeOk(at, Root(s)) && TableOk(mem, at, Root(s));
    assert EntryOk(mem[at[Root(s)]][0], at, Root(s), 0);
    RootFields(s);
    KernelEntryFields();
    var i := va / 0x40000000;
    LargeFields(mem[PDPT_ADDR][i], i, va);
    assert Walk(mem, 2, PDPT_ADDR, va, true, false) == To(va, true, false);
  }

  lemma KernelEntryFields()
    ensures var e := PDPT_ADDR + 3; Present(e) && Writable(e) && !User(e) && FrameOf(e) == PDPT_ADDR
  {
  }

  lemma LargeFields(e: nat, i: nat, va: nat)
    requires va < KERNEL_END && i == va / 0x40000000 && e == i * 0x40000000 + 0x83
    ensures Present(e) && Writable(e) && !User(e) && Large(e)
    ensures e - e % 0x40000000 + va % 0x40000000 == va
    ensures Index(va, 1) == 0 && Index(va, 2) == i
  {
    LargeFlags(e, i * 0x400000);
    assert e % 0x40000000 == 0x83;
  }

  lemma BitIs(e: nat, d: nat, k: nat, bit: nat, r: nat)
    requires d > 0 && e == (2 * k + bit) * d + r && r < d && bit < 2
    ensures e / d % 2 == bit
  {
    DivModUnique(e, 2 * k + bit, d, r);
  }

  lemma LargeFlags(e: nat, j: nat)
    requires e == j * 0x100 + 0x83
    ensures Present(e) && Writable(e) && !User(e) && Large(e)
  {
    BitIs(e, 1, j * 0x80 + 0x41, 1, 0);
    BitIs(e, 2, j * 0x40 + 0x20, 1, 1);
    BitIs(e, 4, j * 0x20 + 0x10, 0, 3);
    BitIs(e, 0x80, j, 1, 3);
  }

  // ---- what one write does to the tables ---------------------------------------

  function WithEntry(mem: Memory, p: nat, i: nat, e: nat): Memory
    requires p in mem && i < |mem[p]|
  {
    var page: seq<nat> := mem[p][i := e];
    mem[p := page]
  }

  const ZERO_PAGE: seq<nat> := seq(ENTRIES, i => 0)

  // A zeroed free page, hung into an empty slot of a table above the leaves.
  lemma AddTable(mem: Memory, avail: set<nat>, at: Tree, n: Node, i: nat, p: nat)
    requires TreeOk(mem, avail, at)
    requires n in at && n.level < 4 && i < ENTRIES && !KernelSlot(n, i) && Child(n, i) !in at
    requires p in avail
    ensures at[n] in mem && |mem[at[n]]| == ENTRIES
    ensures TreeOk(WithEntry(mem[p := ZERO_PAGE], at[n], i, p + 7), avail - {p}, at[Child(n, i) := p])
  {
    var c := Child(n, i);
    assert NodeOk(at, n) && TableOk(mem, at, n);
    var mem' := WithEntry(mem[p := ZERO_PAGE], at[n], i, p + 7);
    var at' := at[c := p];
    ApartWith(avail, at, c, p);
    ChildParent(n, i);
    forall j | 0 <= j < ENTRIES
      ensures Child(c, j) !in at'
    {
      ChildParent(c, j);
      assert Child(c, j) in at ==> NodeOk(at, Child(c, j));
    }
    forall m | m in at'
      ensures NodeOk(at', m) && at'[m] !in avail - {p} && TableOk(mem', at', m)
    {
      if m == c {
        NewTableOk(mem', at', c);
      } else {
        assert NodeOk(at, m) && TableOk(mem, at, m) && Apart(at, m, n);
        forall j | 0 <= j < ENTRIES
          ensures EntryOk(mem'[at'[m]][j], at', m, j)
        {
          assert EntryOk(mem[at[m]][j], at, m, j);
          if m != n {
            ChildOfOther(m, j, n, i);
          } else if j != i {
            assert Child(n, j) != c;
          }
        }
      }
    }
  }

  // One more page, taken from the free ones, keeps all pages apart.
  lemma ApartWith(avail: set<nat>, at: Tree, c: Node, p: nat)
    requires forall n {:trigger NodeOk(at, n)} :: n in at ==> NodeOk(at, n) && at[n] !in avail
    requires forall n, m {:trigger Apart(at, n, m)} :: n in at && m in at ==> Apart(at, n, m)
    requires p in avail
    ensures forall n, m {:trigger Apart(at[c := p], n, m)} ::
              n in at[c := p] && m in at[c := p] ==> Apart(at[c := p], n, m)
  {
    var at' := at[c := p];
    forall n, m | n in at' && m in at'
      ensures Apart(at', n, m)
    {
      if n != c && m != c {
        assert Apart(at, n, m);
      } else if n != c {
        assert NodeOk(at, n);
      } else if m != c {
        assert NodeOk(at, m);
      }
    }
  }

  lemma ChildOfOther(m: Node, j: nat, n: Node, i: nat)
    requires j < 512 && i < 512 && m != n
    ensures Child(m, j) != Child(n, i)
  {
    ChildParent(m, j);
    ChildParent(n, i);
  }

  // A fresh table is empty: none of its children can exist yet.
  lemma NewTableOk(mem: Memory, at: Tree, c: Node)
    requires c in at && c.level > 1
    requires at[c] in mem && mem[at[c]] == ZERO_PAGE
    requires forall j :: 0 <= j < ENTRIES ==> Child(c, j) !in at
    ensures TableOk(mem, at, c)
  {
  }

  lemma AddTableEntry(mem: Memory, avail: set<nat>, at: Tree, n: Node, i: nat, p: nat, s: nat, vpn: nat)
    requires TreeOk(mem, avail, at)
    requires n in at && n.level < 4 && i < ENTRIES && !KernelSlot(n, i) && Child(n, i) !in at
    requires p in avail
    ensures at[n] in mem && |mem[at[n]]| == ENTRIES
    ensures Entry(WithEntry(mem[p := ZERO_PAGE], at[n], i, p + 7), at[Child(n, i) := p], s, vpn)
         == Entry(mem, at, s, vpn)
  {
    assert NodeOk(at, n) && TableOk(mem, at, n);
    var m := Node(s, 4, vpn / 512);
    if m in at {
      assert NodeOk(at, m) && TableOk(mem, at, m) && Apart(at, m, n);
    }
  }

  // Writing one leaf entry changes that entry and no other, in any space.
  lemma SetLeaf(mem: Memory, avail: set<nat>, at: Tree, n: Node, i: nat, e: nat)
    requires TreeOk(mem, avail, at)
    requires n in at && n.level == 4 && i < ENTRIES && LeafShape(e)
    ensures at[n] in mem && |mem[at[n]]| == ENTRIES
    ensures TreeOk(WithEntry(mem, at[n], i, e), avail, at)
  {
    assert NodeOk(at, n) && TableOk(mem, at, n);
    var mem' := WithEntry(mem, at[n], i, e);
    forall m | m in at
      ensures NodeOk(at, m) && at[m] !in avail && TableOk(mem', at, m)
    {
      assert NodeOk(at, m) && TableOk(mem, at, m) && Apart(at, m, n);
      forall j | 0 <= j < ENTRIES
        ensures EntryOk(mem'[at[m]][j], at, m, j)
      {
        assert EntryOk(mem[at[m]][j], at, m, j);
      }
    }
  }

  lemma SetLeafEntry(mem: Memory, avail: set<nat>, at: Tree, n: Node, i: nat, e: nat, s: nat, vpn: nat)
    requires TreeOk(mem, avail, at)
    requires n in at && n.level == 4 && i < ENTRIES
    ensures at[n] in mem && |mem[at[n]]| == ENTRIES
    ensures Entry(WithEntry(mem, at[n], i, e), at, s, vpn)
         == if s == n.space && vpn == n.prefix * 512 + i then e else Entry(mem, at, s, vpn)
  {
    assert NodeOk(at, n) && TableOk(mem, at, n);
    var m := Node(s, 4, vpn / 512);
    if m in at {
      assert NodeOk(at, m) && TableOk(mem, at, m) && Apart(at, m, n);
    }
  }

  // Every table hangs below the root of its space.
  lemma {:induction false} RootOfNode(at: Tree, n: Node)
    requires forall m {:trigger NodeOk(at, m)} :: m in at ==> NodeOk(at, m)
    requires n in at
    ensures Root(n.space) in at
    decreases n.level
  {
    assert NodeOk(at, n);
    if n.level > 1 {
      RootOfNode(at, Parent(n));
    }
  }

  const ROOT_PAGE: seq<nat> := ZERO_PAGE[0 := PDPT_ADDR + 3]

  // A new root shares the kernel entry and maps nothing else.
  lemma AddRoot(mem: Memory, avail: set<nat>, at: Tree, p: nat)
    requires TreeOk(mem, avail, at) && p in avail
    ensures Root(p) !in at
    ensures TreeOk(mem[p := ROOT_PAGE], avail - {p}, at[Root(p) := p])
  {
    assert Root(p) in at ==> NodeOk(at, Root(p));
    var r := Root(p);
    var mem' := mem[p := ROOT_PAGE];
    var at' := at[r := p];
    ApartWith(avail, at, r, p);
    forall j | 0 <= j < ENTRIES
      ensures Child(r, j) !in at'
    {
      ChildParent(r, j);
      assert Child(r, j) in at ==> NodeOk(at, Child(r, j));
    }
    forall m | m in at'
      ensures NodeOk(at', m) && at'[m] !in avail - {p} && TableOk(mem', at', m)
    {
      if m == r {
        forall j | 0 <= j < ENTRIES
          ensures EntryOk(mem'[p][j], at', r, j)
        {
        }
      } else {
        assert NodeOk(at, m) && TableOk(mem, at, m);
        forall j | 0 <= j < ENTRIES
          ensures EntryOk(mem'[at[m]][j], at', m, j)
        {
          assert EntryOk(mem[at[m]][j], at, m, j);
          assert Child(m, j) != r;
        }
      }
    }
  }

  lemma AddRootEntry(mem: Memory, avail: set<nat>, at: Tree, p: nat, s: nat, vpn: nat)
    requires TreeOk(mem, avail, at) && p in avail
    ensures Entry(mem[p := ROOT_PAGE], at[Root(p) := p], s, vpn) == if s == p then 0 else Entry(mem, at, s, vpn)
  {
    var m := Node(s, 4, vpn / 512);
    if m in at {
      assert NodeOk(at, m) && TableOk(mem, at, m);
      RootOfNode(at, m);
      assert NodeOk(at, Root(s));
    }
  }

  // ---- dropping a space ----------------------------------------------------------

  function OtherSpaces(at: Tree, s: nat): Tree {
    map n | n in at && n.space != s :: at[n]
  }

  function SpacePages(at: Tree, s: nat): set<nat> {
    set n | n in at && n.space == s :: at[n]
  }

  ghost predicate SameExcept(mem: Memory, mem': Memory, changed: set<nat>) {
    && mem.Keys == mem'.Keys
    && (forall p :: p in mem && p !in changed ==> mem'[p] == mem[p])
    && (forall p :: p in mem && p in changed && |mem[p]| == ENTRIES ==> |mem'[p]| == ENTRIES)
  }

  lemma NotOfSpace(mem: Memory, avail: set<nat>, at: Tree, s: nat, m: Node)
    requires TreeOk(mem, avail, at) && m in at && m.space != s
    ensures NodeOk(at, m) && TableOk(mem, at, m) && at[m] !in avail && at[m] !in SpacePages(at, s)
  {
    assert NodeOk(at, m) && TableOk(mem, at, m);
    forall n | n in at && n.space == s
      ensures at[n] != at[m]
    {
      assert Apart(at, n, m);
    }
  }

  lemma DropSpace(mem: Memory, mem': Memory, avail: set<nat>, at: Tree, s: nat)
    requires TreeOk(mem, avail, at)
    requires SameExcept(mem, mem', SpacePages(at, s))
    ensures TreeOk(mem', avail + SpacePages(at, s), OtherSpaces(at, s))
  {
    var at' := OtherSpaces(at, s);
    forall p | p in SpacePages(at, s)
      ensures IsFrame(p) && p != PML4_ADDR && p != PDPT_ADDR && p in mem' && |mem'[p]| == ENTRIES
    {
      var n :| n in at && n.space == s && at[n] == p;
      assert NodeOk(at, n) && TableOk(mem, at, n);
    }
    forall n, m | n in at' && m in at'
      ensures Apart(at', n, m)
    {
      assert Apart(at, n, m);
    }
    forall m | m in at'
      ensures NodeOk(at', m) && at'[m] !in avail + SpacePages(at, s) && TableOk(mem', at', m)
    {
      NotOfSpace(mem, avail, at, s, m);
      forall j | 0 <= j < ENTRIES
        ensures EntryOk(mem'[at[m]][j], at', m, j)
      {
        assert EntryOk(mem[at[m]][j], at, m, j);
      }
    }
  }

  lemma DropSpaceEntry(mem: Memory, mem': Memory, avail: set<nat>, at: Tree, s: nat, t: nat, vpn: nat)
    requires TreeOk(mem, avail, at) && t != s
    requires SameExcept(mem, mem', SpacePages(at, s))
    ensures Entry(mem', OtherSpaces(at, s), t, vpn) == Entry(mem, at, t, vpn)
  {
    var m := Node(t, 4, vpn / 512);
    if m in at {
      NotOfSpace(mem, avail, at, s, m);
    }
  }

  // ---- subtrees --------------------------------------------------------------------

  // The table of level l above (or at) a table.
  function Anc(m: Node, l: nat): Node
    decreases m.level
  {
    if m.level <= l then m else Anc(Parent(m), l)
  }

  predicate Under(m: Node, n: Node) { m.level >= n.level && Anc(m, n.level) == n }

  // The entry of n whose subtree holds m.
  function Branch(m: Node, n: Node): nat { Anc(m, n.level + 1).prefix % 512 }

  function SubPages(at: Tree, n: Node): set<nat> {
    set m | m in at && Under(m, n) :: at[m]
  }

  function PagesUpTo(at: Tree, n: Node, j: nat): set<nat> {
    set m | m in at && Under(m, n) && m != n && Branch(m, n) < j :: at[m]
  }

  lemma {:induction false} AncStep(m: Node, l: nat)
    requires m.level > l
    ensures Anc(m, l + 1).level == l + 1 && Parent(Anc(m, l + 1)) == Anc(m, l)
    decreases m.level
  {
    if m.level > l + 1 {
      AncStep(Parent(m), l);
    }
  }

  lemma {:induction false} AncIn(at: Tree, m: Node, l: nat)
    requires forall n {:trigger NodeOk(at, n)} :: n in at ==> NodeOk(at, n)
    requires m in at && 1 <= l <= m.level
    ensures Anc(m, l) in at && Anc(m, l).space == m.space
    decreases m.level
  {
    assert NodeOk(at, m);
    if m.level > l {
      AncIn(at, Parent(m), l);
    }
  }

  // The tables below a table are those below its entries.
  lemma UnderChild(m: Node, n: Node, j: nat)
    requires j < 512
    ensures Under(m, Child(n, j)) <==> Under(m, n) && m != n && Branch(m, n) == j
  {
    ChildParent(n, j);
    if m.level > n.level {
      AncStep(m, n.level);
      var a := Anc(m, n.level + 1);
      if Anc(m, n.level) == n {
        assert a.prefix / 512 == n.prefix && a.space == n.space;
      }
    }
  }

  lemma UpToStep(at: Tree, n: Node, j: nat)
    requires j < 512
    ensures PagesUpTo(at, n, j + 1) == PagesUpTo(at, n, j) + SubPages(at, Child(n, j))
  {
    forall m | m in at
      ensures Under(m, Child(n, j)) <==> Under(m, n) && m != n && Branch(m, n) == j
    {
      UnderChild(m, n, j);
    }
  }

  lemma UpToMono(at: Tree, n: Node, i: nat, j: nat)
    requires i <= j
    ensures PagesUpTo(at, n, i) <= PagesUpTo(at, n, j)
  {
  }

  lemma UpToAll(at: Tree, n: Node)
    requires n in at
    ensures SubPages(at, n) == PagesUpTo(at, n, 512) + {at[n]}
  {
    assert Under(n, n);
  }

  lemma SubPagesEmpty(at: Tree, n: Node)
    requires forall m {:trigger NodeOk(at, m)} :: m in at ==> NodeOk(at, m)
    requires n !in at && n.level >= 1
    ensures SubPages(at, n) == {}
  {
    forall m | m in at
      ensures !Under(m, n)
    {
      if Under(m, n) {
        AncIn(at, m, n.level);
      }
    }
  }

  // The pages below one entry are disjoint from those below earlier ones and from the table itself.
  lemma SubPagesApart(mem: Memory, avail: set<nat>, at: Tree, n: Node, j: nat)
    requires TreeOk(mem, avail, at) && n in at && j < 512
    ensures SubPages(at, Child(n, j)) !! PagesUpTo(at, n, j)
    ensures at[n] !in PagesUpTo(at, n, 512)
    ensures SubPages(at, Child(n, j)) <= SubPages(at, n)
    ensures PagesUpTo(at, n, j) <= SubPages(at, n)
  {
    forall m | m in at
      ensures Under(m, Child(n, j)) <==> Under(m, n) && m != n && Branch(m, n) == j
      ensures Apart(at, m, n)
    {
      UnderChild(m, n, j);
    }
    forall m, k | m in at && k in at && Under(m, Child(n, j)) && Under(k, n) && k != n && Branch(k, n) < j
      ensures at[m] != at[k]
    {
      assert Apart(at, m, k);
    }
  }

  lemma SpaceIsSubtree(mem: Memory, avail: set<nat>, at: Tree, s: nat)
    requires TreeOk(mem, avail, at)
    ensures SpacePages(at, s) == SubPages(at, Root(s))
  {
    forall m | m in at
      ensures m.space == s <==> Under(m, Root(s))
    {
      assert NodeOk(at, m);
      AncIn(at, m, 1);
      AncLevel(m, 1);
      assert NodeOk(at, Anc(m, 1));
    }
  }

  lemma {:induction false} AncLevel(m: Node, l: nat)
    requires l <= m.level
    ensures Anc(m, l).level == l
    decreases m.level
  {
    if m.level > l {
      AncLevel(Parent(m), l);
    }
  }

  // What teardown reads in an entry: both bits are set exactly for the tables of the
  // space itself and for mapped pages, never for the shared kernel entry.
  lemma EntryForTeardown(mem: Memory, avail: set<nat>, at: Tree, n: Node, i: nat)
    requires TreeOk(mem, avail, at) && n in at && i < ENTRIES
    ensures at[n] in mem && |mem[at[n]]| == ENTRIES
    ensures var e := mem[at[n]][i];
            if TestBit(e, PTE_P) && TestBit(e, PTE_U)
            then n.level < 4 ==> Child(n, i) in at && BaseOf(e) == at[Child(n, i)]
            else SubPages(at, Child(n, i)) == {}
  {
    assert NodeOk(at, n) && TableOk(mem, at, n);
    var e := mem[at[n]][i];
    assert EntryOk(e, at, n, i);
    FlagTests(e);
    var c := Child(n, i);
    ChildParent(n, i);
    assert c in at ==> NodeOk(at, c);
    if c in at {
      TableEntryFields(at[c], e);
      BaseOfFrame(e);
    } else {
      SubPagesEmpty(at, c);
      assert n.level < 4 ==> !User(e);
    }
  }
}
