/** What the virtual memory manager and the process table take from the allocator: single pages
    and double pages, as the free lists of one processor hand them out. */
module PmmPages {
  import opened Bits
  import opened PmmLayout
  import opened PmmThreads
  import opened Pmm

  const PAGE: nat := 4096

  // The pages on the list of single pages.
  ghost function FreePages(b: Books): set<nat> {
    if |b.free| == CLASSES then set p | p in b.free[8] else {}
  }

  // How many double pages are on theirs.
  ghost function Doubles(b: Books): nat {
    if |b.free| == CLASSES then |b.free[9]| else 0
  }

  lemma PageClass(size: nat, sz: nat)
    requires 12 <= sz <= 13 && Pow2(sz - 1) < size <= Pow2(sz)
    ensures CeilLog(size) == sz && ClassFor(size) == Class(sz - 4)
  {
    CeilLogUnique(size, sz);
  }

  // A free page is a block of the page area, and not NULL.
  lemma PagesAreBlocks(pools: Pools)
    requires pools.Valid()
    ensures forall p :: p in FreePages(pools.books) ==> p != 0 && IsBlock(pools.heap, 8, p)
  {
    var s, b, c := pools.Now(), pools.books, 8;
    NoNullListed(b, c);
    forall p | p in FreePages(b)
      ensures p != 0 && IsBlock(pools.heap, 8, p)
    {
      assert p in b.free[c] && b.place[p] == OnList(c);
      assert PlaceOk(s, b, p);
    }
  }

  // The head of a list is on it once.
  lemma HeadOnce(pools: Pools, c: nat)
    requires pools.Valid() && c < CLASSES && |pools.books.free[c]| > 0
    ensures pools.books.free[c][0] != 0 && pools.books.free[c][0] !in pools.books.free[c][1..]
  {
    var s, b := pools.Now(), pools.books;
    NoNullListed(b, c);
    assert Chain(s.mem, s.heads[c], b.free[c]);
    ChainPop(s.mem, s.heads[c], b.free[c]);
    assert b.free[c][0] in b.free[c];
  }

  lemma FirstTaken(list: seq<nat>)
    requires |list| > 0 && list[0] !in list[1..]
    ensures (set p | p in list[1..]) == (set p | p in list) - {list[0]}
  {
    assert list == [list[0]] + list[1..];
  }

  /** A page from the allocator is a free one, and NULL is given only when there is none: the
      page allocation of the virtual memory manager. */
  method PgAlloc(pools: Pools) returns (p: nat)
    requires pools.Valid()
    modifies pools
    ensures pools.Valid() && PageTaken(FreePages(old(pools.books)), FreePages(pools.books), p)
    ensures p != 0 ==> p in pools.live && pools.live[p].c == 8
    ensures Doubles(pools.books) == Doubles(old(pools.books))
  {
    var c := 8;
    PagePowers();
    PageClass(PAGE, 12);
    if |pools.books.free[c]| > 0 {
      HeadOnce(pools, c);
      FirstTaken(pools.books.free[c]);
    }
    p := pools.KAlloc(PAGE);
  }

  lemma PagePowers()
    ensures Pow2(11) == 2048 && Pow2(12) == PAGE && Pow2(13) == 2 * PAGE
  {
    Pow2Words();
    Pow2Step(12);
    Pow2Step(13);
  }

  /** A page goes back among the free ones, unless it is the one whose free halts. */
  method PgFree(pools: Pools, p: nat) returns (ok: bool)
    requires pools.Valid() && p in pools.live && pools.live[p].c == 8
    modifies pools
    ensures pools.Valid() && (ok <==> p != PageStart(pools.heap))
    ensures ok ==> PageReturned(FreePages(old(pools.books)), FreePages(pools.books), p)
    ensures Doubles(pools.books) == Doubles(old(pools.books))
  {
    LiveIsBlock(pools, p);
    ok := pools.KFree(p);
  }

  // A page that a user holds is a block of the page area, below the huge ones, and not free.
  lemma LiveIsBlock(pools: Pools, p: nat)
    requires pools.Valid() && p in pools.live && pools.live[p].c < CLASSES
    ensures IsBlock(pools.heap, pools.live[p].c, p) && p < HugeStart(pools.heap)
    ensures p !in FreePages(pools.books)
  {
    var s, b := pools.Now(), pools.books;
    assert b.place[p] == Live && PlaceOk(s, b, p);
    BlockBounds(pools.heap, pools.live[p].c, p);
  }

  /** The memory of a task, more than a page and at most two, is a double page: one less on
      their list, and NULL exactly when there is none. */
  method TaskAlloc(pools: Pools, size: nat) returns (p: nat)
    requires pools.Valid() && PAGE < size <= 2 * PAGE
    modifies pools
    ensures pools.Valid() && (p == 0 <==> Doubles(old(pools.books)) == 0)
    ensures p != 0 ==> Doubles(pools.books) == Doubles(old(pools.books)) - 1
    ensures p != 0 ==> p in pools.live && pools.live[p].c == 9
    ensures FreePages(pools.books) == FreePages(old(pools.books))
  {
    var c := 9;
    PagePowers();
    PageClass(size, 13);
    if |pools.books.free[c]| > 0 {
      HeadOnce(pools, c);
    }
    p := pools.KAlloc(size);
  }

  method TaskFree(pools: Pools, p: nat)
    requires pools.Valid() && p in pools.live && pools.live[p].c == 9
    modifies pools
    ensures pools.Valid() && Doubles(pools.books) == Doubles(old(pools.books)) + 1
    ensures FreePages(pools.books) == FreePages(old(pools.books))
  {
    LiveIsBlock(pools, p);
    DoubleAbovePages(pools.heap, p);
    var _ := pools.KFree(p);
  }

  lemma DoubleAbovePages(h: Heap, p: nat)
    requires IsBlock(h, 9, p)
    ensures PageStart(h) < p
  {
    var quarter, eighth := h.size / 4, h.size / 8;
    assert eighth > 0;
  }
}
