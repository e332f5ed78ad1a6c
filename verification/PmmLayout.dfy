/** The heap's division into size classes: where the blocks of each class lie, which class
    a request goes to, and which class an address is freed to. */
module PmmLayout {
  import opened Bits

  const CLASSES: nat := 10   // eight small ones, pages, double pages

  datatype Heap = Heap(start: nat, size: nat)

  datatype Route = Class(c: nat) | Huge | Stuck

  // ---- the source's address macros; shifts right of unsigned sizes are divisions ----------

  function StartAddr(h: Heap, i: nat): nat { h.start + h.size / 16 * i }

  function PageStart(h: Heap): nat { h.start + h.size / 2 }

  function MPageStart(h: Heap): nat { PageStart(h) + h.size / 4 }

  function HugeStart(h: Heap): nat { MPageStart(h) + h.size / 8 }

  // ---- classes ------------------------------------------------------------------------------

  function SizeOf(c: nat): (r: nat)
    ensures r >= 16
  {
    Pow2Mono(4, 4 + c);
    Pow2(4 + c)
  }

  function Lo(h: Heap, c: nat): nat {
    if c < 8 then StartAddr(h, c) else if c == 8 then PageStart(h) else MPageStart(h)
  }

  function Hi(h: Heap, c: nat): nat {
    if c < 8 then StartAddr(h, c + 1) else if c == 8 then MPageStart(h) else HugeStart(h)
  }

  // The blocks of a class: every aligned block that fits into the class's part of the heap.
  predicate IsBlock(h: Heap, c: nat, p: nat) {
    c < CLASSES && p % SizeOf(c) == 0 && Lo(h, c) <= p && p + SizeOf(c) <= Hi(h, c)
  }

  lemma ClassesApart(h: Heap, c: nat, d: nat)
    requires c < d < CLASSES
    ensures Hi(h, c) <= Lo(h, d)
  {
    var unit := h.size / 16;
    if d < 8 {
      MulMono(c + 1, d, unit);
    } else if c < 8 {
      MulMono(c + 1, 8, unit);
    }
  }

  function PartSize(h: Heap, c: nat): nat { h.size / if c < 8 then 16 else if c == 8 then 4 else 8 }

  // So many blocks of a class leave less than two of its part of the heap unused.
  predicate Fills(h: Heap, c: nat, blocks: nat) {
    blocks * SizeOf(c) <= PartSize(h, c) < (blocks + 2) * SizeOf(c)
  }

  // The parts follow each other from the start of the heap to the huge area without a gap,
  // but for the last small one, which does so exactly for sizes that leave at most 1 when
  // divided by 16; and they have these sizes.
  lemma PartsTile(h: Heap)
    ensures Lo(h, 0) == h.start && Hi(h, 9) == HugeStart(h)
    ensures forall c: nat :: c < 9 && c != 7 ==> Hi(h, c) == Lo(h, c + 1)
    ensures Hi(h, 7) <= Lo(h, 8) && (Hi(h, 7) == Lo(h, 8) <==> h.size % 16 < 2)
    ensures forall c: nat :: c < CLASSES ==>
              Hi(h, c) - Lo(h, c) == PartSize(h, c)
  {
    var unit, rest := h.size / 16, h.size % 16;
    DivModUnique(h.size, 8 * unit + rest / 2, 2, rest % 2);
    forall c: nat | c < 8
      ensures StartAddr(h, c + 1) == StartAddr(h, c) + unit
    {
    }
  }

  // So every address before the huge area is in exactly one class's part.
  lemma {:induction false} OnePart(h: Heap, a: nat, c: nat)
    requires h.size % 16 < 2 && c < CLASSES && Lo(h, c) <= a < HugeStart(h)
    ensures exists d: nat :: c <= d < CLASSES && Lo(h, d) <= a < Hi(h, d)
    ensures forall d: nat, e: nat :: d < CLASSES && e < CLASSES && Lo(h, d) <= a < Hi(h, d) && Lo(h, e) <= a < Hi(h, e)
              ==> d == e
    decreases CLASSES - c
  {
    PartsTile(h);
    if a >= Hi(h, c) {
      OnePart(h, a, c + 1);
    }
    forall d: nat, e: nat | d < e < CLASSES
      ensures Hi(h, d) <= Lo(h, e)
    {
      ClassesApart(h, d, e);
    }
  }

  // No two blocks overlap, whatever their classes.
  lemma BlocksDisjoint(h: Heap, c: nat, p: nat, d: nat, q: nat)
    requires IsBlock(h, c, p) && IsBlock(h, d, q) && p != q
    ensures p + SizeOf(c) <= q || q + SizeOf(d) <= p
  {
    if c < d {
      ClassesApart(h, c, d);
    } else if d < c {
      ClassesApart(h, d, c);
    } else if p < q {
      MultiplesApart(p, q, SizeOf(c));
    } else {
      MultiplesApart(q, p, SizeOf(c));
    }
  }

  lemma BlockBounds(h: Heap, c: nat, p: nat)
    requires IsBlock(h, c, p)
    ensures h.start <= p && p + SizeOf(c) <= HugeStart(h)
  {
    if c < 8 {
      MulMono(c + 1, 8, h.size / 16);
    }
  }

  lemma OneClass(h: Heap, c: nat, d: nat, p: nat)
    requires IsBlock(h, c, p) && IsBlock(h, d, p)
    ensures c == d
  {
    if c < d {
      ClassesApart(h, c, d);
    } else if d < c {
      ClassesApart(h, d, c);
    }
  }

  lemma MultiplesApart(p: nat, q: nat, m: nat)
    requires m > 0 && p < q && p % m == 0 && q % m == 0
    ensures p + m <= q
  {
    var i, j := p / m, q / m;
    assert p == i * m && q == j * m;
    if j <= i {
      MulMono(j, i, m);
    } else {
      MulMono(i + 1, j, m);
      assert (i + 1) * m == i * m + m;
    }
  }

  // Blocks are whole words apart from every word inside another block.
  lemma WordsApart(h: Heap, c: nat, p: nat, d: nat, q: nat, offset: nat)
    requires IsBlock(h, c, p) && IsBlock(h, d, q) && offset + 8 <= SizeOf(c)
    requires p + offset == q
    ensures p == q && offset == 0
  {
    if p != q {
      BlocksDisjoint(h, c, p, d, q);
    }
  }

  // ---- what its users see of the pages ---------------------------------------------------------

  // A free page is taken; NULL is given only when there is none.
  ghost predicate PageTaken(avail: set<nat>, avail': set<nat>, p: nat) {
    if p == 0 then avail == avail' == {} else p in avail && avail' == avail - {p}
  }

  // A page that was not free is free again.
  ghost predicate PageReturned(avail: set<nat>, avail': set<nat>, p: nat) {
    p !in avail && avail' == avail + {p}
  }

  // ---- rounding -------------------------------------------------------------------------------

  // The k lowest bits of a + 2^k - 1 cleared.
  function RoundUp(a: nat, k: nat): nat { Shl(Shr(a + Pow2(k) - 1, k), k) }

  // The least multiple that is not below a.
  lemma RoundUpExact(a: nat, k: nat)
    ensures RoundUp(a, k) % Pow2(k) == 0 && a <= RoundUp(a, k) < a + Pow2(k)
  {
    var x := a + Pow2(k) - 1;
    ShrLow(x, k);
    LowBound(x, k);
    ShlPow2(Shr(x, k), k);
    DivModUnique(RoundUp(a, k), Shr(x, k), Pow2(k), 0);
  }

  // Between one multiple and the next there is none.
  lemma NextMultiple(p: nat, q: nat, m: nat)
    requires m > 0 && p % m == 0 && q % m == 0 && p <= q < p + m
    ensures q == p
  {
    if p < q {
      MultiplesApart(p, q, m);
    }
  }

  lemma StepMultiple(p: nat, m: nat)
    requires m > 0 && p % m == 0
    ensures (p + m) % m == 0
  {
    assert p + m == (p / m + 1) * m;
    DivModUnique(p + m, p / m + 1, m, 0);
  }

  // ---- requests -------------------------------------------------------------------------------

  // The least n with 2^n >= x.
  function CeilLog(x: nat): nat {
    if x <= 1 then 0 else 1 + CeilLog((x + 1) / 2)
  }

  lemma {:induction false} CeilLogExact(x: nat)
    ensures x <= Pow2(CeilLog(x))
    ensures CeilLog(x) > 0 ==> Pow2(CeilLog(x) - 1) < x
  {
    if x > 1 {
      CeilLogExact((x + 1) / 2);
    }
  }

  lemma CeilLogUnique(x: nat, n: nat)
    requires x <= Pow2(n) && (n > 0 ==> Pow2(n - 1) < x)
    ensures n == CeilLog(x)
  {
    var m := CeilLog(x);
    CeilLogExact(x);
    if m < n {
      Pow2Mono(m, n - 1);
    } else if n < m {
      Pow2Mono(n, m - 1);
    }
  }

  method RoundSelf(x: nat) returns (count: nat)
    requires x <= TWO63    // beyond that the 64-bit i would wrap to 0
    ensures count == CeilLog(x)
    ensures x <= Pow2(count) && (count > 0 ==> Pow2(count - 1) < x)
  {
    count := 0;
    var i := 1;
    while i < x
      invariant i == Pow2(count) && (count > 0 ==> Pow2(count - 1) < x)
      decreases x - i
    {
      i := i * 2;
      count := count + 1;
    }
    CeilLogUnique(x, count);
  }

  function ClassFor(size: nat): Route {
    var sz := CeilLog(size);
    if sz <= 4 then Class(0)
    else if sz < 12 then Class(sz - 4)
    else if sz == 12 then Class(8)
    else if sz == 13 then Class(9)
    else Huge
  }

  // A request's class holds it ...
  lemma ClassFits(size: nat)
    requires ClassFor(size).Class?
    ensures ClassFor(size).c < CLASSES && size <= SizeOf(ClassFor(size).c)
  {
    CeilLogExact(size);
    var sz, least := CeilLog(size), 4;
    if sz <= least {
      Pow2Mono(sz, least);
    }
  }

  // ... no smaller class would ...
  lemma ClassSmallest(size: nat, d: nat)
    requires ClassFor(size).Class? && d < ClassFor(size).c
    ensures SizeOf(d) < size
  {
    CeilLogExact(size);
    Pow2Mono(4 + d, CeilLog(size) - 1);
  }

  // ... and there is a class exactly for what fits into a double page.
  lemma ClassExists(size: nat, last: nat)
    requires last == 9
    ensures ClassFor(size).Class? <==> size <= SizeOf(last)
    ensures ClassFor(size).Class? || ClassFor(size).Huge?
  {
    CeilLogExact(size);
    var sz := CeilLog(size);
    if sz <= 4 + last {
      Pow2Mono(sz, 4 + last);
    } else {
      Pow2Mono(4 + last, sz - 1);
    }
  }

  // ---- frees ----------------------------------------------------------------------------------

  predicate InSmall(h: Heap, p: nat, i: nat) { StartAddr(h, i) <= p < StartAddr(h, i + 1) }

  // The last of the first n small classes whose part of the heap holds p, or -1.
  function SmallIdOf(h: Heap, p: nat, n: nat): (id: int)
    ensures -1 <= id < n
    ensures id >= 0 ==> InSmall(h, p, id)
    ensures forall i: nat :: id < i < n ==> !InSmall(h, p, i)
  {
    if n == 0 then -1 else if InSmall(h, p, n - 1) then n - 1 else SmallIdOf(h, p, n - 1)
  }

  // The class an address is freed to, in the comparisons the source makes.
  function FreeRoute(h: Heap, p: nat): Route {
    if p >= HugeStart(h) then Huge
    else if p <= PageStart(h) then
      var id := SmallIdOf(h, p, 8);
      if id == -1 then Stuck else Class(id)
    else Class(if p >= MPageStart(h) then 9 else 8)
  }

  lemma SmallPartsApart(h: Heap, p: nat, i: nat, j: nat)
    requires InSmall(h, p, i) && InSmall(h, p, j)
    ensures i == j
  {
    var unit := h.size / 16;
    if i < j {
      MulMono(i + 1, j, unit);
    } else if j < i {
      MulMono(j + 1, i, unit);
    }
  }

  lemma SmallPartsBelowPages(h: Heap, p: nat, i: nat)
    requires InSmall(h, p, i) && i < 8
    ensures p < PageStart(h)
  {
    MulMono(i + 1, 8, h.size / 16);
  }

  lemma SmallIdExact(h: Heap, p: nat, n: nat, id: int)
    requires -1 <= id < n && (id >= 0 ==> InSmall(h, p, id))
    requires id == -1 ==> forall i: nat :: i < n ==> !InSmall(h, p, i)
    ensures SmallIdOf(h, p, n) == id
  {
    var found := SmallIdOf(h, p, n);
    if found >= 0 && id >= 0 {
      SmallPartsApart(h, p, found, id);
    }
  }

  // A block goes back to its own class, unless it is the page that starts at PAGESTART:
  // there the source's `<=` looks among the small classes and its assertion fails.
  lemma FreeRouteExact(h: Heap, c: nat, p: nat)
    requires IsBlock(h, c, p)
    ensures FreeRoute(h, p) == if p == PageStart(h) then Stuck else Class(c)
  {
    var n := 8;
    if c < n {
      SmallPartsBelowPages(h, p, c);
      SmallIdExact(h, p, n, c);
    } else if p == PageStart(h) {
      forall i: nat | i < n
        ensures !InSmall(h, p, i)
      {
        if InSmall(h, p, i) {
          SmallPartsBelowPages(h, p, i);
        }
      }
      SmallIdExact(h, p, n, -1);
    }
  }

  // The exception is a real block whenever PAGESTART is page-aligned and the heap has a page.
  lemma FreeRouteCanFail(h: Heap)
    ensures IsBlock(h, 8, PageStart(h)) <==> PageStart(h) % SizeOf(8) == 0 && h.size / 4 >= SizeOf(8)
  {
  }

  method SmallId(h: Heap, p: nat) returns (id: int)
    ensures id == SmallIdOf(h, p, 8)
  {
    id := -1;
    var i := 0;
    while i < 8
      invariant 0 <= i <= 8 && id == SmallIdOf(h, p, i)
    {
      if p >= StartAddr(h, i) && p < StartAddr(h, i + 1) {
        id := i;
      }
      i := i + 1;
    }
  }
}
