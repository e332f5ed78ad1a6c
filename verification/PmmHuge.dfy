/** Blocks beyond the double pages: they are cut off behind a bound that only grows, and whose
    rounding is not counted, so that blocks can overlap or end outside the heap. */
module PmmHuge {
  import opened Bits
  import opened PmmLayout

  function End(h: Heap): nat { h.start + h.size }

  // What a request for 2^k bytes does to the bound, and what it answers.
  ghost predicate HugeCall(h: Heap, bound: nat, k: nat, bound': nat, r: nat) {
    && bound' == bound + Pow2(k)
    && (r == 0 <==> End(h) < bound')
    && (r != 0 ==> r % Pow2(k) == 0 && bound <= r < bound + Pow2(k))
  }

  // There is only one such answer.
  lemma HugeAnswerUnique(h: Heap, bound: nat, k: nat, bound': nat, r: nat)
    requires HugeCall(h, bound, k, bound', r) && r != 0
    ensures r == RoundUp(bound, k)
    ensures r == if bound % Pow2(k) == 0 then bound else bound - bound % Pow2(k) + Pow2(k)
  {
    var m := Pow2(k);
    RoundUpExact(bound, k);
    LeastMultiple(bound, m, r);
    LeastMultiple(bound, m, RoundUp(bound, k));
  }

  lemma LeastMultiple(a: nat, m: nat, p: nat)
    requires m > 0 && p % m == 0 && a <= p < a + m
    ensures p == if a % m == 0 then a else a - a % m + m
  {
    var low := a / m * m;
    assert low == a - a % m;
    DivModUnique(low, a / m, m, 0);
    if a % m == 0 {
      NextMultiple(a, p, m);
    } else {
      StepMultiple(low, m);
      if p < low + m {
        MultiplesApart(low, p, m);
      } else {
        NextMultiple(low + m, p, m);
      }
    }
  }

  /** A block lies inside the heap exactly if the bound was aligned to it, or there was room
      for two blocks behind the last aligned address below the bound. */
  lemma HugeInside(h: Heap, bound: nat, k: nat, bound': nat, r: nat)
    requires HugeCall(h, bound, k, bound', r) && r != 0
    ensures r + Pow2(k) <= End(h)
       <==> bound % Pow2(k) == 0 || bound - bound % Pow2(k) + 2 * Pow2(k) <= End(h)
  {
    HugeAnswerUnique(h, bound, k, bound', r);
  }

  // The first request to a heap can be answered with a block that ends outside it.
  lemma HugeOutside(k: nat)
    ensures var m := Pow2(k); var h := Heap(m, 16 * m);
            && HugeCall(h, HugeStart(h), k + 1, HugeStart(h) + Pow2(k + 1), 16 * m)
            && End(h) < 16 * m + Pow2(k + 1)
  {
    var m := Pow2(k);
    assert Pow2(k + 1) == 2 * m;
    Parts(Heap(m, 16 * m), 2 * m);
    DivModUnique(16 * m, 8, 2 * m, 0);
  }

  lemma HugeAboveClasses(h: Heap, bound: nat, c: nat, p: nat)
    requires HugeStart(h) <= bound && IsBlock(h, c, p)
    ensures p + SizeOf(c) <= bound
  {
    BlockBounds(h, c, p);
  }

  // ---- runs ------------------------------------------------------------------------------------

  // A request for 2^k bytes and its answer.
  datatype Answered = Answered(k: nat, r: nat)

  // The bound after a run of requests.
  function BoundAfter(bound: nat, run: seq<Answered>): (b: nat)
    ensures bound <= b
  {
    if |run| == 0 then bound else BoundAfter(bound, run[..|run| - 1]) + Pow2(run[|run| - 1].k)
  }

  // The answers are those that the requests get, one after the other.
  ghost predicate HugeCalls(h: Heap, bound: nat, run: seq<Answered>) {
    forall i :: 0 <= i < |run| ==>
      HugeCall(h, BoundAfter(bound, run[..i]), run[i].k, BoundAfter(bound, run[..i]) + Pow2(run[i].k), run[i].r)
  }

  lemma {:induction false} BoundGrows(bound: nat, run: seq<Answered>, i: nat)
    requires i < |run|
    ensures BoundAfter(bound, run[..i]) + Pow2(run[i].k) <= BoundAfter(bound, run)
    decreases |run|
  {
    var n := |run| - 1;
    if i < n {
      BoundGrows(bound, run[..n], i);
      assert run[..n][..i] == run[..i];
    }
  }

  /** A run once refused is refused for ever. Two of its blocks are disjoint exactly if the
      first is no larger than the second, or the bound was, at the second request, less than
      the second's size away from the end of the first; else they overlap. */
  lemma HugeRun(h: Heap, bound: nat, run: seq<Answered>, i: nat, j: nat)
    requires HugeCalls(h, bound, run) && i < j < |run| && run[j].r != 0
    ensures run[i].r != 0 && run[i].r < run[j].r
    ensures run[i].r + Pow2(run[i].k) <= run[j].r
       <==> run[i].k <= run[j].k
            || run[i].r + Pow2(run[i].k) < BoundAfter(bound, run[..j]) + Pow2(run[j].k)
  {
    var b, b' := BoundAfter(bound, run[..i]), BoundAfter(bound, run[..j]);
    BoundGrows(bound, run[..j], i);
    assert run[..j][..i] == run[..i] && run[..j][i] == run[i];
    assert HugeCall(h, b, run[i].k, b + Pow2(run[i].k), run[i].r);
    assert HugeCall(h, b', run[j].k, b' + Pow2(run[j].k), run[j].r);
    HugeApart(b, run[i].k, run[i].r, b', run[j].k, run[j].r);
  }

  lemma HugeApart(b: nat, k: nat, p: nat, b': nat, k': nat, p': nat)
    requires b + Pow2(k) <= b'
    requires p % Pow2(k) == 0 && b <= p < b + Pow2(k)
    requires p' % Pow2(k') == 0 && b' <= p' < b' + Pow2(k')
    ensures p < p' && (p + Pow2(k) <= p' <==> k <= k' || p + Pow2(k) < b' + Pow2(k'))
  {
    var m, m' := Pow2(k), Pow2(k');
    if k <= k' {
      PowDivides(p', k, k');
      if p' < p + m {
        MultiplesApart(p, p', m);
      }
    } else {
      PowDivides(p, k', k);
      PowOfPow(k', k);
      SumMultiple(p, m, m');
      if p' < p + m {
        MultiplesApart(p', p + m, m');
      } else if p + m < p' {
        MultiplesApart(p + m, p', m');
      }
    }
  }

  // Two blocks of one heap that overlap: the bound starts at HUGESTART, and neither is NULL.
  lemma HugeOverlap(k: nat)
    ensures var m := Pow2(k);
            var h, run := Heap(m, 64 * m), [Answered(k + 1, 58 * m), Answered(k, 59 * m)];
            HugeCalls(h, HugeStart(h), run) && 0 < 58 * m <= 59 * m < 58 * m + Pow2(k + 1)
  {
    var m := Pow2(k);
    var h, run := Heap(m, 64 * m), [Answered(k + 1, 58 * m), Answered(k, 59 * m)];
    TwoCalls(h, m, k);
    assert run[..0] == [] && run[..1] == [run[0]];
    assert BoundAfter(57 * m, []) == 57 * m;
    assert BoundAfter(57 * m, [run[0]]) == 57 * m + Pow2(k + 1) by {
      assert [run[0]][..0] == [];
    }
    forall i | 0 <= i < 2
      ensures HugeCall(h, BoundAfter(57 * m, run[..i]), run[i].k,
                       BoundAfter(57 * m, run[..i]) + Pow2(run[i].k), run[i].r)
    {
      assert i == 0 || i == 1;
    }
  }

  lemma TwoCalls(h: Heap, m: nat, k: nat)
    requires m == Pow2(k) && h == Heap(m, 64 * m)
    ensures HugeStart(h) == 57 * m && Pow2(k + 1) == 2 * m
    ensures HugeCall(h, 57 * m, k + 1, 59 * m, 58 * m) && HugeCall(h, 59 * m, k, 60 * m, 59 * m)
  {
    SixtyFour(h, m);
    OneCall(h, 57 * m, k + 1, 2 * m, 29);
    OneCall(h, 59 * m, k, m, 59);
  }

  lemma SixtyFour(h: Heap, m: nat)
    requires h == Heap(m, 64 * m)
    ensures HugeStart(h) == 57 * m && End(h) == 65 * m
  {
    Parts(h, 8 * m);
  }

  // The parts of a heap whose size is a multiple of eight.
  lemma Parts(h: Heap, eighth: nat)
    requires h.size == 8 * eighth
    ensures HugeStart(h) == h.start + 7 * eighth
  {
    DivModUnique(h.size, 4 * eighth, 2, 0);
    DivModUnique(h.size, 2 * eighth, 4, 0);
    DivModUnique(h.size, eighth, 8, 0);
  }

  lemma OneCall(h: Heap, bound: nat, k: nat, n: nat, q: nat)
    requires n == Pow2(k) && bound + n <= End(h) && bound <= q * n < bound + n && q * n > 0
    ensures HugeCall(h, bound, k, bound + n, q * n)
  {
    DivModUnique(q * n, q, n, 0);
  }

  // A multiple of a larger power of two is one of a smaller.
  lemma PowDivides(x: nat, k: nat, k': nat)
    requires k <= k' && x % Pow2(k') == 0
    ensures x % Pow2(k) == 0
  {
    Pow2Add(k, k' - k);
    FactorDivides(x, Pow2(k), Pow2(k' - k));
  }

  lemma PowOfPow(k: nat, k': nat)
    requires k <= k'
    ensures Pow2(k') % Pow2(k) == 0
  {
    DivModUnique(Pow2(k'), 1, Pow2(k'), 0);
    PowDivides(Pow2(k'), k, k');
  }

  lemma FactorDivides(x: nat, m: nat, n: nat)
    requires m > 0 && n > 0 && x % (m * n) == 0
    ensures x % m == 0
  {
    var q := x / (m * n);
    assert x == q * (m * n) + x % (m * n);
    Reorder(q, m, n);
    DivModUnique(x, q * n, m, 0);
  }

  lemma Reorder(q: nat, m: nat, n: nat)
    ensures q * (m * n) == q * n * m
  {
  }

  lemma SumMultiple(x: nat, y: nat, m: nat)
    requires m > 0 && x % m == 0 && y % m == 0
    ensures (x + y) % m == 0
  {
    assert x + y == (x / m + y / m) * m;
    DivModUnique(x + y, x / m + y / m, m, 0);
  }
}
