/** Bitwise operations and shifts on natural numbers, defined digit by digit, and the
    laws that turn masks and shifts into division, remainder and addition. */
module Bits {

  const TWO32: int := 0x1_0000_0000
  const TWO63: int := 0x8000_0000_0000_0000
  const TWO64: int := 0x1_0000_0000_0000_0000

  function Pow2(n: nat): (r: nat)
    ensures r >= 1
  {
    if n == 0 then 1 else 2 * Pow2(n - 1)
  }

  function And(x: nat, y: nat): nat {
    if x == 0 || y == 0 then 0
    else 2 * And(x / 2, y / 2) + (if x % 2 == 1 && y % 2 == 1 then 1 else 0)
  }

  function Or(x: nat, y: nat): nat {
    if x == 0 && y == 0 then 0
    else 2 * Or(x / 2, y / 2) + (if x % 2 == 1 || y % 2 == 1 then 1 else 0)
  }

  function Xor(x: nat, y: nat): nat {
    if x == 0 && y == 0 then 0
    else 2 * Xor(x / 2, y / 2) + (if x % 2 != y % 2 then 1 else 0)
  }

  function Shl(x: nat, k: nat): nat {
    if k == 0 then x else 2 * Shl(x, k - 1)
  }

  function Shr(x: nat, k: nat): nat {
    if k == 0 then x else Shr(x / 2, k - 1)
  }

  // The k lowest bits of x.
  function Low(x: nat, k: nat): nat {
    if k == 0 then 0 else 2 * Low(x / 2, k - 1) + x % 2
  }

  // k ones.
  function Ones(k: nat): nat {
    if k == 0 then 0 else 2 * Ones(k - 1) + 1
  }

  // The highest one of a is bit n.
  predicate TopBit(a: nat, n: nat) {
    if n == 0 then a == 1 else TopBit(a / 2, n - 1)
  }

  // The lowest one of a is bit n.
  predicate LowBit(a: nat, n: nat) {
    if n == 0 then a % 2 == 1 else a % 2 == 0 && LowBit(a / 2, n - 1)
  }

  // ---- powers of two -------------------------------------------------------

  lemma {:induction false} Pow2Add(a: nat, b: nat)
    ensures Pow2(a + b) == Pow2(a) * Pow2(b)
  {
    if a > 0 {
      Pow2Add(a - 1, b);
      assert Pow2(a + b) == 2 * Pow2(a - 1 + b);
    }
  }

  lemma {:induction false} Pow2Mono(a: nat, b: nat)
    requires a <= b
    ensures Pow2(a) <= Pow2(b)
  {
    if a < b {
      Pow2Mono(a, b - 1);
    }
  }

  lemma Pow2Step(n: nat)
    requires n > 0
    ensures Pow2(n) == 2 * Pow2(n - 1)
  {
  }

  lemma Pow2Words()
    ensures Pow2(12) == 4096 && Pow2(16) == 0x1_0000 && Pow2(32) == TWO32
  {
    Pow2Add(4, 4);
    Pow2Add(8, 4);
    Pow2Add(8, 8);
    Pow2Add(16, 16);
  }

  lemma Pow2Long()
    ensures Pow2(63) == TWO63 && Pow2(64) == TWO64
  {
    Pow2Words();
    Pow2Add(32, 32);
    Pow2Step(64);
  }

  lemma {:induction false} OnesPow2(k: nat)
    ensures Ones(k) == Pow2(k) - 1
  {
    if k > 0 {
      OnesPow2(k - 1);
    }
  }

  // ---- multiplication and division -----------------------------------------

  lemma MulAtLeast(k: int, m: int)
    requires k >= 1 && m >= 0
    ensures k * m >= m
  {
    assert k * m == (k - 1) * m + m;
  }

  lemma MulMono(m: int, q: int, p: int)
    requires m <= q && p >= 0
    ensures m * p <= q * p
  {
    if m < q {
      MulAtLeast(q - m, p);
      assert (q - m) * p == q * p - m * p;
    }
  }

  // A quotient and a remainder are determined by the equation and the bound.
  lemma DivModUnique(x: int, q: int, m: int, r: int)
    requires m > 0 && x == q * m + r && 0 <= r < m
    ensures x / m == q && x % m == r
  {
    var q', r' := x / m, x % m;
    assert (q - q') * m == r' - r;
    if q > q' {
      MulAtLeast(q - q', m);
    } else if q < q' {
      MulAtLeast(q' - q, m);
    }
  }

  // ---- shifts --------------------------------------------------------------

  lemma {:induction false} ShlPow2(x: nat, k: nat)
    ensures Shl(x, k) == x * Pow2(k)
  {
    if k > 0 {
      ShlPow2(x, k - 1);
    }
  }

  lemma {:induction false} LowBound(x: nat, k: nat)
    ensures Low(x, k) < Pow2(k)
  {
    if k > 0 {
      LowBound(x / 2, k - 1);
    }
  }

  // Every number is its upper part, moved back, plus its k lowest bits.
  lemma {:induction false} ShrLow(x: nat, k: nat)
    ensures x == Shl(Shr(x, k), k) + Low(x, k)
  {
    if k > 0 {
      ShrLow(x / 2, k - 1);
    }
  }

  lemma ShrLowDivMod(x: nat, k: nat)
    ensures Shr(x, k) == x / Pow2(k) && Low(x, k) == x % Pow2(k)
  {
    ShrLow(x, k);
    LowBound(x, k);
    ShlPow2(Shr(x, k), k);
    DivModUnique(x, Shr(x, k), Pow2(k), Low(x, k));
  }

  lemma {:induction false} ShlInjective(x: nat, y: nat, k: nat)
    requires Shl(x, k) == Shl(y, k)
    ensures x == y
  {
    if k > 0 {
      ShlInjective(x, y, k - 1);
    }
  }

  // The decomposition is unique.
  lemma {:induction false} SplitUnique(h: nat, l: nat, k: nat)
    requires l < Pow2(k)
    ensures Shr(Shl(h, k) + l, k) == h && Low(Shl(h, k) + l, k) == l
  {
    if k > 0 {
      SplitUnique(h, l / 2, k - 1);
      assert (Shl(h, k) + l) / 2 == Shl(h, k - 1) + l / 2;
    }
  }

  lemma {:induction false} ShrShr(x: nat, i: nat, j: nat)
    ensures Shr(Shr(x, i), j) == Shr(x, i + j)
  {
    if i > 0 {
      ShrShr(x / 2, i - 1, j);
    }
  }

  lemma {:induction false} ShlShl(x: nat, i: nat, j: nat)
    ensures Shl(Shl(x, i), j) == Shl(x, i + j)
  {
    if j > 0 {
      ShlShl(x, i, j - 1);
    }
  }

  lemma {:induction false} ShlAdd(x: nat, y: nat, k: nat)
    ensures Shl(x + y, k) == Shl(x, k) + Shl(y, k)
  {
    if k > 0 {
      ShlAdd(x, y, k - 1);
    }
  }

  lemma {:induction false} ShrBound(x: nat, k: nat, n: nat)
    requires x < Pow2(k + n)
    ensures Shr(x, k) < Pow2(n)
  {
    if k > 0 {
      ShrBound(x / 2, k - 1, n);
    }
  }

  lemma {:induction false} ShlBound(x: nat, k: nat, n: nat)
    requires x < Pow2(n)
    ensures Shl(x, k) < Pow2(n + k)
  {
    if k > 0 {
      ShlBound(x, k - 1, n);
      assert Pow2(n + k) == 2 * Pow2(n + k - 1);
    }
  }

  lemma {:induction false} ShrIsZero(x: nat, k: nat)
    ensures Shr(x, k) == 0 <==> x < Pow2(k)
  {
    if k > 0 {
      ShrIsZero(x / 2, k - 1);
    }
  }

  lemma {:induction false} LowSmall(x: nat, k: nat)
    requires x < Pow2(k)
    ensures Low(x, k) == x
  {
    if k > 0 {
      LowSmall(x / 2, k - 1);
    }
  }

  // ---- masks ---------------------------------------------------------------

  lemma {:induction false} AndZero(x: nat)
    ensures And(x, 0) == 0 && And(0, x) == 0
  {
  }

  // Masking with k low ones keeps the k lowest bits.
  lemma {:induction false} AndOnes(x: nat, k: nat)
    ensures And(x, Ones(k)) == Low(x, k)
  {
    if k == 0 {
    } else {
      AndOnes(x / 2, k - 1);
      if x == 0 {
        LowSmall(0, k);
      }
    }
  }

  // A mask with k trailing zeros looks only at the part of x above bit k.
  lemma {:induction false} AndShl(x: nat, m: nat, k: nat)
    ensures And(x, Shl(m, k)) == Shl(And(Shr(x, k), m), k)
  {
    if k > 0 {
      AndShl(x / 2, m, k - 1);
      AndEven(x, Shl(m, k - 1));
    }
  }

  lemma AndEven(x: nat, a: nat)
    ensures And(x, 2 * a) == 2 * And(x / 2, a)
  {
  }

  lemma {:induction false} OrZero(x: nat)
    ensures Or(0, x) == x && Or(x, 0) == x
    decreases x
  {
    if x > 0 {
      OrZero(x / 2);
    }
  }

  // An "or" of parts that do not overlap is a sum.
  lemma {:induction false} OrDisjoint(h: nat, l: nat, k: nat)
    requires l < Pow2(k)
    ensures Or(Shl(h, k), l) == Shl(h, k) + l
    ensures Or(l, Shl(h, k)) == Shl(h, k) + l
  {
    if k == 0 {
      OrZero(h);
    } else {
      OrDisjoint(h, l / 2, k - 1);
      OrEven(Shl(h, k - 1), l);
    }
  }

  lemma OrEven(a: nat, l: nat)
    ensures Or(2 * a, l) == 2 * Or(a, l / 2) + l % 2
    ensures Or(l, 2 * a) == 2 * Or(l / 2, a) + l % 2
  {
  }

  lemma {:induction false} XorZero(x: nat)
    ensures Xor(x, 0) == x
    decreases x
  {
    if x > 0 {
      XorZero(x / 2);
    }
  }

  // Flipping all k bits of a k-bit number.
  lemma {:induction false} XorOnes(x: nat, k: nat)
    requires x < Pow2(k)
    ensures x <= Ones(k) && Xor(x, Ones(k)) == Ones(k) - x
  {
    if k > 0 {
      XorOnes(x / 2, k - 1);
    }
  }

  lemma {:induction false} AndSelf(x: nat)
    ensures And(x, x) == x
    decreases x
  {
    if x > 0 {
      AndSelf(x / 2);
    }
  }

  // x & (x - 1) is zero exactly when the highest one is also the lowest.
  lemma {:induction false} AndPred(x: nat, n: nat)
    requires LowBit(x, n)
    ensures x >= 1
    ensures And(x, x - 1) == 0 <==> x == Pow2(n)
  {
    if n == 0 {
      AndSelf(x / 2);
      OddPred(x / 2);
    } else {
      AndPred(x / 2, n - 1);
      EvenPred(x / 2);
    }
  }

  lemma OddPred(y: nat)
    ensures And(2 * y + 1, 2 * y) == 2 * And(y, y)
  {
  }

  lemma EvenPred(y: nat)
    requires y > 0
    ensures And(2 * y, 2 * y - 1) == 2 * And(y, y - 1)
  {
    assert (2 * y - 1) / 2 == y - 1;
  }

  // ---- highest and lowest one ----------------------------------------------

  lemma {:induction false} TopBitBounds(a: nat, n: nat)
    ensures TopBit(a, n) <==> Pow2(n) <= a < Pow2(n + 1)
  {
    if n > 0 {
      TopBitBounds(a / 2, n - 1);
    }
  }

  lemma {:induction false} TopBitShr(a: nat, k: nat, n: nat)
    requires TopBit(Shr(a, k), n)
    ensures TopBit(a, n + k)
  {
    if k > 0 {
      TopBitShr(a / 2, k - 1, n);
    }
  }

  lemma {:induction false} LowBitShr(a: nat, k: nat, n: nat)
    requires LowBit(Shr(a, k), n) && Low(a, k) == 0
    ensures LowBit(a, n + k)
  {
    if k > 0 {
      LowBitShr(a / 2, k - 1, n);
    }
  }

  // The bits below the lowest one are zero.
  lemma {:induction false} LowBitLow(a: nat, n: nat)
    requires LowBit(a, n)
    ensures Low(a, n) == 0 && Shr(a, n) % 2 == 1
  {
    if n > 0 {
      LowBitLow(a / 2, n - 1);
    }
  }
}
