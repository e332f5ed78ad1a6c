/** The unsigned 64-bit division core: eight special cases and a restoring
    shift-subtract loop on a 128-bit register kept in four 32-bit words. */
module UDivMod {
  import opened Bits
  import opened Int64

  const WORD_BITS: nat := 32

  // ---- two-word shifts -----------------------------------------------------

  lemma WordShl(h: nat, l: nat)
    ensures Word(h, l) == Shl(h, 32) + l
  {
    Pow2Words();
    ShlPow2(h, 32);
  }

  // Dropping the bits that leave the word keeps the s lowest bits of x.
  lemma Shl32Low(x: nat, s: nat)
    requires x < TWO32 && s <= 32
    ensures Shl32(x, 32 - s) == Shl(Low(x, s), 32 - s)
  {
    var e := 32 - s;
    ShrLow(x, s);
    ShlAdd(Shl(Shr(x, s), s), Low(x, s), e);
    ShlShl(Shr(x, s), s, e);
    LowBound(x, s);
    ShlBound(Low(x, s), e, s);
    Pow2Words();
    ShlPow2(Shr(x, s), 32);
    DivModUnique(Shl(x, e), Shr(x, s), TWO32, Shl(Low(x, s), e));
  }

  // The value of (upper << (32 - s)) | (lower >> s).
  function Funnel(upper: nat, lower: nat, s: nat): nat
    requires s <= 32
  {
    Shl(Low(upper, s), 32 - s) + Shr(lower, s)
  }

  // The word that takes its upper bits from one word and its lower bits from another.
  method FunnelShift(upper: nat, lower: nat, s: nat) returns (w: nat)
    requires upper < TWO32 && lower < TWO32 && 1 <= s <= 31
    ensures w == Funnel(upper, lower, s) && w < TWO32
  {
    w := Or(Shl32(upper, WORD_BITS - s), Shr(lower, s));
    Shl32Low(upper, s);
    Pow2Words();
    ShrBound(lower, s, 32 - s);
    OrDisjoint(Low(upper, s), Shr(lower, s), 32 - s);
    LowBound(upper, s);
    ShlFill(Low(upper, s), Shr(lower, s), s, 32 - s);
  }

  lemma {:induction false} ShlFill(h: nat, l: nat, n: nat, k: nat)
    requires h < Pow2(n) && l < Pow2(k)
    ensures Shl(h, k) + l < Pow2(n + k)
  {
    if k > 0 {
      ShlFill(h, l / 2, n, k - 1);
    }
  }

  lemma {:induction false} ShrSum(h: nat, l: nat, k: nat, s: nat)
    requires s <= k
    ensures Shr(Shl(h, k) + l, s) == Shl(h, k - s) + Shr(l, s)
    ensures Low(Shl(h, k) + l, s) == Low(l, s)
  {
    if s > 0 {
      assert (Shl(h, k) + l) / 2 == Shl(h, k - 1) + l / 2;
      ShrSum(h, l / 2, k - 1, s - 1);
    }
  }

  // r = n >> s and q = n << (64 - s), for a split inside the low word.
  lemma SplitLow(nh: nat, nl: nat, s: nat)
    requires nh < TWO32 && nl < TWO32 && 1 <= s <= 31
    ensures Word(Shr(nh, s), Funnel(nh, nl, s)) == Shr(Word(nh, nl), s)
    ensures Word(Shl32(nl, 32 - s), 0) == Shl(Low(Word(nh, nl), s), 64 - s)
    ensures Low(Word(nh, nl), s) == Low(nl, s)
  {
    WordShl(nh, nl);
    ShrSum(nh, nl, 32, s);
    ShrLow(nh, s);
    ShlAdd(Shl(Shr(nh, s), s), Low(nh, s), 32 - s);
    ShlShl(Shr(nh, s), s, 32 - s);
    WordShl(Shr(nh, s), Funnel(nh, nl, s));
    Shl32Low(nl, s);
    WordShl(Shl32(nl, 32 - s), 0);
    ShlShl(Low(nl, s), 32 - s, 32);
  }

  // ... at the word boundary.
  lemma SplitMiddle(nh: nat, nl: nat)
    requires nh < TWO32 && nl < TWO32
    ensures Word(0, nh) == Shr(Word(nh, nl), 32)
    ensures Word(nl, 0) == Shl(Low(Word(nh, nl), 32), 32)
  {
    HalfShift(Word(nh, nl));
    WordShl(nl, 0);
  }

  // ... inside the high word.
  lemma SplitHigh(nh: nat, nl: nat, e: nat)
    requires nh < TWO32 && nl < TWO32 && 1 <= e <= 31
    ensures Word(0, Shr(nh, e)) == Shr(Word(nh, nl), 32 + e)
    ensures Word(Funnel(nh, nl, e), Shl32(nl, 32 - e)) == Shl(Low(Word(nh, nl), 32 + e), 32 - e)
  {
    HighPart(nh, nl, e);
    FunnelPart(nh, nl, e, 32 - e, 32);
  }

  lemma FunnelPart(nh: nat, nl: nat, e: nat, f: nat, w: nat)
    requires nh < TWO32 && nl < TWO32 && e + f == w == 32
    ensures Word(Funnel(nh, nl, e), Shl32(nl, f)) == Shl(Shl(Low(nh, e), w) + nl, f)
  {
    Shl32Low(nl, e);
    WordShlAt(Funnel(nh, nl, e), Shl32(nl, f), w);
    SplitHighLow(nh, nl, e, f, w);
  }

  lemma WordShlAt(h: nat, l: nat, w: nat)
    requires w == 32
    ensures Word(h, l) == Shl(h, w) + l
  {
    WordShl(h, l);
  }

  lemma SplitHighLow(nh: nat, nl: nat, e: nat, f: nat, w: nat)
    requires e + f == w == 32
    ensures Shl(Shl(Low(nh, e), f) + Shr(nl, e), w) + Shl(Low(nl, e), f) == Shl(Shl(Low(nh, e), w) + nl, f)
  {
    ShrLow(nl, e);
    SplitHighSum(Low(nh, e), Shr(nl, e), Low(nl, e), e, f);
  }

  lemma HighPart(nh: nat, nl: nat, e: nat)
    requires nh < TWO32 && nl < TWO32
    ensures Word(0, Shr(nh, e)) == Shr(Word(nh, nl), 32 + e)
    ensures Low(Word(nh, nl), 32 + e) == Shl(Low(nh, e), 32) + nl
  {
    var a := Word(nh, nl);
    HalfShift(a);
    ShrShr(a, 32, e);
    LowSum(a, 32, e);
  }

  lemma SplitHighSum(b: nat, c: nat, d: nat, e: nat, f: nat)
    requires e + f == 32
    ensures Shl(Shl(b, f) + c, 32) + Shl(d, f) == Shl(Shl(b, 32) + (Shl(c, e) + d), f)
  {
    ShlAdd(Shl(b, f), c, 32);
    ShlShl(b, f, 32);
    ShlAdd(Shl(b, 32), Shl(c, e) + d, f);
    ShlShl(b, 32, f);
    ShlAdd(Shl(c, e), d, f);
    ShlShl(c, e, f);
  }

  lemma {:induction false} LowSum(x: nat, i: nat, j: nat)
    ensures Low(x, i + j) == Shl(Low(Shr(x, i), j), i) + Low(x, i)
  {
    if i > 0 {
      LowSum(x / 2, i - 1, j);
    }
  }

  lemma Pow31()
    ensures Pow2(WORD_BITS - 1) == 0x8000_0000
  {
    Pow2Words();
    Pow2Step(32);
  }

  lemma DoubleLow(x: nat)
    requires x < TWO32
    ensures 2 * (x % 0x8000_0000) == Wrap32(2 * x)
  {
    var c := x / 0x8000_0000;
    assert Wrap32(2 * x) == 2 * x - c * TWO32;
  }

  lemma ShlOnce(x: nat, k: nat)
    requires k == 1
    ensures Shl(x, k) == 2 * x
  {
  }

  // The bits that cross a word boundary in a shift by one; s is 31, kept symbolic.
  lemma CarryOut(x: nat, s: nat)
    requires x < TWO32 && s == WORD_BITS - 1
    ensures Shr(x, s) == x / 0x8000_0000
    ensures Shl(Low(x, s), 32 - s) == Wrap32(2 * x)
  {
    Pow31();
    ShrLowDivMod(x, s);
    ShlOnce(Low(x, s), 32 - s);
    DoubleLow(x);
  }

  // (x << 1) | (y >> 31).
  method ShiftWord(x: nat, y: nat) returns (w: nat)
    requires x < TWO32 && y < TWO32
    ensures w == Wrap32(2 * x) + y / 0x8000_0000 && w < TWO32
  {
    var s := WORD_BITS - 1;
    CarryOut(x, s);
    CarryOut(y, s);
    w := FunnelShift(x, y, s);
  }

  // The last word of the shifted register takes the carry.
  method ShiftIn(x: nat, b: nat) returns (w: nat)
    requires x < TWO32 && b <= 1
    ensures w == Wrap32(2 * x) + b && w < TWO32
  {
    w := Or(Shl32(x, 1), b);
    ghost var h := Wrap32(2 * x) / 2;
    assert Shl(h, 1) == Wrap32(2 * x);
    assert Shl(x, 1) == 2 * x;
    OrDisjoint(h, b, 1);
  }

  lemma DoubleWord(h: nat, l: nat, b: nat)
    requires h < TWO32 && l < TWO32 && b <= 1
    ensures Word(Wrap32(2 * h) + l / 0x8000_0000, Wrap32(2 * l) + b) == Wrap64(2 * Word(h, l) + b)
    ensures h / 0x8000_0000 == Word(h, l) / TWO63
  {
    var hc, lc := h / 0x8000_0000, l / 0x8000_0000;
    assert Wrap32(2 * h) == 2 * h - hc * TWO32;
    assert Wrap32(2 * l) == 2 * l - lc * TWO32;
  }

  // r:q = ((r:q) << 1) | carry, over the four words of the register.
  method ShiftRegister(rh: nat, rl: nat, qh: nat, ql: nat, carry: nat)
    returns (rh': nat, rl': nat, qh': nat, ql': nat)
    requires rh < TWO32 && rl < TWO32 && qh < TWO32 && ql < TWO32 && carry <= 1
    ensures rh' < TWO32 && rl' < TWO32 && qh' < TWO32 && ql' < TWO32
    ensures Word(rh', rl') == Wrap64(2 * Word(rh, rl) + Word(qh, ql) / TWO63)
    ensures Word(qh', ql') == Wrap64(2 * Word(qh, ql) + carry)
  {
    rh' := ShiftWord(rh, rl);
    rl' := ShiftWord(rl, qh);
    qh' := ShiftWord(qh, ql);
    ql' := ShiftIn(ql, carry);
    DoubleWord(qh, ql, carry);
    DoubleWord(rh, rl, qh / 0x8000_0000);
  }


  // ---- the shift-subtract loop ---------------------------------------------

  // Two's complement reading of a 64-bit pattern.
  function Signed(x: nat): int {
    if x < TWO63 then x else x - TWO64
  }

  // Arithmetic shift right by 63: the sign, as 0 or -1.
  function SignMask(x: nat): int
    requires x < TWO64
  {
    Signed(x) / TWO63
  }

  // With j bits of a still to come: q holds them above the quotient bits found so
  // far, and a >> j is divided exactly.
  ghost predicate Partial(a: nat, d: nat, j: nat, q: nat, r: nat, carry: nat, found: nat) {
    && j <= 64
    && carry <= 1 && r < d
    && q == Shl(Low(a, j), 64 - j) + found
    && Shr(a, j) == d * (2 * found + carry) + r
  }

  lemma FoundBound(a: nat, d: nat, j: nat, r: nat, f: nat)
    requires a < TWO64 && j <= 64 && d >= 1
    requires Shr(a, j) == d * f + r
    ensures f < Pow2(64 - j) && r < Pow2(64 - j)
  {
    Pow2Long();
    ShrBound(a, j, 64 - j);
    MulMono(1, d, f);
  }

  // The bit that a >> j loses against a >> (j - 1).
  lemma NextBit(a: nat, j: nat)
    requires j >= 1
    ensures var bit := Shr(a, j - 1) % 2;
            && Shr(a, j - 1) == 2 * Shr(a, j) + bit
            && Low(a, j) == Shl(bit, j - 1) + Low(a, j - 1)
  {
    ShrShr(a, j - 1, 1);
    LowSum(a, j - 1, 1);
    assert Low(Shr(a, j - 1), 1) == Shr(a, j - 1) % 2;
    assert Shr(Shr(a, j - 1), 1) == Shr(a, j - 1) / 2;
  }

  // The upper half of the shifted register: one more bit of a to divide.
  lemma ShiftRemainder(a: nat, d: nat, j: nat, r: nat, f: nat)
    requires a < TWO64 && 1 <= j <= 64 && r < d
    requires Shr(a, j) == d * f + r
    ensures var bit := Shr(a, j - 1) % 2;
            Shr(a, j - 1) == d * (2 * f) + (2 * r + bit) && 2 * r + bit < TWO64
  {
    FoundBound(a, d, j, r, f);
    NextBit(a, j);
    Pow2Long();
    Pow2Mono(64 - j, 63);
    TwiceProduct(d, f);
  }

  lemma TwiceProduct(d: nat, f: nat)
    ensures d * (2 * f) == 2 * (d * f)
  {
  }

  // The lower half: its top bit leaves, the last quotient bit enters.
  lemma ShiftQuotient(a: nat, j: nat, q: nat, found: nat, f: nat)
    requires 1 <= j <= 64 && found <= f < Pow2(64 - j)
    requires q == Shl(Low(a, j), 64 - j) + found
    ensures var bit := Shr(a, j - 1) % 2;
            q < TWO64 && q / TWO63 == bit
    ensures Wrap64(2 * q + (f - 2 * found)) == Shl(Low(a, j - 1), 65 - j) + f
  {
    var bit, low := Shr(a, j - 1) % 2, Low(a, j - 1);
    TopBitOfQuotient(a, j);
    LowBound(a, j - 1);
    Pow2Long();
    ShlFill(low, found, j - 1, 64 - j);
    Pow2Step(65 - j);
    ShlFill(low, f, j - 1, 65 - j);
    TopLeaves(bit, Shl(low, 64 - j), found, f);
  }

  lemma TopBitOfQuotient(a: nat, j: nat)
    requires 1 <= j <= 64
    ensures Shl(Low(a, j), 64 - j) == (Shr(a, j - 1) % 2) * TWO63 + Shl(Low(a, j - 1), 64 - j)
    ensures Shl(Low(a, j - 1), 65 - j) == 2 * Shl(Low(a, j - 1), 64 - j)
  {
    var bit := Shr(a, j - 1) % 2;
    NextBit(a, j);
    ShlAdd(Shl(bit, j - 1), Low(a, j - 1), 64 - j);
    ShlShl(bit, j - 1, 64 - j);
    Pow2Long();
    ShlPow2(bit, 63);
  }

  lemma TopLeaves(bit: nat, low: nat, found: nat, f: nat)
    requires bit <= 1 && low + found < TWO63 && 2 * low + f < TWO64
    ensures var q := bit * TWO63 + low + found;
            && q < TWO64 && q / TWO63 == bit
            && Wrap64(2 * q + (f - 2 * found)) == 2 * low + f
  {
  }

  // The sign of d - r - 1, computed modulo 2^64, tells whether r >= d.
  lemma SignCompare(d: nat, r: nat)
    requires d < TWO64 && r < TWO64
    requires r < 2 * d && (d > TWO63 ==> r >= TWO63)
    ensures SignMask(Wrap64(d - r - 1)) == if r >= d then -1 else 0
  {
    if r >= d {
      assert Wrap64(d - r - 1) == d - r - 1 + TWO64;
    } else {
      assert Wrap64(d - r - 1) == d - r - 1;
    }
  }

  lemma MaskBySign(d: nat, s: int)
    requires d < TWO64 && (s == 0 || s == -1)
    ensures And(d, Wrap64(s)) == if s == -1 then d else 0
    ensures And(Wrap64(s), 1) == if s == -1 then 1 else 0
  {
    Pow2Long();
    OnesPow2(64);
    AndZero(d);
    AndZero(1);
    if s == -1 {
      AndOnes(d, 64);
      LowSmall(d, 64);
      AndOnes(Wrap64(s), 1);
      assert Low(Wrap64(s), 1) == Wrap64(s) % 2;
    }
  }

  // carry = (r >= d); if carry, r -= d; without a branch.
  method SubtractIfFits(d: nat, r: nat) returns (carry: nat, r': nat)
    requires d < TWO64 && r < TWO64
    requires r < 2 * d && (d > TWO63 ==> r >= TWO63)
    ensures carry == (if r >= d then 1 else 0) && r' == (if r >= d then r - d else r)
  {
    var s := SignMask(Wrap64(d - r - 1));
    SignCompare(d, r);
    MaskBySign(d, s);
    carry := And(Wrap64(s), 1);
    r' := Wrap64(r - And(d, Wrap64(s)));
  }

  // The register after the shift: r takes the next bit of a and may exceed d.
  lemma PartialShift(a: nat, d: nat, j: nat, q: nat, r: nat, carry: nat, found: nat)
    requires a < TWO64 && j >= 1 && Partial(a, d, j, q, r, carry, found)
    requires d > TWO63 ==> a >= TWO63 && j == 1 && r == a / 2
    ensures q < TWO64 && q / TWO63 <= 1
    ensures var r2 := 2 * r + q / TWO63; r2 < TWO64 && r2 < 2 * d && (d > TWO63 ==> r2 >= TWO63)
  {
    var f := 2 * found + carry;
    FoundBound(a, d, j, r, f);
    ShiftRemainder(a, d, j, r, f);
    ShiftQuotient(a, j, q, found, f);
  }

  // ... and after the conditional subtraction.
  lemma PartialNext(a: nat, d: nat, j: nat, q: nat, r: nat, carry: nat, found: nat, carry': nat, r': nat)
    requires a < TWO64 && j >= 1 && Partial(a, d, j, q, r, carry, found)
    requires carry' <= 1 && r' < d && 2 * r + q / TWO63 == carry' * d + r'
    ensures Partial(a, d, j - 1, Wrap64(2 * q + carry), r', carry', 2 * found + carry)
  {
    var f := 2 * found + carry;
    FoundBound(a, d, j, r, f);
    ShiftRemainder(a, d, j, r, f);
    ShiftQuotient(a, j, q, found, f);
    assert d * (2 * f) + carry' * d == d * (2 * f + carry');
  }

  lemma PartialDone(a: nat, d: nat, q: nat, r: nat, carry: nat, found: nat)
    requires a < TWO64 && Partial(a, d, 0, q, r, carry, found)
    ensures q == found && 2 * found + carry < TWO64 && a == (2 * found + carry) * d + r
  {
    FoundBound(a, d, 0, r, 2 * found + carry);
    Pow2Long();
    ShlZero(0, 64);
    assert Low(a, 0) == 0;
  }

  // One round of the loop.
  method DivisionRound(ghost a: nat, d: nat, ghost j: nat, rh: nat, rl: nat, qh: nat, ql: nat,
                       carry: nat, ghost found: nat)
    returns (rh': nat, rl': nat, qh': nat, ql': nat, carry': nat)
    requires a < TWO64 && d < TWO64 && j >= 1
    requires rh < TWO32 && rl < TWO32 && qh < TWO32 && ql < TWO32
    requires Partial(a, d, j, Word(qh, ql), Word(rh, rl), carry, found)
    requires d > TWO63 ==> a >= TWO63 && j == 1 && Word(rh, rl) == a / 2
    ensures rh' < TWO32 && rl' < TWO32 && qh' < TWO32 && ql' < TWO32
    ensures Partial(a, d, j - 1, Word(qh', ql'), Word(rh', rl'), carry', 2 * found + carry)
  {
    ghost var q, r := Word(qh, ql), Word(rh, rl);
    PartialShift(a, d, j, q, r, carry, found);
    rh', rl', qh', ql' := ShiftRegister(rh, rl, qh, ql, carry);
    var r2 := Word(rh', rl');
    assert r2 == 2 * r + q / TWO63;
    var r';
    carry', r' := SubtractIfFits(d, r2);
    assert Word(qh', ql') == Wrap64(2 * q + carry);
    PartialNext(a, d, j, q, r, carry, found, carry', r');
    rh', rl' := Halves(r');
  }

  method Halves(r: nat) returns (h: nat, l: nat)
    requires r < TWO64
    ensures h < TWO32 && l < TWO32 && Word(h, l) == r
  {
    h, l := r / TWO32, r % TWO32;
  }

  lemma OrDouble(q: nat, b: nat, doubled: nat)
    requires b <= 1 && doubled == 2 * q
    ensures Or(doubled, b) == doubled + b
  {
    OrZero(q);
  }

  // q.all = (q.all << 1) | carry.
  method AppendCarry(q: nat, carry: nat) returns (w: nat)
    requires carry <= 1 && 2 * q + carry < TWO64
    ensures w == 2 * q + carry
  {
    var doubled := Wrap64(Shl(q, 1));
    assert Shl(q, 1) == 2 * Shl(q, 0);
    OrDouble(q, carry, doubled);
    w := Or(doubled, carry);
  }

  method ShiftSubtract(ghost a: nat, d: nat, start: nat, rh0: nat, rl0: nat, qh0: nat, ql0: nat)
    returns (quot: nat, rem: nat)
    requires 1 <= start <= 63 && a < TWO64 && d < TWO64
    requires rh0 < TWO32 && rl0 < TWO32 && qh0 < TWO32 && ql0 < TWO32
    requires Word(rh0, rl0) == Shr(a, start) < d
    requires Word(qh0, ql0) == Shl(Low(a, start), 64 - start)
    requires d > TWO63 ==> start == 1 && a >= TWO63
    ensures a == quot * d + rem && rem < d && quot < TWO64
  {
    var rh: nat, rl: nat, qh: nat, ql: nat := rh0, rl0, qh0, ql0;
    var sr, carry := start, 0;
    ghost var found: nat := 0;
    while sr > 0
      invariant sr <= start
      invariant rh < TWO32 && rl < TWO32 && qh < TWO32 && ql < TWO32
      invariant Partial(a, d, sr, Word(qh, ql), Word(rh, rl), carry, found)
      invariant sr == 1 == start ==> Word(rh, rl) == a / 2
    {
      ghost var c := carry;
      rh, rl, qh, ql, carry := DivisionRound(a, d, sr, rh, rl, qh, ql, carry, found);
      found := 2 * found + c;
      sr := sr - 1;
    }
    PartialDone(a, d, Word(qh, ql), Word(rh, rl), carry, found);
    quot := AppendCarry(Word(qh, ql), carry);
    rem := Word(rh, rl);
  }

  // ---- the special cases ---------------------------------------------------

  lemma {:induction false} LowBitExists(x: nat) returns (n: nat)
    requires x > 0
    ensures LowBit(x, n)
    decreases x
  {
    if x % 2 == 1 {
      n := 0;
    } else {
      n := LowBitExists(x / 2);
      n := n + 1;
    }
  }

  // The quotient and remainder of a, certified by multiplication.
  predicate Divided(a: nat, b: nat, q: nat, r: nat) {
    a == q * b + r && r < b && q < TWO64
  }

  // Division by a power of two in the low word.
  lemma DividedByLowPower(a: nat, d: nat, n: nat)
    requires a < TWO64 && d == Pow2(n)
    ensures Divided(a, d, Shr(a, n), Low(a, n))
  {
    ShrLow(a, n);
    LowBound(a, n);
    ShlPow2(Shr(a, n), n);
    ShrAtMost(a, n);
  }

  lemma {:induction false} ShrAtMost(a: nat, n: nat)
    ensures Shr(a, n) <= a
  {
    if n > 0 {
      ShrAtMost(a / 2, n - 1);
    }
  }

  // Division by a multiple of 2^32: the low word only passes through.
  lemma DividedHigh(nh: nat, nl: nat, dh: nat, q: nat, r: nat)
    requires nl < TWO32 && nh < TWO32 && nh == q * dh + r && r < dh
    ensures Divided(Word(nh, nl), Word(dh, 0), q, Word(r, nl))
  {
    assert q * Word(dh, 0) == (q * dh) * TWO32;
    MulMono(1, dh, q);
  }

  // A divisor with a higher top bit is larger.
  lemma LongerIsLarger(nh: nat, nl: nat, dh: nat, dl: nat, cn: nat, cd: nat)
    requires nl < TWO32 && cd < cn <= 31
    requires TopBit(nh, 31 - cn) && TopBit(dh, 31 - cd)
    ensures Word(nh, nl) < Word(dh, dl)
  {
    TopBitBounds(nh, 31 - cn);
    TopBitBounds(dh, 31 - cd);
    Pow2Mono(31 - cn + 1, 31 - cd);
  }

  // The first partial remainder is shorter than the divisor.
  lemma FirstRemainder(nh: nat, nl: nat, cn: nat, d: nat, top: nat, sr: nat)
    requires nh < TWO32 && nl < TWO32 && cn <= 31 && TopBit(nh, 31 - cn)
    requires d >= Pow2(top) && sr + top == 64 - cn
    ensures Shr(Word(nh, nl), sr) < d
  {
    TopBitBounds(nh, 31 - cn);
    WordShl(nh, nl);
    Pow2Words();
    ShlFill(nh, nl, 32 - cn, 32);
    ShrBound(Word(nh, nl), sr, top);
  }

  lemma HighDivisor(dh: nat, dl: nat, cd: nat)
    requires cd <= 31 && TopBit(dh, 31 - cd)
    ensures Word(dh, dl) >= Pow2(63 - cd)
  {
    TopBitBounds(dh, 31 - cd);
    Pow2Words();
    Pow2Add(31 - cd, 32);
  }

  // With a top bit in the divisor only a same-length dividend reaches the loop.
  lemma TopDivisor(nh: nat, nl: nat, dh: nat, dl: nat, cn: nat, cd: nat)
    requires nh < TWO32 && nl < TWO32 && dh < TWO32 && dl < TWO32 && cn <= cd <= 31
    requires TopBit(nh, 31 - cn) && TopBit(dh, 31 - cd)
    ensures Word(dh, dl) > TWO63 ==> cd - cn == 0 && Word(nh, nl) >= TWO63
  {
    TopBitBounds(nh, 31 - cn);
    TopBitBounds(dh, 31 - cd);
    Pow2Words();
    Pow2Step(32);
    if cd > 0 {
      Pow2Mono(31 - cd + 1, 31);
    }
  }

  lemma OneIsPower()
    ensures And(1, 0) == 0
  {
  }

  // d = dh : dl with dh not zero, the general case: align, then subtract.
  method DivideAligned(nh: nat, nl: nat, dh: nat, dl: nat, cn: nat, cd: nat) returns (q: nat, rem: nat)
    requires 0 < nh < TWO32 && nl < TWO32 && 0 < dh < TWO32 && dl < TWO32
    requires cn <= cd <= 31 && TopBit(nh, 31 - cn) && TopBit(dh, 31 - cd)
    ensures Divided(Word(nh, nl), Word(dh, dl), q, rem)
  {
    var sr := cd - cn;
    sr := sr + 1;
    HighDivisor(dh, dl, cd);
    FirstRemainder(nh, nl, cn, Word(dh, dl), 63 - cd, sr);
    TopDivisor(nh, nl, dh, dl, cn, cd);
    if sr == WORD_BITS {
      SplitMiddle(nh, nl);
      q, rem := ShiftSubtract(Word(nh, nl), Word(dh, dl), sr, 0, nh, nl, 0);
    } else {
      SplitLow(nh, nl, sr);
      ShrAtMost(nh, sr);
      var rl := FunnelShift(nh, nl, sr);
      q, rem := ShiftSubtract(Word(nh, nl), Word(dh, dl), sr, Shr(nh, sr), rl, Shl32(nl, WORD_BITS - sr), 0);
    }
  }

  // d = dl, not a power of two.
  method DivideShort(nh: nat, nl: nat, dl: nat, cn: nat, cd: nat) returns (q: nat, rem: nat)
    requires 0 < nh < TWO32 && nl < TWO32 && 1 < dl < TWO32
    requires cn <= 31 && cd <= 31 && TopBit(nh, 31 - cn) && TopBit(dl, 31 - cd)
    ensures Divided(Word(nh, nl), dl, q, rem)
  {
    var sr := 1 + WORD_BITS + cd - cn;
    TopBitBounds(dl, 31 - cd);
    FirstRemainder(nh, nl, cn, dl, 31 - cd, sr);
    if sr == WORD_BITS {
      SplitMiddle(nh, nl);
      q, rem := ShiftSubtract(Word(nh, nl), dl, sr, 0, nh, nl, 0);
    } else if sr < WORD_BITS {
      SplitLow(nh, nl, sr);
      ShrAtMost(nh, sr);
      var rl := FunnelShift(nh, nl, sr);
      q, rem := ShiftSubtract(Word(nh, nl), dl, sr, Shr(nh, sr), rl, Shl32(nl, WORD_BITS - sr), 0);
    } else {
      var e := sr - WORD_BITS;
      SplitHigh(nh, nl, e);
      ShrAtMost(nh, e);
      var qh := FunnelShift(nh, nl, e);
      q, rem := ShiftSubtract(Word(nh, nl), dl, sr, 0, Shr(nh, e), qh, Shl32(nl, 64 - sr));
    }
  }

  // K 0 / K 0.
  method DivideHighWords(nh: nat, dh: nat) returns (q: nat, rem: nat)
    requires 0 < nh < TWO32 && 0 < dh < TWO32
    ensures Divided(Word(nh, 0), Word(dh, 0), q, rem)
  {
    q, rem := nh / dh, Word(nh % dh, 0);
    DividedHigh(nh, 0, dh, nh / dh, nh % dh);
  }

  // K K / K 0 with a power of two.
  method DivideHighPower(nh: nat, nl: nat, dh: nat) returns (q: nat, rem: nat)
    requires 0 < nh < TWO32 && nl < TWO32 && 0 < dh < TWO32 && And(dh, dh - 1) == 0
    ensures Divided(Word(nh, nl), Word(dh, 0), q, rem)
  {
    var c := Ctzsi2(dh);
    HighPower(nh, nl, dh, c);
    q, rem := Shr(nh, c), Word(And(nh, dh - 1), nl);
  }

  // K X / K 0, a divisor with an empty low word.
  method DivideByHigh(nh: nat, nl: nat, dh: nat) returns (q: nat, rem: nat)
    requires 0 < nh < TWO32 && nl < TWO32 && 0 < dh < TWO32
    ensures Divided(Word(nh, nl), Word(dh, 0), q, rem)
  {
    if nl == 0 {
      q, rem := DivideHighWords(nh, dh);
    } else if And(dh, dh - 1) == 0 {
      q, rem := DivideHighPower(nh, nl, dh);
    } else {
      OneIsPower();
      q, rem := DivideHighOther(nh, nl, dh);
    }
  }

  lemma NearerIsSmaller(nh: nat, nl: nat, dh: nat, dl: nat, cn: nat, cd: nat)
    requires nh < TWO32 && nl < TWO32 && cd < cn <= 31
    requires TopBit(nh, 31 - cn) && TopBit(dh, 31 - cd)
    ensures Divided(Word(nh, nl), Word(dh, dl), 0, Word(nh, nl))
  {
    LongerIsLarger(nh, nl, dh, dl, cn, cd);
  }

  method DivideHighOther(nh: nat, nl: nat, dh: nat) returns (q: nat, rem: nat)
    requires 0 < nh < TWO32 && nl < TWO32 && 1 < dh < TWO32
    ensures Divided(Word(nh, nl), Word(dh, 0), q, rem)
  {
    var cd := Clzsi2(dh);
    var cn := Clzsi2(nh);
    var sr := Sub32(cd, cn);
    if sr > WORD_BITS - 2 {
      WideGap(dh, cn, cd);
      NearerIsSmaller(nh, nl, dh, 0, cn, cd);
      return 0, Word(nh, nl);
    }
    q, rem := DivideAligned(nh, nl, dh, 0, cn, cd);
  }

  // K X / 0 K, a divisor of one word.
  method DivideByLow(nh: nat, nl: nat, dl: nat) returns (q: nat, rem: nat)
    requires 0 < nh < TWO32 && nl < TWO32 && 0 < dl < TWO32
    ensures Divided(Word(nh, nl), dl, q, rem)
  {
    if And(dl, dl - 1) == 0 {
      if dl == 1 {
        AndZero(nl);
        return Word(nh, nl), And(nl, dl - 1);
      }
      var sr := Ctzsi2(dl);
      ShortPower(nh, nl, dl, sr);
      var ql := FunnelShift(nh, nl, sr);
      return Word(Shr(nh, sr), ql), And(nl, dl - 1);
    }
    OneIsPower();
    var cd := Clzsi2(dl);
    var cn := Clzsi2(nh);
    q, rem := DivideShort(nh, nl, dl, cn, cd);
  }

  // K X / K K.
  method DivideByBoth(nh: nat, nl: nat, dh: nat, dl: nat) returns (q: nat, rem: nat)
    requires 0 < nh < TWO32 && nl < TWO32 && 0 < dh < TWO32 && 0 < dl < TWO32
    ensures Divided(Word(nh, nl), Word(dh, dl), q, rem)
  {
    var cd := Clzsi2(dh);
    var cn := Clzsi2(nh);
    var sr := Sub32(cd, cn);
    if sr > WORD_BITS - 1 {
      NearerIsSmaller(nh, nl, dh, dl, cn, cd);
      return 0, Word(nh, nl);
    }
    q, rem := DivideAligned(nh, nl, dh, dl, cn, cd);
  }

  /** The unsigned division core. A zero divisor is a hardware trap in the original. */
  method UDivModDi4(a: nat, b: nat) returns (q: nat, rem: nat)
    requires a < TWO64 && 0 < b < TWO64
    ensures a == q * b + rem && rem < b && q < TWO64
  {
    var nh, nl := a / TWO32, a % TWO32;
    var dh, dl := b / TWO32, b % TWO32;
    if nh == 0 {
      if dh == 0 {
        q, rem := nl / dl, nl % dl;
      } else {
        q, rem := 0, nl;
      }
    } else if dl == 0 {
      q, rem := DivideByHigh(nh, nl, dh);
    } else if dh == 0 {
      q, rem := DivideByLow(nh, nl, dl);
    } else {
      q, rem := DivideByBoth(nh, nl, dh, dl);
    }
  }

  method UDivDi3(a: nat, b: nat) returns (q: nat)
    requires a < TWO64 && 0 < b < TWO64
    ensures q == a / b
  {
    var r;
    q, r := UDivModDi4(a, b);
    DivModUnique(a, q, b, r);
  }

  method UModDi3(a: nat, b: nat) returns (r: nat)
    requires a < TWO64 && 0 < b < TWO64
    ensures r == a % b
  {
    var q;
    q, r := UDivModDi4(a, b);
    DivModUnique(a, q, b, r);
  }

  lemma HighPower(nh: nat, nl: nat, dh: nat, n: nat)
    requires nh < TWO32 && nl < TWO32 && dh > 0
    requires And(dh, dh - 1) == 0 && LowBit(dh, n)
    ensures Divided(Word(nh, nl), Word(dh, 0), Shr(nh, n), Word(And(nh, dh - 1), nl))
  {
    AndPred(dh, n);
    DividedByLowPower(nh, dh, n);
    DividedHigh(nh, nl, dh, Shr(nh, n), Low(nh, n));
    OnesPow2(n);
    AndOnes(nh, n);
  }

  // A gap of 31 between the top bits needs dh = 1, which was handled as a power of two.
  lemma WideGap(dh: nat, cn: nat, cd: nat)
    requires dh > 1 && cd <= 31 && cn <= 31 && TopBit(dh, 31 - cd)
    requires Sub32(cd, cn) > 30
    ensures cd < cn
  {
  }

  lemma ShortPower(nh: nat, nl: nat, dl: nat, n: nat)
    requires 0 < nh < TWO32 && nl < TWO32 && 1 < dl < TWO32 && n < 32
    requires And(dl, dl - 1) == 0 && LowBit(dl, n)
    ensures 1 <= n <= 31
    ensures Divided(Word(nh, nl), dl, Word(Shr(nh, n), Funnel(nh, nl, n)), And(nl, dl - 1))
  {
    AndPred(dl, n);
    DividedByLowPower(Word(nh, nl), dl, n);
    SplitLow(nh, nl, n);
    OnesPow2(n);
    AndOnes(nl, n);
  }
}
