/** 64-bit division on a 32-bit machine: the run-time routines behind / and % on
    long long, with every special case of the unsigned core and the branch-free
    bit counters it relies on. Words are natural numbers below 2^32; every
    truncation and wrap-around of the C code is written out. */
module Int64 {
  import opened Bits

  // The union of one 64-bit value with its two 32-bit halves.
  function Word(high: nat, low: nat): nat {
    high * TWO32 + low
  }

  function Wrap32(x: int): (r: nat)
    ensures r < TWO32
  {
    x % TWO32
  }

  function Sub32(x: int, y: int): (r: nat)
    ensures r < TWO32
  {
    Wrap32(x - y)
  }

  function Wrap64(x: int): (r: nat)
    ensures r < TWO64
  {
    x % TWO64
  }

  // The left shift of a 32-bit word drops what leaves the word.
  function Shl32(x: nat, k: nat): (r: nat)
    ensures r < TWO32
  {
    Wrap32(Shl(x, k))
  }

  // -(c) for a C truth value c, as an unsigned word: all ones or zero.
  function Mask32(c: bool): nat {
    if c then 0xFFFF_FFFF else 0
  }

  function Flag(c: bool, n: nat): nat {
    if c then n else 0
  }

  // ---- bit counters --------------------------------------------------------

  // The four stages of the bit search: half width, 2^h, the masks over both halves.
  predicate Stage(h: nat, p: nat, high: nat, low: nat) {
    || (h == 16 && p == 0x1_0000 && high == 0xFFFF_0000 && low == 0xFFFF)
    || (h == 8 && p == 0x100 && high == 0xFF00 && low == 0xFF)
    || (h == 4 && p == 0x10 && high == 0xF0 && low == 0xF)
    || (h == 2 && p == 4 && high == 0xC && low == 0x3)
  }

  lemma StageMasks(h: nat, p: nat, high: nat, low: nat)
    requires Stage(h, p, high, low)
    ensures p == Pow2(h) && p * p == Pow2(h + h)
    ensures low == Ones(h) && high == Shl(Ones(h), h)
  {
    Pow2Add(h, h);
    OnesPow2(h);
    ShlPow2(Ones(h), h);
    Pow2Words();
  }

  lemma ShlZero(x: nat, k: nat)
    ensures Shl(x, k) == 0 <==> x == 0
  {
  }

  // What the mask test of a stage tells, and how large both outcomes can be.
  lemma StageTest(x: nat, h: nat, p: nat, high: nat, low: nat)
    requires Stage(h, p, high, low) && x < p * p
    ensures And(x, high) == 0 <==> x < p
    ensures Shr(x, h) < p && (Shr(x, h) == 0 <==> x < p)
  {
    StageMasks(h, p, high, low);
    AndShl(x, Ones(h), h);
    AndOnes(Shr(x, h), h);
    ShrBound(x, h, h);
    LowSmall(Shr(x, h), h);
    ShlZero(Shr(x, h), h);
    ShrIsZero(x, h);
  }

  // The repeated stage: skip the upper half when it is empty.
  method ClzStage(x: nat, h: nat, ghost p: nat, high: nat, ghost low: nat) returns (y: nat, t: nat)
    requires Stage(h, p, high, low) && 0 < x < p * p
    ensures 0 < y < p && t == Flag(x < p, h) && y == Shr(x, h - t)
  {
    StageTest(x, h, p, high, low);
    t := Flag(And(x, high) == 0, h);
    y := Shr(x, h - t);
  }

  method Clzsi2(a: nat) returns (c: nat)
    requires 0 < a < TWO32
    ensures c < 32 && TopBit(a, 31 - c)
  {
    var x1, t1 := ClzStage(a, 16, 0x1_0000, 0xFFFF0000, 0xFFFF);
    var r := t1;
    var x2, t2 := ClzStage(x1, 8, 0x100, 0xFF00, 0xFF);
    r := r + t2;
    var x3, t3 := ClzStage(x2, 4, 0x10, 0xF0, 0xF);
    r := r + t3;
    var x4, t4 := ClzStage(x3, 2, 4, 0xC, 0x3);
    r := r + t4;
    var last := ClzFinish(x4);
    r := r + last;
    RaiseTop(x3, x4, 2 - t4, 1 - last, 3 - t4 - last);
    RaiseTop(x2, x3, 4 - t3, 3 - t4 - last, 7 - t3 - t4 - last);
    RaiseTop(x1, x2, 8 - t2, 7 - t3 - t4 - last, 15 - t2 - t3 - t4 - last);
    RaiseTop(a, x1, 16 - t1, 15 - t2 - t3 - t4 - last, 31 - r);
    SmallWrap(r);
    c := Wrap32(r);
  }

  // Where the highest one is, a stage earlier.
  lemma RaiseTop(x: nat, y: nat, k: nat, n: nat, m: nat)
    requires y == Shr(x, k) && TopBit(y, n) && m == n + k
    ensures TopBit(x, m)
  {
    TopBitShr(x, k, n);
  }

  lemma SmallWrap(x: nat)
    requires x < TWO32
    ensures Wrap32(x) == x
  {
    DivModUnique(x, 0, TWO32, x);
  }

  // (2 - x) & -((x & 2) == 0): one more for x = 1, nothing for 2 and 3.
  method ClzFinish(x: nat) returns (c: nat)
    requires 1 <= x <= 3
    ensures c <= 1 && TopBit(x, 1 - c)
  {
    LowTests(x);
    MaskKeeps(Sub32(2, x), x == 1);
    c := And(Sub32(2, x), Mask32(And(x, 2) == 0));
  }

  // The single-bit tests on what is left at the end.
  lemma LowTests(x: nat)
    requires 1 <= x <= 3
    ensures And(x, 2) == 0 <==> x == 1
    ensures And(x, 1) == 0 <==> x == 2
    ensures Shr(x, 1) == x / 2
    ensures TopBit(x, if x == 1 then 0 else 1)
  {
    assert And(1, 2) == 0 && And(2, 2) == 2 && And(3, 2) == 2;
    assert And(1, 1) == 1 && And(2, 1) == 0 && And(3, 1) == 1;
  }

  lemma LowCases(y: nat)
    requires y % 4 != 0
    ensures LowBit(y, if y % 4 == 2 then 1 else 0)
  {
  }

  // A mask made of a truth value keeps a word or clears it.
  lemma MaskKeeps(v: nat, keep: bool)
    requires v < TWO32
    ensures And(v, Mask32(keep)) == if keep then v else 0
  {
    AndZero(v);
    AndFull(v);
  }

  // An all-ones mask keeps a word.
  lemma AndFull(x: nat)
    requires x < TWO32
    ensures And(x, 0xFFFF_FFFF) == x
  {
    Pow2Words();
    OnesPow2(32);
    AndOnes(x, 32);
    LowSmall(x, 32);
  }

  method CtzStage(x: nat, h: nat, ghost p: nat, ghost high: nat, low: nat) returns (y: nat, t: nat)
    requires Stage(h, p, high, low) && Low(x, h + h) != 0
    ensures Low(y, h) != 0 && (t == 0 || t == h)
    ensures forall n: nat :: LowBit(y, n) ==> LowBit(x, n + t)
  {
    StageMasks(h, p, high, low);
    AndOnes(x, h);
    t := Flag(And(x, low) == 0, h);
    y := Shr(x, t);
    LowHalves(x, h, h);
    forall n: nat | LowBit(y, n)
      ensures LowBit(x, n + t)
    {
      LowBitShr(x, t, n);
    }
  }

  lemma {:induction false} LowHalves(x: nat, i: nat, j: nat)
    ensures Low(x, i + j) == 0 <==> Low(x, i) == 0 && Low(Shr(x, i), j) == 0
  {
    if i > 0 {
      LowHalves(x / 2, i - 1, j);
    }
  }

  method Ctzsi2(a: nat) returns (c: nat)
    requires 0 < a < TWO32
    ensures c < 32 && LowBit(a, c)
  {
    var h := 16;
    WordNotZero(a, h);
    var x1, t1 := CtzStage(a, h, 0x1_0000, 0xFFFF0000, 0x0000FFFF);
    var r := t1;
    h := 8;
    var x2, t2 := CtzStage(x1, h, 0x100, 0xFF00, 0x00FF);
    r := r + t2;
    h := 4;
    var x3, t3 := CtzStage(x2, h, 0x10, 0xF0, 0x0F);
    r := r + t3;
    h := 2;
    var x4, t4 := CtzStage(x3, h, 4, 0xC, 0x3);
    r := r + t4;
    var last := CtzFinish(x4);
    c := Wrap32(r + last);
  }

  lemma LastTwoBits(y: nat)
    ensures And(y, 3) == y % 4 && Low(y, 2) == y % 4
  {
    AndOnes(y, 2);
    assert Low(y / 2, 1) == y / 2 % 2;
  }

  lemma WordNotZero(a: nat, h: nat)
    requires 0 < a < TWO32 && h == 16
    ensures Low(a, h + h) != 0
  {
    Pow2Words();
    LowSmall(a, h + h);
  }

  // x &= 3, then (2 - (x >> 1)) & -((x & 1) == 0): one more for x = 2, nothing for 1 and 3.
  method CtzFinish(y: nat) returns (c: nat)
    requires Low(y, 2) != 0
    ensures c <= 1 && LowBit(y, c)
  {
    LastTwoBits(y);
    var x := And(y, 3);
    LowTests(x);
    LowCases(y);
    MaskKeeps(Sub32(2, Shr(x, 1)), x == 2);
    c := And(Sub32(2, Shr(x, 1)), Mask32(And(x, 1) == 0));
  }

  // The 64-bit counters look at the half that holds the wanted bit.
  method Clzdi2(a: nat) returns (c: nat)
    requires 0 < a < TWO64
    ensures c < 64 && TopBit(a, 63 - c)
  {
    var high, low := a / TWO32, a % TWO32;
    var f := Mask32(high == 0);
    var x := Or(And(high, 0xFFFF_FFFF - f), And(low, f));
    HalfSelect(high, low, f);
    var c32 := Clzsi2(x);
    c := c32 + And(f, 32);
    HalfShift(a);
    if high != 0 {
      TopBitShr(a, 32, 31 - c32);
    }
  }

  method Ctzdi2(a: nat) returns (c: nat)
    requires 0 < a < TWO64
    ensures c < 64 && LowBit(a, c)
  {
    var high, low := a / TWO32, a % TWO32;
    var f := Mask32(low == 0);
    var x := Or(And(high, f), And(low, 0xFFFF_FFFF - f));
    HalfSelect(low, high, f);
    OrCommutes(And(high, f), And(low, 0xFFFF_FFFF - f));
    var c32 := Ctzsi2(x);
    c := c32 + And(f, 32);
    HalfShift(a);
    if low == 0 {
      LowBitShr(a, 32, c32);
    } else {
      LowBitHalf(low, high, c32);
    }
  }

  lemma {:induction false} OrCommutes(x: nat, y: nat)
    ensures Or(x, y) == Or(y, x)
  {
    if x != 0 || y != 0 {
      OrCommutes(x / 2, y / 2);
    }
  }

  lemma HalfSelect(first: nat, other: nat, f: nat)
    requires first < TWO32 && other < TWO32
    requires f == Mask32(first == 0)
    ensures Or(And(first, 0xFFFF_FFFF - f), And(other, f)) == if first == 0 then other else first
    ensures And(f, 32) == if first == 0 then 32 else 0
  {
    AndFull(first);
    AndFull(other);
    AndFull(32);
    AndCommutes(32, 0xFFFF_FFFF);
    AndZero(other);
    OrZero(first);
    OrZero(other);
  }

  lemma {:induction false} AndCommutes(x: nat, y: nat)
    ensures And(x, y) == And(y, x)
  {
    if x != 0 && y != 0 {
      AndCommutes(x / 2, y / 2);
    }
  }

  lemma HalfShift(a: nat)
    ensures Shr(a, 32) == a / TWO32 && Low(a, 32) == a % TWO32
  {
    Pow2Words();
    ShrLowDivMod(a, 32);
  }

  lemma LowBitHalf(low: nat, high: nat, n: nat)
    requires n < 32 && LowBit(low, n)
    ensures LowBit(Word(high, low), n)
  {
    Pow2Words();
    ShlPow2(high, 32);
    LowBitAbove(low, high, n, 32);
  }

  lemma {:induction false} LowBitAbove(low: nat, high: nat, n: nat, k: nat)
    requires n < k && LowBit(low, n)
    ensures LowBit(Shl(high, k) + low, n)
  {
    if n > 0 {
      LowBitAbove(low / 2, high, n - 1, k - 1);
      assert (Shl(high, k) + low) / 2 == Shl(high, k - 1) + low / 2;
    }
  }
}
