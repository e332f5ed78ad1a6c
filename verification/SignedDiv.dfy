/** The signed 64-bit wrappers around the unsigned core: division truncates toward
    zero and the remainder takes the sign of the dividend (section 6.5.5 of C11). */
module SignedDiv {
  import opened Bits
  import opened Int64
  import opened UDivMod

  predicate IsInt64(x: int) {
    -TWO63 <= x < TWO63
  }

  function Abs(x: int): (r: nat)
  {
    if x < 0 then -x else x
  }

  // The quotient of the C standard: the algebraic quotient without its fraction.
  function TruncDiv(a: int, b: int): int
    requires b != 0
  {
    if (a < 0) == (b < 0) then Abs(a) / Abs(b) else -(Abs(a) / Abs(b))
  }

  function TruncMod(a: int, b: int): int
    requires b != 0
  {
    if a < 0 then -(Abs(a) % Abs(b)) else Abs(a) % Abs(b)
  }

  // The quotient and remainder of the standard are the only ones with a = q*b + r,
  // |r| < |b| and r zero or of the sign of a.
  lemma TruncUnique(a: int, b: int, q: int, r: int)
    requires b != 0
    ensures a == q * b + r && Abs(r) < Abs(b) && (r == 0 || (r < 0) == (a < 0))
       <==> q == TruncDiv(a, b) && r == TruncMod(a, b)
  {
    var n, d := Abs(a), Abs(b);
    assert n == (n / d) * d + n % d;
    var sq := if (a < 0) == (b < 0) then q else -q;
    var sr := if a < 0 then -r else r;
    assert sq * d == if a < 0 then -(q * b) else q * b;
    if n == sq * d + sr && 0 <= sr < d {
      DivModUnique(n, sq, d, sr);
    }
  }

  // A 64-bit pattern, negated when the sign mask s is -1.
  function Negated(x: nat, s: int): nat
    requires x < TWO64
  {
    if s == -1 then Wrap64(TWO64 - x) else x
  }

  lemma XorMask(x: nat)
    requires x < TWO64
    ensures Xor(x, 0) == x && Xor(x, TWO64 - 1) == TWO64 - 1 - x
  {
    XorZero(x);
    Pow2Long();
    OnesPow2(64);
    XorOnes(x, 64);
  }

  // (x ^ s) - s.
  method Negate(x: nat, s: int) returns (r: nat)
    requires x < TWO64 && (s == 0 || s == -1)
    ensures r == Negated(x, s) && r < TWO64
  {
    XorMask(x);
    var flipped := Xor(x, Wrap64(s));
    r := Wrap64(flipped - s);
  }

  method XorSigns(s: int, t: int) returns (r: int)
    requires (s == 0 || s == -1) && (t == 0 || t == -1)
    ensures r == if s == t then 0 else -1
  {
    XorMask(0);
    XorMask(TWO64 - 1);
    r := Signed(Xor(Wrap64(s), Wrap64(t)));
  }

  // The absolute value of a signed 64-bit number, as the pattern the core receives;
  // the most negative number has its own pattern.
  lemma MagnitudeOf(a: int, s: int)
    requires IsInt64(a) && s == a / TWO63
    ensures s == if a < 0 then -1 else 0
    ensures Negated(Wrap64(a), s) == Abs(a)
  {
  }

  method DivDi3(a: int, b: int) returns (q: int)
    requires IsInt64(a) && IsInt64(b) && b != 0
    ensures IsInt64(q)
    ensures q == TruncDiv(a, b) <==> !(a == -TWO63 && b == -1)
    ensures a == -TWO63 && b == -1 ==> q == a
  {
    var sa := a / TWO63;
    var sb := b / TWO63;
    MagnitudeOf(a, sa);
    MagnitudeOf(b, sb);
    var ua := Negate(Wrap64(a), sa);
    var ub := Negate(Wrap64(b), sb);
    var s := XorSigns(sa, sb);
    var u := UDivDi3(ua, ub);
    QuotientRange(a, b);
    QuotientSign(a, b, u, s);
    var v := Negate(u, s);
    q := Signed(v);
  }

  // The unsigned quotient with its sign put back.
  lemma QuotientSign(a: int, b: int, u: int, s: int)
    requires IsInt64(a) && IsInt64(b) && b != 0 && u == Abs(a) / Abs(b) && 0 <= u <= TWO63
    requires u == TWO63 <==> a == -TWO63 && Abs(b) == 1
    requires s == if (a < 0) == (b < 0) then 0 else -1
    ensures var q := Signed(Negated(u, s));
            && IsInt64(q)
            && (q == TruncDiv(a, b) <==> !(a == -TWO63 && b == -1))
            && (a == -TWO63 && b == -1 ==> q == a)
  {
    SignedNegated(u, s);
    assert TruncDiv(a, b) == if s == 0 then u else -u;
  }

  // The signed reading of a magnitude with its sign put back.
  lemma SignedNegated(u: int, s: int)
    requires 0 <= u <= TWO63 && (s == 0 || s == -1)
    ensures Signed(Negated(u, s)) == if s == -1 then -u else if u < TWO63 then u else -TWO63
  {
    if s == -1 {
      var x := TWO64 - u;
      DivModUnique(x, if u == 0 then 1 else 0, TWO64, if u == 0 then 0 else x);
    }
  }

  lemma RemainderSign(a: int, b: int, m: nat, s: int)
    requires IsInt64(a) && IsInt64(b) && b != 0 && m == Abs(a) % Abs(b)
    requires s == if a < 0 then -1 else 0
    ensures m < TWO63 && Signed(Negated(m, s)) == TruncMod(a, b)
  {
    DivBounds(Abs(a), Abs(b));
    ModBelow(Abs(a), Abs(b));
    SignedNegated(m, s);
  }

  lemma ModBelow(n: nat, d: nat)
    requires d > 0
    ensures n % d < d
  {
  }

  lemma DivBounds(n: nat, d: nat)
    requires d > 0
    ensures 0 <= n / d && 0 <= n % d <= n
    ensures if d == 1 then n / d == n else 2 * (n / d) <= n
  {
    var q := n / d;
    assert n == q * d + n % d;
    MulMono(0, q, d);
    if d >= 2 {
      MulMono(2, d, q);
    }
  }

  lemma QuotientRange(a: int, b: int)
    requires IsInt64(a) && IsInt64(b) && b != 0
    ensures Abs(a) / Abs(b) <= TWO63
    ensures Abs(a) / Abs(b) == TWO63 <==> a == -TWO63 && Abs(b) == 1
  {
    DivBounds(Abs(a), Abs(b));
  }

  method ModDi3(a: int, b: int) returns (r: int)
    requires IsInt64(a) && IsInt64(b) && b != 0
    ensures r == TruncMod(a, b)
  {
    var s := b / TWO63;
    MagnitudeOf(b, s);
    var ub := Negate(Wrap64(b), s);
    s := a / TWO63;
    MagnitudeOf(a, s);
    var ua := Negate(Wrap64(a), s);
    var m := UModDi3(ua, ub);
    RemainderSign(a, b, m, s);
    var v := Negate(m, s);
    r := Signed(v);
  }

  method DivModDi4(a: int, b: int) returns (d: int, rem: int)
    requires IsInt64(a) && IsInt64(b) && b != 0
    ensures rem == TruncMod(a, b)
    ensures a == d * b + rem <==> !(a == -TWO63 && b == -1)
    ensures d == if a == -TWO63 && b == -1 then a else TruncDiv(a, b)
  {
    d := DivDi3(a, b);
    rem := WrappedRemainder(a, b, d);
  }

  // *rem = a - (d * b), in wrapping arithmetic.
  method WrappedRemainder(a: int, b: int, d: int) returns (rem: int)
    requires IsInt64(a) && IsInt64(b) && b != 0 && IsInt64(d)
    requires if a == -TWO63 && b == -1 then d == a else d == TruncDiv(a, b)
    ensures rem == TruncMod(a, b)
    ensures d == TruncDiv(a, b) ==> a == d * b + rem
  {
    var product := Signed(Wrap64(d * b));
    rem := Signed(Wrap64(a - product));
    TruncUnique(a, b, TruncDiv(a, b), TruncMod(a, b));
    if a == -TWO63 && b == -1 {
      assert Abs(a) % Abs(b) == 0;
    } else {
      RemainderFits(a, b, d * b);
    }
  }

  lemma RemainderFits(a: int, b: int, product: int)
    requires IsInt64(a) && b != 0
    requires product == a - TruncMod(a, b)
    ensures Signed(Wrap64(product)) == product
    ensures Signed(Wrap64(TruncMod(a, b))) == TruncMod(a, b)
  {
    DivBounds(Abs(a), Abs(b));
  }
}
