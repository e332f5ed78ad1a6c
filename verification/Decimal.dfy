/** Printing and reading decimal numbers: the digits of a number, padded or not, and the
    parser that gives the number back. */
module Decimal {

  // ---- decimal digits -------------------------------------------------------------------------

  // The character of a remainder; for a negative one it is below '0'.
  function Digit(d: int): char
    requires -10 < d < 10
  {
    (d + '0' as int) as char
  }

  // The language's / and % by ten, which truncate towards zero.
  function TenthOf(n: int): int { if n >= 0 then n / 10 else -(-n / 10) }

  function LastOf(n: int): (d: int)
    ensures -10 < d < 10 && n == TenthOf(n) * 10 + d
  {
    if n >= 0 then n % 10 else -(-n % 10)
  }

  function Abs(n: int): nat { if n >= 0 then n else -n }

  predicate IsDigit(c: char) { '0' <= c <= '9' }

  // Most significant first; none for zero.
  function Dec(n: int): string
    decreases Abs(n)
  {
    if n == 0 then "" else Dec(TenthOf(n)) + [Digit(LastOf(n))]
  }

  function Zeros(k: nat): string { seq(k, i => '0') }

  // What a string of digits stands for.
  function Value(s: string): int {
    if |s| == 0 then 0 else Value(s[..|s| - 1]) * 10 + (s[|s| - 1] as int - '0' as int)
  }

  predicate AllDigits(s: string) {
    forall i :: 0 <= i < |s| ==> IsDigit(s[i])
  }

  // The digits of n are a numeral for n without leading zeros, if n is not negative; else
  // they start with a character that is no digit, and there is no sign.
  lemma {:induction false} DecMeaning(n: int)
    ensures Value(Dec(n)) == n
    ensures n >= 0 ==> AllDigits(Dec(n))
    ensures n > 0 ==> |Dec(n)| > 0 && Dec(n)[0] != '0'
    ensures n < 0 ==> |Dec(n)| > 0 && ' ' < Dec(n)[0] < '0'
    decreases Abs(n)
  {
    if n != 0 {
      DecMeaning(TenthOf(n));
      assert Dec(n)[..|Dec(n)| - 1] == Dec(TenthOf(n));
    }
  }

  // ... and the only one.
  lemma {:induction false} DecUnique(s: string)
    requires AllDigits(s) && (|s| > 0 ==> s[0] != '0')
    ensures Value(s) >= 0 && (|s| > 0 ==> Value(s) > 0) && Dec(Value(s)) == s
  {
    if |s| > 0 {
      var k := |s| - 1;
      var rest := s[..k];
      assert s == rest + [s[k]] && (k > 0 ==> rest[0] == s[0]);
      DecUnique(rest);
      ValueNext(rest, s[k]);
      DecAppend(Value(rest), rest, s[k]);
    }
  }

  lemma DecAppend(v: nat, rest: string, c: char)
    requires Dec(v) == rest && IsDigit(c) && (v > 0 || c != '0')
    ensures var x := v * 10 + (c as int - '0' as int); x > 0 && Dec(x) == rest + [c]
  {
    DigitBack(c);
    DecNext(v, c as int - '0' as int, v * 10 + (c as int - '0' as int));
  }

  lemma DigitBack(c: char)
    requires IsDigit(c)
    ensures 0 <= c as int - '0' as int < 10 && Digit(c as int - '0' as int) == c
    ensures c != '0' ==> c as int - '0' as int > 0
  {
  }

  lemma DecNext(v: nat, d: nat, x: int)
    requires d < 10 && x == v * 10 + d && x > 0
    ensures Dec(x) == Dec(v) + [Digit(d)]
  {
    assert TenthOf(x) == v && LastOf(x) == d;
  }

  lemma {:induction false} ValueZeros(k: nat, s: string)
    ensures Value(Zeros(k) + s) == Value(s)
    decreases |s| + k
  {
    if |s| > 0 {
      assert (Zeros(k) + s)[..k + |s| - 1] == Zeros(k) + s[..|s| - 1];
      ValueZeros(k, s[..|s| - 1]);
    } else if k > 0 {
      assert Zeros(k) + s == Zeros(k);
      assert Zeros(k)[..k - 1] == Zeros(k - 1) + "";
      ValueZeros(k - 1, "");
    } else {
      assert Zeros(0) + s == s;
    }
  }

  // A number below 10^k has at most k digits.
  lemma {:induction false} DecLength(n: int, k: nat)
    requires Abs(n) < Pow10(k)
    ensures |Dec(n)| <= k
    decreases k
  {
    if n != 0 {
      DecLength(TenthOf(n), k - 1);
    }
  }

  function Pow10(k: nat): nat { if k == 0 then 1 else 10 * Pow10(k - 1) }

  // A positive number has exactly the digits its powers of ten ask for.
  lemma {:induction false} DigitCount(n: int)
    requires n > 0
    ensures |Dec(n)| > 0 && Pow10(|Dec(n)| - 1) <= n < Pow10(|Dec(n)|)
  {
    if n >= 10 {
      DigitCount(n / 10);
      assert |Dec(n)| == |Dec(n / 10)| + 1;
    } else {
      assert Dec(n / 10) == "" && |Dec(n)| == 1;
      var one := |Dec(n)|;
      assert Pow10(one) == 10 * Pow10(one - 1);
    }
  }

  // ---- printing ---------------------------------------------------------------------------------

  // %d and %0Nd.
  function Plain(n: int): string { if n == 0 then "0" else Dec(n) }

  function Padded(n: int, width: nat): string {
    Zeros(if |Dec(n)| < width then width - |Dec(n)| else 0) + Dec(n)
  }

  const INT_MAX: int := 0x7fff_ffff

  predicate IsInt(n: int) { -INT_MAX - 1 <= n <= INT_MAX }

  function Reversed(s: string): string {
    if |s| == 0 then "" else [s[|s| - 1]] + Reversed(s[..|s| - 1])
  }

  // The digits of n into buf, least significant first; i is how many.
  method FillDigits(n: int, buf: array<char>) returns (i: nat)
    requires IsInt(n) && buf.Length == 256
    modifies buf
    ensures i == |Dec(n)| <= 10 && Reversed(buf[..i]) == Dec(n)
  {
    IntDigits(n);
    var temp := n;
    i := 0;
    while temp != 0
      invariant i + |Dec(temp)| == |Dec(n)| <= 10
      invariant Dec(n) == Dec(temp) + Reversed(buf[..i])
      decreases Abs(temp)
    {
      ghost var before := buf[..i];
      buf[i] := Digit(LastOf(temp));
      assert buf[..i + 1][..i] == before;
      assert Dec(temp) == Dec(TenthOf(temp)) + [Digit(LastOf(temp))];
      temp := TenthOf(temp);
      i := i + 1;
    }
  }

  lemma IntDigits(n: int)
    requires IsInt(n)
    ensures |Dec(n)| <= 10
  {
    var k := 10;
    TenToTen(k);
    DecLength(n, k);
  }

  lemma TenToTen(k: nat)
    requires k == 10
    ensures Pow10(k) > INT_MAX + 1
  {
    assert Pow10(k) == 100 * Pow10(k - 2) == 10000 * Pow10(k - 4) == 1000000 * Pow10(k - 6);
    assert Pow10(k - 6) == 100 * Pow10(k - 8) == 10000 * Pow10(k - 10);
  }

  // The digits in buf, turned round, to the output from str on.
  method EmitDigits(buf: array<char>, count: nat, out: array<char>, str0: nat) returns (str: nat)
    requires count <= buf.Length && str0 + count <= out.Length && buf != out
    modifies out
    ensures str == str0 + count && out[..str] == old(out[..str0]) + Reversed(buf[..count])
  {
    str := str0;
    var i := count - 1;
    while i >= 0
      invariant -1 <= i < count && str == str0 + (count - 1 - i)
      invariant out[..str] + Reversed(buf[..i + 1]) == old(out[..str0]) + Reversed(buf[..count])
    {
      ghost var before := out[..str];
      assert buf[..i + 1][..i] == buf[..i];
      out[str] := buf[i];
      str := str + 1;
      assert out[..str] == before + [buf[i]];
      i := i - 1;
    }
    assert buf[..0] == "";
  }

  method Pad(len0: int, out: array<char>, str0: nat) returns (str: nat)
    requires len0 >= 0 && str0 + len0 <= out.Length
    modifies out
    ensures str == str0 + len0 && out[..str] == old(out[..str0]) + Zeros(len0)
  {
    var len := len0;
    str := str0;
    while len > 0
      invariant 0 <= len <= len0 && str == str0 + (len0 - len)
      invariant out[..str] == old(out[..str0]) + Zeros(len0 - len)
    {
      ghost var before := out[..str];
      out[str] := '0';
      str := str + 1;
      assert out[..str] == before + ['0'];
      len := len - 1;
    }
  }

  method PrintD(n: int, buf: array<char>, out: array<char>, str0: nat) returns (str: nat)
    requires IsInt(n) && buf.Length == 256 && buf != out && str0 + 10 <= out.Length
    modifies buf, out
    ensures str0 < str <= out.Length && out[..str] == old(out[..str0]) + Plain(n)
  {
    DecMeaning(n);
    if n == 0 {
      ghost var before := out[..str0];
      out[str0] := '0';
      str := str0 + 1;
      assert out[..str] == before + "0";
    } else {
      var i := FillDigits(n, buf);
      str := EmitDigits(buf, i, out, str0);
    }
  }

  method Print0D(n: int, width: nat, buf: array<char>, out: array<char>, str0: nat) returns (str: nat)
    requires IsInt(n) && width <= 9 && buf.Length == 256 && buf != out && str0 + 10 <= out.Length
    modifies buf, out
    ensures str0 <= str <= out.Length && out[..str] == old(out[..str0]) + Padded(n, width)
  {
    var i := FillDigits(n, buf);
    ghost var start, pad := out[..str0], if width - i > 0 then width - i else 0;
    var len := width - i;
    str := str0;
    if len > 0 {
      str := Pad(len, out, str0);
    }
    assert out[..str] == start + Zeros(pad);
    str := EmitDigits(buf, i, out, str);
    assert start + Zeros(pad) + Dec(n) == start + (Zeros(pad) + Dec(n));
  }

  // ---- reading ------------------------------------------------------------------------------------

  function SkipSpaces(s: string): string {
    if |s| > 0 && s[0] == ' ' then SkipSpaces(s[1..]) else s
  }

  function LeadingDigits(s: string): string {
    if |s| > 0 && IsDigit(s[0]) then [s[0]] + LeadingDigits(s[1..]) else ""
  }

  lemma SkipNext(s: string, p: nat)
    requires p < |s|
    ensures s[p] == ' ' ==> SkipSpaces(s[p..]) == SkipSpaces(s[p + 1..])
    ensures s[p] != ' ' ==> SkipSpaces(s[p..]) == s[p..]
  {
    assert s[p..][1..] == s[p + 1..];
  }

  lemma DigitsNext(s: string, p: nat)
    requires p < |s|
    ensures LeadingDigits(s[p..]) == if IsDigit(s[p]) then [s[p]] + LeadingDigits(s[p + 1..]) else ""
  {
    assert s[p..][1..] == s[p + 1..];
  }

  lemma ValueNext(s: string, c: char)
    ensures Value(s + [c]) == Value(s) * 10 + (c as int - '0' as int)
  {
    assert (s + [c])[..|s|] == s;
  }

  lemma ReadNext(s: string, p: nat, read: string, whole: string)
    requires p < |s| && IsDigit(s[p]) && whole == read + LeadingDigits(s[p..])
    ensures whole == read + [s[p]] + LeadingDigits(s[p + 1..])
    ensures Value(read + [s[p]]) == Value(read) * 10 + (s[p] as int - '0' as int)
  {
    DigitsNext(s, p);
    ValueNext(read, s[p]);
  }

  // The number a string starts with, after spaces; 0 if it starts with none.
  method Atoi(s: string) returns (x: int)
    ensures x == Value(LeadingDigits(SkipSpaces(s)))
  {
    var p := SkipBlanks(s);
    x := ReadDigits(s, p);
  }

  method SkipBlanks(s: string) returns (p: nat)
    ensures p <= |s| && s[p..] == SkipSpaces(s)
  {
    p := 0;
    assert s[0..] == s;
    while p < |s| && s[p] == ' '
      invariant p <= |s| && SkipSpaces(s[p..]) == SkipSpaces(s)
    {
      SkipNext(s, p);
      p := p + 1;
    }
    if p < |s| { SkipNext(s, p); }
  }

  method ReadDigits(s: string, start: nat) returns (x: int)
    requires start <= |s|
    ensures x == Value(LeadingDigits(s[start..]))
  {
    x := 0;
    var p := start;
    ghost var whole, read := LeadingDigits(s[p..]), "";
    while p < |s| && '0' <= s[p] <= '9'
      invariant p <= |s| && whole == read + LeadingDigits(s[p..])
      invariant x == Value(read)
    {
      ReadNext(s, p, read, whole);
      read := read + [s[p]];
      x := x * 10 + s[p] as int - '0' as int;
      p := p + 1;
    }
    if p < |s| { DigitsNext(s, p); }
    assert LeadingDigits(s[p..]) == "" && whole == read;
  }

  lemma {:induction false} LeadingAll(s: string)
    requires AllDigits(s)
    ensures LeadingDigits(s) == s && SkipSpaces(s) == s
  {
    if |s| > 0 {
      LeadingAll(s[1..]);
      assert s == [s[0]] + s[1..];
    }
  }

  lemma {:induction false} LeadingZeros(k: nat, s: string)
    requires |s| > 0 ==> !IsDigit(s[0]) && s[0] != ' '
    ensures LeadingDigits(Zeros(k) + s) == Zeros(k) && SkipSpaces(Zeros(k) + s) == Zeros(k) + s
  {
    if k == 0 {
      assert Zeros(0) + s == s;
    } else {
      assert (Zeros(k) + s)[1..] == Zeros(k - 1) + s;
      LeadingZeros(k - 1, s);
      assert Zeros(k) == ['0'] + Zeros(k - 1);
    }
  }

  // Digits behind zeros are read; behind the zeros of a negative number there are none.
  lemma ReadsPadded(n: int, k: nat)
    requires k > 0 || n != 0
    ensures Value(LeadingDigits(SkipSpaces(Zeros(k) + Dec(n)))) == if n >= 0 then n else 0
  {
    DecMeaning(n);
    if n >= 0 {
      LeadingAll(Zeros(k) + Dec(n));
      ValueZeros(k, Dec(n));
    } else {
      LeadingZeros(k, Dec(n));
      ValueZeros(k, "");
      assert Zeros(k) + "" == Zeros(k);
    }
  }

  function Spaces(k: nat): string { seq(k, i => ' ') }

  // Spaces in front and anything that is no digit behind do not change what is read.
  lemma {:induction false} ReadsBetween(k: nat, s: string, rest: string)
    requires AllDigits(s) && (|rest| > 0 ==> !IsDigit(rest[0]))
    requires |s| > 0 || |rest| == 0 || rest[0] != ' '
    ensures Value(LeadingDigits(SkipSpaces(Spaces(k) + s + rest))) == Value(s)
  {
    if k > 0 {
      assert (Spaces(k) + s + rest)[1..] == Spaces(k - 1) + s + rest;
      ReadsBetween(k - 1, s, rest);
    } else {
      assert Spaces(0) + s + rest == s + rest;
      LeadingBefore(s, rest);
      assert SkipSpaces(s + rest) == s + rest;
    }
  }

  lemma {:induction false} LeadingBefore(s: string, rest: string)
    requires AllDigits(s) && (|rest| > 0 ==> !IsDigit(rest[0]))
    ensures LeadingDigits(s + rest) == s
  {
    if |s| > 0 {
      assert (s + rest)[1..] == s[1..] + rest;
      LeadingBefore(s[1..], rest);
      assert s == [s[0]] + s[1..];
    } else {
      assert s + rest == rest;
    }
  }

  /** What is printed reads back exactly if it is not negative, whatever the padding. */
  lemma RoundTrip(n: int, width: nat)
    ensures Value(LeadingDigits(SkipSpaces(Plain(n)))) == n <==> n >= 0
    ensures Value(LeadingDigits(SkipSpaces(Padded(n, width)))) == n <==> n >= 0
    ensures |Padded(n, width)| == if |Dec(n)| < width then width else |Dec(n)|
    ensures n >= 0 ==> AllDigits(Plain(n)) && AllDigits(Padded(n, width)) && |Plain(n)| > 0
  {
    DecMeaning(n);
    var k, k0 := if |Dec(n)| < width then width - |Dec(n)| else 0, if n == 0 then 1 else 0;
    assert Plain(n) == Zeros(k0) + Dec(n);
    ReadsPadded(n, k0);
    if k > 0 || n != 0 {
      ReadsPadded(n, k);
    }
  }
}
