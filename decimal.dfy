/** Decimal text for integers and rationals: the parts of Go's strconv
    (ParseInt with base 10 and bit size 64, and "%d" formatting) and of
    big.Rat.FloatString that the catalog relies on. */
module Decimal {
  import opened Wrappers
  import opened Rational

  predicate IsDigit(c: char) { '0' <= c <= '9' }

  predicate AllDigits(s: string) { forall i :: 0 <= i < |s| ==> IsDigit(s[i]) }

  function DigitChar(d: nat): (c: char)
    requires d < 10
    ensures IsDigit(c)
  {
    (d + '0' as int) as char
  }

  function DigitOf(c: char): (d: nat)
    requires IsDigit(c)
    ensures d < 10
  {
    c as int - '0' as int
  }

  /** The digits of n, most significant first, without leading zeros ("0" for zero). */
  function NatToString(n: nat): (s: string)
    ensures |s| >= 1 && AllDigits(s)
    decreases n
  {
    if n < 10 then [DigitChar(n)] else NatToString(n / 10) + [DigitChar(n % 10)]
  }

  /** A number below one hundred is printed as its tens digit (if any) and its
      units digit. */
  lemma SmallNatToString(n: nat)
    requires n < 100
    ensures n < 10 ==> NatToString(n) == [('0' as int + n) as char]
    ensures n >= 10 ==> NatToString(n) == [('0' as int + n / 10) as char, ('0' as int + n % 10) as char]
  {
    if n >= 10 {
      assert NatToString(n) == NatToString(n / 10) + [DigitChar(n % 10)];
    }
  }

  /** The number a string of digits denotes. */
  function DigitsValue(s: string): nat
    requires AllDigits(s)
  {
    if s == [] then 0 else DigitsValue(s[..|s| - 1]) * 10 + DigitOf(s[|s| - 1])
  }

  lemma {:induction false} NatToStringValue(n: nat)
    ensures DigitsValue(NatToString(n)) == n
    decreases n
  {
    if n >= 10 {
      NatToStringValue(n / 10);
      var s := NatToString(n);
      assert s[..|s| - 1] == NatToString(n / 10);
    }
  }

  /** Distinct numbers are printed differently. */
  lemma NatToStringInjective(a: nat, b: nat)
    requires NatToString(a) == NatToString(b)
    ensures a == b
  {
    NatToStringValue(a);
    NatToStringValue(b);
  }

  /** fmt.Sprintf("%d", i). */
  function IntToString(i: int): string
  {
    if i < 0 then "-" + NatToString(-i) else NatToString(i)
  }

  const MinInt64: int := -0x8000_0000_0000_0000
  const MaxInt64: int := 0x7fff_ffff_ffff_ffff

  predicate IsInt64(i: int) { MinInt64 <= i <= MaxInt64 }

  const TwoTo64: int := 0x1_0000_0000_0000_0000

  /** Two's-complement wrap-around of an int64 sum: the one int64 that
      differs from the exact sum by a multiple of 2^64. */
  function WrapInt64(i: int): (w: int)
    ensures IsInt64(w)
    ensures (w - i) % TwoTo64 == 0
    ensures IsInt64(i) ==> w == i
  {
    (i - MinInt64) % TwoTo64 + MinInt64
  }

  /** Just past the int64 range, a sum wraps once, to a negative value. */
  lemma WrapPastMax(i: int)
    requires MaxInt64 < i <= 2 * MaxInt64
    ensures WrapInt64(i) == i - TwoTo64 < 0
  {
    var k := i - MinInt64;
    DivModUnique(k, TwoTo64, 1, k - TwoTo64);
  }

  /** strconv.ParseInt(s, 10, 64): one optional sign, then one or more decimal
      digits; a syntax error or a value outside int64 gives None. */
  function ParseInt64(s: string): Option<int>
  {
    var signed := |s| > 0 && (s[0] == '+' || s[0] == '-');
    var body := if signed then s[1..] else s;
    if body == [] || !AllDigits(body) then None
    else
      var v: int := if signed && s[0] == '-' then -(DigitsValue(body) as int) else DigitsValue(body);
      if IsInt64(v) then Some(v) else None
  }

  /** Every int64 survives printing and parsing back. */
  lemma ParseIntToString(i: int)
    requires IsInt64(i)
    ensures ParseInt64(IntToString(i)) == Some(i)
  {
    var s := IntToString(i);
    if i < 0 {
      NatToStringValue(-i);
      assert s[1..] == NatToString(-i);
    } else {
      NatToStringValue(i);
      assert IsDigit(s[0]);
    }
  }

  /** Strings with no digit at all never parse. */
  lemma ParseNeedsDigits(s: string)
    requires forall i :: 0 <= i < |s| ==> !IsDigit(s[i])
    ensures ParseInt64(s) == None
  {
    if |s| > 0 && (s[0] == '+' || s[0] == '-') && |s| > 1 {
      assert !IsDigit(s[1..][0]);
    } else if |s| > 0 {
      assert !IsDigit(s[0]);
    }
  }

  // ---------------------------------------------------------------------------
  // big.Rat.FloatString

  function Pow10(k: nat): (p: nat)
    ensures p >= 1
  {
    if k == 0 then 1 else 10 * Pow10(k - 1)
  }

  function Zeros(k: nat): (s: string)
    ensures |s| == k && AllDigits(s)
  {
    if k == 0 then "" else "0" + Zeros(k - 1)
  }

  /** Left-pads digits with zeros to at least prec characters. */
  function PadDigits(s: string, prec: nat): string
  {
    if |s| >= prec then s else Zeros(prec - |s|) + s
  }

  /** The integer part and the prec fractional digits (as a number below
      10^prec) that big.Rat.FloatString computes for n/d: the remainder is
      scaled, divided, and rounded up when the part left over is at least half
      of d, carrying into the integer part when the digits overflow. */
  function RoundedParts(n: nat, d: nat, p: nat): (nat, nat)
    requires d > 0 && p >= 1
  {
    var q, r := n / d, n % d;
    MulNonNegative(r, p);
    var scaled: nat := r * p;
    var r1, r2 := scaled / d, scaled % d;
    var rounded := if d <= 2 * r2 then r1 + 1 else r1;
    if rounded >= p then (q + 1, rounded - p) else (q, rounded)
  }

  /** x.FloatString(prec): the value rounded to prec fractional digits, a tie
      rounded away from zero, always printed with exactly prec digits after the
      point (none and no point when prec is 0). */
  function FloatString(x: Rat, prec: nat): string
  {
    if x.den == 1 then
      IntToString(x.num) + (if prec > 0 then "." + Zeros(prec) else "")
    else
      var parts := RoundedParts(Abs(x.num), x.den, Pow10(prec));
      (if x.num < 0 then "-" else "") + NatToString(parts.0)
      + (if prec > 0 then "." + PadDigits(NatToString(parts.1), prec) else "")
  }

  /** n/d rounded to the nearest integer, a half rounded up (n >= 0, d > 0). */
  function RoundHalfUp(n: nat, d: nat): nat
    requires d > 0
  {
    (2 * n + d) / (2 * d)
  }

  lemma RoundHalfUpBounds(n: nat, d: nat)
    requires d > 0
    ensures 2 * d * RoundHalfUp(n, d) <= 2 * n + d < 2 * d * (RoundHalfUp(n, d) + 1)
  {
    var c := RoundHalfUp(n, d);
    assert 2 * n + d == (2 * d) * c + (2 * n + d) % (2 * d);
  }

  /** A number below a power of ten and the digits beyond it: c is
      whole * p + frac with frac < p. */
  function Split(c: nat, p: nat): (parts: (nat, nat))
    requires p >= 1
    ensures c == parts.0 * p + parts.1 && parts.1 < p
  {
    (c / p, c % p)
  }

  lemma ScaledRemainderBelow(r: nat, p: nat, d: nat, r1: nat, r2: nat)
    requires d > 0 && p >= 1 && r < d && r2 < d && r * p == d * r1 + r2
    ensures r1 < p
  {
    if r1 >= p {
      assert d * (r1 - p) == d * r1 - d * p;
      assert p * (d - 1 - r) == d * p - p - r * p;
      MulNonNegative(d, r1 - p);
      MulNonNegative(p, d - 1 - r);
    }
  }

  lemma ScaledNumerator(n: nat, d: nat, p: nat, q: nat, r: nat, r1: nat, r2: nat)
    requires n == d * q + r && r * p == d * r1 + r2
    ensures p * n == d * (q * p + r1) + r2
  {
    calc {
      p * n;
      p * (d * q + r);
      d * (q * p) + r * p;
      d * (q * p) + d * r1 + r2;
      d * (q * p + r1) + r2;
    }
  }

  lemma RoundHalfUpOf(m: nat, d: nat, r2: nat)
    requires 0 <= r2 < d
    ensures RoundHalfUp(d * m + r2, d) == m + (if d <= 2 * r2 then 1 else 0)
  {
    var a := 2 * (d * m + r2) + d;
    if d <= 2 * r2 {
      assert a == (2 * d) * (m + 1) + (2 * r2 - d);
      DivModUnique(a, 2 * d, m + 1, 2 * r2 - d);
    } else {
      assert a == (2 * d) * m + (2 * r2 + d);
      DivModUnique(a, 2 * d, m, 2 * r2 + d);
    }
  }

  /** Go's digit computation is rounding half up of n/d scaled by p, split into
      the integer part and the digits below p. */
  lemma RoundedPartsAreRounding(n: nat, d: nat, p: nat)
    requires d > 0 && p >= 1
    ensures RoundedParts(n, d, p) == Split(RoundHalfUp(p * n, d), p)
  {
    var q, r := n / d, n % d;
    var r1, r2 := (r * p) / d, (r * p) % d;
    ScaledRemainderBelow(r, p, d, r1, r2);
    ScaledNumerator(n, d, p, q, r, r1, r2);
    RoundHalfUpOf(q * p + r1, d, r2);
    var c := RoundHalfUp(p * n, d);
    var rounded := if d <= 2 * r2 then r1 + 1 else r1;
    if rounded >= p {
      assert c == p * (q + 1) + (rounded - p);
      DivModUnique(c, p, q + 1, rounded - p);
    } else {
      assert c == p * q + rounded;
      DivModUnique(c, p, q, rounded);
    }
  }

  lemma FloatStringWhole(x: Rat, prec: nat)
    requires x.num >= 0 && x.den == 1 && prec > 0
    ensures
      var p := Pow10(prec);
      var parts := Split(RoundHalfUp(p * x.num, x.den), p);
      FloatString(x, prec) == NatToString(parts.0) + "." + PadDigits(NatToString(parts.1), prec)
  {
    hide Gcd;
    var p := Pow10(prec);
    var n: nat := x.num;
    var m: nat := p * n;
    RoundHalfUpOf(m, 1, 0);
    assert RoundHalfUp(p * x.num, x.den) == m;
    MulIsDivisible(p, n);
    assert Split(m, p) == (n, 0);
    assert NatToString(0) == "0";
    ZerosSnoc(prec);
    assert PadDigits("0", prec) == Zeros(prec);
    hide RoundHalfUp, Split, PadDigits, Pow10;
    assert FloatString(x, prec) == IntToString(n) + "." + Zeros(prec);
  }

  lemma FloatStringFraction(x: Rat, prec: nat)
    requires x.num >= 0 && x.den != 1 && prec > 0
    ensures
      var p := Pow10(prec);
      var parts := Split(RoundHalfUp(p * x.num, x.den), p);
      FloatString(x, prec) == NatToString(parts.0) + "." + PadDigits(NatToString(parts.1), prec)
  {
    hide Gcd, RoundHalfUp, Split;
    var p := Pow10(prec);
    var n: nat := x.num;
    assert Abs(x.num) == n;
    RoundedPartsAreRounding(n, x.den, p);
    var parts := RoundedParts(n, x.den, p);
    hide RoundedParts, PadDigits, NatToString, Pow10;
    assert FloatString(x, prec) == NatToString(parts.0) + "." + PadDigits(NatToString(parts.1), prec);
  }

  /** For a non-negative x, FloatString(x, prec) prints the integer part and
      then exactly prec fractional digits of x scaled by 10^prec and rounded to
      the nearest integer, a half rounded up. */
  lemma FloatStringRounds(x: Rat, prec: nat)
    requires x.num >= 0 && prec > 0
    ensures
      var p := Pow10(prec);
      var parts := Split(RoundHalfUp(p * x.num, x.den), p);
      FloatString(x, prec) == NatToString(parts.0) + "." + PadDigits(NatToString(parts.1), prec)
  {
    hide Gcd;
    if x.den == 1 {
      FloatStringWhole(x, prec);
    } else {
      FloatStringFraction(x, prec);
    }
  }

  lemma {:induction false} ZerosSnoc(k: nat)
    requires k > 0
    ensures Zeros(k) == Zeros(k - 1) + "0"
  {
    if k > 1 {
      ZerosSnoc(k - 1);
    }
  }
}
