/** Exact rationals kept in lowest terms: the model of Go's math/big.Rat, which
    Money and Discount use for every amount and percentage. */
module Rational {

  function Abs(x: int): nat { if x < 0 then -x else x }

  /** Euclid's algorithm on natural numbers. */
  function Gcd(a: nat, b: nat): nat
    decreases b
  {
    if b == 0 then a else Gcd(b, a % b)
  }

  datatype Pair = Pair(num: int, den: int)

  /** Lowest terms with a positive denominator, the form big.Rat always keeps. */
  predicate IsNormal(p: Pair) { p.den > 0 && Gcd(Abs(p.num), p.den) == 1 }

  type Rat = p: Pair | IsNormal(p) witness Pair(0, 1)

  /** The exact value a rational stands for. */
  function Value(r: Rat): real { r.num as real / r.den as real }

  // ---------------------------------------------------------------------------
  // Divisibility facts behind normalisation

  lemma MulNonNegative(a: int, b: int)
    requires a >= 0 && b >= 0
    ensures a * b >= 0
  {
  }

  lemma MulAtLeast(k: int, t: int)
    requires k > 0 && t >= 1
    ensures k * t >= k
  {
    MulNonNegative(k, t - 1);
    assert k * t == k * (t - 1) + k;
  }

  /** Euclidean division has exactly one quotient and remainder. */
  lemma DivModUnique(a: int, k: int, q: int, r: int)
    requires k > 0 && 0 <= r < k && a == k * q + r
    ensures a / k == q && a % k == r
  {
    var q0, r0 := a / k, a % k;
    assert a == k * q0 + r0;
    assert k * (q - q0) == r0 - r;
    if q - q0 >= 1 {
      MulAtLeast(k, q - q0);
    } else if q - q0 <= -1 {
      MulAtLeast(k, q0 - q);
    }
  }

  lemma MulIsDivisible(k: int, m: int)
    requires k > 0
    ensures (k * m) % k == 0 && (k * m) / k == m
  {
    DivModUnique(k * m, k, m, 0);
  }

  lemma DivisibleIsMul(k: int, a: int)
    requires k > 0 && a % k == 0
    ensures a == k * (a / k)
  {
  }

  lemma DivisibleCombination(k: int, x: int, y: int, q: int)
    requires k > 0 && x % k == 0 && y % k == 0
    ensures (q * x + y) % k == 0
  {
    DivisibleIsMul(k, x);
    DivisibleIsMul(k, y);
    var m := q * (x / k) + y / k;
    calc {
      q * x + y;
      q * (k * (x / k)) + k * (y / k);
      k * m;
    }
    MulIsDivisible(k, m);
  }

  lemma DivisorIsSmaller(k: int, x: int)
    requires k > 0 && x > 0 && x % k == 0
    ensures k <= x
  {
    DivisibleIsMul(k, x);
    var q := x / k;
    if q <= 0 {
      MulNonNegative(k, -q);
    } else {
      MulAtLeast(k, q);
    }
  }

  lemma {:induction false} GcdDividesBoth(a: nat, b: nat)
    requires a > 0 || b > 0
    ensures Gcd(a, b) > 0 && a % Gcd(a, b) == 0 && b % Gcd(a, b) == 0
    decreases b
  {
    if b == 0 {
      MulIsDivisible(a, 0);
    } else {
      GcdDividesBoth(b, a % b);
      var g := Gcd(b, a % b);
      assert a == (a / b) * b + a % b;
      DivisibleCombination(g, b, a % b, a / b);
    }
  }

  lemma {:induction false} CommonDivisorDividesGcd(a: nat, b: nat, k: int)
    requires k > 0 && a % k == 0 && b % k == 0
    ensures Gcd(a, b) % k == 0
    decreases b
  {
    if b != 0 {
      assert a % b == -(a / b) * b + a;
      DivisibleCombination(k, b, a, -(a / b));
      CommonDivisorDividesGcd(b, a % b, k);
    }
  }

  lemma PositiveQuotient(k: int, x: int)
    requires k > 0 && x > 0 && x % k == 0
    ensures x / k > 0
  {
    DivisibleIsMul(k, x);
    var q := x / k;
    if q <= 0 {
      MulNonNegative(k, -q);
    }
  }

  lemma MulGrows(g: int, h: int)
    requires g > 0 && h > 1
    ensures h * g > g
  {
    MulNonNegative(g, h - 2);
    assert h * g == g * (h - 2) + 2 * g;
  }

  /** If g divides x and h divides x / g, then h * g divides x. */
  lemma ScaledDivisor(h: int, g: int, x: int)
    requires h > 0 && g > 0 && x % g == 0 && (x / g) % h == 0
    ensures h * g > 0 && x % (h * g) == 0
  {
    var y := x / g;
    DivisibleIsMul(g, x);
    DivisibleIsMul(h, y);
    var z := y / h;
    MulAtLeast(g, h);
    assert x == (h * g) * z by {
      calc {
        x;
        g * y;
        g * (h * z);
        (h * g) * z;
      }
    }
    MulIsDivisible(h * g, z);
  }

  /** Dividing both numbers by their gcd leaves nothing in common. */
  lemma ReducedIsCoprime(a: nat, b: nat)
    requires b > 0
    ensures Gcd(a, b) > 0
    ensures a % Gcd(a, b) == 0 && b % Gcd(a, b) == 0
    ensures Gcd(a / Gcd(a, b), b / Gcd(a, b)) == 1
  {
    GcdDividesBoth(a, b);
    var g := Gcd(a, b);
    PositiveQuotient(g, b);
    var a', b' := a / g, b / g;
    GcdDividesBoth(a', b');
    var h := Gcd(a', b');
    ScaledDivisor(h, g, a);
    ScaledDivisor(h, g, b);
    CommonDivisorDividesGcd(a, b, h * g);
    DivisorIsSmaller(h * g, g);
    if h > 1 {
      MulGrows(g, h);
    }
  }

  // ---------------------------------------------------------------------------
  // Real-number identities behind the arithmetic

  lemma CancelCommonFactor(x: real, y: real, g: real)
    requires y != 0.0 && g != 0.0
    ensures (x * g) / (y * g) == x / y
  {
  }

  lemma FractionDifference(a: real, b: real, c: real, d: real)
    requires b != 0.0 && d != 0.0
    ensures (a * d - c * b) / (b * d) == a / b - c / d
  {
  }

  lemma FractionProduct(a: real, b: real, c: real, d: real)
    requires b != 0.0 && d != 0.0
    ensures (a * c) / (b * d) == (a / b) * (c / d)
  {
  }

  lemma FractionQuotient(a: real, b: real, c: real, d: real)
    requires b != 0.0 && c != 0.0 && d != 0.0
    ensures (a * d) / (b * c) == (a / b) / (c / d)
  {
  }

  // ---------------------------------------------------------------------------
  // Construction and arithmetic

  lemma CastMul(x: int, y: int)
    ensures (x * y) as real == x as real * y as real
  {
  }

  lemma ReducedValue(a: nat, b: nat, g: nat)
    requires g > 0 && b > 0 && a % g == 0 && b % g == 0
    ensures b / g != 0
    ensures (a / g) as real / (b / g) as real == a as real / b as real
  {
    PositiveQuotient(g, b);
    DivisibleIsMul(g, a);
    DivisibleIsMul(g, b);
    CastMul(g, a / g);
    CastMul(g, b / g);
    CancelCommonFactor((a / g) as real, (b / g) as real, g as real);
  }

  lemma SignedQuotient(n: int, d: int)
    requires d != 0
    ensures (n < 0) != (d < 0) ==> n as real / d as real == -(Abs(n) as real / Abs(d) as real)
    ensures (n < 0) == (d < 0) ==> n as real / d as real == Abs(n) as real / Abs(d) as real
  {
  }

  /** The sign n/d carries: -1 when exactly one of the two is negative. */
  function SignOf(n: int, d: int): int
  {
    if (n < 0) != (d < 0) then -1 else 1
  }

  /** Dividing both magnitudes by their gcd and restoring the sign gives a
      pair in lowest terms with the value n/d. */
  lemma Normalised(n: int, d: int)
    requires d != 0
    ensures
      var a, b := Abs(n), Abs(d);
      var g := Gcd(a, b);
      && g > 0 && b / g > 0
      && IsNormal(Pair(SignOf(n, d) * (a / g), b / g))
      && (SignOf(n, d) * (a / g)) as real / (b / g) as real == n as real / d as real
  {
    var a, b := Abs(n), Abs(d);
    ReducedIsCoprime(a, b);
    hide Gcd;
    var g := Gcd(a, b);
    ReducedValue(a, b, g);
    SignedQuotient(n, d);
    var s := SignOf(n, d);
    assert Abs(s * (a / g)) == a / g;
  }

  /** big.NewRat(n, d): the lowest-terms form of n/d. */
  function Make(n: int, d: int): (r: Rat)
    requires d != 0
    ensures Value(r) == n as real / d as real
  {
    var a, b := Abs(n), Abs(d);
    Normalised(n, d);
    Pair(SignOf(n, d) * (a / Gcd(a, b)), b / Gcd(a, b))
  }

  function FromInt(n: int): (r: Rat)
    ensures Value(r) == n as real
  {
    assert Gcd(Abs(n), 1) == 1 by {
      assert Abs(n) % 1 == 0;
      assert Gcd(1, 0) == 1;
    }
    Pair(n, 1)
  }

  lemma ProductNonZero(x: int, y: int)
    requires x > 0 && y != 0
    ensures x * y != 0
  {
    if y > 0 {
      MulAtLeast(x, y);
    } else {
      MulAtLeast(x, -y);
    }
  }

  lemma DifferenceValue(x: Rat, y: Rat)
    ensures x.den * y.den != 0
    ensures (x.num * y.den - y.num * x.den) as real / (x.den * y.den) as real == Value(x) - Value(y)
  {
    hide Gcd;
    ProductNonZero(x.den, y.den);
    var a, b, c, d := x.num as real, x.den as real, y.num as real, y.den as real;
    CastMul(x.num, y.den);
    CastMul(y.num, x.den);
    CastMul(x.den, y.den);
    assert (x.num * y.den - y.num * x.den) as real == a * d - c * b;
    assert (x.den * y.den) as real == b * d;
    FractionDifference(a, b, c, d);
  }

  lemma ProductValue(x: Rat, y: Rat)
    ensures x.den * y.den != 0
    ensures (x.num * y.num) as real / (x.den * y.den) as real == Value(x) * Value(y)
  {
    hide Gcd;
    ProductNonZero(x.den, y.den);
    CastMul(x.num, y.num);
    CastMul(x.den, y.den);
    FractionProduct(x.num as real, x.den as real, y.num as real, y.den as real);
  }

  lemma QuotientValue(x: Rat, y: Rat)
    requires y.num != 0
    ensures x.den * y.num != 0
    ensures (x.num * y.den) as real / (x.den * y.num) as real == Value(x) / Value(y)
  {
    hide Gcd;
    ProductNonZero(x.den, y.num);
    CastMul(x.num, y.den);
    CastMul(x.den, y.num);
    FractionQuotient(x.num as real, x.den as real, y.num as real, y.den as real);
  }

  /** new(big.Rat).Sub(x, y). */
  function Sub(x: Rat, y: Rat): (r: Rat)
    ensures Value(r) == Value(x) - Value(y)
  {
    DifferenceValue(x, y);
    Make(x.num * y.den - y.num * x.den, x.den * y.den)
  }

  /** new(big.Rat).Mul(x, y). */
  function Mul(x: Rat, y: Rat): (r: Rat)
    ensures Value(r) == Value(x) * Value(y)
  {
    ProductValue(x, y);
    Make(x.num * y.num, x.den * y.den)
  }

  /** new(big.Rat).Quo(x, y); y must not be zero. */
  function Quo(x: Rat, y: Rat): (r: Rat)
    requires y.num != 0
    ensures Value(r) == Value(x) / Value(y)
  {
    QuotientValue(x, y);
    Make(x.num * y.den, x.den * y.num)
  }

  /** r.Sign(): -1, 0 or +1 according to the sign of the value. */
  function Sign(r: Rat): (s: int)
    ensures s == -1 <==> Value(r) < 0.0
    ensures s == 0 <==> Value(r) == 0.0
    ensures s == 1 <==> Value(r) > 0.0
  {
    if r.num < 0 then -1 else if r.num == 0 then 0 else 1
  }

  /** x.Cmp(y): -1, 0 or +1 according to the order of the values. */
  function Cmp(x: Rat, y: Rat): (c: int)
    ensures c == -1 <==> Value(x) < Value(y)
    ensures c == 0 <==> Value(x) == Value(y)
    ensures c == 1 <==> Value(x) > Value(y)
  {
    Sign(Sub(x, y))
  }

  // ---------------------------------------------------------------------------
  // Lowest terms are unique

  /** Scaling both arguments scales their gcd. */
  lemma {:induction false} GcdScaled(a: nat, b: nat, k: nat)
    requires k > 0
    ensures Gcd(a * k, b * k) == Gcd(a, b) * k
    decreases b
  {
    if b != 0 {
      MulAtLeast(k, b);
      var q, r := a / b, a % b;
      MulNonNegative(r, k);
      assert a * k == (b * k) * q + r * k;
      assert r * k < b * k by {
        MulNonNegative(b - r - 1, k);
        assert b * k - r * k == (b - r - 1) * k + k;
      }
      DivModUnique(a * k, b * k, q, r * k);
      GcdScaled(b, r, k);
    }
  }

  /** Euclid's lemma: b divides a * d and shares no factor with a, so b divides d. */
  lemma CoprimeDivides(a: nat, b: nat, d: nat)
    requires b > 0 && d > 0 && Gcd(a, b) == 1 && (a * d) % b == 0
    ensures d % b == 0
  {
    var ad, bd := a * d, b * d;
    GcdScaled(a, b, d);
    assert Gcd(ad, bd) == d;
    MulIsDivisible(b, d);
    assert bd % b == 0;
    CommonDivisorDividesGcd(ad, bd, b);
  }

  lemma CrossMultiply(x: Rat, y: Rat)
    requires Value(x) == Value(y)
    ensures x.num * y.den == y.num * x.den
  {
    var a, b, c, d := x.num as real, x.den as real, y.num as real, y.den as real;
    assert a / b == c / d;
    assert a * d == (a / b) * (b * d);
    assert c * b == (c / d) * (b * d);
    CastMul(x.num, y.den);
    CastMul(y.num, x.den);
  }

  lemma MutualDivisors(b: int, d: int)
    requires b > 0 && d > 0 && d % b == 0 && b % d == 0
    ensures b == d
  {
    DivisorIsSmaller(b, d);
    DivisorIsSmaller(d, b);
  }

  /** Two rationals in lowest terms with the same value are the same pair, so a
      rational is determined by its value. */
  lemma {:induction false} ValueDetermines(x: Rat, y: Rat)
    requires Value(x) == Value(y)
    ensures x == y
  {
    CrossMultiply(x, y);
    var a, b, c, d := Abs(x.num), x.den, Abs(y.num), y.den;
    assert a * d == c * b by {
      if x.num < 0 {
        assert y.num < 0 by {
          if y.num >= 0 { MulNonNegative(y.num, x.den); ProductNonZero(d, -x.num); }
        }
      } else {
        assert y.num >= 0 by {
          if y.num < 0 { MulNonNegative(x.num, y.den); ProductNonZero(b, -y.num); }
        }
      }
    }
    MulIsDivisible(b, c);
    assert (a * d) % b == 0 by { assert a * d == b * c; }
    CoprimeDivides(a, b, d);
    MulIsDivisible(d, a);
    assert (c * b) % d == 0 by { assert c * b == d * a; }
    CoprimeDivides(c, d, b);
    MutualDivisors(b, d);
    MulIsDivisible(b, a);
    MulIsDivisible(b, c);
    assert b * a == b * c;
    if x.num < 0 {
      if y.num >= 0 { MulNonNegative(y.num, x.den); ProductNonZero(d, -x.num); }
    } else if y.num < 0 {
      MulNonNegative(x.num, y.den); ProductNonZero(b, -y.num);
    }
  }
}
