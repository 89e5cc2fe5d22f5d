/** Money: a non-negative amount held as an exact rational in lowest terms.
    Every constructor and every operation refuses a negative result with
    ErrInvalidPrice. */
module MoneyDomain {
  import opened Wrappers
  import opened Rational
  import opened Decimal
  import opened DomainErrors

  /** The amounts a Money can hold: Go's Money keeps its rational private and
      every constructor refuses a negative one, so the invariant is a type. */
  type NonNegativeRat = r: Rat | r.num >= 0 witness Pair(0, 1)

  datatype Money = Money(amount: NonNegativeRat)

  const PriceError: Error := Domain(InvalidPrice)

  /** NewMoney(num, den): the rational num/den, refused when the denominator
      is zero or the value is negative. Two negative signs cancel. */
  function NewMoney(num: int, den: int): (r: Result<Money, Error>)
    ensures r.Success? <==> den != 0 && num as real / den as real >= 0.0
    ensures r.Success? ==> Value(r.value.amount) == num as real / den as real
    ensures r.Failure? ==> r.error == PriceError
  {
    if den == 0 then Failure(PriceError)
    else
      var amount := Make(num, den);
      if Sign(amount) < 0 then Failure(PriceError) else Success(Money(amount))
  }

  /** NewMoneyFromRat(r): a copy of r, refused when r is absent or negative. */
  function NewMoneyFromRat(x: Option<Rat>): (r: Result<Money, Error>)
    ensures r.Success? <==> x.Some? && Value(x.value) >= 0.0
    ensures r.Success? ==> r.value.amount == x.value
    ensures r.Failure? ==> r.error == PriceError
  {
    if x.None? || Sign(x.value) < 0 then Failure(PriceError) else Success(Money(x.value))
  }

  /** m.Numerator() and m.Denominator(): the lowest-terms pair of the amount,
      with a positive denominator, whose quotient is the amount. */
  function Numerator(m: Money): (n: int)
    ensures n >= 0
    ensures Gcd(Abs(n), Denominator(m)) == 1
    ensures n as real / Denominator(m) as real == Value(m.amount)
  {
    m.amount.num
  }

  function Denominator(m: Money): (d: int)
    ensures d > 0
  {
    m.amount.den
  }

  /** m.Sub(o): the exact difference, refused when it would be negative. */
  function Sub(m: Money, o: Money): (r: Result<Money, Error>)
    ensures r.Success? <==> Value(o.amount) <= Value(m.amount)
    ensures r.Success? ==> Value(r.value.amount) == Value(m.amount) - Value(o.amount)
    ensures r.Failure? ==> r.error == PriceError
  {
    var res := Rational.Sub(m.amount, o.amount);
    if Sign(res) < 0 then Failure(PriceError) else NewMoneyFromRat(Some(res))
  }

  /** m.Mul(x): the exact product, refused when it would be negative. */
  function Mul(m: Money, x: Rat): (r: Result<Money, Error>)
    ensures r.Success? <==> Value(m.amount) * Value(x) >= 0.0
    ensures r.Success? ==> Value(r.value.amount) == Value(m.amount) * Value(x)
    ensures r.Failure? ==> r.error == PriceError
  {
    var res := Rational.Mul(m.amount, x);
    if Sign(res) < 0 then Failure(PriceError) else NewMoneyFromRat(Some(res))
  }

  /** m.String(): the amount with exactly two decimals. */
  function String(m: Money): string
  {
    FloatString(m.amount, 2)
  }

  /** The two decimals are the amount in cents rounded to the nearest cent,
      a half cent rounded up: whole units, a point, then two digits. */
  lemma StringIsRoundedCents(m: Money)
    ensures
      var cents := RoundHalfUp(100 * m.amount.num, m.amount.den);
      String(m) == NatToString(cents / 100) + "." + PadDigits(NatToString(cents % 100), 2)
  {
    FloatStringRounds(m.amount, 2);
    var parts := Split(RoundHalfUp(100 * m.amount.num, m.amount.den), 100);
    assert Pow10(2) == 100;
  }

  /** A pair with two negative signs is accepted as the positive value. */
  lemma NegativePairAccepted()
    ensures NewMoney(-1, -2).Success?
    ensures NewMoney(-1, -2).value.amount == Pair(1, 2)
  {
    assert Gcd(1, 2) == 1 by {
      assert Gcd(2, 1) == 1 by { assert Gcd(1, 0) == 1; }
    }
  }

  /** 1999/100 prints as "19.99". */
  lemma NineteenNinetyNine()
    ensures NewMoney(1999, 100).Success?
    ensures String(NewMoney(1999, 100).value) == "19.99"
  {
    var m := NewMoney(1999, 100).value;
    assert Gcd(1999, 100) == 1 by {
      assert Gcd(1999, 100) == Gcd(100, 99) == Gcd(99, 1) == Gcd(1, 0);
    }
    assert Make(1999, 100) == Pair(1999, 100);
    assert m.amount == Pair(1999, 100);
    hide Gcd, Make, NewMoney, FloatString;
    StringIsRoundedCents(m);
    assert RoundHalfUp(100 * 1999, 100) == 1999;
    SmallNatToString(19);
    SmallNatToString(99);
  }

  /** Any 19.99 less a fifth of itself is exactly 15.992, which prints as "15.99". */
  lemma FifthOff1999(price: Money, fraction: Rat)
    requires Value(price.amount) == 19.99 && Value(fraction) == 0.2
    ensures Mul(price, fraction).Success?
    ensures Sub(price, Mul(price, fraction).value).Success?
    ensures String(Sub(price, Mul(price, fraction).value).value) == "15.99"
  {
    assert Gcd(1999, 125) == 1 by {
      assert Gcd(1999, 125) == Gcd(125, 124) == Gcd(124, 1) == Gcd(1, 0);
    }
    hide Mul, Sub, Gcd, FloatString;
    var off := Mul(price, fraction).value;
    var effective := Sub(price, off).value;
    assert Value(effective.amount) == 15.992;
    var expected: Rat := Pair(1999, 125);
    ValueDetermines(effective.amount, expected);
    StringIsRoundedCents(effective);
    assert RoundHalfUp(100 * 1999, 125) == 1599;
    SmallNatToString(15);
    SmallNatToString(99);
  }

  /** NewMoney(1999, 100) less its product with 20/100 prints as "15.99". */
  lemma FifteenNinetyNine()
    ensures NewMoney(1999, 100).Success?
    ensures
      var price := NewMoney(1999, 100).value;
      && Mul(price, Make(20, 100)).Success?
      && Sub(price, Mul(price, Make(20, 100)).value).Success?
      && String(Sub(price, Mul(price, Make(20, 100)).value).value) == "15.99"
  {
    FifthOff1999(NewMoney(1999, 100).value, Make(20, 100));
  }
}
