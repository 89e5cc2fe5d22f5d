/** PricingCalculator: the price a product sells for at an instant, its base
    price less the share its discount takes off while that discount is in
    force. */
module Pricing {
  import opened Wrappers
  import opened Rational
  import opened Decimal
  import opened DomainErrors
  import opened MoneyDomain
  import opened Discounts
  import opened ProductAggregate

  /** The base price less base times the discount's fraction: the arithmetic
      the calculator and both read-side queries perform. */
  function Discounted(base: Money, d: Discount): Result<Money, Error>
  {
    var off := MoneyDomain.Mul(base, Fraction(d));
    if off.Failure? then Failure(off.error) else MoneyDomain.Sub(base, off.value)
  }

  /** The discounted price is the base less base times the fraction, refused
      with ErrInvalidPrice exactly when that share is negative or exceeds the
      base. Only the contracts of the two money operations are needed. */
  lemma DiscountedRules(base: Money, d: Discount)
    ensures
      var r := Discounted(base, d);
      var off := Value(base.amount) * Value(Fraction(d));
      && (r.Success? <==> 0.0 <= off <= Value(base.amount))
      && (r.Success? ==> Value(r.value.amount) == Value(base.amount) - off)
      && (r.Failure? ==> r.error == PriceError)
  {
    hide MoneyDomain.Mul, MoneyDomain.Sub, Fraction, Value, Gcd;
    var off := MoneyDomain.Mul(base, Fraction(d));
    var share := Value(base.amount) * Value(Fraction(d));
    if off.Success? {
      assert 0.0 <= Value(off.value.amount) == share;
      var r := MoneyDomain.Sub(base, off.value);
      assert Discounted(base, d) == r;
      assert r.Success? <==> share <= Value(base.amount);
    } else {
      assert share < 0.0;
    }
  }

  /** For a discount NewDiscount accepted the arithmetic never fails and the
      result lies between zero and the base price; a 100% discount leaves
      nothing to pay. */
  lemma DiscountedBounds(base: Money, d: Discount)
    requires WellFormed(d)
    ensures Discounted(base, d).Success?
    ensures 0.0 <= Value(Discounted(base, d).value.amount) <= Value(base.amount)
    ensures Value(d.percentage) == 100.0 ==> Discounted(base, d).value.amount == Pair(0, 1)
  {
    hide Discounted, Fraction;
    DiscountedRules(base, d);
    FractionInUnitInterval(d);
    var b, f := Value(base.amount), Value(Fraction(d));
    assert 0.0 <= b * f <= b by {
      assert 0.0 <= b * f;
      assert b * f <= b * 1.0;
    }
    if Value(d.percentage) == 100.0 {
      var zero: Rat := Pair(0, 1);
      ValueDetermines(Discounted(base, d).value.amount, zero);
    }
  }

  /** EffectivePrice(product, now): the base price when the product has no
      discount or its discount is not in force at now, otherwise the
      discounted price. It reads the product and changes nothing. */
  function EffectivePrice(p: Product, now: int): (r: Result<Money, Error>)
    reads p
    ensures !IsValidAtOpt(p.discount, now) ==> r == Success(p.basePrice)
    ensures IsValidAtOpt(p.discount, now) ==> r == Discounted(p.basePrice, p.discount.value)
  {
    if p.discount.None? then Success(p.basePrice)
    else if !IsValidAt(p.discount.value, now) then Success(p.basePrice)
    else Discounted(p.basePrice, p.discount.value)
  }

  /** With a discount NewDiscount accepted, the effective price never fails and
      lies between zero and the base price. */
  lemma EffectivePriceBounds(p: Product, now: int)
    requires p.discount.Some? ==> WellFormed(p.discount.value)
    ensures EffectivePrice(p, now).Success?
    ensures 0.0 <= Value(EffectivePrice(p, now).value.amount) <= Value(p.basePrice.amount)
  {
    if IsValidAtOpt(p.discount, now) {
      DiscountedBounds(p.basePrice, p.discount.value);
    }
  }

  /** A base of 1000/100 with 20% off in force prints as "8.00". */
  lemma EightDollars(price: Money, d: Discount, now: int)
    requires price == NewMoney(1000, 100).value
    requires Value(d.percentage) == 20.0 && IsValidAt(d, now)
    ensures NewMoney(1000, 100).Success?
    ensures Discounted(price, d).Success?
    ensures String(Discounted(price, d).value) == "8.00"
  {
    hide Discounted, Fraction;
    DiscountedRules(price, d);
    var effective := Discounted(price, d).value;
    assert Value(effective.amount) == 8.0;
    var eight: Rat := FromInt(8);
    ValueDetermines(effective.amount, eight);
    FloatStringWhole(effective.amount, 2);
    assert Pow10(2) == 100;
    assert NatToString(8) == "8";
    assert NatToString(0) == "0";
  }
}
