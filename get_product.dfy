/** The GetProduct query: one stored row turned into a response carrying
    both the base price and the price in effect now. */
module GetProduct {
  import opened Wrappers
  import opened Rational
  import opened DomainErrors
  import opened MoneyDomain
  import opened Discounts
  import opened Pricing
  import opened ReadModel

  /** The discount in force, as stored: its text exactly as the row holds it. */
  datatype DiscountView = DiscountView(percent: string, startDateUnix: int, endDateUnix: int)

  datatype ProductView = ProductView(
    id: string,
    name: string,
    description: string,
    category: string,
    status: string,
    basePrice: string,
    effectivePrice: string,
    discount: Option<DiscountView>,
    createdAtUnix: int,
    updatedAtUnix: int)

  /** Execute(productID) when the read model answers lookup and the clock
      reads now: the read model's error, ErrInvalidPrice for a stored price
      NewMoney refuses, or the view of the row. */
  function Execute(lookup: Result<ProductRow, Error>, parse: string -> Option<Rat>, now: int): Result<ProductView, Error>
  {
    if lookup.Failure? then Failure(lookup.error)
    else
      var row := lookup.value;
      var base := NewMoney(row.basePriceNumerator, row.basePriceDenominator);
      if base.Failure? then Failure(base.error)
      else
        var d := InForce(row, parse, now);
        Success(ProductView(
          row.id, row.name, row.description, row.category, row.status,
          String(base.value), EffectiveText(base.value, d),
          if d.Some? then Some(DiscountView(row.discountPercent, row.discountStartUnix, row.discountEndUnix))
          else None,
          row.createdAtUnix, row.updatedAtUnix))
  }

  /** The read model's error is returned as it is; a stored price NewMoney
      refuses (a zero denominator or a negative value) is ErrInvalidPrice;
      otherwise the descriptive fields and timestamps are copied, the base
      price is printed with two decimals, and the discount is reported
      exactly when a valid one is in force at now, in which case the
      effective price is the base less the discount's share and lies between
      zero and the base; without one the effective price is the base price. */
  lemma ExecuteRules(lookup: Result<ProductRow, Error>, parse: string -> Option<Rat>, now: int)
    ensures lookup.Failure? ==> Execute(lookup, parse, now) == Failure(lookup.error)
    ensures lookup.Success? ==>
      var row := lookup.value;
      var r := Execute(lookup, parse, now);
      && (r.Failure? <==> row.basePriceDenominator == 0
                          || row.basePriceNumerator as real / row.basePriceDenominator as real < 0.0)
      && (r.Failure? ==> r.error == PriceError)
      && (r.Success? ==>
            var base := NewMoney(row.basePriceNumerator, row.basePriceDenominator).value;
            var d := InForce(row, parse, now);
            var v := r.value;
            && v.id == row.id && v.name == row.name && v.description == row.description
            && v.category == row.category && v.status == row.status
            && v.createdAtUnix == row.createdAtUnix && v.updatedAtUnix == row.updatedAtUnix
            && Value(base.amount) == row.basePriceNumerator as real / row.basePriceDenominator as real
            && v.basePrice == String(base)
            && (v.discount.Some? <==> d.Some?)
            && (d.None? ==> v.effectivePrice == v.basePrice)
            && (d.Some? ==>
                  && v.discount.value == DiscountView(row.discountPercent, row.discountStartUnix, row.discountEndUnix)
                  && Discounted(base, d.value).Success?
                  && v.effectivePrice == String(Discounted(base, d.value).value)
                  && Value(Discounted(base, d.value).value.amount)
                     == Value(base.amount) - Value(base.amount) * Value(d.value.percentage) / 100.0
                  && 0.0 <= Value(Discounted(base, d.value).value.amount) <= Value(base.amount)))
  {
    hide Gcd, Discounted, String, Fraction, InForce, EffectiveText, RowDiscount;
    if lookup.Success? && NewMoney(lookup.value.basePriceNumerator, lookup.value.basePriceDenominator).Success? {
      ViewRules(lookup.value, parse, now);
    }
  }

  /** The view of a row whose stored price NewMoney accepts. */
  lemma ViewRules(row: ProductRow, parse: string -> Option<Rat>, now: int)
    requires NewMoney(row.basePriceNumerator, row.basePriceDenominator).Success?
    ensures
      var base := NewMoney(row.basePriceNumerator, row.basePriceDenominator).value;
      var d := InForce(row, parse, now);
      var r := Execute(Success(row), parse, now);
      && r.Success?
      && var v := r.value;
      && v.id == row.id && v.name == row.name && v.description == row.description
      && v.category == row.category && v.status == row.status
      && v.createdAtUnix == row.createdAtUnix && v.updatedAtUnix == row.updatedAtUnix
      && v.basePrice == String(base)
      && (v.discount.Some? <==> d.Some?)
      && (d.None? ==> v.effectivePrice == v.basePrice)
      && (d.Some? ==>
            && v.discount.value == DiscountView(row.discountPercent, row.discountStartUnix, row.discountEndUnix)
            && Discounted(base, d.value).Success?
            && v.effectivePrice == String(Discounted(base, d.value).value)
            && Value(Discounted(base, d.value).value.amount)
               == Value(base.amount) - Value(base.amount) * Value(d.value.percentage) / 100.0
            && 0.0 <= Value(Discounted(base, d.value).value.amount) <= Value(base.amount))
  {
    hide Gcd, Value, Discounted, String, Fraction, InForce, EffectiveText, RowDiscount;
    var base := NewMoney(row.basePriceNumerator, row.basePriceDenominator).value;
    EffectiveTextIsPrice(base, row, parse, now);
    var d := InForce(row, parse, now);
    if d.Some? {
      DiscountedRules(base, d.value);
      var b, f := Value(base.amount), Value(Fraction(d.value));
      assert Value(Discounted(base, d.value).value.amount) == b - b * f;
      assert b - b * f == b - b * Value(d.value.percentage) / 100.0;
    }
  }
}
