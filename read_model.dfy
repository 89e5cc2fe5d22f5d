/** The read model the two queries consume: flat product rows read straight
    from storage, and the effective price each query derives from a row at
    query time. */
module ReadModel {
  import opened Wrappers
  import opened Rational
  import opened DomainErrors
  import opened MoneyDomain
  import opened Discounts
  import opened Pricing
  import opened ProductAggregate
  import opened Instants

  /** A stored product as the read model returns it: the price as its raw
      pair, the discount as its percentage text (empty when there is none)
      and two instants, every instant in whole Unix seconds. */
  datatype ProductRow = ProductRow(
    id: string,
    name: string,
    description: string,
    category: string,
    status: string,
    basePriceNumerator: int,
    basePriceDenominator: int,
    discountPercent: string,
    discountStartUnix: int,
    discountEndUnix: int,
    createdAtUnix: int,
    updatedAtUnix: int,
    archivedAtUnix: int)

  /** A page of rows and the token of the page after it. */
  datatype RowPage = RowPage(items: seq<ProductRow>, nextPageToken: string)

  /** The discount a row describes, when it describes a valid one: the text
      is not empty, parses (parse is big.Rat's SetString) and NewDiscount
      accepts it with the row's two Unix seconds turned into instants, as
      time.Unix(s, 0) does. */
  function RowDiscount(row: ProductRow, parse: string -> Option<Rat>): (r: Option<Discount>)
    ensures r.Some? ==> WellFormed(r.value)
    ensures r.Some? <==>
      row.discountPercent != [] && parse(row.discountPercent).Some?
      && NewDiscount(parse(row.discountPercent), FromUnix(row.discountStartUnix), FromUnix(row.discountEndUnix)).Success?
    ensures r.Some? ==>
      r.value == Discount(parse(row.discountPercent).value, FromUnix(row.discountStartUnix), FromUnix(row.discountEndUnix))
  {
    if row.discountPercent == [] then None
    else
      var pct := parse(row.discountPercent);
      if pct.None? then None
      else
        var d := NewDiscount(pct, FromUnix(row.discountStartUnix), FromUnix(row.discountEndUnix));
        if d.Failure? then None else Some(d.value)
  }

  /** The row's discount when it is in force at the instant now; an invalid
      or expired discount is ignored, never reported. Since the row's bounds
      are whole seconds, that is decided by the whole seconds of now. */
  function InForce(row: ProductRow, parse: string -> Option<Rat>, now: int): (r: Option<Discount>)
    ensures r.Some? <==>
      RowDiscount(row, parse).Some? && row.discountStartUnix <= Unix(now) < row.discountEndUnix
    ensures r.Some? ==> r == RowDiscount(row, parse) && WellFormed(r.value)
  {
    CompareWithSeconds(now, row.discountStartUnix);
    CompareWithSeconds(now, row.discountEndUnix);
    var d := RowDiscount(row, parse);
    if d.Some? && IsValidAt(d.value, now) then d else None
  }

  /** money.String() of a result whose error is dropped: a failed operation
      leaves a nil Money, which prints as zero. */
  function PriceText(r: Result<Money, Error>): string
  {
    if r.Success? then String(r.value) else "0.00"
  }

  /** The effective price text both queries show: the base price, or the
      base less the share of the discount in force. */
  function EffectiveText(base: Money, inForce: Option<Discount>): string
  {
    if inForce.None? then String(base) else PriceText(Discounted(base, inForce.value))
  }

  /** The dropped error never happens: a discount NewDiscount accepted always
      leaves a price between zero and the base, so the effective text is the
      two-decimal text of that price and never the nil fallback. */
  lemma EffectiveTextIsPrice(base: Money, row: ProductRow, parse: string -> Option<Rat>, now: int)
    ensures
      var d := InForce(row, parse, now);
      && (d.None? ==> EffectiveText(base, d) == String(base))
      && (d.Some? ==>
            && Discounted(base, d.value).Success?
            && EffectiveText(base, d) == String(Discounted(base, d.value).value)
            && 0.0 <= Value(Discounted(base, d.value).value.amount) <= Value(base.amount))
  {
    var d := InForce(row, parse, now);
    if d.Some? {
      DiscountedBounds(base, d.value);
    }
  }

  /** The queries price a row as the calculator prices a product: for a
      product with the row's stored price and the discount the row
      describes, the effective text both queries show is the calculator's
      EffectivePrice at the same instant, printed with two decimals. */
  lemma QueriesAgreeWithCalculator(p: Product, row: ProductRow, parse: string -> Option<Rat>, now: int)
    requires NewMoney(row.basePriceNumerator, row.basePriceDenominator).Success?
    requires p.basePrice == NewMoney(row.basePriceNumerator, row.basePriceDenominator).value
    requires p.discount == RowDiscount(row, parse)
    ensures EffectivePrice(p, now).Success?
    ensures EffectiveText(p.basePrice, InForce(row, parse, now)) == String(EffectivePrice(p, now).value)
  {
    EffectiveTextIsPrice(p.basePrice, row, parse, now);
    EffectivePriceBounds(p, now);
  }
}
