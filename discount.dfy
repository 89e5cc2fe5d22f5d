/** Discount: a percentage of the price taken off during the half-open window
    [start, end). Instants are integers (nanoseconds since the Unix epoch);
    converting to UTC does not change an instant. */
module Discounts {
  import opened Wrappers
  import opened Rational
  import opened DomainErrors

  datatype Discount = Discount(percentage: Rat, start: int, end: int)

  /** What NewDiscount checks of its arguments. */
  predicate PercentInRange(p: Rat) { 0.0 < Value(p) <= 100.0 }

  predicate WellFormed(d: Discount) { PercentInRange(d.percentage) && d.start < d.end }

  /** NewDiscount(percentage, start, end): the percentage is checked first
      (absent, not positive, or above 100 is ErrInvalidDiscountPercent;
      exactly 100 is accepted), then the window must not be empty. */
  function NewDiscount(percentage: Option<Rat>, start: int, end: int): (r: Result<Discount, Error>)
    ensures r.Success? <==> percentage.Some? && PercentInRange(percentage.value) && start < end
    ensures r.Success? ==> WellFormed(r.value) && r.value == Discount(percentage.value, start, end)
    ensures (percentage.None? || !PercentInRange(percentage.value)) ==> r == Failure(Domain(InvalidDiscountPercent))
    ensures percentage.Some? && PercentInRange(percentage.value) && end <= start ==> r == Failure(Domain(InvalidDiscountPeriod))
  {
    if percentage.None? then Failure(Domain(InvalidDiscountPercent))
    else if Sign(percentage.value) <= 0 || Cmp(percentage.value, FromInt(100)) > 0 then
      Failure(Domain(InvalidDiscountPercent))
    else if end < start || end == start then Failure(Domain(InvalidDiscountPeriod))
    else Success(Discount(percentage.value, start, end))
  }

  /** d.IsValidAt(now): the start is included, the end is not. */
  predicate IsValidAt(d: Discount, now: int)
  {
    (now == d.start || now > d.start) && now < d.end
  }

  /** The same question asked of a product's optional discount: an absent
      discount is never valid. */
  predicate IsValidAtOpt(d: Option<Discount>, now: int)
  {
    d.Some? && IsValidAt(d.value, now)
  }

  /** A discount that NewDiscount built is in force from its first instant and
      has stopped at its end. */
  lemma WindowBounds(d: Discount)
    requires WellFormed(d)
    ensures IsValidAt(d, d.start) && !IsValidAt(d, d.end)
    ensures forall t :: IsValidAt(d, t) <==> d.start <= t < d.end
  {
  }

  const Hundred: Rat := FromInt(100)

  /** d.Fraction(): the percentage over 100, the factor the price is
      multiplied by to find the amount taken off. */
  function Fraction(d: Discount): (f: Rat)
    ensures Value(f) == Value(d.percentage) / 100.0
  {
    Quo(d.percentage, Hundred)
  }

  /** For every well-formed discount the fraction lies in (0, 1]. */
  lemma FractionInUnitInterval(d: Discount)
    requires WellFormed(d)
    ensures 0.0 < Value(Fraction(d)) <= 1.0
  {
  }
}
