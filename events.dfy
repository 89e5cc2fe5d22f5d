/** The six domain events a product raises, each carrying the product's id and
    the instant it happened. */
module Events {
  import opened Wrappers

  datatype EventKind =
    | ProductCreated
    | ProductUpdated
    | ProductActivated
    | ProductDeactivated
    | DiscountApplied
    | DiscountRemoved

  /** AggregateID() and OccurredAt() are the two fields. */
  datatype DomainEvent = DomainEvent(kind: EventKind, aggregateId: string, occurredAt: int)

  const Prefix: string := "product."

  /** EventType(): the stable, dot-separated name of each kind. */
  function EventType(k: EventKind): (t: string)
    ensures |t| > |Prefix| && t[..|Prefix|] == Prefix
  {
    match k
    case ProductCreated => "product.created"
    case ProductUpdated => "product.updated"
    case ProductActivated => "product.activated"
    case ProductDeactivated => "product.deactivated"
    case DiscountApplied => "product.discount_applied"
    case DiscountRemoved => "product.discount_removed"
  }

  /** The kind a type string names, if any. */
  function KindOfType(t: string): (k: Option<EventKind>)
    ensures k.Some? ==> EventType(k.value) == t
  {
    if t == "product.created" then Some(ProductCreated)
    else if t == "product.updated" then Some(ProductUpdated)
    else if t == "product.activated" then Some(ProductActivated)
    else if t == "product.deactivated" then Some(ProductDeactivated)
    else if t == "product.discount_applied" then Some(DiscountApplied)
    else if t == "product.discount_removed" then Some(DiscountRemoved)
    else None
  }

  /** The type string identifies the kind: reading it back gives the kind. */
  lemma KindOfTypeRoundTrip(k: EventKind)
    ensures KindOfType(EventType(k)) == Some(k)
  {
  }

  /** Distinct kinds have distinct type strings. */
  lemma EventTypeInjective(a: EventKind, b: EventKind)
    requires EventType(a) == EventType(b)
    ensures a == b
  {
    KindOfTypeRoundTrip(a);
    KindOfTypeRoundTrip(b);
  }
}
