/** The errors of the catalog: the domain's sentinel errors, errors from
    outside the domain (storage, serialisation, the committer), and errors
    wrapped with a context by fmt.Errorf("...: %w", err). */
module DomainErrors {

  /** The sentinel values declared by the domain package. */
  datatype DomainError =
    | InvalidName
    | InvalidCategory
    | InvalidPrice
    | ProductNotActive
    | ProductArchived
    | InvalidDiscountPercent
    | InvalidDiscountPeriod
    | OverlappingDiscount
    | NoDiscount

  datatype Error =
    | Domain(kind: DomainError)
    /** An error from code outside the model, known only by its message. */
    | Opaque(message: string)
    /** fmt.Errorf(context + ": %w", inner). */
    | Wrapped(context: string, inner: Error)

  /** iterator.Done, which the storage layer returns for a missing row. */
  const NotFound: Error := Opaque("no more items in iterator")

  function DomainMessage(k: DomainError): string
  {
    match k
    case InvalidName => "invalid product name"
    case InvalidCategory => "invalid product category"
    case InvalidPrice => "invalid base price"
    case ProductNotActive => "product is not active"
    case ProductArchived => "product is archived"
    case InvalidDiscountPercent => "invalid discount percent"
    case InvalidDiscountPeriod => "invalid discount period"
    case OverlappingDiscount => "product already has an active discount"
    case NoDiscount => "product has no active discount"
  }

  /** Callers tell the sentinels apart by identity, never by message, but the
      messages are distinct as well. */
  lemma DomainMessagesDistinct(a: DomainError, b: DomainError)
    requires a != b
    ensures DomainMessage(a) != DomainMessage(b)
  {
  }

  /** err.Error(): a wrapped error prints its context, ": " and the inner text. */
  function Message(e: Error): string
  {
    match e
    case Domain(k) => DomainMessage(k)
    case Opaque(m) => m
    case Wrapped(c, inner) => c + ": " + Message(inner)
  }

  /** The innermost error of a chain of wrappers. */
  function Root(e: Error): (r: Error)
    ensures !r.Wrapped?
  {
    match e
    case Wrapped(_, inner) => Root(inner)
    case _ => e
  }

  /** errors.Is(e, sentinel): whether the sentinel appears on the unwrap chain. */
  predicate Is(e: Error, k: DomainError)
  {
    match e
    case Domain(k') => k' == k
    case Opaque(_) => false
    case Wrapped(_, inner) => Is(inner, k)
  }

  /** However many contexts are added, errors.Is answers from the innermost
      error alone. */
  lemma {:induction false} IsSeesRoot(e: Error, k: DomainError)
    ensures Is(e, k) <==> Root(e) == Domain(k)
  {
    match e
    case Wrapped(_, inner) => IsSeesRoot(inner, k);
    case _ =>
  }
}
