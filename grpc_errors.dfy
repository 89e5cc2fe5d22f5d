/** The transport's translation of an error into a gRPC status: invalid
    input is InvalidArgument, a rule the product's state forbids is
    FailedPrecondition, and everything else is Internal. */
module GrpcErrors {
  import opened DomainErrors

  datatype Code = InvalidArgument | FailedPrecondition | Internal

  /** status.Error(code, message). */
  datatype Status = Status(code: Code, message: string)

  /** The code of an error, checked with errors.Is in the order the switch
      lists its cases: every sentinel err is, gives the code that sentinel
      stands for, and an error that is no sentinel at all is Internal. */
  function Classify(e: Error): (c: Code)
    ensures forall k :: Is(e, k) ==> c == CodeOf(k)
    ensures c == Internal ==> forall k :: !Is(e, k)
    ensures (forall k :: !Is(e, k)) ==> c == Internal
  {
    IsSeesRootAll(e);
    assert Root(e).Domain? ==> Is(e, Root(e).kind);
    if Is(e, InvalidName) || Is(e, InvalidCategory) || Is(e, InvalidPrice)
       || Is(e, InvalidDiscountPercent) || Is(e, InvalidDiscountPeriod) then InvalidArgument
    else if Is(e, ProductNotActive) || Is(e, OverlappingDiscount) || Is(e, NoDiscount)
            || Is(e, ProductArchived) then FailedPrecondition
    else Internal
  }

  /** mapDomainError(err): the code the innermost error stands for, Internal
      when that is not a sentinel, with err's full message. */
  function MapDomainError(e: Error): (st: Status)
    ensures Root(e).Domain? ==> st.code == CodeOf(Root(e).kind)
    ensures !Root(e).Domain? ==> st.code == Internal
    ensures st.message == Message(e)
  {
    IsSeesRootAll(e);
    Status(Classify(e), Message(e))
  }

  /** errors.Is holds of one sentinel at most: the innermost error. */
  lemma IsSeesRootAll(e: Error)
    ensures forall k :: Is(e, k) <==> Root(e) == Domain(k)
  {
    forall k {
      IsSeesRoot(e, k);
    }
  }

  /** The code each sentinel stands for, one sentinel at a time. */
  function CodeOf(k: DomainError): Code
  {
    match k
    case InvalidName => InvalidArgument
    case InvalidCategory => InvalidArgument
    case InvalidPrice => InvalidArgument
    case InvalidDiscountPercent => InvalidArgument
    case InvalidDiscountPeriod => InvalidArgument
    case ProductNotActive => FailedPrecondition
    case OverlappingDiscount => FailedPrecondition
    case NoDiscount => FailedPrecondition
    case ProductArchived => FailedPrecondition
  }

  /** The switch decides by the innermost error alone: a sentinel, however
      deeply wrapped, gets the code it stands for, and every error that is
      not a sentinel underneath is Internal. Every sentinel is covered and
      none is listed twice, so the order of the cases does not matter. */
  lemma ClassifyByRoot(e: Error)
    ensures Root(e).Domain? ==> Classify(e) == CodeOf(Root(e).kind)
    ensures !Root(e).Domain? ==> Classify(e) == Internal
  {
    IsSeesRoot(e, InvalidName);
    IsSeesRoot(e, InvalidCategory);
    IsSeesRoot(e, InvalidPrice);
    IsSeesRoot(e, InvalidDiscountPercent);
    IsSeesRoot(e, InvalidDiscountPeriod);
    IsSeesRoot(e, ProductNotActive);
    IsSeesRoot(e, OverlappingDiscount);
    IsSeesRoot(e, NoDiscount);
    IsSeesRoot(e, ProductArchived);
  }

  /** Adding a context keeps the code and prefixes the message with the
      context and ": ". */
  lemma WrappingKeepsCode(c: string, e: Error)
    ensures MapDomainError(Wrapped(c, e)).code == MapDomainError(e).code
    ensures MapDomainError(Wrapped(c, e)).message == c + ": " + MapDomainError(e).message
  {
    ClassifyByRoot(e);
    ClassifyByRoot(Wrapped(c, e));
  }

  /** The storage layer's not-found error becomes Internal, not NotFound. */
  lemma NotFoundIsInternal()
    ensures MapDomainError(NotFound) == Status(Internal, "no more items in iterator")
  {
    ClassifyByRoot(NotFound);
  }
}
