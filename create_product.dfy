/** The CreateProduct command: the price is built first, then the clock is read
    and a product built under a fresh identifier; its full-row insert and the
    outbox record of its ProductCreated event are committed as one plan. */
module CreateProduct {
  import opened Wrappers
  import opened DomainErrors
  import opened MoneyDomain
  import opened Events
  import opened Mutations
  import opened Outbox
  import opened ProductAggregate
  import opened Repository
  import opened Interactors
  import Rational

  datatype Request = Request(name: string, description: string, category: string,
                             basePriceNumerator: int, basePriceDenominator: int)

  /** The clock is read only once the price has been accepted. */
  predicate ReadsClock(req: Request)
  {
    NewMoney(req.basePriceNumerator, req.basePriceDenominator).Success?
  }

  /** The product Execute builds when the clock reads now and the product
      takes identifier first: NewMoney's error, NewProduct's error, or the
      new product. */
  function Built(req: Request, first: nat, now: int): Result<ProductState, Error>
  {
    var price := NewMoney(req.basePriceNumerator, req.basePriceDenominator);
    if price.Failure? then Failure(price.error)
    else Created(IdAt(first), req.name, req.description, req.category, Some(price.value), now)
  }

  /** What Execute does with req when the clock reads now and first is the
      next identifier to be drawn: the outcome, and the identifier it returns
      (empty whenever it returns an error). The product takes identifier
      first, its events the ones after it. */
  function Execution(req: Request, now: int, first: nat, marshal: Marshal,
                     toMutation: OutboxEvent -> Option<Mutation>, failure: Option<Error>): (Outcome, string)
  {
    var built := Built(req, first, now);
    if built.Failure? then (Refused(built.error, if ReadsClock(req) then 1 else 0), "")
    else
      var o := CommitOutcome(Some(InsertMutation(built.value)), built.value.events, marshal, now,
                             first + 1, toMutation, failure);
      (o.(drawn := o.drawn + 1), if o.err.None? then IdAt(first) else "")
  }

  /** Building refuses a price NewMoney refuses with ErrInvalidPrice, and
      otherwise answers as NewProduct does; a product built has exactly one
      event, its ProductCreated. */
  lemma BuiltRules(req: Request, first: nat, now: int)
    ensures !ReadsClock(req) ==> Built(req, first, now) == Failure(PriceError)
    ensures ReadsClock(req) ==>
      Built(req, first, now)
      == Created(IdAt(first), req.name, req.description, req.category,
                 Some(NewMoney(req.basePriceNumerator, req.basePriceDenominator).value), now)
    ensures Built(req, first, now).Success? ==>
      Built(req, first, now).value.events == [DomainEvent(ProductCreated, IdAt(first), now)]
      && Built(req, first, now).value.id == IdAt(first)
  {
    if ReadsClock(req) {
      NewProductRules(IdAt(first), req.name, req.description, req.category,
                      Some(NewMoney(req.basePriceNumerator, req.basePriceDenominator).value), now);
    }
  }

  /** When the product is built, the plan is its insert followed by the
      outbox mutation of exactly one "product.created" record, whose
      identifier differs from the product's; the product's identifier is
      returned exactly when the committer accepts. */
  lemma CommittedRules(req: Request, now: int, first: nat, marshal: Marshal,
                       toMutation: OutboxEvent -> Option<Mutation>, failure: Option<Error>)
    requires Built(req, first, now).Success?
    ensures
      var (o, id) := Execution(req, now, first, marshal, toMutation, failure);
      && (o.plan.Some? <==> Encode(marshal, DomainEvent(ProductCreated, IdAt(first), now)).Success?)
      && (o.err.None? <==> id != "")
      && (o.err.None? ==> id == IdAt(first))
      && (o.plan.Some? ==>
            && o.err == failure
            && o.drawn == 2
            && |o.records| == 1
            && o.records[0].eventType == "product.created"
            && o.records[0].aggregateId == IdAt(first)
            && o.records[0].eventId == IdAt(first + 1) != IdAt(first)
            && o.plan.value == PlanOf(Some(InsertMutation(Built(req, first, now).value)), Kept(o.records, toMutation)))
  {
    hide Execution, Built, Created, NewMoney, CommitOutcome, InsertMutation, Rational.Gcd;
    BuiltRules(req, first, now);
    var s := Built(req, first, now).value;
    var e := DomainEvent(ProductCreated, IdAt(first), now);
    CommitsBuilt(req, now, first, marshal, toMutation, failure);
    CommitOutcomeRules(Some(InsertMutation(s)), s.events, marshal, now, first + 1, toMutation, failure);
    var c := CommitOutcome(Some(InsertMutation(s)), s.events, marshal, now, first + 1, toMutation, failure);
    assert AllMarshal(s.events, marshal) <==> Encode(marshal, e).Success? by {
      assert s.events[0] == e;
    }
    if c.plan.Some? {
      RecordsRules(s.events, marshal, now, first + 1);
      IdAtDistinct(first + 1, first);
    }
    if c.err.None? {
      assert |IdAt(first)| > 0;
    }
  }

  /** The rules of CreateProduct for every request: a price NewMoney refuses
      is ErrInvalidPrice with nothing drawn and nothing committed; a product
      NewProduct refuses is its error, with one identifier drawn and nothing
      committed. */
  lemma RefusedRules(req: Request, now: int, first: nat, marshal: Marshal,
                     toMutation: OutboxEvent -> Option<Mutation>, failure: Option<Error>)
    ensures
      var (o, id) := Execution(req, now, first, marshal, toMutation, failure);
      && (!ReadsClock(req) ==> o == Refused(PriceError, 0) && id == "")
      && (ReadsClock(req) && Built(req, first, now).Failure? ==>
            && o == Refused(Built(req, first, now).error, 1) && id == ""
            && Built(req, first, now).error.Domain?)
  {
    BuiltRules(req, first, now);
    if ReadsClock(req) {
      NewProductRules(IdAt(first), req.name, req.description, req.category,
                      Some(NewMoney(req.basePriceNumerator, req.basePriceDenominator).value), now);
    }
  }

  /** A built product is committed under the identifier after its own: the
      outcome is the shared commit tail, plus the identifier drawn for the
      product, and the product's identifier is returned on success. */
  lemma CommitsBuilt(req: Request, now: int, first: nat, marshal: Marshal,
                     toMutation: OutboxEvent -> Option<Mutation>, failure: Option<Error>)
    requires Built(req, first, now).Success?
    ensures
      var s := Built(req, first, now).value;
      var c := CommitOutcome(Some(InsertMutation(s)), s.events, marshal, now, first + 1, toMutation, failure);
      Execution(req, now, first, marshal, toMutation, failure)
      == (c.(drawn := c.drawn + 1), if c.err.None? then IdAt(first) else "")
  {
  }

  /** The CreateProduct interactor over its collaborators. */
  class Interactor {
    const repo: ProductRepository
    const outbox: OutboxRepository
    const committer: Committer
    const clock: Clock
    const ids: IdSource
    const marshal: Marshal

    constructor (repo: ProductRepository, outbox: OutboxRepository, committer: Committer, clock: Clock,
                 ids: IdSource, marshal: Marshal)
      ensures this.repo == repo && this.outbox == outbox && this.committer == committer
      ensures this.clock == clock && this.ids == ids && this.marshal == marshal
    {
      this.repo := repo;
      this.outbox := outbox;
      this.committer := committer;
      this.clock := clock;
      this.ids := ids;
      this.marshal := marshal;
    }

    /** Execute: returns the new product's identifier, or an error. */
    method Execute(req: Request) returns (id: string, err: Option<Error>)
      modifies outbox, committer, clock, ids
      ensures
        var (o, pid) := Execution(req, old(clock.current), old(ids.issued), marshal, outbox.toMutation,
                                  committer.failure);
        && committer.applied == old(committer.applied) + Applied(o)
        && err == o.err && id == pid
        && outbox.captured == old(outbox.captured) + o.records
        && ids.issued == old(ids.issued) + o.drawn
      ensures clock.current == old(clock.current) + (if ReadsClock(req) then clock.tick else 0)
    {
      hide Execution, Built, Created, NewMoney, CommitOutcome, InsertMutation, Rational.Gcd;
      ghost var first, t0 := ids.issued, clock.current;
      BuiltRules(req, first, t0);
      RefusedRules(req, t0, first, marshal, outbox.toMutation, committer.failure);
      var price := NewMoney(req.basePriceNumerator, req.basePriceDenominator);
      if price.Failure? {
        return "", Some(price.error);
      }
      var now := clock.Now();
      var productId := ids.Next();
      var built := Product.NewProduct(productId, req.name, req.description, req.category, Some(price.value), now);
      if built.Failure? {
        return "", Some(built.error);
      }
      var product := built.value;
      CommitsBuilt(req, t0, first, marshal, outbox.toMutation, committer.failure);
      var insert := repo.InsertMut(product);
      err := Commit(Some(insert), product, outbox, ids, committer, marshal, now);
      if err.Some? {
        return "", err;
      }
      id := product.id;
    }
  }
}
