/** The ApplyDiscount and RemoveDiscount commands: the stored product is
    loaded, the request checked, the clock read, the discount set or cleared,
    and the targeted update of the three discount columns committed with the
    outbox record of the event raised. */
module ApplyDiscount {
  import opened Wrappers
  import opened Rational
  import opened DomainErrors
  import opened Events
  import opened Mutations
  import opened Outbox
  import opened Discounts
  import opened ProductAggregate
  import opened Repository
  import opened Interactors

  /** The percentage arrives as decimal text; the dates as instants. */
  datatype ApplyRequest = ApplyRequest(productId: string, percent: string, start: int, end: int)

  datatype RemoveRequest = RemoveRequest(productId: string)

  /** The discount an apply request describes once its text has been parsed
      to percent (None when the text is not a number): ErrInvalidDiscountPercent
      for text that does not parse, otherwise what NewDiscount answers. */
  function Requested(percent: Option<Rat>, start: int, end: int): (r: Result<Discount, Error>)
    ensures r.Success? <==> percent.Some? && PercentInRange(percent.value) && start < end
    ensures r.Success? ==> WellFormed(r.value) && r.value == Discount(percent.value, start, end)
    ensures percent.None? || !PercentInRange(percent.value) ==> r == Failure(Domain(InvalidDiscountPercent))
    ensures percent.Some? && PercentInRange(percent.value) && end <= start ==>
      r == Failure(Domain(InvalidDiscountPeriod))
  {
    if percent.None? then Failure(Domain(InvalidDiscountPercent))
    else NewDiscount(percent, start, end)
  }

  /** What Apply does when FindByID answers lookup, the percentage text
      parses to percent, the clock reads now and first is the next
      identifier to be drawn. */
  function ApplyExecution(lookup: Result<ProductState, Error>, percent: Option<Rat>, start: int, end: int,
                          now: int, first: nat, marshal: Marshal,
                          toMutation: OutboxEvent -> Option<Mutation>, failure: Option<Error>): Outcome
  {
    if lookup.Failure? then Refused(lookup.error, 0)
    else
      var d := Requested(percent, start, end);
      if d.Failure? then Refused(d.error, 0)
      else PlanOutcome(ApplyDiscountStep(lookup.value, Some(d.value), now), now, first, marshal, toMutation, failure)
  }

  /** What Remove does when FindByID answers lookup, the clock reads now and
      first is the next identifier to be drawn. */
  function RemoveExecution(lookup: Result<ProductState, Error>, now: int, first: nat, marshal: Marshal,
                           toMutation: OutboxEvent -> Option<Mutation>, failure: Option<Error>): Outcome
  {
    if lookup.Failure? then Refused(lookup.error, 0)
    else PlanOutcome(RemoveDiscountStep(lookup.value, now), now, first, marshal, toMutation, failure)
  }

  /** The targeted update of a product whose only dirty field is its
      discount writes product_id, updated_at and the three discount columns:
      the percentage and the two instants of the discount, or three NULLs
      when it has none. */
  lemma DiscountUpdate(t: ProductState)
    requires t.dirty == {FieldDiscount}
    ensures UpdateMutation(t).Some?
    ensures UpdateMutation(t).value.columns.Keys == {ColProductID, ColUpdatedAt} + DiscountColumns
    ensures t.discount.Some? ==>
      && UpdateMutation(t).value.columns[ColDiscountPercent] == Numeric(t.discount.value.percentage)
      && UpdateMutation(t).value.columns[ColDiscountStart] == Time(t.discount.value.start)
      && UpdateMutation(t).value.columns[ColDiscountEnd] == Time(t.discount.value.end)
    ensures t.discount.None? ==>
      && UpdateMutation(t).value.columns[ColDiscountPercent] == Null
      && UpdateMutation(t).value.columns[ColDiscountStart] == Null
      && UpdateMutation(t).value.columns[ColDiscountEnd] == Null
  {
    UpdateMutationRules(t);
    assert t.dirty * TrackedFields != {} by {
      assert FieldDiscount in TrackedFields;
    }
    assert ColumnsOf(t.dirty) == DiscountColumns;
    hide Gcd, UpdateMutation, ColumnsOf;
    assert ColDiscountPercent in DiscountColumns && ColDiscountStart in DiscountColumns
           && ColDiscountEnd in DiscountColumns;
  }

  /** The commit of a state whose only dirty field is its discount and
      which raised the one event e: the update of the discount columns, then
      the mutation of e's record. */
  lemma DiscountCommit(t: ProductState, e: DomainEvent, marshal: Marshal, now: int, first: nat,
                       toMutation: OutboxEvent -> Option<Mutation>, failure: Option<Error>)
    requires t.events == [e] && t.dirty == {FieldDiscount}
    ensures
      var o := CommitOutcome(UpdateMutation(t), t.events, marshal, now, first, toMutation, failure);
      && (o.plan.Some? <==> Encode(marshal, e).Success?)
      && (o.plan.Some? ==>
            && o.err == failure && o.drawn == 1 && |o.records| == 1
            && o.records[0].eventType == EventType(e.kind)
            && o.records[0].aggregateId == e.aggregateId
            && UpdateMutation(t).Some?
            && o.plan.value == [UpdateMutation(t).value] + Kept(o.records, toMutation))
  {
    assert FieldDiscount in t.dirty * TrackedFields;
    OneEventCommit(t, e, marshal, now, first, toMutation, failure);
  }

  /** The rules of Apply for a product loaded clean, as FindByID loads every
      product, in the order the checks are made: FindByID's error; then
      ErrInvalidDiscountPercent for a percentage that does not parse or lies
      outside (0, 100]; then ErrInvalidDiscountPeriod for an end not after
      the start; in all these cases nothing is committed. */
  lemma ApplyRefusedRules(lookup: Result<ProductState, Error>, percent: Option<Rat>, start: int, end: int,
                          now: int, first: nat, marshal: Marshal,
                          toMutation: OutboxEvent -> Option<Mutation>, failure: Option<Error>)
    ensures
      var o := ApplyExecution(lookup, percent, start, end, now, first, marshal, toMutation, failure);
      && (lookup.Failure? ==> o == Refused(lookup.error, 0))
      && (lookup.Success? && (percent.None? || !PercentInRange(percent.value)) ==>
            o == Refused(Domain(InvalidDiscountPercent), 0))
      && (lookup.Success? && percent.Some? && PercentInRange(percent.value) && end <= start ==>
            o == Refused(Domain(InvalidDiscountPeriod), 0))
  {
  }

  /** With the discount d accepted, Apply answers as the product does: an
      inactive product refuses with ErrProductNotActive, a discount not in
      force at now with ErrInvalidDiscountPeriod, and a product whose current
      discount is still in force with ErrOverlappingDiscount, each without
      committing; otherwise the plan is the update of the three discount
      columns to d's, then the mutation of one "product.discount_applied"
      record. */
  lemma ApplyAcceptedRules(s: ProductState, percent: Option<Rat>, start: int, end: int, now: int, first: nat,
                           marshal: Marshal, toMutation: OutboxEvent -> Option<Mutation>, failure: Option<Error>)
    requires s.dirty == {} && s.events == []
    requires Requested(percent, start, end).Success?
    ensures
      var d := Requested(percent, start, end).value;
      var o := ApplyExecution(Success(s), percent, start, end, now, first, marshal, toMutation, failure);
      var t := ApplyDiscountStep(s, Some(d), now).state;
      && d == Discount(percent.value, start, end)
      && (s.status != Active ==> o == Refused(Domain(ProductNotActive), 0))
      && (s.status == Active && !IsValidAt(d, now) ==> o == Refused(Domain(InvalidDiscountPeriod), 0))
      && (s.status == Active && IsValidAt(d, now) && IsValidAtOpt(s.discount, now) ==>
            o == Refused(Domain(OverlappingDiscount), 0))
      && (s.status == Active && IsValidAt(d, now) && !IsValidAtOpt(s.discount, now) ==>
            && (o.plan.Some? <==> Encode(marshal, DomainEvent(DiscountApplied, s.id, now)).Success?)
            && (o.plan.Some? ==>
                  && o.err == failure && o.drawn == 1 && |o.records| == 1
                  && o.records[0].eventType == "product.discount_applied"
                  && o.records[0].aggregateId == s.id
                  && UpdateMutation(t).Some?
                  && UpdateMutation(t).value.columns.Keys == {ColProductID, ColUpdatedAt} + DiscountColumns
                  && UpdateMutation(t).value.columns[ColDiscountPercent] == Numeric(d.percentage)
                  && UpdateMutation(t).value.columns[ColDiscountStart] == Time(start)
                  && UpdateMutation(t).value.columns[ColDiscountEnd] == Time(end)
                  && o.plan.value == [UpdateMutation(t).value] + Kept(o.records, toMutation)))
  {
    assert EventType(DiscountApplied) == "product.discount_applied";
    var d := Requested(percent, start, end).value;
    var step := ApplyDiscountStep(s, Some(d), now);
    var t := step.state;
    assert ApplyExecution(Success(s), percent, start, end, now, first, marshal, toMutation, failure)
           == PlanOutcome(step, now, first, marshal, toMutation, failure);
    hide Gcd, ApplyExecution, Requested, NewDiscount;
    if step.err.None? {
      var e := DomainEvent(DiscountApplied, s.id, now);
      assert t.events == [e] && t.dirty == {FieldDiscount} && t.discount == Some(d);
      hide ApplyDiscountStep, UpdateMutation, CommitOutcome, PlanOutcome;
      DiscountUpdate(t);
      DiscountCommit(t, e, marshal, now, first, toMutation, failure);
    }
  }

  /** The rules of Remove for a product loaded clean: FindByID's error wins;
      a product without a discount refuses with ErrNoDiscount and nothing is
      committed; otherwise the plan sets the three discount columns to NULL,
      then adds the mutation of one "product.discount_removed" record. */
  lemma RemoveRules(lookup: Result<ProductState, Error>, now: int, first: nat, marshal: Marshal,
                    toMutation: OutboxEvent -> Option<Mutation>, failure: Option<Error>)
    requires lookup.Success? ==> lookup.value.dirty == {} && lookup.value.events == []
    ensures lookup.Failure? ==>
      RemoveExecution(lookup, now, first, marshal, toMutation, failure) == Refused(lookup.error, 0)
    ensures lookup.Success? ==>
      var s := lookup.value;
      var o := RemoveExecution(lookup, now, first, marshal, toMutation, failure);
      var t := RemoveDiscountStep(s, now).state;
      && (s.discount.None? ==> o == Refused(Domain(NoDiscount), 0))
      && (s.discount.Some? ==>
            && (o.plan.Some? <==> Encode(marshal, DomainEvent(DiscountRemoved, s.id, now)).Success?)
            && (o.plan.Some? ==>
                  && o.err == failure && o.drawn == 1 && |o.records| == 1
                  && o.records[0].eventType == "product.discount_removed"
                  && o.records[0].aggregateId == s.id
                  && UpdateMutation(t).Some?
                  && UpdateMutation(t).value.columns.Keys == {ColProductID, ColUpdatedAt} + DiscountColumns
                  && UpdateMutation(t).value.columns[ColDiscountPercent] == Null
                  && UpdateMutation(t).value.columns[ColDiscountStart] == Null
                  && UpdateMutation(t).value.columns[ColDiscountEnd] == Null
                  && o.plan.value == [UpdateMutation(t).value] + Kept(o.records, toMutation)))
  {
    if lookup.Success? && lookup.value.discount.Some? {
      assert EventType(DiscountRemoved) == "product.discount_removed";
      var s := lookup.value;
      var step := RemoveDiscountStep(s, now);
      var t := step.state;
      assert RemoveExecution(lookup, now, first, marshal, toMutation, failure)
             == CommitOutcome(UpdateMutation(t), t.events, marshal, now, first, toMutation, failure);
      var e := DomainEvent(DiscountRemoved, s.id, now);
      assert t.events == [e] && t.dirty == {FieldDiscount} && t.discount.None?;
      hide Gcd, RemoveExecution, RemoveDiscountStep, UpdateMutation, CommitOutcome;
      DiscountUpdate(t);
      DiscountCommit(t, e, marshal, now, first, toMutation, failure);
    }
  }

  /** The ApplyDiscount/RemoveDiscount interactor over its collaborators;
      parse reads a percentage as decimal text, None when it is not one. */
  class Interactor {
    const repo: ProductRepository
    const outbox: OutboxRepository
    const committer: Committer
    const clock: Clock
    const ids: IdSource
    const marshal: Marshal
    const parse: string -> Option<Rat>

    constructor (repo: ProductRepository, outbox: OutboxRepository, committer: Committer, clock: Clock,
                 ids: IdSource, marshal: Marshal, parse: string -> Option<Rat>)
      ensures this.repo == repo && this.outbox == outbox && this.committer == committer
      ensures this.clock == clock && this.ids == ids && this.marshal == marshal && this.parse == parse
    {
      this.repo := repo;
      this.outbox := outbox;
      this.committer := committer;
      this.clock := clock;
      this.ids := ids;
      this.marshal := marshal;
      this.parse := parse;
    }

    /** Apply: checks the request, sets the discount and commits the change
        with its outbox record. The clock is read only once the product has
        been found and the discount accepted. */
    method Apply(req: ApplyRequest) returns (err: Option<Error>)
      modifies outbox, committer, clock, ids
      ensures
        var o := ApplyExecution(repo.Lookup(req.productId), parse(req.percent), req.start, req.end,
                                old(clock.current), old(ids.issued), marshal, outbox.toMutation,
                                committer.failure);
        && committer.applied == old(committer.applied) + Applied(o)
        && err == o.err
        && outbox.captured == old(outbox.captured) + o.records
        && ids.issued == old(ids.issued) + o.drawn
      ensures
        var readsClock := repo.Lookup(req.productId).Success? && Requested(parse(req.percent), req.start, req.end).Success?;
        clock.current == old(clock.current) + (if readsClock then clock.tick else 0)
    {
      hide Gcd, NewDiscount, Requested, ApplyDiscountStep, CommitOutcome, UpdateMutation;
      var found := repo.FindByID(req.productId);
      if found.Failure? {
        return Some(found.error);
      }
      var product := found.value;
      var percent := parse(req.percent);
      if percent.None? {
        return Some(Domain(InvalidDiscountPercent));
      }
      var discount := NewDiscount(percent, req.start, req.end);
      if discount.Failure? {
        return Some(discount.error);
      }
      var now := clock.Now();
      err := product.ApplyDiscount(Some(discount.value), now);
      if err.Some? {
        return err;
      }
      err := ApplyPlan(repo, product, outbox, ids, committer, marshal, now);
    }

    /** Remove: clears the discount and commits the change with its outbox
        record. The clock is read once the product has been found. */
    method Remove(req: RemoveRequest) returns (err: Option<Error>)
      modifies outbox, committer, clock, ids
      ensures
        var o := RemoveExecution(repo.Lookup(req.productId), old(clock.current), old(ids.issued), marshal,
                                 outbox.toMutation, committer.failure);
        && committer.applied == old(committer.applied) + Applied(o)
        && err == o.err
        && outbox.captured == old(outbox.captured) + o.records
        && ids.issued == old(ids.issued) + o.drawn
      ensures clock.current == old(clock.current) + (if repo.Lookup(req.productId).Success? then clock.tick else 0)
    {
      hide Gcd, RemoveDiscountStep, CommitOutcome, UpdateMutation;
      var found := repo.FindByID(req.productId);
      if found.Failure? {
        return Some(found.error);
      }
      var product := found.value;
      var now := clock.Now();
      err := product.RemoveDiscount(now);
      if err.Some? {
        return err;
      }
      err := ApplyPlan(repo, product, outbox, ids, committer, marshal, now);
    }
  }
}
