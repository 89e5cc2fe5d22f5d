/** The UpdateProduct command: the stored product is loaded, the clock read,
    the details updated, and the targeted update of the dirty fields committed
    with the outbox record of the ProductUpdated event, if one was raised. */
module UpdateProduct {
  import opened Wrappers
  import opened Rational
  import opened DomainErrors
  import opened Events
  import opened Mutations
  import opened Outbox
  import opened Whitespace
  import opened ProductAggregate
  import opened Repository
  import opened Interactors

  datatype Request = Request(productId: string, name: string, description: string, category: string)

  /** What Execute does with req when FindByID answers lookup, the clock reads
      now and first is the next identifier to be drawn. */
  function Execution(lookup: Result<ProductState, Error>, req: Request, now: int, first: nat, marshal: Marshal,
                     toMutation: OutboxEvent -> Option<Mutation>, failure: Option<Error>): Outcome
  {
    if lookup.Failure? then Refused(lookup.error, 0)
    else PlanOutcome(UpdateDetailsStep(lookup.value, req.name, req.description, req.category, now),
                     now, first, marshal, toMutation, failure)
  }

  /** The rules of UpdateProduct for a product loaded clean (as FindByID
      loads every product): FindByID's error wins over anything wrong with the
      request; a refusal of UpdateDetails is returned and nothing committed;
      when no detail changes an empty plan is still committed; when one does,
      the plan is the targeted update of exactly the changed columns and
      updated_at, followed by the mutation of one "product.updated" record. */
  lemma ExecutionRules(lookup: Result<ProductState, Error>, req: Request, now: int, first: nat, marshal: Marshal,
                       toMutation: OutboxEvent -> Option<Mutation>, failure: Option<Error>)
    requires lookup.Success? ==> lookup.value.dirty == {} && lookup.value.events == []
    ensures lookup.Failure? ==> Execution(lookup, req, now, first, marshal, toMutation, failure) == Refused(lookup.error, 0)
    ensures lookup.Success? ==>
      var s := lookup.value;
      var o := Execution(lookup, req, now, first, marshal, toMutation, failure);
      var step := UpdateDetailsStep(s, req.name, req.description, req.category, now);
      var changed := ChangedFields(s, TrimSpace(req.name), TrimSpace(req.description), TrimSpace(req.category));
      && (step.err.Some? ==> o == Refused(step.err.value, 0))
      && (step.err.None? && changed == {} ==> o == Outcome(Some([]), failure, [], 0))
      && (step.err.None? && changed != {} ==>
            && (o.plan.Some? <==> Encode(marshal, DomainEvent(ProductUpdated, s.id, now)).Success?)
            && (o.plan.Some? ==>
                  && o.err == failure && o.drawn == 1 && |o.records| == 1
                  && o.records[0].eventType == "product.updated"
                  && o.records[0].aggregateId == s.id
                  && UpdateMutation(step.state).Some?
                  && UpdateMutation(step.state).value.columns.Keys
                     == {ColProductID, ColUpdatedAt} + ColumnsOf(changed)
                  && o.plan.value == [UpdateMutation(step.state).value] + Kept(o.records, toMutation)))
  {
    if lookup.Success? {
      var s := lookup.value;
      var step := UpdateDetailsStep(s, req.name, req.description, req.category, now);
      UpdateDetailsRules(s, req.name, req.description, req.category, now);
      if step.err.None? {
        UpdatedRules(s, req, now, first, marshal, toMutation, failure);
      }
    }
  }

  /** The accepted case of ExecutionRules. */
  lemma UpdatedRules(s: ProductState, req: Request, now: int, first: nat, marshal: Marshal,
                     toMutation: OutboxEvent -> Option<Mutation>, failure: Option<Error>)
    requires s.dirty == {} && s.events == []
    requires UpdateDetailsStep(s, req.name, req.description, req.category, now).err.None?
    ensures
      var o := Execution(Success(s), req, now, first, marshal, toMutation, failure);
      var step := UpdateDetailsStep(s, req.name, req.description, req.category, now);
      var changed := ChangedFields(s, TrimSpace(req.name), TrimSpace(req.description), TrimSpace(req.category));
      && (changed == {} ==> o == Outcome(Some([]), failure, [], 0))
      && (changed != {} ==>
            && (o.plan.Some? <==> Encode(marshal, DomainEvent(ProductUpdated, s.id, now)).Success?)
            && (o.plan.Some? ==>
                  && o.err == failure && o.drawn == 1 && |o.records| == 1
                  && o.records[0].eventType == "product.updated"
                  && o.records[0].aggregateId == s.id
                  && UpdateMutation(step.state).Some?
                  && UpdateMutation(step.state).value.columns.Keys
                     == {ColProductID, ColUpdatedAt} + ColumnsOf(changed)
                  && o.plan.value == [UpdateMutation(step.state).value] + Kept(o.records, toMutation)))
  {
    assert EventType(ProductUpdated) == "product.updated";
    hide Gcd, UpdateDetailsStep, UpdateMutation, TrimSpace, ChangedFields, Execution, CommitOutcome, EventType;
    var t := UpdateDetailsStep(s, req.name, req.description, req.category, now).state;
    var changed := ChangedFields(s, TrimSpace(req.name), TrimSpace(req.description), TrimSpace(req.category));
    var e := DomainEvent(ProductUpdated, s.id, now);
    StepShape(s, req, now);
    StepCommitted(s, req, now, first, marshal, toMutation, failure);
    if changed == {} {
      UnchangedCommit(t, marshal, now, first, toMutation, failure);
    } else {
      assert changed * TrackedFields != {} by {
        var f :| f in changed;
        assert f in TrackedFields;
      }
      OneEventCommit(t, e, marshal, now, first, toMutation, failure);
    }
  }

  /** An accepted update of a clean product marks exactly the changed fields
      dirty and raises one ProductUpdated event when there are any. */
  lemma StepShape(s: ProductState, req: Request, now: int)
    requires s.dirty == {} && s.events == []
    requires UpdateDetailsStep(s, req.name, req.description, req.category, now).err.None?
    ensures
      var t := UpdateDetailsStep(s, req.name, req.description, req.category, now).state;
      var changed := ChangedFields(s, TrimSpace(req.name), TrimSpace(req.description), TrimSpace(req.category));
      && t.dirty == changed
      && t.events == (if changed == {} then [] else [DomainEvent(ProductUpdated, s.id, now)])
  {
    hide Gcd, TrimSpace, ChangedFields, UpdateDetailsStep;
    UpdateDetailsRules(s, req.name, req.description, req.category, now);
  }

  /** A product with nothing to write commits an empty plan. */
  lemma UnchangedCommit(t: ProductState, marshal: Marshal, now: int, first: nat,
                        toMutation: OutboxEvent -> Option<Mutation>, failure: Option<Error>)
    requires t.dirty == {} && t.events == []
    ensures CommitOutcome(UpdateMutation(t), t.events, marshal, now, first, toMutation, failure)
            == Outcome(Some([]), failure, [], 0)
  {
    UpdateMutationRules(t);
    assert PlanOf(None, []) == [];
    hide Gcd, UpdateMutation, CommitOutcome;
    NoEventCommit(UpdateMutation(t), marshal, now, first, toMutation, failure);
  }

  /** An accepted update commits its step's state and events. */
  lemma StepCommitted(s: ProductState, req: Request, now: int, first: nat, marshal: Marshal,
                      toMutation: OutboxEvent -> Option<Mutation>, failure: Option<Error>)
    requires UpdateDetailsStep(s, req.name, req.description, req.category, now).err.None?
    ensures
      var t := UpdateDetailsStep(s, req.name, req.description, req.category, now).state;
      Execution(Success(s), req, now, first, marshal, toMutation, failure)
      == CommitOutcome(UpdateMutation(t), t.events, marshal, now, first, toMutation, failure)
  {
    hide UpdateDetailsStep, CommitOutcome, UpdateMutation;
  }

  /** The UpdateProduct interactor over its collaborators. */
  class Interactor {
    const repo: ProductRepository
    const outbox: OutboxRepository
    const committer: Committer
    const clock: Clock
    const ids: IdSource
    const marshal: Marshal

    constructor (repo: ProductRepository, outbox: OutboxRepository, committer: Committer, clock: Clock,
                 ids: IdSource, marshal: Marshal)
      ensures this.repo == repo && this.outbox == outbox && this.committer == committer
      ensures this.clock == clock && this.ids == ids && this.marshal == marshal
    {
      this.repo := repo;
      this.outbox := outbox;
      this.committer := committer;
      this.clock := clock;
      this.ids := ids;
      this.marshal := marshal;
    }

    /** Execute: loads the product, updates its details and commits the
        change with its outbox record. The clock is read once the product
        has been found. */
    method Execute(req: Request) returns (err: Option<Error>)
      modifies outbox, committer, clock, ids
      ensures
        var o := Execution(repo.Lookup(req.productId), req, old(clock.current), old(ids.issued), marshal,
                           outbox.toMutation, committer.failure);
        && committer.applied == old(committer.applied) + Applied(o)
        && err == o.err
        && outbox.captured == old(outbox.captured) + o.records
        && ids.issued == old(ids.issued) + o.drawn
      ensures clock.current == old(clock.current) + (if repo.Lookup(req.productId).Success? then clock.tick else 0)
    {
      hide Gcd, TrimSpace, ChangedFields, UpdateDetailsStep, CommitOutcome, UpdateMutation;
      var found := repo.FindByID(req.productId);
      if found.Failure? {
        return Some(found.error);
      }
      var product := found.value;
      var now := clock.Now();
      err := product.UpdateDetails(req.name, req.description, req.category, now);
      if err.Some? {
        return err;
      }
      err := ApplyPlan(repo, product, outbox, ids, committer, marshal, now);
    }
  }
}
