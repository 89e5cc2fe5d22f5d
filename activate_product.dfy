/** The Activate and Deactivate commands: the stored product is loaded, the
    clock read, the status moved, and the targeted update of the status
    committed with the outbox record of the transition's event, if one was
    raised. */
module ActivateProduct {
  import opened Wrappers
  import opened Rational
  import opened DomainErrors
  import opened Events
  import opened Mutations
  import opened Outbox
  import opened ProductAggregate
  import opened Repository
  import opened Interactors

  datatype Request = Request(productId: string)

  /** The event a transition towards target raises. */
  function KindOf(target: Status): EventKind
  {
    if target == Active then ProductActivated else ProductDeactivated
  }

  /** The transition a command makes towards target: Activate towards ACTIVE,
      Deactivate towards INACTIVE. An archived product refuses; one already
      in the target status is left as it is; any other takes the target
      status, marked dirty, and raises the transition's event. */
  function Transition(s: ProductState, target: Status, now: int): (r: Step)
    requires target == Active || target == Inactive
    ensures s.status == Archived ==> r == Fail(s, ProductArchived)
    ensures s.status == target ==> r == Step(s, None)
    ensures s.status != Archived && s.status != target ==>
      && r.err.None? && r.state.status == target
      && r.state.dirty == s.dirty + {FieldStatus} && r.state.updatedAt == now
      && r.state.events == s.events + [DomainEvent(KindOf(target), s.id, now)]
      && r.state.id == s.id
      && r.state.(status := s.status, dirty := s.dirty, updatedAt := s.updatedAt, events := s.events) == s
  {
    if target == Active then ActivateStep(s, now) else DeactivateStep(s, now)
  }

  /** What the command towards target does when FindByID answers lookup, the
      clock reads now and first is the next identifier to be drawn. */
  function Execution(lookup: Result<ProductState, Error>, target: Status, now: int, first: nat, marshal: Marshal,
                     toMutation: OutboxEvent -> Option<Mutation>, failure: Option<Error>): Outcome
    requires target == Active || target == Inactive
  {
    if lookup.Failure? then Refused(lookup.error, 0)
    else PlanOutcome(Transition(lookup.value, target, now), now, first, marshal, toMutation, failure)
  }

  /** The targeted update of a product whose only dirty field is its status
      writes product_id, status and updated_at, the status as its name. */
  lemma StatusUpdate(t: ProductState)
    requires t.dirty == {FieldStatus}
    ensures UpdateMutation(t).Some?
    ensures UpdateMutation(t).value.columns.Keys == {ColProductID, ColUpdatedAt, ColStatus}
    ensures UpdateMutation(t).value.columns[ColStatus] == Text(StatusString(t.status))
  {
    UpdateMutationRules(t);
    assert t.dirty * TrackedFields != {} by {
      assert FieldStatus in TrackedFields;
    }
    assert ColumnsOf(t.dirty) == {ColStatus};
    assert UpdateColumns(t)[ColStatus] == Text(StatusString(t.status));
  }

  /** The rules of Activate (target ACTIVE) and Deactivate (target INACTIVE)
      for a product loaded clean, as FindByID loads every product:
      FindByID's error wins; an archived product refuses with ErrProductArchived
      and nothing is committed; a product already in the target status
      commits an empty plan; otherwise the plan is the targeted update of
      the status, followed by the mutation of one record of the
      transition's event. */
  lemma ExecutionRules(lookup: Result<ProductState, Error>, target: Status, now: int, first: nat,
                       marshal: Marshal, toMutation: OutboxEvent -> Option<Mutation>, failure: Option<Error>)
    requires target == Active || target == Inactive
    requires lookup.Success? ==> lookup.value.dirty == {} && lookup.value.events == []
    ensures lookup.Failure? ==>
      Execution(lookup, target, now, first, marshal, toMutation, failure) == Refused(lookup.error, 0)
    ensures lookup.Success? ==>
      var s := lookup.value;
      var o := Execution(lookup, target, now, first, marshal, toMutation, failure);
      var t := Transition(s, target, now).state;
      && (s.status == Archived ==> o == Refused(Domain(ProductArchived), 0))
      && (s.status == target ==> o == Outcome(Some([]), failure, [], 0))
      && (s.status != Archived && s.status != target ==>
            && (o.plan.Some? <==> Encode(marshal, DomainEvent(KindOf(target), s.id, now)).Success?)
            && (o.plan.Some? ==>
                  && o.err == failure && o.drawn == 1 && |o.records| == 1
                  && o.records[0].eventType == EventType(KindOf(target))
                  && o.records[0].aggregateId == s.id
                  && UpdateMutation(t).Some?
                  && UpdateMutation(t).value.columns.Keys == {ColProductID, ColUpdatedAt, ColStatus}
                  && UpdateMutation(t).value.columns[ColStatus] == Text(StatusString(target))
                  && o.plan.value == [UpdateMutation(t).value] + Kept(o.records, toMutation)))
  {
    if lookup.Success? && lookup.value.status != Archived {
      MovedRules(lookup.value, target, now, first, marshal, toMutation, failure);
    }
  }

  /** The case of ExecutionRules where the product is not archived. */
  lemma MovedRules(s: ProductState, target: Status, now: int, first: nat, marshal: Marshal,
                   toMutation: OutboxEvent -> Option<Mutation>, failure: Option<Error>)
    requires (target == Active || target == Inactive) && s.status != Archived
    requires s.dirty == {} && s.events == []
    ensures
      var o := Execution(Success(s), target, now, first, marshal, toMutation, failure);
      var t := Transition(s, target, now).state;
      && (s.status == target ==> o == Outcome(Some([]), failure, [], 0))
      && (s.status != target ==>
            && (o.plan.Some? <==> Encode(marshal, DomainEvent(KindOf(target), s.id, now)).Success?)
            && (o.plan.Some? ==>
                  && o.err == failure && o.drawn == 1 && |o.records| == 1
                  && o.records[0].eventType == EventType(KindOf(target))
                  && o.records[0].aggregateId == s.id
                  && UpdateMutation(t).Some?
                  && UpdateMutation(t).value.columns.Keys == {ColProductID, ColUpdatedAt, ColStatus}
                  && UpdateMutation(t).value.columns[ColStatus] == Text(StatusString(target))
                  && o.plan.value == [UpdateMutation(t).value] + Kept(o.records, toMutation)))
  {
    var step := Transition(s, target, now);
    var t := step.state;
    assert Execution(Success(s), target, now, first, marshal, toMutation, failure)
           == CommitOutcome(UpdateMutation(t), t.events, marshal, now, first, toMutation, failure);
    hide Gcd, Execution, Transition;
    if s.status == target {
      assert t.dirty == {} && t.events == [];
      UpdateMutationRules(t);
      assert UpdateMutation(t) == None;
      hide UpdateMutation, CommitOutcome;
      NoEventCommit(None, marshal, now, first, toMutation, failure);
      assert PlanOf(None, []) == [];
    } else {
      var e := DomainEvent(KindOf(target), s.id, now);
      assert t.events == [e];
      StatusUpdate(t);
      hide CommitOutcome;
      OneEventCommit(t, e, marshal, now, first, toMutation, failure);
    }
  }

  /** The Activate/Deactivate interactor over its collaborators. */
  class Interactor {
    const repo: ProductRepository
    const outbox: OutboxRepository
    const committer: Committer
    const clock: Clock
    const ids: IdSource
    const marshal: Marshal

    constructor (repo: ProductRepository, outbox: OutboxRepository, committer: Committer, clock: Clock,
                 ids: IdSource, marshal: Marshal)
      ensures this.repo == repo && this.outbox == outbox && this.committer == committer
      ensures this.clock == clock && this.ids == ids && this.marshal == marshal
    {
      this.repo := repo;
      this.outbox := outbox;
      this.committer := committer;
      this.clock := clock;
      this.ids := ids;
      this.marshal := marshal;
    }

    /** Activate: moves the stored product to ACTIVE and commits the change
        with its outbox record. The clock is read once the product has been
        found. */
    method Activate(req: Request) returns (err: Option<Error>)
      modifies outbox, committer, clock, ids
      ensures
        var o := Execution(repo.Lookup(req.productId), Active, old(clock.current), old(ids.issued), marshal,
                           outbox.toMutation, committer.failure);
        && committer.applied == old(committer.applied) + Applied(o)
        && err == o.err
        && outbox.captured == old(outbox.captured) + o.records
        && ids.issued == old(ids.issued) + o.drawn
      ensures clock.current == old(clock.current) + (if repo.Lookup(req.productId).Success? then clock.tick else 0)
    {
      hide Gcd, CommitOutcome, UpdateMutation;
      var found := repo.FindByID(req.productId);
      if found.Failure? {
        return Some(found.error);
      }
      var product := found.value;
      var now := clock.Now();
      err := product.Activate(now);
      if err.Some? {
        return err;
      }
      err := ApplyPlan(repo, product, outbox, ids, committer, marshal, now);
    }

    /** Deactivate: moves the stored product to INACTIVE and commits the
        change with its outbox record. The clock is read once the product
        has been found. */
    method Deactivate(req: Request) returns (err: Option<Error>)
      modifies outbox, committer, clock, ids
      ensures
        var o := Execution(repo.Lookup(req.productId), Inactive, old(clock.current), old(ids.issued), marshal,
                           outbox.toMutation, committer.failure);
        && committer.applied == old(committer.applied) + Applied(o)
        && err == o.err
        && outbox.captured == old(outbox.captured) + o.records
        && ids.issued == old(ids.issued) + o.drawn
      ensures clock.current == old(clock.current) + (if repo.Lookup(req.productId).Success? then clock.tick else 0)
    {
      hide Gcd, CommitOutcome, UpdateMutation;
      var found := repo.FindByID(req.productId);
      if found.Failure? {
        return Some(found.error);
      }
      var product := found.value;
      var now := clock.Now();
      err := product.Deactivate(now);
      if err.Some? {
        return err;
      }
      err := ApplyPlan(repo, product, outbox, ids, committer, marshal, now);
    }
  }
}
