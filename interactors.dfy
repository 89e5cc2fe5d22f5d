/** What every command interactor shares: the committer that applies a plan,
    the clock, and the tail of each command, which drains the aggregate's
    events into outbox records and commits the aggregate's own mutation
    followed by the outbox mutations as one plan. */
module Interactors {
  import opened Wrappers
  import opened DomainErrors
  import opened Events
  import opened Mutations
  import opened Outbox
  import opened ProductAggregate
  import opened Repository
  import Rational

  /** PlanApplier, as the test fakes have it: every plan it is handed is
      recorded, and it answers with the same error (or none) each time. */
  class Committer {
    var applied: seq<Plan>
    const failure: Option<Error>

    constructor (failure: Option<Error>)
      ensures applied == [] && this.failure == failure
    {
      applied := [];
      this.failure := failure;
    }

    method Apply(plan: Plan) returns (err: Option<Error>)
      modifies this
      ensures applied == old(applied) + [plan] && err == failure
    {
      applied := applied + [plan];
      err := failure;
    }
  }

  /** Clock: each reading returns the current instant and moves the clock on
      by tick (zero for the fixed clock of the tests). */
  class Clock {
    var current: int
    const tick: nat

    constructor (start: int, tick: nat)
      ensures current == start && this.tick == tick
    {
      current := start;
      this.tick := tick;
    }

    method Now() returns (t: int)
      modifies this
      ensures t == old(current) && current == old(current) + tick
    {
      t := current;
      current := current + tick;
    }
  }

  /** What a command did to the outside world: the plan it handed the
      committer (none when it stopped before committing), the error it
      returned, the outbox records it handed the outbox repository and the
      identifiers it drew. */
  datatype Outcome = Outcome(plan: Option<Plan>, err: Option<Error>, records: seq<OutboxEvent>, drawn: nat)

  /** A command that stopped with err before building anything. */
  function Refused(err: Error, drawn: nat): Outcome
  {
    Outcome(None, Some(err), [], drawn)
  }

  /** The plans the committer received for an outcome: the one plan, or none. */
  function Applied(o: Outcome): (plans: seq<Plan>)
    ensures |plans| <= 1 && (plans == [] <==> o.plan.None?)
  {
    if o.plan.Some? then [o.plan.value] else []
  }

  /** The context an outbox build error is wrapped in. */
  const OutboxContext: string := "build outbox mutations"

  /** The plan: the aggregate's mutation when there is one, then the outbox
      mutations in order. */
  function PlanOf(head: Option<Mutation>, outboxMuts: seq<Mutation>): Plan
  {
    (if head.Some? then [head.value] else []) + outboxMuts
  }

  /** The tail every command shares, for the aggregate mutation head and the
      drained events: a marshal failure is wrapped and nothing is committed;
      otherwise the plan is applied once and the committer's answer is
      returned. */
  function CommitOutcome(head: Option<Mutation>, events: seq<DomainEvent>, marshal: Marshal, now: int,
                         first: nat, toMutation: OutboxEvent -> Option<Mutation>,
                         failure: Option<Error>): Outcome
  {
    var k := Marshalled(events, marshal);
    var records := Records(events[..k], marshal, now, first);
    var built := BuildOutcome(events, marshal, now, first, toMutation);
    if built.Failure? then Outcome(None, Some(Wrapped(OutboxContext, built.error)), records, k)
    else Outcome(Some(PlanOf(head, built.value)), failure, records, k)
  }

  /** The tail of every command: when every event marshals, the committer
      receives exactly one plan, the aggregate's mutation first and then one
      mutation per outbox record the repository turned into one, and its
      error is returned as it is; when one does not, nothing is committed and
      the error names the outbox build. Either way every event before the
      failing one has become a PENDING record. */
  lemma CommitOutcomeRules(head: Option<Mutation>, events: seq<DomainEvent>, marshal: Marshal, now: int,
                           first: nat, toMutation: OutboxEvent -> Option<Mutation>,
                           failure: Option<Error>)
    ensures
      var o := CommitOutcome(head, events, marshal, now, first, toMutation, failure);
      && (o.plan.Some? <==> AllMarshal(events, marshal))
      && (o.plan.Some? ==>
            && o.err == failure
            && o.drawn == |events|
            && o.records == Records(events, marshal, now, first)
            && o.plan.value == PlanOf(head, Kept(o.records, toMutation)))
      && (o.plan.None? ==>
            && o.err.Some? && o.err.value.Wrapped? && o.err.value.context == OutboxContext
            && o.drawn < |events|)
      && |o.records| == o.drawn
      && (forall j :: 0 <= j < o.drawn ==>
            o.records[j].status == StatusPending && o.records[j].eventType == EventType(events[j].kind))
  {
    var k := Marshalled(events, marshal);
    RecordsRules(events[..k], marshal, now, first);
    if k == |events| {
      assert events[..k] == events;
    }
  }

  /** A plan whose outbox repository turns every record into a mutation holds
      the aggregate's mutation and then exactly one mutation per event. */
  lemma PlanSize(head: Option<Mutation>, records: seq<OutboxEvent>, toMutation: OutboxEvent -> Option<Mutation>)
    requires forall r :: r in records ==> MutationOf(toMutation, r).Some?
    ensures |PlanOf(head, Kept(records, toMutation))| == (if head.Some? then 1 else 0) + |records|
  {
    KeptRules(records, toMutation);
  }

  /** plan.Add for each element of items, in order. */
  method AddAll<T>(plan: seq<T>, items: seq<T>) returns (result: seq<T>)
    ensures result == plan + items
  {
    result := plan;
    var i := 0;
    while i < |items|
      invariant 0 <= i <= |items|
      invariant result == plan + items[..i]
    {
      result := result + [items[i]];
      i := i + 1;
      assert items[..i] == items[..i - 1] + [items[i - 1]];
    }
    assert items[..i] == items;
  }

  /** The tail of a command: drains the product's events, builds their outbox
      mutations and, unless that fails, appends them one by one after head and
      applies the plan. */
  method Commit(head: Option<Mutation>, p: Product, outbox: OutboxRepository, ids: IdSource,
                committer: Committer, marshal: Marshal, now: int) returns (err: Option<Error>)
    modifies p, outbox, ids, committer
    ensures p.State() == old(p.State()).(events := [])
    ensures
      var o := CommitOutcome(head, old(p.events), marshal, now, old(ids.issued), outbox.toMutation, committer.failure);
      && committer.applied == old(committer.applied) + Applied(o)
      && err == o.err
      && outbox.captured == old(outbox.captured) + o.records
      && ids.issued == old(ids.issued) + o.drawn
  {
    var events := p.PullDomainEvents();
    var built := BuildMuts(outbox, ids, events, marshal, now);
    if built.Failure? {
      return Some(Wrapped(OutboxContext, built.error));
    }
    var plan := AddAll(if head.Some? then [head.value] else [], built.value);
    err := committer.Apply(plan);
  }

  /** What a command on a loaded product does once its mutator has run: a
      refusal is returned as it is and nothing is committed; otherwise the
      targeted update of the dirty fields, if there is one, and the outbox
      mutations of the raised events are committed as one plan. */
  function PlanOutcome(step: Step, now: int, first: nat, marshal: Marshal,
                       toMutation: OutboxEvent -> Option<Mutation>, failure: Option<Error>): Outcome
  {
    if step.err.Some? then Refused(step.err.value, 0)
    else CommitOutcome(UpdateMutation(step.state), step.state.events, marshal, now, first, toMutation, failure)
  }

  /** applyPlan: the targeted update of the product, then its drained events'
      outbox mutations, applied together. */
  method ApplyPlan(repo: ProductRepository, p: Product, outbox: OutboxRepository, ids: IdSource,
                   committer: Committer, marshal: Marshal, now: int) returns (err: Option<Error>)
    modifies p, outbox, ids, committer
    ensures p.State() == old(p.State()).(events := [])
    ensures
      var o := PlanOutcome(Step(old(p.State()), None), now, old(ids.issued), marshal, outbox.toMutation,
                           committer.failure);
      && committer.applied == old(committer.applied) + Applied(o)
      && err == o.err
      && outbox.captured == old(outbox.captured) + o.records
      && ids.issued == old(ids.issued) + o.drawn
  {
    var head := repo.UpdateMut(p);
    err := Commit(head, p, outbox, ids, committer, marshal, now);
  }
  /** A command that raised no event commits its aggregate mutation, if any,
      alone, draws nothing and returns the committer's answer. */
  lemma NoEventCommit(head: Option<Mutation>, marshal: Marshal, now: int, first: nat,
                      toMutation: OutboxEvent -> Option<Mutation>, failure: Option<Error>)
    ensures CommitOutcome(head, [], marshal, now, first, toMutation, failure)
            == Outcome(Some(PlanOf(head, [])), failure, [], 0)
  {
    CommitOutcomeRules(head, [], marshal, now, first, toMutation, failure);
    BuildOutcomeEmpty(marshal, now, first, toMutation);
  }

  /** A command that raised one event e commits when e marshals: exactly one
      PENDING record of e's type and aggregate, under the next identifier,
      follows the aggregate mutation; otherwise nothing is committed and
      nothing is drawn. */
  lemma SingleEventCommit(head: Option<Mutation>, e: DomainEvent, marshal: Marshal, now: int, first: nat,
                          toMutation: OutboxEvent -> Option<Mutation>, failure: Option<Error>)
    ensures
      var o := CommitOutcome(head, [e], marshal, now, first, toMutation, failure);
      && (o.plan.Some? <==> Encode(marshal, e).Success?)
      && (o.plan.Some? ==>
            && o.err == failure
            && o.drawn == 1 && |o.records| == 1
            && o.records[0].eventType == EventType(e.kind)
            && o.records[0].aggregateId == e.aggregateId
            && o.records[0].eventId == IdAt(first)
            && o.records[0].status == StatusPending
            && o.plan.value == PlanOf(head, Kept(o.records, toMutation)))
      && (o.plan.None? ==> o.err.Some? && o.err.value.Wrapped? && o.drawn == 0 && o.records == [])
  {
    CommitOutcomeRules(head, [e], marshal, now, first, toMutation, failure);
    hide CommitOutcome;
    var o := CommitOutcome(head, [e], marshal, now, first, toMutation, failure);
    assert AllMarshal([e], marshal) <==> Encode(marshal, e).Success? by {
      assert [e][0] == e;
    }
    if o.plan.Some? {
      RecordsRules([e], marshal, now, first);
    }
  }

  /** The commit of a state with tracked dirty fields and one event: the
      targeted update of exactly those columns, then the event's record. */
  lemma OneEventCommit(t: ProductState, e: DomainEvent, marshal: Marshal, now: int, first: nat,
                       toMutation: OutboxEvent -> Option<Mutation>, failure: Option<Error>)
    requires t.events == [e] && t.dirty * TrackedFields != {}
    ensures
      var o := CommitOutcome(UpdateMutation(t), t.events, marshal, now, first, toMutation, failure);
      && (o.plan.Some? <==> Encode(marshal, e).Success?)
      && (o.plan.Some? ==>
            && o.err == failure && o.drawn == 1 && |o.records| == 1
            && o.records[0].eventType == EventType(e.kind)
            && o.records[0].aggregateId == e.aggregateId
            && UpdateMutation(t).Some?
            && UpdateMutation(t).value.columns.Keys == {ColProductID, ColUpdatedAt} + ColumnsOf(t.dirty)
            && o.plan.value == [UpdateMutation(t).value] + Kept(o.records, toMutation))
  {
    UpdateMutationRules(t);
    hide Rational.Gcd, UpdateMutation, ColumnsOf;
    SingleEventCommit(UpdateMutation(t), e, marshal, now, first, toMutation, failure);
  }
}
