/** The transactional outbox: BuildMuts turns the events an aggregate raised
    into one PENDING outbox record each, in order, and collects the insert
    mutations the outbox repository makes of them, to be committed together
    with the aggregate's own mutation. */
module Outbox {
  import opened Wrappers
  import opened Decimal
  import opened DomainErrors
  import opened Events
  import opened Mutations
  import opened Instants

  /** contracts.OutboxEvent. */
  datatype OutboxEvent = OutboxEvent(
    eventId: string,
    eventType: string,
    aggregateId: string,
    payload: string,
    status: string,
    createdAtUtc: int)

  /** The object serialised into the payload: aggregate_id, event_type and
      occurred_at. */
  datatype EventPayload = EventPayload(aggregateId: string, eventType: string, occurredAt: int)

  /** json.Marshal of the payload object, which may fail with an error. */
  type Marshal = EventPayload -> Result<string, Error>

  const StatusPending: string := "PENDING"

  function PayloadOf(e: DomainEvent): EventPayload
  {
    EventPayload(e.aggregateId, EventType(e.kind), e.occurredAt)
  }

  /** The marshalled payload of an event. */
  function Encode(marshal: Marshal, e: DomainEvent): Result<string, Error>
  {
    marshal(PayloadOf(e))
  }

  // ---------------------------------------------------------------------------
  // Identifiers

  /** The k-th identifier uuid.NewString hands out. */
  function IdAt(k: nat): string
  {
    "uuid-" + NatToString(k)
  }

  /** Identifiers handed out at different times differ. */
  lemma IdAtInjective(j: nat, k: nat)
    requires IdAt(j) == IdAt(k)
    ensures j == k
  {
    assert IdAt(j)[5..] == NatToString(j);
    assert IdAt(k)[5..] == NatToString(k);
    NatToStringInjective(j, k);
  }

  lemma IdAtDistinct(j: nat, k: nat)
    requires j != k
    ensures IdAt(j) != IdAt(k)
  {
    if IdAt(j) == IdAt(k) {
      IdAtInjective(j, k);
    }
  }

  /** The supply of fresh identifiers behind uuid.NewString. */
  class IdSource {
    var issued: nat

    constructor ()
      ensures issued == 0
    {
      issued := 0;
    }

    method Next() returns (id: string)
      modifies this
      ensures id == IdAt(old(issued)) && issued == old(issued) + 1
    {
      id := IdAt(issued);
      issued := issued + 1;
    }
  }

  // ---------------------------------------------------------------------------
  // The outbox repository

  /** The mutation the outbox repository makes of a record, if any. */
  function MutationOf(toMutation: OutboxEvent -> Option<Mutation>, e: OutboxEvent): Option<Mutation>
  {
    toMutation(e)
  }

  /** OutboxRepository: every record it is given is captured, and the
      mutation it returns (none, for the test fakes) is toMutation's. */
  class OutboxRepository {
    var captured: seq<OutboxEvent>
    const toMutation: OutboxEvent -> Option<Mutation>

    constructor (toMutation: OutboxEvent -> Option<Mutation>)
      ensures captured == [] && this.toMutation == toMutation
    {
      captured := [];
      this.toMutation := toMutation;
    }

    method InsertMut(e: OutboxEvent) returns (m: Option<Mutation>)
      modifies this
      ensures captured == old(captured) + [e] && m == MutationOf(toMutation, e)
    {
      captured := captured + [e];
      m := MutationOf(toMutation, e);
    }
  }

  // ---------------------------------------------------------------------------
  // What BuildMuts does

  /** How many events marshal before the first one that fails (all of them
      when none fails). */
  function Marshalled(events: seq<DomainEvent>, marshal: Marshal): (k: nat)
    ensures k <= |events|
    ensures forall j :: 0 <= j < k ==> Encode(marshal, events[j]).Success?
    ensures k < |events| ==> Encode(marshal, events[k]).Failure?
    ensures AllMarshal(events[..k], marshal)
  {
    if events == [] || Encode(marshal, events[0]).Failure? then 0
    else 1 + Marshalled(events[1..], marshal)
  }

  /** Marshalled is the index of the first failure. */
  lemma MarshalledIsFirstFailure(events: seq<DomainEvent>, marshal: Marshal, i: nat)
    requires i <= |events|
    requires forall j :: 0 <= j < i ==> Encode(marshal, events[j]).Success?
    requires i < |events| ==> Encode(marshal, events[i]).Failure?
    ensures Marshalled(events, marshal) == i
  {
  }

  /** The record written for one event. */
  function RecordOf(e: DomainEvent, payload: string, id: string, now: int): OutboxEvent
  {
    OutboxEvent(id, EventType(e.kind), e.aggregateId, payload, StatusPending, Unix(now))
  }

  predicate AllMarshal(events: seq<DomainEvent>, marshal: Marshal)
  {
    forall j :: 0 <= j < |events| ==> Encode(marshal, events[j]).Success?
  }

  /** The records of events that all marshal, the j-th taking the identifier
      handed out j draws after first. */
  function Records(events: seq<DomainEvent>, marshal: Marshal, now: int, first: nat): (rs: seq<OutboxEvent>)
    requires AllMarshal(events, marshal)
  {
    seq(|events|, j requires 0 <= j < |events| =>
      RecordOf(events[j], Encode(marshal, events[j]).value, IdAt(first + j), now))
  }

  /** One record per event, in order: the event's type and aggregate, its
      payload, status PENDING, the call's instant in Unix seconds, and an
      identifier no other record of the call shares. */
  lemma RecordsRules(events: seq<DomainEvent>, marshal: Marshal, now: int, first: nat)
    requires AllMarshal(events, marshal)
    ensures
      var rs := Records(events, marshal, now, first);
      && |rs| == |events|
      && (forall j :: 0 <= j < |rs| ==>
            && rs[j].eventId == IdAt(first + j)
            && rs[j].eventType == EventType(events[j].kind)
            && rs[j].aggregateId == events[j].aggregateId
            && rs[j].payload == Encode(marshal, events[j]).value
            && rs[j].status == StatusPending
            && rs[j].createdAtUtc == Unix(now))
      && (forall i, j :: 0 <= i < j < |rs| ==> rs[i].eventId != rs[j].eventId)
  {
    RecordIdsDistinct(events, marshal, now, first);
  }

  /** No two records of one call share an identifier. */
  lemma RecordIdsDistinct(events: seq<DomainEvent>, marshal: Marshal, now: int, first: nat)
    requires AllMarshal(events, marshal)
    ensures
      var rs := Records(events, marshal, now, first);
      forall i, j :: 0 <= i < j < |rs| ==> rs[i].eventId != rs[j].eventId
  {
    var rs := Records(events, marshal, now, first);
    forall i, j | 0 <= i < j < |rs|
      ensures rs[i].eventId != rs[j].eventId
    {
      IdAtDistinct(first + i, first + j);
    }
  }

  /** The mutations the repository returned, in order, the absent ones
      dropped. */
  function Kept(records: seq<OutboxEvent>, toMutation: OutboxEvent -> Option<Mutation>): (ms: seq<Mutation>)
    ensures |ms| <= |records|
  {
    if records == [] then []
    else
      var last := MutationOf(toMutation, records[|records| - 1]);
      Kept(records[..|records| - 1], toMutation) + (if last.Some? then [last.value] else [])
  }

  /** One more record keeps the mutation the repository returns for it, if
      any, after the others. */
  lemma KeptSnoc(records: seq<OutboxEvent>, r: OutboxEvent, toMutation: OutboxEvent -> Option<Mutation>)
    ensures Kept(records + [r], toMutation)
            == Kept(records, toMutation) + (if MutationOf(toMutation, r).Some? then [MutationOf(toMutation, r).value] else [])
  {
    assert (records + [r])[..|records|] == records;
  }

  /** Every kept mutation came from a record. */
  lemma {:induction false} KeptFromRecords(records: seq<OutboxEvent>, toMutation: OutboxEvent -> Option<Mutation>)
    ensures forall m :: m in Kept(records, toMutation) ==>
              exists r :: r in records && MutationOf(toMutation, r) == Some(m)
  {
    if records != [] {
      var init, r := records[..|records| - 1], records[|records| - 1];
      assert records == init + [r];
      KeptSnoc(init, r, toMutation);
      KeptFromRecords(init, toMutation);
      hide Kept;
      assert forall x :: x in init ==> x in records;
    }
  }

  /** When the repository returns a mutation for every record, all of them
      are kept, in order. */
  lemma {:induction false} KeptAll(records: seq<OutboxEvent>, toMutation: OutboxEvent -> Option<Mutation>)
    requires forall r :: r in records ==> MutationOf(toMutation, r).Some?
    ensures |Kept(records, toMutation)| == |records|
    ensures forall j :: 0 <= j < |records| ==> Kept(records, toMutation)[j] == MutationOf(toMutation, records[j]).value
  {
    if records != [] {
      var init, r := records[..|records| - 1], records[|records| - 1];
      assert records == init + [r];
      KeptSnoc(init, r, toMutation);
      KeptAll(init, toMutation);
      hide Kept;
      forall j | 0 <= j < |records|
        ensures Kept(records, toMutation)[j] == MutationOf(toMutation, records[j]).value
      {
        if j < |init| {
          assert records[j] == init[j];
        }
      }
    }
  }

  /** When the repository returns no mutation at all, nothing is kept. */
  lemma {:induction false} KeptNone(records: seq<OutboxEvent>, toMutation: OutboxEvent -> Option<Mutation>)
    requires forall r :: r in records ==> MutationOf(toMutation, r).None?
    ensures Kept(records, toMutation) == []
  {
    if records != [] {
      var init, r := records[..|records| - 1], records[|records| - 1];
      assert records == init + [r];
      KeptSnoc(init, r, toMutation);
      KeptNone(init, toMutation);
    }
  }

  /** Every kept mutation came from a record; when the repository returns a
      mutation for every record all of them are kept, in order, and when it
      returns none (as the test fakes do) nothing is. */
  lemma KeptRules(records: seq<OutboxEvent>, toMutation: OutboxEvent -> Option<Mutation>)
    ensures forall m :: m in Kept(records, toMutation) ==>
              exists r :: r in records && MutationOf(toMutation, r) == Some(m)
    ensures (forall r :: r in records ==> MutationOf(toMutation, r).Some?) ==>
              |Kept(records, toMutation)| == |records|
              && forall j :: 0 <= j < |records| ==> Kept(records, toMutation)[j] == MutationOf(toMutation, records[j]).value
    ensures (forall r :: r in records ==> MutationOf(toMutation, r).None?) ==> Kept(records, toMutation) == []
  {
    KeptFromRecords(records, toMutation);
    if forall r :: r in records ==> MutationOf(toMutation, r).Some? {
      KeptAll(records, toMutation);
    }
    if forall r :: r in records ==> MutationOf(toMutation, r).None? {
      KeptNone(records, toMutation);
    }
  }

  /** The context BuildMuts wraps a marshal error in: the event type quoted. */
  function MarshalContext(eventType: string): string
  {
    "marshal outbox event \"" + eventType + "\""
  }

  /** What BuildMuts returns: the first marshal error, wrapped with the event
      type, or the kept mutations of all the records. */
  function BuildOutcome(events: seq<DomainEvent>, marshal: Marshal, now: int, first: nat,
                        toMutation: OutboxEvent -> Option<Mutation>): Result<seq<Mutation>, Error>
  {
    var k := Marshalled(events, marshal);
    if k < |events| then
      Failure(Wrapped(MarshalContext(EventType(events[k].kind)), Encode(marshal, events[k]).error))
    else
      Success(Kept(Records(events, marshal, now, first), toMutation))
  }

  /** No events: no mutations and no error. */
  lemma BuildOutcomeEmpty(marshal: Marshal, now: int, first: nat, toMutation: OutboxEvent -> Option<Mutation>)
    ensures BuildOutcome([], marshal, now, first, toMutation) == Success([])
    ensures Records([], marshal, now, first) == []
  {
  }

  /** The outcome once the loop has stopped at event i, either because i
      failed to marshal or because every event did, with recs the records
      handed over so far. */
  lemma OutcomeAt(events: seq<DomainEvent>, marshal: Marshal, now: int, first: nat,
                  toMutation: OutboxEvent -> Option<Mutation>, i: nat, recs: seq<OutboxEvent>)
    requires i <= |events|
    requires forall j :: 0 <= j < i ==> Encode(marshal, events[j]).Success?
    requires i < |events| ==> Encode(marshal, events[i]).Failure?
    requires |recs| == i
    requires forall j :: 0 <= j < i ==>
               recs[j] == RecordOf(events[j], Encode(marshal, events[j]).value, IdAt(first + j), now)
    ensures Marshalled(events, marshal) == i
    ensures recs == Records(events[..i], marshal, now, first)
    ensures i < |events| ==>
              BuildOutcome(events, marshal, now, first, toMutation)
              == Failure(Wrapped(MarshalContext(EventType(events[i].kind)), Encode(marshal, events[i]).error))
    ensures i == |events| ==> BuildOutcome(events, marshal, now, first, toMutation) == Success(Kept(recs, toMutation))
  {
    var done := events[..i];
    assert forall j :: 0 <= j < i ==> done[j] == events[j];
    MarshalledIsFirstFailure(events, marshal, i);
    var rs := Records(done, marshal, now, first);
    assert forall j :: 0 <= j < i ==> rs[j] == recs[j];
    assert rs == recs;
    assert i == |events| ==> done == events;
  }

  /** One turn of the loop: a fresh identifier, the event's record handed to
      the repository, and the mutation the repository returned. */
  method Emit(repo: OutboxRepository, ids: IdSource, e: DomainEvent, payload: string, now: int)
    returns (m: Option<Mutation>)
    modifies repo, ids
    ensures
      var rec := RecordOf(e, payload, IdAt(old(ids.issued)), now);
      && repo.captured == old(repo.captured) + [rec]
      && ids.issued == old(ids.issued) + 1
      && m == MutationOf(repo.toMutation, rec)
  {
    var id := ids.Next();
    m := repo.InsertMut(RecordOf(e, payload, id, now));
  }

  /** The first stop events all marshal, and recs are their records, the
      j-th with the j-th identifier drawn after first. */
  ghost predicate Handed(events: seq<DomainEvent>, marshal: Marshal, now: int, first: nat,
                         stop: nat, recs: seq<OutboxEvent>)
  {
    && stop <= |events|
    && |recs| == stop
    && (forall j :: 0 <= j < stop ==> Encode(marshal, events[j]).Success?)
    && (forall j :: 0 <= j < stop ==>
          recs[j] == RecordOf(events[j], Encode(marshal, events[j]).value, IdAt(first + j), now))
  }

  /** One more event that marshals is one more record handed over. */
  lemma HandedStep(events: seq<DomainEvent>, marshal: Marshal, now: int, first: nat,
                   stop: nat, recs: seq<OutboxEvent>)
    requires Handed(events, marshal, now, first, stop, recs)
    requires stop < |events| && Encode(marshal, events[stop]).Success?
    ensures Handed(events, marshal, now, first, stop + 1,
                   recs + [RecordOf(events[stop], Encode(marshal, events[stop]).value, IdAt(first + stop), now)])
  {
  }

  /** The loop of BuildMuts: events are marshalled and handed over one at a
      time until one fails to marshal (stop is its index) or none is left
      (stop is the number of events). */
  method EmitAll(repo: OutboxRepository, ids: IdSource, events: seq<DomainEvent>, marshal: Marshal, now: int)
    returns (muts: seq<Mutation>, stop: nat, ghost recs: seq<OutboxEvent>)
    modifies repo, ids
    ensures Handed(events, marshal, now, old(ids.issued), stop, recs)
    ensures stop < |events| ==> Encode(marshal, events[stop]).Failure?
    ensures ids.issued == old(ids.issued) + stop
    ensures repo.captured == old(repo.captured) + recs
    ensures muts == Kept(recs, repo.toMutation)
  {
    var first := ids.issued;
    muts := [];
    recs := [];
    stop := 0;
    while stop < |events|
      invariant Handed(events, marshal, now, first, stop, recs)
      invariant ids.issued == first + stop
      invariant repo.captured == old(repo.captured) + recs
      invariant muts == Kept(recs, repo.toMutation)
    {
      var payload := Encode(marshal, events[stop]);
      if payload.Failure? {
        return;
      }
      ghost var rec := RecordOf(events[stop], payload.value, IdAt(first + stop), now);
      var m := Emit(repo, ids, events[stop], payload.value, now);
      if m.Some? {
        muts := muts + [m.value];
      }
      KeptSnoc(recs, rec, repo.toMutation);
      HandedStep(events, marshal, now, first, stop, recs);
      recs := recs + [rec];
      stop := stop + 1;
    }
  }

  /** BuildMuts(repo, events, now): one record per event, in order, each with
      a fresh identifier, handed to the repository before the next event is
      marshalled; a marshal failure stops the loop with the records so far
      already handed over, and is returned wrapped with the event type. */
  method BuildMuts(repo: OutboxRepository, ids: IdSource, events: seq<DomainEvent>, marshal: Marshal, now: int)
    returns (r: Result<seq<Mutation>, Error>)
    modifies repo, ids
    ensures
      var k := Marshalled(events, marshal);
      && repo.captured == old(repo.captured) + Records(events[..k], marshal, now, old(ids.issued))
      && ids.issued == old(ids.issued) + k
    ensures r == BuildOutcome(events, marshal, now, old(ids.issued), repo.toMutation)
  {
    var first := ids.issued;
    var muts, stop, recs := EmitAll(repo, ids, events, marshal, now);
    OutcomeAt(events, marshal, now, first, repo.toMutation, stop, recs);
    if stop < |events| {
      return Failure(Wrapped(MarshalContext(EventType(events[stop].kind)), Encode(marshal, events[stop]).error));
    }
    return Success(muts);
  }
}
