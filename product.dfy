/** The Product aggregate: lifecycle INACTIVE / ACTIVE / ARCHIVED, a base price,
    an optional discount, per-field dirty tracking for targeted updates, and a
    queue of domain events that the mutators append to and that a pull drains.

    Each mutator of the class is proved against a pure transition on a
    snapshot of the aggregate (ProductState); the properties the aggregate
    promises are proved about those transitions. */
module ProductAggregate {
  import opened Wrappers
  import opened Rational
  import opened DomainErrors
  import opened MoneyDomain
  import opened Discounts
  import opened Events
  import opened Whitespace

  // ---------------------------------------------------------------------------
  // Field names and statuses

  const FieldName: string := "name"
  const FieldDescription: string := "description"
  const FieldCategory: string := "category"
  const FieldStatus: string := "status"
  const FieldDiscount: string := "discount"
  const FieldArchivedAt: string := "archived_at"

  /** Every field name a mutator ever marks. */
  const TrackedFields: set<string> :=
    {FieldName, FieldDescription, FieldCategory, FieldStatus, FieldDiscount, FieldArchivedAt}

  /** ProductStatus. The repository converts whatever string is stored into a
      status, so a status other than the three known ones can occur. */
  datatype Status = Inactive | Active | Archived | Unrecognized(raw: string)

  function StatusString(s: Status): string
  {
    match s
    case Inactive => "INACTIVE"
    case Active => "ACTIVE"
    case Archived => "ARCHIVED"
    case Unrecognized(raw) => raw
  }

  /** ProductStatus(raw): the conversion of a stored string, which writes back
      as the same string. */
  function StatusOf(raw: string): (s: Status)
    ensures StatusString(s) == raw
    ensures s.Unrecognized? <==> raw !in {"INACTIVE", "ACTIVE", "ARCHIVED"}
  {
    if raw == "INACTIVE" then Inactive
    else if raw == "ACTIVE" then Active
    else if raw == "ARCHIVED" then Archived
    else Unrecognized(raw)
  }

  // ---------------------------------------------------------------------------
  // ChangeTracker

  /** ChangeTracker. Go keeps a map from field name to true; only the keys
      carry information, so the model keeps the set of keys. */
  class ChangeTracker {
    var dirty: set<string>

    /** NewChangeTracker(). */
    constructor ()
      ensures dirty == {}
      ensures forall f :: !Dirty(f)
    {
      dirty := {};
    }

    method MarkDirty(field: string)
      modifies this
      ensures dirty == old(dirty) + {field}
      ensures forall f :: Dirty(f) <==> old(Dirty(f)) || f == field
    {
      dirty := dirty + {field};
    }

    /** Dirty(field): whether the field was marked since the last reset.
        The tracker's set is all it consults; MarkDirty and Reset say how
        their calls move the answer. */
    predicate Dirty(field: string): (marked: bool)
      reads this
      ensures marked <==> field in dirty
    {
      field in dirty
    }

    /** Fields(): a copy of the dirty-field map, every key mapped to true. */
    method Fields() returns (snapshot: map<string, bool>)
      ensures snapshot.Keys == dirty
      ensures forall k :: k in snapshot ==> snapshot[k]
    {
      snapshot := map[];
      var rest := dirty;
      while rest != {}
        invariant rest <= dirty
        invariant snapshot.Keys == dirty - rest
        invariant forall k :: k in snapshot ==> snapshot[k]
        decreases |rest|
      {
        var k :| k in rest;
        snapshot := snapshot[k := true];
        rest := rest - {k};
      }
    }

    method Reset()
      modifies this
      ensures dirty == {}
      ensures forall f :: !Dirty(f)
    {
      dirty := {};
    }
  }

  // ---------------------------------------------------------------------------
  // The aggregate as a value, and its transitions

  datatype ProductState = ProductState(
    id: string,
    name: string,
    description: string,
    category: string,
    basePrice: Money,
    discount: Option<Discount>,
    status: Status,
    createdAt: int,
    updatedAt: int,
    archivedAt: Option<int>,
    dirty: set<string>,
    events: seq<DomainEvent>)

  /** The outcome of a mutator: the new state and the error it returned. */
  datatype Step = Step(state: ProductState, err: Option<Error>)

  function Fail(s: ProductState, k: DomainError): Step { Step(s, Some(Domain(k))) }

  /** Appends an event of the given kind, raised by this product at now. */
  function Raise(s: ProductState, k: EventKind, now: int): ProductState
  {
    s.(events := s.events + [DomainEvent(k, s.id, now)])
  }

  /** The events all name the product that raised them. */
  predicate EventsOwned(s: ProductState)
  {
    forall i :: 0 <= i < |s.events| ==> s.events[i].aggregateId == s.id
  }

  /** NewProduct: the name, then the category must be non-blank once trimmed,
      then the price must be present and positive. A new product is inactive,
      created and updated at now, has no discount, nothing dirty, and exactly
      one ProductCreated event. */
  function Created(id: string, name: string, description: string, category: string,
                   basePrice: Option<Money>, now: int): Result<ProductState, Error>
  {
    if TrimSpace(name) == [] then Failure(Domain(InvalidName))
    else if TrimSpace(category) == [] then Failure(Domain(InvalidCategory))
    else if basePrice.None? || Sign(basePrice.value.amount) <= 0 then Failure(Domain(InvalidPrice))
    else Success(Fresh(id, TrimSpace(name), TrimSpace(description), TrimSpace(category), basePrice.value, now))
  }

  /** The product NewProduct builds once its checks have passed. */
  function Fresh(id: string, name: string, description: string, category: string,
                 basePrice: Money, now: int): ProductState
  {
    Raise(ProductState(id, name, description, category, basePrice, None, Inactive, now, now, None, {}, []),
          ProductCreated, now)
  }

  /** The rules of NewProduct, stated for every input: the name, then the
      category must be non-blank once trimmed, then the price must be present
      and positive; a new product is inactive, created and updated at now,
      with trimmed details, no discount, nothing dirty, and exactly one
      ProductCreated event. */
  lemma NewProductRules(id: string, name: string, description: string, category: string,
                        basePrice: Option<Money>, now: int)
    ensures
      var r := Created(id, name, description, category, basePrice, now);
      && (TrimSpace(name) == [] ==> r == Failure(Domain(InvalidName)))
      && (TrimSpace(name) != [] && TrimSpace(category) == [] ==> r == Failure(Domain(InvalidCategory)))
      && (TrimSpace(name) != [] && TrimSpace(category) != [] ==>
            (r.Failure? <==> basePrice.None? || Value(basePrice.value.amount) <= 0.0))
      && (r.Failure? && TrimSpace(name) != [] && TrimSpace(category) != [] ==> r.error == Domain(InvalidPrice))
      && (r.Success? ==>
            && r.value.id == id && r.value.status == Inactive
            && r.value.name == TrimSpace(name) && r.value.name != []
            && r.value.description == TrimSpace(description)
            && r.value.category == TrimSpace(category) && r.value.category != []
            && r.value.basePrice == basePrice.value && Value(r.value.basePrice.amount) > 0.0
            && r.value.createdAt == now && r.value.updatedAt == now
            && r.value.discount.None? && r.value.archivedAt.None?
            && r.value.dirty == {}
            && r.value.events == [DomainEvent(ProductCreated, id, now)])
  {
    hide Gcd, TrimSpace;
    var n, c := TrimSpace(name), TrimSpace(category);
    if n != [] && c != [] && basePrice.Some? {
      var v := Value(basePrice.value.amount);
      assert Sign(basePrice.value.amount) <= 0 <==> v <= 0.0;
    }
  }

  /** RehydrateProduct: the stored values as they are, nothing dirty and no
      events. */
  function Rehydrated(id: string, name: string, description: string, category: string,
                      basePrice: Money, discount: Option<Discount>, status: Status,
                      createdAt: int, updatedAt: int, archivedAt: Option<int>): (s: ProductState)
    ensures s.dirty == {} && s.events == []
    ensures s.id == id && s.name == name && s.description == description && s.category == category
    ensures s.basePrice == basePrice && s.discount == discount && s.status == status
    ensures s.createdAt == createdAt && s.updatedAt == updatedAt && s.archivedAt == archivedAt
  {
    ProductState(id, name, description, category, basePrice, discount, status,
                 createdAt, updatedAt, archivedAt, {}, [])
  }

  /** The detail fields whose (already trimmed) new value differs from the
      current one. */
  function ChangedFields(s: ProductState, n: string, d: string, c: string): (f: set<string>)
    ensures f <= {FieldName, FieldDescription, FieldCategory}
    ensures FieldName in f <==> s.name != n
    ensures FieldDescription in f <==> s.description != d
    ensures FieldCategory in f <==> s.category != c
  {
    (if s.name != n then {FieldName} else {})
    + (if s.description != d then {FieldDescription} else {})
    + (if s.category != c then {FieldCategory} else {})
  }

  /** Stores trimmed details, marking dirty exactly the ones that changed. */
  function WithDetails(s: ProductState, n: string, d: string, c: string): ProductState
  {
    s.(name := n, description := d, category := c, dirty := s.dirty + ChangedFields(s, n, d, c))
  }

  /** UpdateDetails: an archived product refuses; a blank trimmed name, then a
      blank trimmed category, is refused; otherwise the three trimmed values
      are stored, the ones that changed are marked dirty, updatedAt is set to
      now whatever changed, and ProductUpdated is raised when anything at all
      is dirty, including fields dirtied by earlier calls. */
  function UpdateDetailsStep(s: ProductState, name: string, description: string, category: string,
                             now: int): Step
  {
    if s.status == Archived then Fail(s, ProductArchived)
    else if TrimSpace(name) == [] then Fail(s, InvalidName)
    else if TrimSpace(category) == [] then Fail(s, InvalidCategory)
    else
      var t := WithDetails(s, TrimSpace(name), TrimSpace(description), TrimSpace(category)).(updatedAt := now);
      Step(if t.dirty != {} then Raise(t, ProductUpdated, now) else t, None)
  }
  /** The rules of UpdateDetails, stated for every state and input. */
  lemma UpdateDetailsRules(s: ProductState, name: string, description: string, category: string, now: int)
    ensures
      var r := UpdateDetailsStep(s, name, description, category, now);
      && (r.err.Some? ==> r.state == s)
      && (s.status == Archived ==> r.err == Some(Domain(ProductArchived)))
      && (s.status != Archived && TrimSpace(name) == [] ==> r.err == Some(Domain(InvalidName)))
      && (s.status != Archived && TrimSpace(name) != [] && TrimSpace(category) == [] ==>
            r.err == Some(Domain(InvalidCategory)))
      && (r.err.None? <==> s.status != Archived && TrimSpace(name) != [] && TrimSpace(category) != [])
      && (r.err.None? ==>
            && r.state.name == TrimSpace(name) && r.state.description == TrimSpace(description)
            && r.state.category == TrimSpace(category) && r.state.updatedAt == now
            && r.state.dirty == s.dirty + ChangedFields(s, TrimSpace(name), TrimSpace(description), TrimSpace(category))
            && r.state.events == s.events + (if r.state.dirty != {} then [DomainEvent(ProductUpdated, s.id, now)] else [])
            && r.state.status == s.status && r.state.discount == s.discount
            && r.state.archivedAt == s.archivedAt && r.state.id == s.id
            && r.state.(name := s.name, description := s.description, category := s.category,
                        updatedAt := s.updatedAt, dirty := s.dirty, events := s.events) == s)
  {
    hide TrimSpace, ChangedFields;
    var n, d, c := TrimSpace(name), TrimSpace(description), TrimSpace(category);
    var r := UpdateDetailsStep(s, name, description, category, now);
    if s.status == Archived || n == [] || c == [] {
      assert r == Fail(s, if s.status == Archived then ProductArchived
                          else if n == [] then InvalidName else InvalidCategory);
    } else {
      var t := s.(name := n, description := d, category := c,
                  dirty := s.dirty + ChangedFields(s, n, d, c), updatedAt := now);
      assert r == Step(if t.dirty != {} then Raise(t, ProductUpdated, now) else t, None);
    }
  }


  /** Moves to a target status (Activate or Deactivate): an archived product
      refuses; one already in the target status is left exactly as it is;
      otherwise the status is set, marked dirty, updatedAt set to now and one
      event raised. */
  function MoveTo(s: ProductState, target: Status, k: EventKind, now: int): (r: Step)
    requires target != Archived
    ensures r.err.Some? <==> s.status == Archived
    ensures r.err.Some? ==> r == Fail(s, ProductArchived)
    ensures s.status == target ==> r == Step(s, None)
    ensures r.err.None? ==> r.state.status == target
    ensures s.status != Archived && s.status != target ==>
      && r.state.dirty == s.dirty + {FieldStatus} && r.state.updatedAt == now
      && r.state.events == s.events + [DomainEvent(k, s.id, now)]
      && r.state.(status := s.status, dirty := s.dirty, updatedAt := s.updatedAt, events := s.events) == s
  {
    if s.status == Archived then Fail(s, ProductArchived)
    else if s.status != target then
      Step(Raise(s.(status := target, dirty := s.dirty + {FieldStatus}, updatedAt := now), k, now), None)
    else Step(s, None)
  }

  function ActivateStep(s: ProductState, now: int): Step
  {
    MoveTo(s, Active, ProductActivated, now)
  }

  function DeactivateStep(s: ProductState, now: int): Step
  {
    MoveTo(s, Inactive, ProductDeactivated, now)
  }

  /** Archive: a no-op success when already archived; otherwise the status
      becomes ARCHIVED, archivedAt and updatedAt become now, status and
      archived_at are marked dirty, and no event is raised. */
  function ArchiveStep(s: ProductState, now: int): (r: Step)
    ensures r.err.None?
    ensures s.status == Archived ==> r.state == s
    ensures s.status != Archived ==>
      && r.state.status == Archived && r.state.archivedAt == Some(now) && r.state.updatedAt == now
      && r.state.dirty == s.dirty + {FieldStatus, FieldArchivedAt}
      && r.state.events == s.events
      && r.state.(status := s.status, archivedAt := s.archivedAt, updatedAt := s.updatedAt, dirty := s.dirty) == s
  {
    if s.status == Archived then Step(s, None)
    else
      Step(s.(status := Archived, archivedAt := Some(now),
              dirty := s.dirty + {FieldStatus, FieldArchivedAt}, updatedAt := now), None)
  }

  /** ApplyDiscount: refused unless ACTIVE; then refused with
      ErrInvalidDiscountPeriod when the new discount (possibly absent) is not
      in force at now; then refused when the current discount is still in
      force. Otherwise the discount is replaced, marked dirty, updatedAt set
      and DiscountApplied raised. */
  function ApplyDiscountStep(s: ProductState, d: Option<Discount>, now: int): (r: Step)
    ensures r.err.Some? ==> r.state == s
    ensures s.status != Active ==> r.err == Some(Domain(ProductNotActive))
    ensures s.status == Active && !IsValidAtOpt(d, now) ==> r.err == Some(Domain(InvalidDiscountPeriod))
    ensures s.status == Active && IsValidAtOpt(d, now) && IsValidAtOpt(s.discount, now) ==>
      r.err == Some(Domain(OverlappingDiscount))
    ensures r.err.None? <==> s.status == Active && IsValidAtOpt(d, now) && !IsValidAtOpt(s.discount, now)
    ensures r.err.None? ==>
      && r.state.discount == d && r.state.dirty == s.dirty + {FieldDiscount} && r.state.updatedAt == now
      && r.state.events == s.events + [DomainEvent(DiscountApplied, s.id, now)]
      && r.state.status == s.status
      && r.state.(discount := s.discount, dirty := s.dirty, updatedAt := s.updatedAt, events := s.events) == s
  {
    if s.status != Active then Fail(s, ProductNotActive)
    else if !IsValidAtOpt(d, now) then Fail(s, InvalidDiscountPeriod)
    else if IsValidAtOpt(s.discount, now) then Fail(s, OverlappingDiscount)
    else
      Step(Raise(s.(discount := d, dirty := s.dirty + {FieldDiscount}, updatedAt := now),
                 DiscountApplied, now), None)
  }

  /** RemoveDiscount: refused when there is no discount, whatever the status;
      otherwise the discount is cleared, marked dirty, updatedAt set and
      DiscountRemoved raised. */
  function RemoveDiscountStep(s: ProductState, now: int): (r: Step)
    ensures r.err.Some? <==> s.discount.None?
    ensures r.err.Some? ==> r == Fail(s, NoDiscount)
    ensures r.err.None? ==>
      && r.state.discount.None? && r.state.dirty == s.dirty + {FieldDiscount} && r.state.updatedAt == now
      && r.state.events == s.events + [DomainEvent(DiscountRemoved, s.id, now)]
      && r.state.status == s.status
      && r.state.(discount := s.discount, dirty := s.dirty, updatedAt := s.updatedAt, events := s.events) == s
  {
    if s.discount.None? then Fail(s, NoDiscount)
    else
      Step(Raise(s.(discount := None, dirty := s.dirty + {FieldDiscount}, updatedAt := now),
                 DiscountRemoved, now), None)
  }

  // ---------------------------------------------------------------------------
  // Properties of the transitions

  /** An archived product stays archived: UpdateDetails, Activate and
      Deactivate refuse with ErrProductArchived and ApplyDiscount with
      ErrProductNotActive, all changing nothing, and Archive again is a no-op. */
  lemma ArchivedIsFinal(s: ProductState, name: string, description: string, category: string,
                        d: Option<Discount>, now: int)
    requires s.status == Archived
    ensures UpdateDetailsStep(s, name, description, category, now) == Fail(s, ProductArchived)
    ensures ActivateStep(s, now) == Fail(s, ProductArchived)
    ensures DeactivateStep(s, now) == Fail(s, ProductArchived)
    ensures ApplyDiscountStep(s, d, now) == Fail(s, ProductNotActive)
    ensures ArchiveStep(s, now) == Step(s, None)
    ensures RemoveDiscountStep(s, now).state.status == Archived
  {
  }

  /** Activating twice is activating once: the second call succeeds and
      changes nothing, raising no second event. */
  lemma ActivateIdempotent(s: ProductState, t1: int, t2: int)
    requires ActivateStep(s, t1).err.None?
    ensures ActivateStep(ActivateStep(s, t1).state, t2) == Step(ActivateStep(s, t1).state, None)
  {
  }

  /** Repeating an UpdateDetails with the same values marks nothing new, yet
      (because the tracker is only cleared by a save) it still raises another
      ProductUpdated when the first call dirtied anything. */
  lemma RepeatedUpdateRaisesAgain(s: ProductState, name: string, description: string, category: string,
                                  t1: int, t2: int)
    requires UpdateDetailsStep(s, name, description, category, t1).err.None?
    ensures
      var s1 := UpdateDetailsStep(s, name, description, category, t1).state;
      var s2 := UpdateDetailsStep(s1, name, description, category, t2);
      && s2.err.None?
      && s2.state.dirty == s1.dirty
      && (s1.dirty != {} <==> |s2.state.events| == |s1.events| + 1)
  {
    var s1 := UpdateDetailsStep(s, name, description, category, t1).state;
    UpdateDetailsRules(s, name, description, category, t1);
    UpdateDetailsRules(s1, name, description, category, t2);
    hide UpdateDetailsStep, TrimSpace, ChangedFields, Gcd;
    assert ChangedFields(s1, TrimSpace(name), TrimSpace(description), TrimSpace(category)) == {};
  }

  /** Every mutator keeps the dirty fields growing within the tracked names and
      appends at most one event, stamped with this product's id and now. */
  predicate WellStepped(s: ProductState, r: Step, now: int)
  {
    && s.dirty <= r.state.dirty
    && r.state.dirty - s.dirty <= TrackedFields
    && r.state.id == s.id
    && (r.state.events == s.events
        || (exists k :: r.state.events == s.events + [DomainEvent(k, s.id, now)]))
  }

  /** The witness for WellStepped: one event of kind k, or none. */
  lemma SteppedWith(s: ProductState, r: Step, now: int, k: EventKind)
    requires s.dirty <= r.state.dirty && r.state.dirty - s.dirty <= TrackedFields && r.state.id == s.id
    requires r.state.events == s.events || r.state.events == s.events + [DomainEvent(k, s.id, now)]
    ensures WellStepped(s, r, now)
  {
  }

  lemma AllStepsWellStepped(s: ProductState, name: string, description: string, category: string,
                            d: Option<Discount>, now: int)
    ensures WellStepped(s, UpdateDetailsStep(s, name, description, category, now), now)
    ensures WellStepped(s, ActivateStep(s, now), now)
    ensures WellStepped(s, DeactivateStep(s, now), now)
    ensures WellStepped(s, ArchiveStep(s, now), now)
    ensures WellStepped(s, ApplyDiscountStep(s, d, now), now)
    ensures WellStepped(s, RemoveDiscountStep(s, now), now)
  {
    UpdateDetailsRules(s, name, description, category, now);
    hide Gcd, TrimSpace, UpdateDetailsStep, ChangedFields;
    SteppedWith(s, UpdateDetailsStep(s, name, description, category, now), now, ProductUpdated);
    SteppedWith(s, ActivateStep(s, now), now, ProductActivated);
    SteppedWith(s, DeactivateStep(s, now), now, ProductDeactivated);
    SteppedWith(s, ArchiveStep(s, now), now, ProductCreated);
    SteppedWith(s, ApplyDiscountStep(s, d, now), now, DiscountApplied);
    SteppedWith(s, RemoveDiscountStep(s, now), now, DiscountRemoved);
  }

  /** Consequently the events stay owned by the product. */
  lemma {:induction false} SteppingKeepsEventsOwned(s: ProductState, r: Step, now: int)
    requires EventsOwned(s) && WellStepped(s, r, now)
    ensures EventsOwned(r.state)
  {
    if r.state.events != s.events {
      var k :| r.state.events == s.events + [DomainEvent(k, s.id, now)];
      assert forall i :: 0 <= i < |s.events| ==> r.state.events[i] == s.events[i];
    }
  }

  /** PullDomainEvents: the queued events in order, and an empty queue. */
  function Pulled(s: ProductState): (r: (seq<DomainEvent>, ProductState))
    ensures r.0 == s.events && r.1.events == []
    ensures r.1.(events := s.events) == s
  {
    (s.events, s.(events := []))
  }

  /** A second pull straight after the first returns nothing. */
  lemma PullDrains(s: ProductState)
    ensures Pulled(Pulled(s).1).0 == []
    ensures Pulled(Pulled(s).1).1 == Pulled(s).1
  {
  }

  // ---------------------------------------------------------------------------
  // The aggregate as an object

  class Product {
    const id: string
    var name: string
    var description: string
    var category: string
    const basePrice: Money
    var discount: Option<Discount>
    var status: Status
    const createdAt: int
    var updatedAt: int
    var archivedAt: Option<int>
    const changes: ChangeTracker
    var events: seq<DomainEvent>

    /** The aggregate seen as a value. */
    function State(): ProductState
      reads this, changes
    {
      ProductState(id, name, description, category, basePrice, discount, status,
                   createdAt, updatedAt, archivedAt, changes.dirty, events)
    }

    /** RehydrateProduct. */
    constructor Rehydrate(id: string, name: string, description: string, category: string,
                          basePrice: Money, discount: Option<Discount>, status: Status,
                          createdAt: int, updatedAt: int, archivedAt: Option<int>)
      ensures fresh(changes)
      ensures State() == Rehydrated(id, name, description, category, basePrice, discount, status,
                                    createdAt, updatedAt, archivedAt)
    {
      this.id := id;
      this.name := name;
      this.description := description;
      this.category := category;
      this.basePrice := basePrice;
      this.discount := discount;
      this.status := status;
      this.createdAt := createdAt;
      this.updatedAt := updatedAt;
      this.archivedAt := archivedAt;
      this.events := [];
      var tracker := new ChangeTracker();
      this.changes := tracker;
    }

    /** NewProduct. */
    static method NewProduct(id: string, name: string, description: string, category: string,
                             basePrice: Option<Money>, now: int) returns (r: Result<Product, Error>)
      ensures r.Failure? ==> Created(id, name, description, category, basePrice, now) == Failure(r.error)
      ensures r.Success? ==> fresh(r.value) && fresh(r.value.changes)
      ensures r.Success? ==> Created(id, name, description, category, basePrice, now) == Success(r.value.State())
    {
      var trimmedName := TrimSpace(name);
      var trimmedCategory := TrimSpace(category);
      if trimmedName == [] {
        return Failure(Domain(InvalidName));
      }
      if trimmedCategory == [] {
        return Failure(Domain(InvalidCategory));
      }
      if basePrice.None? || Sign(basePrice.value.amount) <= 0 {
        return Failure(Domain(InvalidPrice));
      }
      var p := Build(id, trimmedName, TrimSpace(description), trimmedCategory, basePrice.value, now);
      return Success(p);
    }

    /** The product NewProduct hands out once its checks have passed. */
    static method Build(id: string, name: string, description: string, category: string,
                        basePrice: Money, now: int) returns (p: Product)
      ensures fresh(p) && fresh(p.changes)
      ensures p.State() == Fresh(id, name, description, category, basePrice, now)
    {
      p := new Product.Rehydrate(id, name, description, category, basePrice, None, Inactive, now, now, None);
      p.events := p.events + [DomainEvent(ProductCreated, p.id, now)];
    }

    /** The assignments UpdateDetails makes once its checks have passed: each
        detail that differs is stored and marked dirty. */
    method SetDetails(n: string, d: string, c: string)
      modifies this, changes
      ensures State() == WithDetails(old(State()), n, d, c)
    {
      hide Gcd;
      if name != n {
        name := n;
        changes.MarkDirty(FieldName);
      }
      if description != d {
        description := d;
        changes.MarkDirty(FieldDescription);
      }
      if category != c {
        category := c;
        changes.MarkDirty(FieldCategory);
      }
    }

    method UpdateDetails(name: string, description: string, category: string, now: int)
      returns (err: Option<Error>)
      modifies this, changes
      ensures Step(State(), err) == UpdateDetailsStep(old(State()), name, description, category, now)
    {
      hide Gcd, TrimSpace, WithDetails, ChangedFields;
      if status == Archived {
        return Some(Domain(ProductArchived));
      }
      var trimmedName := TrimSpace(name);
      var trimmedCategory := TrimSpace(category);
      if trimmedName == [] {
        return Some(Domain(InvalidName));
      }
      if trimmedCategory == [] {
        return Some(Domain(InvalidCategory));
      }
      SetDetails(trimmedName, TrimSpace(description), trimmedCategory);
      updatedAt := now;
      var fields := changes.Fields();
      if |fields| > 0 {
        events := events + [DomainEvent(ProductUpdated, id, now)];
      } else {
        assert fields.Keys == {};
      }
      return None;
    }

    method Activate(now: int) returns (err: Option<Error>)
      modifies this, changes
      ensures Step(State(), err) == ActivateStep(old(State()), now)
    {
      if status == Archived {
        return Some(Domain(ProductArchived));
      }
      if status != Active {
        status := Active;
        changes.MarkDirty(FieldStatus);
        updatedAt := now;
        events := events + [DomainEvent(ProductActivated, id, now)];
      }
      return None;
    }

    method Deactivate(now: int) returns (err: Option<Error>)
      modifies this, changes
      ensures Step(State(), err) == DeactivateStep(old(State()), now)
    {
      if status == Archived {
        return Some(Domain(ProductArchived));
      }
      if status != Inactive {
        status := Inactive;
        changes.MarkDirty(FieldStatus);
        updatedAt := now;
        events := events + [DomainEvent(ProductDeactivated, id, now)];
      }
      return None;
    }

    method Archive(now: int) returns (err: Option<Error>)
      modifies this, changes
      ensures Step(State(), err) == ArchiveStep(old(State()), now)
    {
      hide Gcd;
      if status == Archived {
        return None;
      }
      status := Archived;
      archivedAt := Some(now);
      changes.MarkDirty(FieldStatus);
      changes.MarkDirty(FieldArchivedAt);
      updatedAt := now;
      return None;
    }

    method ApplyDiscount(d: Option<Discount>, now: int) returns (err: Option<Error>)
      modifies this, changes
      ensures Step(State(), err) == ApplyDiscountStep(old(State()), d, now)
    {
      if status != Active {
        return Some(Domain(ProductNotActive));
      }
      if !IsValidAtOpt(d, now) {
        return Some(Domain(InvalidDiscountPeriod));
      }
      if discount.Some? && IsValidAt(discount.value, now) {
        return Some(Domain(OverlappingDiscount));
      }
      discount := d;
      changes.MarkDirty(FieldDiscount);
      updatedAt := now;
      events := events + [DomainEvent(DiscountApplied, id, now)];
      return None;
    }

    method RemoveDiscount(now: int) returns (err: Option<Error>)
      modifies this, changes
      ensures Step(State(), err) == RemoveDiscountStep(old(State()), now)
    {
      if discount.None? {
        return Some(Domain(NoDiscount));
      }
      discount := None;
      changes.MarkDirty(FieldDiscount);
      updatedAt := now;
      events := events + [DomainEvent(DiscountRemoved, id, now)];
      return None;
    }

    method PullDomainEvents() returns (pulled: seq<DomainEvent>)
      modifies this
      ensures (pulled, State()) == Pulled(old(State()))
    {
      pulled := events;
      events := [];
    }
  }
}
