# Product catalog write side, in Dafny

This project models the write side of a product-catalog gRPC service and
proves what its code promises. The service keeps products in a store. Each
command turns one aggregate change into the aggregate's mutation plus outbox
rows, committed together as one plan. The model covers:

- **Money** — an exact, non-negative rational (module `MoneyDomain`, on top of
  a normalised rational in `Rational` and Go's decimal formatting in `Decimal`).
- **Discount** — a percentage in (0, 100] with a half-open validity window
  (`Discounts`).
- **Domain events** — the six event kinds with their type strings (`Events`).
- **Domain errors** — the sentinel errors and `errors.Is` over wrapped errors
  (`DomainErrors`).
- **The Product aggregate** — a class whose methods update its fields in
  place. Each method is specified by a pure step function on a
  `ProductState` value. It includes the `ChangeTracker` class
  (`ProductAggregate`, with `strings.TrimSpace` in `Whitespace`).
- **The pricing calculator** (`Pricing`).
- **The outbox builder `BuildMuts`** — a loop over the events that draws a
  fresh identifier per event and hands each record to the outbox repository
  (`Outbox`).
- **The repository** — the targeted `UpdateMut`, the full-row `InsertMut`,
  how `FindByID` rebuilds a product from a stored row, and the
  limit/offset/next-token arithmetic of `ListActive` (`Repository`, with
  mutations as table plus column map in `Mutations`).
- **The commit tail shared by every command** — the plan is the aggregate
  mutation first, then the outbox mutations, applied exactly once
  (`Interactors`).
- **The four command interactors**: `CreateProduct`, `UpdateProduct`,
  `ActivateProduct` and `ApplyDiscount`. Each is a class over its
  collaborators: a repository, an outbox repository, a committer, a clock and
  an identifier source. Each method is proved against a function that says
  what the command does.
- **The two read-side queries**, `GetProduct` and `ListProducts`, over flat
  stored rows (`ReadModel`).
- **The gRPC error mapping** (`GrpcErrors`).

Instants are integer nanoseconds since the epoch (`Instants`); UTC normalisation is the identity. The collaborators
are small classes that record what they are handed, as the Go test fakes do:

- the committer records every plan and answers with a fixed error or none;
- the clock returns its current instant and moves on by a fixed tick;
- the outbox repository records every record and maps it to a mutation or
  to none.

`json.Marshal` and `big.Rat.SetString` are parameters of the model:
`marshal` and `parse`.

Where the code and its comments disagree, the model follows the code:

- `NewDiscount` accepts a percentage of exactly 100, although its comment
  says both boundaries are excluded.
- `UpdateDetails` refuses a blank name or category with an error. The
  update request's comment says empty strings are a no-op.
- A command whose aggregate did not change still commits a plan; an empty
  one when nothing at all is written.
- Both queries print the effective price through a fallback of `"0.00"` for
  a failed arithmetic result. The model proves that for a discount
  `NewDiscount` accepted the fallback is never taken.

## Model

| member | source | states |
|---|---|---|
| MoneyDomain.NewMoney | internal/app/product/domain/money.go:16-25 | succeeds exactly when den ≠ 0 and num/den ≥ 0, with amount num/den; otherwise ErrInvalidPrice |
| MoneyDomain.NegativePairAccepted | internal/app/product/domain/money.go:16-25 | the pair (-1, -2) is accepted as 1/2 |
| MoneyDomain.NewMoneyFromRat | internal/app/product/domain/money.go:29-34 | succeeds exactly when the rational is present and non-negative, holding a copy of it; otherwise ErrInvalidPrice |
| MoneyDomain.Numerator | internal/app/product/domain/money.go:44-47 | the lowest-terms numerator: non-negative, coprime to the denominator, and over it equals the amount |
| MoneyDomain.Denominator | internal/app/product/domain/money.go:49-52 | the lowest-terms denominator is positive |
| MoneyDomain.Sub | internal/app/product/domain/money.go:56-65 | succeeds exactly when o ≤ m, with value exactly m − o; otherwise ErrInvalidPrice |
| MoneyDomain.Mul | internal/app/product/domain/money.go:69-78 | succeeds exactly when m·x ≥ 0, with value exactly m·x; otherwise ErrInvalidPrice |
| MoneyDomain.StringIsRoundedCents | internal/app/product/domain/money.go:80-83 | String is the amount in cents rounded half up, printed as whole part, ".", and two padded digits |
| MoneyDomain.NineteenNinetyNine | internal/app/product/domain/money.go:80-83 | NewMoney(1999, 100) prints as "19.99" |
| MoneyDomain.FifthOff1999 | internal/app/product/domain/money.go:56-78 | 19.99 less 19.99·0.2, computed exactly, succeeds and prints as "15.99" |
| MoneyDomain.FifteenNinetyNine | internal/app/product/domain/money.go:56-83 | NewMoney(1999, 100) less its product with 20/100 prints as "15.99" |
| Decimal.FloatStringRounds | internal/app/product/domain/money.go:82 | FloatString(x, prec) is x scaled by 10^prec and rounded half up, split into whole part and exactly prec padded digits |
| Decimal.RoundHalfUpBounds | internal/app/product/domain/money.go:82 | the rounded value is the nearest integer to n/d, a half going up |
| Decimal.NatToStringValue | internal/app/product/repo/product_repo.go:228 | the decimal digits printed for n denote n |
| Decimal.NatToStringInjective | internal/app/product/repo/product_repo.go:228 | distinct numbers print differently |
| Decimal.SmallNatToString | internal/app/product/domain/money.go:82 | a number below 100 prints as its tens digit (if any) and its units digit |
| Decimal.WrapInt64 | internal/app/product/repo/product_repo.go:228 | the int64 sum: an int64 that differs from the exact sum by a multiple of 2^64 (two's-complement wrap-around), equal to it when it is already in range |
| Decimal.WrapPastMax | internal/app/product/repo/product_repo.go:228 | a sum just past the largest int64 wraps once, to that sum less 2^64, a negative value |
| Decimal.ParseIntToString | internal/app/product/repo/product_repo.go:190 | every int64 printed with %d parses back to itself with ParseInt(s, 10, 64) |
| Decimal.ParseNeedsDigits | internal/app/product/repo/product_repo.go:190-193 | text without a digit never parses |
| Discounts.NewDiscount | internal/app/product/domain/discount.go:22-37 | succeeds exactly when the percentage is present and in (0, 100] and start < end, holding those values; the percent check comes first (ErrInvalidDiscountPercent), then the period (ErrInvalidDiscountPeriod) |
| Discounts.WindowBounds | internal/app/product/domain/discount.go:54-60 | a built discount is in force at its start and not at its end, and at t exactly when start ≤ t < end |
| Discounts.Fraction | internal/app/product/domain/discount.go:64-66 | the fraction is the percentage over 100 |
| Discounts.FractionInUnitInterval | internal/app/product/domain/discount.go:64-66 | for a built discount the fraction lies in (0, 1] |
| Events.EventType | internal/app/product/domain/domain_events.go:44-49 | every type string starts with "product." and is longer than it |
| Events.KindOfType | internal/app/product/domain/domain_events.go:44-49 | a kind read back from a type string has that type string |
| Events.KindOfTypeRoundTrip | internal/app/product/domain/domain_events.go:44-49 | reading back a kind's type string gives the kind |
| Events.EventTypeInjective | internal/app/product/domain/domain_events.go:44-49 | distinct kinds have distinct type strings |
| DomainErrors.DomainMessagesDistinct | internal/app/product/domain/domain_errors.go:10-20 | the nine sentinels have pairwise distinct messages |
| DomainErrors.Root | internal/transport/grpc/product/errors.go:13-22 | the innermost error of a wrapping chain is not a wrapper |
| DomainErrors.IsSeesRoot | internal/transport/grpc/product/errors.go:13-22 | errors.Is(e, sentinel) holds exactly when the innermost error is that sentinel |
| Whitespace.LeadingSpace | internal/app/product/domain/product.go:81 | counts exactly the white space at the front |
| Whitespace.TrailingSpace | internal/app/product/domain/product.go:81 | counts exactly the white space at the end |
| Whitespace.TrimSpace | internal/app/product/domain/product.go:93-95 | the trimmed text is no longer, and starts and ends with a non-space when not empty |
| Whitespace.TrimSpaceIsMiddle | internal/app/product/domain/product.go:93-95 | the trimmed text is a middle slice of the input with only white space cut from each end |
| Whitespace.TrimSpaceEmpty | internal/app/product/domain/product.go:81-84 | a text trims to "" exactly when it is all white space |
| Whitespace.TrimSpaceIdempotent | internal/app/product/domain/product.go:129-130 | trimming twice is trimming once |
| ProductAggregate.StatusOf | internal/app/product/repo/product_repo.go:77 | converting a stored string keeps it, and only the three known names are recognised |
| ProductAggregate.ChangeTracker.constructor | internal/app/product/domain/product.go:36-39 | a new tracker has nothing dirty: Dirty is false for every field |
| ProductAggregate.ChangeTracker.MarkDirty | internal/app/product/domain/product.go:41-42 | adds exactly the field to the dirty set: afterwards Dirty holds for that field and for the fields already dirty, and for no other |
| ProductAggregate.ChangeTracker.Dirty | internal/app/product/domain/product.go:44-45 | true exactly for the fields marked since construction or the last Reset |
| ProductAggregate.ChangeTracker.Fields | internal/app/product/domain/product.go:47-54 | the snapshot's keys are exactly the dirty fields, each mapped to true |
| ProductAggregate.ChangeTracker.Reset | internal/app/product/domain/product.go:56-57 | clears every dirty field: Dirty is false for every field afterwards |
| ProductAggregate.NewProductRules | internal/app/product/domain/product.go:80-104 | blank trimmed name gives ErrInvalidName, then blank category gives ErrInvalidCategory, then an absent or non-positive price gives ErrInvalidPrice. A new product is INACTIVE with trimmed details, created and updated at now, with no discount or archivedAt, nothing dirty and exactly one ProductCreated(id, now) |
| ProductAggregate.Product.NewProduct | internal/app/product/domain/product.go:80-104 | returns NewProduct's error, or a fresh product whose state is the one the rules describe |
| ProductAggregate.Product.Build | internal/app/product/domain/product.go:90-103 | the built product is fresh and holds the new-product state |
| ProductAggregate.Rehydrated | internal/app/product/domain/product.go:108-123 | the stored values are kept as they are, nothing is dirty and there are no events |
| ProductAggregate.Product.Rehydrate | internal/app/product/domain/product.go:108-123 | the constructed product's state is the rehydrated one, with a fresh tracker |
| ProductAggregate.ChangedFields | internal/app/product/domain/product.go:137-148 | a detail field is in the set exactly when its new trimmed value differs |
| ProductAggregate.UpdateDetailsRules | internal/app/product/domain/product.go:125-154 | ARCHIVED gives ErrProductArchived, then a blank name ErrInvalidName, then a blank category ErrInvalidCategory, changing nothing. On success the trimmed details are stored, exactly the changed fields are added to dirty, and updatedAt is now. ProductUpdated is appended exactly when the tracker is non-empty afterwards. Every other field (id, price, discount, status, createdAt, archivedAt) is kept |
| ProductAggregate.Product.SetDetails | internal/app/product/domain/product.go:137-148 | the new state stores the details, marking exactly the changed ones dirty |
| ProductAggregate.Product.UpdateDetails | internal/app/product/domain/product.go:125-154 | the new state and error are the UpdateDetails step of the old state |
| ProductAggregate.MoveTo | internal/app/product/domain/product.go:156-180 | ARCHIVED refuses, unchanged; already in the target status changes nothing; otherwise sets the status, marks it dirty, sets updatedAt = now and appends exactly one event |
| ActivateProduct.Transition | internal/app/product/domain/product.go:156-180 | Activate towards ACTIVE and Deactivate towards INACTIVE: archived fails, same status is a no-op, otherwise status set, status dirty, touched and one Activated/Deactivated event, every other field kept |
| ProductAggregate.Product.Activate | internal/app/product/domain/product.go:156-167 | the new state and error are the Activate step of the old state |
| ProductAggregate.Product.Deactivate | internal/app/product/domain/product.go:169-180 | the new state and error are the Deactivate step of the old state |
| ProductAggregate.ArchiveStep | internal/app/product/domain/product.go:182-193 | never fails. Already archived is a no-op. Otherwise status is ARCHIVED, archivedAt = updatedAt = now, status and archived_at are dirty, no event is raised, and every other field is kept |
| ProductAggregate.Product.Archive | internal/app/product/domain/product.go:182-193 | the new state and error are the Archive step of the old state |
| ProductAggregate.ApplyDiscountStep | internal/app/product/domain/product.go:195-210 | errors in order: not ACTIVE, then the new discount not in force now, then the current one still in force; an error changes nothing. On success the discount is replaced and dirty, updatedAt is now, DiscountApplied is appended, and every other field is kept |
| ProductAggregate.Product.ApplyDiscount | internal/app/product/domain/product.go:195-210 | the new state and error are the ApplyDiscount step of the old state |
| ProductAggregate.RemoveDiscountStep | internal/app/product/domain/product.go:212-221 | fails with ErrNoDiscount exactly when there is no discount, whatever the status; otherwise the discount is cleared and dirty, updatedAt is now, DiscountRemoved is appended, and every other field is kept |
| ProductAggregate.Product.RemoveDiscount | internal/app/product/domain/product.go:212-221 | the new state and error are the RemoveDiscount step of the old state |
| ProductAggregate.ArchivedIsFinal | internal/app/product/domain/product.go:126-128 | once ARCHIVED, UpdateDetails/Activate/Deactivate fail with ErrProductArchived and ApplyDiscount with ErrProductNotActive, all unchanged; Archive is a no-op and RemoveDiscount keeps it archived |
| ProductAggregate.ActivateIdempotent | internal/app/product/domain/product.go:156-167 | activating an activated product succeeds and changes nothing |
| ProductAggregate.RepeatedUpdateRaisesAgain | internal/app/product/domain/product.go:150-152 | repeating an accepted update succeeds and marks nothing new, yet raises ProductUpdated again exactly when the tracker still holds earlier changes |
| ProductAggregate.SteppedWith | internal/app/product/domain/product.go:125-221 | a step that only grows dirty within the tracked fields and appends at most one event of its own is well stepped |
| ProductAggregate.AllStepsWellStepped | internal/app/product/domain/product.go:125-221 | every mutator only adds tracked fields to dirty, keeps the id and appends at most one event, raised by this product at now |
| ProductAggregate.SteppingKeepsEventsOwned | internal/app/product/domain/product.go:125-221 | every queued event keeps naming the product that raised it |
| ProductAggregate.Pulled | internal/app/product/domain/product.go:227-233 | returns the queued events in order and leaves the queue empty, every other field kept |
| ProductAggregate.PullDrains | internal/app/product/domain/product.go:227-233 | a second pull straight after the first returns nothing and changes nothing |
| ProductAggregate.Product.PullDomainEvents | internal/app/product/domain/product.go:227-233 | the pulled events and new state are those of Pulled on the old state |
| Pricing.DiscountedRules | internal/app/product/domain/services/pricing_calculator.go:30-34 | base − base·fraction, which succeeds exactly when the share lies in [0, base], otherwise ErrInvalidPrice |
| Pricing.DiscountedBounds | internal/app/product/domain/services/pricing_calculator.go:30-34 | for a built discount it never fails, lies in [0, base], and a 100% discount gives 0 |
| Pricing.EffectivePrice | internal/app/product/domain/services/pricing_calculator.go:23-35 | the base price when there is no discount or it is not in force at now, otherwise the discounted price; it only reads the product |
| Pricing.EffectivePriceBounds | internal/app/product/domain/services/pricing_calculator.go:23-35 | with a built discount the effective price never fails and lies in [0, base] |
| Pricing.EightDollars | internal/app/product/domain/services/pricing_calculator.go:30-34 | 1000/100 with 20% in force prints as "8.00" |
| Instants.UnixFloor | internal/app/product/outbox/builder.go:43 | Unix() of an instant is its whole seconds, rounded down |
| Instants.FromUnix | internal/app/product/queries/get_product/query.go:39 | time.Unix(s, 0) is an instant whose Unix() is s |
| Instants.CompareWithSeconds | internal/app/product/queries/list_products/query.go:40-41 | an instant is at or after time.Unix(s, 0) exactly when its Unix() is at least s, and before it exactly when its Unix() is below s |
| Outbox.IdAtInjective | internal/app/product/outbox/builder.go:38 | equal identifiers come from the same draw |
| Outbox.IdAtDistinct | internal/app/product/outbox/builder.go:38 | different draws give different identifiers |
| Outbox.IdSource.constructor | internal/app/product/outbox/builder.go:38 | a new identifier source has drawn nothing yet, so its first identifier is the first draw |
| Outbox.IdSource.Next | internal/app/product/outbox/builder.go:38 | hands out the next identifier and counts it |
| Outbox.OutboxRepository.constructor | internal/app/product/repo/product_repo.go:142-144 | a new outbox repository has received no event and uses the given event-to-mutation mapping |
| Outbox.OutboxRepository.InsertMut | internal/app/product/outbox/builder.go:37-44 | records the event and returns the repository's mutation for it, or none |
| Outbox.Marshalled | internal/app/product/outbox/builder.go:28-36 | the number of events marshalled before the first failure: all before it marshal, the one at it does not |
| Outbox.MarshalledIsFirstFailure | internal/app/product/outbox/builder.go:28-36 | any index with all earlier events marshalling and itself failing (or at the end) is Marshalled |
| Outbox.RecordsRules | internal/app/product/outbox/builder.go:28-44 | one record per event, in order: the event's type and aggregate, its payload, PENDING, now in Unix seconds, the (first+j)-th identifier, no two sharing one |
| Outbox.RecordIdsDistinct | internal/app/product/outbox/builder.go:38 | no two records of one call share an identifier |
| Outbox.Kept | internal/app/product/outbox/builder.go:45-47 | no more mutations are kept than records |
| Outbox.KeptSnoc | internal/app/product/outbox/builder.go:45-47 | one more record appends its mutation when the repository returns one, nothing otherwise |
| Outbox.KeptFromRecords | internal/app/product/outbox/builder.go:45-47 | every kept mutation is the repository's mutation for one of the records |
| Outbox.KeptAll | internal/app/product/outbox/builder.go:45-47 | when every record yields a mutation, all are kept, in record order |
| Outbox.KeptNone | internal/app/product/outbox/builder.go:45-47 | when no record yields a mutation, nothing is kept |
| Outbox.KeptRules | internal/app/product/outbox/builder.go:45-47 | the three facts about kept mutations, together |
| Outbox.BuildOutcomeEmpty | internal/app/product/outbox/builder.go:27-28 | no events give no records, no mutations and no error |
| Outbox.OutcomeAt | internal/app/product/outbox/builder.go:26-50 | where the loop stops, the records handed so far are the records of the marshalled prefix. The result is the first marshal error wrapped with the quoted event type, or the kept mutations |
| Outbox.Emit | internal/app/product/outbox/builder.go:37-47 | one turn: a fresh identifier, the event's record handed to the repository, and its mutation returned |
| Outbox.HandedStep | internal/app/product/outbox/builder.go:28-47 | one more marshalled event extends the handed records by its record |
| Outbox.EmitAll | internal/app/product/outbox/builder.go:28-48 | the loop stops at the first failure or the end, after handing over exactly the records before it, drawing one identifier each, and returns their kept mutations |
| Outbox.BuildMuts | internal/app/product/outbox/builder.go:26-50 | the repository receives the records of the marshalled prefix, one identifier drawn per record, and the result is the build outcome |
| Repository.LoadedRules | internal/app/product/repo/product_repo.go:51-81 | an unusable price is ErrInvalidPrice; a discount is rebuilt exactly when percent, start and end are all set, and then passed NewDiscount (its error returned otherwise); stored fields kept, clean, no events |
| Repository.ProductRepository.constructor | internal/app/product/repo/product_repo.go:21-23 | a new product repository serves exactly the given rows |
| Repository.ProductRepository.FindByID | internal/app/product/repo/product_repo.go:25-82 | a missing row's error, or a fresh product whose state is the loaded row |
| Repository.InsertMutationRules | internal/app/product/repo/product_repo.go:84-103 | every base column with archived_at NULL, the price as a lowest-terms pair with positive denominator, and the discount columns only when there is a discount |
| Repository.ProductRepository.InsertMut | internal/app/product/repo/product_repo.go:84-103 | fills the column map one value at a time and returns the full-row insert of the product as it is now |
| Repository.ColumnsOf | internal/app/product/repo/product_repo.go:107-132 | the columns of dirty fields never include product_id or updated_at |
| Repository.ColumnsOfEmpty | internal/app/product/repo/product_repo.go:106-135 | no column is written exactly when none of the six tracked fields is dirty |
| Repository.FieldUpdatesKeys | internal/app/product/repo/product_repo.go:106-121 | product_id plus one column per dirty plain field |
| Repository.UpdateColumnsKeys | internal/app/product/repo/product_repo.go:106-132 | product_id plus the columns of every dirty field |
| Repository.FieldUpdatesValues | internal/app/product/repo/product_repo.go:107-121 | each dirty plain field's column holds the product's current value |
| Repository.UpdateColumnsValues | internal/app/product/repo/product_repo.go:107-132 | each dirty field's columns hold current values; a dirty discount writes its three columns, or three NULLs when absent |
| Repository.UpdateMutationRules | internal/app/product/repo/product_repo.go:105-138 | nil exactly when no tracked field is dirty; otherwise an update of exactly product_id, updated_at = UpdatedAt() and the dirty fields' columns with current values |
| Repository.ProductRepository.UpdateMut | internal/app/product/repo/product_repo.go:105-138 | fills the update map one dirty field at a time and returns the targeted update, or none |
| Repository.PageLimit | internal/app/product/repo/product_repo.go:184-187 | at least 1: the requested size when positive, the default 20 otherwise |
| Repository.PageOffset | internal/app/product/repo/product_repo.go:188-194 | the token's ParseInt value when the token is non-empty and parses, otherwise 0; always an int64 |
| Repository.FirstPageStartsAtZero | internal/app/product/repo/product_repo.go:188-189 | the empty token starts at offset 0 |
| Repository.NextPageTokenRoundTrip | internal/app/product/repo/product_repo.go:226-229 | a next token exists exactly when the page is full, and, when offset + limit is an int64, it parses back to offset + limit |
| Repository.NextPageTokenWraps | internal/app/product/repo/product_repo.go:226-229 | for int64 offset and limit the token of a full page parses back to the int64 sum, which is offset + limit − 2^64, a negative offset, once the exact sum passes the largest int64 |
| Interactors.Committer.constructor | internal/pkg/committer/plan.go:18-23 | a committer starts with no plans applied |
| Interactors.Committer.Apply | internal/pkg/committer/plan.go:18-23 | records the plan and answers with its fixed error or none |
| Interactors.Clock.constructor | internal/pkg/clock/clock.go:8-12 | a clock starts at its start instant |
| Interactors.Clock.Now | internal/pkg/clock/clock.go:8-12 | returns the current instant and moves on by one tick |
| Interactors.Applied | internal/app/product/usecases/create_product/interactor.go:72 | a command hands the committer at most one plan, and exactly one when it reached the commit |
| Interactors.CommitOutcomeRules | internal/app/product/usecases/update_product/interactor.go:53-64 | when every event marshals, one plan of the aggregate mutation then the outbox mutations, with the committer's error returned; otherwise no commit and an error wrapped as "build outbox mutations". Each record is PENDING with its event's type |
| Interactors.PlanSize | internal/app/product/usecases/update_product/interactor.go:53-63 | with a repository that maps every record, the plan holds the aggregate mutation and one mutation per event |
| Interactors.AddAll | internal/app/product/usecases/update_product/interactor.go:61-63 | plan.Add of each item in turn appends them in order |
| Interactors.Commit | internal/app/product/usecases/update_product/interactor.go:53-64 | drains the product's events, hands the outbox repository their records, applies the plan at most once, and returns as the commit tail says |
| Interactors.ApplyPlan | internal/app/product/usecases/apply_discount/interactor.go:85-98 | the targeted update first, then the outbox mutations of the drained events; the product's queue is empty afterwards |
| Interactors.NoEventCommit | internal/app/product/usecases/activate_product/interactor.go:74-87 | with no events the plan is the aggregate mutation alone (empty when none), nothing drawn, the committer's error returned |
| Interactors.SingleEventCommit | internal/app/product/usecases/activate_product/interactor.go:74-87 | with one event, a commit happens exactly when it marshals: one PENDING record of its type and aggregate under the next identifier, after the aggregate mutation |
| Interactors.OneEventCommit | internal/app/product/usecases/apply_discount/interactor.go:85-98 | one event and tracked dirty fields: the targeted update of exactly those columns, then the event's record |
| CreateProduct.BuiltRules | internal/app/product/usecases/create_product/interactor.go:48-57 | a refused price is ErrInvalidPrice, otherwise NewProduct decides; a built product has id = the drawn identifier and exactly one ProductCreated |
| CreateProduct.RefusedRules | internal/app/product/usecases/create_product/interactor.go:48-57 | a refused price returns ErrInvalidPrice with nothing drawn or committed; a refused product returns its domain error with one identifier drawn and nothing committed |
| CreateProduct.CommittedRules | internal/app/product/usecases/create_product/interactor.go:59-75 | the plan is the insert then one "product.created" record under an identifier other than the product's. The committer's error is propagated with "" returned, and success returns the product's identifier |
| CreateProduct.Interactor.constructor | internal/app/product/usecases/create_product/interactor.go:40-43 | keeps its collaborators |
| CreateProduct.Interactor.Execute | internal/app/product/usecases/create_product/interactor.go:47-76 | plans applied, error, identifier, records handed over and identifiers drawn are those of the execution; the clock is read exactly when the price is accepted |
| UpdateProduct.ExecutionRules | internal/app/product/usecases/update_product/interactor.go:43-65 | FindByID's error first, then UpdateDetails' error, each without commit. No change commits an empty plan. A change commits the update of exactly the changed columns and updated_at, then one "product.updated" record |
| UpdateProduct.UpdatedRules | internal/app/product/usecases/update_product/interactor.go:49-64 | the accepted case of the rules above |
| UpdateProduct.StepShape | internal/app/product/domain/product.go:137-152 | on a clean product, dirty is exactly the changed fields and one ProductUpdated is raised when there are any |
| UpdateProduct.UnchangedCommit | internal/app/product/usecases/update_product/interactor.go:53-64 | nothing dirty and no events commit an empty plan |
| UpdateProduct.StepCommitted | internal/app/product/usecases/update_product/interactor.go:48-64 | an accepted update commits its step's state and events with the same clock reading |
| UpdateProduct.Interactor.constructor | internal/app/product/usecases/update_product/interactor.go:36-39 | keeps its collaborators |
| UpdateProduct.Interactor.Execute | internal/app/product/usecases/update_product/interactor.go:43-65 | the effects are those of the execution for the product FindByID answers; the clock is read exactly when the product is found |
| ActivateProduct.StatusUpdate | internal/app/product/repo/product_repo.go:105-137 | a status-only change writes product_id, status (its name) and updated_at |
| ActivateProduct.ExecutionRules | internal/app/product/usecases/activate_product/interactor.go:46-87 | FindByID's error first; ARCHIVED gives ErrProductArchived without commit; already in the target status commits an empty plan; otherwise the status update then one Activated/Deactivated record |
| ActivateProduct.MovedRules | internal/app/product/usecases/activate_product/interactor.go:52-87 | the not-archived case of the rules above |
| ActivateProduct.Interactor.constructor | internal/app/product/usecases/activate_product/interactor.go:40-42 | keeps its collaborators |
| ActivateProduct.Interactor.Activate | internal/app/product/usecases/activate_product/interactor.go:46-56 | the effects are those of the execution towards ACTIVE; the clock is read exactly when the product is found |
| ActivateProduct.Interactor.Deactivate | internal/app/product/usecases/activate_product/interactor.go:60-70 | the effects are those of the execution towards INACTIVE; the clock is read exactly when the product is found |
| ApplyDiscount.Requested | internal/app/product/usecases/apply_discount/interactor.go:56-63 | a discount exactly when the text parses to a percentage in (0, 100] and start < end, holding those values; unparsable or out-of-range text is ErrInvalidDiscountPercent, otherwise an empty window is ErrInvalidDiscountPeriod |
| ApplyDiscount.DiscountUpdate | internal/app/product/repo/product_repo.go:105-137 | a discount-only change writes product_id, updated_at and the three discount columns from the discount, or three NULLs |
| ApplyDiscount.DiscountCommit | internal/app/product/usecases/apply_discount/interactor.go:85-98 | a discount-only change with one event commits the discount update, then that event's record |
| ApplyDiscount.ApplyRefusedRules | internal/app/product/usecases/apply_discount/interactor.go:51-63 | FindByID's error wins; then ErrInvalidDiscountPercent for unparsable or out-of-range text; then ErrInvalidDiscountPeriod; none commits |
| ApplyDiscount.ApplyAcceptedRules | internal/app/product/usecases/apply_discount/interactor.go:64-68 | ErrProductNotActive, ErrInvalidDiscountPeriod, ErrOverlappingDiscount in that order without commit; otherwise the update of the discount columns to the new discount, then one "product.discount_applied" record |
| ApplyDiscount.RemoveRules | internal/app/product/usecases/apply_discount/interactor.go:72-82 | FindByID's error wins; no discount gives ErrNoDiscount without commit; otherwise the three discount columns set to NULL, then one "product.discount_removed" record |
| ApplyDiscount.Interactor.constructor | internal/app/product/usecases/apply_discount/interactor.go:44-47 | keeps its collaborators |
| ApplyDiscount.Interactor.Apply | internal/app/product/usecases/apply_discount/interactor.go:51-69 | the effects are those of the apply execution; the clock is read exactly when the product is found and the discount accepted |
| ApplyDiscount.Interactor.Remove | internal/app/product/usecases/apply_discount/interactor.go:72-82 | the effects are those of the remove execution; the clock is read exactly when the product is found |
| ReadModel.RowDiscount | internal/app/product/queries/get_product/query.go:36-40 | a discount exactly when the stored text is non-empty, parses and passes NewDiscount with the row's seconds as instants (time.Unix(s, 0)), and then it is well formed with those values |
| ReadModel.InForce | internal/app/product/queries/get_product/query.go:36-40 | the row's discount exactly when it is valid and start ≤ Unix(now) < end in whole seconds, and then it is well formed |
| ReadModel.EffectiveTextIsPrice | internal/app/product/queries/get_product/query.go:34-42 | the effective text is the base price's, or the discounted price's, which never fails and lies in [0, base] |
| ReadModel.QueriesAgreeWithCalculator | internal/app/product/queries/list_products/query.go:37-46 | for a product with the row's price and discount, the queries' effective text is the calculator's EffectivePrice printed with two decimals |
| GetProduct.ExecuteRules | internal/app/product/queries/get_product/query.go:25-63 | read-model error propagated; invalid stored price gives ErrInvalidPrice. Otherwise the fields are copied, BasePrice has two decimals, and the discount view is present exactly when a valid discount is in force, echoing the stored text. The effective price is base − base·pct/100 within [0, base], or the base |
| GetProduct.ViewRules | internal/app/product/queries/get_product/query.go:34-62 | the success case of the rules above |
| ListProducts.ItemOfRules | internal/app/product/queries/list_products/query.go:33-55 | a row is kept exactly when NewMoney accepts its price; a kept item copies the fields and prices as the calculator does |
| ListProducts.OriginsRules | internal/app/product/queries/list_products/query.go:32-56 | items follow their rows in increasing order, and every row with an accepted price appears |
| ListProducts.ItemsLength | internal/app/product/queries/list_products/query.go:32-56 | no more items than rows, as many when every price is accepted |
| ListProducts.Execute | internal/app/product/queries/list_products/query.go:25-59 | the read-model error, or the items of its rows with one now for the page, and the next-page token passed through |
| GrpcErrors.Classify | internal/transport/grpc/product/errors.go:12-25 | every sentinel the error Is gives the code that sentinel stands for; Internal exactly when it Is no sentinel |
| GrpcErrors.MapDomainError | internal/transport/grpc/product/errors.go:11-27 | the code of the innermost error's sentinel, Internal when the innermost error is no sentinel, with err.Error() as the message |
| GrpcErrors.ClassifyByRoot | internal/transport/grpc/product/errors.go:11-27 | the five validation sentinels give InvalidArgument, the four state sentinels FailedPrecondition, anything else Internal, however deeply wrapped |
| GrpcErrors.WrappingKeepsCode | internal/transport/grpc/product/errors.go:11-27 | wrapping keeps the code and the message is err.Error() with the context prefixed |
| GrpcErrors.NotFoundIsInternal | internal/transport/grpc/product/errors.go:24-25 | the storage layer's not-found error maps to Internal with its own message |

## Left out

- Spanner I/O is not modelled. The SQL and scanning in `FindByID`, `GetByID`, `ListActive` and `scanProductDTO` are replaced by inputs: a map of stored rows, a read-model answer, a page of rows. This includes `ListActive`'s category filter and ordering. Only its limit/offset/next-token arithmetic is modelled.
- `OutboxRepo.InsertMut` and `spanner.InsertMap`/`UpdateMap`: a mutation is a table name and a column map, and the outbox repository is a function from record to optional mutation.
- `SpannerCommitter.Apply` (internal/pkg/committer/plan.go:37-67) is not modelled: its probing of the plan's representation and the Spanner transaction are replaced by a committer that records each plan and answers with a fixed error. Atomicity belongs to the store.
- `uuid.NewString` is a counter-indexed supply of distinct identifiers (`IdAt`).
- `json.Marshal` and RFC 3339 formatting are a `marshal` parameter that may fail.
- `big.Rat.SetString` is a `parse` parameter.
- `FloatString(4)` in `scanProductDTO` is not modelled: the row carries the percent text as stored.
- `%q` escaping in the marshal-error context is written as plain quotes.
- MoneyDomain.Sub: its operands are values, so the nil-operand ErrInvalidPrice of money.go:57-59 is not modelled; in the modelled commands and queries every product has a price and every discount a percentage, so no nil operand reaches it.
- MoneyDomain.Mul: its operands are values, so the nil-operand ErrInvalidPrice of money.go:70-72 is not modelled, for the same reason.
- MoneyDomain.Numerator: int64 overflow of the lowest-terms pair is not modelled; integers are unbounded.
- The wall clock (`time.Now()` in the queries, `RealClock`) is an explicit `now` or a clock object with a fixed tick.
- Instants are integers (nanoseconds since the epoch) and UTC normalisation is the identity. The read rows carry whole Unix seconds, as `scanProductDTO` produces, and the queries turn them into instants as `time.Unix(s, 0)` does.
- GrpcErrors.MapDomainError: the status is modelled as a code and message value; building a gRPC status error is not modelled.
- Repository.ProductRepository.InsertMut: the Go method can in principle return nil. The model's insert always returns a mutation, which is what `spanner.InsertMap` does.
- cmd/server/main.go, wiring (options, service, handlers, mappers), generated gRPC code and tests are not part of this model.
