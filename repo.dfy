/** The products table: loading an aggregate from a stored row, the full-row
    insert for a new product, the targeted update that writes only dirty
    fields, and the limit / offset / next-token arithmetic of paging. */
module Repository {
  import opened Wrappers
  import opened Rational
  import opened Decimal
  import opened DomainErrors
  import opened MoneyDomain
  import opened Discounts
  import opened ProductAggregate
  import opened Mutations

  // ---------------------------------------------------------------------------
  // Table and column names

  const ProductsTable: string := "products"

  const ColProductID: string := "product_id"
  const ColName: string := "name"
  const ColDescription: string := "description"
  const ColCategory: string := "category"
  const ColBasePriceNumerator: string := "base_price_numerator"
  const ColBasePriceDenominator: string := "base_price_denominator"
  const ColDiscountPercent: string := "discount_percent"
  const ColDiscountStart: string := "discount_start_date"
  const ColDiscountEnd: string := "discount_end_date"
  const ColStatus: string := "status"
  const ColCreatedAt: string := "created_at"
  const ColUpdatedAt: string := "updated_at"
  const ColArchivedAt: string := "archived_at"

  /** The three discount columns, always written together. */
  const DiscountColumns: set<string> := {ColDiscountPercent, ColDiscountStart, ColDiscountEnd}

  /** The columns every insert writes. */
  const InsertColumns: set<string> :=
    {ColProductID, ColName, ColDescription, ColCategory, ColBasePriceNumerator,
     ColBasePriceDenominator, ColStatus, ColCreatedAt, ColUpdatedAt, ColArchivedAt}

  // ---------------------------------------------------------------------------
  // Loading

  /** A products row as FindByID reads it; the nullable columns are options. */
  datatype StoredRow = StoredRow(
    id: string,
    name: string,
    description: string,
    category: string,
    baseNum: int,
    baseDen: int,
    discountPercent: Option<Rat>,
    discountStart: Option<int>,
    discountEnd: Option<int>,
    status: string,
    createdAt: int,
    updatedAt: int,
    archivedAt: Option<int>)

  /** A stored discount is rebuilt only when all three of its columns are set. */
  predicate HasDiscount(row: StoredRow)
  {
    row.discountPercent.Some? && row.discountStart.Some? && row.discountEnd.Some?
  }

  /** The aggregate FindByID rebuilds from a row: the stored price through
      NewMoney, the stored discount through NewDiscount, either one's error
      returned as is. */
  function Loaded(row: StoredRow): Result<ProductState, Error>
  {
    var price := NewMoney(row.baseNum, row.baseDen);
    if price.Failure? then Failure(price.error)
    else if !HasDiscount(row) then
      Success(Rehydrated(row.id, row.name, row.description, row.category, price.value, None,
                         StatusOf(row.status), row.createdAt, row.updatedAt, row.archivedAt))
    else
      var d := NewDiscount(row.discountPercent, row.discountStart.value, row.discountEnd.value);
      if d.Failure? then Failure(d.error)
      else
        Success(Rehydrated(row.id, row.name, row.description, row.category, price.value, Some(d.value),
                           StatusOf(row.status), row.createdAt, row.updatedAt, row.archivedAt))
  }

  /** The rules of loading, for every row: an unusable price is ErrInvalidPrice;
      the loaded product has a discount exactly when all three discount columns
      are set, and that discount passed NewDiscount; the stored fields are kept
      and the product comes back clean, with no events. */
  lemma LoadedRules(row: StoredRow)
    ensures
      var r := Loaded(row);
      && (NewMoney(row.baseNum, row.baseDen).Failure? ==> r == Failure(PriceError))
      && (NewMoney(row.baseNum, row.baseDen).Success? && HasDiscount(row) ==>
            (r.Failure? <==> NewDiscount(row.discountPercent, row.discountStart.value, row.discountEnd.value).Failure?))
      && (r.Failure? && NewMoney(row.baseNum, row.baseDen).Success? ==>
            r.error == NewDiscount(row.discountPercent, row.discountStart.value, row.discountEnd.value).error)
      && (NewMoney(row.baseNum, row.baseDen).Success? && !HasDiscount(row) ==> r.Success?)
      && (r.Success? ==>
            && (r.value.discount.Some? <==> HasDiscount(row))
            && (r.value.discount.Some? ==>
                  && WellFormed(r.value.discount.value)
                  && r.value.discount.value == Discount(row.discountPercent.value, row.discountStart.value, row.discountEnd.value))
            && Value(r.value.basePrice.amount) == row.baseNum as real / row.baseDen as real
            && r.value.id == row.id && r.value.name == row.name
            && r.value.description == row.description && r.value.category == row.category
            && StatusString(r.value.status) == row.status
            && r.value.createdAt == row.createdAt && r.value.updatedAt == row.updatedAt
            && r.value.archivedAt == row.archivedAt
            && r.value.dirty == {} && r.value.events == [])
  {
  }

  // ---------------------------------------------------------------------------
  // Mutations

  /** The full-row insert of a product. */
  function InsertMutation(s: ProductState): Mutation
  {
    var base := map[
      ColProductID := Text(s.id),
      ColName := Text(s.name),
      ColDescription := Text(s.description),
      ColCategory := Text(s.category),
      ColBasePriceNumerator := Int(Numerator(s.basePrice)),
      ColBasePriceDenominator := Int(Denominator(s.basePrice)),
      ColStatus := Text(StatusString(s.status)),
      ColCreatedAt := Time(s.createdAt),
      ColUpdatedAt := Time(s.updatedAt),
      ColArchivedAt := Null];
    var columns :=
      if s.discount.Some? then
        base[ColDiscountPercent := Numeric(s.discount.value.percentage)]
            [ColDiscountStart := Time(s.discount.value.start)]
            [ColDiscountEnd := Time(s.discount.value.end)]
      else base;
    Mutation(Insert, ProductsTable, columns)
  }

  /** What an insert writes: every base column, archived_at as NULL, the price
      as its lowest-terms pair with a positive denominator, and the discount
      columns only when there is a discount. */
  lemma InsertMutationRules(s: ProductState)
    ensures
      var m := InsertMutation(s);
      && m.op == Insert && m.table == ProductsTable
      && m.columns.Keys == InsertColumns + (if s.discount.Some? then DiscountColumns else {})
      && m.columns[ColProductID] == Text(s.id)
      && m.columns[ColName] == Text(s.name)
      && m.columns[ColDescription] == Text(s.description)
      && m.columns[ColCategory] == Text(s.category)
      && m.columns[ColStatus] == Text(StatusString(s.status))
      && m.columns[ColCreatedAt] == Time(s.createdAt)
      && m.columns[ColUpdatedAt] == Time(s.updatedAt)
      && m.columns[ColArchivedAt] == Null
      && m.columns[ColBasePriceNumerator].Int? && m.columns[ColBasePriceDenominator].Int?
      && m.columns[ColBasePriceNumerator].integer >= 0 && m.columns[ColBasePriceDenominator].integer > 0
      && Gcd(m.columns[ColBasePriceNumerator].integer, m.columns[ColBasePriceDenominator].integer) == 1
      && m.columns[ColBasePriceNumerator].integer as real / m.columns[ColBasePriceDenominator].integer as real
           == Value(s.basePrice.amount)
      && (s.discount.Some? ==>
            && m.columns[ColDiscountPercent] == Numeric(s.discount.value.percentage)
            && m.columns[ColDiscountStart] == Time(s.discount.value.start)
            && m.columns[ColDiscountEnd] == Time(s.discount.value.end))
  {
  }

  /** The first columns of a targeted update: product_id, then each dirty
      plain field's column, in the order UpdateMut fills them. */
  function FieldUpdates(s: ProductState): map<string, ColumnValue>
  {
    var u0 := map[ColProductID := Text(s.id)];
    var u1 := if FieldName in s.dirty then u0[ColName := Text(s.name)] else u0;
    var u2 := if FieldDescription in s.dirty then u1[ColDescription := Text(s.description)] else u1;
    var u3 := if FieldCategory in s.dirty then u2[ColCategory := Text(s.category)] else u2;
    var u4 := if FieldStatus in s.dirty then u3[ColStatus := Text(StatusString(s.status))] else u3;
    if FieldArchivedAt in s.dirty then
      u4[ColArchivedAt := if s.archivedAt.Some? then Time(s.archivedAt.value) else Null]
    else u4
  }

  /** The columns of a targeted update before updated_at is added: the field
      columns, then a dirty discount's three columns. */
  function UpdateColumns(s: ProductState): map<string, ColumnValue>
  {
    var u := FieldUpdates(s);
    if FieldDiscount in s.dirty then
      if s.discount.Some? then
        u[ColDiscountPercent := Numeric(s.discount.value.percentage)]
         [ColDiscountStart := Time(s.discount.value.start)]
         [ColDiscountEnd := Time(s.discount.value.end)]
      else
        u[ColDiscountPercent := Null][ColDiscountStart := Null][ColDiscountEnd := Null]
    else u
  }

  /** The targeted update of a product: nothing when only the id would be
      written, otherwise the dirty columns plus updated_at. */
  function UpdateMutation(s: ProductState): Option<Mutation>
  {
    var columns := UpdateColumns(s);
    if |columns| == 1 then None
    else Some(Mutation(Update, ProductsTable, columns[ColUpdatedAt := Time(s.updatedAt)]))
  }

  /** The columns each dirty field maps to. */
  function ColumnsOf(dirty: set<string>): (cols: set<string>)
    ensures ColProductID !in cols && ColUpdatedAt !in cols
  {
    (if FieldName in dirty then {ColName} else {})
    + (if FieldDescription in dirty then {ColDescription} else {})
    + (if FieldCategory in dirty then {ColCategory} else {})
    + (if FieldStatus in dirty then {ColStatus} else {})
    + (if FieldArchivedAt in dirty then {ColArchivedAt} else {})
    + (if FieldDiscount in dirty then DiscountColumns else {})
  }

  /** A field outside the six tracked ones writes no column. */
  lemma ColumnsOfEmpty(dirty: set<string>)
    ensures ColumnsOf(dirty) == {} <==> dirty * TrackedFields == {}
  {
    if dirty * TrackedFields != {} {
      var f :| f in dirty * TrackedFields;
      assert f in ColumnsOf(dirty) || (f == FieldDiscount && ColDiscountPercent in ColumnsOf(dirty));
    } else {
      forall f | f in TrackedFields
        ensures f !in dirty
      {
        assert f !in dirty * TrackedFields;
      }
    }
  }

  /** The plain field columns. */
  function FieldColumns(dirty: set<string>): set<string>
  {
    (if FieldName in dirty then {ColName} else {})
    + (if FieldDescription in dirty then {ColDescription} else {})
    + (if FieldCategory in dirty then {ColCategory} else {})
    + (if FieldStatus in dirty then {ColStatus} else {})
    + (if FieldArchivedAt in dirty then {ColArchivedAt} else {})
  }

  lemma FieldUpdatesKeys(s: ProductState)
    ensures FieldUpdates(s).Keys == {ColProductID} + FieldColumns(s.dirty)
    ensures FieldUpdates(s)[ColProductID] == Text(s.id)
  {
  }

  lemma UpdateColumnsKeys(s: ProductState)
    ensures UpdateColumns(s).Keys == {ColProductID} + ColumnsOf(s.dirty)
    ensures UpdateColumns(s)[ColProductID] == Text(s.id)
  {
    hide FieldUpdates;
    FieldUpdatesKeys(s);
    assert ColumnsOf(s.dirty) == FieldColumns(s.dirty) + (if FieldDiscount in s.dirty then DiscountColumns else {});
  }

  /** A set holding x has one element exactly when it holds nothing else. */
  lemma SingletonSize<T>(x: T, s: set<T>)
    requires x in s
    ensures |s| == 1 <==> s == {x}
  {
    if s != {x} {
      var y :| y in s && y != x;
      assert {x, y} <= s;
      assert |s - {x, y}| == |s| - 2;
    }
  }

  /** Each dirty plain field's column holds the product's current value. */
  lemma FieldUpdatesValues(s: ProductState)
    ensures
      var c := FieldUpdates(s);
      && (FieldName in s.dirty ==> c[ColName] == Text(s.name))
      && (FieldDescription in s.dirty ==> c[ColDescription] == Text(s.description))
      && (FieldCategory in s.dirty ==> c[ColCategory] == Text(s.category))
      && (FieldStatus in s.dirty ==> c[ColStatus] == Text(StatusString(s.status)))
      && (FieldArchivedAt in s.dirty ==>
            c[ColArchivedAt] == (if s.archivedAt.Some? then Time(s.archivedAt.value) else Null))
  {
    FieldUpdatesKeys(s);
  }

  /** Each dirty field's columns hold the product's current values. */
  lemma UpdateColumnsValues(s: ProductState)
    ensures
      var c := UpdateColumns(s);
      && (FieldName in s.dirty ==> c[ColName] == Text(s.name))
      && (FieldDescription in s.dirty ==> c[ColDescription] == Text(s.description))
      && (FieldCategory in s.dirty ==> c[ColCategory] == Text(s.category))
      && (FieldStatus in s.dirty ==> c[ColStatus] == Text(StatusString(s.status)))
      && (FieldArchivedAt in s.dirty ==>
            c[ColArchivedAt] == (if s.archivedAt.Some? then Time(s.archivedAt.value) else Null))
      && (FieldDiscount in s.dirty && s.discount.Some? ==>
            && c[ColDiscountPercent] == Numeric(s.discount.value.percentage)
            && c[ColDiscountStart] == Time(s.discount.value.start)
            && c[ColDiscountEnd] == Time(s.discount.value.end))
      && (FieldDiscount in s.dirty && s.discount.None? ==>
            c[ColDiscountPercent] == Null && c[ColDiscountStart] == Null && c[ColDiscountEnd] == Null)
  {
    hide FieldUpdates;
    FieldUpdatesKeys(s);
    FieldUpdatesValues(s);
  }

  /** The rules of UpdateMut, for every state: no mutation exactly when none of
      the six tracked fields is dirty; otherwise product_id and updated_at,
      plus each dirty field's columns with the current values (see
      UpdateColumnsValues), a dirty discount writing its three columns or
      three NULLs. */
  lemma UpdateMutationRules(s: ProductState)
    ensures
      var r := UpdateMutation(s);
      && (r.None? <==> s.dirty * TrackedFields == {})
      && (r.Some? ==>
            && r.value.op == Update && r.value.table == ProductsTable
            && r.value.columns.Keys == {ColProductID, ColUpdatedAt} + ColumnsOf(s.dirty)
            && r.value.columns[ColProductID] == Text(s.id)
            && r.value.columns[ColUpdatedAt] == Time(s.updatedAt)
            && (forall col :: col in ColumnsOf(s.dirty) ==> r.value.columns[col] == UpdateColumns(s)[col]))
  {
    hide UpdateColumns, ColumnsOf;
    var columns := UpdateColumns(s);
    UpdateColumnsKeys(s);
    ColumnsOfEmpty(s.dirty);
    SingletonSize(ColProductID, columns.Keys);
    assert |columns| == |columns.Keys|;
  }

  // ---------------------------------------------------------------------------
  // The repository

  /** ProductRepo over the stored rows, keyed by product id. */
  class ProductRepository {
    var rows: map<string, StoredRow>

    constructor (rows: map<string, StoredRow>)
      ensures this.rows == rows
    {
      this.rows := rows;
    }

    /** What FindByID gives for an id: the missing-row error, or the loaded
        aggregate. */
    function Lookup(id: string): Result<ProductState, Error>
      reads this
    {
      if id in rows then Loaded(rows[id]) else Failure(NotFound)
    }

    /** FindByID: a missing row is iterator.Done; otherwise the row is loaded
        into a new aggregate. */
    method FindByID(id: string) returns (r: Result<Product, Error>)
      ensures r.Failure? ==> Lookup(id) == Failure(r.error)
      ensures r.Success? ==> fresh(r.value) && fresh(r.value.changes) && Lookup(id) == Success(r.value.State())
    {
      if id !in rows {
        return Failure(NotFound);
      }
      var row := rows[id];
      var price := NewMoney(row.baseNum, row.baseDen);
      if price.Failure? {
        return Failure(price.error);
      }
      var discount: Option<Discount> := None;
      if row.discountPercent.Some? && row.discountStart.Some? && row.discountEnd.Some? {
        var d := NewDiscount(row.discountPercent, row.discountStart.value, row.discountEnd.value);
        if d.Failure? {
          return Failure(d.error);
        }
        discount := Some(d.value);
      }
      var p := new Product.Rehydrate(row.id, row.name, row.description, row.category, price.value, discount,
                                     StatusOf(row.status), row.createdAt, row.updatedAt, row.archivedAt);
      return Success(p);
    }

    /** InsertMut: the full-row insert of the product as it is now. */
    method InsertMut(p: Product) returns (m: Mutation)
      ensures m == InsertMutation(p.State())
    {
      var values := map[
        ColProductID := Text(p.id),
        ColName := Text(p.name),
        ColDescription := Text(p.description),
        ColCategory := Text(p.category),
        ColBasePriceNumerator := Int(Numerator(p.basePrice)),
        ColBasePriceDenominator := Int(Denominator(p.basePrice)),
        ColStatus := Text(StatusString(p.status)),
        ColCreatedAt := Time(p.createdAt),
        ColUpdatedAt := Time(p.updatedAt),
        ColArchivedAt := Null];
      if p.discount.Some? {
        values := values[ColDiscountPercent := Numeric(p.discount.value.percentage)];
        values := values[ColDiscountStart := Time(p.discount.value.start)];
        values := values[ColDiscountEnd := Time(p.discount.value.end)];
      }
      return Mutation(Insert, ProductsTable, values);
    }

    /** UpdateMut: the targeted update of the product's dirty fields, or none. */
    method UpdateMut(p: Product) returns (m: Option<Mutation>)
      ensures m == UpdateMutation(p.State())
    {
      var updates := map[ColProductID := Text(p.id)];
      if p.changes.Dirty(FieldName) {
        updates := updates[ColName := Text(p.name)];
      }
      if p.changes.Dirty(FieldDescription) {
        updates := updates[ColDescription := Text(p.description)];
      }
      if p.changes.Dirty(FieldCategory) {
        updates := updates[ColCategory := Text(p.category)];
      }
      if p.changes.Dirty(FieldStatus) {
        updates := updates[ColStatus := Text(StatusString(p.status))];
      }
      if p.changes.Dirty(FieldArchivedAt) {
        updates := updates[ColArchivedAt := if p.archivedAt.Some? then Time(p.archivedAt.value) else Null];
      }
      assert updates == FieldUpdates(p.State());
      hide FieldUpdates;
      if p.changes.Dirty(FieldDiscount) {
        if p.discount.Some? {
          updates := updates[ColDiscountPercent := Numeric(p.discount.value.percentage)];
          updates := updates[ColDiscountStart := Time(p.discount.value.start)];
          updates := updates[ColDiscountEnd := Time(p.discount.value.end)];
        } else {
          updates := updates[ColDiscountPercent := Null];
          updates := updates[ColDiscountStart := Null];
          updates := updates[ColDiscountEnd := Null];
        }
      }
      assert updates == UpdateColumns(p.State());
      if |updates| == 1 {
        return None;
      }
      updates := updates[ColUpdatedAt := Time(p.updatedAt)];
      return Some(Mutation(Update, ProductsTable, updates));
    }
  }

  // ---------------------------------------------------------------------------
  // Paging of ListActive

  const DefaultPageSize: int := 20

  /** The page size asked for when positive, otherwise 20. */
  function PageLimit(pageSize: int): (limit: int)
    ensures limit >= 1
    ensures pageSize >= 1 ==> limit == pageSize
    ensures pageSize <= 0 ==> limit == DefaultPageSize
  {
    if pageSize <= 0 then DefaultPageSize else pageSize
  }

  /** The offset a page token names: 0 for the empty token and for one that is
      not a decimal int64. */
  function PageOffset(token: string): (offset: int)
    ensures IsInt64(offset)
    ensures token != "" && ParseInt64(token).Some? ==> offset == ParseInt64(token).value
    ensures token == "" || ParseInt64(token).None? ==> offset == 0
  {
    if token == "" then 0
    else
      var parsed := ParseInt64(token);
      if parsed.None? then 0 else parsed.value
  }

  /** The token of the next page: the decimal of offset + limit (an int64 sum)
      when this page came back full, "" when it came back short. */
  function NextPageToken(offset: int, limit: int, count: int): string
  {
    if count == limit then IntToString(WrapInt64(offset + limit)) else ""
  }

  /** There is a next page exactly when this one is full, and its token leads
      to the offset just past this page. */
  lemma NextPageTokenRoundTrip(offset: int, limit: int, count: int)
    requires IsInt64(offset + limit)
    ensures NextPageToken(offset, limit, count) != "" <==> count == limit
    ensures count == limit ==> PageOffset(NextPageToken(offset, limit, count)) == offset + limit
  {
    if count == limit {
      ParseIntToString(offset + limit);
      assert |NatToString(if offset + limit < 0 then -(offset + limit) else offset + limit)| >= 1;
    }
  }

  /** Past the end of the int64 range the next offset wraps: the token of a
      full page always parses, to the int64 sum of offset and limit, which is
      negative once the exact sum passes the largest int64. */
  lemma NextPageTokenWraps(offset: int, limit: int)
    requires IsInt64(offset) && IsInt64(limit)
    ensures PageOffset(NextPageToken(offset, limit, limit)) == WrapInt64(offset + limit)
    ensures offset + limit > MaxInt64 ==>
      PageOffset(NextPageToken(offset, limit, limit)) == offset + limit - TwoTo64 < 0
  {
    var w := WrapInt64(offset + limit);
    ParseIntToString(w);
    assert IntToString(w) != "" by {
      assert |NatToString(if w < 0 then -w else w)| >= 1;
    }
    if offset + limit > MaxInt64 {
      WrapPastMax(offset + limit);
    }
    hide IntToString, ParseInt64, WrapInt64;
    assert NextPageToken(offset, limit, limit) == IntToString(w);
  }

  /** The first page starts at offset 0. */
  lemma FirstPageStartsAtZero()
    ensures PageOffset("") == 0
  {
  }
}
