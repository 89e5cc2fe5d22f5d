/** The ListProducts query: a page of stored rows turned into a page of
    listing items, each with its base and effective price; a row whose
    stored price NewMoney refuses is skipped. */
module ListProducts {
  import opened Wrappers
  import opened Rational
  import opened DomainErrors
  import opened MoneyDomain
  import opened Pricing
  import opened ReadModel

  datatype Item = Item(
    id: string,
    name: string,
    description: string,
    category: string,
    status: string,
    basePrice: string,
    effectivePrice: string)

  datatype Page = Page(items: seq<Item>, nextPageToken: string)

  /** The item a row becomes when the clock reads now, or None when its
      stored price is refused. */
  function ItemOf(row: ProductRow, parse: string -> Option<Rat>, now: int): Option<Item>
  {
    var base := NewMoney(row.basePriceNumerator, row.basePriceDenominator);
    if base.Failure? then None
    else
      Some(Item(row.id, row.name, row.description, row.category, row.status,
                String(base.value), EffectiveText(base.value, InForce(row, parse, now))))
  }

  /** The items of rows, in the order of the rows, without the skipped ones. */
  function Items(rows: seq<ProductRow>, parse: string -> Option<Rat>, now: int): seq<Item>
  {
    if rows == [] then []
    else
      var last := ItemOf(rows[|rows| - 1], parse, now);
      Items(rows[..|rows| - 1], parse, now) + (if last.Some? then [last.value] else [])
  }

  /** Where each item came from: the positions of the kept rows. */
  function Origins(rows: seq<ProductRow>, parse: string -> Option<Rat>, now: int): seq<nat>
  {
    if rows == [] then []
    else
      var n := |rows| - 1;
      Origins(rows[..n], parse, now) + (if ItemOf(rows[n], parse, now).Some? then [n] else [])
  }

  /** The items keep the order of the rows and skip nothing but refused
      prices: the origins increase, every row whose price is accepted is one
      of them, and item k is the item of the row at origin k. */
  lemma {:induction false} OriginsRules(rows: seq<ProductRow>, parse: string -> Option<Rat>, now: int)
    ensures var ix := Origins(rows, parse, now);
      && |ix| == |Items(rows, parse, now)|
      && (forall k :: 0 <= k < |ix| ==> ix[k] < |rows|)
      && (forall k, l :: 0 <= k < l < |ix| ==> ix[k] < ix[l])
      && (forall k :: 0 <= k < |ix| ==> ItemOf(rows[ix[k]], parse, now) == Some(Items(rows, parse, now)[k]))
      && (forall j :: 0 <= j < |rows| && ItemOf(rows[j], parse, now).Some? ==> j in ix)
  {
    hide ItemOf;
    if rows != [] {
      var n := |rows| - 1;
      var prefix := rows[..n];
      OriginsRules(prefix, parse, now);
      var before := Origins(prefix, parse, now);
      var items := Items(prefix, parse, now);
      assert forall j :: 0 <= j < n ==> rows[j] == prefix[j];
      if ItemOf(rows[n], parse, now).Some? {
        assert Origins(rows, parse, now) == before + [n];
        assert Items(rows, parse, now) == items + [ItemOf(rows[n], parse, now).value];
      } else {
        assert Origins(rows, parse, now) == before;
        assert Items(rows, parse, now) == items;
      }
    }
  }

  /** A row is kept exactly when NewMoney accepts its stored price, and every
      kept row's base price is that price with two decimals. */
  lemma ItemOfRules(row: ProductRow, parse: string -> Option<Rat>, now: int)
    ensures ItemOf(row, parse, now).Some? <==>
      row.basePriceDenominator != 0 && row.basePriceNumerator as real / row.basePriceDenominator as real >= 0.0
    ensures ItemOf(row, parse, now).Some? ==>
      var it := ItemOf(row, parse, now).value;
      var base := NewMoney(row.basePriceNumerator, row.basePriceDenominator).value;
      && it.id == row.id && it.name == row.name && it.description == row.description
      && it.category == row.category && it.status == row.status
      && it.basePrice == String(base)
      && (InForce(row, parse, now).None? ==> it.effectivePrice == it.basePrice)
      && (InForce(row, parse, now).Some? ==>
            && Discounted(base, InForce(row, parse, now).value).Success?
            && it.effectivePrice == String(Discounted(base, InForce(row, parse, now).value).value))
  {
    var base := NewMoney(row.basePriceNumerator, row.basePriceDenominator);
    if base.Success? {
      EffectiveTextIsPrice(base.value, row, parse, now);
    }
  }

  /** No more items than rows, and exactly as many when every stored price
      is accepted. */
  lemma {:induction false} ItemsLength(rows: seq<ProductRow>, parse: string -> Option<Rat>, now: int)
    ensures |Items(rows, parse, now)| <= |rows|
    ensures (forall j :: 0 <= j < |rows| ==> ItemOf(rows[j], parse, now).Some?) ==>
      |Items(rows, parse, now)| == |rows|
  {
    if rows != [] {
      var n := |rows| - 1;
      ItemsLength(rows[..n], parse, now);
      assert forall j :: 0 <= j < n ==> rows[..n][j] == rows[j];
    }
  }

  /** Execute(category, pageSize, pageToken) when the read model answers
      page and the clock reads now: the read model's error, or the items of
      its rows with its token passed through unchanged. Category, size and
      token select the rows inside the read model. */
  method Execute(page: Result<RowPage, Error>, parse: string -> Option<Rat>, now: int)
    returns (r: Result<Page, Error>)
    ensures page.Failure? ==> r == Failure(page.error)
    ensures page.Success? ==>
      r == Success(Page(Items(page.value.items, parse, now), page.value.nextPageToken))
  {
    if page.Failure? {
      return Failure(page.error);
    }
    var rows := page.value.items;
    var items: seq<Item> := [];
    var i := 0;
    while i < |rows|
      invariant 0 <= i <= |rows|
      invariant items == Items(rows[..i], parse, now)
    {
      var base := NewMoney(rows[i].basePriceNumerator, rows[i].basePriceDenominator);
      if base.Success? {
        var row := rows[i];
        var effective := EffectiveText(base.value, InForce(row, parse, now));
        items := items + [Item(row.id, row.name, row.description, row.category, row.status,
                               String(base.value), effective)];
      }
      assert rows[..i + 1][..i] == rows[..i];
      i := i + 1;
    }
    assert rows[..i] == rows;
    return Success(Page(items, page.value.nextPageToken));
  }
}
