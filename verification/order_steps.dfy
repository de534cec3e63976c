/** The pure steps of `CreateOrderService.execute`: the bulk product lookup it
    relies on, and the `filter`/`map`/`includes` expressions between its
    repository calls, each with the facts that tie it to the catalog. */
module OrderSteps {
  import opened Entities

  // ---------------------------------------------------------------------------
  // Ids of lists

  /** The ids of the returned products, in order (:50). */
  function ProductIds(found: seq<Product>): (ids: seq<Id>)
    ensures |ids| == |found|
    ensures forall i :: 0 <= i < |found| ==> ids[i] == found[i].id
  {
    if found == [] then [] else [found[0].id] + ProductIds(found[1..])
  }

  /** The ids a request asks for, in request order. */
  function RequestIds(request: seq<LineRequest>): (ids: seq<Id>)
    ensures |ids| == |request|
    ensures forall i :: 0 <= i < |request| ==> ids[i] == request[i].id
  {
    if request == [] then [] else [request[0].id] + RequestIds(request[1..])
  }

  // ---------------------------------------------------------------------------
  // What the request asks of the catalog

  /** Some requested id is in the catalog. */
  predicate AnyKnown(catalog: map<Id, Stock>, request: seq<LineRequest>) {
    exists l :: l in request && l.id in catalog
  }

  /** Every requested id is in the catalog. */
  predicate AllKnown(catalog: map<Id, Stock>, request: seq<LineRequest>) {
    forall l :: l in request ==> l.id in catalog
  }

  /** `request[k]` is the first line, in request order, whose id is not in the catalog. */
  predicate FirstUnknownAt(catalog: map<Id, Stock>, request: seq<LineRequest>, k: int) {
    && 0 <= k < |request|
    && request[k].id !in catalog
    && forall j :: 0 <= j < k ==> request[j].id in catalog
  }

  /** The catalog does not hold more units of `l`'s product than `l` asks for
      (equal stock counts as too little). */
  predicate ShortOf(catalog: map<Id, Stock>, l: LineRequest)
    requires l.id in catalog
  {
    catalog[l.id].quantity <= l.quantity
  }

  /** `request[k]` is the last line that asks for its product. */
  predicate LastLineFor(request: seq<LineRequest>, k: int) {
    && 0 <= k < |request|
    && forall j :: k < j < |request| ==> request[j].id != request[k].id
  }

  // ---------------------------------------------------------------------------
  // productsRepository.findAllById

  /** What the service relies on from `findAllById(products)` (its implementation
      is not part of this model): every product returned is a catalog entry whose
      id was requested, carrying its catalog price and quantity, and every
      requested id that is in the catalog is returned. The order is left open. */
  predicate IsLookup(catalog: map<Id, Stock>, request: seq<LineRequest>, found: seq<Product>) {
    && (forall p :: p in found ==>
          p.id in catalog && catalog[p.id] == Stock(p.price, p.quantity) && p.id in RequestIds(request))
    && (forall l :: l in request && l.id in catalog ==> l.id in ProductIds(found))
  }

  /** One lookup that meets `IsLookup`: the requested catalog products, each
      once, in the order of their first request. */
  function FindAllById(catalog: map<Id, Stock>, request: seq<LineRequest>): (found: seq<Product>)
    decreases |request|
  {
    if request == [] then []
    else
      var prefix := FindAllById(catalog, request[..|request| - 1]);
      var id := request[|request| - 1].id;
      if id in catalog && id !in ProductIds(prefix) then
        prefix + [Product(id, catalog[id].price, catalog[id].quantity)]
      else prefix
  }

  lemma {:induction false} ProductIdsAppend(found: seq<Product>, p: Product)
    ensures ProductIds(found + [p]) == ProductIds(found) + [p.id]
  {
    var ids := ProductIds(found + [p]);
    assert |ids| == |ProductIds(found) + [p.id]|;
    forall i | 0 <= i < |ids| ensures ids[i] == (ProductIds(found) + [p.id])[i] {
      assert (found + [p])[i] == if i < |found| then found[i] else p;
    }
  }

  /** `FindAllById` is a lookup `execute` may rely on, and it never returns a
      product twice. */
  lemma {:induction false} FindAllByIdIsLookup(catalog: map<Id, Stock>, request: seq<LineRequest>)
    ensures IsLookup(catalog, request, FindAllById(catalog, request))
    ensures forall i, j :: 0 <= i < j < |FindAllById(catalog, request)| ==>
              FindAllById(catalog, request)[i].id != FindAllById(catalog, request)[j].id
    decreases |request|
  {
    if request != [] {
      var init := request[..|request| - 1];
      var last := request[|request| - 1];
      FindAllByIdIsLookup(catalog, init);
      var prefix := FindAllById(catalog, init);
      assert request == init + [last];
      forall p | p in prefix ensures p.id in RequestIds(request) {
        var k :| 0 <= k < |init| && RequestIds(init)[k] == p.id;
        assert RequestIds(request)[k] == request[k].id == init[k].id;
      }
      assert last.id == RequestIds(request)[|request| - 1];
      if last.id in catalog && last.id !in ProductIds(prefix) {
        var p := Product(last.id, catalog[last.id].price, catalog[last.id].quantity);
        ProductIdsAppend(prefix, p);
        forall l | l in request && l.id in catalog ensures l.id in ProductIds(prefix + [p]) {
          if l != last {
            assert l in init;
          }
        }
      } else {
        forall l | l in request && l.id in catalog ensures l.id in ProductIds(prefix) {
          if l != last {
            assert l in init;
          }
        }
      }
    }
  }

  /** The lookup comes back empty exactly when no requested id is in the catalog. */
  lemma EmptyLookupIffNoneKnown(catalog: map<Id, Stock>, request: seq<LineRequest>, found: seq<Product>)
    requires IsLookup(catalog, request, found)
    ensures |found| == 0 <==> !AnyKnown(catalog, request)
  {
    if |found| > 0 {
      assert found[0] in found;
      var k :| 0 <= k < |request| && RequestIds(request)[k] == found[0].id;
      assert request[k] in request;
    }
  }

  /** For a requested id, `existenteProductsIds.includes(id)` holds exactly when
      the id is in the catalog. */
  lemma LookupIdsMatchCatalog(catalog: map<Id, Stock>, request: seq<LineRequest>, found: seq<Product>, l: LineRequest)
    requires IsLookup(catalog, request, found)
    requires l in request
    ensures l.id in ProductIds(found) <==> l.id in catalog
  {
    if l.id in ProductIds(found) {
      var i :| 0 <= i < |found| && ProductIds(found)[i] == l.id;
      assert found[i] in found;
    }
  }

  // ---------------------------------------------------------------------------
  // Missing-product check (:50-59)

  /** The request lines whose id the lookup did not return, in request order
      (:52-54). */
  function MissingProducts(request: seq<LineRequest>, ids: seq<Id>): (missing: seq<LineRequest>)
    ensures forall l :: l in missing <==> l in request && l.id !in ids
    ensures |missing| <= |request|
  {
    if request == [] then []
    else (if request[0].id in ids then [] else [request[0]]) + MissingProducts(request[1..], ids)
  }

  /** `request[k]` is the first line whose id is not among `ids`. */
  predicate FirstAbsentAt(request: seq<LineRequest>, ids: seq<Id>, k: int) {
    && 0 <= k < |request|
    && request[k].id !in ids
    && forall j :: 0 <= j < k ==> request[j].id in ids
  }

  /** `checkInexsitentProducts[0]` is the first request line, in request order,
      whose id the lookup did not return. */
  lemma {:induction false} MissingHeadIsFirstAbsent(request: seq<LineRequest>, ids: seq<Id>)
    requires |MissingProducts(request, ids)| > 0
    ensures exists k :: FirstAbsentAt(request, ids, k) && MissingProducts(request, ids)[0] == request[k]
  {
    if request[0].id in ids {
      MissingHeadIsFirstAbsent(request[1..], ids);
      var k :| FirstAbsentAt(request[1..], ids, k) && MissingProducts(request[1..], ids)[0] == request[1..][k];
      assert FirstAbsentAt(request, ids, k + 1);
    } else {
      assert FirstAbsentAt(request, ids, 0);
    }
  }

  /** With a lookup that meets `IsLookup`, the missing-product check fires
      exactly when some requested id is not in the catalog, and it reports the
      first such line in request order. */
  lemma MissingProductsMatchCatalog(catalog: map<Id, Stock>, request: seq<LineRequest>, found: seq<Product>)
    requires IsLookup(catalog, request, found)
    ensures |MissingProducts(request, ProductIds(found))| == 0 <==> AllKnown(catalog, request)
    ensures |MissingProducts(request, ProductIds(found))| > 0 ==>
              exists k :: FirstUnknownAt(catalog, request, k)
                       && MissingProducts(request, ProductIds(found))[0] == request[k]
  {
    var ids := ProductIds(found);
    var missing := MissingProducts(request, ids);
    forall l | l in request ensures l.id in ids <==> l.id in catalog {
      LookupIdsMatchCatalog(catalog, request, found, l);
    }
    if |missing| > 0 {
      assert missing[0] in missing;
      MissingHeadIsFirstAbsent(request, ids);
      var k :| FirstAbsentAt(request, ids, k) && missing[0] == request[k];
      forall j | 0 <= j <= k ensures request[j].id in ids <==> request[j].id in catalog {
        assert request[j] in request;
      }
      assert FirstUnknownAt(catalog, request, k);
    }
  }

  // ---------------------------------------------------------------------------
  // First match in the lookup (:63, :76, :89)

  /** The first returned product with the given id (:63, :76, :89). Callers reach it only once the id is known to be
      among the returned ids, so the `[0]` is never `undefined`. */
  function FirstWithId(found: seq<Product>, id: Id): (p: Product)
    requires id in ProductIds(found)
    ensures p.id == id
    ensures exists k :: 0 <= k < |found| && found[k] == p && forall j :: 0 <= j < k ==> found[j].id != id
  {
    if found[0].id == id then found[0]
    else
      var p := FirstWithId(found[1..], id);
      var k :| 0 <= k < |found[1..]| && found[1..][k] == p && forall j :: 0 <= j < k ==> found[1..][j].id != id;
      assert found[k + 1] == p;
      p
  }

  /** With a lookup that meets `IsLookup`, the first match is the catalog entry itself. */
  lemma FirstWithIdIsCatalogEntry(catalog: map<Id, Stock>, request: seq<LineRequest>, found: seq<Product>, id: Id)
    requires IsLookup(catalog, request, found)
    requires id in ProductIds(found)
    ensures id in catalog
    ensures FirstWithId(found, id) == Product(id, catalog[id].price, catalog[id].quantity)
  {
    var p := FirstWithId(found, id);
    assert p in found;
  }

  // ---------------------------------------------------------------------------
  // Stock filter (:61-65)

  /** The request lines whose returned stock is at most the requested
      quantity, in request order (:61-65). */
  function StockShortfalls(request: seq<LineRequest>, found: seq<Product>): (short: seq<LineRequest>)
    requires forall l :: l in request ==> l.id in ProductIds(found)
    ensures forall l :: l in short <==> l in request && FirstWithId(found, l.id).quantity <= l.quantity
    ensures |short| <= |request|
  {
    if request == [] then []
    else
      (if FirstWithId(found, request[0].id).quantity <= request[0].quantity then [request[0]] else [])
      + StockShortfalls(request[1..], found)
  }

  /** Once every requested id is in the catalog, the stock filter selects
      exactly the lines whose catalog quantity is at most the requested one,
      equal stock included; it is empty exactly when no line is short. */
  lemma ShortfallsMatchCatalog(catalog: map<Id, Stock>, request: seq<LineRequest>, found: seq<Product>)
    requires IsLookup(catalog, request, found)
    requires AllKnown(catalog, request)
    ensures forall l :: l in request ==> l.id in ProductIds(found)
    ensures forall l :: l in StockShortfalls(request, found) <==> l in request && ShortOf(catalog, l)
    ensures |StockShortfalls(request, found)| == 0 <==> forall l :: l in request ==> !ShortOf(catalog, l)
  {
    forall l | l in request ensures l.id in ProductIds(found) && FirstWithId(found, l.id).quantity == catalog[l.id].quantity {
      FirstWithIdIsCatalogEntry(catalog, request, found, l.id);
    }
    var short := StockShortfalls(request, found);
    if |short| > 0 {
      assert short[0] in short;
    }
  }

  // ---------------------------------------------------------------------------
  // Line serialisation (:73-77)

  /** One serialised line per request line, in request order, with the
      requested id and quantity and the price of the first match (:73-77). */
  function SerializeLines(request: seq<LineRequest>, found: seq<Product>): (lines: seq<LineData>)
    requires forall l :: l in request ==> l.id in ProductIds(found)
  {
    seq(|request|, i requires 0 <= i < |request| =>
      LineData(request[i].id, request[i].quantity, FirstWithId(found, request[i].id).price))
  }

  /** Serialisation keeps the request's length and order; each line carries the
      requested id and quantity and the catalog price at lookup time. */
  lemma SerializeLinesSnapshot(catalog: map<Id, Stock>, request: seq<LineRequest>, found: seq<Product>)
    requires IsLookup(catalog, request, found)
    requires AllKnown(catalog, request)
    ensures forall l :: l in request ==> l.id in ProductIds(found)
    ensures |SerializeLines(request, found)| == |request|
    ensures forall i :: 0 <= i < |request| ==>
              SerializeLines(request, found)[i] == LineData(request[i].id, request[i].quantity, catalog[request[i].id].price)
  {
    ShortfallsMatchCatalog(catalog, request, found);
    forall i | 0 <= i < |request|
      ensures SerializeLines(request, found)[i] == LineData(request[i].id, request[i].quantity, catalog[request[i].id].price)
    {
      assert request[i] in request;
      FirstWithIdIsCatalogEntry(catalog, request, found, request[i].id);
    }
  }

  // ---------------------------------------------------------------------------
  // New stock levels (:86-91)

  /** The new stock per persisted row, looked up by the row's `product_id`:
      catalog quantity minus ordered quantity. */
  function NewQuantities(rows: seq<OrderProduct>, found: seq<Product>): (updates: seq<StockUpdate>)
    requires forall i :: 0 <= i < |rows| ==> rows[i].productId in ProductIds(found)
  {
    seq(|rows|, i requires 0 <= i < |rows| =>
      StockUpdate(rows[i].productId, FirstWithId(found, rows[i].productId).quantity - rows[i].quantity))
  }

  /** One update per row, in row order; each takes the ordered quantity off the
      catalog quantity of the row's product. */
  lemma NewQuantitiesSubtract(catalog: map<Id, Stock>, request: seq<LineRequest>, found: seq<Product>, rows: seq<OrderProduct>)
    requires IsLookup(catalog, request, found)
    requires forall i :: 0 <= i < |rows| ==> rows[i].productId in ProductIds(found)
    ensures |NewQuantities(rows, found)| == |rows|
    ensures forall i :: 0 <= i < |rows| ==>
              && rows[i].productId in catalog
              && NewQuantities(rows, found)[i]
                 == StockUpdate(rows[i].productId, catalog[rows[i].productId].quantity - rows[i].quantity)
  {
    forall i | 0 <= i < |rows|
      ensures rows[i].productId in catalog
      ensures NewQuantities(rows, found)[i]
              == StockUpdate(rows[i].productId, catalog[rows[i].productId].quantity - rows[i].quantity)
    {
      FirstWithIdIsCatalogEntry(catalog, request, found, rows[i].productId);
    }
  }

  /** The computation as written at :89: the match is looked up by the row's
      own `id` rather than its `product_id`. When no returned product has that
      id, `[0]` is `undefined` and reading `.quantity` throws a TypeError,
      modelled as `None`. */
  function NewQuantitiesAsWritten(rows: seq<OrderProduct>, found: seq<Product>): (updates: Option<seq<StockUpdate>>)
  {
    if forall i :: 0 <= i < |rows| ==> rows[i].id in ProductIds(found) then
      Some(seq(|rows|, i requires 0 <= i < |rows| =>
        StockUpdate(rows[i].productId, FirstWithId(found, rows[i].id).quantity - rows[i].quantity)))
    else None
  }

  /** When the generated row ids are not product ids, the computation as
      written throws for every non-empty order. */
  lemma AsWrittenThrowsOnGeneratedRowIds(catalog: map<Id, Stock>, request: seq<LineRequest>, found: seq<Product>, rows: seq<OrderProduct>)
    requires IsLookup(catalog, request, found)
    requires |rows| > 0
    requires forall i :: 0 <= i < |rows| ==> rows[i].id !in catalog
    ensures NewQuantitiesAsWritten(rows, found) == None
  {
    forall k | 0 <= k < |found| ensures ProductIds(found)[k] != rows[0].id {
      assert found[k] in found;
    }
    assert rows[0].id !in ProductIds(found);
    assert !(forall i :: 0 <= i < |rows| ==> rows[i].id in ProductIds(found));
  }

  /** When the computation as written does not throw, entry i takes row i's
      ordered quantity off the stock of the product whose id is row i's own id,
      not off the stock of the product the row refers to. */
  lemma AsWrittenSubtractsFromRowIdEntry(catalog: map<Id, Stock>, request: seq<LineRequest>, found: seq<Product>, rows: seq<OrderProduct>)
    requires IsLookup(catalog, request, found)
    requires NewQuantitiesAsWritten(rows, found).Some?
    ensures |NewQuantitiesAsWritten(rows, found).value| == |rows|
    ensures forall i :: 0 <= i < |rows| ==>
              && rows[i].id in catalog
              && NewQuantitiesAsWritten(rows, found).value[i]
                 == StockUpdate(rows[i].productId, catalog[rows[i].id].quantity - rows[i].quantity)
  {
    forall i | 0 <= i < |rows|
      ensures rows[i].id in catalog
      ensures NewQuantitiesAsWritten(rows, found).value[i]
              == StockUpdate(rows[i].productId, catalog[rows[i].id].quantity - rows[i].quantity)
    {
      FirstWithIdIsCatalogEntry(catalog, request, found, rows[i].id);
    }
  }

  /** A persisted row for product "p1" gets a generated row id such as "op-1";
      the lookup at :89 then finds nothing and throws, while the lookup by
      `product_id` yields the decremented stock. */
  lemma AsWrittenStockUpdateThrows()
    ensures NewQuantitiesAsWritten([OrderProduct("op-1", "p1", 2, 10)], [Product("p1", 10, 5)]) == None
    ensures NewQuantities([OrderProduct("op-1", "p1", 2, 10)], [Product("p1", 10, 5)]) == [StockUpdate("p1", 3)]
  {
    var rows := [OrderProduct("op-1", "p1", 2, 10)];
    var found := [Product("p1", 10, 5)];
    assert ProductIds(found) == ["p1"];
    assert rows[0].id !in ProductIds(found) by {
      assert rows[0].id[0] != "p1"[0];
    }
  }

  // ---------------------------------------------------------------------------
  // productsRepository.updateQuantity

  /** The catalog after `updateQuantity(updates)`. Its implementation is not part
      of this model; it is taken to write each entry's quantity in list order
      (a later entry for the same id wins) and to ignore ids not in the catalog. */
  function ApplyUpdates(catalog: map<Id, Stock>, updates: seq<StockUpdate>): (after: map<Id, Stock>)
    ensures after.Keys == catalog.Keys
  {
    if updates == [] then catalog
    else
      var u := updates[0];
      var next := if u.id in catalog then catalog[u.id := catalog[u.id].(quantity := u.quantity)] else catalog;
      ApplyUpdates(next, updates[1..])
  }

  /** `updates[k]` is the last entry for its id. */
  predicate LastUpdateFor(updates: seq<StockUpdate>, id: Id, k: int) {
    && 0 <= k < |updates|
    && updates[k].id == id
    && forall j :: k < j < |updates| ==> updates[j].id != id
  }

  /** After `updateQuantity`, a product keeps its price; a product no entry
      names is unchanged; a named product holds the quantity of the last entry
      that names it. */
  lemma {:induction false} ApplyUpdatesEffect(catalog: map<Id, Stock>, updates: seq<StockUpdate>, id: Id)
    requires id in catalog
    ensures id in ApplyUpdates(catalog, updates)
    ensures ApplyUpdates(catalog, updates)[id].price == catalog[id].price
    ensures (forall j :: 0 <= j < |updates| ==> updates[j].id != id) ==> ApplyUpdates(catalog, updates)[id] == catalog[id]
    ensures forall k :: LastUpdateFor(updates, id, k) ==> ApplyUpdates(catalog, updates)[id].quantity == updates[k].quantity
  {
    if updates != [] {
      var u := updates[0];
      var next := if u.id in catalog then catalog[u.id := catalog[u.id].(quantity := u.quantity)] else catalog;
      ApplyUpdatesEffect(next, updates[1..], id);
      assert ApplyUpdates(catalog, updates) == ApplyUpdates(next, updates[1..]);
      forall k | LastUpdateFor(updates, id, k)
        ensures ApplyUpdates(catalog, updates)[id].quantity == updates[k].quantity
      {
        if k > 0 {
          assert LastUpdateFor(updates[1..], id, k - 1);
        } else {
          assert forall j :: 0 <= j < |updates[1..]| ==> updates[1..][j].id != id by {
            forall j | 0 <= j < |updates[1..]| ensures updates[1..][j].id != id {
              assert updates[1..][j] == updates[j + 1];
            }
          }
        }
      }
      if forall j :: 0 <= j < |updates| ==> updates[j].id != id {
        assert forall j :: 0 <= j < |updates[1..]| ==> updates[1..][j].id != id by {
          forall j | 0 <= j < |updates[1..]| ensures updates[1..][j].id != id {
            assert updates[1..][j] == updates[j + 1];
          }
        }
      }
    }
  }
}
