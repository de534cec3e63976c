/** `CreateOrderService` with the state of the three repositories it is given:
    the customers repository as the set of customer ids, the products
    repository as the catalog map, the orders repository as the list of stored
    orders. */
module Orders {
  import opened Entities
  import opened OrderSteps

  class CreateOrderService {
    var customers: set<Id>
    var products: map<Id, Stock>
    var orders: seq<Order>

    constructor (customers: set<Id>, products: map<Id, Stock>, orders: seq<Order>)
      ensures this.customers == customers && this.products == products && this.orders == orders
    {
      this.customers := customers;
      this.products := products;
      this.orders := orders;
    }

    /** `execute` as written. The checks run in code order and the first one
        that fails is the error reported. The stock guard tests the filtered
        array itself, and every JavaScript array is truthy, so a call that gets
        past the missing-product check always ends with the stock error: no call
        reaches order creation or the stock update. The method has no `modifies`
        clause, so no call changes the customers, the catalog or the orders. */
    method Execute(customerId: Id, request: seq<LineRequest>) returns (r: Result<Order, AppError>)
      ensures r.Failure?
      ensures customerId !in customers ==> r == Failure(CustomerNotFound)
      ensures customerId in customers && !AnyKnown(products, request) ==> r == Failure(NoProductsFound)
      ensures customerId in customers && AnyKnown(products, request) && !AllKnown(products, request) ==>
                exists k :: FirstUnknownAt(products, request, k) && r == Failure(ProductNotFound(request[k].id))
      ensures customerId in customers && AnyKnown(products, request) && AllKnown(products, request) ==>
                r == Failure(InsufficientStock)
    {
      if customerId !in customers {
        return Failure(CustomerNotFound);
      }
      var found := FindAllById(products, request);
      FindAllByIdIsLookup(products, request);
      EmptyLookupIffNoneKnown(products, request, found);
      if |found| == 0 {
        return Failure(NoProductsFound);
      }
      var missing := MissingProducts(request, ProductIds(found));
      MissingProductsMatchCatalog(products, request, found);
      if |missing| > 0 {
        return Failure(ProductNotFound(missing[0].id));
      }
      ShortfallsMatchCatalog(products, request, found);
      var shortfalls := StockShortfalls(request, found);
      // The guard at :67 tests the array `shortfalls` itself: an array is an
      // object, and every object converts to true, so the guard fires whether
      // or not `shortfalls` is empty.
      r := Failure(InsufficientStock);
    }

    /** `execute` with the stock guard testing the length of the filtered array
        and the new stock looked up by each row's `product_id`. The checks keep
        their order; a failed check changes nothing; a call that passes them all
        stores one order whose rows copy the request and the catalog prices, and
        takes each ordered quantity off the product's stock. */
    method ExecuteIntended(customerId: Id, request: seq<LineRequest>, newKey: nat -> Id) returns (r: Result<Order, AppError>)
      modifies this
      ensures customers == old(customers)
      ensures r.Failure? ==> products == old(products) && orders == old(orders)
      ensures customerId !in customers ==> r == Failure(CustomerNotFound)
      ensures customerId in customers && !AnyKnown(old(products), request) ==> r == Failure(NoProductsFound)
      ensures customerId in customers && AnyKnown(old(products), request) && !AllKnown(old(products), request) ==>
                exists k :: FirstUnknownAt(old(products), request, k) && r == Failure(ProductNotFound(request[k].id))
      ensures customerId in customers && AnyKnown(old(products), request) && AllKnown(old(products), request) ==>
                ((exists l :: l in request && ShortOf(old(products), l)) <==> r == Failure(InsufficientStock))
      ensures r.Success? <==>
                && customerId in customers
                && AnyKnown(old(products), request)
                && AllKnown(old(products), request)
                && forall l :: l in request ==> !ShortOf(old(products), l)
      ensures r.Success? ==>
                && orders == old(orders) + [r.value]
                && r.value.customerId == customerId
                && |r.value.orderProducts| == |request|
                && forall i :: 0 <= i < |request| ==>
                     && r.value.orderProducts[i].productId == request[i].id
                     && r.value.orderProducts[i].quantity == request[i].quantity
                     && r.value.orderProducts[i].price == old(products)[request[i].id].price
      ensures r.Success? ==> products.Keys == old(products).Keys
      ensures r.Success? ==> forall id :: id in old(products) ==> products[id].price == old(products)[id].price
      ensures r.Success? ==> forall id :: id in old(products) && id !in RequestIds(request) ==> products[id] == old(products)[id]
      ensures r.Success? ==> forall k :: LastLineFor(request, k) ==>
                products[request[k].id].quantity == old(products)[request[k].id].quantity - request[k].quantity
    {
      if customerId !in customers {
        return Failure(CustomerNotFound);
      }
      var found := FindAllById(products, request);
      FindAllByIdIsLookup(products, request);
      EmptyLookupIffNoneKnown(products, request, found);
      if |found| == 0 {
        return Failure(NoProductsFound);
      }
      var missing := MissingProducts(request, ProductIds(found));
      MissingProductsMatchCatalog(products, request, found);
      if |missing| > 0 {
        return Failure(ProductNotFound(missing[0].id));
      }
      ShortfallsMatchCatalog(products, request, found);
      var shortfalls := StockShortfalls(request, found);
      if |shortfalls| > 0 {
        assert shortfalls[0] in shortfalls;
        return Failure(InsufficientStock);
      }
      var order := PlaceOrder(customerId, request, found, newKey);
      r := Success(order);
    }

    /** Lines :73-93 once every check has passed: serialise the request with
        the catalog prices, store the order, and write back each product's
        catalog quantity minus the ordered quantity. */
    method PlaceOrder(customerId: Id, request: seq<LineRequest>, found: seq<Product>, newKey: nat -> Id) returns (order: Order)
      requires IsLookup(products, request, found)
      requires AllKnown(products, request)
      modifies this`orders, this`products
      ensures orders == old(orders) + [order]
      ensures order.customerId == customerId
      ensures |order.orderProducts| == |request|
      ensures forall i :: 0 <= i < |request| ==>
                && order.orderProducts[i].productId == request[i].id
                && order.orderProducts[i].quantity == request[i].quantity
                && order.orderProducts[i].price == old(products)[request[i].id].price
      ensures products.Keys == old(products).Keys
      ensures forall id :: id in old(products) ==> products[id].price == old(products)[id].price
      ensures forall id :: id in old(products) && id !in RequestIds(request) ==> products[id] == old(products)[id]
      ensures forall k :: LastLineFor(request, k) ==>
                products[request[k].id].quantity == old(products)[request[k].id].quantity - request[k].quantity
    {
      SerializeLinesSnapshot(products, request, found);
      var lines := SerializeLines(request, found);
      order := CreateOrder(customerId, lines, newKey);
      NewQuantitiesSubtract(products, request, found, order.orderProducts);
      var updates := NewQuantities(order.orderProducts, found);
      ghost var before := products;
      UpdateQuantity(updates);
      forall k | LastLineFor(request, k)
        ensures products[request[k].id].quantity == before[request[k].id].quantity - request[k].quantity
      {
        assert request[k] in request;
        ApplyUpdatesEffect(before, updates, request[k].id);
        assert LastUpdateFor(updates, request[k].id, k);
      }
      forall id | id in before
        ensures products[id].price == before[id].price
        ensures id !in RequestIds(request) ==> products[id] == before[id]
      {
        ApplyUpdatesEffect(before, updates, id);
      }
    }

    /** `ordersRepository.create({ customer, products })`: stores one order for
        the customer whose rows carry the serialised lines in order. The order
        and its rows get the ids the database generates, here `newKey(0)` and
        `newKey(i + 1)`. */
    method CreateOrder(customerId: Id, lines: seq<LineData>, newKey: nat -> Id) returns (order: Order)
      modifies this`orders
      ensures order.id == newKey(0) && order.customerId == customerId
      ensures |order.orderProducts| == |lines|
      ensures forall i :: 0 <= i < |lines| ==>
                order.orderProducts[i] == OrderProduct(newKey(i + 1), lines[i].productId, lines[i].quantity, lines[i].price)
      ensures orders == old(orders) + [order]
    {
      var rows := seq(|lines|, i requires 0 <= i < |lines| =>
        OrderProduct(newKey(i + 1), lines[i].productId, lines[i].quantity, lines[i].price));
      order := Order(newKey(0), customerId, rows);
      orders := orders + [order];
    }

    /** `productsRepository.updateQuantity(updates)`: writes the new stock levels. */
    method UpdateQuantity(updates: seq<StockUpdate>)
      modifies this`products
      ensures products == ApplyUpdates(old(products), updates)
    {
      products := ApplyUpdates(products, updates);
    }
  }

  /** Customer "c1" exists, product "p1" costs 10 with 5 in stock, and the
      request orders 2 of "p1": as written, `execute` throws the stock error. */
  method AsWrittenScenario() returns (r: Result<Order, AppError>)
    ensures r == Failure(InsufficientStock)
  {
    var service := new CreateOrderService({"c1"}, map["p1" := Stock(10, 5)], []);
    var request := [LineRequest("p1", 2)];
    assert request[0] in request;
    r := service.Execute("c1", request);
  }

  /** The same call with the guard corrected: one order line for "p1" at
      quantity 2 and price 10, and 3 units of "p1" left. */
  method IntendedScenario() returns (r: Result<Order, AppError>, stockLeft: int)
    ensures r.Success? && |r.value.orderProducts| == 1
    ensures r.value.orderProducts[0].productId == "p1"
    ensures r.value.orderProducts[0].quantity == 2 && r.value.orderProducts[0].price == 10
    ensures stockLeft == 3
  {
    var service := new CreateOrderService({"c1"}, map["p1" := Stock(10, 5)], []);
    var request := [LineRequest("p1", 2)];
    assert request[0] in request;
    assert LastLineFor(request, 0);
    r := service.ExecuteIntended("c1", request, (n: nat) => "generated");
    stockLeft := service.products["p1"].quantity;
  }

  /** With the guard corrected, ordering 5 of a product with 1 in stock, or 2 of
      a product with exactly 2 in stock, throws the stock error. */
  method ShortStockScenario() returns (over: Result<Order, AppError>, equal: Result<Order, AppError>)
    ensures over == Failure(InsufficientStock)
    ensures equal == Failure(InsufficientStock)
  {
    var service := new CreateOrderService({"c1"}, map["p1" := Stock(10, 1)], []);
    var request := [LineRequest("p1", 5)];
    assert request[0] in request;
    over := service.ExecuteIntended("c1", request, (n: nat) => "generated");
    service := new CreateOrderService({"c1"}, map["p1" := Stock(10, 2)], []);
    request := [LineRequest("p1", 2)];
    assert request[0] in request;
    equal := service.ExecuteIntended("c1", request, (n: nat) => "generated");
  }
}
