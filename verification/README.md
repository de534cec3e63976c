# Order creation (`CreateOrderService.execute`)

A Dafny model of the order-placement service of a small e-commerce API. A
request names a customer and a list of `{ id, quantity }` lines. The service
checks the request against the customers and products repositories, stores an
order whose rows copy each line with the product's catalog price, and writes
back each product's stock minus the ordered quantity.

The model has three modules:

- `Entities` (`entities.dfy`): the values involved — catalog entries, request
  lines, serialised lines, persisted `order_products` rows, orders, stock
  updates, and the service's errors as datatype variants.
- `OrderSteps` (`order_steps.dfy`): the pure steps of `execute`. These are the
  bulk lookup it relies on (`IsLookup`, with `FindAllById` as one lookup that
  meets it), the missing-product filter, the first-match lookup
  (`filter(...)[0]`), the stock filter, line serialisation, the new-quantity
  computation, and the effect of `updateQuantity` on the catalog. Each comes
  with lemmas that tie it to the catalog.
- `Orders` (`create_order_service.dfy`): the class `CreateOrderService`. It holds
  the repositories' state: the customer ids, the catalog as a map from product
  id to price and quantity, and the stored orders. `Execute` follows the code
  as written. `ExecuteIntended` is the corrected version (see Findings). Three
  client methods run the concrete scenarios.

As written, the stock guard tests the filtered array itself rather than its
length. Every JavaScript array is truthy, so `Execute` returns an error on
every path. It has no `modifies` clause, so Dafny's frame rule guarantees that
no call changes the customers, the catalog or the orders.

One could expect the stock check to fail only when the requested quantity
exceeds the available stock. The code flags a line when the catalog quantity
is `<=` the requested quantity, so equal stock counts as insufficient. The
model follows the code (`ShortOf`), in `Execute` and in `ExecuteIntended`
alike.

Assumptions about code that is not part of this model:

- `findAllById` returns only catalog products whose id was requested, each with
  its catalog price and quantity, and it returns every requested id that is in
  the catalog (`OrderSteps.IsLookup`). Every lemma about the steps holds for
  any list that meets this, in any order.
- `updateQuantity` writes the entries in list order, so a later entry for the
  same id wins, and it ignores ids that are not in the catalog
  (`OrderSteps.ApplyUpdates`).
- `ordersRepository.create` returns the stored order with one
  `order_products` row per serialised line, in order, each carrying that
  line's product id, quantity and price (`Orders.CreateOrderService.CreateOrder`).
  `PlaceOrder` and `NewQuantities` depend on this.
- The ids the database generates for an order and its rows are an input
  (`newKey`).

## Model

| member | source | states |
|---|---|---|
| `OrderSteps.FindAllByIdIsLookup` | src/modules/orders/services/CreateOrderService.ts:40-42 | the model's bulk lookup meets the lookup assumption (only requested catalog entries, with their price and quantity; every requested catalog id returned) and never returns a product twice |
| `OrderSteps.EmptyLookupIffNoneKnown` | src/modules/orders/services/CreateOrderService.ts:44-48 | the lookup is empty exactly when no requested id is in the catalog, so an all-unknown request gets the "no product" error and not the per-id one |
| `OrderSteps.LookupIdsMatchCatalog` | src/modules/orders/services/CreateOrderService.ts:50-53 | for a requested id, `existenteProductsIds.includes(id)` holds exactly when the id is in the catalog |
| `OrderSteps.MissingProducts` | src/modules/orders/services/CreateOrderService.ts:52-54 | the filter keeps exactly the request lines whose id is not among the returned ids |
| `OrderSteps.MissingHeadIsFirstAbsent` | src/modules/orders/services/CreateOrderService.ts:56-57 | the reported line `checkInexsitentProducts[0]` is the first line in request order whose id was not returned |
| `OrderSteps.MissingProductsMatchCatalog` | src/modules/orders/services/CreateOrderService.ts:50-59 | the missing-product check fires exactly when some requested id is not in the catalog, and it reports the first such line in request order |
| `OrderSteps.FirstWithId` | src/modules/orders/services/CreateOrderService.ts:63 | the first-match lookup is defined once the id is among the returned ids, has that id, and is the first returned product with it |
| `OrderSteps.FirstWithIdIsCatalogEntry` | src/modules/orders/services/CreateOrderService.ts:76 | the first match carries the catalog's price and quantity for that id |
| `OrderSteps.StockShortfalls` | src/modules/orders/services/CreateOrderService.ts:61-65 | the stock filter keeps exactly the lines whose matched product quantity is at most the requested quantity |
| `OrderSteps.ShortfallsMatchCatalog` | src/modules/orders/services/CreateOrderService.ts:62-64 | once every id is known, the stock filter selects exactly the lines whose catalog quantity is `<=` the requested one (equal stock counts as insufficient), and it is empty exactly when no line is short |
| `OrderSteps.SerializeLinesSnapshot` | src/modules/orders/services/CreateOrderService.ts:73-77 | serialisation keeps the request's length and order; line i carries request i's id and quantity and the catalog price of that id |
| `OrderSteps.NewQuantitiesSubtract` | src/modules/orders/services/CreateOrderService.ts:86-91 | one update per persisted row, in order; each is the row's product with catalog quantity minus ordered quantity (lookup by `product_id`) |
| `OrderSteps.AsWrittenThrowsOnGeneratedRowIds` | src/modules/orders/services/CreateOrderService.ts:86-91 | for every lookup that meets the assumption and every non-empty order whose row ids are not catalog ids, the computation as written throws |
| `OrderSteps.AsWrittenSubtractsFromRowIdEntry` | src/modules/orders/services/CreateOrderService.ts:88-90 | whenever the computation as written does not throw, entry i names row i's product but takes the ordered quantity off the catalog stock of the product whose id is the row's own id |
| `OrderSteps.AsWrittenStockUpdateThrows` | src/modules/orders/services/CreateOrderService.ts:89 | a row with generated id "op-1" for product "p1" makes the as-written lookup throw, while the lookup by `product_id` gives stock 5 - 2 = 3 |
| `OrderSteps.ApplyUpdates` | src/modules/orders/services/CreateOrderService.ts:93 | writing the stock updates keeps the catalog's set of product ids |
| `OrderSteps.ApplyUpdatesEffect` | src/modules/orders/services/CreateOrderService.ts:93 | after the update every product keeps its price; a product no entry names is unchanged; a named product holds the quantity of the last entry naming it |
| `Orders.CreateOrderService.constructor` | src/modules/orders/services/CreateOrderService.ts:22-29 | the service starts from the given customers, catalog and orders |
| `Orders.CreateOrderService.Execute` | src/modules/orders/services/CreateOrderService.ts:31-71 | every call fails and changes no state; the error is the first failing check in order: unknown customer, then empty lookup, then the first unknown id in request order, and otherwise always the stock error |
| `Orders.CreateOrderService.ExecuteIntended` | src/modules/orders/services/CreateOrderService.ts:31-96 | same check order with the stock check taken on the filter's length; a failure changes nothing; it succeeds exactly when the customer exists, some and all ids are known and no line is short; success appends one order whose rows copy the request with catalog prices and takes each ordered quantity off its product |
| `Orders.CreateOrderService.PlaceOrder` | src/modules/orders/services/CreateOrderService.ts:73-93 | after the checks, stores one order for the customer with the request's lines at catalog prices; prices and product ids are kept, unrequested products are unchanged, and the last line for a product sets its stock to catalog minus ordered quantity |
| `Orders.CreateOrderService.CreateOrder` | src/modules/orders/services/CreateOrderService.ts:79-82 | `ordersRepository.create` appends one order for the customer whose rows carry the serialised lines in order, with generated ids |
| `Orders.CreateOrderService.UpdateQuantity` | src/modules/orders/services/CreateOrderService.ts:93 | `updateQuantity` replaces the catalog with the catalog after the updates |
| `Orders.AsWrittenScenario` | src/modules/orders/services/CreateOrderService.ts:67-71 | customer "c1", product "p1" at price 10 with 5 in stock, ordering 2: as written the call throws the stock error |
| `Orders.IntendedScenario` | src/modules/orders/services/CreateOrderService.ts:73-95 | the same call with the guard corrected: one row for "p1" with quantity 2 and price 10, and 3 units of "p1" left |
| `Orders.ShortStockScenario` | src/modules/orders/services/CreateOrderService.ts:61-71 | with the guard corrected, ordering 5 with 1 in stock, or 2 with exactly 2 in stock, throws the stock error |

## Findings

| source | as written | input that shows it | evidently intended | confidence | as-written member | corrected member |
|---|---|---|---|---|---|---|
| src/modules/orders/services/CreateOrderService.ts:67 | `if (findProductsWithNoQuantityAvailable)` tests the array, which is always truthy, so every request that passes the missing-product check is rejected and lines :73-93 never run | customer "c1"; product "p1" with price 10 and quantity 5; request `[{ id: "p1", quantity: 2 }]` gives the stock error | test `findProductsWithNoQuantityAvailable.length` | high; not executed | `Orders.CreateOrderService.Execute`, `Orders.AsWrittenScenario` | `Orders.CreateOrderService.ExecuteIntended`, `Orders.IntendedScenario` |
| src/modules/orders/services/CreateOrderService.ts:89 | the new stock is looked up with `p.id === product.id`, where `product` is an `order_products` row, so the key is the row's own generated id and not the product id; `[0]` is `undefined` and reading `.quantity` throws after the order was already stored | a row with id "op-1" for product "p1", looked up among `[p1]` | look up `p.id === product.product_id` | medium (the row entity is not part of this model; assumed to carry its own `id`); not executed | `OrderSteps.NewQuantitiesAsWritten`, `OrderSteps.AsWrittenThrowsOnGeneratedRowIds`, `OrderSteps.AsWrittenSubtractsFromRowIdEntry`, `OrderSteps.AsWrittenStockUpdateThrows` | `OrderSteps.NewQuantitiesSubtract`, `Orders.CreateOrderService.PlaceOrder` |

## Left out

- The HTTP controller (`OrdersController.ts`), including its empty-`id` guard on reads. It is a thin Express adapter.
- The order read path (`FindOrderService`). FindOrderService is not part of this model.
- Dependency-injection wiring (`@injectable`, `@inject`). The repositories' state is held directly by the class.
- `async`/`Promise`, and the race between reading and writing stock across concurrent requests. This is concurrency; each call runs alone in the model.
- Failures of the repositories themselves. These include a stock update that fails after the order was stored, which leaves no rollback. Repository calls always succeed in the model.
- The text of the `AppError` messages. Errors are datatype variants; only the missing product id is kept.
- Entity fields the service does not use, such as `ordered_at`, product names and the `order_id` of a row. The customer entity is reduced to its id.
- Prices and quantities are JavaScript numbers (doubles). They are modelled as unbounded integers, so fractional amounts, `NaN` and rounding are not modelled.
- Malformed request bodies, for example `products` that is not an array or a line that has no `id`. These are left out because the code does not check them.
- `Orders.CreateOrderService.ExecuteIntended`: states the stock effect per product, not as a sum over the catalog. Conservation of total stock minus total ordered holds only when no product appears on two lines. With duplicate lines, the last line for a product alone sets its stock, under the assumed `updateQuantity` behaviour.
