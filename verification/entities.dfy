/** The values the order-creation service reads and writes.

    Ids are the strings (uuids) the database assigns; prices and quantities are
    JavaScript numbers, modelled as unbounded integers. */
module Entities {

  type Id = string

  datatype Option<T> = None | Some(value: T)

  /** The outcome of a service call: the created order, or the error thrown. */
  datatype Result<T, E> = Success(value: T) | Failure(error: E)

  /** A catalog entry as the products repository stores it, keyed by product id. */
  datatype Stock = Stock(price: int, quantity: int)

  /** A product row returned by `findAllById`. */
  datatype Product = Product(id: Id, price: int, quantity: int)

  /** One line of the request body: `{ id, quantity }` (the `IProduct` interface). */
  datatype LineRequest = LineRequest(id: Id, quantity: int)

  /** A serialised line handed to `ordersRepository.create`: `{ product_id, quantity, price }`. */
  datatype LineData = LineData(productId: Id, quantity: int, price: int)

  /** A persisted `order_products` row: its own generated `id` beside the `product_id` it refers to. */
  datatype OrderProduct = OrderProduct(id: Id, productId: Id, quantity: int, price: int)

  /** A persisted order with its generated id, its customer and its `order_products` rows. */
  datatype Order = Order(id: Id, customerId: Id, orderProducts: seq<OrderProduct>)

  /** One entry of the list passed to `productsRepository.updateQuantity`: the new stock of `id`. */
  datatype StockUpdate = StockUpdate(id: Id, quantity: int)

  /** The `AppError`s the service throws, without their message text. */
  datatype AppError =
    | CustomerNotFound         // no customer with the requested id
    | NoProductsFound          // the bulk lookup found no product at all
    | ProductNotFound(id: Id)  // the first requested id the lookup did not return
    | InsufficientStock        // the stock check fired
}
