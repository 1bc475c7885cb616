/** Entities, requests and error kinds shared by the customer and order services. */
module Domain {

  /** Identifiers are opaque strings generated by the stores (uuids in the repository). */
  type Id = string

  /** A price in the catalog's smallest currency unit; the services only copy it. */
  type Price = int

  datatype Option<T> = None | Some(value: T)

  /** The reasons a service call is rejected (each is an `AppError` in the source). */
  datatype Error =
    | CustomerNotFound
    | ProductCountMismatch
    | ProductNotFound
    | InsufficientStock
    | DuplicateEmail

  datatype Result<T> = Ok(value: T) | Err(error: Error)

  /** What the customer store keeps under a customer id. */
  datatype CustomerRecord = CustomerRecord(name: string, email: string)

  datatype Customer = Customer(id: Id, name: string, email: string)

  /** What the product catalog keeps under a product id: price and available stock. */
  datatype ProductRecord = ProductRecord(price: Price, quantity: int)

  /** A catalog entry as the product lookup returns it. */
  datatype Product = Product(id: Id, price: Price, quantity: int)

  /** One line of an order request: a product id and the quantity asked for. */
  datatype RequestLine = RequestLine(id: Id, quantity: int)

  /** One line of a stored order; the price is the catalog's at order time. */
  datatype LineItem = LineItem(productId: Id, price: Price, quantity: int)

  /** One entry of the list handed to the catalog's quantity update. */
  datatype StockUpdate = StockUpdate(id: Id, quantity: int)

  datatype Order = Order(id: Id, customer: Customer, products: seq<LineItem>)
}
