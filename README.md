# Order placement and customer registration

A Dafny model of the two services of a small e-commerce backend that do more than
pass a call through:

- **Order placement** (`CreateOrderService.execute`): a fail-fast sequence of checks —
  the customer exists; the product lookup found as many products as the request has
  lines; each found product has a request line and enough stock — followed by two
  writes: the order is stored, then the stock of each ordered product is lowered.
- **Customer registration** (`CreateCustomerService.execute`): reject an email that is
  already used, otherwise store one new customer.

The model has two layers.

- The decision is pure. `OrderPipeline.PlanOrder` computes from the store contents
  and the request either an error kind or a `Plan`. A plan is the customer, the line
  items and the stock-update list. It is built from the same steps as the source:
  `FindLine` is `products.find`, `VerifyProducts` is the checking `map` that builds
  `verifiedProducts`, and `StockUpdates` is the `map` that builds `updateProduct`.
- The writes are imperative. Class `Store.Repositories` holds the customer store
  (id ↦ name and email), the catalog (id ↦ price and stock) and the order list as
  fields. It also keeps a ghost log of the writes in the order they happen. Its
  methods `CreateOrder` and `CreateCustomer` are the two `execute` methods, and
  their `ensures` tie the new state to `PlanOrder`, `ApplyUpdates` and the map update.

Modules: `Domain` (entities, requests, error kinds), `Products` (the catalog's batch
lookup and batch quantity update), `CustomerRegistry` (lookup by id, email uniqueness),
`OrderPipeline` (the pure part of order placement and its lemmas), and `Store` (the stores and the
two services).

Modelling decisions:

- The repository's `findAllById` is not part of this model. Its result is given by
  `Products.FindAllById`: the catalog entries of the requested ids, each id once, in
  the order of its first request line. The real lookup does not promise an order.
  So `FindLine`, `VerifyProducts` and `StockUpdates` are stated for every sequence of
  looked-up products, whatever its order or content.
- The count check compares with the number of request lines, as the code does (line 39).
  A request that names one product on two lines is therefore rejected with
  `ProductCountMismatch`, even when the product exists (`DuplicateLineRejected`).
  Counting distinct ids instead of lines would accept such a request; the model keeps
  the comparison the code makes.
- The count check gets its own error kind, `ProductCountMismatch`. The source throws
  a message of its own there, distinct from the per-product "not found" message, so
  the two cases are kept apart rather than both reported as `ProductNotFound`.
- With this lookup, a request passes the count check only if it names distinct
  catalog products. So the per-product "no request line" error can never be reached.
  `PlanOrderOutcome` proves that `PlanOrder` never returns `ProductNotFound`.
  It is still modelled in `VerifyProducts` and `StockUpdates`, for an arbitrary lookup
  result. The second `map`'s own not-found case cannot arise once the first `map`
  has passed; `CreateOrder` proves that branch dead.
- An empty request passes every check and stores an order with no line items.
- Request quantities are unbounded integers and are not checked for sign, as in the
  source. A negative quantity passes the stock check and raises the stock.
- The identifiers the stores generate are parameters: `newId` for a customer and
  `orderId` for an order. `CreateCustomer` requires that `newId` is not yet a
  customer id, like a generated uuid.
- Prices are integers in the smallest currency unit. They are only copied from the
  catalog into the line items.

## Model

| member | source | states |
|---|---|---|
| `Products.Lookup` | src/modules/orders/services/CreateOrderService.ts:35-37 | the looked-up products are catalog entries, at most one per request line, each id once |
| `Products.LookupIsFilter` | src/modules/orders/services/CreateOrderService.ts:35-37 | a product is looked up exactly when it is the catalog entry of an id that some request line names and that is not excluded |
| `Products.FindAllByIdIsFilter` | src/modules/orders/services/CreateOrderService.ts:35-37 | `findAllById` returns exactly the catalog entries of the requested ids that exist, each id once |
| `Products.LookupExact` | src/modules/orders/services/CreateOrderService.ts:35-40 | the lookup returns one product per request line exactly when every line names a distinct catalog product not already excluded, and then product i is line i's |
| `Products.FindAllByIdExact` | src/modules/orders/services/CreateOrderService.ts:35-40 | `confirmedProducts.length === products.length` holds exactly when every request line names a distinct catalog product; then the i-th found product is the catalog entry of line i |
| `Products.ApplyUpdates` | src/modules/orders/services/CreateOrderService.ts:72 | the quantity update keeps the catalog's ids and prices, leaves unnamed products as they were, and with distinct ids gives each named product its new quantity |
| `Products.ApplyRequestUpdates` | src/modules/orders/services/CreateOrderService.ts:56-72 | applying "old stock minus the line's quantity" for lines naming distinct catalog products sets exactly those stocks to exactly those values, keeps prices and ids, and leaves every other product as it was |
| `OrderPipeline.FindLine` | src/modules/orders/services/CreateOrderService.ts:43 | `find` returns nothing exactly when no line has the id, and otherwise the first line with it |
| `OrderPipeline.CheckProduct` | src/modules/orders/services/CreateOrderService.ts:43-47 | `ProductNotFound` exactly when no request line names the product; `InsufficientStock` exactly when the first line naming it asks for more than its stock (equal is accepted); never any other error |
| `OrderPipeline.VerifyProducts` | src/modules/orders/services/CreateOrderService.ts:42-54 | succeeds exactly when every found product has a request line with quantity at most its stock; then item i has product i's id and price and its first request line's quantity; a failure is the error of the first failing product in lookup order |
| `OrderPipeline.StockUpdates` | src/modules/orders/services/CreateOrderService.ts:56-65 | succeeds exactly when every found product has a request line, and then entry i names product i with its stock minus the requested quantity; its only error is `ProductNotFound` |
| `OrderPipeline.VerifiedHaveUpdates` | src/modules/orders/services/CreateOrderService.ts:42-65 | once every found product has passed the first `map`, the second `map` succeeds and every new stock in it is non-negative |
| `OrderPipeline.FindLineDistinct` | src/modules/orders/services/CreateOrderService.ts:43 | when request ids are pairwise distinct, the line found for line i's id is line i |
| `OrderPipeline.PlanOrder` | src/modules/orders/services/CreateOrderService.ts:31-65 | on success the customer is the requested one, and the line items and the update list both have one entry per request line, naming the same product at each position; the outcomes and the values are stated in full by `PlanOrderOutcome`, `PlanOrderSuccess` and `PlacedOrderStock` |
| `OrderPipeline.PlanOrderOutcome` | src/modules/orders/services/CreateOrderService.ts:31-54 | the outcome in check order: `CustomerNotFound` iff the customer is unknown; `ProductCountMismatch` iff the customer is known and the lines do not name distinct catalog products; `InsufficientStock` iff all that passes and some line asks for more than the stock; success iff every line asks for at most the stock (equal is accepted); never `ProductNotFound` |
| `OrderPipeline.PlanOrderSuccess` | src/modules/orders/services/CreateOrderService.ts:42-70 | on success the order's customer is the stored one; item i carries line i's product id, the catalog price and line i's quantity; update i names line i's product with its stock minus that quantity, which is never negative |
| `OrderPipeline.PlacedOrderStock` | src/modules/orders/services/CreateOrderService.ts:56-72 | after a successful placement the catalog has the same products and prices; each ordered product's stock is exactly its old stock minus the ordered quantity and is non-negative; every other product is unchanged |
| `OrderPipeline.DuplicateLineRejected` | src/modules/orders/services/CreateOrderService.ts:35-40 | a request with two lines for the same product fails with `ProductCountMismatch` once the customer exists |
| `OrderPipeline.RepeatedOrderExample` | src/modules/orders/services/CreateOrderService.ts:31-74 | stock 5 at price 1000: an order of 3 yields one line item at price 1000 and leaves stock 2, after which the same order fails with `InsufficientStock` |
| `CustomerRegistry.CustomerById` | src/modules/orders/services/CreateOrderService.ts:32 | finds a customer exactly when the id is stored, and then returns the stored name and email under that id |
| `CustomerRegistry.RegistrationKeepsEmailsUnique` | src/modules/customers/services/CreateCustomerService.ts:22-26 | storing a customer with an unused email under a fresh id keeps emails unique, and the new customer is the only one with that email |
| `Store.PlacementKeepsInvariant` | src/modules/orders/services/CreateOrderService.ts:67-72 | storing the planned order and applying its stock updates keeps emails unique, every stock non-negative, and every stored order pointing at the stored customer and at catalog products |
| `Store.AppendedOrderKeepsInvariant` | src/modules/orders/services/CreateOrderService.ts:67-72 | appending an order for the stored customer whose items name the requested catalog products, with a catalog that keeps its ids and non-negative stock on those products and is unchanged elsewhere, keeps the stores' invariant |
| `Store.RegistrationKeepsInvariant` | src/modules/customers/services/CreateCustomerService.ts:22-26 | storing a new customer with an unused email under a fresh id keeps the stores' invariant |
| `Store.Repositories.constructor` | src/modules/orders/services/CreateOrderService.ts:22-29 | the stores start with the given customers and catalog, no orders and no writes |
| `Store.Repositories.FindByEmail` | src/modules/customers/services/CreateCustomerService.ts:22 | finds nothing exactly when no customer has the email, and otherwise a stored customer with that email |
| `Store.Repositories.CreateCustomer` | src/modules/customers/services/CreateCustomerService.ts:20-29 | fails with `DuplicateEmail` exactly when the email is used, and then changes nothing; otherwise it stores exactly one customer with the given name and email, logs one creation, returns that customer, and makes it the only one with that email; email uniqueness holds afterwards either way |
| `Store.Repositories.CreateOrder` | src/modules/orders/services/CreateOrderService.ts:31-75 | a rejection returns `PlanOrder`'s error and writes nothing; a success appends exactly one order, with the found customer and the computed line items, applies the stock updates, logs the order creation before the quantity update, and returns the stored order; the stores' invariant holds afterwards |

## Left out

- `FindOrderService.execute` only passes the lookup through to the order store, so it is not modelled.
- Dependency injection, the ORM entities and the repository implementations are not part of this model; the stores are maps and a sequence.
- `async`/`await` and concurrent calls are not modelled. The model is single-threaded, so the race between two orders' stock checks and updates does not arise here.
- A failure of the quantity update after the order is stored is not modelled. Such failures belong to the store, which is not shown. The model keeps only the order of the two writes: create, then update.
- The order of the items in a stored order is the model's choice. `PlanOrderSuccess` and `CreateOrder` give the line items and updates in request order only because `FindAllById` returns products in first-request order. The real lookup returns them in the store's order. Which error is reported and every new stock do not depend on this order.
- Generated ids and timestamps are not modelled. Ids are parameters.
- The Portuguese error messages are reduced to error kinds.
- Non-integer, `NaN` and floating-point quantities and prices are not modelled.
- `CreateCustomerService.execute` returns the repository's `create` promise without awaiting it (line 26). Under `async` this returns the same value, so the model does not distinguish the two.
