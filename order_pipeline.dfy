/** The pure part of order placement: locating request lines, building the line items
    and the stock updates from the looked-up products, and the whole decision of one
    placement as a function of the store's contents (`PlanOrder`). */
module OrderPipeline {
  import opened Domain
  import opened Products
  import opened CustomerRegistry

  /** `products.find(item => item.id === id)`: the first request line for `id`. */
  function FindLine(request: seq<RequestLine>, id: Id): (r: Option<RequestLine>)
    ensures r.None? <==> forall i :: 0 <= i < |request| ==> request[i].id != id
    ensures r.Some? ==>
              && r.value.id == id
              && exists i :: 0 <= i < |request| && request[i] == r.value &&
                   forall j :: 0 <= j < i ==> request[j].id != id
  {
    if request == [] then None
    else if request[0].id == id then Some(request[0])
    else FindLine(request[1..], id)
  }

  /** The per-product check of the first `map`: a missing request line, or more asked
      for than is in stock (equal is accepted). */
  function CheckProduct(p: Product, request: seq<RequestLine>): (r: Option<Error>)
    ensures r == Some(ProductNotFound) <==> forall i :: 0 <= i < |request| ==> request[i].id != p.id
    ensures r == Some(InsufficientStock) <==>
              exists i :: 0 <= i < |request| && request[i].id == p.id && request[i].quantity > p.quantity &&
                          forall j :: 0 <= j < i ==> request[j].id != p.id
    ensures r != Some(CustomerNotFound) && r != Some(ProductCountMismatch) && r != Some(DuplicateEmail)
  {
    match FindLine(request, p.id)
    case None => Some(ProductNotFound)
    case Some(line) => if line.quantity > p.quantity then Some(InsufficientStock) else None
  }

  /** `verifiedProducts`: the line items, or the error of the first product, in lookup
      order, that fails its check. */
  function VerifyProducts(confirmed: seq<Product>, request: seq<RequestLine>): (r: Result<seq<LineItem>>)
    ensures r.Ok? <==> forall i :: 0 <= i < |confirmed| ==> CheckProduct(confirmed[i], request).None?
    ensures r.Ok? ==>
              && |r.value| == |confirmed|
              && forall i :: 0 <= i < |confirmed| ==>
                   FindLine(request, confirmed[i].id).Some? &&
                   r.value[i] == LineItem(confirmed[i].id, confirmed[i].price, FindLine(request, confirmed[i].id).value.quantity)
    ensures r.Err? ==>
              exists i :: 0 <= i < |confirmed| && CheckProduct(confirmed[i], request) == Some(r.error) &&
                          forall j :: 0 <= j < i ==> CheckProduct(confirmed[j], request).None?
  {
    if confirmed == [] then Ok([])
    else
      var p := confirmed[0];
      match CheckProduct(p, request)
      case Some(e) => Err(e)
      case None =>
        match VerifyProducts(confirmed[1..], request)
        case Err(e) => Err(e)
        case Ok(rest) => Ok([LineItem(p.id, p.price, FindLine(request, p.id).value.quantity)] + rest)
  }

  /** `updateProduct`: for each looked-up product, its id and its stock minus the
      requested quantity. */
  function StockUpdates(confirmed: seq<Product>, request: seq<RequestLine>): (r: Result<seq<StockUpdate>>)
    ensures r.Ok? <==> forall i :: 0 <= i < |confirmed| ==> FindLine(request, confirmed[i].id).Some?
    ensures r.Err? ==> r.error == ProductNotFound
    ensures r.Ok? ==>
              && |r.value| == |confirmed|
              && forall i :: 0 <= i < |confirmed| ==>
                   FindLine(request, confirmed[i].id).Some? &&
                   r.value[i] == StockUpdate(confirmed[i].id, confirmed[i].quantity - FindLine(request, confirmed[i].id).value.quantity)
  {
    if confirmed == [] then Ok([])
    else
      var p := confirmed[0];
      match FindLine(request, p.id)
      case None => Err(ProductNotFound)
      case Some(line) =>
        match StockUpdates(confirmed[1..], request)
        case Err(e) => Err(e)
        case Ok(rest) => Ok([StockUpdate(p.id, p.quantity - line.quantity)] + rest)
  }

  /** Once every looked-up product has passed its check, the update list can be built:
      the second `map`'s own "not found" case cannot arise. */
  lemma VerifiedHaveUpdates(confirmed: seq<Product>, request: seq<RequestLine>)
    requires VerifyProducts(confirmed, request).Ok?
    ensures StockUpdates(confirmed, request).Ok?
    ensures forall i :: 0 <= i < |confirmed| ==> StockUpdates(confirmed, request).value[i].quantity >= 0
  {}

  /** What a successful placement writes: the order's customer and line items, and the
      list handed to the quantity update. */
  datatype Plan = Plan(customer: Customer, items: seq<LineItem>, updates: seq<StockUpdate>)

  /** The decision `execute` takes before it writes anything. */
  function PlanOrder(customers: Customers, catalog: Catalog, customerId: Id, request: seq<RequestLine>): (r: Result<Plan>)
    ensures r.Ok? ==>
              && customerId in customers && r.value.customer.id == customerId
              && |r.value.items| == |request| && |r.value.updates| == |request|
              && forall i :: 0 <= i < |request| ==> r.value.items[i].productId == r.value.updates[i].id
  {
    match CustomerById(customers, customerId)
    case None => Err(CustomerNotFound)
    case Some(customer) =>
      var confirmed := FindAllById(catalog, request);
      if |confirmed| != |request| then Err(ProductCountMismatch)
      else
        match VerifyProducts(confirmed, request)
        case Err(e) => Err(e)
        case Ok(items) =>
          match StockUpdates(confirmed, request)
          case Err(e) => Err(e)
          case Ok(updates) => Ok(Plan(customer, items, updates))
  }

  /** With pairwise distinct ids, the line found for a line's id is that line. */
  lemma FindLineDistinct(request: seq<RequestLine>, i: int)
    requires 0 <= i < |request|
    requires forall a, b :: 0 <= a < b < |request| ==> request[a].id != request[b].id
    ensures FindLine(request, request[i].id) == Some(request[i])
  {}

  /** The outcome of a placement, in the order the checks run: the customer first, then
      the count of found products, then the stock of each product. */
  lemma PlanOrderOutcome(customers: Customers, catalog: Catalog, customerId: Id, request: seq<RequestLine>)
    ensures var r := PlanOrder(customers, catalog, customerId, request);
      && (r == Err(CustomerNotFound) <==> customerId !in customers)
      && (r == Err(ProductCountMismatch) <==>
            customerId in customers && !AllKnownAndDistinct(catalog, request))
      && (r == Err(InsufficientStock) <==>
            && customerId in customers && AllKnownAndDistinct(catalog, request)
            && exists i :: 0 <= i < |request| && request[i].quantity > catalog[request[i].id].quantity)
      && (r.Ok? <==>
            && customerId in customers && AllKnownAndDistinct(catalog, request)
            && forall i :: 0 <= i < |request| ==> request[i].quantity <= catalog[request[i].id].quantity)
      && r != Err(ProductNotFound) && r != Err(DuplicateEmail)
  {
    var r := PlanOrder(customers, catalog, customerId, request);
    if customerId in customers {
      var confirmed := FindAllById(catalog, request);
      FindAllByIdExact(catalog, request);
      if AllKnownAndDistinct(catalog, request) {
        forall i | 0 <= i < |request|
          ensures CheckProduct(confirmed[i], request) ==
                    if request[i].quantity > catalog[request[i].id].quantity then Some(InsufficientStock) else None
        {
          FindLineDistinct(request, i);
        }
        var v := VerifyProducts(confirmed, request);
        if v.Err? {
          var i :| 0 <= i < |confirmed| && CheckProduct(confirmed[i], request) == Some(v.error);
          assert request[i].quantity > catalog[request[i].id].quantity;
        } else {
          assert StockUpdates(confirmed, request).Ok?;
        }
      }
    }
  }

  /** A successful placement takes the stored customer, copies each line's product id
      and catalog price with the requested quantity, and lowers each stock by it,
      never below zero; both lists follow the request lines. */
  lemma PlanOrderSuccess(customers: Customers, catalog: Catalog, customerId: Id, request: seq<RequestLine>)
    requires PlanOrder(customers, catalog, customerId, request).Ok?
    ensures var plan := PlanOrder(customers, catalog, customerId, request).value;
      && customerId in customers
      && plan.customer == Customer(customerId, customers[customerId].name, customers[customerId].email)
      && AllKnownAndDistinct(catalog, request)
      && |plan.items| == |request| && |plan.updates| == |request|
      && forall i :: 0 <= i < |request| ==>
           && plan.items[i] == LineItem(request[i].id, catalog[request[i].id].price, request[i].quantity)
           && plan.updates[i] == StockUpdate(request[i].id, catalog[request[i].id].quantity - request[i].quantity)
           && plan.updates[i].quantity >= 0
  {
    PlanOrderOutcome(customers, catalog, customerId, request);
    FindAllByIdExact(catalog, request);
    forall i | 0 <= i < |request|
      ensures FindLine(request, request[i].id) == Some(request[i])
    {
      FindLineDistinct(request, i);
    }
  }

  /** After a successful placement the catalog keeps its products and prices; each
      ordered product's stock is its old stock minus the ordered quantity, and every
      other product is untouched. */
  lemma PlacedOrderStock(customers: Customers, catalog: Catalog, customerId: Id, request: seq<RequestLine>)
    requires PlanOrder(customers, catalog, customerId, request).Ok?
    ensures AllKnownAndDistinct(catalog, request)
    ensures var after := ApplyUpdates(catalog, PlanOrder(customers, catalog, customerId, request).value.updates);
      && after.Keys == catalog.Keys
      && (forall i :: 0 <= i < |request| ==>
            && after[request[i].id] == ProductRecord(catalog[request[i].id].price, catalog[request[i].id].quantity - request[i].quantity)
            && after[request[i].id].quantity >= 0)
      && (forall id :: id in catalog && (forall i :: 0 <= i < |request| ==> request[i].id != id) ==> after[id] == catalog[id])
  {
    PlanOrderSuccess(customers, catalog, customerId, request);
    var plan := PlanOrder(customers, catalog, customerId, request).value;
    ApplyRequestUpdates(catalog, request, plan.updates);
  }

  /** A request naming one product on two lines is rejected by the count check, even
      when the product exists and has stock for both. */
  lemma DuplicateLineRejected(customers: Customers, catalog: Catalog, customerId: Id, request: seq<RequestLine>, i: int, j: int)
    requires customerId in customers
    requires 0 <= i < j < |request| && request[i].id == request[j].id
    ensures PlanOrder(customers, catalog, customerId, request) == Err(ProductCountMismatch)
  {
    PlanOrderOutcome(customers, catalog, customerId, request);
  }

  /** A product with price 1000 and stock 5: an order for 3 succeeds with one line item
      at the catalog price and leaves a stock of 2, after which the same order is
      rejected for insufficient stock. */
  lemma RepeatedOrderExample()
    ensures var customers := map["C1" := CustomerRecord("Ana", "ana@example.com")];
      var catalog := map["P1" := ProductRecord(1000, 5)];
      var request := [RequestLine("P1", 3)];
      && PlanOrder(customers, catalog, "C1", request) ==
           Ok(Plan(Customer("C1", "Ana", "ana@example.com"), [LineItem("P1", 1000, 3)], [StockUpdate("P1", 2)]))
      && ApplyUpdates(catalog, [StockUpdate("P1", 2)]) == map["P1" := ProductRecord(1000, 2)]
      && PlanOrder(customers, map["P1" := ProductRecord(1000, 2)], "C1", request) == Err(InsufficientStock)
  {
    var customers := map["C1" := CustomerRecord("Ana", "ana@example.com")];
    var catalog := map["P1" := ProductRecord(1000, 5)];
    var request := [RequestLine("P1", 3)];
    assert AllKnownAndDistinct(catalog, request);
    PlanOrderOutcome(customers, catalog, "C1", request);
    PlanOrderSuccess(customers, catalog, "C1", request);
    var plan := PlanOrder(customers, catalog, "C1", request).value;
    assert plan.items == [LineItem("P1", 1000, 3)];
    assert plan.updates == [StockUpdate("P1", 2)];
    var after := ApplyUpdates(catalog, plan.updates);
    assert after.Keys == {"P1"} && after["P1"] == ProductRecord(1000, 2);
    assert after == map["P1" := ProductRecord(1000, 2)];
    assert AllKnownAndDistinct(after, request);
    PlanOrderOutcome(customers, after, "C1", request);
  }
}
