/** The three stores the services are wired to (customers, products, orders) and the
    two services that write to them: customer registration and order placement. */
module Store {
  import opened Domain
  import opened Products
  import opened CustomerRegistry
  import opened OrderPipeline

  /** A write the services ask of a store, in the order they ask it. */
  datatype StoreCall =
    | CustomerCreated(customer: Customer)
    | OrderCreated(order: Order)
    | QuantitiesUpdated(updates: seq<StockUpdate>)

  /** A stored order names a stored customer as stored, and only catalog products. */
  ghost predicate OrderConsistent(o: Order, customers: Customers, catalog: Catalog)
  {
    && o.customer.id in customers
    && customers[o.customer.id] == CustomerRecord(o.customer.name, o.customer.email)
    && forall k :: 0 <= k < |o.products| ==> o.products[k].productId in catalog
  }

  /** The invariant of the three stores: unique emails, non-negative stock, and
      consistent stored orders. */
  ghost predicate StoresValid(customers: Customers, catalog: Catalog, orders: seq<Order>)
  {
    && UniqueEmails(customers)
    && StockNonNegative(catalog)
    && forall k :: 0 <= k < |orders| ==> OrderConsistent(orders[k], customers, catalog)
  }

  /** A successful placement keeps the invariant: the new order names the stored
      customer and catalog products, and the lowered stocks stay non-negative. */
  lemma PlacementKeepsInvariant(customers: Customers, catalog: Catalog, orders: seq<Order>,
                                customerId: Id, request: seq<RequestLine>, orderId: Id)
    requires StoresValid(customers, catalog, orders)
    requires PlanOrder(customers, catalog, customerId, request).Ok?
    ensures var plan := PlanOrder(customers, catalog, customerId, request).value;
      StoresValid(customers, ApplyUpdates(catalog, plan.updates), orders + [Order(orderId, plan.customer, plan.items)])
  {
    PlanOrderSuccess(customers, catalog, customerId, request);
    PlacedOrderStock(customers, catalog, customerId, request);
    var plan := PlanOrder(customers, catalog, customerId, request).value;
    AppendedOrderKeepsInvariant(customers, catalog, orders, request, Order(orderId, plan.customer, plan.items),
                                ApplyUpdates(catalog, plan.updates));
  }

  /** Appending an order for the stored customer whose items follow the request lines,
      with a catalog that keeps its ids, lowers only the requested stocks and keeps them
      non-negative, keeps the invariant. */
  lemma AppendedOrderKeepsInvariant(customers: Customers, catalog: Catalog, orders: seq<Order>,
                                    request: seq<RequestLine>, o: Order, after: Catalog)
    requires StoresValid(customers, catalog, orders)
    requires AllKnownAndDistinct(catalog, request)
    requires o.customer.id in customers && customers[o.customer.id] == CustomerRecord(o.customer.name, o.customer.email)
    requires |o.products| == |request| && forall i :: 0 <= i < |request| ==> o.products[i].productId == request[i].id
    requires after.Keys == catalog.Keys
    requires forall i :: 0 <= i < |request| ==> after[request[i].id].quantity >= 0
    requires forall id :: id in catalog && (forall i :: 0 <= i < |request| ==> request[i].id != id) ==> after[id] == catalog[id]
    ensures StoresValid(customers, after, orders + [o])
  {
    assert OrderConsistent(o, customers, after);
    forall id | id in after
      ensures after[id].quantity >= 0
    {
      if exists i :: 0 <= i < |request| && request[i].id == id {
        var i :| 0 <= i < |request| && request[i].id == id;
        assert after[request[i].id].quantity >= 0;
      }
    }
  }

  /** Registering under a fresh id with an unused email keeps the invariant. */
  lemma RegistrationKeepsInvariant(customers: Customers, catalog: Catalog, orders: seq<Order>,
                                   newId: Id, name: string, email: string)
    requires StoresValid(customers, catalog, orders)
    requires newId !in customers && !EmailTaken(customers, email)
    ensures StoresValid(customers[newId := CustomerRecord(name, email)], catalog, orders)
  {}

  class Repositories {
    var customers: Customers
    var catalog: Catalog
    var orders: seq<Order>
    /** Every write performed so far, oldest first. */
    ghost var calls: seq<StoreCall>

    ghost predicate Valid()
      reads this
    {
      StoresValid(customers, catalog, orders)
    }

    constructor (customers: Customers, catalog: Catalog)
      requires UniqueEmails(customers) && StockNonNegative(catalog)
      ensures Valid()
      ensures this.customers == customers && this.catalog == catalog && orders == [] && calls == []
    {
      this.customers := customers;
      this.catalog := catalog;
      orders := [];
      calls := [];
    }

    /** `findByEmail` on the customer store. */
    method FindByEmail(email: string) returns (c: Option<Customer>)
      ensures c.None? <==> !EmailTaken(customers, email)
      ensures c.Some? ==>
                && c.value.email == email
                && c.value.id in customers
                && customers[c.value.id] == CustomerRecord(c.value.name, email)
    {
      if exists id :: id in customers && customers[id].email == email {
        var id :| id in customers && customers[id].email == email;
        c := Some(Customer(id, customers[id].name, email));
      } else {
        c := None;
      }
    }

    /** `CreateCustomerService.execute`: reject a used email, otherwise store one new
        customer under the id the store generates (`newId`) and return it. */
    method CreateCustomer(name: string, email: string, newId: Id) returns (r: Result<Customer>)
      requires Valid()
      requires newId !in customers
      modifies this
      ensures Valid()
      ensures catalog == old(catalog) && orders == old(orders)
      ensures r.Err? <==> EmailTaken(old(customers), email)
      ensures r.Err? ==> r.error == DuplicateEmail && customers == old(customers) && calls == old(calls)
      ensures r.Ok? ==>
                && r.value == Customer(newId, name, email)
                && customers == old(customers)[newId := CustomerRecord(name, email)]
                && calls == old(calls) + [CustomerCreated(r.value)]
                && WithEmail(customers, email) == {newId}
    {
      var findCustomer := FindByEmail(email);
      if findCustomer.Some? {
        return Err(DuplicateEmail);
      }
      RegistrationKeepsInvariant(customers, catalog, orders, newId, name, email);
      var response := Customer(newId, name, email);
      customers := customers[newId := CustomerRecord(name, email)];
      calls := calls + [CustomerCreated(response)];
      return Ok(response);
    }

    /** `CreateOrderService.execute`: the checks of `PlanOrder`; on success the order is
        stored under the id the store generates (`orderId`), then the stock updates
        are applied, and the stored order is returned. A rejection writes nothing. */
    method CreateOrder(customerId: Id, request: seq<RequestLine>, orderId: Id) returns (r: Result<Order>)
      requires Valid()
      modifies this
      ensures Valid()
      ensures customers == old(customers)
      ensures match PlanOrder(old(customers), old(catalog), customerId, request)
        case Err(e) =>
          r == Err(e) && catalog == old(catalog) && orders == old(orders) && calls == old(calls)
        case Ok(plan) =>
          && r == Ok(Order(orderId, plan.customer, plan.items))
          && orders == old(orders) + [r.value]
          && catalog == ApplyUpdates(old(catalog), plan.updates)
          && calls == old(calls) + [OrderCreated(r.value), QuantitiesUpdated(plan.updates)]
    {
      var findCustomer := CustomerById(customers, customerId);
      if findCustomer.None? {
        return Err(CustomerNotFound);
      }
      var confirmedProducts := FindAllById(catalog, request);
      if |confirmedProducts| != |request| {
        return Err(ProductCountMismatch);
      }
      var verifiedProducts := VerifyProducts(confirmedProducts, request);
      if verifiedProducts.Err? {
        return Err(verifiedProducts.error);
      }
      var updateProduct := StockUpdates(confirmedProducts, request);
      VerifiedHaveUpdates(confirmedProducts, request);
      if updateProduct.Err? {
        // the second `map`'s not-found case: dead, since every looked-up product has a request line
        assert false;
      }
      PlacementKeepsInvariant(customers, catalog, orders, customerId, request, orderId);
      var response := Order(orderId, findCustomer.value, verifiedProducts.value);
      orders := orders + [response];
      calls := calls + [OrderCreated(response)];
      catalog := ApplyUpdates(catalog, updateProduct.value);
      calls := calls + [QuantitiesUpdated(updateProduct.value)];
      return Ok(response);
    }
  }
}
