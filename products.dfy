/** The product catalog as the order service sees it: a batch lookup by id and a
    batch quantity update, over a map from product id to price and stock. */
module Products {
  import opened Domain

  type Catalog = map<Id, ProductRecord>

  function ProductAt(catalog: Catalog, id: Id): Product
    requires id in catalog
  {
    Product(id, catalog[id].price, catalog[id].quantity)
  }

  /** Every product in the catalog has a non-negative stock. */
  ghost predicate StockNonNegative(catalog: Catalog)
  {
    forall id :: id in catalog ==> catalog[id].quantity >= 0
  }

  /** Every request line names a product of the catalog, and no id is named twice,
      none of them in `excluded`. */
  predicate AllFresh(catalog: Catalog, request: seq<RequestLine>, excluded: set<Id>)
  {
    && (forall i :: 0 <= i < |request| ==> request[i].id in catalog && request[i].id !in excluded)
    && (forall i, j :: 0 <= i < j < |request| ==> request[i].id != request[j].id)
  }

  predicate AllKnownAndDistinct(catalog: Catalog, request: seq<RequestLine>)
  {
    AllFresh(catalog, request, {})
  }

  /** The catalog entries of the requested ids not in `excluded`, each id once, in
      the order of its first request line. */
  function Lookup(catalog: Catalog, request: seq<RequestLine>, excluded: set<Id>): (found: seq<Product>)
    ensures |found| <= |request|
    ensures forall i :: 0 <= i < |found| ==>
              found[i].id in catalog && found[i].id !in excluded && found[i] == ProductAt(catalog, found[i].id)
    ensures forall i, j :: 0 <= i < j < |found| ==> found[i].id != found[j].id
    decreases |request|
  {
    if request == [] then []
    else
      var id := request[0].id;
      if id in catalog && id !in excluded then
        [ProductAt(catalog, id)] + Lookup(catalog, request[1..], excluded + {id})
      else
        Lookup(catalog, request[1..], excluded)
  }

  /** `findAllById`: only existing products, each once. */
  function FindAllById(catalog: Catalog, request: seq<RequestLine>): seq<Product>
  {
    Lookup(catalog, request, {})
  }

  /** The lookup returns one product per request line exactly when every line names a
      distinct catalog product, and then the i-th product is the one of line i. */
  lemma {:induction false} LookupExact(catalog: Catalog, request: seq<RequestLine>, excluded: set<Id>)
    ensures |Lookup(catalog, request, excluded)| == |request| <==> AllFresh(catalog, request, excluded)
    ensures AllFresh(catalog, request, excluded) ==>
              forall i :: 0 <= i < |request| ==> Lookup(catalog, request, excluded)[i] == ProductAt(catalog, request[i].id)
    decreases |request|
  {
    if request != [] {
      var id, rest := request[0].id, request[1..];
      if id in catalog && id !in excluded {
        LookupExact(catalog, rest, excluded + {id});
        assert forall i :: 1 <= i < |request| ==> request[i] == rest[i - 1];
        if AllFresh(catalog, rest, excluded + {id}) {
          assert AllFresh(catalog, request, excluded);
        }
        if AllFresh(catalog, request, excluded) {
          assert forall i, j :: 0 <= i < j < |rest| ==> rest[i].id == request[i + 1].id && rest[j].id == request[j + 1].id;
          assert AllFresh(catalog, rest, excluded + {id});
        }
      } else {
        assert !AllFresh(catalog, request, excluded);
        assert |Lookup(catalog, rest, excluded)| <= |rest|;
      }
    }
  }

  /** The lookup is a filter: a product is found exactly when it is the catalog entry
      of an id that some request line names and that is not excluded. */
  lemma {:induction false} LookupIsFilter(catalog: Catalog, request: seq<RequestLine>, excluded: set<Id>)
    ensures forall p :: p in Lookup(catalog, request, excluded) <==>
              && p.id in catalog && p.id !in excluded && p == ProductAt(catalog, p.id)
              && exists j :: 0 <= j < |request| && request[j].id == p.id
    decreases |request|
  {
    if request != [] {
      var id, rest := request[0].id, request[1..];
      assert forall j :: 1 <= j < |request| ==> request[j] == rest[j - 1];
      if id in catalog && id !in excluded {
        LookupIsFilter(catalog, rest, excluded + {id});
      } else {
        LookupIsFilter(catalog, rest, excluded);
      }
    }
  }

  /** `findAllById` returns only existing products, each requested existing product,
      and each of them once. */
  lemma FindAllByIdIsFilter(catalog: Catalog, request: seq<RequestLine>)
    ensures forall p :: p in FindAllById(catalog, request) <==>
              && p.id in catalog && p == ProductAt(catalog, p.id)
              && exists j :: 0 <= j < |request| && request[j].id == p.id
    ensures forall i, j :: 0 <= i < j < |FindAllById(catalog, request)| ==>
              FindAllById(catalog, request)[i].id != FindAllById(catalog, request)[j].id
  {
    LookupIsFilter(catalog, request, {});
  }

  lemma FindAllByIdExact(catalog: Catalog, request: seq<RequestLine>)
    ensures |FindAllById(catalog, request)| == |request| <==> AllKnownAndDistinct(catalog, request)
    ensures AllKnownAndDistinct(catalog, request) ==>
              forall i :: 0 <= i < |request| ==> FindAllById(catalog, request)[i] == ProductAt(catalog, request[i].id)
  {
    LookupExact(catalog, request, {});
  }

  /** `updateQuantity`: each update, in order, sets the stock of a known product; an
      unknown id changes nothing. */
  function ApplyUpdates(catalog: Catalog, updates: seq<StockUpdate>): (after: Catalog)
    ensures after.Keys == catalog.Keys
    ensures forall id :: id in catalog ==> after[id].price == catalog[id].price
    ensures forall id :: id in catalog && (forall i :: 0 <= i < |updates| ==> updates[i].id != id) ==>
              after[id] == catalog[id]
    ensures (forall i, j :: 0 <= i < j < |updates| ==> updates[i].id != updates[j].id) ==>
              forall i :: 0 <= i < |updates| && updates[i].id in catalog ==> after[updates[i].id].quantity == updates[i].quantity
    decreases |updates|
  {
    if updates == [] then catalog
    else
      var u := updates[0];
      var next := if u.id in catalog then catalog[u.id := catalog[u.id].(quantity := u.quantity)] else catalog;
      ApplyUpdates(next, updates[1..])
  }

  /** Applying, for lines that name distinct catalog products, the update "old stock
      minus the line's quantity" lowers exactly those stocks by exactly those
      quantities and leaves every other product as it was. */
  lemma ApplyRequestUpdates(catalog: Catalog, request: seq<RequestLine>, updates: seq<StockUpdate>)
    requires AllKnownAndDistinct(catalog, request)
    requires |updates| == |request|
    requires forall i :: 0 <= i < |request| ==>
               updates[i] == StockUpdate(request[i].id, catalog[request[i].id].quantity - request[i].quantity)
    ensures var after := ApplyUpdates(catalog, updates);
      && after.Keys == catalog.Keys
      && (forall i :: 0 <= i < |request| ==>
            after[request[i].id] == ProductRecord(catalog[request[i].id].price, catalog[request[i].id].quantity - request[i].quantity))
      && (forall id :: id in catalog && (forall i :: 0 <= i < |request| ==> request[i].id != id) ==> after[id] == catalog[id])
  {
    assert forall i, j :: 0 <= i < j < |updates| ==> updates[i].id != updates[j].id;
    var after := ApplyUpdates(catalog, updates);
    forall i | 0 <= i < |request|
      ensures after[request[i].id] == ProductRecord(catalog[request[i].id].price, catalog[request[i].id].quantity - request[i].quantity)
    {
      assert after[updates[i].id].quantity == updates[i].quantity;
    }
    forall id | id in catalog && (forall i :: 0 <= i < |request| ==> request[i].id != id)
      ensures after[id] == catalog[id]
    {
      assert forall i :: 0 <= i < |updates| ==> updates[i].id != id;
    }
  }
}
