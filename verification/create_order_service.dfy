/** The create-order service: the order-placement pipeline.

    The customer is looked up, then all requested products in one batch; each
    resolved product is checked against the first request entry naming it; the
    order is persisted with lines that snapshot the current prices; finally the
    stock of every request entry is decremented. Every check comes before the
    first write, but the decrement is a second write that can still fail after
    the order has been persisted.
 */
module CreateOrderService {
  import opened Outcomes
  import opened ProductsRepository
  import opened CustomersRepository
  import opened OrdersRepository

  /** The three stores the service reads and writes. */
  datatype Stores = Stores(customers: CustomerStore, products: ProductStore, orders: seq<Order>)

  const CustomerNotFound: string := "Customer not found"
  const QuantityUnavailable: string := "The specified quantity is greater than the available quantity"

  /** The first entry of the request naming `id`, as a front-to-back search finds it. */
  function FirstMatch(items: seq<Item>, id: string): (r: Option<Item>)
    ensures r.Some? <==> id in Ids(items)
    ensures r.Some? ==> r.value.id == id && r.value in items
  {
    if |items| == 0 then None
    else
      IdsFront(items);
      if items[0].id == id then Some(items[0]) else FirstMatch(items[1..], id)
  }

  /** A request's ids are its first entry's id followed by the ids of the rest. */
  lemma IdsFront(items: seq<Item>)
    requires |items| > 0
    ensures Ids(items) == [items[0].id] + Ids(items[1..])
  {
    assert forall i :: 0 <= i < |items| ==> Ids(items)[i] == ([items[0].id] + Ids(items[1..]))[i];
  }

  /** The entry found is the first one naming `id`: no earlier entry names it. */
  lemma {:induction false} FirstMatchIsFirst(items: seq<Item>, id: string)
    requires FirstMatch(items, id).Some?
    ensures exists j :: 0 <= j < |items| && items[j] == FirstMatch(items, id).value && forall k :: 0 <= k < j ==> items[k].id != id
  {
    if items[0].id != id {
      FirstMatchIsFirst(items[1..], id);
      var j :| 0 <= j < |items| - 1 && items[1..][j] == FirstMatch(items, id).value && forall k :: 0 <= k < j ==> items[1..][k].id != id;
      assert items[j + 1] == FirstMatch(items, id).value;
      forall k | 0 <= k < j + 1
        ensures items[k].id != id
      {
        if k > 0 {
          assert items[k] == items[1..][k - 1];
        }
      }
    } else {
      assert items[0] == FirstMatch(items, id).value;
    }
  }

  /** A resolved product passes the check when the request entry that names it first
      asks for no more than the stock. */
  predicate Admissible(p: Product, items: seq<Item>) {
    && FirstMatch(items, p.id).Some?
    && FirstMatch(items, p.id).value.quantity <= p.quantity
  }

  /** The per-product check and line construction: each resolved product, in order, is
      matched to its first request entry and rejected when that entry asks for more than
      the stock; otherwise its line snapshots the product's price. The first product
      that fails decides the error. */
  function BuildLines(found: seq<Product>, items: seq<Item>): (r: Result<seq<OrderLine>>)
    ensures r.Ok? <==> forall i :: 0 <= i < |found| ==> Admissible(found[i], items)
    ensures r.Ok? ==> |r.value| == |found|
    ensures r.Ok? ==> forall i :: 0 <= i < |found| ==>
      && r.value[i].productId == found[i].id
      && r.value[i].price == found[i].price
      && r.value[i].quantity == FirstMatch(items, found[i].id).value.quantity
    ensures r.Err? && (forall i :: 0 <= i < |found| ==> found[i].id in Ids(items)) ==>
      r.error == AppError(QuantityUnavailable, None)
  {
    if |found| == 0 then Ok([])
    else
      var p := found[0];
      match FirstMatch(items, p.id)
      case None => Err(AppError(ProductNotFound, Some(400)))
      case Some(entry) =>
        if entry.quantity > p.quantity then Err(AppError(QuantityUnavailable, None))
        else
          match BuildLines(found[1..], items)
          case Err(e) => Err(e)
          case Ok(rest) => Ok([OrderLine(p.id, entry.quantity, p.price)] + rest)
  }

  /** The checks before the first write all pass: the customer exists, at least one
      requested id resolves, and every resolved product is admissible. */
  predicate Validates(st: Stores, customerId: string, items: seq<Item>) {
    && customerId in st.customers
    && (exists i :: 0 <= i < |items| && items[i].id in st.products)
    && forall id :: id in st.products && id in Ids(items) ==> FirstMatch(items, id).value.quantity <= st.products[id].quantity
  }

  /** The lines of a placed order: one per resolved product, each carrying the product's
      id, the quantity of the first request entry naming it, and the product's price at
      the time of the call. */
  predicate SnapshotLines(lines: seq<OrderLine>, products: ProductStore, items: seq<Item>) {
    && (forall i :: 0 <= i < |lines| ==>
          && lines[i].productId in products
          && lines[i].productId in Ids(items)
          && lines[i].price == products[lines[i].productId].price
          && lines[i].quantity == FirstMatch(items, lines[i].productId).value.quantity)
    && (forall i, j :: 0 <= i < j < |lines| ==> lines[i].productId != lines[j].productId)
    && (forall id :: id in products && id in Ids(items) ==> exists i :: 0 <= i < |lines| && lines[i].productId == id)
  }

  /** The checking half of `execute`: the customer lookup, the batch product lookup, the
      per-product stock check and the line construction. Nothing is written here. */
  function Check(st: Stores, customerId: string, items: seq<Item>): (r: Result<(Customer, seq<OrderLine>)>)
    ensures customerId !in st.customers ==> r == Err(AppError(CustomerNotFound, None))
    ensures customerId in st.customers && (forall i :: 0 <= i < |items| ==> items[i].id !in st.products) ==>
      r == Err(AppError(ProductNotFound, Some(400)))
    ensures r.Ok? ==> r.value.0 == st.customers[customerId]
  {
    match CustomersRepository.FindById(st.customers, customerId)
    case None => Err(AppError(CustomerNotFound, None))
    case Some(customer) =>
      var found := FindAllById(st.products, items);
      if |found| < 1 then Err(AppError(ProductNotFound, Some(400)))
      else
        match BuildLines(found, items)
        case Err(e) => Err(e)
        case Ok(lines) => Ok((customer, lines))
  }

  /** The checks pass exactly when `Validates` holds, and then the lines snapshot the
      resolved products. */
  lemma CheckPassesIff(st: Stores, customerId: string, items: seq<Item>)
    ensures Check(st, customerId, items).Ok? <==> Validates(st, customerId, items)
    ensures Check(st, customerId, items).Ok? ==> SnapshotLines(Check(st, customerId, items).value.1, st.products, items)
  {
    if customerId in st.customers {
      var found := FindAllById(st.products, items);
      if Validates(st, customerId, items) {
        var k :| 0 <= k < |items| && items[k].id in st.products;
        assert Ids(items)[k] == items[k].id;
        assert st.products[items[k].id] in found;
        ValidatedLinesBuild(st.products, items, found);
      }
      if Check(st, customerId, items).Ok? {
        BuiltLinesSnapshot(st.products, items, Check(st, customerId, items).value.1);
        ChecksPassedValidate(st, customerId, items);
      }
    }
  }

  /** When the lines were built, the request passed every check. */
  lemma ChecksPassedValidate(st: Stores, customerId: string, items: seq<Item>)
    requires Check(st, customerId, items).Ok?
    ensures Validates(st, customerId, items)
  {
    var found := FindAllById(st.products, items);
    assert customerId in st.customers && |found| >= 1 && BuildLines(found, items).Ok?;
    AdmissibleFoundValidates(st.products, items, found);
  }

  /** A non-empty lookup whose products are all admissible meets the product half of
      `Validates`. */
  lemma AdmissibleFoundValidates(products: ProductStore, items: seq<Item>, found: seq<Product>)
    requires found == FindAllById(products, items) && |found| >= 1
    requires forall i :: 0 <= i < |found| ==> Admissible(found[i], items)
    ensures exists i :: 0 <= i < |items| && items[i].id in products
    ensures forall id :: id in products && id in Ids(items) ==> FirstMatch(items, id).value.quantity <= products[id].quantity
  {
    var k :| 0 <= k < |items| && Ids(items)[k] == found[0].id;
    assert items[k].id in products;
    forall id | id in products && id in Ids(items)
      ensures FirstMatch(items, id).value.quantity <= products[id].quantity
    {
      var j :| 0 <= j < |found| && found[j] == products[id];
      assert Admissible(found[j], items);
    }
  }

  /** When every resolved product satisfies the check, building the lines succeeds. */
  lemma ValidatedLinesBuild(products: ProductStore, items: seq<Item>, found: seq<Product>)
    requires found == FindAllById(products, items)
    requires forall id :: id in products && id in Ids(items) ==> FirstMatch(items, id).value.quantity <= products[id].quantity
    ensures BuildLines(found, items).Ok?
  {
    forall i | 0 <= i < |found|
      ensures Admissible(found[i], items)
    {
      assert found[i].id in products && found[i].id in Ids(items);
    }
  }

  /** The lines built from the batch lookup snapshot the resolved products. */
  lemma BuiltLinesSnapshot(products: ProductStore, items: seq<Item>, lines: seq<OrderLine>)
    requires BuildLines(FindAllById(products, items), items) == Ok(lines)
    ensures SnapshotLines(lines, products, items)
  {
    var found := FindAllById(products, items);
    forall id | id in products && id in Ids(items)
      ensures exists i :: 0 <= i < |lines| && lines[i].productId == id
    {
      var i :| 0 <= i < |found| && found[i] == products[id];
      assert lines[i].productId == id;
    }
  }

  /** The writing half of `execute`: the order is persisted first, then the stock of every
      request entry is decremented; an unknown entry fails the call after the order is
      already stored. */
  function Persist(st: Stores, customer: Customer, lines: seq<OrderLine>, items: seq<Item>): (r: Step<Order, Stores>)
    ensures r.state.customers == st.customers
    ensures r.state.orders == st.orders + [Order(customer, lines)]
    ensures r.state.products.Keys == st.products.Keys
    ensures forall id :: id in st.products ==> r.state.products[id].quantity == st.products[id].quantity - Demand(items, id)
    ensures forall id :: id in st.products ==>
      r.state.products[id].name == st.products[id].name && r.state.products[id].price == st.products[id].price
    ensures forall id :: id in st.products && id !in Ids(items) ==> r.state.products[id] == st.products[id]
    ensures r.result.Err? <==> exists i :: 0 <= i < |items| && items[i].id !in st.products
    ensures r.result.Err? ==> r.result.error == AppError(ProductNotFound, None)
    ensures r.result.Ok? ==> r.result.value == Order(customer, lines)
  {
    var (order, orders) := OrdersRepository.Create(st.orders, customer, lines);
    var update := UpdateQuantity(st.products, items);
    var after := Stores(st.customers, update.state, orders);
    if update.result.Err? then Step(Err(update.result.error), after) else Step(Ok(order), after)
  }

  /** `execute`: the checks, then the writes. */
  function Execute(st: Stores, customerId: string, items: seq<Item>): (r: Step<Order, Stores>)
    ensures r.state.customers == st.customers
    ensures customerId !in st.customers ==> r == Step(Err(AppError(CustomerNotFound, None)), st)
    ensures customerId in st.customers && (forall i :: 0 <= i < |items| ==> items[i].id !in st.products) ==>
      r == Step(Err(AppError(ProductNotFound, Some(400))), st)
    ensures r.result.Ok? ==> r.result.value.customer == st.customers[customerId]
  {
    match Check(st, customerId, items)
    case Err(e) => Step(Err(e), st)
    case Ok((customer, lines)) => Persist(st, customer, lines, items)
  }

  /** A request that fails any check is rejected before the first write: no store changes. */
  lemma FailedChecksWriteNothing(st: Stores, customerId: string, items: seq<Item>)
    requires !Validates(st, customerId, items)
    ensures Execute(st, customerId, items).result.Err?
    ensures Execute(st, customerId, items).state == st
  {
    CheckPassesIff(st, customerId, items);
  }

  /** Once the checks pass, the order is persisted (whatever the decrement does next), its
      customer is the one looked up and its lines snapshot the resolved products; then every
      product loses what the request entries demand of it, and the call fails exactly when
      some entry names an unknown product. */
  lemma ValidatedOrderIsPersisted(st: Stores, customerId: string, items: seq<Item>)
    requires Validates(st, customerId, items)
    ensures |Execute(st, customerId, items).state.orders| == |st.orders| + 1
    ensures Execute(st, customerId, items).state.orders[..|st.orders|] == st.orders
    ensures Execute(st, customerId, items).state.orders[|st.orders|].customer == st.customers[customerId]
    ensures SnapshotLines(Execute(st, customerId, items).state.orders[|st.orders|].lines, st.products, items)
    ensures Execute(st, customerId, items).result.Ok? ==>
      Execute(st, customerId, items).result.value == Execute(st, customerId, items).state.orders[|st.orders|]
    ensures Execute(st, customerId, items).state.products.Keys == st.products.Keys
    ensures forall id :: id in st.products ==>
      Execute(st, customerId, items).state.products[id].quantity == st.products[id].quantity - Demand(items, id)
    ensures forall id :: id in st.products && id !in Ids(items) ==>
      Execute(st, customerId, items).state.products[id] == st.products[id]
    ensures Execute(st, customerId, items).result.Err? <==> exists i :: 0 <= i < |items| && items[i].id !in st.products
    ensures Execute(st, customerId, items).result.Err? ==>
      Execute(st, customerId, items).result.error == AppError(ProductNotFound, None)
  {
    CheckPassesIff(st, customerId, items);
    var lines := Check(st, customerId, items).value.1;
    assert Execute(st, customerId, items) == Persist(st, st.customers[customerId], lines, items);
  }

  /** The persisted lines follow the batch lookup: one per resolved id, in the order the
      ids were first requested. */
  lemma PersistedLinesFollowLookup(st: Stores, customerId: string, items: seq<Item>)
    requires Validates(st, customerId, items)
    ensures |Execute(st, customerId, items).state.orders| == |st.orders| + 1
    ensures |Execute(st, customerId, items).state.orders[|st.orders|].lines| == |ResolvedIds(st.products, items)|
    ensures forall i :: 0 <= i < |ResolvedIds(st.products, items)| ==>
      Execute(st, customerId, items).state.orders[|st.orders|].lines[i].productId == ResolvedIds(st.products, items)[i]
  {
    CheckPassesIff(st, customerId, items);
    var lines := Check(st, customerId, items).value.1;
    CheckedLinesFollowLookup(st, customerId, items);
    assert Execute(st, customerId, items).state.orders == st.orders + [Order(st.customers[customerId], lines)];
  }

  /** The lines built by the checks are in lookup order. */
  lemma CheckedLinesFollowLookup(st: Stores, customerId: string, items: seq<Item>)
    requires Check(st, customerId, items).Ok?
    ensures |Check(st, customerId, items).value.1| == |ResolvedIds(st.products, items)|
    ensures forall i :: 0 <= i < |ResolvedIds(st.products, items)| ==>
      Check(st, customerId, items).value.1[i].productId == ResolvedIds(st.products, items)[i]
  {
    var found := FindAllById(st.products, items);
    assert Check(st, customerId, items).value.1 == BuildLines(found, items).value;
  }

  /** The call succeeds exactly when the customer exists, the request is not empty, every
      entry names a stored product, and for every entry the first entry naming the same
      product asks for no more than its stock. */
  lemma PlacedIff(st: Stores, customerId: string, items: seq<Item>)
    ensures Execute(st, customerId, items).result.Ok? <==>
      && customerId in st.customers
      && |items| > 0
      && (forall i :: 0 <= i < |items| ==> items[i].id in st.products)
      && (forall i :: 0 <= i < |items| ==> FirstMatch(items, items[i].id).value.quantity <= st.products[items[i].id].quantity)
  {
    if Execute(st, customerId, items).result.Ok? {
      SuccessValidates(st, customerId, items);
      ValidatedWithinStock(st, customerId, items);
    }
    if && customerId in st.customers
       && |items| > 0
       && (forall i :: 0 <= i < |items| ==> items[i].id in st.products)
       && (forall i :: 0 <= i < |items| ==> FirstMatch(items, items[i].id).value.quantity <= st.products[items[i].id].quantity)
    {
      AllStoredAndWithinStockValidates(st, customerId, items);
      ValidatedOrderIsPersisted(st, customerId, items);
    }
  }

  /** Under `Validates`, every entry naming a stored product is within that product's stock
      as seen through the first entry naming it. */
  lemma ValidatedWithinStock(st: Stores, customerId: string, items: seq<Item>)
    requires Validates(st, customerId, items)
    ensures forall i :: 0 <= i < |items| && items[i].id in st.products ==>
      FirstMatch(items, items[i].id).value.quantity <= st.products[items[i].id].quantity
  {
    forall i | 0 <= i < |items| && items[i].id in st.products
      ensures FirstMatch(items, items[i].id).value.quantity <= st.products[items[i].id].quantity
    {
      assert Ids(items)[i] == items[i].id;
    }
  }

  /** A non-empty request of stored products, each within stock, passes the checks. */
  lemma AllStoredAndWithinStockValidates(st: Stores, customerId: string, items: seq<Item>)
    requires customerId in st.customers && |items| > 0
    requires forall i :: 0 <= i < |items| ==> items[i].id in st.products
    requires forall i :: 0 <= i < |items| ==> FirstMatch(items, items[i].id).value.quantity <= st.products[items[i].id].quantity
    ensures Validates(st, customerId, items)
  {
    forall id | id in st.products && id in Ids(items)
      ensures FirstMatch(items, id).value.quantity <= st.products[id].quantity
    {
      var i :| 0 <= i < |items| && Ids(items)[i] == id;
    }
    assert items[0].id in st.products;
  }

  /** A successful call passed every check and named only stored products. */
  lemma SuccessValidates(st: Stores, customerId: string, items: seq<Item>)
    requires Execute(st, customerId, items).result.Ok?
    ensures Validates(st, customerId, items)
    ensures forall i :: 0 <= i < |items| ==> items[i].id in st.products
  {
    if !Validates(st, customerId, items) {
      FailedChecksWriteNothing(st, customerId, items);
    }
    ValidatedOrderIsPersisted(st, customerId, items);
  }

  /** A resolved product whose first request entry asks for more than its stock rejects the
      whole call with the quantity error, before anything is written. */
  lemma StockExceededRejected(st: Stores, customerId: string, items: seq<Item>, id: string)
    requires customerId in st.customers
    requires id in st.products && id in Ids(items)
    requires FirstMatch(items, id).value.quantity > st.products[id].quantity
    ensures Execute(st, customerId, items) == Step(Err(AppError(QuantityUnavailable, None)), st)
  {
    StockExceededFailsCheck(st.products, items, id);
  }

  /** The line construction fails with the quantity error on such a product. */
  lemma StockExceededFailsCheck(products: ProductStore, items: seq<Item>, id: string)
    requires id in products && id in Ids(items)
    requires FirstMatch(items, id).value.quantity > products[id].quantity
    ensures |FindAllById(products, items)| >= 1
    ensures BuildLines(FindAllById(products, items), items) == Err(AppError(QuantityUnavailable, None))
  {
    var found := FindAllById(products, items);
    assert products[id] in found;
    var i :| 0 <= i < |found| && found[i] == products[id];
    assert !Admissible(found[i], items);
  }

  /** With pairwise distinct ids, the first entry naming an entry's product is that entry. */
  lemma {:induction false} DistinctFirstMatch(items: seq<Item>, i: int)
    requires DistinctIds(items)
    requires 0 <= i < |items|
    ensures FirstMatch(items, items[i].id) == Some(items[i])
  {
    if i > 0 {
      DistinctFirstMatch(items[1..], i - 1);
    }
  }

  /** A successful call with pairwise distinct ids takes exactly the requested quantity
      from each requested product and drives no requested stock below zero. (Products
      not requested are left alone by every validated call: `ValidatedOrderIsPersisted`.) */
  lemma DistinctSuccessDecrements(st: Stores, customerId: string, items: seq<Item>)
    requires DistinctIds(items)
    requires Execute(st, customerId, items).result.Ok?
    ensures forall i :: 0 <= i < |items| ==>
      && items[i].id in Execute(st, customerId, items).state.products
      && Execute(st, customerId, items).state.products[items[i].id].quantity == st.products[items[i].id].quantity - items[i].quantity
      && Execute(st, customerId, items).state.products[items[i].id].quantity >= 0
  {
    SuccessValidates(st, customerId, items);
    ValidatedOrderIsPersisted(st, customerId, items);
    DistinctDecrement(st.products, items, Execute(st, customerId, items).state.products);
  }

  /** The arithmetic of the decrement for distinct, checked, stored entries. */
  lemma DistinctDecrement(before: ProductStore, items: seq<Item>, after: ProductStore)
    requires DistinctIds(items)
    requires forall i :: 0 <= i < |items| ==> items[i].id in before
    requires forall id :: id in before && id in Ids(items) ==> FirstMatch(items, id).value.quantity <= before[id].quantity
    requires after.Keys == before.Keys
    requires forall id :: id in before ==> after[id].quantity == before[id].quantity - Demand(items, id)
    ensures forall i :: 0 <= i < |items| ==>
      && items[i].id in after
      && after[items[i].id].quantity == before[items[i].id].quantity - items[i].quantity
      && after[items[i].id].quantity >= 0
  {
    forall i | 0 <= i < |items|
      ensures after[items[i].id].quantity == before[items[i].id].quantity - items[i].quantity >= 0
    {
      var id := items[i].id;
      assert Ids(items)[i] == id;
      DistinctFirstMatch(items, i);
      DistinctDemand(items, i);
    }
  }

  /** When some but not all requested ids resolve and the checks pass, the order is still
      persisted for the resolved products, and the decrement then fails on the unknown id. */
  lemma PartialResolutionPersistsOrder(st: Stores, customerId: string, items: seq<Item>)
    requires Validates(st, customerId, items)
    requires exists i :: 0 <= i < |items| && items[i].id !in st.products
    ensures Execute(st, customerId, items).result == Err(AppError(ProductNotFound, None))
    ensures |Execute(st, customerId, items).state.orders| == |st.orders| + 1
    ensures SnapshotLines(Execute(st, customerId, items).state.orders[|st.orders|].lines, st.products, items)
  {
    ValidatedOrderIsPersisted(st, customerId, items);
  }
}
