/** Small requests that show the pipeline's behaviour: a partly unknown request
    still persists its order before failing, and a duplicated product id is checked
    only through its first entry while every entry reaches the decrement. */
module OrderScenarios {
  import opened Outcomes
  import opened ProductsRepository
  import opened CustomersRepository
  import opened OrdersRepository
  import opened CreateOrderService

  /** One entry within stock: a one-line order at the current price, stock reduced by
      the quantity ordered. */
  lemma SingleEntryPlaced(st: Stores, customerId: string, items: seq<Item>, id: string, quantity: int)
    requires items == [Item(id, quantity)]
    requires customerId in st.customers && id in st.products
    requires quantity <= st.products[id].quantity
    ensures Execute(st, customerId, items).result
      == Ok(Order(st.customers[customerId], [OrderLine(id, quantity, st.products[id].price)]))
    ensures Execute(st, customerId, items).state.products[id].quantity == st.products[id].quantity - quantity
  {
    SingleEntryFacts(st, customerId, items, id, quantity);
    ValidatedOrderIsPersisted(st, customerId, items);
    PersistedLinesFollowLookup(st, customerId, items);
    OneLineSnapshot(Execute(st, customerId, items).state.orders[|st.orders|].lines, st.products, items, id);
  }

  /** Two entries of the same product, each within stock but together beyond it: the
      check sees only the first and the order is placed. Under the sequential decrement
      this model adopts for the batch update, both entries are subtracted and the stock
      goes negative; the concurrent original may instead lose one of the two updates. */
  lemma DuplicateEntriesOverdraw(st: Stores, customerId: string, items: seq<Item>, id: string, quantity: int)
    requires items == [Item(id, quantity), Item(id, quantity)]
    requires customerId in st.customers && id in st.products
    requires quantity <= st.products[id].quantity < 2 * quantity
    ensures Execute(st, customerId, items).result.Ok?
    ensures Execute(st, customerId, items).state.products[id].quantity == st.products[id].quantity - 2 * quantity < 0
  {
    DuplicateEntriesFacts(st, customerId, items, id, quantity);
    ValidatedOrderIsPersisted(st, customerId, items);
  }

  /** A stored product within stock followed by an unknown id: the order with the one
      line for the stored product is persisted, and the decrement then fails. */
  lemma PartlyUnknownRequestPersistsOrder(st: Stores, customerId: string, items: seq<Item>, id: string, unknown: string, quantity: int)
    requires items == [Item(id, quantity), Item(unknown, quantity)]
    requires customerId in st.customers && id in st.products && unknown !in st.products
    requires quantity <= st.products[id].quantity
    ensures Execute(st, customerId, items).result == Err(AppError(ProductNotFound, None))
    ensures Execute(st, customerId, items).state.orders
      == st.orders + [Order(st.customers[customerId], [OrderLine(id, quantity, st.products[id].price)])]
  {
    PartlyUnknownFacts(st, customerId, items, id, unknown, quantity);
    ValidatedOrderIsPersisted(st, customerId, items);
    PersistedLinesFollowLookup(st, customerId, items);
    var orders := Execute(st, customerId, items).state.orders;
    OneLineSnapshot(orders[|st.orders|].lines, st.products, items, id);
    assert orders == orders[..|st.orders|] + [orders[|st.orders|]];
  }

  // The facts each request above needs, evaluated on its one or two entries.

  lemma SingleEntryFacts(st: Stores, customerId: string, items: seq<Item>, id: string, quantity: int)
    requires items == [Item(id, quantity)]
    requires customerId in st.customers && id in st.products
    requires quantity <= st.products[id].quantity
    ensures Validates(st, customerId, items)
    ensures id in Ids(items) && ResolvedIds(st.products, items) == [id]
    ensures FirstMatch(items, id) == Some(Item(id, quantity))
    ensures Demand(items, id) == quantity
  {
    assert Ids(items) == [id];
    assert items[0].id in st.products;
    assert items[..0] == [];
  }

  lemma DuplicateEntriesFacts(st: Stores, customerId: string, items: seq<Item>, id: string, quantity: int)
    requires items == [Item(id, quantity), Item(id, quantity)]
    requires customerId in st.customers && id in st.products
    requires quantity <= st.products[id].quantity
    ensures Validates(st, customerId, items)
    ensures Demand(items, id) == 2 * quantity
  {
    assert Ids(items) == [id, id];
    assert FirstMatch(items, id) == Some(Item(id, quantity));
    assert items[0].id in st.products;
    assert items[..1] == [Item(id, quantity)];
    assert items[..1][..0] == [];
  }

  lemma PartlyUnknownFacts(st: Stores, customerId: string, items: seq<Item>, id: string, unknown: string, quantity: int)
    requires items == [Item(id, quantity), Item(unknown, quantity)]
    requires customerId in st.customers && id in st.products && unknown !in st.products
    requires quantity <= st.products[id].quantity
    ensures Validates(st, customerId, items)
    ensures id in Ids(items) && ResolvedIds(st.products, items) == [id]
    ensures FirstMatch(items, id) == Some(Item(id, quantity))
  {
    assert Ids(items) == [id, unknown];
    assert items[0].id in st.products;
    assert items[..1] == [Item(id, quantity)];
    assert items[..1][..0] == [];
  }

  /** Snapshot lines for a request that resolves to the single id `id` are one line. */
  lemma OneLineSnapshot(lines: seq<OrderLine>, products: ProductStore, items: seq<Item>, id: string)
    requires SnapshotLines(lines, products, items)
    requires id in products && id in Ids(items)
    requires ResolvedIds(products, items) == [id]
    requires |lines| == |ResolvedIds(products, items)|
    requires forall i :: 0 <= i < |lines| ==> lines[i].productId == ResolvedIds(products, items)[i]
    ensures lines == [OrderLine(id, FirstMatch(items, id).value.quantity, products[id].price)]
  {
    assert lines[0].productId == id;
  }
}
