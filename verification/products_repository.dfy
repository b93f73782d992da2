/** The product store and the repository operations on it.

    The relational table becomes a finite map from product id to product; the
    database keeps the primary key equal to the map key, which the subset type
    `ProductStore` records once so that no operation has to ask for it.
 */
module ProductsRepository {
  import opened Outcomes

  /** Prices are decimal columns that are only ever copied, never computed on. */
  type Cents = int

  datatype Product = Product(id: string, name: string, price: Cents, quantity: int)

  /** One entry of a request: a product id and a quantity. */
  datatype Item = Item(id: string, quantity: int)

  predicate KeyedById(s: map<string, Product>) {
    forall id :: id in s ==> s[id].id == id
  }

  type ProductStore = s: map<string, Product> | KeyedById(s) witness map[]

  const ProductNotFound: string := "Product does not exists"

  /** The ids of a request, in request order. */
  function Ids(items: seq<Item>): (r: seq<string>)
    ensures |r| == |items|
    ensures forall i :: 0 <= i < |items| ==> r[i] == items[i].id
  {
    if |items| == 0 then [] else Ids(items[..|items| - 1]) + [items[|items| - 1].id]
  }

  predicate DistinctIds(items: seq<Item>) {
    forall i, j :: 0 <= i < j < |items| ==> items[i].id != items[j].id
  }

  /** Total quantity the entries of `items` ask of product `id`. */
  function Demand(items: seq<Item>, id: string): (d: int)
    ensures id !in Ids(items) ==> d == 0
  {
    if |items| == 0 then 0
    else
      var last := items[|items| - 1];
      Demand(items[..|items| - 1], id) + (if last.id == id then last.quantity else 0)
  }

  /** `create`: stores a new product under a freshly generated id and returns it.
      The generated uuid is the parameter `newId`. */
  function Create(store: ProductStore, newId: string, name: string, price: Cents, quantity: int): (r: (Product, ProductStore))
    requires newId !in store
    ensures r.0.id == newId && r.0.name == name && r.0.price == price && r.0.quantity == quantity
    ensures r.1.Keys == store.Keys + {newId} && r.1[newId] == r.0
    ensures forall id :: id in store ==> r.1[id] == store[id]
  {
    var p := Product(newId, name, price, quantity);
    (p, store[newId := p])
  }

  /** `findById`: the product stored under `id`, if any. */
  function FindById(store: ProductStore, id: string): (r: Option<Product>)
    ensures r.Some? <==> id in store
    ensures r.Some? ==> r.value.id == id && store[id] == r.value
  {
    if id in store then Some(store[id]) else None
  }

  /** `findByName`: some product with exactly that name, or nothing when no product has it.
      Which one is returned when several share the name is left to the database. */
  method FindByName(store: ProductStore, name: string) returns (r: Option<Product>)
    ensures r.Some? ==> r.value.name == name && r.value.id in store && store[r.value.id] == r.value
    ensures r.None? <==> forall id :: id in store ==> store[id].name != name
  {
    var pending := store.Keys;
    while pending != {}
      invariant pending <= store.Keys
      invariant forall id :: id in store && id !in pending ==> store[id].name != name
      decreases pending
    {
      var id :| id in pending;
      if store[id].name == name {
        return Some(store[id]);
      }
      pending := pending - {id};
    }
    return None;
  }

  /** The requested ids present in the store, each once, in order of first request. */
  function ResolvedIds(store: ProductStore, items: seq<Item>): (r: seq<string>)
    ensures |r| <= |items|
    ensures forall i :: 0 <= i < |r| ==> r[i] in store && r[i] in Ids(items)
    ensures forall id :: id in store && id in Ids(items) ==> id in r
    ensures forall i, j :: 0 <= i < j < |r| ==> r[i] != r[j]
  {
    if |items| == 0 then []
    else
      var prev := ResolvedIds(store, items[..|items| - 1]);
      var id := items[|items| - 1].id;
      if id in store && id !in prev then prev + [id] else prev
  }

  /** `findAllById`: the stored products whose id is requested, each once; unknown ids are
      silently dropped, so the answer may be shorter than the request. The database does not
      fix an order; this model answers in order of first request. */
  function FindAllById(store: ProductStore, items: seq<Item>): (r: seq<Product>)
    ensures |r| <= |items|
    ensures forall i :: 0 <= i < |r| ==> r[i].id in store && store[r[i].id] == r[i] && r[i].id in Ids(items)
    ensures forall id :: id in store && id in Ids(items) ==> store[id] in r
    ensures forall i, j :: 0 <= i < j < |r| ==> r[i].id != r[j].id
    ensures |r| == |ResolvedIds(store, items)| && forall i :: 0 <= i < |r| ==> r[i].id == ResolvedIds(store, items)[i]
  {
    var ids := ResolvedIds(store, items);
    var r := seq(|ids|, i requires 0 <= i < |ids| => store[ids[i]]);
    assert forall id :: id in store && id in Ids(items) ==> store[id] in r by {
      forall id | id in store && id in Ids(items)
        ensures store[id] in r
      {
        var i :| 0 <= i < |ids| && ids[i] == id;
        assert r[i] == store[id];
      }
    }
    r
  }

  /** The state of a batch of decrements after some prefix of the entries: the store,
      the products saved so far in entry order, and whether every entry was found. */
  datatype Batch = Batch(store: ProductStore, saved: seq<Product>, allFound: bool)

  /** One entry of `updateQuantity`: a known product loses the entry's quantity and is
      saved; an unknown id is recorded as a failure. */
  function Decrement(b: Batch, item: Item): (b': Batch)
    ensures b'.store.Keys == b.store.Keys
    ensures forall id :: id in b.store ==> b'.store[id].name == b.store[id].name && b'.store[id].price == b.store[id].price
    ensures forall id :: id in b.store && id != item.id ==> b'.store[id] == b.store[id]
    ensures item.id in b.store ==> b'.store[item.id].quantity == b.store[item.id].quantity - item.quantity
    ensures b'.allFound <==> b.allFound && item.id in b.store
    ensures item.id in b.store ==> b'.saved == b.saved + [b'.store[item.id]]
    ensures item.id !in b.store ==> b' == b.(allFound := false)
  {
    if item.id in b.store then
      var p := b.store[item.id].(quantity := b.store[item.id].quantity - item.quantity);
      Batch(b.store[item.id := p], b.saved + [p], b.allFound)
    else
      b.(allFound := false)
  }

  /** The entries of `updateQuantity` applied one after the other. An unknown id is
      recorded as a failure; the entries around it are still saved. */
  function ApplyDecrements(store: ProductStore, items: seq<Item>): (b: Batch)
    ensures b.store.Keys == store.Keys
    ensures forall id :: id in store ==> b.store[id].name == store[id].name && b.store[id].price == store[id].price
    ensures forall id :: id in store && id !in Ids(items) ==> b.store[id] == store[id]
    ensures b.allFound <==> forall i :: 0 <= i < |items| ==> items[i].id in store
  {
    if |items| == 0 then Batch(store, [], true)
    else Decrement(ApplyDecrements(store, items[..|items| - 1]), items[|items| - 1])
  }

  /** When every entry was found, one product was saved per entry, in entry order. */
  lemma {:induction false} SavedFollowEntries(store: ProductStore, items: seq<Item>)
    ensures ApplyDecrements(store, items).allFound ==>
      && |ApplyDecrements(store, items).saved| == |items|
      && forall i :: 0 <= i < |items| ==> ApplyDecrements(store, items).saved[i].id == items[i].id
  {
    if |items| > 0 {
      SavedFollowEntries(store, items[..|items| - 1]);
    }
  }

  /** After the batch, each product has lost exactly what the entries demanded of it. */
  lemma {:induction false} DecrementsSubtractDemand(store: ProductStore, items: seq<Item>)
    ensures forall id :: id in store ==>
      ApplyDecrements(store, items).store[id].quantity == store[id].quantity - Demand(items, id)
  {
    if |items| > 0 {
      DecrementsSubtractDemand(store, items[..|items| - 1]);
    }
  }

  /** `updateQuantity`: subtracts each entry's quantity from its product and answers the
      saved products in entry order; fails when an entry names an unknown product. */
  function UpdateQuantity(store: ProductStore, items: seq<Item>): (r: Step<seq<Product>, ProductStore>)
    ensures r.result.Err? <==> exists i :: 0 <= i < |items| && items[i].id !in store
    ensures r.result.Err? ==> r.result.error == AppError(ProductNotFound, None)
    ensures r.state.Keys == store.Keys
    ensures forall id :: id in store ==> r.state[id].quantity == store[id].quantity - Demand(items, id)
    ensures forall id :: id in store ==> r.state[id].name == store[id].name && r.state[id].price == store[id].price
    ensures forall id :: id in store && id !in Ids(items) ==> r.state[id] == store[id]
    ensures r.result.Ok? ==> |r.result.value| == |items| && forall i :: 0 <= i < |items| ==> r.result.value[i].id == items[i].id
  {
    DecrementsSubtractDemand(store, items);
    SavedFollowEntries(store, items);
    var b := ApplyDecrements(store, items);
    if b.allFound then Step(Ok(b.saved), b.store) else Step(Err(AppError(ProductNotFound, None)), b.store)
  }

  /** With pairwise distinct ids, an entry's demand is its own quantity. */
  lemma {:induction false} DistinctDemand(items: seq<Item>, i: int)
    requires DistinctIds(items)
    requires 0 <= i < |items|
    ensures Demand(items, items[i].id) == items[i].quantity
  {
    var n := |items| - 1;
    var prefix := items[..n];
    if i == n {
      assert items[i].id !in Ids(prefix);
    } else {
      DistinctDemand(prefix, i);
    }
  }
  /** With pairwise distinct ids, each saved product is already in its final state. */
  lemma {:induction false} SavedAreFinal(store: ProductStore, items: seq<Item>)
    requires DistinctIds(items)
    requires forall i :: 0 <= i < |items| ==> items[i].id in store
    ensures |ApplyDecrements(store, items).saved| == |items|
    ensures forall i :: 0 <= i < |items| ==>
      ApplyDecrements(store, items).saved[i] == ApplyDecrements(store, items).store[items[i].id]
  {
    SavedFollowEntries(store, items);
    if |items| > 0 {
      var prefix := items[..|items| - 1];
      SavedAreFinal(store, prefix);
      SavedFollowEntries(store, prefix);
    }
  }

  /** The decrement promise for a request of distinct, stored ids: each listed product
      loses exactly its entry's quantity and is answered in its final state, in entry order. */
  lemma UpdateQuantityDistinct(store: ProductStore, items: seq<Item>)
    requires DistinctIds(items)
    requires forall i :: 0 <= i < |items| ==> items[i].id in store
    ensures UpdateQuantity(store, items).result.Ok?
    ensures forall i :: 0 <= i < |items| ==>
      UpdateQuantity(store, items).state[items[i].id].quantity == store[items[i].id].quantity - items[i].quantity
    ensures forall i :: 0 <= i < |items| ==>
      UpdateQuantity(store, items).result.value[i] == UpdateQuantity(store, items).state[items[i].id]
  {
    SavedAreFinal(store, items);
    forall i | 0 <= i < |items| {
      DistinctDemand(items, i);
    }
  }
}
