# Order placement, product and customer stores — a Dafny model

This project models the order-placement pipeline of a small Node.js/TypeORM shop back end. It also models the store operations that pipeline rests on.

- **Placing an order** (`CreateOrderService.execute`):
  1. The customer is looked up.
  2. All requested products are fetched in one batch.
  3. Each resolved product is checked against the first request entry that names it.
  4. The order is persisted with lines that snapshot the current prices.
  5. The stock of every request entry is decremented.
- **The product repository**: `create`, `findById`, `findByName`, `findAllById` and `updateQuantity`.
- **The customer service**: creating a customer unless the email is taken.
- **The product service**: showing a product by id, or failing.

The stores are immutable maps from id to record. A subset type (`ProductStore`, `CustomerStore`) keeps each key equal to its record's id. The orders store is the sequence of orders placed so far.

Every operation that can fail while or after writing returns a `Step`: the `Result` (a value or an `AppError` carrying the message and, where the source gives one, the HTTP status) together with the stores as they are after the call. The after-state is kept on failure too, because a failing order placement can already have written. The repository creates cannot fail; they return the new record together with the new store.

Files, one module each:

| file | module | role |
|---|---|---|
| `outcomes.dfy` | `Outcomes` | `Option`, `AppError`, `Result`, `Step` |
| `products_repository.dfy` | `ProductsRepository` | the product store and its five operations |
| `customers_repository.dfy` | `CustomersRepository` | the customer store (look-ups and `create`) |
| `orders_repository.dfy` | `OrdersRepository` | orders, order lines, `create` |
| `show_product_service.dfy` | `ShowProductService` | look-up-or-fail |
| `create_customer_service.dfy` | `CreateCustomerService` | creation guarded by email uniqueness |
| `create_order_service.dfy` | `CreateOrderService` | the pipeline, its checks and its writes |
| `order_scenarios.dfy` | `OrderScenarios` | one- and two-entry requests, worked out |

Behaviours that follow from the code as written are kept, not fixed:

- **Partial resolution.** When the customer exists, at least one requested id resolves, and every resolved product passes the stock check, the order is persisted even if some other id is unknown. The decrement then fails on the unknown id. A resolved product over its stock still stops the whole call before anything is written (`StockExceededRejected`).
- **Duplicate ids.** The stock check sees only the first entry naming a product, but `updateQuantity` receives every entry. Under the sequential decrement this model adopts (see "## Left out"), every entry is subtracted and stock can go negative. The concurrent source may instead lose one of the updates.

`PartialResolutionPersistsOrder`, `PartlyUnknownRequestPersistsOrder` and `DuplicateEntriesOverdraw` prove these behaviours.

`CreateOrderService.ts:44` rejects only when no product at all resolves. An empty request therefore fails with status 400 (`Execute`'s third `ensures`), and a partly unknown request passes the checks (`PartialResolutionPersistsOrder`).

## Model

| member | source | states |
|---|---|---|
| ProductsRepository.Create | src/modules/products/infra/typeorm/repositories/ProductsRepository.ts:21-31 | The product returned has the given name, price and quantity under the fresh id. It is stored under that id. No other product changes, and exactly that one key is added. |
| ProductsRepository.FindById | src/modules/products/infra/typeorm/repositories/ProductsRepository.ts:33-37 | Finds a product exactly when the id is stored. The product found is the stored one, and its id is the one asked for. |
| ProductsRepository.FindByName | src/modules/products/infra/typeorm/repositories/ProductsRepository.ts:39-47 | Any product returned has exactly that name and is the stored record. Nothing is returned exactly when no stored product has that name. |
| ProductsRepository.ResolvedIds | src/modules/products/infra/typeorm/repositories/ProductsRepository.ts:49-53 | The ids the batch look-up resolves. Each is stored and requested, none repeats, there are no more than entries, and every stored requested id is among them. |
| ProductsRepository.FindAllById | src/modules/products/infra/typeorm/repositories/ProductsRepository.ts:49-53 | Returns only stored products whose id was requested, each once, possibly fewer than requested. Every stored requested product is among them. |
| ProductsRepository.Decrement | src/modules/products/infra/typeorm/repositories/ProductsRepository.ts:59-70 | One entry: a known product loses the entry's quantity and is saved, keeping its name and price, and nothing else changes. An unknown id only marks the batch as failed. |
| ProductsRepository.ApplyDecrements | src/modules/products/infra/typeorm/repositories/ProductsRepository.ts:58-72 | The whole list keeps the key set, names and prices. It leaves unlisted products untouched, and it records success exactly when every entry is stored. |
| ProductsRepository.SavedFollowEntries | src/modules/products/infra/typeorm/repositories/ProductsRepository.ts:58-74 | When every entry was found, exactly one product was saved per entry, in entry order. |
| ProductsRepository.DecrementsSubtractDemand | src/modules/products/infra/typeorm/repositories/ProductsRepository.ts:66 | Each product's stock afterwards is its old stock minus the total quantity the entries asked of it. |
| ProductsRepository.UpdateQuantity | src/modules/products/infra/typeorm/repositories/ProductsRepository.ts:55-75 | Fails with "Product does not exists" exactly when some entry names an unknown id. Each stock drops by its total demand; names, prices and unlisted products stay. On success, the answer lists one product per entry, in input order. |
| ProductsRepository.DistinctDemand | src/modules/products/infra/typeorm/repositories/ProductsRepository.ts:59-71 | With pairwise distinct ids, the demand on an entry's product is that entry's own quantity. |
| ProductsRepository.SavedAreFinal | src/modules/products/infra/typeorm/repositories/ProductsRepository.ts:66-70 | With distinct, stored ids, each saved product equals that product's final stored state. |
| ProductsRepository.UpdateQuantityDistinct | src/modules/products/infra/typeorm/repositories/ProductsRepository.ts:59-74 | With distinct, stored ids, the call succeeds. Each listed stock becomes its old value minus the entry's quantity, and the answer in input order is the updated products. |
| CustomersRepository.FindById | src/modules/orders/services/CreateOrderService.ts:34 | Finds a customer exactly when the id is stored, and returns the stored customer. |
| CustomersRepository.FindByEmail | src/modules/customers/services/CreateCustomerService.ts:18 | Any customer returned has that email and is stored. Nothing is returned exactly when no stored customer has it. |
| CustomersRepository.Create | src/modules/customers/services/CreateCustomerService.ts:24-27 | The new customer has the given name and email under the fresh id. Exactly one key is added and existing customers are unchanged. |
| OrdersRepository.Create | src/modules/orders/services/CreateOrderService.ts:68-75 | The order has the given customer and lines, and is appended after the existing orders. |
| ShowProductService.Execute | src/modules/products/services/ShowProductService.ts:19-27 | Succeeds exactly when the id is stored, returning the stored product whose id is the one requested. Otherwise it fails with "Product does not exists". The store is never changed. |
| CreateCustomerService.Execute | src/modules/customers/services/CreateCustomerService.ts:17-30 | Fails with "Customer already booked with name", leaving the store identical, exactly when the email is taken. Otherwise it adds exactly one customer with the given name and email. Existing customers never change, and unique emails stay unique. |
| CreateOrderService.FirstMatch | src/modules/orders/services/CreateOrderService.ts:50 | Finds an entry exactly when some entry names the id; the entry found names that id and is in the request. |
| CreateOrderService.FirstMatchIsFirst | src/modules/orders/services/CreateOrderService.ts:50 | The entry found is the earliest one naming the id. |
| CreateOrderService.DistinctFirstMatch | src/modules/orders/services/CreateOrderService.ts:50 | With distinct ids, the entry found for an entry's id is that entry itself. |
| CreateOrderService.BuildLines | src/modules/orders/services/CreateOrderService.ts:47-66 | Succeeds exactly when every resolved product is requested and its first entry asks no more than its stock; equal stock passes. Each line then carries the product's id and price and the first entry's quantity. Over-stock gives the quantity error. |
| CreateOrderService.Check | src/modules/orders/services/CreateOrderService.ts:34-66 | An unknown customer fails with "Customer not found". A request in which no id resolves, including an empty one, fails with "Product does not exists" and status 400. A passed check carries the looked-up customer. |
| CreateOrderService.CheckPassesIff | src/modules/orders/services/CreateOrderService.ts:34-66 | The checks pass exactly when the customer exists, some requested id resolves, and every resolved product is within stock for its first entry. The lines built then snapshot the resolved products. |
| CreateOrderService.ChecksPassedValidate | src/modules/orders/services/CreateOrderService.ts:40-60 | Lines are built only for a request that meets every check. |
| CreateOrderService.AdmissibleFoundValidates | src/modules/orders/services/CreateOrderService.ts:44-60 | A non-empty lookup whose products all pass the stock check means some id resolved and every stored requested product is within stock. |
| CreateOrderService.ValidatedLinesBuild | src/modules/orders/services/CreateOrderService.ts:47-66 | When every stored requested product is within stock, line construction succeeds. |
| CreateOrderService.BuiltLinesSnapshot | src/modules/orders/services/CreateOrderService.ts:62-75 | The lines built give one line per resolved product, none repeated. Each carries the product's id, its price at call time, and the first entry's quantity. |
| CreateOrderService.CheckedLinesFollowLookup | src/modules/orders/services/CreateOrderService.ts:47-66 | The lines follow the batch look-up order, one per resolved id. |
| CreateOrderService.Persist | src/modules/orders/services/CreateOrderService.ts:68-79 | The order is appended before the decrement runs, and customers stay unchanged. Each stock drops by its total demand. The call fails with "Product does not exists" exactly when an entry names an unknown id; otherwise it returns the new order. |
| CreateOrderService.Execute | src/modules/orders/services/CreateOrderService.ts:33-81 | Customers never change. An unknown customer fails with "Customer not found" and a request with no resolved id fails with status 400, both with every store unchanged. A placed order belongs to the looked-up customer. |
| CreateOrderService.FailedChecksWriteNothing | src/modules/orders/services/CreateOrderService.ts:34-68 | Any request that fails a check is an error that leaves the customer, product and order stores exactly as they were. |
| CreateOrderService.ValidatedOrderIsPersisted | src/modules/orders/services/CreateOrderService.ts:62-79 | Once the checks pass, exactly one order is appended for the looked-up customer, with snapshot lines. Each stock drops by its demand and unrequested products stay. The call fails exactly when an entry is unknown; otherwise it returns the new order. |
| CreateOrderService.PersistedLinesFollowLookup | src/modules/orders/services/CreateOrderService.ts:40-75 | The persisted order has one line per resolved id, in first-request order. |
| CreateOrderService.PlacedIff | src/modules/orders/services/CreateOrderService.ts:33-81 | A call succeeds exactly when the customer exists, the request is non-empty, and every entry names a stored product whose first entry asks no more than its stock. |
| CreateOrderService.ValidatedWithinStock | src/modules/orders/services/CreateOrderService.ts:47-60 | After the checks pass, every entry naming a stored product is within stock as seen through that product's first entry. |
| CreateOrderService.AllStoredAndWithinStockValidates | src/modules/orders/services/CreateOrderService.ts:40-60 | A non-empty request of stored products within stock, from a known customer, passes every check. |
| CreateOrderService.SuccessValidates | src/modules/orders/services/CreateOrderService.ts:33-81 | A successful call passed every check, and all of its entries name stored products. |
| CreateOrderService.StockExceededRejected | src/modules/orders/services/CreateOrderService.ts:56-60 | A known customer and a resolved product whose first entry exceeds its stock: the call fails with the quantity error and no store changes. |
| CreateOrderService.StockExceededFailsCheck | src/modules/orders/services/CreateOrderService.ts:47-60 | Such a product makes the look-up non-empty and line construction fail with the quantity error. |
| CreateOrderService.DistinctSuccessDecrements | src/modules/orders/services/CreateOrderService.ts:56-77 | After a successful call with distinct ids, each requested stock is its old value minus the requested quantity, and none is negative. |
| CreateOrderService.DistinctDecrement | src/modules/products/infra/typeorm/repositories/ProductsRepository.ts:66 | For distinct, stored, checked entries, subtracting the demand takes exactly each entry's quantity and leaves no stock below zero. |
| CreateOrderService.PartialResolutionPersistsOrder | src/modules/orders/services/CreateOrderService.ts:44-77 | A request that passes the checks but names an unknown id still appends its order, with snapshot lines for the resolved products, and then fails with "Product does not exists". |
| OrderScenarios.SingleEntryPlaced | src/modules/orders/services/CreateOrderService.ts:33-81 | One stored entry within stock yields a one-line order at the current price, and reduces the stock by the quantity. |
| OrderScenarios.DuplicateEntriesOverdraw | src/modules/orders/services/CreateOrderService.ts:50-77 | Two equal entries, each within stock but together beyond it: the first-match check passes, the order is placed, and the sequential decrement drives the stock negative. |
| OrderScenarios.PartlyUnknownRequestPersistsOrder | src/modules/orders/services/CreateOrderService.ts:44-77 | A stored entry followed by an unknown one: the call fails with "Product does not exists", yet the one-line order is persisted. |

## Left out

- Concurrency: `updateQuantity` runs its entries through `Promise.all` (ProductsRepository.ts:58).
  - The model applies them one after the other, in list order.
  - An unknown id fails the call, but the known entries around it are still saved, as sibling promises are not cancelled.
  - With duplicate ids the real reads and saves can interleave and lose an update. The model subtracts every entry.
- ProductsRepository.UpdateQuantity: for every input, duplicates included, it states the sequential outcome: each stock ends at its old value minus its total `Demand`. With duplicate ids the source's outcome depends on scheduling, so that case is the adopted reading, not a promise of the source. The "old quantity minus the entry's quantity" form is stated under distinct ids, in `UpdateQuantityDistinct`.
- The race between the stock check and the decrement across concurrent requests is concurrency and is not modelled.
- Dependency injection (`@inject`, `@injectable`) is wiring only and is not modelled.
- The HTTP controller is not modelled.
- The migration, entity decorators, timestamps and order ids are not modelled. A product keeps only its id, name, price and quantity.
- Prices are integers that are only ever copied; the decimal `price` column is not modelled. Quantities are unbounded integers, and three numeric coercions are not modelled:
  - `Number(...)` on the request entry's quantity at ProductsRepository.ts:66;
  - the `numeric` stock column, which the driver returns as a string, converted implicitly by `>` at CreateOrderService.ts:56 and by `-=` at ProductsRepository.ts:66;
  - a quantity sent as a JSON string, which makes the comparison at CreateOrderService.ts:56 a string comparison (`"10" > "9"` is false, so such an over-stock request would pass).
- Ids are compared as exact strings. The database's uuid normalisation (an upper-case spelling of a stored uuid matches it, and the id comes back in lower case) is not modelled, and neither is its rejection of malformed ids, which the source raises as a database error rather than "Product does not exists". As a consequence the 400 at CreateOrderService.ts:52-53 (a resolved product no request entry names) cannot fire in the model: `BuildLines` keeps that branch, but every resolved id is one some entry names.
- The generated uuids for new products and customers are the parameter `newId`, which must not already be stored.
- The customers and orders repository implementations are not part of this model.
  - `CustomersRepository` is the map operations the services rely on.
  - `OrdersRepository.Create` appends the order value.
- `AppError`'s default status is not modelled. An error carries its message, and a status only where the thrower gives one: the 400 at CreateOrderService.ts:45 and :53.
- ProductsRepository.FindAllById: the database fixes no order for `findByIds`. The model answers in order of first request.
- ProductsRepository.FindByName: which product is returned when several share a name is left open, as with the database.
- CreateOrderService.DistinctSuccessDecrements: it does not restate that unrequested products are unchanged. That fact holds for every validated call and is stated by `CreateOrderService.ValidatedOrderIsPersisted`.
