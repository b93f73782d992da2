/** The show-product service: a product by id, or an error. */
module ShowProductService {
  import opened Outcomes
  import opened ProductsRepository

  /** `execute`: looks the product up and fails when it is absent. Reading leaves the
      store as it was. */
  function Execute(store: ProductStore, id: string): (r: Step<Product, ProductStore>)
    ensures r.state == store
    ensures r.result.Ok? <==> id in store
    ensures r.result.Ok? ==> r.result.value == store[id] && r.result.value.id == id
    ensures r.result.Err? ==> r.result.error == AppError(ProductNotFound, None)
  {
    match FindById(store, id)
    case None => Step(Err(AppError(ProductNotFound, None)), store)
    case Some(p) => Step(Ok(p), store)
  }
}
