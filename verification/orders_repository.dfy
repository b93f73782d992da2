/** Orders and their lines. The orders repository source is not part of this
    model: creating an order builds the order value and appends it to the store. */
module OrdersRepository {
  import opened CustomersRepository
  import opened ProductsRepository

  /** One line of an order: the product, the quantity ordered and the unit price
      captured when the order was placed. */
  datatype OrderLine = OrderLine(productId: string, quantity: int, price: Cents)

  datatype Order = Order(customer: Customer, lines: seq<OrderLine>)

  /** `create`: persists a new order for `customer` with `lines`. */
  function Create(orders: seq<Order>, customer: Customer, lines: seq<OrderLine>): (r: (Order, seq<Order>))
    ensures r.0.customer == customer && r.0.lines == lines
    ensures r.1 == orders + [r.0]
  {
    var order := Order(customer, lines);
    (order, orders + [order])
  }
}
