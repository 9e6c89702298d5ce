/**
 * The four database tables the handlers read and write, and the in-memory
 * database that holds them. Prices and amounts are only stored and copied,
 * never computed with, so they are kept as exact `real` values.
 */
module Schema {
  import opened Optional

  /** A stored price or amount (a DECIMAL/float column). */
  type Money = real

  /** A row of `products`. */
  datatype Product = Product(
    itemId: int,
    productName: string,
    sku: string,
    price: Money,
    category: string,
    stockLevel: int,
    restockLevel: int,
    availabilityStatus: string,
    volume: string,
    imageUrl: string,
    expirationDate: Option<string>,
    createdAt: string)

  /** A row of `orders` (the order header). */
  datatype Order = Order(
    id: int,
    orderNumber: string,
    userId: int,
    totalAmount: Money,
    status: string,
    shipmentDate: Option<string>,
    deliveryAddress: string,
    promoCode: Option<string>)

  /** A row of `order_items`. */
  datatype OrderItem = OrderItem(
    id: int,
    orderId: int,
    sku: string,
    productName: string,
    quantity: int,
    price: Money,
    totalPrice: Money)

  /** A row of `users`. */
  datatype User = User(
    id: int,
    firstName: string,
    lastName: string,
    email: string,
    city: string)

  /** A snapshot of the whole database. */
  datatype Tables = Tables(
    products: seq<Product>,
    orders: seq<Order>,
    orderItems: seq<OrderItem>,
    users: seq<User>)

  /** The database the handlers share; each SQL statement reassigns one table. */
  class Database {
    var products: seq<Product>
    var orders: seq<Order>
    var orderItems: seq<OrderItem>
    var users: seq<User>

    constructor (t: Tables)
      ensures State() == t
    {
      products, orders, orderItems, users := t.products, t.orders, t.orderItems, t.users;
    }

    /** The current contents of all four tables. */
    function State(): Tables
      reads this
    {
      Tables(products, orders, orderItems, users)
    }
  }
}
