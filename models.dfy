/**
 * The records the three collections hold, the decoded request bodies, and the
 * shape of a handler's reply (an HTTP status code with a payload or an error
 * message). Prices and totals are whole cents; times are clock ticks.
 */
module Models {
  import opened ObjectIds

  type Time = nat

  datatype Product = Product(
    id: ObjectId,
    name: string,
    description: string,
    price: int,
    stockLevel: int,
    categoryId: ObjectId,
    createdAt: Time,
    updatedAt: Time)

  datatype Category = Category(id: ObjectId, name: string, description: string)

  /** One line of an order, with the product's price frozen at purchase time. */
  datatype OrderItem = OrderItem(productId: ObjectId, quantity: int, price: int)

  datatype Order = Order(
    id: ObjectId,
    userId: int,
    status: string,
    total: int,
    items: seq<OrderItem>,
    createdAt: Time,
    updatedAt: Time)

  datatype CreateProductRequest = CreateProductRequest(
    name: string,
    description: string,
    price: int,
    stockLevel: int,
    categoryId: string)

  datatype RequestItem = RequestItem(productId: string, quantity: int)

  datatype CreateOrderRequest = CreateOrderRequest(userId: int, items: seq<RequestItem>)

  /** A decoded JSON value, as `encoding/json` produces into an `interface{}`. */
  datatype Json = JString(str: string) | JNumber(num: int) | JBool(b: bool) | JNull | JArray | JObject

  const Pending := "pending"
  const Processing := "processing"
  const Shipped := "shipped"
  const Delivered := "delivered"
  const Cancelled := "cancelled"

  /** The five statuses an order may be given. */
  predicate IsOrderStatus(s: string) {
    s == Pending || s == Processing || s == Shipped || s == Delivered || s == Cancelled
  }

  type Products = map<ObjectId, Product>
  type Categories = map<ObjectId, Category>
  type Orders = map<ObjectId, Order>

  datatype Reply<T> = Ok(code: int, value: T) | Fail(code: int, message: string)

  /** What an order handler leaves behind: its reply and the products and orders after it. */
  datatype OrderOutcome = OrderOutcome(reply: Reply<Order>, products: Products, orders: Orders)

  const StatusOK := 200
  const StatusCreated := 201
  const StatusNoContent := 204
  const StatusBadRequest := 400
  const StatusNotFound := 404
  const StatusConflict := 409
  const StatusInternalServerError := 500

  // Messages the handlers share.
  const InvalidProductId := "Invalid product ID"
  const ProductNotFound := "Product not found"
  const InvalidCategoryId := "Invalid category ID"
  const CategoryNotFound := "Category not found"
  const InvalidOrderId := "Invalid order ID"
  const OrderNotFound := "Order not found"

  /** Stands for the message the JSON decoder gives for a body it cannot decode. */
  const MalformedBody := "malformed JSON body"
  /** Stands for the message of the driver's duplicate-key error on an insert whose `_id` is taken. */
  const DuplicateKey := "duplicate key error"

  /** The sum of price times quantity over the lines, as an order's total must be. */
  function LinesTotal(items: seq<OrderItem>): int {
    if items == [] then 0
    else LinesTotal(items[..|items| - 1]) + items[|items| - 1].price * items[|items| - 1].quantity
  }

  predicate DistinctNames(categories: Categories) {
    forall k, j :: k in categories && j in categories && k != j ==> categories[k].name != categories[j].name
  }

  /**
   * What every operation of the service keeps true of the store: each record is
   * filed under its own id, stock is never negative, prices are positive, every
   * product's category exists, category names are distinct, and every order has
   * positive quantities and a total equal to the sum of its lines.
   */
  predicate WellFormed(products: Products, categories: Categories, orders: Orders) {
    && (forall k :: k in products ==> products[k].id == k)
    && (forall k :: k in products ==> products[k].stockLevel >= 0 && products[k].price > 0)
    && (forall k :: k in products ==> products[k].categoryId in categories)
    && (forall k :: k in categories ==> categories[k].id == k)
    && DistinctNames(categories)
    && (forall k :: k in orders ==> orders[k].id == k)
    && (forall k :: k in orders ==> orders[k].total == LinesTotal(orders[k].items))
    && (forall k, i :: k in orders && 0 <= i < |orders[k].items| ==> orders[k].items[i].quantity > 0)
  }
}
