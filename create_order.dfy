/**
 * Order creation (order-service/handlers/CreateOrder.go) as functions: the
 * loop over the request's items is `ReserveAll`, one iteration `ReserveItem`,
 * and the whole handler, with its transaction, `PlaceOrder`. The method
 * `Services.Store.CreateOrder` runs the loop in place and is proved to compute
 * `PlaceOrder`.
 */
module OrderCreation {
  import opened Wrappers
  import opened ObjectIds
  import opened Models

  const InvalidUserId := "Invalid user ID"
  const NoItems := "Order must contain at least one item"
  const BadQuantity := "item quantity must be greater than zero"

  function InvalidProductId(pid: string): string {
    "invalid product ID: " + pid
  }

  function ProductNotFound(pid: string): string {
    "product with ID " + pid + " not found"
  }

  function NotEnoughStock(pid: string): string {
    "not enough stock for product with ID " + pid
  }

  /**
   * What the loop carries from one item to the next: the transaction's view of
   * the products, the order lines built so far and the running total.
   */
  datatype Progress = Progress(products: Products, lines: seq<OrderItem>, total: int)

  function ItemId(item: RequestItem): Option<ObjectId> {
    ObjectIdFromHex(item.productId)
  }

  /**
   * One iteration: check the quantity, the id, that the product exists and
   * has enough stock in the CURRENT view, then take the stock, record the line
   * at the product's current price and add to the total.
   */
  function ReserveItem(st: Progress, item: RequestItem, now: Time): Result<Progress, string> {
    if item.quantity <= 0 then Failure(BadQuantity)
    else
      match ItemId(item)
      case None => Failure(InvalidProductId(item.productId))
      case Some(id) =>
        if id !in st.products then Failure(ProductNotFound(item.productId))
        else
          var p := st.products[id];
          if p.stockLevel < item.quantity then Failure(NotEnoughStock(item.productId))
          else
            Success(Progress(
              st.products[id := p.(stockLevel := p.stockLevel - item.quantity, updatedAt := now)],
              st.lines + [OrderItem(id, item.quantity, p.price)],
              st.total + p.price * item.quantity))
  }

  /** The loop over the items in request order; the first failing item ends it. */
  function ReserveAll(products: Products, items: seq<RequestItem>, now: Time): Result<Progress, string>
    decreases |items|
  {
    if items == [] then Success(Progress(products, [], 0))
    else
      match ReserveAll(products, items[..|items| - 1], now)
      case Failure(e) => Failure(e)
      case Success(st) => ReserveItem(st, items[|items| - 1], now)
  }

  /** The total quantity the items ask of product `k`. */
  function QtyFor(items: seq<RequestItem>, k: ObjectId): int {
    if items == [] then 0
    else QtyFor(items[..|items| - 1], k) + (if ItemId(items[|items| - 1]) == Some(k) then items[|items| - 1].quantity else 0)
  }

  predicate Names(items: seq<RequestItem>, k: ObjectId) {
    exists j :: 0 <= j < |items| && ItemId(items[j]) == Some(k)
  }

  /**
   * Item `j` can be served from the stock the products had before the order:
   * its quantity is positive, its id is valid and names a product, and the
   * quantities asked of that product by items 0..j together do not exceed it.
   */
  predicate Admissible(products: Products, items: seq<RequestItem>, j: int)
    requires 0 <= j < |items|
  {
    && items[j].quantity > 0
    && ItemId(items[j]).Some?
    && ItemId(items[j]).value in products
    && QtyFor(items[..j + 1], ItemId(items[j]).value) <= products[ItemId(items[j]).value].stockLevel
  }

  function PendingOrder(id: ObjectId, userId: int, st: Progress, now: Time): Order {
    Order(id, userId, Pending, st.total, st.lines, now, now)
  }

  /**
   * The handler: the two request checks, then the loop and the insert inside
   * one transaction, which commits both or neither. `newId` is the id
   * `primitive.NewObjectID` draws; inserting under a taken id fails.
   */
  function PlaceOrder(products: Products, orders: Orders, req: CreateOrderRequest, now: Time, newId: ObjectId): (o: OrderOutcome)
    ensures o.reply.Fail? ==> o.products == products && o.orders == orders && o.reply.code == StatusBadRequest
    ensures o.reply.Ok? ==> && o.reply.code == StatusCreated
                            && newId !in orders
                            && o.orders == orders[newId := o.reply.value]
                            && o.reply.value.id == newId
                            && o.reply.value.userId == req.userId > 0
                            && o.reply.value.status == Pending
                            && o.reply.value.createdAt == o.reply.value.updatedAt == now
    ensures req.userId <= 0 ==> o.reply == Fail(StatusBadRequest, InvalidUserId)
    ensures req.userId > 0 && req.items == [] ==> o.reply == Fail(StatusBadRequest, NoItems)
  {
    if req.userId <= 0 then OrderOutcome(Fail(StatusBadRequest, InvalidUserId), products, orders)
    else if req.items == [] then OrderOutcome(Fail(StatusBadRequest, NoItems), products, orders)
    else
      match ReserveAll(products, req.items, now)
      case Failure(e) => OrderOutcome(Fail(StatusBadRequest, e), products, orders)
      case Success(st) =>
        if newId in orders then OrderOutcome(Fail(StatusBadRequest, DuplicateKey), products, orders)
        else
          var order := PendingOrder(newId, req.userId, st, now);
          OrderOutcome(Ok(StatusCreated, order), st.products, orders[newId := order])
  }

  // ---------------------------------------------------------------------------
  // Properties of the loop

  /** Once some prefix of the items fails, the whole loop fails with that error. */
  lemma {:induction false} FailureIsFinal(products: Products, items: seq<RequestItem>, j: nat, now: Time)
    requires j <= |items|
    requires ReserveAll(products, items[..j], now).Failure?
    ensures ReserveAll(products, items, now) == ReserveAll(products, items[..j], now)
  {
    if j < |items| {
      var pre := items[..|items| - 1];
      assert pre[..j] == items[..j];
      FailureIsFinal(products, pre, j, now);
    } else {
      assert items[..j] == items;
    }
  }

  /** The last item of a request names `k` exactly when no earlier one does and it does, or an earlier one does. */
  lemma NamesSnoc(items: seq<RequestItem>, k: ObjectId)
    requires items != []
    ensures Names(items, k) <==> Names(items[..|items| - 1], k) || ItemId(items[|items| - 1]) == Some(k)
  {
    var pre := items[..|items| - 1];
    if Names(items, k) {
      var j :| 0 <= j < |items| && ItemId(items[j]) == Some(k);
      if j < |items| - 1 { assert ItemId(pre[j]) == Some(k); }
    }
    if Names(pre, k) {
      var j :| 0 <= j < |pre| && ItemId(pre[j]) == Some(k);
      assert ItemId(items[j]) == Some(k);
    }
  }

  /** A successful iteration takes `item.quantity` from one existing product, which keeps a non-negative stock. */
  lemma ReserveItemStock(st: Progress, item: RequestItem, now: Time)
    requires ReserveItem(st, item, now).Success?
    ensures ItemId(item).Some? && ItemId(item).value in st.products && item.quantity > 0
    ensures var id := ItemId(item).value;
      var p := st.products[id];
      && p.stockLevel >= item.quantity
      && ReserveItem(st, item, now).value.products == st.products[id := p.(stockLevel := p.stockLevel - item.quantity, updatedAt := now)]
      && ReserveItem(st, item, now).value.lines == st.lines + [OrderItem(id, item.quantity, p.price)]
      && ReserveItem(st, item, now).value.total == st.total + p.price * item.quantity
  {
  }

  /**
   * After a successful loop: the same products exist; each product's stock has
   * dropped by exactly the total quantity the items asked of it and is not
   * negative if anything was asked; only stock and `updatedAt` changed, and
   * products no item names are untouched.
   */
  lemma {:induction false} ReserveAllStock(products: Products, items: seq<RequestItem>, now: Time)
    requires ReserveAll(products, items, now).Success?
    ensures var st := ReserveAll(products, items, now).value;
      && st.products.Keys == products.Keys
      && (forall k :: k in products ==> st.products[k].stockLevel == products[k].stockLevel - QtyFor(items, k))
      && (forall k :: k in products ==> st.products[k] == products[k].(stockLevel := st.products[k].stockLevel, updatedAt := st.products[k].updatedAt))
      && (forall k :: k in products && Names(items, k) ==> st.products[k].stockLevel >= 0 && st.products[k].updatedAt == now)
      && (forall k :: k in products && !Names(items, k) ==> st.products[k] == products[k])
  {
    if items != [] {
      var n := |items|;
      var pre, last := items[..n - 1], items[n - 1];
      ReserveAllStock(products, pre, now);
      var st0 := ReserveAll(products, pre, now).value;
      assert ReserveAll(products, items, now) == ReserveItem(st0, last, now);
      ReserveItemStock(st0, last, now);
      var st := ReserveItem(st0, last, now).value;
      var id := ItemId(last).value;
      forall k | k in products
        ensures st.products[k].stockLevel == products[k].stockLevel - QtyFor(items, k)
        ensures st.products[k] == products[k].(stockLevel := st.products[k].stockLevel, updatedAt := st.products[k].updatedAt)
        ensures Names(items, k) ==> st.products[k].stockLevel >= 0 && st.products[k].updatedAt == now
        ensures !Names(items, k) ==> st.products[k] == products[k]
      {
        NamesSnoc(items, k);
        assert QtyFor(items, k) == QtyFor(pre, k) + (if k == id then last.quantity else 0);
      }
    }
  }

  /**
   * After a successful loop there is one line per item, in request order, with
   * the item's product and quantity and that product's price; the total is the
   * sum over the lines; and every item had a positive quantity and a valid id
   * naming an existing product.
   */
  lemma {:induction false} ReserveAllLines(products: Products, items: seq<RequestItem>, now: Time)
    requires ReserveAll(products, items, now).Success?
    ensures var st := ReserveAll(products, items, now).value;
      && |st.lines| == |items|
      && st.total == LinesTotal(st.lines)
      && (forall j :: 0 <= j < |items| ==>
            && items[j].quantity > 0
            && ItemId(items[j]).Some?
            && ItemId(items[j]).value in products
            && st.lines[j] == OrderItem(ItemId(items[j]).value, items[j].quantity, products[ItemId(items[j]).value].price))
  {
    if items != [] {
      var n := |items|;
      var pre, last := items[..n - 1], items[n - 1];
      ReserveAllLines(products, pre, now);
      ReserveAllStock(products, pre, now);
      var st0 := ReserveAll(products, pre, now).value;
      assert ReserveAll(products, items, now) == ReserveItem(st0, last, now);
      ReserveItemStock(st0, last, now);
      var st := ReserveItem(st0, last, now).value;
      var id := ItemId(last).value;
      assert st.lines[..n - 1] == st0.lines;
      assert st0.products[id].price == products[id].price;
      forall j | 0 <= j < n
        ensures items[j].quantity > 0 && ItemId(items[j]).Some? && ItemId(items[j]).value in products
        ensures st.lines[j] == OrderItem(ItemId(items[j]).value, items[j].quantity, products[ItemId(items[j]).value].price)
      {
        if j < n - 1 {
          assert items[j] == pre[j];
          assert st.lines[j] == st0.lines[j];
        }
      }
    }
  }

  /**
   * The loop succeeds exactly when every item is admissible: the stock each
   * check sees is the stock before the order minus what earlier items of the
   * same request took, so a product named twice must cover both quantities.
   */
  lemma {:induction false} ReserveAllSucceedsIff(products: Products, items: seq<RequestItem>, now: Time)
    ensures ReserveAll(products, items, now).Success? <==> forall j :: 0 <= j < |items| ==> Admissible(products, items, j)
  {
    if items != [] {
      var n := |items|;
      var pre, last := items[..n - 1], items[n - 1];
      ReserveAllSucceedsIff(products, pre, now);
      forall j | 0 <= j < n - 1
        ensures Admissible(products, items, j) == Admissible(products, pre, j)
      {
        assert items[..j + 1] == pre[..j + 1];
      }
      assert items[..n] == items;
      if ReserveAll(products, pre, now).Success? {
        ReserveAllStock(products, pre, now);
        var st0 := ReserveAll(products, pre, now).value;
        assert ReserveAll(products, items, now) == ReserveItem(st0, last, now);
        if ItemId(last).Some? {
          var id := ItemId(last).value;
          assert QtyFor(items, id) == QtyFor(pre, id) + last.quantity;
          if id in products {
            assert st0.products[id].stockLevel == products[id].stockLevel - QtyFor(pre, id);
          }
        }
        assert ReserveItem(st0, last, now).Success? <==> Admissible(products, items, n - 1);
      } else {
        var j :| 0 <= j < n - 1 && !Admissible(products, pre, j);
        assert !Admissible(products, items, j);
      }
    }
  }

  // ---------------------------------------------------------------------------
  // Properties of the handler

  /**
   * A successful order: its lines follow the request item by item with the
   * prices the products had, its total is their sum, every product's stock has
   * dropped by what the request asked of it and not below zero, and products
   * the request does not name are unchanged.
   */
  lemma PlaceOrderSucceeded(products: Products, orders: Orders, req: CreateOrderRequest, now: Time, newId: ObjectId)
    requires PlaceOrder(products, orders, req, now, newId).reply.Ok?
    ensures var o := PlaceOrder(products, orders, req, now, newId);
      var order := o.reply.value;
      && |order.items| == |req.items|
      && order.total == LinesTotal(order.items)
      && (forall j :: 0 <= j < |req.items| ==>
            && ItemId(req.items[j]).Some?
            && ItemId(req.items[j]).value in products
            && order.items[j] == OrderItem(ItemId(req.items[j]).value, req.items[j].quantity, products[ItemId(req.items[j]).value].price))
      && o.products.Keys == products.Keys
      && (forall k :: k in products ==> o.products[k].stockLevel == products[k].stockLevel - QtyFor(req.items, k))
      && (forall k :: k in products && Names(req.items, k) ==> o.products[k].stockLevel >= 0)
      && (forall k :: k in products && !Names(req.items, k) ==> o.products[k] == products[k])
  {
    ReserveAllStock(products, req.items, now);
    ReserveAllLines(products, req.items, now);
  }

  /**
   * The handler fails, changing nothing, exactly when the user id is not
   * positive, there are no items, some item is not admissible, or the new id
   * is taken.
   */
  lemma PlaceOrderFailsIff(products: Products, orders: Orders, req: CreateOrderRequest, now: Time, newId: ObjectId)
    ensures PlaceOrder(products, orders, req, now, newId).reply.Fail? <==>
      || req.userId <= 0
      || req.items == []
      || (exists j :: 0 <= j < |req.items| && !Admissible(products, req.items, j))
      || newId in orders
  {
    ReserveAllSucceedsIff(products, req.items, now);
  }

  /** Creating an order keeps the store well formed; in particular no stock goes negative. */
  lemma PlaceOrderKeepsWellFormed(products: Products, categories: Categories, orders: Orders, req: CreateOrderRequest, now: Time, newId: ObjectId)
    requires WellFormed(products, categories, orders)
    ensures var o := PlaceOrder(products, orders, req, now, newId);
      WellFormed(o.products, categories, o.orders)
  {
    var o := PlaceOrder(products, orders, req, now, newId);
    if o.reply.Ok? {
      ReserveAllStock(products, req.items, now);
      ReserveAllLines(products, req.items, now);
      var st := ReserveAll(products, req.items, now).value;
      forall k | k in o.products
        ensures o.products[k].stockLevel >= 0
      {
        if !Names(req.items, k) { assert o.products[k] == products[k]; }
      }
    }
  }
}
