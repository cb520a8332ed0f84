/**
 * The order status update (order-service/repository/UpdateOrderStatus.go) as
 * functions: the stock-restore loop is `Restock`, the whole handler
 * `ChangeStatus`. The method `Services.Store.UpdateOrderStatus` runs the loop
 * in place and is proved to compute `ChangeStatus`.
 *
 * Any of the five statuses may be set from any status. Only a move INTO
 * `cancelled` from another status gives the stock back; cancelling a
 * cancelled order again, or moving it out of `cancelled`, only rewrites the
 * status.
 */
module OrderStatus {
  import opened Wrappers
  import opened ObjectIds
  import opened Models
  import OrderCreation

  const InvalidStatus := "Invalid status. Must be one of: pending, processing, shipped, delivered, cancelled"

  /** The one transition that runs the compensating stock restore. */
  predicate IsCancellation(current: string, requested: string) {
    current != Cancelled && requested == Cancelled
  }

  /**
   * The restore loop: each line's quantity is added back to its product; a
   * line whose product no longer exists matches nothing and is skipped.
   */
  function Restock(products: Products, lines: seq<OrderItem>, now: Time): Products
    decreases |lines|
  {
    if lines == [] then products
    else
      var before := Restock(products, lines[..|lines| - 1], now);
      var line := lines[|lines| - 1];
      if line.productId in before then
        before[line.productId := before[line.productId].(stockLevel := before[line.productId].stockLevel + line.quantity, updatedAt := now)]
      else before
  }

  /** The total quantity the lines hold of product `k`. */
  function LineQtyFor(lines: seq<OrderItem>, k: ObjectId): int {
    if lines == [] then 0
    else LineQtyFor(lines[..|lines| - 1], k) + (if lines[|lines| - 1].productId == k then lines[|lines| - 1].quantity else 0)
  }

  predicate LinesName(lines: seq<OrderItem>, k: ObjectId) {
    exists j :: 0 <= j < |lines| && lines[j].productId == k
  }

  /**
   * The handler. The id is checked and the order looked up before the body is
   * decoded (`None` stands for a body that does not decode) and the status
   * checked, so a bad id or a missing order is reported first.
   */
  function ChangeStatus(products: Products, orders: Orders, idStr: string, body: Option<string>, now: Time): (o: OrderOutcome)
    ensures !IsHexId(idStr) ==> o.reply == Fail(StatusBadRequest, InvalidOrderId)
    ensures IsHexId(idStr) && ObjectIdFromHex(idStr).value !in orders ==> o.reply == Fail(StatusNotFound, OrderNotFound)
    ensures (IsHexId(idStr) && ObjectIdFromHex(idStr).value in orders && body.None?) ==> o.reply == Fail(StatusBadRequest, MalformedBody)
    ensures (&& IsHexId(idStr) && ObjectIdFromHex(idStr).value in orders && body.Some?
             && !IsOrderStatus(body.value)) ==> o.reply == Fail(StatusBadRequest, InvalidStatus)
    ensures o.reply.Ok? <==> IsHexId(idStr) && ObjectIdFromHex(idStr).value in orders && body.Some? && IsOrderStatus(body.value)
    ensures o.reply.Fail? ==> o.products == products && o.orders == orders
    ensures o.reply.Ok? ==>
      var id := ObjectIdFromHex(idStr).value;
      && id in orders
      && o.reply.code == StatusOK
      && o.reply.value == orders[id].(status := body.value, updatedAt := now)
      && o.orders == orders[id := o.reply.value]
  {
    match ObjectIdFromHex(idStr)
    case None => OrderOutcome(Fail(StatusBadRequest, InvalidOrderId), products, orders)
    case Some(id) =>
      if id !in orders then OrderOutcome(Fail(StatusNotFound, OrderNotFound), products, orders)
      else
        match body
        case None => OrderOutcome(Fail(StatusBadRequest, MalformedBody), products, orders)
        case Some(status) =>
          if !IsOrderStatus(status) then OrderOutcome(Fail(StatusBadRequest, InvalidStatus), products, orders)
          else
            var existing := orders[id];
            var updated := existing.(status := status, updatedAt := now);
            var restocked := if IsCancellation(existing.status, status) then Restock(products, existing.items, now) else products;
            OrderOutcome(Ok(StatusOK, updated), restocked, orders[id := updated])
  }

  lemma LinesNameSnoc(lines: seq<OrderItem>, k: ObjectId)
    requires lines != []
    ensures LinesName(lines, k) <==> LinesName(lines[..|lines| - 1], k) || lines[|lines| - 1].productId == k
  {
    var pre := lines[..|lines| - 1];
    if LinesName(lines, k) {
      var j :| 0 <= j < |lines| && lines[j].productId == k;
      if j < |lines| - 1 { assert pre[j].productId == k; }
    }
    if LinesName(pre, k) {
      var j :| 0 <= j < |pre| && pre[j].productId == k;
      assert lines[j].productId == k;
    }
  }

  /**
   * The restore loop adds to every existing product exactly the quantity the
   * lines hold of it, changes nothing but stock and `updatedAt`, leaves
   * products the lines do not name alone and creates no product.
   */
  lemma {:induction false} RestockEffect(products: Products, lines: seq<OrderItem>, now: Time)
    ensures var after := Restock(products, lines, now);
      && after.Keys == products.Keys
      && (forall k :: k in products ==> after[k].stockLevel == products[k].stockLevel + LineQtyFor(lines, k))
      && (forall k :: k in products ==> after[k] == products[k].(stockLevel := after[k].stockLevel, updatedAt := after[k].updatedAt))
      && (forall k :: k in products && !LinesName(lines, k) ==> after[k] == products[k])
  {
    if lines != [] {
      var pre, line := lines[..|lines| - 1], lines[|lines| - 1];
      RestockEffect(products, pre, now);
      var after := Restock(products, lines, now);
      forall k | k in products
        ensures after[k].stockLevel == products[k].stockLevel + LineQtyFor(lines, k)
        ensures !LinesName(lines, k) ==> after[k] == products[k]
      {
        LinesNameSnoc(lines, k);
      }
    }
  }

  /** Restoring lines whose quantities are positive never lowers a stock. */
  lemma RestockRaises(products: Products, lines: seq<OrderItem>, now: Time)
    requires forall j :: 0 <= j < |lines| ==> lines[j].quantity > 0
    ensures var after := Restock(products, lines, now);
      after.Keys == products.Keys && forall k :: k in products ==> after[k].stockLevel >= products[k].stockLevel
  {
    RestockEffect(products, lines, now);
    forall k | k in products
      ensures LineQtyFor(lines, k) >= 0
    {
      LineQtyNonNegative(lines, k);
    }
  }

  lemma {:induction false} LineQtyNonNegative(lines: seq<OrderItem>, k: ObjectId)
    requires forall j :: 0 <= j < |lines| ==> lines[j].quantity > 0
    ensures LineQtyFor(lines, k) >= 0
  {
    if lines != [] {
      LineQtyNonNegative(lines[..|lines| - 1], k);
    }
  }

  /** Lines built item by item from a request hold exactly the quantities the request asked. */
  lemma {:induction false} LineQtyOfRequest(lines: seq<OrderItem>, items: seq<RequestItem>, k: ObjectId)
    requires |lines| == |items|
    requires forall j :: 0 <= j < |items| ==>
      OrderCreation.ItemId(items[j]) == Some(lines[j].productId) && lines[j].quantity == items[j].quantity
    ensures LineQtyFor(lines, k) == OrderCreation.QtyFor(items, k)
  {
    if lines != [] {
      LineQtyOfRequest(lines[..|lines| - 1], items[..|items| - 1], k);
    }
  }

  // ---------------------------------------------------------------------------
  // Properties of the handler

  /**
   * Which updates give stock back: a successful move into `cancelled` from
   * another status adds each line's quantity to its product; every other
   * successful update, `cancelled -> cancelled` and `cancelled -> pending`
   * included, leaves the products exactly as they were.
   */
  lemma ChangeStatusStock(products: Products, orders: Orders, idStr: string, body: Option<string>, now: Time)
    requires ChangeStatus(products, orders, idStr, body, now).reply.Ok?
    ensures var o := ChangeStatus(products, orders, idStr, body, now);
      var existing := orders[ObjectIdFromHex(idStr).value];
      && (IsCancellation(existing.status, body.value) ==>
            && o.products.Keys == products.Keys
            && forall k :: k in products ==> o.products[k].stockLevel == products[k].stockLevel + LineQtyFor(existing.items, k))
      && (!IsCancellation(existing.status, body.value) ==> o.products == products)
  {
    var existing := orders[ObjectIdFromHex(idStr).value];
    RestockEffect(products, existing.items, now);
  }

  /** An update never touches an order's lines, total, user or creation time, nor any other order. */
  lemma ChangeStatusKeepsOrder(products: Products, orders: Orders, idStr: string, body: Option<string>, now: Time)
    requires ChangeStatus(products, orders, idStr, body, now).reply.Ok?
    ensures var o := ChangeStatus(products, orders, idStr, body, now);
      var id := ObjectIdFromHex(idStr).value;
      && o.orders.Keys == orders.Keys
      && o.orders[id].items == orders[id].items
      && o.orders[id].total == orders[id].total
      && o.orders[id].userId == orders[id].userId
      && o.orders[id].createdAt == orders[id].createdAt
      && o.orders[id].status == body.value
      && (forall k :: k in orders && k != id ==> o.orders[k] == orders[k])
  {
  }

  /** Status updates keep the store well formed; in particular no stock goes negative. */
  lemma ChangeStatusKeepsWellFormed(products: Products, categories: Categories, orders: Orders, idStr: string, body: Option<string>, now: Time)
    requires WellFormed(products, categories, orders)
    ensures var o := ChangeStatus(products, orders, idStr, body, now);
      WellFormed(o.products, categories, o.orders)
  {
    var o := ChangeStatus(products, orders, idStr, body, now);
    if o.reply.Ok? {
      var existing := orders[ObjectIdFromHex(idStr).value];
      RestockEffect(products, existing.items, now);
      RestockRaises(products, existing.items, now);
    }
  }

  /**
   * Cancelling a freshly created order gives every product back exactly the
   * stock the order took: the stock levels return to what they were before
   * the order was placed.
   */
  lemma CancelUndoesPlace(products: Products, orders: Orders, req: CreateOrderRequest, t1: Time, newId: ObjectId, t2: Time)
    requires |newId.bytes| == IdBytes
    requires OrderCreation.PlaceOrder(products, orders, req, t1, newId).reply.Ok?
    ensures var placed := OrderCreation.PlaceOrder(products, orders, req, t1, newId);
      var cancelled := ChangeStatus(placed.products, placed.orders, Hex(newId), Some(Cancelled), t2);
      && cancelled.reply.Ok?
      && cancelled.reply.value.status == Cancelled
      && cancelled.products.Keys == products.Keys
      && forall k :: k in products ==> cancelled.products[k].stockLevel == products[k].stockLevel
  {
    var placed := OrderCreation.PlaceOrder(products, orders, req, t1, newId);
    HexRoundTrip(newId);
    OrderCreation.PlaceOrderSucceeded(products, orders, req, t1, newId);
    var order := placed.reply.value;
    RestockEffect(placed.products, order.items, t2);
    forall k | k in products
      ensures LineQtyFor(order.items, k) == OrderCreation.QtyFor(req.items, k)
    {
      LineQtyOfRequest(order.items, req.items, k);
    }
  }

  /** A second cancellation gives nothing back: only the status write happens. */
  lemma SecondCancelIsStatusOnly(products: Products, orders: Orders, idStr: string, t1: Time, t2: Time)
    requires ChangeStatus(products, orders, idStr, Some(Cancelled), t1).reply.Ok?
    ensures var first := ChangeStatus(products, orders, idStr, Some(Cancelled), t1);
      var second := ChangeStatus(first.products, first.orders, idStr, Some(Cancelled), t2);
      && second.reply.Ok?
      && second.products == first.products
      && second.reply.value == first.reply.value.(updatedAt := t2)
  {
  }

  /**
   * The permissive transitions let one order give its stock back twice:
   * cancel it, reopen it as `pending`, cancel it again, and every line's
   * quantity has been added to its product two times over.
   */
  lemma ReopenedCancelRestocksTwice(products: Products, orders: Orders, idStr: string, t1: Time, t2: Time, t3: Time)
    requires ChangeStatus(products, orders, idStr, Some(Cancelled), t1).reply.Ok?
    requires orders[ObjectIdFromHex(idStr).value].status != Cancelled
    ensures var first := ChangeStatus(products, orders, idStr, Some(Cancelled), t1);
      var reopened := ChangeStatus(first.products, first.orders, idStr, Some(Pending), t2);
      var second := ChangeStatus(reopened.products, reopened.orders, idStr, Some(Cancelled), t3);
      var lines := orders[ObjectIdFromHex(idStr).value].items;
      && reopened.reply.Ok? && second.reply.Ok?
      && second.products.Keys == products.Keys
      && forall k :: k in products ==> second.products[k].stockLevel == products[k].stockLevel + 2 * LineQtyFor(lines, k)
  {
    var id := ObjectIdFromHex(idStr).value;
    var lines := orders[id].items;
    var first := ChangeStatus(products, orders, idStr, Some(Cancelled), t1);
    RestockEffect(products, lines, t1);
    var reopened := ChangeStatus(first.products, first.orders, idStr, Some(Pending), t2);
    assert reopened.orders[id].items == lines && reopened.orders[id].status == Pending;
    RestockEffect(reopened.products, lines, t3);
  }
}
