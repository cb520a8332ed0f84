/**
 * Order listing and lookup (order-service/handlers/GetOrders.go). The two
 * query parameters build a filter (`BuildFilter`), and the listing holds
 * exactly the matching orders, newest first.
 */
module OrderQuery {
  import opened Wrappers
  import opened ObjectIds
  import opened Models
  import Strconv
  import Listing
  import OrderCreation


  datatype OrderFilter = OrderFilter(userId: Option<int>, status: Option<string>)

  /**
   * `user_id` filters only when it parses as an integer and is otherwise
   * ignored; `status` filters whenever it is non-empty, whatever its value.
   */
  function BuildFilter(userIdStr: string, status: string): (f: OrderFilter)
    ensures f.userId == Strconv.Atoi(userIdStr)
    ensures f.status.Some? <==> status != ""
    ensures f.status.Some? ==> f.status.value == status
  {
    OrderFilter(
      if userIdStr != "" then Strconv.Atoi(userIdStr) else None,
      if status != "" then Some(status) else None)
  }

  predicate Matches(o: Order, f: OrderFilter) {
    && (f.userId.Some? ==> o.userId == f.userId.value)
    && (f.status.Some? ==> o.status == f.status.value)
  }

  function Selected(orders: Orders, f: OrderFilter): (keys: set<ObjectId>)
    ensures forall k :: k in keys <==> k in orders && Matches(orders[k], f)
  {
    set k | k in orders && Matches(orders[k], f)
  }

  /** Every stored order that matches a filter, each once, and nothing else, newest first. */
  ghost function Listed(orders: Orders, f: OrderFilter): (r: seq<Order>)
    ensures |r| == |Selected(orders, f)|
    ensures forall i :: 0 <= i < |r| ==> r[i] in orders.Values && Matches(r[i], f)
    ensures forall k :: k in orders && Matches(orders[k], f) ==> orders[k] in r
    ensures forall i, j :: 0 <= i < j < |r| ==> r[i].createdAt >= r[j].createdAt
  {
    var ks := Listing.NewestFirst(orders, Selected(orders, f), (o: Order) => o.createdAt as int);
    Listing.DocumentsCover(orders, ks, Selected(orders, f));
    Listing.Documents(orders, ks)
  }

  /**
   * `GetOrders`: every stored order that matches the filter, each once, and
   * nothing else, newest first.
   */
  ghost function GetOrders(orders: Orders, userIdStr: string, status: string): (r: seq<Order>)
    ensures var f := BuildFilter(userIdStr, status);
      && |r| == |Selected(orders, f)|
      && (forall i :: 0 <= i < |r| ==> r[i] in orders.Values && Matches(r[i], f))
      && (forall k :: k in orders && Matches(orders[k], f) ==> orders[k] in r)
      && (forall i, j :: 0 <= i < j < |r| ==> r[i].createdAt >= r[j].createdAt)
  {
    Listed(orders, BuildFilter(userIdStr, status))
  }

  /** `GetOrder`: a malformed id is 400, an id with no order 404, otherwise the stored order. */
  function GetOrder(orders: Orders, idStr: string): (r: Reply<Order>)
    ensures !IsHexId(idStr) <==> r == Fail(StatusBadRequest, InvalidOrderId)
    ensures r.Ok? <==> IsHexId(idStr) && ObjectIdFromHex(idStr).value in orders
    ensures r.Ok? ==> r == Ok(StatusOK, orders[ObjectIdFromHex(idStr).value])
    ensures r.Fail? && IsHexId(idStr) ==> r == Fail(StatusNotFound, OrderNotFound)
  {
    match ObjectIdFromHex(idStr)
    case None => Fail(StatusBadRequest, InvalidOrderId)
    case Some(id) => if id in orders then Ok(StatusOK, orders[id]) else Fail(StatusNotFound, OrderNotFound)
  }

  /**
   * A placed order can be read back: by its id, and in the listing filtered
   * by its user and the `pending` status.
   */
  lemma PlacedOrderIsVisible(products: Products, orders: Orders, req: CreateOrderRequest, now: Time, newId: ObjectId)
    requires |newId.bytes| == IdBytes && req.userId <= Strconv.MaxInt
    requires OrderCreation.PlaceOrder(products, orders, req, now, newId).reply.Ok?
    ensures var o := OrderCreation.PlaceOrder(products, orders, req, now, newId);
      && GetOrder(o.orders, Hex(newId)) == Ok(StatusOK, o.reply.value)
      && o.reply.value in GetOrders(o.orders, Strconv.Itoa(req.userId), Pending)
  {
    var o := OrderCreation.PlaceOrder(products, orders, req, now, newId);
    HexRoundTrip(newId);
    Strconv.AtoiItoa(req.userId);
    var f := BuildFilter(Strconv.Itoa(req.userId), Pending);
    assert o.orders[newId] == o.reply.value && Matches(o.reply.value, f);
  }
}
