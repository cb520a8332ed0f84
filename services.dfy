/**
 * The shared store the handlers work on: the `products`, `categories` and
 * `orders` collections, each a map from id to document. Every mutating
 * handler is a method that either answers with an error and leaves all three
 * maps as they were, or makes all of its writes.
 */
module Services {
  import opened Wrappers
  import opened ObjectIds
  import opened Models
  import OrderCreation
  import OrderStatus
  import ProductCreation
  import ProductUpdate
  import ProductQuery
  import CategoryRules

  /** The 409 answer of DeleteProduct. */
  const ProductInUse := "Cannot delete product that is referenced in orders"

  class Store {
    var products: Products
    var categories: Categories
    var orders: Orders

    ghost predicate Valid()
      reads this
    {
      WellFormed(products, categories, orders)
    }

    constructor (products0: Products, categories0: Categories, orders0: Orders)
      ensures products == products0 && categories == categories0 && orders == orders0
    {
      products, categories, orders := products0, categories0, orders0;
    }

    /**
     * CreateOrder: the request checks, then, inside one transaction, each
     * item in request order re-reads its product, checks and takes its stock;
     * any failure discards every write made so far.
     */
    method CreateOrder(req: CreateOrderRequest, now: Time, newId: ObjectId) returns (r: Reply<Order>)
      modifies this
      ensures OrderOutcome(r, products, orders) == OrderCreation.PlaceOrder(old(products), old(orders), req, now, newId)
      ensures categories == old(categories)
      ensures old(Valid()) ==> Valid()
    {
      if req.userId <= 0 {
        return Fail(StatusBadRequest, OrderCreation.InvalidUserId);
      }
      if |req.items| == 0 {
        return Fail(StatusBadRequest, OrderCreation.NoItems);
      }
      // The transaction starts from this view of the products.
      var before := products;
      var total := 0;
      var lines: seq<OrderItem> := [];
      var failure: Option<string> := None;
      var i := 0;
      while i < |req.items| && failure.None?
        invariant 0 <= i <= |req.items|
        invariant before == old(products) && categories == old(categories) && orders == old(orders)
        invariant failure.None? ==>
          OrderCreation.ReserveAll(before, req.items[..i], now) == Success(OrderCreation.Progress(products, lines, total))
        invariant failure.Some? ==> OrderCreation.ReserveAll(before, req.items[..i], now) == Failure(failure.value)
      {
        var item := req.items[i];
        assert req.items[..i + 1][..i] == req.items[..i];
        if item.quantity <= 0 {
          failure := Some(OrderCreation.BadQuantity);
        } else {
          var productId := ObjectIdFromHex(item.productId);
          if productId.None? {
            failure := Some(OrderCreation.InvalidProductId(item.productId));
          } else if productId.value !in products {
            failure := Some(OrderCreation.ProductNotFound(item.productId));
          } else {
            var product := products[productId.value];
            if product.stockLevel < item.quantity {
              failure := Some(OrderCreation.NotEnoughStock(item.productId));
            } else {
              total := total + product.price * item.quantity;
              lines := lines + [OrderItem(productId.value, item.quantity, product.price)];
              products := products[productId.value := product.(stockLevel := product.stockLevel - item.quantity, updatedAt := now)];
            }
          }
        }
        i := i + 1;
      }
      if failure.Some? {
        OrderCreation.FailureIsFinal(before, req.items, i, now);
        products := before;  // abort
        return Fail(StatusBadRequest, failure.value);
      }
      assert req.items[..i] == req.items;
      if newId in orders {
        products := before;  // abort
        return Fail(StatusBadRequest, DuplicateKey);
      }
      var order := Order(newId, req.userId, Pending, total, lines, now, now);
      orders := orders[newId := order];
      r := Ok(StatusCreated, order);
      if WellFormed(before, categories, old(orders)) {
        OrderCreation.PlaceOrderKeepsWellFormed(before, categories, old(orders), req, now, newId);
      }
    }

    /**
     * UpdateOrderStatus: id, lookup, body and status checks; then either the
     * cancellation transaction (restore every line's stock, then write the
     * status) or the plain status write.
     */
    method UpdateOrderStatus(idStr: string, body: Option<string>, now: Time) returns (r: Reply<Order>)
      modifies this
      ensures OrderOutcome(r, products, orders) == OrderStatus.ChangeStatus(old(products), old(orders), idStr, body, now)
      ensures categories == old(categories)
      ensures old(Valid()) ==> Valid()
    {
      var parsed := ObjectIdFromHex(idStr);
      if parsed.None? {
        return Fail(StatusBadRequest, InvalidOrderId);
      }
      var id := parsed.value;
      if id !in orders {
        return Fail(StatusNotFound, OrderNotFound);
      }
      var existing := orders[id];
      if body.None? {
        return Fail(StatusBadRequest, MalformedBody);
      }
      var status := body.value;
      if !IsOrderStatus(status) {
        return Fail(StatusBadRequest, OrderStatus.InvalidStatus);
      }
      if existing.status != Cancelled && status == Cancelled {
        var i := 0;
        while i < |existing.items|
          invariant 0 <= i <= |existing.items|
          invariant products == OrderStatus.Restock(old(products), existing.items[..i], now)
          invariant categories == old(categories) && orders == old(orders)
        {
          var line := existing.items[i];
          assert existing.items[..i + 1][..i] == existing.items[..i];
          if line.productId in products {
            var product := products[line.productId];
            products := products[line.productId := product.(stockLevel := product.stockLevel + line.quantity, updatedAt := now)];
          }
          i := i + 1;
        }
        assert existing.items[..i] == existing.items;
      }
      orders := orders[id := existing.(status := status, updatedAt := now)];
      r := Ok(StatusOK, orders[id]);
      if WellFormed(old(products), categories, old(orders)) {
        OrderStatus.ChangeStatusKeepsWellFormed(old(products), categories, old(orders), idStr, body, now);
      }
    }

    /**
     * The field-by-field construction of the update document. A `category_id`
     * string must be a valid id naming a stored category, or the whole update
     * is refused.
     */
    method BuildUpdate(fields: map<string, Json>) returns (r: Result<ProductUpdate.Patch, string>)
      ensures r.Success? ==> ProductUpdate.Acceptable(r.value, categories)
      ensures r.Success? ==> (r.value.name.Some? <==> ProductUpdate.IsString(fields, "name") && fields["name"].str != "")
      ensures r.Success? && r.value.name.Some? ==> fields["name"] == JString(r.value.name.value)
      ensures r.Success? ==> (r.value.description.Some? <==> ProductUpdate.IsString(fields, "description"))
      ensures r.Success? && r.value.description.Some? ==> fields["description"] == JString(r.value.description.value)
      ensures r.Success? ==> (r.value.price.Some? <==> ProductUpdate.IsNumber(fields, "price") && fields["price"].num > 0)
      ensures r.Success? && r.value.price.Some? ==> fields["price"] == JNumber(r.value.price.value)
      ensures r.Success? ==> (r.value.stockLevel.Some? <==> ProductUpdate.IsNumber(fields, "stock_level") && fields["stock_level"].num >= 0)
      ensures r.Success? && r.value.stockLevel.Some? ==> fields["stock_level"] == JNumber(r.value.stockLevel.value)
      ensures r.Success? ==> (r.value.categoryId.Some? <==> ProductUpdate.IsString(fields, "category_id"))
      ensures r.Success? && r.value.categoryId.Some? ==> ObjectIdFromHex(fields["category_id"].str) == r.value.categoryId
      ensures r.Success? ==> (r.value == ProductUpdate.NoChange <==> !ProductUpdate.SuppliesField(fields))
      ensures r.Failure? <==> && ProductUpdate.IsString(fields, "category_id")
                              && !(IsHexId(fields["category_id"].str) && ObjectIdFromHex(fields["category_id"].str).value in categories)
      ensures r.Failure? ==> r.error == if IsHexId(fields["category_id"].str) then CategoryNotFound else InvalidCategoryId
    {
      var patch := ProductUpdate.NoChange;
      if "name" in fields && fields["name"].JString? && fields["name"].str != "" {
        patch := patch.(name := Some(fields["name"].str));
      }
      if "description" in fields && fields["description"].JString? {
        patch := patch.(description := Some(fields["description"].str));
      }
      if "price" in fields && fields["price"].JNumber? && fields["price"].num > 0 {
        patch := patch.(price := Some(fields["price"].num));
      }
      if "stock_level" in fields && fields["stock_level"].JNumber? && fields["stock_level"].num >= 0 {
        patch := patch.(stockLevel := Some(fields["stock_level"].num));
      }
      if "category_id" in fields && fields["category_id"].JString? {
        var categoryId := ObjectIdFromHex(fields["category_id"].str);
        if categoryId.None? {
          return Failure(InvalidCategoryId);
        }
        if categoryId.value !in categories {
          return Failure(CategoryNotFound);
        }
        patch := patch.(categoryId := Some(categoryId.value));
      }
      r := Success(patch);
    }

    /**
     * UpdateProduct: id and lookup checks, body decoding (`None` stands for a
     * body that does not decode), the update document, the refusal of an
     * empty one, then the write of the accepted fields.
     */
    method UpdateProduct(idStr: string, body: Option<map<string, Json>>, now: Time) returns (r: Reply<Product>)
      modifies this
      ensures !IsHexId(idStr) ==> r == Fail(StatusBadRequest, InvalidProductId)
      ensures IsHexId(idStr) && ObjectIdFromHex(idStr).value !in old(products) ==> r == Fail(StatusNotFound, ProductNotFound)
      ensures IsHexId(idStr) && ObjectIdFromHex(idStr).value in old(products) && body.None? ==> r == Fail(StatusBadRequest, MalformedBody)
      ensures (&& IsHexId(idStr) && ObjectIdFromHex(idStr).value in old(products) && body.Some?
               && ProductUpdate.IsString(body.value, "category_id")
               && !(IsHexId(body.value["category_id"].str) && ObjectIdFromHex(body.value["category_id"].str).value in categories)) ==>
                 r == Fail(StatusBadRequest, if IsHexId(body.value["category_id"].str) then CategoryNotFound else InvalidCategoryId)
      ensures (&& IsHexId(idStr) && ObjectIdFromHex(idStr).value in old(products) && body.Some?
               && !ProductUpdate.SuppliesField(body.value)) ==> r == Fail(StatusBadRequest, ProductUpdate.NoValidFields)
      ensures (&& IsHexId(idStr) && ObjectIdFromHex(idStr).value in old(products) && body.Some?
               && ProductUpdate.SuppliesField(body.value)
               && (ProductUpdate.IsString(body.value, "category_id") ==>
                     IsHexId(body.value["category_id"].str) && ObjectIdFromHex(body.value["category_id"].str).value in categories)) ==>
                 r.Ok?
      ensures r.Fail? ==> products == old(products)
      ensures r.Ok? ==>
        var id := ObjectIdFromHex(idStr).value;
        var fields := body.value;
        var before := old(products)[id];
        && IsHexId(idStr) && id in old(products) && body.Some? && ProductUpdate.SuppliesField(fields)
        && r.code == StatusOK
        && products == old(products)[id := r.value]
        && r.value.id == before.id && r.value.createdAt == before.createdAt && r.value.updatedAt == now
        && r.value.name == (if ProductUpdate.IsString(fields, "name") && fields["name"].str != "" then fields["name"].str else before.name)
        && r.value.description == (if ProductUpdate.IsString(fields, "description") then fields["description"].str else before.description)
        && r.value.price == (if ProductUpdate.IsNumber(fields, "price") && fields["price"].num > 0 then fields["price"].num else before.price)
        && r.value.stockLevel == (if ProductUpdate.IsNumber(fields, "stock_level") && fields["stock_level"].num >= 0 then fields["stock_level"].num else before.stockLevel)
        && r.value.categoryId == (if ProductUpdate.IsString(fields, "category_id") then ObjectIdFromHex(fields["category_id"].str).value else before.categoryId)
      ensures categories == old(categories) && orders == old(orders)
      ensures old(Valid()) ==> Valid()
    {
      var parsed := ObjectIdFromHex(idStr);
      if parsed.None? {
        return Fail(StatusBadRequest, InvalidProductId);
      }
      var id := parsed.value;
      if id !in products {
        return Fail(StatusNotFound, ProductNotFound);
      }
      if body.None? {
        return Fail(StatusBadRequest, MalformedBody);
      }
      var built := BuildUpdate(body.value);
      if built.Failure? {
        return Fail(StatusBadRequest, built.error);
      }
      var patch := built.value;
      if patch == ProductUpdate.NoChange {
        return Fail(StatusBadRequest, ProductUpdate.NoValidFields);
      }
      if Valid() {
        ProductUpdate.PatchKeepsWellFormed(products, categories, orders, id, patch, now);
      }
      products := products[id := ProductUpdate.ApplyPatch(products[id], patch, now)];
      r := Ok(StatusOK, products[id]);
    }

    /**
     * CreateProduct: the validation chain, then the insert of the new
     * product under the id `primitive.NewObjectID` drew.
     */
    method CreateProduct(req: CreateProductRequest, now: Time, newId: ObjectId) returns (r: Reply<Product>)
      modifies this
      ensures ProductCreation.CheckProduct(req, old(categories)).Failure? ==>
        r == Fail(StatusBadRequest, ProductCreation.CheckProduct(req, old(categories)).error)
      ensures ProductCreation.CheckProduct(req, old(categories)).Success? && newId in old(products) ==>
        r == Fail(StatusInternalServerError, DuplicateKey)
      ensures ProductCreation.CheckProduct(req, old(categories)).Success? && newId !in old(products) ==>
        r == Ok(StatusCreated, ProductCreation.NewProduct(req, ProductCreation.CheckProduct(req, old(categories)).value, newId, now))
      ensures r.Fail? ==> products == old(products)
      ensures r.Ok? ==> newId !in old(products) && products == old(products)[newId := r.value]
      ensures r.Ok? ==> r.value.stockLevel >= 0 && r.value.price > 0 && r.value.categoryId in categories
      ensures r.Ok? && |newId.bytes| == IdBytes ==> ProductQuery.GetProduct(products, Hex(newId)) == Ok(StatusOK, r.value)
      ensures categories == old(categories) && orders == old(orders)
      ensures old(Valid()) ==> Valid()
    {
      var checked := ProductCreation.CheckProduct(req, categories);
      if checked.Failure? {
        return Fail(StatusBadRequest, checked.error);
      }
      if newId in products {
        return Fail(StatusInternalServerError, DuplicateKey);
      }
      var product := ProductCreation.NewProduct(req, checked.value, newId, now);
      products := products[newId := product];
      r := Ok(StatusCreated, product);
      if |newId.bytes| == IdBytes {
        HexRoundTrip(newId);
      }
    }

    /**
     * CreateCategory: the name is required and must not be taken; the client's
     * id is replaced by the id `primitive.NewObjectID` drew.
     */
    method CreateCategory(c: Category, newId: ObjectId) returns (r: Reply<Category>)
      modifies this
      ensures c.name == "" ==> r == Fail(StatusBadRequest, CategoryRules.NameRequired)
      ensures c.name != "" && CategoryRules.NameTaken(old(categories), c.name) ==> r == Fail(StatusConflict, CategoryRules.NameExists)
      ensures c.name != "" && !CategoryRules.NameTaken(old(categories), c.name) && newId in old(categories) ==>
        r == Fail(StatusInternalServerError, DuplicateKey)
      ensures c.name != "" && !CategoryRules.NameTaken(old(categories), c.name) && newId !in old(categories) ==>
        r == Ok(StatusCreated, c.(id := newId))
      ensures r.Fail? ==> categories == old(categories)
      ensures r.Ok? ==> newId !in old(categories) && categories == old(categories)[newId := r.value]
      ensures DistinctNames(old(categories)) ==> DistinctNames(categories)
      ensures products == old(products) && orders == old(orders)
      ensures old(Valid()) ==> Valid()
    {
      if c.name == "" {
        return Fail(StatusBadRequest, CategoryRules.NameRequired);
      }
      if CategoryRules.NameTaken(categories, c.name) {
        return Fail(StatusConflict, CategoryRules.NameExists);
      }
      if newId in categories {
        return Fail(StatusInternalServerError, DuplicateKey);
      }
      var category := c.(id := newId);
      if DistinctNames(categories) {
        CategoryRules.InsertKeepsDistinct(categories, newId, category);
      }
      categories := categories[newId := category];
      r := Ok(StatusCreated, category);
    }

    /**
     * DeleteProduct: id and lookup checks, then the guard against deleting a
     * product that orders refer to, then the delete. `matches` is the
     * orders filter `{product_id: id}` the guard counts with.
     */
    method DeleteProduct(idStr: string, matches: (Order, ObjectId) -> bool) returns (r: Reply<()>)
      modifies this
      ensures !IsHexId(idStr) ==> r == Fail(StatusBadRequest, InvalidProductId)
      ensures IsHexId(idStr) && ObjectIdFromHex(idStr).value !in old(products) ==> r == Fail(StatusNotFound, ProductNotFound)
      ensures (&& IsHexId(idStr) && ObjectIdFromHex(idStr).value in old(products)
               && (exists k :: k in old(orders) && matches(old(orders)[k], ObjectIdFromHex(idStr).value))) ==>
                 r == Fail(StatusConflict, ProductInUse)
      ensures (&& IsHexId(idStr) && ObjectIdFromHex(idStr).value in old(products)
               && !(exists k :: k in old(orders) && matches(old(orders)[k], ObjectIdFromHex(idStr).value))) ==>
                 r == Ok(StatusNoContent, ())
      ensures r.Fail? ==> products == old(products)
      ensures r.Ok? ==>
        var id := ObjectIdFromHex(idStr).value;
        && IsHexId(idStr) && id in old(products)
        && (forall k :: k in orders ==> !matches(orders[k], id))
        && r.code == StatusNoContent
        && products == old(products) - {id}
      ensures categories == old(categories) && orders == old(orders)
      ensures old(Valid()) ==> Valid()
    {
      var parsed := ObjectIdFromHex(idStr);
      if parsed.None? {
        return Fail(StatusBadRequest, InvalidProductId);
      }
      var id := parsed.value;
      if id !in products {
        return Fail(StatusNotFound, ProductNotFound);
      }
      var referencing := set k | k in orders && matches(orders[k], id);
      if exists k :: k in orders && matches(orders[k], id) {
        var k :| k in orders && matches(orders[k], id);
        assert k in referencing;
      }
      if |referencing| > 0 {
        return Fail(StatusConflict, ProductInUse);
      }

      products := products - {id};
      r := Ok(StatusNoContent, ());
    }
  }
}
