/**
 * The validation chain of product creation (inventory/handlers/CreateProduct.go),
 * and the record the handler builds. The insert itself is
 * `Services.Store.CreateProduct`.
 */
module ProductCreation {
  import opened Wrappers
  import opened ObjectIds
  import opened Models

  const NameRequired := "Product name is required"
  const PriceNotPositive := "Price must be greater than zero"
  const NegativeStock := "Stock level cannot be negative"

  /**
   * The guards, in the handler's order: name, price, stock, category id,
   * category existence. The first that fails gives the error; if none fails
   * the result is the category's id.
   */
  function CheckProduct(req: CreateProductRequest, categories: Categories): (r: Result<ObjectId, string>)
    ensures r.Success? <==> && req.name != "" && req.price > 0 && req.stockLevel >= 0
                            && IsHexId(req.categoryId) && ObjectIdFromHex(req.categoryId).value in categories
    ensures r.Success? ==> ObjectIdFromHex(req.categoryId) == Some(r.value)
    ensures req.name == "" ==> r == Failure(NameRequired)
    ensures req.name != "" && req.price <= 0 ==> r == Failure(PriceNotPositive)
    ensures req.name != "" && req.price > 0 && req.stockLevel < 0 ==> r == Failure(NegativeStock)
    ensures req.name != "" && req.price > 0 && req.stockLevel >= 0 && !IsHexId(req.categoryId) ==> r == Failure(InvalidCategoryId)
    ensures (&& req.name != "" && req.price > 0 && req.stockLevel >= 0
             && IsHexId(req.categoryId) && ObjectIdFromHex(req.categoryId).value !in categories) ==> r == Failure(CategoryNotFound)
  {
    if req.name == "" then Failure(NameRequired)
    else if req.price <= 0 then Failure(PriceNotPositive)
    else if req.stockLevel < 0 then Failure(NegativeStock)
    else
      match ObjectIdFromHex(req.categoryId)
      case None => Failure(InvalidCategoryId)
      case Some(cid) => if cid in categories then Success(cid) else Failure(CategoryNotFound)
  }

  /** The new product: the request's fields, the new id, one time for creation and update. */
  function NewProduct(req: CreateProductRequest, categoryId: ObjectId, id: ObjectId, now: Time): Product {
    Product(id, req.name, req.description, req.price, req.stockLevel, categoryId, now, now)
  }
}
