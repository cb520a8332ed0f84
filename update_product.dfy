/**
 * The per-field rules of a product update (inventory/handlers/UpdateProduct.go).
 * A `Patch` is the handler's `$set` document without `updated_at`: a field is
 * `Some` when the request supplied an acceptable value for it. The building
 * and the write are `Services.Store.BuildUpdate` and
 * `Services.Store.UpdateProduct`.
 */
module ProductUpdate {
  import opened Wrappers
  import opened ObjectIds
  import opened Models

  const NoValidFields := "No valid fields to update"

  datatype Patch = Patch(
    name: Option<string>,
    description: Option<string>,
    price: Option<int>,
    stockLevel: Option<int>,
    categoryId: Option<ObjectId>)

  const NoChange := Patch(None, None, None, None, None)

  /** `$set`: the patch's fields overwrite the stored ones, and `updated_at` is always set. */
  function ApplyPatch(p: Product, patch: Patch, now: Time): Product {
    p.(name := patch.name.GetOr(p.name),
       description := patch.description.GetOr(p.description),
       price := patch.price.GetOr(p.price),
       stockLevel := patch.stockLevel.GetOr(p.stockLevel),
       categoryId := patch.categoryId.GetOr(p.categoryId),
       updatedAt := now)
  }

  predicate IsString(fields: map<string, Json>, key: string) {
    key in fields && fields[key].JString?
  }

  predicate IsNumber(fields: map<string, Json>, key: string) {
    key in fields && fields[key].JNumber?
  }

  /**
   * Whether the body supplies at least one field the rules accept, leaving
   * aside whether a supplied category id is valid: without one the handler
   * answers "No valid fields to update".
   */
  predicate SuppliesField(fields: map<string, Json>) {
    || (IsString(fields, "name") && fields["name"].str != "")
    || IsString(fields, "description")
    || (IsNumber(fields, "price") && fields["price"].num > 0)
    || (IsNumber(fields, "stock_level") && fields["stock_level"].num >= 0)
    || IsString(fields, "category_id")
  }

  /** A patch whose values all pass the field rules against the given categories. */
  predicate Acceptable(patch: Patch, categories: Categories) {
    && (patch.name.Some? ==> patch.name.value != "")
    && (patch.price.Some? ==> patch.price.value > 0)
    && (patch.stockLevel.Some? ==> patch.stockLevel.value >= 0)
    && (patch.categoryId.Some? ==> patch.categoryId.value in categories)
  }

  /**
   * An acceptable patch keeps the store well formed: price stays positive,
   * stock non-negative, the category existing, and the product under its key.
   */
  lemma PatchKeepsWellFormed(products: Products, categories: Categories, orders: Orders, id: ObjectId, patch: Patch, now: Time)
    requires WellFormed(products, categories, orders)
    requires id in products && Acceptable(patch, categories)
    ensures WellFormed(products[id := ApplyPatch(products[id], patch, now)], categories, orders)
  {
  }
}
