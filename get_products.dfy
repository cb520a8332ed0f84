/**
 * Product listing and lookup (inventory/handlers/GetProducts.go). The
 * `limit` and `offset` parameters are parsed by `ParsePaging`; the category
 * parameter picks a category whose name matches it (`CategoryFilter`); the
 * query itself, newest first with skip and limit, is `ListProducts`.
 */
module ProductQuery {
  import opened Wrappers
  import opened ObjectIds
  import opened Models
  import Strconv
  import Listing

  const DefaultLimit := 10
  const DefaultOffset := 0

  /**
   * The page size is 10 unless `limitStr` is an integer above zero; the
   * offset is 0 unless `offsetStr` is an integer of at least zero. Text that
   * does not parse is ignored, never an error.
   */
  method ParsePaging(limitStr: string, offsetStr: string) returns (limit: int, offset: int)
    ensures limit > 0 && offset >= 0
    ensures limit != DefaultLimit ==> Strconv.Atoi(limitStr) == Some(limit)
    ensures (Strconv.Atoi(limitStr).Some? && Strconv.Atoi(limitStr).value > 0) ==> Strconv.Atoi(limitStr) == Some(limit)
    ensures offset != DefaultOffset ==> Strconv.Atoi(offsetStr) == Some(offset)
    ensures (Strconv.Atoi(offsetStr).Some? && Strconv.Atoi(offsetStr).value >= 0) ==> Strconv.Atoi(offsetStr) == Some(offset)
  {
    limit := DefaultLimit;
    offset := DefaultOffset;
    if limitStr != "" {
      var parsed := Strconv.Atoi(limitStr);
      if parsed.Some? && parsed.value > 0 {
        limit := parsed.value;
      }
    }
    if offsetStr != "" {
      var parsed := Strconv.Atoi(offsetStr);
      if parsed.Some? && parsed.value >= 0 {
        offset := parsed.value;
      }
    }
  }

  /**
   * The category filter: when the parameter is non-empty and some category's
   * name matches it (`nameMatches` stands for the case-insensitive regular
   * expression match), the id of one such category; otherwise no filter.
   */
  ghost function CategoryFilter(categories: Categories, category: string, nameMatches: (string, string) -> bool): (f: Option<ObjectId>)
    ensures f.Some? ==> category != "" && exists k :: k in categories && categories[k].id == f.value && nameMatches(categories[k].name, category)
    ensures f.None? <==> category == "" || forall k :: k in categories ==> !nameMatches(categories[k].name, category)
  {
    if category != "" && exists k :: k in categories && nameMatches(categories[k].name, category) then
      var k :| k in categories && nameMatches(categories[k].name, category);
      Some(categories[k].id)
    else None
  }

  predicate InCategory(p: Product, filter: Option<ObjectId>) {
    filter.None? || p.categoryId == filter.value
  }

  /** The sort key of the query: the product's creation time. */
  function CreatedAt(p: Product): int {
    p.createdAt as int
  }

  /** The keys of the products the filter selects. */
  function Selected(products: Products, filter: Option<ObjectId>): (keys: set<ObjectId>)
    ensures forall k :: k in keys <==> k in products && InCategory(products[k], filter)
  {
    set k | k in products && InCategory(products[k], filter)
  }

  /**
   * The query: the selected products newest first, `offset` of them skipped
   * and at most `limit` kept.
   */
  ghost function ListProducts(products: Products, filter: Option<ObjectId>, limit: int, offset: int): (r: seq<Product>)
    requires limit > 0 && offset >= 0
    ensures var n := |Selected(products, filter)|;
      |r| == if offset >= n then 0 else if n - offset < limit then n - offset else limit
    ensures forall i :: 0 <= i < |r| ==> r[i] in products.Values && InCategory(r[i], filter)
    ensures forall i, j :: 0 <= i < j < |r| ==> r[i].createdAt >= r[j].createdAt
  {
    var ks := Listing.NewestFirst(products, Selected(products, filter), CreatedAt);
    var all := Listing.Documents(products, ks);
    var r := Listing.Page(all, offset, limit);
    assert forall i :: 0 <= i < |r| ==> r[i] == products[ks[offset + i]];
    r
  }

  /**
   * From offset 0 with a page large enough, the listing holds every product
   * the filter selects, each once.
   */
  lemma ListProductsComplete(products: Products, filter: Option<ObjectId>, limit: int)
    requires limit >= |Selected(products, filter)|
    requires limit > 0
    ensures |ListProducts(products, filter, limit, 0)| == |Selected(products, filter)|
    ensures forall k :: k in products && InCategory(products[k], filter) ==> products[k] in ListProducts(products, filter, limit, 0)
  {
    var keys := Selected(products, filter);
    var ks := Listing.NewestFirst(products, keys, CreatedAt);
    var all := Listing.Documents(products, ks);
    assert ListProducts(products, filter, limit, 0) == all;
    Listing.DocumentsCover(products, ks, keys);
  }

  /**
   * The offset skips into one fixed newest-first listing: the page at
   * `offset` followed by the page right after it is the page at `offset`
   * twice as long, so stepping the offset by the page size misses nothing
   * and repeats nothing.
   */
  lemma ListProductsPages(products: Products, filter: Option<ObjectId>, limit: int, limit2: int, offset: int)
    requires limit > 0 && limit2 > 0 && offset >= 0
    ensures ListProducts(products, filter, limit, offset) + ListProducts(products, filter, limit2, offset + limit)
         == ListProducts(products, filter, limit + limit2, offset)
  {
    var ks := Listing.NewestFirst(products, Selected(products, filter), CreatedAt);
    var all := Listing.Documents(products, ks);
    Listing.ConsecutivePages(all, offset, limit, limit2);
  }

  /**
   * The page at `offset` is the stretch of the newest-first listing that
   * starts at position `offset`: its entries are the ones the first
   * `offset + limit` products hold from there on.
   */
  lemma ListProductsWindow(products: Products, filter: Option<ObjectId>, limit: int, offset: int)
    requires limit > 0 && offset >= 0
    ensures var r, first := ListProducts(products, filter, limit, offset), ListProducts(products, filter, offset + limit, 0);
      forall i :: 0 <= i < |r| ==> offset + i < |first| && r[i] == first[offset + i]
  {
    if offset > 0 {
      ListProductsPages(products, filter, offset, limit, 0);
    }
  }

  /**
   * When no two selected products share a creation time, the newest-first
   * order is forced: any listing of the selected products sorted newest
   * first, each once, gives the same pages as the query.
   */
  lemma ListProductsForced(products: Products, filter: Option<ObjectId>, limit: int, offset: int, ks: seq<ObjectId>)
    requires limit > 0 && offset >= 0
    requires Listing.DistinctTimes(products, Selected(products, filter), CreatedAt)
    requires Listing.IsNewestFirst(products, Selected(products, filter), CreatedAt, ks)
    ensures ListProducts(products, filter, limit, offset) == Listing.Page(Listing.Documents(products, ks), offset, limit)
  {
    var keys := Selected(products, filter);
    Listing.NewestFirstUnique(products, keys, CreatedAt, ks, Listing.NewestFirst(products, keys, CreatedAt));
  }

  /** `GetProduct`: a malformed id is 400, an id with no product 404, otherwise the stored product. */
  function GetProduct(products: Products, idStr: string): (r: Reply<Product>)
    ensures !IsHexId(idStr) <==> r == Fail(StatusBadRequest, InvalidProductId)
    ensures r.Ok? <==> IsHexId(idStr) && ObjectIdFromHex(idStr).value in products
    ensures r.Ok? ==> r == Ok(StatusOK, products[ObjectIdFromHex(idStr).value])
    ensures r.Fail? && IsHexId(idStr) ==> r == Fail(StatusNotFound, ProductNotFound)
  {
    match ObjectIdFromHex(idStr)
    case None => Fail(StatusBadRequest, InvalidProductId)
    case Some(id) => if id in products then Ok(StatusOK, products[id]) else Fail(StatusNotFound, ProductNotFound)
  }
}
