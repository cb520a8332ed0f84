/**
 * Category listing and the rules of category creation
 * (inventory/handlers/GetCategories.go). The insert itself is
 * `Services.Store.CreateCategory`.
 */
module CategoryRules {
  import opened ObjectIds
  import opened Models
  import Listing

  const NameRequired := "Category name is required"
  const NameExists := "Category name already exists"

  /** The handler's `CountDocuments({name: name}) > 0`. */
  predicate NameTaken(categories: Categories, name: string) {
    exists k :: k in categories && categories[k].name == name
  }

  /** Adding a category under a new key with a name not yet taken keeps the names distinct. */
  lemma InsertKeepsDistinct(categories: Categories, newId: ObjectId, c: Category)
    requires DistinctNames(categories)
    requires newId !in categories && !NameTaken(categories, c.name)
    ensures DistinctNames(categories[newId := c])
  {
    var after := categories[newId := c];
    forall k, j | k in after && j in after && k != j
      ensures after[k].name != after[j].name
    {
      if k == newId {
        assert categories[j].name != c.name;
      } else if j == newId {
        assert categories[k].name != c.name;
      }
    }
  }

  /** `GetCategories`: every stored category, each once, and nothing else. */
  ghost function GetCategories(categories: Categories): (r: seq<Category>)
    ensures |r| == |categories|
    ensures forall i :: 0 <= i < |r| ==> r[i] in categories.Values
    ensures forall k :: k in categories ==> categories[k] in r
  {
    var ks := Listing.AnyOrder(categories.Keys);
    assert |ks| == |categories.Keys| == |categories|;
    Listing.DocumentsCover(categories, ks, categories.Keys);
    Listing.Documents(categories, ks)
  }
}
