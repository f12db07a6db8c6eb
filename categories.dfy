/** The pure parts of `CategoriesService`
    (backend/src/categories/categories.service.ts): `findAll`, the
    not-found message, and the `onDelete: SetNull` effect of a delete on the
    product table. Create, update and remove are methods of `Shop.Store`. */
module Categories {
  import opened Wrappers
  import opened Schema

  const NotFoundMessage := "Category not found"

  /** `findAll()`: every category row, in table order. */
  function FindAll(categories: seq<Category>): (r: seq<Category>)
    ensures |r| == |categories|
    ensures forall k :: 0 <= k < |r| ==> r[k] == categories[k]
  {
    categories
  }

  /** The product table after category `id` is deleted: no product refers
      to it any more, products that referred elsewhere are unchanged, and no
      column but the category reference changes. */
  function DetachCategory(products: seq<Product>, id: nat): (r: seq<Product>)
    ensures |r| == |products|
    ensures forall k :: 0 <= k < |r| ==> r[k].categoryId != Some(id)
    ensures forall k :: 0 <= k < |r| && products[k].categoryId == Some(id) ==> r[k].categoryId == None
    ensures forall k :: 0 <= k < |r| && products[k].categoryId != Some(id) ==> r[k] == products[k]
    ensures forall k :: 0 <= k < |r| ==> r[k] == products[k].(categoryId := r[k].categoryId)
  {
    seq(|products|, k requires 0 <= k < |products| =>
      if products[k].categoryId == Some(id) then products[k].(categoryId := None) else products[k])
  }
}
