/** The queries of `ProductsService` (backend/src/products/products.service.ts):
    `findAll` with its category filter, newest-first order and `skip`/`take`
    window, and `findOne`. Create, update and remove are methods of
    `Shop.Store`. */
module Catalog {
  import opened Wrappers
  import opened Seqs
  import opened Text
  import opened Schema

  /** The page size `findAll` uses when the caller gives none. */
  const DefaultPageSize: nat := 12

  /** The message of the `NotFoundException` for a missing product id. */
  function NotFoundMessage(id: nat): string
  {
    "Product with ID " + NatToString(id) + " not found"
  }

  /** Product `p` belongs to a category whose name equals `name` ignoring case. */
  predicate InCategory(categories: seq<Category>, p: Product, name: string)
  {
    && p.categoryId.Some?
    && exists k :: 0 <= k < |categories| && categories[k].id == p.categoryId.value
         && EqualsIgnoreCase(categories[k].name, name)
  }

  function InCategoryNamed(categories: seq<Category>, name: string): Product -> bool
  {
    (p: Product) => InCategory(categories, p, name)
  }

  /** A category argument filters only when it is a non-empty string: the
      code tests it for truthiness, so `undefined` and "" both mean "all". */
  predicate Filters(category: Option<string>)
  {
    category.Some? && category.value != ""
  }

  /** The rows the `where` clause selects, in table order. */
  function Selected(products: seq<Product>, categories: seq<Category>, category: Option<string>): seq<Product>
  {
    if Filters(category) then Filter(products, InCategoryNamed(categories, category.value)) else products
  }

  /** The products `findAll` pages through: the selected rows, newest first. */
  function Listing(products: seq<Product>, categories: seq<Category>, category: Option<string>): (r: seq<Product>)
    ensures NewestFirst(r, ProductCreatedAt)
    ensures multiset(r) == multiset(Selected(products, categories, category))
  {
    SortNewestFirst(Selected(products, categories, category), ProductCreatedAt)
  }

  /** With a category the listing holds exactly the products of a category of
      that name, ignoring case; without one it holds every product. */
  lemma ListingMembers(products: seq<Product>, categories: seq<Category>, category: Option<string>, p: Product)
    ensures p in Listing(products, categories, category) <==>
      p in products && (Filters(category) ==> InCategory(categories, p, category.value))
    ensures !Filters(category) ==> multiset(Listing(products, categories, category)) == multiset(products)
  {
    var r := Listing(products, categories, category);
    assert p in r <==> p in multiset(r);
    assert p in Selected(products, categories, category) <==> p in multiset(Selected(products, categories, category));
  }

  /** `findAll(page = 1, pageSize = 12, category?)`. The skip is
      (page - 1) * pageSize; a negative skip is rejected by the query layer. */
  function FindAll(products: seq<Product>, categories: seq<Category>,
                   page: int := 1, pageSize: nat := DefaultPageSize,
                   category: Option<string> := None): (r: Result<seq<Product>, Error>)
    ensures r.Err? <==> (page - 1) * pageSize < 0
    ensures r.Err? ==> r.error == InvalidArgument("skip")
    ensures r.Ok? ==>
      var listing := Listing(products, categories, category);
      var skip := (page - 1) * pageSize;
      && |r.value| <= pageSize
      && |r.value| == (if skip >= |listing| then 0 else Min(pageSize, |listing| - skip))
      && (forall j :: 0 <= j < |r.value| ==> r.value[j] == listing[skip + j])
  {
    var skip := (page - 1) * pageSize;
    if skip < 0 then Err(InvalidArgument("skip"))
    else Ok(Page(Listing(products, categories, category), skip, pageSize))
  }

  /** Every page `findAll` returns is newest first, and holds only products
      of the table that pass the category filter. */
  lemma FindAllPagesAreFilteredAndOrdered(products: seq<Product>, categories: seq<Category>,
                                          page: int, pageSize: nat, category: Option<string>)
    requires FindAll(products, categories, page, pageSize, category).Ok?
    ensures var r := FindAll(products, categories, page, pageSize, category).value;
      && NewestFirst(r, ProductCreatedAt)
      && forall p :: p in r ==> p in products && (Filters(category) ==> InCategory(categories, p, category.value))
  {
    var listing := Listing(products, categories, category);
    var r := FindAll(products, categories, page, pageSize, category).value;
    var skip := (page - 1) * pageSize;
    assert forall j :: 0 <= j < |r| ==> r[j] == listing[skip + j];
    forall p | p in r
      ensures p in products && (Filters(category) ==> InCategory(categories, p, category.value))
    {
      var j :| 0 <= j < |r| && r[j] == p;
      ListingMembers(products, categories, category, p);
    }
  }

  /** What a client reading pages 1 .. n of `findAll` sees, one page after
      the other. */
  function PagesRead(products: seq<Product>, categories: seq<Category>,
                     pageSize: nat, category: Option<string>, n: nat): seq<Product>
  {
    if n == 0 then []
    else
      var r := FindAll(products, categories, n, pageSize, category);
      PagesRead(products, categories, pageSize, category, n - 1) + (if r.Ok? then r.value else [])
  }

  /** Pages 1 .. n of one page size are exactly the first n * pageSize
      products of the listing, in order: consecutive pages are disjoint and
      leave nothing out, and once n * pageSize reaches the listing's length
      they hold all of it. */
  lemma {:induction false} ConsecutivePagesCoverListing(products: seq<Product>, categories: seq<Category>,
                                     pageSize: nat, category: Option<string>, n: nat)
    ensures
      var listing := Listing(products, categories, category);
      PagesRead(products, categories, pageSize, category, n) == listing[..Min(n * pageSize, |listing|)]
  {
    var listing := Listing(products, categories, category);
    PagesReadArePages(products, categories, pageSize, category, n);
    FirstPagesArePrefix(listing, pageSize, n);
  }

  lemma {:induction false} PagesReadArePages(products: seq<Product>, categories: seq<Category>,
                                             pageSize: nat, category: Option<string>, n: nat)
    ensures PagesRead(products, categories, pageSize, category, n)
         == FirstPages(Listing(products, categories, category), pageSize, n)
  {
    if n > 0 {
      PagesReadArePages(products, categories, pageSize, category, n - 1);
      NonNegativeSkip(n, pageSize);
    }
  }

  lemma NonNegativeSkip(page: int, pageSize: nat)
    requires page >= 1
    ensures (page - 1) * pageSize >= 0
  {
  }

  /** When the selected products have pairwise distinct creation times, the
      listing is their only newest-first order: whatever order the database
      returns them in for `orderBy: { createdAt: 'desc' }` is this one. */
  lemma ListingIsTheOnlyOrder(products: seq<Product>, categories: seq<Category>,
                              category: Option<string>, order: seq<Product>)
    requires DistinctBy(Selected(products, categories, category), ProductCreatedAt)
    requires multiset(order) == multiset(Selected(products, categories, category))
    requires NewestFirst(order, ProductCreatedAt)
    ensures order == Listing(products, categories, category)
  {
    var listing := Listing(products, categories, category);
    DistinctByPermutation(Selected(products, categories, category), listing, ProductCreatedAt);
    NewestFirstIsUnique(listing, order, ProductCreatedAt);
  }

  /** Two products created at the same moment can be listed either way
      round: with ties, `orderBy: { createdAt: 'desc' }` does not fix one
      order, which is why the lemma above asks for distinct times. */
  lemma TiedProductsHaveTwoOrders()
    ensures
      var p := Product(1, "A", "", 100, 1, "", None, 5);
      var q := Product(2, "B", "", 100, 1, "", None, 5);
      && multiset([p, q]) == multiset([q, p]) && [p, q] != [q, p]
      && NewestFirst([p, q], ProductCreatedAt) && NewestFirst([q, p], ProductCreatedAt)
  {
    var p := Product(1, "A", "", 100, 1, "", None, 5);
    var q := Product(2, "B", "", 100, 1, "", None, 5);
    assert [p, q][0] != [q, p][0];
  }

  /** With distinct creation times, pages 1 .. n cover the first n * pageSize
      products of the listing, without overlap or gap, whichever
      newest-first order the database picks on each call (page k is cut
      from `orders[k - 1]`). */
  lemma PagesCoverListingInAnyOrder(products: seq<Product>, categories: seq<Category>,
                                    pageSize: nat, category: Option<string>,
                                    orders: seq<seq<Product>>)
    requires DistinctBy(Selected(products, categories, category), ProductCreatedAt)
    requires forall k :: 0 <= k < |orders| ==>
      multiset(orders[k]) == multiset(Selected(products, categories, category)) && NewestFirst(orders[k], ProductCreatedAt)
    ensures
      var listing := Listing(products, categories, category);
      PagesIn(orders, pageSize) == listing[..Min(|orders| * pageSize, |listing|)]
  {
    var listing := Listing(products, categories, category);
    forall k | 0 <= k < |orders| ensures orders[k] == listing {
      ListingIsTheOnlyOrder(products, categories, category, orders[k]);
    }
    PagesOfOneOrder(orders, listing, pageSize);
    FirstPagesArePrefix(listing, pageSize, |orders|);
  }

  /** `findOne(id)`: the product with that id, or `NotFoundException`. */
  function FindOne(products: seq<Product>, id: nat): (r: Result<Product, Error>)
    ensures r.Ok? <==> HasProduct(products, id)
    ensures r.Ok? ==> r.value in products && r.value.id == id
    ensures r.Err? ==> r.error == NotFound(NotFoundMessage(id))
  {
    if HasProduct(products, id) then Ok(products[ProductIndex(products, id)])
    else Err(NotFound(NotFoundMessage(id)))
  }
}
