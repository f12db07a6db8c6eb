/** The relational store and the service operations that change it. Each
    method is one sequential call of the service it names: it reads rows,
    checks its conditions and inserts, updates or deletes rows, and returns
    the service's value or the exception it throws as an `Err`. */
module Shop {
  import opened Wrappers
  import opened Seqs
  import opened Schema
  import opened CartTable
  import Orders
  import Catalog
  import Categories
  import Reviews
  import Payments

  /** The columns `products.create({ data })` is given. */
  datatype ProductData = ProductData(
    name: string, description: string, price: int, stock: int, imageUrl: string, categoryId: Option<nat>)

  /** The columns `products.update({ data })` is given; `None` leaves a
      column as it is, and `categoryId := Some(None)` clears the category. */
  datatype ProductPatch = ProductPatch(
    name: Option<string>, description: Option<string>, price: Option<int>, stock: Option<int>,
    imageUrl: Option<string>, categoryId: Option<Option<nat>>)

  function Patched<T>(old_: T, patch: Option<T>): T
  {
    if patch.Some? then patch.value else old_
  }

  /** Product `p` with the columns of `d` written over it. */
  function ApplyPatch(p: Product, d: ProductPatch): (r: Product)
    ensures r.id == p.id && r.createdAt == p.createdAt
    ensures d.name.Some? ==> r.name == d.name.value
    ensures d.name.None? ==> r.name == p.name
    ensures d.description.Some? ==> r.description == d.description.value
    ensures d.description.None? ==> r.description == p.description
    ensures d.price.Some? ==> r.price == d.price.value
    ensures d.price.None? ==> r.price == p.price
    ensures d.stock.Some? ==> r.stock == d.stock.value
    ensures d.stock.None? ==> r.stock == p.stock
    ensures d.categoryId.Some? ==> r.categoryId == d.categoryId.value
    ensures d.categoryId.None? ==> r.categoryId == p.categoryId
    ensures d.imageUrl.Some? ==> r.imageUrl == d.imageUrl.value
    ensures d.imageUrl.None? ==> r.imageUrl == p.imageUrl
  {
    p.(name := Patched(p.name, d.name),
       description := Patched(p.description, d.description),
       price := Patched(p.price, d.price),
       stock := Patched(p.stock, d.stock),
       imageUrl := Patched(p.imageUrl, d.imageUrl),
       categoryId := Patched(p.categoryId, d.categoryId))
  }

  /** The category column refers to an existing category, or to none. */
  predicate CategoryRefOk(categories: seq<Category>, c: Option<nat>)
  {
    c.None? || HasCategory(categories, c.value)
  }

  /** Two product tables with the same ids at the same positions resolve the
      same references. */
  lemma SameIdsSameProducts(p1: seq<Product>, p2: seq<Product>)
    requires |p1| == |p2| && forall k :: 0 <= k < |p1| ==> p1[k].id == p2[k].id
    ensures forall id :: HasProduct(p1, id) <==> HasProduct(p2, id)
  {
    forall id ensures HasProduct(p1, id) ==> HasProduct(p2, id) {
      if HasProduct(p1, id) {
        var k :| 0 <= k < |p1| && p1[k].id == id;
        assert p2[k].id == id;
      }
    }
  }

  /** The step of `TakeStock`'s loop: line `i`'s product is found in the
      table updated for the lines before it, and taking the line's quantity
      off that row, at position `k`, gives the stock after line `i` too. */
  lemma TakeStockFinds(before: seq<Product>, rows: seq<CartItem>, i: nat, table: seq<Product>)
    requires DistinctBy(before, ProductId) && CartResolves(before, rows) && i < |rows|
    requires table == Orders.StockAfter(before, rows[..i])
    ensures HasProduct(table, rows[i].productId)
  {
    assert rows[i] in rows;
    SameIdsSameProducts(before, table);
  }

  lemma TakeStockStep(before: seq<Product>, rows: seq<CartItem>, i: nat, table: seq<Product>, k: nat)
    requires DistinctBy(before, ProductId) && i < |rows|
    requires table == Orders.StockAfter(before, rows[..i])
    requires k < |table| && table[k].id == rows[i].productId
    ensures Orders.StockAfter(before, rows[..i + 1]) == table[k := table[k].(stock := table[k].stock - rows[i].quantity)]
  {
    Orders.StockAfterSnoc(before, rows[..i], rows[i], k);
    assert rows[..i + 1] == rows[..i] + [rows[i]];
  }

  /** No lines taken leave the table as it is. */
  lemma NoStockTaken(products: seq<Product>)
    ensures Orders.StockAfter(products, []) == products
  {
    Orders.StockAfterIsUnique(products, [], products);
  }

  /** Deleting row `k` of a product table with distinct ids leaves exactly
      the rows with other ids, so that id is no longer found. */
  lemma RemoveProductRow(products: seq<Product>, k: nat)
    requires DistinctBy(products, ProductId) && k < |products|
    ensures !HasProduct(products[..k] + products[k + 1..], products[k].id)
    ensures forall x :: x in products[..k] + products[k + 1..] <==> x in products && x.id != products[k].id
  {
    var rest := products[..k] + products[k + 1..];
    RemoveByKey(products, k, ProductId);
    assert forall j :: 0 <= j < |rest| ==> rest[j] in rest;
  }

  /** Deleting row `k` keeps every other id resolvable. */
  lemma RemoveKeepsOtherProducts(products: seq<Product>, k: nat, id: nat)
    requires k < |products| && HasProduct(products, id) && id != products[k].id
    ensures HasProduct(products[..k] + products[k + 1..], id)
  {
    var j :| 0 <= j < |products| && products[j].id == id;
    var t := products[..k] + products[k + 1..];
    assert t[if j < k then j else j - 1].id == id;
  }

  lemma RemoveKeepsOtherCategories(categories: seq<Category>, k: nat, id: nat)
    requires k < |categories| && HasCategory(categories, id) && id != categories[k].id
    ensures HasCategory(categories[..k] + categories[k + 1..], id)
  {
    var j :| 0 <= j < |categories| && categories[j].id == id;
    var t := categories[..k] + categories[k + 1..];
    assert t[if j < k then j else j - 1].id == id;
  }

  /** Every column of the store at one moment, for stating which tables an
      operation leaves alone. */
  datatype Tables = Tables(
    users: seq<User>, products: seq<Product>, categories: seq<Category>, cart: seq<CartItem>,
    orders: seq<Order>, reviews: seq<Review>,
    nextProductId: nat, nextCategoryId: nat, nextCartId: nat,
    nextOrderId: nat, nextOrderItemId: nat, nextReviewId: nat)

  /** Primary keys are unique and below their auto-increment counters,
      every required relation resolves, and the two at-most-one rules the
      services keep hold. */
  ghost predicate Integrity(
    products: seq<Product>, categories: seq<Category>, cart: seq<CartItem>, orders: seq<Order>,
    reviews: seq<Review>, nextProductId: nat, nextCategoryId: nat, nextCartId: nat)
  {
    && DistinctBy(products, ProductId) && AllBelow(products, ProductId, nextProductId)
    && DistinctBy(categories, CategoryId) && AllBelow(categories, CategoryId, nextCategoryId)
    && DistinctBy(cart, CartItemId) && AllBelow(cart, CartItemId, nextCartId)
    && OneRowPerPair(cart)
    && Reviews.OneReviewPerPair(reviews)
    && CartResolves(products, cart)
    && OrdersResolve(products, orders)
    && ReviewsResolve(products, reviews)
    && CategoriesResolve(categories, products)
  }

  /** Rewriting a cart row in place, id and (user, product) pair kept,
      keeps integrity. */
  lemma MergeRowKeepsIntegrity(
    products: seq<Product>, categories: seq<Category>, cart: seq<CartItem>,
    orders: seq<Order>, reviews: seq<Review>, np: nat, nc: nat, ncart: nat, i: nat, row: CartItem)
    requires Integrity(products, categories, cart, orders, reviews, np, nc, ncart)
    requires i < |cart| && row.id == cart[i].id && UserProduct(row) == UserProduct(cart[i])
    ensures Integrity(products, categories, cart[i := row], orders, reviews, np, nc, ncart)
  {
    DistinctByUpdate(cart, i, row, CartItemId);
    DistinctByUpdate(cart, i, row, UserProduct);
    assert CartItemId(row) == CartItemId(cart[i]);
    AllBelowUpdate(cart, i, row, CartItemId, ncart);
    assert cart[i] in cart;
  }

  /** Inserting a cart row with the next id, for an existing product and a
      (user, product) pair that has no row yet, keeps integrity. */
  lemma InsertRowKeepsIntegrity(
    products: seq<Product>, categories: seq<Category>, cart: seq<CartItem>,
    orders: seq<Order>, reviews: seq<Review>, np: nat, nc: nat, ncart: nat, row: CartItem)
    requires Integrity(products, categories, cart, orders, reviews, np, nc, ncart)
    requires row.id == ncart && HasProduct(products, row.productId)
    requires forall k :: 0 <= k < |cart| ==> !(cart[k].userId == row.userId && cart[k].productId == row.productId)
    ensures Integrity(products, categories, cart + [row], orders, reviews, np, nc, ncart + 1)
  {
    assert CartItemId(row) == ncart;
    AllBelowAppend(cart, row, CartItemId, ncart);
    DistinctByAppend(cart, row, CartItemId);
    DistinctByAppend(cart, row, UserProduct);
  }

  /** Rewriting product rows in place, ids kept, keeps integrity as long as
      every category reference still resolves. */
  lemma RewriteProductsKeepsIntegrity(
    products: seq<Product>, products': seq<Product>, categories: seq<Category>, cart: seq<CartItem>,
    orders: seq<Order>, reviews: seq<Review>, np: nat, nc: nat, ncart: nat)
    requires Integrity(products, categories, cart, orders, reviews, np, nc, ncart)
    requires |products'| == |products| && forall k :: 0 <= k < |products| ==> products'[k].id == products[k].id
    requires CategoriesResolve(categories, products')
    ensures Integrity(products', categories, cart, orders, reviews, np, nc, ncart)
  {
    SameIdsSameProducts(products, products');
    assert forall i :: 0 <= i < |products'| ==> ProductId(products'[i]) == ProductId(products[i]);
  }

  /** Appending an order whose items resolve keeps integrity. */
  lemma AppendOrderKeepsIntegrity(
    products: seq<Product>, categories: seq<Category>, cart: seq<CartItem>,
    orders: seq<Order>, reviews: seq<Review>, np: nat, nc: nat, ncart: nat, order: Order)
    requires Integrity(products, categories, cart, orders, reviews, np, nc, ncart)
    requires ItemsResolve(products, order.items)
    ensures Integrity(products, categories, cart, orders + [order], reviews, np, nc, ncart)
  {
    var t := orders + [order];
    assert forall i :: 0 <= i < |orders| ==> t[i] == orders[i];
  }

  /** Deleting one user's cart rows keeps integrity. */
  lemma ClearCartKeepsIntegrity(
    products: seq<Product>, categories: seq<Category>, cart: seq<CartItem>,
    orders: seq<Order>, reviews: seq<Review>, np: nat, nc: nat, ncart: nat, userId: nat)
    requires Integrity(products, categories, cart, orders, reviews, np, nc, ncart)
    ensures Integrity(products, categories, WithoutUser(cart, userId), orders, reviews, np, nc, ncart)
  {
    DistinctByFilter(cart, NotOfUser(userId), CartItemId);
    DistinctByFilter(cart, NotOfUser(userId), UserProduct);
    AllBelowFilter(cart, NotOfUser(userId), CartItemId, ncart);
  }

  /** With distinct ids, the row `findUnique` finds is the one with that id. */
  lemma ProductIndexIsUnique(products: seq<Product>, k: nat)
    requires DistinctBy(products, ProductId) && k < |products|
    ensures ProductIndex(products, products[k].id) == k
  {
    var m := ProductIndex(products, products[k].id);
    assert ProductId(products[m]) == ProductId(products[k]);
  }

  lemma CategoryIndexIsUnique(categories: seq<Category>, k: nat)
    requires DistinctBy(categories, CategoryId) && k < |categories|
    ensures CategoryIndex(categories, categories[k].id) == Some(k)
  {
    assert HasCategory(categories, categories[k].id);
    var m := CategoryIndex(categories, categories[k].id).value;
    assert CategoryId(categories[m]) == CategoryId(categories[k]);
  }

  lemma AppendKeepsProducts(products: seq<Product>, p: Product)
    ensures forall id :: HasProduct(products, id) ==> HasProduct(products + [p], id)
    ensures HasProduct(products + [p], p.id)
  {
    var t := products + [p];
    assert t[|products|] == p;
    forall id | HasProduct(products, id) ensures HasProduct(t, id) {
      var k :| 0 <= k < |products| && products[k].id == id;
      assert t[k] == products[k];
    }
  }

  lemma AppendKeepsCategories(categories: seq<Category>, c: Category)
    ensures forall id :: HasCategory(categories, id) ==> HasCategory(categories + [c], id)
    ensures HasCategory(categories + [c], c.id)
  {
    var t := categories + [c];
    assert t[|categories|] == c;
    forall id | HasCategory(categories, id) ensures HasCategory(t, id) {
      var k :| 0 <= k < |categories| && categories[k].id == id;
      assert t[k] == categories[k];
    }
  }

  /** Inserting a product with the next id and a resolvable category keeps
      integrity. */
  lemma InsertProductKeepsIntegrity(
    products: seq<Product>, categories: seq<Category>, cart: seq<CartItem>,
    orders: seq<Order>, reviews: seq<Review>, np: nat, nc: nat, ncart: nat, p: Product)
    requires Integrity(products, categories, cart, orders, reviews, np, nc, ncart)
    requires p.id == np && CategoryRefOk(categories, p.categoryId)
    ensures Integrity(products + [p], categories, cart, orders, reviews, np + 1, nc, ncart)
  {
    var t := products + [p];
    assert ProductId(p) == np;
    AllBelowAppend(products, p, ProductId, np);
    DistinctByAppend(products, p, ProductId);
    AppendKeepsProducts(products, p);
    forall k | 0 <= k < |t| && t[k].categoryId.Some? ensures HasCategory(categories, t[k].categoryId.value) {
      if k < |products| { assert t[k] == products[k]; }
    }
  }

  /** Replacing product row `k` by a row with the same id and a resolvable
      category keeps integrity. */
  lemma UpdateProductKeepsIntegrity(
    products: seq<Product>, categories: seq<Category>, cart: seq<CartItem>,
    orders: seq<Order>, reviews: seq<Review>, np: nat, nc: nat, ncart: nat, k: nat, p: Product)
    requires Integrity(products, categories, cart, orders, reviews, np, nc, ncart)
    requires k < |products| && p.id == products[k].id && CategoryRefOk(categories, p.categoryId)
    ensures Integrity(products[k := p], categories, cart, orders, reviews, np, nc, ncart)
  {
    RewriteProductsKeepsIntegrity(products, products[k := p], categories, cart, orders, reviews, np, nc, ncart);
  }

  /** Deleting a product no row refers to keeps integrity. */
  lemma RemoveProductKeepsIntegrity(
    products: seq<Product>, categories: seq<Category>, cart: seq<CartItem>,
    orders: seq<Order>, reviews: seq<Review>, np: nat, nc: nat, ncart: nat, k: nat)
    requires Integrity(products, categories, cart, orders, reviews, np, nc, ncart)
    requires k < |products| && !ProductReferenced(cart, orders, reviews, products[k].id)
    ensures Integrity(products[..k] + products[k + 1..], categories, cart, orders, reviews, np, nc, ncart)
  {
    var t := products[..k] + products[k + 1..];
    DistinctByRemove(products, k, ProductId);
    AllBelowRemove(products, k, ProductId, np);
    forall x | x in cart ensures HasProduct(t, x.productId) {
      var i :| 0 <= i < |cart| && cart[i] == x;
      RemoveKeepsOtherProducts(products, k, x.productId);
    }
    forall i, j | 0 <= i < |orders| && 0 <= j < |orders[i].items| ensures HasProduct(t, orders[i].items[j].productId) {
      assert ItemsResolve(products, orders[i].items);
      RemoveKeepsOtherProducts(products, k, orders[i].items[j].productId);
    }
    forall i | 0 <= i < |reviews| ensures HasProduct(t, reviews[i].productId) {
      RemoveKeepsOtherProducts(products, k, reviews[i].productId);
    }
    forall m | 0 <= m < |t| && t[m].categoryId.Some? ensures HasCategory(categories, t[m].categoryId.value) {
      assert t[m] == products[if m < k then m else m + 1];
    }
  }

  /** Inserting a category with the next id keeps integrity. */
  lemma InsertCategoryKeepsIntegrity(
    products: seq<Product>, categories: seq<Category>, cart: seq<CartItem>,
    orders: seq<Order>, reviews: seq<Review>, np: nat, nc: nat, ncart: nat, c: Category)
    requires Integrity(products, categories, cart, orders, reviews, np, nc, ncart)
    requires c.id == nc
    ensures Integrity(products, categories + [c], cart, orders, reviews, np, nc + 1, ncart)
  {
    assert CategoryId(c) == nc;
    AllBelowAppend(categories, c, CategoryId, nc);
    DistinctByAppend(categories, c, CategoryId);
    AppendKeepsCategories(categories, c);
  }

  /** Renaming category row `k` keeps integrity. */
  lemma RenameCategoryKeepsIntegrity(
    products: seq<Product>, categories: seq<Category>, cart: seq<CartItem>,
    orders: seq<Order>, reviews: seq<Review>, np: nat, nc: nat, ncart: nat, k: nat, c: Category)
    requires Integrity(products, categories, cart, orders, reviews, np, nc, ncart)
    requires k < |categories| && c.id == categories[k].id
    ensures Integrity(products, categories[k := c], cart, orders, reviews, np, nc, ncart)
  {
    var t := categories[k := c];
    assert CategoryId(c) == CategoryId(categories[k]);
    DistinctByUpdate(categories, k, c, CategoryId);
    AllBelowUpdate(categories, k, c, CategoryId, nc);
    forall id | HasCategory(categories, id) ensures HasCategory(t, id) {
      var j :| 0 <= j < |categories| && categories[j].id == id;
      assert t[j].id == id;
    }
  }

  /** Deleting category row `k` and detaching its products keeps integrity. */
  lemma RemoveCategoryKeepsIntegrity(
    products: seq<Product>, categories: seq<Category>, cart: seq<CartItem>,
    orders: seq<Order>, reviews: seq<Review>, np: nat, nc: nat, ncart: nat, k: nat)
    requires Integrity(products, categories, cart, orders, reviews, np, nc, ncart)
    requires k < |categories|
    ensures Integrity(Categories.DetachCategory(products, categories[k].id), categories[..k] + categories[k + 1..],
      cart, orders, reviews, np, nc, ncart)
  {
    var id := categories[k].id;
    var detached := Categories.DetachCategory(products, id);
    var t := categories[..k] + categories[k + 1..];
    forall m | 0 <= m < |detached| && detached[m].categoryId.Some? ensures HasCategory(categories, detached[m].categoryId.value) {
      assert detached[m] == products[m];
    }
    RewriteProductsKeepsIntegrity(products, detached, categories, cart, orders, reviews, np, nc, ncart);
    DistinctByRemove(categories, k, CategoryId);
    AllBelowRemove(categories, k, CategoryId, nc);
    forall m | 0 <= m < |detached| && detached[m].categoryId.Some? ensures HasCategory(t, detached[m].categoryId.value) {
      RemoveKeepsOtherCategories(categories, k, detached[m].categoryId.value);
    }
  }

  /** Inserting a review the gate lets through keeps integrity: the
      completed purchase names an existing product. */
  lemma InsertReviewKeepsIntegrity(
    products: seq<Product>, categories: seq<Category>, cart: seq<CartItem>,
    orders: seq<Order>, reviews: seq<Review>, np: nat, nc: nat, ncart: nat, x: Review)
    requires Integrity(products, categories, cart, orders, reviews, np, nc, ncart)
    requires Reviews.ReviewGate(orders, reviews, x.userId, x.productId).None?
    ensures HasProduct(products, x.productId)
    ensures Integrity(products, categories, cart, orders, reviews + [x], np, nc, ncart)
  {
    var i :| 0 <= i < |orders| && orders[i].userId == x.userId && orders[i].status == CompletedStatus
      && Reviews.OrderContains(orders[i], x.productId);
    var j :| 0 <= j < |orders[i].items| && orders[i].items[j].productId == x.productId;
    assert ItemsResolve(products, orders[i].items);
    Reviews.GateKeepsOneReviewPerPair(orders, reviews, x);
    var t := reviews + [x];
    assert forall m :: 0 <= m < |reviews| ==> t[m] == reviews[m];
  }

  class Store {
    var users: seq<User>
    var products: seq<Product>
    var categories: seq<Category>
    var cart: seq<CartItem>
    var orders: seq<Order>
    var reviews: seq<Review>
    /** The next value of each table's auto-increment id. */
    var nextProductId: nat
    var nextCategoryId: nat
    var nextCartId: nat
    var nextOrderId: nat
    var nextOrderItemId: nat
    var nextReviewId: nat

    /** The integrity of the tables this object holds. */
    ghost predicate Valid()
      reads this
    {
      Integrity(products, categories, cart, orders, reviews, nextProductId, nextCategoryId, nextCartId)
    }

    ghost function State(): Tables
      reads this
    {
      Tables(users, products, categories, cart, orders, reviews,
        nextProductId, nextCategoryId, nextCartId, nextOrderId, nextOrderItemId, nextReviewId)
    }

    /** An empty shop whose user table holds `users` (registration is not
        part of this model). */
    constructor (users: seq<User>)
      ensures Valid()
      ensures State() == Tables(users, [], [], [], [], [], 0, 0, 0, 0, 0, 0)
    {
      this.users := users;
      products, categories, cart, orders, reviews := [], [], [], [], [];
      nextProductId, nextCategoryId, nextCartId := 0, 0, 0;
      nextOrderId, nextOrderItemId, nextReviewId := 0, 0, 0;
    }

    // ---------------------------------------------------------------- cart

    /** `addToCart(userId, productId, quantity = 1)`: merge into the user's
        row for the product if there is one, otherwise insert a row. */
    method AddToCart(userId: nat, productId: nat, quantity: int := 1) returns (r: Result<CartItem, Error>)
      requires Valid()
      modifies this
      ensures Valid()
      ensures State() == old(State()).(cart := cart, nextCartId := nextCartId)
      ensures match FindRow(old(cart), userId, productId)
        case Some(i) =>
          && cart == old(cart)[i := old(cart)[i].(quantity := old(cart)[i].quantity + quantity)]
          && nextCartId == old(nextCartId)
          && r == Ok(cart[i])
        case None =>
          if HasProduct(products, productId) then
            && cart == old(cart) + [CartItem(old(nextCartId), userId, productId, quantity)]
            && nextCartId == old(nextCartId) + 1
            && r == Ok(CartItem(old(nextCartId), userId, productId, quantity))
          else
            && cart == old(cart) && nextCartId == old(nextCartId)
            && r == Err(ForeignKeyViolation("productId"))
      ensures r.Ok? ==> QtyOf(cart, userId, productId) == old(QtyOf(cart, userId, productId)) + quantity
      ensures forall u: nat, p: nat :: (u != userId || p != productId) ==> QtyOf(cart, u, p) == old(QtyOf(cart, u, p))
      ensures forall k :: 0 <= k < |old(cart)| && UserProduct(old(cart)[k]) != (userId, productId) ==> cart[k] == old(cart)[k]
    {
      var existing := FindRow(cart, userId, productId);
      match existing {
        case Some(i) =>
          var row := cart[i].(quantity := cart[i].quantity + quantity);
          QtyOfUpdateAll(cart, i, row);
          MergeRowKeepsIntegrity(products, categories, cart, orders, reviews, nextProductId, nextCategoryId, nextCartId, i, row);
          cart := cart[i := row];
          r := Ok(row);
        case None =>
          if HasProduct(products, productId) {
            var row := CartItem(nextCartId, userId, productId, quantity);
            QtyOfAppendAll(cart, row);
            InsertRowKeepsIntegrity(products, categories, cart, orders, reviews, nextProductId, nextCategoryId, nextCartId, row);
            cart := cart + [row];
            nextCartId := nextCartId + 1;
            r := Ok(row);
          } else {
            r := Err(ForeignKeyViolation("productId"));
          }
      }
    }

    /** `removeItem(id)`: delete the cart row with that id, whoever owns it;
        a missing id is Prisma's record-not-found error. */
    method RemoveItem(id: nat) returns (r: Result<CartItem, Error>)
      requires Valid()
      modifies this
      ensures Valid()
      ensures State() == old(State()).(cart := cart)
      ensures match FindById(old(cart), id)
        case None => r == Err(RecordNotFound) && cart == old(cart)
        case Some(k) => r == Ok(old(cart)[k]) && cart == old(cart)[..k] + old(cart)[k + 1..]
      ensures forall x :: x in cart <==> x in old(cart) && x.id != id
    {
      match FindById(cart, id) {
        case None =>
          r := Err(RecordNotFound);
        case Some(k) =>
          DistinctByRemove(cart, k, CartItemId);
          DistinctByRemove(cart, k, UserProduct);
          AllBelowRemove(cart, k, CartItemId, nextCartId);
          RemoveByKey(cart, k, CartItemId);
          r := Ok(cart[k]);
          cart := cart[..k] + cart[k + 1..];
      }
    }

    /** `clearCart(userId)`: delete all of the user's rows and report how
        many there were. */
    method ClearCart(userId: nat) returns (count: nat)
      requires Valid()
      modifies this
      ensures Valid()
      ensures State() == old(State()).(cart := WithoutUser(old(cart), userId))
      ensures count == |GetCart(old(cart), userId)|
      ensures GetCart(cart, userId) == []
      ensures forall v: nat :: v != userId ==> GetCart(cart, v) == GetCart(old(cart), v)
    {
      count := |GetCart(cart, userId)|;
      forall v: nat ensures v != userId ==> GetCart(WithoutUser(cart, userId), v) == GetCart(cart, v) {
        ClearCartSeparatesUsers(cart, userId, v);
      }
      ClearCartSeparatesUsers(cart, userId, userId);
      ClearCartKeepsIntegrity(products, categories, cart, orders, reviews, nextProductId, nextCategoryId, nextCartId, userId);
      cart := WithoutUser(cart, userId);
    }
    // -------------------------------------------------------------- orders

    /** `createOrderFromCart(userId, address)`: snapshot the user's cart into
        a pending order, take each line's quantity off its product's stock
        and empty the cart. The `address` argument is not stored. */
    method CreateOrderFromCart(userId: nat, address: string, now: nat) returns (r: Result<Order, Error>)
      requires Valid()
      modifies this
      ensures Valid()
      ensures State() == old(State()).(orders := orders, products := products, cart := cart,
        nextOrderId := nextOrderId, nextOrderItemId := nextOrderItemId)
      ensures GetCart(old(cart), userId) == [] ==>
        r == Err(Internal(Orders.CartEmptyMessage)) && State() == old(State())
      ensures GetCart(old(cart), userId) != [] ==>
        var rows := GetCart(old(cart), userId);
        var order := Orders.NewOrder(old(products), rows, userId, old(nextOrderId), old(nextOrderItemId), now);
        && r == Ok(order)
        && orders == old(orders) + [order]
        && products == Orders.StockAfter(old(products), rows)
        && cart == WithoutUser(old(cart), userId)
        && nextOrderId == old(nextOrderId) + 1 && nextOrderItemId == old(nextOrderItemId) + |rows|
      ensures r.Ok? <==> Payments.CalculateOrderAmount(old(products), old(cart), userId).Ok?
      ensures r.Ok? ==> r.value.totalPrice == Payments.CalculateOrderAmount(old(products), old(cart), userId).value
    {
      var rows := GetCart(cart, userId);
      if rows == [] {
        return Err(Internal(Orders.CartEmptyMessage));
      }
      assert CartResolves(products, rows);
      var order := Orders.NewOrder(products, rows, userId, nextOrderId, nextOrderItemId, now);
      InsertOrder(order);
      ghost var before := products;
      TakeStock(rows);
      Orders.StockAfterKeepsCategories(categories, before, rows);
      RewriteProductsKeepsIntegrity(before, products, categories, cart, orders, reviews, nextProductId, nextCategoryId, nextCartId);
      var _ := ClearCart(userId);
      r := Ok(order);
    }

    /** The `order.create` of `createOrderFromCart`: insert the order with
        its items, allocating one order id and an item id per item. */
    method InsertOrder(order: Order)
      requires Valid() && ItemsResolve(products, order.items)
      modifies this
      ensures Valid()
      ensures State() == old(State()).(orders := old(orders) + [order],
        nextOrderId := old(nextOrderId) + 1, nextOrderItemId := old(nextOrderItemId) + |order.items|)
    {
      AppendOrderKeepsIntegrity(products, categories, cart, orders, reviews, nextProductId, nextCategoryId, nextCartId, order);
      orders := orders + [order];
      nextOrderId := nextOrderId + 1;
      nextOrderItemId := nextOrderItemId + |order.items|;
    }

    /** The loop at orders.service.ts:35-40: one `product.update` per cart
        line, decrementing the stock of the product the line names. */
    method TakeStock(rows: seq<CartItem>)
      requires DistinctBy(products, ProductId) && CartResolves(products, rows)
      modifies this
      ensures State() == old(State()).(products := Orders.StockAfter(old(products), rows))
    {
      var before := products;
      var table := before;
      NoStockTaken(before);
      var i := 0;
      while i < |rows|
        invariant 0 <= i <= |rows|
        invariant table == Orders.StockAfter(before, rows[..i])
        invariant DistinctBy(before, ProductId) && CartResolves(before, rows)
        modifies {}
      {
        TakeStockFinds(before, rows, i, table);
        var k := ProductIndex(table, rows[i].productId);
        TakeStockStep(before, rows, i, table, k);
        table := table[k := table[k].(stock := table[k].stock - rows[i].quantity)];
        i := i + 1;
      }
      assert rows[..i] == rows;
      products := table;
    }
    // ------------------------------------------------------------ products

    /** `create(data)`: insert a product with the next id and the creation
        time `now`. A category id that names no category is rejected by the
        foreign key. */
    method CreateProduct(data: ProductData, now: nat) returns (r: Result<Product, Error>)
      requires Valid()
      modifies this
      ensures Valid()
      ensures State() == old(State()).(products := products, nextProductId := nextProductId)
      ensures !CategoryRefOk(categories, data.categoryId) ==>
        r == Err(ForeignKeyViolation("categoryId")) && State() == old(State())
      ensures CategoryRefOk(categories, data.categoryId) ==>
        var p := Product(old(nextProductId), data.name, data.description, data.price, data.stock,
          data.imageUrl, data.categoryId, now);
        && r == Ok(p)
        && products == old(products) + [p]
        && nextProductId == old(nextProductId) + 1
      ensures r.Ok? ==> !HasProduct(old(products), r.value.id) && Catalog.FindOne(products, r.value.id) == r
    {
      if !CategoryRefOk(categories, data.categoryId) {
        return Err(ForeignKeyViolation("categoryId"));
      }
      var p := Product(nextProductId, data.name, data.description, data.price, data.stock,
        data.imageUrl, data.categoryId, now);
      InsertProductKeepsIntegrity(products, categories, cart, orders, reviews, nextProductId, nextCategoryId, nextCartId, p);
      assert !HasProduct(products, p.id);
      products := products + [p];
      nextProductId := nextProductId + 1;
      ProductIndexIsUnique(products, |products| - 1);
      r := Ok(p);
    }

    /** `update(id, data)`: `findOne(id)` first, then write the patch over
        the row; a patched category id must name a category. */
    method UpdateProduct(id: nat, patch: ProductPatch) returns (r: Result<Product, Error>)
      requires Valid()
      modifies this
      ensures Valid()
      ensures State() == old(State()).(products := products)
      ensures !HasProduct(old(products), id) ==>
        r == Err(NotFound(Catalog.NotFoundMessage(id))) && products == old(products)
      ensures HasProduct(old(products), id) ==>
        var k := ProductIndex(old(products), id);
        var p := ApplyPatch(old(products)[k], patch);
        if CategoryRefOk(categories, p.categoryId) then
          r == Ok(p) && products == old(products)[k := p]
        else
          r == Err(ForeignKeyViolation("categoryId")) && products == old(products)
      ensures r.Ok? ==> Catalog.FindOne(products, id) == r
    {
      var found := Catalog.FindOne(products, id);
      if found.Err? {
        return Err(found.error);
      }
      var k := ProductIndex(products, id);
      var p := ApplyPatch(products[k], patch);
      if !CategoryRefOk(categories, p.categoryId) {
        return Err(ForeignKeyViolation("categoryId"));
      }
      UpdateProductKeepsIntegrity(products, categories, cart, orders, reviews, nextProductId, nextCategoryId, nextCartId, k, p);
      products := products[k := p];
      ProductIndexIsUnique(products, k);
      r := Ok(p);
    }

    /** `remove(id)`: `findOne(id)` first, then delete the row. Cart lines,
        order items and reviews that still name the product block the
        delete. */
    method RemoveProduct(id: nat) returns (r: Result<Product, Error>)
      requires Valid()
      modifies this
      ensures Valid()
      ensures State() == old(State()).(products := products)
      ensures !HasProduct(old(products), id) ==>
        r == Err(NotFound(Catalog.NotFoundMessage(id))) && products == old(products)
      ensures HasProduct(old(products), id) ==>
        var k := ProductIndex(old(products), id);
        if ProductReferenced(cart, orders, reviews, id) then
          r == Err(ForeignKeyViolation("productId")) && products == old(products)
        else
          r == Ok(old(products)[k]) && products == old(products)[..k] + old(products)[k + 1..]
      ensures r.Ok? ==> Catalog.FindOne(products, id) == Err(NotFound(Catalog.NotFoundMessage(id)))
      ensures forall x :: x in products <==> x in old(products) && (r.Err? || x.id != id)
    {
      var found := Catalog.FindOne(products, id);
      if found.Err? {
        return Err(found.error);
      }
      if ProductReferenced(cart, orders, reviews, id) {
        return Err(ForeignKeyViolation("productId"));
      }
      var k := ProductIndex(products, id);
      RemoveProductKeepsIntegrity(products, categories, cart, orders, reviews, nextProductId, nextCategoryId, nextCartId, k);
      RemoveProductRow(products, k);
      r := Ok(products[k]);
      products := products[..k] + products[k + 1..];
    }

    // ---------------------------------------------------------- categories

    /** `create(name)`: insert a category with the next id. */
    method CreateCategory(name: string) returns (c: Category)
      requires Valid()
      modifies this
      ensures Valid()
      ensures c == Category(old(nextCategoryId), name)
      ensures State() == old(State()).(categories := old(categories) + [c], nextCategoryId := old(nextCategoryId) + 1)
      ensures !HasCategory(old(categories), c.id) && CategoryIndex(categories, c.id) == Some(|old(categories)|)
    {
      c := Category(nextCategoryId, name);
      InsertCategoryKeepsIntegrity(products, categories, cart, orders, reviews, nextProductId, nextCategoryId, nextCartId, c);
      assert !HasCategory(categories, c.id);
      categories := categories + [c];
      nextCategoryId := nextCategoryId + 1;
      CategoryIndexIsUnique(categories, |categories| - 1);
    }

    /** `update(id, name)`: rename the category, or throw not-found. */
    method UpdateCategory(id: nat, name: string) returns (r: Result<Category, Error>)
      requires Valid()
      modifies this
      ensures Valid()
      ensures State() == old(State()).(categories := categories)
      ensures match CategoryIndex(old(categories), id)
        case None => r == Err(NotFound(Categories.NotFoundMessage)) && categories == old(categories)
        case Some(k) => r == Ok(Category(id, name)) && categories == old(categories)[k := Category(id, name)]
      ensures r.Ok? ==> HasCategory(categories, id) && forall k :: 0 <= k < |categories| && categories[k].id == id ==> categories[k].name == name
    {
      match CategoryIndex(categories, id) {
        case None =>
          r := Err(NotFound(Categories.NotFoundMessage));
        case Some(k) =>
          var c := Category(id, name);
          RenameCategoryKeepsIntegrity(products, categories, cart, orders, reviews, nextProductId, nextCategoryId, nextCartId, k, c);
          categories := categories[k := c];
          CategoryIndexIsUnique(categories, k);
          r := Ok(c);
      }
    }

    /** `remove(id)`: delete the category, or throw not-found; the products
        in it lose their category (`onDelete: SetNull`). */
    method RemoveCategory(id: nat) returns (r: Result<Category, Error>)
      requires Valid()
      modifies this
      ensures Valid()
      ensures State() == old(State()).(categories := categories, products := products)
      ensures match CategoryIndex(old(categories), id)
        case None =>
          r == Err(NotFound(Categories.NotFoundMessage)) && categories == old(categories) && products == old(products)
        case Some(k) =>
          && r == Ok(old(categories)[k])
          && categories == old(categories)[..k] + old(categories)[k + 1..]
          && products == Categories.DetachCategory(old(products), id)
      ensures r.Ok? ==> !HasCategory(categories, id)
    {
      match CategoryIndex(categories, id) {
        case None =>
          r := Err(NotFound(Categories.NotFoundMessage));
        case Some(k) =>
          RemoveCategoryKeepsIntegrity(products, categories, cart, orders, reviews, nextProductId, nextCategoryId, nextCartId, k);
          RemoveByKey(categories, k, CategoryId);
          r := Ok(categories[k]);
          products := Categories.DetachCategory(products, id);
          categories := categories[..k] + categories[k + 1..];
          assert forall j :: 0 <= j < |categories| ==> categories[j] in categories;
      }
    }

    // ------------------------------------------------------------- reviews

    /** `create(userId, productId, rating, comment)`: the purchase guard,
        then the one-review guard, then the insert. */
    method CreateReview(userId: nat, productId: nat, rating: int, comment: string, now: nat)
      returns (r: Result<Review, Error>)
      requires Valid()
      modifies this
      ensures Valid()
      ensures State() == old(State()).(reviews := reviews, nextReviewId := nextReviewId)
      ensures match Reviews.ReviewGate(orders, old(reviews), userId, productId)
        case Some(e) => r == Err(e) && reviews == old(reviews) && nextReviewId == old(nextReviewId)
        case None =>
          var x := Review(old(nextReviewId), userId, productId, rating, comment, now);
          && r == Ok(x)
          && reviews == old(reviews) + [x]
          && nextReviewId == old(nextReviewId) + 1
      ensures r.Ok? ==> HasProduct(products, productId)
      ensures r.Ok? ==> Reviews.ReviewGate(orders, reviews, userId, productId) == Some(BadRequest(Reviews.AlreadyReviewedMessage))
    {
      var gate := Reviews.ReviewGate(orders, reviews, userId, productId);
      if gate.Some? {
        return Err(gate.value);
      }
      var x := Review(nextReviewId, userId, productId, rating, comment, now);
      InsertReviewKeepsIntegrity(products, categories, cart, orders, reviews, nextProductId, nextCategoryId, nextCartId, x);
      reviews := reviews + [x];
      nextReviewId := nextReviewId + 1;
      assert reviews[|reviews| - 1] == x;
      r := Ok(x);
    }
  }
}
