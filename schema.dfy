/** The rows of the store's tables, the errors its services raise, and the
    lookups by id that the queries share. */
module Schema {
  import opened Wrappers

  /** A prisma `User` row; only its count is used by the core. */
  datatype User = User(id: nat, name: string, email: string, role: string)

  /** A catalogue product. `price` is in VND, which has no minor unit. Stock is
      an `int`: orders decrement it without any check, so it can go negative. */
  datatype Product = Product(
    id: nat,
    name: string,
    description: string,
    price: int,
    stock: int,
    imageUrl: string,
    categoryId: Option<nat>,
    createdAt: nat)

  datatype Category = Category(id: nat, name: string)

  /** One line of a user's cart. */
  datatype CartItem = CartItem(id: nat, userId: nat, productId: nat, quantity: int)

  /** One line of an order; `price` is the unit price copied at placement. */
  datatype OrderItem = OrderItem(id: nat, orderId: nat, productId: nat, quantity: int, price: int)

  /** An order with its items (the `orderItems` relation every order query
      includes). `status` is free text such as "pending" or "completed". */
  datatype Order = Order(
    id: nat,
    userId: nat,
    address: Option<string>,
    status: string,
    totalPrice: int,
    createdAt: nat,
    items: seq<OrderItem>)

  datatype Review = Review(id: nat, userId: nat, productId: nat, rating: int, comment: string, createdAt: nat)

  /** What the services throw. `Internal` is a plain `Error` (an HTTP 500),
      `NotFound` and `BadRequest` are the NestJS exceptions, and the last three
      are the Prisma client's own errors: a missing record on update or
      delete, a foreign-key violation, and an invalid query argument. */
  datatype Error =
    | Internal(message: string)
    | NotFound(message: string)
    | BadRequest(message: string)
    | RecordNotFound
    | ForeignKeyViolation(field: string)
    | InvalidArgument(argument: string)

  /** The two order statuses the services test for; `status` is otherwise
      free text. New orders start pending, and only completed orders count
      as purchases and as revenue. */
  const PendingStatus := "pending"
  const CompletedStatus := "completed"

  /** The `createdAt` sort keys of the three tables ordered newest first. */
  function ProductCreatedAt(p: Product): int { p.createdAt }
  function OrderCreatedAt(o: Order): int { o.createdAt }
  function ReviewCreatedAt(r: Review): int { r.createdAt }

  predicate HasProduct(products: seq<Product>, id: nat)
  {
    exists k :: 0 <= k < |products| && products[k].id == id
  }

  predicate HasCategory(categories: seq<Category>, id: nat)
  {
    exists k :: 0 <= k < |categories| && categories[k].id == id
  }

  /** The position of the product row with primary key `id` (`findUnique`). */
  function ProductIndex(products: seq<Product>, id: nat): (k: nat)
    requires HasProduct(products, id)
    ensures k < |products| && products[k].id == id
    ensures forall j :: 0 <= j < k ==> products[j].id != id
  {
    if products[0].id == id then 0
    else
      assert HasProduct(products[1..], id) by {
        var k :| 0 <= k < |products| && products[k].id == id;
        assert products[1..][k - 1].id == id;
      }
      1 + ProductIndex(products[1..], id)
  }

  /** The position of the category row with primary key `id`, if any. */
  function CategoryIndex(categories: seq<Category>, id: nat): (r: Option<nat>)
    ensures r.Some? ==> r.value < |categories| && categories[r.value].id == id
    ensures r.Some? ==> forall j :: 0 <= j < r.value ==> categories[j].id != id
    ensures r.None? <==> !HasCategory(categories, id)
  {
    if categories == [] then None
    else if categories[0].id == id then Some(0)
    else
      match CategoryIndex(categories[1..], id)
      case None =>
        assert forall k :: 1 <= k < |categories| ==> categories[k] == categories[1..][k - 1];
        None
      case Some(k) => Some(k + 1)
  }

  /** The primary-key columns. */
  function ProductId(p: Product): nat { p.id }
  function CategoryId(c: Category): nat { c.id }
  function CartItemId(x: CartItem): nat { x.id }

  /** Every cart line names an existing product (the required relation
      `CartItem.product`). */
  predicate CartResolves(products: seq<Product>, cart: seq<CartItem>)
  {
    forall x :: x in cart ==> HasProduct(products, x.productId)
  }

  predicate ItemsResolve(products: seq<Product>, items: seq<OrderItem>)
  {
    forall i :: 0 <= i < |items| ==> HasProduct(products, items[i].productId)
  }

  predicate OrdersResolve(products: seq<Product>, orders: seq<Order>)
  {
    forall i :: 0 <= i < |orders| ==> ItemsResolve(products, orders[i].items)
  }

  predicate ReviewsResolve(products: seq<Product>, reviews: seq<Review>)
  {
    forall i :: 0 <= i < |reviews| ==> HasProduct(products, reviews[i].productId)
  }

  /** A product's optional category is an existing category. */
  predicate CategoriesResolve(categories: seq<Category>, products: seq<Product>)
  {
    forall k :: 0 <= k < |products| && products[k].categoryId.Some? ==>
      HasCategory(categories, products[k].categoryId.value)
  }

  /** Some row of some table still refers to product `id`. */
  predicate ProductReferenced(cart: seq<CartItem>, orders: seq<Order>, reviews: seq<Review>, id: nat)
  {
    || (exists i :: 0 <= i < |cart| && cart[i].productId == id)
    || (exists i, j :: 0 <= i < |orders| && 0 <= j < |orders[i].items| && orders[i].items[j].productId == id)
    || (exists i :: 0 <= i < |reviews| && reviews[i].productId == id)
  }
}
