/** The pure parts of `OrdersService` (backend/src/orders/orders.service.ts):
    the cart total, the order items' price snapshot, the stock left after the
    decrement loop, and `findByUser`. The state change itself is
    `Shop.Store.CreateOrderFromCart`. */
module Orders {
  import opened Wrappers
  import opened Seqs
  import opened Schema
  import opened CartTable

  /** The message of the plain `Error` thrown for an empty cart. */
  const CartEmptyMessage := "Cart is empty"

  /** The current price of product `id` (the `include: { product: true }` join). */
  function PriceOf(products: seq<Product>, id: nat): (price: int)
    requires HasProduct(products, id)
    ensures exists k :: 0 <= k < |products| && products[k].id == id && products[k].price == price
  {
    products[ProductIndex(products, id)].price
  }

  /** Σ quantity × product.price over `rows`, the `reduce` at line 16. */
  function CartTotal(products: seq<Product>, rows: seq<CartItem>): int
    requires CartResolves(products, rows)
  {
    if rows == [] then 0
    else
      var n := |rows| - 1;
      CartTotal(products, rows[..n]) + rows[n].quantity * PriceOf(products, rows[n].productId)
  }

  /** Σ quantity × price over an order's own items. */
  function ItemsTotal(items: seq<OrderItem>): int
  {
    if items == [] then 0
    else
      var n := |items| - 1;
      ItemsTotal(items[..n]) + items[n].quantity * items[n].price
  }

  /** The items created with the order: one per cart line, in cart order,
      with the line's product and quantity and the product's price as it is
      now. Item ids are allocated from `firstId` on. */
  function Snapshot(products: seq<Product>, rows: seq<CartItem>, orderId: nat, firstId: nat): (items: seq<OrderItem>)
    requires CartResolves(products, rows)
    ensures |items| == |rows|
    ensures forall i :: 0 <= i < |rows| ==>
      && items[i].id == firstId + i
      && items[i].orderId == orderId
      && items[i].productId == rows[i].productId
      && items[i].quantity == rows[i].quantity
      && items[i].price == PriceOf(products, rows[i].productId)
  {
    seq(|rows|, i requires 0 <= i < |rows| =>
      OrderItem(firstId + i, orderId, rows[i].productId, rows[i].quantity, PriceOf(products, rows[i].productId)))
  }

  /** The total stored on the order is the sum over the items it stores, so
      the order stays self-consistent whatever later happens to prices. */
  lemma {:induction false} SnapshotTotal(products: seq<Product>, rows: seq<CartItem>, orderId: nat, firstId: nat)
    requires CartResolves(products, rows)
    ensures ItemsTotal(Snapshot(products, rows, orderId, firstId)) == CartTotal(products, rows)
    decreases |rows|
  {
    if rows != [] {
      var n := |rows| - 1;
      SnapshotTotal(products, rows[..n], orderId, firstId);
      var items := Snapshot(products, rows, orderId, firstId);
      assert items[..n] == Snapshot(products, rows[..n], orderId, firstId);
    }
  }

  /** The snapshot depends on the prices only: two catalogues that agree on
      the price of every product in the cart give the same items and total. */
  lemma {:induction false} SnapshotDependsOnPricesOnly(p1: seq<Product>, p2: seq<Product>, rows: seq<CartItem>, orderId: nat, firstId: nat)
    requires CartResolves(p1, rows) && CartResolves(p2, rows)
    requires forall i :: 0 <= i < |rows| ==> PriceOf(p1, rows[i].productId) == PriceOf(p2, rows[i].productId)
    ensures Snapshot(p1, rows, orderId, firstId) == Snapshot(p2, rows, orderId, firstId)
    ensures CartTotal(p1, rows) == CartTotal(p2, rows)
    decreases |rows|
  {
    if rows != [] {
      var n := |rows| - 1;
      SnapshotDependsOnPricesOnly(p1, p2, rows[..n], orderId, firstId);
    }
  }

  /** The order row `createOrderFromCart` inserts for the user's cart lines
      `rows`: pending, without an address, priced at the cart total. */
  function NewOrder(products: seq<Product>, rows: seq<CartItem>, userId: nat, orderId: nat, firstItemId: nat, now: nat): (o: Order)
    requires CartResolves(products, rows)
    ensures o.id == orderId && o.userId == userId && o.address == None
    ensures o.status == PendingStatus && o.createdAt == now
    ensures o.totalPrice == CartTotal(products, rows)
    ensures o.items == Snapshot(products, rows, orderId, firstItemId)
    ensures o.totalPrice == ItemsTotal(o.items)
    ensures ItemsResolve(products, o.items)
  {
    SnapshotTotal(products, rows, orderId, firstItemId);
    Order(orderId, userId, None, PendingStatus, CartTotal(products, rows), now, Snapshot(products, rows, orderId, firstItemId))
  }

  /** The product table after the loop at lines 35-40: each product's stock
      drops by the summed quantity of the lines for it, with no sufficiency
      check; every other column stays. */
  function StockAfter(products: seq<Product>, rows: seq<CartItem>): (r: seq<Product>)
    ensures |r| == |products|
    ensures forall k :: 0 <= k < |products| ==> r[k].id == products[k].id
    ensures forall k :: 0 <= k < |products| ==> r[k] == products[k].(stock := r[k].stock)
    ensures forall k :: 0 <= k < |products| ==> r[k].stock == products[k].stock - QtyIn(rows, products[k].id)
    ensures forall k :: 0 <= k < |products| && QtyIn(rows, products[k].id) == 0 ==> r[k] == products[k]
  {
    seq(|products|, k requires 0 <= k < |products| =>
      products[k].(stock := products[k].stock - QtyIn(rows, products[k].id)))
  }

  /** A table whose rows are the old rows with exactly the stock
      decrements is the table `StockAfter` describes. */
  lemma StockAfterIsUnique(products: seq<Product>, rows: seq<CartItem>, r: seq<Product>)
    requires |r| == |products|
    requires forall k :: 0 <= k < |products| ==>
      r[k] == products[k].(stock := products[k].stock - QtyIn(rows, products[k].id))
    ensures r == StockAfter(products, rows)
  {
  }

  /** One more cart line takes its quantity off the one product row with
      its id and leaves every other row alone: the loop's step. */
  lemma StockAfterSnoc(products: seq<Product>, rows: seq<CartItem>, line: CartItem, k: nat)
    requires DistinctBy(products, ProductId) && k < |products| && products[k].id == line.productId
    ensures
      var cur := StockAfter(products, rows);
      StockAfter(products, rows + [line]) == cur[k := cur[k].(stock := cur[k].stock - line.quantity)]
  {
    var cur := StockAfter(products, rows);
    var next := StockAfter(products, rows + [line]);
    forall m | 0 <= m < |products|
      ensures next[m] == cur[k := cur[k].(stock := cur[k].stock - line.quantity)][m]
    {
      QtyInSnoc(rows, line, products[m].id);
      if m != k {
        assert ProductId(products[m]) != ProductId(products[k]);
      }
    }
  }

  /** Taking stock touches no category reference. */
  lemma StockAfterKeepsCategories(categories: seq<Category>, products: seq<Product>, rows: seq<CartItem>)
    requires CategoriesResolve(categories, products)
    ensures CategoriesResolve(categories, StockAfter(products, rows))
  {
    var r := StockAfter(products, rows);
    forall k | 0 <= k < |r| && r[k].categoryId.Some? ensures HasCategory(categories, r[k].categoryId.value) {
      assert r[k].categoryId == products[k].categoryId;
    }
  }

  /** Nothing stops an order from taking stock below zero: one unit in stock
      and two in the cart leave -1. */
  lemma OversellIsPossible()
    ensures
      var p := Product(1, "Sneaker", "", 100, 1, "", None, 0);
      var line := CartItem(1, 7, 1, 2);
      StockAfter([p], [line])[0].stock == -1
  {
    var line := CartItem(1, 7, 1, 2);
    assert [line][..0] == [];
  }

  /** Selector for user `u`'s orders. */
  function UserOrder(u: nat): Order -> bool { (o: Order) => o.userId == u }

  /** `findByUser(userId)`: exactly the user's orders, newest first. */
  function FindByUser(orders: seq<Order>, u: nat): (r: seq<Order>)
    ensures forall o :: o in r <==> o in orders && o.userId == u
    ensures forall o :: multiset(r)[o] == if o.userId == u then multiset(orders)[o] else 0
    ensures NewestFirst(r, OrderCreatedAt)
  {
    var mine := Filter(orders, UserOrder(u));
    FilterCounts(orders, UserOrder(u));
    var r := SortNewestFirst(mine, OrderCreatedAt);
    assert forall o :: o in r <==> o in multiset(r);
    r
  }
}
