/** The cart table as `CartService` (backend/src/cart/cart.service.ts) reads
    it: per-user filtering, the `findFirst` lookup behind merge-on-add, the
    rows left by `deleteMany`, and per-product quantities. */
module CartTable {
  import opened Wrappers
  import opened Seqs
  import opened Schema

  /** Row selectors for user `u`'s rows and for everyone else's. */
  function OfUser(u: nat): CartItem -> bool { (x: CartItem) => x.userId == u }
  function NotOfUser(u: nat): CartItem -> bool { (x: CartItem) => x.userId != u }

  /** `getCart(userId)`: the rows of user `u`, in table order. */
  function GetCart(cart: seq<CartItem>, u: nat): (r: seq<CartItem>)
    ensures forall x :: x in r <==> x in cart && x.userId == u
  {
    Filter(cart, OfUser(u))
  }

  /** The table after `deleteMany({ where: { userId } })`. */
  function WithoutUser(cart: seq<CartItem>, u: nat): (r: seq<CartItem>)
    ensures forall x :: x in r <==> x in cart && x.userId != u
  {
    Filter(cart, NotOfUser(u))
  }

  /** At most one row per (user, product): the invariant merge-on-add keeps. */
  ghost predicate OneRowPerPair(cart: seq<CartItem>)
  {
    DistinctBy(cart, UserProduct)
  }

  function UserProduct(x: CartItem): (nat, nat) { (x.userId, x.productId) }

  /** `findFirst({ where: { userId, productId } })`: the first matching row. */
  function FindRow(cart: seq<CartItem>, u: nat, p: nat): (r: Option<nat>)
    ensures r.Some? ==> r.value < |cart| && cart[r.value].userId == u && cart[r.value].productId == p
    ensures r.Some? ==> forall k :: 0 <= k < r.value ==> !(cart[k].userId == u && cart[k].productId == p)
    ensures r.None? ==> forall k :: 0 <= k < |cart| ==> !(cart[k].userId == u && cart[k].productId == p)
  {
    if cart == [] then None
    else if cart[0].userId == u && cart[0].productId == p then Some(0)
    else
      match FindRow(cart[1..], u, p)
      case None => None
      case Some(k) => Some(k + 1)
  }

  /** The row with primary key `id`, if any (`delete({ where: { id } })`). */
  function FindById(cart: seq<CartItem>, id: nat): (r: Option<nat>)
    ensures r.Some? ==> r.value < |cart| && cart[r.value].id == id
    ensures r.None? ==> forall k :: 0 <= k < |cart| ==> cart[k].id != id
  {
    if cart == [] then None
    else if cart[0].id == id then Some(0)
    else
      match FindById(cart[1..], id)
      case None => None
      case Some(k) => Some(k + 1)
  }

  /** How much of product `p` row `x` puts in user `u`'s cart. */
  function Contribution(x: CartItem, u: nat, p: nat): int
  {
    if x.userId == u && x.productId == p then x.quantity else 0
  }

  /** The total quantity of product `p` in user `u`'s cart. */
  function QtyOf(cart: seq<CartItem>, u: nat, p: nat): int
  {
    if cart == [] then 0
    else QtyOf(cart[..|cart| - 1], u, p) + Contribution(cart[|cart| - 1], u, p)
  }

  /** The summed quantity of the lines of `rows` for product `p`. */
  function QtyIn(rows: seq<CartItem>, p: nat): int
  {
    if rows == [] then 0
    else QtyIn(rows[..|rows| - 1], p) + (if rows[|rows| - 1].productId == p then rows[|rows| - 1].quantity else 0)
  }

  lemma QtyInSnoc(rows: seq<CartItem>, line: CartItem, p: nat)
    ensures QtyIn(rows + [line], p) == QtyIn(rows, p) + (if line.productId == p then line.quantity else 0)
  {
    assert (rows + [line])[..|rows|] == rows;
  }

  /** Replacing one row changes each per-user quantity by the difference of
      the two rows' contributions, and by nothing else. */
  lemma {:induction false} QtyOfUpdate(cart: seq<CartItem>, i: nat, y: CartItem, u: nat, p: nat)
    requires i < |cart|
    ensures QtyOf(cart[i := y], u, p) == QtyOf(cart, u, p) - Contribution(cart[i], u, p) + Contribution(y, u, p)
    decreases |cart|
  {
    var n := |cart| - 1;
    if i == n {
      assert cart[i := y][..n] == cart[..n];
    } else {
      assert cart[i := y][..n] == cart[..n][i := y];
      QtyOfUpdate(cart[..n], i, y, u, p);
    }
  }

  lemma QtyOfAppend(cart: seq<CartItem>, y: CartItem, u: nat, p: nat)
    ensures QtyOf(cart + [y], u, p) == QtyOf(cart, u, p) + Contribution(y, u, p)
  {
    assert (cart + [y])[..|cart|] == cart;
  }

  lemma QtyOfUpdateAll(cart: seq<CartItem>, i: nat, y: CartItem)
    requires i < |cart|
    ensures forall u: nat, p: nat ::
      QtyOf(cart[i := y], u, p) == QtyOf(cart, u, p) - Contribution(cart[i], u, p) + Contribution(y, u, p)
  {
    forall u: nat, p: nat
      ensures QtyOf(cart[i := y], u, p) == QtyOf(cart, u, p) - Contribution(cart[i], u, p) + Contribution(y, u, p)
    {
      QtyOfUpdate(cart, i, y, u, p);
    }
  }

  lemma QtyOfAppendAll(cart: seq<CartItem>, y: CartItem)
    ensures forall u: nat, p: nat :: QtyOf(cart + [y], u, p) == QtyOf(cart, u, p) + Contribution(y, u, p)
  {
    forall u: nat, p: nat ensures QtyOf(cart + [y], u, p) == QtyOf(cart, u, p) + Contribution(y, u, p) {
      QtyOfAppend(cart, y, u, p);
    }
  }

  /** A user with no row for `p` holds none of it. */
  lemma {:induction false} QtyOfAbsent(cart: seq<CartItem>, u: nat, p: nat)
    requires forall k :: 0 <= k < |cart| ==> !(cart[k].userId == u && cart[k].productId == p)
    ensures QtyOf(cart, u, p) == 0
  {
    if cart != [] {
      QtyOfAbsent(cart[..|cart| - 1], u, p);
    }
  }

  /** With one row per pair, the user's quantity of `p` is that row's. */
  lemma {:induction false} QtyOfUnique(cart: seq<CartItem>, i: nat, u: nat, p: nat)
    requires i < |cart| && cart[i].userId == u && cart[i].productId == p
    requires OneRowPerPair(cart)
    ensures QtyOf(cart, u, p) == cart[i].quantity
  {
    var n := |cart| - 1;
    if i == n {
      QtyOfAbsent(cart[..n], u, p);
    } else {
      QtyOfUnique(cart[..n], i, u, p);
    }
  }

  /** The user's quantity of `p` is the summed quantity of `p` over the rows
      `getCart` returns: what order placement takes from stock. */
  lemma {:induction false} QtyOfIsQtyInCart(cart: seq<CartItem>, u: nat, p: nat)
    ensures QtyOf(cart, u, p) == QtyIn(GetCart(cart, u), p)
    decreases |cart|
  {
    if cart != [] {
      var n := |cart| - 1;
      var init, last := cart[..n], cart[n];
      QtyOfIsQtyInCart(init, u, p);
      assert init + [last] == cart;
      FilterSnoc(init, last, OfUser(u));
      var rows := GetCart(init, u);
      if last.userId == u {
        assert (rows + [last])[..|rows|] == rows;
      }
    }
  }

  /** After `clearCart(u)` the user has no rows, and every other user's cart
      is exactly what it was. */
  lemma {:induction false} ClearCartSeparatesUsers(cart: seq<CartItem>, u: nat, v: nat)
    ensures GetCart(WithoutUser(cart, u), u) == []
    ensures v != u ==> GetCart(WithoutUser(cart, u), v) == GetCart(cart, v)
    decreases |cart|
  {
    if cart != [] {
      var n := |cart| - 1;
      var init, last := cart[..n], cart[n];
      ClearCartSeparatesUsers(init, u, v);
      assert init + [last] == cart;
      FilterSnoc(init, last, NotOfUser(u));
      FilterSnoc(init, last, OfUser(v));
      var kept := WithoutUser(init, u);
      if last.userId != u {
        FilterSnoc(kept, last, OfUser(u));
        FilterSnoc(kept, last, OfUser(v));
      }
    }
  }

  /** Clearing a cart twice is the same as clearing it once. */
  lemma {:induction false} ClearCartIdempotent(cart: seq<CartItem>, u: nat)
    ensures WithoutUser(WithoutUser(cart, u), u) == WithoutUser(cart, u)
    decreases |cart|
  {
    if cart != [] {
      var n := |cart| - 1;
      var init, last := cart[..n], cart[n];
      ClearCartIdempotent(init, u);
      assert init + [last] == cart;
      FilterSnoc(init, last, NotOfUser(u));
      if last.userId != u {
        FilterSnoc(WithoutUser(init, u), last, NotOfUser(u));
      }
    }
  }
}
