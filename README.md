# A verified model of the ecommerce-website backend core

The backend is a NestJS service over a Prisma database. It holds its state in
a few relational tables: users, products with stock, categories, cart items,
orders with their order items, and reviews. This project models those
tables and the service operations over them, and proves what the services
promise.

- **Shop** (`shop.dfy`) holds one `class Store`. It has a sequence field per
  table and an auto-increment counter per table other than users. Every service call that
  writes is a method of it:
  - the cart: add with merge, remove by id, clear;
  - order placement from the cart;
  - product create, update and remove;
  - category create, update and remove;
  - review create.

  Each method returns the service's value, or the exception it throws, as a
  `Result`. Each keeps the invariant `Valid()`: the ids of products,
  categories and cart rows are unique and below their counters, every
  required relation resolves, and there is one cart row per (user, product)
  and one review per (user, product). Order, order-item and review ids are
  handed out from their counters too, but their uniqueness is not part of
  the invariant. Each method states its whole new state as
  `State() == old(State()).(…)`, so it is explicit which tables a call
  leaves alone.
- **Pure modules** hold the code that only reads:
  - `CartTable`: per-user filtering, the merge lookup and per-product
    quantities.
  - `Orders`: the cart total, the items' price snapshot, the stock after
    placement, and `findByUser`.
  - `Catalog`: the `findAll` filter, order and page window, and `findOne`.
  - `Categories`: `findAll` and the `SetNull` effect of a delete.
  - `Reviews`: the two guards, `findByProduct` and `getProductStats`.
  - `Payments`: the amount to charge, the payment-intent request, and the
    webhook's control flow. Stripe is passed in as a function.
  - `Dashboard`: the admin statistics.
- **Shared helpers** are `Seqs` (filter, stable newest-first sort, skip/take
  window), `Text` (ASCII case folding, decimal rendering of ids), `Schema`
  (the rows, the errors and the reference predicates) and `Wrappers`.

Conventions of the model:
- Ids and timestamps are `nat`.
- The clock is a `now` parameter.
- Prices are integral VND: the currency has no minor unit, so every amount
  is an `int`.
- Stock is an `int`. Placing an order takes stock with no sufficiency check,
  so stock can go negative, as the code allows (`Orders.OversellIsPossible`).
- The `address` argument of order placement is accepted but not stored. The
  order's address is always `None`.
- `removeItem` deletes the cart row with the given id whoever owns it, as the
  code does.

`backend/prisma/schema.prisma` is not part of this model. The schema it
would define is assumed as follows:
- The required relations of cart items, order items and reviews to products
  block the deletion of a referenced product (Prisma's default `Restrict`).
- The optional product-to-category relation is `onDelete: SetNull`, as the
  comment at categories.service.ts:33-34 says.
- Category names are not unique.
- `Order.address` is nullable. `createOrderFromCart` does not pass the
  address to `order.create`, so the insert succeeds with no address.
- A negative `skip` is rejected by the query layer (`InvalidArgument`).
- A delete of a missing row is Prisma's record-not-found error.

## Model

| member | source | states |
|---|---|---|
| Shop.Store.AddToCart | backend/src/cart/cart.service.ts:8-22 | If the user already has a row for the product, that row's quantity grows by `quantity` and no row is added. Otherwise a row with the next id and the given quantity (default 1) is inserted, or a product that does not exist is rejected by the foreign key. The user's total quantity of the product rises by exactly `quantity`; every other (user, product) total and every other row is unchanged; one row per pair is kept; only the cart and its counter change. |
| CartTable.QtyOfUpdate | backend/src/cart/cart.service.ts:14-17 | Rewriting one row changes each per-user quantity by the difference of the two rows' contributions, and by nothing else. |
| CartTable.QtyOfAppend | backend/src/cart/cart.service.ts:19-21 | Inserting a row adds its contribution to the quantity of its own (user, product) and to no other. |
| CartTable.QtyOfUnique | backend/src/cart/cart.service.ts:9-17 | With one row per (user, product), the user's quantity of the product is that row's quantity. |
| CartTable.FindRow | backend/src/cart/cart.service.ts:9-11 | `findFirst`: the first row of the user for the product, or none when no row matches. |
| CartTable.GetCart | backend/src/cart/cart.service.ts:24-29 | Holds exactly the rows whose userId is the user's. |
| CartTable.FindById | backend/src/cart/cart.service.ts:31-32 | The position of the row with that id, or none when no row has it. |
| Shop.Store.RemoveItem | backend/src/cart/cart.service.ts:31-33 | A missing id is a record-not-found error and changes nothing. Otherwise exactly the row with that id is deleted and returned: the rows left are the old rows with another id. Only the cart changes. |
| CartTable.WithoutUser | backend/src/cart/cart.service.ts:35-37 | `deleteMany` by user leaves exactly the rows of the other users. |
| Shop.Store.ClearCart | backend/src/cart/cart.service.ts:35-37 | Deletes the user's rows and returns their count. Afterwards the user has no rows, every other user's cart is as it was, and only the cart changes. |
| CartTable.ClearCartSeparatesUsers | backend/src/cart/cart.service.ts:35-37 | After clearing user u's cart, u has no rows and any other user's cart is unchanged. |
| CartTable.ClearCartIdempotent | backend/src/cart/cart.service.ts:35-37 | Clearing a cart twice leaves the same table as clearing it once. |
| Shop.Store.CreateOrderFromCart | backend/src/orders/orders.service.ts:8-46 | An empty cart fails with "Cart is empty" and leaves the whole store unchanged. Otherwise it returns the new pending order of the caller, with no address and priced at the cart total. The order is appended. Each product's stock drops by the summed quantity of the cart's lines for it. The user's cart rows are deleted and other users' rows kept. It succeeds exactly when the payment amount can be computed for the same cart, and the order's total is that amount. Users, categories and reviews do not change. |
| Orders.NewOrder | backend/src/orders/orders.service.ts:18-31 | The inserted order: the caller's id, status "pending", no address, total = Σ quantity × price over the cart, items = the snapshot, and the total equals the sum over its own items. Every item names an existing product. |
| Orders.Snapshot | backend/src/orders/orders.service.ts:23-29 | One item per cart line, in order, with the line's product and quantity, the product's current price, and consecutive ids from `firstId` on. |
| Orders.PriceOf | backend/src/orders/orders.service.ts:16 | The price of the product row with that id (`it.product.price`). |
| Orders.SnapshotTotal | backend/src/orders/orders.service.ts:16-28 | The stored total equals Σ quantity × price over the stored items. |
| Orders.SnapshotDependsOnPricesOnly | backend/src/orders/orders.service.ts:27 | The snapshot and the total depend on the cart products' prices only. |
| Shop.Store.InsertOrder | backend/src/orders/orders.service.ts:18-32 | Appends the order and advances the order counter by one and the item counter by the number of items. Nothing else changes. |
| Shop.Store.TakeStock | backend/src/orders/orders.service.ts:35-40 | The decrement loop leaves exactly the table `StockAfter` describes. Nothing but the product table changes. |
| Orders.StockAfter | backend/src/orders/orders.service.ts:35-40 | Each product's stock drops by the summed quantity of the lines for it. Every other column is kept, and products with no line are unchanged. |
| Orders.StockAfterSnoc | backend/src/orders/orders.service.ts:35-40 | One more line takes its quantity off the single row with its product id and leaves the other rows alone. |
| Orders.StockAfterKeepsCategories | backend/src/orders/orders.service.ts:36-39 | Taking stock leaves every category reference resolvable. |
| Orders.OversellIsPossible | backend/src/orders/orders.service.ts:34-40 | With no sufficiency check, one unit in stock and two in the cart leave stock -1. |
| CartTable.QtyOfIsQtyInCart | backend/src/orders/orders.service.ts:9-12 | The user's quantity of a product is the summed quantity of that product over the cart lines that order placement reads. |
| Orders.FindByUser | backend/src/orders/orders.service.ts:48-54 | Exactly the user's orders, each with its multiplicity, newest first. |
| Catalog.FindAll | backend/src/products/products.service.ts:10-22 | Defaults page 1 and page size 12. A negative skip is an error. Otherwise at most pageSize products, namely the window of the listing starting at (page-1)×pageSize. |
| Catalog.Listing | backend/src/products/products.service.ts:11-19 | The selected rows, newest first, with their multiplicities. |
| Catalog.ListingMembers | backend/src/products/products.service.ts:11-13 | With a non-empty category argument the listing holds exactly the products of a category whose name equals it ignoring case; without one it holds every product. |
| Catalog.FindAllPagesAreFilteredAndOrdered | backend/src/products/products.service.ts:15-19 | Every page is newest first and holds only products that pass the filter. |
| Catalog.ConsecutivePagesCoverListing | backend/src/products/products.service.ts:17-18 | Over the model's listing (ties kept in table order), pages 1..n of one size together are exactly the first n×pageSize products of the listing, in order. They neither overlap nor leave a gap. |
| Catalog.PagesReadArePages | backend/src/products/products.service.ts:17-18 | Reading pages 1..n through `findAll` is the concatenation of the windows at skip (k-1)×pageSize. |
| Catalog.ListingIsTheOnlyOrder | backend/src/products/products.service.ts:15-19 | When the selected products have pairwise distinct creation times, every newest-first arrangement of them is the listing, so the model's order is the one the database must return. |
| Catalog.PagesCoverListingInAnyOrder | backend/src/products/products.service.ts:15-19 | With distinct creation times, pages 1..n cut from whatever newest-first order the database uses on each call are exactly the first n×pageSize products of the listing: no overlap, no gap. |
| Seqs.PagesOfOneOrder | backend/src/products/products.service.ts:17-18 | When every call sees the same arrangement, the pages read one call at a time are the consecutive windows of that arrangement. |
| Catalog.TiedProductsHaveTwoOrders | backend/src/products/products.service.ts:19 | Two products with the same creation time have two different newest-first orders, so ties leave the order open. |
| Seqs.NewestFirstIsUnique | backend/src/products/products.service.ts:19 | Two newest-first arrangements of the same elements with distinct keys are equal. |
| Seqs.DistinctByPermutation | backend/src/products/products.service.ts:19 | Distinct keys survive any rearrangement of the elements. |
| Seqs.FirstPagesArePrefix | backend/src/products/products.service.ts:17-18 | The first n windows of size `size` concatenate to the first n×size elements. |
| Seqs.PagesCoverAll | backend/src/products/products.service.ts:17-18 | Once n×size reaches the length, the pages hold the whole sequence. |
| Seqs.SortNewestFirst | backend/src/products/products.service.ts:19 | The `orderBy createdAt desc` result is a permutation of its input, ordered newest first. |
| Seqs.Page | backend/src/products/products.service.ts:17-18 | The skip/take window: at most `take` elements, the ones starting at `skip`. |
| Seqs.FilterCounts | backend/src/orders/orders.service.ts:50 | A `where` filter keeps each selected row with its multiplicity and drops every other row. |
| Text.EqualsIgnoreCaseIsEquivalence | backend/src/products/products.service.ts:12 | Case-insensitive name equality is reflexive, symmetric and transitive, and it identifies a name with its lower-case form. |
| Text.EqualsIgnoreCaseCharwise | backend/src/products/products.service.ts:12 | Two names are equal ignoring case exactly when they have the same length and agree character by character after folding. |
| Text.ParseNatToString | backend/src/products/products.service.ts:27 | The id rendered in the not-found message reads back as the same id. |
| Text.NatToStringInjective | backend/src/products/products.service.ts:27 | Distinct ids render to distinct decimal strings, the part of the not-found message that varies. |
| Catalog.FindOne | backend/src/products/products.service.ts:24-30 | A missing id gives NotFound "Product with ID <id> not found". Otherwise the result is a row of the table with that id. |
| Schema.ProductIndex | backend/src/products/products.service.ts:25 | The first row with that id. |
| Shop.Store.CreateProduct | backend/src/products/products.service.ts:32-34 | A category id naming no category is a foreign-key error and changes nothing. Otherwise a product with the next id, the given columns and `now` is appended and returned. Afterwards `findOne` on its id returns it, the id was not used before, and only the product table and its counter change. |
| Shop.ApplyPatch | backend/src/products/products.service.ts:38-41 | The patched row keeps its id and creation time. Each given column is overwritten and each omitted column is kept. |
| Shop.Store.UpdateProduct | backend/src/products/products.service.ts:36-42 | A missing id fails with the `findOne` NotFound and changes nothing. A patched category naming no category is a foreign-key error. Otherwise only that row is rewritten, `findOne` then returns the patched row, and no other table changes. |
| Shop.Store.RemoveProduct | backend/src/products/products.service.ts:44-49 | A missing id fails with NotFound and changes nothing. A product still named by a cart row, an order item or a review cannot be deleted. Otherwise exactly that row is deleted and returned, other products are kept, and `findOne` then fails. |
| Categories.FindAll | backend/src/categories/categories.service.ts:8-10 | Every category, in table order. |
| Shop.Store.CreateCategory | backend/src/categories/categories.service.ts:13-17 | Appends and returns a category with the next id and the given name. Existing categories are unchanged, the id was not used before, and nothing else changes. |
| Schema.CategoryIndex | backend/src/categories/categories.service.ts:20 | The position of the first category with that id, or none exactly when there is no such category. |
| Shop.Store.UpdateCategory | backend/src/categories/categories.service.ts:19-27 | A missing id fails with NotFound "Category not found" and changes nothing. Otherwise only that category is renamed. |
| Shop.Store.RemoveCategory | backend/src/categories/categories.service.ts:29-38 | A missing id fails with NotFound and changes nothing. Otherwise exactly that category is deleted, and products that referred to it end with no category (null) while nothing else about them changes. |
| Categories.DetachCategory | backend/src/categories/categories.service.ts:33-37 | After a category is deleted, no product refers to it: those that did end with no category (null). Products that referred elsewhere are unchanged, and only the category column changes. |
| Reviews.ReviewGate | backend/src/reviews/reviews.service.ts:8-36 | Lets a review through exactly when the user has a completed order containing the product and has not reviewed it yet. The purchase check runs first: no purchase gives its error whatever reviews exist. |
| Reviews.OnlyCompletedOrdersQualify | backend/src/reviews/reviews.service.ts:13 | An order in any status other than "completed" never opens the gate. |
| Reviews.GateKeepsOneReviewPerPair | backend/src/reviews/reviews.service.ts:27-46 | A review the gate admits keeps at most one review per (user, product). |
| Shop.Store.CreateReview | backend/src/reviews/reviews.service.ts:8-47 | Returns the gate's error and changes nothing, or appends exactly one review with the given user, product, rating, comment and the next id. The product exists, a second attempt would be refused as a duplicate, and only the review table and its counter change. |
| Reviews.FindByProduct | backend/src/reviews/reviews.service.ts:49-63 | Exactly the product's reviews, each with its multiplicity, newest first. |
| Reviews.GetProductStats | backend/src/reviews/reviews.service.ts:64-75 | totalReviews is the number of the product's reviews. With none, both values are 0; otherwise the average is the exact mean of their ratings. |
| Reviews.Mean | backend/src/reviews/reviews.service.ts:67 | The mean times the count is the sum. |
| Payments.CalculateOrderAmount | backend/src/payments/payments.service.ts:23-44 | Fails with BadRequest exactly when the user's cart is empty. Otherwise the amount is Σ quantity × price over the cart: the same total order placement stores. |
| Payments.MathRound | backend/src/payments/payments.service.ts:43 | `Math.round`: the nearest integer, halves rounded up. |
| Payments.RoundIsIdentityOnIntegers | backend/src/payments/payments.service.ts:43 | Rounding leaves an integral total unchanged. |
| Payments.IntentRequest | backend/src/payments/payments.service.ts:51-61 | Stripe is sent the amount, currency "vnd", the user id in decimal and automatic payment methods on. |
| Payments.FailureMessage | backend/src/payments/payments.service.ts:70 | The first non-empty of `raw.message` and `message`, else the default text. Never empty. |
| Payments.CreatePaymentIntent | backend/src/payments/payments.service.ts:46-74 | An empty cart gives BadRequest "Stripe Error: Cart is empty, cannot create payment intent.". Otherwise it replies with Stripe's client secret and the computed amount, or with Stripe's failure message. Every failure is a BadRequest starting "Stripe Error: ". |
| Payments.HandleWebhook | backend/src/payments/payments.service.ts:77-127 | An unset secret and a failed signature check are BadRequests. Otherwise the branch taken matches the event type; no branch has access to the store. |
| Dashboard.CountStatusIsCardinality | backend/src/admin/dashboard.controller.ts:28-30 | The pending count is the number of orders whose status is exactly "pending", and at most the number of orders. |
| Dashboard.RevenueIsSumOfCompleted | backend/src/admin/dashboard.controller.ts:33-41 | Revenue is Σ totalPrice over the completed orders; other statuses contribute nothing. |
| Dashboard.NoCompletedOrderNoRevenue | backend/src/admin/dashboard.controller.ts:41 | With no completed order the revenue is 0. |
| Dashboard.GetStats | backend/src/admin/dashboard.controller.ts:17-50 | The three totals are the sizes of their tables. The pending count is the number of pending orders, at most totalOrders. The revenue is the completed orders' sum. |
| Shop.MergeRowKeepsIntegrity | backend/src/cart/cart.service.ts:14-17 | Rewriting a cart row with its id and (user, product) kept preserves integrity. |
| Shop.InsertRowKeepsIntegrity | backend/src/cart/cart.service.ts:19-21 | Inserting a row with the next id, for an existing product and a pair without a row, preserves integrity with the counter advanced. |
| Shop.ClearCartKeepsIntegrity | backend/src/cart/cart.service.ts:35-37 | Deleting one user's rows preserves integrity. |
| Shop.AppendOrderKeepsIntegrity | backend/src/orders/orders.service.ts:18-32 | Appending an order whose items name existing products preserves integrity. |
| Shop.RewriteProductsKeepsIntegrity | backend/src/orders/orders.service.ts:35-40 | Rewriting product rows with the same ids at the same positions preserves integrity when their categories resolve. |
| Shop.InsertProductKeepsIntegrity | backend/src/products/products.service.ts:32-34 | Inserting a product with the next id and a resolvable category preserves integrity. |
| Shop.UpdateProductKeepsIntegrity | backend/src/products/products.service.ts:38-41 | Rewriting one product with its id kept and a resolvable category preserves integrity. |
| Shop.RemoveProductKeepsIntegrity | backend/src/products/products.service.ts:46-48 | Deleting a product no row refers to preserves integrity. |
| Shop.InsertCategoryKeepsIntegrity | backend/src/categories/categories.service.ts:13-17 | Inserting a category with the next id preserves integrity. |
| Shop.RenameCategoryKeepsIntegrity | backend/src/categories/categories.service.ts:23-26 | Renaming a category preserves integrity. |
| Shop.RemoveCategoryKeepsIntegrity | backend/src/categories/categories.service.ts:33-37 | Deleting a category and detaching its products preserves integrity. |
| Shop.InsertReviewKeepsIntegrity | backend/src/reviews/reviews.service.ts:39-46 | A review the gate admits names an existing product, and inserting it preserves integrity. |
| Shop.ProductIndexIsUnique | backend/src/products/products.service.ts:25 | With unique ids, `findUnique` finds the one row with that id. |
| Shop.CategoryIndexIsUnique | backend/src/categories/categories.service.ts:20 | With unique ids, the category lookup finds the one row with that id. |

## Left out

- Joined rows (`include: { product }`, `orderItems`, the reviewer's name, `category`) are not part of the results. The model returns the rows themselves; an order carries its items.
- Foreign keys to users are not checked: a cart row, order or review may name any user id. The user table only feeds the dashboard count. Registration and authentication are not modelled.
- Text.Lower: case folding is ASCII only. The database's Unicode case-insensitive comparison is not modelled.
- Catalog.FindAll: the page size is a `nat` and the page an integer. A negative `take`, a fractional or non-numeric page, and JavaScript number limits are not modelled.
- Reviews.GetProductStats: the average is an exact `real` quotient, not a double.
- Integers are unbounded. Prisma's `Int` column width and JavaScript's 2^53 precision limit on totals are not modelled.
- The Stripe SDK (`paymentIntents.create`, `webhooks.constructEvent`) and the `STRIPE_WEBHOOK_SECRET` environment value are parameters. Console logging is left out.
- Concurrency and transactions are left out. Each call is one sequential step. The order placement's separate writes, which the code does without a transaction, are modelled as one atomic change.
- Catalog.ConsecutivePagesCoverListing and Catalog.PagesReadArePages: the model breaks `createdAt` ties in table order, the same way on every call, which the database does not promise. With tied creation times separate `findAll` calls may repeat or skip a product across a page boundary (`Catalog.TiedProductsHaveTwoOrders`). Without ties the pages cover the listing whatever order the database picks (`Catalog.PagesCoverListingInAnyOrder`).
- Payments.HandleWebhook: a thrown value without a `message` is modelled with the empty message. The code would print "Webhook Error: undefined" and the model gives "Webhook Error: ". The `||` chain of `FailureMessage` treats both alike.
- No modelled operation sets an order's status to "completed", because the services define no status update. From an empty store, `CreateReview` can succeed and dashboard revenue can be nonzero only for orders that reach the table by other means, such as `InsertOrder` with a completed order.
- Shop.Store.TakeStock: computes the decremented table in a local and writes it back once after the loop, rather than one row per iteration. The result is the same. The intermediate tables, which another request could observe, are not modelled.
- Shop.Store.CreateProduct and Shop.Store.UpdateProduct: `data: any` is modelled as the known columns. Payloads with unknown columns, wrong types or an explicit id, and the validation errors Prisma raises for them, are not modelled.
- Rejections that need `schema.prisma`, which is not part of this model, rest on the assumptions stated above: the product-delete `Restrict`, category `SetNull`, non-unique category names, and the errors for a negative skip and a missing row.
- Order status transitions, restocking, single-item checkout and the admin order listing are not modelled: the controllers call `updateStatus`, `findAllForAdmin`, `findOneForAdmin` and `createOrderFromSingleItem`, and `OrdersService` defines none of them.
- Image upload, the users service, the controllers, modules, seed and the frontend are routing, wiring, network proxies or UI, and are not modelled.
