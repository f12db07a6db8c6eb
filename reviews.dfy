/** The pure parts of `ReviewsService` (backend/src/reviews/reviews.service.ts):
    the two guards that `create` runs before inserting (a completed purchase of
    the product, no earlier review by the user), `findByProduct` and
    `getProductStats`. The insert itself is `Shop.Store.CreateReview`. */
module Reviews {
  import opened Wrappers
  import opened Seqs
  import opened Schema

  const PurchaseRequiredMessage := "Bạn phải mua sản phẩm này trước khi có thể đánh giá."
  const AlreadyReviewedMessage := "Bạn đã đánh giá sản phẩm này rồi."

  predicate OrderContains(o: Order, p: nat)
  {
    exists j :: 0 <= j < |o.items| && o.items[j].productId == p
  }

  /** The first guard: some order of user `u` with status exactly "completed"
      has an item for product `p`. */
  predicate HasCompletedPurchase(orders: seq<Order>, u: nat, p: nat)
  {
    exists i :: 0 <= i < |orders| && orders[i].userId == u && orders[i].status == CompletedStatus && OrderContains(orders[i], p)
  }

  /** The second guard's query: user `u` has already reviewed product `p`. */
  predicate HasReviewed(reviews: seq<Review>, u: nat, p: nat)
  {
    exists i :: 0 <= i < |reviews| && reviews[i].userId == u && reviews[i].productId == p
  }

  /** At most one review per (user, product): what the second guard keeps. */
  ghost predicate OneReviewPerPair(reviews: seq<Review>)
  {
    DistinctBy(reviews, ReviewPair)
  }

  function ReviewPair(r: Review): (nat, nat) { (r.userId, r.productId) }

  /** The error `create` throws before inserting, if any. The purchase guard
      runs first, so a user who never completed a purchase of the product gets
      its error whether or not a review exists. */
  function ReviewGate(orders: seq<Order>, reviews: seq<Review>, u: nat, p: nat): (r: Option<Error>)
    ensures r.None? <==> HasCompletedPurchase(orders, u, p) && !HasReviewed(reviews, u, p)
    ensures !HasCompletedPurchase(orders, u, p) ==> r == Some(BadRequest(PurchaseRequiredMessage))
    ensures HasCompletedPurchase(orders, u, p) && HasReviewed(reviews, u, p) ==> r == Some(BadRequest(AlreadyReviewedMessage))
  {
    if !HasCompletedPurchase(orders, u, p) then Some(BadRequest(PurchaseRequiredMessage))
    else if HasReviewed(reviews, u, p) then Some(BadRequest(AlreadyReviewedMessage))
    else None
  }

  /** Orders in any status other than "completed" (pending, processing,
      cancelled, ...) never open the gate: adding one changes nothing. */
  lemma OnlyCompletedOrdersQualify(orders: seq<Order>, o: Order, reviews: seq<Review>, u: nat, p: nat)
    requires o.status != CompletedStatus
    ensures HasCompletedPurchase(orders + [o], u, p) <==> HasCompletedPurchase(orders, u, p)
    ensures ReviewGate(orders + [o], reviews, u, p) == ReviewGate(orders, reviews, u, p)
  {
    var all := orders + [o];
    if HasCompletedPurchase(all, u, p) {
      var i :| 0 <= i < |all| && all[i].userId == u && all[i].status == CompletedStatus && OrderContains(all[i], p);
      assert i < |orders| && orders[i] == all[i];
    }
    if HasCompletedPurchase(orders, u, p) {
      var i :| 0 <= i < |orders| && orders[i].userId == u && orders[i].status == CompletedStatus && OrderContains(orders[i], p);
      assert all[i] == orders[i];
    }
  }

  /** A review the gate lets through keeps one review per (user, product). */
  lemma GateKeepsOneReviewPerPair(orders: seq<Order>, reviews: seq<Review>, x: Review)
    requires OneReviewPerPair(reviews)
    requires ReviewGate(orders, reviews, x.userId, x.productId).None?
    ensures OneReviewPerPair(reviews + [x])
  {
    forall i | 0 <= i < |reviews| ensures ReviewPair(reviews[i]) != ReviewPair(x) {
      if ReviewPair(reviews[i]) == ReviewPair(x) {
        assert HasReviewed(reviews, x.userId, x.productId);
      }
    }
    DistinctByAppend(reviews, x, ReviewPair);
  }

  function OfProduct(p: nat): Review -> bool { (r: Review) => r.productId == p }

  /** `findByProduct(productId)`: exactly that product's reviews, newest first. */
  function FindByProduct(reviews: seq<Review>, p: nat): (r: seq<Review>)
    ensures forall x :: x in r <==> x in reviews && x.productId == p
    ensures forall x :: multiset(r)[x] == if x.productId == p then multiset(reviews)[x] else 0
    ensures NewestFirst(r, ReviewCreatedAt)
  {
    FilterCounts(reviews, OfProduct(p));
    var r := SortNewestFirst(Filter(reviews, OfProduct(p)), ReviewCreatedAt);
    assert forall x :: x in r <==> x in multiset(r);
    r
  }

  function RatingSum(reviews: seq<Review>): int
  {
    if reviews == [] then 0 else RatingSum(reviews[..|reviews| - 1]) + reviews[|reviews| - 1].rating
  }

  /** The result of `getProductStats`; the average is an exact quotient. */
  datatype ProductStats = ProductStats(averageRating: real, totalReviews: nat)

  /** `getProductStats(productId)`: the number of the product's reviews and
      the mean of their ratings, both 0 when there are none (`|| 0`). */
  function GetProductStats(reviews: seq<Review>, p: nat): (r: ProductStats)
    ensures r.totalReviews == |FindByProduct(reviews, p)|
    ensures r.totalReviews == |Filter(reviews, OfProduct(p))|
    ensures r.totalReviews == 0 ==> r.averageRating == 0.0
    ensures r.totalReviews > 0 ==>
      r.averageRating == Mean(RatingSum(Filter(reviews, OfProduct(p))), r.totalReviews)
  {
    var mine := Filter(reviews, OfProduct(p));
    var n := |mine|;
    if n == 0 then ProductStats(0.0, 0)
    else
      ProductStats(Mean(RatingSum(mine), n), n)
  }

  /** The exact mean of `n` ratings summing to `total`. */
  function Mean(total: int, n: nat): (avg: real)
    requires n > 0
    ensures avg * n as real == total as real
  {
    total as real / n as real
  }
}
