/** `DashboardController.getStats` (backend/src/admin/dashboard.controller.ts):
    table counts, the number of pending orders and the revenue of completed
    orders. A function of the tables, so it changes none of them. */
module Dashboard {
  import opened Seqs
  import opened Schema

  datatype DashboardStats = DashboardStats(
    totalUsers: nat, totalProducts: nat, totalOrders: nat, pendingOrders: nat, totalRevenue: int)

  /** `order.count({ where: { status } })`. */
  function CountStatus(orders: seq<Order>, status: string): nat
  {
    if orders == [] then 0
    else CountStatus(orders[..|orders| - 1], status) + (if orders[|orders| - 1].status == status then 1 else 0)
  }

  /** The positions of the orders with exactly that status. */
  ghost function PositionsWithStatus(orders: seq<Order>, status: string): set<nat>
  {
    set i: nat | i < |orders| && orders[i].status == status
  }

  /** The count is the number of orders whose status is exactly `status`. */
  lemma {:induction false} CountStatusIsCardinality(orders: seq<Order>, status: string)
    ensures CountStatus(orders, status) == |PositionsWithStatus(orders, status)|
    ensures CountStatus(orders, status) <= |orders|
  {
    if orders != [] {
      var n := |orders| - 1;
      CountStatusIsCardinality(orders[..n], status);
      var before := PositionsWithStatus(orders[..n], status);
      if orders[n].status == status {
        assert PositionsWithStatus(orders, status) == before + {n};
      } else {
        assert PositionsWithStatus(orders, status) == before;
      }
    }
  }

  /** Σ totalPrice over the orders with status "completed" (`_sum` with
      `|| 0`: an empty sum is 0). */
  function Revenue(orders: seq<Order>): int
  {
    if orders == [] then 0
    else
      var n := |orders| - 1;
      Revenue(orders[..n]) + (if orders[n].status == CompletedStatus then orders[n].totalPrice else 0)
  }

  function SumTotals(orders: seq<Order>): int
  {
    if orders == [] then 0 else SumTotals(orders[..|orders| - 1]) + orders[|orders| - 1].totalPrice
  }

  function IsCompleted(o: Order): bool { o.status == CompletedStatus }

  /** Revenue is the plain sum of the totals of the completed orders: orders
      in any other status contribute nothing. */
  lemma {:induction false} RevenueIsSumOfCompleted(orders: seq<Order>)
    ensures Revenue(orders) == SumTotals(Filter(orders, IsCompleted))
  {
    if orders != [] {
      var n := |orders| - 1;
      RevenueIsSumOfCompleted(orders[..n]);
      assert orders[..n] + [orders[n]] == orders;
      FilterSnoc(orders[..n], orders[n], IsCompleted);
      var done := Filter(orders[..n], IsCompleted);
      assert (done + [orders[n]])[..|done|] == done;
    }
  }

  /** With no completed order the revenue is 0. */
  lemma {:induction false} NoCompletedOrderNoRevenue(orders: seq<Order>)
    requires forall i :: 0 <= i < |orders| ==> orders[i].status != CompletedStatus
    ensures Revenue(orders) == 0
  {
    if orders != [] {
      NoCompletedOrderNoRevenue(orders[..|orders| - 1]);
    }
  }

  /** `getStats()`. */
  function GetStats(users: seq<User>, products: seq<Product>, orders: seq<Order>): (r: DashboardStats)
    ensures r.totalUsers == |users| && r.totalProducts == |products| && r.totalOrders == |orders|
    ensures r.pendingOrders == |PositionsWithStatus(orders, PendingStatus)|
    ensures r.pendingOrders <= r.totalOrders
    ensures r.totalRevenue == SumTotals(Filter(orders, IsCompleted))
  {
    CountStatusIsCardinality(orders, PendingStatus);
    RevenueIsSumOfCompleted(orders);
    DashboardStats(|users|, |products|, |orders|, CountStatus(orders, PendingStatus), Revenue(orders))
  }
}
