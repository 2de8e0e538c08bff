/**
 * The read handlers of the orders module: `GetOrderByIdHandler` and `GetUserOrdersHandler`
 * (src/modules/orders/application/handlers/), with the projection they both return.
 */
module OrderQueries {
  import opened Wrappers
  import opened OrderEntity
  import opened Failures
  import opened OrderRepository

  datatype ItemView = ItemView(id: Option<string>, productId: string, quantity: int, price: int, subtotal: int)

  datatype OrderView = OrderView(
    id: Option<string>,
    userId: string,
    status: OrderStatus,
    totalAmount: int,
    itemCount: int,
    orderItems: seq<ItemView>,
    createdAt: int,
    updatedAt: int)

  datatype UserOrdersView = UserOrdersView(data: seq<OrderView>, pagination: PageInfo)

  /** `orderItems.map(item => ({ id, productId, quantity, price, subtotal }))`. */
  function ViewItems(items: seq<OrderItem>): (r: seq<ItemView>)
    ensures |r| == |items|
    ensures forall i :: 0 <= i < |items| ==>
      && r[i].id == items[i].id && r[i].productId == items[i].productId
      && r[i].quantity == items[i].quantity && r[i].price == items[i].price
      && r[i].subtotal == r[i].price * r[i].quantity
  {
    if |items| == 0 then []
    else
      var item := items[|items| - 1];
      ViewItems(items[..|items| - 1]) + [ItemView(item.id, item.productId, item.quantity, item.price, Subtotal(item))]
  }

  /** The units listed in a projection. */
  function ViewQuantities(views: seq<ItemView>): int
  {
    if |views| == 0 then 0 else ViewQuantities(views[..|views| - 1]) + views[|views| - 1].quantity
  }

  lemma {:induction false} ViewKeepsQuantities(items: seq<OrderItem>)
    ensures ViewQuantities(ViewItems(items)) == SumQuantities(items)
  {
    if |items| > 0 {
      var views := ViewItems(items);
      assert views[..|views| - 1] == ViewItems(items[..|items| - 1]);
      ViewKeepsQuantities(items[..|items| - 1]);
    }
  }

  /**
   * The object both read handlers return for one order: its fields copied, `itemCount` from
   * `getItemCount()`, which agrees with the units of the projected lines.
   */
  function ViewOrder(o: Order): (v: OrderView)
    ensures v.id == o.id && v.userId == o.userId && v.status == o.status && v.totalAmount == o.totalAmount
    ensures v.createdAt == o.createdAt && v.updatedAt == o.updatedAt
    ensures v.orderItems == ViewItems(o.orderItems) && |v.orderItems| == |o.orderItems|
    ensures v.itemCount == SumQuantities(o.orderItems) == ViewQuantities(v.orderItems)
    ensures forall i :: 0 <= i < |v.orderItems| ==> v.orderItems[i].subtotal == v.orderItems[i].price * v.orderItems[i].quantity
  {
    ViewKeepsQuantities(o.orderItems);
    OrderView(o.id, o.userId, o.status, o.totalAmount, ItemCount(o), ViewItems(o.orderItems), o.createdAt, o.updatedAt)
  }

  /**
   * `GetOrderByIdHandler.execute`: the order's view when it exists and belongs to the user;
   * the same not-found error when it is missing or someone else's.
   */
  function GetOrderById(orders: map<string, Order>, orderId: string, userId: string): (r: Result<OrderView, Failure>)
    ensures r.Ok? <==> orderId in orders && orders[orderId].userId == userId
    ensures r.Err? ==> r.error == NotFound(OrderMissing)
    ensures r.Ok? ==> r.value == ViewOrder(orders[orderId])
  {
    if orderId !in orders then Err(NotFound(OrderMissing))
    else if orders[orderId].userId != userId then Err(NotFound(OrderMissing))
    else Ok(ViewOrder(orders[orderId]))
  }

  /** Another user's order cannot be told apart from a missing one. */
  lemma ForeignOrderLooksMissing(orders: map<string, Order>, orderId: string, userId: string)
    requires orderId in orders && orders[orderId].userId != userId
    ensures GetOrderById(orders, orderId, userId) == GetOrderById(orders - {orderId}, orderId, userId)
  {
  }

  /** `result.data.map(...)`, one view per order, in order. */
  function ViewOrders(orders: seq<Order>): (r: seq<OrderView>)
    ensures |r| == |orders|
    ensures forall i :: 0 <= i < |orders| ==> r[i] == ViewOrder(orders[i])
  {
    if |orders| == 0 then [] else ViewOrders(orders[..|orders| - 1]) + [ViewOrder(orders[|orders| - 1])]
  }

  /**
   * `GetUserOrdersHandler.execute`: asks the repository for exactly the query's user, page and
   * limit, projects each order of the page and passes the counters through.
   */
  function GetUserOrders(rows: seq<Order>, userId: string, page: int, limit: int): (r: UserOrdersView)
    requires page >= 1 && limit >= 1
    ensures var repo := FindByUserId(rows, userId, Some(page), Some(limit));
            && r.pagination == repo.pagination
            && |r.data| == |repo.data|
            && forall i :: 0 <= i < |r.data| ==> r.data[i] == ViewOrder(repo.data[i])
  {
    var repo := FindByUserId(rows, userId, Some(page), Some(limit));
    UserOrdersView(ViewOrders(repo.data), repo.pagination)
  }

  /** The listing shows only the user's own orders, newest first, at most `limit` of them. */
  lemma UserOrdersAreOwnNewestFirst(rows: seq<Order>, userId: string, page: int, limit: int)
    requires page >= 1 && limit >= 1
    ensures var r := GetUserOrders(rows, userId, page, limit);
            && |r.data| <= limit
            && (forall i :: 0 <= i < |r.data| ==> r.data[i].userId == userId)
            && (forall i, j :: 0 <= i < j < |r.data| ==> r.data[i].createdAt >= r.data[j].createdAt)
  {
    FindByUserIdSelectsPage(rows, userId, Some(page), Some(limit));
    var repo := FindByUserId(rows, userId, Some(page), Some(limit));
    var r := GetUserOrders(rows, userId, page, limit);
    forall i, j | 0 <= i < j < |r.data| ensures r.data[i].createdAt >= r.data[j].createdAt {
      assert r.data[i] == ViewOrder(repo.data[i]) && r.data[j] == ViewOrder(repo.data[j]);
    }
  }
}
