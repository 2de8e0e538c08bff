/**
 * The decision `UpdateOrderStatusHandler.execute`
 * (src/modules/orders/application/handlers/update-order-status.handler.ts) takes before its
 * single write: which order to store, or which exception to throw.
 */
module StatusWorkflow {
  import opened Wrappers
  import opened OrderEntity
  import opened Failures
  import ProductEntity
  import OrderPlacement
  import ItemReplacement

  /**
   * Missing and foreign orders both look not found; a DELIVERED or CANCELLED order is refused;
   * any other order takes the requested status, whatever it is.
   */
  function DecideStatus(orders: map<string, Order>, orderId: string, userId: string,
                        target: OrderStatus, now: int): (r: Result<Order, Failure>)
    ensures r.Err? <==> orderId !in orders || orders[orderId].userId != userId || IsTerminal(orders[orderId].status)
    ensures orderId !in orders || orders[orderId].userId != userId ==> r == Err(NotFound(OrderMissing))
    ensures orderId in orders && orders[orderId].userId == userId && IsTerminal(orders[orderId].status) ==>
              r == Err(BadRequest(NotUpdatable))
    ensures r.Ok? ==> r.value.status == target && r.value.updatedAt == now
    ensures r.Ok? ==>
              var o := orders[orderId];
              r.value.id == o.id && r.value.userId == o.userId && r.value.totalAmount == o.totalAmount
              && r.value.orderItems == o.orderItems && r.value.createdAt == o.createdAt
  {
    if orderId !in orders then Err(NotFound(OrderMissing))
    else
      var order := orders[orderId];
      if order.userId != userId then Err(NotFound(OrderMissing))
      else if !CanBeUpdated(order) then Err(BadRequest(NotUpdatable))
      else Ok(UpdateStatus(order, target, now))
  }

  /** A delivered or cancelled order is final: no request by anyone, to any status, changes it. */
  lemma TerminalOrdersAreFinal(orders: map<string, Order>, orderId: string, userId: string,
                               target: OrderStatus, now: int)
    requires orderId in orders && IsTerminal(orders[orderId].status)
    ensures DecideStatus(orders, orderId, userId, target, now).Err?
  {
  }

  /** There is no transition table: a live order reaches every status, PENDING included, and a terminal one none. */
  lemma EveryTargetFromLiveStatus(o: Order, orderId: string, target: OrderStatus, now: int)
    requires o.status in {Pending, Confirmed, Shipped}
    ensures var r := DecideStatus(map[orderId := o], orderId, o.userId, target, now);
            r.Ok? && r.value.status == target
  {
  }

  /** A requester cannot tell another user's order from a missing one. */
  lemma ForeignOrderLooksMissing(orders: map<string, Order>, orderId: string, userId: string,
                                 target: OrderStatus, now: int)
    requires orderId in orders && orders[orderId].userId != userId
    ensures DecideStatus(orders, orderId, userId, target, now)
            == DecideStatus(orders - {orderId}, orderId, userId, target, now)
  {
  }

  /**
   * The two order handlers disagree on a SHIPPED order and on another user's order: the status
   * update accepts the first and reports the second as missing, while item replacement refuses
   * the first and reports the second as forbidden.
   */
  lemma ShippedAndForeignAsymmetry(products: map<string, ProductEntity.Product>, o: Order, orderId: string,
                                   userId: string, target: OrderStatus, now: int,
                                   items: seq<OrderPlacement.ItemRequest>)
    ensures o.status == Shipped && o.userId == userId ==>
              && DecideStatus(map[orderId := o], orderId, userId, target, now).Ok?
              && ItemReplacement.ReplaceItems(products, map[orderId := o], orderId, userId, items).result
                 == Err(BadRequest(NotEditable(Shipped)))
    ensures o.userId != userId ==>
              && DecideStatus(map[orderId := o], orderId, userId, target, now) == Err(NotFound(OrderMissing))
              && ItemReplacement.ReplaceItems(products, map[orderId := o], orderId, userId, items).result == Err(Forbidden)
  {
  }
}
