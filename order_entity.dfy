/**
 * The order aggregate: `OrderStatus`, `OrderItem` and `Order` as immutable records
 * with their derived quantities (src/modules/orders/domain/entities/).
 * Money is an integer number of cents; timestamps are opaque integers.
 */
module OrderEntity {
  import opened Wrappers

  datatype OrderStatus = Pending | Confirmed | Shipped | Delivered | Cancelled

  /** A line of an order. `id` and `orderId` are `undefined` until the database assigns them. */
  datatype OrderItem = OrderItem(
    id: Option<string>,
    orderId: Option<string>,
    productId: string,
    quantity: int,
    price: int)

  datatype Order = Order(
    id: Option<string>,
    userId: string,
    status: OrderStatus,
    totalAmount: int,
    orderItems: seq<OrderItem>,
    createdAt: int,
    updatedAt: int)

  /** `OrderItem.create(orderId, productId, quantity, price)`: the id is left to the database. */
  function CreateItem(orderId: Option<string>, productId: string, quantity: int, price: int): (item: OrderItem)
    ensures item.id.None?
    ensures item.orderId == orderId && item.productId == productId
    ensures item.quantity == quantity && item.price == price
  {
    OrderItem(None, orderId, productId, quantity, price)
  }

  /** The `subtotal` getter: derived from price and quantity, never stored. */
  function Subtotal(item: OrderItem): (r: int)
    ensures item.price >= 0 && item.quantity >= 0 ==> r >= 0
    ensures item.quantity == 0 ==> r == 0
  {
    item.price * item.quantity
  }

  /** `orderItems.reduce((total, item) => total + item.subtotal, 0)`, folded from the left. */
  function SumSubtotals(items: seq<OrderItem>): int
  {
    if |items| == 0 then 0
    else SumSubtotals(items[..|items| - 1]) + Subtotal(items[|items| - 1])
  }

  /** `orderItems.reduce((total, item) => total + item.quantity, 0)`, folded from the left. */
  function SumQuantities(items: seq<OrderItem>): int
  {
    if |items| == 0 then 0
    else SumQuantities(items[..|items| - 1]) + items[|items| - 1].quantity
  }

  /** The lines as the nested create of `save` stores them: each one linked to its order. */
  function LinkItems(items: seq<OrderItem>, orderId: string): (r: seq<OrderItem>)
    ensures |r| == |items|
    ensures forall i :: 0 <= i < |r| ==> r[i] == items[i].(orderId := Some(orderId))
  {
    if |items| == 0 then []
    else LinkItems(items[..|items| - 1], orderId) + [items[|items| - 1].(orderId := Some(orderId))]
  }

  /** Linking the lines to their order changes neither their subtotals nor their total. */
  lemma {:induction false} LinkKeepsSubtotals(items: seq<OrderItem>, orderId: string)
    ensures SumSubtotals(LinkItems(items, orderId)) == SumSubtotals(items)
  {
    if |items| > 0 {
      var linked := LinkItems(items, orderId);
      assert linked[..|linked| - 1] == LinkItems(items[..|items| - 1], orderId);
      LinkKeepsSubtotals(items[..|items| - 1], orderId);
    }
  }

  /** Summing distributes over concatenation: the total of a list built item by item. */
  lemma {:induction false} SumSubtotalsAppend(a: seq<OrderItem>, b: seq<OrderItem>)
    ensures SumSubtotals(a + b) == SumSubtotals(a) + SumSubtotals(b)
    decreases |b|
  {
    if |b| == 0 {
      assert a + b == a;
    } else {
      var b' := b[..|b| - 1];
      assert (a + b)[..|a + b| - 1] == a + b';
      SumSubtotalsAppend(a, b');
    }
  }

  lemma {:induction false} SumQuantitiesAppend(a: seq<OrderItem>, b: seq<OrderItem>)
    ensures SumQuantities(a + b) == SumQuantities(a) + SumQuantities(b)
    decreases |b|
  {
    if |b| == 0 {
      assert a + b == a;
    } else {
      var b' := b[..|b| - 1];
      assert (a + b)[..|a + b| - 1] == a + b';
      SumQuantitiesAppend(a, b');
    }
  }

  /** With non-negative prices and quantities no line can make the total negative. */
  lemma {:induction false} SumSubtotalsNonNegative(items: seq<OrderItem>)
    requires forall i :: 0 <= i < |items| ==> items[i].price >= 0 && items[i].quantity >= 0
    ensures SumSubtotals(items) >= 0
  {
    if |items| > 0 {
      SumSubtotalsNonNegative(items[..|items| - 1]);
      assert Subtotal(items[|items| - 1]) >= 0;
    }
  }

  /**
   * `Order.create(userId, orderItems, totalAmount?)`: always PENDING, id left to the database,
   * an explicit total used verbatim, otherwise the sum of the subtotals.
   */
  function CreateOrder(userId: string, orderItems: seq<OrderItem>, totalAmount: Option<int>, now: int): (o: Order)
    ensures o.id.None? && o.status == Pending
    ensures o.userId == userId && o.orderItems == orderItems
    ensures totalAmount.Some? ==> o.totalAmount == totalAmount.value
    ensures totalAmount.None? ==> o.totalAmount == SumSubtotals(orderItems)
    ensures o.createdAt == now && o.updatedAt == now
  {
    var amount := if totalAmount.Some? then totalAmount.value else SumSubtotals(orderItems);
    Order(None, userId, Pending, amount, orderItems, now, now)
  }

  /** A status from which the order can no longer move. */
  predicate IsTerminal(s: OrderStatus)
  {
    s == Delivered || s == Cancelled
  }

  /** `canBeCancelled()`: only PENDING and CONFIRMED orders, all of which can also be updated. */
  function CanBeCancelled(o: Order): (r: bool)
    ensures r ==> CanBeUpdated(o)
    ensures r <==> o.status in {Pending, Confirmed}
  {
    o.status == Pending || o.status == Confirmed
  }

  /** `canBeUpdated()`: every status except the terminal ones. */
  function CanBeUpdated(o: Order): (r: bool)
    ensures r <==> !IsTerminal(o.status)
    ensures r <==> o.status in {Pending, Confirmed, Shipped}
  {
    o.status != Delivered && o.status != Cancelled
  }

  /** SHIPPED is the one status that may be updated but not cancelled. */
  lemma CancellableIsStrictlySmaller(o: Order)
    ensures CanBeUpdated(o) && !CanBeCancelled(o) <==> o.status == Shipped
  {
  }

  /** `updateStatus(newStatus)`: a new order with that status and a fresh `updatedAt`; nothing else changes. */
  function UpdateStatus(o: Order, newStatus: OrderStatus, now: int): (r: Order)
    ensures r.status == newStatus && r.updatedAt == now
    ensures r.id == o.id && r.userId == o.userId && r.totalAmount == o.totalAmount
    ensures r.orderItems == o.orderItems && r.createdAt == o.createdAt
  {
    o.(status := newStatus, updatedAt := now)
  }

  /** `getItemCount()`: the number of units ordered, 0 for an empty order. */
  function ItemCount(o: Order): (r: int)
    ensures o.orderItems == [] ==> r == 0
    ensures (forall i :: 0 <= i < |o.orderItems| ==> o.orderItems[i].quantity >= 1) ==> r >= |o.orderItems|
  {
    QuantitiesAtLeastLength(o.orderItems);
    SumQuantities(o.orderItems)
  }

  lemma {:induction false} QuantitiesAtLeastLength(items: seq<OrderItem>)
    ensures (forall i :: 0 <= i < |items| ==> items[i].quantity >= 1) ==> SumQuantities(items) >= |items|
  {
    if |items| > 0 {
      QuantitiesAtLeastLength(items[..|items| - 1]);
    }
  }
}
