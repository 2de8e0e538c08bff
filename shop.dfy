/**
 * The product and order tables as one store, and the four handlers that write to them:
 * `UpdateProductHandler`, `CreateOrderHandler`, `UpdateOrderStatusHandler` and
 * `UpdateOrderItemsHandler`. Each method is proved against the function that specifies it.
 */
module Shop {
  import opened Wrappers
  import opened OrderEntity
  import opened ProductEntity
  import opened Failures
  import opened OrderPlacement
  import ItemReplacement
  import StatusWorkflow

  /** `{ id, name }` of a saved product. */
  datatype ProductSummary = ProductSummary(id: string, name: string)

  /** `{ id, totalAmount }` of a saved order. */
  datatype Created = Created(id: string, totalAmount: int)

  /** `{ id, status }` of a saved order. */
  datatype StatusSummary = StatusSummary(id: string, status: OrderStatus)

  /** The `forEach` that seeds the delta map with the old items' quantities. */
  method SeedChanges(orderItems: seq<OrderItem>) returns (stockChanges: map<string, int>)
    ensures stockChanges == ItemReplacement.Credit(orderItems)
  {
    stockChanges := map[];
    var j := 0;
    while j < |orderItems|
      invariant 0 <= j <= |orderItems|
      invariant stockChanges == ItemReplacement.Credit(orderItems[..j])
    {
      var item := orderItems[j];
      assert orderItems[..j + 1][..j] == orderItems[..j];
      stockChanges := stockChanges[item.productId := ItemReplacement.Get(stockChanges, item.productId) + item.quantity];
      j := j + 1;
    }
    assert orderItems[..j] == orderItems;
  }

  /**
   * The validation loop over the new items: it debits the delta map, accumulates the lines and
   * the total, and stops at the first item that is unknown or would leave negative stock.
   */
  method ValidateItems(products: map<string, Product>, seed: map<string, int>, orderId: string, items: seq<ItemRequest>)
    returns (v: ItemReplacement.Validation)
    ensures v == ItemReplacement.Validate(products, seed, orderId, items)
  {
    var stockChanges := seed;
    var totalAmount := 0;
    var lines: seq<OrderItem> := [];
    var i := 0;
    while i < |items|
      invariant 0 <= i <= |items|
      invariant ItemReplacement.Validate(products, seed, orderId, items[..i])
                == ItemReplacement.Validation(stockChanges, lines, totalAmount, None)
    {
      var item := items[i];
      assert items[..i + 1][..i] == items[..i];
      if item.productId !in products {
        ItemReplacement.ValidateFailureSticks(products, seed, orderId, items, i + 1);
        return ItemReplacement.Validation(stockChanges, lines, totalAmount, Some(BadRequest(ProductMissing(item.productId))));
      }
      var product := products[item.productId];
      var currentStockChange := ItemReplacement.Get(stockChanges, item.productId);
      var finalStock := product.stock + currentStockChange - item.quantity;
      if finalStock < 0 {
        ItemReplacement.ValidateFailureSticks(products, seed, orderId, items, i + 1);
        return ItemReplacement.Validation(stockChanges, lines, totalAmount, Some(BadRequest(InsufficientStock(item.productId))));
      }
      stockChanges := stockChanges[item.productId := currentStockChange - item.quantity];
      totalAmount := totalAmount + product.price * item.quantity;
      lines := lines + [ItemReplacement.NewLine(orderId, item, product.price)];
      i := i + 1;
    }
    assert items[..i] == items;
    v := ItemReplacement.Validation(stockChanges, lines, totalAmount, None);
  }

  /**
   * The loop of increments over the delta map, applied to a staged copy of the catalogue; a
   * non-zero delta on a missing product abandons the copy.
   */
  method StageChanges(products: map<string, Product>, stockChanges: map<string, int>)
    returns (staged: Option<map<string, Product>>)
    ensures staged == ItemReplacement.ApplyChanges(products, stockChanges)
  {
    var copy := products;
    var todo := stockChanges.Keys;
    while todo != {}
      invariant todo <= stockChanges.Keys
      invariant forall k :: k in stockChanges && k !in todo && stockChanges[k] != 0 ==> k in products
      invariant copy == ItemReplacement.Bumped(products, stockChanges, stockChanges.Keys - todo)
      decreases |todo|
    {
      var k :| k in todo;
      var change := stockChanges[k];
      ghost var done := stockChanges.Keys - todo;
      if change != 0 {
        if k !in copy {
          assert !ItemReplacement.Applicable(products, stockChanges);
          return None;
        }
      }
      ItemReplacement.BumpedStep(products, stockChanges, done, k);
      if change != 0 {
        copy := copy[k := copy[k].(stock := copy[k].stock + change)];
      }
      todo := todo - {k};
      assert stockChanges.Keys - todo == done + {k};
    }
    assert stockChanges.Keys - todo == stockChanges.Keys;
    staged := Some(copy);
  }

  /**
   * Every row sits under its own id, no stock is negative, every order's total is the sum of
   * its lines' subtotals, and every stored order item has a quantity of at least 1.
   */
  predicate Consistent(products: map<string, Product>, orders: map<string, Order>)
  {
    CatalogueConsistent(products) && OrdersConsistent(orders)
  }

  /** Every product sits under its own id and has no negative stock. */
  predicate CatalogueConsistent(products: map<string, Product>)
  {
    forall k :: k in products ==> products[k].id == Some(k) && products[k].stock >= 0
  }

  /** Every order sits under its own id, totals its lines, and holds quantities of at least 1. */
  predicate OrdersConsistent(orders: map<string, Order>)
  {
    && (forall k :: k in orders ==> orders[k].id == Some(k) && orders[k].totalAmount == SumSubtotals(orders[k].orderItems))
    && (forall k, i :: k in orders && 0 <= i < |orders[k].orderItems| ==> orders[k].orderItems[i].quantity >= 1)
  }

  /** Replacing an order's items with a well-formed list keeps the tables consistent. */
  lemma ReplaceItemsKeepsConsistent(products: map<string, Product>, orders: map<string, Order>, orderId: string,
                                    userId: string, items: seq<ItemRequest>)
    requires Consistent(products, orders)
    requires WellFormed(items)
    ensures var r := ItemReplacement.ReplaceItems(products, orders, orderId, userId, items);
            Consistent(r.products, r.orders)
  {
    ReplaceItemsKeepsCatalogue(products, orders, orderId, userId, items);
    ReplaceItemsKeepsOrders(products, orders, orderId, userId, items);
  }

  /** The increments of a replacement keep every product under its id with no negative stock. */
  lemma ReplaceItemsKeepsCatalogue(products: map<string, Product>, orders: map<string, Order>, orderId: string,
                                   userId: string, items: seq<ItemRequest>)
    requires CatalogueConsistent(products) && OrdersConsistent(orders)
    ensures CatalogueConsistent(ItemReplacement.ReplaceItems(products, orders, orderId, userId, items).products)
  {
    var r := ItemReplacement.ReplaceItems(products, orders, orderId, userId, items);
    if r.result.Ok? {
      var stored := orders[orderId].orderItems;
      assert forall i :: 0 <= i < |stored| ==> stored[i].quantity >= 0;
      ItemReplacement.NeverNegative(products, orders, orderId, userId, items);
      forall k | k in r.products ensures r.products[k].id == Some(k) && r.products[k].stock >= 0 {
        assert ItemReplacement.OnlyStockDiffers(products[k], r.products[k]);
      }
    }
  }

  /** The rewritten order of a replacement keeps its id, totals its new lines and holds positive quantities. */
  lemma ReplaceItemsKeepsOrders(products: map<string, Product>, orders: map<string, Order>, orderId: string,
                                userId: string, items: seq<ItemRequest>)
    requires OrdersConsistent(orders)
    requires WellFormed(items)
    ensures OrdersConsistent(ItemReplacement.ReplaceItems(products, orders, orderId, userId, items).orders)
  {
    var r := ItemReplacement.ReplaceItems(products, orders, orderId, userId, items);
    if r.result.Ok? {
      var o := r.orders[orderId];
      ItemReplacement.NewItemsAtLivePrices(products, orders, orderId, userId, items);
      forall i | 0 <= i < |o.orderItems| ensures o.orderItems[i].quantity >= 1 {
        assert o.orderItems[i].quantity == items[i].quantity;
      }
      StoreOrderKeepsConsistent(orders, orderId, o);
      assert r.orders == orders[orderId := o];
    }
  }

  /** Storing an order under its own id, with a matching total and positive quantities, keeps the order table consistent. */
  lemma StoreOrderKeepsConsistent(orders: map<string, Order>, key: string, o: Order)
    requires OrdersConsistent(orders)
    requires o.id == Some(key) && o.totalAmount == SumSubtotals(o.orderItems)
    requires forall i :: 0 <= i < |o.orderItems| ==> o.orderItems[i].quantity >= 1
    ensures OrdersConsistent(orders[key := o])
  {
  }

  /** A successful run over well-formed items totals its lines and gives each a quantity of at least 1. */
  lemma PlacedLinesWellFormed(start: map<string, Product>, items: seq<ItemRequest>, now: int)
    requires WellFormed(items)
    requires Place(start, items, now).failure.None?
    ensures var run := Place(start, items, now);
            && run.total == SumSubtotals(run.lines)
            && forall i :: 0 <= i < |run.lines| ==> run.lines[i].quantity >= 1
  {
    var run := Place(start, items, now);
    PlaceTotal(start, items, now);
    forall i | 0 <= i < |run.lines| ensures run.lines[i].quantity >= 1 {
      assert run.lines[i].quantity == items[i].quantity;
    }
  }

  /** The order saved from such lines carries its id, the sum of its subtotals, and positive quantities. */
  lemma LinkedOrderWellFormed(userId: string, lines: seq<OrderItem>, total: int, newId: string, now: int)
    requires total == SumSubtotals(lines)
    requires forall i :: 0 <= i < |lines| ==> lines[i].quantity >= 1
    ensures var o := OrderEntity.CreateOrder(userId, LinkItems(lines, newId), Some(total), now).(id := Some(newId));
            && o.id == Some(newId) && o.totalAmount == SumSubtotals(o.orderItems)
            && forall i :: 0 <= i < |o.orderItems| ==> o.orderItems[i].quantity >= 1
  {
    LinkKeepsSubtotals(lines, newId);
  }

  /** Saving the order of a successful run under a fresh id keeps the tables consistent. */
  lemma SavedOrderKeepsConsistent(start: map<string, Product>, products: map<string, Product>,
                                  orders: map<string, Order>, userId: string, items: seq<ItemRequest>,
                                  newId: string, now: int)
    requires Consistent(products, orders)
    requires WellFormed(items)
    requires Place(start, items, now).failure.None?
    ensures var run := Place(start, items, now);
            Consistent(products, orders[newId := OrderEntity.CreateOrder(userId, LinkItems(run.lines, newId), Some(run.total), now).(id := Some(newId))])
  {
    var run := Place(start, items, now);
    PlacedLinesWellFormed(start, items, now);
    LinkedOrderWellFormed(userId, run.lines, run.total, newId, now);
    StoreOrderKeepsConsistent(orders, newId,
                              OrderEntity.CreateOrder(userId, LinkItems(run.lines, newId), Some(run.total), now).(id := Some(newId)));
  }

  class Store {
    var products: map<string, Product>
    var orders: map<string, Order>

    ghost predicate Valid()
      reads this
    {
      Consistent(products, orders)
    }

    /** An empty store. */
    constructor ()
      ensures Valid()
      ensures products == map[] && orders == map[]
    {
      products := map[];
      orders := map[];
    }

    /**
     * `UpdateProductHandler.execute`: an unknown id is not found and nothing is written;
     * otherwise the stored product becomes `existing.update(...)`.
     */
    method UpdateProduct(id: string, name: Option<string>, description: Option<Option<string>>,
                         price: Option<int>, stock: Option<int>, isActive: Option<bool>, now: int)
      returns (r: Result<ProductSummary, Failure>)
      requires Valid()
      requires price.Some? ==> price.value >= 0
      requires stock.Some? ==> stock.value >= 0
      modifies this
      ensures Valid()
      ensures orders == old(orders)
      ensures id !in old(products) ==> r == Err(NotFound(ProductMissing(id))) && products == old(products)
      ensures id in old(products) ==>
                var saved := ProductEntity.Update(old(products)[id], name, description, price, stock, isActive, now);
                && products == old(products)[id := saved]
                && r == Ok(ProductSummary(id, saved.name))
    {
      if id !in products {
        return Err(NotFound(ProductMissing(id)));
      }
      var existing := products[id];
      var updated := ProductEntity.Update(existing, name, description, price, stock, isActive, now);
      products := products[id := updated];
      r := Ok(ProductSummary(id, updated.name));
    }

    /**
     * The item loop of `CreateOrderHandler.execute`: each item is checked against the current
     * catalogue and, once accepted, its new stock is written at once through `UpdateProduct`;
     * the first failing item ends the loop, keeping the writes already made.
     */
    method PlaceItems(items: seq<ItemRequest>, now: int) returns (run: Placement)
      requires Valid()
      modifies this
      ensures Valid()
      ensures run == Place(old(products), items, now)
      ensures products == run.products && orders == old(orders)
    {
      var lines: seq<OrderItem> := [];
      var totalAmount := 0;
      var i := 0;
      while i < |items|
        invariant 0 <= i <= |items|
        invariant Valid()
        invariant orders == old(orders)
        invariant Place(old(products), items[..i], now) == Placement(products, lines, totalAmount, None)
      {
        var item := items[i];
        var failure := CheckItem(products, item);
        if failure.Some? {
          PlaceStep(old(products), items, i, now);
          FailureSticks(old(products), items, i + 1, now);
          return Placement(products, lines, totalAmount, failure);
        }
        PlaceAccepts(old(products), items, i, now, products, lines, totalAmount);
        var product := products[item.productId];
        lines := lines + [Line(item, product.price)];
        totalAmount := totalAmount + product.price * item.quantity;
        var newStock := product.stock - item.quantity;
        ghost var expected := Place(old(products), items[..i + 1], now);
        var dispatched := UpdateProduct(item.productId, None, None, None, Some(newStock), None, now);
        assert products == expected.products;
        i := i + 1;
      }
      assert items[..i] == items;
      run := Placement(products, lines, totalAmount, None);
    }

    /**
     * `CreateOrderHandler.execute`: the item loop, then, only when every item was accepted, one
     * save of a PENDING order for the user with the accumulated total, under `newId`, its lines
     * linked to it. A failure keeps the stock writes already made.
     */
    method CreateOrder(userId: string, items: seq<ItemRequest>, newId: string, now: int)
      returns (r: Result<Created, Failure>)
      requires Valid()
      requires WellFormed(items)
      requires newId !in orders
      modifies this
      ensures Valid()
      ensures var run := Place(old(products), items, now);
              && products == run.products
              && (r.Ok? <==> run.failure.None?)
              && (r.Err? ==> r == Err(run.failure.value) && orders == old(orders))
              && (r.Ok? ==>
                    && r.value == Created(newId, run.total)
                    && orders == old(orders)[newId := OrderEntity.CreateOrder(userId, LinkItems(run.lines, newId), Some(run.total), now).(id := Some(newId))])
    {
      var run := PlaceItems(items, now);
      if run.failure.Some? {
        return Err(run.failure.value);
      }
      SavedOrderKeepsConsistent(old(products), products, orders, userId, items, newId, now);
      var order := OrderEntity.CreateOrder(userId, LinkItems(run.lines, newId), Some(run.total), now).(id := Some(newId));
      orders := orders[newId := order];
      r := Ok(Created(newId, run.total));
    }

    /**
     * `UpdateOrderStatusHandler.execute`: stores the order `DecideStatus` yields and returns its
     * id and status; on a failure nothing is written.
     */
    method UpdateOrderStatus(orderId: string, userId: string, target: OrderStatus, now: int)
      returns (r: Result<StatusSummary, Failure>)
      requires Valid()
      modifies this
      ensures Valid()
      ensures products == old(products)
      ensures var d := StatusWorkflow.DecideStatus(old(orders), orderId, userId, target, now);
              && (d.Err? ==> r == Err(d.error) && orders == old(orders))
              && (d.Ok? ==> r == Ok(StatusSummary(orderId, target)) && orders == old(orders)[orderId := d.value])
    {
      var decision := StatusWorkflow.DecideStatus(orders, orderId, userId, target, now);
      if decision.Err? {
        return Err(decision.error);
      }
      orders := orders[orderId := decision.value];
      r := Ok(StatusSummary(orderId, decision.value.status));
    }

    /**
     * `UpdateOrderItemsHandler.execute`: the guards, the seeded delta map, the validation loop
     * and the increments all run against a staged copy; the store is written only at the end,
     * so a failure anywhere leaves it as it was.
     */
    method UpdateOrderItems(orderId: string, userId: string, items: seq<ItemRequest>)
      returns (r: Result<string, Failure>)
      requires Valid()
      requires WellFormed(items)
      modifies this
      ensures Valid()
      ensures var spec := ItemReplacement.ReplaceItems(old(products), old(orders), orderId, userId, items);
              r == spec.result && products == spec.products && orders == spec.orders
    {
      if orderId !in orders {
        return Err(NotFound(OrderMissing));
      }
      var order := orders[orderId];
      if order.userId != userId {
        return Err(Forbidden);
      }
      if order.status != Pending && order.status != Confirmed {
        return Err(BadRequest(NotEditable(order.status)));
      }

      var stockChanges := SeedChanges(order.orderItems);
      var validation := ValidateItems(products, stockChanges, orderId, items);
      if validation.failure.Some? {
        return Err(validation.failure.value);
      }
      var applied := StageChanges(products, validation.changes);
      if applied.None? {
        return Err(RecordMissing);
      }
      var staged := applied.value;
      var totalAmount := validation.total;
      var lines := validation.lines;

      products := staged;
      orders := orders[orderId := order.(totalAmount := totalAmount, orderItems := lines)];
      r := Ok(orderId);
      ReplaceItemsKeepsConsistent(old(products), old(orders), orderId, userId, items);
    }
  }
}
