/**
 * What `UpdateOrderItemsHandler.execute`
 * (src/modules/orders/application/handlers/update-order-items.handler.ts) does, as a function of
 * the catalogue and the order table it starts from. The whole body runs in one transaction, so
 * the outcome is either every write or none: every check comes before the first write, and a
 * write that fails part-way rolls the earlier ones back.
 */
module ItemReplacement {
  import opened Wrappers
  import opened OrderEntity
  import opened ProductEntity
  import opened Failures
  import OrderPlacement

  type ItemRequest = OrderPlacement.ItemRequest

  /** `stockChanges.get(productId) || 0`. */
  function Get(changes: map<string, int>, productId: string): int
  {
    if productId in changes then changes[productId] else 0
  }

  /** Units of `productId` held by the stored items of an order. */
  function Held(items: seq<OrderItem>, productId: string): int
  {
    if |items| == 0 then 0
    else
      var item := items[|items| - 1];
      Held(items[..|items| - 1], productId) + (if item.productId == productId then item.quantity else 0)
  }

  /** The delta map after the `forEach` over the old items: each old quantity is credited back. */
  function Credit(items: seq<OrderItem>): map<string, int>
  {
    if |items| == 0 then map[]
    else
      var changes := Credit(items[..|items| - 1]);
      var item := items[|items| - 1];
      changes[item.productId := Get(changes, item.productId) + item.quantity]
  }

  /** The seeded map holds, per product, the sum of its old quantities (duplicates summed), and nothing else. */
  lemma {:induction false} CreditHoldsOldQuantities(items: seq<OrderItem>)
    ensures forall k :: Get(Credit(items), k) == Held(items, k)
    ensures forall k :: k in Credit(items) <==> exists i :: 0 <= i < |items| && items[i].productId == k
  {
    if |items| > 0 {
      var init := items[..|items| - 1];
      CreditHoldsOldQuantities(init);
      forall k | k in Credit(items) ensures exists i :: 0 <= i < |items| && items[i].productId == k {
        if k != items[|items| - 1].productId {
          assert k in Credit(init);
          var i :| 0 <= i < |init| && init[i].productId == k;
          assert items[i] == init[i];
        }
      }
      forall k | exists i :: 0 <= i < |items| && items[i].productId == k ensures k in Credit(items) {
        var i :| 0 <= i < |items| && items[i].productId == k;
        if i < |init| {
          assert init[i] == items[i];
        }
      }
    }
  }

  /** Old quantities are credited, never debited. */
  lemma {:induction false} HeldNonNegative(items: seq<OrderItem>, productId: string)
    requires forall i :: 0 <= i < |items| ==> items[i].quantity >= 0
    ensures Held(items, productId) >= 0
  {
    if |items| > 0 {
      HeldNonNegative(items[..|items| - 1], productId);
    }
  }

  /** The delta map, the new lines and the total accumulated so far, and the failure that stopped validation. */
  datatype Validation = Validation(
    changes: map<string, int>,
    lines: seq<OrderItem>,
    total: int,
    failure: Option<Failure>)

  /** The two checks on one new item: the product exists, and its final stock would not be negative. */
  function CheckLine(products: map<string, Product>, changes: map<string, int>, item: ItemRequest): (r: Option<Failure>)
    ensures r.None? <==> item.productId in products
                         && products[item.productId].stock + Get(changes, item.productId) - item.quantity >= 0
    ensures item.productId !in products ==> r == Some(BadRequest(ProductMissing(item.productId)))
    ensures item.productId in products && r.Some? ==> r == Some(BadRequest(InsufficientStock(item.productId)))
  {
    if item.productId !in products then Some(BadRequest(ProductMissing(item.productId)))
    else if products[item.productId].stock + Get(changes, item.productId) - item.quantity < 0 then
      Some(BadRequest(InsufficientStock(item.productId)))
    else None
  }

  /** The line stored for a new item: the product's current price, attached to the order. */
  function NewLine(orderId: string, item: ItemRequest, price: int): (line: OrderItem)
    ensures line.orderId == Some(orderId) && line.productId == item.productId
    ensures line.quantity == item.quantity && line.price == price
    ensures Subtotal(line) == price * item.quantity
  {
    OrderItem(None, Some(orderId), item.productId, item.quantity, price)
  }

  /** The validation loop over the new items, from the seeded map; the first failing item stops it. */
  function Validate(products: map<string, Product>, seed: map<string, int>, orderId: string, items: seq<ItemRequest>): Validation
  {
    if |items| == 0 then Validation(seed, [], 0, None)
    else
      var prev := Validate(products, seed, orderId, items[..|items| - 1]);
      var item := items[|items| - 1];
      if prev.failure.Some? then prev
      else
        match CheckLine(products, prev.changes, item)
        case Some(f) => prev.(failure := Some(f))
        case None =>
          var price := products[item.productId].price;
          Validation(
            prev.changes[item.productId := Get(prev.changes, item.productId) - item.quantity],
            prev.lines + [NewLine(orderId, item, price)],
            prev.total + price * item.quantity,
            None)
  }

  /** Once an item has failed, the later items change nothing. */
  lemma {:induction false} ValidateFailureSticks(products: map<string, Product>, seed: map<string, int>, orderId: string,
                                                 items: seq<ItemRequest>, k: nat)
    requires k <= |items|
    requires Validate(products, seed, orderId, items[..k]).failure.Some?
    ensures Validate(products, seed, orderId, items) == Validate(products, seed, orderId, items[..k])
    decreases |items|
  {
    if k < |items| {
      var init := items[..|items| - 1];
      assert init[..k] == items[..k];
      ValidateFailureSticks(products, seed, orderId, init, k);
    } else {
      assert items[..k] == items;
    }
  }

  /** After a successful validation every product's entry is its seed minus the units requested of it. */
  lemma {:induction false} ValidateNetDelta(products: map<string, Product>, seed: map<string, int>, orderId: string,
                                            items: seq<ItemRequest>)
    requires Validate(products, seed, orderId, items).failure.None?
    ensures forall k :: Get(Validate(products, seed, orderId, items).changes, k)
                        == Get(seed, k) - OrderPlacement.Demand(items, k)
  {
    if |items| > 0 {
      ValidateNetDelta(products, seed, orderId, items[..|items| - 1]);
    }
  }

  /** The last step of a successful validation accepted its item at the product's current price. */
  lemma ValidateLast(products: map<string, Product>, seed: map<string, int>, orderId: string, items: seq<ItemRequest>)
    requires |items| > 0 && Validate(products, seed, orderId, items).failure.None?
    ensures var prev := Validate(products, seed, orderId, items[..|items| - 1]);
            var item := items[|items| - 1];
            var v := Validate(products, seed, orderId, items);
            && prev.failure.None? && item.productId in products
            && v.lines == prev.lines + [NewLine(orderId, item, products[item.productId].price)]
            && v.total == prev.total + products[item.productId].price * item.quantity
  {
  }

  /** A successful validation yields one line per item, in request order, at the product's current price. */
  lemma {:induction false} ValidateLineItems(products: map<string, Product>, seed: map<string, int>, orderId: string,
                                             items: seq<ItemRequest>)
    requires Validate(products, seed, orderId, items).failure.None?
    ensures var v := Validate(products, seed, orderId, items);
            && |v.lines| == |items|
            && (forall i :: 0 <= i < |items| ==>
                  items[i].productId in products
                  && v.lines[i] == NewLine(orderId, items[i], products[items[i].productId].price))
  {
    if |items| > 0 {
      var init := items[..|items| - 1];
      ValidateLast(products, seed, orderId, items);
      ValidateLineItems(products, seed, orderId, init);
      var v := Validate(products, seed, orderId, items);
      forall i | 0 <= i < |items|
        ensures items[i].productId in products
                && v.lines[i] == NewLine(orderId, items[i], products[items[i].productId].price)
      {
        if i < |init| {
          assert items[i] == init[i];
        }
      }
    }
  }

  /**
   * A successful validation yields one line per item, in request order, at the product's current
   * price, and a total that is both Σ price × quantity and the sum of the lines' subtotals.
   */
  lemma {:induction false} ValidateLines(products: map<string, Product>, seed: map<string, int>, orderId: string,
                                         items: seq<ItemRequest>)
    requires Validate(products, seed, orderId, items).failure.None?
    ensures var v := Validate(products, seed, orderId, items);
            && |v.lines| == |items|
            && (forall i :: 0 <= i < |items| ==>
                  items[i].productId in products
                  && v.lines[i] == NewLine(orderId, items[i], products[items[i].productId].price))
            && v.total == OrderPlacement.PricedTotal(products, items)
            && v.total == SumSubtotals(v.lines)
  {
    ValidateLineItems(products, seed, orderId, items);
    if |items| > 0 {
      var init := items[..|items| - 1];
      var item := items[|items| - 1];
      var prev := Validate(products, seed, orderId, init);
      ValidateLast(products, seed, orderId, items);
      ValidateLines(products, seed, orderId, init);
      var line := NewLine(orderId, item, products[item.productId].price);
      SumSubtotalsAppend(prev.lines, [line]);
      assert SumSubtotals([line]) == Subtotal(line) by {
        assert [line][..0] == [];
      }
    }
  }

  /**
   * The stock guard holds along the way: an entry is either a credit (non-negative) or a debit
   * that the product's stock covers.
   */
  predicate Covered(products: map<string, Product>, changes: map<string, int>)
  {
    forall k :: k in changes ==> changes[k] >= 0 || (k in products && products[k].stock + changes[k] >= 0)
  }

  /** Every validation step keeps `Covered`. */
  lemma {:induction false} ValidateCovered(products: map<string, Product>, seed: map<string, int>, orderId: string,
                                           items: seq<ItemRequest>)
    requires Covered(products, seed)
    ensures Covered(products, Validate(products, seed, orderId, items).changes)
  {
    if |items| > 0 {
      ValidateCovered(products, seed, orderId, items[..|items| - 1]);
    }
  }

  /** Every requested product exists, and its stock covers all its requested units net of the credit. */
  predicate Feasible(products: map<string, Product>, seed: map<string, int>, items: seq<ItemRequest>)
  {
    forall i :: 0 <= i < |items| ==>
      items[i].productId in products
      && products[items[i].productId].stock + Get(seed, items[i].productId)
         - OrderPlacement.Demand(items, items[i].productId) >= 0
  }

  /** Validation only ever fails with a bad request. */
  lemma {:induction false} ValidateFailsWithBadRequest(products: map<string, Product>, seed: map<string, int>,
                                                       orderId: string, items: seq<ItemRequest>)
    ensures var v := Validate(products, seed, orderId, items);
            v.failure.Some? ==> v.failure.value.BadRequest?
  {
    if |items| > 0 {
      ValidateFailsWithBadRequest(products, seed, orderId, items[..|items| - 1]);
    }
  }

  /** More items never demand fewer units. */
  lemma {:induction false} DemandGrows(items: seq<ItemRequest>, n: nat, productId: string)
    requires n <= |items|
    requires forall i :: 0 <= i < |items| ==> items[i].quantity >= 0
    ensures OrderPlacement.Demand(items[..n], productId) <= OrderPlacement.Demand(items, productId)
    decreases |items|
  {
    if n < |items| {
      var init := items[..|items| - 1];
      assert init[..n] == items[..n];
      DemandGrows(init, n, productId);
    } else {
      assert items[..n] == items;
    }
  }

  /**
   * Validation succeeds exactly when the request is feasible: since the credit shrinks item by
   * item, the check on each item is the same as the check on the whole request.
   */
  lemma {:induction false} ValidateSucceedsIffFeasible(products: map<string, Product>, seed: map<string, int>,
                                                       orderId: string, items: seq<ItemRequest>)
    requires forall i :: 0 <= i < |items| ==> items[i].quantity >= 0
    ensures Validate(products, seed, orderId, items).failure.None? <==> Feasible(products, seed, items)
  {
    if |items| > 0 {
      var init := items[..|items| - 1];
      var item := items[|items| - 1];
      var prev := Validate(products, seed, orderId, init);
      ValidateSucceedsIffFeasible(products, seed, orderId, init);
      if Feasible(products, seed, items) {
        forall i | 0 <= i < |init|
          ensures init[i].productId in products
                  && products[init[i].productId].stock + Get(seed, init[i].productId)
                     - OrderPlacement.Demand(init, init[i].productId) >= 0
        {
          assert init[i] == items[i];
          assert items[..|items| - 1] == init;
          DemandGrows(items, |items| - 1, init[i].productId);
        }
        assert prev.failure.None?;
        ValidateNetDelta(products, seed, orderId, init);
        assert items[|items| - 1] == item;
        assert CheckLine(products, prev.changes, item).None?;
      }
      if Validate(products, seed, orderId, items).failure.None? {
        assert prev.failure.None?;
        ValidateNetDelta(products, seed, orderId, init);
        assert CheckLine(products, prev.changes, item).None?;
        forall i | 0 <= i < |items|
          ensures items[i].productId in products
                  && products[items[i].productId].stock + Get(seed, items[i].productId)
                     - OrderPlacement.Demand(items, items[i].productId) >= 0
        {
          if i < |init| {
            assert init[i] == items[i];
            if items[i].productId != item.productId {
              assert OrderPlacement.Demand(items, items[i].productId) == OrderPlacement.Demand(init, items[i].productId);
            }
          }
        }
      }
    }
  }

  /** Whether every non-zero delta names a product that exists; a delta on a missing row fails the update. */
  predicate Applicable(products: map<string, Product>, changes: map<string, int>)
  {
    forall k :: k in changes && changes[k] != 0 ==> k in products
  }

  /** The catalogue after the increments of the products in `done`; only non-zero deltas are written. */
  function Bumped(products: map<string, Product>, changes: map<string, int>, done: set<string>): (r: map<string, Product>)
    ensures r.Keys == products.Keys
    ensures forall k :: k in products ==> OnlyStockDiffers(products[k], r[k])
  {
    map k | k in products ::
      if k in done && Get(changes, k) != 0 then products[k].(stock := products[k].stock + Get(changes, k))
      else products[k]
  }

  /** Applying one more key's delta to the catalogue bumped so far. */
  lemma BumpedStep(products: map<string, Product>, changes: map<string, int>, done: set<string>, k: string)
    requires k in changes && k !in done
    requires changes[k] != 0 ==> k in products
    ensures var before := Bumped(products, changes, done);
            Bumped(products, changes, done + {k})
            == if changes[k] == 0 then before
               else before[k := before[k].(stock := before[k].stock + changes[k])]
  {
    var before := Bumped(products, changes, done);
    var after := Bumped(products, changes, done + {k});
    if changes[k] != 0 {
      assert before[k] == products[k];
    }
  }

  /** The products agree on everything but stock. */
  predicate OnlyStockDiffers(a: Product, b: Product)
  {
    a.(stock := b.stock) == b
  }

  /** The loop of stock increments: all of them, or none when one names a missing product. */
  function ApplyChanges(products: map<string, Product>, changes: map<string, int>): (r: Option<map<string, Product>>)
    ensures r.Some? <==> Applicable(products, changes)
    ensures r.Some? ==> r.value.Keys == products.Keys
    ensures r.Some? ==> forall k :: k in products ==>
              r.value[k].stock == products[k].stock + Get(changes, k) && OnlyStockDiffers(products[k], r.value[k])
    ensures r.Some? ==> forall k :: k in products && Get(changes, k) == 0 ==> r.value[k] == products[k]
  {
    if Applicable(products, changes) then Some(Bumped(products, changes, changes.Keys)) else None
  }

  /** The catalogue, the orders, and `{ id }` or the failure. */
  datatype Replacement = Replacement(
    products: map<string, Product>,
    orders: map<string, Order>,
    result: Result<string, Failure>)

  /** The order may have its items replaced only while PENDING or CONFIRMED. */
  predicate Editable(status: OrderStatus)
  {
    status == Pending || status == Confirmed
  }

  /** The whole handler: three guards, validation, increments, then the item list and total replaced. */
  function ReplaceItems(products: map<string, Product>, orders: map<string, Order>, orderId: string,
                        userId: string, items: seq<ItemRequest>): (r: Replacement)
    ensures r.result.Err? ==> r.products == products && r.orders == orders
    ensures orderId !in orders ==> r.result == Err(NotFound(OrderMissing))
    ensures orderId in orders && orders[orderId].userId != userId ==> r.result == Err(Forbidden)
    ensures orderId in orders && orders[orderId].userId == userId && !Editable(orders[orderId].status) ==>
              r.result == Err(BadRequest(NotEditable(orders[orderId].status)))
    ensures r.result.Ok? ==> r.result.value == orderId && r.orders.Keys == orders.Keys && r.products.Keys == products.Keys
    ensures r.result.Ok? ==> orders[orderId].userId == userId && Editable(orders[orderId].status)
    ensures r.result.Ok? ==> forall k :: k in orders && k != orderId ==> r.orders[k] == orders[k]
    ensures r.result.Ok? ==>
              var o := orders[orderId]; var n := r.orders[orderId];
              n.id == o.id && n.userId == o.userId && n.status == o.status
              && n.createdAt == o.createdAt && n.updatedAt == o.updatedAt
  {
    if orderId !in orders then Replacement(products, orders, Err(NotFound(OrderMissing)))
    else
      var order := orders[orderId];
      if order.userId != userId then Replacement(products, orders, Err(Forbidden))
      else if !Editable(order.status) then Replacement(products, orders, Err(BadRequest(NotEditable(order.status))))
      else
        var v := Validate(products, Credit(order.orderItems), orderId, items);
        if v.failure.Some? then Replacement(products, orders, Err(v.failure.value))
        else
          match ApplyChanges(products, v.changes)
          case None => Replacement(products, orders, Err(RecordMissing))
          case Some(updated) =>
            Replacement(updated, orders[orderId := order.(totalAmount := v.total, orderItems := v.lines)], Ok(orderId))
  }

  /**
   * Net delta: on success each product's stock moves by exactly the units the old items held
   * minus the units the new items request; a product whose two counts agree is not written.
   */
  lemma NetDelta(products: map<string, Product>, orders: map<string, Order>, orderId: string,
                 userId: string, items: seq<ItemRequest>)
    requires ReplaceItems(products, orders, orderId, userId, items).result.Ok?
    ensures var r := ReplaceItems(products, orders, orderId, userId, items);
            var old_ := orders[orderId].orderItems;
            forall k :: k in products ==>
              && r.products[k].stock == products[k].stock + Held(old_, k) - OrderPlacement.Demand(items, k)
              && (Held(old_, k) == OrderPlacement.Demand(items, k) ==> r.products[k] == products[k])
  {
    var order := orders[orderId];
    CreditHoldsOldQuantities(order.orderItems);
    ValidateNetDelta(products, Credit(order.orderItems), orderId, items);
  }

  /**
   * No oversell: with non-negative stocks and non-negative old quantities, a successful
   * replacement leaves every stock non-negative.
   */
  lemma NeverNegative(products: map<string, Product>, orders: map<string, Order>, orderId: string,
                      userId: string, items: seq<ItemRequest>)
    requires OrderPlacement.NoNegativeStock(products)
    requires orderId in orders ==>
               forall i :: 0 <= i < |orders[orderId].orderItems| ==> orders[orderId].orderItems[i].quantity >= 0
    ensures OrderPlacement.NoNegativeStock(ReplaceItems(products, orders, orderId, userId, items).products)
  {
    var r := ReplaceItems(products, orders, orderId, userId, items);
    if r.result.Ok? {
      var old_ := orders[orderId].orderItems;
      var seed := Credit(old_);
      CreditHoldsOldQuantities(old_);
      forall k | k in seed ensures seed[k] >= 0 {
        assert Get(seed, k) == seed[k];
        HeldNonNegative(old_, k);
      }
      ValidateCovered(products, seed, orderId, items);
      var v := Validate(products, seed, orderId, items);
      forall k | k in r.products ensures r.products[k].stock >= 0 {
        assert r.products[k].stock == products[k].stock + Get(v.changes, k);
      }
    }
  }

  /**
   * On success the order's items are the new list, at each product's current price, and its
   * total is Σ current price × quantity, which is also the sum of the new items' subtotals.
   */
  lemma NewItemsAtLivePrices(products: map<string, Product>, orders: map<string, Order>, orderId: string,
                             userId: string, items: seq<ItemRequest>)
    requires ReplaceItems(products, orders, orderId, userId, items).result.Ok?
    ensures var n := ReplaceItems(products, orders, orderId, userId, items).orders[orderId];
            && |n.orderItems| == |items|
            && (forall i :: 0 <= i < |items| ==>
                  items[i].productId in products
                  && n.orderItems[i] == NewLine(orderId, items[i], products[items[i].productId].price))
            && n.totalAmount == OrderPlacement.PricedTotal(products, items)
            && n.totalAmount == SumSubtotals(n.orderItems)
  {
    ValidateLines(products, Credit(orders[orderId].orderItems), orderId, items);
  }

  /**
   * The handler fails on a new item exactly when it is unknown or its stock, credited with the
   * old units and debited with every requested unit, would go negative.
   */
  lemma RejectsExactlyInfeasible(products: map<string, Product>, orders: map<string, Order>, orderId: string,
                                 userId: string, items: seq<ItemRequest>)
    requires orderId in orders && orders[orderId].userId == userId && Editable(orders[orderId].status)
    requires OrderPlacement.WellFormed(items)
    ensures var r := ReplaceItems(products, orders, orderId, userId, items);
            var seed := Credit(orders[orderId].orderItems);
            (r.result.Err? && r.result.error.BadRequest?) <==> !Feasible(products, seed, items)
  {
    var seed := Credit(orders[orderId].orderItems);
    ValidateSucceedsIffFeasible(products, seed, orderId, items);
    ValidateFailsWithBadRequest(products, seed, orderId, items);
  }

  /** The three guards read only the order: the catalogue cannot change which of them fires. */
  lemma GuardsIgnoreCatalogue(products: map<string, Product>, other: map<string, Product>, orders: map<string, Order>,
                              orderId: string, userId: string, items: seq<ItemRequest>)
    requires orderId !in orders || orders[orderId].userId != userId || !Editable(orders[orderId].status)
    ensures ReplaceItems(products, orders, orderId, userId, items).result
            == ReplaceItems(other, orders, orderId, userId, items).result
  {
  }

  /**
   * An order holding two units of `prod-old` is changed to one unit of `prod-new` (price 50,
   * stock 5): `prod-old` gains 2, `prod-new` loses 1, the total becomes 50 and the result is the
   * order's id.
   */
  lemma SwapProductExample(oldProduct: Product, newProduct: Product, order: Order)
    requires newProduct.price == 50 && newProduct.stock == 5
    requires order.userId == "user-1" && order.status == Pending
    requires order.orderItems == [OrderItem(None, Some("order-1"), "prod-old", 2, oldProduct.price)]
    ensures var r := ReplaceItems(map["prod-old" := oldProduct, "prod-new" := newProduct], map["order-1" := order],
                                  "order-1", "user-1", [OrderPlacement.ItemRequest("prod-new", 1)]);
            && r.result == Ok("order-1")
            && r.products["prod-old"].stock == oldProduct.stock + 2
            && r.products["prod-new"].stock == 4
            && r.orders["order-1"].totalAmount == 50
            && r.orders["order-1"].orderItems == [OrderItem(None, Some("order-1"), "prod-new", 1, 50)]
  {
    var products := map["prod-old" := oldProduct, "prod-new" := newProduct];
    var items := [OrderPlacement.ItemRequest("prod-new", 1)];
    var seed := Credit(order.orderItems);
    assert order.orderItems[..0] == [];
    assert Credit(order.orderItems[..0]) == map[];
    assert seed == map["prod-old" := 2];
    assert items[..0] == [];
    assert Validate(products, seed, "order-1", items[..0]) == Validation(seed, [], 0, None);
    assert CheckLine(products, seed, items[0]).None?;
    var v := Validate(products, seed, "order-1", items);
    assert v.changes == map["prod-old" := 2, "prod-new" := -1];
    assert v.total == 50;
    assert Applicable(products, v.changes);
  }

  /** The order holds 2 units of a product with 10 in stock and is replaced by 5 units of it: 3 more are taken, 7 remain. */
  lemma ReorderSameProductExample(product: Product, order: Order)
    requires product.stock == 10
    requires order.userId == "u" && order.status == Confirmed
    requires order.orderItems == [OrderItem(None, Some("o"), "a", 2, product.price)]
    ensures var r := ReplaceItems(map["a" := product], map["o" := order], "o", "u", [OrderPlacement.ItemRequest("a", 5)]);
            r.result == Ok("o") && r.products["a"].stock == 7
  {
    var items := [OrderPlacement.ItemRequest("a", 5)];
    assert order.orderItems[..0] == [];
    assert Credit(order.orderItems) == map["a" := 2];
    assert items[..0] == [];
    assert Validate(map["a" := product], map["a" := 2], "o", items).changes == map["a" := -3];
  }

  /** Unlike order creation, replacement does not look at `isActive`: an inactive product is accepted. */
  lemma InactiveProductAccepted(product: Product, order: Order)
    requires !product.isActive && product.stock == 1
    requires order.userId == "u" && order.status == Pending && order.orderItems == []
    ensures ReplaceItems(map["a" := product], map["o" := order], "o", "u", [OrderPlacement.ItemRequest("a", 1)]).result == Ok("o")
  {
    var items := [OrderPlacement.ItemRequest("a", 1)];
    assert items[..0] == [];
    assert Validate(map["a" := product], map[], "o", items).failure.None?;
  }
}
