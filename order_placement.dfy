/**
 * What `CreateOrderHandler.execute` (src/modules/orders/application/handlers/create-order.handler.ts)
 * does to the product catalogue, item by item, as a function of the catalogue it starts from.
 * Each accepted item is written to the catalogue at once, through the stock-only update that
 * `UpdateProductHandler` applies; a failing item stops the run and nothing is undone.
 */
module OrderPlacement {
  import opened Wrappers
  import opened OrderEntity
  import opened ProductEntity
  import opened Failures

  /** One requested line: `{ productId, quantity }`. */
  datatype ItemRequest = ItemRequest(productId: string, quantity: int)

  /** What the request validation admits: at least one item, every quantity at least 1. */
  predicate WellFormed(items: seq<ItemRequest>)
  {
    |items| >= 1 && forall i :: 0 <= i < |items| ==> items[i].quantity >= 1
  }

  /** The catalogue so far, the lines and total accumulated so far, and the failure that stopped the run. */
  datatype Placement = Placement(
    products: map<string, Product>,
    lines: seq<OrderItem>,
    total: int,
    failure: Option<Failure>)

  /** The three guards on one item, in the order the handler applies them. */
  function CheckItem(products: map<string, Product>, item: ItemRequest): (r: Option<Failure>)
    ensures r.None? <==> item.productId in products && products[item.productId].isActive
                         && HasStock(products[item.productId], item.quantity)
    ensures item.productId !in products ==> r == Some(BadRequest(ProductMissing(item.productId)))
    ensures item.productId in products && !products[item.productId].isActive ==>
              r == Some(BadRequest(ProductInactive(item.productId)))
    ensures r.Some? ==> r.value.BadRequest?
  {
    if item.productId !in products then Some(BadRequest(ProductMissing(item.productId)))
    else if !products[item.productId].isActive then Some(BadRequest(ProductInactive(item.productId)))
    else if products[item.productId].stock < item.quantity then Some(BadRequest(InsufficientStock(item.productId)))
    else None
  }

  /** The line of an accepted item, priced at the product's price when it was read. */
  function Line(item: ItemRequest, price: int): (line: OrderItem)
    ensures line.productId == item.productId && line.quantity == item.quantity && line.price == price
    ensures Subtotal(line) == price * item.quantity
  {
    CreateItem(None, item.productId, item.quantity, price)
  }

  /**
   * The stock write the handler dispatches for an accepted item: an update command carrying
   * only the new stock.
   */
  function Decrement(product: Product, quantity: int, now: int): Product
  {
    ProductEntity.Update(product, None, None, None, Some(product.stock - quantity), None, now)
  }

  /** One accepted item: decrement its product, append its line, add its price times quantity. */
  function Accept(p: Placement, item: ItemRequest, now: int): Placement
    requires item.productId in p.products
  {
    var product := p.products[item.productId];
    Placement(
      p.products[item.productId := Decrement(product, item.quantity, now)],
      p.lines + [Line(item, product.price)],
      p.total + product.price * item.quantity,
      None)
  }

  /** The loop over the requested items; the first failing guard stops it. */
  function Place(products: map<string, Product>, items: seq<ItemRequest>, now: int): Placement
  {
    if |items| == 0 then Placement(products, [], 0, None)
    else
      var prev := Place(products, items[..|items| - 1], now);
      var item := items[|items| - 1];
      if prev.failure.Some? then prev
      else
        match CheckItem(prev.products, item)
        case Some(f) => prev.(failure := Some(f))
        case None => Accept(prev, item, now)
  }

  /** The run over one more item is the run so far, followed by that item. */
  lemma PlaceStep(products: map<string, Product>, items: seq<ItemRequest>, i: nat, now: int)
    requires i < |items|
    ensures var prev := Place(products, items[..i], now);
            Place(products, items[..i + 1], now)
            == if prev.failure.Some? then prev
               else match CheckItem(prev.products, items[i])
                    case Some(f) => prev.(failure := Some(f))
                    case None => Accept(prev, items[i], now)
  {
    assert items[..i + 1][..i] == items[..i];
  }

  /** When the run so far is `Placement(current, lines, total, None)` and item `i` passes its guards, the run over one more item accepts it. */
  lemma PlaceAccepts(products: map<string, Product>, items: seq<ItemRequest>, i: nat, now: int,
                     current: map<string, Product>, lines: seq<OrderItem>, total: int)
    requires i < |items|
    requires Place(products, items[..i], now) == Placement(current, lines, total, None)
    requires CheckItem(current, items[i]).None?
    ensures var product := current[items[i].productId];
            Place(products, items[..i + 1], now)
            == Placement(current[items[i].productId := Decrement(product, items[i].quantity, now)],
                         lines + [Line(items[i], product.price)],
                         total + product.price * items[i].quantity,
                         None)
  {
    PlaceStep(products, items, i, now);
  }

  /** Once an item has failed, the later items change nothing. */
  lemma {:induction false} FailureSticks(products: map<string, Product>, items: seq<ItemRequest>, k: nat, now: int)
    requires k <= |items|
    requires Place(products, items[..k], now).failure.Some?
    ensures Place(products, items, now) == Place(products, items[..k], now)
    decreases |items|
  {
    if k < |items| {
      var init := items[..|items| - 1];
      assert init[..k] == items[..k];
      FailureSticks(products, init, k, now);
    } else {
      assert items[..k] == items;
    }
  }

  /** The products agree on everything but stock and `updatedAt`. */
  predicate SameButStock(a: Product, b: Product)
  {
    a.(stock := b.stock, updatedAt := b.updatedAt) == b
  }

  /** The run only rewrites stocks (and `updatedAt`) of products that exist; no product appears or vanishes. */
  lemma {:induction false} PlaceKeepsCatalogue(products: map<string, Product>, items: seq<ItemRequest>, now: int)
    ensures var run := Place(products, items, now);
            run.products.Keys == products.Keys
            && forall k :: k in products ==> SameButStock(products[k], run.products[k])
  {
    if |items| > 0 {
      PlaceKeepsCatalogue(products, items[..|items| - 1], now);
    }
  }

  /** Σ price × quantity over the requested items, at the prices of `products`. */
  function PricedTotal(products: map<string, Product>, items: seq<ItemRequest>): int
  {
    if |items| == 0 then 0
    else
      var item := items[|items| - 1];
      PricedTotal(products, items[..|items| - 1])
        + (if item.productId in products then products[item.productId].price * item.quantity else 0)
  }

  /** Units of `productId` requested over all the items. */
  function Demand(items: seq<ItemRequest>, productId: string): int
  {
    if |items| == 0 then 0
    else
      var item := items[|items| - 1];
      Demand(items[..|items| - 1], productId) + (if item.productId == productId then item.quantity else 0)
  }

  /**
   * The last step of a successful run accepted its item at the price the product had in the
   * catalogue the run started from.
   */
  lemma PlaceLast(products: map<string, Product>, items: seq<ItemRequest>, now: int)
    requires |items| > 0 && Place(products, items, now).failure.None?
    ensures var prev := Place(products, items[..|items| - 1], now);
            var item := items[|items| - 1];
            && prev.failure.None?
            && item.productId in products && item.productId in prev.products
            && prev.products[item.productId].price == products[item.productId].price
            && Place(products, items, now) == Accept(prev, item, now)
  {
    var init := items[..|items| - 1];
    var item := items[|items| - 1];
    PlaceKeepsCatalogue(products, init, now);
    assert SameButStock(products[item.productId], Place(products, init, now).products[item.productId]);
  }

  /** A successful run has one line per item, in request order, priced at the product's price. */
  lemma {:induction false} PlaceLines(products: map<string, Product>, items: seq<ItemRequest>, now: int)
    requires Place(products, items, now).failure.None?
    ensures var run := Place(products, items, now);
            && |run.lines| == |items|
            && (forall i :: 0 <= i < |items| ==>
                  items[i].productId in products && run.lines[i] == Line(items[i], products[items[i].productId].price))
  {
    if |items| > 0 {
      var init := items[..|items| - 1];
      var item := items[|items| - 1];
      var prev := Place(products, init, now);
      PlaceLast(products, items, now);
      PlaceLines(products, init, now);
      var run := Place(products, items, now);
      assert run.lines == prev.lines + [Line(item, products[item.productId].price)];
      forall i | 0 <= i < |items|
        ensures items[i].productId in products && run.lines[i] == Line(items[i], products[items[i].productId].price)
      {
        if i < |init| {
          assert items[i] == init[i];
        }
      }
    }
  }

  /**
   * A successful run prices every line at the product's price, one line per item in request
   * order, and its total is both Σ price × quantity and the sum of the lines' subtotals.
   */
  lemma {:induction false} PlaceTotal(products: map<string, Product>, items: seq<ItemRequest>, now: int)
    requires Place(products, items, now).failure.None?
    ensures var run := Place(products, items, now);
            && |run.lines| == |items|
            && (forall i :: 0 <= i < |items| ==>
                  items[i].productId in products && run.lines[i] == Line(items[i], products[items[i].productId].price))
            && run.total == PricedTotal(products, items)
            && run.total == SumSubtotals(run.lines)
  {
    PlaceLines(products, items, now);
    if |items| > 0 {
      var init := items[..|items| - 1];
      var item := items[|items| - 1];
      var prev := Place(products, init, now);
      PlaceLast(products, items, now);
      PlaceTotal(products, init, now);
      var line := Line(item, products[item.productId].price);
      var run := Place(products, items, now);
      assert run.lines == prev.lines + [line];
      assert run.total == prev.total + products[item.productId].price * item.quantity;
      SumSubtotalsAppend(prev.lines, [line]);
      assert SumSubtotals([line]) == Subtotal(line) by {
        assert [line][..0] == [];
      }
    }
  }

  /** After a successful run every product has lost exactly the units requested of it. */
  lemma {:induction false} PlaceStock(products: map<string, Product>, items: seq<ItemRequest>, now: int)
    requires Place(products, items, now).failure.None?
    ensures var run := Place(products, items, now);
            forall k :: k in products ==> k in run.products && run.products[k].stock == products[k].stock - Demand(items, k)
  {
    PlaceKeepsCatalogue(products, items, now);
    if |items| > 0 {
      PlaceStock(products, items[..|items| - 1], now);
      PlaceKeepsCatalogue(products, items[..|items| - 1], now);
    }
  }

  /** No product of the catalogue has negative stock. */
  predicate NoNegativeStock(products: map<string, Product>)
  {
    forall k :: k in products ==> products[k].stock >= 0
  }

  /**
   * No oversell: whether the run succeeds or stops half-way, a catalogue without negative stock
   * stays without negative stock, because every write follows a successful stock check.
   */
  lemma {:induction false} PlaceNeverOversells(products: map<string, Product>, items: seq<ItemRequest>, now: int)
    requires NoNegativeStock(products)
    ensures NoNegativeStock(Place(products, items, now).products)
  {
    if |items| > 0 {
      var prev := Place(products, items[..|items| - 1], now);
      var item := items[|items| - 1];
      PlaceNeverOversells(products, items[..|items| - 1], now);
      if prev.failure.None? && CheckItem(prev.products, item).None? {
        AcceptNeverOversells(prev, item, now);
      }
    }
  }

  /** One accepted item that passed the stock guard leaves every stock non-negative. */
  lemma AcceptNeverOversells(p: Placement, item: ItemRequest, now: int)
    requires NoNegativeStock(p.products)
    requires CheckItem(p.products, item).None?
    ensures NoNegativeStock(Accept(p, item, now).products)
  {
    var product := p.products[item.productId];
    assert HasStock(product, item.quantity);
    var d := Decrement(product, item.quantity, now);
    assert d.stock == product.stock - item.quantity;
  }

  /** A failure on the first item writes nothing. */
  lemma FirstItemFailureWritesNothing(products: map<string, Product>, items: seq<ItemRequest>, now: int)
    requires |items| >= 1 && CheckItem(products, items[0]).Some?
    ensures Place(products, items, now).products == products
    ensures Place(products, items, now).failure == CheckItem(products, items[0])
  {
    assert items[..1][..0] == [];
    FailureSticks(products, items, 1, now);
  }

  /**
   * A failure on item k keeps the stock writes of items 0 .. k-1: the handler has no rollback,
   * its catch block only logs and rethrows.
   */
  lemma LaterFailureKeepsEarlierWrites(products: map<string, Product>, items: seq<ItemRequest>, k: nat, now: int)
    requires k < |items|
    requires Place(products, items[..k], now).failure.None?
    requires CheckItem(Place(products, items[..k], now).products, items[k]).Some?
    ensures Place(products, items, now).failure.Some?
    ensures Place(products, items, now).products == Place(products, items[..k], now).products
  {
    assert items[..k + 1][..k] == items[..k];
    FailureSticks(products, items, k + 1, now);
  }

  /** A two-item request whose second product is missing leaves the first product decremented. */
  lemma NoRollbackExample(p1: Product, now: int)
    requires p1.isActive && p1.stock == 5
    ensures var run := Place(map["p1" := p1], [ItemRequest("p1", 2), ItemRequest("p2", 1)], now);
            run.failure == Some(BadRequest(ProductMissing("p2"))) && "p1" in run.products && run.products["p1"].stock == 3
  {
    var products := map["p1" := p1];
    var items := [ItemRequest("p1", 2), ItemRequest("p2", 1)];
    assert items[..1] == [ItemRequest("p1", 2)];
    assert items[..1][..0] == [];
    assert Place(products, [], now) == Placement(products, [], 0, None);
    assert CheckItem(products, items[0]).None?;
    var first := Place(products, items[..1], now);
    assert first == Accept(Placement(products, [], 0, None), items[0], now);
    assert first.failure.None? && first.products == map["p1" := Decrement(p1, 2, now)];
    assert CheckItem(first.products, items[1]) == Some(BadRequest(ProductMissing("p2")));
  }

  /** Two units of a product priced 100 with 5 in stock: total 200, 3 left. */
  lemma SingleItemExample(p1: Product, now: int)
    requires p1.isActive && p1.stock == 5 && p1.price == 100
    ensures var run := Place(map["p1" := p1], [ItemRequest("p1", 2)], now);
            run.failure.None? && run.total == 200 && run.products["p1"].stock == 3
  {
    assert [ItemRequest("p1", 2)][..0] == [];
  }

  // The handler as written calls the four-parameter `OrderItem.create(orderId, productId,
  // quantity, price)` with three arguments. Its argument values are modelled untyped here.

  datatype JsValue = JsString(s: string) | JsNumber(n: int) | JsUndefined

  /** An `OrderItem` whose fields hold whatever values were passed, positionally. */
  datatype LooseOrderItem = LooseOrderItem(id: JsValue, orderId: JsValue, productId: JsValue, quantity: JsValue, price: JsValue)

  /** `OrderItem.create` with positional binding; a missing trailing argument is `undefined`. */
  function CreateItemLoose(orderId: JsValue, productId: JsValue, quantity: JsValue, price: JsValue): LooseOrderItem
  {
    LooseOrderItem(JsUndefined, orderId, productId, quantity, price)
  }

  /** `OrderItem.create(item.productId, item.quantity, product.price)` as written. */
  function LineAsWritten(item: ItemRequest, price: int): LooseOrderItem
  {
    CreateItemLoose(JsString(item.productId), JsNumber(item.quantity), JsNumber(price), JsUndefined)
  }

  /** The `subtotal` getter on loose values: NaN (None) unless both operands are numbers. */
  function LooseSubtotal(x: LooseOrderItem): Option<int>
  {
    if x.price.JsNumber? && x.quantity.JsNumber? then Some(x.price.n * x.quantity.n) else None
  }

  /**
   * As written, the line's product id slot holds the quantity, its quantity slot the price,
   * its price is `undefined` and its subtotal NaN; the corrected `Line` keeps all three.
   */
  lemma LineAsWrittenLosesRequest(item: ItemRequest, price: int)
    ensures LineAsWritten(item, price).productId == JsNumber(item.quantity) != JsString(item.productId)
    ensures LineAsWritten(item, price).quantity == JsNumber(price)
    ensures LineAsWritten(item, price).price == JsUndefined
    ensures LooseSubtotal(LineAsWritten(item, price)).None?
    ensures Line(item, price).productId == item.productId && Subtotal(Line(item, price)) == price * item.quantity
  {
  }
}
