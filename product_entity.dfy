/**
 * The `Product` entity (src/modules/products/domain/entities/product.entity.ts): an immutable
 * record whose `update` and `updateStock` build new instances.
 */
module ProductEntity {
  import opened Wrappers

  datatype Product = Product(
    id: Option<string>,
    name: string,
    description: Option<string>,
    price: int,
    stock: int,
    isActive: bool,
    createdAt: int,
    updatedAt: int)

  /** `Product.create`: active, id left to the database. */
  function Create(name: string, description: Option<string>, price: int, stock: int, now: int): (p: Product)
    ensures p.id.None? && p.isActive
    ensures p.name == name && p.description == description && p.price == price && p.stock == stock
    ensures p.createdAt == now && p.updatedAt == now
  {
    Product(None, name, description, price, stock, true, now, now)
  }

  /** `hasStock(quantity)`. */
  function HasStock(p: Product, quantity: int): (r: bool)
    ensures r <==> p.stock >= quantity
  {
    p.stock >= quantity
  }

  /** Having stock for a quantity means having it for every smaller one. */
  lemma HasStockMonotone(p: Product, q: int, smaller: int)
    requires HasStock(p, q) && smaller <= q
    ensures HasStock(p, smaller)
  {
  }

  /** `isAvailable()`: active with at least one unit, so one unit can always be ordered. */
  function IsAvailable(p: Product): (r: bool)
    ensures r ==> HasStock(p, 1) && p.isActive
    ensures p.isActive && HasStock(p, 1) ==> r
  {
    p.isActive && p.stock > 0
  }

  /** `updateStock(newStock)`: only the stock and `updatedAt` change. */
  function UpdateStock(p: Product, newStock: int, now: int): (r: Product)
    ensures r == p.(stock := newStock, updatedAt := now)
  {
    Product(p.id, p.name, p.description, p.price, newStock, p.isActive, p.createdAt, now)
  }

  /**
   * `update(name?, description?, price?, stock?, isActive?)`. Absent arguments keep the old value
   * (`??` on name, price, stock and isActive). The description distinguishes `undefined`
   * (outer None: keep) from `null` (Some(None): clear).
   */
  function Update(p: Product, name: Option<string>, description: Option<Option<string>>,
                  price: Option<int>, stock: Option<int>, isActive: Option<bool>, now: int): (r: Product)
    ensures r.id == p.id && r.createdAt == p.createdAt && r.updatedAt == now
    ensures name.None? ==> r.name == p.name
    ensures name.Some? ==> r.name == name.value
    ensures description.None? ==> r.description == p.description
    ensures description.Some? ==> r.description == description.value
    ensures price.None? ==> r.price == p.price
    ensures price.Some? ==> r.price == price.value
    ensures stock.None? ==> r.stock == p.stock
    ensures stock.Some? ==> r.stock == stock.value
    ensures isActive.None? ==> r.isActive == p.isActive
    ensures isActive.Some? ==> r.isActive == isActive.value
  {
    Product(
      p.id,
      name.GetOr(p.name),
      if description.Some? then description.value else p.description,
      price.GetOr(p.price),
      stock.GetOr(p.stock),
      isActive.GetOr(p.isActive),
      p.createdAt,
      now)
  }

  /** An update without arguments only refreshes `updatedAt`. */
  lemma UpdateWithNothing(p: Product, now: int)
    ensures Update(p, None, None, None, None, None, now) == p.(updatedAt := now)
  {
  }

  /** A stock-only update, as create-order dispatches it, is exactly `updateStock`. */
  lemma StockOnlyUpdateIsUpdateStock(p: Product, newStock: int, now: int)
    ensures Update(p, None, None, None, Some(newStock), None, now) == UpdateStock(p, newStock, now)
  {
  }

  /** Passing `null` as the description clears it whatever it was. */
  lemma NullDescriptionClears(p: Product, now: int)
    ensures Update(p, None, Some(None), None, None, None, now).description.None?
  {
  }
}
