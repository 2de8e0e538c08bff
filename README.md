# Order workflow of the e-commerce backend, in Dafny

This project models the order workflow of a NestJS e-commerce backend (users, products, orders)
over a store that holds a product table and an order table. It covers:

- the four handlers that write to the store: product update, order creation, order status
  update and order item replacement;
- the domain entities `Order`, `OrderItem`, `Product` and `User`, with their derived values;
- the read side: the owner-scoped order lookup, the per-user order listing, and the
  selection and page arithmetic of `PrismaOrderRepository.findByUserId` and `existsById`;
- the `PaginationDto` bounds, defaults and getters.

Money is whole integers (cents, say), timestamps are opaque integers, and a `now` parameter
stands for the clock. Error kinds are modelled, not messages (`Failures.Failure`).

Layout, one module per file:

| file | module | models |
|---|---|---|
| `wrappers.dfy` | `Wrappers` | `Option` and `Result` |
| `failures.dfy` | `Failures` | the exceptions the handlers throw, by kind and guard |
| `order_entity.dfy` | `OrderEntity` | `Order`, `OrderItem`, `OrderStatus` |
| `product_entity.dfy` | `ProductEntity` | `Product` |
| `user_entity.dfy` | `UserEntity` | `User`, with JavaScript's `trim` |
| `pagination.dfy` | `Pagination` | `PaginationDto` |
| `order_repository.dfy` | `OrderRepository` | `findByUserId` selection and counters, `existsById` |
| `order_queries.dfy` | `OrderQueries` | `GetOrderByIdHandler`, `GetUserOrdersHandler` |
| `order_placement.dfy` | `OrderPlacement` | what `CreateOrderHandler` does to the catalogue, as a function |
| `item_replacement.dfy` | `ItemReplacement` | what `UpdateOrderItemsHandler` does, as a function |
| `status_workflow.dfy` | `StatusWorkflow` | the decision of `UpdateOrderStatusHandler` |
| `shop.dfy` | `Shop` | class `Store` and its handler methods, proved against the functions above |

`Shop.Store` holds `products: map<string, Product>` and `orders: map<string, Order>`. Its
invariant `Valid()` says every row sits under its own id, no stock is negative, every order's
total is the sum of its lines' subtotals and every stored order item has a quantity of at least 1. Every method keeps it. The handlers are methods on the
store. `CreateOrder` runs the item loop and writes each stock through `UpdateProduct`, as the
source dispatches an `UpdateProductCommand`. `UpdateOrderItems` stages every write and commits
at the end, the way the surrounding database transaction makes the handler all-or-nothing.

Where the code does not do what an order workflow is usually expected to do (undo on failure, one
ownership rule, a table of status transitions), the model follows the code:

- Order creation has no rollback. A failure on item k keeps the stock writes of items
  1 .. k-1 (`OrderPlacement.LaterFailureKeepsEarlierWrites`, `OrderPlacement.NoRollbackExample`).
- The two order handlers treat another user's order differently. The status update reports it
  as not found. Item replacement reports it as forbidden. Item replacement also refuses SHIPPED
  orders, which the status update accepts (`StatusWorkflow.ShippedAndForeignAsymmetry`).
- The status update has no transition table. Any order that is not DELIVERED or CANCELLED may
  take any status, PENDING included (`StatusWorkflow.EveryTargetFromLiveStatus`).
- Item replacement does not look at `isActive` (`ItemReplacement.InactiveProductAccepted`).

## Model

| member | source | states |
|---|---|---|
| OrderEntity.CreateItem | src/modules/orders/domain/entities/order-item.entity.ts:12-27 | stores order id, product id, quantity and price in that positional order; the id is left unassigned |
| OrderEntity.Subtotal | src/modules/orders/domain/entities/order-item.entity.ts:29-31 | non-negative for a non-negative price and quantity; zero for quantity zero |
| OrderEntity.SumSubtotalsAppend | src/modules/orders/domain/entities/order.entity.ts:30 | the sum of subtotals splits over concatenation |
| OrderEntity.SumQuantitiesAppend | src/modules/orders/domain/entities/order.entity.ts:70 | the sum of quantities splits over concatenation |
| OrderEntity.SumSubtotalsNonNegative | src/modules/orders/domain/entities/order.entity.ts:27-30 | lines with non-negative prices and quantities have a non-negative total |
| OrderEntity.CreateOrder | src/modules/orders/domain/entities/order.entity.ts:22-41 | status PENDING, the given user and items, no id; an explicit total is kept verbatim, otherwise the total is the sum of subtotals |
| OrderEntity.CanBeCancelled | src/modules/orders/domain/entities/order.entity.ts:43-48 | holds iff the status is PENDING or CONFIRMED, and implies `CanBeUpdated` |
| OrderEntity.CanBeUpdated | src/modules/orders/domain/entities/order.entity.ts:50-55 | holds iff the status is not terminal, i.e. PENDING, CONFIRMED or SHIPPED |
| OrderEntity.CancellableIsStrictlySmaller | src/modules/orders/domain/entities/order.entity.ts:43-55 | the two guards differ exactly on SHIPPED |
| OrderEntity.UpdateStatus | src/modules/orders/domain/entities/order.entity.ts:57-67 | sets the status and the update time; keeps id, user, total, items and creation time |
| OrderEntity.ItemCount | src/modules/orders/domain/entities/order.entity.ts:69-71 | 0 for no items; at least the number of items when every quantity is at least 1 |
| OrderEntity.QuantitiesAtLeastLength | src/modules/orders/domain/entities/order.entity.ts:69-71 | items of quantity at least 1 hold at least as many units as there are items |
| ProductEntity.Create | src/modules/products/domain/entities/product.entity.ts:13-29 | the given fields, active, no id, both times `now` |
| ProductEntity.HasStock | src/modules/products/domain/entities/product.entity.ts:35-37 | holds iff the stock covers the quantity |
| ProductEntity.HasStockMonotone | src/modules/products/domain/entities/product.entity.ts:35-37 | stock for q units is stock for any smaller quantity |
| ProductEntity.IsAvailable | src/modules/products/domain/entities/product.entity.ts:31-33 | holds iff the product is active and has stock for one unit |
| ProductEntity.UpdateStock | src/modules/products/domain/entities/product.entity.ts:39-50 | changes only the stock and the update time |
| ProductEntity.Update | src/modules/products/domain/entities/product.entity.ts:52-69 | each absent argument keeps its field, each present one replaces it; id and creation time kept |
| ProductEntity.UpdateWithNothing | src/modules/products/domain/entities/product.entity.ts:52-69 | an update without arguments changes only the update time |
| ProductEntity.StockOnlyUpdateIsUpdateStock | src/modules/products/domain/entities/product.entity.ts:52-69 | a stock-only update is `updateStock` |
| ProductEntity.NullDescriptionClears | src/modules/products/domain/entities/product.entity.ts:62 | a `null` description clears it, where `undefined` keeps it |
| UserEntity.Create | src/modules/users/domain/entities/user.entity.ts:13-29 | the given fields, active, no id |
| UserEntity.IsActiveUser | src/modules/users/domain/entities/user.entity.ts:35-37 | returns the `isActive` flag |
| UserEntity.TrimStart | src/modules/users/domain/entities/user.entity.ts:32 | a suffix of the input that is empty or starts with non-whitespace |
| UserEntity.TrimStartDropsWhitespace | src/modules/users/domain/entities/user.entity.ts:32 | only whitespace is removed at the start |
| UserEntity.TrimEnd | src/modules/users/domain/entities/user.entity.ts:32 | a prefix of the input that is empty or ends with non-whitespace |
| UserEntity.TrimEndDropsWhitespace | src/modules/users/domain/entities/user.entity.ts:32 | only whitespace is removed at the end |
| UserEntity.Trim | src/modules/users/domain/entities/user.entity.ts:32 | a slice of the input starting where the leading whitespace ends |
| UserEntity.TrimLeavesNoOuterWhitespace | src/modules/users/domain/entities/user.entity.ts:32 | the result neither starts nor ends with whitespace |
| UserEntity.TrimEmptyIffBlank | src/modules/users/domain/entities/user.entity.ts:32 | the result is empty iff the input is all whitespace |
| UserEntity.TrimUnchanged | src/modules/users/domain/entities/user.entity.ts:32 | trimming a string without outer whitespace returns it |
| UserEntity.FullName | src/modules/users/domain/entities/user.entity.ts:31-33 | never starts or ends with whitespace |
| UserEntity.FullNameOfNoNames | src/modules/users/domain/entities/user.entity.ts:31-33 | no first and no last name give the empty string |
| UserEntity.FullNameOfBothNames | src/modules/users/domain/entities/user.entity.ts:31-33 | trimmed first and last names give `first + " " + last` |
| Pagination.FromQuery | src/shared/domain/dto/pagination.dto.ts:6-29 | accepted iff page is at least 1 and limit is within 1..100 after the defaults 1 and 10 apply |
| Pagination.Offset | src/shared/domain/dto/pagination.dto.ts:31-33 | non-negative within the bounds, 0 on the first page |
| Pagination.Take | src/shared/domain/dto/pagination.dto.ts:35-37 | within 1..100 within the bounds |
| Pagination.NextPageFollows | src/shared/domain/dto/pagination.dto.ts:31-37 | the next page's offset is this offset plus take |
| Pagination.PagesDoNotOverlap | src/shared/domain/dto/pagination.dto.ts:31-37 | any later page starts at or after the end of an earlier one |
| OrderRepository.OfUser | src/modules/orders/infrastructure/persistence/prisma-order.repository.ts:55-57 | exactly the user's rows, with their multiplicities |
| OrderRepository.Insert | src/modules/orders/infrastructure/persistence/prisma-order.repository.ts:61 | adds exactly the one order to the list |
| OrderRepository.InsertKeepsNewestFirst | src/modules/orders/infrastructure/persistence/prisma-order.repository.ts:61 | inserting into a newest-first list keeps it newest first |
| OrderRepository.SortNewestFirst | src/modules/orders/infrastructure/persistence/prisma-order.repository.ts:61 | newest first, and a permutation of its input |
| OrderRepository.Window | src/modules/orders/infrastructure/persistence/prisma-order.repository.ts:62-63 | `skip`/`take`: the elements from the offset on, at most `limit` of them |
| OrderRepository.CeilDiv | src/modules/orders/infrastructure/persistence/prisma-order.repository.ts:70 | the least count of pages that holds `total` entries |
| OrderRepository.Counters | src/modules/orders/infrastructure/persistence/prisma-order.repository.ts:70-104 | page and limit echoed; `hasNext` iff orders lie beyond this page; `hasPrev` iff this page does not start at the first order |
| OrderRepository.FindByUserId | src/modules/orders/infrastructure/persistence/prisma-order.repository.ts:48-106 | the counters are computed over all of the user's orders with the defaults 1 and 10 |
| OrderRepository.WindowNewestFirst | src/modules/orders/infrastructure/persistence/prisma-order.repository.ts:61-63 | a window of a newest-first list is newest first |
| OrderRepository.WindowOfUserRows | src/modules/orders/infrastructure/persistence/prisma-order.repository.ts:55-63 | every order of the page is one of the user's rows |
| OrderRepository.FindByUserIdSelectsPage | src/modules/orders/infrastructure/persistence/prisma-order.repository.ts:53-64 | the page holds only the user's orders, newest first, at most `limit` of them |
| OrderRepository.FindByUserIdShape | src/modules/orders/infrastructure/persistence/prisma-order.repository.ts:48-70 | the page is the window at offset `(page - 1) * limit`, `limit` long, of the user's orders sorted newest first; the counters echo page and limit and count all of the user's orders |
| OrderRepository.FindByUserIdPageSize | src/modules/orders/infrastructure/persistence/prisma-order.repository.ts:50-70 | the page's length: `limit` while enough orders remain, the rest on the last page, none past the end |
| OrderRepository.TotalIgnoresPage | src/modules/orders/infrastructure/persistence/prisma-order.repository.ts:65-70 | total and page count do not depend on the page asked for |
| OrderRepository.HasNextMeansMoreOrders | src/modules/orders/infrastructure/persistence/prisma-order.repository.ts:102 | `page < totalPages` iff orders lie beyond the page |
| OrderRepository.HasPrevMeansEarlierOrders | src/modules/orders/infrastructure/persistence/prisma-order.repository.ts:103 | `page > 1` iff the page does not start at the first order |
| OrderRepository.CountWithId | src/modules/orders/infrastructure/persistence/prisma-order.repository.ts:189-191 | positive iff some row has the id |
| OrderRepository.ExistsById | src/modules/orders/infrastructure/persistence/prisma-order.repository.ts:188-194 | holds iff some row has the id |
| OrderRepository.ExistsByIdIsKeyMembership | src/modules/orders/infrastructure/persistence/prisma-order.repository.ts:188-194 | over a table listing a keyed store, it is key membership |
| OrderQueries.ViewItems | src/modules/orders/application/handlers/get-order-by-id.handler.ts:32-38 | same length and order; fields copied; each subtotal is price times quantity |
| OrderQueries.ViewKeepsQuantities | src/modules/orders/application/handlers/get-order-by-id.handler.ts:31-38 | the projected lines hold as many units as the order |
| OrderQueries.ViewOrder | src/modules/orders/application/handlers/get-order-by-id.handler.ts:26-41 | fields copied; the lines are the projection of the order's items; `itemCount` is the order's units, which equal the units of the projected lines |
| OrderQueries.GetOrderById | src/modules/orders/application/handlers/get-order-by-id.handler.ts:13-41 | a view iff the order exists and belongs to the user, else not found |
| OrderQueries.ForeignOrderLooksMissing | src/modules/orders/application/handlers/get-order-by-id.handler.ts:17-24 | another user's order answers exactly like a missing one |
| OrderQueries.ViewOrders | src/modules/orders/application/handlers/get-user-orders.handler.ts:20-35 | one view per order, in order |
| OrderQueries.GetUserOrders | src/modules/orders/application/handlers/get-user-orders.handler.ts:13-37 | asks for the query's user, page and limit; projects the page; passes the counters through |
| OrderQueries.UserOrdersAreOwnNewestFirst | src/modules/orders/application/handlers/get-user-orders.handler.ts:17-36 | the listing shows at most `limit` of the user's own orders, newest first |
| OrderPlacement.CheckItem | src/modules/orders/application/handlers/create-order.handler.ts:41-63 | passes iff the product exists, is active and has the stock; a missing product fails first, then an inactive one |
| OrderPlacement.Line | src/modules/orders/application/handlers/create-order.handler.ts:66-70 | the corrected line keeps product, quantity and price, with subtotal price times quantity |
| OrderPlacement.FailureSticks | src/modules/orders/application/handlers/create-order.handler.ts:36-63 | once an item fails, later items change nothing |
| OrderPlacement.PlaceKeepsCatalogue | src/modules/orders/application/handlers/create-order.handler.ts:76-85 | the run neither adds nor removes products and changes only stocks and update times |
| OrderPlacement.PlaceLines | src/modules/orders/application/handlers/create-order.handler.ts:36-72 | on success, one line per item, in request order, at the product's price |
| OrderPlacement.PlaceTotal | src/modules/orders/application/handlers/create-order.handler.ts:34-93 | on success, one line per item in order at the product's price; total is Σ price × quantity and the sum of the subtotals |
| OrderPlacement.PlaceStock | src/modules/orders/application/handlers/create-order.handler.ts:76-85 | on success every product has lost exactly the units requested of it |
| OrderPlacement.PlaceNeverOversells | src/modules/orders/application/handlers/create-order.handler.ts:56-85 | success or not, a catalogue without negative stock keeps none |
| OrderPlacement.AcceptNeverOversells | src/modules/orders/application/handlers/create-order.handler.ts:56-76 | one write after a passed stock check leaves no negative stock |
| OrderPlacement.FirstItemFailureWritesNothing | src/modules/orders/application/handlers/create-order.handler.ts:41-63 | a failing first item writes no stock and reports its failure |
| OrderPlacement.LaterFailureKeepsEarlierWrites | src/modules/orders/application/handlers/create-order.handler.ts:76-109 | a failure on item k keeps the writes of the earlier items |
| OrderPlacement.NoRollbackExample | src/modules/orders/application/handlers/create-order.handler.ts:76-109 | two units taken from a stock of 5, then a missing product: the stock stays at 3 |
| OrderPlacement.SingleItemExample | src/modules/orders/application/handlers/create-order.handler.ts:36-93 | two units at price 100 from a stock of 5: total 200, stock 3 |
| OrderPlacement.LineAsWrittenLosesRequest | src/modules/orders/application/handlers/create-order.handler.ts:66-70 | the three-argument call puts the quantity in the product slot and leaves the price undefined |
| ItemReplacement.CreditHoldsOldQuantities | src/modules/orders/application/handlers/update-order-items.handler.ts:54-60 | the seeded map holds per product the sum of its old quantities, and only those products |
| ItemReplacement.HeldNonNegative | src/modules/orders/application/handlers/update-order-items.handler.ts:54-60 | old quantities credit, never debit |
| ItemReplacement.CheckLine | src/modules/orders/application/handlers/update-order-items.handler.ts:66-83 | passes iff the product exists and stock plus credit minus quantity is not negative |
| ItemReplacement.NewLine | src/modules/orders/application/handlers/update-order-items.handler.ts:86-109 | the stored line carries the order, product, quantity and current price |
| ItemReplacement.ValidateFailureSticks | src/modules/orders/application/handlers/update-order-items.handler.ts:65-91 | once an item fails, later items change nothing |
| ItemReplacement.ValidateNetDelta | src/modules/orders/application/handlers/update-order-items.handler.ts:75-83 | after validation each entry is its credit minus the units requested |
| ItemReplacement.ValidateLineItems | src/modules/orders/application/handlers/update-order-items.handler.ts:65-90 | on success, one line per item, in request order, at the current price |
| ItemReplacement.ValidateLines | src/modules/orders/application/handlers/update-order-items.handler.ts:85-90 | one line per item in order at the current price; total is Σ price × quantity and the sum of the subtotals |
| ItemReplacement.ValidateCovered | src/modules/orders/application/handlers/update-order-items.handler.ts:78-83 | every entry stays a credit or a debit the stock covers |
| ItemReplacement.ValidateFailsWithBadRequest | src/modules/orders/application/handlers/update-order-items.handler.ts:69-82 | validation fails only with a bad request |
| ItemReplacement.DemandGrows | src/modules/orders/application/handlers/update-order-items.handler.ts:75-83 | more items never request fewer units |
| ItemReplacement.ValidateSucceedsIffFeasible | src/modules/orders/application/handlers/update-order-items.handler.ts:65-91 | validation passes iff every product exists and covers all its requested units net of the credit |
| ItemReplacement.Bumped | src/modules/orders/application/handlers/update-order-items.handler.ts:94-101 | the increments keep the product set and change only stocks |
| ItemReplacement.ApplyChanges | src/modules/orders/application/handlers/update-order-items.handler.ts:94-101 | succeeds iff every non-zero delta names a product; each stock moves by its delta; zero deltas write nothing |
| ItemReplacement.ReplaceItems | src/modules/orders/application/handlers/update-order-items.handler.ts:36-114 | guards in order (not found, forbidden, not editable); any failure leaves both tables unchanged; success returns the id and keeps status, owner and other orders |
| ItemReplacement.NetDelta | src/modules/orders/application/handlers/update-order-items.handler.ts:93-101 | on success each stock changes by old units minus new units; products with equal counts are untouched |
| ItemReplacement.NeverNegative | src/modules/orders/application/handlers/update-order-items.handler.ts:78-99 | with non-negative stocks and old quantities, no stock ends negative |
| ItemReplacement.NewItemsAtLivePrices | src/modules/orders/application/handlers/update-order-items.handler.ts:85-111 | on success the items are the new list at current prices; total is Σ current price × quantity |
| ItemReplacement.RejectsExactlyInfeasible | src/modules/orders/application/handlers/update-order-items.handler.ts:65-91 | past the guards, a bad request comes iff the request is infeasible |
| ItemReplacement.GuardsIgnoreCatalogue | src/modules/orders/application/handlers/update-order-items.handler.ts:42-52 | a failing guard answers the same whatever the catalogue |
| ItemReplacement.SwapProductExample | src/modules/orders/application/handlers/update-order-items.handler.spec.ts:64-117 | two old units of one product swapped for one of another: +2, -1, total 50, result the order id |
| ItemReplacement.ReorderSameProductExample | src/modules/orders/application/handlers/update-order-items.handler.ts:54-101 | 2 held, 5 requested, 10 in stock: 7 remain |
| ItemReplacement.InactiveProductAccepted | src/modules/orders/application/handlers/update-order-items.handler.ts:66-83 | an inactive product is accepted |
| StatusWorkflow.DecideStatus | src/modules/orders/application/handlers/update-order-status.handler.ts:21-39 | fails iff the order is missing, foreign or terminal; missing and foreign give the same not-found; success sets the status and keeps the rest |
| StatusWorkflow.TerminalOrdersAreFinal | src/modules/orders/application/handlers/update-order-status.handler.ts:32-36 | a DELIVERED or CANCELLED order cannot change |
| StatusWorkflow.EveryTargetFromLiveStatus | src/modules/orders/application/handlers/update-order-status.handler.ts:39 | a live order takes any target status |
| StatusWorkflow.ForeignOrderLooksMissing | src/modules/orders/application/handlers/update-order-status.handler.ts:21-29 | another user's order answers exactly like a missing one |
| StatusWorkflow.ShippedAndForeignAsymmetry | src/modules/orders/application/handlers/update-order-status.handler.ts:27-36 | the status update accepts SHIPPED and hides foreign orders; item replacement refuses SHIPPED and forbids foreign orders |
| Shop.SeedChanges | src/modules/orders/application/handlers/update-order-items.handler.ts:54-60 | the loop builds exactly the seeded delta map |
| Shop.ValidateItems | src/modules/orders/application/handlers/update-order-items.handler.ts:62-91 | the loop computes exactly `Validate` |
| Shop.StageChanges | src/modules/orders/application/handlers/update-order-items.handler.ts:93-101 | the loop computes exactly `ApplyChanges` |
| Shop.ReplaceItemsKeepsConsistent | src/modules/orders/application/handlers/update-order-items.handler.ts:36-114 | a replacement keeps ids under their keys, stocks non-negative, each order's total equal to the sum of its subtotals, and item quantities at least 1 |
| OrderEntity.LinkItems | src/modules/orders/infrastructure/persistence/prisma-order.repository.ts:115-120 | the stored lines are the order's lines in order, each linked to the saved order and otherwise unchanged |
| OrderEntity.LinkKeepsSubtotals | src/modules/orders/infrastructure/persistence/prisma-order.repository.ts:115-120 | linking the stored lines to their order keeps the sum of their subtotals |
| Shop.ReplaceItemsKeepsCatalogue | src/modules/orders/application/handlers/update-order-items.handler.ts:93-101 | the increments keep every product under its id and no stock negative |
| Shop.ReplaceItemsKeepsOrders | src/modules/orders/application/handlers/update-order-items.handler.ts:103-113 | the rewritten order keeps its id, its total is the sum of its new lines' subtotals, and every quantity is at least 1 |
| Shop.SavedOrderKeepsConsistent | src/modules/orders/application/handlers/create-order.handler.ts:92-96 | saving the order of a successful run under a fresh id keeps ids under their keys, stocks non-negative, each order's total equal to the sum of its subtotals, and item quantities at least 1 |
| Shop.Store.UpdateProduct | src/modules/products/application/handlers/update-product.handler.ts:16-42 | unknown id: not found, nothing written; otherwise stores `existing.update(...)` and returns id and name |
| Shop.Store.PlaceItems | src/modules/orders/application/handlers/create-order.handler.ts:33-90 | the loop ends with exactly the catalogue, lines, total and failure of `Place`, writing each stock through `UpdateProduct`; orders untouched |
| Shop.Store.CreateOrder | src/modules/orders/application/handlers/create-order.handler.ts:24-110 | the catalogue ends as `Place` leaves it; the order is saved once, PENDING, for the user, only on success, with the accumulated total and its lines linked to it |
| Shop.Store.UpdateOrderStatus | src/modules/orders/application/handlers/update-order-status.handler.ts:15-48 | stores what `DecideStatus` yields and returns id and status; the catalogue is untouched |
| Shop.Store.UpdateOrderItems | src/modules/orders/application/handlers/update-order-items.handler.ts:31-116 | the store ends exactly as `ReplaceItems` says, and stays valid |

## Left out

- HTTP controllers, response envelopes, exception filters, module wiring, authentication and
  security middleware: plumbing around the handlers.
- The validators' checks are preconditions: a non-empty item list with quantities of at least 1
  (`WellFormed`), and non-negative price and stock on a product update.
- Prisma row conversion and `Decimal`/`Number` arithmetic: money is whole integers.
- Fractional quantities, pages and limits: the validators require only numbers (`@IsNumber`
  with `@Min`, no `@IsInt`), so a quantity of 1.5 or a page of 2.5 is accepted. The model takes
  integers, so it does not capture fractional stocks, fractional offsets, or the database write
  that then fails after earlier stock writes of order creation have landed.
- Concurrency and isolation: the store is sequential, so the lost update between create-order's
  stock read and its write cannot be expressed.
- Database-generated ids: new orders get the id passed to `Shop.Store.CreateOrder`; order item
  ids are left unassigned. The lines of a created order are linked to that id when it is saved
  (`OrderEntity.LinkItems`), as the nested create does.
- Database-managed `updatedAt`: the increments of item replacement and its order write do not
  touch update times.
- The order in which item replacement visits the delta map: the model visits it in any order,
  since each product is written once and a failure undoes everything.
- Log calls and the text of error messages.
- OrderRepository.SortNewestFirst: orders created at the same instant keep their row order; the
  database leaves that order unspecified.
- OrderRepository.FindByUserId: requires page and limit of at least 1, which the pagination
  bounds guarantee; the repository itself does not check them.
- OrderQueries.GetUserOrders: requires page and limit of at least 1, for the same reason.
- Shop.Store.CreateOrder: takes the new order's id as a parameter instead of letting the
  database assign it.

## Findings

| source | as written | input that shows it | evidently intended | confidence | as-written member | corrected member |
|---|---|---|---|---|---|---|
| src/modules/orders/application/handlers/create-order.handler.ts:66-70 | `OrderItem.create(productId, quantity, price)` binds to the four parameters `(orderId, productId, quantity, price)` | any item, e.g. product "p1", quantity 2, price 100: the line's product id holds 2, its quantity 100, its price is undefined and its subtotal NaN; `save` (prisma-order.repository.ts:116-119) then writes the number 2 as `productId` and an undefined `price`, so every order creation fails at the save, after all its stock writes have landed | `OrderItem.create(undefined, productId, quantity, price)`: product, quantity and price in their own fields | high, not executed | OrderPlacement.LineAsWrittenLosesRequest | OrderPlacement.PlaceLines |
