# Order repository: aggregate ⟷ two-table mapping

This project models the persistence core of the checkout domain, the order repository in
`src/infrastructure/order/repository/sequilize/order.repository.ts`. It maps an `Order`
aggregate (id, customer id, ordered line items) onto two tables:

- `orders`, with columns `id`, `customer_id` and `total`. It is modelled as a `map` from order id
  to `OrderHeader(customerId, total)`.
- `order_items`, with columns `id`, `order_id`, `name`, `price`, `product_id` and `quantity`.
  It is modelled as a `seq<ItemRow>` in table order.

Each repository method is a pure function over that `Store` value:

- `create` inserts one header and one row per item.
- `update` runs its three steps in order: delete the order's rows by `order_id`, bulk-insert the
  new rows, then rewrite the header's `customer_id` and `total`.
- `find` rebuilds an order from its header and rows, or fails with "Order not found".
- `findAll` rebuilds every stored order. The read paths share one per-item reconstruction:
  the unit price is `row.price / row.quantity`.

Modules:

- `Wrappers` (wrappers.dfy): `Option` and `Result`.
- `Domain` (domain.dfy): `Order`, `OrderItem`, and `Accessors`. `Accessors` holds the two domain
  accessors the write paths read: the item's `price` getter and `order.total()`. Their bodies are
  outside this model, so they are parameters.
- `Storage` (storage.dfy): the table pair, the rows an order owns (`Owned`), the rows left after a
  delete by `order_id` (`Others`), the key constraints (`Valid`), and lemmas about them.
- `OrderRepository` (repository.dfy): `Create`, `Update` and its three steps, `RebuildItem`,
  `RebuildItems`, `Find` and `FindAll`.
- `OrderRepositoryProperties` (properties.dfy): round trips, full replace, frame conditions,
  agreement of the two write paths, and preservation of the key constraints.

Choices made where the code leaves room:

- **Price on the write paths.** Both `create` (line 17) and `update` (line 40) store the value of the
  domain item's `price` getter unchanged, so both paths store `acc.price(item)`. The round trip
  `find(create(e)) == e` holds exactly when that getter yields the extended price (`PricesExtended`)
  and no quantity is zero (`CreateThenFind`). If the getter returned the unit price, a read would
  divide it by the quantity a second time (`CreateThenFindVerbatim`, illustrated by
  `UnitPriceGetterHalvesPrice`).
- **Division by zero.** The code divides by the stored quantity unguarded (lines 78 and 106). The model
  makes that case an explicit error, `ZeroQuantity(itemId)`, instead of requiring a non-zero
  quantity of the caller.
- **Key constraints.** The database enforces the primary keys `orders.id` and `order_items.id` and the
  foreign key `order_items.order_id → orders.id`. The model treats their violation as one generic
  `ConstraintViolation`, propagated unchanged.
- **`update` is not atomic.** When its insert step is refused, the delete step has already taken
  effect and stays in place. `Update` returns `Outcome(store, failure)` so this is visible.
- **Header rewrite on a missing key.** The header rewrite matches rows by id. When no header has the
  key, it changes nothing and is not an error.

## Model

| member | source | states |
|---|---|---|
| `Storage.Owned` | src/infrastructure/order/repository/sequilize/order.repository.ts:62-68 | the eagerly loaded items of an order are exactly the rows whose `order_id` is its id, never more rows than the table holds |
| `Storage.Others` | src/infrastructure/order/repository/sequilize/order.repository.ts:29-33 | deleting by `order_id` leaves exactly the rows of other orders |
| `Storage.OwnedOthers` | src/infrastructure/order/repository/sequilize/order.repository.ts:29-33 | after the delete the order owns no rows, and every other order owns the same rows in the same order |
| `Storage.OwnedAfterReplace` | src/infrastructure/order/repository/sequilize/order.repository.ts:29-44 | delete-by-`order_id` followed by an append of the order's new rows leaves the order owning exactly the new rows and every other order unchanged |
| `Storage.OwnedAfterAppend` | src/infrastructure/order/repository/sequilize/order.repository.ts:9-25 | appending the rows of an order that owned none leaves it owning exactly those rows and every other order unchanged |
| `Storage.UniqueOthers` | src/infrastructure/order/repository/sequilize/order.repository.ts:29-33 | deleting rows keeps item ids unique |
| `Storage.UniqueAppend` | src/infrastructure/order/repository/sequilize/order.repository.ts:35-44 | an admissible insert keeps item ids unique |
| `OrderRepository.ToRows` | src/infrastructure/order/repository/sequilize/order.repository.ts:14-20 | one row per domain item, in item order, each carrying the item's id, name, product id and quantity verbatim, the owning order as `order_id`, and the `price` getter's value as price (the same mapping is written again at lines 36-43) |
| `OrderRepository.BulkInsert` | src/infrastructure/order/repository/sequilize/order.repository.ts:35-44 | a multi-row insert succeeds exactly when no item id clashes and every row's order exists; it appends the rows after the existing ones and leaves headers alone; otherwise it fails with a constraint violation |
| `OrderRepository.Create` | src/infrastructure/order/repository/sequilize/order.repository.ts:8-26 | fails with a constraint violation exactly when the order id or an item id is taken. On success it adds one header with the entity's id, customer id and `total()`, leaves the other headers and the existing rows unchanged, and appends one row per item with id, name, product id and quantity copied verbatim, `order_id` set to the entity id and price set to the `price` getter's value |
| `OrderRepository.DeleteItems` | src/infrastructure/order/repository/sequilize/order.repository.ts:29-33 | step 1 of update: headers untouched; the remaining rows are exactly those whose `order_id` differs |
| `OrderRepository.UpdateHeader` | src/infrastructure/order/repository/sequilize/order.repository.ts:46-56 | step 3 of update: only the header with the given key gets the new customer id and total; a missing key changes nothing; rows untouched |
| `OrderRepository.Update` | src/infrastructure/order/repository/sequilize/order.repository.ts:28-57 | succeeds exactly when the new item ids are free among the remaining rows and the order exists (or has no items). The set of header keys never changes, other headers are untouched, and on success the header gets the entity's customer id and total. On success the rows are the other orders' rows in their old order followed by the new rows. On failure the delete step's effect stays and the error is a constraint violation |
| `OrderRepository.RebuildItem` | src/infrastructure/order/repository/sequilize/order.repository.ts:75-81 | a row with non-zero quantity rebuilds to an item with the row's id, name, product id and quantity whose unit price times the quantity is the stored price; quantity zero gives `ZeroQuantity` for that row |
| `OrderRepository.RebuildItems` | src/infrastructure/order/repository/sequilize/order.repository.ts:100-112 | one item per row in row order, each rebuilt as above. It succeeds exactly when no row has quantity zero; otherwise the error names a zero-quantity row |
| `OrderRepository.Rebuild` | src/infrastructure/order/repository/sequilize/order.repository.ts:85 | the order rebuilt from a header and its rows has the given id and the header's customer id, and one rebuilt item per row in row order. It succeeds exactly when no row has quantity zero, and otherwise fails naming a zero-quantity row (the same construction appears at lines 114-118) |
| `OrderRepository.Find` | src/infrastructure/order/repository/sequilize/order.repository.ts:59-88 | fails with the single error "Order not found" exactly when no header has the id. Otherwise it succeeds exactly when none of the order's rows has quantity zero, and returns the header's id and customer id with one rebuilt item per owned row, in row order |
| `OrderRepository.ListedStep` | src/infrastructure/order/repository/sequilize/order.repository.ts:99-121 | adding one more found order to a listing keeps it a listing: each order once and each equal to `find` of its id |
| `OrderRepository.ListedAll` | src/infrastructure/order/repository/sequilize/order.repository.ts:90-124 | a listing over every key has one order per header, every key is found, and an empty table gives an empty listing |
| `OrderRepository.FindAll` | src/infrastructure/order/repository/sequilize/order.repository.ts:90-124 | succeeds exactly when `find` succeeds for every stored id. It then returns one order per header, each id once, each element equal to `find` of its id, and an empty sequence for an empty store. On failure the error is the one `find` gives for some stored id |
| `OrderRepositoryProperties.RebuildWritten` | src/infrastructure/order/repository/sequilize/order.repository.ts:14-20 | rebuilding the rows written for a list of items gives back the same items exactly when the getter stores the extended price and no quantity is zero |
| `OrderRepositoryProperties.RowRoundTrip` | src/infrastructure/order/repository/sequilize/order.repository.ts:75-81 | one row written from an item rebuilds to that item exactly when the getter stored the extended price |
| `OrderRepositoryProperties.RowVerbatim` | src/infrastructure/order/repository/sequilize/order.repository.ts:75-81 | one row written under a getter that returns the unit price rebuilds with the unit price divided by the quantity |
| `OrderRepositoryProperties.RebuildVerbatim` | src/infrastructure/order/repository/sequilize/order.repository.ts:14-20 | under a getter that returns the unit price and non-zero quantities, the written rows rebuild to the same items with each unit price divided by its quantity |
| `OrderRepositoryProperties.CreateStoresItems` | src/infrastructure/order/repository/sequilize/order.repository.ts:9-25 | after create the new order owns exactly the rows written for its items, every other order owns what it owned before, and the key constraints still hold |
| `OrderRepositoryProperties.UpdateReplacesItems` | src/infrastructure/order/repository/sequilize/order.repository.ts:29-44 | full replace: after a successful update the order owns exactly the rows written for the entity's items, whatever it owned before |
| `OrderRepositoryProperties.UpdateKeepsOtherOrders` | src/infrastructure/order/repository/sequilize/order.repository.ts:29-33 | every other order owns the same rows in the same order after update, whether or not the update succeeds |
| `OrderRepositoryProperties.UpdatePreservesValid` | src/infrastructure/order/repository/sequilize/order.repository.ts:28-57 | update keeps unique item ids and the foreign key, also when it stops after the delete step |
| `OrderRepositoryProperties.CreateThenFind` | src/infrastructure/order/repository/sequilize/order.repository.ts:8-88 | `find` after a successful create returns the created order exactly when the getter stores the extended price and no quantity is zero |
| `OrderRepositoryProperties.UpdateThenFind` | src/infrastructure/order/repository/sequilize/order.repository.ts:28-88 | `find` after a successful update of an existing order returns the entity, whatever the order held before, exactly when the getter stores the extended price and no quantity is zero |
| `OrderRepositoryProperties.CreateThenFindVerbatim` | src/infrastructure/order/repository/sequilize/order.repository.ts:8-88 | after create under a getter that returns the unit price, `find` succeeds and returns one item per created item with its unit price divided by its quantity |
| `OrderRepositoryProperties.WritePathsAgree` | src/infrastructure/order/repository/sequilize/order.repository.ts:14-43 | create and update store the same header and the same rows for an entity, so a row's stored price does not depend on which path wrote it |
| `OrderRepositoryProperties.FindReadsOwnOrderOnly` | src/infrastructure/order/repository/sequilize/order.repository.ts:59-88 | `find` depends only on the order's header and its own rows, so after either write path it reads back the same result |
| `OrderRepositoryProperties.UnitPriceGetterHalvesPrice` | src/infrastructure/order/repository/sequilize/order.repository.ts:17-78 | with a getter that returns the unit price, an item of unit price 10 and quantity 2 is created and reads back with unit price 5 |

## Left out

- Sequelize, `async`/`Promise` plumbing and eager-loading mechanics (`include`, `rejectOnEmpty`). Only their effect on the table pair is modelled.
- The domain classes: the `Order` and `OrderItem` constructors and their validation, the `price` getter and `total()`. Construction is plain record construction. The two accessors are the `Accessors` parameter.
- JavaScript floating-point arithmetic. Prices are `real`, so division is exact and there is no rounding.
- OrderRepository.RebuildItem: a row with quantity zero ends the read with `ZeroQuantity`. The source would instead build an item with an infinite or NaN unit price.
- Failures of the storage layer other than key constraints, such as connection errors or timeouts. In `find` the source turns any lookup failure into "Order not found"; the model has only the missing-key cause.
- OrderRepository.Create: all or nothing. The ORM's nested insert may run without a transaction, so an item row refused after the header was written is not modelled.
- Failures of the delete step and the header-rewrite step of `update`. Only the insert step can fail in the model, because only it can break a key.
- Concurrency: interleaving of the three `update` steps with other writers, and transactions.
- Table order. Eager-loaded items are taken in table order and `findAll` visits headers in an arbitrary order. SQL guarantees neither ordering.
