/** The order repository: `create`, `update`, `find` and `findAll` as
    transitions and queries over a `Store`. */
module OrderRepository {
  import opened Wrappers
  import opened Domain
  import opened Storage

  // ---------------------------------------------------------------- writing

  /** The row both write paths build for `item` of order `orderId`. */
  function ToRow(orderId: OrderId, item: OrderItem, acc: Accessors): ItemRow {
    ItemRow(item.id, orderId, item.name, acc.price(item), item.productId, item.quantity)
  }

  /** The rows both write paths build for `items` of order `orderId`: one per
      item, in item order, each a verbatim copy of its item. */
  function ToRows(orderId: OrderId, items: seq<OrderItem>, acc: Accessors): (r: seq<ItemRow>)
    ensures |r| == |items|
    ensures forall i :: 0 <= i < |items| ==> Copied(r[i], orderId, items[i], acc)
  {
    seq(|items|, i requires 0 <= i < |items| => ToRow(orderId, items[i], acc))
  }

  /** `row` stores `item` of order `orderId`: id, name, product id and quantity
      verbatim, the owning order as foreign key, and as price whatever the
      item's `price` getter returns. */
  predicate Copied(row: ItemRow, orderId: OrderId, item: OrderItem, acc: Accessors) {
    && row.id == item.id
    && row.orderId == orderId
    && row.name == item.name
    && row.price == acc.price(item)
    && row.productId == item.productId
    && row.quantity == item.quantity
  }

  /** A multi-row insert into `order_items`: all rows or none, refused when a
      primary or foreign key would break. */
  function BulkInsert(s: Store, incoming: seq<ItemRow>): (r: Result<Store, Error>)
    ensures r.Ok? <==> Admissible(s.rows, incoming) && forall row :: row in incoming ==> row.orderId in s.headers
    ensures r.Ok? ==> r.value.headers == s.headers && r.value.rows == s.rows + incoming
    ensures r.Err? ==> r.error == ConstraintViolation
  {
    if Admissible(s.rows, incoming) && forall row :: row in incoming ==> row.orderId in s.headers then
      Ok(Store(s.headers, s.rows + incoming))
    else
      Err(ConstraintViolation)
  }

  /** `create(entity)`: one insert of the header (id, customer id, total) with
      one item row per domain item. A key clash refuses the whole insert. */
  function Create(s: Store, e: Order, acc: Accessors): (r: Result<Store, Error>)
    ensures r.Err? <==> e.id in s.headers || !Admissible(s.rows, ToRows(e.id, e.items, acc))
    ensures r.Err? ==> r.error == ConstraintViolation
    ensures r.Ok? ==> r.value.headers.Keys == s.headers.Keys + {e.id}
    ensures r.Ok? ==> r.value.headers[e.id] == OrderHeader(e.customerId, acc.total(e))
    ensures r.Ok? ==> forall id :: id in s.headers ==> r.value.headers[id] == s.headers[id]
    ensures r.Ok? ==> |r.value.rows| == |s.rows| + |e.items| && r.value.rows[..|s.rows|] == s.rows
    ensures r.Ok? ==> forall i :: 0 <= i < |e.items| ==> Copied(r.value.rows[|s.rows| + i], e.id, e.items[i], acc)
  {
    if e.id in s.headers then
      Err(ConstraintViolation)
    else
      var withHeader := Store(s.headers[e.id := OrderHeader(e.customerId, acc.total(e))], s.rows);
      BulkInsert(withHeader, ToRows(e.id, e.items, acc))
  }

  /** What `update` leaves behind: the store after the steps that ran, and the
      error of the step that failed, if one did. Earlier steps are not undone. */
  datatype Outcome = Outcome(store: Store, failure: Option<Error>)

  /** Step 1 of `update`: delete every item row whose `order_id` is `id`. */
  function DeleteItems(s: Store, id: OrderId): (r: Store)
    ensures r.headers == s.headers
    ensures forall row :: row in r.rows <==> row in s.rows && row.orderId != id
  {
    Store(s.headers, Others(s.rows, id))
  }

  /** Step 3 of `update`: rewrite the header with key `id`; a key that matches
      no header updates nothing and is not an error. */
  function UpdateHeader(s: Store, id: OrderId, h: OrderHeader): (r: Store)
    ensures r.rows == s.rows && r.headers.Keys == s.headers.Keys
    ensures id in s.headers ==> r.headers[id] == h
    ensures forall k :: k in s.headers && k != id ==> r.headers[k] == s.headers[k]
  {
    if id in s.headers then Store(s.headers[id := h], s.rows) else s
  }

  /** `update(entity)`: delete the order's item rows, insert one row per domain
      item, then rewrite the header's customer id and total. */
  function Update(s: Store, e: Order, acc: Accessors): (r: Outcome)
    ensures r.failure.None? <==>
      Admissible(Others(s.rows, e.id), ToRows(e.id, e.items, acc)) && (e.id in s.headers || |e.items| == 0)
    ensures r.failure.Some? ==> r.failure.value == ConstraintViolation && r.store == DeleteItems(s, e.id)
    ensures r.store.headers.Keys == s.headers.Keys
    ensures forall id :: id in s.headers && id != e.id ==> r.store.headers[id] == s.headers[id]
    ensures r.failure.None? && e.id in s.headers ==> r.store.headers[e.id] == OrderHeader(e.customerId, acc.total(e))
    ensures r.failure.None? ==> r.store.rows == Others(s.rows, e.id) + ToRows(e.id, e.items, acc)
  {
    var incoming := ToRows(e.id, e.items, acc);
    var deleted := DeleteItems(s, e.id);
    assert |incoming| > 0 ==> incoming[0] in incoming;
    match BulkInsert(deleted, incoming)
    case Err(err) => Outcome(deleted, Some(err))
    case Ok(inserted) =>
      assert inserted.rows == deleted.rows + incoming;
      Outcome(UpdateHeader(inserted, e.id, OrderHeader(e.customerId, acc.total(e))), None)
  }

  // ---------------------------------------------------------------- reading

  /** `item` is the domain item rebuilt from `row`: the row's id, name, product
      id and quantity, and a unit price that times the quantity gives back the
      stored price (so the quantity cannot be zero). */
  predicate Reconstructs(item: OrderItem, row: ItemRow) {
    && item.id == row.id
    && item.name == row.name
    && item.productId == row.productId
    && item.quantity == row.quantity
    && row.quantity != 0
    && item.unitPrice * (row.quantity as real) == row.price
  }

  predicate AllReconstruct(items: seq<OrderItem>, rows: seq<ItemRow>) {
    && |items| == |rows|
    && forall i :: 0 <= i < |rows| ==> Reconstructs(items[i], rows[i])
  }

  /** The per-item reconstruction shared by `find` and `findAll`: the unit
      price is the stored price divided by the stored quantity. */
  function RebuildItem(row: ItemRow): (r: Result<OrderItem, Error>)
    ensures r.Ok? <==> row.quantity != 0
    ensures r.Ok? ==> Reconstructs(r.value, row)
    ensures r.Err? ==> r.error == ZeroQuantity(row.id)
  {
    if row.quantity == 0 then
      Err(ZeroQuantity(row.id))
    else
      Ok(OrderItem(row.id, row.name, row.price / (row.quantity as real), row.productId, row.quantity))
  }

  /** Rebuild one item per row, in row order; the first row with quantity zero
      stops the rebuild. */
  function RebuildItems(rows: seq<ItemRow>): (r: Result<seq<OrderItem>, Error>)
    ensures r.Ok? <==> forall i :: 0 <= i < |rows| ==> rows[i].quantity != 0
    ensures r.Ok? ==> AllReconstruct(r.value, rows)
    ensures r.Err? ==> exists i :: 0 <= i < |rows| && rows[i].quantity == 0 && r.error == ZeroQuantity(rows[i].id)
  {
    if |rows| == 0 then
      Ok([])
    else
      var item :- RebuildItem(rows[0]);
      var rest :- RebuildItems(rows[1..]);
      Ok([item] + rest)
  }

  /** The reconstruction shared by `find` and `findAll`: the order with key
      `id`, the header's customer id, and one rebuilt item per row in row order. */
  function Rebuild(id: OrderId, h: OrderHeader, rows: seq<ItemRow>): (r: Result<Order, Error>)
    ensures r.Ok? <==> forall i :: 0 <= i < |rows| ==> rows[i].quantity != 0
    ensures r.Ok? ==> r.value.id == id && r.value.customerId == h.customerId && AllReconstruct(r.value.items, rows)
    ensures r.Err? ==> exists i :: 0 <= i < |rows| && rows[i].quantity == 0 && r.error == ZeroQuantity(rows[i].id)
  {
    var items :- RebuildItems(rows);
    Ok(Order(id, h.customerId, items))
  }

  /** `find(id)`: the order with key `id` rebuilt from its header and its item
      rows, or the single "Order not found" failure when no header has key `id`. */
  function Find(s: Store, id: OrderId): (r: Result<Order, Error>)
    ensures r == Err(NotFound) <==> id !in s.headers
    ensures r == Err(NotFound) ==> r.error.Message() == "Order not found"
    ensures r.Ok? <==> id in s.headers && forall row :: row in Owned(s.rows, id) ==> row.quantity != 0
    ensures r.Ok? ==> && r.value.id == id
                      && r.value.customerId == s.headers[id].customerId
                      && AllReconstruct(r.value.items, Owned(s.rows, id))
    ensures r.Err? && id in s.headers ==>
      exists row :: row in Owned(s.rows, id) && row.quantity == 0 && r.error == ZeroQuantity(row.id)
  {
    if id !in s.headers then
      Err(NotFound)
    else
      var rows := Owned(s.rows, id);
      assert forall row :: row in rows <==> exists i :: 0 <= i < |rows| && rows[i] == row;
      Rebuild(id, s.headers[id], rows)
  }

  /** For a stored key, `find` is the shared reconstruction of its header and rows. */
  lemma FindRebuilds(s: Store, id: OrderId)
    requires id in s.headers
    ensures Find(s, id) == Rebuild(id, s.headers[id], Owned(s.rows, id))
  {
  }

  /** `orders` lists, each once and each as `find` returns it, exactly the
      orders whose keys are in `done`. */
  ghost predicate Listed(s: Store, orders: seq<Order>, done: set<OrderId>) {
    && done <= s.headers.Keys
    && |orders| == |done|
    && (forall i :: 0 <= i < |orders| ==> orders[i].id in done && Find(s, orders[i].id) == Ok(orders[i]))
    && (forall id :: id in done ==> exists i :: 0 <= i < |orders| && orders[i].id == id)
    && (forall i, j :: 0 <= i < j < |orders| ==> orders[i].id != orders[j].id)
  }

  lemma ListedStep(s: Store, orders: seq<Order>, done: set<OrderId>, id: OrderId, o: Order)
    requires Listed(s, orders, done)
    requires id in s.headers && id !in done && Find(s, id) == Ok(o)
    ensures Listed(s, orders + [o], done + {id})
  {
    var next := orders + [o];
    forall i | 0 <= i < |next|
      ensures next[i].id in done + {id} && Find(s, next[i].id) == Ok(next[i])
    {
      if i < |orders| {
        assert next[i] == orders[i];
      }
    }
    forall i, j | 0 <= i < j < |next|
      ensures next[i].id != next[j].id
    {
      if j == |orders| {
        assert next[i] == orders[i] && orders[i].id in done;
      } else {
        assert next[i] == orders[i] && next[j] == orders[j];
      }
    }
    forall k | k in done + {id}
      ensures exists i :: 0 <= i < |next| && next[i].id == k
    {
      if k == id {
        assert next[|orders|].id == k;
      } else {
        var i :| 0 <= i < |orders| && orders[i].id == k;
        assert next[i].id == k;
      }
    }
    assert |done + {id}| == |done| + 1;
  }

  /** A listing of every key has one order per header, and every key is found. */
  lemma ListedAll(s: Store, orders: seq<Order>)
    requires Listed(s, orders, s.headers.Keys)
    ensures |orders| == |s.headers|
    ensures forall id :: id in s.headers ==> Find(s, id).Ok?
    ensures s.headers == map[] ==> orders == []
  {
  }

  /** `findAll()`: every order rebuilt as `find` rebuilds it, one per header,
      in whatever order the table scan yields the headers. The first order
      whose rebuild fails ends the scan with that order's error. */
  method FindAll(s: Store) returns (r: Result<seq<Order>, Error>)
    ensures r.Ok? <==> forall id :: id in s.headers ==> Find(s, id).Ok?
    ensures r.Err? ==> exists id :: id in s.headers && Find(s, id) == Err(r.error)
    ensures r.Ok? ==> |r.value| == |s.headers| && Listed(s, r.value, s.headers.Keys)
    ensures s.headers == map[] ==> r == Ok([])
  {
    var orders: seq<Order> := [];
    var done: set<OrderId> := {};
    while done != s.headers.Keys
      invariant Listed(s, orders, done)
      decreases s.headers.Keys - done
    {
      assert done < s.headers.Keys;
      var id :| id in s.headers.Keys && id !in done;
      var order := Rebuild(id, s.headers[id], Owned(s.rows, id));
      FindRebuilds(s, id);
      if order.Err? {
        return Err(order.error);
      }
      ListedStep(s, orders, done, id, order.value);
      orders := orders + [order.value];
      done := done + {id};
    }
    ListedAll(s, orders);
    r := Ok(orders);
  }
}
