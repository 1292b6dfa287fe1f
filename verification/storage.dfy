/** The two-table storage shape of orders, as an immutable value.

    `headers` is the `orders` table keyed by its primary key `id`; `rows` is the
    `order_items` table in table order. Every ORM call the repository makes is
    modelled by its effect on this value. */
module Storage {
  import opened Domain

  /** A row of the `orders` table, without its key. */
  datatype OrderHeader = OrderHeader(customerId: string, total: real)

  /** A row of the `order_items` table. `orderId` is the `order_id` foreign key. */
  datatype ItemRow = ItemRow(
    id: ItemId,
    orderId: OrderId,
    name: string,
    price: real,
    productId: string,
    quantity: int
  )

  datatype Store = Store(headers: map<OrderId, OrderHeader>, rows: seq<ItemRow>)

  /** The errors a repository operation can end with. */
  datatype Error =
    | NotFound              // the lookup in `find` failed
    | ZeroQuantity(itemId: ItemId)  // a stored row whose unit price is undefined
    | ConstraintViolation   // a key constraint the database enforces, propagated unchanged
  {
    function Message(): string {
      match this
      case NotFound => "Order not found"
      case ZeroQuantity(id) => "Item " + id + " has quantity zero"
      case ConstraintViolation => "Constraint violation"
    }
  }

  /** The rows owned by order `id`, in table order: what eager loading of an
      order's items yields. */
  function Owned(rows: seq<ItemRow>, id: OrderId): (r: seq<ItemRow>)
    ensures |r| <= |rows|
    ensures forall row :: row in r <==> row in rows && row.orderId == id
  {
    if |rows| == 0 then []
    else if rows[0].orderId == id then [rows[0]] + Owned(rows[1..], id)
    else Owned(rows[1..], id)
  }

  /** The rows left after deleting every row whose `order_id` is `id`. */
  function Others(rows: seq<ItemRow>, id: OrderId): (r: seq<ItemRow>)
    ensures |r| <= |rows|
    ensures forall row :: row in r <==> row in rows && row.orderId != id
  {
    if |rows| == 0 then []
    else if rows[0].orderId == id then Others(rows[1..], id)
    else [rows[0]] + Others(rows[1..], id)
  }

  /** The primary key of `order_items` holds: no two rows share an id. */
  predicate UniqueIds(rows: seq<ItemRow>) {
    forall i, j :: 0 <= i < j < |rows| ==> rows[i].id != rows[j].id
  }

  /** Inserting `incoming` after `existing` keeps the primary key of
      `order_items`: the new ids are distinct and none is already taken. */
  predicate Admissible(existing: seq<ItemRow>, incoming: seq<ItemRow>) {
    && UniqueIds(incoming)
    && forall a, b :: a in existing && b in incoming ==> a.id != b.id
  }

  /** The constraints the database enforces on the table pair: unique item ids
      and every item row pointing at an existing header. */
  predicate Valid(s: Store) {
    && UniqueIds(s.rows)
    && forall row :: row in s.rows ==> row.orderId in s.headers
  }

  lemma {:induction false} OwnedAppend(a: seq<ItemRow>, b: seq<ItemRow>, id: OrderId)
    ensures Owned(a + b, id) == Owned(a, id) + Owned(b, id)
    decreases |a|
  {
    if |a| == 0 {
      assert a + b == b;
    } else {
      assert (a + b)[1..] == a[1..] + b;
      OwnedAppend(a[1..], b, id);
    }
  }

  /** Every row of `rows` belongs to order `id`. */
  predicate AllOwnedBy(rows: seq<ItemRow>, id: OrderId) {
    forall i :: 0 <= i < |rows| ==> rows[i].orderId == id
  }

  /** Selecting rows that all belong to `id` keeps every one of them. */
  lemma {:induction false} OwnedAll(rows: seq<ItemRow>, id: OrderId)
    requires AllOwnedBy(rows, id)
    ensures Owned(rows, id) == rows
    decreases |rows|
  {
    if |rows| > 0 {
      assert AllOwnedBy(rows[1..], id) by {
        forall i | 0 <= i < |rows[1..]|
          ensures rows[1..][i].orderId == id
        {
          assert rows[1..][i] == rows[i + 1];
        }
      }
      OwnedAll(rows[1..], id);
      assert rows[0].orderId == id;
      calc {
        Owned(rows, id);
        [rows[0]] + Owned(rows[1..], id);
        [rows[0]] + rows[1..];
        rows;
      }
    }
  }

  /** An order none of whose rows are present owns nothing. */
  lemma {:induction false} OwnedNone(rows: seq<ItemRow>, id: OrderId)
    requires forall i :: 0 <= i < |rows| ==> rows[i].orderId != id
    ensures Owned(rows, id) == []
    decreases |rows|
  {
    if |rows| > 0 {
      assert forall i :: 0 <= i < |rows[1..]| ==> rows[1..][i] == rows[i + 1];
      OwnedNone(rows[1..], id);
    }
  }

  /** Deleting the rows of `id` removes them from `id` and leaves every other
      order's rows as they were, in the same order. */
  lemma {:induction false} OwnedOthers(rows: seq<ItemRow>, id: OrderId, other: OrderId)
    ensures Owned(Others(rows, id), other) == if other == id then [] else Owned(rows, other)
    decreases |rows|
  {
    if |rows| > 0 {
      OwnedOthers(rows[1..], id, other);
      if rows[0].orderId != id {
        assert Others(rows, id)[1..] == Others(rows[1..], id);
      }
    }
  }

  lemma UniqueAppend(a: seq<ItemRow>, b: seq<ItemRow>)
    requires UniqueIds(a) && Admissible(a, b)
    ensures UniqueIds(a + b)
  {
  }

  lemma {:induction false} UniqueOthers(rows: seq<ItemRow>, id: OrderId)
    requires UniqueIds(rows)
    ensures UniqueIds(Others(rows, id))
    decreases |rows|
  {
    if |rows| > 0 {
      assert UniqueIds(rows[1..]) by {
        forall i, j | 0 <= i < j < |rows[1..]|
          ensures rows[1..][i].id != rows[1..][j].id
        {
          assert rows[1..][i] == rows[i + 1] && rows[1..][j] == rows[j + 1];
        }
      }
      UniqueOthers(rows[1..], id);
      if rows[0].orderId != id {
        var tail := Others(rows[1..], id);
        var r := [rows[0]] + tail;
        forall i, j | 0 <= i < j < |r|
          ensures r[i].id != r[j].id
        {
          if i == 0 {
            assert r[j] == tail[j - 1] && tail[j - 1] in tail;
            assert r[j] in rows[1..];
            var k :| 0 <= k < |rows[1..]| && rows[1..][k] == r[j];
            assert rows[k + 1] == r[j];
          } else {
            assert r[i] == tail[i - 1] && r[j] == tail[j - 1];
          }
        }
      }
    }
  }

  /** Replacing the rows of order `id` by `incoming` (deleting by `order_id`,
      then appending): `id` then owns exactly `incoming`, and every other
      order owns what it owned before, in the same order. */
  lemma OwnedAfterReplace(rows: seq<ItemRow>, id: OrderId, incoming: seq<ItemRow>, other: OrderId)
    requires AllOwnedBy(incoming, id)
    ensures Owned(Others(rows, id) + incoming, other) == if other == id then incoming else Owned(rows, other)
  {
    OwnedAppend(Others(rows, id), incoming, other);
    OwnedOthers(rows, id, other);
    if other == id {
      OwnedAll(incoming, id);
    } else {
      OwnedNone(incoming, other);
    }
  }

  /** Appending the rows of an order that owned no rows before: it then owns
      exactly `incoming`, and every other order what it owned before. */
  lemma OwnedAfterAppend(rows: seq<ItemRow>, id: OrderId, incoming: seq<ItemRow>, other: OrderId)
    requires AllOwnedBy(incoming, id)
    requires forall i :: 0 <= i < |rows| ==> rows[i].orderId != id
    ensures Owned(rows + incoming, other) == if other == id then incoming else Owned(rows, other)
  {
    OwnedAppend(rows, incoming, other);
    if other == id {
      OwnedNone(rows, id);
      OwnedAll(incoming, id);
    } else {
      OwnedNone(incoming, other);
    }
  }
}
