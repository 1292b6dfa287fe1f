/** Properties relating the repository's operations to one another: what a
    write leaves for a later read, what it leaves alone, and the storage
    constraints it keeps. */
module OrderRepositoryProperties {
  import opened Wrappers
  import opened Domain
  import opened Storage
  import opened OrderRepository

  /** A non-zero factor cancels on both sides of an equation over the reals. */
  lemma Cancel(a: real, b: real, q: real)
    requires q != 0.0 && a * q == b * q
    ensures a == b
  {
  }

  /** A non-zero factor divides out of a product over the reals. */
  lemma Divide(x: real, p: real, q: real)
    requires q != 0.0 && x * q == p
    ensures x == p / q
  {
  }

  /** One row written from `item` rebuilds to `item` itself exactly when the
      getter stored the extended price. */
  lemma RowRoundTrip(id: OrderId, item: OrderItem, acc: Accessors, rebuilt: OrderItem)
    requires Reconstructs(rebuilt, ToRow(id, item, acc))
    ensures rebuilt == item <==> acc.price(item) == item.unitPrice * (item.quantity as real)
  {
    if acc.price(item) == item.unitPrice * (item.quantity as real) {
      Cancel(rebuilt.unitPrice, item.unitPrice, item.quantity as real);
    }
  }

  /** One row written from `item` under a getter that returns the unit price
      rebuilds with that price divided by the quantity. */
  lemma RowVerbatim(id: OrderId, item: OrderItem, acc: Accessors, rebuilt: OrderItem)
    requires acc.price(item) == item.unitPrice
    requires Reconstructs(rebuilt, ToRow(id, item, acc))
    ensures rebuilt == item.(unitPrice := item.unitPrice / (item.quantity as real))
  {
    Divide(rebuilt.unitPrice, item.unitPrice, item.quantity as real);
  }

  /** Rebuilding the rows written for `items` gives `items` back exactly when
      the `price` getter stores the extended price and no quantity is zero. */
  lemma RebuildWritten(id: OrderId, items: seq<OrderItem>, acc: Accessors)
    ensures RebuildItems(ToRows(id, items, acc)) == Ok(items) <==>
      PricesExtended(items, acc) && QuantitiesNonZero(items)
  {
    var rows := ToRows(id, items, acc);
    var r := RebuildItems(rows);
    if QuantitiesNonZero(items) {
      assert r.Ok?;
      forall i | 0 <= i < |items|
        ensures r.value[i] == items[i] <==> acc.price(items[i]) == items[i].unitPrice * (items[i].quantity as real)
      {
        assert rows[i] == ToRow(id, items[i], acc);
        RowRoundTrip(id, items[i], acc, r.value[i]);
      }
      if PricesExtended(items, acc) {
        assert r.value == items;
      }
    }
    if r == Ok(items) {
      forall i | 0 <= i < |items|
        ensures items[i].quantity != 0
        ensures acc.price(items[i]) == items[i].unitPrice * (items[i].quantity as real)
      {
        assert rows[i] == ToRow(id, items[i], acc);
        RowRoundTrip(id, items[i], acc, items[i]);
      }
    }
  }

  /** The rows written for `items` under a getter that returns the unit price
      read back with that price divided by the quantity a second time. */
  lemma RebuildVerbatim(id: OrderId, items: seq<OrderItem>, acc: Accessors)
    requires PricesVerbatim(items, acc) && QuantitiesNonZero(items)
    ensures RebuildItems(ToRows(id, items, acc)).Ok?
    ensures var read := RebuildItems(ToRows(id, items, acc)).value;
      && |read| == |items|
      && forall i :: 0 <= i < |items| ==>
           read[i] == items[i].(unitPrice := items[i].unitPrice / (items[i].quantity as real))
  {
    var rows := ToRows(id, items, acc);
    var r := RebuildItems(rows);
    assert r.Ok?;
    forall i | 0 <= i < |items|
      ensures r.value[i] == items[i].(unitPrice := items[i].unitPrice / (items[i].quantity as real))
    {
      assert rows[i] == ToRow(id, items[i], acc);
      RowVerbatim(id, items[i], acc, r.value[i]);
    }
  }

  /** After a successful `create`, the new order owns exactly the rows written
      for its items, every other order owns what it owned before, and the
      table constraints still hold. */
  lemma CreateStoresItems(s: Store, e: Order, acc: Accessors)
    requires Valid(s) && Create(s, e, acc).Ok?
    ensures Valid(Create(s, e, acc).value)
    ensures Owned(Create(s, e, acc).value.rows, e.id) == ToRows(e.id, e.items, acc)
    ensures forall id :: id != e.id ==> Owned(Create(s, e, acc).value.rows, id) == Owned(s.rows, id)
  {
    var t := Create(s, e, acc).value;
    var incoming := ToRows(e.id, e.items, acc);
    assert t.rows == s.rows + incoming;
    UniqueAppend(s.rows, incoming);
    assert AllOwnedBy(incoming, e.id);
    OwnedAfterAppend(s.rows, e.id, incoming, e.id);
    forall id | id != e.id
      ensures Owned(t.rows, id) == Owned(s.rows, id)
    {
      OwnedAfterAppend(s.rows, e.id, incoming, id);
    }
  }

  /** Full replace: after a successful `update`, the order owns exactly the
      rows written for the entity's items, whatever rows it owned before. */
  lemma UpdateReplacesItems(s: Store, e: Order, acc: Accessors)
    requires Update(s, e, acc).failure.None?
    ensures Owned(Update(s, e, acc).store.rows, e.id) == ToRows(e.id, e.items, acc)
  {
    var incoming := ToRows(e.id, e.items, acc);
    assert AllOwnedBy(incoming, e.id);
    OwnedAfterReplace(s.rows, e.id, incoming, e.id);
  }

  /** `update` deletes by `order_id`, so every other order keeps its rows, in
      the same order, whether or not the update succeeds. */
  lemma UpdateKeepsOtherOrders(s: Store, e: Order, acc: Accessors)
    ensures forall id :: id != e.id ==> Owned(Update(s, e, acc).store.rows, id) == Owned(s.rows, id)
  {
    var incoming := ToRows(e.id, e.items, acc);
    assert AllOwnedBy(incoming, e.id);
    forall id | id != e.id
      ensures Owned(Update(s, e, acc).store.rows, id) == Owned(s.rows, id)
    {
      if Update(s, e, acc).failure.None? {
        OwnedAfterReplace(s.rows, e.id, incoming, id);
      } else {
        OwnedOthers(s.rows, e.id, id);
      }
    }
  }

  /** `update` keeps the table constraints, also when its insert step fails
      after the delete step took effect. */
  lemma UpdatePreservesValid(s: Store, e: Order, acc: Accessors)
    requires Valid(s)
    ensures Valid(Update(s, e, acc).store)
  {
    var incoming := ToRows(e.id, e.items, acc);
    UniqueOthers(s.rows, e.id);
    if Update(s, e, acc).failure.None? {
      assert Update(s, e, acc).store.rows == Others(s.rows, e.id) + incoming;
      UniqueAppend(Others(s.rows, e.id), incoming);
    }
  }

  /** `find` after `create` returns the order that was created exactly when
      the `price` getter stores the extended price and no quantity is zero. */
  lemma CreateThenFind(s: Store, e: Order, acc: Accessors, t: Store)
    requires Valid(s) && Create(s, e, acc) == Ok(t)
    ensures Find(t, e.id) == Ok(e) <==> PricesExtended(e.items, acc) && QuantitiesNonZero(e.items)
  {
    CreateStoresItems(s, e, acc);
    RebuildWritten(e.id, e.items, acc);
    FindRebuilds(t, e.id);
  }

  /** `find` after `update` of an existing order returns the entity, whatever
      the order held before, exactly when the `price` getter stores the
      extended price and no quantity is zero. */
  lemma UpdateThenFind(s: Store, e: Order, acc: Accessors, t: Store)
    requires Update(s, e, acc) == Outcome(t, None) && e.id in s.headers
    ensures Find(t, e.id) == Ok(e) <==> PricesExtended(e.items, acc) && QuantitiesNonZero(e.items)
  {
    UpdateReplacesItems(s, e, acc);
    RebuildWritten(e.id, e.items, acc);
    FindRebuilds(t, e.id);
  }

  /** `find` after `create` under a getter that returns the unit price: every
      item reads back with its unit price divided by its quantity. */
  lemma CreateThenFindVerbatim(s: Store, e: Order, acc: Accessors, t: Store)
    requires Valid(s) && Create(s, e, acc) == Ok(t)
    requires PricesVerbatim(e.items, acc) && QuantitiesNonZero(e.items)
    ensures Find(t, e.id).Ok?
    ensures |Find(t, e.id).value.items| == |e.items|
    ensures forall i :: 0 <= i < |e.items| ==>
      Find(t, e.id).value.items[i].unitPrice == e.items[i].unitPrice / (e.items[i].quantity as real)
  {
    CreateStoresItems(s, e, acc);
    RebuildVerbatim(e.id, e.items, acc);
    FindRebuilds(t, e.id);
  }

  /** Both write paths store the same header and the same rows for an entity:
      the stored price does not depend on which path wrote the row. */
  lemma WritePathsAgree(s: Store, e: Order, acc: Accessors, created: Store, t: Store, updated: Store)
    requires Valid(s) && Create(s, e, acc) == Ok(created)
    requires Update(t, e, acc) == Outcome(updated, None) && e.id in t.headers
    ensures Owned(created.rows, e.id) == Owned(updated.rows, e.id)
    ensures e.id in created.headers && e.id in updated.headers
    ensures created.headers[e.id] == updated.headers[e.id]
  {
    CreateStoresItems(s, e, acc);
    UpdateReplacesItems(t, e, acc);
  }

  /** `find` reads nothing but the order's header and its own rows, so two
      stores that agree on those give the same result; with `WritePathsAgree`
      this makes `find` independent of the write path. */
  lemma FindReadsOwnOrderOnly(a: Store, b: Store, id: OrderId)
    requires (id in a.headers <==> id in b.headers)
    requires id in a.headers ==> a.headers[id] == b.headers[id]
    requires Owned(a.rows, id) == Owned(b.rows, id)
    ensures Find(a, id) == Find(b, id)
  {
  }

  /** If the `price` getter returned the unit price, the read path would divide
      it by the quantity once more: an item of unit price 10 and quantity 2
      would read back with unit price 5. */
  lemma UnitPriceGetterHalvesPrice()
    ensures
      var item := OrderItem("i1", "Item 1", 10.0, "p1", 2);
      var e := Order("o1", "c1", [item]);
      var acc := Accessors((it: OrderItem) => it.unitPrice, (o: Order) => 20.0);
      var created := Create(Store(map[], []), e, acc);
      && created.Ok?
      && Find(created.value, "o1") == Ok(Order("o1", "c1", [OrderItem("i1", "Item 1", 5.0, "p1", 2)]))
  {
    var item := OrderItem("i1", "Item 1", 10.0, "p1", 2);
    var e := Order("o1", "c1", [item]);
    var acc := Accessors((it: OrderItem) => it.unitPrice, (o: Order) => 20.0);
    var s := Store(map[], []);
    var incoming := ToRows(e.id, e.items, acc);
    assert incoming == [ItemRow("i1", "o1", "Item 1", 10.0, "p1", 2)];
    assert Admissible(s.rows, incoming);
    var t := Create(s, e, acc).value;
    CreateStoresItems(s, e, acc);
    var row := ItemRow("i1", "o1", "Item 1", 10.0, "p1", 2);
    assert incoming == [row];
    var r := RebuildItems(incoming);
    assert r.Ok? && |r.value| == 1 && Reconstructs(r.value[0], row);
    Cancel(r.value[0].unitPrice, 5.0, 2.0);
    assert r.value == [OrderItem("i1", "Item 1", 5.0, "p1", 2)];
    assert RebuildItems(incoming) == Ok([OrderItem("i1", "Item 1", 5.0, "p1", 2)]);
  }
}
