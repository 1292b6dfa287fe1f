/** The checkout domain as the order repository consumes it.

    The domain classes themselves are not part of this model: constructing an
    `Order` or an `OrderItem` is plain record construction here, and the two
    derived accessors the repository reads, the item's `price` getter and the
    order's `total()`, are supplied as an `Accessors` value. */
module Domain {

  type OrderId = string
  type ItemId = string

  /** A line item. `unitPrice` is the third constructor argument, the value the
      read path computes as stored price divided by quantity. */
  datatype OrderItem = OrderItem(
    id: ItemId,
    name: string,
    unitPrice: real,
    productId: string,
    quantity: int
  )

  /** The aggregate root: an order owns an ordered list of items. */
  datatype Order = Order(id: OrderId, customerId: string, items: seq<OrderItem>)

  /** The domain-side values the write paths store: `price(item)` is what the
      item's `price` getter returns and `total(order)` what `order.total()`
      returns. Their bodies are outside this model. */
  datatype Accessors = Accessors(price: OrderItem -> real, total: Order -> real)

  /** The `price` getter yields the extended price (unit price times quantity)
      for every item of `items`. */
  predicate PricesExtended(items: seq<OrderItem>, acc: Accessors) {
    forall i :: 0 <= i < |items| ==> acc.price(items[i]) == items[i].unitPrice * (items[i].quantity as real)
  }

  /** The `price` getter yields the unit price unchanged for every item of `items`. */
  predicate PricesVerbatim(items: seq<OrderItem>, acc: Accessors) {
    forall i :: 0 <= i < |items| ==> acc.price(items[i]) == items[i].unitPrice
  }

  /** No item of `items` has quantity zero, so a unit price can be recovered. */
  predicate QuantitiesNonZero(items: seq<OrderItem>) {
    forall i :: 0 <= i < |items| ==> items[i].quantity != 0
  }
}
