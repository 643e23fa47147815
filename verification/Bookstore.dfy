/**
 The entities the order handlers read and write, with the persistence
 service replaced by two immutable stores: the book catalog, keyed by book
 ID, and the order items persisted under each order ID.
 */
module Bookstore {
  import opened JavaInt

  /** A possibly-null reference: Java's `null` is `None`. */
  datatype Option<+T> = None | Some(value: T)

  type BookId = string
  type OrderId = string

  /** A catalog row: `stock` is a Java `Integer`, `price` a `BigDecimal` in cents. */
  datatype Book = Book(stock: int32, price: int)

  type Catalog = map<BookId, Book>

  /** An order item: the book ordered, the requested amount and the derived net amount. */
  datatype OrderItem = OrderItem(bookId: BookId, amount: int32, netAmount: Option<int>)

  /** An order: its ID, the items attached to it in the request (null when not
      expanded) and the derived total. */
  datatype Order = Order(id: OrderId, items: Option<seq<OrderItem>>, total: Option<int>)

  /** Order items as persisted, grouped by the ID of their parent order. */
  type ItemStore = map<OrderId, seq<OrderItem>>

  /** The items persisted under order `id`; none when the order has no rows. */
  function ItemsOf(store: ItemStore, id: OrderId): seq<OrderItem>
  {
    if id in store then store[id] else []
  }

  /** Every item refers to a book that is in the catalog. */
  predicate AllBooksKnown(c: Catalog, items: seq<OrderItem>)
  {
    forall i :: 0 <= i < |items| ==> items[i].bookId in c
  }

  /** Two catalogs hold the same books at the same prices; only stock may differ. */
  predicate SameBooksAndPrices(c: Catalog, d: Catalog)
  {
    && c.Keys == d.Keys
    && forall id :: id in c ==> id in d && c[id].price == d[id].price
  }
}
