/**
 Stock reservation before order items are created: every item's book is
 looked up, its stock is compared with the requested amount and, when it
 suffices, decreased. Items are handled one after another against the
 catalog as the earlier items left it, and nothing is rolled back when a
 later item fails.
 */
module StockReservation {
  import opened JavaInt
  import opened Bookstore

  /** How a batch ends, with the catalog as it stands at that point:
      `NotFound` is the "Book not found" exception, `InsufficientStock` the
      BAD_REQUEST "Not enough stocks" one. */
  datatype Reservation =
    | Ok(catalog: Catalog)
    | NotFound(catalog: Catalog, bookId: BookId)
    | InsufficientStock(catalog: Catalog, bookId: BookId)

  /** Every requested amount is zero or more. */
  predicate NonNegativeAmounts(items: seq<OrderItem>)
  {
    forall i :: 0 <= i < |items| ==> 0 <= items[i].amount
  }

  /** No book has a negative stock. */
  predicate NonNegativeStock(c: Catalog)
  {
    forall id :: id in c ==> 0 <= c[id].stock
  }

  /** One pass of the item loop: look the book up, check the stock, write the decreased stock. */
  function ReserveItem(c: Catalog, item: OrderItem): (r: Reservation)
    ensures r.NotFound? <==> item.bookId !in c
    ensures r.InsufficientStock? <==> item.bookId in c && c[item.bookId].stock < item.amount
    ensures r.Ok? <==> item.bookId in c && item.amount <= c[item.bookId].stock
    ensures !r.Ok? ==> r.catalog == c && r.bookId == item.bookId
    ensures SameBooksAndPrices(c, r.catalog)
    ensures r.Ok? ==> r.catalog[item.bookId].stock == Sub(c[item.bookId].stock, item.amount)
    ensures r.Ok? ==> forall id :: id in c && id != item.bookId ==> r.catalog[id] == c[id]
    ensures r.Ok? && 0 <= item.amount ==>
              && r.catalog[item.bookId].stock as int == c[item.bookId].stock as int - item.amount as int
              && 0 <= r.catalog[item.bookId].stock
  {
    if item.bookId !in c then
      NotFound(c, item.bookId)
    else
      var book := c[item.bookId];
      if book.stock < item.amount then
        InsufficientStock(c, item.bookId)
      else
        Ok(c[item.bookId := book.(stock := Sub(book.stock, item.amount))])
  }

  /** The whole item loop: stop at the first item that fails, keeping what earlier items wrote. */
  function DecreaseStock(c: Catalog, items: seq<OrderItem>): (r: Reservation)
    ensures SameBooksAndPrices(c, r.catalog)
    ensures r.NotFound? ==> r.bookId !in c
    ensures AllBooksKnown(c, items) ==> !r.NotFound?
    decreases |items|
  {
    if items == [] then
      Ok(c)
    else
      match ReserveItem(c, items[0])
      case Ok(next) => DecreaseStock(next, items[1..])
      case failure => failure
  }

  /** Carry on with `items` after `r`, unless `r` already failed. */
  function Continue(r: Reservation, items: seq<OrderItem>): Reservation
  {
    if r.Ok? then DecreaseStock(r.catalog, items) else r
  }

  /** The total amount the items request of book `id`. */
  function SumQty(items: seq<OrderItem>, id: BookId): int
    decreases |items|
  {
    if items == [] then 0
    else (if items[0].bookId == id then items[0].amount as int else 0) + SumQty(items[1..], id)
  }

  /** Every book the items name is in the catalog and its stock covers all that the items ask of it. */
  predicate DemandCovered(c: Catalog, items: seq<OrderItem>)
  {
    forall k :: 0 <= k < |items| ==>
      items[k].bookId in c && SumQty(items, items[k].bookId) <= c[items[k].bookId].stock as int
  }

  /** Splitting a batch in two: the second part runs on what the first part left. */
  lemma {:induction false} DecreaseStockAppend(c: Catalog, p: seq<OrderItem>, q: seq<OrderItem>)
    ensures DecreaseStock(c, p + q) == Continue(DecreaseStock(c, p), q)
    decreases |p|
  {
    if p == [] {
      assert p + q == q;
    } else {
      assert (p + q)[0] == p[0];
      assert (p + q)[1..] == p[1..] + q;
      match ReserveItem(c, p[0])
      case Ok(next) =>
        DecreaseStockAppend(next, p[1..], q);
      case NotFound(_, _) =>
      case InsufficientStock(_, _) =>
    }
  }

  /** When the first `k` items succeed and item `k` fails, the batch ends with item `k`'s failure,
      reported against the catalog the first `k` items produced. */
  lemma FailsAtFirstFailingItem(c: Catalog, items: seq<OrderItem>, k: nat)
    requires k < |items|
    requires DecreaseStock(c, items[..k]).Ok?
    requires !ReserveItem(DecreaseStock(c, items[..k]).catalog, items[k]).Ok?
    ensures DecreaseStock(c, items) == ReserveItem(DecreaseStock(c, items[..k]).catalog, items[k])
  {
    assert items == items[..k] + items[k..];
    DecreaseStockAppend(c, items[..k], items[k..]);
  }

  /** An unknown book ends the batch with NotFound; the decrements of the items before it stay. */
  lemma UnknownBookEndsBatch(c: Catalog, items: seq<OrderItem>, k: nat)
    requires k < |items|
    requires DecreaseStock(c, items[..k]).Ok?
    requires items[k].bookId !in c
    ensures DecreaseStock(c, items) == NotFound(DecreaseStock(c, items[..k]).catalog, items[k].bookId)
  {
    FailsAtFirstFailingItem(c, items, k);
  }

  /** A book whose current stock is below the requested amount ends the batch with
      InsufficientStock, and that item writes nothing. */
  lemma ShortStockEndsBatch(c: Catalog, items: seq<OrderItem>, k: nat)
    requires k < |items|
    requires DecreaseStock(c, items[..k]).Ok?
    requires items[k].bookId in c
    requires DecreaseStock(c, items[..k]).catalog[items[k].bookId].stock < items[k].amount
    ensures DecreaseStock(c, items) == InsufficientStock(DecreaseStock(c, items[..k]).catalog, items[k].bookId)
  {
    FailsAtFirstFailingItem(c, items, k);
  }

  /** Every failure has a cause: some item `k` whose predecessors all succeeded and which fails
      the same way against the catalog they left. */
  lemma {:induction false} FailureHasCause(c: Catalog, items: seq<OrderItem>)
    requires !DecreaseStock(c, items).Ok?
    ensures var r := DecreaseStock(c, items);
            exists k :: 0 <= k < |items| && DecreaseStock(c, items[..k]) == Ok(r.catalog)
                          && ReserveItem(r.catalog, items[k]) == r
    decreases |items|
  {
    var r := DecreaseStock(c, items);
    assert items != [];
    assert items[..0] == [];
    var first := ReserveItem(c, items[0]);
    if first.Ok? {
      var next, rest := first.catalog, items[1..];
      assert DecreaseStock(c, items) == DecreaseStock(next, rest);
      FailureHasCause(next, rest);
      var k :| 0 <= k < |rest| && DecreaseStock(next, rest[..k]) == Ok(r.catalog)
                && ReserveItem(r.catalog, rest[k]) == r;
      PrefixAfterFirst(c, items, k);
      assert items[k + 1] == rest[k];
      assert DecreaseStock(c, items[..k + 1]) == Ok(r.catalog);
    } else {
      assert r == first;
      assert DecreaseStock(c, items[..0]) == Ok(r.catalog);
    }
  }

  /** Running the first `k + 1` items is running item 0 and then `k` more. */
  lemma PrefixAfterFirst(c: Catalog, items: seq<OrderItem>, k: nat)
    requires k < |items| - 1
    requires ReserveItem(c, items[0]).Ok?
    ensures DecreaseStock(c, items[..k + 1]) == DecreaseStock(ReserveItem(c, items[0]).catalog, items[1..][..k])
  {
    var p := items[..k + 1];
    assert p[0] == items[0];
    assert p[1..] == items[1..][..k];
  }

  lemma {:induction false} SumQtyNonNegative(items: seq<OrderItem>, id: BookId)
    requires NonNegativeAmounts(items)
    ensures 0 <= SumQty(items, id)
    decreases |items|
  {
    if items != [] {
      SumQtyNonNegative(items[1..], id);
    }
  }

  lemma {:induction false} SumQtyOfAbsentBook(items: seq<OrderItem>, id: BookId)
    requires forall k :: 0 <= k < |items| ==> items[k].bookId != id
    ensures SumQty(items, id) == 0
    decreases |items|
  {
    if items != [] {
      assert items[0].bookId != id;
      SumQtyOfAbsentBook(items[1..], id);
    }
  }

  /** After a successful batch every book's stock is its first stock less all that the batch
      requested of it, up to the 2^32 wrap-around of Java `int` subtraction. */
  lemma {:induction false} SuccessfulBatchStock(c: Catalog, items: seq<OrderItem>, id: BookId)
    requires DecreaseStock(c, items).Ok? && id in c
    ensures Congruent(DecreaseStock(c, items).catalog[id].stock as int, c[id].stock as int - SumQty(items, id))
    decreases |items|
  {
    if items != [] {
      var x, rest := items[0], items[1..];
      assert ReserveItem(c, x).Ok?;
      var next := ReserveItem(c, x).catalog;
      assert DecreaseStock(c, items) == DecreaseStock(next, rest);
      SuccessfulBatchStock(next, rest, id);
      FirstItemStock(c, items, id, next);
      CongruentStep(DecreaseStock(next, rest).catalog[id].stock as int,
                    next[id].stock as int - SumQty(rest, id),
                    c[id].stock as int - SumQty(items, id));
    }
  }

  /** What the first item leaves, less what the rest request, differs from the first stock less
      what the whole batch requests by at most one 2^32 step. */
  lemma FirstItemStock(c: Catalog, items: seq<OrderItem>, id: BookId, next: Catalog)
    requires items != [] && ReserveItem(c, items[0]) == Ok(next) && id in c
    ensures var delta := (next[id].stock as int - SumQty(items[1..], id)) - (c[id].stock as int - SumQty(items, id));
            delta == 0 || delta == MODULUS || delta == -MODULUS
  {
    SumQtyFirst(items, id);
    if id != items[0].bookId {
      OtherBookUntouched(c, items[0], id);
    }
  }

  lemma SumQtyFirst(items: seq<OrderItem>, id: BookId)
    requires items != []
    ensures SumQty(items, id) == (if items[0].bookId == id then items[0].amount as int else 0) + SumQty(items[1..], id)
  {
  }

  lemma OtherBookUntouched(c: Catalog, x: OrderItem, id: BookId)
    requires ReserveItem(c, x).Ok? && id in c && id != x.bookId
    ensures ReserveItem(c, x).catalog[id] == c[id]
  {
  }

  /** With no negative amounts, a batch succeeds exactly when, for every book it names, the
      book exists and its stock covers the total the batch requests of it. */
  lemma {:induction false} BatchSucceedsIffDemandCovered(c: Catalog, items: seq<OrderItem>)
    requires NonNegativeAmounts(items)
    ensures DecreaseStock(c, items).Ok? <==> DemandCovered(c, items)
    decreases |items|
  {
    if items == [] {
      return;
    }
    var x, rest := items[0], items[1..];
    assert NonNegativeAmounts(rest);
    match ReserveItem(c, x)
    case NotFound(_, _) =>
      assert !DemandCovered(c, items) by { assert items[0] == x; }
    case InsufficientStock(_, _) =>
      SumQtyNonNegative(rest, x.bookId);
      SumQtyFirst(items, x.bookId);
      assert !DemandCovered(c, items) by { assert items[0] == x; }
    case Ok(next) =>
      assert DecreaseStock(c, items) == DecreaseStock(next, rest);
      BatchSucceedsIffDemandCovered(next, rest);
      DemandAfterFirst(c, items, next);
  }

  /** What the rest of a batch asks of the catalog the first item left is covered exactly when
      what the whole batch asks of the first catalog is. */
  lemma DemandAfterFirst(c: Catalog, items: seq<OrderItem>, next: Catalog)
    requires items != [] && NonNegativeAmounts(items)
    requires ReserveItem(c, items[0]) == Ok(next)
    ensures DemandCovered(next, items[1..]) <==> DemandCovered(c, items)
  {
    var x, rest := items[0], items[1..];
    forall id | id in c
      ensures SumQty(rest, id) <= next[id].stock as int <==> SumQty(items, id) <= c[id].stock as int
    {
      RemainingDemand(c, items, next, id);
    }
    assert DemandCovered(next, rest) <==> forall k :: 0 <= k < |rest| ==>
      rest[k].bookId in c && SumQty(items, rest[k].bookId) <= c[rest[k].bookId].stock as int;
    if DemandCovered(next, rest) {
      forall k | 0 <= k < |items|
        ensures items[k].bookId in c && SumQty(items, items[k].bookId) <= c[items[k].bookId].stock as int
      {
        if k == 0 {
          if exists j :: 0 <= j < |rest| && rest[j].bookId == x.bookId {
            var j :| 0 <= j < |rest| && rest[j].bookId == x.bookId;
            assert SumQty(items, rest[j].bookId) <= c[rest[j].bookId].stock as int;
          } else {
            SumQtyOfAbsentBook(rest, x.bookId);
            SumQtyFirst(items, x.bookId);
          }
        } else {
          assert items[k] == rest[k - 1];
        }
      }
    } else {
      var j :| 0 <= j < |rest| && !(rest[j].bookId in c &&
                 SumQty(items, rest[j].bookId) <= c[rest[j].bookId].stock as int);
      assert items[j + 1] == rest[j];
    }
  }

  lemma RemainingDemand(c: Catalog, items: seq<OrderItem>, next: Catalog, id: BookId)
    requires items != [] && 0 <= items[0].amount
    requires ReserveItem(c, items[0]) == Ok(next) && id in c
    ensures SumQty(items[1..], id) <= next[id].stock as int <==> SumQty(items, id) <= c[id].stock as int
  {
    SumQtyFirst(items, id);
    if id != items[0].bookId {
      OtherBookUntouched(c, items[0], id);
    }
  }

  /** With no negative amounts a successful batch never wraps: each book's stock drops by exactly
      what was requested of it, and no stock that started non-negative ends negative. */
  lemma SuccessfulBatchExactStock(c: Catalog, items: seq<OrderItem>)
    requires NonNegativeAmounts(items)
    requires DecreaseStock(c, items).Ok?
    ensures var d := DecreaseStock(c, items).catalog;
            && (forall id :: id in c ==> d[id].stock as int == c[id].stock as int - SumQty(items, id))
            && (NonNegativeStock(c) ==> NonNegativeStock(d))
  {
    var d := DecreaseStock(c, items).catalog;
    BatchSucceedsIffDemandCovered(c, items);
    forall id | id in c
      ensures d[id].stock as int == c[id].stock as int - SumQty(items, id)
      ensures 0 <= c[id].stock ==> 0 <= d[id].stock
    {
      DemandBound(c, items, id);
      SuccessfulBatchStock(c, items, id);
      CongruentInRange(d[id].stock as int, c[id].stock as int - SumQty(items, id));
    }
  }

  /** Under covered demand, what a batch asks of a book is nothing or at most its stock. */
  lemma DemandBound(c: Catalog, items: seq<OrderItem>, id: BookId)
    requires NonNegativeAmounts(items) && DemandCovered(c, items) && id in c
    ensures 0 <= SumQty(items, id)
    ensures SumQty(items, id) == 0 || SumQty(items, id) <= c[id].stock as int
  {
    SumQtyNonNegative(items, id);
    if exists k :: 0 <= k < |items| && items[k].bookId == id {
      var k :| 0 <= k < |items| && items[k].bookId == id;
      assert SumQty(items, items[k].bookId) <= c[items[k].bookId].stock as int;
    } else {
      SumQtyOfAbsentBook(items, id);
    }
  }

  /** The items of every order whose items are not null, in order. */
  function AllItems(orders: seq<Order>): seq<OrderItem>
    decreases |orders|
  {
    if orders == [] then []
    else (if orders[0].items.Some? then orders[0].items.value else []) + AllItems(orders[1..])
  }

  /** The order loop: orders with null items are skipped, a NotFound is swallowed and the next
      order is processed on the catalog as it stands, an InsufficientStock aborts the loop. */
  function DecreaseStockViaOrders(c: Catalog, orders: seq<Order>): (r: Reservation)
    ensures !r.NotFound?
    ensures SameBooksAndPrices(c, r.catalog)
    decreases |orders|
  {
    if orders == [] then
      Ok(c)
    else if orders[0].items.None? then
      DecreaseStockViaOrders(c, orders[1..])
    else
      match DecreaseStock(c, orders[0].items.value)
      case InsufficientStock(d, id) => InsufficientStock(d, id)
      case Ok(d) => DecreaseStockViaOrders(d, orders[1..])
      case NotFound(d, _) => DecreaseStockViaOrders(d, orders[1..])
  }

  /** An order with null items changes nothing and the loop goes on with the next order. */
  lemma ViaOrdersSkipsNullItems(c: Catalog, o: Order, rest: seq<Order>)
    requires o.items.None?
    ensures DecreaseStockViaOrders(c, [o] + rest) == DecreaseStockViaOrders(c, rest)
  {
    assert ([o] + rest)[1..] == rest;
  }

  /** An unknown book at item `k` of an order skips that order's later items, keeps its earlier
      decrements, and the remaining orders are still processed. */
  lemma ViaOrdersContinuesAfterNotFound(c: Catalog, o: Order, rest: seq<Order>, k: nat)
    requires o.items.Some? && k < |o.items.value|
    requires DecreaseStock(c, o.items.value[..k]).Ok?
    requires o.items.value[k].bookId !in c
    ensures DecreaseStockViaOrders(c, [o] + rest)
         == DecreaseStockViaOrders(DecreaseStock(c, o.items.value[..k]).catalog, rest)
  {
    UnknownBookEndsBatch(c, o.items.value, k);
    assert ([o] + rest)[1..] == rest;
  }

  /** An order that runs short of stock ends the loop: later orders are not processed. */
  lemma ViaOrdersAbortsOnShortStock(c: Catalog, o: Order, rest: seq<Order>)
    requires o.items.Some?
    requires DecreaseStock(c, o.items.value).InsufficientStock?
    ensures DecreaseStockViaOrders(c, [o] + rest) == DecreaseStock(c, o.items.value)
  {
  }

  /** Once a prefix of the orders aborts, nothing after it runs. */
  lemma {:induction false} ViaOrdersAppend(c: Catalog, p: seq<Order>, q: seq<Order>)
    ensures var r := DecreaseStockViaOrders(c, p);
            DecreaseStockViaOrders(c, p + q)
              == if r.Ok? then DecreaseStockViaOrders(r.catalog, q) else r
    decreases |p|
  {
    if p == [] {
      assert p + q == q;
    } else {
      assert (p + q)[0] == p[0];
      assert (p + q)[1..] == p[1..] + q;
      if p[0].items.None? {
        ViaOrdersAppend(c, p[1..], q);
      } else {
        match DecreaseStock(c, p[0].items.value)
        case InsufficientStock(_, _) =>
        case Ok(d) => ViaOrdersAppend(d, p[1..], q);
        case NotFound(d, _) => ViaOrdersAppend(d, p[1..], q);
      }
    }
  }

  /** When every book is known, handling the orders one by one is handling all their items
      as one batch. */
  lemma {:induction false} ViaOrdersIsOneBatch(c: Catalog, orders: seq<Order>)
    requires AllBooksKnown(c, AllItems(orders))
    ensures DecreaseStockViaOrders(c, orders) == DecreaseStock(c, AllItems(orders))
    decreases |orders|
  {
    if orders == [] {
      return;
    }
    var o, rest := orders[0], orders[1..];
    var own := if o.items.Some? then o.items.value else [];
    assert AllItems(orders) == own + AllItems(rest);
    assert AllBooksKnown(c, own) by {
      forall i | 0 <= i < |own| ensures own[i].bookId in c {
        assert own[i] == AllItems(orders)[i];
      }
    }
    DecreaseStockAppend(c, own, AllItems(rest));
    var r := DecreaseStock(c, own);
    if r.Ok? {
      assert AllBooksKnown(r.catalog, AllItems(rest)) by {
        forall i | 0 <= i < |AllItems(rest)| ensures AllItems(rest)[i].bookId in r.catalog {
          assert AllItems(rest)[i] == AllItems(orders)[|own| + i];
        }
      }
      ViaOrdersIsOneBatch(r.catalog, rest);
    }
  }
}
