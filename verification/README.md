# Bookstore order handlers — a verified Dafny model

This project models the business logic of the `OrderService` event handlers of a CAP
bookstore. Before order items or orders are created they reserve stock: each item's book is
looked up, its stock is compared with the requested amount and decreased. After order items
or orders are read or created they compute derived values: an item's net amount (price times
amount) and an order's total (the sum of the net amounts of all items persisted under the order).

The persistence service is replaced by immutable values:

- the book catalog is a `map<BookId, Book>`, where a book has a stock and a price;
- the persisted order items are a `map<OrderId, seq<OrderItem>>`.

Each handler becomes a pure function of these values.

- `JavaInt` — Java's 32-bit `int` (`int32`) and its wrapping subtraction `Sub`. Stock and
  amount are Java `Integer`s, and the new stock is computed as `int` subtraction.
- `Bookstore` — the entities `Book`, `OrderItem` and `Order`, plus the two stores.
- `StockReservation` — `validateBookAndDecreaseStock` as `DecreaseStock`, one loop pass as
  `ReserveItem`, and `validateBookAndDecreaseStockViaOrders` as `DecreaseStockViaOrders`.
  A `Reservation` is `Ok`, `NotFound` ("Book not found") or `InsufficientStock` (BAD_REQUEST
  "Not enough stocks"). Every outcome carries the catalog as it stands at that point, because
  nothing is rolled back.
- `Pricing` — `calculateNetAmount` as `CalculateNetAmount` and `calculateTotal` as
  `CalculateTotal`. Prices, net amounts and totals are exact integers (cents), as `BigDecimal`
  arithmetic is exact here; amounts stay Java `int` counts. `Revenue` is the reference value "price × amount summed over the items".

An unknown book ends the batch with NotFound, but nothing is rolled back: decrements already
written for earlier items stay, and the per-order handler swallows the error and goes on with
the next order. `UnknownBookEndsBatch` and `ViaOrdersContinuesAfterNotFound` state that
behaviour.

The code has no lower bound on the amount. A negative amount passes the `stock < quantity`
check whenever the stock is at least the amount, which always holds for a non-negative stock,
and then raises the stock, wrapping around at 2^31 as Java `int` does. The model keeps this.
The exact-stock and non-negativity lemmas assume non-negative amounts.

## Model

| member | source | states |
|---|---|---|
| JavaInt.Sub | srv/src/main/java/com/sap/cap/bookstore/handlers/OrderService.java:59 | `stock - quantity` on Java ints: the exact difference when it fits in an int, otherwise the difference moved by exactly 2^32 |
| JavaInt.SubCongruent | srv/src/main/java/com/sap/cap/bookstore/handlers/OrderService.java:59 | the new stock always equals stock − quantity modulo 2^32 |
| StockReservation.ReserveItem | srv/src/main/java/com/sap/cap/bookstore/handlers/OrderService.java:45-63 | an unknown ID gives NotFound; `stock < amount` gives InsufficientStock; otherwise Ok (so amount == stock is accepted). Failures leave the catalog as it was. Ok sets only that book's stock to `stock - amount`, and every other entry and every price is unchanged. For amount ≥ 0 the new stock is exactly stock − amount and is ≥ 0 |
| StockReservation.DecreaseStock | srv/src/main/java/com/sap/cap/bookstore/handlers/OrderService.java:41-71 | the item loop keeps the set of books and their prices; NotFound names a book absent from the catalog; if every item's book is known, NotFound cannot happen |
| StockReservation.DecreaseStockAppend | srv/src/main/java/com/sap/cap/bookstore/handlers/OrderService.java:43-69 | stock is re-read per item: processing p ++ q is processing q on the catalog p left, unless p failed |
| StockReservation.FailsAtFirstFailingItem | srv/src/main/java/com/sap/cap/bookstore/handlers/OrderService.java:43-57 | if items 0..k−1 succeed and item k fails, the batch ends with item k's failure, against the catalog items 0..k−1 produced |
| StockReservation.UnknownBookEndsBatch | srv/src/main/java/com/sap/cap/bookstore/handlers/OrderService.java:43-50 | an absent book ID at item k ends the batch with NotFound; the decrements of items 0..k−1 remain applied |
| StockReservation.ShortStockEndsBatch | srv/src/main/java/com/sap/cap/bookstore/handlers/OrderService.java:53-57 | a current stock below item k's amount ends the batch with InsufficientStock; that book's stock is not changed by item k |
| StockReservation.FailureHasCause | srv/src/main/java/com/sap/cap/bookstore/handlers/OrderService.java:43-57 | every failed batch failed at some item k: items 0..k−1 succeeded, producing the reported catalog, and item k fails the same way against it |
| StockReservation.SuccessfulBatchStock | srv/src/main/java/com/sap/cap/bookstore/handlers/OrderService.java:43-69 | after a successful batch, each book's stock equals its initial stock minus the sum of the amounts of all items naming it, modulo 2^32 (stock is re-read per item, so repeated IDs accumulate) |
| StockReservation.BatchSucceedsIffDemandCovered | srv/src/main/java/com/sap/cap/bookstore/handlers/OrderService.java:43-69 | with non-negative amounts: a batch succeeds if and only if every book it names exists and its initial stock covers the total the batch requests of it |
| StockReservation.SuccessfulBatchExactStock | srv/src/main/java/com/sap/cap/bookstore/handlers/OrderService.java:53-59 | with non-negative amounts a successful batch does not wrap: final stock = initial stock − total requested, exactly. Non-negative starting stocks stay non-negative |
| StockReservation.DecreaseStockViaOrders | srv/src/main/java/com/sap/cap/bookstore/handlers/OrderService.java:74-84 | the order loop never ends in NotFound, because that exception is caught; it keeps the books and their prices |
| StockReservation.ViaOrdersSkipsNullItems | srv/src/main/java/com/sap/cap/bookstore/handlers/OrderService.java:75-76 | an order with null items changes nothing, and the loop goes on |
| StockReservation.ViaOrdersContinuesAfterNotFound | srv/src/main/java/com/sap/cap/bookstore/handlers/OrderService.java:77-81 | an unknown book at item k of an order skips that order's later items, keeps its earlier decrements, and processes the remaining orders |
| StockReservation.ViaOrdersAbortsOnShortStock | srv/src/main/java/com/sap/cap/bookstore/handlers/OrderService.java:77-81 | an InsufficientStock in an order is not caught: the loop returns it and later orders are not processed |
| StockReservation.ViaOrdersAppend | srv/src/main/java/com/sap/cap/bookstore/handlers/OrderService.java:75-83 | processing orders p ++ q is processing q on the catalog p left, unless p aborted, in which case q never runs |
| StockReservation.ViaOrdersIsOneBatch | srv/src/main/java/com/sap/cap/bookstore/handlers/OrderService.java:74-84 | when every named book exists, the per-order loop equals one batch over all non-null orders' items concatenated |
| Pricing.CalculateNetAmount | srv/src/main/java/com/sap/cap/bookstore/handlers/OrderService.java:87-98 | same number of items, and item i is input item i with its net amount set to its book's price × its amount, nothing else changed |
| Pricing.CalculateTotal | srv/src/main/java/com/sap/cap/bookstore/handlers/OrderService.java:101-122 | each order keeps its ID; attached items, if any, get net amounts; its total is price × amount summed over the items persisted under its ID |
| Pricing.TotalIsRevenue | srv/src/main/java/com/sap/cap/bookstore/handlers/OrderService.java:113-119 | after recomputing net amounts every item has one, and their sum is price × amount summed over the items |
| Pricing.SumNetAmounts | srv/src/main/java/com/sap/cap/bookstore/handlers/OrderService.java:116-119 | the accumulation loop read front to back: the sum starts at 0 and each item adds its net amount to the sum of the items before it; `TotalIsRevenue` relates the sum to price × amount |
| Pricing.OrderTotal | srv/src/main/java/com/sap/cap/bookstore/handlers/OrderService.java:109-119 | the total of one order, computed by recomputing and summing the net amounts of its persisted items, equals price × amount summed over those items (carried by `TotalIsRevenue`) |
| Pricing.PriceOrder | srv/src/main/java/com/sap/cap/bookstore/handlers/OrderService.java:103-120 | one pass of the order loop: the ID is kept, null items stay null, attached items keep book and amount and get price × amount as net amount, and the total is price × amount summed over the persisted items; `CalculateTotal` lifts this to the whole list |
| Pricing.RevenueAppend | srv/src/main/java/com/sap/cap/bookstore/handlers/OrderService.java:116-119 | the reference sum "price × amount over the items" splits over any split of the items |
| Pricing.OrderTotalSplits | srv/src/main/java/com/sap/cap/bookstore/handlers/OrderService.java:109-119 | an order whose persisted items are `a` followed by `b` totals the total of `a` plus the total of `b` |
| Pricing.TotalOfOrderWithoutItems | srv/src/main/java/com/sap/cap/bookstore/handlers/OrderService.java:116-120 | an order with no persisted items totals 0 |
| Pricing.TotalIgnoresAttachedItems | srv/src/main/java/com/sap/cap/bookstore/handlers/OrderService.java:103-120 | two orders with the same ID get the same total whatever items were attached in memory |
| Pricing.CalculateNetAmountIdempotent | srv/src/main/java/com/sap/cap/bookstore/handlers/OrderService.java:87-98 | recomputing net amounts on already-priced items changes nothing |
| Pricing.CalculateTotalIdempotent | srv/src/main/java/com/sap/cap/bookstore/handlers/OrderService.java:101-122 | running the total handler on its own output, with the same catalog and items, gives the same orders |
| Pricing.TotalsIgnoreStock | srv/src/main/java/com/sap/cap/bookstore/handlers/OrderService.java:92-96 | the pricing handlers read only prices: catalogs with the same books at the same prices, whatever the stocks, give the same orders (so reserving stock first does not change totals) |
| Pricing.PricingExample | srv/src/main/java/com/sap/cap/bookstore/handlers/OrderService.java:96-120 | three books at 9.99 and one at 10.00 give an order total of 39.97 (in cents) |

## Left out

- The persistence service, CQN query building and the generated entity classes are replaced by the catalog map and the order-item map. Spring wiring and the handler annotations are not modelled.
- The try/catch around the stock update (lines 61-67): the write is modelled as always succeeding, so an infrastructure failure that the code logs and ignores is not represented.
- Logging (lines 66 and 80).
- Concurrency: the check-then-act race between concurrent requests, and transaction isolation and rollback, belong to the persistence layer.
- `BigDecimal` scale and precision: prices, net amounts and totals are exact integers in cents.
- Pricing.CalculateNetAmount: requires every item's book to be in the catalog, instead of modelling the exception `single()` throws on a missing book (line 93).
- Pricing.CalculateTotal: requires every book named by an attached or persisted item to be in the catalog, for the same reason as CalculateNetAmount.
- Null `Integer` amount or stock, and a null `price` (line 96), would throw and are not modelled: amounts, stocks and prices are always present.
- Other runtime exceptions from the persistence service are not modelled.
- The net amounts the total handler computes on the freshly fetched items are used only for the sum and are not returned. The model does not represent those discarded item objects.
