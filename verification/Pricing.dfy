/**
 The read-side projections computed after order items and orders are read
 or created: an item's net amount is its book's price times the amount
 ordered, and an order's total is the sum of the net amounts of every item
 persisted under it. Both only read the catalog.
 */
module Pricing {
  import opened JavaInt
  import opened Bookstore

  /** The item with its net amount set from its book's current price. */
  function WithNetAmount(c: Catalog, item: OrderItem): OrderItem
    requires item.bookId in c
  {
    item.(netAmount := Some(c[item.bookId].price * item.amount as int))
  }

  /** The item loop of the net-amount handler: every item gets its net amount, nothing else changes. */
  function CalculateNetAmount(c: Catalog, items: seq<OrderItem>): (r: seq<OrderItem>)
    requires AllBooksKnown(c, items)
    ensures |r| == |items|
    ensures forall i :: 0 <= i < |items| ==>
              r[i] == items[i].(netAmount := Some(c[items[i].bookId].price * items[i].amount as int))
    decreases |items|
  {
    if items == [] then
      []
    else
      assert AllBooksKnown(c, items[1..]) by {
        forall i | 0 <= i < |items[1..]| ensures items[1..][i].bookId in c {
          assert items[1..][i] == items[i + 1];
        }
      }
      [WithNetAmount(c, items[0])] + CalculateNetAmount(c, items[1..])
  }

  /** Every item carries a net amount. */
  predicate AllPriced(items: seq<OrderItem>)
  {
    forall i :: 0 <= i < |items| ==> items[i].netAmount.Some?
  }

  /** The accumulation loop of the total handler: the sum of the items' net amounts. The
      contract is the loop read front to back: it starts at zero, and each item adds its net
      amount to the sum of the items before it. */
  function SumNetAmounts(items: seq<OrderItem>): (r: int)
    requires AllPriced(items)
    ensures items == [] ==> r == 0
    ensures items != [] ==>
              && AllPriced(items[..|items| - 1])
              && r == SumNetAmounts(items[..|items| - 1]) + items[|items| - 1].netAmount.value
    decreases |items|
  {
    if items == [] then 0
    else
      assert AllPriced(items[1..]) by {
        forall i | 0 <= i < |items[1..]| ensures items[1..][i].netAmount.Some? {
          assert items[1..][i] == items[i + 1];
        }
      }
      assert |items| > 1 ==> items[..|items| - 1][1..] == items[1..][..|items| - 2];
      items[0].netAmount.value + SumNetAmounts(items[1..])
  }

  /** Reference value of an order total: price times amount, summed over the items. */
  function Revenue(c: Catalog, items: seq<OrderItem>): int
    requires AllBooksKnown(c, items)
    decreases |items|
  {
    if items == [] then 0
    else c[items[0].bookId].price * items[0].amount as int + Revenue(c, items[1..])
  }

  /** The total of order `id`: net amounts of all its persisted items, recomputed and summed.
      It is price times amount summed over those items. */
  function OrderTotal(c: Catalog, store: ItemStore, id: OrderId): (r: int)
    requires AllBooksKnown(c, ItemsOf(store, id))
    ensures r == Revenue(c, ItemsOf(store, id))
  {
    TotalIsRevenue(c, ItemsOf(store, id));
    SumNetAmounts(CalculateNetAmount(c, ItemsOf(store, id)))
  }

  /** Every book an order names, attached or persisted, is in the catalog. */
  predicate PricingDefined(c: Catalog, store: ItemStore, orders: seq<Order>)
  {
    forall i :: 0 <= i < |orders| ==>
      && (orders[i].items.Some? ==> AllBooksKnown(c, orders[i].items.value))
      && AllBooksKnown(c, ItemsOf(store, orders[i].id))
  }

  /** One order of the total handler: net amounts on the attached items, then the total of the
      persisted ones. */
  function PriceOrder(c: Catalog, store: ItemStore, o: Order): (r: Order)
    requires o.items.Some? ==> AllBooksKnown(c, o.items.value)
    requires AllBooksKnown(c, ItemsOf(store, o.id))
    ensures r.id == o.id
    ensures o.items.None? ==> r.items.None?
    ensures o.items.Some? ==>
              && r.items.Some? && |r.items.value| == |o.items.value|
              && forall i :: 0 <= i < |o.items.value| ==>
                   && r.items.value[i].bookId == o.items.value[i].bookId
                   && r.items.value[i].amount == o.items.value[i].amount
                   && r.items.value[i].netAmount == Some(c[o.items.value[i].bookId].price * o.items.value[i].amount as int)
    ensures r.total == Some(Revenue(c, ItemsOf(store, o.id)))
  {
    o.(items := if o.items.Some? then Some(CalculateNetAmount(c, o.items.value)) else None,
       total := Some(OrderTotal(c, store, o.id)))
  }

  /** The order loop of the total handler. Each order keeps its ID, its attached items (if any)
      get net amounts, and its total is price times amount summed over the items persisted
      under its ID, whatever was attached. */
  function CalculateTotal(c: Catalog, store: ItemStore, orders: seq<Order>): (r: seq<Order>)
    requires PricingDefined(c, store, orders)
    ensures |r| == |orders|
    ensures forall i :: 0 <= i < |orders| ==>
              && r[i].id == orders[i].id
              && r[i].items == (if orders[i].items.Some? then Some(CalculateNetAmount(c, orders[i].items.value)) else None)
              && r[i].total == Some(Revenue(c, ItemsOf(store, orders[i].id)))
    decreases |orders|
  {
    if orders == [] then
      []
    else
      assert PricingDefined(c, store, orders[1..]) by {
        forall i | 0 <= i < |orders[1..]|
          ensures && (orders[1..][i].items.Some? ==> AllBooksKnown(c, orders[1..][i].items.value))
                  && AllBooksKnown(c, ItemsOf(store, orders[1..][i].id))
        {
          assert orders[1..][i] == orders[i + 1];
        }
      }
      [PriceOrder(c, store, orders[0])] + CalculateTotal(c, store, orders[1..])
  }

  /** Summing the recomputed net amounts gives price times amount summed over the items. */
  lemma {:induction false} TotalIsRevenue(c: Catalog, items: seq<OrderItem>)
    requires AllBooksKnown(c, items)
    ensures AllPriced(CalculateNetAmount(c, items))
    ensures SumNetAmounts(CalculateNetAmount(c, items)) == Revenue(c, items)
    decreases |items|
  {
    var r := CalculateNetAmount(c, items);
    if items != [] {
      assert AllBooksKnown(c, items[1..]) by {
        forall i | 0 <= i < |items[1..]| ensures items[1..][i].bookId in c {
          assert items[1..][i] == items[i + 1];
        }
      }
      TotalIsRevenue(c, items[1..]);
      assert r[1..] == CalculateNetAmount(c, items[1..]);
    }
  }

  /** The reference sum splits over any split of the items. */
  lemma {:induction false} RevenueAppend(c: Catalog, a: seq<OrderItem>, b: seq<OrderItem>)
    requires AllBooksKnown(c, a) && AllBooksKnown(c, b)
    ensures AllBooksKnown(c, a + b)
    ensures Revenue(c, a + b) == Revenue(c, a) + Revenue(c, b)
    decreases |a|
  {
    assert AllBooksKnown(c, a + b) by {
      forall i | 0 <= i < |a + b| ensures (a + b)[i].bookId in c {
        if i < |a| { assert (a + b)[i] == a[i]; } else { assert (a + b)[i] == b[i - |a|]; }
      }
    }
    if a == [] {
      assert a + b == b;
    } else {
      assert (a + b)[0] == a[0];
      assert (a + b)[1..] == a[1..] + b;
      assert AllBooksKnown(c, a[1..]) by {
        forall i | 0 <= i < |a[1..]| ensures a[1..][i].bookId in c {
          assert a[1..][i] == a[i + 1];
        }
      }
      RevenueAppend(c, a[1..], b);
    }
  }

  /** Items persisted under an order in two runs `a` then `b` total what `a` and `b` total apart. */
  lemma OrderTotalSplits(c: Catalog, store: ItemStore, id: OrderId, a: seq<OrderItem>, b: seq<OrderItem>)
    requires AllBooksKnown(c, a) && AllBooksKnown(c, b)
    ensures AllBooksKnown(c, a + b)
    ensures OrderTotal(c, store[id := a + b], id)
            == OrderTotal(c, store[id := a], id) + OrderTotal(c, store[id := b], id)
  {
    RevenueAppend(c, a, b);
  }

  /** An order with no persisted items totals zero. */
  lemma TotalOfOrderWithoutItems(c: Catalog, store: ItemStore, o: Order)
    requires o.items.Some? ==> AllBooksKnown(c, o.items.value)
    requires o.id !in store || store[o.id] == []
    ensures PricingDefined(c, store, [o])
    ensures CalculateTotal(c, store, [o])[0].total == Some(0)
  {
  }

  /** The total depends on the persisted items only, not on what was attached to the order. */
  lemma TotalIgnoresAttachedItems(c: Catalog, store: ItemStore, o1: Order, o2: Order)
    requires o1.id == o2.id
    requires PricingDefined(c, store, [o1]) && PricingDefined(c, store, [o2])
    ensures CalculateTotal(c, store, [o1])[0].total == CalculateTotal(c, store, [o2])[0].total
  {
  }

  /** Recomputing net amounts changes nothing more. */
  lemma CalculateNetAmountIdempotent(c: Catalog, items: seq<OrderItem>)
    requires AllBooksKnown(c, items)
    ensures AllBooksKnown(c, CalculateNetAmount(c, items))
    ensures CalculateNetAmount(c, CalculateNetAmount(c, items)) == CalculateNetAmount(c, items)
  {
  }

  /** Running the total handler again on its own output, with the same catalog and items,
      gives the same orders: it is a read-only projection. */
  lemma CalculateTotalIdempotent(c: Catalog, store: ItemStore, orders: seq<Order>)
    requires PricingDefined(c, store, orders)
    ensures PricingDefined(c, store, CalculateTotal(c, store, orders))
    ensures CalculateTotal(c, store, CalculateTotal(c, store, orders)) == CalculateTotal(c, store, orders)
  {
    var r := CalculateTotal(c, store, orders);
    forall i | 0 <= i < |orders| && orders[i].items.Some?
      ensures AllBooksKnown(c, r[i].items.value)
      ensures CalculateNetAmount(c, r[i].items.value) == r[i].items.value
    {
      CalculateNetAmountIdempotent(c, orders[i].items.value);
    }
    var r2 := CalculateTotal(c, store, r);
    assert |r2| == |r|;
    forall i | 0 <= i < |r| ensures r2[i] == r[i] {
    }
  }

  /** Prices are all the pricing handlers read from the catalog: two catalogs with the same books
      at the same prices, whatever their stocks, give the same orders. */
  lemma TotalsIgnoreStock(c: Catalog, d: Catalog, store: ItemStore, orders: seq<Order>)
    requires SameBooksAndPrices(c, d)
    requires PricingDefined(c, store, orders)
    ensures PricingDefined(d, store, orders)
    ensures CalculateTotal(c, store, orders) == CalculateTotal(d, store, orders)
  {
    assert forall items :: AllBooksKnown(c, items) ==> AllBooksKnown(d, items);
    var rc, rd := CalculateTotal(c, store, orders), CalculateTotal(d, store, orders);
    forall i | 0 <= i < |orders| ensures rc[i] == rd[i] {
      SameNetAmounts(c, d, ItemsOf(store, orders[i].id));
      if orders[i].items.Some? {
        SameNetAmounts(c, d, orders[i].items.value);
      }
    }
  }

  lemma SameNetAmounts(c: Catalog, d: Catalog, items: seq<OrderItem>)
    requires SameBooksAndPrices(c, d) && AllBooksKnown(c, items)
    ensures AllBooksKnown(d, items)
    ensures CalculateNetAmount(c, items) == CalculateNetAmount(d, items)
    ensures Revenue(c, items) == Revenue(d, items)
  {
    TotalIsRevenue(c, items);
    TotalIsRevenue(d, items);
  }

  /** An order of three books at 9.99 and one at 10.00 totals 39.97, in cents. */
  lemma PricingExample()
    ensures var c := map["b1" := Book(5, 999), "b2" := Book(1, 1000)];
            var store := map["o1" := [OrderItem("b1", 3, None), OrderItem("b2", 1, None)]];
            var o := Order("o1", None, None);
            && PricingDefined(c, store, [o])
            && CalculateTotal(c, store, [o])[0].total == Some(3997)
  {
    var c := map["b1" := Book(5, 999), "b2" := Book(1, 1000)];
    var items := [OrderItem("b1", 3, None), OrderItem("b2", 1, None)];
    assert Revenue(c, items) == 2997 + Revenue(c, items[1..]);
    assert items[1..][1..] == [];
  }
}
