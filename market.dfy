/** The `Market` object: the cache of books keyed by non-base asset, which
    the feed dispatcher and the subscription calls update in place, the
    depth walk over one of its books, and the wrapped callback of an
    exchange-rate subscription. */
module MarketModel {
  import opened MarketTypes
  import opened OrderLists
  import opened BookStore
  import opened ExchangeRate

  /** `s` with every occurrence of `a` taken out. */
  function Without(s: seq<AssetId>, a: AssetId): (r: seq<AssetId>)
    ensures forall x :: x in r <==> x in s && x != a
    ensures a !in s ==> r == s
    ensures Distinct(s) ==> Distinct(r)
  {
    if s == [] then []
    else if s[0] == a then Without(s[1..], a)
    else
      assert Distinct(s) ==> s[0] !in s[1..];
      [s[0]] + Without(s[1..], a)
  }

  class Market {
    /** The asset every book is priced against. */
    const base: AssetId
    /** `markets`: one book per subscribed asset. */
    var markets: Markets
    /** The order in which the books are enumerated: the order their keys
        were added to `markets`, as object keys are enumerated. */
    var keys: seq<AssetId>
    /** Every callback invocation so far, oldest first. */
    ghost var log: seq<Notification>

    ghost predicate Valid()
      reads this
    {
      && Distinct(keys)
      && (forall a :: a in markets <==> a in keys)
    }

    /** A market over `base` with no books (the feed wiring is not modelled). */
    constructor(base: AssetId)
      ensures Valid()
      ensures this.base == base && markets == map[] && keys == [] && log == []
    {
      this.base := base;
      markets := map[];
      keys := [];
      log := [];
    }

    /** Whether `assetId` has a book. */
    function IsSubscribed(assetId: AssetId): (r: bool)
      reads this
      ensures r <==> assetId in markets
    {
      assetId in markets
    }

    /** Creates an empty book with the empty callback unless one exists. */
    method SetDefaultObjects(assetId: AssetId)
      requires Valid()
      modifies this
      ensures Valid() && log == old(log)
      ensures assetId in old(markets) ==> markets == old(markets) && keys == old(keys)
      ensures assetId !in old(markets) ==>
                markets == old(markets)[assetId := EmptyBook] && keys == old(keys) + [assetId]
    {
      if !IsSubscribed(assetId) {
        markets := markets[assetId := EmptyBook];
        keys := keys + [assetId];
      }
    }

    /** The part of `subscribeToMarket` after the loader answered with
        `buyOrders` and `sellOrders`: nothing for the base asset; otherwise
        the book is created if needed, its lists and callback are replaced
        (not merged) by the loaded ones, and the callback is invoked once. */
    method SubscribeToMarket(assetId: AssetId, buyOrders: seq<Order>, sellOrders: seq<Order>, callback: Listener)
      requires Valid()
      modifies this
      ensures Valid()
      ensures assetId == base ==> markets == old(markets) && keys == old(keys) && log == old(log)
      ensures assetId != base ==> markets == old(markets)[assetId := Book(buyOrders, sellOrders, callback)]
      ensures assetId != base ==> keys == if assetId in old(markets) then old(keys) else old(keys) + [assetId]
      ensures assetId != base ==> log == old(log) + [Notification(assetId, callback, Initial)]
      ensures base !in old(markets) ==> base !in markets
    {
      if assetId == base {
        return;
      }
      SetDefaultObjects(assetId);
      ghost var created := markets;
      markets := markets[assetId := markets[assetId].(buy := buyOrders)];
      markets := markets[assetId := markets[assetId].(sell := sellOrders)];
      markets := markets[assetId := markets[assetId].(callback := callback)];
      assert markets == created[assetId := Book(buyOrders, sellOrders, callback)];
      log := log + [Notification(assetId, callback, Initial)];
    }

    /** Drops the book of `assetId`, if there is one; nothing else changes. */
    method UnsubscribeFromMarket(assetId: AssetId)
      requires Valid()
      modifies this
      ensures Valid()
      ensures markets == old(markets) - {assetId} && keys == Without(old(keys), assetId) && log == old(log)
    {
      if IsSubscribed(assetId) {
        markets := markets - {assetId};
        keys := Without(keys, assetId);
      }
    }

    method UnsubscribeFromExchangeRate(assetId: AssetId)
      requires Valid()
      modifies this
      ensures Valid()
      ensures markets == old(markets) - {assetId} && keys == Without(old(keys), assetId) && log == old(log)
    {
      UnsubscribeFromMarket(assetId);
    }

    /** 'newOrder': append the order to the list its `sell_price` routes to
        and send 'ADD ORDER' to that book; drop it when nothing is routed. */
    method OnNewLimitOrder(order: Order)
      requires Valid()
      modifies this
      ensures Valid() && keys == old(keys)
      ensures markets == AfterNewOrder(base, old(markets), order)
      ensures log == old(log) + NewOrderNotices(base, old(markets), order)
    {
      var pays := order.sellPrice.baseAsset;
      var receives := order.sellPrice.quoteAsset;
      var target := Locate(base, markets, pays, receives);
      if target.Some? {
        var t := target.value;
        var orders := SideList(markets[t.asset], t.side);
        markets := markets[t.asset := WithSide(markets[t.asset], t.side, orders + [order])];
        var c := Locate(base, markets, pays, receives).value;
        log := log + [Notification(c.asset, markets[c.asset].callback, AddOrder)];
      }
    }

    /** 'fillOrder': decrement the `for_sale` of the first order of the
        routed list carrying `order_id` by the paid amount and send
        'FILL ORDER'; an unknown order or pair changes nothing. */
    method OnOrderFill(fill: Fill)
      requires Valid()
      modifies this
      ensures Valid() && keys == old(keys)
      ensures markets == AfterFill(base, old(markets), fill)
      ensures log == old(log) + FillNotices(base, old(markets), fill)
    {
      var pays := fill.pays.assetId;
      var receives := fill.receives.assetId;
      var target := Locate(base, markets, pays, receives);
      if target.Some? {
        var t := target.value;
        var orders := SideList(markets[t.asset], t.side);
        var idx := FindIndex(orders, fill.orderId);
        if idx.Some? {
          var i := idx.value;
          ghost var m0 := markets;
          assert FillTarget(base, m0, fill) == Some((t, i));
          orders := orders[i := orders[i].(forSale := orders[i].forSale - fill.pays.amount)];
          markets := markets[t.asset := WithSide(markets[t.asset], t.side, orders)];
          assert markets == AfterFill(base, m0, fill);
          assert markets.Keys == m0.Keys;
          var c := Locate(base, markets, pays, receives).value;
          assert c == t;
          log := log + [Notification(c.asset, markets[c.asset].callback, FillOrder)];
        }
      }
    }

    /** The body of the inner scan for one list of one book: remove the
        first order carrying the id, if any, and send 'DELETE ORDER' to
        the book. */
    method DeleteFromList(a: AssetId, side: Side, orderId: OrderId)
      requires a in markets
      modifies this
      ensures keys == old(keys)
      ensures markets == old(markets)[a := PruneSide(old(markets)[a], side, orderId)]
      ensures log == old(log) + SideDeleteNotices(a, old(markets)[a], side, orderId)
    {
      var orders := SideList(markets[a], side);
      RemoveFirstSplices(orders, orderId);
      var idx := FindIndex(orders, orderId);
      if idx.Some? {
        orders := orders[..idx.value] + orders[idx.value + 1..];
        markets := markets[a := WithSide(markets[a], side, orders)];
        log := log + [Notification(a, markets[a].callback, DeleteOrder)];
      }
    }

    /** The body of the delete scan for one book: its buy list, then its
        sell list. */
    method DeleteFromBook(a: AssetId, orderId: OrderId)
      requires a in markets
      modifies this
      ensures keys == old(keys)
      ensures markets == old(markets)[a := PruneBook(old(markets)[a], orderId)]
      ensures log == old(log) + BookDeleteNotices(a, old(markets)[a], orderId)
    {
      ghost var b := markets[a];
      DeleteFromList(a, Buy, orderId);
      ghost var afterBuy := log;
      assert markets[a] == PruneSide(b, Buy, orderId);
      DeleteFromList(a, Sell, orderId);
      assert PruneSide(PruneSide(b, Buy, orderId), Sell, orderId) == PruneBook(b, orderId);
      assert SideDeleteNotices(a, PruneSide(b, Buy, orderId), Sell, orderId) == SideDeleteNotices(a, b, Sell, orderId);
      assert log == old(log) + SideDeleteNotices(a, b, Buy, orderId) + SideDeleteNotices(a, b, Sell, orderId);
    }

    /** 'deleteOrder': scan every book in enumeration order, its buy list
        then its sell list; in each list holding the id remove the first
        such order and send 'DELETE ORDER' to the book. The scan does not
        stop at the first match. */
    method OnOrderDelete(orderId: OrderId)
      requires Valid()
      modifies this
      ensures Valid() && keys == old(keys)
      ensures markets == AfterDelete(old(markets), orderId)
      ensures log == old(log) + DeleteNotices(old(keys), old(markets), orderId)
    {
      var ks := keys;
      ghost var m0 := markets;
      ghost var l0 := log;
      var i := 0;
      while i < |ks|
        invariant 0 <= i <= |ks|
        invariant keys == ks && Distinct(ks) && forall k :: k in ks ==> k in m0
        invariant markets == DeleteIn(ks[..i], m0, orderId)
        invariant log == l0 + DeleteNotices(ks[..i], m0, orderId)
      {
        DeleteScanStep(ks, m0, orderId, i, l0);
        DeleteFromBook(ks[i], orderId);
        i := i + 1;
      }
      assert ks[..i] == ks;
      DeleteInAll(ks, m0, orderId);
    }

    /** The feed's entry point: dispatch on the kind of event; any other
        kind is ignored. */
    method OnMarketUpdate(event: Event)
      requires Valid()
      modifies this
      ensures Valid() && keys == old(keys)
      ensures event.NewOrderEvent? ==> markets == AfterNewOrder(base, old(markets), event.order)
                                       && log == old(log) + NewOrderNotices(base, old(markets), event.order)
      ensures event.DeleteOrderEvent? ==> markets == AfterDelete(old(markets), event.orderId)
                                          && log == old(log) + DeleteNotices(old(keys), old(markets), event.orderId)
      ensures event.FillOrderEvent? ==> markets == AfterFill(base, old(markets), event.fill)
                                        && log == old(log) + FillNotices(base, old(markets), event.fill)
      ensures event.OtherEvent? ==> markets == old(markets) && log == old(log)
    {
      match event
      case NewOrderEvent(order) => OnNewLimitOrder(order);
      case DeleteOrderEvent(id) => OnOrderDelete(id);
      case FillOrderEvent(fill) => OnOrderFill(fill);
      case OtherEvent(_) =>
    }

    /** `calcExchangeRate`: the floored proceeds of walking a sorted copy of
        the buy list (direction "sell") or of the sell list (any other
        direction). The book itself is left as it is. */
    method CalcExchangeRate(assetId: AssetId, weWantTo: string, amount: int) returns (r: int)
      requires assetId in markets
      ensures r == RateOn(SideList(markets[assetId], RequiredSide(weWantTo)), amount)
    {
      var totalPay := amount;
      var totalReceive := 0.0;
      var requiredType := RequiredSide(weWantTo);
      var orders := SortByRate(SideList(markets[assetId], requiredType));
      var i := 0;
      while i < |orders|
        invariant 0 <= i <= |orders|
        invariant totalReceive + Walk(orders[i..], totalPay, Rate) == Walk(orders, amount, Rate)
      {
        var saleAmount := orders[i].forSale;
        var orderPrice := Rate(orders[i]);
        if totalPay > saleAmount {
          WalkConsume(orders, i, totalPay, totalReceive, Rate, orderPrice);
          totalReceive := totalReceive + saleAmount as real * orderPrice;
          totalPay := totalPay - saleAmount;
        } else {
          WalkFinish(orders, i, totalPay, totalReceive, Rate, orderPrice);
          totalReceive := totalReceive + totalPay as real * orderPrice;
          break;
        }
        i := i + 1;
      }
      r := totalReceive.Floor;
    }

    /** `subscribeToExchangeRate`, with the loader's answer given: a watcher
        that remembers the last rate it forwarded is registered as the
        book's callback, and the install step invokes it once. */
    method SubscribeToExchangeRate(assetId: AssetId, amount: int, buyOrders: seq<Order>, sellOrders: seq<Order>,
                                   listenerId: nat)
      returns (w: RateWatcher)
      requires Valid()
      modifies this
      ensures Valid() && fresh(w) && w.Valid()
      ensures w.asset == assetId && w.amount == amount && w.listener == Registered(listenerId)
      ensures keys == if assetId == base || assetId in old(markets) then old(keys) else old(keys) + [assetId]
      ensures assetId == base ==> markets == old(markets) && log == old(log) && w.forwarded == []
      ensures assetId != base ==>
                markets == old(markets)[assetId := Book(buyOrders, sellOrders, w.listener)]
                && log == old(log) + [Notification(assetId, w.listener, Initial)]
      ensures assetId != base ==>
                w.forwarded == if RateOn(buyOrders, amount) > 0 then [RateOn(buyOrders, amount)] else []
    {
      w := new RateWatcher(assetId, amount, Registered(listenerId));
      SubscribeToMarket(assetId, buyOrders, sellOrders, w.listener);
      if assetId != base {
        w.OnBookChanged(this);
      }
    }
  }

  /** The wrapped callback of an exchange-rate subscription and its state
      `canReceiveInBasePrev`: it forwards the current rate for selling
      `amount` of `asset` only when that rate is positive and differs from
      the last one forwarded. */
  class RateWatcher {
    const asset: AssetId
    const amount: int
    /** The listener the book's callback is set to: the wrapped callback. */
    const listener: Listener
    var prev: int
    /** The rates handed to the subscriber's callback, oldest first. */
    ghost var forwarded: seq<int>

    ghost predicate Valid()
      reads this
    {
      && prev == (if forwarded == [] then 0 else forwarded[|forwarded| - 1])
      && (forall i :: 0 <= i < |forwarded| ==> forwarded[i] > 0)
      && (forall i :: 0 < i < |forwarded| ==> forwarded[i] != forwarded[i - 1])
    }

    constructor(asset: AssetId, amount: int, listener: Listener)
      ensures Valid() && this.asset == asset && this.amount == amount && this.listener == listener
      ensures forwarded == []
    {
      this.asset := asset;
      this.amount := amount;
      this.listener := listener;
      prev := 0;
      forwarded := [];
    }

    /** One invocation of the wrapped callback after `market` changed. */
    method OnBookChanged(market: Market)
      requires Valid() && asset in market.markets
      modifies this
      ensures Valid()
      ensures var rate := RateOn(market.markets[asset].buy, amount);
              forwarded == if rate != old(prev) && rate > 0 then old(forwarded) + [rate] else old(forwarded)
    {
      var canReceiveInBase := market.CalcExchangeRate(asset, "sell", amount);
      if canReceiveInBase != prev && canReceiveInBase > 0 {
        prev := canReceiveInBase;
        forwarded := forwarded + [canReceiveInBase];
      }
    }
  }
}
