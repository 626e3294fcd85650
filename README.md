# Market order-book cache

This project models the `Market` class of `src/services/api/market.js`. The class keeps a cache of
limit-order books for a BitShares exchange, one book per asset traded against a fixed base asset.
The model covers:

- **The book store.** A `Market` object holds a map from a non-base asset id to its book: the buy
  and sell lists in arrival order and the book's callback. Subscribing installs a loaded snapshot
  and invokes the callback once. Unsubscribing drops the book.
- **The feed dispatcher.** A 'newOrder' event appends the order to the list that the side rule
  picks. Paying base lands in the buy list of the received asset; receiving base lands in the sell
  list of the paid asset. A 'fillOrder' event decrements `for_sale` of the first matching order.
  A 'deleteOrder' event scans every book, buy list then sell list, and removes the first matching
  order of each list. Each change sends 'ADD ORDER', 'FILL ORDER' or 'DELETE ORDER' to the book's
  callback.
- **The depth walk.** `calcExchangeRate` sorts a copy of one side by descending rate. It consumes
  orders whole while the amount exceeds them, then partially, and floors the proceeds. The sort
  is stable, which matters because fills do not clamp `for_sale` at zero: with a negative
  `for_sale`, the order of two orders of equal rate changes the proceeds.
- **The exchange-rate watcher.** The wrapped callback forwards a rate only when it is positive and
  differs from the last rate it forwarded.
- **The rebalance arithmetic of `generateOrders`.** The order builders are parameters of the
  model.

Modules:

- `MarketTypes` (`types.dfy`): the value types.
- `OrderLists` (`order_lists.dfy`): `findIndex`, `splice` and the `for_sale` decrement on one list.
- `BookStore` (`book_store.dfy`): the side rule, plus each event's effect on the map of books and
  the notifications it sends, written as functions.
- `ExchangeRate` (`exchange_rate.dfy`): the rate, the stable descending sort and the walk.
- `MarketModel` (`market.dfy`): the classes `Market` and `RateWatcher`. Their methods update the
  map in place and are proved against the `BookStore` and `ExchangeRate` functions.
- `Rebalance` (`rebalance.dfy`): `generateOrders`.

Callbacks are function values in the source. Here a book's callback is a `Listener`: either the
empty callback or a registered subscriber id. Every invocation is appended to a ghost `log` of
`Notification(asset, listener, label)`, so the contracts can state which callback hears what, and
in which order. Asset ids are object-id strings such as "1.3.0", and a JS object enumerates such
keys in insertion order. The `keys` field of `Market` records that order, because the order of the
'DELETE ORDER' notifications depends on it.

The model follows the code in three places where a reader might expect otherwise:

- A 'deleteOrder' event does not stop at the first match. Every list of every book that holds the
  id loses its first order with that id, and each such list notifies.
- `calcExchangeRate` on an asset without a book throws. It does not return zero. The model makes a
  book for the asset a precondition.
- A subscription whose snapshot arrives after an unsubscribe recreates the book. The install step
  here always creates the book when it is missing.

## Model

| member | source | states |
|---|---|---|
| OrderLists.FindIndex | src/services/api/market.js:5-7 | the index of the first order whose id equals the given id; no earlier order has it; no index exactly when no order has it |
| OrderLists.RemoveFirst | src/services/api/market.js:88-90 | removal by id takes out at most one order |
| OrderLists.RemoveFirstSplices | src/services/api/market.js:88-90 | removing by id splices out exactly the order at the index `findIndex` returns; the list is unchanged when there is none |
| OrderLists.RemoveAbsent | src/services/api/market.js:88-90 | removing an id no order carries leaves the list as it was |
| OrderLists.DecreaseAt | src/services/api/market.js:126-128 | only the i-th order changes, and only its `for_sale`, which drops by the amount |
| OrderLists.DecreaseTwice | src/services/api/market.js:128 | lowering one order's `for_sale` by x and then by y is lowering it by x + y |
| OrderLists.FindIndexIgnoresForSale | src/services/api/market.js:126-128 | decrementing `for_sale` never moves an id, so a later lookup finds the same index |
| OrderLists.RemoveAppended | src/services/api/market.js:88-90 | removing by id an order just pushed, whose id was new to the list, gives back the list |
| OrderLists.RemoveBeforeAppend | src/services/api/market.js:88-90 | pushing an order with another id commutes with removing by id |
| OrderLists.RemoveCommutes | src/services/api/market.js:88-90 | removing two ids gives the same list in either order |
| OrderLists.RemoveUnique | src/services/api/market.js:88-90 | in a list without duplicate ids, removal leaves no order with the id |
| BookStore.Locate | src/services/api/market.js:39-65 | a pair is routed iff it pays base and the received asset has a book, or receives base and the paid asset has a book; paying base goes to the buy list of the received asset, receiving base to the sell list of the paid asset, and the paying-base branch wins |
| BookStore.SideRule | src/services/api/market.js:39-65 | without a book for base: X/base and base/X route by direction alone, and a pair without base, or base against itself, is dropped |
| BookStore.AfterNewOrder | src/services/api/market.js:97-114 | a new order never adds or drops a book |
| BookStore.AfterNewOrderEffect | src/services/api/market.js:97-114 | the order is appended to the routed list, the key set stays, and nothing else changes; an unroutable order changes nothing |
| BookStore.NewOrderNotices | src/services/api/market.js:107-113 | exactly one 'ADD ORDER', to the callback of the book the side rule routes the order to, iff the order was routed |
| BookStore.FillTarget | src/services/api/market.js:123-127 | a target names a book of the map and an index inside the routed list |
| BookStore.FillTargetSpec | src/services/api/market.js:123-127 | a fill applies at the first order of the routed list carrying its id; there is no target iff the pair is unroutable or the list lacks the id |
| BookStore.AfterFill | src/services/api/market.js:116-133 | a fill never adds or drops a book |
| BookStore.AfterFillEffect | src/services/api/market.js:116-133 | only that order's `for_sale` drops, by the paid amount, with no clamp at zero; nothing else changes, and an unknown order or pair changes nothing |
| BookStore.FillNotices | src/services/api/market.js:125-131 | exactly one 'FILL ORDER', to the callback of the book `FillTarget` names, iff something was filled |
| BookStore.FillsAccumulate | src/services/api/market.js:116-133 | two fills of one order leave the books as one fill of the summed amount would |
| BookStore.FillOfUnknownOrder | src/services/api/market.js:123-132 | a fill of an order no list holds changes nothing and notifies nobody |
| BookStore.AfterDelete | src/services/api/market.js:85-95 | every book keeps its key and its callback; each list is pruned of its first order with the id |
| BookStore.BookDeleteNotices | src/services/api/market.js:87-92 | one 'DELETE ORDER' per list of the book that held the id, each to that book's callback |
| BookStore.DeleteIn | src/services/api/market.js:86-94 | the scan prefix keeps the key set of the books |
| BookStore.DeleteInAt | src/services/api/market.js:86-94 | after scanning distinct keys, exactly the scanned books are pruned, each once |
| BookStore.DeleteInAll | src/services/api/market.js:86-94 | scanning every key once, in any order, yields the books of a 'deleteOrder' event |
| BookStore.DeleteScanStep | src/services/api/market.js:86-94 | scanning one more, not yet scanned, book prunes that book from its original state and appends its notifications |
| BookStore.DeleteOfUnknownOrder | src/services/api/market.js:85-95 | deleting an id no list holds changes nothing and notifies nobody |
| BookStore.DeleteNoticesOfUnknown | src/services/api/market.js:85-95 | the scan sends no notification when no list holds the id |
| BookStore.DeleteNoticesWhenListed | src/services/api/market.js:86-92 | every scanned book holding the id receives a 'DELETE ORDER' |
| BookStore.DeleteUndoesAdd | src/services/api/market.js:85-114 | deleting an order just added, whose id was new, restores the books |
| BookStore.AddCommutesWithDelete | src/services/api/market.js:85-114 | a new order and a delete of another id commute, in the books and in the 'ADD ORDER' sent |
| BookStore.DeletesCommute | src/services/api/market.js:85-95 | two deletes commute |
| BookStore.DeleteRemovesId | src/services/api/market.js:85-95 | when ids are unique in every list, no list holds the id after a delete |
| ExchangeRate.Rate | src/services/api/market.js:9-21 | the rate times the quote amount is the base amount |
| ExchangeRate.InsertSorted | src/services/api/market.js:188-189 | inserting into a list sorted by descending key keeps it sorted and adds exactly the order |
| ExchangeRate.SortBySorted | src/services/api/market.js:188-189 | the sort yields a descending list that is a permutation of its input |
| ExchangeRate.SortByRate | src/services/api/market.js:188-189 | the sorted copy is as long as the side |
| ExchangeRate.SortByRateSorted | src/services/api/market.js:188-189 | the copy walked is best rate first and a permutation of the side |
| ExchangeRate.InsertKeepsTies | src/services/api/market.js:188-189 | an inserted order lands ahead of every order of its own key, and those keep their order |
| ExchangeRate.SortByStable | src/services/api/market.js:188-189 | the sort is stable: for every key, the orders carrying it come out in the order they went in |
| ExchangeRate.SortByRateStable | src/services/api/market.js:188-189 | orders of equal rate are walked in the order the side lists them |
| ExchangeRate.RequiredSide | src/services/api/market.js:186 | the buy list is walked iff the direction is "sell" |
| ExchangeRate.WalkConsume | src/services/api/market.js:193-195 | an order smaller than what is left is consumed whole at its price and the walk continues |
| ExchangeRate.WalkFinish | src/services/api/market.js:196-198 | an order covering what is left is consumed partially and the walk stops |
| ExchangeRate.WalkNonNegative | src/services/api/market.js:190-199 | with non-negative amounts and prices, a walk of a non-negative amount gathers non-negative proceeds |
| ExchangeRate.WalkMonotone | src/services/api/market.js:190-199 | the walk is non-decreasing in the amount |
| ExchangeRate.RatesNonNegative | src/services/api/market.js:9-21 | non-negative base amounts give non-negative rates |
| ExchangeRate.RateOnMonotone | src/services/api/market.js:182-202 | with non-negative `for_sale` and base amounts, the floored rate is non-decreasing in the amount |
| ExchangeRate.RateOn | src/services/api/market.js:182-202 | a side of one order yields the floor of the smaller of the amount and that order's `for_sale`, at its rate |
| ExchangeRate.RateOnEmpty | src/services/api/market.js:182-202 | an empty side yields 0 |
| ExchangeRate.WalkAtMostBestPrice | src/services/api/market.js:188-199 | on a side sorted best first, the proceeds never exceed the amount at the best price |
| ExchangeRate.WalkBeyondDepth | src/services/api/market.js:190-199 | an amount at least the whole depth yields the value of the whole side; missing liquidity is silent |
| ExchangeRate.DepthNonNegative | src/services/api/market.js:190-199 | the depth of a side with non-negative amounts is non-negative |
| ExchangeRate.DepthZeroValueZero | src/services/api/market.js:190-199 | a side of zero depth is worth nothing |
| ExchangeRate.WorkedExample | src/services/api/market.js:182-202 | a buy side holding 50 at 1.2 and 100 at 0.5 converts 120 into 95 |
| MarketModel.Without | src/services/api/market.js:162 | the key order without the deleted key, still without duplicates |
| MarketModel.Market.constructor | src/services/api/market.js:24-26 | a market over the base with no books |
| MarketModel.Market.IsSubscribed | src/services/api/market.js:135-137 | true iff the asset has a book |
| MarketModel.Market.SetDefaultObjects | src/services/api/market.js:139-148 | creates an empty book with the empty callback when the asset has none; otherwise nothing changes |
| MarketModel.Market.SubscribeToMarket | src/services/api/market.js:150-158 | nothing for the base asset; otherwise the book is replaced by the loaded lists and the callback, and the callback is invoked once without a label |
| MarketModel.Market.UnsubscribeFromMarket | src/services/api/market.js:160-164 | drops the book, if any, and nothing else |
| MarketModel.Market.UnsubscribeFromExchangeRate | src/services/api/market.js:166-168 | the same as unsubscribing from the market |
| MarketModel.Market.OnNewLimitOrder | src/services/api/market.js:97-114 | the books become `AfterNewOrder` and the log gains `NewOrderNotices` |
| MarketModel.Market.OnOrderFill | src/services/api/market.js:116-133 | the books become `AfterFill` and the log gains `FillNotices` |
| MarketModel.Market.DeleteFromList | src/services/api/market.js:87-92 | one list of one book loses its first order with the id, and a 'DELETE ORDER' goes to that book's callback iff the list held the id; the key order is kept |
| MarketModel.Market.DeleteFromBook | src/services/api/market.js:87-93 | one book is pruned of the id, buy list then sell list, with one notification per list that held it |
| MarketModel.Market.OnOrderDelete | src/services/api/market.js:85-95 | the books become `AfterDelete`, and the log gains the notifications of every book in key order |
| MarketModel.Market.OnMarketUpdate | src/services/api/market.js:67-83 | each event kind has its own effect on books and log, and any other kind changes nothing |
| MarketModel.Market.CalcExchangeRate | src/services/api/market.js:182-202 | the loop computes the floored walk of the sorted copy of the side the direction picks; the book is not changed |
| MarketModel.Market.SubscribeToExchangeRate | src/services/api/market.js:170-180 | the book's callback is the returned watcher's listener, the key order gains the asset iff it had no book, and installing forwards the first rate iff it is positive |
| MarketModel.RateWatcher.constructor | src/services/api/market.js:171 | the last forwarded rate starts at 0, and the watcher carries the listener it wraps |
| MarketModel.RateWatcher.OnBookChanged | src/services/api/market.js:172-178 | a rate is forwarded iff it is positive and differs from the last one forwarded; forwarded rates stay positive, and no two in a row are equal |
| Rebalance.ToSell | src/services/api/market.js:206-209 | one entry per sold asset, in key order, with the floored fraction of its balance; fails at the first asset without a balance |
| Rebalance.SellAmount | src/services/api/market.js:208 | selling no fraction sells nothing, selling the whole fraction sells the balance |
| Rebalance.SellAmountBounds | src/services/api/market.js:208 | a fraction in [0, 1] of a non-negative balance sells between 0 and the balance |
| Rebalance.HalfOfThousand | src/services/api/market.js:206-209 | selling 0.5 of a balance of 1000 hands 500 to the sell-order builder |
| Rebalance.ToBuy | src/services/api/market.js:225-228 | one entry per bought asset, in key order, with its share |
| Rebalance.SumNetProceeds | src/services/api/market.js:213-220 | the sum succeeds iff every sell order receives a registered asset, and otherwise fails naming such an asset |
| Rebalance.NetOfFee | src/services/api/market.js:217 | a fee of 100% leaves nothing |
| Rebalance.NetOfFeeBounds | src/services/api/market.js:217 | with a fee between 0 and 100%, what arrives is between 0 and the amount, and it is the amount when there is no fee |
| Rebalance.SumNetBounds | src/services/api/market.js:213-220 | the net base proceeds lie between 0 and the gross `min_to_receive` total |
| Rebalance.SumNetWithoutFees | src/services/api/market.js:213-220 | with no fees the net proceeds are the gross total |
| Rebalance.BaseTotal | src/services/api/market.js:221-223 | the base total is NaN exactly when the base asset's fraction is truthy and its balance is missing, and is the net proceeds when the fraction is not truthy |
| Rebalance.BaseTotalAddsBaseShare | src/services/api/market.js:221-223 | a base asset absent or zero in `update.sell` adds nothing; a truthy one adds its floored share of the base balance |
| Rebalance.ExchangeResultOver | src/services/api/market.js:238-247 | the fold succeeds iff every buy order receives a registered asset, and its keys are those of the orders |
| Rebalance.ExchangeResultAsWritten | src/services/api/market.js:238-247 | as written, the result has at most the one key "undefined" |
| Rebalance.ExchangeResult | src/services/api/market.js:238-247 | keyed by the received asset, the result has one key per received asset |
| Rebalance.ExchangeResultCollapses | src/services/api/market.js:238-247 | two buy orders for different assets give one entry as written and two when keyed by asset |
| Rebalance.GenerateOrders | src/services/api/market.js:204-252 | without a registered base asset the call always fails |
| Rebalance.GenerateOrdersFails | src/services/api/market.js:204-252 | fails iff a sold asset lacks a balance, a sell order's asset is unregistered, the base asset is unregistered, or a buy order's asset is unregistered |
| Rebalance.GenerateOrdersPassesThrough | src/services/api/market.js:204-252 | on success, both builders' orders come back unchanged; the sell builder got the floored fractions, and the buy builder got the base asset, the fee-adjusted base total and the shares |

## Left out

- The feed wiring in the constructor (src/services/api/market.js:28-32) is a call into the network listener. `OnMarketUpdate` is the entry point it would call.
- `getFee` and its constant 578 (src/services/api/market.js:27, 35-37) are not used by any modelled logic.
- The loader `utils.loadLimitOrders` (src/services/api/market.js:152) is network I/O. Its answer becomes the `buyOrders`/`sellOrders` parameters of `SubscribeToMarket`.
- The interleaving of `await` with feed events and unsubscribes is not modelled. Each method runs to completion.
- The `console.log` calls are output only.
- Callbacks are not function values. A book's callback is a `Listener` and each invocation is an entry of the ghost `log`. The exchange-rate watcher is invoked explicitly through `RateWatcher.OnBookChanged`, not from the log.
- MarketModel.RateWatcher.OnBookChanged: the subscriber's callback receives `(assetId, rate)`. The model records only the rate, because the asset is fixed per watcher.
- Numbers are exact: Dafny `real` and `int` replace IEEE-754 doubles, so there is no rounding, NaN from arithmetic, or Infinity. A price's quote amount is a positive integer, so no rate divides by zero. The NaN that the base total becomes when the base balance is missing is modelled as `NotANumber`.
- A registered asset without `options.market_fee_percent` makes the fee reductions of src/services/api/market.js:217 and :241 NaN. In the model every `AssetInfo` carries a fee, so that NaN is not modelled.
- `AssetId` stands for object-id strings such as "1.3.0". Integer-like keys, which a JS object enumerates first and in ascending order, are not modelled. Neither are inherited property names such as "constructor", for which `isSubscribed` (src/services/api/market.js:135-137) would be true without a book.
- Order-id uniqueness within a list is not enforced by the code. Lemmas that need it take it as a hypothesis (`UniqueEverywhere`).
- Only `min_to_receive` of a builder's order is modelled, because it is the only field the code reads. `balances[id]` is modelled as the balance number itself.
- The order builders `getExchangeToBaseOrders` and `getExchangeToDistributionOrders` are not part of this model. They are parameters of `GenerateOrders`.
- `src/getters/account.js` is not part of this model. It consists of key derivation, memo encryption and signing, all foreign library calls.
- `src/actions/assets.js` is not part of this model. It is a store action around an asynchronous fetch.

## Findings

| source | as written | input that shows it | evidently intended | confidence | as-written member | corrected member |
|---|---|---|---|---|---|---|
| src/services/api/market.js:238-247 | `exchangeResult` is keyed by `order.min_to_receive.assetId`, a property the order does not have (line 240 reads `asset_id`), so every entry lands under the key "undefined" and overwrites the previous one | two buy orders receiving 1.3.1 and 1.3.2 give one entry, not two | one entry per received asset, keyed by `asset_id` | not executed; the object is discarded, so the returned orders are the same either way, and only a thrown lookup failure reaches the caller | Rebalance.ExchangeResultAsWritten | Rebalance.ExchangeResult |
