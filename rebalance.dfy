/** `generateOrders`: the arithmetic of a portfolio rebalance. Fractions of
    some balances are sold for the base asset, the expected base proceeds
    net of market fees are totalled, and that total is handed on to be
    distributed over the assets to buy. The two order builders are not part
    of this model; they are parameters. */
module Rebalance {
  import opened MarketTypes

  /** An entry of the asset registry: `{id, symbol, options: {market_fee_percent}}`,
      the fee in hundredths of a percent (10000 is 100%). */
  datatype AssetInfo = AssetInfo(id: AssetId, symbol: string, marketFeePercent: int)

  type Registry = map<AssetId, AssetInfo>

  /** A JS object from asset id to a fraction, its keys in enumeration order. */
  type Fractions = seq<(AssetId, real)>

  /** The requested rebalance: which fraction of each asset to sell and
      which share of the proceeds each asset to buy receives. */
  datatype Update = Update(sell: Fractions, buy: Fractions)

  /** `{asset, balance}` handed to the sell-order builder; `asset` is
      missing when the registry has no entry for the id. */
  datatype SellSpec = SellSpec(asset: Option<AssetInfo>, balance: int)

  /** `{asset, share}` handed to the buy-order builder. */
  datatype BuySpec = BuySpec(asset: Option<AssetInfo>, share: real)

  /** An order a builder returns; only its `min_to_receive` is read here. */
  datatype OrderParams = OrderParams(minToReceive: AssetAmount)

  /** A JS number as far as the base total needs it: an integer, or NaN
      when the base balance is missing. */
  datatype Amount = Finite(value: int) | NotANumber

  datatype Generated = Generated(sellOrders: seq<OrderParams>, buyOrders: seq<OrderParams>)

  /** The property read that throws: `balances[id].balance` with no entry,
      `assets[id].options` with no entry, `baseAsset.id` with no base asset. */
  datatype RebalanceError =
    | MissingBalance(balanceOf: AssetId)
    | MissingAsset(assetOf: AssetId)
    | MissingBaseAsset

  type SellBuilder = (seq<SellSpec>, Option<AssetInfo>, UserId) -> seq<OrderParams>
  type BuyBuilder = (Option<AssetInfo>, Amount, seq<BuySpec>, UserId) -> seq<OrderParams>

  function Lookup(assets: Registry, id: AssetId): (r: Option<AssetInfo>)
    ensures r.Some? <==> id in assets
    ensures r.Some? ==> r.value == assets[id]
  {
    if id in assets then Some(assets[id]) else None
  }

  /** The value an object of fractions holds for `id`, if any. */
  function Entry(s: Fractions, id: AssetId): (r: Option<real>)
    ensures r.None? <==> forall k :: 0 <= k < |s| ==> s[k].0 != id
    ensures r.Some? ==> exists k :: 0 <= k < |s| && s[k] == (id, r.value)
  {
    if s == [] then None
    else if s[0].0 == id then Some(s[0].1)
    else
      var r := Entry(s[1..], id);
      assert r.Some? ==> exists k :: 0 <= k < |s[1..]| && s[1..][k] == (id, r.value);
      r
  }

  /** JS truthiness of a looked-up fraction: present and not zero. */
  predicate Truthy(v: Option<real>)
  {
    v.Some? && v.value != 0.0
  }

  /** `Math.floor(fraction * balance)`. */
  function SellAmount(fraction: real, balance: int): (r: int)
    ensures fraction == 0.0 ==> r == 0
    ensures fraction == 1.0 ==> r == balance
  {
    (fraction * balance as real).Floor
  }

  /** `toSell`: one entry per key of `update.sell`, in key order, with the
      floored fraction of that asset's balance; it throws at the first key
      without a balance. */
  function ToSell(sell: Fractions, balances: map<AssetId, int>, assets: Registry): (r: Result<seq<SellSpec>, RebalanceError>)
    ensures r.Success? <==> forall k :: 0 <= k < |sell| ==> sell[k].0 in balances
    ensures r.Success? ==> |r.value| == |sell|
    ensures r.Success? ==> forall k :: 0 <= k < |sell| ==>
              r.value[k] == SellSpec(Lookup(assets, sell[k].0), SellAmount(sell[k].1, balances[sell[k].0]))
    ensures r.Failure? ==> exists k :: 0 <= k < |sell| && sell[k].0 !in balances
                                       && r.error == MissingBalance(sell[k].0)
                                       && forall j :: 0 <= j < k ==> sell[j].0 in balances
  {
    if sell == [] then Success([])
    else
      var (id, fraction) := sell[0];
      if id !in balances then Failure(MissingBalance(id))
      else
        var rest := ToSell(sell[1..], balances, assets);
        if rest.Failure? then
          assert exists k :: 1 <= k < |sell| && sell[k].0 !in balances
                             && rest.error == MissingBalance(sell[k].0)
                             && forall j :: 0 <= j < k ==> sell[j].0 in balances
          by {
            var k :| 0 <= k < |sell[1..]| && sell[1..][k].0 !in balances
                     && rest.error == MissingBalance(sell[1..][k].0)
                     && forall j :: 0 <= j < k ==> sell[1..][j].0 in balances;
            assert sell[k + 1] == sell[1..][k];
            forall j | 0 <= j < k + 1 ensures sell[j].0 in balances {
              if j > 0 { assert sell[j] == sell[1..][j - 1]; }
            }
          }
          Failure(rest.error)
        else
          Success([SellSpec(Lookup(assets, id), SellAmount(fraction, balances[id]))] + rest.value)
  }

  /** `toBuy`: one entry per key of `update.buy`, in key order. */
  function ToBuy(buy: Fractions, assets: Registry): (r: seq<BuySpec>)
    ensures |r| == |buy|
    ensures forall k :: 0 <= k < |buy| ==> r[k] == BuySpec(Lookup(assets, buy[k].0), buy[k].1)
  {
    if buy == [] then [] else [BuySpec(Lookup(assets, buy[0].0), buy[0].1)] + ToBuy(buy[1..], assets)
  }

  /** `Math.floor(amount * (1 - fee / 10000))`: what is expected to arrive
      after the market fee of the received asset. */
  function NetOfFee(amount: int, fee: int): (r: int)
    ensures fee == 10000 ==> r == 0
  {
    (amount as real * (1.0 - fee as real / 10000.0)).Floor
  }

  /** `min_to_receive.amount` summed over the orders, before fees. */
  function Gross(orders: seq<OrderParams>): int
  {
    if orders == [] then 0 else orders[0].minToReceive.amount + Gross(orders[1..])
  }

  /** Every order receives an asset of the registry. */
  ghost predicate AllKnown(orders: seq<OrderParams>, assets: Registry)
  {
    forall k :: 0 <= k < |orders| ==> orders[k].minToReceive.assetId in assets
  }

  /** Every received amount is non-negative and every fee of a received
      asset lies between 0 and 100%. */
  ghost predicate WellFormed(orders: seq<OrderParams>, assets: Registry)
  {
    forall k :: 0 <= k < |orders| ==>
      && orders[k].minToReceive.amount >= 0
      && (orders[k].minToReceive.assetId in assets ==>
            0 <= assets[orders[k].minToReceive.assetId].marketFeePercent <= 10000)
  }

  /** The `reduce` over the sell orders: the sum of their fee-adjusted
      proceeds; it throws at an order whose received asset is not in the
      registry. */
  function SumNetProceeds(orders: seq<OrderParams>, assets: Registry): (r: Result<int, RebalanceError>)
    ensures r.Success? <==> AllKnown(orders, assets)
    ensures r.Failure? ==> exists k :: 0 <= k < |orders| && r.error == MissingAsset(orders[k].minToReceive.assetId)
                                       && orders[k].minToReceive.assetId !in assets
  {
    if orders == [] then Success(0)
    else
      var id := orders[0].minToReceive.assetId;
      if id !in assets then Failure(MissingAsset(id))
      else
        var rest := SumNetProceeds(orders[1..], assets);
        if rest.Failure? then
          assert exists k :: 1 <= k < |orders| && rest.error == MissingAsset(orders[k].minToReceive.assetId)
                             && orders[k].minToReceive.assetId !in assets
          by {
            var k :| 0 <= k < |orders[1..]| && rest.error == MissingAsset(orders[1..][k].minToReceive.assetId)
                     && orders[1..][k].minToReceive.assetId !in assets;
            assert orders[k + 1] == orders[1..][k];
          }
          assert !AllKnown(orders[1..], assets);
          Failure(rest.error)
        else
          assert AllKnown(orders, assets) by {
            forall k | 0 <= k < |orders| ensures orders[k].minToReceive.assetId in assets {
              if k > 0 { assert orders[k] == orders[1..][k - 1]; }
            }
          }
          Success(NetOfFee(orders[0].minToReceive.amount, assets[id].marketFeePercent) + rest.value)
  }

  /** `baseAssetExchangeAmount`: the net proceeds, plus the floored
      fraction of the base balance when `update.sell` names the base asset
      with a truthy fraction; a missing base balance then gives NaN. */
  function BaseTotal(net: int, sell: Fractions, baseAsset: AssetInfo, baseBalances: map<AssetId, int>): (r: Amount)
    ensures r.NotANumber? <==> Truthy(Entry(sell, baseAsset.id)) && baseAsset.id !in baseBalances
    ensures !Truthy(Entry(sell, baseAsset.id)) ==> r == Finite(net)
  {
    if !Truthy(Entry(sell, baseAsset.id)) then Finite(net)
    else if baseAsset.id !in baseBalances then NotANumber
    else Finite(net + SellAmount(Entry(sell, baseAsset.id).value, baseBalances[baseAsset.id]))
  }

  /** `exchangeResult` as the source builds it: the computed key
      `min_to_receive.assetId` names a property no order has, so every
      entry goes under the key "undefined" and each order overwrites the
      previous one. */
  function ExchangeResultAsWritten(orders: seq<OrderParams>, assets: Registry): (r: Result<map<string, int>, RebalanceError>)
    ensures r.Success? <==> AllKnown(orders, assets)
    ensures r.Success? ==> r.value.Keys == if orders == [] then {} else {"undefined"}
  {
    var r := ExchangeResultOver(orders, assets, (o: OrderParams) => "undefined");
    assert r.Success? && orders != [] ==> "undefined" in r.value.Keys by {
      if r.Success? && orders != [] {
        assert ((o: OrderParams) => "undefined")(orders[0]) in r.value.Keys;
      }
    }
    r
  }

  /** `exchangeResult` keyed by the received asset, as the sums above read it. */
  function ExchangeResult(orders: seq<OrderParams>, assets: Registry): (r: Result<map<AssetId, int>, RebalanceError>)
    ensures r.Success? <==> AllKnown(orders, assets)
    ensures r.Success? ==> r.value.Keys == set k | 0 <= k < |orders| :: orders[k].minToReceive.assetId
  {
    ExchangeResultOver(orders, assets, (o: OrderParams) => o.minToReceive.assetId)
  }

  /** The `reduce` that builds `exchangeResult`, with the key of an order
      given by `key`: `Object.assign` from the first order to the last. */
  function ExchangeResultOver(orders: seq<OrderParams>, assets: Registry, key: OrderParams -> string)
    : (r: Result<map<string, int>, RebalanceError>)
    ensures r.Success? <==> AllKnown(orders, assets)
    ensures r.Success? ==> r.value.Keys == set k | 0 <= k < |orders| :: key(orders[k])
  {
    if orders == [] then Success(map[])
    else
      var init := orders[..|orders| - 1];
      var last := orders[|orders| - 1];
      assert AllKnown(orders, assets) <==> AllKnown(init, assets) && last.minToReceive.assetId in assets by {
        assert forall k :: 0 <= k < |init| ==> init[k] == orders[k];
      }
      var prefix := ExchangeResultOver(init, assets, key);
      if prefix.Failure? then prefix
      else if last.minToReceive.assetId !in assets then Failure(MissingAsset(last.minToReceive.assetId))
      else
        var r := prefix.value[key(last) := NetOfFee(last.minToReceive.amount, assets[last.minToReceive.assetId].marketFeePercent)];
        assert r.Keys == set k | 0 <= k < |orders| :: key(orders[k]) by {
          assert forall k :: 0 <= k < |init| ==> init[k] == orders[k];
          assert orders == init + [last];
        }
        Success(r)
  }

  /** `generateOrders`: build the sell orders from the fractions of the
      balances, total their net proceeds in the base asset (plus any base
      balance sold directly), build the buy orders from that total, and
      return both lists as the builders produced them. */
  function GenerateOrders(update: Update, balances: map<AssetId, int>, assets: Registry, userId: UserId,
                          baseId: AssetId, baseBalances: map<AssetId, int>,
                          exchangeToBase: SellBuilder, exchangeToDistribution: BuyBuilder)
    : (r: Result<Generated, RebalanceError>)
    ensures baseId !in assets ==> r.Failure?
  {
    var toSell :- ToSell(update.sell, balances, assets);
    var sellOrders := exchangeToBase(toSell, Lookup(assets, baseId), userId);
    var net :- SumNetProceeds(sellOrders, assets);
    if baseId !in assets then Failure(MissingBaseAsset)
    else
      var baseAsset := assets[baseId];
      var total := BaseTotal(net, update.sell, baseAsset, baseBalances);
      var buyOrders := exchangeToDistribution(Some(baseAsset), total, ToBuy(update.buy, assets), userId);
      var _ :- ExchangeResult(buyOrders, assets);
      Success(Generated(sellOrders, buyOrders))
  }

  // ---------------------------------------------------------------------
  // Properties

  /** Selling a fraction between 0 and 1 of a non-negative balance never
      asks for more than the balance, nor for a negative amount. */
  lemma SellAmountBounds(fraction: real, balance: int)
    requires 0.0 <= fraction <= 1.0 && balance >= 0
    ensures 0 <= SellAmount(fraction, balance) <= balance
  {
    var b := balance as real;
    assert fraction * b <= 1.0 * b;
  }

  /** Selling half of a balance of 1000 sells exactly 500. */
  lemma HalfOfThousand(id: AssetId, assets: Registry)
    ensures ToSell([(id, 0.5)], map[id := 1000], assets) == Success([SellSpec(Lookup(assets, id), 500)])
  {
    var r := ToSell([(id, 0.5)], map[id := 1000], assets);
    assert r.Success?;
    assert r.value[0] == SellSpec(Lookup(assets, id), SellAmount(0.5, 1000));
    assert SellAmount(0.5, 1000) == 500;
    assert r.value == [SellSpec(Lookup(assets, id), 500)];
  }

  /** With a fee between 0 and 100%, what arrives lies between nothing and
      the amount; with no fee it is the amount itself. */
  lemma NetOfFeeBounds(amount: int, fee: int)
    requires amount >= 0 && 0 <= fee <= 10000
    ensures 0 <= NetOfFee(amount, fee) <= amount
    ensures fee == 0 ==> NetOfFee(amount, fee) == amount
  {
    var a := amount as real;
    var c := 1.0 - fee as real / 10000.0;
    assert 0.0 <= c <= 1.0;
    assert 0.0 <= a * c <= a * 1.0;
  }

  /** The base proceeds of the sell orders are at most their gross
      `min_to_receive` total and never negative. */
  lemma {:induction false} SumNetBounds(orders: seq<OrderParams>, assets: Registry)
    requires AllKnown(orders, assets) && WellFormed(orders, assets)
    ensures 0 <= SumNetProceeds(orders, assets).value <= Gross(orders)
  {
    if orders != [] {
      var o := orders[0];
      assert AllKnown(orders[1..], assets) && WellFormed(orders[1..], assets) by {
        forall k | 0 <= k < |orders[1..]| ensures orders[1..][k] == orders[k + 1] { }
      }
      NetOfFeeBounds(o.minToReceive.amount, assets[o.minToReceive.assetId].marketFeePercent);
      SumNetBounds(orders[1..], assets);
    }
  }

  /** When no received asset charges a fee, the net proceeds are the gross ones. */
  lemma {:induction false} SumNetWithoutFees(orders: seq<OrderParams>, assets: Registry)
    requires AllKnown(orders, assets)
    requires forall k :: 0 <= k < |orders| ==> assets[orders[k].minToReceive.assetId].marketFeePercent == 0
    ensures SumNetProceeds(orders, assets) == Success(Gross(orders))
  {
    if orders != [] {
      var o := orders[0];
      assert AllKnown(orders[1..], assets) by {
        forall k | 0 <= k < |orders[1..]| ensures orders[1..][k] == orders[k + 1] { }
      }
      assert forall k :: 0 <= k < |orders[1..]| ==> orders[1..][k] == orders[k + 1];
      assert NetOfFee(o.minToReceive.amount, 0) == o.minToReceive.amount;
      SumNetWithoutFees(orders[1..], assets);
    }
  }

  /** A base asset named with a zero or absent fraction adds nothing; a
      truthy one adds its floored share of the base balance. */
  lemma BaseTotalAddsBaseShare(net: int, sell: Fractions, baseAsset: AssetInfo, baseBalances: map<AssetId, int>)
    ensures !Truthy(Entry(sell, baseAsset.id)) ==> BaseTotal(net, sell, baseAsset, baseBalances) == Finite(net)
    ensures Truthy(Entry(sell, baseAsset.id)) && baseAsset.id in baseBalances ==>
              exists k :: 0 <= k < |sell| && sell[k].0 == baseAsset.id && sell[k].1 != 0.0
                          && BaseTotal(net, sell, baseAsset, baseBalances)
                             == Finite(net + SellAmount(sell[k].1, baseBalances[baseAsset.id]))
  {
  }

  /** Two buy orders for different assets: the as-written result keeps one
      entry, the corrected one keeps both. */
  lemma ExchangeResultCollapses(assets: Registry)
    requires "1.3.1" in assets && "1.3.2" in assets
    ensures |ExchangeResultAsWritten([OrderParams(AssetAmount("1.3.1", 10)), OrderParams(AssetAmount("1.3.2", 20))], assets).value| == 1
    ensures |ExchangeResult([OrderParams(AssetAmount("1.3.1", 10)), OrderParams(AssetAmount("1.3.2", 20))], assets).value| == 2
  {
    var orders := [OrderParams(AssetAmount("1.3.1", 10)), OrderParams(AssetAmount("1.3.2", 20))];
    var c := ExchangeResult(orders, assets).value.Keys;
    assert orders[0].minToReceive.assetId in c && orders[1].minToReceive.assetId in c;
    assert c == {"1.3.1", "1.3.2"};
  }

  /** `generateOrders` fails exactly when some sold asset has no balance,
      some sell order receives an unregistered asset, the base asset is
      unregistered, or some buy order receives an unregistered asset. */
  lemma GenerateOrdersFails(update: Update, balances: map<AssetId, int>, assets: Registry, userId: UserId,
                            baseId: AssetId, baseBalances: map<AssetId, int>,
                            exchangeToBase: SellBuilder, exchangeToDistribution: BuyBuilder)
    ensures var r := GenerateOrders(update, balances, assets, userId, baseId, baseBalances, exchangeToBase, exchangeToDistribution);
            r.Failure? <==>
              || (exists k :: 0 <= k < |update.sell| && update.sell[k].0 !in balances)
              || !AllKnown(exchangeToBase(ToSell(update.sell, balances, assets).value, Lookup(assets, baseId), userId), assets)
              || baseId !in assets
              || !AllKnown(exchangeToDistribution(Some(assets[baseId]),
                                                  BaseTotal(SumNetProceeds(exchangeToBase(ToSell(update.sell, balances, assets).value,
                                                                                          Lookup(assets, baseId), userId), assets).value,
                                                            update.sell, assets[baseId], baseBalances),
                                                  ToBuy(update.buy, assets), userId), assets)
  {
  }

  /** On success the builders' orders are returned unchanged: the sell
      builder gets the floored fractions of the balances, and the buy
      builder gets the base asset, the fee-adjusted base total and the
      buy shares. */
  lemma GenerateOrdersPassesThrough(update: Update, balances: map<AssetId, int>, assets: Registry, userId: UserId,
                                    baseId: AssetId, baseBalances: map<AssetId, int>,
                                    exchangeToBase: SellBuilder, exchangeToDistribution: BuyBuilder)
    requires GenerateOrders(update, balances, assets, userId, baseId, baseBalances, exchangeToBase, exchangeToDistribution).Success?
    ensures var g := GenerateOrders(update, balances, assets, userId, baseId, baseBalances, exchangeToBase, exchangeToDistribution).value;
            var toSell := ToSell(update.sell, balances, assets).value;
            && (forall k :: 0 <= k < |update.sell| ==>
                  toSell[k].balance == SellAmount(update.sell[k].1, balances[update.sell[k].0]))
            && g.sellOrders == exchangeToBase(toSell, Some(assets[baseId]), userId)
            && g.buyOrders == exchangeToDistribution(
                 Some(assets[baseId]),
                 BaseTotal(SumNetProceeds(g.sellOrders, assets).value, update.sell, assets[baseId], baseBalances),
                 ToBuy(update.buy, assets), userId)
  {
  }
}
