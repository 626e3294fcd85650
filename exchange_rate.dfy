/** The depth walk of `calcExchangeRate`: the rate of an order, the
    best-price-first ordering of a copy of one side, the proceeds of
    walking it, and what can be proved about those proceeds. */
module ExchangeRate {
  import opened MarketTypes

  /** `calcOrderRate`: what the order pays per unit it receives, base/quote. */
  function Rate(o: Order): (r: real)
    ensures r * o.sellPrice.quoteAmount as real == o.sellPrice.baseAmount as real
  {
    o.sellPrice.baseAmount as real / o.sellPrice.quoteAmount as real
  }

  /** Descending by `key`: every order's key is at least the next one's. */
  ghost predicate SortedBy(s: seq<Order>, key: Order -> real)
  {
    |s| < 2 || (key(s[0]) >= key(s[1]) && SortedBy(s[1..], key))
  }

  /** Places `o` before the first order whose key is not above its own, so
      that an order keeps its place ahead of later orders of equal key. */
  function Insert(o: Order, s: seq<Order>, key: Order -> real): seq<Order>
  {
    if s == [] || key(s[0]) <= key(o) then [o] + s
    else [s[0]] + Insert(o, s[1..], key)
  }

  /** A stable sort by descending key (insertion sort). */
  function SortBy(s: seq<Order>, key: Order -> real): seq<Order>
  {
    if s == [] then [] else Insert(s[0], SortBy(s[1..], key), key)
  }

  /** The copy sorted with the comparator `rate(b) - rate(a)`: by descending
      rate (see SortByRateSorted), ties in their original order (see
      SortByRateStable); the copy is as long as the side. */
  function SortByRate(s: seq<Order>): (r: seq<Order>)
    ensures |r| == |s|
  {
    SortBySorted(s, Rate);
    assert |multiset(SortBy(s, Rate))| == |multiset(s)|;
    SortBy(s, Rate)
  }

  /** Inserting into a sorted list keeps it sorted and adds exactly `o`;
      the result starts with `o` or with the list's own first order. */
  lemma {:induction false} InsertSorted(o: Order, s: seq<Order>, key: Order -> real)
    requires SortedBy(s, key)
    ensures SortedBy(Insert(o, s, key), key)
    ensures multiset(Insert(o, s, key)) == multiset(s) + multiset{o}
    ensures Insert(o, s, key)[0] == o || (s != [] && Insert(o, s, key)[0] == s[0])
  {
    if s != [] && key(s[0]) > key(o) {
      InsertSorted(o, s[1..], key);
      assert s == [s[0]] + s[1..];
    }
  }

  /** The sort yields a list ordered by descending key holding exactly the
      orders it was given. */
  lemma {:induction false} SortBySorted(s: seq<Order>, key: Order -> real)
    ensures SortedBy(SortBy(s, key), key)
    ensures multiset(SortBy(s, key)) == multiset(s)
  {
    if s != [] {
      SortBySorted(s[1..], key);
      InsertSorted(s[0], SortBy(s[1..], key), key);
      assert s == [s[0]] + s[1..];
    }
  }

  /** The sorted copy walked by `calcExchangeRate` is best rate first and a
      permutation of the side. */
  lemma SortByRateSorted(s: seq<Order>)
    ensures SortedBy(SortByRate(s), Rate)
    ensures multiset(SortByRate(s)) == multiset(s)
  {
    SortBySorted(s, Rate);
  }

  /** The orders of `s` whose key is `k`, in their order in `s`. */
  function WithKey(s: seq<Order>, key: Order -> real, k: real): seq<Order>
  {
    if s == [] then [] else (if key(s[0]) == k then [s[0]] else []) + WithKey(s[1..], key, k)
  }

  /** Insertion passes only orders of a strictly greater key, so `o` lands
      ahead of every order of its own key and the others of that key keep
      their order. */
  lemma {:induction false} InsertKeepsTies(o: Order, s: seq<Order>, key: Order -> real, k: real)
    ensures WithKey(Insert(o, s, key), key, k) == (if key(o) == k then [o] else []) + WithKey(s, key, k)
  {
    var mine := if key(o) == k then [o] else [];
    if s == [] || key(s[0]) <= key(o) {
      assert ([o] + s)[1..] == s;
      assert WithKey([o] + s, key, k) == mine + WithKey(s, key, k);
    } else {
      var rest := Insert(o, s[1..], key);
      InsertKeepsTies(o, s[1..], key, k);
      assert ([s[0]] + rest)[1..] == rest;
      assert WithKey([s[0]] + rest, key, k) == (if key(s[0]) == k then [s[0]] else []) + WithKey(rest, key, k);
      if key(o) == k {
        assert WithKey([s[0]] + rest, key, k) == [o] + WithKey(s[1..], key, k);
        assert WithKey(s, key, k) == WithKey(s[1..], key, k);
      } else {
        assert WithKey(rest, key, k) == WithKey(s[1..], key, k);
      }
    }
  }

  /** The sort is stable: for every key, the orders carrying it come out in
      the order they went in. */
  lemma {:induction false} SortByStable(s: seq<Order>, key: Order -> real, k: real)
    ensures WithKey(SortBy(s, key), key, k) == WithKey(s, key, k)
  {
    if s != [] {
      SortByStable(s[1..], key, k);
      InsertKeepsTies(s[0], SortBy(s[1..], key), key, k);
    }
  }

  /** Orders of equal rate are walked in the order the side lists them. */
  lemma SortByRateStable(s: seq<Order>, k: real)
    ensures WithKey(SortByRate(s), Rate, k) == WithKey(s, Rate, k)
  {
    SortByStable(s, Rate, k);
  }

  /** The proceeds of converting `pay` against the orders of `s` in turn,
      each at its `price`: an order smaller than what is left is consumed
      whole, the first order at least as large as what is left is consumed
      partially and ends the walk; running out of orders ends it with what
      was gathered. */
  function Walk(s: seq<Order>, pay: int, price: Order -> real): real
  {
    if s == [] then 0.0
    else if pay > s[0].forSale then s[0].forSale as real * price(s[0]) + Walk(s[1..], pay - s[0].forSale, price)
    else pay as real * price(s[0])
  }

  /** The walked side is 'buy' when the direction is "sell", 'sell' for
      any other direction. */
  function RequiredSide(weWantTo: string): (s: Side)
    ensures s == Buy <==> weWantTo == "sell"
  {
    if weWantTo == "sell" then Buy else Sell
  }

  /** The value of `calcExchangeRate` on one side of a book: the walk of
      the sorted copy at each order's own rate, floored. */
  function RateOn(side: seq<Order>, amount: int): (r: int)
    ensures |side| == 1 ==>
              r == ((if amount > side[0].forSale then side[0].forSale else amount) as real * Rate(side[0])).Floor
  {
    var s := SortByRate(side);
    assert |side| == 1 ==> s == side && Walk(s[1..], amount - s[0].forSale, Rate) == 0.0 by {
      if |side| == 1 {
        SortByRateOne(side);
      }
    }
    Walk(s, amount, Rate).Floor
  }

  /** A one-order side is already sorted. */
  lemma SortByRateOne(side: seq<Order>)
    requires |side| == 1
    ensures SortByRate(side) == side
  {
    assert side[1..] == [];
    assert SortBy(side, Rate) == Insert(side[0], [], Rate) == [side[0]];
    assert side == [side[0]];
  }

  /** No order has a negative remaining amount or a negative price. */
  ghost predicate NonNegative(s: seq<Order>, price: Order -> real)
  {
    forall o :: o in s ==> o.forSale >= 0 && price(o) >= 0.0
  }

  /** The sum of the amounts left in `s`. */
  function Depth(s: seq<Order>): int
  {
    if s == [] then 0 else s[0].forSale + Depth(s[1..])
  }

  /** What the whole of `s` is worth at `price`. */
  function Value(s: seq<Order>, price: Order -> real): real
  {
    if s == [] then 0.0 else s[0].forSale as real * price(s[0]) + Value(s[1..], price)
  }

  // ---------------------------------------------------------------------

  /** One step of the walk from position i, with `acc` gathered so far:
      consuming the i-th order whole when more than it is left. */
  lemma WalkConsume(s: seq<Order>, i: nat, pay: int, acc: real, price: Order -> real, p: real)
    requires i < |s| && pay > s[i].forSale && p == price(s[i])
    ensures acc + Walk(s[i..], pay, price) == (acc + s[i].forSale as real * p) + Walk(s[i + 1..], pay - s[i].forSale, price)
  {
    var t := s[i..];
    assert t != [] && t[0] == s[i];
    assert t[1..] == s[i + 1..];
    assert Walk(t, pay, price) == t[0].forSale as real * price(t[0]) + Walk(t[1..], pay - t[0].forSale, price);
  }

  /** The last step of the walk: the i-th order covers what is left. */
  lemma WalkFinish(s: seq<Order>, i: nat, pay: int, acc: real, price: Order -> real, p: real)
    requires i < |s| && pay <= s[i].forSale && p == price(s[i])
    ensures acc + Walk(s[i..], pay, price) == acc + pay as real * p
  {
    var t := s[i..];
    assert t != [] && t[0] == s[i];
    assert Walk(t, pay, price) == pay as real * price(t[0]);
  }

  lemma ProductNonNegative(x: real, y: real)
    requires x >= 0.0 && y >= 0.0
    ensures x * y >= 0.0
  {
  }

  lemma ProductMonotone(x: real, y: real, k: real)
    requires x <= y && k >= 0.0
    ensures x * k <= y * k
  {
  }

  lemma TailNonNegative(s: seq<Order>, price: Order -> real)
    requires NonNegative(s, price) && s != []
    ensures NonNegative(s[1..], price)
    ensures s[0].forSale >= 0 && price(s[0]) >= 0.0
  {
    assert s[0] in s;
    forall o | o in s[1..] ensures o in s { }
  }

  /** A walk of a non-negative amount gathers non-negative proceeds. */
  lemma {:induction false} WalkNonNegative(s: seq<Order>, pay: int, price: Order -> real)
    requires NonNegative(s, price) && pay >= 0
    ensures Walk(s, pay, price) >= 0.0
  {
    if s != [] {
      TailNonNegative(s, price);
      if pay > s[0].forSale {
        WalkNonNegative(s[1..], pay - s[0].forSale, price);
        ProductNonNegative(s[0].forSale as real, price(s[0]));
      } else {
        ProductNonNegative(pay as real, price(s[0]));
      }
    }
  }

  /** Asking to convert more never yields less: the walk is non-decreasing
      in the amount when no order is negative. */
  lemma {:induction false} WalkMonotone(s: seq<Order>, a: int, b: int, price: Order -> real)
    requires NonNegative(s, price) && a <= b
    ensures Walk(s, a, price) <= Walk(s, b, price)
  {
    if s != [] {
      var o := s[0];
      if a > o.forSale {
        var head := o.forSale as real * price(o);
        TailNonNegative(s, price);
        WalkMonotone(s[1..], a - o.forSale, b - o.forSale, price);
        assert Walk(s, a, price) == head + Walk(s[1..], a - o.forSale, price);
        assert Walk(s, b, price) == head + Walk(s[1..], b - o.forSale, price);
      } else {
        WalkMonotoneInFirst(s, a, b, price);
      }
    }
  }

  /** The case of WalkMonotone where the smaller amount stops at the first
      order. */
  lemma WalkMonotoneInFirst(s: seq<Order>, a: int, b: int, price: Order -> real)
    requires NonNegative(s, price) && a <= b
    requires s != [] && a <= s[0].forSale
    ensures Walk(s, a, price) <= Walk(s, b, price)
  {
    var o := s[0];
    var p := price(o);
    assert Walk(s, a, price) == a as real * p;
    if b > o.forSale {
      var rest := Walk(s[1..], b - o.forSale, price);
      assert Walk(s, b, price) == o.forSale as real * p + rest;
      ProductMonotone(a as real, o.forSale as real, p);
      TailNonNegative(s, price);
      WalkNonNegative(s[1..], b - o.forSale, price);
    } else {
      assert Walk(s, b, price) == b as real * p;
      ProductMonotone(a as real, b as real, p);
    }
  }

  /** Every order of a side with non-negative amounts and base amounts has
      a non-negative rate. */
  lemma RatesNonNegative(side: seq<Order>)
    requires forall o :: o in side ==> o.forSale >= 0 && o.sellPrice.baseAmount >= 0
    ensures NonNegative(side, Rate)
  {
    forall o | o in side ensures Rate(o) >= 0.0 {
      var q := o.sellPrice.quoteAmount as real;
      assert q > 0.0;
    }
  }

  /** `calcExchangeRate` is non-decreasing in the amount for a fixed book
      whose orders have non-negative amounts and prices. */
  lemma RateOnMonotone(side: seq<Order>, a: int, b: int)
    requires forall o :: o in side ==> o.forSale >= 0 && o.sellPrice.baseAmount >= 0
    requires a <= b
    ensures RateOn(side, a) <= RateOn(side, b)
  {
    var s := SortByRate(side);
    SortByRateSorted(side);
    RatesNonNegative(side);
    assert NonNegative(s, Rate) by {
      forall o | o in s ensures o in side {
        assert o in multiset(s);
      }
    }
    WalkMonotone(s, a, b, Rate);
  }

  /** An empty side yields 0. */
  lemma RateOnEmpty(amount: int)
    ensures RateOn([], amount) == 0
  {
  }

  /** On a side sorted best price first, the walk never does better than
      converting everything at the first (best) price. */
  lemma {:induction false} WalkAtMostBestPrice(s: seq<Order>, pay: int, price: Order -> real)
    requires SortedBy(s, price) && NonNegative(s, price) && s != [] && pay >= 0
    ensures Walk(s, pay, price) <= pay as real * price(s[0])
  {
    var o := s[0];
    TailNonNegative(s, price);
    if pay > o.forSale {
      var rest := s[1..];
      var left := pay - o.forSale;
      if rest == [] {
        ProductMonotone(o.forSale as real, pay as real, price(o));
      } else {
        assert rest[0] == s[1];
        WalkAtMostBestPrice(rest, left, price);
        ProductMonotone(price(rest[0]), price(o), left as real);
        assert pay as real * price(o) == o.forSale as real * price(o) + left as real * price(o);
      }
    } else {
      ProductMonotone(pay as real, pay as real, price(o));
    }
  }

  /** Insufficient liquidity is silent: an amount at least the whole depth
      yields the value of every order, consumed whole. */
  lemma {:induction false} WalkBeyondDepth(s: seq<Order>, pay: int, price: Order -> real)
    requires NonNegative(s, price) && pay >= Depth(s)
    ensures Walk(s, pay, price) == Value(s, price)
  {
    if s != [] {
      var o := s[0];
      TailNonNegative(s, price);
      DepthNonNegative(s[1..], price);
      if pay > o.forSale {
        WalkBeyondDepth(s[1..], pay - o.forSale, price);
      } else {
        assert pay == o.forSale && Depth(s[1..]) == 0;
        DepthZeroValueZero(s[1..], price);
      }
    }
  }

  lemma {:induction false} DepthNonNegative(s: seq<Order>, price: Order -> real)
    requires NonNegative(s, price)
    ensures Depth(s) >= 0
  {
    if s != [] {
      TailNonNegative(s, price);
      DepthNonNegative(s[1..], price);
    }
  }

  lemma {:induction false} DepthZeroValueZero(s: seq<Order>, price: Order -> real)
    requires NonNegative(s, price) && Depth(s) == 0
    ensures Value(s, price) == 0.0
  {
    if s != [] {
      TailNonNegative(s, price);
      DepthNonNegative(s[1..], price);
      DepthZeroValueZero(s[1..], price);
    }
  }

  /** The worked example: a buy side holding B (100 left at 0.5) and
      A (50 left at 1.2); selling 120 walks A whole (60) and B for the
      remaining 70 (35), 95 in all. */
  lemma WorkedExample()
    ensures
      var a := Order("A", Price("1.3.0", 6, "1.3.1", 5), 50);
      var b := Order("B", Price("1.3.0", 1, "1.3.1", 2), 100);
      RateOn([b, a], 120) == 95
  {
    var a := Order("A", Price("1.3.0", 6, "1.3.1", 5), 50);
    var b := Order("B", Price("1.3.0", 1, "1.3.1", 2), 100);
    assert Rate(a) == 1.2 && Rate(b) == 0.5;
    assert Insert(b, [a], Rate) == [a, b];
    assert SortBy([a], Rate) == [a];
    assert SortBy([b, a], Rate) == [a, b];
    assert Walk([a, b], 120, Rate) == 95.0;
  }
}
