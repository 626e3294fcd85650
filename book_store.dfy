/** The order-book store as a value: the map from a non-base asset to its
    book, the side rule that routes a traded pair to one list of one book,
    and the effect of each feed event on the map and on the notifications
    it sends. The class `Market` in MarketModel performs these updates in
    place and is specified by these functions. */
module BookStore {
  import opened MarketTypes
  import opened OrderLists

  type Markets = map<AssetId, Book>

  function Other(s: Side): Side
  {
    match s
    case Buy => Sell
    case Sell => Buy
  }

  /** The side rule of `getOrdersArray` and `getCallback`: a pair that pays
      the base asset lands in the buy list of the received asset, a pair
      that receives the base asset lands in the sell list of the paid asset,
      in both cases only when that asset has a book. */
  function Locate(base: AssetId, m: Markets, pays: AssetId, receives: AssetId): (r: Option<Slot>)
    ensures r.Some? <==> (pays == base && receives in m) || (receives == base && pays in m)
    ensures r.Some? ==> r.value.asset in m
    ensures r.Some? && r.value.side == Buy ==> pays == base && r.value.asset == receives
    ensures r.Some? && r.value.side == Sell ==> receives == base && r.value.asset == pays
    ensures pays == base && receives in m ==> r == Some(Slot(receives, Buy))
  {
    if pays == base && receives in m then Some(Slot(receives, Buy))
    else if receives == base && pays in m then Some(Slot(pays, Sell))
    else None
  }

  /** `r` differs from `m` at most in the list `slot` names. */
  ghost predicate OnlyListChanged(m: Markets, r: Markets, slot: Slot)
  {
    && slot.asset in m
    && r.Keys == m.Keys
    && (forall a :: a in m && a != slot.asset ==> r[a] == m[a])
    && r[slot.asset].callback == m[slot.asset].callback
    && SideList(r[slot.asset], Other(slot.side)) == SideList(m[slot.asset], Other(slot.side))
  }

  /** Some list of some book holds an order with the id. */
  ghost predicate Listed(m: Markets, id: OrderId)
  {
    exists a :: a in m && (Contains(m[a].buy, id) || Contains(m[a].sell, id))
  }

  /** Every list of every book is free of duplicate ids. */
  ghost predicate UniqueEverywhere(m: Markets)
  {
    forall a :: a in m ==> UniqueIds(m[a].buy) && UniqueIds(m[a].sell)
  }

  /** The map after a 'newOrder' event: the order is appended to the list
      the side rule picks for its `sell_price` (`base.asset_id` pays,
      `quote.asset_id` receives); an unroutable order changes nothing. */
  function AfterNewOrder(base: AssetId, m: Markets, o: Order): (r: Markets)
    ensures r.Keys == m.Keys
  {
    match Locate(base, m, o.sellPrice.baseAsset, o.sellPrice.quoteAsset)
    case None => m
    case Some(t) => m[t.asset := WithSide(m[t.asset], t.side, SideList(m[t.asset], t.side) + [o])]
  }

  /** The notifications of a 'newOrder' event: one 'ADD ORDER' to the book
      that received the order, none when it was not routed. */
  function NewOrderNotices(base: AssetId, m: Markets, o: Order): (r: seq<Notification>)
    ensures |r| <= 1
    ensures r != [] <==> Locate(base, m, o.sellPrice.baseAsset, o.sellPrice.quoteAsset).Some?
    ensures r != [] ==> r[0].note == AddOrder && r[0].asset in m && r[0].listener == m[r[0].asset].callback
    ensures r != [] ==> r[0].asset == Locate(base, m, o.sellPrice.baseAsset, o.sellPrice.quoteAsset).value.asset
  {
    match Locate(base, m, o.sellPrice.baseAsset, o.sellPrice.quoteAsset)
    case None => []
    case Some(t) => [Notification(t.asset, m[t.asset].callback, AddOrder)]
  }

  /** Where a fill applies: the routed list and the index of the first order
      in it carrying the filled id. */
  function FillTarget(base: AssetId, m: Markets, f: Fill): (r: Option<(Slot, nat)>)
    ensures r.Some? ==> r.value.0.asset in m && r.value.1 < |SideList(m[r.value.0.asset], r.value.0.side)|
  {
    match Locate(base, m, f.pays.assetId, f.receives.assetId)
    case None => None
    case Some(t) =>
      match FindIndex(SideList(m[t.asset], t.side), f.orderId)
      case None => None
      case Some(i) => Some((t, i))
  }

  /** A fill applies, in the list the side rule routes its pair to, at the
      first entry carrying its id, and finds none exactly when its pair is
      not routed or the routed list lacks the id. */
  lemma FillTargetSpec(base: AssetId, m: Markets, f: Fill)
    ensures var r := FillTarget(base, m, f);
            r.Some? ==> r.value.0 == Locate(base, m, f.pays.assetId, f.receives.assetId).value
    ensures var r := FillTarget(base, m, f);
            r.Some? ==> SideList(m[r.value.0.asset], r.value.0.side)[r.value.1].id == f.orderId
    ensures var r := FillTarget(base, m, f);
            r.Some? ==> forall j :: 0 <= j < r.value.1 ==> SideList(m[r.value.0.asset], r.value.0.side)[j].id != f.orderId
    ensures FillTarget(base, m, f).None? <==>
              || Locate(base, m, f.pays.assetId, f.receives.assetId).None?
              || !Contains(SideList(m[Locate(base, m, f.pays.assetId, f.receives.assetId).value.asset],
                                    Locate(base, m, f.pays.assetId, f.receives.assetId).value.side), f.orderId)
  {
  }

  /** The map after a 'fillOrder' event: the `for_sale` of the first
      matching order of the routed list drops by the paid amount (no clamp
      at zero); an unknown order or an unroutable pair changes nothing. */
  function AfterFill(base: AssetId, m: Markets, f: Fill): (r: Markets)
    ensures r.Keys == m.Keys
  {
    match FillTarget(base, m, f)
    case None => m
    case Some((t, i)) => FillAt(m, t, i, f.pays.amount)
  }

  /** The map with entry `i` of list `t` decreased by `amount`. */
  function FillAt(m: Markets, t: Slot, i: nat, amount: int): Markets
    requires t.asset in m && i < |SideList(m[t.asset], t.side)|
  {
    m[t.asset := WithSide(m[t.asset], t.side, DecreaseAt(SideList(m[t.asset], t.side), i, amount))]
  }

  /** The notifications of a 'fillOrder' event: one 'FILL ORDER' to the
      book holding the filled order, none when nothing was filled. */
  function FillNotices(base: AssetId, m: Markets, f: Fill): (r: seq<Notification>)
    ensures |r| <= 1
    ensures r != [] <==> FillTarget(base, m, f).Some?
    ensures r != [] ==> r[0].note == FillOrder && r[0].asset in m && r[0].listener == m[r[0].asset].callback
    ensures r != [] ==> r[0].asset == FillTarget(base, m, f).value.0.asset
  {
    match FillTarget(base, m, f)
    case None => []
    case Some((t, _)) => [Notification(t.asset, m[t.asset].callback, FillOrder)]
  }

  function PruneBook(b: Book, id: OrderId): Book
  {
    Book(RemoveFirst(b.buy, id), RemoveFirst(b.sell, id), b.callback)
  }

  /** The book with one of its lists losing its first order carrying the id. */
  function PruneSide(b: Book, side: Side, id: OrderId): Book
  {
    WithSide(b, side, RemoveFirst(SideList(b, side), id))
  }

  /** The 'DELETE ORDER' notification one list of a book sends: one when
      the list held the id, none otherwise. */
  function SideDeleteNotices(a: AssetId, b: Book, side: Side, id: OrderId): seq<Notification>
  {
    if Contains(SideList(b, side), id) then [Notification(a, b.callback, DeleteOrder)] else []
  }

  /** The map after a 'deleteOrder' event: every list of every book loses
      its first order carrying the id. */
  function AfterDelete(m: Markets, id: OrderId): (r: Markets)
    ensures r.Keys == m.Keys
    ensures forall a :: a in m ==> r[a].callback == m[a].callback
  {
    map a | a in m :: PruneBook(m[a], id)
  }

  /** The 'DELETE ORDER' notifications one book sends: one per list of it
      that held the id, buy list first. */
  function BookDeleteNotices(a: AssetId, b: Book, id: OrderId): (r: seq<Notification>)
    ensures |r| == (if Contains(b.buy, id) then 1 else 0) + (if Contains(b.sell, id) then 1 else 0)
    ensures forall k :: 0 <= k < |r| ==> r[k] == Notification(a, b.callback, DeleteOrder)
  {
    (if Contains(b.buy, id) then [Notification(a, b.callback, DeleteOrder)] else [])
    + (if Contains(b.sell, id) then [Notification(a, b.callback, DeleteOrder)] else [])
  }

  /** No asset occurs twice in `s`. */
  ghost predicate Distinct(s: seq<AssetId>)
  {
    forall i, j :: 0 <= i < j < |s| ==> s[i] != s[j]
  }

  /** The map after pruning the books of `keys` one after the other, in
      that order: the state the delete scan has reached after those keys. */
  function DeleteIn(keys: seq<AssetId>, m: Markets, id: OrderId): (r: Markets)
    requires forall k :: k in keys ==> k in m
    ensures r.Keys == m.Keys
  {
    if keys == [] then m
    else
      var p := DeleteIn(keys[..|keys| - 1], m, id);
      var k := keys[|keys| - 1];
      p[k := PruneBook(p[k], id)]
  }

  /** The notifications of a 'deleteOrder' event when the books are
      scanned in the order `keys`. */
  function DeleteNotices(keys: seq<AssetId>, m: Markets, id: OrderId): seq<Notification>
    requires forall k :: k in keys ==> k in m
  {
    if keys == [] then []
    else DeleteNotices(keys[..|keys| - 1], m, id) + BookDeleteNotices(keys[|keys| - 1], m[keys[|keys| - 1]], id)
  }

  // ---------------------------------------------------------------------
  // What each event changes

  /** A 'newOrder' event appends the order to the routed list and changes
      nothing else; an unroutable order changes nothing. */
  lemma AfterNewOrderEffect(base: AssetId, m: Markets, o: Order)
    ensures AfterNewOrder(base, m, o).Keys == m.Keys
    ensures Locate(base, m, o.sellPrice.baseAsset, o.sellPrice.quoteAsset).None? ==> AfterNewOrder(base, m, o) == m
    ensures Locate(base, m, o.sellPrice.baseAsset, o.sellPrice.quoteAsset).Some? ==>
              var t := Locate(base, m, o.sellPrice.baseAsset, o.sellPrice.quoteAsset).value;
              && OnlyListChanged(m, AfterNewOrder(base, m, o), t)
              && SideList(AfterNewOrder(base, m, o)[t.asset], t.side) == SideList(m[t.asset], t.side) + [o]
  {
  }

  /** A 'fillOrder' event lowers the `for_sale` of the first matching order
      of the routed list by the paid amount, with no clamp at zero, and
      changes nothing else; an unknown order or pair changes nothing. */
  lemma AfterFillEffect(base: AssetId, m: Markets, f: Fill)
    ensures AfterFill(base, m, f).Keys == m.Keys
    ensures FillTarget(base, m, f).None? ==> AfterFill(base, m, f) == m
    ensures FillTarget(base, m, f).Some? ==>
              var (t, i) := FillTarget(base, m, f).value;
              && OnlyListChanged(m, AfterFill(base, m, f), t)
              && SideList(AfterFill(base, m, f)[t.asset], t.side)
                 == DecreaseAt(SideList(m[t.asset], t.side), i, f.pays.amount)
  {
  }

  // ---------------------------------------------------------------------
  // Properties of the side rule

  /** With no book for the base asset, a pair X/base routes by direction
      alone: paying base lands in X's buy list, receiving base in X's sell
      list, and a pair not involving base, or base against itself, is dropped. */
  lemma SideRule(base: AssetId, m: Markets, x: AssetId, y: AssetId)
    requires base !in m && x != base && y != base
    ensures Locate(base, m, base, x) == (if x in m then Some(Slot(x, Buy)) else None)
    ensures Locate(base, m, x, base) == (if x in m then Some(Slot(x, Sell)) else None)
    ensures Locate(base, m, x, y) == None
    ensures Locate(base, m, base, base) == None
  {
  }

  // ---------------------------------------------------------------------
  // Properties of fills

  /** Two fills of the same order subtract additively: they leave the map
      as one fill of the summed amount would. */
  lemma FillsAccumulate(base: AssetId, m: Markets, f1: Fill, f2: Fill)
    requires f2.orderId == f1.orderId
    requires f2.pays.assetId == f1.pays.assetId && f2.receives.assetId == f1.receives.assetId
    ensures AfterFill(base, AfterFill(base, m, f1), f2)
         == AfterFill(base, m, f1.(pays := f1.pays.(amount := f1.pays.amount + f2.pays.amount)))
  {
    var f := f1.(pays := f1.pays.(amount := f1.pays.amount + f2.pays.amount));
    assert FillTarget(base, m, f) == FillTarget(base, m, f1);
    assert FillTarget(base, m, f2) == FillTarget(base, m, f1);
    if FillTarget(base, m, f1).Some? {
      var (t, i) := FillTarget(base, m, f1).value;
      FillTwiceAt(base, m, f1, f2, f, t, i);
    }
  }

  /** The routed case of FillsAccumulate: both fills, and their sum `f`, hit
      slot `t` at index `i`. */
  lemma FillTwiceAt(base: AssetId, m: Markets, f1: Fill, f2: Fill, f: Fill, t: Slot, i: nat)
    requires f2.orderId == f1.orderId && f.orderId == f1.orderId
    requires f2.pays.assetId == f1.pays.assetId && f2.receives.assetId == f1.receives.assetId
    requires f.pays.assetId == f1.pays.assetId && f.receives.assetId == f1.receives.assetId
    requires f.pays.amount == f1.pays.amount + f2.pays.amount
    requires FillTarget(base, m, f1) == Some((t, i))
    ensures AfterFill(base, AfterFill(base, m, f1), f2) == AfterFill(base, m, f)
  {
    var m1 := FillAt(m, t, i, f1.pays.amount);
    SameTargetAfterFill(base, m, f1, f2, t, i);
    assert FillTarget(base, m, f) == Some((t, i));
    calc {
      AfterFill(base, AfterFill(base, m, f1), f2);
      AfterFill(base, m1, f2);
      FillAt(m1, t, i, f2.pays.amount);
      { FillAtTwice(m, t, i, f1.pays.amount, f2.pays.amount, f.pays.amount); }
      FillAt(m, t, i, f.pays.amount);
      AfterFill(base, m, f);
    }
  }

  /** After a fill, a second fill of the same order on the same pair hits
      the same entry. */
  lemma SameTargetAfterFill(base: AssetId, m: Markets, f1: Fill, f2: Fill, t: Slot, i: nat)
    requires f2.orderId == f1.orderId
    requires f2.pays.assetId == f1.pays.assetId && f2.receives.assetId == f1.receives.assetId
    requires FillTarget(base, m, f1) == Some((t, i))
    ensures FillTarget(base, FillAt(m, t, i, f1.pays.amount), f2) == Some((t, i))
  {
    FindIndexIgnoresForSale(SideList(m[t.asset], t.side), i, f1.pays.amount, f1.orderId);
  }

  /** Decreasing the same entry of the same list twice decreases it once by
      the sum. */
  lemma FillAtTwice(m: Markets, t: Slot, i: nat, x: int, y: int, z: int)
    requires t.asset in m && i < |SideList(m[t.asset], t.side)|
    requires z == x + y
    ensures FillAt(FillAt(m, t, i, x), t, i, y) == FillAt(m, t, i, z)
  {
    var b := m[t.asset];
    var l := SideList(b, t.side);
    var b1 := WithSide(b, t.side, DecreaseAt(l, i, x));
    DecreaseTwice(l, i, x, y);
    assert WithSide(b1, t.side, DecreaseAt(l, i, x + y)) == WithSide(b, t.side, DecreaseAt(l, i, x + y)) by {
      match t.side
      case Buy =>
      case Sell =>
    }
  }

  /** A fill whose order is not in the routed list, or whose pair is not
      routed, changes nothing and notifies nobody. */
  lemma FillOfUnknownOrder(base: AssetId, m: Markets, f: Fill)
    requires forall a :: a in m ==> !Contains(m[a].buy, f.orderId) && !Contains(m[a].sell, f.orderId)
    ensures AfterFill(base, m, f) == m && FillNotices(base, m, f) == []
  {
    var t := Locate(base, m, f.pays.assetId, f.receives.assetId);
    if t.Some? {
      assert !Contains(SideList(m[t.value.asset], t.value.side), f.orderId);
    }
  }

  // ---------------------------------------------------------------------
  // Properties of deletes

  /** Deleting an id no list holds changes nothing and notifies nobody. */
  lemma DeleteOfUnknownOrder(keys: seq<AssetId>, m: Markets, id: OrderId)
    requires forall k :: k in keys ==> k in m
    requires !Listed(m, id)
    ensures AfterDelete(m, id) == m
    ensures DeleteNotices(keys, m, id) == []
  {
    forall a | a in m ensures PruneBook(m[a], id) == m[a] {
      assert !Contains(m[a].buy, id) && !Contains(m[a].sell, id);
      RemoveAbsent(m[a].buy, id);
      RemoveAbsent(m[a].sell, id);
    }
    DeleteNoticesOfUnknown(keys, m, id);
  }

  lemma {:induction false} DeleteNoticesOfUnknown(keys: seq<AssetId>, m: Markets, id: OrderId)
    requires forall k :: k in keys ==> k in m
    requires !Listed(m, id)
    ensures DeleteNotices(keys, m, id) == []
  {
    if keys != [] {
      var k := keys[|keys| - 1];
      assert !Contains(m[k].buy, id) && !Contains(m[k].sell, id);
      DeleteNoticesOfUnknown(keys[..|keys| - 1], m, id);
    }
  }

  /** The scan notifies at least once exactly when some scanned book holds the id. */
  lemma {:induction false} DeleteNoticesWhenListed(keys: seq<AssetId>, m: Markets, id: OrderId, a: AssetId)
    requires forall k :: k in keys ==> k in m
    requires a in keys && (Contains(m[a].buy, id) || Contains(m[a].sell, id))
    ensures Notification(a, m[a].callback, DeleteOrder) in DeleteNotices(keys, m, id)
  {
    var k := keys[|keys| - 1];
    if k == a {
      var b := BookDeleteNotices(a, m[a], id);
      assert b[0] == Notification(a, m[a].callback, DeleteOrder);
    } else {
      assert a in keys[..|keys| - 1];
      DeleteNoticesWhenListed(keys[..|keys| - 1], m, id, a);
    }
  }

  /** One step of the delete scan over distinct keys: the next book is
      still as it was, pruning it extends the scanned prefix by one key,
      and its notifications follow those already sent. */
  lemma DeleteScanStep(keys: seq<AssetId>, m: Markets, id: OrderId, i: nat, prior: seq<Notification>)
    requires i < |keys| && Distinct(keys) && forall k :: k in keys ==> k in m
    ensures keys[i] in m
    ensures DeleteIn(keys[..i], m, id)[keys[i]] == m[keys[i]]
    ensures DeleteIn(keys[..i + 1], m, id) == DeleteIn(keys[..i], m, id)[keys[i] := PruneBook(m[keys[i]], id)]
    ensures (prior + DeleteNotices(keys[..i], m, id)) + BookDeleteNotices(keys[i], m[keys[i]], id)
            == prior + DeleteNotices(keys[..i + 1], m, id)
  {
    assert keys[..i + 1][..i] == keys[..i];
    assert Distinct(keys[..i]);
    assert keys[i] !in keys[..i];
    DeleteInAt(keys[..i], m, id, keys[i]);
    var done := DeleteNotices(keys[..i], m, id);
    var notes := BookDeleteNotices(keys[i], m[keys[i]], id);
    assert (prior + done) + notes == prior + (done + notes);
  }

  /** After scanning distinct keys, exactly the scanned books are pruned,
      each once. */
  lemma {:induction false} DeleteInAt(keys: seq<AssetId>, m: Markets, id: OrderId, a: AssetId)
    requires forall k :: k in keys ==> k in m
    requires Distinct(keys) && a in m
    ensures DeleteIn(keys, m, id)[a] == if a in keys then PruneBook(m[a], id) else m[a]
  {
    if keys != [] {
      var init := keys[..|keys| - 1];
      var k := keys[|keys| - 1];
      assert keys == init + [k];
      assert Distinct(init);
      assert k !in init;
      DeleteInAt(init, m, id, a);
      DeleteInAt(init, m, id, k);
    }
  }

  /** Scanning every key once, in any order, gives the map of a 'deleteOrder' event. */
  lemma DeleteInAll(keys: seq<AssetId>, m: Markets, id: OrderId)
    requires Distinct(keys) && forall k :: k in m <==> k in keys
    ensures DeleteIn(keys, m, id) == AfterDelete(m, id)
  {
    forall a | a in m ensures DeleteIn(keys, m, id)[a] == AfterDelete(m, id)[a] {
      DeleteInAt(keys, m, id, a);
    }
  }

  /** Deleting the order just added gives back the books as they were,
      when its id was new. */
  lemma DeleteUndoesAdd(base: AssetId, m: Markets, o: Order)
    requires !Listed(m, o.id)
    ensures AfterDelete(AfterNewOrder(base, m, o), o.id) == m
  {
    var r := AfterNewOrder(base, m, o);
    var t := Locate(base, m, o.sellPrice.baseAsset, o.sellPrice.quoteAsset);
    forall a | a in m ensures PruneBook(r[a], o.id) == m[a] {
      var b := m[a];
      assert !Contains(b.buy, o.id) && !Contains(b.sell, o.id);
      RemoveAbsent(b.buy, o.id);
      RemoveAbsent(b.sell, o.id);
      if t.Some? && t.value.asset == a {
        RemoveAppended(SideList(b, t.value.side), o);
        if t.value.side == Buy {
          assert r[a] == Book(b.buy + [o], b.sell, b.callback);
        } else {
          assert r[a] == Book(b.buy, b.sell + [o], b.callback);
        }
      } else {
        assert r[a] == b;
      }
    }
  }

  /** Adding one order and deleting another id commute, both in the books
      they leave and in the 'ADD ORDER' notification they send. */
  lemma AddCommutesWithDelete(base: AssetId, m: Markets, o: Order, id: OrderId)
    requires o.id != id
    ensures AfterDelete(AfterNewOrder(base, m, o), id) == AfterNewOrder(base, AfterDelete(m, id), o)
    ensures NewOrderNotices(base, AfterDelete(m, id), o) == NewOrderNotices(base, m, o)
  {
    var d := AfterDelete(m, id);
    assert Locate(base, d, o.sellPrice.baseAsset, o.sellPrice.quoteAsset)
        == Locate(base, m, o.sellPrice.baseAsset, o.sellPrice.quoteAsset);
    AddCommutesWithDeleteInBooks(base, m, o, id);
  }

  /** The books part of AddCommutesWithDelete, compared key by key. */
  lemma AddCommutesWithDeleteInBooks(base: AssetId, m: Markets, o: Order, id: OrderId)
    requires o.id != id
    ensures AfterDelete(AfterNewOrder(base, m, o), id) == AfterNewOrder(base, AfterDelete(m, id), o)
  {
    var t := Locate(base, m, o.sellPrice.baseAsset, o.sellPrice.quoteAsset);
    var d := AfterDelete(m, id);
    assert Locate(base, d, o.sellPrice.baseAsset, o.sellPrice.quoteAsset) == t;
    var left := AfterDelete(AfterNewOrder(base, m, o), id);
    var right := AfterNewOrder(base, d, o);
    if t.Some? {
      var x := t.value.asset;
      forall a | a in m ensures left[a] == right[a] {
        if a == x {
          PruneAfterAppend(m[x], t.value.side, o, id);
        }
      }
    }
    assert left.Keys == right.Keys;
  }

  /** Within one book, pruning an id after appending an order with another
      id equals appending after pruning. */
  lemma PruneAfterAppend(b: Book, side: Side, o: Order, id: OrderId)
    requires o.id != id
    ensures var p := PruneBook(b, id);
            PruneBook(WithSide(b, side, SideList(b, side) + [o]), id) == WithSide(p, side, SideList(p, side) + [o])
  {
    RemoveBeforeAppend(SideList(b, side), o, id);
    match side
    case Buy =>
    case Sell =>
  }

  /** Two deletes commute. */
  lemma DeletesCommute(m: Markets, a: OrderId, b: OrderId)
    ensures AfterDelete(AfterDelete(m, a), b) == AfterDelete(AfterDelete(m, b), a)
  {
    var ab := AfterDelete(AfterDelete(m, a), b);
    var ba := AfterDelete(AfterDelete(m, b), a);
    forall k | k in m ensures ab[k] == ba[k] {
      RemoveCommutes(m[k].buy, a, b);
      RemoveCommutes(m[k].sell, a, b);
    }
    assert ab.Keys == ba.Keys;
  }

  /** When ids are unique within every list, a delete leaves no order with the id. */
  lemma DeleteRemovesId(m: Markets, id: OrderId)
    requires UniqueEverywhere(m)
    ensures !Listed(AfterDelete(m, id), id)
  {
    forall a | a in m
      ensures !Contains(RemoveFirst(m[a].buy, id), id) && !Contains(RemoveFirst(m[a].sell, id), id)
    {
      RemoveUnique(m[a].buy, id);
      RemoveUnique(m[a].sell, id);
    }
  }
}
