/** The list operations a book performs on one of its order lists:
    locating an order by id (`findIndex(findOrder(id))`), removing it
    (`splice(idx, 1)`) and decrementing its `for_sale`. */
module OrderLists {
  import opened MarketTypes

  /** Some order of `s` carries the id. */
  predicate Contains(s: seq<Order>, id: OrderId)
  {
    exists i :: 0 <= i < |s| && s[i].id == id
  }

  /** No id occurs twice in `s`. */
  predicate UniqueIds(s: seq<Order>)
  {
    forall i, j :: 0 <= i < j < |s| ==> s[i].id != s[j].id
  }

  /** The index of the first order carrying the id, as `findIndex` with
      the `findOrder` predicate computes it (None stands for -1). */
  function FindIndex(s: seq<Order>, id: OrderId): (r: Option<nat>)
    ensures r.Some? ==> r.value < |s| && s[r.value].id == id
    ensures r.Some? ==> forall j :: 0 <= j < r.value ==> s[j].id != id
    ensures r.None? <==> !Contains(s, id)
  {
    if s == [] then None
    else if s[0].id == id then Some(0)
    else
      match FindIndex(s[1..], id)
      case None => None
      case Some(k) => Some(k + 1)
  }

  /** `s` without its first order carrying the id: at most one order
      goes (which one, RemoveFirstSplices says). */
  function RemoveFirst(s: seq<Order>, id: OrderId): (r: seq<Order>)
    ensures |s| - 1 <= |r| <= |s|
  {
    if s == [] then []
    else if s[0].id == id then s[1..]
    else [s[0]] + RemoveFirst(s[1..], id)
  }

  /** Removal by id is `splice(findIndex(...), 1)`: the list without the
      order at the index the lookup finds, and the list itself when the
      lookup finds none. */
  lemma RemoveFirstSplices(s: seq<Order>, id: OrderId)
    ensures FindIndex(s, id).None? ==> RemoveFirst(s, id) == s
    ensures FindIndex(s, id).Some? ==>
              var i := FindIndex(s, id).value; RemoveFirst(s, id) == s[..i] + s[i + 1..]
  {
    if FindIndex(s, id).None? {
      RemoveNotFound(s, id);
    } else {
      RemoveFound(s, id, FindIndex(s, id).value);
    }
  }

  /** The list is unchanged when the lookup finds nothing. */
  lemma {:induction false} RemoveNotFound(s: seq<Order>, id: OrderId)
    requires FindIndex(s, id).None?
    ensures RemoveFirst(s, id) == s
  {
    if s != [] {
      RemoveNotFound(s[1..], id);
      assert s == [s[0]] + s[1..];
    }
  }

  /** The list loses exactly the order at the index the lookup finds. */
  lemma {:induction false} RemoveFound(s: seq<Order>, id: OrderId, i: nat)
    requires FindIndex(s, id) == Some(i)
    ensures RemoveFirst(s, id) == s[..i] + s[i + 1..]
  {
    if i == 0 {
      assert s[..0] + s[1..] == s[1..];
    } else {
      RemoveFound(s[1..], id, i - 1);
      SpliceCons(s, i - 1);
    }
  }

  /** Removing an id the list does not hold leaves the list as it is. */
  lemma RemoveAbsent(s: seq<Order>, id: OrderId)
    requires !Contains(s, id)
    ensures RemoveFirst(s, id) == s
  {
    RemoveFirstSplices(s, id);
  }

  /** Splicing out position k of the tail of `s` and then putting the
      head back in front is splicing out position k + 1 of `s`. */
  lemma SpliceCons(s: seq<Order>, k: nat)
    requires k + 1 < |s|
    ensures [s[0]] + (s[1..][..k] + s[1..][k + 1..]) == s[..k + 1] + s[k + 2..]
  {
    assert s[..k + 1] == [s[0]] + s[1..][..k];
    assert s[k + 2..] == s[1..][k + 1..];
  }

  /** `s` with the `for_sale` of its i-th order decreased by `amount`. */
  function DecreaseAt(s: seq<Order>, i: nat, amount: int): (r: seq<Order>)
    requires i < |s|
    ensures |r| == |s| && r[i].forSale == s[i].forSale - amount
    ensures r[i].id == s[i].id && r[i].sellPrice == s[i].sellPrice
    ensures forall j :: 0 <= j < |s| && j != i ==> r[j] == s[j]
  {
    s[i := s[i].(forSale := s[i].forSale - amount)]
  }

  /** Two decrements of one order add up. */
  lemma DecreaseTwice(s: seq<Order>, i: nat, x: int, y: int)
    requires i < |s|
    ensures DecreaseAt(DecreaseAt(s, i, x), i, y) == DecreaseAt(s, i, x + y)
  {
  }

  /** Decrementing `for_sale` leaves every id in place, so a later lookup
      finds the same index. */
  lemma {:induction false} FindIndexIgnoresForSale(s: seq<Order>, i: nat, amount: int, id: OrderId)
    requires i < |s|
    ensures FindIndex(DecreaseAt(s, i, amount), id) == FindIndex(s, id)
  {
    var t := DecreaseAt(s, i, amount);
    if s != [] && s[0].id != id {
      if i == 0 {
        assert t[1..] == s[1..];
      } else {
        assert t[1..] == DecreaseAt(s[1..], i - 1, amount);
        FindIndexIgnoresForSale(s[1..], i - 1, amount, id);
      }
    }
  }

  /** Removing an order that was appended last, and whose id occurs nowhere
      before it, gives back the list it was appended to. */
  lemma {:induction false} RemoveAppended(s: seq<Order>, o: Order)
    requires !Contains(s, o.id)
    ensures RemoveFirst(s + [o], o.id) == s
  {
    RemoveFirstSplices(s + [o], o.id);
    var i := FindIndex(s + [o], o.id);
    assert (s + [o])[|s|].id == o.id;
    assert i == Some(|s|);
    assert (s + [o])[..|s|] == s;
  }

  /** Appending an order with another id commutes with removing by id. */
  lemma {:induction false} RemoveBeforeAppend(s: seq<Order>, o: Order, id: OrderId)
    requires o.id != id
    ensures RemoveFirst(s + [o], id) == RemoveFirst(s, id) + [o]
  {
    if s == [] {
      assert [o][1..] == [];
    } else {
      assert (s + [o])[1..] == s[1..] + [o];
      RemoveBeforeAppend(s[1..], o, id);
    }
  }

  /** Removing by two ids gives the same list in either order. */
  lemma {:induction false} RemoveCommutes(s: seq<Order>, a: OrderId, b: OrderId)
    ensures RemoveFirst(RemoveFirst(s, a), b) == RemoveFirst(RemoveFirst(s, b), a)
  {
    if s != [] && a != b {
      if s[0].id == a {
        assert RemoveFirst(s, b) == [s[0]] + RemoveFirst(s[1..], b);
      } else if s[0].id == b {
        assert RemoveFirst(s, a) == [s[0]] + RemoveFirst(s[1..], a);
      } else {
        RemoveCommutes(s[1..], a, b);
      }
    }
  }

  /** In a list without duplicate ids, removal by id removes the id. */
  lemma {:induction false} RemoveUnique(s: seq<Order>, id: OrderId)
    requires UniqueIds(s)
    ensures !Contains(RemoveFirst(s, id), id)
  {
    var f := FindIndex(s, id);
    RemoveFirstSplices(s, id);
    if f.Some? {
      var r := RemoveFirst(s, id);
      var i := f.value;
      forall k | 0 <= k < |r| ensures r[k].id != id {
        if k < i { assert r[k] == s[k]; } else { assert r[k] == s[k + 1]; }
      }
    }
  }
}
