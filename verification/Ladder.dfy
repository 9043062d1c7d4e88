/** A price ladder as a value: the occupied prices in ladder order and the
    queue at each price. `Flat` reads it front to back as one sequence, which
    is the form the reference engine keeps. */
module Ladder {
  import opened Messages
  import opened Reference
  import opened BookInvariant

  type Queues = map<int, seq<Order>>

  ghost predicate Ascending(side: Side, prices: seq<int>) {
    forall i, j :: 0 <= i < j < |prices| ==> Precedes(side, prices[i], prices[j])
  }

  ghost predicate Keyed(prices: seq<int>, queues: Queues) {
    forall i :: 0 <= i < |prices| ==> prices[i] in queues
  }

  ghost predicate Covers(prices: seq<int>, queues: Queues) {
    Keyed(prices, queues) && forall p, o :: p in queues && o in queues[p] ==> o.price == p
  }

  /** The prices are in ladder order and are exactly the keys of the queues. */
  ghost predicate LadderOk(side: Side, prices: seq<int>, queues: Queues) {
    Ascending(side, prices) && Covers(prices, queues) && forall p :: p in queues ==> p in prices
  }

  ghost function Flat(prices: seq<int>, queues: Queues): seq<Order> {
    if prices == [] then []
    else (if prices[0] in queues then queues[prices[0]] else []) + Flat(prices[1..], queues)
  }

  lemma {:induction false} FlatAgree(prices: seq<int>, a: Queues, b: Queues)
    requires Keyed(prices, a) && Keyed(prices, b)
    requires forall i :: 0 <= i < |prices| ==> a[prices[i]] == b[prices[i]]
    ensures Flat(prices, a) == Flat(prices, b)
  {
    if prices != [] {
      FlatAgree(prices[1..], a, b);
    }
  }

  lemma {:induction false} FlatMember(prices: seq<int>, queues: Queues, o: Order)
    requires Covers(prices, queues)
    ensures o in Flat(prices, queues) <==> o.price in prices && o in queues[o.price]
  {
    if prices != [] {
      var p, rest := prices[0], prices[1..];
      assert prices == [p] + rest;
      assert o.price in prices <==> o.price == p || o.price in rest;
      FlatMember(rest, queues, o);
      assert o in Flat(prices, queues) <==> o in queues[p] || o in Flat(rest, queues);
    }
  }

  /** In a ladder the later prices all come after the first. */
  lemma AscendingTail(side: Side, prices: seq<int>)
    requires prices != [] && Ascending(side, prices)
    ensures Ascending(side, prices[1..])
    ensures forall p :: p in prices[1..] ==> Precedes(side, prices[0], p)
  {
  }

  lemma {:induction false} InsertSkips(side: Side, s: seq<Order>, t: seq<Order>, o: Order)
    requires forall x :: x in s ==> !Precedes(side, o.price, x.price)
    ensures Insert(side, s + t, o) == s + Insert(side, t, o)
  {
    if s == [] {
      assert s + t == t;
    } else {
      assert (s + t)[1..] == s[1..] + t;
      InsertSkips(side, s[1..], t, o);
    }
  }

  lemma InsertStops(side: Side, t: seq<Order>, o: Order)
    requires forall x :: x in t ==> Precedes(side, o.price, x.price)
    ensures Insert(side, t, o) == [o] + t
  {
  }

  /** Appending to an existing queue inserts behind its price. */
  lemma {:induction false} AppendExisting(side: Side, prices: seq<int>, queues: Queues, o: Order)
    requires Ascending(side, prices) && Covers(prices, queues) && o.price in prices
    ensures Flat(prices, queues[o.price := queues[o.price] + [o]]) == Insert(side, Flat(prices, queues), o)
  {
    var grown := queues[o.price := queues[o.price] + [o]];
    var p, rest := prices[0], prices[1..];
    AscendingTail(side, prices);
    FlatOthers(rest, queues);
    if p == o.price {
      FlatAgree(rest, grown, queues);
      InsertSkips(side, queues[p], Flat(rest, queues), o);
      InsertStops(side, Flat(rest, queues), o);
      assert Flat(prices, grown) == queues[p] + [o] + Flat(rest, queues);
    } else {
      AppendExisting(side, rest, queues, o);
      InsertSkips(side, queues[p], Flat(rest, queues), o);
    }
  }

  /** Every order in a ladder is filed under one of its prices. */
  lemma FlatOthers(prices: seq<int>, queues: Queues)
    requires Covers(prices, queues)
    ensures forall x :: x in Flat(prices, queues) ==> x.price in prices
  {
    forall x | x in Flat(prices, queues)
      ensures x.price in prices
    {
      FlatMember(prices, queues, x);
    }
  }

  lemma {:induction false} RemoveSkips(s: seq<Order>, t: seq<Order>, id: int)
    requires id !in Ids(s)
    ensures Remove(s + t, id) == s + Remove(t, id)
  {
    if s == [] {
      assert s + t == t;
    } else {
      assert s[0].id in Ids(s) && Ids(s[1..]) <= Ids(s);
      assert (s + t)[1..] == s[1..] + t;
      RemoveSkips(s[1..], t, id);
    }
  }

  lemma {:induction false} RemoveAt(s: seq<Order>, k: nat, t: seq<Order>)
    requires k < |s| && s[k].id !in Ids(s[..k])
    ensures Remove(s + t, s[k].id) == s[..k] + s[k + 1..] + t
  {
    RemoveSkips(s[..k], s[k..] + t, s[k].id);
    assert s[..k] + (s[k..] + t) == s + t;
    assert (s[k..] + t)[1..] == s[k + 1..] + t;
    assert Remove(s[k..] + t, s[k].id) == s[k + 1..] + t;
  }

  /** Taking one order out of its queue removes it from the flat sequence. */
  lemma {:induction false} DetachAt(side: Side, prices: seq<int>, queues: Queues, p: int, k: nat)
    requires Ascending(side, prices) && Covers(prices, queues) && p in prices && k < |queues[p]|
    requires forall x :: x in Flat(prices, queues) && x.id == queues[p][k].id ==> x == queues[p][k]
    requires queues[p][k].id !in Ids(queues[p][..k])
    ensures Flat(prices, queues[p := queues[p][..k] + queues[p][k + 1..]])
         == Remove(Flat(prices, queues), queues[p][k].id)
  {
    var shrunk := queues[p := queues[p][..k] + queues[p][k + 1..]];
    var q, rest := prices[0], prices[1..];
    AscendingTail(side, prices);
    if q == p {
      FlatAgree(rest, shrunk, queues);
      RemoveAt(queues[p], k, Flat(rest, queues));
    } else {
      DetachAt(side, rest, queues, p, k);
      forall x | x in queues[q]
        ensures x.id != queues[p][k].id
      {
        assert x.price == q && queues[p][k] in queues[p];
      }
      RemoveSkips(queues[q], Flat(rest, queues), queues[p][k].id);
    }
  }

  /** Erasing a level whose queue is empty does not show in the flat sequence. */
  lemma {:induction false} DropEmpty(side: Side, prices: seq<int>, queues: Queues, k: nat)
    requires Ascending(side, prices) && Covers(prices, queues) && k < |prices|
    requires queues[prices[k]] == []
    ensures Flat(prices[..k] + prices[k + 1..], queues - {prices[k]}) == Flat(prices, queues)
    decreases k
  {
    var p := prices[k];
    AscendingSplit(side, prices, k);
    if k == 0 {
      assert prices[..k] + prices[k + 1..] == prices[1..];
      FlatAgree(prices[1..], queues - {p}, queues);
    } else {
      AscendingTail(side, prices);
      DropEmpty(side, prices[1..], queues, k - 1);
      var left := prices[..k] + prices[k + 1..];
      assert left[1..] == prices[1..][..k - 1] + prices[1..][k..];
      assert left[0] == prices[0];
    }
  }

  lemma AscendingSplit(side: Side, prices: seq<int>, k: nat)
    requires Ascending(side, prices) && k < |prices|
    ensures Ascending(side, prices[..k] + prices[k + 1..])
    ensures forall p :: p in prices[..k] + prices[k + 1..] <==> p in prices && p != prices[k]
  {
  }

  lemma AscendingInsert(side: Side, prices: seq<int>, p: int, k: nat)
    requires Ascending(side, prices) && k <= |prices|
    requires forall i :: 0 <= i < k ==> Precedes(side, prices[i], p)
    requires forall i :: k <= i < |prices| ==> Precedes(side, p, prices[i])
    ensures Ascending(side, prices[..k] + [p] + prices[k..])
    ensures forall q :: q in prices[..k] + [p] + prices[k..] <==> q in prices || q == p
  {
  }

  /** Opening an empty level at its place in the ladder does not show in the flat sequence. */
  lemma OpenLevel(side: Side, prices: seq<int>, queues: Queues, p: int, k: nat)
    requires LadderOk(side, prices, queues) && p !in queues && k <= |prices|
    requires forall i :: 0 <= i < k ==> Precedes(side, prices[i], p)
    requires forall i :: k <= i < |prices| ==> Precedes(side, p, prices[i])
    ensures var wider, grown := prices[..k] + [p] + prices[k..], queues[p := []];
      LadderOk(side, wider, grown) && Flat(wider, grown) == Flat(prices, queues)
  {
    hide Flat, Ascending;
    var wider, grown := prices[..k] + [p] + prices[k..], queues[p := []];
    AscendingInsert(side, prices, p, k);
    DropEmpty(side, wider, grown, k);
    assert wider[..k] + wider[k + 1..] == prices;
    assert grown - {p} == queues;
  }

  /** Closing an empty level does not show in the flat sequence. */
  lemma CloseLevel(side: Side, prices: seq<int>, queues: Queues, k: nat)
    requires LadderOk(side, prices, queues) && k < |prices| && queues[prices[k]] == []
    ensures var narrower, shrunk := prices[..k] + prices[k + 1..], queues - {prices[k]};
      LadderOk(side, narrower, shrunk) && Flat(narrower, shrunk) == Flat(prices, queues)
  {
    AscendingSplit(side, prices, k);
    var narrower, shrunk := prices[..k] + prices[k + 1..], queues - {prices[k]};
    forall i | 0 <= i < |narrower|
      ensures narrower[i] in shrunk
    {
      assert narrower[i] in narrower;
    }
    DropEmpty(side, prices, queues, k);
  }

  /** Appending to a queue inserts behind its price. */
  lemma AppendToQueue(side: Side, prices: seq<int>, queues: Queues, o: Order)
    requires LadderOk(side, prices, queues) && o.price in queues
    ensures var grown := queues[o.price := queues[o.price] + [o]];
      LadderOk(side, prices, grown) && Flat(prices, grown) == Insert(side, Flat(prices, queues), o)
  {
    AppendExisting(side, prices, queues, o);
  }

  /** Each queue is one contiguous piece of the flat sequence. */
  lemma {:induction false} QueueIsSegment(side: Side, prices: seq<int>, queues: Queues, p: int)
    returns (front: seq<Order>, back: seq<Order>)
    requires Ascending(side, prices) && Covers(prices, queues) && p in prices
    ensures Flat(prices, queues) == front + queues[p] + back
  {
    AscendingTail(side, prices);
    if prices[0] == p {
      front, back := [], Flat(prices[1..], queues);
    } else {
      front, back := QueueIsSegment(side, prices[1..], queues, p);
      front := queues[prices[0]] + front;
    }
  }

  lemma DistinctSegment(front: seq<Order>, mid: seq<Order>, back: seq<Order>)
    requires Distinct(front + mid + back)
    ensures Distinct(mid)
  {
    var s := front + mid + back;
    assert forall i :: 0 <= i < |mid| ==> s[|front| + i] == mid[i];
  }

  /** With one order per id, taking an order out of its queue is removal by id. */
  lemma DetachFromQueue(side: Side, prices: seq<int>, queues: Queues, p: int, k: nat)
    requires LadderOk(side, prices, queues) && p in queues && k < |queues[p]|
    requires Distinct(Flat(prices, queues))
    ensures var shrunk := queues[p := queues[p][..k] + queues[p][k + 1..]];
      && LadderOk(side, prices, shrunk)
      && Flat(prices, shrunk) == Remove(Flat(prices, queues), queues[p][k].id)
  {
    hide Flat, Ascending;
    var o := queues[p][k];
    var front, back := QueueIsSegment(side, prices, queues, p);
    DistinctSegment(front, queues[p], back);
    var flat := Flat(prices, queues);
    assert flat[|front| + k] == o;
    DetachAt(side, prices, queues, p, k);
  }

  /** Changing the head of the best queue changes the head of the flat sequence. */
  lemma ShrinkBest(side: Side, prices: seq<int>, queues: Queues, o: Order)
    requires LadderOk(side, prices, queues) && prices != [] && queues[prices[0]] != [] && o.price == prices[0]
    ensures var changed := queues[prices[0] := [o] + queues[prices[0]][1..]];
      && LadderOk(side, prices, changed)
      && Flat(prices, changed) == [o] + Flat(prices, queues)[1..]
  {
    var p, rest := prices[0], prices[1..];
    var changed := queues[p := [o] + queues[p][1..]];
    AscendingTail(side, prices);
    FlatAgree(rest, queues, changed);
    hide Ascending;
    assert LadderOk(side, prices, changed);
    calc {
      Flat(prices, changed);
      changed[p] + Flat(rest, queues);
      [o] + (queues[p][1..] + Flat(rest, queues));
      [o] + (queues[p] + Flat(rest, queues))[1..];
    }
  }

  lemma BestHead(side: Side, prices: seq<int>, queues: Queues)
    requires LadderOk(side, prices, queues) && prices != []
    ensures prices[0] in queues
    ensures queues[prices[0]] != [] ==>
      Flat(prices, queues) != [] && Flat(prices, queues)[0] == queues[prices[0]][0]
  {
  }

  lemma {:induction false} SumConcat(a: seq<Order>, b: seq<Order>)
    ensures Sum(a + b) == Sum(a) + Sum(b)
  {
    if a == [] {
      assert a + b == b;
    } else {
      assert (a + b)[1..] == a[1..] + b;
      SumConcat(a[1..], b);
    }
  }

  lemma SumSnoc(s: seq<Order>, o: Order)
    ensures Sum(s + [o]) == Sum(s) + o.qty
  {
    SumConcat(s, [o]);
  }

  lemma SumDrop(s: seq<Order>, k: nat)
    requires k < |s|
    ensures Sum(s[..k] + s[k + 1..]) == Sum(s) - s[k].qty
  {
    hide Sum;
    assert s == s[..k] + s[k..];
    SumConcat(s[..k], s[k..]);
    SumConcat(s[..k], s[k + 1..]);
    SumHead(s[k..]);
    assert s[k..][1..] == s[k + 1..];
  }

  lemma SumHead(s: seq<Order>)
    requires s != []
    ensures Sum(s) == s[0].qty + Sum(s[1..])
  {
  }

  lemma {:induction false} InsertSum(side: Side, s: seq<Order>, o: Order)
    ensures Sum(Insert(side, s, o)) == Sum(s) + o.qty
  {
    if s == [] {
    } else if Precedes(side, o.price, s[0].price) {
      assert ([o] + s)[1..] == s;
    } else {
      InsertSum(side, s[1..], o);
      assert Insert(side, s, o)[1..] == Insert(side, s[1..], o);
    }
  }

  lemma {:induction false} SumNonNegative(s: seq<Order>)
    requires Positive(s)
    ensures Sum(s) >= 0
  {
    if s != [] {
      SumNonNegative(s[1..]);
    }
  }

  /** No level holds more than its side. */
  lemma QueueWithinSide(side: Side, prices: seq<int>, queues: Queues, p: int)
    requires LadderOk(side, prices, queues) && p in queues && Positive(Flat(prices, queues))
    ensures 0 <= Sum(queues[p]) <= Sum(Flat(prices, queues))
  {
    hide Flat, Ascending, Covers, Sum;
    var front, back := QueueIsSegment(side, prices, queues, p);
    var flat := Flat(prices, queues);
    forall o | o in front || o in queues[p] || o in back
      ensures o in flat
    {
    }
    SumNonNegative(front);
    SumNonNegative(queues[p]);
    SumNonNegative(back);
    SumConcat(front + queues[p], back);
    SumConcat(front, queues[p]);
  }

  lemma {:induction false} MemberWithinSum(s: seq<Order>, o: Order)
    requires Positive(s) && o in s
    ensures 0 < o.qty <= Sum(s)
  {
    SumNonNegative(s[1..]);
    if o != s[0] {
      HeadTail(s);
      MemberWithinSum(s[1..], o);
    }
  }

  lemma {:induction false} AvailableConcat(side: Side, a: seq<Order>, b: seq<Order>, limit: int)
    ensures Available(side, a + b, limit) == Available(side, a, limit) + Available(side, b, limit)
  {
    if a == [] {
      assert a + b == b;
    } else {
      assert (a + b)[1..] == a[1..] + b;
      AvailableConcat(side, a[1..], b, limit);
    }
  }

  lemma {:induction false} AvailableAll(side: Side, s: seq<Order>, limit: int)
    requires forall o :: o in s ==> Crosses(side, limit, o.price)
    ensures Available(side, s, limit) == Sum(s)
  {
    if s != [] {
      AvailableAll(side, s[1..], limit);
    }
  }

  lemma {:induction false} AvailableNone(side: Side, s: seq<Order>, limit: int)
    requires forall o :: o in s ==> !Crosses(side, limit, o.price)
    ensures Available(side, s, limit) == 0
  {
    if s != [] {
      AvailableNone(side, s[1..], limit);
    }
  }

  lemma {:induction false} AvailableBounds(side: Side, s: seq<Order>, limit: int)
    requires Positive(s)
    ensures 0 <= Available(side, s, limit) <= Sum(s)
  {
    if s != [] {
      AvailableBounds(side, s[1..], limit);
    }
  }

  /** One step of the level-by-level probe: a crossing level counts for its cached total,
      and behind a level that does not cross nothing does. */
  lemma ProbeLevel(side: Side, prices: seq<int>, queues: Queues, limit: int)
    requires Ascending(side, prices) && Covers(prices, queues) && prices != []
    ensures Crosses(side, limit, prices[0]) ==>
      Available(side, Flat(prices, queues), limit)
      == Sum(queues[prices[0]]) + Available(side, Flat(prices[1..], queues), limit)
    ensures !Crosses(side, limit, prices[0]) ==> Available(side, Flat(prices, queues), limit) == 0
  {
    var p, rest := prices[0], prices[1..];
    AscendingTail(side, prices);
    FlatOthers(prices, queues);
    if Crosses(side, limit, p) {
      AvailableConcat(side, queues[p], Flat(rest, queues), limit);
      AvailableAll(side, queues[p], limit);
    } else {
      forall o | o in Flat(prices, queues)
        ensures !Crosses(side, limit, o.price)
      {
        assert o.price == p || o.price in rest;
      }
      AvailableNone(side, Flat(prices, queues), limit);
    }
  }

  lemma TradeSum(s: seq<Order>, quantity: int)
    requires s != []
    ensures Sum([s[0].(qty := s[0].qty - quantity)] + s[1..]) == Sum(s) - quantity
  {
  }

  /** Enough room in the machine's quantity type for what a side holds and `extra` more. */
  ghost predicate Room(s: seq<Order>, extra: int) {
    Positive(s) && 0 <= extra && Sum(s) + extra <= INT64_MAX
  }

  /** The cached total of a level fits after an append if the side has room. */
  lemma AppendFits(side: Side, prices: seq<int>, queues: Queues, o: Order)
    requires LadderOk(side, prices, queues) && o.price in queues
    ensures Room(Flat(prices, queues), o.qty) ==> InInt64(Sum(queues[o.price]) + o.qty)
  {
    if Room(Flat(prices, queues), o.qty) {
      QueueWithinSide(side, prices, queues, o.price);
    }
  }

  /** Nothing taken out of or traded off a level leaves the machine's range. */
  lemma TakeFits(side: Side, prices: seq<int>, queues: Queues, p: int, k: nat)
    requires LadderOk(side, prices, queues) && p in queues && k < |queues[p]|
    ensures Room(Flat(prices, queues), 0) ==> 0 < queues[p][k].qty <= Sum(queues[p]) <= INT64_MAX
  {
    if Room(Flat(prices, queues), 0) {
      hide Flat, Ascending, Covers, Sum;
      var q := queues[p];
      QueueWithinSide(side, prices, queues, p);
      var front, back := QueueIsSegment(side, prices, queues, p);
      forall o | o in q
        ensures o in Flat(prices, queues)
      {
      }
      assert q[k] in q;
      SumDrop(q, k);
      SumNonNegative(q[..k] + q[k + 1..]);
    }
  }

  lemma {:induction false} FlatSuffix(prices: seq<int>, queues: Queues, k: nat)
    requires k <= |prices|
    ensures forall o :: o in Flat(prices[k..], queues) ==> o in Flat(prices, queues)
    decreases k
  {
    if k > 0 {
      assert prices[1..][k - 1..] == prices[k..];
      FlatSuffix(prices[1..], queues, k - 1);
    } else {
      assert prices[k..] == prices;
    }
  }

  /** Trading against the front order only makes room. */
  lemma RoomAfterTrade(s: seq<Order>, trade: int)
    requires s != [] && 0 < trade
    ensures Room(s, 0) ==> Room(s[1..], 0)
    ensures Room(s, 0) && trade < s[0].qty ==> Room([s[0].(qty := s[0].qty - trade)] + s[1..], 0)
  {
  }

  lemma RoomHead(s: seq<Order>)
    requires s != []
    ensures Room(s, 0) ==> 0 < s[0].qty <= INT64_MAX
  {
    if Room(s, 0) {
      assert s[0] in s;
      assert forall o :: o in s[1..] ==> o in s;
      SumNonNegative(s[1..]);
    }
  }
}
