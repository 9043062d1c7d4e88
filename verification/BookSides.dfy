/** One resting price ladder: an ordered map from price to level. */
module BookSides {
  import opened Messages
  import opened Reference
  import opened BookInvariant
  import opened Ladder
  import opened PriceLevels
  import opened Limits

  class BookSide {
    const side: Side
    var prices: seq<int>              // keys of the ordered map, in ladder order
    var levels: map<int, PriceLevel>
    ghost var queues: Queues          // what each level stands for
    ghost var members: set<OrderNode> // the nodes linked on this ladder
    ghost var Repr: set<object>

    ghost predicate Keys()
      reads this
    {
      && LadderOk(side, prices, queues) && levels.Keys == queues.Keys && members <= Repr
      && forall o :: o in Repr ==> o is OrderNode || o is PriceLevel
    }

    ghost predicate LevelAt(p: int)
      reads this, Repr
    {
      && p in levels && p in queues
      && var level := levels[p];
      && level in Repr
      && (forall n :: n in level.nodes ==> n in members && n in Repr)
      && level.side == side && level.price == p
      && level.Linked()
      && level.orders == queues[p]
      && level.total == Sum(level.orders)
    }

    ghost predicate HomeOf(n: OrderNode)
      reads this, Repr
    {
      n.side == side && n.price in levels && levels[n.price] in Repr && n in levels[n.price].nodes
    }

    /** The ladder is ordered, every level is a proper chain with an exact cached total,
        and the members are exactly the nodes on those chains. */
    ghost predicate Shape()
      reads this, Repr
    {
      && Keys()
      && (forall p {:trigger LevelAt(p)} :: p in levels ==> LevelAt(p))
      && (forall n {:trigger HomeOf(n)} :: n in members ==> HomeOf(n))
    }

    /** Between events no level is left without orders. */
    ghost predicate Valid()
      reads this, Repr
    {
      Shape() && forall p :: p in queues ==> queues[p] != []
    }

    ghost function Orders(): seq<Order>
      reads this
    {
      Flat(prices, queues)
    }

    /** A level none of whose objects was touched is still in place. */
    twostate lemma LevelKept(p: int)
      requires old(LevelAt(p))
      requires p in levels && levels[p] == old(levels[p])
      requires p in queues && queues[p] == old(queues[p]) && old(Repr) <= Repr
      requires forall n :: n in old(levels[p].nodes) ==> n in members
      requires unchanged(levels[p]) && unchanged(levels[p].nodes)
      ensures LevelAt(p)
    {
    }

    /** Levels at different prices share no object. */
    lemma Apart(p: int, q: int)
      requires LevelAt(p) && LevelAt(q) && p != q
      ensures levels[p] != levels[q]
      ensures forall n :: n in levels[p].nodes ==> n !in levels[q].nodes
    {
    }

    /** Everything needed about the other levels before one level is changed. */
    lemma AllApart(p: int)
      requires Shape() && p in levels
      ensures LevelAt(p)
      ensures forall q :: q in levels && q != p ==>
                && levels[q] != levels[p] && levels[q] in Repr
                && forall n :: n in levels[q].nodes ==> n !in levels[p].nodes && n in Repr
      ensures forall n :: n in levels[p].nodes <==> n in members && n.price == p
    {
      assert LevelAt(p);
      forall n | n in members && n.price == p
        ensures n in levels[p].nodes
      {
        assert HomeOf(n);
      }
      forall q | q in levels && q != p
        ensures levels[q] != levels[p] && levels[q] in Repr
        ensures forall n :: n in levels[q].nodes ==> n !in levels[p].nodes && n in Repr
      {
        assert LevelAt(q);
        Apart(q, p);
      }
    }

    twostate predicate Untouched(q: int)
      reads this, Repr
    {
      && old(q in queues && q in levels) && q in queues && q in levels
      && queues[q] == old(queues[q]) && levels[q] == old(levels[q])
      && levels[q] in Repr && (forall n :: n in levels[q].nodes ==> n in Repr)
      && unchanged(levels[q]) && unchanged(levels[q].nodes)
    }

    /** After a change confined to one level the ladder is in shape again. */
    twostate lemma Reshaped(p: int)
      requires old(Shape()) && levels == old(levels) && old(Repr) <= Repr
      requires Keys() && LevelAt(p)
      requires forall q {:trigger Untouched(q)} :: q in levels && q != p ==> Untouched(q)
      requires forall n :: n in members <==> n in levels[p].nodes || (n in old(members) && n.price != p)
      ensures Shape()
    {
      forall q | q in levels && q != p
        ensures LevelAt(q)
      {
        assert old(LevelAt(q)) && Untouched(q);
        LevelKept(q);
      }
      forall n | n in members
        ensures HomeOf(n)
      {
        if n !in levels[p].nodes {
          assert old(HomeOf(n)) && Untouched(n.price);
        }
      }
    }

    /** A node that is no longer linked can change without the ladder noticing. */
    twostate lemma ShapeKept(node: OrderNode)
      requires old(Shape()) && unchanged(this) && node !in members
      requires unchanged(members) && forall p :: p in levels ==> unchanged(levels[p])
      ensures Shape()
    {
      forall p | p in levels
        ensures LevelAt(p)
      {
        assert old(LevelAt(p));
        LevelKept(p);
      }
      forall n | n in members
        ensures HomeOf(n)
      {
        assert old(HomeOf(n));
      }
    }

    lemma EmptyLevelAt(p: int)
      requires p in levels && p in queues && queues[p] == [] && levels[p] in Repr
      requires levels[p].side == side && levels[p].price == p && levels[p].Linked()
      requires levels[p].nodes == [] && levels[p].total == 0
      ensures LevelAt(p)
    {
    }

    constructor (side: Side)
      ensures Valid() && this.side == side && Orders() == [] && Repr == {} && members == {} && levels == map[]
    {
      this.side := side;
      prices, levels, queues, members, Repr := [], map[], map[], {}, {};
    }

    /** Where a key belongs among the keys of the ordered map. */
    method Slot(price: int) returns (k: nat)
      requires LadderOk(side, prices, queues) && price !in queues
      ensures k <= |prices|
      ensures forall i :: 0 <= i < k ==> Precedes(side, prices[i], price)
      ensures forall i :: k <= i < |prices| ==> Precedes(side, price, prices[i])
    {
      k := 0;
      while k < |prices| && Precedes(side, prices[k], price)
        invariant k <= |prices|
        invariant forall i :: 0 <= i < k ==> Precedes(side, prices[i], price)
      {
        k := k + 1;
      }
      if k < |prices| {
        assert prices[k] in queues;
      }
    }

    /** Level filed under a price, created empty if there is none. */
    method Emplace(price: int) returns (level: PriceLevel)
      requires Shape()
      modifies this
      ensures Shape()
      ensures price in levels && level == levels[price]
      ensures Orders() == old(Orders()) && members == old(members)
      ensures price in old(levels) ==> levels == old(levels) && queues == old(queues) && Repr == old(Repr)
      ensures price !in old(levels) ==>
                && fresh(level) && Repr == old(Repr) + {level}
                && levels == old(levels)[price := level] && queues == old(queues)[price := []]
    {
      hide LevelAt, PriceLevel.Linked, LadderOk, Flat;
      if price in levels {
        level := levels[price];
      } else {
        var k := Slot(price);
        level := new PriceLevel(side, price);
        OpenLevel(side, prices, queues, price, k);
        prices := prices[..k] + [price] + prices[k..];
        levels, queues, Repr := levels[price := level], queues[price := []], Repr + {level};
        forall p | p in levels
          ensures LevelAt(p)
        {
          if p == price {
            EmptyLevelAt(p);
          } else {
            assert old(LevelAt(p));
            OldNodes(p);
            LevelKept(p);
          }
        }
        forall n | n in members
          ensures HomeOf(n)
        {
          assert old(HomeOf(n));
        }
      }
    }

    twostate lemma OldNodes(p: int)
      requires old(LevelAt(p)) && old(members) <= members
      ensures forall n :: n in old(levels[p].nodes) ==> n in members
    {
    }

    /** Link a node behind the tail of an existing level. */
    method Enqueue(level: PriceLevel, node: OrderNode) returns (ghost safe: bool)
      requires Shape() && node.price in levels && levels[node.price] == level
      requires node !in Repr && node.side == side && node.active
      modifies this`queues, this`members, this`Repr, level, node`prev, node`next, level.nodes`next
      ensures Shape()
      ensures Orders() == Insert(side, old(Orders()), Order(node.orderId, node.price, node.quantity))
      ensures queues == old(queues)[node.price := old(queues[node.price]) + [Order(node.orderId, node.price, node.quantity)]]
      ensures members == old(members) + {node}
      ensures Repr == old(Repr) + {node}
      ensures (safe ==> InInt64(level.total)) && (Room(old(Orders()), node.quantity) ==> safe)
    {
      hide LevelAt, HomeOf, PriceLevel.Linked, LadderOk, Flat, Sum, Distinct, Remove, Insert, Room;
      ghost var price, o := node.price, Order(node.orderId, node.price, node.quantity);
      AllApart(price);
      LevelFacts(price);
      SumSnoc(level.orders, o);
      AppendToQueue(side, prices, queues, o);
      safe := InInt64(level.total + node.quantity);
      AppendFits(side, prices, queues, o);
      level.PushBack(node);
      queues, members, Repr := queues[price := level.orders], members + {node}, Repr + {node};
      LevelIntro(price);
      forall q | q in levels && q != price
        ensures Untouched(q)
      {
      }
      Reshaped(price);
    }

    /** Enqueue at the tail of the order's price level, creating the level if needed. */
    method Append(node: OrderNode) returns (ghost safe: bool)
      requires Shape() && node !in Repr && node.side == side && node.active
      modifies this, Repr, node
      ensures Shape()
      ensures Orders() == Insert(side, old(Orders()), Order(node.orderId, node.price, node.quantity))
      ensures members == old(members) + {node}
      ensures node.quantity == old(node.quantity) && node.active
      ensures old(Valid()) ==> Valid()
      ensures node in Repr && fresh(Repr - old(Repr) - {node})
      ensures Room(old(Orders()), node.quantity) ==> safe
    {
      hide LevelAt, PriceLevel.Linked, LadderOk, Flat;
      var level := Emplace(node.price);
      AllApart(node.price);
      LevelFacts(node.price);
      safe := Enqueue(level, node);
    }

    /** Unlink a node wherever it stands and take its quantity off the level's cached total. */
    method TakeOut(level: PriceLevel, node: OrderNode, ghost k: nat) returns (ghost safe: bool)
      requires Shape() && Distinct(Orders())
      requires node.price in levels && levels[node.price] == level && k < |level.nodes| && level.nodes[k] == node
      modifies this`queues, this`members, level, level.nodes`prev, level.nodes`next
      ensures Shape()
      ensures Orders() == Remove(old(Orders()), node.orderId)
      ensures members == old(members) - {node}
      ensures forall q :: q in queues && q != node.price ==> queues[q] == old(queues[q])
      ensures node.price in queues && (queues[node.price] == [] <==> level.head == null)
      ensures k == 0 ==> level.head == old(node.next)
      ensures node.prev == null && node.next == null
      ensures (safe ==> InInt64(level.total)) && (Room(old(Orders()), 0) ==> safe)
    {
      hide LevelAt, HomeOf, PriceLevel.Linked, LadderOk, Flat, Sum, Distinct, Remove, Insert, Room;
      ghost var price := node.price;
      AllApart(price);
      LevelFacts(price);
      SumDrop(level.orders, k);
      DetachFromQueue(side, prices, queues, price, k);
      safe := InInt64(level.total - node.quantity);
      TakeFits(side, prices, queues, price, k);
      level.Take(node, k);
      queues, members := queues[price := level.orders], members - {node};
      LevelIntro(price);
      forall q | q in levels && q != price
        ensures Untouched(q)
      {
      }
      Reshaped(price);
    }

    /** Unlink the best order and mark it dead. */
    method RetireBest(level: PriceLevel, node: OrderNode) returns (ghost safe: bool)
      requires Shape() && Distinct(Orders())
      requires prices != [] && prices[0] in levels && level == levels[prices[0]] && level.head == node
      modifies this`queues, this`members, Repr
      ensures Shape()
      ensures Orders() == Remove(old(Orders()), node.orderId)
      ensures node in old(members) && members == old(members) - {node}
      ensures !node.active && node.prev == null && node.next == null
      ensures level.head == old(node.next)
      ensures forall q :: q in queues && q != prices[0] ==> queues[q] == old(queues[q])
      ensures Room(old(Orders()), 0) ==> safe
    {
      hide Distinct, Remove, Room, LevelAt, HomeOf, Flat;
      BestFacts();
      safe := TakeOut(level, node, 0);
      label unlinked:
      node.active := false;
      ShapeKept@unlinked(node);
    }

    /** Nothing but the contents of the best level has changed. */
    twostate predicate OnlyBestChanged()
      reads this
    {
      && prices == old(prices) && levels == old(levels) && Repr == old(Repr)
      && queues.Keys == old(queues.Keys)
      && forall q :: q in queues && (prices == [] || q != prices[0]) ==> queues[q] == old(queues[q])
    }

    /** Trade part of the best order in place. */
    method TradeBest(level: PriceLevel, quantity: int) returns (ghost safe: bool)
      requires Shape() && prices != [] && prices[0] in levels && levels[prices[0]] == level
      requires queues[prices[0]] != []
      modifies this`queues, level, level.nodes`quantity
      ensures Shape()
      ensures var s := old(Orders());
        s != [] && Orders() == [s[0].(qty := s[0].qty - quantity)] + s[1..]
      ensures members == old(members) && old(queues[prices[0]]) != []
      ensures queues.Keys == old(queues.Keys)
      ensures forall q :: q in queues && q != prices[0] ==> queues[q] == old(queues[q])
      ensures safe ==> InInt64(level.total) && InInt64(old(Orders())[0].qty - quantity)
      ensures Room(old(Orders()), 0) && 0 <= quantity <= old(Orders())[0].qty ==> safe
    {
      hide LevelAt, HomeOf, PriceLevel.Linked, LadderOk, Flat, Sum, Room;
      ghost var price := prices[0];
      BestHead(side, prices, queues);
      AllApart(price);
      LevelFacts(price);
      ghost var o := level.orders[0].(qty := level.orders[0].qty - quantity);
      TradeSum(level.orders, quantity);
      ShrinkBest(side, prices, queues, o);
      TakeFits(side, prices, queues, price, 0);
      safe := InInt64(level.total - quantity) && InInt64(level.orders[0].qty - quantity);
      level.TradeHead(quantity);
      queues := queues[price := level.orders];
      LevelIntro(price);
      forall q | q in levels && q != price
        ensures Untouched(q)
      {
      }
      Reshaped(price);
    }

    /** Erase a level whose chain is empty. */
    method Erase(k: nat)
      requires Shape() && k < |prices| && prices[k] in queues && queues[prices[k]] == []
      modifies this`prices, this`levels, this`queues
      ensures Shape()
      ensures Orders() == old(Orders()) && members == old(members)
      ensures queues == old(queues) - {old(prices)[k]}
      ensures prices == old(prices)[..k] + old(prices)[k + 1..]
    {
      hide LevelAt, PriceLevel.Linked, LadderOk, Flat;
      var price := prices[k];
      AllApart(price);
      LevelFacts(price);
      CloseLevel(side, prices, queues, k);
      prices, levels, queues := prices[..k] + prices[k + 1..], levels - {price}, queues - {price};
      forall q | q in levels
        ensures LevelAt(q)
      {
        assert old(LevelAt(q));
        OldNodes(q);
        LevelKept(q);
      }
      forall n | n in members
        ensures HomeOf(n)
      {
        assert old(HomeOf(n));
      }
    }

    /** Erase the best level once its chain is empty. */
    method PopBestLevel()
      requires Shape() && (prices != [] ==> prices[0] in queues && queues[prices[0]] == [])
      modifies this`prices, this`levels, this`queues
      ensures Shape()
      ensures Orders() == old(Orders()) && members == old(members)
      ensures old(prices) == [] ==> unchanged(this)
      ensures old(prices) != [] ==> prices == old(prices)[1..] && queues == old(queues) - {old(prices)[0]}
    {
      if prices != [] {
        Erase(0);
      }
    }

    method IndexOf(price: int) returns (k: nat)
      requires LadderOk(side, prices, queues) && price in queues
      ensures k < |prices| && prices[k] == price
    {
      k := 0;
      while prices[k] != price
        invariant k < |prices| && price in prices[k..]
        decreases |prices| - k
      {
        assert prices[k..] == [prices[k]] + prices[k + 1..];
        k := k + 1;
      }
    }

    /** Unlink an order from its price level and erase the level if that empties it. */
    method Detach(node: OrderNode) returns (ghost safe: bool)
      requires Shape() && Distinct(Orders())
      requires node.price in levels ==> node in members
      modifies this, Repr
      ensures Shape() && Repr == old(Repr)
      ensures node.price !in old(levels) ==> unchanged(this) && unchanged(Repr)
      ensures node.price in old(levels) ==>
        && Orders() == Remove(old(Orders()), node.orderId) && members == old(members) - {node}
        && node.prev == null && node.next == null
      ensures old(Valid()) ==> Valid()
      ensures node.active == old(node.active) && node.quantity == old(node.quantity)
      ensures Room(old(Orders()), 0) ==> safe
    {
      hide LevelAt, HomeOf, PriceLevel.Linked, LadderOk, Flat, Remove, Distinct, Room;
      safe := true;
      if node.price !in levels {
        return;
      }
      var level := levels[node.price];
      AllApart(node.price);
      LevelFacts(node.price);
      ghost var k: nat :| k < |level.nodes| && level.nodes[k] == node;
      safe := TakeOut(level, node, k);
      if level.head == null {
        var at := IndexOf(node.price);
        Erase(at);
      }
    }

    /** Detach an order and mark it dead. */
    method Withdraw(node: OrderNode) returns (ghost safe: bool)
      requires Valid() && Distinct(Orders()) && node in members
      modifies this, Repr
      ensures Valid() && Repr == old(Repr)
      ensures Orders() == Remove(old(Orders()), node.orderId) && members == old(members) - {node}
      ensures !node.active && node.prev == null && node.next == null
      ensures Room(old(Orders()), 0) ==> safe
    {
      hide LevelAt, HomeOf, PriceLevel.Linked, LadderOk, Flat, Remove, Distinct, Room;
      MemberFacts(node);
      safe := Detach(node);
      label detached:
      node.active := false;
      ShapeKept@detached(node);
    }

    /** Quantity at or through a limit, added up level by level from the cached totals and capped at `need`. */
    method FillableQuantity(limit: int, need: int) returns (available: int, ghost safe: bool)
      requires Shape() && need > 0 && Positive(Orders())
      ensures available == Min(need, Available(side, Orders(), limit))
      ensures var may := Tradable(Opposite(side), Orders(), limit);
        available == if need <= may then need else may
      ensures Room(Orders(), 0) ==> safe
    {
      available, safe := 0, true;
      AvailableIsTradable(Opposite(side), Orders(), limit);
      AvailableBounds(side, Orders(), limit);
      for k := 0 to |prices|
        invariant 0 <= available < need
        invariant available + Available(side, Flat(prices[k..], queues), limit) == Available(side, Orders(), limit)
        invariant Room(Orders(), 0) ==> safe
      {
        hide LevelAt, HomeOf, PriceLevel.Linked, Flat, Available, Tradable;
        var price := prices[k];
        Probe(k, limit);
        assert prices[k..][1..] == prices[k + 1..];
        if !Crosses(side, limit, price) {
          return;
        }
        safe := safe && InInt64(available + levels[price].total);
        available := available + levels[price].total;
        if available >= need {
          return need, safe;
        }
      }
    }

    /** What the probe sees at the k-th level. */
    lemma Probe(k: nat, limit: int)
      requires Shape() && k < |prices| && Positive(Orders())
      ensures prices[k] in levels && levels[prices[k]].total >= 0
      ensures var rest := Available(side, Flat(prices[k + 1..], queues), limit);
        && rest >= 0
        && Available(side, Flat(prices[k..], queues), limit)
           == if Crosses(side, limit, prices[k]) then levels[prices[k]].total + rest else 0
    {
      var p := prices[k];
      assert LevelAt(p);
      var here := prices[k..];
      assert here[1..] == prices[k + 1..] && here[0] == p;
      ProbeLevel(side, here, queues, limit);
      QueueWithinSide(side, prices, queues, p);
      FlatSuffix(prices, queues, k + 1);
      AvailableBounds(side, Flat(prices[k + 1..], queues), limit);
    }

    /** A linked node is live and stands for an order of its side. */
    lemma MemberFacts(n: OrderNode)
      requires Shape() && n in members
      ensures n.side == side && n.active && n.price in levels
      ensures Order(n.orderId, n.price, n.quantity) in Orders()
    {
      assert HomeOf(n) && LevelAt(n.price);
      var level := levels[n.price];
      var i :| 0 <= i < |level.nodes| && level.nodes[i] == n;
      assert level.orders[i] in queues[n.price];
      FlatMember(prices, queues, level.orders[i]);
    }

    /** An order of the side is carried by exactly the node standing for it. */
    lemma OrderFacts(o: Order) returns (n: OrderNode)
      requires Shape() && o in Orders()
      ensures n in members && n.orderId == o.id && n.price == o.price && n.quantity == o.qty
    {
      FlatMember(prices, queues, o);
      assert LevelAt(o.price);
      var level := levels[o.price];
      var i :| 0 <= i < |level.orders| && level.orders[i] == o;
      n := level.nodes[i];
      assert n in level.nodes;
    }

    lemma NoOrders()
      requires prices == []
      ensures Orders() == []
    {
    }

    /** The best level carries the front of the flat sequence. */
    lemma BestFacts()
      requires Shape() && prices != []
      ensures prices[0] in levels && prices[0] in queues
      ensures var level := levels[prices[0]];
        && level in Repr && (forall n :: n in level.nodes ==> n in Repr)
        && (level.head == null <==> queues[prices[0]] == [])
        && (level.head != null ==>
              && level.head in members && level.nodes != [] && level.nodes[0] == level.head
              && Orders() != []
              && Orders()[0] == Order(level.head.orderId, prices[0], level.head.quantity)
              && level.head.price == prices[0])
    {
      BestHead(side, prices, queues);
      assert LevelAt(prices[0]);
    }

    lemma LevelIntro(p: int)
      requires p in levels && p in queues && levels[p] in Repr
      requires forall n :: n in levels[p].nodes ==> n in members && n in Repr
      requires levels[p].side == side && levels[p].price == p && levels[p].Linked()
      requires levels[p].orders == queues[p] && levels[p].total == Sum(queues[p])
      ensures LevelAt(p)
    {
    }

    lemma LevelFacts(p: int)
      requires LevelAt(p)
      ensures levels[p] in Repr && levels[p].Linked() && levels[p].orders == queues[p]
      ensures levels[p].side == side && levels[p].price == p && levels[p].total == Sum(queues[p])
      ensures forall n :: n in levels[p].nodes ==> n in members && n in Repr
      ensures var l := levels[p];
        && |l.nodes| == |l.orders|
        && forall i :: 0 <= i < |l.nodes| ==> l.orders[i].qty == l.nodes[i].quantity
    {
    }
  }
}
