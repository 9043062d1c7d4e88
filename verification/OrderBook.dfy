/** The single-symbol book: two ladders of linked nodes and one id lookup. */
module OrderBook {
  import opened Messages
  import opened Reference
  import opened BookInvariant
  import opened Ladder
  import opened PriceLevels
  import opened BookSides
  import opened Limits

  /** A sweep in progress: `rows` have been emitted, and carrying on from the
      current orders and quantity gives what the whole sweep gives. */
  ghost predicate Resumes(side: Side, id: int, limit: int, whole: Matched,
                          rows: seq<OutputEvent>, s: seq<Order>, left: int) {
    var m := Match(side, s, id, limit, left);
    whole == Matched(rows + m.rows, m.rest, m.left)
  }

  /** One trade against the front order is one step of the sweep. */
  lemma ResumesStep(side: Side, id: int, limit: int, whole: Matched, rows: seq<OutputEvent>, s: seq<Order>, left: int)
    requires Resumes(side, id, limit, whole, rows, s, left)
    requires left > 0 && s != [] && Crosses(side, limit, s[0].price)
    ensures s[0].qty <= left ==>
      Resumes(side, id, limit, whole, rows + [Trade(id, s[0].id, s[0].qty), Filled(s[0].id, s[0].qty)],
              s[1..], left - s[0].qty)
    ensures s[0].qty > left ==>
      Resumes(side, id, limit, whole, rows + [Trade(id, s[0].id, left), Resting(s[0].id, left, s[0].qty - left)],
              [s[0].(qty := s[0].qty - left)] + s[1..], 0)
  {
  }

  /** The lookup is a bijection between ids and linked nodes. */
  ghost predicate Indexes(lookup: map<int, OrderNode>, nodes: set<OrderNode>) {
    && (forall id :: id in lookup ==> lookup[id].orderId == id && lookup[id] in nodes)
    && (forall n :: n in nodes ==> n.orderId in lookup && lookup[n.orderId] == n)
  }

  lemma IndexesDrop(lookup: map<int, OrderNode>, nodes: set<OrderNode>, n: OrderNode)
    requires Indexes(lookup, nodes) && n in nodes
    ensures Indexes(lookup - {n.orderId}, nodes - {n})
  {
  }

  lemma IndexesAdd(lookup: map<int, OrderNode>, nodes: set<OrderNode>, n: OrderNode)
    requires Indexes(lookup, nodes) && n.orderId !in lookup
    ensures Indexes(lookup[n.orderId := n], nodes + {n})
  {
  }

  /** A sweep that stops here has done everything. */
  lemma ResumesDone(side: Side, id: int, limit: int, whole: Matched, rows: seq<OutputEvent>, s: seq<Order>, left: int)
    requires Resumes(side, id, limit, whole, rows, s, left)
    requires left <= 0 || s == [] || !Crosses(side, limit, s[0].price)
    ensures whole == Matched(rows, s, left)
  {
  }

  lemma ResumesStart(side: Side, id: int, limit: int, s: seq<Order>, need: int)
    ensures Resumes(side, id, limit, Match(side, s, id, limit, need), [], s, need)
  {
  }

  lemma ResumesTrans(side: Side, id: int, limit: int, whole: Matched, rows: seq<OutputEvent>, s: seq<Order>, left: int,
                     more: seq<OutputEvent>, s': seq<Order>, left': int)
    requires Resumes(side, id, limit, whole, rows, s, left)
    requires Resumes(side, id, limit, Match(side, s, id, limit, left), more, s', left')
    ensures Resumes(side, id, limit, whole, rows + more, s', left')
  {
  }

  /** Each side's true resting quantity fits the machine's type. */
  ghost predicate Within(b: Book) {
    Sum(b.bids) <= INT64_MAX && Sum(b.asks) <= INT64_MAX
  }

  ghost function QuantityOf(nodes: seq<OrderNode>): int
    reads nodes
  {
    if nodes == [] then 0 else QuantityOf(nodes[..|nodes| - 1]) + nodes[|nodes| - 1].quantity
  }

  lemma {:induction false} SumOfNodes(level: PriceLevel, k: nat)
    requires level.Linked() && k <= |level.nodes|
    ensures QuantityOf(level.nodes[..k]) == Sum(level.orders[..k])
  {
    if k > 0 {
      SumOfNodes(level, k - 1);
      assert level.nodes[..k][..k - 1] == level.nodes[..k - 1];
      assert level.orders[..k] == level.orders[..k - 1] + [level.orders[k - 1]];
      SumSnoc(level.orders[..k - 1], level.orders[k - 1]);
    }
  }

  class Clob {
    const bids: BookSide
    const asks: BookSide
    var lookup: map<int, OrderNode>
    var output: seq<OutputEvent>  // what the emitter has been given
    ghost var safe: bool          // every quantity computed so far fits the machine's type

    function SideBook(side: Side): BookSide {
      if side.Buy? then bids else asks
    }

    ghost function Abs(): Book
      reads bids, asks
    {
      Book(bids.Orders(), asks.Orders())
    }

    /** The two ladders share no object with each other or with the book. */
    ghost predicate Separate()
      reads this, bids, asks
    {
      && bids.side == Buy && asks.side == Sell && bids != asks
      && bids.Repr !! asks.Repr && bids.members !! asks.members
    }

    ghost predicate Coupled()
      reads this, bids, asks
    {
      Indexes(lookup, bids.members + asks.members)
    }

    ghost predicate Consistent()
      reads this, bids, asks, bids.Repr, asks.Repr
    {
      Separate() && bids.Valid() && asks.Valid() && Coupled()
    }

    ghost predicate Valid()
      reads this, bids, asks, bids.Repr, asks.Repr
    {
      Consistent() && WellFormed(Abs())
    }

    /** What the invariant means for one level, in terms of the nodes themselves: a non-empty chain of
        live nodes of that side and price with positive quantities, whose cached total is their sum,
        and each of which the lookup finds under its id. */
    lemma LevelInvariant(side: Side, p: int)
      requires Valid() && p in SideBook(side).levels
      ensures var level := SideBook(side).levels[p];
        && level.nodes != [] && level.Chained()
        && level.total == QuantityOf(level.nodes)
        && forall n :: n in level.nodes ==>
             && n.side == side && n.price == p && n.active && n.quantity > 0
             && n.orderId in lookup && lookup[n.orderId] == n
    {
      var book := SideBook(side);
      assert book.LevelAt(p);
      var level := book.levels[p];
      SumOfNodes(level, |level.nodes|);
      assert level.nodes[..|level.nodes|] == level.nodes && level.orders[..|level.orders|] == level.orders;
      forall n | n in level.nodes
        ensures n.quantity > 0
      {
        book.MemberFacts(n);
        assert Order(n.orderId, n.price, n.quantity) in Abs().On(side);
      }
    }

    /** As long as both sides' totals fit, so does every cached total and every stored quantity. */
    lemma StoredQuantitiesFit(side: Side, p: int)
      requires Valid() && Within(Abs()) && p in SideBook(side).levels
      ensures var level := SideBook(side).levels[p];
        InInt64(level.total) && forall n :: n in level.nodes ==> InInt64(n.quantity)
    {
      var book := SideBook(side);
      LevelInvariant(side, p);
      assert book.LevelAt(p);
      SideOkParts(side, Abs().On(side));
      QueueWithinSide(side, book.prices, book.queues, p);
      var level := book.levels[p];
      forall n | n in level.nodes
        ensures InInt64(n.quantity)
      {
        book.MemberFacts(n);
        MemberWithinSum(Abs().On(side), Order(n.orderId, n.price, n.quantity));
      }
    }

    /** Conversely, whatever the lookup finds is linked at its own price on its own side. */
    lemma LookupInvariant(id: int)
      requires Valid() && id in lookup
      ensures var n := lookup[id];
        n.orderId == id && n.price in SideBook(n.side).levels && n in SideBook(n.side).levels[n.price].nodes
    {
      var n := lookup[id];
      Owner(n);
      assert SideBook(n.side).HomeOf(n);
    }

    constructor ()
      ensures Valid() && Abs() == EmptyBook && output == [] && safe
      ensures fresh(bids) && fresh(asks) && fresh(bids.Repr) && fresh(asks.Repr)
    {
      bids := new BookSide(Buy);
      asks := new BookSide(Sell);
      lookup, output, safe := map[], [], true;
    }

    /** Drop a filled order from its level and from the lookup. */
    method RetireResting(opposite: BookSide, level: PriceLevel, node: OrderNode) returns (ghost ok: bool)
      requires opposite == bids || opposite == asks
      requires Separate() && opposite.Shape() && Coupled() && Distinct(opposite.Orders())
      requires opposite.prices != [] && opposite.prices[0] in opposite.levels
      requires level == opposite.levels[opposite.prices[0]] && level.head == node
      modifies this`lookup, opposite, opposite.Repr
      ensures Separate() && opposite.Shape() && Coupled()
      ensures opposite.OnlyBestChanged()
      ensures opposite.Orders() == Remove(old(opposite.Orders()), node.orderId)
      ensures level.head == old(node.next)
      ensures !node.active && node.prev == null && node.next == null && node.orderId !in lookup
      ensures Room(old(opposite.Orders()), 0) ==> ok
    {
      hide Distinct, Remove, Room, BookSide.LevelAt, BookSide.HomeOf, LadderOk, Flat, Indexes;
      ok := opposite.RetireBest(level, node);
      IndexesDrop(lookup, old(bids.members + asks.members), node);
      assert bids.members + asks.members == old(bids.members + asks.members) - {node};
      lookup := lookup - {node.orderId};
    }
  
    /** Trade part of the head order, which keeps its place. */
    method ReduceResting(opposite: BookSide, level: PriceLevel, trade: int) returns (ghost ok: bool)
      requires opposite == bids || opposite == asks
      requires Separate() && opposite.Shape() && Coupled()
      requires opposite.prices != [] && opposite.prices[0] in opposite.levels
      requires level == opposite.levels[opposite.prices[0]] && level.head != null
      modifies opposite, opposite.Repr
      ensures Separate() && opposite.Shape() && Coupled()
      ensures opposite.OnlyBestChanged()
      ensures var s := old(opposite.Orders());
        s != [] && opposite.Orders() == [s[0].(qty := s[0].qty - trade)] + s[1..]
      ensures Room(old(opposite.Orders()), 0) && 0 <= trade <= old(opposite.Orders())[0].qty ==> ok
    {
      hide Room, BookSide.LevelAt, BookSide.HomeOf, LadderOk, Flat, Indexes;
      opposite.BestFacts();
      ok := opposite.TradeBest(level, trade);
    }

    ghost predicate Sweeping(opposite: BookSide)
      reads this, bids, asks, bids.Repr, asks.Repr
    {
      && (opposite == bids || opposite == asks)
      && Separate() && opposite.Shape() && Coupled()
      && SideOk(opposite.side, opposite.Orders())
    }

    /** One round of the level loop: trade with the order at the head. */
    method TradeWithHead(opposite: BookSide, level: PriceLevel, id: int, left: int, filled: int)
      returns (trade: int, ghost ok: bool)
      requires Sweeping(opposite) && left > 0
      requires opposite.prices != [] && opposite.prices[0] in opposite.levels
      requires level == opposite.levels[opposite.prices[0]] && level.head != null
      modifies this`lookup, this`output, opposite, opposite.Repr
      ensures Sweeping(opposite)
      ensures opposite.OnlyBestChanged()
      ensures var s := old(opposite.Orders());
        && s != [] && s[0].price == opposite.prices[0] && 0 < trade == Min(left, s[0].qty)
        && (s[0].qty <= left ==>
              && opposite.Orders() == s[1..] && level.head == old(level.head.next)
              && output == old(output) + [Trade(id, s[0].id, s[0].qty), Filled(s[0].id, s[0].qty)])
        && (s[0].qty > left ==>
              && opposite.Orders() == [s[0].(qty := s[0].qty - left)] + s[1..]
              && output == old(output) + [Trade(id, s[0].id, left), Resting(s[0].id, left, s[0].qty - left)])
      ensures ok ==> InInt64(filled + trade) && InInt64(left - trade)
      ensures Room(old(opposite.Orders()), 0) && 0 <= filled && InInt64(filled + left) ==> ok
    {
      hide BookSide.LevelAt, BookSide.HomeOf, LadderOk, Flat, Indexes, Room, SideOk, Distinct, Positive, Sorted;
      opposite.BestFacts();
      SideOkTail(opposite.side, opposite.Orders());
      SideOkParts(opposite.side, opposite.Orders());
      var resting := level.head;
      var restingQuantity := resting.quantity;
      trade := Min(left, restingQuantity);
      var remaining := restingQuantity - trade;
      ghost var fits := InInt64(filled + trade) && InInt64(left - trade) && InInt64(remaining);
      RoomHead(opposite.Orders());
      output := output + [Trade(id, resting.orderId, trade)];
      if remaining == 0 {
        output := output + [Filled(resting.orderId, trade)];
        ok := RetireResting(opposite, level, resting);
      } else {
        SideOkShrinkHead(opposite.side, opposite.Orders(), remaining);
        ok := ReduceResting(opposite, level, trade);
        output := output + [Resting(resting.orderId, trade, remaining)];
      }
      ok := ok && fits;
    }
  
    /** Drain one level in arrival order; the caller erases the level if that empties it. */
    method MatchLevel(opposite: BookSide, level: PriceLevel, id: int, limit: int, need: int)
      returns (left: int, filled: int, ghost ok: bool)
      requires Sweeping(opposite) && need > 0
      requires opposite.prices != [] && opposite.prices[0] in opposite.levels
      requires level == opposite.levels[opposite.prices[0]] && Crosses(opposite.side, limit, opposite.prices[0])
      modifies this`lookup, this`output, opposite, opposite.Repr
      ensures Sweeping(opposite)
      ensures opposite.OnlyBestChanged()
      ensures 0 <= left <= need && filled == need - left && (left > 0 ==> level.head == null)
      ensures |output| >= |old(output)| && output[..|old(output)|] == old(output)
      ensures Resumes(opposite.side, id, limit, Match(opposite.side, old(opposite.Orders()), id, limit, need),
                      output[|old(output)|..], opposite.Orders(), left)
      ensures Room(old(opposite.Orders()), 0) && InInt64(need) ==> ok && Room(opposite.Orders(), 0)
    {
      hide BookSide.Orders, BookSide.Shape, Indexes, Room, SideOk, Match;
      ghost var whole := Match(opposite.side, opposite.Orders(), id, limit, need);
      ghost var rows: seq<OutputEvent> := [];
      left, filled, ok := need, 0, true;
      var cursor := level.head;
      while cursor != null && left > 0
        invariant Sweeping(opposite)
        invariant opposite.OnlyBestChanged()
        invariant 0 <= left <= need && filled == need - left && (left > 0 ==> cursor == level.head)
        invariant output == old(output) + rows
        invariant Resumes(opposite.side, id, limit, whole, rows, opposite.Orders(), left)
        invariant Room(old(opposite.Orders()), 0) && InInt64(need) ==> ok && Room(opposite.Orders(), 0)
        decreases |opposite.Orders()|, left
      {
        var next := cursor.next;
        ghost var s := opposite.Orders();
        var trade, fits := TradeWithHead(opposite, level, id, left, filled);
        ResumesStep(opposite.side, id, limit, whole, rows, s, left);
        RoomAfterTrade(s, trade);
        filled, left, ok := filled + trade, left - trade, ok && fits;
        rows := output[|old(output)|..];
        cursor := next;
      }
    }
  
    /** Walk the opposite ladder best level first until the order is flat or its limit no longer crosses. */
    method MatchAgainst(opposite: BookSide, id: int, limit: int, need: int)
      returns (left: int, filled: int, ghost ok: bool)
      requires Sweeping(opposite) && opposite.Valid() && need > 0
      modifies this`lookup, this`output, opposite, opposite.Repr
      ensures Sweeping(opposite) && opposite.Valid() && opposite.Repr == old(opposite.Repr)
      ensures 0 <= left <= need && filled == need - left
      ensures var m := Match(opposite.side, old(opposite.Orders()), id, limit, need);
        && opposite.Orders() == m.rest && left == m.left && output == old(output) + m.rows
        && TradesFair(Opposite(opposite.side), old(opposite.Orders()), id, limit, need, m.rows)
      ensures Room(old(opposite.Orders()), 0) && InInt64(need) ==> ok
    {
      hide BookSide.Orders, BookSide.LevelAt, BookSide.HomeOf, LadderOk, Indexes, Room, SideOk, Match, Resumes, TradesFair;
      SweepTradesFair(opposite.side, opposite.Orders(), id, limit, need);
      ghost var whole := Match(opposite.side, opposite.Orders(), id, limit, need);
      ghost var rows: seq<OutputEvent> := [];
      ResumesStart(opposite.side, id, limit, opposite.Orders(), need);
      left, filled, ok := need, 0, true;
      while left > 0
        invariant Sweeping(opposite) && opposite.Valid() && opposite.Repr == old(opposite.Repr)
        invariant 0 <= left <= need && filled == need - left
        invariant output == old(output) + rows
        invariant Resumes(opposite.side, id, limit, whole, rows, opposite.Orders(), left)
        invariant Room(old(opposite.Orders()), 0) && InInt64(need) ==> ok && Room(opposite.Orders(), 0)
        decreases |opposite.prices|, left
      {
        if opposite.prices == [] {
          opposite.NoOrders();
          break;
        }
        opposite.BestFacts();
        var price := opposite.prices[0];
        if !Crosses(opposite.side, limit, price) {
          break;
        }
        var level := opposite.levels[price];
        ghost var s, before := opposite.Orders(), left;
        var more;
        ghost var fits;
        left, more, fits := MatchLevel(opposite, level, id, limit, left);
        filled, ok := filled + more, ok && fits && InInt64(filled + more);
        ghost var emitted := output[|old(output) + rows|..];
        ResumesTrans(opposite.side, id, limit, whole, rows, s, before, emitted, opposite.Orders(), left);
        rows := rows + emitted;
        opposite.BestFacts();
        if level.head == null {
          opposite.PopBestLevel();
        }
      }
      ResumesDone(opposite.side, id, limit, whole, rows, opposite.Orders(), left);
    }
  
    /** The ids in the lookup are exactly the ids of resting orders. */
    lemma LookupIds(id: int)
      requires Consistent()
      ensures id in lookup <==> id in BookIds(Abs())
    {
      if id in lookup {
        var n := lookup[id];
        var side := if n in bids.members then bids else asks;
        side.MemberFacts(n);
      }
      if id in Ids(bids.Orders()) {
        var o :| o in bids.Orders() && o.id == id;
        var n := bids.OrderFacts(o);
      }
      if id in Ids(asks.Orders()) {
        var o :| o in asks.Orders() && o.id == id;
        var n := asks.OrderFacts(o);
      }
    }

    /** Allocate a node for the residue and link it, unless its id is already resting. */
    method RestOrder(id: int, side: Side, price: int, quantity: int) returns (rested: bool, ghost ok: bool)
      requires Consistent()
      modifies this`lookup, SideBook(side), SideBook(side).Repr
      ensures Consistent()
      ensures rested <==> id !in BookIds(old(Abs()))
      ensures Abs() == if rested
                       then old(Abs()).With(side, Insert(side, old(Abs()).On(side), Order(id, price, quantity)))
                       else old(Abs())
      ensures fresh(bids.Repr - old(bids.Repr)) && fresh(asks.Repr - old(asks.Repr))
      ensures !rested || Room(old(Abs()).On(side), quantity) ==> ok
    {
      hide BookSide.LevelAt, BookSide.HomeOf, LadderOk, Flat, Insert, Indexes, Room;
      LookupIds(id);
      var node := new OrderNode(id, side, price, quantity);
      if id in lookup {
        node.active := false;
        return false, true;
      }
      IndexesAdd(lookup, bids.members + asks.members, node);
      lookup := lookup[id := node];
      var book := SideBook(side);
      ok := book.Append(node);
      assert bids.members + asks.members == old(bids.members + asks.members) + {node};
      rested := true;
    }
  
    /** The fill-or-kill probe against the cached totals. */
    method FillableAtLimit(e: InputEvent) returns (fillable: bool, ghost ok: bool)
      requires Valid() && Accepted(e)
      ensures fillable <==> e.quantity <= Available(Opposite(e.side), Abs().On(Opposite(e.side)), e.price)
      ensures fillable <==> e.quantity <= Tradable(e.side, Abs().On(Opposite(e.side)), e.price)
      ensures Within(Abs()) ==> ok
    {
      var available;
      available, ok := SideBook(Opposite(e.side)).FillableQuantity(e.price, e.quantity);
      fillable := available >= e.quantity;
      AvailableIsTradable(e.side, Abs().On(Opposite(e.side)), e.price);
    }

    method SweepOpposite(e: InputEvent) returns (left: int, filled: int, ghost ok: bool)
      requires Valid() && Accepted(e)
      modifies this`lookup, this`output, SideBook(Opposite(e.side)), SideBook(Opposite(e.side)).Repr
      ensures Valid() && bids.Repr == old(bids.Repr) && asks.Repr == old(asks.Repr)
      ensures var m := Sweep(old(Abs()), e);
        && Abs() == old(Abs()).With(Opposite(e.side), m.rest) && output == old(output) + m.rows
        && left == m.left && filled == e.quantity - m.left
      ensures Within(old(Abs())) && InInt64(e.quantity) ==> ok
    {
      hide BookSide.LevelAt, BookSide.HomeOf, LadderOk, Flat, Match, Indexes, SideOk, Positive;
      SweepWellFormed(Abs(), e);
      SideOkParts(Buy, bids.Orders());
      SideOkParts(Sell, asks.Orders());
      left, filled, ok := MatchAgainst(SideBook(Opposite(e.side)), e.orderId, e.price, e.quantity);
    }

    /** Terminal row for an add, after resting its residue if it may rest. */
    method SettleResidue(e: InputEvent, left: int, filled: int) returns (ghost ok: bool)
      requires Valid() && Accepted(e) && 0 <= left <= e.quantity && filled == e.quantity - left
      requires WellFormed(Settle(Abs(), e, left).book)
      modifies this`lookup, this`output, SideBook(e.side), SideBook(e.side).Repr
      ensures Valid()
      ensures fresh(bids.Repr - old(bids.Repr)) && fresh(asks.Repr - old(asks.Repr))
      ensures var r := Settle(old(Abs()), e, left);
        Abs() == r.book && output == old(output) + r.rows
      ensures Within(Abs()) ==> ok
    {
      hide BookSide.LevelAt, BookSide.HomeOf, LadderOk, Flat, Insert, Indexes, SideOk, Sum, Room;
      ok := true;
      if left == 0 {
        output := output + [Filled(e.orderId, filled)];
      } else if e.tif.Gtc? {
        SettleRoom(Abs(), e, left);
        var rested;
        rested, ok := RestOrder(e.orderId, e.side, e.price, left);
        if !rested {
          output := output + [Rejected(e.orderId, DuplicateOrderId)];
        } else {
          output := output + [Resting(e.orderId, filled, left)];
        }
      } else {
        output := output + [Cancelled(e.orderId, filled, left, if e.tif.Ioc? then ImmediateOrCancel else FillOrKill)];
      }
    }

    /** Sweep the opposite side, then settle what is left. */
    method Execute(e: InputEvent) returns (ghost ok: bool)
      requires Valid() && Accepted(e)
      modifies this`lookup, this`output, bids, asks, bids.Repr, asks.Repr
      ensures Valid()
      ensures fresh(bids.Repr - old(bids.Repr)) && fresh(asks.Repr - old(asks.Repr))
      ensures var m := Sweep(old(Abs()), e);
        var r := Settle(old(Abs()).With(Opposite(e.side), m.rest), e, m.left);
        Abs() == r.book && output == old(output) + (m.rows + r.rows)
      ensures Within(old(Abs())) && Within(Abs()) && InInt64(e.quantity) ==> ok
    {
      hide BookSide.Valid, Flat, Sweep, Settle, Indexes, Within, WellFormed;
      SweepWellFormed(Abs(), e);
      ghost var m := Sweep(Abs(), e);
      SettleWellFormed(Abs().With(Opposite(e.side), m.rest), e, m.left);
      var left, filled, swept := SweepOpposite(e);
      var settled := SettleResidue(e, left, filled);
      ok := swept && settled;
    }

    method AddOrder(e: InputEvent) returns (ghost ok: bool)
      requires Valid() && Accepted(e)
      modifies this`lookup, this`output, bids, asks, bids.Repr, asks.Repr
      ensures Valid()
      ensures fresh(bids.Repr - old(bids.Repr)) && fresh(asks.Repr - old(asks.Repr))
      ensures var r := AddAccepted(old(Abs()), e);
        Abs() == r.book && output == old(output) + r.rows
      ensures Within(old(Abs())) && Within(Abs()) && InInt64(e.quantity) ==> ok
    {
      hide BookSide.LevelAt, BookSide.HomeOf, LadderOk, Flat, Sweep, Settle, Indexes, Within, WellFormed;
      ok := true;
      if e.tif.Fok? {
        var fillable;
        fillable, ok := FillableAtLimit(e);
        if !fillable {
          output := output + [Cancelled(e.orderId, 0, e.quantity, FillOrKill)];
          return;
        }
      }
      var done := Execute(e);
      ok := ok && done;
    }

    method CancelNode(node: OrderNode) returns (ghost ok: bool)
      requires Valid() && node.orderId in lookup && lookup[node.orderId] == node
      modifies this`lookup, this`output, bids, asks, bids.Repr, asks.Repr
      ensures Valid() && bids.Repr == old(bids.Repr) && asks.Repr == old(asks.Repr)
      ensures var r := Cancel(old(Abs()), node.orderId);
        Abs() == r.book && output == old(output) + r.rows
      ensures !node.active && node.prev == null && node.next == null && node.orderId !in lookup
      ensures Within(old(Abs())) ==> ok
    {
      hide BookSide.LevelAt, BookSide.HomeOf, LadderOk, Flat, Remove, Cancel, Indexes, SideOk;
      Owner(node);
      var book := SideBook(node.side);
      SideOkParts(node.side, book.Orders());
      CancelResting(Abs(), node.side, Order(node.orderId, node.price, node.quantity));
      CancelWellFormed(Abs(), node.orderId);
      IndexesDrop(lookup, bids.members + asks.members, node);
      var cancelled := node.quantity;
      ok := book.Withdraw(node);
      assert bids.members + asks.members == old(bids.members + asks.members) - {node};
      lookup := lookup - {node.orderId};
      output := output + [Cancelled(node.orderId, 0, cancelled, UserRequest)];
    }

    /** A node in the lookup is linked on the ladder of its own side. */
    lemma Owner(node: OrderNode)
      requires Consistent() && node.orderId in lookup && lookup[node.orderId] == node
      ensures node in SideBook(node.side).members && node.active
      ensures Order(node.orderId, node.price, node.quantity) in Abs().On(node.side)
    {
      if node in bids.members {
        bids.MemberFacts(node);
      } else {
        asks.MemberFacts(node);
      }
    }

    method CancelOrder(id: int) returns (ghost ok: bool)
      requires Valid()
      modifies this`lookup, this`output, bids, asks, bids.Repr, asks.Repr
      ensures Valid() && bids.Repr == old(bids.Repr) && asks.Repr == old(asks.Repr)
      ensures var r := Cancel(old(Abs()), id);
        Abs() == r.book && output == old(output) + r.rows
      ensures Within(old(Abs())) ==> ok
    {
      hide BookSide.LevelAt, BookSide.HomeOf, LadderOk, Flat, Remove, Indexes, WellFormed;
      ok := true;
      if id <= 0 {
        output := output + [Rejected(id, InvalidOrderId)];
        return;
      }
      LookupIds(id);
      LookupKey(id);
      if id !in lookup || !lookup[id].active {
        CancelUnknown(Abs(), id);
        output := output + [Rejected(id, UnknownOrderId)];
        return;
      }
      ok := CancelNode(lookup[id]);
    }

    lemma LookupKey(id: int)
      requires Consistent()
      ensures id in lookup ==> lookup[id].orderId == id && lookup[id].active
    {
      if id in lookup {
        Owner(lookup[id]);
      }
    }

    /** Apply one event: the new state and the rows are those of the reference engine. */
    method Process(e: InputEvent)
      requires Valid()
      modifies this, bids, asks, bids.Repr, asks.Repr
      ensures Valid()
      ensures fresh(bids.Repr - old(bids.Repr)) && fresh(asks.Repr - old(asks.Repr))
      ensures Abs() == Step(old(Abs()), e).book
      ensures output == old(output) + Step(old(Abs()), e).rows
      ensures old(safe) && Within(old(Abs())) && Within(Abs()) && (e.AddOrder? ==> InInt64(e.quantity)) ==> safe
    {
      hide BookSide.LevelAt, BookSide.HomeOf, LadderOk, Flat, AddAccepted, Cancel, Indexes, WellFormed, Within;
      match e
      case AddOrder(id, side, quantity, price, tif) =>
        if id <= 0 {
          output := output + [Rejected(id, InvalidOrderId)];
        } else if quantity <= 0 {
          output := output + [Rejected(id, InvalidQuantity)];
        } else if price <= 0 {
          output := output + [Rejected(id, InvalidPrice)];
        } else {
          var ok := AddOrder(e);
          safe := safe && ok;
        }
      case CancelOrder(id) =>
        var ok := CancelOrder(id);
        safe := safe && ok;
      case EndOfInput =>
    }

    /** Apply a whole input: state and rows are those of the reference run, and as long as
        both sides stay within the machine's range no computed quantity leaves it. */
    method ProcessAll(events: seq<InputEvent>)
      requires Valid()
      modifies this, bids, asks, bids.Repr, asks.Repr
      ensures Valid()
      ensures Abs() == Run(old(Abs()), events).book
      ensures output == old(output) + Run(old(Abs()), events).rows
      ensures old(safe) && StaysWithin(old(Abs()), events) ==> safe
    {
      hide Valid, Abs, Step, Within;
      ghost var start := Abs();
      assert events[..0] == [];
      for i := 0 to |events|
        invariant Valid()
        invariant fresh(bids.Repr - old(bids.Repr)) && fresh(asks.Repr - old(asks.Repr))
        invariant Abs() == Run(start, events[..i]).book
        invariant output == old(output) + Run(start, events[..i]).rows
        invariant old(safe) && StaysWithin(start, events) ==> safe
      {
        RunSnoc(start, events, i);
        assert StaysWithin(start, events) ==>
          && Within(Run(start, events[..i]).book) && Within(Run(start, events[..i + 1]).book)
          && (events[i].AddOrder? ==> InInt64(events[i].quantity));
        Process(events[i]);
      }
      assert events[..|events|] == events;
    }
  }

  /** Throughout a run both sides hold, and every add asks for, no more than the machine's range. */
  ghost predicate StaysWithin(b: Book, events: seq<InputEvent>) {
    && (forall k :: 0 <= k <= |events| ==> Within(Run(b, events[..k]).book))
    && (forall k :: 0 <= k < |events| && events[k].AddOrder? ==> InInt64(events[k].quantity))
  }

  /** A side that fits after an order rests had room for the order. */
  lemma SettleRoom(b: Book, e: InputEvent, left: int)
    requires WellFormed(b) && Accepted(e) && 0 <= left && e.tif.Gtc?
    ensures left > 0 && e.orderId !in BookIds(b) && Within(Settle(b, e, left).book) ==> Room(b.On(e.side), left)
  {
    InsertSum(e.side, b.On(e.side), Order(e.orderId, e.price, left));
  }
}
