/** Limits and queue places, stated on the prices themselves: who may trade with whom, how much
    that comes to, and where an order is filed. */
module Limits {
  import opened Messages
  import opened Reference
  import opened BookInvariant
  import opened Priority
  import opened Rejection

  /** What the orders priced within a limit add up to: for a buy those not dearer, for a sell those not cheaper. */
  function Tradable(taker: Side, s: seq<Order>, limit: int): int {
    if s == [] then 0
    else
      var within := if taker.Buy? then s[0].price <= limit else limit <= s[0].price;
      (if within then s[0].qty else 0) + Tradable(taker, s[1..], limit)
  }

  lemma {:induction false} AvailableIsTradable(taker: Side, s: seq<Order>, limit: int)
    ensures Available(Opposite(taker), s, limit) == Tradable(taker, s, limit)
  {
    if s != [] {
      AvailableIsTradable(taker, s[1..], limit);
    }
  }

  /** A trade row of an incoming order against one of `s`: at most
      what that order holds and what is wanted, at a price within the limit. */
  ghost predicate FairTrade(taker: Side, s: seq<Order>, id: int, limit: int, need: int, row: OutputEvent) {
    && row.Trade? && row.aggressiveId == id && row.quantity <= need
    && exists o :: o in s && o.id == row.restingId && 0 < row.quantity <= o.qty
                   && if taker.Buy? then o.price <= limit else limit <= o.price
  }

  ghost predicate TradesFair(taker: Side, s: seq<Order>, id: int, limit: int, need: int, rows: seq<OutputEvent>) {
    forall i :: 0 <= i < |rows| && rows[i].Trade? ==> FairTrade(taker, s, id, limit, need, rows[i])
  }

  lemma {:induction false} MatchTradesFair(taker: Side, s: seq<Order>, id: int, limit: int, need: int)
    requires Positive(s)
    ensures TradesFair(taker, s, id, limit, need, Match(Opposite(taker), s, id, limit, need).rows)
    decreases |s|
  {
    var m := Match(Opposite(taker), s, id, limit, need);
    if !(need <= 0 || s == [] || !Crosses(Opposite(taker), limit, s[0].price)) {
      HeadTail(s);
      assert FairTrade(taker, s, id, limit, need, m.rows[0]);
      if s[0].qty <= need {
        var tail := Match(Opposite(taker), s[1..], id, limit, need - s[0].qty);
        MatchTradesFair(taker, s[1..], id, limit, need - s[0].qty);
        assert forall i :: 2 <= i < |m.rows| ==> m.rows[i] == tail.rows[i - 2];
      }
    }
  }

  lemma SweepTradesFair(side: Side, s: seq<Order>, id: int, limit: int, need: int)
    requires SideOk(side, s)
    ensures TradesFair(Opposite(side), s, id, limit, need, Match(side, s, id, limit, need).rows)
  {
    MatchTradesFair(Opposite(side), s, id, limit, need);
  }

  /** Every trade row of every event is a trade of that add with an order resting opposite at a price
      its limit allows. */
  lemma NoTradeBeyondTheLimit(b: Book, e: InputEvent, i: nat)
    requires WellFormed(b) && i < |Step(b, e).rows| && Step(b, e).rows[i].Trade?
    ensures e.AddOrder?
    ensures var row := Step(b, e).rows[i];
      && row.aggressiveId == e.orderId && row.quantity <= e.quantity
      && exists o :: o in b.On(Opposite(e.side)) && o.id == row.restingId && 0 < row.quantity <= o.qty
                     && if e.side.Buy? then o.price <= e.price else e.price <= o.price
  {
    if Accepted(e) && !Killed(b, e) {
      var s := b.On(Opposite(e.side));
      SideOkParts(Opposite(e.side), s);
      MatchTradesFair(e.side, s, e.orderId, e.price, e.quantity);
      TerminalRow(b, e);
      hide WellFormed, Match, TradesFair, Reachable, Positive;
      var m := Sweep(b, e);
      assert i < |m.rows| && Step(b, e).rows[i] == m.rows[i];
      assert FairTrade(e.side, s, e.orderId, e.price, e.quantity, Step(b, e).rows[i]);
    }
  }

  /** An accepted add trades all of what its limit allows it to, up to its quantity; a fill-or-kill
      that cannot have its whole quantity trades nothing. */
  lemma TradesAllItMay(b: Book, e: InputEvent)
    requires WellFormed(b) && Accepted(e)
    ensures var may := Tradable(e.side, b.On(Opposite(e.side)), e.price);
      Traded(Step(b, e).rows)
        == if e.quantity <= may then e.quantity else if e.tif.Fok? then 0 else may
  {
    var side := Opposite(e.side);
    AvailableIsTradable(e.side, b.On(side), e.price);
    if !Killed(b, e) {
      TerminalRow(b, e);
      MatchTraded(side, b.On(side), e.orderId, e.price, e.quantity);
      hide WellFormed, Match, Available, Tradable;
      var m := Sweep(b, e);
      var last := Settle(b.With(side, m.rest), e, m.left).rows;
      TradedConcat(m.rows, last);
      assert last[1..] == [];
    }
  }

  /** A resting order is filed behind everything at its price or better and ahead of everything worse;
      nothing else moves. */
  lemma {:induction false} FiledByPriceThenTime(side: Side, s: seq<Order>, o: Order) returns (k: nat)
    requires Sorted(side, s)
    ensures k <= |s| && Insert(side, s, o) == s[..k] + [o] + s[k..]
    ensures forall i :: 0 <= i < k ==> if side.Buy? then s[i].price >= o.price else s[i].price <= o.price
    ensures forall i :: k <= i < |s| ==> if side.Buy? then s[i].price < o.price else s[i].price > o.price
  {
    if s == [] || Precedes(side, o.price, s[0].price) {
      k := 0;
    } else {
      var j := FiledByPriceThenTime(side, s[1..], o);
      k := j + 1;
      assert Insert(side, s, o) == [s[0]] + (s[1..][..j] + [o] + s[1..][j..]);
      assert s[..k] == [s[0]] + s[1..][..j] && s[k..] == s[1..][j..];
    }
  }

  // ---- whole runs: every trade honours the limits of two adds of the input

  /** The order was put on that side by one of the events: a good-till-cancel add at its price, for at
      least what is left of it. */
  ghost predicate AddedBy(events: seq<InputEvent>, side: Side, o: Order) {
    exists k :: 0 <= k < |events| && Added(events[k], side, o.id, o.price, o.qty)
  }

  ghost predicate Added(e: InputEvent, side: Side, id: int, price: int, atLeast: int) {
    && e.AddOrder? && e.orderId == id && e.side == side && e.price == price
    && e.tif.Gtc? && atLeast <= e.quantity
  }

  ghost predicate Provenance(events: seq<InputEvent>, b: Book) {
    forall side: Side, o :: o in b.On(side) ==> AddedBy(events, side, o)
  }

  lemma {:induction false} MatchShrinks(side: Side, s: seq<Order>, id: int, limit: int, need: int, o: Order)
    requires Positive(s) && o in Match(side, s, id, limit, need).rest
    ensures exists x :: x in s && x.id == o.id && x.price == o.price && o.qty <= x.qty
    decreases |s|
  {
    if need <= 0 || s == [] || !Crosses(side, limit, s[0].price) {
    } else if s[0].qty <= need {
      HeadTail(s);
      MatchShrinks(side, s[1..], id, limit, need - s[0].qty, o);
    } else if o !in s[1..] {
      assert s[0] in s;
    } else {
      HeadTail(s);
    }
  }

  lemma AddedByMore(events: seq<InputEvent>, e: InputEvent, side: Side, o: Order, x: Order)
    requires AddedBy(events, side, x) && x.id == o.id && x.price == o.price && o.qty <= x.qty
    ensures AddedBy(events + [e], side, o)
  {
    var k :| 0 <= k < |events| && Added(events[k], side, x.id, x.price, x.qty);
    assert (events + [e])[k] == events[k];
  }

  /** Every order after an event shrank from one before it, or is the event's own. */
  lemma StepProvenance(events: seq<InputEvent>, b: Book, e: InputEvent, side: Side, o: Order)
    requires WellFormed(b) && Provenance(events, b) && o in Step(b, e).book.On(side)
    ensures AddedBy(events + [e], side, o)
  {
    if x :| x in b.On(side) && x.id == o.id && x.price == o.price && o.qty <= x.qty {
      AddedByMore(events, e, side, o, x);
    } else {
      NewOrderIsOwn(b, e, side, o);
      assert (events + [e])[|events|] == e;
    }
  }

  lemma NewOrderIsOwn(b: Book, e: InputEvent, side: Side, o: Order)
    requires WellFormed(b) && o in Step(b, e).book.On(side)
    requires !exists x :: x in b.On(side) && x.id == o.id && x.price == o.price && o.qty <= x.qty
    ensures Added(e, side, o.id, o.price, o.qty)
  {
    assert o !in b.On(side);
    if Accepted(e) && !Killed(b, e) {
      SettledIsOwn(b, e, side, o);
    } else if e.CancelOrder? {
      RemoveSideOk(Buy, b.bids, e.orderId);
      RemoveSideOk(Sell, b.asks, e.orderId);
      hide WellFormed, Remove, Find;
    }
  }

  lemma SettledIsOwn(b: Book, e: InputEvent, side: Side, o: Order)
    requires WellFormed(b) && Accepted(e) && !Killed(b, e) && o in Step(b, e).book.On(side)
    requires !exists x :: x in b.On(side) && x.id == o.id && x.price == o.price && o.qty <= x.qty
    ensures Added(e, side, o.id, o.price, o.qty)
  {
    var opposite := Opposite(e.side);
    SideOkParts(opposite, b.On(opposite));
    SweepWellFormed(b, e);
    hide WellFormed, Match, Insert, BookIds, Positive;
    var m := Sweep(b, e);
    InsertContents(e.side, b.On(e.side), Order(e.orderId, e.price, m.left));
    if side == opposite {
      MatchShrinks(opposite, b.On(opposite), e.orderId, e.price, e.quantity, o);
    } else {
      assert o !in b.On(side);
    }
  }

  lemma {:induction false} RunProvenance(events: seq<InputEvent>, i: nat)
    requires i <= |events|
    ensures Provenance(events[..i], Run(EmptyBook, events[..i]).book)
  {
    if i == 0 {
      assert events[..0] == [];
    } else {
      RunProvenance(events, i - 1);
      RunSnoc(EmptyBook, events, i - 1);
      RunWellFormed(EmptyBook, events[..i - 1]);
      hide Run, WellFormed, Step, AddedBy;
      var b := Run(EmptyBook, events[..i - 1]).book;
      assert events[..i] == events[..i - 1] + [events[i - 1]];
      forall side: Side, o | o in Run(EmptyBook, events[..i]).book.On(side)
        ensures AddedBy(events[..i], side, o)
      {
        StepProvenance(events[..i - 1], b, events[i - 1], side, o);
      }
    }
  }

  /** The row was emitted while the k-th event was handled. */
  lemma {:induction false} RowOfEvent(b: Book, events: seq<InputEvent>, r: nat) returns (k: nat, i: nat)
    requires r < |Run(b, events).rows|
    ensures k < |events|
    ensures var rows := Step(Run(b, events[..k]).book, events[k]).rows;
      i < |rows| && rows[i] == Run(b, events).rows[r]
    decreases |events|
  {
    hide Step;
    var first := Step(b, events[0]);
    if r < |first.rows| {
      k, i := 0, r;
      assert events[..0] == [];
    } else {
      var j;
      j, i := RowOfEvent(first.book, events[1..], r - |first.rows|);
      k := j + 1;
      assert events[..k][1..] == events[1..][..j] && events[..k][0] == events[0];
    }
  }

  /** In every run from the empty book each trade is between an add of the input and an earlier
      good-till-cancel add of the other side, for no more than either asked for, and neither
      trades at a price its own limit excludes. */
  lemma TradesHonourBothLimits(events: seq<InputEvent>, r: nat) returns (taker: nat, maker: nat)
    requires r < |Run(EmptyBook, events).rows| && Run(EmptyBook, events).rows[r].Trade?
    ensures maker < taker < |events| && events[taker].AddOrder? && events[maker].AddOrder?
    ensures var row, t, m := Run(EmptyBook, events).rows[r], events[taker], events[maker];
      && row.aggressiveId == t.orderId && row.restingId == m.orderId
      && m.tif.Gtc? && m.side != t.side
      && 0 < row.quantity <= m.quantity && row.quantity <= t.quantity
      && if t.side.Buy? then m.price <= t.price else t.price <= m.price
  {
    var i;
    taker, i := RowOfEvent(EmptyBook, events, r);
    RunWellFormed(EmptyBook, events[..taker]);
    RunProvenance(events, taker);
    hide Run, Step, WellFormed;
    var b, t := Run(EmptyBook, events[..taker]).book, events[taker];
    NoTradeBeyondTheLimit(b, t, i);
    var row := Step(b, t).rows[i];
    var side := Opposite(t.side);
    var o :| o in b.On(side) && o.id == row.restingId && 0 < row.quantity <= o.qty
             && if t.side.Buy? then o.price <= t.price else t.price <= o.price;
    assert AddedBy(events[..taker], side, o);
    maker :| 0 <= maker < |events[..taker]| && Added(events[..taker][maker], side, o.id, o.price, o.qty);
  }
}
