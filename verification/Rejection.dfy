/** Which events are rejected, and which rejections leave the book alone. The output documentation
    says all do; a duplicate id, however, is only noticed when the residue is about to rest. */
module Rejection {
  import opened Messages
  import opened Reference
  import opened BookInvariant
  import opened Ladder
  import opened Priority

  /** What the opposite side has for an add to trade against. */
  function Reachable(b: Book, e: InputEvent): int
    requires e.AddOrder?
  {
    Available(Opposite(e.side), b.On(Opposite(e.side)), e.price)
  }

  /** A good-till-cancel add has more quantity than it can trade, and the order that carries its id
      rests where the add does not reach: on its own side, or opposite beyond its limit. */
  ghost predicate RunsIntoDuplicate(b: Book, e: InputEvent)
    requires e.AddOrder?
  {
    && e.tif.Gtc? && Reachable(b, e) < e.quantity
    && (|| e.orderId in Ids(b.On(e.side))
        || (exists o :: o in b.On(Opposite(e.side)) && o.id == e.orderId
                        && !Crosses(Opposite(e.side), e.price, o.price)))
  }

  /** The last row of an event is its terminal row. */
  ghost predicate IsRejected(rows: seq<OutputEvent>) {
    rows != [] && rows[|rows| - 1].Rejected?
  }

  /** An add's id is still resting after a sweep that left it short exactly when the sweep could not reach it. */
  lemma DuplicateAfterSweep(b: Book, e: InputEvent)
    requires WellFormed(b) && Accepted(e) && Reachable(b, e) < e.quantity && e.tif.Gtc?
    ensures e.orderId in BookIds(b.With(Opposite(e.side), Sweep(b, e).rest)) <==> RunsIntoDuplicate(b, e)
  {
    var side := Opposite(e.side);
    var s, rest := b.On(side), Sweep(b, e).rest;
    DrainedRest(side, s, e.orderId, e.price, e.quantity);
    hide WellFormed, Available, Sweep, Crosses;
    assert e.orderId in Ids(rest) <==> exists o :: o in rest && o.id == e.orderId;
  }

  /** The rows of an accepted add that passes the probe: its trades and one terminal row. */
  lemma TerminalRow(b: Book, e: InputEvent)
    requires WellFormed(b) && Accepted(e) && !Killed(b, e)
    ensures var m := Sweep(b, e);
      var r := Settle(b.With(Opposite(e.side), m.rest), e, m.left);
      && |r.rows| == 1 && Step(b, e) == Outcome(r.book, m.rows + r.rows)
      && m.left == e.quantity - Min(e.quantity, Reachable(b, e))
  {
    var side := Opposite(e.side);
    Maximality(side, b.On(side), e.orderId, e.price, e.quantity);
  }

  /** Why an event will be rejected, foretold from the book and the event. */
  ghost function RejectionReason(b: Book, e: InputEvent): Option<RejectCode> {
    match e
    case AddOrder(id, _, quantity, price, _) =>
      if id <= 0 then Some(InvalidOrderId)
      else if quantity <= 0 then Some(InvalidQuantity)
      else if price <= 0 then Some(InvalidPrice)
      else if RunsIntoDuplicate(b, e) then Some(DuplicateOrderId)
      else None
    case CancelOrder(id) =>
      if id <= 0 then Some(InvalidOrderId)
      else if id !in BookIds(b) then Some(UnknownOrderId)
      else None
    case EndOfInput => None
  }

  lemma AddRejectedIff(b: Book, e: InputEvent)
    requires WellFormed(b) && Accepted(e)
    ensures var rows := Step(b, e).rows;
      && rows != []
      && (IsRejected(rows) <==> RunsIntoDuplicate(b, e))
      && (IsRejected(rows) ==> rows[|rows| - 1] == Rejected(e.orderId, DuplicateOrderId))
  {
    if !Killed(b, e) {
      TerminalRow(b, e);
      if e.tif.Gtc? && Reachable(b, e) < e.quantity {
        DuplicateAfterSweep(b, e);
      }
      hide WellFormed, Sweep, Reachable, Insert, BookIds, Ids;
      var m := Sweep(b, e);
      var r := Settle(b.With(Opposite(e.side), m.rest), e, m.left);
      assert Step(b, e).rows[|m.rows|] == r.rows[0];
    }
  }

  /** An event is rejected if and only if the book and the event say so beforehand, and for that reason. */
  lemma RejectedIff(b: Book, e: InputEvent)
    requires WellFormed(b)
    ensures var rows, reason := Step(b, e).rows, RejectionReason(b, e);
      && (IsRejected(rows) <==> reason.Some?)
      && (reason.Some? ==> rows[|rows| - 1] == Rejected(e.orderId, reason.value))
  {
    if Accepted(e) {
      AddRejectedIff(b, e);
    } else if e.CancelOrder? {
      FindIffPresent(b.bids, e.orderId);
      FindIffPresent(b.asks, e.orderId);
    }
  }

  lemma SweepChangesIffCrossing(b: Book, e: InputEvent)
    requires WellFormed(b) && Accepted(e)
    ensures b.With(Opposite(e.side), Sweep(b, e).rest) == b <==> Reachable(b, e) == 0
  {
    var side := Opposite(e.side);
    var s, m := b.On(side), Sweep(b, e);
    Maximality(side, s, e.orderId, e.price, e.quantity);
    MatchTraded(side, s, e.orderId, e.price, e.quantity);
    AvailableBounds(side, s, e.price);
    if Available(side, s, e.price) == 0 && s != [] {
      SideOkTail(side, s);
      assert forall o :: o in s[1..] ==> o in s;
      AvailableBounds(side, s[1..], e.price);
    }
  }

  /** An event changes the book and is rejected all the same if and only if it is an otherwise
      acceptable add that has something to trade against and runs into its own id with the rest. */
  lemma RejectionChangesBookIff(b: Book, e: InputEvent)
    requires WellFormed(b)
    ensures IsRejected(Step(b, e).rows) && Step(b, e).book != b
       <==> Accepted(e) && RunsIntoDuplicate(b, e) && Reachable(b, e) > 0
  {
    RejectedIff(b, e);
    if Accepted(e) && RunsIntoDuplicate(b, e) {
      SideOkParts(Opposite(e.side), b.On(Opposite(e.side)));
      AvailableBounds(Opposite(e.side), b.On(Opposite(e.side)), e.price);
      SweepChangesIffCrossing(b, e);
      TerminalRow(b, e);
      DuplicateAfterSweep(b, e);
    } else if e.CancelOrder? {
      FindIffPresent(b.bids, e.orderId);
      FindIffPresent(b.asks, e.orderId);
    }
  }

  /** It does happen: a good-till-cancel add under a resting id first trades and is then rejected. */
  lemma DuplicateTradesBeforeRejection()
    ensures var b := Book([Order(7, 90, 4)], [Order(8, 100, 3)]);
      && WellFormed(b)
      && Step(b, AddOrder(7, Buy, 5, 100, Gtc))
         == Outcome(Book([Order(7, 90, 4)], []),
                    [Trade(7, 8, 3), Filled(8, 3), Rejected(7, DuplicateOrderId)])
  {
    var bids, asks := [Order(7, 90, 4)], [Order(8, 100, 3)];
    var b, e := Book(bids, asks), AddOrder(7, Buy, 5, 100, Gtc);
    assert Order(7, 90, 4) in bids;
    assert asks[1..] == [];
    assert Match(Sell, [], 7, 100, 2) == Matched([], [], 2);
    assert Sweep(b, e) == Matched([Trade(7, 8, 3), Filled(8, 3)], [], 2);
    assert 7 in Ids(bids);
  }
}
