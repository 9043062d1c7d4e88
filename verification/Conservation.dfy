/** Quantity is neither created nor lost: per add, and over whole runs. */
module Conservation {
  import opened Messages
  import opened Reference
  import opened BookInvariant
  import opened Ladder
  import opened Priority
  import opened Rejection

  function RestingTotal(b: Book): int {
    Sum(b.bids) + Sum(b.asks)
  }

  function UserCancelled(rows: seq<OutputEvent>): int {
    if rows == [] then 0
    else (if rows[0].Cancelled? && rows[0].cause.UserRequest? then rows[0].cancelled else 0) + UserCancelled(rows[1..])
  }

  /** Quantity an add put on the book according to its terminal row. */
  function NewlyResting(e: InputEvent, rows: seq<OutputEvent>): int {
    if e.AddOrder? && rows != [] && rows[|rows| - 1].Resting? then rows[|rows| - 1].resting else 0
  }

  function RestedInRun(b: Book, events: seq<InputEvent>): int
    decreases |events|
  {
    if events == [] then 0
    else
      var first := Step(b, events[0]);
      NewlyResting(events[0], first.rows) + RestedInRun(first.book, events[1..])
  }

  /** Trades of one aggressor, each followed by the row of the order it hit for that trade's quantity. */
  ghost predicate AreTradePairs(id: int, rows: seq<OutputEvent>) {
    rows == [] ||
    (&& |rows| >= 2
     && rows[0].Trade? && rows[0].aggressiveId == id && rows[0].quantity > 0
     && (rows[1].Filled? || rows[1].Resting?)
     && rows[1].orderId == rows[0].restingId && rows[1].filled == rows[0].quantity
     && AreTradePairs(id, rows[2..]))
  }

  lemma {:induction false} UserCancelledConcat(a: seq<OutputEvent>, b: seq<OutputEvent>)
    ensures UserCancelled(a + b) == UserCancelled(a) + UserCancelled(b)
  {
    if a == [] {
      assert a + b == b;
    } else {
      assert (a + b)[1..] == a[1..] + b;
      UserCancelledConcat(a[1..], b);
    }
  }

  lemma {:induction false} MatchRowsAreTradePairs(side: Side, s: seq<Order>, id: int, limit: int, need: int)
    requires Positive(s)
    ensures AreTradePairs(id, Match(side, s, id, limit, need).rows)
    decreases |s|
  {
    if !(need <= 0 || s == [] || !Crosses(side, limit, s[0].price)) && s[0].qty <= need {
      MatchRowsAreTradePairs(side, s[1..], id, limit, need - s[0].qty);
      var m := Match(side, s, id, limit, need);
      assert m.rows[2..] == Match(side, s[1..], id, limit, need - s[0].qty).rows;
    }
  }

  lemma {:induction false} TradePairsCancelNothing(id: int, rows: seq<OutputEvent>)
    requires AreTradePairs(id, rows)
    ensures UserCancelled(rows) == 0
    decreases |rows|
  {
    if rows != [] {
      TradePairsCancelNothing(id, rows[2..]);
      assert rows[1..][1..] == rows[2..];
    }
  }

  /** A terminal row that accounts for an add: its filled, resting and cancelled parts add up to the
      order, its filled part is what traded, and its kind agrees with the order's time in force. */
  ghost predicate Accounts(e: InputEvent, row: OutputEvent, traded: int)
    requires e.AddOrder?
  {
    match row
    case Filled(id, filled) => id == e.orderId && filled == traded == e.quantity
    case Resting(id, filled, resting) =>
      id == e.orderId && e.tif.Gtc? && filled == traded && resting > 0 && filled + resting == e.quantity
    case Cancelled(id, filled, cancelled, cause) =>
      && id == e.orderId && filled == traded && cancelled > 0 && filled + cancelled == e.quantity
      && (cause.ImmediateOrCancel? <==> e.tif.Ioc?) && (cause.FillOrKill? <==> e.tif.Fok?)
      && (e.tif.Fok? ==> traded == 0)
    case Rejected(id, code) => id == e.orderId && code == DuplicateOrderId && e.tif.Gtc? && traded < e.quantity
    case _ => false
  }

  lemma SettleAccounts(b: Book, e: InputEvent, left: int)
    requires Accepted(e) && 0 <= left <= e.quantity && (e.tif.Fok? ==> left == 0)
    ensures var rows := Settle(b, e, left).rows;
      |rows| == 1 && Traded(rows) == 0 && Accounts(e, rows[0], e.quantity - left)
  {
  }

  lemma SweepAccounts(b: Book, e: InputEvent)
    requires WellFormed(b) && Accepted(e)
    ensures var m := Sweep(b, e);
      && AreTradePairs(e.orderId, m.rows) && Traded(m.rows) == e.quantity - m.left
      && 0 <= m.left <= e.quantity && (e.tif.Fok? && !Killed(b, e) ==> m.left == 0)
  {
    var side := Opposite(e.side);
    SideOkParts(side, b.On(side));
    SweepWellFormed(b, e);
    MatchRowsAreTradePairs(side, b.On(side), e.orderId, e.price, e.quantity);
    MatchTraded(side, b.On(side), e.orderId, e.price, e.quantity);
    Maximality(side, b.On(side), e.orderId, e.price, e.quantity);
  }

  /** Every accepted add yields trade pairs and then exactly one terminal row, which accounts for
      the whole order unless the add runs into its own id. */
  lemma AddAccountsForItsQuantity(b: Book, e: InputEvent)
    requires WellFormed(b) && Accepted(e)
    ensures var rows := Step(b, e).rows;
      && rows != []
      && AreTradePairs(e.orderId, rows[..|rows| - 1])
      && Accounts(e, rows[|rows| - 1], Traded(rows))
      && (rows[|rows| - 1].Rejected? <==> RunsIntoDuplicate(b, e))
  {
    AddRejectedIff(b, e);
    var rows := Step(b, e).rows;
    if Killed(b, e) {
      assert rows[..|rows| - 1] == [];
    } else {
      hide WellFormed, Sweep, AreTradePairs, Settle, Accounts, Traded, RunsIntoDuplicate;
      SweepAccounts(b, e);
      var m := Sweep(b, e);
      var swept := b.With(Opposite(e.side), m.rest);
      SettleAccounts(swept, e, m.left);
      var last := Settle(swept, e, m.left).rows;
      assert rows == m.rows + last && rows[..|rows| - 1] == m.rows && rows[|rows| - 1] == last[0];
      TradedConcat(m.rows, last);
    }
  }

  /** A terminal row that reports an add as filled, resting and cancelled quantities adding up to the order. */
  ghost predicate ReportsWholeOrder(e: InputEvent, row: OutputEvent)
    requires e.AddOrder?
  {
    match row
    case Filled(_, filled) => filled == e.quantity
    case Resting(_, filled, resting) => filled + resting == e.quantity
    case Cancelled(_, filled, cancelled, _) => filled + cancelled == e.quantity
    case _ => false
  }

  /** The quantities reported for an add make up the whole order if and only if its fields are
      valid and it does not run into its own id. */
  lemma ReportsWholeOrderIff(b: Book, e: InputEvent)
    requires WellFormed(b) && e.AddOrder?
    ensures var rows := Step(b, e).rows;
      && rows != []
      && (ReportsWholeOrder(e, rows[|rows| - 1]) <==> Accepted(e) && !RunsIntoDuplicate(b, e))
  {
    if Accepted(e) {
      AddAccountsForItsQuantity(b, e);
    }
  }

  lemma {:induction false} RemoveSum(s: seq<Order>, id: int)
    ensures Sum(Remove(s, id)) == Sum(s) - (if Find(s, id).Some? then Find(s, id).value else 0)
  {
    if s != [] && s[0].id != id {
      RemoveSum(s[1..], id);
      assert Remove(s, id)[1..] == Remove(s[1..], id);
    }
  }

  lemma SettleConserves(b: Book, e: InputEvent, left: int)
    requires e.AddOrder?
    ensures var r := Settle(b, e, left);
      && |r.rows| == 1 && Traded(r.rows) == 0 && UserCancelled(r.rows) == 0
      && RestingTotal(r.book) == RestingTotal(b) + NewlyResting(e, r.rows)
  {
    hide BookIds, Insert, Sum;
    InsertSum(e.side, b.On(e.side), Order(e.orderId, e.price, left));
    var rows := Settle(b, e, left).rows;
    assert rows[1..] == [];
  }

  lemma AddConserves(b: Book, e: InputEvent)
    requires WellFormed(b) && Accepted(e)
    ensures var r := Step(b, e);
      && RestingTotal(r.book) == RestingTotal(b) + NewlyResting(e, r.rows) - Traded(r.rows)
      && UserCancelled(r.rows) == 0
  {
    if !Killed(b, e) {
      var side := Opposite(e.side);
      var m := Sweep(b, e);
      SideOkParts(side, b.On(side));
      MatchRowsAreTradePairs(side, b.On(side), e.orderId, e.price, e.quantity);
      TradePairsCancelNothing(e.orderId, m.rows);
      MatchTraded(side, b.On(side), e.orderId, e.price, e.quantity);
      hide WellFormed, Match, AreTradePairs, Insert, BookIds, Positive, Sum;
      var swept := b.With(side, m.rest);
      var r := Settle(swept, e, m.left);
      SettleConserves(swept, e, m.left);
      assert |r.rows| == 1 && Step(b, e).rows == m.rows + r.rows;
      TradedConcat(m.rows, r.rows);
      UserCancelledConcat(m.rows, r.rows);
    }
  }

  /** One event of any kind. */
  lemma StepConserves(b: Book, e: InputEvent)
    requires WellFormed(b)
    ensures var r := Step(b, e);
      RestingTotal(r.book) == RestingTotal(b) + NewlyResting(e, r.rows) - Traded(r.rows) - UserCancelled(r.rows)
  {
    if Accepted(e) {
      AddConserves(b, e);
    } else if e.CancelOrder? {
      RemoveSum(b.bids, e.orderId);
      RemoveSum(b.asks, e.orderId);
    }
  }

  /** Over a whole run, duplicates included: what rested, less what traded and what users cancelled, is what is left. */
  lemma {:induction false} RunConserves(b: Book, events: seq<InputEvent>)
    requires WellFormed(b)
    ensures var r := Run(b, events);
      RestingTotal(r.book) == RestingTotal(b) + RestedInRun(b, events) - Traded(r.rows) - UserCancelled(r.rows)
    decreases |events|
  {
    if events != [] {
      var first := Step(b, events[0]);
      StepConserves(b, events[0]);
      StepWellFormed(b, events[0]);
      RunConserves(first.book, events[1..]);
      var later := Run(first.book, events[1..]);
      TradedConcat(first.rows, later.rows);
      UserCancelledConcat(first.rows, later.rows);
    }
  }
}
