/** What every event keeps true of a book: priority order, positive quantities,
    one resting order per id, and no price at which the two sides overlap. */
module BookInvariant {
  import opened Messages
  import opened Reference

  ghost predicate Sorted(side: Side, s: seq<Order>) {
    forall i, j :: 0 <= i < j < |s| ==> !Precedes(side, s[j].price, s[i].price)
  }

  ghost predicate Positive(s: seq<Order>) {
    forall o :: o in s ==> o.id > 0 && o.price > 0 && o.qty > 0
  }

  ghost predicate Distinct(s: seq<Order>) {
    forall i, j :: 0 <= i < j < |s| ==> s[i].id != s[j].id
  }

  ghost predicate SideOk(side: Side, s: seq<Order>) {
    Sorted(side, s) && Positive(s) && Distinct(s)
  }

  /** Every bid is strictly below every ask: neither crossed nor locked. */
  ghost predicate Uncrossed(b: Book) {
    forall x, y :: x in b.bids && y in b.asks ==> x.price < y.price
  }

  ghost predicate WellFormed(b: Book) {
    && SideOk(Buy, b.bids)
    && SideOk(Sell, b.asks)
    && Ids(b.bids) !! Ids(b.asks)
    && Uncrossed(b)
  }

  ghost function Prices(s: seq<Order>): set<int> {
    set o | o in s :: o.price
  }

  lemma HeadTail(s: seq<Order>)
    requires s != []
    ensures s == [s[0]] + s[1..]
    ensures forall o :: o in s <==> o == s[0] || o in s[1..]
    ensures Ids(s) == {s[0].id} + Ids(s[1..])
  {
  }

  lemma SideOkTail(side: Side, s: seq<Order>)
    requires s != [] && SideOk(side, s)
    ensures SideOk(side, s[1..]) && s[0].id !in Ids(s[1..])
    ensures s[0].id > 0 && s[0].price > 0 && s[0].qty > 0
  {
  }

  lemma SideOkParts(side: Side, s: seq<Order>)
    requires SideOk(side, s)
    ensures Distinct(s) && Positive(s) && Sorted(side, s)
  {
  }

  /** A head that belongs before a well-formed tail. */
  lemma SideOkCons(side: Side, o: Order, s: seq<Order>)
    requires SideOk(side, s)
    requires o.id > 0 && o.price > 0 && o.qty > 0 && o.id !in Ids(s)
    requires forall x :: x in s ==> !Precedes(side, x.price, o.price)
    ensures SideOk(side, [o] + s)
  {
  }

  lemma HeadIsBest(side: Side, s: seq<Order>)
    requires s != [] && Sorted(side, s)
    ensures forall o :: o in s[1..] ==> !Precedes(side, o.price, s[0].price)
  {
  }

  lemma {:induction false} InsertContents(side: Side, s: seq<Order>, o: Order)
    ensures forall x :: x in Insert(side, s, o) <==> x == o || x in s
    ensures Ids(Insert(side, s, o)) == Ids(s) + {o.id}
  {
    if s == [] {
      assert Insert(side, s, o) == [o];
      HeadTail([o]);
    } else if Precedes(side, o.price, s[0].price) {
      HeadTail([o] + s);
      assert ([o] + s)[1..] == s;
    } else {
      InsertContents(side, s[1..], o);
      HeadTail(s);
      HeadTail(Insert(side, s, o));
      assert Insert(side, s, o)[1..] == Insert(side, s[1..], o);
    }
  }

  lemma {:induction false} InsertSideOk(side: Side, s: seq<Order>, o: Order)
    requires SideOk(side, s)
    requires o.id > 0 && o.price > 0 && o.qty > 0 && o.id !in Ids(s)
    ensures SideOk(side, Insert(side, s, o))
  {
    if s == [] {
    } else if Precedes(side, o.price, s[0].price) {
      HeadIsBest(side, s);
      HeadTail(s);
      SideOkCons(side, o, s);
    } else {
      SideOkTail(side, s);
      HeadTail(s);
      InsertSideOk(side, s[1..], o);
      InsertContents(side, s[1..], o);
      HeadIsBest(side, s);
      SideOkCons(side, s[0], Insert(side, s[1..], o));
    }
  }

  lemma {:induction false} RemoveSideOk(side: Side, s: seq<Order>, id: int)
    requires SideOk(side, s)
    ensures SideOk(side, Remove(s, id))
    ensures forall x :: x in Remove(s, id) <==> x in s && x.id != id
    ensures Ids(Remove(s, id)) == Ids(s) - {id}
  {
    if s != [] {
      SideOkTail(side, s);
      HeadTail(s);
      if s[0].id == id {
        assert forall x :: x in s[1..] ==> x.id in Ids(s[1..]);
      } else {
        RemoveSideOk(side, s[1..], id);
        HeadIsBest(side, s);
        SideOkCons(side, s[0], Remove(s[1..], id));
        HeadTail(Remove(s, id));
        assert Remove(s, id)[1..] == Remove(s[1..], id);
      }
    }
  }

  lemma SideOkShrinkHead(side: Side, s: seq<Order>, q: int)
    requires s != [] && SideOk(side, s) && q > 0
    ensures var r := [s[0].(qty := q)] + s[1..];
      SideOk(side, r) && Ids(r) == Ids(s) && r[1..] == s[1..]
  {
  }

  /** A sweep leaves a well-formed remainder of the same side. */
  lemma {:induction false} MatchSideOk(side: Side, s: seq<Order>, id: int, limit: int, need: int)
    requires SideOk(side, s) && need >= 0
    ensures var m := Match(side, s, id, limit, need);
      SideOk(side, m.rest) && Ids(m.rest) <= Ids(s) && 0 <= m.left <= need
    decreases |s|
  {
    hide SideOk;
    if !(need <= 0 || s == [] || !Crosses(side, limit, s[0].price)) {
      HeadTail(s);
      SideOkTail(side, s);
      if s[0].qty <= need {
        MatchSideOk(side, s[1..], id, limit, need - s[0].qty);
      } else {
        SideOkShrinkHead(side, s, s[0].qty - need);
      }
    }
  }

  /** A sweep introduces no new price, and stops only when the incoming order
      is exhausted or nothing left crosses its limit. */
  lemma {:induction false} MatchPrices(side: Side, s: seq<Order>, id: int, limit: int, need: int)
    requires SideOk(side, s) && need >= 0
    ensures var m := Match(side, s, id, limit, need);
      && Prices(m.rest) <= Prices(s)
      && (m.left > 0 ==> forall x :: x in m.rest ==> !Crosses(side, limit, x.price))
    decreases |s|
  {
    hide Positive, Distinct;
    if need <= 0 || s == [] {
    } else if !Crosses(side, limit, s[0].price) {
      HeadTail(s);
      HeadIsBest(side, s);
    } else {
      HeadTail(s);
      SideOkTail(side, s);
      assert s[0].price in Prices(s);
      if s[0].qty <= need {
        MatchPrices(side, s[1..], id, limit, need - s[0].qty);
      }
    }
  }

  lemma {:induction false} FindIffPresent(s: seq<Order>, id: int)
    ensures Find(s, id).Some? <==> id in Ids(s)
  {
    if s != [] {
      HeadTail(s);
      FindIffPresent(s[1..], id);
    }
  }

  lemma {:induction false} FindUnique(s: seq<Order>, o: Order)
    requires Distinct(s) && o in s
    ensures Find(s, o.id) == Some(o.qty)
  {
    if s[0] == o {
    } else {
      assert s == [s[0]] + s[1..];
      var i :| 1 <= i < |s| && s[i] == o;
      FindUnique(s[1..], o);
    }
  }

  /** Cancelling a resting order, wherever it rests. */
  lemma CancelResting(b: Book, side: Side, o: Order)
    requires WellFormed(b) && o in b.On(side)
    ensures Cancel(b, o.id)
         == Outcome(b.With(side, Remove(b.On(side), o.id)), [Cancelled(o.id, 0, o.qty, UserRequest)])
  {
    FindUnique(b.On(side), o);
    FindIffPresent(b.bids, o.id);
    FindIffPresent(b.asks, o.id);
    assert o.id in Ids(b.On(side));
  }

  lemma CancelUnknown(b: Book, id: int)
    requires id > 0 && id !in BookIds(b)
    ensures Cancel(b, id) == Outcome(b, [Rejected(id, UnknownOrderId)])
  {
    FindIffPresent(b.bids, id);
    FindIffPresent(b.asks, id);
  }

  lemma SweepWellFormed(b: Book, e: InputEvent)
    requires WellFormed(b) && Accepted(e)
    ensures var m := Sweep(b, e);
      && WellFormed(b.With(Opposite(e.side), m.rest))
      && 0 <= m.left <= e.quantity
      && (m.left > 0 ==> forall x :: x in m.rest ==> !Crosses(Opposite(e.side), e.price, x.price))
  {
    var side := Opposite(e.side);
    MatchSideOk(side, b.On(side), e.orderId, e.price, e.quantity);
    MatchPrices(side, b.On(side), e.orderId, e.price, e.quantity);
    var rest := Sweep(b, e).rest;
    forall x | x in rest
      ensures exists y :: y in b.On(side) && y.price == x.price
    {
      assert x.price in Prices(rest);
    }
  }

  lemma SettleWellFormed(b: Book, e: InputEvent, left: int)
    requires WellFormed(b) && Accepted(e) && 0 <= left <= e.quantity
    requires left > 0 ==> forall x :: x in b.On(Opposite(e.side)) ==> !Crosses(Opposite(e.side), e.price, x.price)
    ensures WellFormed(Settle(b, e, left).book)
  {
    if left > 0 && e.tif.Gtc? && e.orderId !in BookIds(b) {
      var o := Order(e.orderId, e.price, left);
      InsertSideOk(e.side, b.On(e.side), o);
      InsertContents(e.side, b.On(e.side), o);
    }
  }

  lemma CancelWellFormed(b: Book, id: int)
    requires WellFormed(b)
    ensures WellFormed(Cancel(b, id).book)
  {
    RemoveSideOk(Buy, b.bids, id);
    RemoveSideOk(Sell, b.asks, id);
  }

  lemma StepWellFormed(b: Book, e: InputEvent)
    requires WellFormed(b)
    ensures WellFormed(Step(b, e).book)
  {
    match e
    case AddOrder(_, _, _, _, _) =>
      if Accepted(e) && !Killed(b, e) {
        SweepWellFormed(b, e);
        var m := Sweep(b, e);
        SettleWellFormed(b.With(Opposite(e.side), m.rest), e, m.left);
      }
    case CancelOrder(id) => CancelWellFormed(b, id);
    case EndOfInput =>
  }

  /** After every event of every run the book is well formed, so in particular
      the best bid is strictly below the best ask. */
  lemma {:induction false} RunWellFormed(b: Book, events: seq<InputEvent>)
    requires WellFormed(b)
    ensures WellFormed(Run(b, events).book)
    decreases |events|
  {
    if events != [] {
      StepWellFormed(b, events[0]);
      RunWellFormed(Step(b, events[0]).book, events[1..]);
    }
  }

  lemma {:induction false} RunConcat(b: Book, pre: seq<InputEvent>, post: seq<InputEvent>)
    ensures var first := Run(b, pre);
            Run(b, pre + post) == Outcome(Run(first.book, post).book, first.rows + Run(first.book, post).rows)
    decreases |pre|
  {
    if pre == [] {
      assert pre + post == post;
    } else {
      assert (pre + post)[1..] == pre[1..] + post;
      RunConcat(Step(b, pre[0]).book, pre[1..], post);
    }
  }

  lemma RunOne(b: Book, e: InputEvent)
    ensures Run(b, [e]) == Step(b, e)
  {
  }

  lemma RunSnoc(b: Book, events: seq<InputEvent>, i: nat)
    requires i < |events|
    ensures var r, s := Run(b, events[..i]), Step(Run(b, events[..i]).book, events[i]);
            Run(b, events[..i + 1]) == Outcome(s.book, r.rows + s.rows)
  {
    assert events[..i + 1] == events[..i] + [events[i]];
    RunConcat(b, events[..i], [events[i]]);
    RunOne(Run(b, events[..i]).book, events[i]);
  }

  /** Best bid strictly below best ask after any run from the empty book. */
  lemma NeverCrossed(events: seq<InputEvent>)
    ensures var b := Run(EmptyBook, events).book;
      b.bids != [] && b.asks != [] ==>
        && b.bids[0].price < b.asks[0].price
        && (forall o :: o in b.bids ==> o.price <= b.bids[0].price)
        && (forall o :: o in b.asks ==> b.asks[0].price <= o.price)
  {
    RunWellFormed(EmptyBook, events);
    var b := Run(EmptyBook, events).book;
    if b.bids != [] && b.asks != [] {
      HeadIsBest(Buy, b.bids);
      HeadIsBest(Sell, b.asks);
      HeadTail(b.bids);
      HeadTail(b.asks);
    }
  }
}
