/** An order that rests, never trades and is cancelled leaves no trace. */
module NonInterference {
  import opened Messages
  import opened Reference
  import opened BookInvariant
  import opened Ladder
  import opened Priority

  /** No trade row names the order as the resting party. */
  ghost predicate NeverTraded(x: int, rows: seq<OutputEvent>) {
    forall i :: 0 <= i < |rows| ==> !(rows[i].Trade? && rows[i].restingId == x)
  }

  ghost predicate Mentions(x: int, e: InputEvent) {
    (e.AddOrder? || e.CancelOrder?) && e.orderId == x
  }

  ghost function Without(b: Book, x: int): Book {
    Book(Remove(b.bids, x), Remove(b.asks, x))
  }

  lemma {:induction false} RemoveAbsent(s: seq<Order>, x: int)
    requires x !in Ids(s)
    ensures Remove(s, x) == s
  {
    if s != [] {
      HeadTail(s);
      RemoveAbsent(s[1..], x);
    }
  }

  lemma {:induction false} RemoveInserted(side: Side, s: seq<Order>, o: Order)
    requires o.id !in Ids(s)
    ensures Remove(Insert(side, s, o), o.id) == s
  {
    if s == [] {
    } else if Precedes(side, o.price, s[0].price) {
      assert ([o] + s)[1..] == s;
    } else {
      HeadTail(s);
      RemoveInserted(side, s[1..], o);
      assert Insert(side, s, o)[1..] == Insert(side, s[1..], o);
    }
  }

  /** Filing another order and taking `x` away commute, on a sorted side. */
  lemma {:induction false} InsertRemoveCommute(side: Side, s: seq<Order>, o: Order, x: int)
    requires Sorted(side, s) && o.id != x
    ensures Insert(side, Remove(s, x), o) == Remove(Insert(side, s, o), x)
  {
    if s == [] {
      assert Remove([o], x) == [o] + Remove([o][1..], x);
    } else if Precedes(side, o.price, s[0].price) {
      assert ([o] + s)[1..] == s;
      HeadIsBest(side, s);
      if s[0].id == x {
        InsertStops(side, s[1..], o);
      }
    } else {
      assert Insert(side, s, o)[1..] == Insert(side, s[1..], o);
      if s[0].id != x {
        InsertRemoveCommute(side, s[1..], o, x);
        assert Remove(s, x)[1..] == Remove(s[1..], x);
      }
    }
  }

  lemma {:induction false} RemoveRemoveCommute(s: seq<Order>, x: int, y: int)
    ensures Remove(Remove(s, x), y) == Remove(Remove(s, y), x)
  {
    if s != [] {
      RemoveRemoveCommute(s[1..], x, y);
      if s[0].id != x {
        assert Remove(s, x)[1..] == Remove(s[1..], x);
      }
      if s[0].id != y {
        assert Remove(s, y)[1..] == Remove(s[1..], y);
      }
    }
  }

  lemma {:induction false} FindOther(s: seq<Order>, x: int, y: int)
    requires x != y
    ensures Find(Remove(s, x), y) == Find(s, y)
  {
    if s != [] && s[0].id != x {
      assert Remove(s, x)[1..] == Remove(s[1..], x);
      FindOther(s[1..], x, y);
    }
  }

  lemma RemoveHead(s: seq<Order>, x: int)
    requires s != [] && s[0].id != x
    ensures Remove(s, x) == [s[0]] + Remove(s[1..], x) && Remove(s, x)[1..] == Remove(s[1..], x)
  {
  }

  /** Where nothing crosses, taking an order away changes nothing. */
  lemma MatchNothingWithout(side: Side, s: seq<Order>, id: int, limit: int, need: int, x: int)
    requires SideOk(side, s) && (need <= 0 || s == [] || !Crosses(side, limit, s[0].price))
    ensures Match(side, Remove(s, x), id, limit, need) == Matched([], Remove(s, x), need)
  {
  }

  /** A sweep that does not trade with `x` does the same without it. */
  lemma {:induction false} MatchWithout(side: Side, s: seq<Order>, id: int, limit: int, need: int, x: int)
    requires SideOk(side, s) && NeverTraded(x, Match(side, s, id, limit, need).rows)
    ensures var m := Match(side, s, id, limit, need);
      Match(side, Remove(s, x), id, limit, need) == m.(rest := Remove(m.rest, x))
    decreases |s|
  {
    hide SideOk, Remove;
    var m := Match(side, s, id, limit, need);
    if need <= 0 || s == [] || !Crosses(side, limit, s[0].price) {
      MatchNothingWithout(side, s, id, limit, need, x);
    } else {
      assert m.rows[0].Trade? && m.rows[0].restingId == s[0].id;
      RemoveHead(s, x);
      SideOkTail(side, s);
      if s[0].qty <= need {
        var n := Match(side, s[1..], id, limit, need - s[0].qty);
        assert forall i :: 0 <= i < |n.rows| ==> n.rows[i] == m.rows[i + 2];
        MatchWithout(side, s[1..], id, limit, need - s[0].qty, x);
      } else {
        assert m.rest[1..] == s[1..];
        RemoveHead(m.rest, x);
      }
    }
  }

  lemma {:induction false} AvailableWithout(side: Side, s: seq<Order>, limit: int, x: int)
    requires Positive(s)
    ensures Available(side, Remove(s, x), limit) <= Available(side, s, limit)
  {
    if s != [] && s[0].id != x {
      assert Remove(s, x)[1..] == Remove(s[1..], x);
      AvailableWithout(side, s[1..], limit, x);
    }
  }

  /** The fill-or-kill probe reaches the same verdict without an order that does not get to trade. */
  lemma KilledWithout(b: Book, e: InputEvent, x: int)
    requires WellFormed(b) && Accepted(e)
    requires !Killed(b, e) ==> NeverTraded(x, Sweep(b, e).rows)
    ensures Killed(Without(b, x), e) <==> Killed(b, e)
  {
    var side := Opposite(e.side);
    var s := b.On(side);
    AvailableWithout(side, s, e.price, x);
    RemoveSideOk(side, s, x);
    if !Killed(b, e) && e.tif.Fok? {
      MatchWithout(side, s, e.orderId, e.price, e.quantity, x);
      Maximality(side, s, e.orderId, e.price, e.quantity);
      Maximality(side, Remove(s, x), e.orderId, e.price, e.quantity);
    }
  }

  lemma SettleWithout(b: Book, e: InputEvent, left: int, x: int)
    requires WellFormed(b) && Accepted(e) && e.orderId != x
    ensures var r := Settle(b, e, left);
      Settle(Without(b, x), e, left) == Outcome(Without(r.book, x), r.rows)
  {
    RemoveSideOk(Buy, b.bids, x);
    RemoveSideOk(Sell, b.asks, x);
    SideOkParts(e.side, b.On(e.side));
    InsertRemoveCommute(e.side, b.On(e.side), Order(e.orderId, e.price, left), x);
    hide WellFormed, Insert, Remove, Ids;
    assert e.orderId in BookIds(Without(b, x)) <==> e.orderId in BookIds(b);
  }

  lemma PrefixNeverTraded(x: int, a: seq<OutputEvent>, b: seq<OutputEvent>)
    requires NeverTraded(x, a + b)
    ensures NeverTraded(x, a) && NeverTraded(x, b)
  {
    assert forall i :: 0 <= i < |a| ==> (a + b)[i] == a[i];
    assert forall i :: 0 <= i < |b| ==> (a + b)[|a| + i] == b[i];
  }

  lemma AddWithout(b: Book, e: InputEvent, x: int)
    requires WellFormed(b) && Accepted(e) && e.orderId != x && NeverTraded(x, AddAccepted(b, e).rows)
    ensures var r := AddAccepted(b, e);
      AddAccepted(Without(b, x), e) == Outcome(Without(r.book, x), r.rows)
  {
    var side := Opposite(e.side);
    var m := Sweep(b, e);
    if !Killed(b, e) {
      PrefixNeverTraded(x, m.rows, Settle(b.With(side, m.rest), e, m.left).rows);
      MatchWithout(side, b.On(side), e.orderId, e.price, e.quantity, x);
      SweepWellFormed(b, e);
      SettleWithout(b.With(side, m.rest), e, m.left, x);
    }
    KilledWithout(b, e, x);
    hide WellFormed, Match, Settle, Remove;
    assert Without(b.With(side, m.rest), x) == Without(b, x).With(side, Remove(m.rest, x));
  }

  lemma CancelWithout(b: Book, id: int, x: int)
    requires id != x
    ensures var r := Cancel(b, id);
      Cancel(Without(b, x), id) == Outcome(Without(r.book, x), r.rows)
  {
    FindOther(b.bids, x, id);
    FindOther(b.asks, x, id);
    RemoveRemoveCommute(b.bids, x, id);
    RemoveRemoveCommute(b.asks, x, id);
  }

  /** An event about other orders that does not trade with `x` is not affected by its presence. */
  lemma StepWithout(b: Book, e: InputEvent, x: int)
    requires WellFormed(b) && !Mentions(x, e) && NeverTraded(x, Step(b, e).rows)
    ensures var r := Step(b, e);
      Step(Without(b, x), e) == Outcome(Without(r.book, x), r.rows)
  {
    match e
    case AddOrder(_, _, _, _, _) =>
      if Accepted(e) {
        AddWithout(b, e, x);
      }
    case CancelOrder(id) => CancelWithout(b, id, x);
    case EndOfInput =>
  }

  lemma {:induction false} RunWithout(b: Book, events: seq<InputEvent>, x: int)
    requires WellFormed(b) && NeverTraded(x, Run(b, events).rows)
    requires forall i :: 0 <= i < |events| ==> !Mentions(x, events[i])
    ensures var r := Run(b, events);
      Run(Without(b, x), events) == Outcome(Without(r.book, x), r.rows)
    decreases |events|
  {
    if events != [] {
      hide WellFormed, Step, Without, NeverTraded;
      var first := Step(b, events[0]);
      PrefixNeverTraded(x, first.rows, Run(first.book, events[1..]).rows);
      StepWithout(b, events[0], x);
      StepWellFormed(b, events[0]);
      RunWithout(first.book, events[1..], x);
    }
  }

  lemma {:induction false} MatchKeeps(side: Side, s: seq<Order>, id: int, limit: int, need: int, o: Order)
    requires o in s && NeverTraded(o.id, Match(side, s, id, limit, need).rows)
    ensures o in Match(side, s, id, limit, need).rest
    decreases |s|
  {
    var m := Match(side, s, id, limit, need);
    if !(need <= 0 || s == [] || !Crosses(side, limit, s[0].price)) {
      assert m.rows[0].Trade? && m.rows[0].restingId == s[0].id;
      assert s == [s[0]] + s[1..];
      if s[0].qty <= need {
        var n := Match(side, s[1..], id, limit, need - s[0].qty);
        assert forall i :: 0 <= i < |n.rows| ==> n.rows[i] == m.rows[i + 2];
        MatchKeeps(side, s[1..], id, limit, need - s[0].qty, o);
      }
    }
  }

  /** An order that is neither named nor traded keeps its place and quantity. */
  lemma StepKeeps(b: Book, e: InputEvent, side: Side, o: Order)
    requires WellFormed(b) && o in b.On(side) && !Mentions(o.id, e) && NeverTraded(o.id, Step(b, e).rows)
    ensures o in Step(b, e).book.On(side)
  {
    if Accepted(e) && !Killed(b, e) {
      var opp, m := Opposite(e.side), Sweep(b, e);
      PrefixNeverTraded(o.id, m.rows, Settle(b.With(opp, m.rest), e, m.left).rows);
      if side == opp {
        MatchKeeps(opp, b.On(opp), e.orderId, e.price, e.quantity, o);
      }
      InsertContents(e.side, b.On(e.side), Order(e.orderId, e.price, m.left));
    } else if e.CancelOrder? {
      RemoveSideOk(Buy, b.bids, e.orderId);
      RemoveSideOk(Sell, b.asks, e.orderId);
    }
  }

  lemma {:induction false} RunKeeps(b: Book, events: seq<InputEvent>, side: Side, o: Order)
    requires WellFormed(b) && o in b.On(side) && NeverTraded(o.id, Run(b, events).rows)
    requires forall i :: 0 <= i < |events| ==> !Mentions(o.id, events[i])
    ensures o in Run(b, events).book.On(side)
    decreases |events|
  {
    if events != [] {
      hide WellFormed, Step, NeverTraded;
      var first := Step(b, events[0]);
      PrefixNeverTraded(o.id, first.rows, Run(first.book, events[1..]).rows);
      StepKeeps(b, events[0], side, o);
      StepWellFormed(b, events[0]);
      RunKeeps(first.book, events[1..], side, o);
    }
  }

  /** An add that rests without a fill does nothing but file its order. */
  lemma RestsUntouched(b: Book, e: InputEvent)
    requires WellFormed(b) && Accepted(e) && e.tif.Gtc? && Step(b, e).rows == [Resting(e.orderId, 0, e.quantity)]
    ensures var o, b1 := Order(e.orderId, e.price, e.quantity), Step(b, e).book;
      e.orderId !in BookIds(b) && o in b1.On(e.side) && Without(b1, e.orderId) == b
  {
    var side := Opposite(e.side);
    var m := Sweep(b, e);
    MatchTraded(side, b.On(side), e.orderId, e.price, e.quantity);
    var r := Settle(b.With(side, m.rest), e, m.left);
    assert Step(b, e).rows == m.rows + r.rows && |r.rows| == 1;
    assert m.rows == [] && r.rows[0] == (m.rows + r.rows)[0];
    NoRowsNoChange(side, b.On(side), e.orderId, e.price, e.quantity);
    var o := Order(e.orderId, e.price, e.quantity);
    assert b.With(side, m.rest) == b;
    InsertContents(e.side, b.On(e.side), o);
    RemoveInserted(e.side, b.On(e.side), o);
    RemoveAbsent(b.On(side), e.orderId);
  }

  lemma NoRowsNoChange(side: Side, s: seq<Order>, id: int, limit: int, need: int)
    requires Match(side, s, id, limit, need).rows == []
    ensures Match(side, s, id, limit, need) == Matched([], s, need)
  {
  }

  lemma CancelIsWithout(b: Book, side: Side, o: Order)
    requires WellFormed(b) && o in b.On(side)
    ensures Cancel(b, o.id) == Outcome(Without(b, o.id), [Cancelled(o.id, 0, o.qty, UserRequest)])
  {
    CancelResting(b, side, o);
    assert o.id in Ids(b.On(side));
    RemoveAbsent(b.On(Opposite(side)), o.id);
  }

  /** If a good-till-cancel add rests without a fill, is not traded with while other orders come
      and go, and is then cancelled, the run without its add and its cancel emits the same rows
      except its own two, and ends in the same book. */
  lemma UntradedOrderLeavesNoTrace(b: Book, e: InputEvent, mid: seq<InputEvent>, post: seq<InputEvent>)
    requires WellFormed(b) && Accepted(e) && e.tif.Gtc?
    requires Step(b, e).rows == [Resting(e.orderId, 0, e.quantity)]
    requires forall i :: 0 <= i < |mid| ==> !Mentions(e.orderId, mid[i])
    requires NeverTraded(e.orderId, Run(Step(b, e).book, mid).rows)
    ensures var between := Run(b, mid);
      var after := Run(between.book, post);
      && Run(b, mid + post) == Outcome(after.book, between.rows + after.rows)
      && Run(b, [e] + mid + [CancelOrder(e.orderId)] + post)
         == Outcome(after.book, [Resting(e.orderId, 0, e.quantity)] + between.rows
                                + [Cancelled(e.orderId, 0, e.quantity, UserRequest)] + after.rows)
  {
    var x, o := e.orderId, Order(e.orderId, e.price, e.quantity);
    var b1 := Step(b, e).book;
    RestsUntouched(b, e);
    StepWellFormed(b, e);
    RunWithout(b1, mid, x);
    RunKeeps(b1, mid, e.side, o);
    RunWellFormed(b1, mid);
    var b2 := Run(b1, mid).book;
    CancelIsWithout(b2, e.side, o);
    hide WellFormed, Run, Without, Cancel, NeverTraded;
    var cxl := CancelOrder(x);
    assert Step(b2, cxl) == Cancel(b2, x);
    RunConcat(b, mid, post);
    RunConcat(b, [e] + mid + [cxl], post);
    RunConcat(b, [e] + mid, [cxl]);
    RunConcat(b, [e], mid);
    RunOne(b, e);
    RunOne(b2, cxl);
  }

  /** The same inside a whole run from the empty book. */
  lemma UntradedOrderLeavesNoTraceInRun(pre: seq<InputEvent>, e: InputEvent, mid: seq<InputEvent>, post: seq<InputEvent>)
    requires var b := Run(EmptyBook, pre).book;
      && Accepted(e) && e.tif.Gtc?
      && Step(b, e).rows == [Resting(e.orderId, 0, e.quantity)]
      && NeverTraded(e.orderId, Run(Step(b, e).book, mid).rows)
    requires forall i :: 0 <= i < |mid| ==> !Mentions(e.orderId, mid[i])
    ensures var cxl := CancelOrder(e.orderId);
      var with, without := Run(EmptyBook, pre + ([e] + mid + [cxl] + post)), Run(EmptyBook, pre + (mid + post));
      var first := Run(EmptyBook, pre);
      var second := Run(first.book, mid);
      var third := Run(second.book, post);
      && with.book == without.book
      && without.rows == first.rows + (second.rows + third.rows)
      && with.rows == first.rows + ([Resting(e.orderId, 0, e.quantity)] + second.rows
                                    + [Cancelled(e.orderId, 0, e.quantity, UserRequest)] + third.rows)
  {
    RunWellFormed(EmptyBook, pre);
    hide WellFormed, Run, Step, NeverTraded;
    var b := Run(EmptyBook, pre).book;
    UntradedOrderLeavesNoTrace(b, e, mid, post);
    RunConcat(EmptyBook, pre, [e] + mid + [CancelOrder(e.orderId)] + post);
    RunConcat(EmptyBook, pre, mid + post);
  }
}
