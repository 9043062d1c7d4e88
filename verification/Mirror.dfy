/** Buying and selling are mirror images: reflecting every price about C/2 and
    swapping the sides changes the book's shape but not one output row. */
module Mirror {
  import opened Messages
  import opened Reference
  import opened BookInvariant

  function MirrorOrder(c: int, o: Order): Order {
    o.(price := c - o.price)
  }

  function MirrorSide(c: int, s: seq<Order>): seq<Order> {
    if s == [] then [] else [MirrorOrder(c, s[0])] + MirrorSide(c, s[1..])
  }

  function MirrorBook(c: int, b: Book): Book {
    Book(MirrorSide(c, b.asks), MirrorSide(c, b.bids))
  }

  function MirrorEvent(c: int, e: InputEvent): InputEvent {
    if e.AddOrder? then e.(side := Opposite(e.side), price := c - e.price) else e
  }

  function MirrorEvents(c: int, events: seq<InputEvent>): seq<InputEvent> {
    if events == [] then [] else [MirrorEvent(c, events[0])] + MirrorEvents(c, events[1..])
  }

  /** Prices that are valid both as they are and reflected. */
  ghost predicate Reflectable(c: int, e: InputEvent) {
    e.AddOrder? ==> 1 <= e.price <= c - 1
  }

  lemma {:induction false} MirrorIds(c: int, s: seq<Order>)
    ensures Ids(MirrorSide(c, s)) == Ids(s)
  {
    if s != [] {
      HeadTail(s);
      HeadTail(MirrorSide(c, s));
      assert MirrorSide(c, s)[1..] == MirrorSide(c, s[1..]);
      MirrorIds(c, s[1..]);
    }
  }

  lemma {:induction false} MirrorFind(c: int, s: seq<Order>, id: int)
    ensures Find(MirrorSide(c, s), id) == Find(s, id)
    ensures Remove(MirrorSide(c, s), id) == MirrorSide(c, Remove(s, id))
  {
    if s != [] {
      assert MirrorSide(c, s)[1..] == MirrorSide(c, s[1..]);
      MirrorFind(c, s[1..], id);
      if s[0].id != id {
        assert Remove(s, id)[1..] == Remove(s[1..], id);
      }
    }
  }

  lemma {:induction false} MirrorInsert(c: int, side: Side, s: seq<Order>, o: Order)
    ensures Insert(Opposite(side), MirrorSide(c, s), MirrorOrder(c, o)) == MirrorSide(c, Insert(side, s, o))
  {
    if s == [] {
      assert MirrorSide(c, [o]) == [MirrorOrder(c, o)] + MirrorSide(c, [o][1..]);
    } else {
      assert MirrorSide(c, s)[1..] == MirrorSide(c, s[1..]);
      if Precedes(side, o.price, s[0].price) {
        assert ([o] + s)[1..] == s;
      } else {
        MirrorInsert(c, side, s[1..], o);
        assert Insert(side, s, o)[1..] == Insert(side, s[1..], o);
      }
    }
  }

  lemma {:induction false} MirrorAvailable(c: int, side: Side, s: seq<Order>, limit: int)
    ensures Available(Opposite(side), MirrorSide(c, s), c - limit) == Available(side, s, limit)
  {
    if s != [] {
      assert MirrorSide(c, s)[1..] == MirrorSide(c, s[1..]);
      MirrorAvailable(c, side, s[1..], limit);
    }
  }

  lemma MirrorFront(c: int, s: seq<Order>)
    requires s != []
    ensures MirrorSide(c, s) == [MirrorOrder(c, s[0])] + MirrorSide(c, s[1..])
    ensures MirrorSide(c, s)[1..] == MirrorSide(c, s[1..])
  {
  }

  lemma {:induction false} MirrorMatch(c: int, side: Side, s: seq<Order>, id: int, limit: int, need: int)
    ensures var m := Match(side, s, id, limit, need);
      Match(Opposite(side), MirrorSide(c, s), id, c - limit, need) == m.(rest := MirrorSide(c, m.rest))
    decreases |s|
  {
    if s != [] {
      MirrorFront(c, s);
      hide MirrorSide;
      if need <= 0 || !Crosses(side, limit, s[0].price) {
      } else if s[0].qty <= need {
        MirrorMatch(c, side, s[1..], id, limit, need - s[0].qty);
      } else {
        var rest := Match(side, s, id, limit, need).rest;
        MirrorFront(c, rest);
        assert rest[1..] == s[1..];
      }
    }
  }

  lemma MirrorSettle(c: int, b: Book, e: InputEvent, left: int)
    requires e.AddOrder?
    ensures var r := Settle(b, e, left);
      Settle(MirrorBook(c, b), MirrorEvent(c, e), left) == Outcome(MirrorBook(c, r.book), r.rows)
  {
    MirrorIds(c, b.bids);
    MirrorIds(c, b.asks);
    MirrorInsert(c, e.side, b.On(e.side), Order(e.orderId, e.price, left));
  }

  lemma MirrorAdd(c: int, b: Book, e: InputEvent)
    requires e.AddOrder?
    ensures var r := AddAccepted(b, e);
      AddAccepted(MirrorBook(c, b), MirrorEvent(c, e)) == Outcome(MirrorBook(c, r.book), r.rows)
  {
    var side := Opposite(e.side);
    MirrorAvailable(c, side, b.On(side), e.price);
    if !Killed(b, e) {
      MirrorMatch(c, side, b.On(side), e.orderId, e.price, e.quantity);
      var m := Sweep(b, e);
      MirrorSettle(c, b.With(side, m.rest), e, m.left);
    }
  }

  lemma MirrorCancel(c: int, b: Book, id: int)
    requires WellFormed(b)
    ensures var r := Cancel(b, id);
      Cancel(MirrorBook(c, b), id) == Outcome(MirrorBook(c, r.book), r.rows)
  {
    MirrorFind(c, b.bids, id);
    MirrorFind(c, b.asks, id);
    FindIffPresent(b.bids, id);
    FindIffPresent(b.asks, id);
  }

  lemma MirrorStep(c: int, b: Book, e: InputEvent)
    requires WellFormed(b) && Reflectable(c, e)
    ensures var r := Step(b, e);
      Step(MirrorBook(c, b), MirrorEvent(c, e)) == Outcome(MirrorBook(c, r.book), r.rows)
  {
    match e
    case AddOrder(_, _, _, _, _) => MirrorAdd(c, b, e);
    case CancelOrder(id) => MirrorCancel(c, b, id);
    case EndOfInput =>
  }

  /** For every run: the identical row sequence, and mirrored books. */
  lemma {:induction false} MirrorRun(c: int, b: Book, events: seq<InputEvent>)
    requires WellFormed(b) && forall i :: 0 <= i < |events| ==> Reflectable(c, events[i])
    ensures var r := Run(b, events);
      Run(MirrorBook(c, b), MirrorEvents(c, events)) == Outcome(MirrorBook(c, r.book), r.rows)
    decreases |events|
  {
    if events != [] {
      hide MirrorBook, MirrorEvent, Step, WellFormed;
      MirrorStep(c, b, events[0]);
      StepWellFormed(b, events[0]);
      MirrorRun(c, Step(b, events[0]).book, events[1..]);
      assert MirrorEvents(c, events)[1..] == MirrorEvents(c, events[1..]);
    }
  }
}
