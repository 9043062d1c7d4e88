/** The reference engine: each side of the book is one plain sequence of
    resting orders, best price first and earliest arrival first within a price. */
module Reference {
  import opened Messages

  datatype Order = Order(id: int, price: int, qty: int)

  datatype Book = Book(bids: seq<Order>, asks: seq<Order>) {
    function On(side: Side): seq<Order> {
      if side.Buy? then bids else asks
    }

    function With(side: Side, orders: seq<Order>): Book {
      if side.Buy? then Book(orders, asks) else Book(bids, orders)
    }
  }

  const EmptyBook := Book([], [])

  /** Strict ladder order of a resting side: bids descend, asks ascend. */
  predicate Precedes(side: Side, p: int, q: int) {
    if side.Buy? then p > q else p < q
  }

  /** A limit on the other side trades with `resting` unless it would come strictly before it in the ladder. */
  predicate Crosses(resting: Side, aggressive: int, price: int) {
    !Precedes(resting, aggressive, price)
  }

  function Min(a: int, b: int): int {
    if b < a then b else a
  }

  function Ids(s: seq<Order>): set<int> {
    set o | o in s :: o.id
  }

  function BookIds(b: Book): set<int> {
    Ids(b.bids) + Ids(b.asks)
  }

  function Sum(s: seq<Order>): int {
    if s == [] then 0 else s[0].qty + Sum(s[1..])
  }

  /** Everything on a resting side that a limit is allowed to trade with. */
  function Available(side: Side, s: seq<Order>, limit: int): int {
    if s == [] then 0
    else (if Crosses(side, limit, s[0].price) then s[0].qty else 0) + Available(side, s[1..], limit)
  }

  /** File an order behind everything at its price or better. */
  function Insert(side: Side, s: seq<Order>, o: Order): seq<Order> {
    if s == [] then [o]
    else if Precedes(side, o.price, s[0].price) then [o] + s
    else [s[0]] + Insert(side, s[1..], o)
  }

  /** Drop the first order carrying `id`, if there is one. */
  function Remove(s: seq<Order>, id: int): seq<Order> {
    if s == [] then []
    else if s[0].id == id then s[1..]
    else [s[0]] + Remove(s[1..], id)
  }

  /** Remaining quantity of the first order carrying `id`. */
  function Find(s: seq<Order>, id: int): Option<int> {
    if s == [] then None
    else if s[0].id == id then Some(s[0].qty)
    else Find(s[1..], id)
  }

  datatype Matched = Matched(rows: seq<OutputEvent>, rest: seq<Order>, left: int)

  /** Trade order by order from the front until the incoming quantity or the crossing orders run out. */
  function Match(side: Side, s: seq<Order>, id: int, limit: int, need: int): Matched {
    if need <= 0 || s == [] || !Crosses(side, limit, s[0].price) then
      Matched([], s, need)
    else if s[0].qty <= need then
      var m := Match(side, s[1..], id, limit, need - s[0].qty);
      m.(rows := [Trade(id, s[0].id, s[0].qty), Filled(s[0].id, s[0].qty)] + m.rows)
    else
      Matched([Trade(id, s[0].id, need), Resting(s[0].id, need, s[0].qty - need)],
              [s[0].(qty := s[0].qty - need)] + s[1..],
              0)
  }

  datatype Outcome = Outcome(book: Book, rows: seq<OutputEvent>)

  predicate Accepted(e: InputEvent) {
    e.AddOrder? && e.orderId > 0 && e.quantity > 0 && e.price > 0
  }

  /** The fill-or-kill probe, stated over individual orders. */
  predicate Killed(b: Book, e: InputEvent)
    requires e.AddOrder?
  {
    e.tif.Fok? && Available(Opposite(e.side), b.On(Opposite(e.side)), e.price) < e.quantity
  }

  function Sweep(b: Book, e: InputEvent): Matched
    requires e.AddOrder?
  {
    Match(Opposite(e.side), b.On(Opposite(e.side)), e.orderId, e.price, e.quantity)
  }

  /** What happens to the unfilled remainder of an add once the opposite side has been swept. */
  function Settle(b: Book, e: InputEvent, left: int): Outcome
    requires e.AddOrder?
  {
    if left == 0 then
      Outcome(b, [Filled(e.orderId, e.quantity)])
    else if e.tif.Gtc? then
      if e.orderId in BookIds(b) then
        Outcome(b, [Rejected(e.orderId, DuplicateOrderId)])
      else
        Outcome(b.With(e.side, Insert(e.side, b.On(e.side), Order(e.orderId, e.price, left))),
                [Resting(e.orderId, e.quantity - left, left)])
    else
      Outcome(b, [Cancelled(e.orderId, e.quantity - left, left,
                            if e.tif.Ioc? then ImmediateOrCancel else FillOrKill)])
  }

  function AddAccepted(b: Book, e: InputEvent): Outcome
    requires e.AddOrder?
  {
    if Killed(b, e) then
      Outcome(b, [Cancelled(e.orderId, 0, e.quantity, FillOrKill)])
    else
      var m := Sweep(b, e);
      var r := Settle(b.With(Opposite(e.side), m.rest), e, m.left);
      r.(rows := m.rows + r.rows)
  }

  function Cancel(b: Book, id: int): Outcome {
    if id <= 0 then
      Outcome(b, [Rejected(id, InvalidOrderId)])
    else match Find(b.bids, id)
      case Some(q) => Outcome(b.(bids := Remove(b.bids, id)), [Cancelled(id, 0, q, UserRequest)])
      case None =>
        match Find(b.asks, id)
        case Some(q) => Outcome(b.(asks := Remove(b.asks, id)), [Cancelled(id, 0, q, UserRequest)])
        case None => Outcome(b, [Rejected(id, UnknownOrderId)])
  }

  function Step(b: Book, e: InputEvent): Outcome {
    match e
    case AddOrder(id, side, quantity, price, tif) =>
      if id <= 0 then Outcome(b, [Rejected(id, InvalidOrderId)])
      else if quantity <= 0 then Outcome(b, [Rejected(id, InvalidQuantity)])
      else if price <= 0 then Outcome(b, [Rejected(id, InvalidPrice)])
      else AddAccepted(b, e)
    case CancelOrder(id) => Cancel(b, id)
    case EndOfInput => Outcome(b, [])
  }

  function Run(b: Book, events: seq<InputEvent>): Outcome
    decreases |events|
  {
    if events == [] then Outcome(b, [])
    else
      var first := Step(b, events[0]);
      var later := Run(first.book, events[1..]);
      Outcome(later.book, first.rows + later.rows)
  }
}
