/** Rebuilding the resting orders from the output rows alone: row by row, which a repeated id can
    mislead, and with each trade read together with the row behind it, which nothing can. */
module Replay {
  import opened Messages
  import opened Reference
  import opened BookInvariant
  import opened Priority
  import opened Rejection
  import opened Conservation

  /** RST sets an id to its resting quantity, FIL and CAN drop it, TRD and REJ say nothing. */
  function ReplayRow(m: map<int, int>, row: OutputEvent): map<int, int> {
    match row
    case Resting(id, _, resting) => m[id := resting]
    case Filled(id, _) => m - {id}
    case Cancelled(id, _, _, _) => m - {id}
    case _ => m
  }

  function ReplayRows(m: map<int, int>, rows: seq<OutputEvent>): map<int, int>
    decreases |rows|
  {
    if rows == [] then m else ReplayRows(ReplayRow(m, rows[0]), rows[1..])
  }

  /** Resting id to remaining quantity, for one side and for the book. */
  function SideQuantities(s: seq<Order>): map<int, int> {
    if s == [] then map[] else SideQuantities(s[1..])[s[0].id := s[0].qty]
  }

  function Quantities(b: Book): map<int, int> {
    SideQuantities(b.bids) + SideQuantities(b.asks)
  }

  lemma {:induction false} ReplayConcat(m: map<int, int>, a: seq<OutputEvent>, b: seq<OutputEvent>)
    ensures ReplayRows(m, a + b) == ReplayRows(ReplayRows(m, a), b)
    decreases |a|
  {
    if a == [] {
      assert a + b == b;
    } else {
      assert (a + b)[1..] == a[1..] + b;
      ReplayConcat(ReplayRow(m, a[0]), a[1..], b);
    }
  }

  lemma {:induction false} QuantityKeys(s: seq<Order>)
    ensures SideQuantities(s).Keys == Ids(s)
  {
    if s != [] {
      HeadTail(s);
      QuantityKeys(s[1..]);
    }
  }

  lemma MapSwap(m: map<int, int>, x: int, v: int, y: int, w: int)
    requires x != y
    ensures m[x := v][y := w] == m[y := w][x := v]
    ensures m[x := v] - {y} == (m - {y})[x := v]
  {
  }

  lemma {:induction false} InsertQuantities(side: Side, s: seq<Order>, o: Order)
    requires o.id !in Ids(s)
    ensures SideQuantities(Insert(side, s, o)) == SideQuantities(s)[o.id := o.qty]
  {
    if s == [] {
    } else if Precedes(side, o.price, s[0].price) {
      assert ([o] + s)[1..] == s;
    } else {
      HeadTail(s);
      hide Ids;
      InsertQuantities(side, s[1..], o);
      MapSwap(SideQuantities(s[1..]), s[0].id, s[0].qty, o.id, o.qty);
      assert Insert(side, s, o)[1..] == Insert(side, s[1..], o);
    }
  }

  lemma {:induction false} RemoveQuantities(s: seq<Order>, id: int)
    requires Distinct(s)
    ensures SideQuantities(Remove(s, id)) == SideQuantities(s) - {id}
  {
    if s != [] {
      QuantityKeys(s[1..]);
      HeadNotInTail(s);
      hide Ids, Distinct;
      if s[0].id == id {
        MapFront(map[], SideQuantities(s[1..]), id, s[0].qty, 0);
        assert map[] + SideQuantities(s[1..]) == SideQuantities(s[1..]);
      } else {
        RemoveQuantities(s[1..], id);
        MapSwap(SideQuantities(s[1..]), s[0].id, s[0].qty, id, 0);
        assert Remove(s, id)[1..] == Remove(s[1..], id);
      }
    }
  }

  lemma HeadNotInTail(s: seq<Order>)
    requires s != [] && Distinct(s)
    ensures s[0].id !in Ids(s[1..]) && Distinct(s[1..])
  {
  }

  lemma MapFront(other: map<int, int>, rest: map<int, int>, x: int, v: int, q: int)
    requires x !in other && x !in rest
    ensures (other + rest[x := v]) - {x} == other + rest
    ensures (other + rest[x := v])[x := q] == other + rest[x := q]
  {
  }

  lemma MapDrop(a: map<int, int>, b: map<int, int>, x: int)
    ensures x !in b ==> (a + b) - {x} == (a - {x}) + b
    ensures x !in a ==> (a + b) - {x} == a + (b - {x})
  {
  }

  /** Dropping or changing the front order, seen through a map that also holds other orders. */
  lemma FrontQuantities(s: seq<Order>, other: map<int, int>, q: int)
    requires s != [] && Distinct(s) && other.Keys !! Ids(s)
    ensures (other + SideQuantities(s)) - {s[0].id} == other + SideQuantities(s[1..])
    ensures (other + SideQuantities(s))[s[0].id := q] == other + SideQuantities([s[0].(qty := q)] + s[1..])
    ensures Distinct(s[1..]) && other.Keys !! Ids(s[1..])
  {
    HeadTail(s);
    HeadNotInTail(s);
    QuantityKeys(s[1..]);
    hide Ids, Distinct;
    MapFront(other, SideQuantities(s[1..]), s[0].id, s[0].qty, q);
    assert ([s[0].(qty := q)] + s[1..])[1..] == s[1..];
  }

  /** Replaying the rows of a sweep tracks the swept side, whatever other orders the map holds. */
  lemma {:induction false} MatchReplay(side: Side, s: seq<Order>, id: int, limit: int, need: int, other: map<int, int>)
    requires Distinct(s) && other.Keys !! Ids(s)
    ensures var r := Match(side, s, id, limit, need);
      ReplayRows(other + SideQuantities(s), r.rows) == other + SideQuantities(r.rest)
    decreases |s|
  {
    if !(need <= 0 || s == [] || !Crosses(side, limit, s[0].price)) {
      hide SideQuantities, ReplayRows, Ids, Distinct;
      var m, r := other + SideQuantities(s), Match(side, s, id, limit, need);
      FrontQuantities(s, other, s[0].qty - need);
      if s[0].qty <= need {
        var tail := Match(side, s[1..], id, limit, need - s[0].qty);
        var pair := [Trade(id, s[0].id, s[0].qty), Filled(s[0].id, s[0].qty)];
        ReplayConcat(m, pair, tail.rows);
        ReplayPair(m, pair[0], pair[1]);
        MatchReplay(side, s[1..], id, limit, need - s[0].qty, other);
      } else {
        ReplayPair(m, r.rows[0], r.rows[1]);
      }
    }
  }

  lemma ReplayPair(m: map<int, int>, trade: OutputEvent, row: OutputEvent)
    requires trade.Trade?
    ensures ReplayRows(m, [trade, row]) == ReplayRow(m, row)
  {
    assert [trade, row][1..] == [row];
    ReplayOne(m, row);
  }

  lemma ReplayOne(m: map<int, int>, row: OutputEvent)
    ensures ReplayRows(m, [row]) == ReplayRow(m, row)
  {
    assert [row][1..] == [];
  }

  /** The sides of a well-formed book do not get in each other's way. */
  lemma BookQuantities(b: Book, side: Side)
    requires WellFormed(b)
    ensures Quantities(b) == SideQuantities(b.On(side)) + SideQuantities(b.On(Opposite(side)))
    ensures Quantities(b).Keys == BookIds(b)
    ensures SideQuantities(b.On(side)).Keys !! Ids(b.On(Opposite(side)))
  {
    QuantityKeys(b.bids);
    QuantityKeys(b.asks);
  }

  lemma SweepReplay(b: Book, e: InputEvent)
    requires WellFormed(b) && Accepted(e)
    ensures ReplayRows(Quantities(b), Sweep(b, e).rows) == Quantities(b.With(Opposite(e.side), Sweep(b, e).rest))
  {
    var side := Opposite(e.side);
    SweepWellFormed(b, e);
    var swept := b.With(side, Sweep(b, e).rest);
    BookQuantities(b, e.side);
    BookQuantities(swept, e.side);
    MatchReplay(side, b.On(side), e.orderId, e.price, e.quantity, SideQuantities(b.On(e.side)));
    assert swept.On(e.side) == b.On(e.side) && swept.On(side) == Sweep(b, e).rest;
  }

  /** Striking an id leaves a book's quantities alone exactly when it is not resting. */
  lemma StrikeIff(b: Book, id: int)
    requires WellFormed(b)
    ensures Quantities(b) - {id} == Quantities(b) <==> id !in BookIds(b)
  {
    BookQuantities(b, Buy);
    hide WellFormed, Quantities, BookIds;
    assert id in Quantities(b) ==> id !in Quantities(b) - {id};
  }

  lemma RestQuantities(b: Book, side: Side, o: Order)
    requires WellFormed(b) && o.id !in BookIds(b)
    requires WellFormed(b.With(side, Insert(side, b.On(side), o)))
    ensures Quantities(b.With(side, Insert(side, b.On(side), o))) == Quantities(b)[o.id := o.qty]
  {
    hide WellFormed, SideQuantities, Insert, Quantities, Ids;
    var r := b.With(side, Insert(side, b.On(side), o));
    InsertQuantities(side, b.On(side), o);
    BookQuantities(b, Opposite(side));
    BookQuantities(r, Opposite(side));
    assert r.On(side) == Insert(side, b.On(side), o) && r.On(Opposite(side)) == b.On(Opposite(side));
  }

  lemma SettleReplayIff(b: Book, e: InputEvent, left: int)
    requires WellFormed(b) && Accepted(e) && WellFormed(Settle(b, e, left).book)
    ensures ReplayRows(Quantities(b), Settle(b, e, left).rows) == Quantities(Settle(b, e, left).book)
       <==> e.orderId !in BookIds(b) || (e.tif.Gtc? && left != 0)
  {
    hide Ids, BookIds, WellFormed, SideQuantities, Insert, ReplayRows, Quantities;
    var r := Settle(b, e, left);
    ReplayOne(Quantities(b), r.rows[0]);
    StrikeIff(b, e.orderId);
    if r.rows[0].Resting? {
      RestQuantities(b, e.side, Order(e.orderId, e.price, left));
    }
  }

  lemma DropQuantities(b: Book, side: Side, id: int)
    requires WellFormed(b) && id in Ids(b.On(side))
    ensures Quantities(b) - {id} == Quantities(b.With(side, Remove(b.On(side), id)))
  {
    SideOkParts(Buy, b.bids);
    SideOkParts(Sell, b.asks);
    BookQuantities(b, Opposite(side));
    RemoveQuantities(b.On(side), id);
    QuantityKeys(b.bids);
    QuantityKeys(b.asks);
    assert id !in Ids(b.On(Opposite(side)));
    hide Ids, WellFormed, SideQuantities, Remove, Distinct;
    MapDrop(SideQuantities(b.bids), SideQuantities(b.asks), id);
  }

  lemma CancelReplay(b: Book, id: int)
    requires WellFormed(b)
    ensures ReplayRows(Quantities(b), Cancel(b, id).rows) == Quantities(Cancel(b, id).book)
  {
    hide Ids, WellFormed, Quantities, Remove, Find, ReplayRows;
    ReplayOne(Quantities(b), Cancel(b, id).rows[0]);
    FindIffPresent(b.bids, id);
    FindIffPresent(b.asks, id);
    if id in Ids(b.bids) {
      DropQuantities(b, Buy, id);
    } else if id in Ids(b.asks) {
      DropQuantities(b, Sell, id);
    }
  }

  /** The order carrying an add's id is still there once the add has traded: it rests on the add's own
      side, or opposite and is owed less than it holds. */
  ghost predicate StillResting(b: Book, e: InputEvent)
    requires e.AddOrder?
  {
    var side := Opposite(e.side);
    var s := b.On(side);
    || e.orderId in Ids(b.On(e.side))
    || (exists i :: 0 <= i < |s| && s[i].id == e.orderId
                    && (Killed(b, e) || Fill(side, s, e.price, e.quantity, i) < s[i].qty))
  }

  /** The add ends in a FIL or CAN row of its own while another order rests under its id. */
  ghost predicate Misleads(b: Book, e: InputEvent) {
    Accepted(e) && StillResting(b, e) && !(e.tif.Gtc? && Reachable(b, e) < e.quantity)
  }

  lemma StillRestingIff(b: Book, e: InputEvent)
    requires WellFormed(b) && Accepted(e)
    ensures var swept := if Killed(b, e) then b else b.With(Opposite(e.side), Sweep(b, e).rest);
      StillResting(b, e) <==> e.orderId in BookIds(swept)
  {
    var side := Opposite(e.side);
    var s := b.On(side);
    if Killed(b, e) {
      assert forall i :: 0 <= i < |s| ==> s[i] in s;
    } else {
      SurvivorIds(side, s, e.orderId, e.price, e.quantity, e.orderId);
    }
  }

  lemma AddReplayIff(b: Book, e: InputEvent)
    requires WellFormed(b) && Accepted(e)
    ensures ReplayRows(Quantities(b), Step(b, e).rows) == Quantities(Step(b, e).book) <==> !Misleads(b, e)
  {
    StillRestingIff(b, e);
    hide StillResting, BookIds, ReplayRows, Quantities;
    if Killed(b, e) {
      ReplayOne(Quantities(b), Step(b, e).rows[0]);
      StrikeIff(b, e.orderId);
    } else {
      TerminalRow(b, e);
      SweepWellFormed(b, e);
      SweepReplay(b, e);
      hide WellFormed, Sweep, Reachable, Accepted;
      var m := Sweep(b, e);
      var swept := b.With(Opposite(e.side), m.rest);
      SettleWellFormed(swept, e, m.left);
      SettleReplayIff(swept, e, m.left);
      ReplayConcat(Quantities(b), m.rows, Settle(swept, e, m.left).rows);
    }
  }

  /** For every event: row-by-row replay stays in step if and only if the event is not a misleading add. */
  lemma StepReplayIff(b: Book, e: InputEvent)
    requires WellFormed(b)
    ensures ReplayRows(Quantities(b), Step(b, e).rows) == Quantities(Step(b, e).book) <==> !Misleads(b, e)
  {
    if Accepted(e) {
      AddReplayIff(b, e);
    } else if e.AddOrder? {
      ReplayOne(Quantities(b), Step(b, e).rows[0]);
    } else if e.CancelOrder? {
      CancelReplay(b, e.orderId);
    }
  }

  lemma FreshIdNeverMisleads(b: Book, e: InputEvent)
    requires e.AddOrder? ==> e.orderId !in BookIds(b)
    ensures !Misleads(b, e)
  {
    if e.AddOrder? {
      var s := b.On(Opposite(e.side));
      assert forall i :: 0 <= i < |s| ==> s[i] in s && s[i].id in BookIds(b);
    }
  }

  /** In particular every event keeps the replayed map in step unless it adds under a resting id. */
  lemma StepReplay(b: Book, e: InputEvent)
    requires WellFormed(b) && (e.AddOrder? ==> e.orderId !in BookIds(b))
    ensures ReplayRows(Quantities(b), Step(b, e).rows) == Quantities(Step(b, e).book)
  {
    StepReplayIff(b, e);
    FreshIdNeverMisleads(b, e);
  }

  ghost predicate TracksAfter(b: Book, events: seq<InputEvent>, i: nat)
    requires i <= |events|
  {
    var r := Run(b, events[..i]);
    ReplayRows(Quantities(b), r.rows) == Quantities(r.book)
  }

  /** No event of a run misleads the replay of the book it meets. */
  ghost predicate NeverMisled(b: Book, events: seq<InputEvent>) {
    forall i :: 0 <= i < |events| ==> !Misleads(Run(b, events[..i]).book, events[i])
  }

  lemma TracksNext(b: Book, events: seq<InputEvent>, i: nat)
    requires WellFormed(b) && i < |events| && TracksAfter(b, events, i)
    ensures TracksAfter(b, events, i + 1) <==> !Misleads(Run(b, events[..i]).book, events[i])
  {
    hide WellFormed, Quantities, Step, Misleads, Run, ReplayRows;
    var r := Run(b, events[..i]);
    RunWellFormed(b, events[..i]);
    RunSnoc(b, events, i);
    StepReplayIff(r.book, events[i]);
    ReplayConcat(Quantities(b), r.rows, Step(r.book, events[i]).rows);
  }

  lemma {:induction false} TracksUpTo(b: Book, events: seq<InputEvent>, i: nat)
    requires WellFormed(b) && NeverMisled(b, events) && i <= |events|
    ensures TracksAfter(b, events, i)
  {
    if i == 0 {
      assert events[..0] == [];
    } else {
      TracksUpTo(b, events, i - 1);
      TracksNext(b, events, i - 1);
    }
  }

  /** For every run: row-by-row replay agrees with the book after every event if and only if no
      event misleads it. */
  lemma TracksThroughoutIff(b: Book, events: seq<InputEvent>)
    requires WellFormed(b)
    ensures (forall i :: 0 <= i <= |events| ==> TracksAfter(b, events, i)) <==> NeverMisled(b, events)
  {
    hide WellFormed, TracksAfter, Misleads;
    if NeverMisled(b, events) {
      forall i | 0 <= i <= |events|
        ensures TracksAfter(b, events, i)
      {
        TracksUpTo(b, events, i);
      }
    }
    if forall i :: 0 <= i <= |events| ==> TracksAfter(b, events, i) {
      forall i | 0 <= i < |events|
        ensures !Misleads(Run(b, events[..i]).book, events[i])
      {
        assert TracksAfter(b, events, i + 1);
        TracksNext(b, events, i);
      }
    }
  }

  /** No two adds of an input share an id. */
  ghost predicate UniqueAdds(events: seq<InputEvent>) {
    forall i, j :: 0 <= i < j < |events| && events[i].AddOrder? && events[j].AddOrder? ==>
      events[i].orderId != events[j].orderId
  }

  lemma SettleIds(b: Book, e: InputEvent, left: int)
    requires e.AddOrder?
    ensures BookIds(Settle(b, e, left).book) <= BookIds(b) + {e.orderId}
  {
    hide Ids, Insert;
    InsertContents(e.side, b.On(e.side), Order(e.orderId, e.price, left));
  }

  lemma SweptIds(b: Book, e: InputEvent)
    requires WellFormed(b) && Accepted(e)
    ensures BookIds(b.With(Opposite(e.side), Sweep(b, e).rest)) <= BookIds(b)
  {
    MatchSideOk(Opposite(e.side), b.On(Opposite(e.side)), e.orderId, e.price, e.quantity);
    hide Ids, Match, WellFormed;
  }

  lemma CancelIds(b: Book, id: int)
    requires WellFormed(b)
    ensures BookIds(Cancel(b, id).book) <= BookIds(b)
  {
    RemoveSideOk(Buy, b.bids, id);
    RemoveSideOk(Sell, b.asks, id);
    hide Ids, Remove, Find, WellFormed;
  }

  lemma StepIds(b: Book, e: InputEvent)
    requires WellFormed(b)
    ensures BookIds(Step(b, e).book) <= BookIds(b) + (if e.AddOrder? then {e.orderId} else {})
  {
    hide BookIds, WellFormed, Sweep, Settle, Cancel, Killed;
    if Accepted(e) && !Killed(b, e) {
      SweptIds(b, e);
      SettleIds(b.With(Opposite(e.side), Sweep(b, e).rest), e, Sweep(b, e).left);
    } else if e.CancelOrder? {
      CancelIds(b, e.orderId);
    }
  }

  /** Whatever rests after a run rested before it or was added by it. */
  lemma {:induction false} RunIds(b: Book, events: seq<InputEvent>, x: int)
    requires WellFormed(b) && x in BookIds(Run(b, events).book)
    ensures x in BookIds(b) || exists i :: 0 <= i < |events| && events[i].AddOrder? && events[i].orderId == x
    decreases |events|
  {
    if events != [] {
      hide WellFormed, BookIds, Step;
      StepWellFormed(b, events[0]);
      StepIds(b, events[0]);
      RunIds(Step(b, events[0]).book, events[1..], x);
      assert forall i :: 0 <= i < |events[1..]| ==> events[1..][i] == events[i + 1];
    }
  }

  lemma UniqueAddsNeverMislead(b: Book, events: seq<InputEvent>)
    requires WellFormed(b) && UniqueAdds(events)
    requires forall i :: 0 <= i < |events| && events[i].AddOrder? ==> events[i].orderId !in BookIds(b)
    ensures NeverMisled(b, events)
  {
    hide WellFormed, BookIds, Run, Misleads;
    forall i | 0 <= i < |events|
      ensures !Misleads(Run(b, events[..i]).book, events[i])
    {
      var e, before := events[i], Run(b, events[..i]).book;
      if e.AddOrder? && e.orderId in BookIds(before) {
        RunIds(b, events[..i], e.orderId);
        assert false;
      }
      FreshIdNeverMisleads(before, e);
    }
  }

  /** In every run without a repeated add id, the rows, each read by itself, rebuild exactly
      which orders rest and how much of each is left. */
  lemma OutputReplay(b: Book, events: seq<InputEvent>)
    requires WellFormed(b) && UniqueAdds(events)
    requires forall i :: 0 <= i < |events| && events[i].AddOrder? ==> events[i].orderId !in BookIds(b)
    ensures ReplayRows(Quantities(b), Run(b, events).rows) == Quantities(Run(b, events).book)
  {
    hide WellFormed, NeverMisled, UniqueAdds, BookIds;
    UniqueAddsNeverMislead(b, events);
    TracksUpTo(b, events, |events|);
    assert events[..|events|] == events;
  }

  /** A misleading add: an immediate-or-cancel add under a resting id is cancelled by a row that
      also strikes the resting order from the row-by-row replay. */
  lemma RepeatedIdMisleadsReplay()
    ensures var events := [AddOrder(1, Buy, 5, 100, Gtc), AddOrder(1, Buy, 5, 100, Ioc)];
      var r := Run(EmptyBook, events);
      ReplayRows(map[], r.rows) == map[] && Quantities(r.book) == map[1 := 5]
  {
    var e0, e1 := AddOrder(1, Buy, 5, 100, Gtc), AddOrder(1, Buy, 5, 100, Ioc);
    var events := [e0, e1];
    var b1 := Book([Order(1, 100, 5)], []);
    assert Step(EmptyBook, e0) == Outcome(b1, [Resting(1, 0, 5)]);
    assert Step(b1, e1) == Outcome(b1, [Cancelled(1, 0, 5, ImmediateOrCancel)]);
    assert events[1..] == [e1];
    assert Run(b1, [e1]) == Outcome(b1, [Cancelled(1, 0, 5, ImmediateOrCancel)]);
    var rows := [Resting(1, 0, 5), Cancelled(1, 0, 5, ImmediateOrCancel)];
    assert Run(EmptyBook, events).rows == rows;
    assert rows[1..] == [Cancelled(1, 0, 5, ImmediateOrCancel)];
    ReplayOne(map[1 := 5], Cancelled(1, 0, 5, ImmediateOrCancel));
  }

  /** A terminal row changes what rests only if it is an RST row or the CAN row of a user's cancel. */
  function RebuildTerminal(m: map<int, int>, row: OutputEvent): map<int, int> {
    match row
    case Resting(id, _, resting) => m[id := resting]
    case Cancelled(id, _, _, cause) => if cause.UserRequest? then m - {id} else m
    case _ => m
  }

  /** The careful replay: the row behind a trade is about the order that was hit, any other row ends an input. */
  function Rebuild(m: map<int, int>, rows: seq<OutputEvent>): map<int, int>
    decreases |rows|
  {
    if rows == [] then m
    else if rows[0].Trade? && |rows| >= 2 then Rebuild(ReplayRow(m, rows[1]), rows[2..])
    else Rebuild(RebuildTerminal(m, rows[0]), rows[1..])
  }

  /** A trade is never the last row of a complete output. */
  ghost predicate Complete(rows: seq<OutputEvent>) {
    rows == [] || !rows[|rows| - 1].Trade?
  }

  lemma {:induction false} RebuildConcat(m: map<int, int>, a: seq<OutputEvent>, b: seq<OutputEvent>)
    requires Complete(a)
    ensures Rebuild(m, a + b) == Rebuild(Rebuild(m, a), b)
    decreases |a|
  {
    if a == [] {
      assert a + b == b;
    } else if a[0].Trade? {
      assert (a + b)[2..] == a[2..] + b;
      RebuildConcat(ReplayRow(m, a[1]), a[2..], b);
    } else {
      assert (a + b)[1..] == a[1..] + b;
      RebuildConcat(RebuildTerminal(m, a[0]), a[1..], b);
    }
  }

  /** Inside a sweep the two replays do the same. */
  lemma {:induction false} RebuildTrades(m: map<int, int>, id: int, rows: seq<OutputEvent>)
    requires AreTradePairs(id, rows)
    ensures Rebuild(m, rows) == ReplayRows(m, rows) && Complete(rows)
    decreases |rows|
  {
    if rows != [] {
      assert rows[1..][1..] == rows[2..];
      RebuildTrades(ReplayRow(m, rows[1]), id, rows[2..]);
    }
  }

  lemma RebuildOne(m: map<int, int>, row: OutputEvent)
    ensures Rebuild(m, [row]) == RebuildTerminal(m, row)
  {
    assert [row][1..] == [];
  }

  lemma SettleRebuild(b: Book, e: InputEvent, left: int)
    requires WellFormed(b) && Accepted(e) && WellFormed(Settle(b, e, left).book)
    ensures var r := Settle(b, e, left);
      Rebuild(Quantities(b), r.rows) == Quantities(r.book) && !r.rows[|r.rows| - 1].Trade?
  {
    hide Ids, BookIds, WellFormed, Insert, Rebuild, Quantities;
    var r := Settle(b, e, left);
    RebuildOne(Quantities(b), r.rows[0]);
    if r.rows[0].Resting? {
      RestQuantities(b, e.side, Order(e.orderId, e.price, left));
    }
  }

  lemma AddRebuild(b: Book, e: InputEvent)
    requires WellFormed(b) && Accepted(e) && !Killed(b, e)
    ensures Rebuild(Quantities(b), Step(b, e).rows) == Quantities(Step(b, e).book) && Complete(Step(b, e).rows)
  {
    TerminalRow(b, e);
    SweepWellFormed(b, e);
    SweepReplay(b, e);
    SweepAccounts(b, e);
    hide WellFormed, Sweep, Settle, Reachable, Accepted, ReplayRows, Quantities, Rebuild, AreTradePairs;
    var m := Sweep(b, e);
    var swept := b.With(Opposite(e.side), m.rest);
    var r := Settle(swept, e, m.left);
    SettleWellFormed(swept, e, m.left);
    RebuildTrades(Quantities(b), e.orderId, m.rows);
    RebuildConcat(Quantities(b), m.rows, r.rows);
    SettleRebuild(swept, e, m.left);
  }

  lemma CancelRebuild(b: Book, id: int)
    requires WellFormed(b)
    ensures Rebuild(Quantities(b), Cancel(b, id).rows) == Quantities(Cancel(b, id).book)
  {
    CancelReplay(b, id);
    hide WellFormed, Quantities, Remove, Find, ReplayRows, Rebuild;
    var row := Cancel(b, id).rows[0];
    ReplayOne(Quantities(b), row);
    RebuildOne(Quantities(b), row);
  }

  lemma StepRebuild(b: Book, e: InputEvent)
    requires WellFormed(b)
    ensures Rebuild(Quantities(b), Step(b, e).rows) == Quantities(Step(b, e).book) && Complete(Step(b, e).rows)
  {
    if Accepted(e) && !Killed(b, e) {
      AddRebuild(b, e);
    } else if e.AddOrder? {
      RebuildOne(Quantities(b), Step(b, e).rows[0]);
    } else if e.CancelOrder? {
      CancelRebuild(b, e.orderId);
    }
  }

  /** For every run, repeated ids included, the rows determine which orders rest and how much of each is left. */
  lemma {:induction false} OutputDeterminesBook(b: Book, events: seq<InputEvent>)
    requires WellFormed(b)
    ensures Rebuild(Quantities(b), Run(b, events).rows) == Quantities(Run(b, events).book)
    decreases |events|
  {
    if events != [] {
      hide WellFormed, Quantities, Step, Rebuild, Complete;
      var first := Step(b, events[0]);
      StepRebuild(b, events[0]);
      StepWellFormed(b, events[0]);
      OutputDeterminesBook(first.book, events[1..]);
      RebuildConcat(Quantities(b), first.rows, Run(first.book, events[1..]).rows);
    }
  }
}
