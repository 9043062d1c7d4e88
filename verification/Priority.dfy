/** Price-time priority, maximality and fill-or-kill, stated without reference
    to the matching loop. */
module Priority {
  import opened Messages
  import opened Reference
  import opened BookInvariant
  import opened Ladder

  /** Water-filling: what the i-th resting order is owed by an incoming quantity,
      given everything with priority over it. */
  ghost function Fill(side: Side, s: seq<Order>, limit: int, need: int, i: nat): int
    requires i < |s|
  {
    if !Crosses(side, limit, s[i].price) then 0
    else
      var reaching := need - Sum(s[..i]);
      if reaching <= 0 then 0 else Min(reaching, s[i].qty)
  }

  /** A trade and the row of the order it hit. */
  ghost function PairFor(id: int, o: Order, f: int): seq<OutputEvent> {
    [Trade(id, o.id, f), if f == o.qty then Filled(o.id, f) else Resting(o.id, f, o.qty - f)]
  }

  /** `k` orders trade, in book order, each for its fill, and each trade is
      followed by the row of the order it hit. */
  ghost predicate RowsFollowFills(side: Side, s: seq<Order>, id: int, limit: int, need: int,
                                  rows: seq<OutputEvent>, k: nat) {
    && k <= |s| && |rows| == 2 * k
    && (forall i :: 0 <= i < |s| ==> (i < k <==> Fill(side, s, limit, need, i) > 0))
    && (forall i :: 0 <= i < k ==>
          rows[2 * i..2 * i + 2] == PairFor(id, s[i], Fill(side, s, limit, need, i)))
  }

  /** What survives: the untouched tail, behind the last traded order if some of it is left. */
  ghost function Survivors(side: Side, s: seq<Order>, limit: int, need: int, k: nat): seq<Order>
    requires k <= |s|
  {
    if k == 0 then s
    else
      var f := Fill(side, s, limit, need, k - 1);
      if f == s[k - 1].qty then s[k..] else [s[k - 1].(qty := s[k - 1].qty - f)] + s[k..]
  }

  lemma FillTail(side: Side, s: seq<Order>, limit: int, need: int, i: nat)
    requires i + 1 < |s| && s[0].qty <= need
    ensures Fill(side, s, limit, need, i + 1) == Fill(side, s[1..], limit, need - s[0].qty, i)
  {
    assert s[..i + 1][1..] == s[1..][..i];
  }

  /** Behind a position where the quantity has run out nobody is owed anything. */
  lemma FillBehind(side: Side, s: seq<Order>, limit: int, need: int, i: nat)
    requires 0 < i < |s| && Positive(s) && need <= s[0].qty
    ensures Fill(side, s, limit, need, i) == 0
  {
    assert s[..i][0] == s[0];
    SumNonNegative(s[..i][1..]);
  }

  lemma NobodyCrosses(side: Side, s: seq<Order>, limit: int)
    requires s != [] && Sorted(side, s) && !Crosses(side, limit, s[0].price)
    ensures forall i :: 0 <= i < |s| ==> !Crosses(side, limit, s[i].price)
  {
  }

  /** Orders trade in book order, every one but the last completely, and the rest is what the fills leave. */
  ghost predicate Prioritised(side: Side, s: seq<Order>, id: int, limit: int, need: int, m: Matched, k: nat) {
    && RowsFollowFills(side, s, id, limit, need, m.rows, k)
    && m.rest == Survivors(side, s, limit, need, k)
    && (forall i :: 0 <= i < k - 1 ==> Fill(side, s, limit, need, i) == s[i].qty)
  }

  lemma PriorityNone(side: Side, s: seq<Order>, id: int, limit: int, need: int)
    requires SideOk(side, s) && (need <= 0 || s == [] || !Crosses(side, limit, s[0].price))
    ensures Prioritised(side, s, id, limit, need, Match(side, s, id, limit, need), 0)
  {
    forall i | 0 <= i < |s|
      ensures Fill(side, s, limit, need, i) == 0
    {
      if need <= 0 {
        assert forall o :: o in s[..i] ==> o in s;
        SumNonNegative(s[..i]);
      } else {
        NobodyCrosses(side, s, limit);
      }
    }
  }

  lemma PriorityPartial(side: Side, s: seq<Order>, id: int, limit: int, need: int)
    requires SideOk(side, s) && s != [] && Crosses(side, limit, s[0].price) && 0 < need < s[0].qty
    ensures Prioritised(side, s, id, limit, need, Match(side, s, id, limit, need), 1)
  {
    assert Fill(side, s, limit, need, 0) == need;
    forall i | 0 < i < |s|
      ensures Fill(side, s, limit, need, i) == 0
    {
      FillBehind(side, s, limit, need, i);
    }
  }

  /** Everyone behind a fully traded front order is owed what is left of the quantity. */
  lemma FillsShift(side: Side, s: seq<Order>, limit: int, need: int)
    requires s != [] && Crosses(side, limit, s[0].price) && 0 < s[0].qty <= need
    ensures Fill(side, s, limit, need, 0) == s[0].qty
    ensures forall i :: 0 < i < |s| ==>
              Fill(side, s, limit, need, i) == Fill(side, s[1..], limit, need - s[0].qty, i - 1)
  {
    forall i | 0 < i < |s|
      ensures Fill(side, s, limit, need, i) == Fill(side, s[1..], limit, need - s[0].qty, i - 1)
    {
      FillTail(side, s, limit, need, i - 1);
    }
  }

  lemma RowsShift(side: Side, s: seq<Order>, id: int, limit: int, need: int, j: nat, rows: seq<OutputEvent>)
    requires s != [] && Crosses(side, limit, s[0].price) && 0 < s[0].qty <= need
    requires RowsFollowFills(side, s[1..], id, limit, need - s[0].qty, rows, j)
    ensures RowsFollowFills(side, s, id, limit, need, PairFor(id, s[0], s[0].qty) + rows, j + 1)
  {
    FillsShift(side, s, limit, need);
    hide Fill, PairFor;
    var pair := PairFor(id, s[0], s[0].qty);
    PairLength(id, s[0], s[0].qty);
    var all := pair + rows;
    forall i | 0 <= i < j + 1
      ensures all[2 * i..2 * i + 2] == PairFor(id, s[i], Fill(side, s, limit, need, i))
    {
      if i == 0 {
        assert all[2 * i..2 * i + 2] == pair;
      } else {
        assert all[2 * i..2 * i + 2] == rows[2 * (i - 1)..2 * (i - 1) + 2];
      }
    }
  }

  lemma PairLength(id: int, o: Order, f: int)
    ensures |PairFor(id, o, f)| == 2
  {
  }

  lemma RowsBounded(side: Side, s: seq<Order>, id: int, limit: int, need: int, rows: seq<OutputEvent>, k: nat)
    requires RowsFollowFills(side, s, id, limit, need, rows, k)
    ensures k <= |s|
  {
  }

  lemma PriorityWhole(side: Side, s: seq<Order>, id: int, limit: int, need: int, j: nat)
    requires s != [] && Crosses(side, limit, s[0].price) && 0 < s[0].qty <= need
    requires Prioritised(side, s[1..], id, limit, need - s[0].qty, Match(side, s[1..], id, limit, need - s[0].qty), j)
    ensures Prioritised(side, s, id, limit, need, Match(side, s, id, limit, need), j + 1)
  {
    hide Fill, RowsFollowFills;
    var n := Match(side, s[1..], id, limit, need - s[0].qty);
    assert j <= |s[1..]| by {
      RowsBounded(side, s[1..], id, limit, need - s[0].qty, n.rows, j);
    }
    RowsShift(side, s, id, limit, need, j, n.rows);
    FillsShift(side, s, limit, need);
    assert s[j + 1..] == s[1..][j..];
  }

  /** Price-time priority, for every side, limit and quantity. */
  lemma {:induction false} PriceTimePriority(side: Side, s: seq<Order>, id: int, limit: int, need: int) returns (k: nat)
    requires SideOk(side, s) && need >= 0
    ensures Prioritised(side, s, id, limit, need, Match(side, s, id, limit, need), k)
    decreases |s|
  {
    hide Prioritised, SideOk;
    if need <= 0 || s == [] || !Crosses(side, limit, s[0].price) {
      k := 0;
      PriorityNone(side, s, id, limit, need);
    } else if s[0].qty <= need {
      SideOkTail(side, s);
      var j := PriceTimePriority(side, s[1..], id, limit, need - s[0].qty);
      k := j + 1;
      PriorityWhole(side, s, id, limit, need, j);
    } else {
      k := 1;
      PriorityPartial(side, s, id, limit, need);
    }
  }

  /** Those owed less than they hold are the tail of the side, and they are the ones that survive. */
  lemma SurvivorsAreTail(side: Side, s: seq<Order>, id: int, limit: int, need: int, m: Matched, k: nat) returns (first: nat)
    requires Prioritised(side, s, id, limit, need, m, k) && Positive(s)
    ensures first + |m.rest| == |s|
    ensures forall i :: 0 <= i < |s| ==> (first <= i <==> Fill(side, s, limit, need, i) < s[i].qty)
    ensures forall j :: 0 <= j < |m.rest| ==> m.rest[j].id == s[first + j].id
  {
    assert forall i :: 0 <= i < |s| ==> s[i].qty > 0;
    first := if k > 0 && Fill(side, s, limit, need, k - 1) < s[k - 1].qty then k - 1 else k;
  }

  lemma IdsOfTail(s: seq<Order>, rest: seq<Order>, first: nat, x: int)
    requires first + |rest| == |s|
    requires forall j :: 0 <= j < |rest| ==> rest[j].id == s[first + j].id
    ensures x in Ids(rest) <==> exists i :: first <= i < |s| && s[i].id == x
  {
    if o :| o in rest && o.id == x {
      var j :| 0 <= j < |rest| && rest[j] == o;
      assert s[first + j].id == x;
    }
    if i :| first <= i < |s| && s[i].id == x {
      assert rest[i - first] in rest && rest[i - first].id == x;
    }
  }

  /** An order outlives a sweep exactly when it is owed less than it holds. */
  lemma SurvivorIds(side: Side, s: seq<Order>, id: int, limit: int, need: int, x: int)
    requires SideOk(side, s) && need >= 0
    ensures x in Ids(Match(side, s, id, limit, need).rest)
       <==> exists i :: 0 <= i < |s| && s[i].id == x && Fill(side, s, limit, need, i) < s[i].qty
  {
    SideOkParts(side, s);
    hide Match, Fill, SideOk, Positive, Prioritised, Ids;
    var m := Match(side, s, id, limit, need);
    var k := PriceTimePriority(side, s, id, limit, need);
    var first := SurvivorsAreTail(side, s, id, limit, need, m, k);
    IdsOfTail(s, m.rest, first, x);
  }

  /** An incoming order trades as much as it may: the lesser of its quantity and everything that crosses. */
  lemma {:induction false} Maximality(side: Side, s: seq<Order>, id: int, limit: int, need: int)
    requires SideOk(side, s) && need >= 0
    ensures Match(side, s, id, limit, need).left == need - Min(need, Available(side, s, limit))
    decreases |s|
  {
    if s == [] {
    } else {
      SideOkTail(side, s);
      AvailableBounds(side, s[1..], limit);
      if !Crosses(side, limit, s[0].price) {
        NobodyCrosses(side, s, limit);
        AvailableNone(side, s, limit);
      } else if need > 0 && s[0].qty <= need {
        Maximality(side, s[1..], id, limit, need - s[0].qty);
      }
    }
  }

  /** A sweep that leaves the incoming order short has taken everything that crosses and nothing else. */
  lemma {:induction false} DrainedRest(side: Side, s: seq<Order>, id: int, limit: int, need: int)
    requires SideOk(side, s) && Available(side, s, limit) < need
    ensures forall o :: o in Match(side, s, id, limit, need).rest <==> o in s && !Crosses(side, limit, o.price)
    decreases |s|
  {
    SideOkParts(side, s);
    AvailableBounds(side, s, limit);
    if s != [] {
      SideOkTail(side, s);
      HeadTail(s);
      if Crosses(side, limit, s[0].price) {
        hide SideOk, Sorted, Positive, Distinct;
        SideOkParts(side, s[1..]);
        AvailableBounds(side, s[1..], limit);
        DrainedRest(side, s[1..], id, limit, need - s[0].qty);
      } else {
        NobodyCrosses(side, s, limit);
      }
    }
  }

  function Traded(rows: seq<OutputEvent>): int {
    if rows == [] then 0
    else (if rows[0].Trade? then rows[0].quantity else 0) + Traded(rows[1..])
  }

  lemma {:induction false} TradedConcat(a: seq<OutputEvent>, b: seq<OutputEvent>)
    ensures Traded(a + b) == Traded(a) + Traded(b)
  {
    if a == [] {
      assert a + b == b;
    } else {
      assert (a + b)[1..] == a[1..] + b;
      TradedConcat(a[1..], b);
    }
  }

  /** Trades account for exactly what the incoming order lost and the side lost. */
  lemma {:induction false} MatchTraded(side: Side, s: seq<Order>, id: int, limit: int, need: int)
    ensures var m := Match(side, s, id, limit, need);
      Traded(m.rows) == need - m.left == Sum(s) - Sum(m.rest)
    decreases |s|
  {
    if need <= 0 || s == [] || !Crosses(side, limit, s[0].price) {
    } else if s[0].qty <= need {
      MatchTraded(side, s[1..], id, limit, need - s[0].qty);
      var pair := [Trade(id, s[0].id, s[0].qty), Filled(s[0].id, s[0].qty)];
      TradedConcat(pair, Match(side, s[1..], id, limit, need - s[0].qty).rows);
      assert pair[1..] == [Filled(s[0].id, s[0].qty)] && Traded(pair[1..]) == 0;
    } else {
      TradeSum(s, need);
      var pair := [Trade(id, s[0].id, need), Resting(s[0].id, need, s[0].qty - need)];
      assert pair[1..] == [Resting(s[0].id, need, s[0].qty - need)] && Traded(pair[1..]) == 0;
    }
  }

  /** Fill-or-kill is all or nothing, and which of the two is decided by whether enough crosses. */
  lemma FillOrKillIsAllOrNothing(b: Book, e: InputEvent)
    requires WellFormed(b) && Accepted(e) && e.tif.Fok?
    ensures var r := Step(b, e);
      var side := Opposite(e.side);
      if Available(side, b.On(side), e.price) < e.quantity then
        r == Outcome(b, [Cancelled(e.orderId, 0, e.quantity, FillOrKill)])
      else
        && Sweep(b, e).left == 0
        && Traded(r.rows) == e.quantity
        && r.rows == Sweep(b, e).rows + [Filled(e.orderId, e.quantity)]
        && r.book == b.With(side, Sweep(b, e).rest)
  {
    var side := Opposite(e.side);
    Maximality(side, b.On(side), e.orderId, e.price, e.quantity);
    MatchTraded(side, b.On(side), e.orderId, e.price, e.quantity);
    TradedConcat(Sweep(b, e).rows, [Filled(e.orderId, e.quantity)]);
  }
}
