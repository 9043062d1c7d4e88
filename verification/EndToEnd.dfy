/** From input lines to output text: every value the engine puts into a row fits the machine's
    integers, so what the pipeline writes reads back as what the engine decided. */
module EndToEnd {
  import opened Messages
  import opened Reference
  import opened BookInvariant
  import opened Text
  import opened InputParser
  import opened OutputFormatter
  import opened Pipeline
  import opened PipelineSafety
  import opened PipelineStop
  import opened PipelineLiveness
  import opened Replay
  import opened RingIndex

  // ---- 64-bit input gives 64-bit output

  /** The machine's integers are those of 64 bits in two's complement. */
  lemma MachineIntegers(x: int)
    ensures InInt64(x) <==> 0 <= x + Pow2(63) < Pow2(64)
  {
    WordIsPow2();
    assert Pow2(64) == 2 * Pow2(63);
  }

  lemma MeaningFits(line: string)
    ensures Meaning(line).Parsed? ==> FitsWire(Meaning(line).event)
  {
    hide Trim, Split, Field;
  }

  lemma {:induction false} EventsFit(lines: seq<string>)
    ensures forall i :: 0 <= i < |EventsOf(lines)| ==> FitsWire(EventsOf(lines)[i])
  {
    if lines != [] {
      hide Meaning, FitsWire;
      MeaningFits(lines[0]);
      EventsFit(lines[1..]);
    }
  }

  ghost predicate SideFits(s: seq<Order>) {
    forall o :: o in s ==> InInt64(o.id) && InInt64(o.price) && InInt64(o.qty)
  }

  ghost predicate BookFits(b: Book) {
    SideFits(b.bids) && SideFits(b.asks)
  }

  ghost predicate RowsFit(rows: seq<OutputEvent>) {
    forall i :: 0 <= i < |rows| ==> FitsRow(rows[i])
  }

  lemma {:induction false} MatchFits(side: Side, s: seq<Order>, id: int, limit: int, need: int)
    requires Positive(s) && SideFits(s) && InInt64(id) && 0 <= need <= INT64_MAX
    ensures var m := Match(side, s, id, limit, need);
      RowsFit(m.rows) && SideFits(m.rest) && 0 <= m.left <= need
    decreases |s|
  {
    if !(need <= 0 || s == [] || !Crosses(side, limit, s[0].price)) {
      HeadTail(s);
      if s[0].qty <= need {
        MatchFits(side, s[1..], id, limit, need - s[0].qty);
      }
    }
  }

  lemma SettleFits(b: Book, e: InputEvent, left: int)
    requires BookFits(b) && Accepted(e) && FitsWire(e) && 0 <= left <= e.quantity
    ensures var r := Settle(b, e, left);
      RowsFit(r.rows) && BookFits(r.book)
  {
    hide BookIds, Insert;
    InsertContents(e.side, b.On(e.side), Order(e.orderId, e.price, left));
  }

  lemma AddFits(b: Book, e: InputEvent)
    requires WellFormed(b) && BookFits(b) && Accepted(e) && FitsWire(e)
    ensures RowsFit(Step(b, e).rows) && BookFits(Step(b, e).book)
  {
    if !Killed(b, e) {
      var side := Opposite(e.side);
      SideOkParts(side, b.On(side));
      MatchFits(side, b.On(side), e.orderId, e.price, e.quantity);
      hide WellFormed, Match, Settle, FitsRow, SideFits;
      var m := Sweep(b, e);
      SettleFits(b.With(side, m.rest), e, m.left);
    }
  }

  lemma {:induction false} FoundFits(s: seq<Order>, id: int)
    requires SideFits(s)
    ensures SideFits(Remove(s, id))
    ensures Find(s, id).Some? ==> InInt64(Find(s, id).value) && InInt64(id)
  {
    if s != [] {
      HeadTail(s);
      if s[0].id != id {
        FoundFits(s[1..], id);
        HeadTail(Remove(s, id));
        assert Remove(s, id)[1..] == Remove(s[1..], id);
      }
    }
  }

  lemma StepFits(b: Book, e: InputEvent)
    requires WellFormed(b) && BookFits(b) && (e.EndOfInput? || FitsWire(e))
    ensures RowsFit(Step(b, e).rows) && BookFits(Step(b, e).book)
  {
    if Accepted(e) {
      AddFits(b, e);
    } else if e.CancelOrder? {
      hide WellFormed, SideFits, Remove, Find;
      FoundFits(b.bids, e.orderId);
      FoundFits(b.asks, e.orderId);
    }
  }

  lemma {:induction false} RunFits(b: Book, events: seq<InputEvent>)
    requires WellFormed(b) && BookFits(b) && forall i :: 0 <= i < |events| ==> FitsWire(events[i])
    ensures RowsFit(Run(b, events).rows) && BookFits(Run(b, events).book)
    decreases |events|
  {
    if events != [] {
      hide WellFormed, BookFits, FitsRow, FitsWire, Step;
      StepFits(b, events[0]);
      StepWellFormed(b, events[0]);
      RunFits(Step(b, events[0]).book, events[1..]);
    }
  }

  /** Whatever lines come in, every number of every row that comes out fits the machine's integer type. */
  lemma EngineRowsFit(lines: seq<string>)
    ensures RowsFit(Run(EmptyBook, EventsOf(lines)).rows)
  {
    EventsFit(lines);
    RunFits(EmptyBook, EventsOf(lines));
  }

  // ---- what the text says

  lemma WrittenFits(lines: seq<string>, written: seq<OutputEvent>)
    requires written <= Run(EmptyBook, EventsOf(lines)).rows
    ensures NoSentinel(written) && DecodeAll(RenderAll(written)) == Some(written)
  {
    EngineRowsFit(lines);
    hide Run, EventsOf, FitsRow;
    OutputReadsBack(written);
  }

  /** In every interleaving the text written so far reads back as a prefix of the rows of the sequential
      run, and as all of them once the writer has handled the sentinel. */
  lemma WrittenTextReadsBack(lines: seq<string>, inputBits: nat, outputBits: nat, steps: seq<AgentStep>)
    requires inputBits >= 1 && outputBits >= 1
    requires Interleaving(Start(lines, inputBits, outputBits), steps)
    ensures var w := EndState(Start(lines, inputBits, outputBits), steps).writer;
      var rows := Run(EmptyBook, EventsOf(lines)).rows;
      && NoSentinel(w.written) && DecodeAll(RenderAll(w.written)).Some?
      && DecodeAll(RenderAll(w.written)).value <= rows
      && (w.pc == WriterDone(true) ==> DecodeAll(RenderAll(w.written)) == Some(rows))
  {
    hide Start, Interleaving, EndState, Run, EventsOf, NoSentinel, DecodeAll, RenderAll;
    PipelineIsSequential(lines, inputBits, outputBits, steps);
    WrittenFits(lines, EndState(Start(lines, inputBits, outputBits), steps).writer.written);
  }

  /** Every fair execution without a stop comes to write a text from which alone one can tell which orders
      rest in the end and how much is left of each. */
  lemma TextTellsTheBook(t: Trace, lines: seq<string>, inputBits: nat, outputBits: nat) returns (n: nat)
    requires FairTrace(t, lines, inputBits, outputBits) && NeverStopped(t)
    ensures var written := t.state(n).writer.written;
      && AllEnded(t.state(n)) && NoSentinel(written) && DecodeAll(RenderAll(written)).Some?
      && Rebuild(map[], DecodeAll(RenderAll(written)).value) == Quantities(Run(EmptyBook, EventsOf(lines)).book)
  {
    assert Quantities(EmptyBook) == map[];
    assert WellFormed(EmptyBook);
    hide FairTrace, NeverStopped, Run, EventsOf, NoSentinel, DecodeAll, RenderAll, Rebuild, AllEnded, WellFormed;
    n := FairRunsEnd(t, lines, inputBits, outputBits);
    WrittenFits(lines, t.state(n).writer.written);
    OutputDeterminesBook(EmptyBook, EventsOf(lines));
  }
}
