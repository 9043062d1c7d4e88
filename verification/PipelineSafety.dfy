/** Whatever the interleaving and whenever a stop is requested, the written rows are
    a prefix of the rows of a sequential run; if the sentinel arrives, all of them. */
module PipelineSafety {
  import opened Messages
  import opened Reference
  import opened BookInvariant
  import opened RingProtocol
  import opened InputParser
  import opened Pipeline

  /** Everything the reader would push if never stopped. */
  ghost function AllInput(lines: seq<string>): seq<InputEvent> {
    EventsOf(lines) + [EndOfInput]
  }

  ghost predicate Finished(events: seq<InputEvent>) {
    events != [] && events[|events| - 1].EndOfInput?
  }

  /** Rows, sentinel included, that a sequential run hands on for the given events. */
  ghost function RowsFor(events: seq<InputEvent>): seq<OutputEvent> {
    Run(EmptyBook, events).rows + if Finished(events) then [EndOfOutput] else []
  }

  ghost function StillToRead(unread: seq<string>): seq<InputEvent> {
    EventsOf(unread) + [EndOfInput]
  }

  ghost function StillToPush(r: Reader): seq<InputEvent> {
    match r.pc
    case Reading => StillToRead(r.unread)
    case Checking(e) => [e] + if e.EndOfInput? then [] else StillToRead(r.unread)
    case Pushing(e) => [e] + if e.EndOfInput? then [] else StillToRead(r.unread)
    case ReaderDone => []
  }

  ghost function StillToEmit(m: Matcher): seq<OutputEvent> {
    match m.pc
    case Emitting(rows, _) => rows
    case Handing(rows, _) => rows
    case _ => []
  }

  ghost predicate ReaderInv(lines: seq<string>, r: Reader, ring: Ring<InputEvent>, stop: bool) {
    && (r.sawStop ==> stop)
    && (if r.pc.Pushing? then !r.sawStop && !ring.producer.PushIdle? && ring.producer.value == r.pc.event
        else ring.producer.PushIdle?)
    && ring.pushed <= AllInput(lines)
    && (!r.sawStop ==> ring.pushed + StillToPush(r) == AllInput(lines))
  }

  ghost predicate PopInv(m: Matcher, ring: Ring<InputEvent>) {
    && (m.pc.Popping? <==> !ring.consumer.PopIdle?)
    && m.book == Run(EmptyBook, ring.popped).book
  }

  ghost predicate EmitInv(m: Matcher, popped: seq<InputEvent>, ring: Ring<OutputEvent>, stop: bool) {
    && (m.sawStop ==> stop)
    && (if m.pc.Handing? then
          !m.sawStop && m.pc.rows != [] && !ring.producer.PushIdle? && ring.producer.value == m.pc.rows[0]
        else ring.producer.PushIdle?)
    && (m.pc.Emitting? ==> m.pc.rows != [])
    && (m.pc.Emitting? || m.pc.Handing? ==> (m.pc.last <==> Finished(popped)))
    && (m.pc.Polling? || m.pc.Popping? ==> !Finished(popped))
    && (m.pc.MatcherDone? && !m.sawStop ==> Finished(popped))
    && ring.pushed <= RowsFor(popped)
    && (!m.sawStop ==> ring.pushed + StillToEmit(m) == RowsFor(popped))
  }

  ghost predicate WriterInv(w: Writer, ring: Ring<OutputEvent>, stop: bool) {
    && (w.sawStop ==> stop)
    && (w.pc == WriterDone(false) ==> w.sawStop)
    && (w.pc.Taking? <==> !ring.consumer.PopIdle?)
    && NoSentinel(w.written)
    && ring.popped == w.written + if w.pc == WriterDone(true) then [EndOfOutput] else []
  }

  ghost predicate PipelineInv(lines: seq<string>, s: State) {
    && Inv(s.input) && Inv(s.output)
    && ReaderInv(lines, s.reader, s.input, s.stop)
    && PopInv(s.matcher, s.input)
    && EmitInv(s.matcher, s.input.popped, s.output, s.stop)
    && WriterInv(s.writer, s.output, s.stop)
  }

  // ---- facts about the sequential run

  lemma {:induction false} MeaningIsNoSentinel(line: string)
    ensures Meaning(line).Parsed? ==> !Meaning(line).event.EndOfInput?
  {
  }

  lemma {:induction false} EventsHaveNoSentinel(lines: seq<string>)
    ensures forall i :: 0 <= i < |EventsOf(lines)| ==> !EventsOf(lines)[i].EndOfInput?
  {
    if lines != [] {
      hide Meaning;
      MeaningIsNoSentinel(lines[0]);
      EventsHaveNoSentinel(lines[1..]);
    }
  }

  lemma {:induction false} MatchRowsNoSentinel(side: Side, s: seq<Order>, id: int, limit: int, need: int)
    ensures NoSentinel(Match(side, s, id, limit, need).rows)
    decreases |s|
  {
    if !(need <= 0 || s == [] || !Crosses(side, limit, s[0].price)) && s[0].qty <= need {
      MatchRowsNoSentinel(side, s[1..], id, limit, need - s[0].qty);
    }
  }

  lemma StepRowsNoSentinel(b: Book, e: InputEvent)
    ensures NoSentinel(Step(b, e).rows)
  {
    if Accepted(e) && !Killed(b, e) {
      var side := Opposite(e.side);
      MatchRowsNoSentinel(side, b.On(side), e.orderId, e.price, e.quantity);
    }
  }

  lemma {:induction false} RunRowsNoSentinel(b: Book, events: seq<InputEvent>)
    ensures NoSentinel(Run(b, events).rows)
    decreases |events|
  {
    if events != [] {
      hide Step;
      StepRowsNoSentinel(b, events[0]);
      RunRowsNoSentinel(Step(b, events[0]).book, events[1..]);
    }
  }

  /** The rows of a prefix of the input are a prefix of all rows. */
  lemma RowsForPrefix(lines: seq<string>, events: seq<InputEvent>)
    requires events <= AllInput(lines)
    ensures RowsFor(events) <= RowsFor(AllInput(lines))
    ensures Finished(events) ==> events == AllInput(lines)
  {
    var all := AllInput(lines);
    var rest := all[|events|..];
    assert all == events + rest;
    RunConcat(EmptyBook, events, rest);
    EventsHaveNoSentinel(lines);
    if Finished(events) {
      assert all[|events| - 1].EndOfInput?;
      assert |events| == |all|;
    }
  }

  lemma RowsForAll(lines: seq<string>)
    ensures RowsFor(AllInput(lines)) == Run(EmptyBook, EventsOf(lines)).rows + [EndOfOutput]
  {
    RunConcat(EmptyBook, EventsOf(lines), [EndOfInput]);
    var b := Run(EmptyBook, EventsOf(lines)).book;
    RunOne(b, EndOfInput);
    assert Run(b, [EndOfInput]).rows == [];
  }

  /** Handling one more event extends the rows by that event's rows. */
  lemma RowsForSnoc(events: seq<InputEvent>, e: InputEvent)
    requires !Finished(events)
    ensures var b := Run(EmptyBook, events).book;
      && RowsFor(events + [e]) == RowsFor(events) + (if e.EndOfInput? then [EndOfOutput] else Step(b, e).rows)
      && Run(EmptyBook, events + [e]).book == Step(b, e).book
      && (e.EndOfInput? ==> Step(b, e).book == b)
      && (Finished(events + [e]) <==> e.EndOfInput?)
  {
    var b := Run(EmptyBook, events).book;
    RunConcat(EmptyBook, events, [e]);
    RunOne(b, e);
  }

  // ---- every step keeps the invariant

  lemma StartInv(lines: seq<string>, inputBits: nat, outputBits: nat)
    requires inputBits >= 1 && outputBits >= 1
    ensures PipelineInv(lines, Start(lines, inputBits, outputBits))
  {
    InitInv(inputBits, EndOfInput);
    InitInv(outputBits, EndOfOutput);
  }

  lemma {:induction false} ReadOne(unread: seq<string>)
    requires unread != []
    ensures var m := Meaning(unread[0]);
      StillToRead(unread) == (if m.Parsed? then [m.event] else []) + StillToRead(unread[1..])
  {
    hide Meaning;
  }

  lemma {:induction false} ReadLineKeeps(r: Reader)
    requires r.pc.Reading?
    ensures StillToPush(ReadNext(r)) == StillToPush(r) && !ReadNext(r).pc.Pushing?
  {
    if r.unread != [] {
      MeaningIsNoSentinel(r.unread[0]);
      ReadOne(r.unread);
      hide Meaning, StillToRead;
    }
  }

  /** The reader drops an event because it has seen a stop. */
  lemma ReaderDrops(lines: seq<string>, r: Reader, ring: Ring<InputEvent>, stop: bool)
    requires ReaderInv(lines, r, ring, stop) && r.pc.Checking? && stop
    ensures ReaderInv(lines, r.(pc := NextRead(r.pc.event), sawStop := true), ring, stop)
  {
  }

  /** The reader enters or stays in try_push, or leaves it without having pushed. */
  lemma ReaderTries(lines: seq<string>, r: Reader, ring: Ring<InputEvent>, ring': Ring<InputEvent>, pc: ReaderPc, stop: bool)
    requires ReaderInv(lines, r, ring, stop) && (r.pc.Checking? || r.pc.Pushing?) && !r.sawStop
    requires ring'.pushed == ring.pushed && (pc.Checking? || pc.Pushing?) && pc.event == r.pc.event
    requires if pc.Pushing? then !ring'.producer.PushIdle? && ring'.producer.value == pc.event else ring'.producer.PushIdle?
    ensures ReaderInv(lines, r.(pc := pc), ring', stop)
  {
    hide AllInput, StillToRead;
  }

  /** The reader's event is published. */
  lemma ReaderPushes(lines: seq<string>, r: Reader, ring: Ring<InputEvent>, ring': Ring<InputEvent>, stop: bool)
    requires ReaderInv(lines, r, ring, stop) && r.pc.Pushing?
    requires ring'.pushed == ring.pushed + [r.pc.event] && ring'.producer.PushIdle?
    ensures ReaderInv(lines, r.(pc := NextRead(r.pc.event)), ring', stop)
  {
    hide AllInput, StillToRead;
    var e := r.pc.event;
    var tail := if e.EndOfInput? then [] else StillToRead(r.unread);
    assert ring.pushed + ([e] + tail) == (ring.pushed + [e]) + tail;
  }

  lemma ReaderKeeps(lines: seq<string>, s: State, step: AgentStep)
    requires Inv(s.input) && ReaderInv(lines, s.reader, s.input, s.stop)
    requires CanStep(s, step) && (step.ReadLine? || step.ReaderCheck? || step.ReaderAccess?)
    ensures var s' := ReaderMove(s, step);
      && Inv(s'.input) && ReaderInv(lines, s'.reader, s'.input, s'.stop)
      && s'.input.popped == s.input.popped && s'.input.consumer == s.input.consumer
      && s' == s.(reader := s'.reader, input := s'.input)
  {
    hide Inv, Apply, ReadNext, AllInput, StillToRead;
    match step
    case ReadLine => ReadLineKeeps(s.reader); ReadLineFrame(s.reader);
    case ReaderCheck(b) =>
      if b {
        ReaderDrops(lines, s.reader, s.input, s.stop);
      } else {
        var e := s.reader.pc.event;
        PushEffect(s.input, BeginPush(e));
        ReaderTries(lines, s.reader, s.input, Apply(s.input, BeginPush(e)), Pushing(e), s.stop);
      }
    case ReaderAccess(a) =>
      PushEffect(s.input, a);
      var e, ring := s.reader.pc.event, Apply(s.input, a);
      if a.StoreHead? {
        ReaderPushes(lines, s.reader, s.input, ring, s.stop);
      } else {
        ReaderTries(lines, s.reader, s.input, ring, if ring.producer.PushIdle? then Checking(e) else Pushing(e), s.stop);
      }
  }

  lemma ReadLineFrame(r: Reader)
    requires r.pc.Reading?
    ensures ReadNext(r).sawStop == r.sawStop
  {
  }

  /** The matcher takes the next event off the input and works out its rows. */
  lemma MatcherHandles(m: Matcher, popped: seq<InputEvent>, e: InputEvent, ring: Ring<OutputEvent>, stop: bool)
    requires EmitInv(m, popped, ring, stop) && m.pc.Popping? && m.book == Run(EmptyBook, popped).book
    ensures EmitInv(Handle(m, e), popped + [e], ring, stop)
    ensures Handle(m, e).book == Run(EmptyBook, popped + [e]).book && !Handle(m, e).pc.Popping?
  {
    hide Run, RowsFor, Step, Finished, Handle;
    RowsForSnoc(popped, e);
    var more := if e.EndOfInput? then [EndOfOutput] else Step(m.book, e).rows;
    HandleShape(m, e);
    assert m.sawStop || ring.pushed == RowsFor(popped) by {
      assert ring.pushed + [] == ring.pushed;
    }
  }

  lemma HandleShape(m: Matcher, e: InputEvent)
    ensures var more := if e.EndOfInput? then [EndOfOutput] else Step(m.book, e).rows;
      && more != [] && Handle(m, e).pc == Emitting(more, e.EndOfInput?) && Handle(m, e).sawStop == m.sawStop
      && Handle(m, e).book == if e.EndOfInput? then m.book else Step(m.book, e).book
  {
    RowsNonEmpty(m.book, e);
    hide Step;
  }

  /** The matcher starts, continues or gives up polling. */
  lemma MatcherPolls(m: Matcher, popped: seq<InputEvent>, ring: Ring<OutputEvent>, pc: MatcherPc, stop: bool)
    requires EmitInv(m, popped, ring, stop) && (m.pc.Polling? || m.pc.Popping?)
    requires pc.Polling? || pc.Popping?
    ensures EmitInv(m.(pc := pc), popped, ring, stop)
    ensures stop ==> EmitInv(m.(pc := MatcherDone, sawStop := true), popped, ring, stop)
  {
    hide RowsFor, Finished;
  }

  lemma PopKeeps(s: State, step: AgentStep)
    requires Inv(s.input) && PopInv(s.matcher, s.input) && EmitInv(s.matcher, s.input.popped, s.output, s.stop)
    requires CanStep(s, step) && (step.MatcherCheck? || step.MatcherAccess?)
    ensures var s' := PopMove(s, step);
      && Inv(s'.input) && PopInv(s'.matcher, s'.input) && EmitInv(s'.matcher, s'.input.popped, s'.output, s'.stop)
      && s'.input.pushed == s.input.pushed && s'.input.producer == s.input.producer
      && s' == s.(matcher := s'.matcher, input := s'.input)
  {
    hide Inv, Apply, Run, EmitInv, Handle;
    var m, popped := s.matcher, s.input.popped;
    match step
    case MatcherCheck(b) =>
      MatcherPolls(m, popped, s.output, Popping, s.stop);
      if !b {
        PopEffect(s.input, BeginPop);
      }
    case MatcherAccess(a) =>
      PopEffect(s.input, a);
      InvPrefix(s.input);
      MatcherPolls(m, popped, s.output, Polling, s.stop);
      if a.StoreTail? {
        var e := s.input.consumer.value;
        assert s.input.pushed[..|popped| + 1] == popped + [e];
        MatcherHandles(m, popped, e, s.output, s.stop);
      }
  }

  /** Every event other than the sentinel yields at least one row. */
  lemma RowsNonEmpty(b: Book, e: InputEvent)
    ensures !e.EndOfInput? ==> Step(b, e).rows != []
  {
  }

  /** A row is dropped because a stop has been seen. */
  lemma EmitDrops(m: Matcher, popped: seq<InputEvent>, ring: Ring<OutputEvent>, stop: bool)
    requires EmitInv(m, popped, ring, stop) && m.pc.Emitting? && stop
    ensures EmitInv(m.(pc := Remaining(m.pc.rows[1..], m.pc.last), sawStop := true), popped, ring, stop)
  {
    hide RowsFor, Finished;
  }

  /** The emitter enters or stays in try_push, or leaves it without having pushed. */
  lemma EmitTries(m: Matcher, popped: seq<InputEvent>, ring: Ring<OutputEvent>, ring': Ring<OutputEvent>,
                  pc: MatcherPc, stop: bool)
    requires EmitInv(m, popped, ring, stop) && (m.pc.Emitting? || m.pc.Handing?) && !m.sawStop
    requires ring'.pushed == ring.pushed && (pc.Emitting? || pc.Handing?) && pc.rows == m.pc.rows && pc.last == m.pc.last
    requires pc.rows != []
    requires if pc.Handing? then !ring'.producer.PushIdle? && ring'.producer.value == pc.rows[0]
             else ring'.producer.PushIdle?
    ensures EmitInv(m.(pc := pc), popped, ring', stop)
  {
    hide RowsFor, Finished;
  }

  /** A row is published. */
  lemma EmitPushes(m: Matcher, popped: seq<InputEvent>, ring: Ring<OutputEvent>, ring': Ring<OutputEvent>, stop: bool)
    requires EmitInv(m, popped, ring, stop) && m.pc.Handing?
    requires ring'.pushed == ring.pushed + [m.pc.rows[0]] && ring'.producer.PushIdle?
    ensures EmitInv(m.(pc := Remaining(m.pc.rows[1..], m.pc.last)), popped, ring', stop)
  {
    hide RowsFor, Finished;
    var rows := m.pc.rows;
    assert ring.pushed + rows == (ring.pushed + [rows[0]]) + rows[1..];
  }

  lemma EmitKeeps(s: State, step: AgentStep)
    requires Inv(s.output) && EmitInv(s.matcher, s.input.popped, s.output, s.stop)
    requires CanStep(s, step) && (step.EmitCheck? || step.EmitAccess?)
    ensures var s' := EmitMove(s, step);
      && Inv(s'.output) && EmitInv(s'.matcher, s'.input.popped, s'.output, s'.stop)
      && !s'.matcher.pc.Popping? && s'.matcher.book == s.matcher.book
      && s'.output.popped == s.output.popped && s'.output.consumer == s.output.consumer
      && s' == s.(matcher := s'.matcher, output := s'.output)
  {
    var m, popped := s.matcher, s.input.popped;
    var pc := m.pc;
    HandingIsUnstopped(m, popped, s.output, s.stop);
    hide Inv, Apply, EmitInv;
    match step
    case EmitCheck(b) =>
      if b {
        EmitDrops(m, popped, s.output, s.stop);
      } else {
        PushEffect(s.output, BeginPush(pc.rows[0]));
        EmitTries(m, popped, s.output, Apply(s.output, BeginPush(pc.rows[0])), Handing(pc.rows, pc.last), s.stop);
      }
    case EmitAccess(a) =>
      PushEffect(s.output, a);
      var ring := Apply(s.output, a);
      if a.StoreHead? {
        EmitPushes(m, popped, s.output, ring, s.stop);
      } else {
        EmitTries(m, popped, s.output, ring,
                  if ring.producer.PushIdle? then Emitting(pc.rows, pc.last) else pc, s.stop);
      }
  }

  lemma HandingIsUnstopped(m: Matcher, popped: seq<InputEvent>, ring: Ring<OutputEvent>, stop: bool)
    requires EmitInv(m, popped, ring, stop)
    ensures m.pc.Handing? ==>
      !m.sawStop && m.pc.rows != [] && !ring.producer.PushIdle? && ring.producer.value == m.pc.rows[0]
  {
  }

  lemma WriterKeeps(s: State, step: AgentStep)
    requires Inv(s.output) && WriterInv(s.writer, s.output, s.stop)
    requires CanStep(s, step) && (step.WriterCheck? || step.WriterAccess?)
    ensures var s' := WriterMove(s, step);
      && Inv(s'.output) && WriterInv(s'.writer, s'.output, s'.stop)
      && s'.output.pushed == s.output.pushed && s'.output.producer == s.output.producer
      && s' == s.(writer := s'.writer, output := s'.output)
  {
    hide Inv, Apply;
    match step
    case WriterCheck(b) =>
      if !b {
        PopEffect(s.output, BeginPop);
      }
    case WriterAccess(a) =>
      PopEffect(s.output, a);
      InvPrefix(s.output);
      if a.StoreTail? {
        var popped := s.output.popped;
        assert s.output.pushed[..|popped| + 1] == popped + [s.output.consumer.value];
      }
  }

  lemma MoveKeeps(lines: seq<string>, s: State, step: AgentStep)
    requires PipelineInv(lines, s) && CanStep(s, step)
    ensures PipelineInv(lines, Move(s, step))
  {
    hide Inv, ReaderMove, PopMove, EmitMove, WriterMove, CanStep, AllInput, RowsFor, Run, StillToPush;
    if step.ReadLine? || step.ReaderCheck? || step.ReaderAccess? {
      ReaderKeeps(lines, s, step);
    } else if step.MatcherCheck? || step.MatcherAccess? {
      PopKeeps(s, step);
    } else if step.EmitCheck? || step.EmitAccess? {
      EmitNotPopping(s, step);
      EmitKeeps(s, step);
    } else if step.WriterCheck? || step.WriterAccess? {
      WriterKeeps(s, step);
    }
  }

  lemma EmitNotPopping(s: State, step: AgentStep)
    requires CanStep(s, step) && (step.EmitCheck? || step.EmitAccess?)
    ensures !s.matcher.pc.Popping?
  {
  }

  lemma {:induction false} ExecutionKeeps(lines: seq<string>, s: State, steps: seq<AgentStep>)
    requires PipelineInv(lines, s) && Interleaving(s, steps)
    ensures PipelineInv(lines, EndState(s, steps))
    decreases |steps|
  {
    if steps != [] {
      hide PipelineInv, Move, CanStep;
      MoveKeeps(lines, s, steps[0]);
      ExecutionKeeps(lines, Move(s, steps[0]), steps[1..]);
    }
  }

  lemma ShortOfSentinel(taken: seq<OutputEvent>, rows: seq<OutputEvent>)
    requires NoSentinel(taken) && taken <= rows + [EndOfOutput]
    ensures taken <= rows
  {
    assert (rows + [EndOfOutput])[|rows|].EndOfOutput?;
  }

  /** What the invariant says about the output. */
  lemma WrittenRows(lines: seq<string>, s: State)
    requires PipelineInv(lines, s)
    ensures var rows := Run(EmptyBook, EventsOf(lines)).rows;
      s.writer.written <= rows && (s.writer.pc == WriterDone(true) ==> s.writer.written == rows)
  {
    hide Run, EventsOf, AllInput, Inv;
    var rows := Run(EmptyBook, EventsOf(lines)).rows;
    InvPrefix(s.input);
    InvPrefix(s.output);
    RowsForPrefix(lines, s.input.popped);
    RowsForAll(lines);
    RunRowsNoSentinel(EmptyBook, EventsOf(lines));
    var all, taken := rows + [EndOfOutput], s.output.popped;
    assert taken <= s.output.pushed <= RowsFor(s.input.popped) <= all;
    if s.writer.pc == WriterDone(true) {
      var k := |s.writer.written|;
      assert taken[k].EndOfOutput? && all[k].EndOfOutput?;
      assert k == |rows|;
      assert s.writer.written == all[..k];
    } else {
      assert s.writer.written == taken;
      ShortOfSentinel(taken, rows);
    }
  }

  /** Under every interleaving and every stop request, what has been written is a prefix of the
      sequential output, and all of it if the writer has handled the sentinel. */
  lemma PipelineIsSequential(lines: seq<string>, inputBits: nat, outputBits: nat, steps: seq<AgentStep>)
    requires inputBits >= 1 && outputBits >= 1
    requires Interleaving(Start(lines, inputBits, outputBits), steps)
    ensures var s := EndState(Start(lines, inputBits, outputBits), steps);
      var rows := Run(EmptyBook, EventsOf(lines)).rows;
      s.writer.written <= rows && (s.writer.pc == WriterDone(true) ==> s.writer.written == rows)
  {
    hide PipelineInv, Interleaving, EndState, Start, Run;
    StartInv(lines, inputBits, outputBits);
    ExecutionKeeps(lines, Start(lines, inputBits, outputBits), steps);
    WrittenRows(lines, EndState(Start(lines, inputBits, outputBits), steps));
  }
}
