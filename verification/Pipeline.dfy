/** The reader, the matcher and the writer, joined by two ring buffers, with a
    sticky stop flag and an in-band shutdown sentinel. Every interleaving of the
    three agents' accesses is an execution. */
module Pipeline {
  import opened Messages
  import opened Reference
  import opened RingProtocol
  import opened InputParser

  datatype ReaderPc =
    | Reading
    | Checking(event: InputEvent)     // about to test the stop flag in the push loop
    | Pushing(event: InputEvent)      // inside try_push
    | ReaderDone

  datatype Reader = Reader(unread: seq<string>, pc: ReaderPc, sawStop: bool)

  /** `rows` are the rows of the current event not yet handed on; `last` if that event is the sentinel. */
  datatype MatcherPc =
    | Polling
    | Popping
    | Emitting(rows: seq<OutputEvent>, last: bool)
    | Handing(rows: seq<OutputEvent>, last: bool)
    | MatcherDone

  datatype Matcher = Matcher(book: Book, pc: MatcherPc, sawStop: bool)

  datatype WriterPc =
    | Awaiting
    | Taking
    | WriterDone(flushed: bool)       // flushed if it handled the sentinel

  datatype Writer = Writer(written: seq<OutputEvent>, pc: WriterPc, sawStop: bool)

  datatype State = State(
    reader: Reader,
    input: Ring<InputEvent>,
    matcher: Matcher,
    output: Ring<OutputEvent>,
    writer: Writer,
    stop: bool)

  /** One step of one agent. Reading the stop flag may miss a stop another agent has already seen,
      but never one this agent has seen. */
  datatype AgentStep =
    | ReadLine
    | ReaderCheck(seesStop: bool)
    | ReaderAccess(push: Action<InputEvent>)
    | MatcherCheck(seesStop: bool)
    | MatcherAccess(pop: Action<InputEvent>)
    | EmitCheck(seesStop: bool)
    | EmitAccess(emit: Action<OutputEvent>)
    | WriterCheck(seesStop: bool)
    | WriterAccess(take: Action<OutputEvent>)
    | RequestStop

  function Start(lines: seq<string>, inputBits: nat, outputBits: nat): State {
    State(Reader(lines, Reading, false), Init(inputBits, EndOfInput),
          Matcher(EmptyBook, Polling, false), Init(outputBits, EndOfOutput),
          Writer([], Awaiting, false), false)
  }

  predicate MayObserve(saw: bool, stop: bool, b: bool) {
    (saw ==> b) && (b ==> stop)
  }

  predicate CanStep(s: State, step: AgentStep) {
    match step
    case ReadLine => s.reader.pc.Reading?
    case ReaderCheck(b) =>
      s.reader.pc.Checking? && MayObserve(s.reader.sawStop, s.stop, b) && s.input.producer.PushIdle?
    case ReaderAccess(a) => s.reader.pc.Pushing? && IsPush(a) && !a.BeginPush? && Enabled(s.input, a)
    case MatcherCheck(b) =>
      s.matcher.pc.Polling? && MayObserve(s.matcher.sawStop, s.stop, b) && s.input.consumer.PopIdle?
    case MatcherAccess(a) => s.matcher.pc.Popping? && !IsPush(a) && !a.BeginPop? && Enabled(s.input, a)
    case EmitCheck(b) =>
      && s.matcher.pc.Emitting? && s.matcher.pc.rows != []
      && MayObserve(s.matcher.sawStop, s.stop, b) && s.output.producer.PushIdle?
    case EmitAccess(a) =>
      s.matcher.pc.Handing? && s.matcher.pc.rows != [] && IsPush(a) && !a.BeginPush? && Enabled(s.output, a)
    case WriterCheck(b) =>
      s.writer.pc.Awaiting? && MayObserve(s.writer.sawStop, s.stop, b) && s.output.consumer.PopIdle?
    case WriterAccess(a) => s.writer.pc.Taking? && !IsPush(a) && !a.BeginPop? && Enabled(s.output, a)
    case RequestStop => true
  }

  /** The reader after its push loop ends, whether the event was pushed or dropped. */
  function NextRead(e: InputEvent): ReaderPc {
    if e.EndOfInput? then ReaderDone else Reading
  }

  function ReadNext(r: Reader): Reader {
    if r.unread == [] then r.(pc := Checking(EndOfInput))
    else
      var m := Meaning(r.unread[0]);
      r.(unread := r.unread[1..], pc := if m.Parsed? then Checking(m.event) else Reading)
  }

  /** The matcher once `rows` of the current event remain to be handed on. */
  function Remaining(rows: seq<OutputEvent>, last: bool): MatcherPc {
    if rows != [] then Emitting(rows, last) else if last then MatcherDone else Polling
  }

  /** The matcher handles a popped event: the book applies it, or the sentinel is forwarded. */
  function Handle(m: Matcher, e: InputEvent): Matcher {
    if e.EndOfInput? then m.(pc := Remaining([EndOfOutput], true))
    else
      var r := Step(m.book, e);
      m.(book := r.book, pc := Remaining(r.rows, false))
  }

  function Consume(w: Writer, row: OutputEvent): Writer {
    if row.EndOfOutput? then w.(pc := WriterDone(true)) else w.(written := w.written + [row], pc := Awaiting)
  }

  function ReaderMove(s: State, step: AgentStep): State
    requires CanStep(s, step) && (step.ReadLine? || step.ReaderCheck? || step.ReaderAccess?)
  {
    match step
    case ReadLine => s.(reader := ReadNext(s.reader))
    case ReaderCheck(b) =>
      var e := s.reader.pc.event;
      if b then s.(reader := s.reader.(pc := NextRead(e), sawStop := true))
      else s.(reader := s.reader.(pc := Pushing(e)), input := Apply(s.input, BeginPush(e)))
    case ReaderAccess(a) =>
      var e, ring := s.reader.pc.event, Apply(s.input, a);
      var pc := if a.StoreHead? then NextRead(e) else if ring.producer.PushIdle? then Checking(e) else Pushing(e);
      s.(reader := s.reader.(pc := pc), input := ring)
  }

  function PopMove(s: State, step: AgentStep): State
    requires CanStep(s, step) && (step.MatcherCheck? || step.MatcherAccess?)
  {
    match step
    case MatcherCheck(b) =>
      if b then s.(matcher := s.matcher.(pc := MatcherDone, sawStop := true))
      else s.(matcher := s.matcher.(pc := Popping), input := Apply(s.input, BeginPop))
    case MatcherAccess(a) =>
      var ring := Apply(s.input, a);
      var matcher :=
        if a.StoreTail? then Handle(s.matcher, s.input.consumer.value)
        else if ring.consumer.PopIdle? then s.matcher.(pc := Polling) else s.matcher;
      s.(matcher := matcher, input := ring)
  }

  function EmitMove(s: State, step: AgentStep): State
    requires CanStep(s, step) && (step.EmitCheck? || step.EmitAccess?)
  {
    match step
    case EmitCheck(b) =>
      var pc := s.matcher.pc;
      if b then s.(matcher := s.matcher.(pc := Remaining(pc.rows[1..], pc.last), sawStop := true))
      else s.(matcher := s.matcher.(pc := Handing(pc.rows, pc.last)), output := Apply(s.output, BeginPush(pc.rows[0])))
    case EmitAccess(a) =>
      var pc, ring := s.matcher.pc, Apply(s.output, a);
      var pc' := if a.StoreHead? then Remaining(pc.rows[1..], pc.last)
                 else if ring.producer.PushIdle? then Emitting(pc.rows, pc.last) else pc;
      s.(matcher := s.matcher.(pc := pc'), output := ring)
  }

  function WriterMove(s: State, step: AgentStep): State
    requires CanStep(s, step) && (step.WriterCheck? || step.WriterAccess?)
  {
    match step
    case WriterCheck(b) =>
      if b then s.(writer := s.writer.(pc := WriterDone(false), sawStop := true))
      else s.(writer := s.writer.(pc := Taking), output := Apply(s.output, BeginPop))
    case WriterAccess(a) =>
      var ring := Apply(s.output, a);
      var writer :=
        if a.StoreTail? then Consume(s.writer, s.output.consumer.value)
        else if ring.consumer.PopIdle? then s.writer.(pc := Awaiting) else s.writer;
      s.(writer := writer, output := ring)
  }

  function Move(s: State, step: AgentStep): State
    requires CanStep(s, step)
  {
    match step
    case ReadLine => ReaderMove(s, step)
    case ReaderCheck(_) => ReaderMove(s, step)
    case ReaderAccess(_) => ReaderMove(s, step)
    case MatcherCheck(_) => PopMove(s, step)
    case MatcherAccess(_) => PopMove(s, step)
    case EmitCheck(_) => EmitMove(s, step)
    case EmitAccess(_) => EmitMove(s, step)
    case WriterCheck(_) => WriterMove(s, step)
    case WriterAccess(_) => WriterMove(s, step)
    case RequestStop => s.(stop := true)
  }

  ghost predicate Interleaving(s: State, steps: seq<AgentStep>)
    decreases |steps|
  {
    steps == [] || (CanStep(s, steps[0]) && Interleaving(Move(s, steps[0]), steps[1..]))
  }

  ghost function EndState(s: State, steps: seq<AgentStep>): State
    requires Interleaving(s, steps)
    decreases |steps|
  {
    if steps == [] then s else EndState(Move(s, steps[0]), steps[1..])
  }
}
