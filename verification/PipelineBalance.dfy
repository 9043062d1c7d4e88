/** Nothing is lost without a stop: every event the reader parses and every row the matcher owes is
    handed on, still in hand, or was dropped by one test of the stop flag that saw the stop. */
module PipelineBalance {
  import opened Reference
  import opened RingProtocol
  import opened InputParser
  import opened Pipeline
  import opened PipelineSafety
  import opened PipelineProgress
  import opened PipelineStop

  /** How many steps of an execution dropped an event, and how many dropped a row. */
  ghost function EventDrops(steps: seq<AgentStep>): nat {
    if steps == [] then 0 else (if steps[0] == ReaderCheck(true) then 1 else 0) + EventDrops(steps[1..])
  }

  ghost function RowDrops(steps: seq<AgentStep>): nat {
    if steps == [] then 0 else (if steps[0] == EmitCheck(true) then 1 else 0) + RowDrops(steps[1..])
  }

  /** Events and rows handed on or in hand. */
  ghost function EventsKept(s: State): int {
    |s.input.pushed| + |StillToPush(s.reader)|
  }

  ghost function RowsShort(s: State): int {
    |RowsFor(s.input.popped)| - |s.output.pushed| - |StillToEmit(s.matcher)|
  }

  lemma ReaderBalance(lines: seq<string>, s: State, step: AgentStep)
    requires PipelineInv(lines, s) && CanStep(s, step) && By(ReaderAgent, step)
    ensures EventsKept(Move(s, step)) == EventsKept(s) - if step == ReaderCheck(true) then 1 else 0
  {
    hide PipelineInv, Inv, Apply, ReadNext, StillToRead;
    Rings(lines, s);
    match step
    case ReadLine => ReadLineKeeps(s.reader);
    case ReaderCheck(b) =>
      if !b {
        PushEffect(s.input, BeginPush(s.reader.pc.event));
      }
    case ReaderAccess(a) => PushEffect(s.input, a);
  }

  lemma PopBalance(lines: seq<string>, s: State, step: AgentStep)
    requires PipelineInv(lines, s) && CanStep(s, step) && (step.MatcherCheck? || step.MatcherAccess?)
    ensures RowsShort(Move(s, step)) == RowsShort(s)
  {
    hide PipelineInv, Inv, Apply, Handle, RowsFor, Run, Step, Finished;
    Rings(lines, s);
    TakesUnfinished(lines, s);
    match step
    case MatcherCheck(b) =>
      if !b {
        PopEffect(s.input, BeginPop);
      }
    case MatcherAccess(a) =>
      PopEffect(s.input, a);
      InvPrefix(s.input);
      if a.StoreTail? {
        var e, popped := s.input.consumer.value, s.input.popped;
        assert s.input.pushed[..|popped| + 1] == popped + [e];
        RowsForSnoc(popped, e);
        HandleShape(s.matcher, e);
      }
  }

  /** A matcher that is taking an event off the input has not handled the sentinel, and its book is up to date. */
  lemma TakesUnfinished(lines: seq<string>, s: State)
    requires PipelineInv(lines, s)
    ensures s.matcher.pc.Popping? ==> !Finished(s.input.popped)
    ensures s.matcher.book == Run(EmptyBook, s.input.popped).book
  {
    hide Inv, Run, RowsFor, AllInput, Finished;
  }

  lemma EmitBalance(lines: seq<string>, s: State, step: AgentStep)
    requires PipelineInv(lines, s) && CanStep(s, step) && (step.EmitCheck? || step.EmitAccess?)
    ensures RowsShort(Move(s, step)) == RowsShort(s) + if step == EmitCheck(true) then 1 else 0
  {
    hide PipelineInv, Inv, Apply, RowsFor;
    Rings(lines, s);
    match step
    case EmitCheck(b) =>
      if !b {
        PushEffect(s.output, BeginPush(s.matcher.pc.rows[0]));
      }
    case EmitAccess(a) => PushEffect(s.output, a);
  }

  /** The other agents touch neither count. */
  lemma BystandersKeep(lines: seq<string>, s: State, step: AgentStep)
    requires PipelineInv(lines, s) && CanStep(s, step)
    ensures !By(ReaderAgent, step) ==> EventsKept(Move(s, step)) == EventsKept(s)
    ensures !By(MatcherAgent, step) ==> RowsShort(Move(s, step)) == RowsShort(s)
  {
    hide Inv, ReaderInv, PopInv, EmitInv, WriterInv, ReaderMove, PopMove, EmitMove, WriterMove, CanStep, StillToPush, StillToEmit, RowsFor;
    if By(ReaderAgent, step) {
      ReaderKeeps(lines, s, step);
    } else if step.MatcherCheck? || step.MatcherAccess? {
      PopKeeps(s, step);
    } else if step.EmitCheck? || step.EmitAccess? {
      EmitKeeps(s, step);
    } else if By(WriterAgent, step) {
      WriterKeeps(s, step);
    }
  }

  lemma MoveBalance(lines: seq<string>, s: State, step: AgentStep)
    requires PipelineInv(lines, s) && CanStep(s, step)
    ensures EventsKept(Move(s, step)) == EventsKept(s) - if step == ReaderCheck(true) then 1 else 0
    ensures RowsShort(Move(s, step)) == RowsShort(s) + if step == EmitCheck(true) then 1 else 0
  {
    hide PipelineInv, CanStep, Move, EventsKept, RowsShort;
    BystandersKeep(lines, s, step);
    if By(ReaderAgent, step) {
      ReaderBalance(lines, s, step);
    } else if step.MatcherCheck? || step.MatcherAccess? {
      PopBalance(lines, s, step);
    } else if step.EmitCheck? || step.EmitAccess? {
      EmitBalance(lines, s, step);
    }
  }

  lemma {:induction false} ExecutionBalance(lines: seq<string>, s: State, steps: seq<AgentStep>)
    requires PipelineInv(lines, s) && Interleaving(s, steps)
    ensures EventsKept(EndState(s, steps)) == EventsKept(s) - EventDrops(steps)
    ensures RowsShort(EndState(s, steps)) == RowsShort(s) + RowDrops(steps)
    decreases |steps|
  {
    if steps != [] {
      hide PipelineInv, CanStep, Move, EventsKept, RowsShort;
      MoveKeeps(lines, s, steps[0]);
      MoveBalance(lines, s, steps[0]);
      ExecutionBalance(lines, Move(s, steps[0]), steps[1..]);
    }
  }

  /** In every interleaving, stopped or not: each event of the whole input, sentinel included, has been
      pushed, is still to come, or was dropped by one test that saw the stop, and likewise each row of the
      events handled so far. So the reader always reads its input to the end. */
  lemma NothingIsLost(lines: seq<string>, inputBits: nat, outputBits: nat, steps: seq<AgentStep>)
    requires inputBits >= 1 && outputBits >= 1
    requires Interleaving(Start(lines, inputBits, outputBits), steps)
    ensures var s := EndState(Start(lines, inputBits, outputBits), steps);
      && |EventsOf(lines)| + 1 == |s.input.pushed| + |StillToPush(s.reader)| + EventDrops(steps)
      && |RowsFor(s.input.popped)| == |s.output.pushed| + |StillToEmit(s.matcher)| + RowDrops(steps)
  {
    var start := Start(lines, inputBits, outputBits);
    StartInv(lines, inputBits, outputBits);
    assert EventsKept(start) == |EventsOf(lines)| + 1 && RowsShort(start) == 0;
    hide PipelineInv, Start, Interleaving, EndState, RowsFor, StillToPush, StillToEmit, EventsOf;
    ExecutionBalance(lines, start, steps);
  }
}
