/** Progress: every productive step uses up exactly one unit of a fixed amount of work,
    and while no stop is requested the pipeline can always go on to the end. */
module PipelineProgress {
  import opened Reference
  import opened RingProtocol
  import opened InputParser
  import opened Pipeline
  import opened PipelineSafety

  /** Lines to read, events to push and to pop, rows to push and to pop. */
  ghost function Work(lines: seq<string>, s: State): int {
    var events, rows := |AllInput(lines)|, |RowsFor(AllInput(lines))|;
    |s.reader.unread| + (events - |s.input.pushed|) + (events - |s.input.popped|)
    + (rows - |s.output.pushed|) + (rows - |s.output.popped|)
  }

  predicate Productive(s: State, step: AgentStep) {
    match step
    case ReadLine => s.reader.unread != []
    case ReaderAccess(a) => a.StoreHead?
    case MatcherAccess(a) => a.StoreTail?
    case EmitAccess(a) => a.StoreHead?
    case WriterAccess(a) => a.StoreTail?
    case _ => false
  }

  lemma WorkIsNatural(lines: seq<string>, s: State)
    requires PipelineInv(lines, s)
    ensures Work(lines, s) >= 0
  {
    hide Run, AllInput, Inv, RowsFor;
    InvPrefix(s.input);
    InvPrefix(s.output);
    RowsForPrefix(lines, s.input.popped);
  }

  /** Reading a line, pushing, popping and writing each take one unit of work; nothing else takes or gives any. */
  lemma WorkIsSpentOneByOne(lines: seq<string>, s: State, step: AgentStep)
    requires PipelineInv(lines, s) && CanStep(s, step)
    ensures Work(lines, Move(s, step)) == Work(lines, s) - if Productive(s, step) then 1 else 0
  {
    hide PipelineInv, AllInput, RowsFor, Inv, Apply, Step, Meaning;
    Rings(lines, s);
    match step
    case ReadLine =>
    case ReaderCheck(b) =>
      if !b {
        PushEffect(s.input, BeginPush(s.reader.pc.event));
      }
    case ReaderAccess(a) => PushEffect(s.input, a);
    case MatcherCheck(b) =>
      if !b {
        PopEffect(s.input, BeginPop);
      }
    case MatcherAccess(a) => PopEffect(s.input, a); InvPrefix(s.input);
    case EmitCheck(b) =>
      if !b {
        PushEffect(s.output, BeginPush(s.matcher.pc.rows[0]));
      }
    case EmitAccess(a) => PushEffect(s.output, a);
    case WriterCheck(b) =>
      if !b {
        PopEffect(s.output, BeginPop);
      }
    case WriterAccess(a) => PopEffect(s.output, a); InvPrefix(s.output);
    case RequestStop =>
  }

  lemma Rings(lines: seq<string>, s: State)
    requires PipelineInv(lines, s)
    ensures Inv(s.input) && Inv(s.output)
  {
  }

  // ---- how far each agent is from its next productive step

  function PushRank<T>(p: Producer<T>): nat {
    match p
    case PushIdle => 4
    case PushLoaded(_, _) => 3
    case PushChecked(_, _, _) => 2
    case PushWritten(_, _, _) => 1
  }

  function PopRank<T>(c: Consumer<T>): nat {
    match c
    case PopIdle => 4
    case PopLoaded(_) => 3
    case PopChecked(_) => 2
    case PopRead(_, _) => 1
  }

  function ReaderRank(s: State): nat {
    match s.reader.pc
    case Reading => 5
    case Checking(_) => 4
    case Pushing(_) => PushRank(s.input.producer)
    case ReaderDone => 0
  }

  function MatcherRank(s: State): nat {
    match s.matcher.pc
    case Polling => 4
    case Popping => PopRank(s.input.consumer)
    case Emitting(_, _) => 4
    case Handing(_, _) => PushRank(s.output.producer)
    case MatcherDone => 0
  }

  function WriterRank(s: State): nat {
    match s.writer.pc
    case Awaiting => 4
    case Taking => PopRank(s.output.consumer)
    case WriterDone(_) => 0
  }

  function Rank(s: State): nat {
    ReaderRank(s) + MatcherRank(s) + WriterRank(s)
  }

  ghost predicate AllDone(s: State) {
    s.reader.pc.ReaderDone? && s.matcher.pc.MatcherDone? && s.writer.pc == WriterDone(true)
  }

  /** A step that does productive work or brings its agent closer to some. */
  ghost predicate Helps(s: State, step: AgentStep) {
    && CanStep(s, step) && !step.RequestStop?
    && (Productive(s, step) || Rank(Move(s, step)) < Rank(s))
  }

  /** The next access of a push that will go through, and of a pop that will find something. */
  function NextPush<T>(r: Ring<T>): Action<T> {
    match r.producer
    case PushIdle => StoreHead
    case PushLoaded(_, _) => LoadTail(|r.popped|)
    case PushChecked(_, _, _) => WriteSlot
    case PushWritten(_, _, _) => StoreHead
  }

  function NextPop<T>(r: Ring<T>): Action<T> {
    match r.consumer
    case PopIdle => StoreTail
    case PopLoaded(_) => LoadHead(|r.pushed|)
    case PopChecked(_) => ReadSlot
    case PopRead(_, _) => StoreTail
  }

  lemma PushAdvances<T>(r: Ring<T>)
    requires Inv(r) && !r.producer.PushIdle? && |r.pushed| == |r.popped|
    ensures var a := NextPush(r);
      && IsPush(a) && !a.BeginPush? && Enabled(r, a)
      && (!a.StoreHead? ==> PushRank(Apply(r, a).producer) < PushRank(r.producer) && !Apply(r, a).producer.PushIdle?)
  {
    SlotAccessible(r);
    FreshLoads(r);
  }

  lemma PopAdvances<T>(r: Ring<T>)
    requires Inv(r) && !r.consumer.PopIdle? && |r.popped| < |r.pushed|
    ensures var a := NextPop(r);
      && !IsPush(a) && !a.BeginPop? && Enabled(r, a)
      && (!a.StoreTail? ==> PopRank(Apply(r, a).consumer) < PopRank(r.consumer) && !Apply(r, a).consumer.PopIdle?)
  {
    SlotAccessible(r);
    FreshLoads(r);
  }

  /** With rows waiting, the writer can take one. */
  lemma WriterHelps(lines: seq<string>, s: State) returns (step: AgentStep)
    requires PipelineInv(lines, s) && !s.stop && |s.output.popped| < |s.output.pushed| && !s.writer.pc.WriterDone?
    ensures Helps(s, step)
  {
    hide ReaderInv, PopInv, EmitInv, Inv, Apply;
    if s.writer.pc.Awaiting? {
      step := WriterCheck(false);
      PopEffect(s.output, BeginPop);
    } else {
      PopAdvances(s.output);
      step := WriterAccess(NextPop(s.output));
      PopEffect(s.output, NextPop(s.output));
    }
  }

  /** With the output queue drained, the matcher can hand on a row. */
  lemma EmitHelps(lines: seq<string>, s: State) returns (step: AgentStep)
    requires PipelineInv(lines, s) && !s.stop && |s.output.popped| == |s.output.pushed|
    requires s.matcher.pc.Emitting? || s.matcher.pc.Handing?
    ensures Helps(s, step)
  {
    hide ReaderInv, PopInv, WriterInv, Inv, Apply, RowsFor, Finished;
    if s.matcher.pc.Emitting? {
      step := EmitCheck(false);
      PushEffect(s.output, BeginPush(s.matcher.pc.rows[0]));
    } else {
      PushAdvances(s.output);
      step := EmitAccess(NextPush(s.output));
      PushEffect(s.output, NextPush(s.output));
    }
  }

  /** With events waiting and none in hand, the matcher can take one. */
  lemma PopHelps(lines: seq<string>, s: State) returns (step: AgentStep)
    requires PipelineInv(lines, s) && !s.stop && |s.input.popped| < |s.input.pushed|
    requires s.matcher.pc.Polling? || s.matcher.pc.Popping?
    ensures Helps(s, step)
  {
    hide ReaderInv, WriterInv, Inv, Apply, RowsFor, Finished, Run, Handle;
    if s.matcher.pc.Polling? {
      step := MatcherCheck(false);
      PopEffect(s.input, BeginPop);
    } else {
      PopAdvances(s.input);
      step := MatcherAccess(NextPop(s.input));
      PopEffect(s.input, NextPop(s.input));
    }
  }

  /** With the input queue drained, the reader can read on or push. */
  lemma ReaderHelps(lines: seq<string>, s: State) returns (step: AgentStep)
    requires PipelineInv(lines, s) && !s.stop && |s.input.popped| == |s.input.pushed| && !s.reader.pc.ReaderDone?
    ensures Helps(s, step)
  {
    hide PopInv, EmitInv, WriterInv, Inv, Apply, AllInput, StillToRead, Meaning;
    match s.reader.pc
    case Reading => step := ReadLine;
    case Checking(e) =>
      step := ReaderCheck(false);
      PushEffect(s.input, BeginPush(e));
    case Pushing(_) =>
      PushAdvances(s.input);
      step := ReaderAccess(NextPush(s.input));
      PushEffect(s.input, NextPush(s.input));
  }

  /** Nothing left anywhere means that everyone has finished. */
  lemma IdleMeansDone(lines: seq<string>, s: State)
    requires PipelineInv(lines, s) && !s.stop && s.reader.pc.ReaderDone?
    requires |s.input.popped| == |s.input.pushed| && |s.output.popped| == |s.output.pushed|
    requires !s.matcher.pc.Emitting? && !s.matcher.pc.Handing?
    ensures AllDone(s)
  {
    hide Inv, Run;
    InvPrefix(s.input);
    InvPrefix(s.output);
    var all := AllInput(lines);
    assert s.input.pushed + [] == s.input.pushed;
    assert s.input.popped == all && Finished(all);
    RowsForAll(lines);
    assert s.output.pushed + [] == s.output.pushed;
    assert s.output.popped[|s.output.popped| - 1].EndOfOutput?;
  }

  /** While no stop is requested, a pipeline with an unfinished agent has a step that helps. */
  lemma NeverStuck(lines: seq<string>, s: State) returns (step: AgentStep)
    requires PipelineInv(lines, s) && !s.stop && !AllDone(s)
    ensures Helps(s, step)
  {
    hide PipelineInv, Inv, Helps;
    Rings(lines, s);
    WriterEndsLast(lines, s);
    InvPrefix(s.input);
    InvPrefix(s.output);
    if |s.output.popped| < |s.output.pushed| {
      step := WriterHelps(lines, s);
    } else if s.matcher.pc.Emitting? || s.matcher.pc.Handing? {
      step := EmitHelps(lines, s);
    } else if |s.input.popped| < |s.input.pushed| {
      step := PopHelps(lines, s);
    } else if !s.reader.pc.ReaderDone? {
      step := ReaderHelps(lines, s);
    } else {
      IdleMeansDone(lines, s);
      assert false;
    }
  }

  /** Unstopped, an agent ends only behind the sentinel, with nothing left for it to take. */
  lemma WriterEndsLast(lines: seq<string>, s: State)
    requires PipelineInv(lines, s) && !s.stop
    ensures s.writer.pc.WriterDone? ==> |s.output.popped| == |s.output.pushed|
    ensures s.matcher.pc.MatcherDone? ==> |s.input.popped| == |s.input.pushed|
  {
    hide Inv, Run;
    InvPrefix(s.input);
    InvPrefix(s.output);
    RowsForPrefix(lines, s.input.popped);
    if s.writer.pc.WriterDone? {
      WrittenRows(lines, s);
      RowsForAll(lines);
    }
  }

  /** From every state reachable without a stop request, some continuation finishes:
      all three agents end and the whole sequential output has been written. */
  lemma CanFinish(lines: seq<string>, s: State) returns (steps: seq<AgentStep>)
    requires PipelineInv(lines, s) && !s.stop
    ensures Interleaving(s, steps)
    ensures var end := EndState(s, steps);
      AllDone(end) && end.writer.written == Run(EmptyBook, EventsOf(lines)).rows
    decreases if PipelineInv(lines, s) then Work(lines, s) else 0, Rank(s)
  {
    if AllDone(s) {
      steps := [];
      WrittenRows(lines, s);
    } else {
      var step := NeverStuck(lines, s);
      MoveKeeps(lines, s, step);
      WorkIsSpentOneByOne(lines, s, step);
      WorkIsNatural(lines, s);
      WorkIsNatural(lines, Move(s, step));
      StopStays(s, step);
      hide PipelineInv, Move, CanStep, Work, Rank, Run, AllDone, Productive;
      var rest := CanFinish(lines, Move(s, step));
      steps := [step] + rest;
      assert steps[1..] == rest;
    }
  }

  lemma StopStays(s: State, step: AgentStep)
    requires CanStep(s, step) && !step.RequestStop?
    ensures Move(s, step).stop == s.stop
  {
  }

  lemma {:induction false} StopNeedsRequest(s: State, steps: seq<AgentStep>)
    requires Interleaving(s, steps) && forall i :: 0 <= i < |steps| ==> !steps[i].RequestStop?
    ensures EndState(s, steps).stop == s.stop
    decreases |steps|
  {
    if steps != [] {
      hide Move, CanStep;
      StopStays(s, steps[0]);
      StopNeedsRequest(Move(s, steps[0]), steps[1..]);
    }
  }

  /** Whatever has happened so far, if nobody has requested a stop the run can still end
      with all agents finished and every row of the sequential run written. */
  lemma UnstoppedRunsCanFinish(lines: seq<string>, inputBits: nat, outputBits: nat, steps: seq<AgentStep>)
    returns (more: seq<AgentStep>)
    requires inputBits >= 1 && outputBits >= 1
    requires Interleaving(Start(lines, inputBits, outputBits), steps)
    requires forall i :: 0 <= i < |steps| ==> !steps[i].RequestStop?
    ensures var s := EndState(Start(lines, inputBits, outputBits), steps);
      && Interleaving(s, more)
      && var end := EndState(s, more);
         AllDone(end) && end.writer.written == Run(EmptyBook, EventsOf(lines)).rows
  {
    var start := Start(lines, inputBits, outputBits);
    StartInv(lines, inputBits, outputBits);
    StopNeedsRequest(start, steps);
    ExecutionKeeps(lines, start, steps);
    hide PipelineInv, Interleaving, EndState, Run, AllDone;
    more := CanFinish(lines, EndState(start, steps));
  }
}
