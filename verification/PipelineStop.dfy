/** Stopping: once a stop is requested, each agent that notices it ends within a fixed number of
    its own steps, whatever the other agents do and however full the rings are. */
module PipelineStop {
  import opened Messages
  import opened Reference
  import opened RingProtocol
  import opened InputParser
  import opened Pipeline
  import opened PipelineSafety
  import opened PipelineProgress

  datatype Agent = ReaderAgent | MatcherAgent | WriterAgent

  /** Whose step it is; a stop request is nobody's. */
  predicate By(a: Agent, step: AgentStep) {
    match a
    case ReaderAgent => step.ReadLine? || step.ReaderCheck? || step.ReaderAccess?
    case MatcherAgent => step.MatcherCheck? || step.MatcherAccess? || step.EmitCheck? || step.EmitAccess?
    case WriterAgent => step.WriterCheck? || step.WriterAccess?
  }

  predicate Ended(a: Agent, s: State) {
    match a
    case ReaderAgent => s.reader.pc.ReaderDone?
    case MatcherAgent => s.matcher.pc.MatcherDone?
    case WriterAgent => s.writer.pc.WriterDone?
  }

  /** A test of the stop flag that sees the stop. */
  predicate Prompt(step: AgentStep) {
    step.ReaderCheck? || step.MatcherCheck? || step.EmitCheck? || step.WriterCheck? ==> step.seesStop
  }

  /** Steps until a reader that drops `e` has dropped the rest of its input as well. */
  function ToDrop(e: InputEvent, unread: seq<string>): nat {
    if e.EndOfInput? then 1 else 2 * |unread| + 3
  }

  /** How many of its own steps an agent has left, at most, once it notices the stop. */
  ghost function Left(lines: seq<string>, a: Agent, s: State): nat {
    match a
    case ReaderAgent =>
      (match s.reader.pc
       case Reading => 2 * |s.reader.unread| + 2
       case Checking(e) => ToDrop(e, s.reader.unread)
       case Pushing(e) => ToDrop(e, s.reader.unread) + PushRank(s.input.producer)
       case ReaderDone => 0)
    case MatcherAgent =>
      (match s.matcher.pc
       case Polling => 1
       case Popping => |RowsFor(AllInput(lines))| + 1 + PopRank(s.input.consumer)
       case Emitting(rows, _) => |rows| + 1
       case Handing(rows, _) => |rows| + 1 + PushRank(s.output.producer)
       case MatcherDone => 0)
    case WriterAgent =>
      (match s.writer.pc
       case Awaiting => 1
       case Taking => 1 + PopRank(s.output.consumer)
       case WriterDone(_) => 0)
  }

  lemma NothingLeftIffEnded(lines: seq<string>, a: Agent, s: State)
    ensures Left(lines, a, s) == 0 <==> Ended(a, s)
  {
    hide RowsFor, AllInput;
  }

  lemma PushRankFalls<T>(r: Ring<T>, a: Action<T>)
    requires Enabled(r, a) && IsPush(a) && !a.BeginPush? && !a.StoreHead?
    ensures Apply(r, a).producer.PushIdle? || PushRank(Apply(r, a).producer) < PushRank(r.producer)
  {
  }

  lemma PopRankFalls<T>(r: Ring<T>, a: Action<T>)
    requires Enabled(r, a) && !IsPush(a) && !a.BeginPop? && !a.StoreTail?
    ensures Apply(r, a).consumer.PopIdle? || PopRank(Apply(r, a).consumer) < PopRank(r.consumer)
  {
  }

  /** The rows of one event are among the rows of all. */
  lemma HandledRowsBounded(lines: seq<string>, s: State)
    requires PipelineInv(lines, s) && s.matcher.pc.Popping? && s.input.consumer.PopRead?
    ensures var pc := Handle(s.matcher, s.input.consumer.value).pc;
      pc.Emitting? && |pc.rows| <= |RowsFor(AllInput(lines))|
  {
    hide Run, RowsFor, AllInput, Step, StillToPush, StillToEmit;
    var e, popped := s.input.consumer.value, s.input.popped;
    assert !Finished(popped);
    assert popped + [e] == s.input.pushed[..|popped| + 1];
    hide Inv, PipelineInv;
    HandleShape(s.matcher, e);
    RowsForSnoc(popped, e);
    RowsForPrefix(lines, popped + [e]);
  }

  lemma ReaderSteps(lines: seq<string>, s: State, step: AgentStep)
    requires PipelineInv(lines, s) && CanStep(s, step) && By(ReaderAgent, step) && Prompt(step)
    ensures Left(lines, ReaderAgent, Move(s, step)) < Left(lines, ReaderAgent, s)
  {
    hide PipelineInv, Apply, Meaning;
    if step.ReadLine? && s.reader.unread != [] {
      MeaningIsNoSentinel(s.reader.unread[0]);
    }
    if step.ReaderAccess? && !step.push.StoreHead? {
      PushRankFalls(s.input, step.push);
    }
  }

  lemma MatcherSteps(lines: seq<string>, s: State, step: AgentStep)
    requires PipelineInv(lines, s) && CanStep(s, step) && By(MatcherAgent, step) && Prompt(step)
    ensures Left(lines, MatcherAgent, Move(s, step)) < Left(lines, MatcherAgent, s)
  {
    hide PipelineInv, Apply, Handle, RowsFor, AllInput;
    if step.MatcherAccess? && step.pop.StoreTail? {
      HandledRowsBounded(lines, s);
    } else if step.MatcherAccess? {
      PopRankFalls(s.input, step.pop);
    } else if step.EmitAccess? && !step.emit.StoreHead? {
      PushRankFalls(s.output, step.emit);
    }
  }

  lemma WriterSteps(lines: seq<string>, s: State, step: AgentStep)
    requires CanStep(s, step) && By(WriterAgent, step) && Prompt(step)
    ensures Left(lines, WriterAgent, Move(s, step)) < Left(lines, WriterAgent, s)
  {
    hide Apply, RowsFor, AllInput;
    if step.WriterAccess? && !step.take.StoreTail? {
      PopRankFalls(s.output, step.take);
    }
  }

  /** Every step of an agent that does not miss the stop brings that agent closer to its end. */
  lemma OwnStepsCount(lines: seq<string>, a: Agent, s: State, step: AgentStep)
    requires PipelineInv(lines, s) && CanStep(s, step) && By(a, step) && Prompt(step)
    ensures Left(lines, a, Move(s, step)) < Left(lines, a, s)
  {
    hide PipelineInv, Move, CanStep, Left, Prompt;
    match a
    case ReaderAgent => ReaderSteps(lines, s, step);
    case MatcherAgent => MatcherSteps(lines, s, step);
    case WriterAgent => WriterSteps(lines, s, step);
  }

  /** What one agent is doing is nothing the others can change. */
  lemma OthersKeep(lines: seq<string>, a: Agent, s: State, step: AgentStep)
    requires PipelineInv(lines, s) && CanStep(s, step) && !By(a, step)
    ensures var s' := Move(s, step);
      match a
      case ReaderAgent => s'.reader == s.reader && s'.input.producer == s.input.producer
      case MatcherAgent =>
        && s'.matcher == s.matcher && s'.input.consumer == s.input.consumer
        && s'.output.producer == s.output.producer
      case WriterAgent => s'.writer == s.writer && s'.output.consumer == s.output.consumer
  {
    hide Inv, ReaderInv, PopInv, EmitInv, WriterInv, ReaderMove, PopMove, EmitMove, WriterMove, CanStep;
    if By(ReaderAgent, step) {
      ReaderKeeps(lines, s, step);
    } else if step.MatcherCheck? || step.MatcherAccess? {
      PopKeeps(s, step);
    } else if step.EmitCheck? || step.EmitAccess? {
      EmitKeeps(s, step);
    } else if By(WriterAgent, step) {
      WriterKeeps(s, step);
    }
  }

  lemma OthersDoNotCount(lines: seq<string>, a: Agent, s: State, step: AgentStep)
    requires PipelineInv(lines, s) && CanStep(s, step) && !By(a, step)
    ensures Left(lines, a, Move(s, step)) == Left(lines, a, s)
  {
    hide PipelineInv, CanStep, Move, RowsFor, AllInput;
    OthersKeep(lines, a, s, step);
  }

  ghost function Count(a: Agent, steps: seq<AgentStep>): nat {
    if steps == [] then 0 else (if By(a, steps[0]) then 1 else 0) + Count(a, steps[1..])
  }

  /** Stopping is wait-free: an agent that notices the stop takes at most the steps it has left, and
      having taken them it has ended, in every interleaving with whatever the others do or fail to do. */
  lemma {:induction false} StopIsWaitFree(lines: seq<string>, a: Agent, s: State, steps: seq<AgentStep>)
    requires PipelineInv(lines, s) && Interleaving(s, steps)
    requires forall i :: 0 <= i < |steps| && By(a, steps[i]) ==> Prompt(steps[i])
    ensures var end := EndState(s, steps);
      && Count(a, steps) + Left(lines, a, end) <= Left(lines, a, s)
      && (Count(a, steps) == Left(lines, a, s) ==> Ended(a, end))
    decreases |steps|
  {
    hide PipelineInv, Move, CanStep, Left, By, Prompt, Ended;
    if steps != [] {
      MoveKeeps(lines, s, steps[0]);
      if By(a, steps[0]) {
        OwnStepsCount(lines, a, s, steps[0]);
      } else {
        OthersDoNotCount(lines, a, s, steps[0]);
      }
      StopIsWaitFree(lines, a, Move(s, steps[0]), steps[1..]);
    }
    NothingLeftIffEnded(lines, a, EndState(s, steps));
  }

  /** A step that reads the stop flag or the other side's index sees at least what state `s` holds. */
  ghost predicate Observes(step: AgentStep, s: State) {
    match step
    case ReaderCheck(b) => s.stop ==> b
    case ReaderAccess(a) => a.LoadTail? ==> |s.input.popped| <= a.observed
    case MatcherCheck(b) => s.stop ==> b
    case MatcherAccess(a) => a.LoadHead? ==> |s.input.pushed| <= a.observed
    case EmitCheck(b) => s.stop ==> b
    case EmitAccess(a) => a.LoadTail? ==> |s.output.popped| <= a.observed
    case WriterCheck(b) => s.stop ==> b
    case WriterAccess(a) => a.LoadHead? ==> |s.output.pushed| <= a.observed
    case _ => true
  }

  /** What an agent does next if it sees the stop flag and the other side's index as they are. */
  function NextStep(a: Agent, s: State): AgentStep {
    match a
    case ReaderAgent =>
      if s.reader.pc.Checking? then ReaderCheck(s.stop)
      else if s.reader.pc.Pushing? then ReaderAccess(NextPush(s.input))
      else ReadLine
    case MatcherAgent =>
      if s.matcher.pc.Popping? then MatcherAccess(NextPop(s.input))
      else if s.matcher.pc.Emitting? then EmitCheck(s.stop)
      else if s.matcher.pc.Handing? then EmitAccess(NextPush(s.output))
      else MatcherCheck(s.stop)
    case WriterAgent =>
      if s.writer.pc.Taking? then WriterAccess(NextPop(s.output)) else WriterCheck(s.stop)
  }

  lemma NextPushEnabled<T>(r: Ring<T>)
    requires Inv(r) && !r.producer.PushIdle?
    ensures var a := NextPush(r);
      IsPush(a) && !a.BeginPush? && Enabled(r, a) && (a.LoadTail? ==> a.observed == |r.popped|)
  {
    SlotAccessible(r);
  }

  lemma NextPopEnabled<T>(r: Ring<T>)
    requires Inv(r) && !r.consumer.PopIdle?
    ensures var a := NextPop(r);
      !IsPush(a) && !a.BeginPop? && Enabled(r, a) && (a.LoadHead? ==> a.observed == |r.pushed|)
  {
    SlotAccessible(r);
  }

  /** An agent is inside a ring operation exactly when its ring says so. */
  lemma CountersAgree(lines: seq<string>, s: State)
    requires PipelineInv(lines, s)
    ensures s.reader.pc.Pushing? <==> !s.input.producer.PushIdle?
    ensures s.matcher.pc.Popping? <==> !s.input.consumer.PopIdle?
    ensures s.matcher.pc.Handing? <==> !s.output.producer.PushIdle?
    ensures s.writer.pc.Taking? <==> !s.output.consumer.PopIdle?
    ensures s.matcher.pc.Emitting? || s.matcher.pc.Handing? ==> s.matcher.pc.rows != []
    ensures s.reader.sawStop || s.matcher.sawStop || s.writer.sawStop ==> s.stop
  {
    hide Inv, AllInput, RowsFor, Run, StillToPush, StillToEmit, Finished;
  }

  /** The agent can take its next step, which misses nothing. */
  ghost predicate Free(a: Agent, s: State) {
    var step := NextStep(a, s);
    CanStep(s, step) && By(a, step) && Observes(step, s) && (s.stop ==> Prompt(step))
  }

  lemma ReaderFree(lines: seq<string>, s: State)
    requires PipelineInv(lines, s) && !Ended(ReaderAgent, s)
    ensures Free(ReaderAgent, s)
  {
    hide PipelineInv, Inv, Enabled, NextPush, NextPop;
    Rings(lines, s);
    CountersAgree(lines, s);
    if s.reader.pc.Pushing? {
      NextPushEnabled(s.input);
    }
  }

  lemma MatcherFree(lines: seq<string>, s: State)
    requires PipelineInv(lines, s) && !Ended(MatcherAgent, s)
    ensures Free(MatcherAgent, s)
  {
    hide PipelineInv, Inv, Enabled, NextPush, NextPop;
    Rings(lines, s);
    CountersAgree(lines, s);
    if s.matcher.pc.Popping? {
      NextPopEnabled(s.input);
    } else if s.matcher.pc.Handing? {
      NextPushEnabled(s.output);
    }
  }

  lemma WriterFree(lines: seq<string>, s: State)
    requires PipelineInv(lines, s) && !Ended(WriterAgent, s)
    ensures Free(WriterAgent, s)
  {
    hide PipelineInv, Inv, Enabled, NextPush, NextPop;
    Rings(lines, s);
    CountersAgree(lines, s);
    if s.writer.pc.Taking? {
      NextPopEnabled(s.output);
    }
  }

  /** No agent is ever blocked: unless it has ended it can always take a step that sees everything there is. */
  lemma NeverBlocked(lines: seq<string>, a: Agent, s: State)
    requires PipelineInv(lines, s) && !Ended(a, s)
    ensures Free(a, s)
  {
    hide PipelineInv, Free;
    match a
    case ReaderAgent => ReaderFree(lines, s);
    case MatcherAgent => MatcherFree(lines, s);
    case WriterAgent => WriterFree(lines, s);
  }

  ghost predicate AllEnded(s: State) {
    forall a :: Ended(a, s)
  }

  ghost function TotalLeft(lines: seq<string>, s: State): nat {
    Left(lines, ReaderAgent, s) + Left(lines, MatcherAgent, s) + Left(lines, WriterAgent, s)
  }

  lemma TotalFalls(lines: seq<string>, a: Agent, s: State, step: AgentStep)
    requires PipelineInv(lines, s) && CanStep(s, step) && By(a, step) && Prompt(step)
    ensures TotalLeft(lines, Move(s, step)) < TotalLeft(lines, s)
  {
    OwnStepsCount(lines, a, s, step);
    hide PipelineInv, CanStep, Move, Left, Prompt;
    if a != ReaderAgent {
      OthersDoNotCount(lines, ReaderAgent, s, step);
    }
    if a != MatcherAgent {
      OthersDoNotCount(lines, MatcherAgent, s, step);
    }
    if a != WriterAgent {
      OthersDoNotCount(lines, WriterAgent, s, step);
    }
  }

  /** From every state with a stop requested some continuation ends all three agents, full rings or not. */
  lemma CanAbort(lines: seq<string>, s: State) returns (steps: seq<AgentStep>)
    requires PipelineInv(lines, s) && s.stop
    ensures Interleaving(s, steps) && AllEnded(EndState(s, steps))
    decreases TotalLeft(lines, s)
  {
    hide PipelineInv, Move, CanStep, Ended, By, Prompt, TotalLeft, Observes, NextStep;
    if a :| !Ended(a, s) {
      var step := NextStep(a, s);
      NeverBlocked(lines, a, s);
      MoveKeeps(lines, s, step);
      StopIsSticky(s, step);
      TotalFalls(lines, a, s, step);
      var rest := CanAbort(lines, Move(s, step));
      steps := [step] + rest;
      assert steps[1..] == rest;
    } else {
      steps := [];
    }
  }

  /** A stop may be requested in every state, and from there all three agents can end. */
  lemma CanStopNow(lines: seq<string>, s: State) returns (steps: seq<AgentStep>)
    requires PipelineInv(lines, s)
    ensures Interleaving(s, [RequestStop] + steps) && AllEnded(EndState(s, [RequestStop] + steps))
  {
    MoveKeeps(lines, s, RequestStop);
    hide PipelineInv, AllEnded;
    steps := CanAbort(lines, Move(s, RequestStop));
    assert ([RequestStop] + steps)[1..] == steps;
  }

  /** Tests of the stop flag race with the request: until an agent has seen the stop, each of its tests
      may still miss it, and may just as well see it. */
  lemma TestsRace(lines: seq<string>, s: State, b: bool)
    requires PipelineInv(lines, s) && s.stop
    ensures s.reader.pc.Checking? && !s.reader.sawStop ==> CanStep(s, ReaderCheck(b))
    ensures s.matcher.pc.Polling? && !s.matcher.sawStop ==> CanStep(s, MatcherCheck(b))
    ensures s.matcher.pc.Emitting? && !s.matcher.sawStop ==> CanStep(s, EmitCheck(b))
    ensures s.writer.pc.Awaiting? && !s.writer.sawStop ==> CanStep(s, WriterCheck(b))
  {
    hide PipelineInv;
    CountersAgree(lines, s);
  }

  lemma StopIsSticky(s: State, step: AgentStep)
    requires CanStep(s, step) && s.stop
    ensures Move(s, step).stop
  {
  }
}
