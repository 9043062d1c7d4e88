/** Inevitability: every fair infinite execution of the pipeline ends all three agents,
    and with the whole sequential output written if no stop is ever requested. */
module PipelineLiveness {
  import opened Messages
  import opened Reference
  import opened RingProtocol
  import opened InputParser
  import opened Pipeline
  import opened PipelineSafety
  import opened PipelineProgress
  import opened PipelineStop

  /** An infinite execution; at some moments nobody moves. */
  datatype Trace = Trace(state: nat -> State, step: nat -> Option<AgentStep>)

  ghost predicate Follows(t: Trace, i: nat) {
    match t.step(i)
    case None => t.state(i + 1) == t.state(i)
    case Some(step) => CanStep(t.state(i), step) && t.state(i + 1) == Move(t.state(i), step)
  }

  ghost predicate MovesAt(t: Trace, a: Agent, i: nat) {
    t.step(i).Some? && By(a, t.step(i).value)
  }

  /** From moment `i` on, the agent still gets to move unless it has ended. */
  ghost predicate GetsTurn(t: Trace, a: Agent, i: nat) {
    exists j: nat :: i <= j && (MovesAt(t, a, j) || Ended(a, t.state(j)))
  }

  /** From moment `d` on, whoever looks sees at least what was there at moment `i`. */
  ghost predicate SeenFrom(t: Trace, i: nat, d: nat) {
    forall j: nat :: d <= j && t.step(j).Some? ==> Observes(t.step(j).value, t.state(i))
  }

  ghost predicate BecomesVisible(t: Trace, i: nat) {
    exists d: nat :: SeenFrom(t, i, d)
  }

  /** An execution from the start in which no agent is passed over for ever and every store becomes visible at last. */
  ghost predicate FairTrace(t: Trace, lines: seq<string>, inputBits: nat, outputBits: nat) {
    && inputBits >= 1 && outputBits >= 1
    && t.state(0) == Start(lines, inputBits, outputBits)
    && (forall i: nat :: Follows(t, i))
    && (forall a, i: nat :: GetsTurn(t, a, i))
    && (forall i: nat :: BecomesVisible(t, i))
  }

  /** The same with its beginning replaced by what holds all along. */
  ghost predicate FairFrom(t: Trace, lines: seq<string>) {
    && (forall i: nat :: Follows(t, i))
    && (forall i: nat :: PipelineInv(lines, t.state(i)))
    && (forall a, i: nat :: GetsTurn(t, a, i))
    && (forall i: nat :: BecomesVisible(t, i))
  }

  lemma {:induction false} TraceKeeps(t: Trace, lines: seq<string>, inputBits: nat, outputBits: nat, i: nat)
    requires FairTrace(t, lines, inputBits, outputBits)
    ensures PipelineInv(lines, t.state(i))
  {
    hide PipelineInv, CanStep, Move, Start, GetsTurn, BecomesVisible;
    if i == 0 {
      StartInv(lines, inputBits, outputBits);
    } else {
      TraceKeeps(t, lines, inputBits, outputBits, i - 1);
      assert Follows(t, i - 1);
      if t.step(i - 1).Some? {
        MoveKeeps(lines, t.state(i - 1), t.step(i - 1).value);
      }
    }
  }

  // ---- after a stop

  /** From moment `i` on no test of the stop flag misses the stop. */
  ghost predicate StoppedFrom(t: Trace, i: nat) {
    forall j: nat :: i <= j && t.step(j).Some? ==> Prompt(t.step(j).value)
  }

  lemma LeftNext(t: Trace, lines: seq<string>, a: Agent, i: nat)
    requires FairFrom(t, lines) && (t.step(i).Some? ==> Prompt(t.step(i).value))
    ensures Left(lines, a, t.state(i + 1)) <= Left(lines, a, t.state(i))
    ensures MovesAt(t, a, i) ==> Left(lines, a, t.state(i + 1)) < Left(lines, a, t.state(i))
  {
    hide PipelineInv, CanStep, Move, Left, GetsTurn, BecomesVisible, Prompt;
    assert Follows(t, i);
    if t.step(i).Some? {
      if By(a, t.step(i).value) {
        OwnStepsCount(lines, a, t.state(i), t.step(i).value);
      } else {
        OthersDoNotCount(lines, a, t.state(i), t.step(i).value);
      }
    }
  }

  lemma {:induction false} LeftFalls(t: Trace, lines: seq<string>, a: Agent, i: nat, j: nat)
    requires FairFrom(t, lines) && StoppedFrom(t, i) && i <= j
    ensures Left(lines, a, t.state(j)) <= Left(lines, a, t.state(i))
    decreases j - i
  {
    hide FairFrom, Left, Prompt;
    if i < j {
      LeftNext(t, lines, a, i);
      LeftFalls(t, lines, a, i + 1, j);
    }
  }

  lemma StoppedAgentEnds(t: Trace, lines: seq<string>, a: Agent, i: nat) returns (n: nat)
    requires FairFrom(t, lines) && StoppedFrom(t, i)
    ensures n >= i && Ended(a, t.state(n))
    decreases Left(lines, a, t.state(i))
  {
    hide Follows, PipelineInv, Left, Prompt, BecomesVisible, MovesAt, Ended;
    assert GetsTurn(t, a, i);
    var j: nat :| i <= j && (MovesAt(t, a, j) || Ended(a, t.state(j)));
    if Ended(a, t.state(j)) {
      n := j;
    } else {
      LeftFalls(t, lines, a, i, j);
      LeftNext(t, lines, a, j);
      n := StoppedAgentEnds(t, lines, a, j + 1);
    }
  }

  lemma {:induction false} EndedStays(t: Trace, lines: seq<string>, a: Agent, i: nat, j: nat)
    requires FairFrom(t, lines) && i <= j && Ended(a, t.state(i))
    ensures Ended(a, t.state(j))
    decreases j - i
  {
    if i < j {
      hide PipelineInv, CanStep, Move, GetsTurn, BecomesVisible, Ended;
      assert Follows(t, i);
      if t.step(i).Some? {
        EndedKeeps(lines, a, t.state(i), t.step(i).value);
      }
      EndedStays(t, lines, a, i + 1, j);
    }
  }

  /** An agent that has ended takes no further step, and nobody else restarts it. */
  lemma EndedKeeps(lines: seq<string>, a: Agent, s: State, step: AgentStep)
    requires PipelineInv(lines, s) && CanStep(s, step) && Ended(a, s)
    ensures Ended(a, Move(s, step))
  {
    hide PipelineInv, CanStep, Move;
    EndedIsIdle(a, s, step);
    OthersKeep(lines, a, s, step);
  }

  lemma EndedIsIdle(a: Agent, s: State, step: AgentStep)
    requires CanStep(s, step) && Ended(a, s)
    ensures !By(a, step)
  {
  }

  lemma {:induction false} StopStaysRequested(t: Trace, lines: seq<string>, i: nat, j: nat)
    requires FairFrom(t, lines) && i <= j && t.state(i).stop
    ensures t.state(j).stop
    decreases j - i
  {
    if i < j {
      hide PipelineInv, CanStep, Move, GetsTurn, BecomesVisible;
      assert Follows(t, i);
      if t.step(i).Some? {
        StopIsSticky(t.state(i), t.step(i).value);
      }
      StopStaysRequested(t, lines, i + 1, j);
    }
  }

  lemma SeenStopIsPrompt(t: Trace, i: nat, d: nat)
    requires SeenFrom(t, i, d) && t.state(i).stop
    ensures StoppedFrom(t, d)
  {
  }

  /** Once a stop is requested, all three agents end. */
  lemma StoppedRunsEnd(t: Trace, lines: seq<string>, i: nat) returns (n: nat)
    requires FairFrom(t, lines) && t.state(i).stop
    ensures n >= i && AllEnded(t.state(n))
  {
    assert BecomesVisible(t, i);
    hide FairFrom, SeenFrom, StoppedFrom, Ended;
    var d: nat :| SeenFrom(t, i, d);
    SeenStopIsPrompt(t, i, d);
    var r := StoppedAgentEnds(t, lines, ReaderAgent, d);
    var m := StoppedAgentEnds(t, lines, MatcherAgent, d);
    var w := StoppedAgentEnds(t, lines, WriterAgent, d);
    n := i + r + m + w;
    EndedStays(t, lines, ReaderAgent, r, n);
    EndedStays(t, lines, MatcherAgent, m, n);
    EndedStays(t, lines, WriterAgent, w, n);
    forall a: Agent
      ensures Ended(a, t.state(n))
    {
      match a
      case ReaderAgent =>
      case MatcherAgent =>
      case WriterAgent =>
    }
  }

  // ---- without a stop

  /** Neither ring and no line has moved. */
  ghost predicate SameProgress(s: State, s': State) {
    && s'.reader.unread == s.reader.unread
    && s'.input.pushed == s.input.pushed && s'.input.popped == s.input.popped
    && s'.output.pushed == s.output.pushed && s'.output.popped == s.output.popped
  }

  /** Whose move it is: rows waiting are the writer's business, rows in hand and events waiting the
      matcher's, and otherwise the reader has to go on. */
  ghost function Turn(s: State): Agent {
    if |s.output.popped| < |s.output.pushed| then WriterAgent
    else if s.matcher.pc.Emitting? || s.matcher.pc.Handing? || |s.input.popped| < |s.input.pushed| then MatcherAgent
    else ReaderAgent
  }

  ghost function RankOf(a: Agent, s: State): nat {
    match a
    case ReaderAgent => ReaderRank(s)
    case MatcherAgent => MatcherRank(s)
    case WriterAgent => WriterRank(s)
  }

  lemma TurnNotEnded(lines: seq<string>, s: State)
    requires PipelineInv(lines, s) && !s.stop && !AllDone(s)
    ensures !Ended(Turn(s), s)
  {
    hide PipelineInv, Inv;
    Rings(lines, s);
    WriterEndsLast(lines, s);
    InvPrefix(s.input);
    InvPrefix(s.output);
    if Turn(s) == ReaderAgent && s.reader.pc.ReaderDone? {
      IdleMeansDone(lines, s);
    }
  }

  /** Nothing moved, nobody ended, and it is the same agent's turn. */
  ghost predicate Quiet(s: State, s': State) {
    SameProgress(s, s') && Turn(s') == Turn(s) && forall a :: Ended(a, s') ==> Ended(a, s)
  }

  lemma ReaderQuiet(lines: seq<string>, s: State, step: AgentStep)
    requires PipelineInv(lines, s) && !s.stop && CanStep(s, step) && !Productive(s, step) && By(ReaderAgent, step)
    ensures Quiet(s, Move(s, step))
  {
    hide PipelineInv, Inv, Apply, Meaning;
    Rings(lines, s);
    match step
    case ReadLine =>
    case ReaderCheck(b) => PushEffect(s.input, BeginPush(s.reader.pc.event));
    case ReaderAccess(x) => PushEffect(s.input, x);
  }

  lemma PopQuiet(lines: seq<string>, s: State, step: AgentStep)
    requires PipelineInv(lines, s) && !s.stop && CanStep(s, step) && !Productive(s, step) && (step.MatcherCheck? || step.MatcherAccess?)
    ensures Quiet(s, Move(s, step))
  {
    hide PipelineInv, Inv, Apply, Handle;
    Rings(lines, s);
    match step
    case MatcherCheck(b) => PopEffect(s.input, BeginPop);
    case MatcherAccess(x) => PopEffect(s.input, x);
  }

  lemma EmitQuiet(lines: seq<string>, s: State, step: AgentStep)
    requires PipelineInv(lines, s) && !s.stop && CanStep(s, step) && !Productive(s, step) && (step.EmitCheck? || step.EmitAccess?)
    ensures Quiet(s, Move(s, step))
  {
    hide PipelineInv, Inv, Apply;
    Rings(lines, s);
    match step
    case EmitCheck(b) => PushEffect(s.output, BeginPush(s.matcher.pc.rows[0]));
    case EmitAccess(x) => PushEffect(s.output, x);
  }

  lemma WriterQuiet(lines: seq<string>, s: State, step: AgentStep)
    requires PipelineInv(lines, s) && !s.stop && CanStep(s, step) && !Productive(s, step) && By(WriterAgent, step)
    ensures Quiet(s, Move(s, step))
  {
    hide PipelineInv, Inv, Apply;
    Rings(lines, s);
    match step
    case WriterCheck(b) => PopEffect(s.output, BeginPop);
    case WriterAccess(x) => PopEffect(s.output, x);
  }

  /** A step that does no work moves neither ring, ends nobody and leaves it the same agent's turn. */
  lemma QuietStep(lines: seq<string>, s: State, step: AgentStep)
    requires PipelineInv(lines, s) && !s.stop && CanStep(s, step) && !Productive(s, step)
    ensures Quiet(s, Move(s, step))
  {
    if !step.RequestStop? {
      hide PipelineInv, CanStep, Move, Productive, Quiet;
      if By(ReaderAgent, step) {
        ReaderQuiet(lines, s, step);
      } else if By(WriterAgent, step) {
        WriterQuiet(lines, s, step);
      } else if step.MatcherCheck? || step.MatcherAccess? {
        PopQuiet(lines, s, step);
      } else {
        EmitQuiet(lines, s, step);
      }
    }
  }

  /** An up-to-date access of a push into an empty ring gets closer to publishing. */
  lemma FreshPushFalls<T>(r: Ring<T>, a: Action<T>)
    requires Inv(r) && Enabled(r, a) && IsPush(a) && !a.BeginPush? && !a.StoreHead?
    requires |r.popped| == |r.pushed| && (a.LoadTail? ==> |r.popped| <= a.observed)
    ensures PushRank(Apply(r, a).producer) < PushRank(r.producer) && !Apply(r, a).producer.PushIdle?
  {
    SlotAccessible(r);
    FreshLoads(r);
  }

  lemma FreshPopFalls<T>(r: Ring<T>, a: Action<T>)
    requires Inv(r) && Enabled(r, a) && !IsPush(a) && !a.BeginPop? && !a.StoreTail?
    requires |r.popped| < |r.pushed| && (a.LoadHead? ==> |r.pushed| <= a.observed)
    ensures PopRank(Apply(r, a).consumer) < PopRank(r.consumer) && !Apply(r, a).consumer.PopIdle?
  {
    FreshLoads(r);
  }

  lemma ReaderTurnCounts(lines: seq<string>, s: State, step: AgentStep)
    requires PipelineInv(lines, s) && !s.stop && CanStep(s, step) && !Productive(s, step)
    requires Turn(s) == ReaderAgent && By(ReaderAgent, step) && Observes(step, s)
    ensures ReaderRank(Move(s, step)) < ReaderRank(s)
  {
    hide PipelineInv, Inv, Apply, Meaning;
    Rings(lines, s);
    InvPrefix(s.input);
    match step
    case ReadLine =>
    case ReaderCheck(_) => PushEffect(s.input, BeginPush(s.reader.pc.event));
    case ReaderAccess(x) => FreshPushFalls(s.input, x);
  }

  lemma MatcherTurnCounts(lines: seq<string>, s: State, step: AgentStep)
    requires PipelineInv(lines, s) && !s.stop && CanStep(s, step) && !Productive(s, step)
    requires Turn(s) == MatcherAgent && By(MatcherAgent, step) && Observes(step, s)
    ensures MatcherRank(Move(s, step)) < MatcherRank(s)
  {
    hide PipelineInv, Inv, Apply, Handle;
    Rings(lines, s);
    InvPrefix(s.output);
    match step
    case MatcherCheck(_) => PopEffect(s.input, BeginPop);
    case MatcherAccess(x) => FreshPopFalls(s.input, x);
    case EmitCheck(_) => PushEffect(s.output, BeginPush(s.matcher.pc.rows[0]));
    case EmitAccess(x) => FreshPushFalls(s.output, x);
  }

  lemma WriterTurnCounts(lines: seq<string>, s: State, step: AgentStep)
    requires PipelineInv(lines, s) && !s.stop && CanStep(s, step) && !Productive(s, step)
    requires Turn(s) == WriterAgent && By(WriterAgent, step) && Observes(step, s)
    ensures WriterRank(Move(s, step)) < WriterRank(s)
  {
    hide PipelineInv, Inv, Apply;
    Rings(lines, s);
    match step
    case WriterCheck(_) => PopEffect(s.output, BeginPop);
    case WriterAccess(x) => FreshPopFalls(s.output, x);
  }

  /** On its turn an agent that sees everything gets closer to doing work; the others cannot throw it back. */
  lemma RankFalls(lines: seq<string>, s: State, step: AgentStep)
    requires PipelineInv(lines, s) && !s.stop && CanStep(s, step) && !Productive(s, step) && Observes(step, s)
    ensures RankOf(Turn(s), Move(s, step)) <= RankOf(Turn(s), s)
    ensures By(Turn(s), step) ==> RankOf(Turn(s), Move(s, step)) < RankOf(Turn(s), s)
  {
    var a := Turn(s);
    hide PipelineInv, CanStep, Move, Turn, Productive, Observes;
    if !By(a, step) {
      OthersKeep(lines, a, s, step);
    } else {
      hide ReaderRank, MatcherRank, WriterRank;
      match a
      case ReaderAgent => ReaderTurnCounts(lines, s, step);
      case MatcherAgent => MatcherTurnCounts(lines, s, step);
      case WriterAgent => WriterTurnCounts(lines, s, step);
    }
  }

  ghost predicate NeverStopped(t: Trace) {
    forall i: nat :: !t.state(i).stop
  }

  ghost predicate ProductiveAt(t: Trace, i: nat) {
    t.step(i).Some? && Productive(t.state(i), t.step(i).value)
  }

  lemma QuietMoment(t: Trace, lines: seq<string>, i: nat)
    requires FairFrom(t, lines) && NeverStopped(t) && !ProductiveAt(t, i)
    ensures Quiet(t.state(i), t.state(i + 1))
  {
    hide PipelineInv, CanStep, Move, Quiet, Productive, GetsTurn, BecomesVisible;
    assert Follows(t, i);
    if t.step(i).Some? {
      QuietStep(lines, t.state(i), t.step(i).value);
    } else {
      QuietSelf(t.state(i));
    }
  }

  lemma QuietSelf(s: State)
    ensures Quiet(s, s)
  {
  }

  lemma StillObserves(step: AgentStep, seen: State, s: State)
    requires Observes(step, seen) && SameProgress(seen, s) && !s.stop
    ensures Observes(step, s)
  {
  }

  lemma RankMoment(t: Trace, lines: seq<string>, from: nat, i: nat)
    requires FairFrom(t, lines) && NeverStopped(t) && !ProductiveAt(t, i)
    requires SeenFrom(t, from, i) && SameProgress(t.state(from), t.state(i))
    ensures var a := Turn(t.state(i));
      && RankOf(a, t.state(i + 1)) <= RankOf(a, t.state(i))
      && (MovesAt(t, a, i) ==> RankOf(a, t.state(i + 1)) < RankOf(a, t.state(i)))
  {
    hide PipelineInv, CanStep, Move, Productive, GetsTurn, BecomesVisible, SameProgress, Observes, RankOf, Turn;
    assert Follows(t, i);
    if t.step(i).Some? {
      StillObserves(t.step(i).value, t.state(from), t.state(i));
      RankFalls(lines, t.state(i), t.step(i).value);
    }
  }

  /** If nothing has moved since the moment everyone sees, and the agent whose turn it is moves at `k`
      at the latest, then some moment from `i` on does work. */
  lemma NextProductive(t: Trace, lines: seq<string>, from: nat, i: nat, k: nat) returns (j: nat)
    requires FairFrom(t, lines) && NeverStopped(t)
    requires SeenFrom(t, from, i) && SameProgress(t.state(from), t.state(i))
    requires !Ended(Turn(t.state(i)), t.state(i))
    requires i <= k && (MovesAt(t, Turn(t.state(i)), k) || Ended(Turn(t.state(i)), t.state(k)))
    ensures j >= i && ProductiveAt(t, j)
    decreases RankOf(Turn(t.state(i)), t.state(i)), k - i
  {
    hide Follows, PipelineInv, BecomesVisible, Turn, RankOf, Ended, Productive, Observes;
    var a := Turn(t.state(i));
    if ProductiveAt(t, i) {
      j := i;
    } else {
      hide ProductiveAt;
      QuietMoment(t, lines, i);
      RankMoment(t, lines, from, i);
      if MovesAt(t, a, i) {
        assert GetsTurn(t, a, i + 1);
        var k': nat :| i + 1 <= k' && (MovesAt(t, a, k') || Ended(a, t.state(k')));
        j := NextProductive(t, lines, from, i + 1, k');
      } else {
        j := NextProductive(t, lines, from, i + 1, k);
      }
    }
  }

  lemma WorkMoment(t: Trace, lines: seq<string>, i: nat)
    requires FairFrom(t, lines) && NeverStopped(t)
    ensures Work(lines, t.state(i + 1)) == Work(lines, t.state(i)) - if ProductiveAt(t, i) then 1 else 0
  {
    hide PipelineInv, CanStep, Move, Work, Productive, GetsTurn, BecomesVisible;
    assert Follows(t, i);
    if t.step(i).Some? {
      WorkIsSpentOneByOne(lines, t.state(i), t.step(i).value);
    }
  }

  /** Work never grows, and while it stays the same nothing has moved. */
  lemma {:induction false} WorkFalls(t: Trace, lines: seq<string>, i: nat, j: nat)
    requires FairFrom(t, lines) && NeverStopped(t) && i <= j
    ensures Work(lines, t.state(j)) <= Work(lines, t.state(i))
    ensures Work(lines, t.state(j)) == Work(lines, t.state(i)) ==> SameProgress(t.state(i), t.state(j))
    decreases j - i
  {
    hide FairFrom, NeverStopped, Work, ProductiveAt, Turn, Ended;
    if i < j {
      WorkMoment(t, lines, i);
      WorkFalls(t, lines, i + 1, j);
      if !ProductiveAt(t, i) {
        QuietMoment(t, lines, i);
      }
    }
  }

  /** Unless everything is done, work is done again. */
  lemma WorkGoesOn(t: Trace, lines: seq<string>, i: nat) returns (n: nat)
    requires FairFrom(t, lines) && NeverStopped(t)
    ensures n >= i && (AllDone(t.state(n)) || Work(lines, t.state(n)) < Work(lines, t.state(i)))
  {
    hide Follows, PipelineInv, Turn, Ended, Observes, AllDone, Work, ProductiveAt, MovesAt, SameProgress;
    assert BecomesVisible(t, i);
    var d: nat :| SeenFrom(t, i, d);
    n := if d < i then i else d;
    WorkFalls(t, lines, i, n);
    if !AllDone(t.state(n)) && Work(lines, t.state(n)) == Work(lines, t.state(i)) {
      TurnNotEnded(lines, t.state(n));
      var a := Turn(t.state(n));
      assert GetsTurn(t, a, n);
      var k: nat :| n <= k && (MovesAt(t, a, k) || Ended(a, t.state(k)));
      var j := NextProductive(t, lines, i, n, k);
      WorkFalls(t, lines, n, j);
      WorkMoment(t, lines, j);
      n := j + 1;
    }
  }

  lemma UnstoppedRunsEnd(t: Trace, lines: seq<string>, i: nat) returns (n: nat)
    requires FairFrom(t, lines) && NeverStopped(t)
    ensures n >= i && AllDone(t.state(n))
    decreases if FairFrom(t, lines) then Work(lines, t.state(i)) else 0
  {
    hide Follows, PipelineInv, GetsTurn, BecomesVisible, AllDone, Work;
    WorkIsNatural(lines, t.state(i));
    n := WorkGoesOn(t, lines, i);
    if !AllDone(t.state(n)) {
      WorkIsNatural(lines, t.state(n));
      n := UnstoppedRunsEnd(t, lines, n);
    }
  }

  /** Every fair execution ends all three agents, whether and whenever a stop is requested. What has been
      written then is a prefix of the sequential output, and all of it if there never was a stop. */
  lemma FairRunsEnd(t: Trace, lines: seq<string>, inputBits: nat, outputBits: nat) returns (n: nat)
    requires FairTrace(t, lines, inputBits, outputBits)
    ensures AllEnded(t.state(n))
    ensures var rows := Run(EmptyBook, EventsOf(lines)).rows;
      && t.state(n).writer.written <= rows
      && (NeverStopped(t) ==> t.state(n).writer.written == rows)
  {
    forall i: nat
      ensures PipelineInv(lines, t.state(i))
    {
      TraceKeeps(t, lines, inputBits, outputBits, i);
    }
    hide PipelineInv, Follows, GetsTurn, BecomesVisible, Run, EventsOf, Start;
    if i: nat :| t.state(i).stop {
      n := StoppedRunsEnd(t, lines, i);
    } else {
      n := UnstoppedRunsEnd(t, lines, 0);
    }
    WrittenRows(lines, t.state(n));
  }

  // ---- there are fair executions

  /** The state after `i` steps, or after all of them. */
  ghost function StateAt(s: State, steps: seq<AgentStep>, i: nat): State
    decreases |steps|
  {
    if i == 0 || steps == [] || !CanStep(s, steps[0]) then s
    else StateAt(Move(s, steps[0]), steps[1..], i - 1)
  }

  lemma {:induction false} StateAtFollows(s: State, steps: seq<AgentStep>, i: nat)
    requires Interleaving(s, steps)
    ensures i < |steps| ==>
      CanStep(StateAt(s, steps, i), steps[i]) && StateAt(s, steps, i + 1) == Move(StateAt(s, steps, i), steps[i])
    ensures |steps| <= i ==> StateAt(s, steps, i) == EndState(s, steps)
    decreases |steps|
  {
    hide CanStep, Move;
    if steps != [] && i > 0 {
      StateAtFollows(Move(s, steps[0]), steps[1..], i - 1);
    }
  }

  ghost function ThenIdle(s: State, steps: seq<AgentStep>): Trace {
    Trace((i: nat) => StateAt(s, steps, i), (i: nat) => if i < |steps| then Some(steps[i]) else None)
  }

  /** A finite execution after which all agents have ended is a fair one. */
  lemma EndedRunIsFair(lines: seq<string>, inputBits: nat, outputBits: nat, steps: seq<AgentStep>)
    requires inputBits >= 1 && outputBits >= 1
    requires var start := Start(lines, inputBits, outputBits);
      Interleaving(start, steps) && AllEnded(EndState(start, steps))
    ensures FairTrace(ThenIdle(Start(lines, inputBits, outputBits), steps), lines, inputBits, outputBits)
  {
    var start := Start(lines, inputBits, outputBits);
    var t := ThenIdle(start, steps);
    assert t.state(0) == start;
    hide Start, CanStep, Move, Ended, StateAt;
    forall i: nat
      ensures Follows(t, i)
    {
      StateAtFollows(start, steps, i);
      StateAtFollows(start, steps, i + 1);
    }
    forall a, i: nat
      ensures GetsTurn(t, a, i)
    {
      var j := i + |steps|;
      StateAtFollows(start, steps, j);
      assert Ended(a, t.state(j));
    }
    forall i: nat
      ensures BecomesVisible(t, i)
    {
      assert SeenFrom(t, i, |steps|);
    }
  }

  lemma {:induction false} ExecutionConcat(s: State, a: seq<AgentStep>, b: seq<AgentStep>)
    requires Interleaving(s, a) && Interleaving(EndState(s, a), b)
    ensures Interleaving(s, a + b) && EndState(s, a + b) == EndState(EndState(s, a), b)
    decreases |a|
  {
    hide CanStep, Move;
    if a == [] {
      assert a + b == b;
    } else {
      assert (a + b)[1..] == a[1..] + b;
      ExecutionConcat(Move(s, a[0]), a[1..], b);
    }
  }

  lemma DoneIsEnded(s: State)
    requires AllDone(s)
    ensures AllEnded(s)
  {
  }

  /** Fairness rules out no beginning: every finite execution, stopped or not, goes on to a fair one. */
  lemma EveryRunExtendsFairly(lines: seq<string>, inputBits: nat, outputBits: nat, steps: seq<AgentStep>)
    returns (t: Trace)
    requires inputBits >= 1 && outputBits >= 1
    requires Interleaving(Start(lines, inputBits, outputBits), steps)
    ensures FairTrace(t, lines, inputBits, outputBits)
    ensures forall i :: 0 <= i < |steps| ==> t.step(i) == Some(steps[i])
  {
    var start := Start(lines, inputBits, outputBits);
    StartInv(lines, inputBits, outputBits);
    ExecutionKeeps(lines, start, steps);
    hide PipelineInv, Interleaving, EndState, Start, Run, AllDone, AllEnded, FairTrace, StateAt;
    var s := EndState(start, steps);
    var more;
    if s.stop {
      more := CanAbort(lines, s);
    } else {
      more := CanFinish(lines, s);
      DoneIsEnded(EndState(s, more));
    }
    ExecutionConcat(start, steps, more);
    EndedRunIsFair(lines, inputBits, outputBits, steps + more);
    t := ThenIdle(start, steps + more);
  }
}
