/** The ring buffer under concurrency: producer and consumer interleave at the
    granularity of single index loads, slot accesses and index stores, and a load
    of the other side's index may return any value not older than one already seen. */
module RingProtocol {
  import opened RingIndex
  import opened SpscQueue

  /** Where the producer is inside try_push. */
  datatype Producer<T> =
    | PushIdle
    | PushLoaded(value: T, at: nat)               // own index loaded
    | PushChecked(value: T, at: nat, next: nat)   // other index loaded, not full
    | PushWritten(value: T, at: nat, next: nat)   // slot written, not yet published

  /** Where the consumer is inside try_pop. */
  datatype Consumer<T> =
    | PopIdle
    | PopLoaded(at: nat)
    | PopChecked(at: nat)
    | PopRead(at: nat, value: T)                  // slot read, not yet released

  /** Shared memory, both program counters, and ghost history: every value published and
      popped, and the newest position of the other side each thread has observed. */
  datatype Ring<T> = Ring(
    bits: nat,
    slots: seq<T>,
    head: nat,
    tail: nat,
    producer: Producer<T>,
    consumer: Consumer<T>,
    pushed: seq<T>,
    popped: seq<T>,
    seenTail: nat,
    seenHead: nat)

  /** One atomic access. The argument of a load is the position it happens to observe. */
  datatype Action<T> =
    | BeginPush(value: T)
    | LoadTail(observed: nat)
    | WriteSlot
    | StoreHead
    | BeginPop
    | LoadHead(observed: nat)
    | ReadSlot
    | StoreTail

  function Init<T>(bits: nat, blank: T): Ring<T> {
    Ring(bits, seq(Pow2(bits), _ => blank), 0, 0, PushIdle, PopIdle, [], [], 0, 0)
  }

  function Wrap<T>(r: Ring<T>, i: nat): nat {
    And(i, Pow2(r.bits) - 1)
  }

  predicate Enabled<T>(r: Ring<T>, a: Action<T>) {
    match a
    case BeginPush(_) => r.producer.PushIdle?
    case LoadTail(t) => r.producer.PushLoaded? && r.seenTail <= t <= |r.popped|
    case WriteSlot => r.producer.PushChecked? && r.producer.at < |r.slots|
    case StoreHead => r.producer.PushWritten?
    case BeginPop => r.consumer.PopIdle?
    case LoadHead(h) => r.consumer.PopLoaded? && r.seenHead <= h <= |r.pushed|
    case ReadSlot => r.consumer.PopChecked? && r.consumer.at < |r.slots|
    case StoreTail => r.consumer.PopRead?
  }

  /** Effect of one access. A load that finds the ring full or empty ends the call. */
  function Apply<T>(r: Ring<T>, a: Action<T>): Ring<T>
    requires Enabled(r, a)
  {
    match a
    case BeginPush(v) => r.(producer := PushLoaded(v, r.head))
    case LoadTail(t) =>
      var next := Wrap(r, r.producer.at + 1);
      r.(seenTail := t,
         producer := if next == t % Pow2(r.bits) then PushIdle
                     else PushChecked(r.producer.value, r.producer.at, next))
    case WriteSlot =>
      r.(slots := r.slots[r.producer.at := r.producer.value],
         producer := PushWritten(r.producer.value, r.producer.at, r.producer.next))
    case StoreHead =>
      r.(head := r.producer.next, pushed := r.pushed + [r.producer.value], producer := PushIdle)
    case BeginPop => r.(consumer := PopLoaded(r.tail))
    case LoadHead(h) =>
      r.(seenHead := h,
         consumer := if r.consumer.at == h % Pow2(r.bits) then PopIdle else PopChecked(r.consumer.at))
    case ReadSlot => r.(consumer := PopRead(r.consumer.at, r.slots[r.consumer.at]))
    case StoreTail =>
      r.(tail := Wrap(r, r.consumer.at + 1), popped := r.popped + [r.consumer.value], consumer := PopIdle)
  }

  ghost predicate Inv<T>(r: Ring<T>) {
    var cap, h, t := Pow2(r.bits), |r.pushed|, |r.popped|;
    && r.bits >= 1 && |r.slots| == cap
    && r.head == h % cap && r.tail == t % cap
    && r.seenTail <= t <= r.seenHead <= h < r.seenTail + cap
    && r.popped == r.pushed[..t]
    && (forall i :: t <= i < h ==> r.slots[i % cap] == r.pushed[i])
    && ProducerOk(r) && ConsumerOk(r)
  }

  ghost predicate ProducerOk<T>(r: Ring<T>) {
    var cap, h := Pow2(r.bits), |r.pushed|;
    match r.producer
    case PushIdle => true
    case PushLoaded(_, at) => at == r.head
    case PushChecked(_, at, next) => at == r.head && next == (h + 1) % cap && h + 1 < r.seenTail + cap
    case PushWritten(v, at, next) =>
      && at == r.head && next == (h + 1) % cap && h + 1 < r.seenTail + cap
      && at < |r.slots| && r.slots[at] == v
  }

  ghost predicate ConsumerOk<T>(r: Ring<T>) {
    match r.consumer
    case PopIdle => true
    case PopLoaded(at) => at == r.tail
    case PopChecked(at) => at == r.tail && |r.popped| < r.seenHead
    case PopRead(at, v) =>
      at == r.tail && |r.popped| < r.seenHead && |r.popped| < |r.pushed| && v == r.pushed[|r.popped|]
  }

  /** Popped values are a prefix of pushed values, at most capacity minus one are in between, and a
      slot about to be written is never the slot about to be read. Moreover a slot is only written once
      the producer has seen it released a lap ago, and only read once the consumer has seen it published:
      every slot access is ordered after the conflicting ones by an index store its thread has loaded. */
  ghost predicate Safe<T>(r: Ring<T>) {
    && r.popped <= r.pushed
    && |r.pushed| - |r.popped| <= Pow2(r.bits) - 1
    && (r.producer.PushChecked? && r.consumer.PopChecked? ==> r.producer.at != r.consumer.at)
    && (r.producer.PushChecked? ==> |r.pushed| + 1 < r.seenTail + Pow2(r.bits) && r.seenTail <= |r.popped|)
    && (r.consumer.PopChecked? ==> |r.popped| < r.seenHead <= |r.pushed|)
  }

  lemma InitInv<T>(bits: nat, blank: T)
    requires bits >= 1
    ensures Inv(Init(bits, blank))
  {
    ModUnique(0, Pow2(bits), 0, 0);
  }

  lemma InvSafe<T>(r: Ring<T>)
    requires Inv(r)
    ensures Safe(r)
  {
    if r.producer.PushChecked? && r.consumer.PopChecked? {
      SlotsApart(|r.popped|, |r.pushed|, Pow2(r.bits));
    }
  }

  /** What a possibly stale load decides: full exactly when the observed window is one short of a
      lap, empty exactly when nothing newer than the own position was observed. */
  lemma LoadVerdicts<T>(r: Ring<T>, t: nat, h: nat)
    requires Inv(r) && r.seenTail <= t <= |r.popped| && r.seenHead <= h <= |r.pushed|
    ensures Wrap(r, r.head + 1) == (|r.pushed| + 1) % Pow2(r.bits)
    ensures Wrap(r, r.head + 1) == t % Pow2(r.bits) <==> |r.pushed| - t == Pow2(r.bits) - 1
    ensures r.tail == h % Pow2(r.bits) <==> h == |r.popped|
    ensures r.producer.PushLoaded? ==>
      Enabled(r, LoadTail(t)) && (Apply(r, LoadTail(t)).producer.PushIdle? <==> |r.pushed| - t == Pow2(r.bits) - 1)
    ensures r.consumer.PopLoaded? ==>
      Enabled(r, LoadHead(h)) && (Apply(r, LoadHead(h)).consumer.PopIdle? <==> h == |r.popped|)
  {
    var cap := Pow2(r.bits);
    MaskIsModulo(r.head + 1, r.bits);
    ModStep(|r.pushed|, cap);
    FullTest(|r.pushed|, t, cap);
    EmptyTest(h, |r.popped|, cap);
  }

  /** A size taken by the producer while the consumer is active may count values already gone but misses
      none and stays below the capacity; one taken by the consumer may miss new values but counts no other. */
  lemma SizeSnapshots<T>(r: Ring<T>, t: nat, h: nat)
    requires Inv(r) && r.bits <= 64 && r.seenTail <= t <= |r.popped| && r.seenHead <= h <= |r.pushed|
    ensures var byProducer := And(SubWrap(r.head, t % Pow2(r.bits)), Pow2(r.bits) - 1);
      byProducer == |r.pushed| - t && |r.pushed| - |r.popped| <= byProducer < Pow2(r.bits)
    ensures var byConsumer := And(SubWrap(h % Pow2(r.bits), r.tail), Pow2(r.bits) - 1);
      byConsumer == h - |r.popped| && byConsumer <= |r.pushed| - |r.popped|
  {
    SizeOfWindow(|r.pushed|, t, r.bits);
    SizeOfWindow(h, |r.popped|, r.bits);
  }

  lemma ProducerStep<T>(r: Ring<T>, a: Action<T>)
    requires Inv(r) && Enabled(r, a) && IsPush(a)
    ensures Inv(Apply(r, a))
  {
    var cap, h, t := Pow2(r.bits), |r.pushed|, |r.popped|;
    match a
    case BeginPush(_) =>
    case LoadTail(seen) => LoadVerdicts(r, seen, r.seenHead);
    case WriteSlot =>
      forall i | t <= i < h
        ensures i % cap != h % cap
      {
        SlotsApart(i, h, cap);
      }
    case StoreHead =>
  }

  lemma ConsumerStep<T>(r: Ring<T>, a: Action<T>)
    requires Inv(r) && Enabled(r, a) && !IsPush(a)
    ensures Inv(Apply(r, a))
  {
    match a
    case BeginPop =>
    case LoadHead(seen) => LoadVerdicts(r, r.seenTail, seen);
    case ReadSlot =>
    case StoreTail =>
      MaskIsModulo(r.consumer.at + 1, r.bits);
      ModStep(|r.popped|, Pow2(r.bits));
  }

  /** Any interleaving of enabled accesses. */
  ghost predicate Execution<T>(r: Ring<T>, actions: seq<Action<T>>)
    decreases |actions|
  {
    actions == [] || (Enabled(r, actions[0]) && Execution(Apply(r, actions[0]), actions[1..]))
  }

  ghost function After<T>(r: Ring<T>, actions: seq<Action<T>>): Ring<T>
    requires Execution(r, actions)
    decreases |actions|
  {
    if actions == [] then r else After(Apply(r, actions[0]), actions[1..])
  }

  lemma {:induction false} ExecutionInv<T>(r: Ring<T>, actions: seq<Action<T>>)
    requires Inv(r) && Execution(r, actions)
    ensures Inv(After(r, actions))
    decreases |actions|
  {
    if actions != [] {
      hide Inv, Apply;
      var a := actions[0];
      if IsPush(a) {
        ProducerStep(r, a);
      } else {
        ConsumerStep(r, a);
      }
      ExecutionInv(Apply(r, a), actions[1..]);
    }
  }

  /** Safety in every reachable state of every interleaving. */
  lemma RingIsSafe<T>(bits: nat, blank: T, actions: seq<Action<T>>)
    requires bits >= 1 && Execution(Init(bits, blank), actions)
    ensures Safe(After(Init(bits, blank), actions))
  {
    InitInv(bits, blank);
    ExecutionInv(Init(bits, blank), actions);
    InvSafe(After(Init(bits, blank), actions));
  }

  /** The queue an observer sees. */
  ghost function Fifo<T>(r: Ring<T>): seq<T>
    requires |r.popped| <= |r.pushed|
  {
    r.pushed[|r.popped|..]
  }

  /** Linearization: publishing appends to a queue that has room, releasing takes the front
      value the consumer read, and every other access leaves the queue alone. */
  lemma RingIsFifo<T>(r: Ring<T>, a: Action<T>)
    requires Inv(r) && Enabled(r, a)
    ensures |r.popped| <= |r.pushed| && |Apply(r, a).popped| <= |Apply(r, a).pushed|
    ensures var q, q' := Fifo(r), Fifo(Apply(r, a));
      match a
      case StoreHead => |q| < Pow2(r.bits) - 1 && q' == q + [r.producer.value]
      case StoreTail => q != [] && r.consumer.value == q[0] && q' == q[1..]
      case _ => q' == q
  {
  }

  // ---- what the two threads can rely on

  predicate IsPush<T>(a: Action<T>) {
    a.BeginPush? || a.LoadTail? || a.WriteSlot? || a.StoreHead?
  }

  /** A producer access keeps the invariant and the consumer's world; only a store publishes. */
  lemma PushEffect<T>(r: Ring<T>, a: Action<T>)
    requires Inv(r) && Enabled(r, a) && IsPush(a)
    ensures var r' := Apply(r, a);
      && Inv(r') && r'.bits == r.bits && r'.popped == r.popped && r'.consumer == r.consumer
      && r'.pushed == (if a.StoreHead? then r.pushed + [r.producer.value] else r.pushed)
      && (a.BeginPush? ==> r'.producer.PushLoaded? && r'.producer.value == a.value)
      && (a.LoadTail? || a.WriteSlot? ==> r'.producer.PushIdle? || r'.producer.value == r.producer.value)
      && (a.WriteSlot? ==> r'.producer.PushWritten?)
      && (a.StoreHead? ==> r'.producer.PushIdle?)
  {
    ProducerStep(r, a);
  }

  /** A consumer access keeps the invariant and the producer's world; only a store takes the front value. */
  lemma PopEffect<T>(r: Ring<T>, a: Action<T>)
    requires Inv(r) && Enabled(r, a) && !IsPush(a)
    ensures var r' := Apply(r, a);
      && Inv(r') && r'.bits == r.bits && r'.pushed == r.pushed && r'.producer == r.producer
      && (a.StoreTail? ==> |r.popped| < |r.pushed| && r.consumer.value == r.pushed[|r.popped|]
                           && r'.consumer.PopIdle?)
      && r'.popped == (if a.StoreTail? then r.pushed[..|r.popped| + 1] else r.popped)
      && (a.BeginPop? ==> r'.consumer.PopLoaded?)
      && (a.ReadSlot? ==> r'.consumer.PopRead?)
  {
    ConsumerStep(r, a);
  }

  lemma InvPrefix<T>(r: Ring<T>)
    requires Inv(r)
    ensures |r.popped| <= |r.pushed| && r.popped == r.pushed[..|r.popped|]
  {
  }

  /** An up-to-date load lets a push through if there is room, and a pop if there is something to pop. */
  lemma FreshLoads<T>(r: Ring<T>)
    requires Inv(r)
    ensures r.producer.PushLoaded? && |r.pushed| - |r.popped| < Pow2(r.bits) - 1 ==>
      Enabled(r, LoadTail(|r.popped|)) && Apply(r, LoadTail(|r.popped|)).producer.PushChecked?
    ensures r.consumer.PopLoaded? && |r.popped| < |r.pushed| ==>
      Enabled(r, LoadHead(|r.pushed|)) && Apply(r, LoadHead(|r.pushed|)).consumer.PopChecked?
  {
    LoadVerdicts(r, |r.popped|, |r.pushed|);
  }

  lemma SlotAccessible<T>(r: Ring<T>)
    requires Inv(r)
    ensures r.producer.PushChecked? ==> Enabled(r, WriteSlot)
    ensures r.consumer.PopChecked? ==> Enabled(r, ReadSlot)
    ensures Pow2(r.bits) >= 2
  {
  }
}
