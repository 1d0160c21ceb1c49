/** What the phase handshake guarantees in every reachable state. */
module PhaseSafety {
  import opened Words
  import opened Options
  import opened Accumulators
  import opened PhaseHandshake

  /** The measurement a correct phase of n events produces. */
  function Ideal(n: u64): Validation {
    Validation(n, ExpectedChecksum(n), 0)
  }

  /** The producer has seen ready_phase == phase. */
  predicate PastReady(pc: ProducerPc) {
    pc.PinProducer? || pc.Publishing? || pc.CheckPublish? || AllPublished(pc)
  }

  predicate AllPublished(pc: ProducerPc) {
    pc.WaitConsumed? || pc.CheckConsumed? || pc.WaitCompleted? || pc.CheckCompleted? || SawCompletion(pc)
  }

  predicate SawCompletion(pc: ProducerPc) {
    pc.ReadMeasurement? || pc.Validate? || pc.JoinDone? || pc.ReadError? || pc.Returned?
  }

  /** The consumer has seen its command and not yet stored completed_phase. */
  predicate InPhase(pc: ConsumerPc) {
    !pc.WaitCommand? && !pc.CheckCommand? && !pc.Exit?
  }

  predicate Announced(pc: ConsumerPc) {
    pc.Consuming? || pc.CheckConsume? || pc.WriteMeasurement? || pc.StoreCompleted?
  }

  lemma CountIsMultiple(g: Config, phase: nat)
    requires g.Accepted()
    ensures IsMultiple(g.Count(phase), g.batch)
  {}

  ghost predicate Counters(g: Config, s: State) {
    var p, c, m := s.p, s.c, s.m;
    && 1 <= p.phase <= g.Phases()
    && p.phase <= c.phase <= p.phase + 1
    && m.commanded == (if (p.pc.SetCount? || p.pc.Command?) then p.phase - 1 else p.phase)
    && m.completed == c.phase - 1
    && c.phase - 1 <= m.ready <= c.phase
    && p.seesReady <= m.ready && p.seesCompleted <= m.completed && p.seesTaken <= m.taken
    && c.seesCommanded <= m.commanded
    && (PastReady(p.pc) ==> m.ready >= p.phase)
    && p.seesCompleted >= (if SawCompletion(p.pc) then p.phase else p.phase - 1)
    && ((p.pc.SetCount? || p.pc.Command?) ==> c.phase == p.phase)
    && ((p.pc.JoinDone? || p.pc.ReadError? || p.pc.Returned?) ==> p.phase == g.Phases())
    && (InPhase(c.pc) ==> c.seesCommanded >= c.phase)
    && (!c.pc.Exit? ==> m.ready == if Announced(c.pc) then c.phase else c.phase - 1)
    && (!p.pc.SetCount? ==> m.phaseEventCount == g.Count(p.phase))
    && ((c.pc.WaitCommand? || c.pc.Exit?) || c.phase <= g.Phases())
  }

  ghost predicate Failures(g: Config, s: State) {
    var p, c, m := s.p, s.c, s.m;
    && (m.consumerError <==> c.pc.StoreFailed? || (c.pc.Exit? && m.consumerError))
    && (m.consumerError ==> c.phase == p.phase && m.ready == c.phase - 1 && m.commanded == c.phase)
    && (m.failed ==> (m.consumerError && c.pc.Exit?) || (p.pc.JoinFailed? || p.pc.Threw?))
    && (p.pc.Rethrow? ==> m.consumerError && m.failed)
    && (p.pc.JoinFailed? || p.pc.Threw? ==> m.failed)
    && (c.pc.Exit? ==> m.failed || c.phase == g.Phases() + 1)
  }

  /** From `base` on the log holds 0, 1, 2, ... */
  ghost predicate CountsUp(log: seq<u64>, base: nat) {
    forall k :: base <= k < |log| ==> log[k] == Wrap(k - base)
  }

  lemma AppendCountsUp(log: seq<u64>, base: nat, published: nat, batch: nat)
    requires |log| == base + published && CountsUp(log, base)
    ensures CountsUp(log + BatchValues(published, batch), base)
  {
    hide Wrap;
  }

  ghost predicate Stream(g: Config, s: State) {
    var p, c, m := s.p, s.c, s.m;
    && g.Base(p.phase) <= |m.log| <= g.Base(p.phase) + g.Count(p.phase)
    && (!PastReady(p.pc) && (p.pc.SetCount? || p.pc.Command? || p.pc.WaitReady? || p.pc.CheckReady?) ==> |m.log| == g.Base(p.phase))
    && (p.pc.PinProducer? ==> |m.log| == g.Base(p.phase))
    && ((p.pc.Publishing? || p.pc.CheckPublish?) ==> |m.log| == g.Base(p.phase) + p.published && IsMultiple(p.published, g.batch))
    && (AllPublished(p.pc) ==> |m.log| == g.Base(p.phase) + g.Count(p.phase))
    && CountsUp(m.log, g.Base(p.phase))
    && m.taken <= |m.log| <= m.taken + g.cap
  }

  ghost predicate Draining(g: Config, s: State) {
    var c, m := s.c, s.m;
    && ((c.pc.WaitCommand? || c.pc.CheckCommand? || c.pc.PinConsumer? || c.pc.WriteError? || c.pc.StoreFailed?) ==> m.taken == g.Base(c.phase))
    && ((c.pc.ReadCount? || c.pc.StoreReady?) ==> m.taken == g.Base(c.phase) && c.calls == [])
    && (Announced(c.pc) ==> m.taken == g.Base(c.phase) + |c.calls| && |c.calls| <= g.Count(c.phase))
    && ((c.pc.ReadCount? || c.pc.StoreReady?) || Announced(c.pc) ==>
          && c.first == Wrap(g.Base(c.phase)) && InOrder(c.first, c.calls) && c.result == ObserveAll(c.first, c.calls))
    && (c.pc.StoreReady? || Announced(c.pc) ==> c.eventCount == g.Count(c.phase))
    && ((c.pc.WriteMeasurement? || c.pc.StoreCompleted?) ==> |c.calls| == g.Count(c.phase))
  }

  ghost predicate Measured(g: Config, s: State) {
    var p, c, m := s.p, s.c, s.m;
    && (c.pc.StoreCompleted? ==> m.phaseMeasurement == Ideal(g.Count(c.phase)))
    && (!c.pc.StoreCompleted? && c.phase >= 2 ==> m.phaseMeasurement == Ideal(g.Count(c.phase - 1)))
    && ((p.pc.Validate? || p.pc.JoinDone? || p.pc.ReadError? || p.pc.Returned?) ==> p.current == Ideal(g.Count(p.phase)))
  }

  /** The position the producer waits for is the end of its phase. */
  ghost predicate Awaited(g: Config, s: State) {
    s.p.pc.Publishing? || s.p.pc.CheckPublish? || s.p.pc.WaitConsumed? || s.p.pc.CheckConsumed? ==>
      s.p.final == Wrap(g.Base(s.p.phase) + g.Count(s.p.phase))
  }

  ghost predicate Inv(g: Config, s: State) {
    && g.Accepted()
    && Counters(g, s) && Failures(g, s) && Stream(g, s) && Draining(g, s) && Measured(g, s) && Awaited(g, s)
  }

  lemma InitialInv(g: Config)
    requires g.Accepted()
    ensures Inv(g, Initial())
  {}

  predicate Starting(pc: ProducerPc) {
    pc.SetCount? || pc.Command? || pc.WaitReady? || pc.CheckReady? || pc.PinProducer?
  }

  predicate Waiting(pc: ProducerPc) {
    pc.CheckPublish? || pc.WaitConsumed? || pc.CheckConsumed? || pc.WaitCompleted? || pc.CheckCompleted?
  }

  lemma StartCounters(g: Config, s: State, v: nat, flag: bool)
    requires Inv(g, s) && Starting(s.p.pc) && ProducerStep(g, s, v, flag).Some?
    ensures Counters(g, ProducerStep(g, s, v, flag).value) && Failures(g, ProducerStep(g, s, v, flag).value)
  {
    hide ObserveAll, ExpectedChecksum, IsMultiple, Wrap;
  }

  lemma StartStream(g: Config, s: State, v: nat, flag: bool)
    requires g.Accepted() && Stream(g, s) && Starting(s.p.pc)
    requires ProducerStep(g, s, v, flag).Some?
    ensures Stream(g, ProducerStep(g, s, v, flag).value)
  {
    hide ExpectedChecksum, IsMultiple, Wrap, Add, CountsUp;
    assert IsMultiple(0, g.batch) by { ZeroIsMultiple(g.batch); }
  }

  lemma PublishCounters(g: Config, s: State, v: nat, flag: bool)
    requires Inv(g, s) && s.p.pc.Publishing? && ProducerStep(g, s, v, flag).Some?
    ensures Counters(g, ProducerStep(g, s, v, flag).value) && Failures(g, ProducerStep(g, s, v, flag).value)
  {
    hide ObserveAll, ExpectedChecksum, IsMultiple, Wrap;
  }

  lemma PublishStream(g: Config, s: State, v: nat, flag: bool)
    requires g.Accepted() && Stream(g, s) && s.p.pc.Publishing?
    requires ProducerStep(g, s, v, flag).Some?
    ensures Stream(g, ProducerStep(g, s, v, flag).value)
  {
    hide ExpectedChecksum, Wrap, Add, CountsUp, IsMultiple;
    var p, count := s.p, g.Count(s.p.phase);
    if p.published < count && flag {
      CountIsMultiple(g, p.phase);
      NextMultiple(p.published, count, g.batch);
      AppendCountsUp(s.m.log, g.Base(p.phase), p.published, g.batch);
    }
  }

  lemma WaitCounters(g: Config, s: State, v: nat, flag: bool)
    requires Inv(g, s) && Waiting(s.p.pc) && ProducerStep(g, s, v, flag).Some?
    ensures Counters(g, ProducerStep(g, s, v, flag).value) && Failures(g, ProducerStep(g, s, v, flag).value)
  {
    hide ObserveAll, ExpectedChecksum, IsMultiple, Wrap;
  }

  lemma WaitStream(g: Config, s: State, v: nat, flag: bool)
    requires g.Accepted() && Counters(g, s) && Stream(g, s) && Waiting(s.p.pc)
    requires ProducerStep(g, s, v, flag).Some?
    ensures Stream(g, ProducerStep(g, s, v, flag).value)
  {
    hide ObserveAll, ExpectedChecksum, IsMultiple, Wrap, Add, InOrder, CountsUp;
  }

  lemma FinishCounters(g: Config, s: State, v: nat, flag: bool)
    requires Inv(g, s) && !Starting(s.p.pc) && !s.p.pc.Publishing? && !Waiting(s.p.pc) && ProducerStep(g, s, v, flag).Some?
    ensures Counters(g, ProducerStep(g, s, v, flag).value) && Failures(g, ProducerStep(g, s, v, flag).value)
  {
    hide ObserveAll, ExpectedChecksum, IsMultiple, Wrap;
  }

  lemma ProducerAwaits(g: Config, s: State, v: nat, flag: bool)
    requires Stream(g, s) && Awaited(g, s) && ProducerStep(g, s, v, flag).Some?
    ensures Awaited(g, ProducerStep(g, s, v, flag).value)
  {
    hide ExpectedChecksum, Wrap, Add, CountsUp, IsMultiple;
    WrapAdd(|s.m.log|, g.Count(s.p.phase));
  }

  lemma NextBase(g: Config, log: seq<u64>, phase: nat)
    requires phase >= 1 && |log| == g.Base(phase) + g.Count(phase)
    ensures |log| == g.Base(phase + 1) && CountsUp(log, |log|)
  {}

  lemma FinishStream(g: Config, s: State, v: nat, flag: bool)
    requires g.Accepted() && Counters(g, s) && Stream(g, s)
    requires !Starting(s.p.pc) && !s.p.pc.Publishing? && !Waiting(s.p.pc)
    requires ProducerStep(g, s, v, flag).Some?
    ensures Stream(g, ProducerStep(g, s, v, flag).value)
  {
    hide ExpectedChecksum, IsMultiple, Wrap, Add, CountsUp;
    if s.p.pc.Validate? {
      NextBase(g, s.m.log, s.p.phase);
    }
  }

  lemma ProducerDraining(g: Config, s: State, v: nat, flag: bool)
    requires Draining(g, s) && ProducerStep(g, s, v, flag).Some?
    ensures Draining(g, ProducerStep(g, s, v, flag).value)
  {
    hide ObserveAll, ExpectedChecksum, Wrap, Add, InOrder;
  }

  lemma ProducerMeasured(g: Config, s: State, v: nat, flag: bool)
    requires Counters(g, s) && Measured(g, s) && ProducerStep(g, s, v, flag).Some?
    ensures Measured(g, ProducerStep(g, s, v, flag).value)
  {
    hide ObserveAll, ExpectedChecksum, Wrap, Add, InOrder, Ideal, BatchValues, ArgumentsAccepted;
  }

  predicate Engaged(pc: ConsumerPc) {
    pc.ReadCount? || pc.StoreReady? || Announced(pc)
  }

  lemma EngagedCounters(g: Config, s: State, v: nat, flag: bool)
    requires Counters(g, s) && Failures(g, s) && Engaged(s.c.pc) && ConsumerStep(g, s, v, flag).Some?
    ensures Counters(g, ConsumerStep(g, s, v, flag).value)
  {
    hide ObserveAll, ExpectedChecksum, Wrap, Add, InOrder, CountsUp, IsMultiple;
  }

  lemma DisengagedCounters(g: Config, s: State, v: nat, flag: bool)
    requires Counters(g, s) && Failures(g, s) && !Engaged(s.c.pc) && ConsumerStep(g, s, v, flag).Some?
    ensures Counters(g, ConsumerStep(g, s, v, flag).value)
  {
    hide ObserveAll, ExpectedChecksum, Wrap, Add, InOrder, CountsUp, IsMultiple;
  }

  lemma ConsumerFailures(g: Config, s: State, v: nat, flag: bool)
    requires Counters(g, s) && Failures(g, s) && ConsumerStep(g, s, v, flag).Some?
    ensures Failures(g, ConsumerStep(g, s, v, flag).value)
  {
    hide ObserveAll, ExpectedChecksum, Wrap, Add, InOrder, CountsUp, IsMultiple;
  }

  lemma ConsumerStream(g: Config, s: State, v: nat, flag: bool)
    requires Stream(g, s) && ConsumerStep(g, s, v, flag).Some?
    ensures Stream(g, ConsumerStep(g, s, v, flag).value)
  {
    hide ObserveAll, ExpectedChecksum, Wrap, Add, InOrder, CountsUp, IsMultiple;
  }

  lemma ConsumerMeasured(g: Config, s: State, v: nat, flag: bool)
    requires Inv(g, s) && ConsumerStep(g, s, v, flag).Some?
    ensures Measured(g, ConsumerStep(g, s, v, flag).value)
  {
    hide ObserveAll, ExpectedChecksum, Wrap, Add, InOrder, CountsUp, IsMultiple;
    if s.c.pc.WriteMeasurement? {
      CorrectDeliveryPasses(s.c.first, s.c.calls);
    }
  }

  lemma NoCallsYet(first: u64)
    ensures InOrder(first, []) && ObserveAll(first, []) == EMPTY
  {}

  lemma ConsumerDraining(g: Config, s: State, v: nat, flag: bool)
    requires Counters(g, s) && Failures(g, s) && Draining(g, s) && !s.c.pc.Consuming?
    requires ConsumerStep(g, s, v, flag).Some?
    ensures Draining(g, ConsumerStep(g, s, v, flag).value)
  {
    hide ExpectedChecksum, Wrap, Add, ObserveAll, InOrder;
    NoCallsYet(Wrap(s.m.taken));
  }

  lemma ConsumerAwaits(g: Config, s: State, v: nat, flag: bool)
    requires Awaited(g, s) && ConsumerStep(g, s, v, flag).Some?
    ensures Awaited(g, ConsumerStep(g, s, v, flag).value)
  {
    hide ExpectedChecksum, Wrap, Add, ObserveAll, InOrder;
  }

  /** The calls one drain makes. */
  function Drained(m: Shared, v: nat): seq<(u64, u64)>
    requires m.taken + v <= |m.log|
  {
    seq(v, k requires 0 <= k < v => (m.log[m.taken + k], Wrap(m.taken + k)))
  }

  lemma DrainInOrder(base: nat, log: seq<u64>, calls: seq<(u64, u64)>, m: Shared, v: nat)
    requires m.log == log && CountsUp(log, base) && m.taken == base + |calls| && m.taken + v <= |log|
    requires InOrder(Wrap(base), calls)
    ensures InOrder(Wrap(base), calls + Drained(m, v))
  {
    hide Wrap;
    var more := calls + Drained(m, v);
    forall k | 0 <= k < |more|
      ensures more[k] == (Wrap(k), Wrap(Wrap(base) + k))
    {
      if |calls| <= k {
        WrapAdd(base, k);
        assert more[k] == (log[base + k], Wrap(base + k));
      }
    }
  }

  lemma ConsumerDrains(g: Config, s: State, v: nat, flag: bool)
    requires Inv(g, s) && s.c.pc.Consuming? && ConsumerStep(g, s, v, flag).Some?
    ensures Draining(g, ConsumerStep(g, s, v, flag).value)
  {
    hide ExpectedChecksum, Wrap, Add, CountsUp, IsMultiple, ObserveAll, InOrder;
    var c, m := s.c, s.m;
    assert c.phase == s.p.phase;
    AccumulatorsDecide(c.first, c.calls);
    SmallWrap(|c.calls|);
    if c.result.consumed < c.eventCount {
      DrainInOrder(g.Base(c.phase), m.log, c.calls, m, v);
    }
  }

  lemma ProducerKeeps(g: Config, s: State, v: nat, flag: bool)
    requires Inv(g, s) && ProducerStep(g, s, v, flag).Some?
    ensures Inv(g, ProducerStep(g, s, v, flag).value)
  {
    hide Counters, Failures, Stream, Draining, Measured, ProducerStep;
    if Starting(s.p.pc) {
      StartCounters(g, s, v, flag);
      StartStream(g, s, v, flag);
    } else if s.p.pc.Publishing? {
      PublishCounters(g, s, v, flag);
      PublishStream(g, s, v, flag);
    } else if Waiting(s.p.pc) {
      WaitCounters(g, s, v, flag);
      WaitStream(g, s, v, flag);
    } else {
      FinishCounters(g, s, v, flag);
      FinishStream(g, s, v, flag);
    }
    ProducerDraining(g, s, v, flag);
    ProducerMeasured(g, s, v, flag);
    ProducerAwaits(g, s, v, flag);
  }

  lemma ConsumerKeeps(g: Config, s: State, v: nat, flag: bool)
    requires Inv(g, s) && ConsumerStep(g, s, v, flag).Some?
    ensures Inv(g, ConsumerStep(g, s, v, flag).value)
  {
    hide Counters, Failures, Stream, Draining, Measured, ConsumerStep;
    if Engaged(s.c.pc) {
      EngagedCounters(g, s, v, flag);
    } else {
      DisengagedCounters(g, s, v, flag);
    }
    ConsumerFailures(g, s, v, flag);
    ConsumerStream(g, s, v, flag);
    ConsumerMeasured(g, s, v, flag);
    ConsumerAwaits(g, s, v, flag);
    if s.c.pc.Consuming? {
      ConsumerDrains(g, s, v, flag);
    } else {
      ConsumerDraining(g, s, v, flag);
    }
  }

  lemma {:induction false} RunKeeps(g: Config, run: seq<Action>)
    requires g.Accepted()
    ensures Run(g, run).Some? ==> Inv(g, Run(g, run).value)
  {
    if run == [] {
      InitialInv(g);
    } else {
      RunKeeps(g, run[..|run| - 1]);
      var o := Run(g, run[..|run| - 1]);
      if o.Some? && Run(g, run).Some? {
        match run[|run| - 1]
        case ByProducer(v, flag) => ProducerKeeps(g, o.value, v, flag);
        case ByConsumer(v, flag) => ConsumerKeeps(g, o.value, v, flag);
      }
    }
  }

  // ----- what every reachable state satisfies -----

  ghost predicate Reachable(g: Config, s: State) {
    g.Accepted() && exists run :: Run(g, run) == Some(s)
  }

  lemma ReachableInv(g: Config, s: State)
    requires Reachable(g, s)
    ensures Inv(g, s)
  {
    var run :| Run(g, run) == Some(s);
    RunKeeps(g, run);
  }

  /**
   No plain field is ever about to be accessed by both threads at once, and whoever accesses one has acquired
   the counter store after the other thread's last access of it.
   */
  lemma NoDataRace(g: Config, s: State)
    requires Reachable(g, s)
    ensures !(s.p.pc.SetCount? && s.c.pc.ReadCount?)
    ensures !(s.p.pc.ReadMeasurement? && s.c.pc.WriteMeasurement?)
    ensures !((s.p.pc.Rethrow? || s.p.pc.ReadError?) && s.c.pc.WriteError?)
    ensures s.p.pc.SetCount? ==> s.p.seesCompleted >= s.p.phase - 1
    ensures s.c.pc.ReadCount? ==> s.c.seesCommanded >= s.c.phase
    ensures s.p.pc.ReadMeasurement? ==> s.p.seesCompleted >= s.p.phase
    ensures s.c.pc.WriteMeasurement? ==> s.c.seesCommanded >= s.c.phase
  {
    ReachableInv(g, s);
  }

  /** An exception is rethrown only after the consumer has stored one. */
  lemma RethrowHasError(g: Config, s: State)
    requires Reachable(g, s) && s.p.pc.Rethrow?
    ensures s.m.consumerError && s.c.pc.Exit?
  {
    ReachableInv(g, s);
  }

  /** The producer validates the measurement of its own phase, and only a non-positive duration can reject it. */
  lemma OnlyTheClockRejects(g: Config, s: State)
    requires Reachable(g, s) && s.p.pc.Validate?
    ensures s.p.current == Ideal(g.Count(s.p.phase))
    ensures ProducerStep(g, s, 0, false).value.p.pc != SetFailed
  {
    ReachableInv(g, s);
  }

  /** The consumer never takes an event of a later phase and ends each phase exactly on its last event. */
  lemma PhaseIsExact(g: Config, s: State)
    requires Reachable(g, s) && Announced(s.c.pc)
    ensures g.Base(s.c.phase) <= s.m.taken <= g.Base(s.c.phase) + g.Count(s.c.phase)
    ensures s.c.pc.WriteMeasurement? || s.c.pc.StoreCompleted? ==>
              s.m.taken == g.Base(s.c.phase) + g.Count(s.c.phase) && s.c.result == Ideal(g.Count(s.c.phase))
  {
    hide Wrap, ObserveAll, ExpectedChecksum, InOrder, Stream, Measured, Failures, Awaited;
    ReachableInv(g, s);
    if s.c.pc.WriteMeasurement? || s.c.pc.StoreCompleted? {
      CorrectWhenFull(g, s);
    }
  }

  lemma CorrectWhenFull(g: Config, s: State)
    requires Draining(g, s) && (s.c.pc.WriteMeasurement? || s.c.pc.StoreCompleted?)
    ensures s.c.result == Ideal(g.Count(s.c.phase))
  {
    hide Wrap, ObserveAll, ExpectedChecksum, InOrder;
    CorrectDeliveryPasses(s.c.first, s.c.calls);
  }

  lemma {:induction false} BaseIsProduct(g: Config, phase: nat)
    requires 1 <= phase <= g.Phases()
    ensures g.Base(phase) == (phase - 1) * g.warmupEvents
  {
    if phase > 1 {
      BaseIsProduct(g, phase - 1);
    }
  }

  /** All positions of an accepted session stay below 2^63, so the plain comparison is the true one. */
  lemma PlainWaitIsCorrect(g: Config, s: State, v: nat)
    requires Reachable(g, s) && v <= s.m.taken
    ensures s.m.taken <= |s.m.log| <= MAXIMUM_EVENT_COUNT
    ensures s.p.pc.WaitConsumed? ==> (Wrap(v) < s.p.final <==> v < g.Base(s.p.phase) + g.Count(s.p.phase))
  {
    hide Inv;
    ReachableInv(g, s);
    PlainWait(g, s, v);
  }

  lemma PlainWait(g: Config, s: State, v: nat)
    requires Inv(g, s) && v <= s.m.taken
    ensures s.m.taken <= |s.m.log| <= MAXIMUM_EVENT_COUNT
    ensures s.p.pc.WaitConsumed? ==> (Wrap(v) < s.p.final <==> v < g.Base(s.p.phase) + g.Count(s.p.phase))
  {
    hide Wrap, ObserveAll, ExpectedChecksum, InOrder, Draining, Measured, Failures, CountsUp;
    PositionsFit(g, s.p.phase);
    SmallWrap(v);
    SmallWrap(g.Base(s.p.phase) + g.Count(s.p.phase));
  }

  lemma PositionsFit(g: Config, phase: nat)
    requires g.Accepted() && 1 <= phase <= g.Phases()
    ensures g.Base(phase) + g.Count(phase) <= MAXIMUM_EVENT_COUNT
  {
    BaseIsProduct(g, phase);
    ArgumentsBoundPositions(g.events, g.warmupEvents, g.warmupRuns);
    if phase < g.Phases() {
      MulMonotone(phase, g.warmupRuns, g.warmupEvents);
      assert (phase - 1) * g.warmupEvents + g.warmupEvents == phase * g.warmupEvents;
    }
  }

  /** How the session ends: it returns only the ideal measurement of the measured phase, and throws only after a failure. */
  lemma OutcomeIsRight(g: Config, s: State)
    requires Reachable(g, s)
    ensures s.p.pc.Returned? ==>
              && s.p.phase == g.Phases() && s.p.current == Ideal(g.events)
              && !s.m.consumerError && !s.m.failed && s.m.completed == g.Phases()
    ensures s.p.pc.Threw? ==> s.m.failed
    ensures s.m.failed ==> s.m.consumerError || s.p.pc.JoinFailed? || s.p.pc.Threw?
  {
    hide Wrap, ObserveAll, ExpectedChecksum, InOrder, Stream, Draining, Awaited;
    ReachableInv(g, s);
  }

  /** A producer step changes the stream only by a whole batch of the values due, and only into free slots. */
  lemma BatchesAreWhole(g: Config, s: State, v: nat, flag: bool)
    requires Reachable(g, s) && ProducerStep(g, s, v, flag).Some?
    ensures var t := ProducerStep(g, s, v, flag).value;
            t.m.taken == s.m.taken
            && (t.m.log != s.m.log ==>
                  && s.p.pc.Publishing? && s.m.log <= t.m.log && |t.m.log| == |s.m.log| + g.batch <= s.m.taken + g.cap
                  && t.p.published == s.p.published + g.batch <= g.Count(s.p.phase)
                  && forall q :: |s.m.log| <= q < |t.m.log| ==> t.m.log[q] == Wrap(s.p.published + (q - |s.m.log|)))
  {
    hide Wrap, Add, ObserveAll, ExpectedChecksum, InOrder, CountsUp, Draining, Measured, Failures, Awaited, IsMultiple;
    ReachableInv(g, s);
    if s.p.pc.Publishing? && s.p.published < g.Count(s.p.phase) {
      CountIsMultiple(g, s.p.phase);
      NextMultiple(s.p.published, g.Count(s.p.phase), g.batch);
    }
  }

  /** A consumer step takes only published events, at most the drain limit at once, and the handler sees them in order. */
  lemma DrainsAreBounded(g: Config, s: State, v: nat, flag: bool)
    requires ConsumerStep(g, s, v, flag).Some? && s.m.taken <= |s.m.log|
    ensures var t := ConsumerStep(g, s, v, flag).value;
            && t.m.log == s.m.log && s.m.taken <= t.m.taken <= |s.m.log| && t.m.taken - s.m.taken <= g.drain
            && (t.m.taken > s.m.taken ==>
                  && t.c.calls == s.c.calls + Drained(s.m, t.m.taken - s.m.taken)
                  && forall q :: s.m.taken <= q < t.m.taken ==>
                       t.c.calls[|s.c.calls| + (q - s.m.taken)] == (s.m.log[q], Wrap(q)))
  {
    hide Wrap, Add, ObserveAll;
  }

  /** Pinning that fails, and a duration that is not positive, lead to the exit that sets the flag and throws. */
  lemma FaultsAreReported(g: Config, s: State, v: nat)
    ensures s.p.pc.PinProducer? ==> ProducerStep(g, s, v, true) == Some(s.(p := s.p.(pc := SetFailed)))
    ensures s.p.pc.Validate? ==> ProducerStep(g, s, v, true) == Some(s.(p := s.p.(pc := SetFailed)))
    ensures s.c.pc.PinConsumer? ==> ConsumerStep(g, s, v, true) == Some(s.(c := s.c.(pc := WriteError)))
  {}

  // ----- shutdown -----

  /** How many more steps the producer takes once the failure flag is set and its loads of it are fresh. */
  function ProducerBudget(pc: ProducerPc): nat {
    match pc
    case WaitReady => 5
    case CheckReady => 4
    case Rethrow => 3
    case SetFailed => 2
    case JoinFailed => 1
    case _ => 0
  }

  /** The same for the consumer: finish draining what was published, then notice the flag. */
  function ConsumerBudget(s: State): nat
    requires s.m.taken <= |s.m.log|
  {
    var left := |s.m.log| - s.m.taken;
    match s.c.pc
    case WaitCommand => if s.c.phase <= s.m.commanded then 9 + left else 2
    case CheckCommand => 1
    case PinConsumer => 8 + left
    case ReadCount => 7 + left
    case StoreReady => 6 + left
    case Consuming => 5 + left
    case CheckConsume => 1
    case WriteMeasurement => 4
    case StoreCompleted => 3
    case WriteError => 2
    case StoreFailed => 1
    case Exit => 0
  }

  /** A load of the set flag returns true. */
  predicate FreshForProducer(s: State, flag: bool) {
    s.p.pc.CheckReady? ==> flag
  }

  predicate FreshForConsumer(s: State, flag: bool) {
    s.c.pc.CheckCommand? || s.c.pc.CheckConsume? ==> flag
  }

  /** Once the flag is set the producer publishes nothing more and leaves within five steps. */
  lemma ProducerShutsDown(g: Config, s: State, v: nat, flag: bool)
    requires Reachable(g, s) && s.m.failed && FreshForProducer(s, flag)
    requires ProducerStep(g, s, v, flag).Some?
    ensures var t := ProducerStep(g, s, v, flag).value;
            t.m.log == s.m.log && t.m.failed && ProducerBudget(t.p.pc) < ProducerBudget(s.p.pc) <= 5
  {
    hide Wrap, Add, ObserveAll, ExpectedChecksum, InOrder, CountsUp, IsMultiple;
    ReachableInv(g, s);
  }

  /** Once the flag is set the consumer leaves within nine steps plus one per event still in the ring. */
  lemma ConsumerShutsDown(g: Config, s: State, v: nat, flag: bool)
    requires Reachable(g, s) && s.m.failed && FreshForConsumer(s, flag)
    requires ConsumerStep(g, s, v, flag).Some?
    ensures s.m.taken <= |s.m.log|
    ensures var t := ConsumerStep(g, s, v, flag).value;
            && t.m.failed && t.m.taken <= |t.m.log|
            && ConsumerBudget(t) < ConsumerBudget(s) <= 9 + g.cap
  {
    hide Wrap, Add, ObserveAll, ExpectedChecksum, InOrder, CountsUp, IsMultiple;
    ReachableInv(g, s);
  }

  /** Neither thread is stuck while leaving: the consumer always has a step, the producer once the consumer is gone. */
  lemma ShutdownNeverStuck(g: Config, s: State)
    requires Reachable(g, s) && s.m.failed
    ensures s.c.pc != Exit ==> exists v, flag :: FreshForConsumer(s, flag) && ConsumerStep(g, s, v, flag).Some?
    ensures s.c.pc == Exit && s.p.pc != Threw ==>
              exists v, flag :: FreshForProducer(s, flag) && ProducerStep(g, s, v, flag).Some?
  {
    hide Wrap, Add, ObserveAll, ExpectedChecksum, InOrder, CountsUp, IsMultiple;
    ReachableInv(g, s);
    if s.c.pc != Exit {
      assert FreshForConsumer(s, true) && ConsumerStep(g, s, if s.c.pc.Consuming? then 0 else s.c.seesCommanded, true).Some?;
    } else if s.p.pc != Threw {
      assert FreshForProducer(s, true) && ProducerStep(g, s, s.p.seesReady, true).Some?;
    }
  }
}
