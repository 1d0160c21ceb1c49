/**
 The phase handshake when nothing fails: no thread is stuck, and every fair run returns the measurement of
 the last phase.  Loads may be stale for as long as they like, but every store is seen in the end.
 */
module PhaseProgress {
  import opened Words
  import opened Options
  import opened Accumulators
  import opened PhaseHandshake
  import opened PhaseSafety

  // ----- runs without a failure -----

  /** The step neither fails to pin a thread nor measures a non-positive duration. */
  predicate NoFault(s: State, a: Action) {
    match a
    case ByProducer(_, flag) => s.p.pc.PinProducer? || s.p.pc.Validate? ==> !flag
    case ByConsumer(_, flag) => s.c.pc.PinConsumer? ==> !flag
  }

  ghost predicate Faultless(g: Config, s: State) {
    && !s.m.failed && !s.m.consumerError
    && !s.p.pc.Rethrow? && !s.p.pc.SetFailed? && !s.p.pc.JoinFailed? && !s.p.pc.Threw?
    && !s.c.pc.WriteError? && !s.c.pc.StoreFailed?
    && (s.c.pc.Exit? ==> s.c.phase == g.Phases() + 1 && s.m.taken == g.Base(s.c.phase))
    && (s.p.pc.ReadError? || s.p.pc.Returned? ==> s.c.pc.Exit?)
  }

  ghost predicate Sound(g: Config, s: State) {
    Inv(g, s) && Faultless(g, s)
  }

  lemma ProducerFaultless(g: Config, s: State, v: nat, flag: bool)
    requires Inv(g, s) && Faultless(g, s) && NoFault(s, ByProducer(v, flag)) && ProducerStep(g, s, v, flag).Some?
    ensures Faultless(g, ProducerStep(g, s, v, flag).value)
  {
    hide Wrap, Add, ObserveAll, InOrder, CountsUp, ExpectedChecksum, IsMultiple, Stream, Draining, Counters, Failures, ConsumerStep;
  }

  lemma ConsumerFaultless(g: Config, s: State, v: nat, flag: bool)
    requires Inv(g, s) && Faultless(g, s) && NoFault(s, ByConsumer(v, flag)) && ConsumerStep(g, s, v, flag).Some?
    ensures Faultless(g, ConsumerStep(g, s, v, flag).value)
  {
    hide Wrap, Add, ObserveAll, InOrder, CountsUp, ExpectedChecksum, IsMultiple, Stream, Measured, Failures, ProducerStep;
  }

  lemma SoundKeeps(g: Config, s: State, a: Action)
    requires Sound(g, s) && NoFault(s, a) && Step(g, s, a).Some?
    ensures Sound(g, Step(g, s, a).value)
  {
    hide Inv, Faultless, ProducerStep, ConsumerStep;
    if a.ByProducer? {
      ProducerKeeps(g, s, a.v, a.flag);
      ProducerFaultless(g, s, a.v, a.flag);
    } else {
      ConsumerKeeps(g, s, a.v, a.flag);
      ConsumerFaultless(g, s, a.v, a.flag);
    }
  }

  // ----- how far a run has come -----

  function ProducerStage(pc: ProducerPc): nat {
    match pc
    case SetCount => 11
    case Command => 10
    case WaitReady => 9
    case CheckReady => 9
    case PinProducer => 8
    case Publishing => 7
    case CheckPublish => 7
    case WaitConsumed => 6
    case CheckConsumed => 6
    case WaitCompleted => 5
    case CheckCompleted => 5
    case ReadMeasurement => 4
    case Validate => 3
    case JoinDone => 2
    case ReadError => 1
    case _ => 0
  }

  function ConsumerStage(pc: ConsumerPc): nat {
    match pc
    case WaitCommand => 9
    case CheckCommand => 9
    case PinConsumer => 8
    case ReadCount => 7
    case StoreReady => 6
    case Consuming => 5
    case CheckConsume => 5
    case WriteMeasurement => 4
    case StoreCompleted => 3
    case _ => 0
  }

  function Total(g: Config): nat {
    g.Base(g.Phases() + 1)
  }

  /** Everything the two threads have still to do. */
  function Rank(g: Config, s: State): int {
    12 * (g.Phases() - s.p.phase) + ProducerStage(s.p.pc) + (Total(g) - |s.m.log|)
    + 12 * (g.Phases() + 1 - s.c.phase) + ConsumerStage(s.c.pc) + (Total(g) - s.m.taken)
  }

  lemma {:induction false} BaseMonotone(g: Config, a: nat, b: nat)
    requires 1 <= a <= b
    ensures g.Base(a) <= g.Base(b)
  {
    if a < b {
      BaseMonotone(g, a, b - 1);
    }
  }

  lemma RankNatural(g: Config, s: State)
    requires Sound(g, s)
    ensures Rank(g, s) >= 0
  {
    hide Wrap, Add, ObserveAll, InOrder, CountsUp, ExpectedChecksum, IsMultiple, Draining, Measured, Awaited, Failures;
    BaseMonotone(g, s.p.phase + 1, g.Phases() + 1);
  }

  lemma ProducerRank(g: Config, s: State, v: nat, flag: bool)
    requires Sound(g, s) && NoFault(s, ByProducer(v, flag)) && ProducerStep(g, s, v, flag).Some?
    ensures Rank(g, ProducerStep(g, s, v, flag).value) <= Rank(g, s)
  {
    hide Wrap, Add, ObserveAll, InOrder, CountsUp, ExpectedChecksum, IsMultiple, Stream, Draining, Awaited, Failures, Total;
  }

  lemma ConsumerRank(g: Config, s: State, v: nat, flag: bool)
    requires Sound(g, s) && NoFault(s, ByConsumer(v, flag)) && ConsumerStep(g, s, v, flag).Some?
    ensures Rank(g, ConsumerStep(g, s, v, flag).value) <= Rank(g, s)
  {
    hide Wrap, Add, ObserveAll, InOrder, CountsUp, ExpectedChecksum, IsMultiple, Stream, Draining, Measured, Awaited, Failures, Total;
  }

  /** No step of a run without failures goes back. */
  lemma RankFalls(g: Config, s: State, a: Action)
    requires Sound(g, s) && NoFault(s, a) && Step(g, s, a).Some?
    ensures Rank(g, Step(g, s, a).value) <= Rank(g, s)
  {
    hide Sound, Rank, ProducerStep, ConsumerStep;
    if a.ByProducer? {
      ProducerRank(g, s, a.v, a.flag);
    } else {
      ConsumerRank(g, s, a.v, a.flag);
    }
  }

  // ----- nobody is stuck -----

  /** With loads that see what is stored in m0, the producer's wait is over. */
  ghost predicate ProducerReady(g: Config, s: State, m0: Shared) {
    var p := s.p;
    match p.pc
    case WaitReady => p.phase <= m0.ready
    case CheckReady => p.phase <= m0.ready
    case Publishing => g.Count(p.phase) <= p.published || |s.m.log| + g.batch <= m0.taken + g.cap
    case CheckPublish => g.Count(p.phase) <= p.published || |s.m.log| + g.batch <= m0.taken + g.cap
    case WaitConsumed => g.Base(p.phase) + g.Count(p.phase) <= m0.taken
    case CheckConsumed => g.Base(p.phase) + g.Count(p.phase) <= m0.taken
    case WaitCompleted => p.phase <= m0.completed
    case CheckCompleted => p.phase <= m0.completed
    case JoinDone => s.c.pc.Exit?
    case Returned => false
    case _ => true
  }

  ghost predicate ConsumerReady(g: Config, s: State, m0: Shared) {
    var c := s.c;
    match c.pc
    case WaitCommand => g.Phases() < c.phase || c.phase <= m0.commanded
    case CheckCommand => g.Phases() < c.phase || c.phase <= m0.commanded
    case Consuming => c.eventCount <= c.result.consumed || s.m.taken < |m0.log|
    case CheckConsume => c.eventCount <= c.result.consumed || s.m.taken < |m0.log|
    case Exit => false
    case _ => true
  }

  predicate Finished(s: State) {
    (s.p.pc.Returned? || s.p.pc.Threw?) && s.c.pc.Exit?
  }

  /** While the consumer is a phase ahead, it has taken everything published. */
  lemma AheadHasAll(g: Config, s: State)
    requires Sound(g, s) && s.c.phase == s.p.phase + 1
    ensures s.m.taken == |s.m.log| == g.Base(s.p.phase) + g.Count(s.p.phase)
  {
    hide Wrap, Add, ObserveAll, InOrder, CountsUp, ExpectedChecksum, IsMultiple, Measured, Awaited;
  }

  /** A consumer that counts fewer events than its phase has not taken the phase's last one. */
  lemma ShortOfPhase(g: Config, s: State)
    requires Sound(g, s) && (s.c.pc.Consuming? || s.c.pc.CheckConsume?) && s.c.result.consumed < s.c.eventCount
    ensures s.c.phase == s.p.phase && s.m.taken < g.Base(s.p.phase) + g.Count(s.p.phase)
  {
    hide Wrap, Add, ObserveAll, InOrder, CountsUp, ExpectedChecksum, IsMultiple, Measured, Awaited;
    AccumulatorsDecide(s.c.first, s.c.calls);
    SmallWrap(|s.c.calls|);
    if s.c.phase == s.p.phase + 1 {
      AheadHasAll(g, s);
    }
  }

  /** Some thread is not waiting for the other: there is no deadlock. */
  lemma SomeoneReady(g: Config, s: State)
    requires Sound(g, s) && !Finished(s)
    ensures ProducerReady(g, s, s.m) || ConsumerReady(g, s, s.m)
  {
    hide Wrap, Add, ObserveAll, InOrder, CountsUp, ExpectedChecksum, IsMultiple, Measured, Awaited;
    if s.c.phase == s.p.phase + 1 {
      AheadHasAll(g, s);
    }
    if (s.c.pc.Consuming? || s.c.pc.CheckConsume?) && s.c.result.consumed < s.c.eventCount {
      ShortOfPhase(g, s);
    }
  }

  /** The step's load, if it is one, sees what is stored in m0. */
  ghost predicate Sees(g: Config, s: State, a: Action, m0: Shared) {
    match a
    case ByProducer(v, flag) =>
      && (s.p.pc.WaitReady? ==> m0.ready <= v)
      && (s.p.pc.WaitConsumed? ==> m0.taken <= v)
      && (s.p.pc.WaitCompleted? ==> m0.completed <= v)
      // a refusal is witnessed by a cursor that leaves no room
      && (s.p.pc.Publishing? && s.p.published < g.Count(s.p.phase) && !flag ==> m0.taken + g.cap < |s.m.log| + g.batch)
    case ByConsumer(v, _) =>
      && (s.c.pc.WaitCommand? && s.c.phase <= g.Phases() ==> m0.commanded <= v)
      // an empty call has loaded a publication boundary that shows nothing new
      && (s.c.pc.Consuming? && s.c.result.consumed < s.c.eventCount && v == 0 ==> |m0.log| <= s.m.taken)
  }

  ghost predicate FreshStep(g: Config, s: State, a: Action) {
    NoFault(s, a) && Sees(g, s, a, s.m) && Step(g, s, a).Some?
  }

  /** A thread that has neither finished nor only the join to wait for. */
  predicate CanMove(s: State, producer: bool) {
    if producer then !s.p.pc.Returned? && !s.p.pc.Threw? && (s.p.pc.JoinDone? ==> s.c.pc.Exit?) else !s.c.pc.Exit?
  }

  /** Such a thread has a step with fresh loads. */
  lemma EveryThreadCanStep(g: Config, s: State, producer: bool) returns (a: Action)
    requires Sound(g, s) && CanMove(s, producer)
    ensures FreshStep(g, s, a) && a.ByProducer? == producer
  {
    hide Wrap, Add, ObserveAll, InOrder, CountsUp, ExpectedChecksum, IsMultiple, Measured, Awaited, Draining;
    if producer {
      var v := if s.p.pc.WaitReady? then s.m.ready else if s.p.pc.WaitConsumed? then s.m.taken else s.m.completed;
      a := ByProducer(v, s.p.pc.Publishing? && |s.m.log| + g.batch <= s.m.taken + g.cap);
    } else {
      var left := |s.m.log| - s.m.taken;
      a := ByConsumer(if s.c.pc.WaitCommand? then s.m.commanded else if left < g.drain then left else g.drain, false);
    }
  }

  // ----- infinite runs -----

  /** Once both threads have finished nothing happens any more. */
  ghost predicate IsRun(g: Config, run: nat -> State, acts: nat -> Action) {
    && g.Accepted() && run(0) == Initial()
    && forall t: nat :: if Finished(run(t)) then run(t + 1) == run(t)
                        else NoFault(run(t), acts(t)) && Step(g, run(t), acts(t)) == Some(run(t + 1))
  }

  ghost predicate StepsLater(acts: nat -> Action, t: nat, producer: bool) {
    exists later: nat :: t <= later && acts(later).ByProducer? == producer
  }

  ghost predicate SeenFrom(g: Config, run: nat -> State, acts: nat -> Action, t: nat, u: nat) {
    forall later: nat :: u <= later ==> Sees(g, run(later), acts(later), run(t).m)
  }

  ghost predicate SeenInTheEnd(g: Config, run: nat -> State, acts: nat -> Action, t: nat) {
    exists u: nat :: SeenFrom(g, run, acts, t, u)
  }

  /** Every thread that can move takes further steps, and every store is seen in the end. */
  ghost predicate Fair(g: Config, run: nat -> State, acts: nat -> Action) {
    && (forall t: nat, producer: bool :: CanMove(run(t), producer) ==> StepsLater(acts, t, producer))
    && (forall t: nat :: SeenInTheEnd(g, run, acts, t))
  }

  lemma {:induction false} RunSound(g: Config, run: nat -> State, acts: nat -> Action, t: nat)
    requires IsRun(g, run, acts)
    ensures Sound(g, run(t))
  {
    hide Inv, Step, Initial;
    if t == 0 {
      InitialSound(g);
    } else {
      RunSound(g, run, acts, t - 1);
      assert if Finished(run(t - 1)) then run(t - 1 + 1) == run(t - 1)
             else NoFault(run(t - 1), acts(t - 1)) && Step(g, run(t - 1), acts(t - 1)) == Some(run(t - 1 + 1));
      if !Finished(run(t - 1)) {
        SoundKeeps(g, run(t - 1), acts(t - 1));
      }
    }
  }

  lemma InitialSound(g: Config)
    requires g.Accepted()
    ensures Sound(g, Initial())
  {
    InitialInv(g);
  }

  lemma {:induction false} RankMonotone(g: Config, run: nat -> State, acts: nat -> Action, t: nat, u: nat)
    requires IsRun(g, run, acts) && t <= u
    ensures Rank(g, run(u)) <= Rank(g, run(t))
    decreases u - t
  {
    hide Inv, Step, Rank, Sound, Initial;
    if t < u {
      RankMonotone(g, run, acts, t, u - 1);
      RunSound(g, run, acts, u - 1);
      assert if Finished(run(u - 1)) then run(u - 1 + 1) == run(u - 1)
             else NoFault(run(u - 1), acts(u - 1)) && Step(g, run(u - 1), acts(u - 1)) == Some(run(u - 1 + 1));
      if !Finished(run(u - 1)) {
        RankFalls(g, run(u - 1), acts(u - 1));
      }
    }
  }

  // ----- a thread whose wait is over moves -----

  ghost predicate Ready(g: Config, s: State, m0: Shared, producer: bool) {
    if producer then ProducerReady(g, s, m0) else ConsumerReady(g, s, m0)
  }

  /** The thread is about to look at the failure flag, between two looks at what it waits for. */
  predicate Looking(s: State, producer: bool) {
    if producer then s.p.pc.CheckReady? || s.p.pc.CheckPublish? || s.p.pc.CheckConsumed? || s.p.pc.CheckCompleted?
    else s.c.pc.CheckCommand? || s.c.pc.CheckConsume?
  }

  lemma ReadyCanMove(g: Config, s: State, m0: Shared, producer: bool)
    requires Sound(g, s) && Ready(g, s, m0, producer)
    ensures CanMove(s, producer) && !Finished(s)
  {}

  /** Until the rank falls, a thread that is ready stays so. */
  lemma ReadyStays(g: Config, s: State, a: Action, m0: Shared, producer: bool)
    requires Sound(g, s) && NoFault(s, a) && Step(g, s, a).Some? && Ready(g, s, m0, producer)
    requires Rank(g, Step(g, s, a).value) == Rank(g, s)
    ensures Ready(g, Step(g, s, a).value, m0, producer)
  {
    hide Wrap, Add, ObserveAll, InOrder, CountsUp, ExpectedChecksum, IsMultiple, Stream, Draining, Awaited, Total;
    if a.ByProducer? {
      ProducerSpins(g, s, a.v, a.flag);
    } else {
      ConsumerSpins(g, s, a.v, a.flag);
    }
  }

  /** A producer step that keeps the rank is one turn of a waiting loop. */
  lemma ProducerSpins(g: Config, s: State, v: nat, flag: bool)
    requires Sound(g, s) && NoFault(s, ByProducer(v, flag)) && ProducerStep(g, s, v, flag).Some?
    requires Rank(g, ProducerStep(g, s, v, flag).value) == Rank(g, s)
    ensures var t := ProducerStep(g, s, v, flag).value;
            && t.c == s.c && t.m == s.m && t.p.phase == s.p.phase && t.p.published == s.p.published
            && ProducerStage(t.p.pc) == ProducerStage(s.p.pc) && Looking(t, true) == !Looking(s, true)
            && (Looking(t, true) || Looking(s, true))
  {
    hide Wrap, Add, ObserveAll, InOrder, CountsUp, ExpectedChecksum, IsMultiple, Stream, Draining, Awaited, Failures, Total;
  }

  lemma ConsumerSpins(g: Config, s: State, v: nat, flag: bool)
    requires Sound(g, s) && NoFault(s, ByConsumer(v, flag)) && ConsumerStep(g, s, v, flag).Some?
    requires Rank(g, ConsumerStep(g, s, v, flag).value) == Rank(g, s)
    ensures var t := ConsumerStep(g, s, v, flag).value;
            && t.p == s.p && t.m == s.m && t.c == s.c.(pc := t.c.pc, seesCommanded := t.c.seesCommanded)
            && ConsumerStage(t.c.pc) == ConsumerStage(s.c.pc) && Looking(t, false) == !Looking(s, false)
            && (Looking(t, false) || Looking(s, false))
  {
    hide Wrap, Add, ObserveAll, InOrder, CountsUp, ExpectedChecksum, IsMultiple, Stream, Draining, Measured, Awaited, Failures, Total;
  }

  /** The phase it waits for is the only one the producer can see. */
  lemma ReadyIsOwn(g: Config, s: State)
    requires Sound(g, s) && s.p.pc.WaitReady?
    ensures s.m.ready <= s.p.phase
  {
    hide Wrap, Add, ObserveAll, InOrder, CountsUp, ExpectedChecksum, IsMultiple, Draining, Measured, Awaited;
    if s.c.phase == s.p.phase + 1 {
      AheadHasAll(g, s);
    }
  }

  lemma ProducerMoves(g: Config, s: State, v: nat, flag: bool, m0: Shared)
    requires Sound(g, s) && ProducerReady(g, s, m0) && !Looking(s, true)
    requires NoFault(s, ByProducer(v, flag)) && Sees(g, s, ByProducer(v, flag), m0) && ProducerStep(g, s, v, flag).Some?
    ensures Rank(g, ProducerStep(g, s, v, flag).value) < Rank(g, s)
  {
    hide Wrap, Add, ObserveAll, InOrder, CountsUp, ExpectedChecksum, IsMultiple, Stream, Draining, Measured, Awaited, Failures, Total, Rank;
    if s.p.pc.WaitReady? {
      ReadyIsOwn(g, s);
    }
    if s.p.pc.WaitConsumed? && v <= s.m.taken {
      PlainWait(g, s, v);
    }
    ProducerRank(g, s, v, flag);
    if Rank(g, ProducerStep(g, s, v, flag).value) == Rank(g, s) {
      ProducerSpins(g, s, v, flag);
      assert false;
    }
  }

  lemma ConsumerMoves(g: Config, s: State, v: nat, flag: bool, m0: Shared)
    requires Sound(g, s) && ConsumerReady(g, s, m0) && !Looking(s, false)
    requires NoFault(s, ByConsumer(v, flag)) && Sees(g, s, ByConsumer(v, flag), m0) && ConsumerStep(g, s, v, flag).Some?
    ensures Rank(g, ConsumerStep(g, s, v, flag).value) < Rank(g, s)
  {
    hide Wrap, Add, ObserveAll, InOrder, CountsUp, ExpectedChecksum, IsMultiple, Stream, Draining, Measured, Awaited, Failures, Total, Rank;
    ConsumerRank(g, s, v, flag);
    if Rank(g, ConsumerStep(g, s, v, flag).value) == Rank(g, s) {
      ConsumerSpins(g, s, v, flag);
      assert false;
    }
  }

  /** One step of a ready thread, with a load that sees m0, lowers the rank or turns its loop back to the load. */
  lemma OwnStep(g: Config, s: State, a: Action, m0: Shared, producer: bool)
    requires Sound(g, s) && Ready(g, s, m0, producer) && a.ByProducer? == producer
    requires NoFault(s, a) && Sees(g, s, a, m0) && Step(g, s, a).Some?
    ensures var t := Step(g, s, a).value;
            Rank(g, t) < Rank(g, s) || (Rank(g, t) == Rank(g, s) && Looking(s, producer) && !Looking(t, producer))
  {
    hide Sound, Rank, ProducerStep, ConsumerStep, Sees, ProducerReady, ConsumerReady, NoFault;
    RankFalls(g, s, a);
    if Rank(g, Step(g, s, a).value) == Rank(g, s) {
      if producer {
        ProducerSpins(g, s, a.v, a.flag);
        if !Looking(s, true) {
          ProducerMoves(g, s, a.v, a.flag, m0);
        }
      } else {
        ConsumerSpins(g, s, a.v, a.flag);
        if !Looking(s, false) {
          ConsumerMoves(g, s, a.v, a.flag, m0);
        }
      }
    }
  }

  /** A step of the other thread that keeps the rank leaves this one alone. */
  lemma OthersStep(g: Config, s: State, a: Action, producer: bool)
    requires Sound(g, s) && a.ByProducer? != producer && NoFault(s, a) && Step(g, s, a).Some?
    requires Rank(g, Step(g, s, a).value) == Rank(g, s)
    ensures Looking(Step(g, s, a).value, producer) == Looking(s, producer)
  {
    hide Sound, Rank, ProducerStep, ConsumerStep, NoFault;
    if a.ByProducer? {
      ProducerSpins(g, s, a.v, a.flag);
    } else {
      ConsumerSpins(g, s, a.v, a.flag);
    }
  }

  lemma RunStep(g: Config, run: nat -> State, acts: nat -> Action, t: nat)
    requires IsRun(g, run, acts)
    ensures Sound(g, run(t)) && Sound(g, run(t + 1))
    ensures Rank(g, run(t + 1)) <= Rank(g, run(t))
    ensures if Finished(run(t)) then run(t + 1) == run(t)
            else NoFault(run(t), acts(t)) && Step(g, run(t), acts(t)) == Some(run(t + 1))
  {
    hide Inv, Step, Rank, Sound, Initial;
    RunSound(g, run, acts, t);
    RunSound(g, run, acts, t + 1);
    RankMonotone(g, run, acts, t, t + 1);
    assert if Finished(run(t)) then run(t + 1) == run(t)
           else NoFault(run(t), acts(t)) && Step(g, run(t), acts(t)) == Some(run(t + 1));
  }

  lemma {:induction false} ReadyMoves(g: Config, run: nat -> State, acts: nat -> Action, m0: Shared, t: nat, later: nat, producer: bool)
    returns (u: nat)
    requires IsRun(g, run, acts) && Fair(g, run, acts) && Ready(g, run(t), m0, producer)
    requires forall x: nat :: t <= x ==> Sees(g, run(x), acts(x), m0)
    requires t <= later && acts(later).ByProducer? == producer
    ensures t < u && Rank(g, run(u)) < Rank(g, run(t))
    decreases if Looking(run(t), producer) then 1 else 0, later - t
  {
    hide IsRun, Ready, Sees, Step, Rank, Sound, NoFault, Looking, CanMove;
    RunStep(g, run, acts, t);
    ReadyCanMove(g, run(t), m0, producer);
    if Rank(g, run(t + 1)) < Rank(g, run(t)) {
      u := t + 1;
    } else {
      ReadyStays(g, run(t), acts(t), m0, producer);
      if acts(t).ByProducer? == producer {
        assert Sees(g, run(t), acts(t), m0);
        OwnStep(g, run(t), acts(t), m0, producer);
        ReadyCanMove(g, run(t + 1), m0, producer);
        assert StepsLater(acts, t + 1, producer);
        var next: nat :| t + 1 <= next && acts(next).ByProducer? == producer;
        u := ReadyMoves(g, run, acts, m0, t + 1, next, producer);
      } else {
        OthersStep(g, run(t), acts(t), producer);
        u := ReadyMoves(g, run, acts, m0, t + 1, later, producer);
      }
    }
  }

  lemma {:induction false} ReadyUntil(g: Config, run: nat -> State, acts: nat -> Action, m0: Shared, t: nat, u: nat, producer: bool)
    requires IsRun(g, run, acts) && t <= u && Ready(g, run(t), m0, producer) && Rank(g, run(u)) == Rank(g, run(t))
    ensures Ready(g, run(u), m0, producer)
    decreases u - t
  {
    hide IsRun, Ready, Step, Rank, Sound, NoFault, Initial;
    if t < u {
      RankMonotone(g, run, acts, t, u - 1);
      RankMonotone(g, run, acts, u - 1, u);
      ReadyUntil(g, run, acts, m0, t, u - 1, producer);
      RunStep(g, run, acts, u - 1);
      ReadyCanMove(g, run(u - 1), m0, producer);
      ReadyStays(g, run(u - 1), acts(u - 1), m0, producer);
    }
  }

  /** A run that has not finished comes nearer to its end. */
  lemma RunAdvances(g: Config, run: nat -> State, acts: nat -> Action, t: nat) returns (u: nat)
    requires IsRun(g, run, acts) && Fair(g, run, acts) && !Finished(run(t))
    ensures t < u && Rank(g, run(u)) < Rank(g, run(t))
  {
    hide IsRun, ProducerReady, ConsumerReady, Sees, Step, Rank, Sound, NoFault, CanMove, Finished;
    RunStep(g, run, acts, t);
    SomeoneReady(g, run(t));
    var producer := ProducerReady(g, run(t), run(t).m);
    assert Ready(g, run(t), run(t).m, producer);
    assert SeenInTheEnd(g, run, acts, t);
    var x: nat :| SeenFrom(g, run, acts, t, x);
    var v := if t < x then x else t;
    RankMonotone(g, run, acts, t, v);
    if Rank(g, run(v)) < Rank(g, run(t)) {
      u := v;
    } else {
      ReadyUntil(g, run, acts, run(t).m, t, v, producer);
      RunStep(g, run, acts, v);
      ReadyCanMove(g, run(v), run(t).m, producer);
      assert StepsLater(acts, v, producer);
      var later: nat :| v <= later && acts(later).ByProducer? == producer;
      u := ReadyMoves(g, run, acts, run(t).m, v, later, producer);
    }
  }

  lemma {:induction false} RunFinishes(g: Config, run: nat -> State, acts: nat -> Action, t: nat) returns (finish: nat)
    requires IsRun(g, run, acts) && Fair(g, run, acts)
    ensures t <= finish && Finished(run(finish))
    decreases Rank(g, run(t))
  {
    hide IsRun, Fair, Rank, Sound, Finished, Step, NoFault;
    if Finished(run(t)) {
      finish := t;
    } else {
      RunStep(g, run, acts, t);
      RankNatural(g, run(t));
      var u := RunAdvances(g, run, acts, t);
      RunStep(g, run, acts, u);
      RankNatural(g, run(u));
      finish := RunFinishes(g, run, acts, u);
    }
  }

  lemma FinishedMeans(g: Config, s: State)
    requires Sound(g, s) && Finished(s)
    ensures s.p.pc.Returned? && s.p.phase == g.Phases() && s.p.current == Ideal(g.events)
    ensures s.m.taken == |s.m.log| == g.warmupRuns * g.warmupEvents + g.events
  {
    hide Wrap, Add, ObserveAll, InOrder, CountsUp, ExpectedChecksum, IsMultiple, Draining, Awaited;
    BaseIsProduct(g, s.p.phase);
  }

  /**
   Every fair run in which no thread fails to pin and every duration is positive returns: the producer with
   the ideal measurement of the measured phase, every event of every phase delivered.
   */
  lemma FairRunsReturn(g: Config, run: nat -> State, acts: nat -> Action) returns (finish: nat)
    requires IsRun(g, run, acts) && Fair(g, run, acts)
    ensures var s := run(finish);
            && s.p.pc.Returned? && s.c.pc.Exit? && s.p.current == Ideal(g.events)
            && s.m.taken == |s.m.log| == g.warmupRuns * g.warmupEvents + g.events
  {
    hide IsRun, Fair, Sound, Rank, Step, NoFault;
    finish := RunFinishes(g, run, acts, 0);
    RunStep(g, run, acts, finish);
    FinishedMeans(g, run(finish));
  }

  // ----- no deadlock -----

  /** A finite run without a failure. */
  ghost predicate FaultlessRun(g: Config, run: seq<Action>) {
    && Run(g, run).Some?
    && (run == [] || (FaultlessRun(g, run[..|run| - 1]) && NoFault(Run(g, run[..|run| - 1]).value, run[|run| - 1])))
  }

  lemma {:induction false} FaultlessRunIsSound(g: Config, run: seq<Action>)
    requires g.Accepted() && FaultlessRun(g, run)
    ensures Sound(g, Run(g, run).value)
  {
    hide Inv, Step, NoFault;
    if run == [] {
      InitialSound(g);
    } else {
      FaultlessRunIsSound(g, run[..|run| - 1]);
      SoundKeeps(g, Run(g, run[..|run| - 1]).value, run[|run| - 1]);
    }
  }

  /**
   In every state short of the end some thread is not waiting for the other, and each thread that has not
   only the join to wait for has a step with fresh loads.
   */
  lemma NobodyIsStuck(g: Config, run: seq<Action>, producer: bool) returns (a: Action)
    requires g.Accepted() && FaultlessRun(g, run) && !Finished(Run(g, run).value)
    ensures var s := Run(g, run).value;
            && (ProducerReady(g, s, s.m) || ConsumerReady(g, s, s.m))
            && (CanMove(s, producer) ==> FreshStep(g, s, a) && a.ByProducer? == producer)
  {
    hide Sound, FreshStep, ProducerReady, ConsumerReady, CanMove, Finished, Run;
    var s := Run(g, run).value;
    FaultlessRunIsSound(g, run);
    SomeoneReady(g, s);
    a := ByProducer(0, false);
    if CanMove(s, producer) {
      a := EveryThreadCanStep(g, s, producer);
    }
  }
}
