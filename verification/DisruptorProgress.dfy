/**
 Progress of the concurrent 64-bit machine.  Loads may be stale for as long as they like, but every store
 is seen in the end; threads may be interleaved in any way, but each keeps working while it is short of the
 target.  Then everything is published and every consumer gets it all.
 */
module DisruptorProgress {
  import opened Words
  import opened Options
  import opened DisruptorLog
  import opened DisruptorProtocol
  import opened DisruptorSafety
  import opened DisruptorRefinement
  import opened DisruptorLinearization

  // ----- what is left to do -----

  function Short(target: nat, x: nat): nat {
    if x < target then target - x else 0
  }

  ghost function Missing(cursors: seq<nat>, target: nat): nat {
    if cursors == [] then 0
    else Short(target, cursors[|cursors| - 1]) + Missing(cursors[..|cursors| - 1], target)
  }

  /** (target - published) plus everything each consumer has still to take. */
  ghost function Remaining<E>(log: Log<E>, target: nat): nat {
    Short(target, |log.events|) + Missing(log.cursors, target)
  }

  predicate Delivered<E>(log: Log<E>, target: nat) {
    target <= |log.events| && forall i :: 0 <= i < |log.cursors| ==> target <= log.cursors[i]
  }

  /** Nothing is taken back. */
  ghost predicate Grows<E>(log: Log<E>, later: Log<E>) {
    && |log.events| <= |later.events| && |log.cursors| == |later.cursors|
    && forall i :: 0 <= i < |log.cursors| ==> log.cursors[i] <= later.cursors[i]
  }

  /** Something short of the target has moved. */
  ghost predicate Gains<E>(log: Log<E>, later: Log<E>, target: nat) {
    && Grows(log, later)
    && ((|log.events| < target && |log.events| < |later.events|)
        || exists i :: 0 <= i < |log.cursors| && log.cursors[i] < target && log.cursors[i] < later.cursors[i])
  }

  lemma {:induction false} MissingFalls(a: seq<nat>, b: seq<nat>, target: nat)
    requires |a| == |b| && forall i :: 0 <= i < |a| ==> a[i] <= b[i]
    ensures Missing(b, target) <= Missing(a, target)
    ensures (exists i :: 0 <= i < |a| && a[i] < target && a[i] < b[i]) ==> Missing(b, target) < Missing(a, target)
  {
    if a != [] {
      MissingFalls(a[..|a| - 1], b[..|b| - 1], target);
    }
  }

  lemma RemainingFalls<E>(log: Log<E>, later: Log<E>, target: nat)
    requires Grows(log, later)
    ensures Remaining(later, target) <= Remaining(log, target)
    ensures Gains(log, later, target) ==> Remaining(later, target) < Remaining(log, target)
  {
    MissingFalls(log.cursors, later.cursors, target);
  }

  /** No step loses ground, and a release short of the target gains. */
  lemma StepGains<E(!new)>(ring: seq<E>, n: nat, p: u64, w: State<E>, a: Action<E>, target: nat)
    requires Reachable(ring, n, p, w) && Step(Word64, |ring|, w, a).Some?
    ensures var log := LogOf(|ring|, p, w);
            var later := LogOf(|ring|, p, Step(Word64, |ring|, w, a).value);
            && Remaining(later, target) <= Remaining(log, target)
            && (a.ReleasePublished? && |log.events| < target ==> Remaining(later, target) < Remaining(log, target))
            && (a.ReleaseCursor? && (a.i < |log.cursors| ==> log.cursors[a.i] < target) ==>
                  Remaining(later, target) < Remaining(log, target))
  {
    hide Step, LogOf, Remaining, History;
    StepRefinesLog(ring, n, p, w, a);
    RemainingFalls(LogOf(|ring|, p, w), LogOf(|ring|, p, Step(Word64, |ring|, w, a).value), target);
  }

  // ----- threads -----

  datatype Thread = Publisher | Reader(i: nat)

  /** A step of a thread's own attempt; the start of one must ask for something that fits the ring. */
  predicate Works<E>(cap: nat, a: Action<E>, who: Thread) {
    match who
    case Publisher =>
      a.LoadCursor? || a.ScanStep? || a.WriteSlot? || a.ReleasePublished? || (a.BeginPublish? && 0 < a.batch <= cap)
    case Reader(i) =>
      (a.BeginConsume? && a.i == i && a.max > 0) || a == ReadSlot(i) || a == ReleaseCursor(i)
  }

  /** The consumer whose cursor the producer loads next. */
  function LoadedConsumer<E>(w: State<E>): nat {
    if w.phase.CheckBlocker? then w.blocker else if w.phase.Scan? then w.phase.index else |w.consumers|
  }

  /** The call goes past its cached boundary to published_. */
  predicate LoadsPublished<E>(ar: Arithmetic, c: Consumer<E>, max: nat) {
    max > 0 && !(c.handle && Distance(ar, c.cached, c.next) != 0)
  }

  // ----- no state is stuck -----

  /** The producer's next step with a fresh load, once it is in an attempt. */
  function NextProducerStep<E>(s: State<E>, event: E): Action<E> {
    match s.phase
    case Ready => BeginPublish(1)
    case CheckBlocker(_) => FreshLoad(s)
    case Scan(_, index, _, _) => if index == |s.consumers| || index == s.blocker then ScanStep else FreshLoad(s)
    case Writing(count, done) => if done < count then WriteSlot(event) else ReleasePublished
  }

  function FreshLoad<E>(s: State<E>): Action<E> {
    if LoadedConsumer(s) < |s.consumers| && s.consumers[LoadedConsumer(s)].cursor != []
    then LoadCursor(|s.consumers[LoadedConsumer(s)].cursor| - 1) else ScanStep
  }

  function NextConsumerStep<E>(s: State<E>, i: nat): Action<E>
    requires i < |s.consumers|
  {
    match s.consumers[i].phase
    case Idle => BeginConsume(i, 1, if s.published == [] then 0 else |s.published| - 1)
    case Reading(count, done) => if done < count then ReadSlot(i) else ReleaseCursor(i)
  }

  lemma ProducerCanStep<E>(cap: nat, init: nat, s: State<E>, event: E)
    requires ValidCapacity(cap) && Inv(cap, init, s)
    ensures Step(Unbounded, cap, s, NextProducerStep(s, event)).Some?
  {
    hide And, RingInv;
    if LoadedConsumer(s) < |s.consumers| {
      assert ConsumerInv(init, s, s.consumers[LoadedConsumer(s)]);
    }
  }

  lemma ConsumerCanStep<E>(cap: nat, init: nat, s: State<E>, i: nat)
    requires ValidCapacity(cap) && Inv(cap, init, s) && i < |s.consumers|
    ensures Step(Unbounded, cap, s, NextConsumerStep(s, i)).Some? && s.published != []
  {
    hide And, RingInv;
    assert ConsumerInv(init, s, s.consumers[i]);
  }

  /** In every reachable state every thread has a step of its own work, with a fresh load, so fairness can be met. */
  lemma EveryThreadCanWork<E(!new)>(ring: seq<E>, n: nat, p: u64, w: State<E>, who: Thread, event: E)
    returns (a: Action<E>)
    requires Reachable(ring, n, p, w) && (who.Reader? ==> who.i < n)
    ensures Works(|ring|, a, who) && Step(Word64, |ring|, w, a).Some?
    ensures a.LoadCursor? ==> a == FreshLoad(w)
    ensures a.BeginConsume? ==> a.store + 1 == |w.published|
  {
    hide And, Inv, Step;
    var s := TruePositions(ring, n, p, w);
    if who.Publisher? {
      a := NextProducerStep(s, event);
      ProducerCanStep(|ring|, p, s, event);
    } else {
      a := NextConsumerStep(s, who.i);
      ConsumerCanStep(|ring|, p, s, who.i);
    }
    Lockstep(|ring|, p, s, a);
  }

  /** Steps of the producer alone in which every load is fresh. */
  ghost function FreshRun<E>(ar: Arithmetic, cap: nat, s: State<E>, run: seq<Action<E>>): Option<State<E>>
    requires cap > 0
    decreases |run|
  {
    if run == [] then Some(s)
    else if !Works(cap, run[0], Publisher) || (run[0].LoadCursor? && run[0] != FreshLoad(s)) then None
    else
      match Step(ar, cap, s, run[0])
      case None => None
      case Some(t) => FreshRun(ar, cap, t, run[1..])
  }

  lemma {:induction false} FreshRunWraps<E>(cap: nat, init: nat, s: State<E>, run: seq<Action<E>>)
    requires ValidCapacity(cap) && Inv(cap, init, s)
    ensures FreshRun(Word64, cap, WrapState(s), run) == WrapOption(FreshRun(Unbounded, cap, s, run))
    decreases |run|
  {
    hide And, Inv, Step;
    if run != [] {
      StepRefines(cap, init, s, run[0]);
      assert FreshLoad(WrapState(s)) == FreshLoad(s);
      if Step(Unbounded, cap, s, run[0]).Some? {
        FreshRunWraps(cap, init, Step(Unbounded, cap, s, run[0]).value, run[1..]);
      }
    }
  }

  function Requested(phase: ProducerPhase): nat {
    match phase
    case Ready => 0
    case CheckBlocker(required) => required
    case Scan(required, _, _, _) => required
    case Writing(count, _) => count
  }

  /** Steps to the end of an attempt whose loads are fresh and succeed. */
  function ProducerLeft<E>(cap: nat, s: State<E>): int {
    match s.phase
    case Ready => cap + |s.consumers| + 3
    case CheckBlocker(_) => cap + |s.consumers| + 2
    case Scan(_, index, _, _) => cap + 1 + |s.consumers| - index
    case Writing(count, done) => count - done
  }

  /** The attempt is over with the answer of the simple rule. */
  ghost predicate Answered<E>(cap: nat, init: nat, s: State<E>, t: State<E>, count: nat) {
    var log := LogOf(cap, init, s);
    && t.phase.Ready?
    && t.results == s.results + [log.Accepts(count)]
    && |History(t)| == |History(s)| + (if log.Accepts(count) then count else 0)
    && Cursors(t) == Cursors(s)
  }

  /** The attempt goes on, log and results as they were, and is nearer to its end. */
  ghost predicate GoesOn<E>(cap: nat, init: nat, s: State<E>, t: State<E>) {
    && !t.phase.Ready? && Requested(t.phase) == Requested(s.phase)
    && t.results == s.results && LogOf(cap, init, t) == LogOf(cap, init, s)
    && 0 <= ProducerLeft(cap, t) < ProducerLeft(cap, s)
  }

  lemma WriteGoesOn<E>(cap: nat, init: nat, s: State<E>, event: E)
    requires ValidCapacity(cap) && Inv(cap, init, s) && s.phase.Writing?
    ensures var t := Step(Unbounded, cap, s, NextProducerStep(s, event));
            t.Some? && (GoesOn(cap, init, s, t.value) || Answered(cap, init, s, t.value, Requested(s.phase)))
  {
    hide And, RingInv, ConsumerInv, LoadCursorStep, ScanStepStep, BeginPublishStep;
    ProducerCanStep(cap, init, s, event);
    if s.phase.done == s.phase.count {
      StepLinearizes(cap, init, s, ReleasePublished);
      LogOfWrapped(cap, init, s);
      LogOfWrapped(cap, init, Step(Unbounded, cap, s, ReleasePublished).value);
    }
  }

  lemma CheckGoesOn<E>(cap: nat, init: nat, s: State<E>, event: E)
    requires ValidCapacity(cap) && Inv(cap, init, s) && (s.phase.CheckBlocker? || s.phase.Scan?)
    ensures var t := Step(Unbounded, cap, s, NextProducerStep(s, event));
            t.Some? && (GoesOn(cap, init, s, t.value) || Answered(cap, init, s, t.value, Requested(s.phase)))
  {
    hide And, RingInv, ConsumerInv, WriteSlotStep, ReleasePublishedStep, BeginPublishStep;
    ProducerCanStep(cap, init, s, event);
    var a := NextProducerStep(s, event);
    if a.LoadCursor? {
      FreshLoadAnswers(cap, init, s, a.store);
    }
  }

  /** One fresh step of an attempt either goes on with it or answers it. */
  lemma FreshStep<E>(cap: nat, init: nat, s: State<E>, event: E)
    requires ValidCapacity(cap) && Inv(cap, init, s) && !s.phase.Ready?
    ensures var t := Step(Unbounded, cap, s, NextProducerStep(s, event));
            t.Some? && (GoesOn(cap, init, s, t.value) || Answered(cap, init, s, t.value, Requested(s.phase)))
  {
    if s.phase.Writing? {
      WriteGoesOn(cap, init, s, event);
    } else {
      CheckGoesOn(cap, init, s, event);
    }
  }

  /** A fresh load refuses only what the log refuses. */
  lemma FreshLoadAnswers<E>(cap: nat, init: nat, s: State<E>, store: nat)
    requires ValidCapacity(cap) && Inv(cap, init, s) && FreshLoad(s) == LoadCursor(store)
    requires LoadCursorStep(Unbounded, cap, s, store).Some?
    ensures LoadCursorStep(Unbounded, cap, s, store).value.phase.Ready? ==> !LogOf(cap, init, s).Accepts(Requested(s.phase))
  {
    hide And, RingInv;
    var i := LoadedConsumer(s);
    assert ConsumerInv(init, s, s.consumers[i]);
    LogIsValid(cap, init, s);
    assert LogOf(cap, init, s).cursors[i] == s.consumers[i].next - init;
  }

  /** Left alone, an attempt ends with the answer of the simple rule. */
  lemma {:induction false} AttemptFinishes<E>(cap: nat, init: nat, s: State<E>, event: E) returns (run: seq<Action<E>>)
    requires ValidCapacity(cap) && Inv(cap, init, s) && !s.phase.Ready?
    ensures var o := FreshRun(Unbounded, cap, s, run);
            o.Some? && Answered(cap, init, s, o.value, Requested(s.phase))
    decreases ProducerLeft(cap, s)
  {
    hide And, Inv, Step, LogOf, Answered;
    var a := NextProducerStep(s, event);
    FreshStep(cap, init, s, event);
    var t := Step(Unbounded, cap, s, a).value;
    StepKeeps(cap, init, s, a);
    if Answered(cap, init, s, t, Requested(s.phase)) {
      run := [a];
      assert run[1..] == [];
    } else {
      var rest := AttemptFinishes(cap, init, t, event);
      run := [a] + rest;
      assert run[1..] == rest;
      AnsweredLater(cap, init, s, t, FreshRun(Unbounded, cap, t, rest).value, Requested(s.phase));
    }
  }

  lemma AnsweredLater<E>(cap: nat, init: nat, s: State<E>, t: State<E>, u: State<E>, count: nat)
    requires LogOf(cap, init, t) == LogOf(cap, init, s) && t.results == s.results && Answered(cap, init, t, u, count)
    ensures Answered(cap, init, s, u, count)
  {}

  lemma AnsweredWraps<E>(cap: nat, init: nat, s: State<E>, t: State<E>, count: nat)
    requires Answered(cap, init, s, t, count)
    ensures Answered(cap, init, WrapState(s), WrapState(t), count)
  {
    LogOfWrapped(cap, init, s);
    LogOfWrapped(cap, init, t);
  }

  /**
   With fresh loads and no consumer moving meanwhile, an attempt of any size that fits the ring is accepted
   exactly when every consumer leaves room for it, whatever the cache and the hint are.
   */
  lemma AttemptAnswers<E(!new)>(ring: seq<E>, n: nat, p: u64, w: State<E>, count: nat, event: E)
    returns (run: seq<Action<E>>)
    requires Reachable(ring, n, p, w) && w.phase.Ready? && 0 < count <= |ring|
    ensures run != [] && run[0] == BeginPublish(count)
    ensures var o := FreshRun(Word64, |ring|, w, run);
            o.Some? && Answered(|ring|, p, w, o.value, count)
  {
    hide And, Inv, LogOf, Answered;
    var s := TruePositions(ring, n, p, w);
    var a := BeginPublish(count);
    var t := Step(Unbounded, |ring|, s, a).value;
    StepKeeps(|ring|, p, s, a);
    BeginStutters(|ring|, p, s, count);
    var rest := AttemptFinishes(|ring|, p, t, event);
    run := [a] + rest;
    assert run[1..] == rest;
    AnsweredLater(|ring|, p, s, t, FreshRun(Unbounded, |ring|, t, rest).value, count);
    FreshRunWraps(|ring|, p, s, run);
    AnsweredWraps(|ring|, p, s, FreshRun(Unbounded, |ring|, s, run).value, count);
  }

  lemma BeginStutters<E>(cap: nat, init: nat, s: State<E>, count: nat)
    requires s.phase.Ready? && 0 < count <= cap
    ensures var o := Step(Unbounded, cap, s, BeginPublish(count));
            && o.Some? && !o.value.phase.Ready? && Requested(o.value.phase) == count
            && o.value.results == s.results && LogOf(cap, init, o.value) == LogOf(cap, init, s)
  {}

  /** The call finds an event: it starts reading one. */
  ghost predicate FindsEvent<E>(cap: nat, w: State<E>, i: nat)
    requires cap > 0
  {
    && i < |w.consumers| && w.published != []
    && var o := Step(Word64, cap, w, BeginConsume(i, 1, |w.published| - 1));
       o.Some? && o.value.consumers[i].phase == Reading(1, 0)
  }

  lemma LaggingFinds<E>(cap: nat, init: nat, s: State<E>, i: nat)
    requires ValidCapacity(cap) && Inv(cap, init, s) && i < |s.consumers|
    requires s.consumers[i].phase.Idle? && s.consumers[i].next < s.next
    ensures FindsEvent(cap, WrapState(s), i)
  {
    hide And, RingInv;
    assert ConsumerInv(init, s, s.consumers[i]);
    Lockstep(cap, init, s, BeginConsume(i, 1, |s.published| - 1));
  }

  /**
   Short of a target with every thread between calls, a publication of one event with fresh loads succeeds
   or some consumer's fresh load shows an event.
   */
  lemma NeverStuck<E(!new)>(ring: seq<E>, n: nat, p: u64, w: State<E>, target: nat, event: E)
    returns (who: Thread, run: seq<Action<E>>)
    requires Reachable(ring, n, p, w) && !Delivered(LogOf(|ring|, p, w), target)
    requires w.phase.Ready? && forall i :: 0 <= i < |w.consumers| ==> w.consumers[i].phase.Idle?
    ensures match who
            case Publisher =>
              && run != [] && run[0] == BeginPublish(1)
              && var o := FreshRun(Word64, |ring|, w, run);
                 o.Some? && o.value.phase.Ready? && o.value.results == w.results + [true]
                 && |History(o.value)| == |History(w)| + 1
            case Reader(i) => FindsEvent(|ring|, w, i)
  {
    hide And, Inv, FindsEvent, FreshRun;
    var log := LogOf(|ring|, p, w);
    var s := TruePositions(ring, n, p, w);
    LogIsValid(|ring|, p, s);
    LogOfWrapped(|ring|, p, s);
    who, run := Publisher, [];
    if i :| 0 <= i < n && log.cursors[i] < |log.events| {
      assert s.consumers[i].phase == w.consumers[i].phase;
      LaggingFinds(|ring|, p, s, i);
      who := Reader(i);
    } else {
      run := AttemptAnswers(ring, n, p, w, 1, event);
    }
  }
}
