/**
 The concurrent machine refines the append-only log: the two release stores are the only steps that
 change the log, each exactly as one whole operation does, and every other step changes nothing.
 */
module DisruptorLinearization {
  import opened Words
  import opened DisruptorProtocol
  import opened DisruptorSafety
  import opened DisruptorRefinement
  import opened DisruptorLog
  import opened DisruptorHistory

  /** How many events the consumer has released. */
  function Released<E>(c: Consumer<E>): nat {
    if c.phase.Reading? && c.phase.done <= |c.delivered| then |c.delivered| - c.phase.done else |c.delivered|
  }

  function Cursors<E>(w: State<E>): seq<nat> {
    seq(|w.consumers|, i requires 0 <= i < |w.consumers| => Released(w.consumers[i]))
  }

  /** The log a state stands for: the released batches and what each consumer has released of them. */
  function LogOf<E>(cap: nat, init: nat, w: State<E>): Log<E> {
    Log(cap, init, History(w), Cursors(w))
  }

  /** A writer callback that produces xs from index `from` on. */
  function WriterOf<E>(xs: seq<E>, from: nat): nat -> E
    requires from < |xs|
  {
    (k: nat) => if from + k < |xs| then xs[from + k] else xs[from]
  }

  /** What one step does to the log. */
  ghost predicate Linearizes<E>(cap: nat, init: nat, w: State<E>, a: Action<E>, v: State<E>) {
    var log, after := LogOf(cap, init, w), LogOf(cap, init, v);
    match a
    case ReleasePublished =>
      && w.phase.Writing? && |log.events| < |w.written| == |log.events| + w.phase.count
      && log.Accepts(w.phase.count)
      && after == log.Publish(w.phase.count, WriterOf(w.written, |log.events|))
    case ReleaseCursor(i) =>
      && i < |w.consumers| && w.consumers[i].phase.Reading?
      && var c := w.consumers[i];
         && 0 < c.phase.count == log.Takes(i, c.phase.count)
         && after == log.Consume(i, c.phase.count)
         && c.delivered == c.delivered[..Released(c)] + log.Handed(i, c.phase.count)
    case _ => after == log
  }

  lemma LogOfWrapped<E>(cap: nat, init: nat, s: State<E>)
    ensures LogOf(cap, init, WrapState(s)) == LogOf(cap, init, s)
  {
    assert Cursors(WrapState(s)) == Cursors(s);
  }

  /** The released counts are the true positions. */
  lemma LogIsValid<E>(cap: nat, init: nat, s: State<E>)
    requires ValidCapacity(cap) && Inv(cap, init, s)
    ensures LogOf(cap, init, s).Valid()
    ensures |History(s)| == s.next - init && History(s) <= s.written
    ensures forall i :: 0 <= i < |s.consumers| ==> Released(s.consumers[i]) == s.consumers[i].next - init
  {
    hide And;
    forall i | 0 <= i < |s.consumers|
      ensures Released(s.consumers[i]) == s.consumers[i].next - init
      ensures s.consumers[i].next <= s.next <= s.consumers[i].next + cap
    {
      assert ConsumerInv(init, s, s.consumers[i]);
      Lags(cap, init, s, i);
    }
  }

  lemma PublishLinearizes<E>(cap: nat, init: nat, s: State<E>)
    requires ValidCapacity(cap) && Inv(cap, init, s) && ReleasePublishedStep(Unbounded, s).Some?
    ensures Linearizes(cap, init, s, ReleasePublished, ReleasePublishedStep(Unbounded, s).value)
  {
    hide And, ConsumerInv, RingInv;
    var t := ReleasePublishedStep(Unbounded, s).value;
    var log, count := LogOf(cap, init, s), s.phase.count;
    LogIsValid(cap, init, s);
    forall i | 0 <= i < |s.consumers|
      ensures |log.events| + count <= log.cursors[i] + cap
    {
      Lags(cap, init, s, i);
    }
    assert History(t) == s.written == log.events + Batch(count, WriterOf(s.written, |log.events|));
    assert Cursors(t) == Cursors(s);
  }

  lemma ConsumeLinearizes<E>(cap: nat, init: nat, s: State<E>, i: nat)
    requires ValidCapacity(cap) && Inv(cap, init, s) && i < |s.consumers|
    requires ReleaseCursorStep(Unbounded, s.consumers[i]).Some?
    ensures var c := s.consumers[i]; var log := LogOf(cap, init, s); var n := c.phase.count;
            && 0 < n == log.Takes(i, n)
            && Released(ReleaseCursorStep(Unbounded, c).value) == log.cursors[i] + n
            && WrapDelivered(c.delivered) == WrapDelivered(c.delivered)[..Released(c)] + log.Handed(i, n)
  {
    hide And, RingInv, Wrap;
    var c, log := s.consumers[i], LogOf(cap, init, s);
    LogIsValid(cap, init, s);
    Lags(cap, init, s, i);
    assert ConsumerInv(init, s, c);
    assert |c.delivered| == log.cursors[i] + c.phase.count <= |log.events|;
  }

  lemma CursorsUpdate<E>(s: State<E>, i: nat, d: Consumer<E>)
    requires i < |s.consumers|
    ensures Cursors(s.(consumers := s.consumers[i := d])) == Cursors(s)[i := Released(d)]
  {}

  /** A consumer step other than the release leaves what it has released alone. */
  lemma ConsumerStutters<E>(cap: nat, s: State<E>, c: Consumer<E>, a: Action<E>)
    requires cap > 0 && !a.ReleaseCursor? && ConsumerStep(Unbounded, cap, s, c, a).Some?
    requires c.phase.Reading? ==> c.phase.done <= |c.delivered|
    ensures Released(ConsumerStep(Unbounded, cap, s, c, a).value) == Released(c)
  {}

  lemma ProducerStutters<E>(cap: nat, s: State<E>, a: Action<E>)
    requires cap > 0 && !a.ReleasePublished? && ProducerStep(Unbounded, cap, s, a).Some?
    requires s.phase.Writing? ==> s.phase.done <= |s.written|
    ensures var t := ProducerStep(Unbounded, cap, s, a).value;
            History(t) == History(s) && t.consumers == s.consumers
  {}

  /** Every step of the unbounded machine, lifted to what the 64-bit one shows. */
  lemma StepLinearizes<E>(cap: nat, init: nat, s: State<E>, a: Action<E>)
    requires ValidCapacity(cap) && Inv(cap, init, s) && Step(Unbounded, cap, s, a).Some?
    ensures Linearizes(cap, init, WrapState(s), a, WrapState(Step(Unbounded, cap, s, a).value))
  {
    hide And, RingInv, ConsumerInv, ConsumerStep, ProducerStep;
    var t := Step(Unbounded, cap, s, a).value;
    LogOfWrapped(cap, init, s);
    LogOfWrapped(cap, init, t);
    LogIsValid(cap, init, s);
    if IsConsumerAction(a) {
      ConsumerLinearizes(cap, init, s, a);
    } else {
      ProducerLinearizes(cap, init, s, a);
    }
  }

  lemma ConsumerLinearizes<E>(cap: nat, init: nat, s: State<E>, a: Action<E>)
    requires ValidCapacity(cap) && Inv(cap, init, s) && IsConsumerAction(a) && Step(Unbounded, cap, s, a).Some?
    ensures Linearizes(cap, init, WrapState(s), a, WrapState(Step(Unbounded, cap, s, a).value))
  {
    hide And, RingInv, BeginConsumeStep, ReadSlotStep, Wrap;
    var t := Step(Unbounded, cap, s, a).value;
    LogOfWrapped(cap, init, s);
    LogOfWrapped(cap, init, t);
    var c := s.consumers[a.i];
    var d := ConsumerStep(Unbounded, cap, s, c, a).value;
    CursorsUpdate(s, a.i, d);
    assert ConsumerInv(init, s, c);
    if a.ReleaseCursor? {
      ConsumeLinearizes(cap, init, s, a.i);
    } else {
      ConsumerStutters(cap, s, c, a);
      assert Cursors(t) == Cursors(s);
    }
  }

  lemma ProducerLinearizes<E>(cap: nat, init: nat, s: State<E>, a: Action<E>)
    requires ValidCapacity(cap) && Inv(cap, init, s) && !IsConsumerAction(a) && Step(Unbounded, cap, s, a).Some?
    ensures Linearizes(cap, init, WrapState(s), a, WrapState(Step(Unbounded, cap, s, a).value))
  {
    hide And, RingInv, ConsumerInv, LoadCursorStep, WriteSlotStep;
    var t := Step(Unbounded, cap, s, a).value;
    LogOfWrapped(cap, init, s);
    LogOfWrapped(cap, init, t);
    if a.ReleasePublished? {
      PublishLinearizes(cap, init, s);
    } else {
      ProducerStutters(cap, s, a);
      assert Cursors(t) == Cursors(s);
    }
  }

  /** Every step of the 64-bit machine from every reachable state acts on a valid log as one whole operation or not at all. */
  lemma StepRefinesLog<E(!new)>(ring: seq<E>, n: nat, p: u64, w: State<E>, a: Action<E>)
    requires Reachable(ring, n, p, w) && Step(Word64, |ring|, w, a).Some?
    ensures LogOf(|ring|, p, w).Valid() && |LogOf(|ring|, p, w).cursors| == n
    ensures Linearizes(|ring|, p, w, a, Step(Word64, |ring|, w, a).value)
  {
    hide Linearizes, Inv, Step;
    var s := TruePositions(ring, n, p, w);
    Lockstep(|ring|, p, s, a);
    LogIsValid(|ring|, p, s);
    LogOfWrapped(|ring|, p, s);
    StepLinearizes(|ring|, p, s, a);
  }

  // ----- whole runs -----

  function EmptyLog<E>(cap: nat, p: nat, n: nat): Log<E> {
    Log(cap, p, [], seq(n, _ => 0))
  }

  /** The machine starts with the empty log. */
  lemma InitialLog<E>(ring: seq<E>, n: nat, p: u64)
    ensures LogOf(|ring|, p, Initial(ring, n, p)) == EmptyLog(|ring|, p, n)
    ensures forall c :: c in Initial(ring, n, p).consumers ==> c.delivered == [] && Released(c) == 0
  {}

  /** The state is where this history of whole operations ends: same log, same deliveries, every publication accepted. */
  ghost predicate Explains<E>(cap: nat, p: nat, n: nat, w: State<E>, plain: seq<Plain<E>>) {
    var o := Play(EmptyLog(cap, p, n), plain);
    && o.log == LogOf(cap, p, w)
    && (forall i :: 0 <= i < |w.consumers| ==> FromConsumer(o.handed, i) == Taken(w.consumers[i]))
    && (forall k :: 0 <= k < |o.accepted| ==> o.accepted[k])
    && |o.accepted| == |w.batches|
  }

  /** What the consumer's finished calls have handed over. */
  function Taken<E>(c: Consumer<E>): seq<(E, nat)> {
    c.delivered[..Released(c)]
  }

  lemma ConsumerTaken<E>(cap: nat, s: State<E>, c: Consumer<E>, a: Action<E>)
    requires cap > 0 && ConsumerStep(Unbounded, cap, s, c, a).Some?
    requires c.phase.Reading? ==> c.phase.done <= |c.delivered|
    ensures Taken(ConsumerStep(Unbounded, cap, s, c, a).value) == if a.ReleaseCursor? then c.delivered else Taken(c)
  {}

  /** A step touches what the finished calls handed over, and the list of batches, only at the two releases. */
  lemma StepFrame<E>(cap: nat, init: nat, s: State<E>, a: Action<E>)
    requires ValidCapacity(cap) && Inv(cap, init, s) && Step(Unbounded, cap, s, a).Some?
    ensures var t := Step(Unbounded, cap, s, a).value;
            && |t.consumers| == |s.consumers|
            && |t.batches| == |s.batches| + (if a.ReleasePublished? then 1 else 0)
            && forall i :: 0 <= i < |s.consumers| ==>
                 Taken(t.consumers[i]) == if a == ReleaseCursor(i) then s.consumers[i].delivered else Taken(s.consumers[i])
  {
    hide And, RingInv, ProducerInv, ConsumerStep, Taken;
    if IsConsumerAction(a) {
      assert ConsumerInv(init, s, s.consumers[a.i]);
      ConsumerTaken(cap, s, s.consumers[a.i], a);
    }
  }

  lemma TakenWraps<E>(c: Consumer<E>)
    ensures Taken(WrapConsumer(c)) == WrapDelivered(Taken(c))
  {}

  lemma FrameWraps<E>(cap: nat, init: nat, s: State<E>, a: Action<E>)
    requires ValidCapacity(cap) && Inv(cap, init, s) && Step(Unbounded, cap, s, a).Some?
    ensures var w, v := WrapState(s), WrapState(Step(Unbounded, cap, s, a).value);
            && |v.consumers| == |w.consumers|
            && |v.batches| == |w.batches| + (if a.ReleasePublished? then 1 else 0)
            && forall i :: 0 <= i < |w.consumers| ==>
                 Taken(v.consumers[i]) == if a == ReleaseCursor(i) then w.consumers[i].delivered else Taken(w.consumers[i])
  {
    hide And, Inv, Step, Taken;
    StepFrame(cap, init, s, a);
    var t := Step(Unbounded, cap, s, a).value;
    forall i | 0 <= i < |s.consumers|
      ensures Taken(WrapState(t).consumers[i]) == WrapDelivered(Taken(t.consumers[i]))
      ensures Taken(WrapState(s).consumers[i]) == WrapDelivered(Taken(s.consumers[i]))
    {
      TakenWraps(t.consumers[i]);
      TakenWraps(s.consumers[i]);
    }
  }

  /** The operation a step completes, if any. */
  ghost function Completes<E>(w: State<E>, a: Action<E>): seq<Plain<E>> {
    match a
    case ReleasePublished =>
      if w.phase.Writing? && |History(w)| < |w.written| then [Direct(w.phase.count, WriterOf(w.written, |History(w)|))] else []
    case ReleaseCursor(i) =>
      if i < |w.consumers| && w.consumers[i].phase.Reading? then [Indexed(i, w.consumers[i].phase.count)] else []
    case _ => []
  }

  lemma ExplainsNext<E>(cap: nat, p: nat, n: nat, w: State<E>, a: Action<E>, v: State<E>, plain: seq<Plain<E>>)
    requires Explains(cap, p, n, w, plain) && Linearizes(cap, p, w, a, v)
    requires |v.consumers| == |w.consumers| && |v.batches| == |w.batches| + (if a.ReleasePublished? then 1 else 0)
    requires forall i :: 0 <= i < |w.consumers| ==>
               Taken(v.consumers[i]) == if a == ReleaseCursor(i) then w.consumers[i].delivered else Taken(w.consumers[i])
    ensures Explains(cap, p, n, v, plain + Completes(w, a))
  {
    hide LogOf, Released, FromConsumer, Slice;
    var o := Play(EmptyLog(cap, p, n), plain);
    if a.ReleasePublished? {
      assert o.log.events == History(w) by { LogEvents(cap, p, w); }
      PlayOne(EmptyLog(cap, p, n), plain, Completes(w, a)[0]);
    } else if a.ReleaseCursor? {
      var op := Completes(w, a)[0];
      PlayOne(EmptyLog(cap, p, n), plain, op);
      forall i | 0 <= i < |w.consumers|
        ensures FromConsumer(PlayNext(o, op).handed, i) == Taken(v.consumers[i])
      {
        FromConsumerOne(o.handed, a.i, o.log.Handed(a.i, op.max), i);
      }
    } else {
      assert plain + Completes(w, a) == plain;
    }
  }

  lemma LogEvents<E>(cap: nat, p: nat, w: State<E>)
    ensures LogOf(cap, p, w).events == History(w)
  {}

  /**
   Every run of the 64-bit machine amounts to a history of whole operations on the log, taken in the order of
   their release stores: the state's log is its log, and every consumer's finished calls handed over what it hands over.
   */
  lemma {:induction false} RunLinearizes<E(!new)>(ring: seq<E>, n: nat, p: u64, run: seq<Action<E>>) returns (plain: seq<Plain<E>>)
    requires ValidCapacity(|ring|) && n > 0
    requires Run(Word64, |ring|, Initial(ring, n, p), run).Some?
    ensures Explains(|ring|, p, n, Run(Word64, |ring|, Initial(ring, n, p), run).value, plain)
  {
    hide And, Inv, Step, Initial, Linearizes, Explains, Completes;
    if run == [] {
      plain := [];
      NothingHappened(ring, n, p);
    } else {
      var before, a := run[..|run| - 1], run[|run| - 1];
      var past := RunLinearizes(ring, n, p, before);
      RunRefines(ring, n, p, before);
      var s := Run(Unbounded, |ring|, Initial(ring, n, p), before).value;
      Lockstep(|ring|, p, s, a);
      StepLinearizes(|ring|, p, s, a);
      FrameWraps(|ring|, p, s, a);
      ExplainsNext(|ring|, p, n, WrapState(s), a, WrapState(Step(Unbounded, |ring|, s, a).value), past);
      plain := past + Completes(WrapState(s), a);
    }
  }

  lemma NothingHappened<E>(ring: seq<E>, n: nat, p: u64)
    ensures Explains(|ring|, p, n, Initial(ring, n, p), [])
  {
    InitialLog(ring, n, p);
    assert Play(EmptyLog<E>(|ring|, p, n), []) == Outcome(EmptyLog(|ring|, p, n), [], []);
  }
}
