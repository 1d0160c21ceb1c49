/**
 The 64-bit machine and the unbounded one run in lockstep from every initial position, so what is
 proved of true positions holds of the code: delivery in order, no slot race, a safe capacity cache.
 */
module DisruptorRefinement {
  import opened Words
  import opened Options
  import opened RingSlots
  import opened DisruptorProtocol
  import opened DisruptorSafety

  function WrapAll(xs: seq<nat>): seq<nat> {
    seq(|xs|, i requires 0 <= i < |xs| => Wrap(xs[i]))
  }

  function WrapDelivered<E>(xs: seq<(E, nat)>): seq<(E, nat)> {
    seq(|xs|, i requires 0 <= i < |xs| => (xs[i].0, Wrap(xs[i].1)))
  }

  function WrapConsumer<E>(c: Consumer<E>): Consumer<E> {
    c.(cursor := WrapAll(c.cursor), next := Wrap(c.next), cached := Wrap(c.cached),
       delivered := WrapDelivered(c.delivered))
  }

  function WrapConsumers<E>(cs: seq<Consumer<E>>): seq<Consumer<E>> {
    seq(|cs|, i requires 0 <= i < |cs| => WrapConsumer(cs[i]))
  }

  /** What the 64-bit machine holds when the true positions are those of s. */
  function WrapState<E>(s: State<E>): State<E> {
    s.(next := Wrap(s.next), published := WrapAll(s.published), consumers := WrapConsumers(s.consumers))
  }

  function WrapOption<E>(o: Option<State<E>>): Option<State<E>> {
    match o
    case None => None
    case Some(s) => Some(WrapState(s))
  }

  function WrapConsumerOption<E>(o: Option<Consumer<E>>): Option<Consumer<E>> {
    match o
    case None => None
    case Some(c) => Some(WrapConsumer(c))
  }

  lemma WrapAppend(xs: seq<nat>, x: nat)
    ensures WrapAll(xs + [x]) == WrapAll(xs) + [Wrap(x)]
  {}

  lemma WrapDeliver<E>(xs: seq<(E, nat)>, e: E, p: nat)
    ensures WrapDelivered(xs + [(e, p)]) == WrapDelivered(xs) + [(e, Wrap(p))]
  {}

  /** Both traversals touch exactly the slots of the true positions, rollover or not. */
  lemma SlotRefines(cap: nat, twoSpan: bool, first: nat, count: nat, k: nat)
    requires ValidCapacity(cap) && k < count <= cap
    ensures Slot(Word64, cap, twoSpan, Wrap(first), count, k) == (first + k) % cap < cap
  {
    TraversalsAgree(cap, first, count, k);
  }

  /** All positions a consumer works with lie within one lap of each other. */
  ghost predicate WithinLap<E>(cap: nat, s: State<E>, c: Consumer<E>) {
    && c.next <= c.cached <= s.next <= c.next + cap
    && (c.phase.Reading? ==> c.next + c.phase.count <= c.cached)
    && (forall k :: c.publishedView <= k < |s.published| ==> c.next <= s.published[k] <= s.next)
  }

  lemma Lags<E>(cap: nat, init: nat, s: State<E>, i: nat)
    requires Inv(cap, init, s) && i < |s.consumers|
    ensures WithinLap(cap, s, s.consumers[i])
    ensures var c := s.consumers[i];
            && Acquired(s, i) <= c.next <= s.next <= s.next + s.available <= Acquired(s, i) + cap
            && forall k :: s.cursorView[i] <= k < |c.cursor| ==> Acquired(s, i) <= c.cursor[k] <= c.next
  {
    var c := s.consumers[i];
    assert ConsumerInv(init, s, c);
    assert s.published[c.publishedView] <= s.next;
    assert Acquired(s, i) <= c.next && s.next + s.available <= Acquired(s, i) + cap;
  }

  lemma BeginConsumeLockstep<E>(cap: nat, s: State<E>, c: Consumer<E>, max: nat, store: nat)
    requires ValidCapacity(cap) && WithinLap(cap, s, c)
    ensures BeginConsumeStep(Word64, WrapState(s), WrapConsumer(c), max, store)
         == WrapConsumerOption(BeginConsumeStep(Unbounded, s, c, max, store))
  {
    WrapSub(c.cached, c.next);
    if c.publishedView <= store < |s.published| {
      WrapSub(s.published[store], c.next);
    }
  }

  lemma ReadLockstep<E>(cap: nat, s: State<E>, c: Consumer<E>)
    requires ValidCapacity(cap) && WithinLap(cap, s, c) && |s.ring| == cap
    ensures ReadSlotStep(Word64, cap, WrapState(s), WrapConsumer(c))
         == WrapConsumerOption(ReadSlotStep(Unbounded, cap, s, c))
  {
    hide And;
    if c.phase.Reading? && c.phase.done < c.phase.count {
      SlotRefines(cap, c.handle, c.next, c.phase.count, c.phase.done);
      WrapAdd(c.next, c.phase.done);
      WrapDeliver(c.delivered, s.ring[(c.next + c.phase.done) % cap], c.next + c.phase.done);
    }
  }

  lemma ConsumerLockstep<E>(cap: nat, s: State<E>, c: Consumer<E>, a: Action<E>)
    requires ValidCapacity(cap) && WithinLap(cap, s, c) && |s.ring| == cap && IsConsumerAction(a)
    ensures ConsumerStep(Word64, cap, WrapState(s), WrapConsumer(c), a)
         == WrapConsumerOption(ConsumerStep(Unbounded, cap, s, c, a))
  {
    match a {
      case BeginConsume(_, max, store) => BeginConsumeLockstep(cap, s, c, max, store);
      case ReadSlot(_) => ReadLockstep(cap, s, c);
      case ReleaseCursor(_) =>
        if c.phase.Reading? {
          WrapAdd(c.next, c.phase.count);
          WrapAppend(c.cursor, c.next + c.phase.count);
        }
      case MakeConsumer(_) =>
      case DropConsumer(_) =>
    }
  }

  /** A loaded cursor shows the same lag in both arithmetics. */
  lemma LoadedLag<E>(cap: nat, init: nat, s: State<E>, i: nat, store: nat)
    requires ValidCapacity(cap) && Inv(cap, init, s)
    ensures CanLoad(WrapState(s), i, store) == CanLoad(s, i, store)
    ensures CanLoad(s, i, store) ==>
              var w := WrapState(s);
              && s.consumers[i].cursor[store] <= s.next <= s.consumers[i].cursor[store] + cap
              && Distance(Word64, w.next, w.consumers[i].cursor[store])
                   == Distance(Unbounded, s.next, s.consumers[i].cursor[store])
                   == s.next - s.consumers[i].cursor[store]
  {
    if CanLoad(s, i, store) {
      Lags(cap, init, s, i);
      WrapSub(s.next, s.consumers[i].cursor[store]);
    }
  }

  lemma LoadBlockerLockstep<E>(cap: nat, init: nat, s: State<E>, store: nat)
    requires ValidCapacity(cap) && Inv(cap, init, s) && s.phase.CheckBlocker?
    ensures LoadCursorStep(Word64, cap, WrapState(s), store) == WrapOption(LoadCursorStep(Unbounded, cap, s, store))
  {
    LoadedLag(cap, init, s, s.blocker, store);
  }

  lemma LoadScannedLockstep<E>(cap: nat, init: nat, s: State<E>, store: nat)
    requires ValidCapacity(cap) && Inv(cap, init, s) && s.phase.Scan?
    ensures LoadCursorStep(Word64, cap, WrapState(s), store) == WrapOption(LoadCursorStep(Unbounded, cap, s, store))
  {
    LoadedLag(cap, init, s, s.phase.index, store);
  }

  lemma WriteLockstep<E>(cap: nat, s: State<E>, e: E)
    requires ValidCapacity(cap) && |s.ring| == cap && (s.phase.Writing? ==> s.phase.count <= cap)
    ensures WriteSlotStep(Word64, cap, WrapState(s), e) == WrapOption(WriteSlotStep(Unbounded, cap, s, e))
  {
    if s.phase.Writing? && s.phase.done < s.phase.count {
      SlotRefines(cap, s.handle, s.next, s.phase.count, s.phase.done);
    }
  }

  lemma ReleaseLockstep<E>(s: State<E>)
    ensures ReleasePublishedStep(Word64, WrapState(s)) == WrapOption(ReleasePublishedStep(Unbounded, s))
  {
    if s.phase.Writing? {
      WrapAdd(s.next, s.phase.count);
      WrapAppend(s.published, s.next + s.phase.count);
    }
  }

  lemma ProducerLockstep<E>(cap: nat, init: nat, s: State<E>, a: Action<E>)
    requires ValidCapacity(cap) && Inv(cap, init, s)
    ensures ProducerStep(Word64, cap, WrapState(s), a) == WrapOption(ProducerStep(Unbounded, cap, s, a))
  {
    if a.LoadCursor? {
      if s.phase.CheckBlocker? {
        LoadBlockerLockstep(cap, init, s, a.store);
      } else if s.phase.Scan? {
        LoadScannedLockstep(cap, init, s, a.store);
      }
    } else if a.WriteSlot? {
      Lags(cap, init, s, 0);
      WriteLockstep(cap, s, a.event);
    } else if a.ReleasePublished? {
      ReleaseLockstep(s);
    }
  }

  /** One step of the code is one step of the unbounded machine, and neither is ever enabled alone. */
  lemma Lockstep<E>(cap: nat, init: nat, s: State<E>, a: Action<E>)
    requires ValidCapacity(cap) && Inv(cap, init, s)
    ensures Step(Word64, cap, WrapState(s), a) == WrapOption(Step(Unbounded, cap, s, a))
  {
    if !IsConsumerAction(a) {
      ProducerLockstep(cap, init, s, a);
    } else if a.i < |s.consumers| {
      Lags(cap, init, s, a.i);
      ConsumerLockstep(cap, s, s.consumers[a.i], a);
      var o := ConsumerStep(Unbounded, cap, s, s.consumers[a.i], a);
      if o.Some? {
        assert WrapConsumers(s.consumers[a.i := o.value]) == WrapConsumers(s.consumers)[a.i := WrapConsumer(o.value)];
      }
    }
  }

  lemma InitialWraps<E>(ring: seq<E>, n: nat, p: u64)
    ensures WrapState(Initial(ring, n, p)) == Initial(ring, n, p)
  {
    var s := Initial(ring, n, p);
    var c: Consumer<E> := Consumer([p], false, p, p, 0, Idle, []);
    assert WrapAll([p]) == [p] && WrapDelivered(c.delivered) == c.delivered;
    assert WrapConsumer(c) == c;
    assert WrapConsumers(s.consumers) == s.consumers;
  }

  lemma StepRefines<E>(cap: nat, init: nat, s: State<E>, a: Action<E>)
    requires ValidCapacity(cap) && Inv(cap, init, s)
    ensures Step(Word64, cap, WrapState(s), a) == WrapOption(Step(Unbounded, cap, s, a))
    ensures var o := Step(Unbounded, cap, s, a);
            o.Some? ==> Inv(cap, init, o.value) && |o.value.consumers| == |s.consumers|
  {
    Lockstep(cap, init, s, a);
    if Step(Unbounded, cap, s, a).Some? {
      StepKeeps(cap, init, s, a);
    }
  }

  /** Every run of the 64-bit code, from every initial position, is the wrapped image of an unbounded run. */
  lemma {:induction false} RunRefines<E>(ring: seq<E>, n: nat, p: u64, run: seq<Action<E>>)
    requires ValidCapacity(|ring|) && n > 0
    ensures Run(Word64, |ring|, Initial(ring, n, p), run) == WrapOption(Run(Unbounded, |ring|, Initial(ring, n, p), run))
    ensures var o := Run(Unbounded, |ring|, Initial(ring, n, p), run);
            o.Some? ==> Inv(|ring|, p, o.value) && |o.value.consumers| == n
  {
    if run == [] {
      InitialInv(ring, n, p);
      InitialWraps(ring, n, p);
    } else {
      var before, a := run[..|run| - 1], run[|run| - 1];
      RunRefines(ring, n, p, before);
      var o := Run(Unbounded, |ring|, Initial(ring, n, p), before);
      if o.Some? {
        StepRefines(|ring|, p, o.value, a);
      }
    }
  }

  // ----- what holds in every reachable state of the 64-bit machine -----

  ghost predicate Reachable<E(!new)>(ring: seq<E>, n: nat, p: u64, w: State<E>)
  {
    && ValidCapacity(|ring|) && n > 0
    && exists run :: Run(Word64, |ring|, Initial(ring, n, p), run) == Some(w)
  }

  /** The true positions behind a reachable 64-bit state. */
  lemma TruePositions<E(!new)>(ring: seq<E>, n: nat, p: u64, w: State<E>) returns (s: State<E>)
    requires Reachable(ring, n, p, w)
    ensures w == WrapState(s) && Inv(|ring|, p, s) && |s.consumers| == n
  {
    var run :| Run(Word64, |ring|, Initial(ring, n, p), run) == Some(w);
    RunRefines(ring, n, p, run);
    s := Run(Unbounded, |ring|, Initial(ring, n, p), run).value;
  }

  /** The events of the released batches: what has been published. */
  function History<E>(w: State<E>): seq<E> {
    if w.phase.Writing? && w.phase.done <= |w.written| then w.written[..|w.written| - w.phase.done] else w.written
  }

  /** A prefix of the history, in order, each event with its position modulo 2^64. */
  ghost predicate IsNumberedPrefix<E>(p: u64, history: seq<E>, delivered: seq<(E, nat)>) {
    && |delivered| <= |history|
    && forall k :: 0 <= k < |delivered| ==> delivered[k] == (history[k], Wrap(p + k))
  }

  lemma NumberedPrefix<E>(init: u64, s: State<E>, c: Consumer<E>)
    requires DeliveredInv(init, s, c) && |c.delivered| <= |History(s)|
    ensures IsNumberedPrefix(init, History(s), WrapDelivered(c.delivered))
  {}

  lemma DeliveredPrefix<E>(cap: nat, init: u64, s: State<E>, i: nat)
    requires Inv(cap, init, s) && i < |s.consumers|
    ensures IsNumberedPrefix(init, History(WrapState(s)), WrapState(s).consumers[i].delivered)
  {
    Lags(cap, init, s, i);
    assert ConsumerInv(init, s, s.consumers[i]);
    NumberedPrefix(init, s, s.consumers[i]);
  }

  /** Each consumer has been handed exactly a prefix of the published history: no gap, duplicate or reordering. */
  lemma Delivery<E(!new)>(ring: seq<E>, n: nat, p: u64, w: State<E>, i: nat)
    requires Reachable(ring, n, p, w) && i < |w.consumers|
    ensures IsNumberedPrefix(p, History(w), w.consumers[i].delivered)
  {
    var s := TruePositions(ring, n, p, w);
    DeliveredPrefix(|ring|, p, s, i);
  }

  /** The boundary a consumer works up to is the end of a whole released batch, or its own position. */
  predicate AtBatchBoundary<E>(p: u64, w: State<E>, c: Consumer<E>) {
    && |w.published| == |w.batches| + 1 && w.published[0] == p
    && (forall k :: 0 <= k < |w.batches| ==> w.published[k + 1] == Wrap(w.published[k] + w.batches[k]))
    && (c.cached == c.next || (c.publishedView < |w.published| && c.cached == w.published[c.publishedView]))
  }

  lemma BatchBoundary<E>(init: u64, s: State<E>, c: Consumer<E>)
    requires BatchInv(init, s) && ConsumerInv(init, s, c)
    ensures AtBatchBoundary(init, WrapState(s), WrapConsumer(c))
  {
    forall k | 0 <= k < |s.batches|
      ensures Wrap(s.published[k + 1]) == Wrap(Wrap(s.published[k]) + s.batches[k])
    {
      WrapAdd(s.published[k], s.batches[k]);
    }
  }

  lemma BatchBoundaryOf<E>(cap: nat, init: u64, s: State<E>, i: nat)
    requires Inv(cap, init, s) && i < |s.consumers|
    ensures AtBatchBoundary(init, WrapState(s), WrapState(s).consumers[i])
  {
    assert ConsumerInv(init, s, s.consumers[i]);
    BatchBoundary(init, s, s.consumers[i]);
  }

  /** No partial batch is ever seen. */
  lemma WholeBatches<E(!new)>(ring: seq<E>, n: nat, p: u64, w: State<E>, i: nat)
    requires Reachable(ring, n, p, w) && i < |w.consumers|
    ensures AtBatchBoundary(p, w, w.consumers[i])
  {
    var s := TruePositions(ring, n, p, w);
    BatchBoundaryOf(|ring|, p, s, i);
  }

  /** The position written is a lap away from every position a consumer has not released. */
  lemma BatchClearOfUnreleased<E>(cap: nat, init: nat, s: State<E>, i: nat, k: nat, m: nat)
    requires Inv(cap, init, s) && i < |s.consumers|
    requires s.phase.Writing? && k < s.phase.count && s.consumers[i].next + m < s.next
    ensures s.phase.count <= cap && s.next <= s.consumers[i].next + cap
    ensures (s.next + k) % cap != (s.consumers[i].next + m) % cap
  {
    var c := s.consumers[i];
    Lags(cap, init, s, i);
    if (s.next + k) % cap == (c.next + m) % cap {
      SlotInjective(c.next + m, s.next + k, cap);
    }
  }

  lemma SlotsDiffer(cap: nat, span: bool, first: nat, count: nat, k: nat, span': bool, first': nat, count': nat, m: nat)
    requires ValidCapacity(cap) && k < count <= cap && m < count' <= cap
    requires (first + k) % cap != (first' + m) % cap
    ensures Slot(Word64, cap, span, Wrap(first), count, k) != Slot(Word64, cap, span', Wrap(first'), count', m)
  {
    SlotRefines(cap, span, first, count, k);
    SlotRefines(cap, span', first', count', m);
  }

  /**
   No slot of the batch is one the consumer may still read: whichever way it walks, and however many of
   the events up to the published position it takes from where it stands.
   */
  ghost predicate SlotsDisjoint<E>(cap: nat, w: State<E>, c: Consumer<E>)
    requires cap > 0 && w.phase.Writing?
  {
    forall k, span, count, m :: 0 <= k < w.phase.count && 0 <= m < count <= Distance(Word64, w.next, c.next) ==>
      Slot(Word64, cap, w.handle, w.next, w.phase.count, k) != Slot(Word64, cap, span, c.next, count, m)
  }

  /** The range of a call in progress is part of what the consumer may still read. */
  ghost predicate ReadsWithinPublished<E>(w: State<E>, c: Consumer<E>) {
    && Distance(Word64, c.cached, c.next) <= Distance(Word64, w.next, c.next)
    && (c.phase.Reading? ==> c.phase.count <= Distance(Word64, c.cached, c.next))
  }

  lemma BatchSlotsDisjoint<E>(cap: nat, init: nat, s: State<E>, i: nat)
    requires ValidCapacity(cap) && Inv(cap, init, s) && i < |s.consumers| && s.phase.Writing?
    ensures SlotsDisjoint(cap, WrapState(s), WrapConsumer(s.consumers[i]))
  {
    hide And, Inv, Slot;
    var c := s.consumers[i];
    Lags(cap, init, s, i);
    WrapSub(s.next, c.next);
    forall k, span, count, m | 0 <= k < s.phase.count && 0 <= m < count <= s.next - c.next
      ensures Slot(Word64, cap, s.handle, Wrap(s.next), s.phase.count, k) != Slot(Word64, cap, span, Wrap(c.next), count, m)
    {
      BatchClearOfUnreleased(cap, init, s, i, k, m);
      SlotsDiffer(cap, s.handle, s.next, s.phase.count, k, span, c.next, count, m);
    }
  }

  lemma ReadsArePublished<E>(cap: nat, init: nat, s: State<E>, i: nat)
    requires ValidCapacity(cap) && Inv(cap, init, s) && i < |s.consumers|
    ensures ReadsWithinPublished(WrapState(s), WrapConsumer(s.consumers[i]))
  {
    hide And;
    var c := s.consumers[i];
    Lags(cap, init, s, i);
    WrapSub(s.next, c.next);
    WrapSub(c.cached, c.next);
  }

  /** While a batch is being written, no slot of it is one any consumer, in a call or between calls, may still read. */
  lemma NoSlotRace<E(!new)>(ring: seq<E>, n: nat, p: u64, w: State<E>, i: nat)
    requires Reachable(ring, n, p, w) && i < |w.consumers| && w.phase.Writing?
    ensures SlotsDisjoint(|ring|, w, w.consumers[i])
    ensures ReadsWithinPublished(w, w.consumers[i])
  {
    var s := TruePositions(ring, n, p, w);
    BatchSlotsDisjoint(|ring|, p, s, i);
    ReadsArePublished(|ring|, p, s, i);
  }

  lemma CacheWithinLap<E>(cap: nat, init: nat, s: State<E>, i: nat)
    requires ValidCapacity(cap) && Inv(cap, init, s) && i < |s.consumers|
    ensures s.available + Distance(Word64, Wrap(s.next), Wrap(s.consumers[i].next)) <= cap
  {
    Lags(cap, init, s, i);
    WrapSub(s.next, s.consumers[i].next);
  }

  /** The capacity cache plus any consumer's real lag never exceeds the ring. */
  lemma CapacityCacheSafe<E(!new)>(ring: seq<E>, n: nat, p: u64, w: State<E>, i: nat)
    requires Reachable(ring, n, p, w) && i < |w.consumers|
    ensures w.available + Distance(Word64, w.next, w.consumers[i].next) <= |ring|
  {
    var s := TruePositions(ring, n, p, w);
    CacheWithinLap(|ring|, p, s, i);
  }

  /** A batch that fits the ring is refused only by a consumer whose observed store is really too far behind. */
  lemma RefusalIsWitnessed<E(!new)>(ring: seq<E>, n: nat, p: u64, w: State<E>, store: nat)
    requires Reachable(ring, n, p, w)
    requires var o := LoadCursorStep(Word64, |ring|, w, store); o.Some? && o.value.phase.Ready?
    ensures var o := LoadCursorStep(Word64, |ring|, w, store).value;
            && o.results == w.results + [false]
            && w.cursorView[o.blocker] <= store < |w.consumers[o.blocker].cursor|
            && |ring| - w.phase.required < Distance(Word64, w.next, w.consumers[o.blocker].cursor[store]) <= |ring|
  {
    var s := TruePositions(ring, n, p, w);
    LoadedLag(|ring|, p, s, LoadCursorStep(Word64, |ring|, w, store).value.blocker, store);
  }
}
