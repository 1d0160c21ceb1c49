/**
 Every fair run of the concurrent 64-bit machine delivers everything to everyone.  A run is an infinite
 sequence of its steps; loads may be as stale as coherence allows, as long as every store is seen in the end.
 */
module DisruptorFairness {
  import opened Words
  import opened Options
  import opened DisruptorLog
  import opened DisruptorProtocol
  import opened DisruptorSafety
  import opened DisruptorRefinement
  import opened DisruptorLinearization
  import opened DisruptorProgress

  ghost predicate IsRun<E(!new)>(ar: Arithmetic, cap: nat, run: nat -> State<E>, acts: nat -> Action<E>) {
    cap > 0 && forall t: nat :: Step(ar, cap, run(t), acts(t)) == Some(run(t + 1))
  }

  // ----- fairness -----

  ghost predicate WorksLater<E(!new)>(cap: nat, acts: nat -> Action<E>, t: nat, who: Thread) {
    exists later: nat :: t <= later && Works(cap, acts(later), who)
  }

  predicate ShortOf<E>(w: State<E>, i: nat, target: nat) {
    i < |w.consumers| && Released(w.consumers[i]) < target
  }

  /** A thread short of the target goes on with its attempts, and starts new ones. */
  ghost predicate KeepsWorking<E(!new)>(cap: nat, run: nat -> State<E>, acts: nat -> Action<E>, target: nat) {
    && (forall t: nat :: |History(run(t))| < target ==> WorksLater(cap, acts, t, Publisher))
    && (forall t: nat, i: nat :: ShortOf(run(t), i, target) ==> WorksLater(cap, acts, t, Reader(i)))
  }

  /** The load, if this is one of consumer i's cursor, sees the first `stores` stores. */
  ghost predicate SeesCursor<E>(w: State<E>, a: Action<E>, i: nat, stores: nat) {
    a.LoadCursor? && LoadedConsumer(w) == i ==> stores <= a.store + 1
  }

  /** The load, if this is one of published_ by consumer i, sees the first `stores` stores. */
  ghost predicate SeesPublished<E>(ar: Arithmetic, w: State<E>, a: Action<E>, i: nat, stores: nat) {
    a.BeginConsume? && a.i == i && i < |w.consumers| && LoadsPublished(ar, w.consumers[i], a.max) ==> stores <= a.store + 1
  }

  /** From time u on, loads see what consumer i had stored, and what had been published, at time t. */
  ghost predicate SeenFrom<E(!new)>(ar: Arithmetic, run: nat -> State<E>, acts: nat -> Action<E>, i: nat, t: nat, u: nat) {
    forall later: nat :: u <= later ==>
      && (i < |run(t).consumers| ==> SeesCursor(run(later), acts(later), i, |run(t).consumers[i].cursor|))
      && SeesPublished(ar, run(later), acts(later), i, |run(t).published|)
  }

  ghost predicate StoresAreSeen<E(!new)>(ar: Arithmetic, run: nat -> State<E>, acts: nat -> Action<E>) {
    forall t: nat, i: nat :: SeenInTheEnd(ar, run, acts, i, t)
  }

  ghost predicate SeenInTheEnd<E(!new)>(ar: Arithmetic, run: nat -> State<E>, acts: nat -> Action<E>, i: nat, t: nat) {
    exists u: nat :: SeenFrom(ar, run, acts, i, t, u)
  }

  ghost predicate Fair<E(!new)>(ar: Arithmetic, cap: nat, run: nat -> State<E>, acts: nat -> Action<E>, target: nat) {
    KeepsWorking(cap, run, acts, target) && StoresAreSeen(ar, run, acts)
  }

  // ----- what every unbounded run keeps -----

  ghost predicate Invariant<E(!new)>(cap: nat, init: nat, run: nat -> State<E>, acts: nat -> Action<E>) {
    && ValidCapacity(cap) && IsRun(Unbounded, cap, run, acts)
    && forall t: nat :: Inv(cap, init, run(t)) && |run(t).consumers| == |run(0).consumers|
  }

  /** Stores and positions only ever grow. */
  ghost predicate Extends<E>(s: State<E>, t: State<E>) {
    && s.published <= t.published && s.next <= t.next && |s.consumers| == |t.consumers|
    && forall i :: 0 <= i < |s.consumers| ==>
         s.consumers[i].cursor <= t.consumers[i].cursor && s.consumers[i].next <= t.consumers[i].next
  }

  lemma StepExtends<E>(cap: nat, s: State<E>, a: Action<E>)
    requires cap > 0 && Step(Unbounded, cap, s, a).Some?
    ensures Extends(s, Step(Unbounded, cap, s, a).value)
  {}

  lemma {:induction false} RunExtends<E(!new)>(cap: nat, init: nat, run: nat -> State<E>, acts: nat -> Action<E>, t: nat, u: nat)
    requires Invariant(cap, init, run, acts) && t <= u
    ensures Extends(run(t), run(u))
    decreases u - t
  {
    hide And, Inv, Step;
    if t < u {
      RunExtends(cap, init, run, acts, t, u - 1);
      assert Step(Unbounded, cap, run(u - 1), acts(u - 1)) == Some(run(u - 1 + 1));
      StepExtends(cap, run(u - 1), acts(u - 1));
    }
  }

  /** So the log grows, and gains when a position short of the target moved. */
  lemma ExtendsGrows<E>(cap: nat, init: nat, s: State<E>, t: State<E>)
    requires ValidCapacity(cap) && Inv(cap, init, s) && Inv(cap, init, t) && Extends(s, t)
    ensures Grows(LogOf(cap, init, s), LogOf(cap, init, t))
  {
    hide And, Inv;
    LogIsValid(cap, init, s);
    LogIsValid(cap, init, t);
  }

  // ----- a consumer with something to take -----

  /** Steps of its own to the consumer's next release. */
  function ReaderLeft<E>(cap: nat, c: Consumer<E>): int {
    match c.phase
    case Idle => cap + 2
    case Reading(count, done) => count - done + 1
  }

  /** The consumer is where it was. */
  ghost predicate SameReader<E>(s: State<E>, t: State<E>, i: nat) {
    && i < |s.consumers| && i < |t.consumers|
    && t.consumers[i].next == s.consumers[i].next && t.consumers[i].phase == s.consumers[i].phase
  }

  lemma OthersLeaveReader<E>(cap: nat, s: State<E>, a: Action<E>, i: nat)
    requires cap > 0 && i < |s.consumers| && Step(Unbounded, cap, s, a).Some? && !Works(cap, a, Reader(i))
    ensures SameReader(s, Step(Unbounded, cap, s, a).value, i)
  {}

  lemma ReaderStep<E>(cap: nat, init: nat, s: State<E>, a: Action<E>, i: nat)
    requires ValidCapacity(cap) && Inv(cap, init, s) && i < |s.consumers| && Step(Unbounded, cap, s, a).Some?
    requires Works(cap, a, Reader(i)) && !a.ReleaseCursor?
    requires a.BeginConsume? && LoadsPublished(Unbounded, s.consumers[i], a.max) && a.store < |s.published| ==>
               s.consumers[i].next < s.published[a.store]
    ensures var t := Step(Unbounded, cap, s, a).value;
            && t.consumers[i].next == s.consumers[i].next
            && 0 <= ReaderLeft(cap, t.consumers[i]) < ReaderLeft(cap, s.consumers[i])
  {
    hide And, RingInv, ProducerInv;
    assert ConsumerInv(init, s, s.consumers[i]);
    Lags(cap, init, s, i);
  }

  /** A load that sees a position beyond the consumer's own finds something. */
  lemma SeesBeyond<E>(s: State<E>, t: State<E>, init: nat, store: nat, i: nat)
    requires Extends(s, t) && BatchInv(init, s) && BatchInv(init, t) && s.next == Last(s.published)
    requires i < |t.consumers| && t.consumers[i].next < s.next && |s.published| <= store + 1 && store < |t.published|
    ensures t.consumers[i].next < t.published[store]
  {
    assert s.published[|s.published| - 1] == t.published[|s.published| - 1] <= t.published[store];
  }

  /** It releases something in the end; t0 is a time whose publications its loads see by now. */
  lemma {:induction false} ReaderReleases<E(!new)>(cap: nat, init: nat, run: nat -> State<E>, acts: nat -> Action<E>,
                                                   target: nat, i: nat, t0: nat, t: nat, later: nat) returns (u: nat)
    requires Invariant(cap, init, run, acts) && KeepsWorking(cap, run, acts, target)
    requires t0 <= t <= later && i < |run(0).consumers| && Works(cap, acts(later), Reader(i))
    requires SeenFrom(Unbounded, run, acts, i, t0, t)
    requires |run(t).consumers| == |run(0).consumers| && run(t).consumers[i].next < run(t0).next
    requires run(t).consumers[i].next < init + target
    ensures t <= u && acts(u) == ReleaseCursor(i)
    ensures |run(u).consumers| == |run(0).consumers| && run(u).consumers[i].next == run(t).consumers[i].next
    decreases ReaderLeft(cap, run(t).consumers[i]), later - t
  {
    hide And, Inv, Step, SeesCursor;
    assert Step(Unbounded, cap, run(t), acts(t)) == Some(run(t + 1));
    assert Inv(cap, init, run(t)) && Inv(cap, init, run(t + 1));
    if acts(t) == ReleaseCursor(i) {
      u := t;
    } else if Works(cap, acts(t), Reader(i)) {
      ReaderGoesOn(cap, init, run, acts, i, t0, t);
      LogIsValid(cap, init, run(t + 1));
      assert ShortOf(run(t + 1), i, target);
      assert WorksLater(cap, acts, t + 1, Reader(i));
      var next: nat :| t + 1 <= next && Works(cap, acts(next), Reader(i));
      u := ReaderReleases(cap, init, run, acts, target, i, t0, t + 1, next);
    } else {
      OthersLeaveReader(cap, run(t), acts(t), i);
      u := ReaderReleases(cap, init, run, acts, target, i, t0, t + 1, later);
    }
  }

  lemma ReaderGoesOn<E(!new)>(cap: nat, init: nat, run: nat -> State<E>, acts: nat -> Action<E>, i: nat, t0: nat, t: nat)
    requires Invariant(cap, init, run, acts) && t0 <= t && i < |run(0).consumers|
    requires Works(cap, acts(t), Reader(i)) && !acts(t).ReleaseCursor?
    requires SeenFrom(Unbounded, run, acts, i, t0, t)
    requires |run(t).consumers| == |run(0).consumers| && run(t).consumers[i].next < run(t0).next
    ensures |run(t + 1).consumers| == |run(0).consumers|
    ensures run(t + 1).consumers[i].next == run(t).consumers[i].next
    ensures 0 <= ReaderLeft(cap, run(t + 1).consumers[i]) < ReaderLeft(cap, run(t).consumers[i])
  {
    hide And, RingInv, ConsumerInv, Step, SeesCursor;
    assert Step(Unbounded, cap, run(t), acts(t)) == Some(run(t + 1));
    assert Inv(cap, init, run(t)) && Inv(cap, init, run(t0)) && Inv(cap, init, run(t + 1));
    RunExtends(cap, init, run, acts, t0, t);
    if acts(t).BeginConsume? && LoadsPublished(Unbounded, run(t).consumers[i], acts(t).max) && acts(t).store < |run(t).published| {
      assert SeesPublished(Unbounded, run(t), acts(t), i, |run(t0).published|);
      SeesBeyond(run(t0), run(t), init, acts(t).store, i);
    }
    ReaderStep(cap, init, run(t), acts(t), i);
  }

  // ----- a producer whose consumers have everything -----

  ghost predicate CaughtUp<E>(s: State<E>) {
    forall i :: 0 <= i < |s.consumers| ==> s.consumers[i].next == s.next
  }

  /** Until the next release everyone stays where they are. */
  ghost predicate SameCursors<E>(s: State<E>, t: State<E>) {
    && t.next == s.next && |t.consumers| == |s.consumers|
    && forall i :: 0 <= i < |s.consumers| ==> t.consumers[i].cursor == s.consumers[i].cursor
  }

  lemma ReadersStay<E>(cap: nat, init: nat, s: State<E>, a: Action<E>)
    requires ValidCapacity(cap) && Inv(cap, init, s) && CaughtUp(s)
    requires Step(Unbounded, cap, s, a).Some? && IsConsumerAction(a)
    ensures var d := Step(Unbounded, cap, s, a).value.consumers[a.i];
            d.next == s.consumers[a.i].next && d.cursor == s.consumers[a.i].cursor
  {
    hide And, RingInv, ProducerInv, ProducerStep;
    assert ConsumerInv(init, s, s.consumers[a.i]);
    Lags(cap, init, s, a.i);
  }

  lemma CaughtUpStays<E>(cap: nat, init: nat, s: State<E>, a: Action<E>)
    requires ValidCapacity(cap) && Inv(cap, init, s) && CaughtUp(s)
    requires Step(Unbounded, cap, s, a).Some? && !a.ReleasePublished?
    ensures var t := Step(Unbounded, cap, s, a).value; CaughtUp(t) && SameCursors(s, t)
  {
    hide And, Inv, ConsumerStep;
    if IsConsumerAction(a) {
      ReadersStay(cap, init, s, a);
    }
  }

  /** The position loaded last is the consumer's own. */
  lemma LastStore<E>(init: nat, s: State<E>, i: nat, store: nat)
    requires i < |s.consumers| && ConsumerInv(init, s, s.consumers[i])
    requires |s.consumers[i].cursor| <= store + 1 && store < |s.consumers[i].cursor|
    ensures s.consumers[i].cursor[store] == s.consumers[i].next
  {}

  lemma WriterStep<E>(cap: nat, init: nat, s: State<E>, a: Action<E>)
    requires ValidCapacity(cap) && Inv(cap, init, s) && CaughtUp(s) && Step(Unbounded, cap, s, a).Some?
    requires Works(cap, a, Publisher) && !a.ReleasePublished?
    requires forall i :: 0 <= i < |s.consumers| ==> SeesCursor(s, a, i, |s.consumers[i].cursor|)
    ensures 0 <= ProducerLeft(cap, Step(Unbounded, cap, s, a).value) < ProducerLeft(cap, s)
  {
    hide And, RingInv, ConsumerInv;
    if a.LoadCursor? && LoadedConsumer(s) < |s.consumers| {
      assert SeesCursor(s, a, LoadedConsumer(s), |s.consumers[LoadedConsumer(s)].cursor|);
      LastStore(init, s, LoadedConsumer(s), a.store);
    }
  }

  lemma OthersLeaveProducer<E>(cap: nat, s: State<E>, a: Action<E>)
    requires cap > 0 && Step(Unbounded, cap, s, a).Some? && !Works(cap, a, Publisher)
    ensures ProducerLeft(cap, Step(Unbounded, cap, s, a).value) == ProducerLeft(cap, s)
  {}

  /** From t on every load of a cursor sees the last store it had at t. */
  ghost predicate AllCursorsSeen<E(!new)>(run: nat -> State<E>, acts: nat -> Action<E>, t: nat) {
    forall later: nat, i: nat :: t <= later && i < |run(t).consumers| ==>
      SeesCursor(run(later), acts(later), i, |run(t).consumers[i].cursor|)
  }

  lemma {:induction false} WriterReleases<E(!new)>(cap: nat, init: nat, run: nat -> State<E>, acts: nat -> Action<E>,
                                                   target: nat, t: nat, later: nat) returns (u: nat)
    requires Invariant(cap, init, run, acts) && KeepsWorking(cap, run, acts, target)
    requires t <= later && Works(cap, acts(later), Publisher)
    requires CaughtUp(run(t)) && AllCursorsSeen(run, acts, t) && run(t).next < init + target
    ensures t <= u && acts(u) == ReleasePublished && run(u).next == run(t).next
    decreases ProducerLeft(cap, run(t)), later - t
  {
    hide And, Inv, Step, SeesCursor;
    assert Step(Unbounded, cap, run(t), acts(t)) == Some(run(t + 1));
    assert Inv(cap, init, run(t)) && Inv(cap, init, run(t + 1));
    if acts(t).ReleasePublished? {
      u := t;
    } else {
      CaughtUpStays(cap, init, run(t), acts(t));
      assert AllCursorsSeen(run, acts, t + 1);
      if Works(cap, acts(t), Publisher) {
        WriterStep(cap, init, run(t), acts(t));
        LogIsValid(cap, init, run(t + 1));
        assert WorksLater(cap, acts, t + 1, Publisher);
        var next: nat :| t + 1 <= next && Works(cap, acts(next), Publisher);
        u := WriterReleases(cap, init, run, acts, target, t + 1, next);
      } else {
        OthersLeaveProducer(cap, run(t), acts(t));
        u := WriterReleases(cap, init, run, acts, target, t + 1, later);
      }
    }
  }

  // ----- every run gains -----

  lemma {:induction false} AllSeenFrom<E(!new)>(ar: Arithmetic, run: nat -> State<E>, acts: nat -> Action<E>, t: nat, k: nat)
    returns (u: nat)
    requires StoresAreSeen(ar, run, acts) && k <= |run(t).consumers|
    ensures t <= u
    ensures forall later: nat, i: nat :: u <= later && i < k ==>
              SeesCursor(run(later), acts(later), i, |run(t).consumers[i].cursor|)
  {
    hide SeesCursor, SeesPublished;
    if k == 0 {
      u := t;
    } else {
      var v := AllSeenFrom(ar, run, acts, t, k - 1);
      assert SeenInTheEnd(ar, run, acts, k - 1, t);
      var x: nat :| SeenFrom(ar, run, acts, k - 1, t, x);
      u := if v < x then x else v;
    }
  }

  lemma SeenLater<E(!new)>(ar: Arithmetic, run: nat -> State<E>, acts: nat -> Action<E>, i: nat, t: nat) returns (u: nat)
    requires StoresAreSeen(ar, run, acts)
    ensures t <= u && SeenFrom(ar, run, acts, i, t, u)
  {
    hide SeesCursor, SeesPublished;
    assert SeenInTheEnd(ar, run, acts, i, t);
    var x: nat :| SeenFrom(ar, run, acts, i, t, x);
    u := if t < x then x else t;
  }

  /** A consumer behind both the target and the publications moves. */
  lemma ReaderMoves<E(!new)>(cap: nat, init: nat, run: nat -> State<E>, acts: nat -> Action<E>, target: nat, i: nat, t: nat)
    returns (u: nat)
    requires Invariant(cap, init, run, acts) && Fair(Unbounded, cap, run, acts, target) && i < |run(t).consumers|
    requires run(t).consumers[i].next < run(t).next && run(t).consumers[i].next < init + target
    ensures t <= u && i < |run(u).consumers| && run(t).consumers[i].next < run(u).consumers[i].next
  {
    hide And, Inv, Step, SeenFrom;
    var v := SeenLater(Unbounded, run, acts, i, t);
    RunExtends(cap, init, run, acts, t, v);
    if run(t).consumers[i].next < run(v).consumers[i].next {
      u := v;
    } else {
      assert Inv(cap, init, run(v));
      LogIsValid(cap, init, run(v));
      assert ShortOf(run(v), i, target);
      assert WorksLater(cap, acts, v, Reader(i));
      var later: nat :| v <= later && Works(cap, acts(later), Reader(i));
      var x := ReaderReleases(cap, init, run, acts, target, i, t, v, later);
      u := x + 1;
      ReleaseMoves(cap, init, run, acts, i, x);
    }
  }

  lemma ReleaseMoves<E(!new)>(cap: nat, init: nat, run: nat -> State<E>, acts: nat -> Action<E>, i: nat, t: nat)
    requires Invariant(cap, init, run, acts) && i < |run(t).consumers| && acts(t) == ReleaseCursor(i)
    ensures i < |run(t + 1).consumers| && run(t).consumers[i].next < run(t + 1).consumers[i].next
  {
    hide And, RingInv, ProducerInv;
    assert Step(Unbounded, cap, run(t), acts(t)) == Some(run(t + 1));
    assert Inv(cap, init, run(t));
    assert ConsumerInv(init, run(t), run(t).consumers[i]);
  }

  lemma {:induction false} CaughtUpUntil<E(!new)>(cap: nat, init: nat, run: nat -> State<E>, acts: nat -> Action<E>, t: nat, u: nat)
    requires Invariant(cap, init, run, acts) && t <= u && CaughtUp(run(t)) && run(u).next == run(t).next
    ensures CaughtUp(run(u)) && SameCursors(run(t), run(u))
    decreases u - t
  {
    hide And, Inv, Step;
    if t < u {
      RunExtends(cap, init, run, acts, t, u - 1);
      RunExtends(cap, init, run, acts, u - 1, u);
      CaughtUpUntil(cap, init, run, acts, t, u - 1);
      assert Step(Unbounded, cap, run(u - 1), acts(u - 1)) == Some(run(u - 1 + 1));
      assert Inv(cap, init, run(u - 1));
      if acts(u - 1).ReleasePublished? {
        PublishMoves(cap, init, run, acts, u - 1);
      }
      CaughtUpStays(cap, init, run(u - 1), acts(u - 1));
    }
  }

  lemma PublishMoves<E(!new)>(cap: nat, init: nat, run: nat -> State<E>, acts: nat -> Action<E>, t: nat)
    requires Invariant(cap, init, run, acts) && acts(t).ReleasePublished?
    ensures run(t).next < run(t + 1).next
  {
    hide And, RingInv, ConsumerInv;
    assert Step(Unbounded, cap, run(t), acts(t)) == Some(run(t + 1));
    assert Inv(cap, init, run(t));
  }

  /** A producer short of the target whose consumers have everything publishes. */
  lemma WriterMoves<E(!new)>(cap: nat, init: nat, run: nat -> State<E>, acts: nat -> Action<E>, target: nat, t: nat)
    returns (u: nat)
    requires Invariant(cap, init, run, acts) && Fair(Unbounded, cap, run, acts, target)
    requires CaughtUp(run(t)) && run(t).next < init + target
    ensures t <= u && run(t).next < run(u).next
  {
    hide And, Inv, Step, SeesCursor, CaughtUp;
    var v := AllSeenFrom(Unbounded, run, acts, t, |run(t).consumers|);
    RunExtends(cap, init, run, acts, t, v);
    if run(t).next < run(v).next {
      u := v;
    } else {
      CaughtUpUntil(cap, init, run, acts, t, v);
      assert AllCursorsSeen(run, acts, v);
      assert Inv(cap, init, run(v));
      LogIsValid(cap, init, run(v));
      assert WorksLater(cap, acts, v, Publisher);
      var later: nat :| v <= later && Works(cap, acts(later), Publisher);
      var x := WriterReleases(cap, init, run, acts, target, v, later);
      u := x + 1;
      PublishMoves(cap, init, run, acts, x);
    }
  }

  lemma RunGains<E(!new)>(cap: nat, init: nat, run: nat -> State<E>, acts: nat -> Action<E>, target: nat, t: nat)
    returns (u: nat)
    requires Invariant(cap, init, run, acts) && Fair(Unbounded, cap, run, acts, target)
    requires !Delivered(LogOf(cap, init, run(t)), target)
    ensures t <= u && Gains(LogOf(cap, init, run(t)), LogOf(cap, init, run(u)), target)
  {
    hide And, Inv, Fair;
    assert Inv(cap, init, run(t));
    LogIsValid(cap, init, run(t));
    if i: nat :| i < |run(t).consumers| && run(t).consumers[i].next < run(t).next && run(t).consumers[i].next < init + target {
      u := ReaderMoves(cap, init, run, acts, target, i, t);
      MovedGains(cap, init, run, acts, t, u);
      assert LogOf(cap, init, run(t)).cursors[i] < LogOf(cap, init, run(u)).cursors[i];
    } else {
      EveryoneHasAll(cap, init, run(t), target);
      u := WriterMoves(cap, init, run, acts, target, t);
      MovedGains(cap, init, run, acts, t, u);
    }
  }

  lemma EveryoneHasAll<E>(cap: nat, init: nat, s: State<E>, target: nat)
    requires ValidCapacity(cap) && Inv(cap, init, s) && !Delivered(LogOf(cap, init, s), target)
    requires forall i :: 0 <= i < |s.consumers| ==> s.consumers[i].next >= s.next || s.consumers[i].next >= init + target
    ensures CaughtUp(s) && s.next < init + target
  {
    hide And, Inv;
    LogIsValid(cap, init, s);
    forall i | 0 <= i < |s.consumers|
      ensures s.consumers[i].next <= s.next
    {
      Lags(cap, init, s, i);
    }
  }

  lemma MovedGains<E(!new)>(cap: nat, init: nat, run: nat -> State<E>, acts: nat -> Action<E>, t: nat, u: nat)
    requires Invariant(cap, init, run, acts) && t <= u
    ensures Grows(LogOf(cap, init, run(t)), LogOf(cap, init, run(u)))
    ensures |History(run(u))| - |History(run(t))| == run(u).next - run(t).next
    ensures |run(u).consumers| == |run(t).consumers|
    ensures forall i :: 0 <= i < |run(t).consumers| ==>
              Cursors(run(u))[i] - Cursors(run(t))[i] == run(u).consumers[i].next - run(t).consumers[i].next
  {
    hide And, Inv, Step, Grows;
    assert Inv(cap, init, run(t)) && Inv(cap, init, run(u));
    RunExtends(cap, init, run, acts, t, u);
    ExtendsGrows(cap, init, run(t), run(u));
    LogIsValid(cap, init, run(t));
    LogIsValid(cap, init, run(u));
  }

  lemma {:induction false} UnboundedFinishes<E(!new)>(cap: nat, init: nat, run: nat -> State<E>, acts: nat -> Action<E>,
                                                      target: nat, t: nat) returns (finish: nat)
    requires Invariant(cap, init, run, acts) && Fair(Unbounded, cap, run, acts, target)
    ensures t <= finish && Delivered(LogOf(cap, init, run(finish)), target)
    decreases Remaining(LogOf(cap, init, run(t)), target)
  {
    hide Invariant, Fair, LogOf, Gains, Delivered, Remaining;
    if Delivered(LogOf(cap, init, run(t)), target) {
      finish := t;
    } else {
      var u := RunGains(cap, init, run, acts, target, t);
      GainsFalls(LogOf(cap, init, run(t)), LogOf(cap, init, run(u)), target);
      finish := UnboundedFinishes(cap, init, run, acts, target, u);
    }
  }

  lemma GainsFalls<E>(log: Log<E>, later: Log<E>, target: nat)
    requires Gains(log, later, target)
    ensures Remaining(later, target) < Remaining(log, target)
  {
    RemainingFalls(log, later, target);
  }

  // ----- the 64-bit machine -----

  /** The true positions behind a run: the same actions on the unbounded machine. */
  ghost function Shadow<E>(cap: nat, start: State<E>, acts: nat -> Action<E>, t: nat): State<E>
    requires cap > 0
  {
    if t == 0 then start else
      var s := Shadow(cap, start, acts, t - 1);
      match Step(Unbounded, cap, s, acts(t - 1))
      case None => s
      case Some(u) => u
  }

  lemma {:induction false} ShadowIs<E(!new)>(ring: seq<E>, n: nat, p: u64, run: nat -> State<E>, acts: nat -> Action<E>, t: nat)
    requires ValidCapacity(|ring|) && n > 0 && IsRun(Word64, |ring|, run, acts) && run(0) == Initial(ring, n, p)
    ensures var s := Shadow(|ring|, run(0), acts, t);
            && Inv(|ring|, p, s) && |s.consumers| == n && run(t) == WrapState(s)
            && Step(Unbounded, |ring|, s, acts(t)) == Some(Shadow(|ring|, run(0), acts, t + 1))
  {
    hide And, Inv, Step, Initial;
    if t == 0 {
      InitialInv(ring, n, p);
      InitialWraps(ring, n, p);
      InitialSize(ring, n, p);
    } else {
      ShadowIs(ring, n, p, run, acts, t - 1);
      StepRefines(|ring|, p, Shadow(|ring|, run(0), acts, t - 1), acts(t - 1));
      assert Step(Word64, |ring|, run(t - 1), acts(t - 1)) == Some(run(t - 1 + 1));
    }
    assert Step(Word64, |ring|, run(t), acts(t)) == Some(run(t + 1));
    StepRefines(|ring|, p, Shadow(|ring|, run(0), acts, t), acts(t));
  }

  lemma InitialSize<E>(ring: seq<E>, n: nat, p: nat)
    ensures |Initial(ring, n, p).consumers| == n
  {}

  ghost function ShadowRun<E>(cap: nat, start: State<E>, acts: nat -> Action<E>): nat -> State<E>
    requires cap > 0
  {
    (t: nat) => Shadow(cap, start, acts, t)
  }

  /** Both runs look alike to fairness. */
  lemma SameToFairness<E>(cap: nat, init: nat, s: State<E>, a: Action<E>, i: nat, target: nat, stores: nat)
    requires ValidCapacity(cap) && Inv(cap, init, s)
    ensures |History(WrapState(s))| == |History(s)|
    ensures ShortOf(WrapState(s), i, target) == ShortOf(s, i, target)
    ensures SeesCursor(WrapState(s), a, i, stores) == SeesCursor(s, a, i, stores)
    ensures SeesPublished(Word64, WrapState(s), a, i, stores) == SeesPublished(Unbounded, s, a, i, stores)
  {
    hide And, Inv;
    if i < |s.consumers| {
      Lags(cap, init, s, i);
      WrapSub(s.consumers[i].cached, s.consumers[i].next);
    }
  }

  lemma ShadowInvariant<E(!new)>(ring: seq<E>, n: nat, p: u64, run: nat -> State<E>, acts: nat -> Action<E>)
    requires ValidCapacity(|ring|) && n > 0 && IsRun(Word64, |ring|, run, acts) && run(0) == Initial(ring, n, p)
    ensures var shadow := ShadowRun(|ring|, run(0), acts);
            Invariant(|ring|, p, shadow, acts) && IsShadow(|ring|, p, run, shadow)
  {
    hide And, Inv, Step, Initial, WrapState;
    var shadow := ShadowRun(|ring|, run(0), acts);
    forall t: nat
      ensures Inv(|ring|, p, shadow(t)) && |shadow(t).consumers| == n && run(t) == WrapState(shadow(t))
      ensures Step(Unbounded, |ring|, shadow(t), acts(t)) == Some(shadow(t + 1))
    {
      ShadowIs(ring, n, p, run, acts, t);
    }
  }

  ghost predicate IsShadow<E(!new)>(cap: nat, init: nat, run: nat -> State<E>, shadow: nat -> State<E>) {
    ValidCapacity(cap) && forall t: nat :: Inv(cap, init, shadow(t)) && run(t) == WrapState(shadow(t))
  }

  lemma ShadowWorks<E(!new)>(cap: nat, init: nat, run: nat -> State<E>, shadow: nat -> State<E>, acts: nat -> Action<E>, target: nat)
    requires IsShadow(cap, init, run, shadow) && KeepsWorking(cap, run, acts, target)
    ensures KeepsWorking(cap, shadow, acts, target)
  {
    hide And, Inv, History, WorksLater, ShortOf, SeesCursor, SeesPublished, WrapState;
    forall t: nat, i: nat
      ensures ShortOf(shadow(t), i, target) ==> ShortOf(run(t), i, target)
    {
      SameToFairness(cap, init, shadow(t), acts(t), i, target, 0);
    }
    forall t: nat | |History(shadow(t))| < target
      ensures WorksLater(cap, acts, t, Publisher)
    {
      SameToFairness(cap, init, shadow(t), acts(t), 0, target, 0);
    }
    forall t: nat, i: nat | ShortOf(shadow(t), i, target)
      ensures WorksLater(cap, acts, t, Reader(i))
    {
      assert ShortOf(run(t), i, target);
    }
  }

  lemma ShadowFair<E(!new)>(cap: nat, init: nat, run: nat -> State<E>, shadow: nat -> State<E>, acts: nat -> Action<E>, target: nat)
    requires IsShadow(cap, init, run, shadow) && Fair(Word64, cap, run, acts, target)
    ensures Fair(Unbounded, cap, shadow, acts, target)
  {
    hide KeepsWorking, IsShadow, SeenFrom;
    ShadowWorks(cap, init, run, shadow, acts, target);
    forall t: nat, i: nat
      ensures SeenInTheEnd(Unbounded, shadow, acts, i, t)
    {
      assert SeenInTheEnd(Word64, run, acts, i, t);
      var u: nat :| SeenFrom(Word64, run, acts, i, t, u);
      ShadowSees(cap, init, run, shadow, acts, i, t, u, target);
    }
  }

  lemma ShadowSees<E(!new)>(cap: nat, init: nat, run: nat -> State<E>, shadow: nat -> State<E>, acts: nat -> Action<E>,
                            i: nat, t: nat, u: nat, target: nat)
    requires IsShadow(cap, init, run, shadow)
    requires SeenFrom(Word64, run, acts, i, t, u)
    ensures SeenFrom(Unbounded, shadow, acts, i, t, u)
  {
    hide And, Inv, SeesCursor, SeesPublished;
    forall later: nat | u <= later
      ensures i < |shadow(t).consumers| ==> SeesCursor(shadow(later), acts(later), i, |shadow(t).consumers[i].cursor|)
      ensures SeesPublished(Unbounded, shadow(later), acts(later), i, |shadow(t).published|)
    {
      SameToFairness(cap, init, shadow(later), acts(later), i, target, |shadow(t).published|);
      if i < |shadow(t).consumers| {
        assert |run(t).consumers[i].cursor| == |shadow(t).consumers[i].cursor|;
        SameToFairness(cap, init, shadow(later), acts(later), i, target, |shadow(t).consumers[i].cursor|);
      }
    }
  }

  /**
   In every fair infinite run of the 64-bit machine, from every initial position and from every moment on,
   the target is published and every consumer has released it.
   */
  lemma FairRunsFinish<E(!new)>(ring: seq<E>, n: nat, p: u64, run: nat -> State<E>, acts: nat -> Action<E>, target: nat, t: nat)
    returns (finish: nat)
    requires ValidCapacity(|ring|) && n > 0 && IsRun(Word64, |ring|, run, acts) && run(0) == Initial(ring, n, p)
    requires Fair(Word64, |ring|, run, acts, target)
    ensures t <= finish && Delivered(LogOf(|ring|, p, run(finish)), target)
  {
    hide And, Inv, Step, Fair, Invariant, LogOf, Initial, IsShadow;
    var shadow := ShadowRun(|ring|, run(0), acts);
    ShadowInvariant(ring, n, p, run, acts);
    ShadowFair(|ring|, p, run, shadow, acts, target);
    finish := UnboundedFinishes(|ring|, p, shadow, acts, target, t);
    ShadowIs(ring, n, p, run, acts, finish);
    LogOfWrapped(|ring|, p, shadow(finish));
  }
}
