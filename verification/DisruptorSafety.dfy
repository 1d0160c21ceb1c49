/**
 What every step of the disruptor keeps, in true (unbounded) positions: the capacity cache is safe,
 every unreleased slot still holds its event, and everything delivered is the history in order.
 */
module DisruptorSafety {
  import opened Words
  import opened Orders
  import opened DisruptorProtocol

  function Last(xs: seq<nat>): nat
    requires xs != []
  {
    xs[|xs| - 1]
  }

  /** The position of consumer i that the producer has acquired: its last observed store. */
  ghost function Acquired<E>(s: State<E>, i: nat): nat
    requires i < |s.consumers| && i < |s.cursorView| && s.cursorView[i] < |s.consumers[i].cursor|
  {
    s.consumers[i].cursor[s.cursorView[i]]
  }

  ghost predicate ViewsExist<E>(s: State<E>) {
    && |s.cursorView| == |s.consumers|
    && forall i :: 0 <= i < |s.consumers| ==> s.cursorView[i] < |s.consumers[i].cursor|
  }

  ghost function WrittenInBatch(phase: ProducerPhase): nat {
    if phase.Writing? then phase.done else 0
  }

  /** A scanned lag at most `greatest` bounds every acquired position looked at so far. */
  ghost predicate ScannedWithin<E>(s: State<E>, index: nat, greatest: nat)
    requires ViewsExist(s)
  {
    forall j :: 0 <= j < |s.consumers| && (j < index || j == s.blocker) ==> s.next <= Acquired(s, j) + greatest
  }

  ghost predicate PhaseInv<E>(cap: nat, s: State<E>)
    requires ViewsExist(s)
  {
    match s.phase
    case Ready => true
    case CheckBlocker(required) => 0 < required <= cap
    case Scan(required, index, greatest, greatestIndex) =>
      && 0 < required <= cap && index <= |s.consumers| && greatestIndex < |s.consumers|
      && greatest <= cap - required
      && (greatestIndex < index || greatestIndex == s.blocker) && s.next == Acquired(s, greatestIndex) + greatest
      && ScannedWithin(s, index, greatest)
    case Writing(count, done) => done <= count && 0 < count <= s.available
  }

  /** Every store to `published_` ends a whole batch. */
  ghost predicate BatchInv<E>(init: nat, s: State<E>) {
    && |s.published| == |s.batches| + 1 && Ascending(s.published) && s.published[0] == init
    && forall k :: 0 <= k < |s.batches| ==> s.published[k + 1] == s.published[k] + s.batches[k]
  }

  ghost predicate ProducerInv<E>(cap: nat, init: nat, s: State<E>) {
    && ViewsExist(s)
    && |s.ring| == cap
    && s.blocker < |s.consumers|
    && BatchInv(init, s) && Last(s.published) == s.next
    && |s.written| == s.next - init + WrittenInBatch(s.phase)
    && PhaseInv(cap, s)
    // the capacity cache never promises more than the slowest acquired consumer allows
    && forall i :: 0 <= i < |s.consumers| ==> s.next + s.available <= Acquired(s, i) + cap
  }

  /** Each written event of the last lap is in the slot of its position. */
  ghost predicate RingInv<E>(cap: nat, init: nat, s: State<E>) {
    && cap > 0 && |s.ring| == cap
    && forall k :: 0 <= k < |s.written| && |s.written| <= k + cap
         ==> s.ring[(init + k) % cap] == s.written[k]
  }

  ghost predicate DeliveredInv<E>(init: nat, s: State<E>, c: Consumer<E>) {
    && |c.delivered| <= |s.written|
    && forall k :: 0 <= k < |c.delivered| ==> c.delivered[k] == (s.written[k], init + k)
  }

  ghost function ReadInBatch(phase: ConsumerPhase): nat {
    if phase.Reading? then phase.done else 0
  }

  ghost predicate ConsumerInv<E>(init: nat, s: State<E>, c: Consumer<E>) {
    && c.cursor != [] && Ascending(c.cursor) && Last(c.cursor) == c.next && init <= c.cursor[0]
    && c.publishedView < |s.published|
    && c.next <= c.cached <= s.published[c.publishedView]
    && (c.cached == c.next || c.cached == s.published[c.publishedView])
    && (c.phase.Reading? ==> c.phase.done <= c.phase.count && 0 < c.phase.count && c.next + c.phase.count <= c.cached)
    && |c.delivered| == c.next - init + ReadInBatch(c.phase)
    && DeliveredInv(init, s, c)
  }

  ghost predicate Inv<E>(cap: nat, init: nat, s: State<E>) {
    && RingInv(cap, init, s)
    && ProducerInv(cap, init, s)
    && forall i :: 0 <= i < |s.consumers| ==> ConsumerInv(init, s, s.consumers[i])
  }

  lemma InitialInv<E>(ring: seq<E>, n: nat, p: nat)
    requires |ring| > 0 && n > 0
    ensures Inv(|ring|, p, Initial(ring, n, p))
  {}

  // ----- consumer steps -----

  /** A consumer part-way through a read still finds its event: the producer cannot have lapped it. */
  lemma ReadIsIntact<E>(cap: nat, init: nat, s: State<E>, i: nat)
    requires Inv(cap, init, s) && i < |s.consumers|
    requires s.consumers[i].phase.Reading? && s.consumers[i].phase.done < s.consumers[i].phase.count
    ensures var c := s.consumers[i];
            var k := c.next - init + c.phase.done;
            k == |c.delivered| < |s.written| && s.ring[(c.next + c.phase.done) % cap] == s.written[k]
  {
    var c := s.consumers[i];
    assert ConsumerInv(init, s, c);
    assert Acquired(s, i) <= c.next;
    assert s.published[c.publishedView] <= s.next;
    var k := c.next - init + c.phase.done;
    assert |s.written| <= k + cap;
    assert s.ring[(init + k) % cap] == s.written[k];
  }

  lemma ConsumerMoveKeeps<E>(cap: nat, init: nat, s: State<E>, c: Consumer<E>, a: Action<E>)
    requires cap > 0 && ConsumerInv(init, s, c) && Ascending(s.published)
    requires a.MakeConsumer? || a.DropConsumer? || a.BeginConsume? || a.ReleaseCursor?
    requires ConsumerStep(Unbounded, cap, s, c, a).Some?
    ensures var d := ConsumerStep(Unbounded, cap, s, c, a).value;
            ConsumerInv(init, s, d) && c.cursor <= d.cursor
  {
    if a.BeginConsume? && a.max != 0 && !(c.handle && Distance(Unbounded, c.cached, c.next) != 0) {
      assert s.published[c.publishedView] <= s.published[a.store];
    }
  }

  lemma ReadKeeps<E>(cap: nat, init: nat, s: State<E>, i: nat)
    requires Inv(cap, init, s) && i < |s.consumers|
    requires ReadSlotStep(Unbounded, cap, s, s.consumers[i]).Some?
    ensures ConsumerInv(init, s, ReadSlotStep(Unbounded, cap, s, s.consumers[i]).value)
  {
    ReadIsIntact(cap, init, s, i);
    assert ConsumerInv(init, s, s.consumers[i]);
  }

  lemma ReplaceConsumer<E>(cap: nat, init: nat, s: State<E>, i: nat, d: Consumer<E>)
    requires Inv(cap, init, s) && i < |s.consumers|
    requires ConsumerInv(init, s, d) && s.consumers[i].cursor <= d.cursor
    ensures Inv(cap, init, s.(consumers := s.consumers[i := d]))
  {
    var t := s.(consumers := s.consumers[i := d]);
    forall j | 0 <= j < |t.consumers|
      ensures s.cursorView[j] < |t.consumers[j].cursor| && Acquired(t, j) == Acquired(s, j)
    {}
    forall j | 0 <= j < |t.consumers|
      ensures ConsumerInv(init, t, t.consumers[j])
    {
      assert j != i ==> ConsumerInv(init, s, s.consumers[j]);
    }
  }

  // ----- producer steps -----

  /** Consumers are unaffected by a producer step that only extends the two histories. */
  lemma ConsumersFramed<E>(init: nat, s: State<E>, t: State<E>)
    requires s.consumers == t.consumers && s.published <= t.published && s.written <= t.written
    requires forall i :: 0 <= i < |s.consumers| ==> ConsumerInv(init, s, s.consumers[i])
    ensures forall i :: 0 <= i < |t.consumers| ==> ConsumerInv(init, t, t.consumers[i])
  {}

  /** Observing a newer store of one cursor only raises the acquired positions. */
  lemma LoadRaises<E>(cap: nat, init: nat, s: State<E>, i: nat, store: nat)
    requires Inv(cap, init, s) && CanLoad(s, i, store)
    ensures var t := s.(cursorView := s.cursorView[i := store]);
            && ViewsExist(t)
            && Acquired(t, i) == s.consumers[i].cursor[store] <= s.next
            && forall j :: 0 <= j < |s.consumers| ==> Acquired(s, j) <= Acquired(t, j)
  {}

  /** Acquired positions depend on the views and the consumers only. */
  lemma Relabel<E>(u: State<E>, t: State<E>)
    requires ViewsExist(u) && t.cursorView == u.cursorView && t.consumers == u.consumers
    ensures ViewsExist(t)
    ensures forall j :: 0 <= j < |u.consumers| ==> Acquired(t, j) == Acquired(u, j)
    ensures forall x, g :: t.next == u.next && t.blocker == u.blocker && ScannedWithin(u, x, g) ==> ScannedWithin(t, x, g)
  {}

  lemma LoadBlockerKeeps<E>(cap: nat, init: nat, s: State<E>, store: nat)
    requires Inv(cap, init, s) && s.phase.CheckBlocker? && LoadCursorStep(Unbounded, cap, s, store).Some?
    ensures ProducerInv(cap, init, LoadCursorStep(Unbounded, cap, s, store).value)
  {
    LoadRaises(cap, init, s, s.blocker, store);
    Relabel(s.(cursorView := s.cursorView[s.blocker := store]), LoadCursorStep(Unbounded, cap, s, store).value);
  }

  lemma LoadScannedKeeps<E>(cap: nat, init: nat, s: State<E>, store: nat)
    requires Inv(cap, init, s) && s.phase.Scan? && LoadCursorStep(Unbounded, cap, s, store).Some?
    ensures ProducerInv(cap, init, LoadCursorStep(Unbounded, cap, s, store).value)
  {
    hide RingInv, ConsumerInv;
    var t := LoadCursorStep(Unbounded, cap, s, store).value;
    LoadRaises(cap, init, s, s.phase.index, store);
    var u := s.(cursorView := s.cursorView[s.phase.index := store]);
    assert t.phase.Scan? ==> ScannedWithin(u, t.phase.index, t.phase.greatest);
    Relabel(u, t);
  }

  lemma LoadKeeps<E>(cap: nat, init: nat, s: State<E>, store: nat)
    requires Inv(cap, init, s) && LoadCursorStep(Unbounded, cap, s, store).Some?
    ensures Inv(cap, init, LoadCursorStep(Unbounded, cap, s, store).value)
  {
    if s.phase.CheckBlocker? {
      LoadBlockerKeeps(cap, init, s, store);
    } else {
      LoadScannedKeeps(cap, init, s, store);
    }
    ConsumersFramed(init, s, LoadCursorStep(Unbounded, cap, s, store).value);
  }

  lemma WriteKeepsRing<E>(cap: nat, init: nat, s: State<E>, e: E)
    requires RingInv(cap, init, s)
    ensures RingInv(cap, init, s.(ring := s.ring[(init + |s.written|) % cap := e], written := s.written + [e]))
  {
    var n := |s.written|;
    var t := s.(ring := s.ring[(init + n) % cap := e], written := s.written + [e]);
    forall k | 0 <= k < |t.written| && |t.written| <= k + cap
      ensures t.ring[(init + k) % cap] == t.written[k]
    {
      if k < n && (init + k) % cap == (init + n) % cap {
        SlotInjective(init + k, init + n, cap);
      }
    }
  }

  lemma WriteKeeps<E>(cap: nat, init: nat, s: State<E>, e: E)
    requires Inv(cap, init, s) && WriteSlotStep(Unbounded, cap, s, e).Some?
    ensures Inv(cap, init, WriteSlotStep(Unbounded, cap, s, e).value)
  {
    var t := WriteSlotStep(Unbounded, cap, s, e).value;
    var slot := (s.next + s.phase.done) % cap;
    assert s.next + s.phase.done == init + |s.written|;
    WriteKeepsRing(cap, init, s, e);
    assert t.ring == s.ring[slot := e];
    assert RingInv(cap, init, t);
    assert forall j :: 0 <= j < |s.consumers| ==> Acquired(t, j) == Acquired(s, j);
    ConsumersFramed(init, s, t);
  }

  lemma ReleaseKeeps<E>(cap: nat, init: nat, s: State<E>)
    requires Inv(cap, init, s) && ReleasePublishedStep(Unbounded, s).Some?
    ensures Inv(cap, init, ReleasePublishedStep(Unbounded, s).value)
  {
    var t := ReleasePublishedStep(Unbounded, s).value;
    assert forall j :: 0 <= j < |s.consumers| ==> Acquired(t, j) == Acquired(s, j);
    assert ProducerInv(cap, init, t);
    ConsumersFramed(init, s, t);
  }

  lemma ControlKeeps<E>(cap: nat, init: nat, s: State<E>, a: Action<E>)
    requires cap > 0 && ProducerInv(cap, init, s)
    requires a.MakeProducer? || a.DropProducer? || a.BeginPublish? || a.ScanStep?
    requires ProducerStep(Unbounded, cap, s, a).Some?
    ensures ProducerInv(cap, init, ProducerStep(Unbounded, cap, s, a).value)
  {
    var t := ProducerStep(Unbounded, cap, s, a).value;
    Relabel(s, t);
  }

  lemma ConsumerActionKeeps<E>(cap: nat, init: nat, s: State<E>, a: Action<E>)
    requires Inv(cap, init, s) && IsConsumerAction(a) && a.i < |s.consumers|
    requires ConsumerStep(Unbounded, cap, s, s.consumers[a.i], a).Some?
    ensures Inv(cap, init, s.(consumers := s.consumers[a.i := ConsumerStep(Unbounded, cap, s, s.consumers[a.i], a).value]))
  {
    var c := s.consumers[a.i];
    assert ConsumerInv(init, s, c);
    if a.ReadSlot? {
      ReadKeeps(cap, init, s, a.i);
    } else {
      ConsumerMoveKeeps(cap, init, s, c, a);
    }
    ReplaceConsumer(cap, init, s, a.i, ConsumerStep(Unbounded, cap, s, c, a).value);
  }

  lemma ProducerActionKeeps<E>(cap: nat, init: nat, s: State<E>, a: Action<E>)
    requires Inv(cap, init, s) && ProducerStep(Unbounded, cap, s, a).Some?
    ensures Inv(cap, init, ProducerStep(Unbounded, cap, s, a).value)
  {
    if a.LoadCursor? {
      LoadKeeps(cap, init, s, a.store);
    } else if a.WriteSlot? {
      WriteKeeps(cap, init, s, a.event);
    } else if a.ReleasePublished? {
      ReleaseKeeps(cap, init, s);
    } else {
      ControlKeeps(cap, init, s, a);
      ConsumersFramed(init, s, ProducerStep(Unbounded, cap, s, a).value);
    }
  }

  /** Every step of every thread, with every legal staleness, keeps the invariant. */
  lemma StepKeeps<E>(cap: nat, init: nat, s: State<E>, a: Action<E>)
    requires Inv(cap, init, s) && Step(Unbounded, cap, s, a).Some?
    ensures Inv(cap, init, Step(Unbounded, cap, s, a).value)
  {
    if IsConsumerAction(a) {
      ConsumerActionKeeps(cap, init, s, a);
    } else {
      ProducerActionKeeps(cap, init, s, a);
    }
  }

  // ----- conflicting slot accesses are ordered by a release/acquire pair -----

  /** Every earlier read of the slot about to be overwritten was released by a store the producer has acquired. */
  lemma WriteAfterAcquiredReads<E>(cap: nat, init: nat, s: State<E>, i: nat, q: nat)
    requires Inv(cap, init, s) && i < |s.consumers|
    requires s.phase.Writing? && s.phase.done < s.phase.count
    requires init <= q < s.consumers[i].next + ReadInBatch(s.consumers[i].phase)
    requires q % cap == (s.next + s.phase.done) % cap
    ensures q < Acquired(s, i)
  {
    var c := s.consumers[i];
    assert ConsumerInv(init, s, c);
    assert s.published[c.publishedView] <= s.next;
    if Acquired(s, i) <= q {
      SlotInjective(q, s.next + s.phase.done, cap);
    }
  }

  /** Every write so far to the slot about to be read precedes the publication store the consumer has acquired. */
  lemma ReadAfterAcquiredWrites<E>(cap: nat, init: nat, s: State<E>, i: nat, r: nat)
    requires Inv(cap, init, s) && i < |s.consumers|
    requires s.consumers[i].phase.Reading? && s.consumers[i].phase.done < s.consumers[i].phase.count
    requires init <= r < init + |s.written|
    requires r % cap == (s.consumers[i].next + s.consumers[i].phase.done) % cap
    ensures r < s.published[s.consumers[i].publishedView]
  {
    var c := s.consumers[i];
    assert ConsumerInv(init, s, c);
    assert Acquired(s, i) <= c.next;
    var q := c.next + c.phase.done;
    if q < r {
      SlotInjective(q, r, cap);
    }
  }
}
