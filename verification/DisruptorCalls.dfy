/**
 What single calls of the concurrent 64-bit machine decide: how many events a consume call takes, when a
 publication is answered without a load, what a rescan leaves in the cache and in the blocker hint.
 */
module DisruptorCalls {
  import opened Words
  import opened Options
  import opened DisruptorProtocol
  import opened DisruptorSafety
  import opened DisruptorRefinement

  // ----- consuming -----

  /** The call goes past the boundary its handle has cached; indexed calls always do. */
  predicate GoesPastCache<E>(c: Consumer<E>, max: nat) {
    max > 0 && (!c.handle || c.cached == c.next)
  }

  /** Everything the start of a call does: the boundary it works up to, and how many events it takes of it. */
  ghost predicate StartsCall<E>(w: State<E>, c: Consumer<E>, max: nat, store: nat, d: Consumer<E>) {
    && (GoesPastCache(c, max) ==> store < |w.published| && d.cached == w.published[store] && d.publishedView == store)
    && (!GoesPastCache(c, max) ==> d.cached == c.cached && d.publishedView == c.publishedView)
    && d.next == c.next && d.cursor == c.cursor && d.delivered == c.delivered && d.handle == c.handle
    && (d.phase.Reading? <==> max > 0 && d.cached != d.next)
    && (!d.phase.Reading? ==> d.phase == c.phase)
    && (d.phase.Reading? ==>
          var waiting := (d.cached - d.next) % TWO64;
          && d.phase.done == 0 && 0 < d.phase.count <= max
          && d.phase.count <= waiting && (d.phase.count == max || d.phase.count == waiting))
  }

  lemma DifferentWords(a: u64, b: u64)
    ensures Wrap(a - b) == 0 <==> a == b
  {}

  lemma StartTakes<E>(s: State<E>, c: Consumer<E>, max: nat, store: nat)
    requires c.phase.Idle? && c.next < TWO64 && c.cached < TWO64 && forall k :: 0 <= k < |s.published| ==> s.published[k] < TWO64
    requires BeginConsumeStep(Word64, s, c, max, store).Some?
    ensures StartsCall(s, c, max, store, BeginConsumeStep(Word64, s, c, max, store).value)
  {
    DifferentWords(c.cached, c.next);
    if store < |s.published| {
      DifferentWords(s.published[store], c.next);
    }
  }

  lemma WordsAreWords<E>(s: State<E>, i: nat)
    requires i < |s.consumers|
    ensures var w := WrapState(s);
            && w.consumers[i].next < TWO64 && w.consumers[i].cached < TWO64
            && forall k :: 0 <= k < |w.published| ==> w.published[k] < TWO64
  {}

  /** A consume call takes all that lies before the boundary it works up to, or as much as was asked for. */
  lemma ConsumeTakes<E(!new)>(ring: seq<E>, n: nat, p: u64, w: State<E>, i: nat, max: nat, store: nat)
    requires Reachable(ring, n, p, w) && i < |w.consumers| && w.consumers[i].phase.Idle?
    requires Step(Word64, |ring|, w, BeginConsume(i, max, store)).Some?
    ensures var v := Step(Word64, |ring|, w, BeginConsume(i, max, store)).value;
            && i < |v.consumers| && v == w.(consumers := w.consumers[i := v.consumers[i]])
            && StartsCall(w, w.consumers[i], max, store, v.consumers[i])
  {
    hide And, BeginConsumeStep, StartsCall;
    var s := TruePositions(ring, n, p, w);
    WordsAreWords(s, i);
    StartTakes(w, w.consumers[i], max, store);
  }

  /** A new handle has nothing cached, so its first call loads. */
  lemma NewHandleLoads<E>(cap: nat, w: State<E>, i: nat, max: nat)
    requires cap > 0 && i < |w.consumers| && Step(Word64, cap, w, MakeConsumer(i)).Some? && max > 0
    ensures GoesPastCache(Step(Word64, cap, w, MakeConsumer(i)).value.consumers[i], max)
  {}

  // ----- publishing -----

  /** The answers that need no load: empty batches, batches above the capacity, batches the cache covers. */
  lemma PublishBegins<E>(cap: nat, w: State<E>, count: nat)
    requires cap > 0 && w.phase.Ready?
    ensures var o := Step(Word64, cap, w, BeginPublish(count));
            && o.Some?
            && o.value == w.(phase := o.value.phase, results := o.value.results)
            && (count == 0 ==> o.value.phase.Ready? && o.value.results == w.results + [true])
            && (count > cap ==> o.value.phase.Ready? && o.value.results == w.results + [false])
            && (0 < count <= cap ==> o.value.results == w.results)
            && (0 < count <= cap && count <= w.available ==> o.value.phase == Writing(count, 0))
            && (0 < count <= cap && count > w.available ==> o.value.phase == CheckBlocker(count))
  {}

  /** At first the whole ring is free: a batch of any size that fits is written without looking at a cursor. */
  lemma StartsFull<E>(ring: seq<E>, n: nat, p: u64, count: nat)
    requires 0 < count <= |ring|
    ensures var o := Step(Word64, |ring|, Initial(ring, n, p), BeginPublish(count));
            o.Some? && o.value.phase == Writing(count, 0)
  {}

  /** Which consumer's cursor a load looks at. */
  function Inspected<E>(w: State<E>): nat {
    if w.phase.Scan? then w.phase.index else w.blocker
  }

  /** A load refuses exactly when that cursor leaves no room; until the scan is over, cache and answer stay as they are. */
  ghost predicate LoadDecides<E>(cap: nat, w: State<E>, store: nat, v: State<E>) {
    var j := Inspected(w);
    && (w.phase.CheckBlocker? || w.phase.Scan?) && j < |w.consumers| && store < |w.consumers[j].cursor|
    && var room := cap - (w.next - w.consumers[j].cursor[store]) % TWO64;
       var required := w.phase.required;
       && room >= 0 && v.available == w.available && v.written == w.written && v.ring == w.ring
       && (v.phase.Ready? <==> room < required)
       && (room < required ==> v.results == w.results + [false] && v.blocker == j)
       && (room >= required ==>
             && v.results == w.results && v.blocker == w.blocker
             && v.phase.Scan? && v.phase.required == required
             && v.phase.index == if w.phase.Scan? then w.phase.index + 1 else 0)
  }

  lemma LoadRoom<E>(cap: nat, init: nat, s: State<E>, store: nat)
    requires ValidCapacity(cap) && Inv(cap, init, s) && LoadCursorStep(Word64, cap, WrapState(s), store).Some?
    ensures LoadDecides(cap, WrapState(s), store, LoadCursorStep(Word64, cap, WrapState(s), store).value)
  {
    hide And, RingInv, ConsumerInv;
    LoadedLag(cap, init, s, Inspected(s), store);
  }

  lemma LoadIsDecided<E(!new)>(ring: seq<E>, n: nat, p: u64, w: State<E>, store: nat)
    requires Reachable(ring, n, p, w) && Step(Word64, |ring|, w, LoadCursor(store)).Some?
    ensures LoadDecides(|ring|, w, store, Step(Word64, |ring|, w, LoadCursor(store)).value)
  {
    hide And, Inv, LoadCursorStep, LoadDecides;
    var s := TruePositions(ring, n, p, w);
    LoadRoom(|ring|, p, s, store);
  }

  /** What the producer has acquired of consumer j's position. */
  function AcquiredWord<E>(w: State<E>, j: nat): nat
    requires j < |w.consumers| && j < |w.cursorView| && w.cursorView[j] < |w.consumers[j].cursor|
  {
    w.consumers[j].cursor[w.cursorView[j]]
  }

  /** The hint names a slowest of the acquired consumers, and the cache is exactly the room it leaves. */
  ghost predicate CacheIsExact<E>(cap: nat, v: State<E>) {
    && |v.cursorView| == |v.consumers| && v.blocker < |v.consumers|
    && forall j :: 0 <= j < |v.consumers| ==>
         && v.cursorView[j] < |v.consumers[j].cursor|
         && (v.next - AcquiredWord(v, j)) % TWO64 <= cap - v.available
         && (j == v.blocker ==> (v.next - AcquiredWord(v, j)) % TWO64 == cap - v.available)
  }

  lemma AcquiredLag<E>(cap: nat, init: nat, s: State<E>, j: nat)
    requires ValidCapacity(cap) && Inv(cap, init, s) && j < |s.consumers|
    ensures var w := WrapState(s);
            && w.cursorView[j] < |w.consumers[j].cursor|
            && (w.next - AcquiredWord(w, j)) % TWO64 == s.next - Acquired(s, j)
  {
    hide And, RingInv, ConsumerInv;
    Lags(cap, init, s, j);
    WrapSub(s.next, Acquired(s, j));
  }

  lemma ScanLeaves<E>(cap: nat, init: nat, s: State<E>)
    requires ValidCapacity(cap) && Inv(cap, init, s) && s.phase.Scan? && s.phase.index == |s.consumers|
    ensures var v := WrapState(s).(blocker := s.phase.greatestIndex, available := cap - s.phase.greatest,
                                   phase := Writing(s.phase.required, 0));
            && s.phase.greatest <= cap && s.phase.required <= cap - s.phase.greatest
            && CacheIsExact(cap, v)
  {
    hide And, RingInv, ConsumerInv;
    var v := WrapState(s).(blocker := s.phase.greatestIndex, available := cap - s.phase.greatest,
                           phase := Writing(s.phase.required, 0));
    forall j | 0 <= j < |v.consumers|
      ensures v.cursorView[j] < |v.consumers[j].cursor|
      ensures (v.next - AcquiredWord(v, j)) % TWO64 == s.next - Acquired(s, j) <= s.phase.greatest
    {
      AcquiredLag(cap, init, s, j);
    }
  }

  /** A scan that reached the end leaves an exact cache and starts the batch it was for. */
  lemma ScanIsExact<E(!new)>(ring: seq<E>, n: nat, p: u64, w: State<E>)
    requires Reachable(ring, n, p, w) && w.phase.Scan? && w.phase.index == n
    ensures var o := Step(Word64, |ring|, w, ScanStep);
            && o.Some? && CacheIsExact(|ring|, o.value)
            && o.value.phase == Writing(w.phase.required, 0) && w.phase.required <= o.value.available
            && o.value.results == w.results
  {
    hide And, Inv, CacheIsExact;
    var s := TruePositions(ring, n, p, w);
    ScanLeaves(|ring|, p, s);
  }

  /** The blocker, looked at first, is skipped by the scan. */
  lemma ScanSkipsBlocker<E>(cap: nat, w: State<E>)
    requires cap > 0 && w.phase.Scan? && w.phase.greatest <= cap && w.phase.index == w.blocker < |w.consumers|
    ensures Step(Word64, cap, w, ScanStep) == Some(w.(phase := w.phase.(index := w.blocker + 1)))
    ensures forall store :: Step(Word64, cap, w, LoadCursor(store)).None?
  {}

  /** A release spends as much of the cache as it publishes, and answers true. */
  lemma ReleaseSpends<E(!new)>(ring: seq<E>, n: nat, p: u64, w: State<E>)
    requires Reachable(ring, n, p, w) && Step(Word64, |ring|, w, ReleasePublished).Some?
    ensures var v := Step(Word64, |ring|, w, ReleasePublished).value;
            && w.phase.Writing? && v.available + w.phase.count == w.available
            && v.next == (w.next + w.phase.count) % TWO64 && v.published == w.published + [v.next]
            && v.blocker == w.blocker && v.phase.Ready? && v.results == w.results + [true]
            && v.batches == w.batches + [w.phase.count]
  {}
}
