/** What the disruptor is for: an append-only log with one read cursor per consumer and a bounded lag. */
module DisruptorLog {
  import opened Words

  datatype Log<E> = Log(cap: nat, init: nat, events: seq<E>, cursors: seq<nat>) {

    ghost predicate Valid() {
      && ValidCapacity(cap) && |cursors| > 0
      && forall i :: 0 <= i < |cursors| ==> cursors[i] <= |events| <= cursors[i] + cap
    }

    /** The simple rule: a batch is accepted when every consumer leaves room for all of it. */
    predicate Accepts(count: nat) {
      count == 0 || forall i :: 0 <= i < |cursors| ==> |events| + count <= cursors[i] + cap
    }

    function Publish(count: nat, writer: nat -> E): Log<E> {
      if Accepts(count) then this.(events := events + Batch(count, writer)) else this
    }

    /** How many events consumer i gets when it asks for at most max. */
    function Takes(i: nat, max: nat): nat {
      if i >= |cursors| || |events| < cursors[i] then 0
      else if |events| - cursors[i] < max then |events| - cursors[i] else max
    }

    function Consume(i: nat, max: nat): Log<E> {
      if i >= |cursors| then this else this.(cursors := cursors[i := cursors[i] + Takes(i, max)])
    }

    /** How many events it gets through a handle that has cached a publication boundary. */
    function CachedTakes(i: nat, boundary: nat, max: nat): nat {
      if i < |cursors| && cursors[i] < boundary then
        (if boundary - cursors[i] < max then boundary - cursors[i] else max)
      else Takes(i, max)
    }

    /** The boundary the handle has cached after that call. */
    function BoundaryAfter(i: nat, boundary: nat, max: nat): nat {
      if (i < |cursors| && cursors[i] < boundary) || max == 0 then boundary else |events|
    }

    /** What the handler of consumer i sees during that call. */
    function Handed(i: nat, max: nat): seq<(E, u64)> {
      if i >= |cursors| then [] else Slice(init, events, cursors[i], Takes(i, max))
    }
  }

  /** The events a writer callback produces for indices 0..count. */
  function Batch<E>(count: nat, writer: nat -> E): (batch: seq<E>)
    ensures |batch| == count && forall k: nat :: k < count ==> batch[k] == writer(k)
  {
    seq(count, k requires 0 <= k => writer(k))
  }

  /** Events from..from+n of the log with their positions modulo 2^64. */
  function Slice<E>(init: nat, events: seq<E>, from: nat, n: nat): seq<(E, u64)> {
    if from + n > |events| then [] else
      seq(n, k requires 0 <= k < n => (events[from + k], Wrap(init + from + k)))
  }

  // ----- what the operations mean, event by event -----

  /** A batch is taken whole, event by event from its writer, exactly when every consumer leaves room for it. */
  lemma PublishMeans<E>(log: Log<E>, count: nat, writer: nat -> E)
    ensures var after, n := log.Publish(count, writer), |log.events|;
            var room := count == 0 || forall i :: 0 <= i < |log.cursors| ==> n + count <= log.cursors[i] + log.cap;
            && (log.Accepts(count) <==> room)
            && after.cursors == log.cursors && after.cap == log.cap && after.init == log.init
            && |after.events| == n + (if room then count else 0) && log.events <= after.events
            && (room ==> forall k: nat :: k < count ==> after.events[n + k] == writer(k))
  {}

  /** An indexed call hands over all that waits, or as much as was asked for, in order and numbered modulo 2^64. */
  lemma ConsumeMeans<E>(log: Log<E>, i: nat, max: nat)
    requires i < |log.cursors| && log.cursors[i] <= |log.events|
    ensures var got, after, from := log.Handed(i, max), log.Consume(i, max), log.cursors[i];
            && |got| <= max && after.events == log.events && after.cursors == log.cursors[i := from + |got|]
            && after.cursors[i] <= |log.events| && (|got| == max || after.cursors[i] == |log.events|)
            && forall k :: 0 <= k < |got| ==> got[k] == (log.events[from + k], Wrap(log.init + from + k))
  {
    hide Slice;
    SliceMeans(log.init, log.events, log.cursors[i], log.Takes(i, max));
  }

  /** A consumer index outside the registered range gets nothing and moves nothing. */
  lemma BadIndexGetsNothing<E>(log: Log<E>, i: nat, max: nat)
    requires i >= |log.cursors|
    ensures log.Handed(i, max) == [] && log.Consume(i, max) == log && log.Takes(i, max) == 0
  {}

  lemma SliceMeans<E>(init: nat, events: seq<E>, from: nat, n: nat)
    requires from + n <= |events|
    ensures |Slice(init, events, from, n)| == n
    ensures forall k :: 0 <= k < n ==> Slice(init, events, from, n)[k] == (events[from + k], Wrap(init + from + k))
  {}

  /** A call through a handle stops at the boundary it has cached while that is ahead, and otherwise caches a new one. */
  lemma CachedMeans<E>(log: Log<E>, i: nat, boundary: nat, max: nat)
    requires i < |log.cursors| && log.cursors[i] <= boundary <= |log.events|
    ensures var n, next := log.CachedTakes(i, boundary, max), log.BoundaryAfter(i, boundary, max);
            && next == (if max > 0 && boundary == log.cursors[i] then |log.events| else boundary)
            && n <= max && log.cursors[i] + n <= next && (n == max || log.cursors[i] + n == next)
  {}

  lemma SliceConcat<E>(init: nat, events: seq<E>, from: nat, n: nat, m: nat)
    requires from + n + m <= |events|
    ensures Slice(init, events, from, n) + Slice(init, events, from + n, m) == Slice(init, events, from, n + m)
  {}

  lemma SliceEmpty<E>(init: nat, events: seq<E>, from: nat)
    ensures Slice(init, events, from, 0) == []
  {}

  lemma SliceExtend<E>(init: nat, events: seq<E>, from: nat, k: nat)
    requires from + k < |events|
    ensures Slice(init, events, from, k + 1) == Slice(init, events, from, k) + [(events[from + k], Add(Wrap(init + from), k))]
  {
    hide Slice, Wrap, Add;
    WrapAdd(init + from, k);
    SliceMeans(init, events, from, k);
    SliceMeans(init, events, from, k + 1);
  }

  lemma SliceOfPrefix<E>(init: nat, events: seq<E>, more: seq<E>, from: nat, n: nat)
    requires from + n <= |events|
    ensures Slice(init, events + more, from, n) == Slice(init, events, from, n)
  {}

  // ----- the ring as a function of the log -----

  /** The ring after writing xs one by one from position init on. */
  function RingAfter<E>(ring: seq<E>, init: nat, xs: seq<E>): (r: seq<E>)
    requires |ring| > 0
    ensures |r| == |ring|
  {
    if xs == [] then ring else
      var n := |xs| - 1;
      RingAfter(ring, init, xs[..n])[(init + n) % |ring| := xs[n]]
  }

  lemma RingAppend<E>(ring: seq<E>, init: nat, xs: seq<E>, e: E)
    requires |ring| > 0
    ensures RingAfter(ring, init, xs + [e]) == RingAfter(ring, init, xs)[(init + |xs|) % |ring| := e]
  {}

  /** Writing item k of a batch into the slot of its position extends the ring by one event. */
  lemma RingExtend<E>(ring: seq<E>, init: nat, xs: seq<E>, batch: seq<E>, k: nat)
    requires |ring| > 0 && k < |batch|
    ensures RingAfter(ring, init, xs + batch[..k + 1])
         == RingAfter(ring, init, xs + batch[..k])[(init + |xs| + k) % |ring| := batch[k]]
  {
    assert xs + batch[..k] + [batch[k]] == xs + batch[..k + 1];
    RingAppend(ring, init, xs + batch[..k], batch[k]);
  }

  /** The ring still holds every event of the last lap. */
  lemma {:induction false} RingHolds<E>(ring: seq<E>, init: nat, xs: seq<E>, k: nat)
    requires |ring| > 0 && k < |xs| <= k + |ring|
    ensures RingAfter(ring, init, xs)[(init + k) % |ring|] == xs[k]
  {
    var n := |xs| - 1;
    if k < n {
      RingHolds(ring, init, xs[..n], k);
      if (init + k) % |ring| == (init + n) % |ring| {
        SlotInjective(init + k, init + n, |ring|);
      }
    }
  }
}
