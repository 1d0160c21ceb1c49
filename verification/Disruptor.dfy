/**
 The disruptor's objects with their real fields and loops, each call running alone: the owner, the
 producer handle that takes the producer state private, and the consumer handle that caches the
 publication boundary.
 */
module Disruptor {
  import opened Words
  import opened RingSlots
  import opened DisruptorLog

  datatype ProducerState = Idle | Handle | HandlePublishing | DirectPublishing

  /** The cached capacity is safe and the hint names a consumer. */
  ghost predicate CacheValid<E>(log: Log<E>, available: nat, blocker: nat) {
    && blocker < |log.cursors|
    && forall i :: 0 <= i < |log.cursors| ==> |log.events| + available <= log.cursors[i] + log.cap
  }

  // ----- the four traversals of the ring -----

  /** Writing item k of a batch where a traversal puts it extends the ring by one event. */
  lemma WriteExtends<E>(blank: seq<E>, init: nat, xs: seq<E>, batch: seq<E>, k: nat)
    requires ValidCapacity(|blank|) && k < |batch| <= |blank|
    ensures var slot := MaskedIndex(|blank|, Wrap(init + |xs|), k);
            && slot == SpanIndex(|blank|, Wrap(init + |xs|), |batch|, k) < |blank|
            && RingAfter(blank, init, xs + batch[..k + 1]) == RingAfter(blank, init, xs + batch[..k])[slot := batch[k]]
  {
    TraversalsAgree(|blank|, init + |xs|, |batch|, k);
    RingExtend(blank, init, xs, batch, k);
  }

  /** Reading item k of an unreleased range where a traversal looks for it finds the event. */
  lemma ReadFinds<E>(blank: seq<E>, init: nat, xs: seq<E>, from: nat, count: nat, k: nat)
    requires ValidCapacity(|blank|) && k < count && from + count <= |xs| <= from + |blank|
    ensures var slot := MaskedIndex(|blank|, Wrap(init + from), k);
            && slot == SpanIndex(|blank|, Wrap(init + from), count, k) < |blank|
            && RingAfter(blank, init, xs)[slot] == xs[from + k]
  {
    hide And, ValidCapacity, MaskedIndex, SpanIndex, RingAfter;
    TraversalsAgree(|blank|, init + from, count, k);
    RingHolds(blank, init, xs, from + k);
  }

  /** Direct publication masks the position of every event. */
  method WriteMasked<E>(events: array<E>, first: u64, count: nat, writer: nat -> E,
                        ghost blank: seq<E>, ghost init: nat, ghost xs: seq<E>)
    requires ValidCapacity(events.Length) && events.Length == |blank| && count <= events.Length
    requires first == Wrap(init + |xs|) && events[..] == RingAfter(blank, init, xs)
    modifies events
    ensures events[..] == RingAfter(blank, init, xs + Batch(count, writer))
  {
    hide And, RingAfter, Slice, Wrap, Add, MaskedIndex, SpanIndex, Contiguous;
    ghost var batch := Batch(count, writer);
    assert xs + batch[..0] == xs && batch[..count] == batch;
    for index := 0 to count
      invariant events[..] == RingAfter(blank, init, xs + batch[..index])
    {
      WriteExtends(blank, init, xs, batch, index);
      events[MaskedIndex(events.Length, first, index)] := writer(index);
    }
  }

  /** The producer handle walks two contiguous spans. */
  method WriteTwoSpan<E>(events: array<E>, first: u64, count: nat, writer: nat -> E,
                         ghost blank: seq<E>, ghost init: nat, ghost xs: seq<E>)
    requires ValidCapacity(events.Length) && events.Length == |blank| && 0 < count <= events.Length
    requires first == Wrap(init + |xs|) && events[..] == RingAfter(blank, init, xs)
    modifies events
    ensures events[..] == RingAfter(blank, init, xs + Batch(count, writer))
  {
    hide And, ValidCapacity, RingAfter, Wrap, Add, MaskedIndex, Contiguous;
    var firstIndex := And(first, events.Length - 1);
    var contiguousCount := Contiguous(events.Length, first, count);
    ghost var batch := Batch(count, writer);
    assert xs + batch[..0] == xs && batch[..count] == batch;
    for index := 0 to contiguousCount
      invariant events[..] == RingAfter(blank, init, xs + batch[..index])
    {
      WriteExtends(blank, init, xs, batch, index);
      events[firstIndex + index] := writer(index);
    }
    for index := contiguousCount to count
      invariant events[..] == RingAfter(blank, init, xs + batch[..index])
    {
      WriteExtends(blank, init, xs, batch, index);
      events[index - contiguousCount] := writer(index);
    }
  }

  /** Indexed consumption masks the position of every event. */
  method ReadMasked<E>(events: array<E>, first: u64, count: nat,
                       ghost blank: seq<E>, ghost init: nat, ghost xs: seq<E>, ghost from: nat)
    returns (handled: seq<(E, u64)>)
    requires ValidCapacity(events.Length) && events.Length == |blank| && events[..] == RingAfter(blank, init, xs)
    requires first == Wrap(init + from) && from + count <= |xs| <= from + events.Length
    ensures handled == Slice(init, xs, from, count)
  {
    hide And, RingAfter, Slice, Wrap, Add, MaskedIndex, SpanIndex, Contiguous;
    handled := [];
    SliceEmpty(init, xs, from);
    for index := 0 to count
      invariant handled == Slice(init, xs, from, index)
    {
      ReadFinds(blank, init, xs, from, count, index);
      SliceExtend(init, xs, from, index);
      handled := handled + [(events[MaskedIndex(events.Length, first, index)], Add(first, index))];
    }
  }

  /** The consumer handle walks two contiguous spans. */
  method ReadTwoSpan<E>(events: array<E>, first: u64, count: nat,
                        ghost blank: seq<E>, ghost init: nat, ghost xs: seq<E>, ghost from: nat)
    returns (handled: seq<(E, u64)>)
    requires ValidCapacity(events.Length) && events.Length == |blank| && events[..] == RingAfter(blank, init, xs)
    requires first == Wrap(init + from) && 0 < count && from + count <= |xs| <= from + events.Length
    ensures handled == Slice(init, xs, from, count)
  {
    hide And, ValidCapacity, RingAfter, Slice, Wrap, Add, MaskedIndex, Contiguous;
    var firstIndex := And(first, events.Length - 1);
    var contiguousCount := Contiguous(events.Length, first, count);
    handled := [];
    SliceEmpty(init, xs, from);
    for index := 0 to contiguousCount
      invariant handled == Slice(init, xs, from, index)
    {
      ReadFinds(blank, init, xs, from, count, index);
      SliceExtend(init, xs, from, index);
      handled := handled + [(events[firstIndex + index], Add(first, index))];
    }
    for index := contiguousCount to count
      invariant handled == Slice(init, xs, from, index)
    {
      ReadFinds(blank, init, xs, from, count, index);
      SliceExtend(init, xs, from, index);
      handled := handled + [(events[index - contiguousCount], Add(first, index))];
    }
  }

  class SingleProducerDisruptor<E> {
    const capacity: nat
    const events: array<E>
    const consumers: array<u64>
    var nextToPublish: u64
    var available: nat
    var blocker: nat
    var published: u64
    var producerState: ProducerState

    ghost const init: u64
    ghost const blank: seq<E>
    ghost var log: Log<E>

    /** The shared part: ring, publication cursor and consumer cursors represent the log. */
    ghost predicate Shape()
      reads this, events, consumers
    {
      && log.Valid() && log.cap == capacity && log.init == init
      && events.Length == |blank| == capacity && consumers.Length == |log.cursors|
      && (events as object) != consumers
      && events[..] == RingAfter(blank, init, log.events)
      && published == Wrap(init + |log.events|)
      && forall i :: 0 <= i < consumers.Length ==> consumers[i] == Wrap(init + log.cursors[i])
    }

    /** With no handle live the owner's private cursor is the published position and its cache is safe. */
    ghost predicate Valid()
      reads this, events, consumers
    {
      Shape() && producerState == Idle && nextToPublish == published && CacheValid(log, available, blocker)
    }

    constructor (capacity: nat, consumerCount: nat, initialPosition: u64, blankEvent: E)
      requires ValidCapacity(capacity) && consumerCount > 0
      ensures Valid() && fresh(events) && fresh(consumers)
      ensures this.capacity == capacity && init == initialPosition
      ensures log == Log(capacity, initialPosition, [], seq(consumerCount, _ => 0))
      ensures available == capacity && blocker == 0 && nextToPublish == published == initialPosition
    {
      this.capacity := capacity;
      events := new E[capacity](_ => blankEvent);
      consumers := new u64[consumerCount](_ => initialPosition);
      nextToPublish, published := initialPosition, initialPosition;
      available, blocker := capacity, 0;
      producerState := Idle;
      init, blank := initialPosition, seq(capacity, _ => blankEvent);
      log := Log(capacity, initialPosition, [], seq(consumerCount, _ => 0));
      new;
      assert Wrap(initialPosition) == initialPosition;
      assert events[..] == blank;
    }

    /** The cache answers when it can; otherwise the cursors are rescanned. */
    method Reserve(count: nat) returns (ok: bool)
      requires Valid() && 0 < count <= capacity
      modifies this`available, this`blocker
      ensures Valid() && ok == log.Accepts(count) && (ok ==> count <= available)
      ensures !ok || count <= old(available) ==> available == old(available)
      ensures count <= old(available) ==> blocker == old(blocker)
      ensures ok && count > old(available) ==>
                && available == capacity - (|log.events| - log.cursors[blocker])
                && forall i :: 0 <= i < |log.cursors| ==> log.cursors[blocker] <= log.cursors[i]
      ensures !ok ==> log.cursors[blocker] + capacity < |log.events| + count
    {
      hide And, RingAfter, Wrap, ValidCapacity;
      ok := true;
      if count > available {
        ok, available, blocker :=
          RefreshAvailableCapacity(log, capacity, consumers, nextToPublish, count, available, blocker);
      }
    }

    /** Direct publication: masks every position. */
    method TryPublishBatch(count: nat, writer: nat -> E) returns (ok: bool)
      requires Valid()
      modifies this`nextToPublish, this`available, this`blocker, this`published, this`producerState, this`log, events
      ensures Valid()
      ensures ok == old(log).Accepts(count)
      ensures log == old(log).Publish(count, writer)
      // the cache: spent without a rescan while it covers the batch, exact after a rescan, untouched by a refusal
      ensures !ok || count == 0 ==> available == old(available)
      ensures count <= old(available) || count > capacity ==> blocker == old(blocker)
      ensures ok && count <= old(available) ==> available == old(available) - count
      ensures ok && count > old(available) ==>
                && available == capacity - (|log.events| - log.cursors[blocker])
                && forall i :: 0 <= i < |log.cursors| ==> log.cursors[blocker] <= log.cursors[i]
      ensures !ok && count <= capacity ==> log.cursors[blocker] + capacity < |log.events| + count
    {
      hide And, ValidCapacity, RingAfter, Wrap, Add;
      if count == 0 {
        assert log.Publish(count, writer).events == log.events;
        return true;
      }
      if count > capacity {
        assert log.cursors[0] <= |log.events|;
        return false;
      }
      var reserved := Reserve(count);
      if !reserved {
        return false;
      }
      producerState := DirectPublishing;
      var first := nextToPublish;
      WriteMasked(events, first, count, writer, blank, init, log.events);
      WrapAdd(init + |log.events|, count);
      nextToPublish := Add(first, count);
      available := available - count;
      log := log.Publish(count, writer);
      published := nextToPublish;
      producerState := Idle;
      return true;
    }

    /** Indexed consumption. */
    method ConsumeAvailable(i: nat, max: nat) returns (handled: seq<(E, u64)>)
      requires Shape()
      modifies consumers, this`log
      ensures Shape() && (old(Valid()) ==> Valid())
      ensures handled == old(log).Handed(i, max)
      ensures log == old(log).Consume(i, max)
      // all that waits, or as much as was asked for
      ensures i < |old(log.cursors)| ==> |handled| <= max && (|handled| == max || log.cursors[i] == |log.events|)
    {
      hide And, RingAfter, Wrap, Add, Sub;
      handled := [];
      if i >= consumers.Length || max == 0 {
        return;
      }
      var first := consumers[i];
      var availableCount := Sub(published, first);
      WrapSub(init + |log.events|, init + log.cursors[i]);
      if availableCount == 0 {
        return;
      }
      var count := if availableCount < max then availableCount else max;
      handled := ReadMasked(events, first, count, blank, init, log.events, log.cursors[i]);
      WrapAdd(init + log.cursors[i], count);
      consumers[i] := Add(first, count);
      log := log.Consume(i, max);
    }
  }

  /**
   The capacity rescan of both publication paths: the hinted consumer first, then all others.  On
   success the new cache is exact and the hint names a slowest consumer; on failure the hint names a
   consumer that is really too far behind.
   */
  method RefreshAvailableCapacity<E>(ghost log: Log<E>, capacity: nat, consumers: array<u64>, next: u64,
                                     required: nat, available: nat, blocker: nat)
    returns (ok: bool, available': nat, blocker': nat)
    requires log.Valid() && log.cap == capacity && 0 < required <= capacity && CacheValid(log, available, blocker)
    requires next == Wrap(log.init + |log.events|) && consumers.Length == |log.cursors|
    requires forall i :: 0 <= i < consumers.Length ==> consumers[i] == Wrap(log.init + log.cursors[i])
    ensures ok == log.Accepts(required)
    ensures CacheValid(log, available', blocker')
    ensures ok ==> available' == log.cap - (|log.events| - log.cursors[blocker'])
    ensures ok ==> forall i :: 0 <= i < |log.cursors| ==> log.cursors[blocker'] <= log.cursors[i]
    ensures !ok ==> available' == available && log.cursors[blocker'] + log.cap < |log.events| + required
  {
    available', blocker' := available, blocker;
    var maximumLag := capacity - required;
    var greatestLag: nat := Sub(next, consumers[blocker]);
    WrapSub(log.init + |log.events|, log.init + log.cursors[blocker]);
    if greatestLag > maximumLag {
      return false, available', blocker';
    }
    var greatestLagIndex := blocker;
    var index := 0;
    while index < consumers.Length
      invariant 0 <= index <= consumers.Length
      invariant greatestLagIndex < |log.cursors|
      invariant greatestLag == |log.events| - log.cursors[greatestLagIndex] <= maximumLag
      invariant forall j :: 0 <= j < |log.cursors| && (j < index || j == blocker)
                  ==> log.cursors[greatestLagIndex] <= log.cursors[j]
    {
      if index != blocker {
        var lag := Sub(next, consumers[index]);
        WrapSub(log.init + |log.events|, log.init + log.cursors[index]);
        if lag > maximumLag {
          return false, available', index;
        }
        if lag > greatestLag {
          greatestLag, greatestLagIndex := lag, index;
        }
      }
      index := index + 1;
    }
    return true, capacity - greatestLag, greatestLagIndex;
  }

  /** The producer's private cursor, capacity cache and blocker hint. */
  class ProducerHandle<E> {
    var owner: SingleProducerDisruptor?<E>
    var nextToPublish: u64
    var available: nat
    var blocker: nat

    /** A live handle holds the producer state; a moved-from one has no owner. */
    ghost predicate Live()
      reads this, owner, if owner == null then {} else {owner.events, owner.consumers}
    {
      && owner != null && owner.Shape() && owner.producerState == Handle
      && nextToPublish == owner.published && CacheValid(owner.log, available, blocker)
    }

    constructor (owner: SingleProducerDisruptor<E>)
      requires owner.Valid()
      modifies owner`producerState
      ensures Live() && this.owner == owner
      ensures nextToPublish == owner.nextToPublish && available == owner.available && blocker == owner.blocker
    {
      this.owner := owner;
      nextToPublish, available, blocker := owner.nextToPublish, owner.available, owner.blocker;
      new;
      owner.producerState := Handle;
    }

    /** Moving leaves the source without an owner. */
    constructor Move(other: ProducerHandle<E>)
      modifies other`owner
      ensures owner == old(other.owner) && other.owner == null
      ensures old(other.Live()) ==> Live()
      ensures nextToPublish == old(other.nextToPublish) && available == old(other.available) && blocker == old(other.blocker)
    {
      owner := other.owner;
      nextToPublish, available, blocker := other.nextToPublish, other.available, other.blocker;
      new;
      other.owner := null;
    }

    /** The destructor: synchronizes the owner, or does nothing for a moved-from handle. */
    method Destroy()
      requires owner == null || Live()
      modifies if owner == null then {} else {owner}
      ensures old(owner) != null ==> old(owner).Valid() && old(owner).log == old(owner.log)
      ensures old(owner) != null ==>
                && old(owner).nextToPublish == nextToPublish && old(owner).available == available
                && old(owner).blocker == blocker && old(owner).producerState == Idle
    {
      if owner == null {
        return;
      }
      owner.nextToPublish := nextToPublish;
      owner.available := available;
      owner.blocker := blocker;
      owner.producerState := Idle;
    }

    /** The same decision on the handle's private cache. */
    method Reserve(count: nat) returns (ok: bool)
      requires Live() && 0 < count <= owner.capacity
      modifies this`available, this`blocker
      ensures Live() && ok == owner.log.Accepts(count) && (ok ==> count <= available)
      ensures !ok || count <= old(available) ==> available == old(available)
      ensures count <= old(available) ==> blocker == old(blocker)
      ensures ok && count > old(available) ==>
                && available == owner.capacity - (|owner.log.events| - owner.log.cursors[blocker])
                && forall i :: 0 <= i < |owner.log.cursors| ==> owner.log.cursors[blocker] <= owner.log.cursors[i]
      ensures !ok ==> owner.log.cursors[blocker] + owner.capacity < |owner.log.events| + count
    {
      hide And, RingAfter, Wrap, ValidCapacity;
      ok := true;
      if count > available {
        ok, available, blocker := RefreshAvailableCapacity(
          owner.log, owner.capacity, owner.consumers, nextToPublish, count, available, blocker);
      }
    }

    /** Handle publication: two contiguous spans of the ring. */
    method TryPublishBatch(count: nat, writer: nat -> E) returns (ok: bool)
      requires Live()
      modifies this`nextToPublish, this`available, this`blocker
      modifies owner`published, owner`producerState, owner`log, owner.events
      ensures Live() && owner == old(owner)
      ensures ok == old(owner.log).Accepts(count)
      ensures owner.log == old(owner.log).Publish(count, writer)
      ensures !ok || count == 0 ==> available == old(available)
      ensures count <= old(available) || count > owner.capacity ==> blocker == old(blocker)
      ensures ok && count <= old(available) ==> available == old(available) - count
      ensures ok && count > old(available) ==>
                && available == owner.capacity - (|owner.log.events| - owner.log.cursors[blocker])
                && forall i :: 0 <= i < |owner.log.cursors| ==> owner.log.cursors[blocker] <= owner.log.cursors[i]
      ensures !ok && count <= owner.capacity ==> owner.log.cursors[blocker] + owner.capacity < |owner.log.events| + count
    {
      hide And, ValidCapacity, RingAfter, Wrap, Add;
      if count == 0 {
        assert owner.log.Publish(count, writer).events == owner.log.events;
        return true;
      }
      if count > owner.capacity {
        assert owner.log.cursors[0] <= |owner.log.events|;
        return false;
      }
      var reserved := Reserve(count);
      if !reserved {
        return false;
      }
      owner.producerState := HandlePublishing;
      var first := nextToPublish;
      WriteTwoSpan(owner.events, first, count, writer, owner.blank, owner.init, owner.log.events);
      WrapAdd(owner.init + |owner.log.events|, count);
      nextToPublish := Add(first, count);
      available := available - count;
      owner.log := owner.log.Publish(count, writer);
      owner.published := nextToPublish;
      owner.producerState := Handle;
      return true;
    }
  }

  /** A consumer's private position and its last acquired publication boundary. */
  class ConsumerHandle<E> {
    const owner: SingleProducerDisruptor<E>
    const index: nat
    var nextPosition: u64
    var cachedPublishedPosition: u64
    ghost var cached: nat

    ghost predicate Valid()
      reads this, owner, owner.events, owner.consumers
    {
      && owner.Shape() && index < |owner.log.cursors|
      && nextPosition == Wrap(owner.init + owner.log.cursors[index])
      && owner.log.cursors[index] <= cached <= |owner.log.events|
      && cachedPublishedPosition == Wrap(owner.init + cached)
    }

    constructor (owner: SingleProducerDisruptor<E>, index: nat)
      requires owner.Shape() && index < owner.consumers.Length
      ensures Valid() && this.owner == owner && this.index == index && cached == owner.log.cursors[index]
    {
      this.owner, this.index := owner, index;
      nextPosition := owner.consumers[index];
      cachedPublishedPosition := owner.consumers[index];
      cached := owner.log.cursors[index];
    }

    /** The batch may be cut short by the cached boundary, but is empty only when nothing new was published. */
    method ConsumeAvailable(max: nat) returns (handled: seq<(E, u64)>)
      requires Valid()
      modifies this, owner.consumers, owner`log
      ensures Valid() && (old(owner.Valid()) ==> owner.Valid())
      ensures handled == Slice(owner.init, old(owner.log.events), old(owner.log.cursors[index]), |handled|)
      ensures owner.log == old(owner.log).Consume(index, |handled|)
      ensures |handled| <= old(owner.log).Takes(index, max)
      ensures handled == [] <==> old(owner.log).Takes(index, max) == 0
      ensures |handled| == old(owner.log).CachedTakes(index, old(cached), max)
      ensures cached == old(owner.log).BoundaryAfter(index, old(cached), max)
      // all up to the cached boundary while that is ahead, else all that waits, or as much as was asked for
      ensures cached == if max > 0 && old(cached) == old(owner.log.cursors[index]) then |owner.log.events| else old(cached)
      ensures |handled| <= max && (|handled| == max || owner.log.cursors[index] == cached)
    {
      hide And, RingAfter, Wrap, Add, Sub;
      handled := [];
      if max == 0 {
        return;
      }
      var availableCount := Sub(cachedPublishedPosition, nextPosition);
      WrapSub(owner.init + cached, owner.init + owner.log.cursors[index]);
      if availableCount == 0 {
        cachedPublishedPosition := owner.published;
        cached := |owner.log.events|;
        availableCount := Sub(cachedPublishedPosition, nextPosition);
        WrapSub(owner.init + cached, owner.init + owner.log.cursors[index]);
        if availableCount == 0 {
          return;
        }
      }
      var count := if availableCount < max then availableCount else max;
      handled := Deliver(count);
    }

    /** The two read loops and the release store of one non-empty call. */
    method Deliver(count: nat) returns (handled: seq<(E, u64)>)
      requires Valid() && 0 < count && owner.log.cursors[index] + count <= cached
      modifies this`nextPosition, owner.consumers, owner`log
      ensures Valid() && (old(owner.Valid()) ==> owner.Valid())
      ensures handled == Slice(owner.init, old(owner.log.events), old(owner.log.cursors[index]), count)
      ensures |handled| == count && owner.log == old(owner.log).Consume(index, count)
    {
      hide And, ValidCapacity, RingAfter, Wrap, Add;
      ghost var from := owner.log.cursors[index];
      handled := ReadTwoSpan(owner.events, nextPosition, count, owner.blank, owner.init, owner.log.events, from);
      WrapAdd(owner.init + from, count);
      nextPosition := Add(nextPosition, count);
      owner.consumers[index] := nextPosition;
      owner.log := owner.log.Consume(index, count);
    }
  }
}
