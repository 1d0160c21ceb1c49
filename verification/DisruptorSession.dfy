/**
 Whole sessions on one disruptor.  A session may publish directly or through producer handles that are
 made, moved and destroyed, and every consumer may take events by index or through handles of its own, in
 any legal order.  It is indistinguishable from direct publication and indexed consumption alone.
 */
module DisruptorSession {
  import opened Words
  import opened Options
  import opened DisruptorLog
  import opened DisruptorHistory
  import opened Disruptor

  datatype Op<E> =
    | Publish(count: nat, writer: nat -> E)   // on the live handle if there is one, else directly
    | MakeProducer | MoveProducer | DestroyProducer | DestroyMoved
    | Consume(i: nat, max: nat)               // indexed
    | MakeConsumer(i: nat) | DropConsumer(i: nat)
    | Take(i: nat, max: nat)                  // on the live handle of consumer i

  predicate IsPublisherOp<E>(op: Op<E>) {
    op.Publish? || op.MakeProducer? || op.MoveProducer? || op.DestroyProducer? || op.DestroyMoved?
  }

  // ----- legal sessions -----

  datatype Paths = Illegal | Legal(producer: bool, live: set<nat>)

  function Next<E>(n: nat, paths: Paths, op: Op<E>): Paths {
    match paths
    case Illegal => Illegal
    case Legal(producer, live) =>
      match op
      case MakeProducer => if producer then Illegal else Legal(true, live)
      case MoveProducer => if producer then paths else Illegal
      case DestroyProducer => if producer then Legal(false, live) else Illegal
      case MakeConsumer(i) => if i in live || i >= n then Illegal else Legal(producer, live + {i})
      case DropConsumer(i) => if i in live then Legal(producer, live - {i}) else Illegal
      case Take(i, _) => if i in live then paths else Illegal
      case Consume(i, _) => if i in live then Illegal else paths
      case _ => paths
  }

  /** One publication path at a time, and one consumption path per consumer. */
  function PathsAfter<E>(n: nat, script: seq<Op<E>>): Paths {
    if script == [] then Legal(false, {}) else
      Next(n, PathsAfter(n, script[..|script| - 1]), script[|script| - 1])
  }

  lemma {:induction false} LegalPrefix<E>(n: nat, script: seq<Op<E>>, k: nat)
    requires k <= |script| && PathsAfter(n, script) != Illegal
    ensures PathsAfter(n, script[..k]) != Illegal
  {
    if k < |script| {
      LegalPrefix(n, script[..|script| - 1], k);
      assert script[..|script| - 1][..k] == script[..k];
    } else {
      assert script[..k] == script;
    }
  }

  /** Use of the paths that are open, as often as wanted, is legal and leaves them open. */
  lemma {:induction false} OpenPathsStayOpen<E>(n: nat, script: seq<Op<E>>, uses: seq<Op<E>>)
    requires PathsAfter(n, script).Legal?
    requires forall u :: u in uses ==>
               || u.Publish? || u.DestroyMoved? || (u.MoveProducer? && PathsAfter(n, script).producer)
               || (u.Take? && u.i in PathsAfter(n, script).live) || (u.Consume? && u.i !in PathsAfter(n, script).live)
    ensures PathsAfter(n, script + uses) == PathsAfter(n, script)
    decreases |uses|
  {
    if uses == [] {
      assert script + uses == script;
    } else {
      var k := |uses| - 1;
      OpenPathsStayOpen(n, script, uses[..k]);
      assert (script + uses)[..|script| + k] == script + uses[..k];
      assert uses[k] in uses;
    }
  }

  /** Opening a path that is closed and closing it again is legal, for the producer and for every consumer. */
  lemma PathsOpenAndClose<E>(n: nat, script: seq<Op<E>>, i: nat)
    requires PathsAfter(n, script).Legal?
    ensures var paths := PathsAfter(n, script);
            && (!paths.producer ==>
                  && PathsAfter(n, script + [MakeProducer]) == Legal(true, paths.live)
                  && PathsAfter(n, script + [MakeProducer] + [DestroyProducer]) == paths)
            && (i < n && i !in paths.live ==>
                  && PathsAfter(n, script + [MakeConsumer(i)]) == Legal(paths.producer, paths.live + {i})
                  && PathsAfter(n, script + [MakeConsumer(i)] + [DropConsumer(i)]) == paths)
  {
    hide PathsAfter;
    var live := PathsAfter(n, script).live;
    assert i !in live ==> live + {i} - {i} == live;
    OneMore(n, script, MakeProducer);
    OneMore(n, script + [MakeProducer], DestroyProducer);
    OneMore(n, script, MakeConsumer(i));
    OneMore(n, script + [MakeConsumer(i)], DropConsumer(i));
  }

  lemma OneMore<E>(n: nat, script: seq<Op<E>>, op: Op<E>)
    ensures PathsAfter(n, script + [op]) == Next(n, PathsAfter(n, script), op)
  {
    assert (script + [op])[..|script|] == script;
  }

  // ----- what a session amounts to -----

  /** The plain operations of a session so far, and the boundary each live consumer handle has cached. */
  datatype Session<E> = Session(plain: seq<Plain<E>>, boundaries: seq<Option<nat>>)

  function BoundaryOf(boundaries: seq<Option<nat>>, i: nat): nat {
    if i < |boundaries| && boundaries[i].Some? then boundaries[i].value else 0
  }

  /** Only publications and takes leave a trace; a take is cut short where the cached boundary ends. */
  function PlainOf<E>(log: Log<E>, boundaries: seq<Option<nat>>, op: Op<E>): seq<Plain<E>> {
    match op
    case Publish(count, writer) => [Direct(count, writer)]
    case Consume(i, max) => [Indexed(i, max)]
    case Take(i, max) => [Indexed(i, log.CachedTakes(i, BoundaryOf(boundaries, i), max))]
    case _ => []
  }

  function BoundariesAfter<E>(log: Log<E>, boundaries: seq<Option<nat>>, op: Op<E>): seq<Option<nat>> {
    match op
    case MakeConsumer(i) =>
      if i < |boundaries| && i < |log.cursors| then boundaries[i := Some(log.cursors[i])] else boundaries
    case DropConsumer(i) => if i < |boundaries| then boundaries[i := None] else boundaries
    case Take(i, max) =>
      if i < |boundaries| then boundaries[i := Some(log.BoundaryAfter(i, BoundaryOf(boundaries, i), max))] else boundaries
    case _ => boundaries
  }

  function NoHandles(n: nat): seq<Option<nat>> {
    seq(n, _ => None)
  }

  function Translate<E>(log: Log<E>, script: seq<Op<E>>): Session<E> {
    if script == [] then Session([], NoHandles(|log.cursors|)) else
      var s := Translate(log, script[..|script| - 1]);
      var now := Play(log, s.plain).log;
      Session(s.plain + PlainOf(now, s.boundaries, script[|script| - 1]),
              BoundariesAfter(now, s.boundaries, script[|script| - 1]))
  }

  // ----- the cached boundaries -----

  /** Live handles have a boundary between their consumer's position and the publications. */
  ghost predicate BoundariesFit<E>(log: Log<E>, boundaries: seq<Option<nat>>, live: set<nat>) {
    && |boundaries| == |log.cursors|
    && forall i :: 0 <= i < |boundaries| ==>
         && (i in live <==> boundaries[i].Some?) && log.cursors[i] <= |log.events|
         && (boundaries[i].Some? ==> log.cursors[i] <= boundaries[i].value <= |log.events|)
  }

  lemma BoundariesStep<E>(log: Log<E>, boundaries: seq<Option<nat>>, n: nat, paths: Paths, op: Op<E>)
    requires paths.Legal? && n == |log.cursors| && BoundariesFit(log, boundaries, paths.live)
    requires Next(n, paths, op).Legal?
    ensures var plain := PlainOf(log, boundaries, op);
            var after := Play(log, plain).log;
            BoundariesFit(after, BoundariesAfter(log, boundaries, op), Next(n, paths, op).live) && |after.cursors| == n
  {
    if PlainOf(log, boundaries, op) != [] {
      assert PlainOf(log, boundaries, op)[..0] == [];
    }
  }

  /** One outcome after another. */
  function Then<E>(o: Outcome<E>, more: Outcome<E>): Outcome<E> {
    Outcome(more.log, o.accepted + more.accepted, o.handed + more.handed)
  }

  lemma PlayAppend<E>(log: Log<E>, plain: seq<Plain<E>>, more: seq<Plain<E>>)
    requires |more| <= 1
    ensures Play(log, plain + more) == Then(Play(log, plain), Play(Play(log, plain).log, more))
  {
    if more == [] {
      assert plain + more == plain;
    } else {
      assert more[..0] == [];
      PlayOne(log, plain, more[0]);
      assert plain + [more[0]] == plain + more;
    }
  }

  /** The plain form one operation later. */
  lemma TranslateStep<E>(log: Log<E>, script: seq<Op<E>>)
    requires script != []
    ensures var s, op := Translate(log, script[..|script| - 1]), script[|script| - 1];
            var o := Play(log, s.plain);
            && Translate(log, script).boundaries == BoundariesAfter(o.log, s.boundaries, op)
            && Play(log, Translate(log, script).plain) == Then(o, Play(o.log, PlainOf(o.log, s.boundaries, op)))
  {
    hide Play, PlainOf, BoundariesAfter;
    var s, op := Translate(log, script[..|script| - 1]), script[|script| - 1];
    OneAtMost(Play(log, s.plain).log, s.boundaries, op);
    PlayAppend(log, s.plain, PlainOf(Play(log, s.plain).log, s.boundaries, op));
  }

  lemma {:induction false} SessionFits<E>(log: Log<E>, script: seq<Op<E>>)
    requires log.Valid() && PathsAfter(|log.cursors|, script).Legal?
    ensures var s := Translate(log, script);
            var now := Play(log, s.plain).log;
            |now.cursors| == |log.cursors| && BoundariesFit(now, s.boundaries, PathsAfter(|log.cursors|, script).live)
  {
    hide PlainOf, BoundariesAfter, Next, ValidCapacity;
    if script != [] {
      var before, op := script[..|script| - 1], script[|script| - 1];
      LegalBefore(|log.cursors|, script);
      SessionFits(log, before);
      var s := Translate(log, before);
      var now := Play(log, s.plain).log;
      BoundariesStep(now, s.boundaries, |log.cursors|, PathsAfter(|log.cursors|, before), op);
      OneAtMost(now, s.boundaries, op);
      PlayAppend(log, s.plain, PlainOf(now, s.boundaries, op));
    }
  }

  lemma OneAtMost<E>(log: Log<E>, boundaries: seq<Option<nat>>, op: Op<E>)
    ensures |PlainOf(log, boundaries, op)| <= 1
  {}

  lemma LegalBefore<E>(n: nat, script: seq<Op<E>>)
    requires script != [] && PathsAfter(n, script).Legal?
    ensures PathsAfter(n, script[..|script| - 1]).Legal?
  {}

  /**
   At any point of a legal session, a take through a handle gets no more than indexed consumption would,
   and with a positive maximum it gets nothing only when nothing was waiting.
   */
  lemma TakesAreFair<E>(log: Log<E>, script: seq<Op<E>>, i: nat, max: nat)
    requires log.Valid() && PathsAfter(|log.cursors|, script + [Take(i, max)]).Legal?
    ensures var s := Translate(log, script);
            var now := Play(log, s.plain).log;
            var got := now.CachedTakes(i, BoundaryOf(s.boundaries, i), max);
            && PlainOf(now, s.boundaries, Take(i, max)) == [Indexed(i, got)] && now.Takes(i, got) == got
            && got <= now.Takes(i, max) && (got == 0 <==> now.Takes(i, max) == 0)
  {
    hide ValidCapacity, Translate, Play;
    assert (script + [Take(i, max)])[..|script|] == script;
    SessionFits(log, script);
  }

  // ----- the real objects -----

  /** The publication path in use. */
  ghost predicate ProducerFits<E>(d: SingleProducerDisruptor<E>, producer: ProducerHandle?<E>)
    reads d, d.events, d.consumers, producer
  {
    if producer == null then d.Valid() else producer.owner == d && producer.Live()
  }

  /** handles[i] is the live handle of consumer i, or null. */
  ghost predicate HandlesFit<E>(d: SingleProducerDisruptor<E>, handles: seq<ConsumerHandle?<E>>, boundaries: seq<Option<nat>>)
    reads d, d.events, d.consumers, handles
  {
    && d.Shape() && |handles| == |boundaries| == |d.log.cursors|
    && forall i :: 0 <= i < |handles| ==> HandleFits(d, handles[i], i, boundaries[i])
  }

  ghost predicate HandleFits<E>(d: SingleProducerDisruptor<E>, handle: ConsumerHandle?<E>, i: nat, boundary: Option<nat>)
    reads d, d.events, d.consumers, handle
  {
    if handle == null then boundary.None?
    else handle.owner == d && handle.index == i && handle.Valid() && boundary == Some(handle.cached)
  }

  /** A publication on the path in use. */
  method PublishOn<E>(d: SingleProducerDisruptor<E>, producer: ProducerHandle?<E>, count: nat, writer: nat -> E,
                      ghost handles: seq<ConsumerHandle?<E>>, ghost boundaries: seq<Option<nat>>)
    returns (ok: bool)
    requires ProducerFits(d, producer) && HandlesFit(d, handles, boundaries)
    modifies d, d.events, producer
    ensures ProducerFits(d, producer) && HandlesFit(d, handles, boundaries)
    ensures d.log == old(d.log).Publish(count, writer) && ok == old(d.log).Accepts(count)
  {
    hide ValidCapacity, RingAfter, And, Wrap;
    if producer == null {
      ok := d.TryPublishBatch(count, writer);
    } else {
      ok := producer.TryPublishBatch(count, writer);
    }
  }

  /** A publication or a producer-handle operation. */
  method PerformPublisher<E>(d: SingleProducerDisruptor<E>, producer: ProducerHandle?<E>, moved: ProducerHandle?<E>, op: Op<E>,
                             ghost handles: seq<ConsumerHandle?<E>>, ghost boundaries: seq<Option<nat>>)
    returns (producer': ProducerHandle?<E>, moved': ProducerHandle?<E>, accepted: seq<bool>)
    requires IsPublisherOp(op) && ProducerFits(d, producer) && HandlesFit(d, handles, boundaries)
    requires moved != null ==> moved.owner == null && moved != producer
    requires op.MakeProducer? ==> producer == null
    requires op.MoveProducer? || op.DestroyProducer? ==> producer != null
    modifies d, d.events, producer
    ensures ProducerFits(d, producer') && HandlesFit(d, handles, BoundariesAfter(old(d.log), boundaries, op))
    ensures moved' != null ==> moved'.owner == null && moved' != producer'
    ensures producer' == producer || producer' == null || fresh(producer')
    ensures producer' == null <==> (producer == null && !op.MakeProducer?) || op.DestroyProducer?
    ensures Outcome(d.log, accepted, []) == Play(old(d.log), PlainOf(old(d.log), boundaries, op))
  {
    hide ValidCapacity, RingAfter, And, Wrap;
    producer', moved', accepted := producer, moved, [];
    assert forall p: Plain<E> :: [p][..0] == [];
    if op.Publish? {
      var ok := PublishOn(d, producer, op.count, op.writer, handles, boundaries);
      accepted := [ok];
    } else if op.MakeProducer? {
      producer' := new ProducerHandle(d);
    } else if op.MoveProducer? {
      producer' := new ProducerHandle.Move(producer);
      moved' := producer;
    } else if op.DestroyProducer? {
      producer.Destroy();
      producer' := null;
    } else {
      if moved != null {
        moved.Destroy();
      }
    }
  }

  /** A take or a consumer-handle operation. */
  method PerformReader<E>(d: SingleProducerDisruptor<E>, ghost producer: ProducerHandle?<E>, op: Op<E>,
                          handles: seq<ConsumerHandle?<E>>, ghost boundaries: seq<Option<nat>>)
    returns (handles': seq<ConsumerHandle?<E>>, handed: seq<(nat, seq<(E, u64)>)>)
    requires !IsPublisherOp(op) && ProducerFits(d, producer) && HandlesFit(d, handles, boundaries)
    requires op.MakeConsumer? ==> op.i < |handles| && handles[op.i] == null
    requires op.DropConsumer? || op.Take? ==> op.i < |handles| && handles[op.i] != null
    requires op.Consume? && op.i < |handles| ==> handles[op.i] == null
    modifies d`log, d.consumers, handles
    ensures ProducerFits(d, producer) && HandlesFit(d, handles', BoundariesAfter(old(d.log), boundaries, op))
    ensures forall i :: 0 <= i < |handles'| && handles'[i] != null ==> handles'[i] in handles || fresh(handles'[i])
    ensures Outcome(d.log, [], handed) == Play(old(d.log), PlainOf(old(d.log), boundaries, op))
  {
    hide ValidCapacity, RingAfter, And, Wrap;
    handles', handed := handles, [];
    assert forall p: Plain<E> :: [p][..0] == [];
    if op.MakeConsumer? {
      var handle := new ConsumerHandle(d, op.i);
      handles' := handles[op.i := handle];
    } else if op.DropConsumer? {
      handles' := handles[op.i := null];
    } else if op.Take? {
      var more := handles[op.i].ConsumeAvailable(op.max);
      handed := [(op.i, more)];
    } else {
      var more := d.ConsumeAvailable(op.i, op.max);
      handed := [(op.i, more)];
    }
  }

  /** The handles that exist are those the rules say are live. */
  ghost predicate Tracks<E>(paths: Paths, producer: ProducerHandle?<E>, handles: seq<ConsumerHandle?<E>>) {
    && paths.Legal? && paths.producer == (producer != null)
    && forall i :: 0 <= i < |handles| ==> (i in paths.live <==> handles[i] != null)
  }

  /** One operation of a legal session. */
  method Perform<E>(d: SingleProducerDisruptor<E>, producer: ProducerHandle?<E>, moved: ProducerHandle?<E>,
                    handles: seq<ConsumerHandle?<E>>, op: Op<E>, ghost boundaries: seq<Option<nat>>, ghost paths: Paths)
    returns (producer': ProducerHandle?<E>, moved': ProducerHandle?<E>, handles': seq<ConsumerHandle?<E>>,
             accepted: seq<bool>, handed: seq<(nat, seq<(E, u64)>)>)
    requires ProducerFits(d, producer) && HandlesFit(d, handles, boundaries) && Tracks(paths, producer, handles)
    requires moved != null ==> moved.owner == null && moved != producer
    requires Next(|handles|, paths, op).Legal? && forall i :: i in paths.live ==> i < |handles|
    modifies d, d.events, d.consumers, producer, handles
    ensures ProducerFits(d, producer') && HandlesFit(d, handles', BoundariesAfter(old(d.log), boundaries, op))
    ensures Tracks(Next(|handles|, paths, op), producer', handles') && |handles'| == |handles|
    ensures moved' != null ==> moved'.owner == null && moved' != producer'
    ensures producer' == producer || producer' == null || fresh(producer')
    ensures forall i :: 0 <= i < |handles'| && handles'[i] != null ==> handles'[i] in handles || fresh(handles'[i])
    ensures Outcome(d.log, accepted, handed) == Play(old(d.log), PlainOf(old(d.log), boundaries, op))
  {
    producer', moved', handles', accepted, handed := producer, moved, handles, [], [];
    if IsPublisherOp(op) {
      producer', moved', accepted := PerformPublisher(d, producer, moved, op, handles, boundaries);
    } else {
      handles', handed := PerformReader(d, producer, op, handles, boundaries);
    }
  }

  lemma {:induction false} LiveInRange<E>(n: nat, script: seq<Op<E>>)
    ensures PathsAfter(n, script).Legal? ==> forall i :: i in PathsAfter(n, script).live ==> i < n
  {
    if script != [] {
      LiveInRange(n, script[..|script| - 1]);
    }
  }

  /** With no handle yet, everything fits. */
  lemma StartFits<E>(d: SingleProducerDisruptor<E>)
    requires d.Valid()
    ensures ProducerFits(d, null)
    ensures Translate<E>(d.log, []) == Session([], NoHandles(|d.log.cursors|)) && Play<E>(d.log, []) == Outcome(d.log, [], [])
    ensures HandlesFit(d, seq(|d.log.cursors|, _ => null), NoHandles(|d.log.cursors|))
  {}

  /** What the invariants say of the object itself. */
  lemma FitsMeans<E>(d: SingleProducerDisruptor<E>, producer: ProducerHandle?<E>)
    requires ProducerFits(d, producer)
    ensures d.events[..] == RingAfter(d.blank, d.init, d.log.events) && d.published == Wrap(d.init + |d.log.events|)
    ensures producer == null ==> d.Valid() && d.nextToPublish == d.published
  {}

  /**
   Any legal session gives the results, the deliveries, the ring and the published position that its plain
   form gives, and with no producer handle left the owner's state is restored.
   */
  method Run<E>(d: SingleProducerDisruptor<E>, script: seq<Op<E>>)
    returns (accepted: seq<bool>, handed: seq<(nat, seq<(E, u64)>)>)
    requires d.Valid() && PathsAfter(|d.log.cursors|, script).Legal?
    modifies d, d.events, d.consumers
    ensures Outcome(d.log, accepted, handed) == Play(old(d.log), Translate(old(d.log), script).plain)
    ensures d.events[..] == RingAfter(d.blank, d.init, d.log.events)
    ensures d.published == Wrap(d.init + |d.log.events|)
    ensures !PathsAfter(|old(d.log).cursors|, script).producer ==> d.Valid() && d.nextToPublish == d.published
    ensures forall i :: 0 <= i < |old(d.log).cursors| ==> DeliveredFrom(old(d.log), Outcome(d.log, accepted, handed), i)
  {
    hide ValidCapacity, RingAfter, And, Wrap, Play, Translate, PlainOf, BoundariesAfter, Next, HandlesFit, ProducerFits;
    StartFits(d);
    ghost var start, n := d.log, |d.log.cursors|;
    accepted, handed := [], [];
    var producer: ProducerHandle?<E>, moved: ProducerHandle?<E> := null, null;
    var handles: seq<ConsumerHandle?<E>> := seq(d.consumers.Length, _ => null);
    for k := 0 to |script|
      invariant ProducerFits(d, producer) && (producer != null ==> fresh(producer))
      invariant moved != null ==> moved.owner == null && moved != producer
      invariant |handles| == n && HandlesFit(d, handles, Translate(start, script[..k]).boundaries)
      invariant forall i :: 0 <= i < |handles| && handles[i] != null ==> fresh(handles[i])
      invariant Tracks(PathsAfter(n, script[..k]), producer, handles)
      invariant Outcome(d.log, accepted, handed) == Play(start, Translate(start, script[..k]).plain)
    {
      LegalPrefix(n, script, k + 1);
      LiveInRange(n, script[..k]);
      assert script[..k + 1][..k] == script[..k];
      TranslateStep(start, script[..k + 1]);
      ghost var boundaries := Translate(start, script[..k]).boundaries;
      var moreAccepted, moreHanded;
      producer, moved, handles, moreAccepted, moreHanded :=
        Perform(d, producer, moved, handles, script[k], boundaries, PathsAfter(n, script[..k]));
      accepted, handed := accepted + moreAccepted, handed + moreHanded;
    }
    assert script[..|script|] == script;
    FitsMeans(d, producer);
    forall i | 0 <= i < n
      ensures DeliveredFrom(start, Outcome(d.log, accepted, handed), i)
    {
      DeliveriesAreTheLog(start, Translate(start, script).plain, i);
    }
  }
}
