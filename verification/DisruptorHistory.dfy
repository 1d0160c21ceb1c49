/** Histories of whole operations on the log: direct publication and indexed consumption, one after the other. */
module DisruptorHistory {
  import opened Words
  import opened DisruptorLog

  datatype Plain<E> = Direct(count: nat, writer: nat -> E) | Indexed(i: nat, max: nat)

  datatype Outcome<E> = Outcome(log: Log<E>, accepted: seq<bool>, handed: seq<(nat, seq<(E, u64)>)>)

  function PlayNext<E>(o: Outcome<E>, p: Plain<E>): Outcome<E> {
    match p
    case Direct(count, writer) =>
      o.(log := o.log.Publish(count, writer), accepted := o.accepted + [o.log.Accepts(count)])
    case Indexed(i, max) =>
      o.(log := o.log.Consume(i, max), handed := o.handed + [(i, o.log.Handed(i, max))])
  }

  function Play<E>(log: Log<E>, plain: seq<Plain<E>>): Outcome<E> {
    if plain == [] then Outcome(log, [], []) else PlayNext(Play(log, plain[..|plain| - 1]), plain[|plain| - 1])
  }

  lemma PlayOne<E>(log: Log<E>, plain: seq<Plain<E>>, p: Plain<E>)
    ensures Play(log, plain + [p]) == PlayNext(Play(log, plain), p)
  {
    assert (plain + [p])[..|plain|] == plain;
  }

  // ----- what a history delivers -----

  /** Everything consumer i has been handed. */
  function FromConsumer<E>(handed: seq<(nat, seq<(E, u64)>)>, i: nat): seq<(E, u64)> {
    if handed == [] then [] else
      var last := handed[|handed| - 1];
      FromConsumer(handed[..|handed| - 1], i) + if last.0 == i then last.1 else []
  }

  /** Since the log was `log`, consumer i has been handed exactly the events it moved past. */
  ghost predicate DeliveredFrom<E>(log: Log<E>, o: Outcome<E>, i: nat) {
    && i < |log.cursors| == |o.log.cursors| && o.log.init == log.init && log.events <= o.log.events
    && log.cursors[i] <= o.log.cursors[i] <= |o.log.events|
    && FromConsumer(o.handed, i) == Slice(log.init, o.log.events, log.cursors[i], o.log.cursors[i] - log.cursors[i])
  }

  lemma FromConsumerOne<E>(handed: seq<(nat, seq<(E, u64)>)>, j: nat, more: seq<(E, u64)>, i: nat)
    ensures FromConsumer(handed + [(j, more)], i) == FromConsumer(handed, i) + if j == i then more else []
  {
    assert (handed + [(j, more)])[..|handed|] == handed;
  }

  lemma DeliverNext<E>(log: Log<E>, o: Outcome<E>, p: Plain<E>, i: nat)
    requires DeliveredFrom(log, o, i)
    ensures DeliveredFrom(log, PlayNext(o, p), i)
  {
    hide Wrap, Slice, FromConsumer;
    var from, to := log.cursors[i], o.log.cursors[i];
    if p.Direct? {
      var after := o.log.Publish(p.count, p.writer);
      assert o.log.events + after.events[|o.log.events|..] == after.events;
      SliceOfPrefix(log.init, o.log.events, after.events[|o.log.events|..], from, to - from);
    } else {
      FromConsumerOne(o.handed, p.i, o.log.Handed(p.i, p.max), i);
      if p.i == i {
        SliceConcat(log.init, o.log.events, from, to - from, o.log.Takes(i, p.max));
      }
    }
  }

  /** Whatever the others do, a consumer is handed exactly the log from where it stood to where it stands. */
  lemma {:induction false} DeliveriesAreTheLog<E>(log: Log<E>, plain: seq<Plain<E>>, i: nat)
    requires i < |log.cursors| && log.cursors[i] <= |log.events|
    ensures DeliveredFrom(log, Play(log, plain), i)
  {
    hide Slice, FromConsumer, PlayNext;
    if plain == [] {
      NothingDelivered(log, i);
    } else {
      DeliveriesAreTheLog(log, plain[..|plain| - 1], i);
      DeliverNext(log, Play(log, plain[..|plain| - 1]), plain[|plain| - 1], i);
    }
  }

  lemma NothingDelivered<E>(log: Log<E>, i: nat)
    requires i < |log.cursors| && log.cursors[i] <= |log.events|
    ensures DeliveredFrom(log, Outcome(log, [], []), i)
  {}
}
