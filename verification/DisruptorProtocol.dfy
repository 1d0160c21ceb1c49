/**
 The disruptor as a transition system over the atomic steps of its threads: one producer and any
 number of consumers.  Every atomic variable carries its modification order (all values ever stored
 to it) and each thread carries the index of the last store it has observed; an acquire load may
 return any store from that index on.  This is the coherence and release/acquire contract the code
 relies on, so a run here may be arbitrarily stale.

 The same transitions are given over two arithmetics: `Word64` is the code (wrapping positions,
 modular lags, masked or two-span slots), `Unbounded` is the mathematical reading of it.
 */
module DisruptorProtocol {
  import opened Words
  import opened Options
  import opened RingSlots

  datatype Arithmetic = Unbounded | Word64

  function Advance(ar: Arithmetic, p: nat, k: nat): nat {
    match ar
    case Unbounded => p + k
    case Word64 => Wrap(p + k)
  }

  function Distance(ar: Arithmetic, hi: nat, lo: nat): nat {
    match ar
    case Unbounded => if lo <= hi then hi - lo else 0
    case Word64 => Wrap(hi - lo)
  }

  /** The slot of the k-th event of a range.  Handles traverse two spans, the other paths mask every position. */
  function Slot(ar: Arithmetic, cap: nat, twoSpan: bool, first: nat, count: nat, k: nat): nat
    requires cap > 0
  {
    match ar
    case Unbounded => (first + k) % cap
    case Word64 =>
      if twoSpan then SpanIndex(cap, first, count, k) else MaskedIndex(cap, first, k)
  }

  datatype ProducerPhase =
    | Ready
    | CheckBlocker(required: nat)
    | Scan(required: nat, index: nat, greatest: nat, greatestIndex: nat)
    | Writing(count: nat, done: nat)

  datatype ConsumerPhase =
    | Idle
    | Reading(count: nat, done: nat)

  datatype Consumer<E> = Consumer(
    cursor: seq<nat>,            // modification order of consumers_[i]
    handle: bool,                // a consumer_handle is live (otherwise the indexed API is used)
    next: nat,                   // next_position_
    cached: nat,                 // cached_published_position_, or the boundary of the current indexed call
    publishedView: nat,          // the last store to published_ this thread has observed
    phase: ConsumerPhase,
    delivered: seq<(E, nat)>)    // everything handed to the handler so far

  datatype State<E> = State(
    ring: seq<E>,
    handle: bool,                // a producer_handle is live (otherwise direct publication)
    next: nat,                   // next_to_publish_
    available: nat,              // available_before_rescan_
    blocker: nat,                // blocking_consumer_
    phase: ProducerPhase,
    cursorView: seq<nat>,        // per consumer, the last store to its cursor the producer has observed
    published: seq<nat>,         // modification order of published_
    consumers: seq<Consumer<E>>,
    results: seq<bool>,          // what try_publish_batch returned, call by call
    batches: seq<nat>,           // the sizes of the released batches
    written: seq<E>)             // every event ever written, in publication order

  datatype Action<E> =
    | MakeProducer | DropProducer
    | BeginPublish(batch: nat)
    | LoadCursor(store: nat)
    | ScanStep
    | WriteSlot(event: E)
    | ReleasePublished
    | MakeConsumer(i: nat) | DropConsumer(i: nat)
    | BeginConsume(i: nat, max: nat, store: nat)
    | ReadSlot(i: nat)
    | ReleaseCursor(i: nat)

  function Initial<E>(ring: seq<E>, n: nat, p: nat): State<E> {
    State(ring, false, p, |ring|, 0, Ready, seq(n, _ => 0), [p],
          seq(n, _ => Consumer([p], false, p, p, 0, Idle, [])), [], [], [])
  }

  // ----- the steps -----

  function BeginPublishStep<E>(cap: nat, s: State<E>, count: nat): Option<State<E>> {
    if s.phase != Ready then None
    else if count == 0 then Some(s.(results := s.results + [true]))
    else if count > cap then Some(s.(results := s.results + [false]))
    else if count <= s.available then Some(s.(phase := Writing(count, 0)))
    else Some(s.(phase := CheckBlocker(count)))
  }

  predicate CanLoad<E>(s: State<E>, i: nat, store: nat) {
    && i < |s.consumers| && i < |s.cursorView|
    && s.cursorView[i] <= store < |s.consumers[i].cursor|
  }

  function LoadCursorStep<E>(ar: Arithmetic, cap: nat, s: State<E>, store: nat): Option<State<E>> {
    match s.phase
    case CheckBlocker(required) =>
      if required > cap || !CanLoad(s, s.blocker, store) then None else
        var lag := Distance(ar, s.next, s.consumers[s.blocker].cursor[store]);
        var t := s.(cursorView := s.cursorView[s.blocker := store]);
        if lag > cap - required then Some(t.(phase := Ready, results := s.results + [false]))
        else Some(t.(phase := Scan(required, 0, lag, s.blocker)))
    case Scan(required, index, greatest, greatestIndex) =>
      if required > cap || index == s.blocker || !CanLoad(s, index, store) then None else
        var lag := Distance(ar, s.next, s.consumers[index].cursor[store]);
        var t := s.(cursorView := s.cursorView[index := store]);
        if lag > cap - required then
          Some(t.(phase := Ready, blocker := index, results := s.results + [false]))
        else if lag > greatest then Some(t.(phase := Scan(required, index + 1, lag, index)))
        else Some(t.(phase := Scan(required, index + 1, greatest, greatestIndex)))
    case _ => None
  }

  function ScanStepStep<E>(cap: nat, s: State<E>): Option<State<E>> {
    if !s.phase.Scan? || s.phase.greatest > cap then None
    else if s.phase.index == |s.consumers| then
      Some(s.(blocker := s.phase.greatestIndex, available := cap - s.phase.greatest,
              phase := Writing(s.phase.required, 0)))
    else if s.phase.index == s.blocker then Some(s.(phase := s.phase.(index := s.phase.index + 1)))
    else None
  }

  function WriteSlotStep<E>(ar: Arithmetic, cap: nat, s: State<E>, e: E): Option<State<E>>
    requires cap > 0
  {
    if !s.phase.Writing? || s.phase.done >= s.phase.count then None else
      var slot := Slot(ar, cap, s.handle, s.next, s.phase.count, s.phase.done);
      if slot >= |s.ring| then None else
        Some(s.(ring := s.ring[slot := e], written := s.written + [e],
                phase := s.phase.(done := s.phase.done + 1)))
  }

  function ReleasePublishedStep<E>(ar: Arithmetic, s: State<E>): Option<State<E>> {
    if !s.phase.Writing? || s.phase.done != s.phase.count || s.phase.count > s.available then None else
      var next := Advance(ar, s.next, s.phase.count);
      Some(s.(next := next, available := s.available - s.phase.count, published := s.published + [next],
              phase := Ready, results := s.results + [true], batches := s.batches + [s.phase.count]))
  }

  function BeginConsumeStep<E>(ar: Arithmetic, s: State<E>, c: Consumer<E>, max: nat, store: nat)
    : Option<Consumer<E>>
  {
    if c.phase != Idle then None
    else if max == 0 then Some(c)
    else if c.handle && Distance(ar, c.cached, c.next) != 0 then Some(Start(ar, c, max))
    else if !(c.publishedView <= store < |s.published|) then None
    else Some(Start(ar, c.(cached := s.published[store], publishedView := store), max))
  }

  function Start<E>(ar: Arithmetic, c: Consumer<E>, max: nat): Consumer<E> {
    var available := Distance(ar, c.cached, c.next);
    if available == 0 then c
    else c.(phase := Reading(if available < max then available else max, 0))
  }

  function ReadSlotStep<E>(ar: Arithmetic, cap: nat, s: State<E>, c: Consumer<E>): Option<Consumer<E>>
    requires cap > 0
  {
    if !c.phase.Reading? || c.phase.done >= c.phase.count then None else
      var slot := Slot(ar, cap, c.handle, c.next, c.phase.count, c.phase.done);
      if slot >= |s.ring| then None else
        Some(c.(delivered := c.delivered + [(s.ring[slot], Advance(ar, c.next, c.phase.done))],
                phase := c.phase.(done := c.phase.done + 1)))
  }

  function ReleaseCursorStep<E>(ar: Arithmetic, c: Consumer<E>): Option<Consumer<E>> {
    if !c.phase.Reading? || c.phase.done != c.phase.count then None else
      var next := Advance(ar, c.next, c.phase.count);
      Some(c.(next := next, cursor := c.cursor + [next], phase := Idle))
  }

  function ConsumerStep<E>(ar: Arithmetic, cap: nat, s: State<E>, c: Consumer<E>, a: Action<E>)
    : Option<Consumer<E>>
    requires cap > 0
  {
    match a
    case MakeConsumer(_) =>
      if c.phase != Idle || c.handle then None else Some(c.(handle := true, cached := c.next))
    case DropConsumer(_) =>
      if c.phase != Idle || !c.handle then None else Some(c.(handle := false))
    case BeginConsume(_, max, store) => BeginConsumeStep(ar, s, c, max, store)
    case ReadSlot(_) => ReadSlotStep(ar, cap, s, c)
    case ReleaseCursor(_) => ReleaseCursorStep(ar, c)
    case _ => None
  }

  predicate IsConsumerAction<E>(a: Action<E>) {
    a.MakeConsumer? || a.DropConsumer? || a.BeginConsume? || a.ReadSlot? || a.ReleaseCursor?
  }

  function ProducerStep<E>(ar: Arithmetic, cap: nat, s: State<E>, a: Action<E>): Option<State<E>>
    requires cap > 0
  {
    match a
    case MakeProducer => if s.phase != Ready || s.handle then None else Some(s.(handle := true))
    case DropProducer => if s.phase != Ready || !s.handle then None else Some(s.(handle := false))
    case BeginPublish(count) => BeginPublishStep(cap, s, count)
    case LoadCursor(store) => LoadCursorStep(ar, cap, s, store)
    case ScanStep => ScanStepStep(cap, s)
    case WriteSlot(e) => WriteSlotStep(ar, cap, s, e)
    case ReleasePublished => ReleasePublishedStep(ar, s)
    case _ => None
  }

  function Step<E>(ar: Arithmetic, cap: nat, s: State<E>, a: Action<E>): Option<State<E>>
    requires cap > 0
  {
    if IsConsumerAction(a) then
      if a.i >= |s.consumers| then None else
        match ConsumerStep(ar, cap, s, s.consumers[a.i], a)
        case None => None
        case Some(c) => Some(s.(consumers := s.consumers[a.i := c]))
    else
      ProducerStep(ar, cap, s, a)
  }

  /** A run is any list of steps; `None` when some step is not enabled. */
  function Run<E>(ar: Arithmetic, cap: nat, s: State<E>, run: seq<Action<E>>): Option<State<E>>
    requires cap > 0
  {
    if run == [] then Some(s) else
      var n := |run| - 1;
      match Run(ar, cap, s, run[..n])
      case None => None
      case Some(t) => Step(ar, cap, t, run[n])
  }
}
