/**
 The two threads of one paired-benchmark process, step by step.  They share plain fields
 (phase_event_count, phase_measurement, consumer_error) guarded only by three phase counters and a
 failure flag; any load of an atomic may return any value from the last one that thread saw on.
 The event stream between them is the disruptor's log.
 */
module PhaseHandshake {
  import opened Words
  import opened Options
  import opened Accumulators

  datatype Config = Config(events: u64, warmupEvents: u64, warmupRuns: u64, batch: nat, drain: nat, cap: nat) {
    /** The checks of parse_arguments. */
    predicate Accepted() {
      && ArgumentsAccepted(events, warmupEvents, warmupRuns)
      && 0 < batch <= cap && 0 < drain <= cap
      && events % batch == 0 && warmupEvents % batch == 0
    }

    function Phases(): nat { warmupRuns + 1 }

    function Count(phase: nat): u64 {
      if phase == Phases() then events else warmupEvents
    }

    /** The stream position at which a phase starts. */
    function Base(phase: nat): nat {
      if phase <= 1 then 0 else Base(phase - 1) + Count(phase - 1)
    }
  }

  datatype ProducerPc =
    | SetCount | Command | WaitReady | CheckReady | PinProducer
    | Publishing | CheckPublish | WaitConsumed | CheckConsumed | WaitCompleted | CheckCompleted
    | ReadMeasurement | Validate
    | Rethrow | SetFailed | JoinFailed
    | JoinDone | ReadError | Returned | Threw

  datatype ConsumerPc =
    | WaitCommand | CheckCommand | PinConsumer | ReadCount | StoreReady
    | Consuming | CheckConsume | WriteMeasurement | StoreCompleted
    | WriteError | StoreFailed | Exit

  datatype Producer = Producer(
    pc: ProducerPc, phase: nat, published: nat, final: u64, current: Validation,
    seesReady: nat, seesCompleted: nat, seesTaken: nat)

  datatype Consumer = Consumer(
    pc: ConsumerPc, phase: nat, eventCount: u64, first: u64, result: Validation, seesCommanded: nat,
    calls: seq<(u64, u64)>)                     // what the handler has been called with in this phase

  datatype Shared = Shared(
    commanded: nat, ready: nat, completed: nat, failed: bool,
    phaseEventCount: u64, phaseMeasurement: Validation, consumerError: bool,
    log: seq<u64>, taken: nat)                  // values published so far; released consumer position

  datatype State = State(p: Producer, c: Consumer, m: Shared)

  const EMPTY := Validation(0, 0, 0)

  function Initial(): State {
    State(Producer(SetCount, 1, 0, 0, EMPTY, 0, 0, 0),
          Consumer(WaitCommand, 1, 0, 0, EMPTY, 0, []),
          Shared(0, 0, 0, false, 0, EMPTY, false, [], 0))
  }

  /** The values the writer stores for one batch. */
  function BatchValues(published: nat, batch: nat): seq<u64> {
    seq<u64>(batch, k requires 0 <= k => Wrap(published + k))
  }

  /**
   One step of the producer thread.  `v` is the value a counter load returns; `flag` is what a load of
   `failed` returns, whether pinning throws, whether the batch was accepted, or whether the duration
   is not positive.
   */
  function ProducerStep(g: Config, s: State, v: nat, flag: bool): Option<State> {
    var p, m := s.p, s.m;
    match p.pc
    case SetCount => Some(s.(p := p.(pc := Command), m := m.(phaseEventCount := g.Count(p.phase))))
    case Command => Some(s.(p := p.(pc := WaitReady), m := m.(commanded := p.phase)))
    case WaitReady =>
      if !(p.seesReady <= v <= m.ready) then None
      else Some(s.(p := p.(seesReady := v, pc := if v == p.phase then PinProducer else CheckReady)))
    case CheckReady => CheckFailed(s, flag, WaitReady)
    case PinProducer =>
      if flag then Some(s.(p := p.(pc := SetFailed)))
      else Some(s.(p := p.(pc := Publishing, published := 0, final := Add(Wrap(|m.log|), g.Count(p.phase)))))
    case Publishing =>
      if p.published >= g.Count(p.phase) then Some(s.(p := p.(pc := WaitConsumed)))
      else if !flag then Some(s.(p := p.(pc := CheckPublish)))
      else if |m.log| + g.batch > m.taken + g.cap then None
      else Some(s.(p := p.(published := p.published + g.batch),
                   m := m.(log := m.log + BatchValues(p.published, g.batch))))
    case CheckPublish => CheckFailed(s, flag, Publishing)
    case WaitConsumed =>
      if !(p.seesTaken <= v <= m.taken) then None
      else Some(s.(p := p.(seesTaken := v, pc := if Wrap(v) < p.final then CheckConsumed else WaitCompleted)))
    case CheckConsumed => CheckFailed(s, flag, WaitConsumed)
    case WaitCompleted =>
      if !(p.seesCompleted <= v <= m.completed) then None
      else Some(s.(p := p.(seesCompleted := v, pc := if v != p.phase then CheckCompleted else ReadMeasurement)))
    case CheckCompleted => CheckFailed(s, flag, WaitCompleted)
    case ReadMeasurement => Some(s.(p := p.(pc := Validate, current := m.phaseMeasurement)))
    case Validate =>
      var count := g.Count(p.phase);
      if flag || p.current.consumed != count || p.current.checksum != ExpectedChecksum(count) || p.current.mismatch != 0
      then Some(s.(p := p.(pc := SetFailed)))
      else if p.phase == g.Phases() then Some(s.(p := p.(pc := JoinDone)))
      else Some(s.(p := p.(pc := SetCount, phase := p.phase + 1)))
    case Rethrow => Some(s.(p := p.(pc := SetFailed)))
    case SetFailed => Some(s.(p := p.(pc := JoinFailed), m := m.(failed := true)))
    case JoinFailed => if s.c.pc == Exit then Some(s.(p := p.(pc := Threw))) else None
    case JoinDone => if s.c.pc == Exit then Some(s.(p := p.(pc := ReadError))) else None
    case ReadError => Some(s.(p := p.(pc := if m.consumerError then Threw else Returned)))
    case Returned => None
    case Threw => None
  }

  /** A load of `failed` in a producer wait loop: stale false is possible, true only once it is set. */
  function CheckFailed(s: State, flag: bool, again: ProducerPc): Option<State> {
    if flag && !s.m.failed then None
    else Some(s.(p := s.p.(pc := if flag then Rethrow else again)))
  }

  /** One step of the consumer thread; `v` is the value a load returns or how many events one drain takes. */
  function ConsumerStep(g: Config, s: State, v: nat, flag: bool): Option<State> {
    var c, m := s.c, s.m;
    match c.pc
    case WaitCommand =>
      if c.phase > g.Phases() then Some(s.(c := c.(pc := Exit)))
      else if !(c.seesCommanded <= v <= m.commanded) then None
      else Some(s.(c := c.(seesCommanded := v, pc := if v != c.phase then CheckCommand else PinConsumer)))
    case CheckCommand =>
      if flag && !m.failed then None else Some(s.(c := c.(pc := if flag then Exit else WaitCommand)))
    case PinConsumer =>
      if flag then Some(s.(c := c.(pc := WriteError)))
      else Some(s.(c := c.(pc := ReadCount, result := EMPTY, first := Wrap(m.taken), calls := [])))
    case ReadCount => Some(s.(c := c.(pc := StoreReady, eventCount := m.phaseEventCount)))
    case StoreReady => Some(s.(c := c.(pc := Consuming), m := m.(ready := c.phase)))
    case Consuming =>
      if c.result.consumed >= c.eventCount then Some(s.(c := c.(pc := WriteMeasurement)))
      else if v > g.drain || m.taken + v > |m.log| then None
      else if v == 0 then Some(s.(c := c.(pc := CheckConsume)))
      else
        var calls := c.calls + seq(v, k requires 0 <= k < v => (m.log[m.taken + k], Wrap(m.taken + k)));
        Some(s.(c := c.(calls := calls, result := ObserveAll(c.first, calls)), m := m.(taken := m.taken + v)))
    case CheckConsume =>
      if flag && !m.failed then None else Some(s.(c := c.(pc := if flag then Exit else Consuming)))
    case WriteMeasurement => Some(s.(c := c.(pc := StoreCompleted), m := m.(phaseMeasurement := c.result)))
    case StoreCompleted => Some(s.(c := c.(pc := WaitCommand, phase := c.phase + 1), m := m.(completed := c.phase)))
    case WriteError => Some(s.(c := c.(pc := StoreFailed), m := m.(consumerError := true)))
    case StoreFailed => Some(s.(c := c.(pc := Exit), m := m.(failed := true)))
    case Exit => None
  }

  datatype Action = ByProducer(v: nat, flag: bool) | ByConsumer(v: nat, flag: bool)

  function Step(g: Config, s: State, a: Action): Option<State> {
    match a
    case ByProducer(v, flag) => ProducerStep(g, s, v, flag)
    case ByConsumer(v, flag) => ConsumerStep(g, s, v, flag)
  }

  function Run(g: Config, run: seq<Action>): Option<State> {
    if run == [] then Some(Initial()) else
      match Run(g, run[..|run| - 1])
      case None => None
      case Some(s) => Step(g, s, run[|run| - 1])
  }
}
