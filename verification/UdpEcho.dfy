/**
 One UDP run as a protocol: the client, the server thread and a network that may drop, duplicate,
 delay, reorder and truncate datagrams and deliver any junk.  The server may receive anything, forged
 requests included; only a response that passes the client's tests must have been sent by the server.
 */
module UdpEcho {
  import opened Options
  import opened Words
  import opened Orders
  import opened UdpWire
  import opened UdpEndpoints
  import opened UdpServer
  import opened UdpClient

  datatype ClientPc =
    | Warming(index: nat, sent: bool)
    | Measuring(index: nat, sent: bool)
    | Joining                                   // cancellation_requested stored
    | Accounting                                // server thread joined, no server error
    | Reported(completed: nat, unobserved: nat, responseMisses: nat)
    | Inconsistent                              // "inconsistent UDP deadline accounting"
    | Failed

  /** The server echoes first and counts afterwards. */
  datatype ServerPc = Receiving | Echoed(verdict: Verdict) | Stopped | ServerFailed

  datatype State = State(
    client: ClientPc, c: Client,
    server: ServerPc, tally: Tally, unique: nat, messages: nat,
    cancelled: bool,
    responses: set<seq<byte>>,                  // everything the server has ever put on the network
    received: seq<Datagram>,                    // everything the server has received
    heard: seq<Datagram>)                       // everything the measured loop has received

  function Initial(g: Setup): State {
    State(Warming(0, false), NewClient(g), Receiving, NewTally(g), 0, 0, false, {}, [], [])
  }

  datatype Action =
    | Send
    | WarmupReceive(d: Datagram)
    | Receive(a: Arrival)
    | TimeOut | ClientFails
    | Cancel | Join | Account
    | ServerReceive(request: Datagram) | ServerCounts | ServerStops | ServerFails

  /** The warm-up accepts one exact response only. */
  predicate WarmupValid(g: Setup, index: u32, d: Datagram)
    requires g.Valid()
  {
    && !d.truncated && |d.bytes| == g.size && (g.connected || d.fromPeer)
    && ReadSequence(d.bytes, UDP) == Some(index) && d.bytes == Message(g.size, UDP, index)
  }

  /** One turn of the measured receive loop; a datagram that passes the tests was sent by the server. */
  function ReceiveStep(g: Setup, s: State, a: Arrival): Option<State>
    requires g.Valid() && |s.c.tally.seen| == g.samples
  {
    if !s.client.Measuring? || !s.client.sent || s.client.index >= g.samples then None
    else if Echoes(ClassifyResponse(g, s.c.tally.seen, a.datagram)) && a.datagram.bytes !in s.responses then None
    else
      match OnResponse(g, s.c, g.warmup + s.client.index, a)
      case Waiting(c) => Some(s.(c := c, heard := s.heard + [a.datagram]))
      case Recorded(c) =>
        Some(s.(c := c, heard := s.heard + [a.datagram], client := Measuring(s.client.index + 1, false)))
      case NonPositive => Some(s.(client := Failed))
  }

  /** The final 64-bit accounting. */
  function AccountStep(g: Setup, s: State): Option<State>
    requires g.Valid()
  {
    if !s.client.Accounting? then None else
      var completed := Wrap(|s.c.latencies|);
      var unobserved := Sub(g.samples, Wrap(s.unique));
      var misses := Sub(g.samples, completed);
      if unobserved > misses then Some(s.(client := Inconsistent))
      else Some(s.(client := Reported(completed, unobserved, Sub(misses, unobserved))))
  }

  function Step(g: Setup, s: State, a: Action): (o: Option<State>)
    requires g.Valid() && |s.c.tally.seen| == g.samples == |s.tally.seen|
    ensures o.Some? ==> |o.value.c.tally.seen| == g.samples == |o.value.tally.seen|
  {
    match a
    case Send =>
      if s.client.Warming? && !s.client.sent && s.client.index < g.warmup then
        Some(s.(client := Warming(s.client.index, true)))
      else if s.client.Warming? && !s.client.sent && s.client.index == g.warmup then
        Some(s.(client := Measuring(0, false)))
      else if s.client.Measuring? && !s.client.sent && s.client.index < g.samples then
        Some(s.(client := Measuring(s.client.index, true)))
      else None
    case WarmupReceive(d) =>
      if !s.client.Warming? || !s.client.sent || s.client.index >= g.warmup then None
      else if WarmupValid(g, s.client.index, d) && d.bytes !in s.responses then None
      else if WarmupValid(g, s.client.index, d) then Some(s.(client := Warming(s.client.index + 1, false)))
      else Some(s.(client := Failed))
    case Receive(a) => ReceiveStep(g, s, a)
    case TimeOut =>
      if s.client.Warming? && s.client.sent then Some(s.(client := Failed))
      else if s.client.Measuring? && s.client.sent then Some(s.(client := Measuring(s.client.index + 1, false)))
      else None
    case ClientFails => if s.client.Warming? || s.client.Measuring? then Some(s.(client := Failed, cancelled := true)) else None
    case Cancel =>
      if s.client == Measuring(g.samples, false) then Some(s.(client := Joining, cancelled := true)) else None
    case Join =>
      if !s.client.Joining? then None
      else if s.server.Stopped? then Some(s.(client := Accounting))
      else if s.server.ServerFailed? then Some(s.(client := Failed))
      else None
    case Account => AccountStep(g, s)
    case ServerReceive(d) =>
      if !s.server.Receiving? then None else
        var v := ClassifyRequest(g, s.tally.seen, d);
        if !Echoes(v) then Some(s.(tally := Count(g, s.tally, v), received := s.received + [d]))
        else Some(s.(responses := s.responses + {d.bytes}, received := s.received + [d],
                     messages := s.messages + 1, server := Echoed(v)))
    case ServerCounts =>
      if !s.server.Echoed? || (s.server.verdict.First? && !(g.warmup <= s.server.verdict.observed < g.Total())) then None
      else Some(s.(tally := Count(g, s.tally, s.server.verdict), server := Receiving,
                   unique := s.unique + if s.server.verdict.First? then 1 else 0))
    case ServerStops => if s.server.Receiving? && s.cancelled then Some(s.(server := Stopped)) else None
    case ServerFails => if s.server.Stopped? then None else Some(s.(server := ServerFailed))
  }

  function Run(g: Setup, run: seq<Action>): (o: Option<State>)
    requires g.Valid()
    ensures o.Some? ==> |o.value.c.tally.seen| == g.samples == |o.value.tally.seen|
  {
    if run == [] then Some(Initial(g)) else
      match Run(g, run[..|run| - 1])
      case None => None
      case Some(s) => Step(g, s, run[|run| - 1])
  }

  // ----- the invariant -----

  /** Every response on the network answers a counted request, or the one being counted right now. */
  ghost predicate ResponsesCounted(g: Setup, s: State)
    requires g.Valid() && |s.tally.seen| == g.samples
  {
    forall k: nat :: k < g.samples && Message(g.size, UDP, g.warmup + k) in s.responses ==>
      s.tally.seen[k] || s.server == Echoed(First(g.warmup + k)) || s.server == ServerFailed
  }

  /** Everything the client has accepted was sent by the server. */
  ghost predicate AcceptedWasSent(g: Setup, s: State)
    requires g.Valid() && |s.c.tally.seen| == g.samples
  {
    forall k: nat :: k < g.samples && s.c.tally.seen[k] ==> Message(g.size, UDP, g.warmup + k) in s.responses
  }

  ghost predicate ServerInv(g: Setup, s: State)
    requires g.Valid()
  {
    && Conserved(g, s.tally)
    && s.unique == CountTrue(s.tally.seen)
    && (s.server.Echoed? ==> Echoes(s.server.verdict))
    && (s.server.Echoed? && s.server.verdict.First? ==>
          var o := s.server.verdict.observed; g.warmup <= o < g.Total() && !s.tally.seen[o - g.warmup])
    // counting lags the echo by at most the datagram in hand
    && (s.server.ServerFailed? ||
          s.messages == s.tally.warmups + s.tally.duplicates + |s.tally.firsts| + if s.server.Echoed? then 1 else 0)
  }

  function Progress(g: Setup, pc: ClientPc): nat {
    match pc
    case Warming(_, _) => 0
    case Measuring(index, _) => index
    case _ => g.samples
  }

  ghost predicate Inv(g: Setup, s: State) {
    && g.Valid()
    && ServerInv(g, s)
    && ClientInv(g, s.c, g.samples)
    && (s.client.Warming? || s.client.Measuring? ==> Progress(g, s.client) <= g.samples && ClientInv(g, s.c, Progress(g, s.client)))
    && (s.client.Measuring? && s.client.sent ==> s.client.index < g.samples)
    && ResponsesCounted(g, s) && AcceptedWasSent(g, s)
    && (s.client.Accounting? || s.client.Reported? ==> s.server.Stopped?)
    && s.client != Inconsistent
    && (s.client.Reported? ==>
          && s.client.completed + s.client.unobserved + s.client.responseMisses == g.samples
          && s.client.completed == |s.c.latencies| && s.client.unobserved == g.samples - s.unique)
  }

  lemma InitialInv(g: Setup)
    requires g.Valid()
    ensures Inv(g, Initial(g))
  {
    hide Conserved;
    NewTallyConserved(g);
    NothingSeen(g.samples);
  }

  // ----- server steps -----

  /** Echoing a request leaves every response either counted or about to be. */
  lemma EchoKeeps(g: Setup, s: State, d: Datagram)
    requires g.Valid() && |s.tally.seen| == g.samples && ResponsesCounted(g, s) && s.server.Receiving?
    requires Echoes(ClassifyRequest(g, s.tally.seen, d))
    ensures ResponsesCounted(g, s.(responses := s.responses + {d.bytes}, received := s.received + [d],
                                   messages := s.messages + 1, server := Echoed(ClassifyRequest(g, s.tally.seen, d))))
  {
    hide Message, ReadSequence;
    forall k: nat | k < g.samples && d.bytes == Message(g.size, UDP, g.warmup + k)
      ensures s.tally.seen[k] || ClassifyRequest(g, s.tally.seen, d) == First(g.warmup + k)
    {
      MessageReadsBack(g.size, UDP, g.warmup + k);
    }
  }

  lemma CountFacts(g: Setup, t: Tally, v: Verdict)
    requires Conserved(g, t) && (v.First? ==> g.warmup <= v.observed < g.Total() && !t.seen[v.observed - g.warmup])
    ensures Conserved(g, Count(g, t, v))
    ensures CountTrue(Count(g, t, v).seen) == CountTrue(t.seen) + if v.First? then 1 else 0
  {
    hide IsHighWater, Reordered;
    if v.First? {
      FirstConserved(g, t, v.observed);
      CountTrueUpdate(t.seen, v.observed - g.warmup);
    }
  }

  predicate IsServerAction(a: Action) {
    a.ServerReceive? || a.ServerCounts? || a.ServerStops? || a.ServerFails?
  }

  lemma ServerKeeps(g: Setup, s: State, a: Action)
    requires Inv(g, s) && IsServerAction(a) && Step(g, s, a).Some?
    ensures Inv(g, Step(g, s, a).value)
  {
    hide Message, ReadSequence, IsHighWater, Reordered, CountTrue, SamplesInv;
    if a.ServerReceive? {
      var v := ClassifyRequest(g, s.tally.seen, a.request);
      if Echoes(v) {
        EchoKeeps(g, s, a.request);
      } else {
        CountFacts(g, s.tally, v);
      }
    } else if a.ServerCounts? {
      CountFacts(g, s.tally, s.server.verdict);
    }
  }

  // ----- client steps -----

  lemma AcceptKeeps(g: Setup, s: State, a: Arrival)
    requires g.Valid() && |s.c.tally.seen| == g.samples && AcceptedWasSent(g, s)
    requires ReceiveStep(g, s, a).Some?
    ensures var t := ReceiveStep(g, s, a).value;
            |t.c.tally.seen| == g.samples && AcceptedWasSent(g, t)
  {
    hide Message, ReadSequence, UpdateChecksum;
  }

  lemma ReceiveKeeps(g: Setup, s: State, a: Arrival)
    requires Inv(g, s) && ReceiveStep(g, s, a).Some?
    ensures Inv(g, ReceiveStep(g, s, a).value)
  {
    hide Message, ReadSequence, IsHighWater, Reordered, CountTrue, UpdateChecksum, ChecksumOf, AcceptedWasSent;
    AcceptKeeps(g, s, a);
    ReceivedClient(g, s, a);
  }

  lemma ReceivedClient(g: Setup, s: State, a: Arrival)
    requires ClientInv(g, s.c, Progress(g, s.client)) && ReceiveStep(g, s, a).Some?
    ensures var t := ReceiveStep(g, s, a).value;
            && t.(client := s.client, c := s.c, heard := s.heard) == s
            && ClientInv(g, t.c, g.samples) && (t.client.Measuring? ==> ClientInv(g, t.c, t.client.index))
            && (t.client == s.client || t.client == Measuring(s.client.index + 1, false) || t.client == Failed)
  {
    hide OnResponse, Conserved, ClassifyResponse;
    OnResponseKeeps(g, s.c, s.client.index, a);
    var r := OnResponse(g, s.c, g.warmup + s.client.index, a);
    if !r.NonPositive? {
      InvRelaxes(g, r.c, ReceiveStep(g, s, a).value.client.index);
    } else {
      InvRelaxes(g, s.c, s.client.index);
    }
  }

  lemma InvRelaxes(g: Setup, c: Client, index: nat)
    requires ClientInv(g, c, index)
    ensures ClientInv(g, c, g.samples)
  {}

  /** Distinct recorded samples are all set in the bitmap. */
  lemma {:induction false} RecordedAtMostSeen(low: nat, recorded: seq<u32>, seen: seq<bool>)
    requires Increasing(recorded)
    requires forall i :: 0 <= i < |recorded| ==> low <= recorded[i] < low + |seen| && seen[recorded[i] - low]
    ensures |recorded| <= CountTrue(seen)
    decreases |seen|
  {
    if recorded != [] {
      var n, m := |seen| - 1, |recorded| - 1;
      if recorded[m] == low + n {
        RecordedAtMostSeen(low, recorded[..m], seen[..n]);
      } else {
        RecordedAtMostSeen(low, recorded, seen[..n]);
      }
    }
  }

  /** Once the server has stopped, completed <= measured_unique_requests <= attempted. */
  lemma Accounts(g: Setup, s: State)
    requires Inv(g, s) && s.server.Stopped?
    ensures |s.c.latencies| <= s.unique <= g.samples
  {
    hide Message, ReadSequence, IsHighWater, Reordered, CountTrue, UpdateChecksum, ChecksumOf;
    RecordedAtMostSeen(g.warmup, s.c.recorded, s.c.tally.seen);
    CountTrueMonotone(s.c.tally.seen, s.tally.seen);
  }

  /** The 64-bit subtractions of the accounting do not underflow, so the throw is not taken. */
  lemma AccountValue(g: Setup, s: State)
    requires g.Valid() && s.client.Accounting?
    requires |s.c.latencies| <= s.unique <= g.samples
    ensures AccountStep(g, s)
         == Some(s.(client := Reported(|s.c.latencies|, g.samples - s.unique, s.unique - |s.c.latencies|)))
  {
    hide Wrap, Sub;
    SmallWrap(g.samples);
    SmallWrap(|s.c.latencies|);
    SmallWrap(s.unique);
    SmallWrap(g.samples - s.unique);
    SmallWrap(g.samples - |s.c.latencies|);
    WrapSub(g.samples, s.unique);
    WrapSub(g.samples, |s.c.latencies|);
    WrapSub(g.samples - |s.c.latencies|, g.samples - s.unique);
  }

  lemma AccountKeeps(g: Setup, s: State)
    requires Inv(g, s) && AccountStep(g, s).Some?
    ensures Inv(g, AccountStep(g, s).value)
  {
    hide Message, ReadSequence, IsHighWater, Reordered, CountTrue, Sub, ChecksumOf;
    Accounts(g, s);
    AccountValue(g, s);
  }

  lemma ControlKeeps(g: Setup, s: State, a: Action)
    requires Inv(g, s) && !IsServerAction(a) && !a.Receive? && !a.Account? && Step(g, s, a).Some?
    ensures Inv(g, Step(g, s, a).value)
  {
    hide ReadSequence, IsHighWater, Reordered, CountTrue, ChecksumOf, Message;
  }

  lemma StepKeeps(g: Setup, s: State, a: Action)
    requires Inv(g, s) && Step(g, s, a).Some?
    ensures Inv(g, Step(g, s, a).value)
  {
    hide Inv;
    if IsServerAction(a) {
      ServerKeeps(g, s, a);
    } else if a.Receive? {
      ReceiveKeeps(g, s, a.a);
    } else if a.Account? {
      AccountKeeps(g, s);
    } else {
      ControlKeeps(g, s, a);
    }
  }

  lemma {:induction false} RunKeeps(g: Setup, run: seq<Action>)
    requires g.Valid()
    ensures Run(g, run).Some? ==> Inv(g, Run(g, run).value)
  {
    hide Step, Inv;
    if run == [] {
      InitialInv(g);
    } else {
      RunKeeps(g, run[..|run| - 1]);
      var o := Run(g, run[..|run| - 1]);
      if o.Some? && Run(g, run).Some? {
        StepKeeps(g, o.value, run[|run| - 1]);
      }
    }
  }

  // ----- what holds of every run under every network behaviour -----

  /** The accounting exception is unreachable, nothing underflows and the three parts add up. */
  lemma AccountingIsConsistent(g: Setup, run: seq<Action>)
    requires g.Valid() && Run(g, run).Some?
    ensures var s := Run(g, run).value;
            && s.client != Inconsistent
            && (s.client.Accounting? ==> |s.c.latencies| <= s.unique <= g.samples)
            && (s.client.Reported? ==>
                  && s.client.completed == |s.c.latencies| && s.client.unobserved == g.samples - s.unique
                  && s.client.completed + s.client.unobserved + s.client.responseMisses == g.samples)
  {
    hide ClientInv, ServerInv, ResponsesCounted, AcceptedWasSent, Run;
    RunKeeps(g, run);
    var s := Run(g, run).value;
    if s.client.Accounting? {
      Accounts(g, s);
    }
  }

  /** Both ends count every datagram once, at every moment of every run. */
  lemma NothingIsLostOrCountedTwice(g: Setup, run: seq<Action>)
    requires g.Valid() && Run(g, run).Some?
    ensures Conserved(g, Run(g, run).value.c.tally) && Conserved(g, Run(g, run).value.tally)
    ensures Run(g, run).value.unique == |Run(g, run).value.tally.firsts|
  {
    hide Conserved, Run, SamplesInv, ResponsesCounted, AcceptedWasSent;
    RunKeeps(g, run);
    SeenAreFirsts(g, Run(g, run).value.tally);
  }

  lemma SeenAreFirsts(g: Setup, t: Tally)
    requires Conserved(g, t)
    ensures CountTrue(t.seen) == |t.firsts|
  {}

  /** A run that reports no miss has the checksum of its setup, whatever the network did. */
  lemma CompleteRunsAgree(g: Setup, run: seq<Action>)
    requires g.Valid() && Run(g, run).Some?
    requires Run(g, run).value.client.Reported? && Run(g, run).value.client.completed == g.samples
    ensures Run(g, run).value.c.checksum == ChecksumOf(g, AllSequences(g))
  {
    hide Run, ServerInv, ResponsesCounted, AcceptedWasSent, ClientInv;
    RunKeeps(g, run);
    StableChecksum(g, Run(g, run).value.c);
  }

  // ----- what has been on the network -----

  /** How many warm-up requests the client has had answered. */
  function WarmedUp(g: Setup, pc: ClientPc): nat {
    match pc
    case Warming(index, _) => index
    case Failed => 0
    case _ => g.warmup
  }

  /** The server has sent the echoes of what it received, and both tallies are those of the loops over what they received. */
  ghost predicate LoopsAgree(g: Setup, s: State)
    requires g.Valid()
  {
    && (forall b :: b in s.responses <==> b in EchoesOf(g, s.received))
    && (s.server.Receiving? || s.server.Stopped? ==> s.tally == Served(g, s.received))
    && (s.server.Echoed? ==>
          && s.received != [] && s.tally == Served(g, s.received[..|s.received| - 1])
          && s.server.verdict == ClassifyRequest(g, s.tally.seen, s.received[|s.received| - 1]))
    && s.c.tally == HearAll(g, NewTally(g), s.heard)
  }

  /** The client leaves a warm-up step only when its exact response has been sent. */
  ghost predicate WarmupsAnswered(g: Setup, s: State)
    requires g.Valid()
  {
    && WarmedUp(g, s.client) <= g.warmup
    && forall k: nat :: k < WarmedUp(g, s.client) ==> Message(g.size, UDP, k) in s.responses
  }

  ghost predicate History(g: Setup, s: State)
    requires g.Valid()
  {
    LoopsAgree(g, s) && WarmupsAnswered(g, s)
  }

  lemma OneMoreRequest(g: Setup, requests: seq<Datagram>, d: Datagram)
    requires g.Valid()
    ensures var t := Served(g, requests);
            var v := ClassifyRequest(g, t.seen, d);
            && Served(g, requests + [d]) == Count(g, t, v)
            && EchoesOf(g, requests + [d]) == EchoesOf(g, requests) + if Echoes(v) then [d.bytes] else []
  {
    assert (requests + [d])[..|requests|] == requests;
  }

  lemma ServerAgrees(g: Setup, s: State, a: Action)
    requires g.Valid() && |s.c.tally.seen| == g.samples == |s.tally.seen| && LoopsAgree(g, s)
    requires IsServerAction(a) && Step(g, s, a).Some?
    ensures LoopsAgree(g, Step(g, s, a).value)
  {
    hide Message, ClassifyRequest, Served, EchoesOf, HearAll, Count;
    if a.ServerReceive? {
      OneMoreRequest(g, s.received, a.request);
      assert (s.received + [a.request])[..|s.received|] == s.received;
    } else if a.ServerCounts? {
      var n := |s.received| - 1;
      OneMoreRequest(g, s.received[..n], s.received[n]);
      assert s.received[..n] + [s.received[n]] == s.received;
    }
  }

  lemma ReceiveAgrees(g: Setup, s: State, a: Arrival)
    requires g.Valid() && |s.c.tally.seen| == g.samples && LoopsAgree(g, s) && ReceiveStep(g, s, a).Some?
    ensures LoopsAgree(g, ReceiveStep(g, s, a).value)
  {
    hide Message, Served, EchoesOf, HearAll, OnResponse, ReadSequence, ClassifyRequest, Hear;
    OnResponseMeans(g, s.c, s.client.index, a);
    HearAllConcat(g, NewTally(g), s.heard, [a.datagram]);
    HearLast(g, s.c.tally, a.datagram);
  }

  /** The other client steps touch neither loop. */
  lemma ControlTouches(g: Setup, s: State, a: Action)
    requires g.Valid() && |s.c.tally.seen| == g.samples == |s.tally.seen|
    requires !IsServerAction(a) && !a.Receive? && Step(g, s, a).Some?
    ensures var t := Step(g, s, a).value;
            t == s.(client := t.client, cancelled := t.cancelled)
  {
    hide Message, ReadSequence;
  }

  lemma StepAgrees(g: Setup, s: State, a: Action)
    requires g.Valid() && |s.c.tally.seen| == g.samples == |s.tally.seen| && LoopsAgree(g, s) && Step(g, s, a).Some?
    ensures LoopsAgree(g, Step(g, s, a).value)
  {
    hide LoopsAgree, ReceiveStep, AccountStep, Message, ReadSequence, ClassifyRequest;
    if IsServerAction(a) {
      ServerAgrees(g, s, a);
    } else if a.Receive? {
      ReceiveAgrees(g, s, a.a);
    } else {
      ControlTouches(g, s, a);
      var t := Step(g, s, a).value;
      Untouched(g, s, t.client, t.cancelled);
    }
  }

  lemma Untouched(g: Setup, s: State, client: ClientPc, cancelled: bool)
    requires g.Valid() && LoopsAgree(g, s)
    ensures LoopsAgree(g, s.(client := client, cancelled := cancelled))
  {}

  /** Responses stay on the network, and only an answered warm-up step counts as one. */
  lemma WarmupStep(g: Setup, s: State, a: Action)
    requires g.Valid() && |s.c.tally.seen| == g.samples == |s.tally.seen| && Step(g, s, a).Some?
    ensures var t := Step(g, s, a).value;
            && s.responses <= t.responses
            && (WarmedUp(g, t.client) <= WarmedUp(g, s.client)
                || (&& WarmedUp(g, t.client) == WarmedUp(g, s.client) + 1 <= g.warmup
                    && Message(g.size, UDP, WarmedUp(g, s.client)) in s.responses))
  {
    hide Message, ReadSequence, ClassifyRequest, ClassifyResponse, OnResponse;
  }

  lemma StepWarms(g: Setup, s: State, a: Action)
    requires g.Valid() && |s.c.tally.seen| == g.samples == |s.tally.seen| && WarmupsAnswered(g, s) && Step(g, s, a).Some?
    ensures WarmupsAnswered(g, Step(g, s, a).value)
  {
    hide Step, Message, WarmedUp;
    WarmupStep(g, s, a);
  }

  lemma HearLast(g: Setup, t: Tally, d: Datagram)
    requires g.Valid() && |t.seen| == g.samples
    ensures HearAll(g, t, [d]) == Hear(g, t, d)
  {
    assert [d][1..] == [] && HearAll(g, Hear(g, t, d), []) == Hear(g, t, d);
  }

  /** In every run, under every network behaviour, what was sent, what was received and what was counted agree. */
  lemma {:induction false} RunHistory(g: Setup, run: seq<Action>)
    requires g.Valid() && Run(g, run).Some?
    ensures History(g, Run(g, run).value)
  {
    hide Step, LoopsAgree, WarmupsAnswered;
    if run == [] {
      InitialHistory(g);
    } else {
      var s := Run(g, run[..|run| - 1]).value;
      RunHistory(g, run[..|run| - 1]);
      StepAgrees(g, s, run[|run| - 1]);
      StepWarms(g, s, run[|run| - 1]);
    }
  }

  lemma InitialHistory(g: Setup)
    requires g.Valid()
    ensures History(g, Initial(g))
  {
    hide Message;
    assert WarmedUp(g, Initial(g).client) == 0;
    assert EchoesOf(g, []) == [] && Served(g, []) == NewTally(g) && HearAll(g, NewTally(g), []) == NewTally(g);
  }
}
