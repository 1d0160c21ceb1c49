/** Receiving one datagram: a single attempt, and the busy spin over attempts. */
module DatagramReceive {
  import opened UdpWire
  import opened StreamReceive

  const EINTR: int := 4

  type Fault = code: int | code != EINTR && code != EAGAIN witness 5

  datatype Queued = Queued(source: int, payload: seq<byte>)

  /** What the kernel does with one recvmsg; `stop` is what the caller's stop predicate answers after an idle one. */
  datatype Attempt = Ready(stop: bool) | Interruption(stop: bool) | NothingYet(stop: bool) | Fails(code: Fault)

  /** The queued datagrams and the kernel's schedule; after the schedule an empty socket makes the caller stop. */
  datatype Inbox = Inbox(queue: seq<Queued>, schedule: seq<Attempt>)

  datatype Answer = Message(datagram: Queued) | NoMessage(code: int, stop: bool)

  datatype Status = NotReady | Received(source: int, wireBytes: nat, truncatedFlag: bool) | Halted | Failure(code: int) {
    /** The result's own truncation test against the buffer size. */
    predicate Truncated(bufferBytes: nat) {
      Received? && (truncatedFlag || wireBytes > bufferBytes)
    }
  }

  /** The state, the bytes put in the buffer, the predicate's answer and the socket afterwards. */
  datatype Report = Report(status: Status, data: seq<byte>, stop: bool, inbox: Inbox)

  function RecvMsg(k: Inbox): (r: (Answer, Inbox))
    ensures |r.1.schedule| < |k.schedule| || (k.schedule == [] && r.1.schedule == [])
    ensures k.schedule == [] ==> r.0.Message? || (r.0.code == EAGAIN && r.0.stop)
    ensures if r.0.Message? then k.queue == [r.0.datagram] + r.1.queue else r.1.queue == k.queue
  {
    if k.schedule == [] then Take(k, true) else
      var rest := k.(schedule := k.schedule[1..]);
      match k.schedule[0]
      case Ready(stop) => Take(rest, stop)
      case Interruption(stop) => (NoMessage(EINTR, stop), rest)
      case NothingYet(stop) => (NoMessage(EAGAIN, stop), rest)
      case Fails(code) => (NoMessage(code, false), rest)
  }

  function Take(k: Inbox, stop: bool): (Answer, Inbox) {
    if k.queue == [] then (NoMessage(EAGAIN, stop), k) else (Message(k.queue[0]), k.(queue := k.queue[1..]))
  }

  function Fill(payload: seq<byte>, bufferBytes: nat): seq<byte> {
    payload[..Min(|payload|, bufferBytes)]
  }

  /** receive_datagram_once. */
  function Once(k: Inbox, bufferBytes: nat, dontWait: bool, retryInterrupted: bool): Report
    decreases |k.schedule|
  {
    var (answer, k') := RecvMsg(k);
    match answer
    case Message(d) => Report(Received(d.source, |d.payload|, |d.payload| > bufferBytes), Fill(d.payload, bufferBytes), false, k')
    case NoMessage(code, stop) =>
      if code == EINTR && retryInterrupted then Once(k', bufferBytes, dontWait, retryInterrupted)
      else Report(if dontWait && code == EAGAIN then NotReady else Failure(code), [], stop, k')
  }

  /** receive_datagram_busy_spin. */
  function SpinOnce(k: Inbox, bufferBytes: nat): Report
    decreases |k.schedule|
  {
    var r := Once(k, bufferBytes, true, false);
    if r.status != NotReady && r.status != Failure(EINTR) then r
    else if r.stop then r.(status := Halted)
    else SpinOnce(r.inbox, bufferBytes)
  }

  /**
   * The spin never reports an idle attempt or an interruption. It takes the first queued datagram or none,
   * reports its source and full size, fills the buffer with its front, and says when that is not all of it.
   */
  lemma {:induction false} SpinTakesFirst(k: Inbox, bufferBytes: nat)
    ensures var r := SpinOnce(k, bufferBytes);
            && r.status != NotReady && r.status != Failure(EINTR) && r.status != Failure(EAGAIN)
            && (if r.status.Received? then
                  && k.queue != [] && r.inbox.queue == k.queue[1..]
                  && r.status.source == k.queue[0].source && r.status.wireBytes == |k.queue[0].payload|
                  && |r.data| <= bufferBytes && r.data <= k.queue[0].payload
                  && (|r.data| == bufferBytes || r.data == k.queue[0].payload)
                  && (r.status.Truncated(bufferBytes) <==> r.data != k.queue[0].payload)
                else
                  r.inbox.queue == k.queue && r.data == [])
    decreases |k.schedule|
  {
    var r := Once(k, bufferBytes, true, false);
    if (r.status == NotReady || r.status == Failure(EINTR)) && !r.stop {
      SpinTakesFirst(r.inbox, bufferBytes);
    }
  }

  // ----- which attempt decides -----

  /** The kernel's answers to successive recvmsg calls. */
  ghost predicate Answers(k: Inbox, answers: seq<Answer>, after: Inbox)
    decreases |answers|
  {
    if answers == [] then after == k
    else answers[0] == RecvMsg(k).0 && Answers(RecvMsg(k).1, answers[1..], after)
  }

  predicate Idle(a: Answer) {
    a.NoMessage? && (a.code == EINTR || a.code == EAGAIN)
  }

  /** A message, reported with its source and full size, and its front. */
  ghost predicate ReportsMessage(a: Answer, bufferBytes: nat, r: Report) {
    && a.Message? && r.status == Received(a.datagram.source, |a.datagram.payload|, |a.datagram.payload| > bufferBytes)
    && r.data == Fill(a.datagram.payload, bufferBytes)
  }

  /** One attempt: retried interruptions, then the answer that decides. */
  ghost predicate OnceDecidedBy(k: Inbox, bufferBytes: nat, dontWait: bool, retry: bool, answers: seq<Answer>, r: Report) {
    && answers != [] && Answers(k, answers, r.inbox)
    && (forall i :: 0 <= i < |answers| - 1 ==> retry && answers[i].NoMessage? && answers[i].code == EINTR)
    && var last := answers[|answers| - 1];
       if last.Message? then ReportsMessage(last, bufferBytes, r)
       else
         && !(retry && last.code == EINTR) && r.data == [] && r.stop == last.stop
         && r.status == if dontWait && last.code == EAGAIN then NotReady else Failure(last.code)
  }

  lemma {:induction false} OnceIsDecided(k: Inbox, bufferBytes: nat, dontWait: bool, retry: bool) returns (answers: seq<Answer>)
    ensures OnceDecidedBy(k, bufferBytes, dontWait, retry, answers, Once(k, bufferBytes, dontWait, retry))
    decreases |k.schedule|
  {
    hide RecvMsg, Fill;
    var (a, k') := RecvMsg(k);
    if a.NoMessage? && a.code == EINTR && retry {
      var rest := OnceIsDecided(k', bufferBytes, dontWait, retry);
      answers := [a] + rest;
      assert answers[1..] == rest;
    } else {
      answers := [a];
      assert answers[1..] == [] && Answers(k', [], k');
    }
  }

  /** The spin: idle answers with no stop requested, then the message, the fault, or the idle answer after which to stop. */
  ghost predicate SpinDecidedBy(k: Inbox, bufferBytes: nat, answers: seq<Answer>, r: Report) {
    && answers != [] && Answers(k, answers, r.inbox)
    && (forall i :: 0 <= i < |answers| - 1 ==> Idle(answers[i]) && !answers[i].stop)
    && var last := answers[|answers| - 1];
       if last.Message? then ReportsMessage(last, bufferBytes, r)
       else if Idle(last) then last.stop && r.status == Halted && r.data == []
       else r.status == Failure(last.code) && r.data == []
  }

  lemma {:induction false} SpinIsDecided(k: Inbox, bufferBytes: nat) returns (answers: seq<Answer>)
    ensures SpinDecidedBy(k, bufferBytes, answers, SpinOnce(k, bufferBytes))
    decreases |k.schedule|
  {
    hide RecvMsg, Fill;
    var (a, k') := RecvMsg(k);
    if Idle(a) && !a.stop {
      var rest := SpinIsDecided(k', bufferBytes);
      answers := [a] + rest;
      assert answers[1..] == rest;
    } else {
      answers := [a];
      assert answers[1..] == [] && Answers(k', [], k');
    }
  }

  // ----- stop and resume, and the blocking form -----

  function NeverHalts(a: Attempt): Attempt {
    if a.Fails? then a else a.(stop := false)
  }

  function QuietInbox(k: Inbox): Inbox {
    k.(schedule := seq(|k.schedule|, i requires 0 <= i < |k.schedule| => NeverHalts(k.schedule[i])))
  }

  lemma QuietAttempt(k: Inbox)
    requires k.schedule != []
    ensures var (answer, k') := RecvMsg(k); var (answer', q') := RecvMsg(QuietInbox(k));
            q' == QuietInbox(k') && answer' == if answer.NoMessage? then answer.(stop := false) else answer
  {}

  /** A stopped call resumed is the call that was not stopped. */
  lemma {:induction false} StopAndResume(k: Inbox, bufferBytes: nat)
    requires SpinOnce(k, bufferBytes).status == Halted
    ensures SpinOnce(QuietInbox(k), bufferBytes) == SpinOnce(QuietInbox(SpinOnce(k, bufferBytes).inbox), bufferBytes)
    decreases |k.schedule|
  {
    hide RecvMsg, QuietInbox;
    var r := Once(k, bufferBytes, true, false);
    if k.schedule != [] {
      QuietAttempt(k);
      if !r.stop {
        StopAndResume(r.inbox, bufferBytes);
      }
    }
  }

  /** A blocking descriptor sleeps through the empty polls. */
  function Sleeping(schedule: seq<Attempt>): seq<Attempt> {
    if schedule == [] then [] else
      (if schedule[0].NothingYet? then [] else [schedule[0]]) + Sleeping(schedule[1..])
  }

  /** With a datagram queued, the blocking call reports what the uninterrupted spin reports. */
  lemma {:induction false} BlockingReceivesTheSame(k: Inbox, bufferBytes: nat)
    requires k.queue != []
    ensures var s := SpinOnce(QuietInbox(k), bufferBytes);
            var b := Once(k.(schedule := Sleeping(k.schedule)), bufferBytes, false, true);
            b.status == s.status && b.data == s.data && b.inbox.queue == s.inbox.queue
    decreases |k.schedule|
  {
    if k.schedule != [] {
      QuietAttempt(k);
      var rest := k.(schedule := k.schedule[1..]);
      var sleeping := Sleeping(k.schedule);
      if k.schedule[0].NothingYet? {
        assert sleeping == Sleeping(rest.schedule);
        BlockingReceivesTheSame(rest, bufferBytes);
      } else {
        assert sleeping[0] == k.schedule[0] && sleeping[1..] == Sleeping(rest.schedule);
        if k.schedule[0].Interruption? {
          BlockingReceivesTheSame(rest, bufferBytes);
        }
      }
    }
  }

  // ----- the loops of the source -----

  class DatagramSocket {
    var inbox: Inbox

    constructor (inbox: Inbox)
      ensures this.inbox == inbox
    {
      this.inbox := inbox;
    }

    method RecvMessage(buffer: array<byte>) returns (answer: Answer)
      modifies this, buffer
      ensures (answer, inbox) == RecvMsg(old(inbox))
      ensures var data := if answer.Message? then Fill(answer.datagram.payload, buffer.Length) else [];
              buffer[..] == Overwrite(old(buffer[..]), 0, data)
    {
      var (a, after) := RecvMsg(inbox);
      inbox := after;
      if a.Message? {
        forall i | 0 <= i < Min(|a.datagram.payload|, buffer.Length) {
          buffer[i] := a.datagram.payload[i];
        }
      }
      return a;
    }
  }

  method ReceiveDatagramOnce(socket: DatagramSocket, buffer: array<byte>, dontWait: bool, retryInterrupted: bool)
    returns (status: Status, stop: bool)
    modifies socket, buffer
    ensures var r := Once(old(socket.inbox), buffer.Length, dontWait, retryInterrupted);
            && status == r.status && stop == r.stop && socket.inbox == r.inbox
            && |r.data| <= buffer.Length && buffer[..] == Overwrite(old(buffer[..]), 0, r.data)
  {
    hide RecvMsg;
    while true
      invariant Once(socket.inbox, buffer.Length, dontWait, retryInterrupted)
             == Once(old(socket.inbox), buffer.Length, dontWait, retryInterrupted)
      invariant buffer[..] == old(buffer[..])
      decreases |socket.inbox.schedule|
    {
      var answer := socket.RecvMessage(buffer);
      if answer.Message? {
        var d := answer.datagram;
        return Received(d.source, |d.payload|, |d.payload| > buffer.Length), false;
      }
      if answer.code == EINTR && retryInterrupted {
        continue;
      }
      return if dontWait && answer.code == EAGAIN then NotReady else Failure(answer.code), answer.stop;
    }
  }

  method ReceiveDatagramBusySpin(socket: DatagramSocket, buffer: array<byte>) returns (status: Status)
    modifies socket, buffer
    ensures var r := SpinOnce(old(socket.inbox), buffer.Length);
            && status == r.status && socket.inbox == r.inbox
            && |r.data| <= buffer.Length && buffer[..] == Overwrite(old(buffer[..]), 0, r.data)
  {
    hide RecvMsg;
    while true
      invariant SpinOnce(socket.inbox, buffer.Length) == SpinOnce(old(socket.inbox), buffer.Length)
      invariant buffer[..] == old(buffer[..])
      decreases |socket.inbox.schedule|
    {
      IdleLeavesBuffer(socket.inbox, buffer.Length);
      var stopRequested: bool;
      status, stopRequested := ReceiveDatagramOnce(socket, buffer, true, false);
      if status != NotReady {
        if status == Failure(EINTR) {
          if stopRequested {
            return Halted;
          }
          continue;
        }
        return;
      }
      if stopRequested {
        return Halted;
      }
    }
  }

  lemma IdleLeavesBuffer(k: Inbox, bufferBytes: nat)
    ensures var r := Once(k, bufferBytes, true, false);
            && (!r.status.Received? ==> r.data == [])
            && (r.status == NotReady || r.status == Failure(EINTR) ==> r.stop || |r.inbox.schedule| < |k.schedule|)
  {}
}
