/** Exact-length stream send, and what a receiver at the other end gets. */
module StreamSend {
  import opened Options
  import opened UdpWire
  import opened StreamReceive

  /** What the kernel does with one send; Fragment(n) takes at most n bytes. */
  datatype SendOutcome = Takes(size: nat) | TakesNothing | SendInterrupted | SendFailed(code: int)

  datatype Channel = Channel(wire: seq<byte>, schedule: seq<SendOutcome>)

  datatype SendError = BrokenPipe | SendErrno(code: int)

  datatype SendReply = Sent(count: nat) | SendEintr | SendErrnoReply(code: int)

  datatype SendReceipt = SendReceipt(sent: nat, error: Option<SendError>, channel: Channel)

  /** One send of the non-empty `bytes`; after the schedule the kernel takes everything. */
  function SendOnce(c: Channel, bytes: seq<byte>): (r: (SendReply, Channel))
    requires bytes != []
    ensures if r.0.Sent? then r.0.count <= |bytes| && r.1.wire == c.wire + bytes[..r.0.count] else r.1.wire == c.wire
    ensures |r.1.schedule| < |c.schedule| || (r.0 == Sent(|bytes|) && r.1.schedule == c.schedule)
  {
    if c.schedule == [] then (Sent(|bytes|), Channel(c.wire + bytes, [])) else
      var rest := c.(schedule := c.schedule[1..]);
      match c.schedule[0]
      case Takes(size) =>
        var n := Min(if size == 0 then 1 else size, |bytes|);
        (Sent(n), rest.(wire := c.wire + bytes[..n]))
      case TakesNothing => (Sent(0), rest.(wire := c.wire + bytes[..0]))
      case SendInterrupted => (SendEintr, rest)
      case SendFailed(code) => (SendErrnoReply(code), rest)
  }

  function SendAll(c: Channel, bytes: seq<byte>): (r: SendReceipt)
    ensures r.sent <= |bytes|
    decreases |c.schedule| + |bytes|
  {
    if bytes == [] then SendReceipt(0, None, c) else
      var (reply, c') := SendOnce(c, bytes);
      match reply
      case Sent(count) =>
        if count == 0 then SendReceipt(0, Some(BrokenPipe), c') else
          var r := SendAll(c', bytes[count..]);
          r.(sent := count + r.sent)
      case SendEintr => SendAll(c', bytes)
      case SendErrnoReply(code) => SendReceipt(0, Some(SendErrno(code)), c')
  }

  /** The wire gets exactly the bytes counted as sent, in order, and no error means all of them. */
  lemma {:induction false} SendAllIsExact(c: Channel, bytes: seq<byte>)
    ensures var r := SendAll(c, bytes);
            r.channel.wire == c.wire + bytes[..r.sent] && (r.error.None? <==> r.sent == |bytes|)
    decreases |c.schedule| + |bytes|
  {
    hide SendOnce;
    if bytes != [] {
      var (reply, c') := SendOnce(c, bytes);
      if reply.Sent? && reply.count > 0 {
        var n := reply.count;
        SendAllIsExact(c', bytes[n..]);
        var m := SendAll(c', bytes[n..]).sent;
        assert bytes[..n + m] == bytes[..n] + bytes[n..][..m];
        assert (c.wire + bytes[..n]) + bytes[n..][..m] == c.wire + (bytes[..n] + bytes[n..][..m]);
      } else if reply.SendEintr? {
        SendAllIsExact(c', bytes);
      } else {
        assert c.wire + bytes[..0] == c.wire;
      }
    } else {
      assert c.wire + bytes[..0] == c.wire;
    }
  }

  /** The kernel's answers to successive sends of what is left. */
  ghost predicate Answered(c: Channel, bytes: seq<byte>, replies: seq<SendReply>, after: Channel)
    decreases |replies|
  {
    if replies == [] then after == c
    else
      && bytes != [] && replies[0] == SendOnce(c, bytes).0
      && Answered(SendOnce(c, bytes).1, Unsent(bytes, replies[0]), replies[1..], after)
  }

  ghost function Unsent(bytes: seq<byte>, reply: SendReply): seq<byte> {
    if reply.Sent? && reply.count <= |bytes| then bytes[reply.count..] else bytes
  }

  predicate EndsSend(reply: SendReply) {
    reply == Sent(0) || reply.SendErrnoReply?
  }

  function SentBy(replies: seq<SendReply>): nat {
    if replies == [] then 0 else (if replies[0].Sent? then replies[0].count else 0) + SentBy(replies[1..])
  }

  /** The result is what the answers say: the sum of the counts, and the error of the first answer that ends the call. */
  ghost predicate SendDecidedBy(c: Channel, bytes: seq<byte>, replies: seq<SendReply>, r: SendReceipt) {
    && Answered(c, bytes, replies, r.channel) && r.sent == SentBy(replies)
    && (forall i :: 0 <= i < |replies| - 1 ==> !EndsSend(replies[i]))
    && (if replies != [] && EndsSend(replies[|replies| - 1]) then
          var last := replies[|replies| - 1];
          r.error == Some(if last.Sent? then BrokenPipe else SendErrno(last.code)) && r.sent < |bytes|
        else r.error == None && r.sent == |bytes|)
  }

  lemma SendDecidedLater(c: Channel, bytes: seq<byte>, replies: seq<SendReply>, r: SendReceipt)
    requires bytes != [] && !EndsSend(SendOnce(c, bytes).0)
    requires SendDecidedBy(SendOnce(c, bytes).1, Unsent(bytes, SendOnce(c, bytes).0), replies, r)
    ensures var reply := SendOnce(c, bytes).0;
            SendDecidedBy(c, bytes, [reply] + replies, if reply.Sent? then r.(sent := reply.count + r.sent) else r)
  {
    hide SendOnce;
    var all := [SendOnce(c, bytes).0] + replies;
    assert all[1..] == replies;
  }

  lemma SendDecidedNow(c: Channel, bytes: seq<byte>)
    requires bytes == [] || EndsSend(SendOnce(c, bytes).0)
    ensures SendDecidedBy(c, bytes, if bytes == [] then [] else [SendOnce(c, bytes).0], SendAll(c, bytes))
  {
    hide SendOnce;
    if bytes != [] {
      var reply := SendOnce(c, bytes).0;
      assert [reply][1..] == [] && SentBy([]) == 0;
      assert Answered(SendOnce(c, bytes).1, Unsent(bytes, reply), [], SendAll(c, bytes).channel);
    }
  }

  lemma {:induction false} SendAllIsDecided(c: Channel, bytes: seq<byte>) returns (replies: seq<SendReply>)
    ensures SendDecidedBy(c, bytes, replies, SendAll(c, bytes))
    decreases |c.schedule| + |bytes|
  {
    hide SendOnce, SendDecidedBy;
    if bytes != [] && !EndsSend(SendOnce(c, bytes).0) {
      var (reply, c') := SendOnce(c, bytes);
      var rest := SendAllIsDecided(c', Unsent(bytes, reply));
      SendDecidedLater(c, bytes, rest, SendAll(c', Unsent(bytes, reply)));
      replies := [reply] + rest;
    } else {
      SendDecidedNow(c, bytes);
      replies := if bytes == [] then [] else [SendOnce(c, bytes).0];
    }
  }

  /** After an error, sending the unsent rest completes the message on the wire. */
  lemma RetryCompletes(c: Channel, bytes: seq<byte>)
    ensures var r := SendAll(c, bytes); var again := SendAll(r.channel, bytes[r.sent..]);
            again.error.None? ==> again.channel.wire == c.wire + bytes
  {
    hide SendAll;
    var r := SendAll(c, bytes);
    var again := SendAll(r.channel, bytes[r.sent..]);
    SendAllIsExact(c, bytes);
    SendAllIsExact(r.channel, bytes[r.sent..]);
    if again.error.None? {
      assert bytes == bytes[..r.sent] + bytes[r.sent..];
    }
  }

  /** Messages written one after the other are what a receiver with the same length reads, however both sides are cut up. */
  lemma TransferIsExact(c: Channel, first: seq<byte>, second: seq<byte>, schedule: seq<Outcome>)
    requires c.wire == []
    ensures var a := SendAll(c, first);
            var b := SendAll(a.channel, second);
            var x := Resumed(Peer(b.channel.wire, schedule), |first|);
            var y := Resumed(x.peer, |second|);
            a.error.None? && b.error.None? ==>
              && (x.state == Complete ==> x.data == first)
              && (x.state == Complete && y.state == Complete ==> y.data == second && y.peer.stream == [])
  {
    hide SendAll, Resumed;
    var a := SendAll(c, first);
    var b := SendAll(a.channel, second);
    SendAllIsExact(c, first);
    SendAllIsExact(a.channel, second);
    if a.error.None? && b.error.None? {
      var k := Peer(b.channel.wire, schedule);
      assert k.stream == first + second;
      var x := Resumed(k, |first|);
      ResumedTakesPrefix(k, |first|);
      if x.state == Complete {
        assert k.stream[..|first|] == first == x.data;
        assert x.peer.stream == k.stream[|first|..] == second;
        ResumedTakesPrefix(x.peer, |second|);
        var y := Resumed(x.peer, |second|);
        if y.state == Complete {
          assert second[..|second|] == second && y.data == second[..|second|];
        }
      }
    }
  }

  /** No send fails or takes nothing. */
  ghost predicate HealthySends(schedule: seq<SendOutcome>) {
    forall o :: o in schedule ==> o.Takes? || o.SendInterrupted?
  }

  lemma HealthySend(c: Channel, bytes: seq<byte>)
    requires HealthySends(c.schedule) && bytes != []
    ensures var (reply, c') := SendOnce(c, bytes);
            HealthySends(c'.schedule) && (reply.SendEintr? || (reply.Sent? && reply.count > 0))
  {
    if c.schedule != [] {
      assert c.schedule[0] in c.schedule;
    }
  }

  lemma {:induction false} HealthySendCompletes(c: Channel, bytes: seq<byte>)
    requires HealthySends(c.schedule)
    ensures SendAll(c, bytes).error.None? && HealthySends(SendAll(c, bytes).channel.schedule)
    decreases |c.schedule| + |bytes|
  {
    hide SendOnce, HealthySends;
    if bytes != [] {
      HealthySend(c, bytes);
      var (reply, c') := SendOnce(c, bytes);
      if reply.Sent? {
        HealthySendCompletes(c', bytes[reply.count..]);
      } else {
        HealthySendCompletes(c', bytes);
      }
    }
  }

  /** When neither side fails, both messages arrive whole, whatever the fragments, interruptions, polls and stops. */
  lemma HealthyTransfer(c: Channel, first: seq<byte>, second: seq<byte>, schedule: seq<Outcome>)
    requires c.wire == [] && HealthySends(c.schedule) && Healthy(Peer([], schedule))
    ensures var b := SendAll(SendAll(c, first).channel, second);
            var x := Resumed(Peer(b.channel.wire, schedule), |first|);
            var y := Resumed(x.peer, |second|);
            x.state == y.state == Complete && x.data == first && y.data == second && y.peer.stream == []
  {
    hide SendAll, Resumed;
    var a := SendAll(c, first);
    var b := SendAll(a.channel, second);
    HealthySendCompletes(c, first);
    HealthySendCompletes(a.channel, second);
    SendAllIsExact(c, first);
    SendAllIsExact(a.channel, second);
    var k := Peer(b.channel.wire, schedule);
    assert k.stream == first + second;
    FragmentsDoNotMatter(k, |first|);
    var x := Resumed(k, |first|);
    ResumedTakesPrefix(k, |first|);
    assert |x.peer.stream| == |second|;
    FragmentsDoNotMatter(x.peer, |second|);
    TransferIsExact(c, first, second, schedule);
  }

  /** send() on the socket. */
  class SendSocket {
    var channel: Channel

    constructor (channel: Channel)
      ensures this.channel == channel
    {
      this.channel := channel;
    }

    method Send(bytes: seq<byte>) returns (reply: SendReply)
      requires bytes != []
      modifies this
      ensures (reply, channel) == SendOnce(old(channel), bytes)
    {
      var (answer, after) := SendOnce(channel, bytes);
      channel := after;
      return answer;
    }
  }

  method SendAllBytes(socket: SendSocket, bytes: seq<byte>) returns (sent: nat, error: Option<SendError>)
    modifies socket
    ensures SendReceipt(sent, error, socket.channel) == SendAll(old(socket.channel), bytes)
  {
    hide SendOnce;
    sent, error := 0, None;
    while sent < |bytes|
      invariant sent <= |bytes|
      invariant SendAll(old(socket.channel), bytes).channel == SendAll(socket.channel, bytes[sent..]).channel
      invariant SendAll(old(socket.channel), bytes).error == SendAll(socket.channel, bytes[sent..]).error
      invariant SendAll(old(socket.channel), bytes).sent == sent + SendAll(socket.channel, bytes[sent..]).sent
      decreases |socket.channel.schedule| + |bytes| - sent
    {
      var reply := socket.Send(bytes[sent..]);
      if reply.Sent? && reply.count > 0 {
        assert bytes[sent..][reply.count..] == bytes[sent + reply.count..];
        sent := sent + reply.count;
      } else if !reply.SendEintr? {
        error := Some(if reply.Sent? then BrokenPipe else SendErrno(reply.code));
        return;
      }
    }
  }
}
