/**
 * Exact-length stream transfer over an abstract kernel. The kernel answers every call from a schedule of
 * fragments, interruptions, empty polls and failures; after the schedule it is ready until the peer closes.
 */
module StreamReceive {
  import opened UdpWire

  const EAGAIN: int := 11

  /** What the kernel does on one call; `stop` is what the caller's stop predicate then answers. */
  datatype Outcome = Fragment(size: nat) | Interrupted(stop: bool) | WouldBlock(stop: bool) | Failed(code: int)

  /** The bytes the peer sends before it closes, and the kernel's schedule. */
  datatype Peer = Peer(stream: seq<byte>, schedule: seq<Outcome>) {
    function Remaining(): nat { |stream| + |schedule| }
  }

  /** The outcomes of recv: a positive count, zero, and the errno cases. */
  datatype Reply = Bytes(data: seq<byte>) | EndOfStream | Eintr(stop: bool) | Eagain(stop: bool) | Errno(code: int)

  datatype ReceiveState = Complete | Stopped | PeerClosed | Error(code: int)

  datatype Receipt = Receipt(data: seq<byte>, state: ReceiveState, peer: Peer) {
    /** This receipt after bytes received earlier in the same call. */
    function After(earlier: seq<byte>): Receipt {
      this.(data := earlier + data)
    }
  }

  function Min(a: nat, b: nat): nat {
    if a < b then a else b
  }

  /** One recv for at most `want` bytes. */
  function Recv(k: Peer, want: nat): (r: (Reply, Peer))
    requires want > 0
    ensures r.1.Remaining() < k.Remaining() || r.0.EndOfStream?
    ensures r.0.EndOfStream? ==> k.stream == []
    ensures if r.0.Bytes? then 0 < |r.0.data| <= want && k.stream == r.0.data + r.1.stream else r.1.stream == k.stream
  {
    if k.schedule == [] then Deliver(k, want, want) else
      var rest := Peer(k.stream, k.schedule[1..]);
      match k.schedule[0]
      case Fragment(size) => Deliver(rest, want, if size == 0 then 1 else size)
      case Interrupted(stop) => (Eintr(stop), rest)
      case WouldBlock(stop) => (Eagain(stop), rest)
      case Failed(code) => (Errno(code), rest)
  }

  function Deliver(k: Peer, want: nat, size: nat): (r: (Reply, Peer))
    requires want > 0 && size > 0
  {
    var n := Min(Min(size, want), |k.stream|);
    if n == 0 then (EndOfStream, k) else (Bytes(k.stream[..n]), Peer(k.stream[n..], k.schedule))
  }

  /** receive_exact_busy_spin for `want` bytes. */
  function Spin(k: Peer, want: nat): (r: Receipt)
    ensures |r.data| <= want
    decreases k.Remaining()
  {
    if want == 0 then Receipt([], Complete, k) else
      var (reply, k') := Recv(k, want);
      match reply
      case Bytes(data) => Spin(k', want - |data|).After(data)
      case Eintr(stop) => if stop then Receipt([], Stopped, k') else Spin(k', want)
      case Eagain(stop) => if stop then Receipt([], Stopped, k') else Spin(k', want)
      case EndOfStream => Receipt([], PeerClosed, k')
      case Errno(code) => Receipt([], Error(code), k')
  }

  /** receive_exact_blocking for `want` bytes: no stop predicate, and an empty poll is an error. */
  function Block(k: Peer, want: nat): (r: Receipt)
    ensures |r.data| <= want
    decreases k.Remaining()
  {
    if want == 0 then Receipt([], Complete, k) else
      var (reply, k') := Recv(k, want);
      match reply
      case Bytes(data) => Block(k', want - |data|).After(data)
      case Eintr(_) => Block(k', want)
      case Eagain(_) => Receipt([], Error(EAGAIN), k')
      case EndOfStream => Receipt([], PeerClosed, k')
      case Errno(code) => Receipt([], Error(code), k')
  }

  // ----- nothing is lost, and complete means full -----

  /** What a call leaves: the bytes it took are the next ones of the stream, and complete means all of them. */
  ghost predicate TakesPrefix(k: Peer, want: nat, r: Receipt) {
    && k.stream == r.data + r.peer.stream
    && (r.state == Complete <==> |r.data| == want)
    && (r.state == PeerClosed ==> r.peer.stream == [])
    && (r.state == Stopped ==> r.peer.Remaining() < k.Remaining())
  }

  lemma {:induction false} SpinTakesPrefix(k: Peer, want: nat)
    ensures TakesPrefix(k, want, Spin(k, want))
    decreases k.Remaining()
  {
    hide Recv;
    if want > 0 {
      var (reply, k') := Recv(k, want);
      if reply.Bytes? {
        SpinTakesPrefix(k', want - |reply.data|);
        var rest := Spin(k', want - |reply.data|);
        assert k.stream == (reply.data + rest.data) + rest.peer.stream;
      } else if (reply.Eintr? || reply.Eagain?) && !reply.stop {
        SpinTakesPrefix(k', want);
      } else if reply.EndOfStream? {
        assert k'.stream == [];
      }
    }
  }

  lemma {:induction false} BlockTakesPrefix(k: Peer, want: nat)
    ensures TakesPrefix(k, want, Block(k, want)) && Block(k, want).state != Stopped
    decreases k.Remaining()
  {
    hide Recv;
    if want > 0 {
      var (reply, k') := Recv(k, want);
      if reply.Bytes? {
        BlockTakesPrefix(k', want - |reply.data|);
        var rest := Block(k', want - |reply.data|);
        assert k.stream == (reply.data + rest.data) + rest.peer.stream;
      } else if reply.Eintr? {
        BlockTakesPrefix(k', want);
      } else if reply.EndOfStream? {
        assert k'.stream == [];
      }
    }
  }

  // ----- which call decides -----

  /** The kernel's answers to successive calls for what is still wanted. */
  ghost predicate Answers(k: Peer, want: nat, replies: seq<Reply>, after: Peer)
    decreases |replies|
  {
    if replies == [] then after == k
    else
      && want > 0 && replies[0] == Recv(k, want).0
      && Answers(Recv(k, want).1, Left(want, replies[0]), replies[1..], after)
  }

  ghost function Left(want: nat, reply: Reply): nat {
    if reply.Bytes? && |reply.data| <= want then want - |reply.data| else want
  }

  function BytesOf(replies: seq<Reply>): seq<byte> {
    if replies == [] then [] else (if replies[0].Bytes? then replies[0].data else []) + BytesOf(replies[1..])
  }

  /** The answer ends the call: the peer's close, a failure, and for the spin a stop after an idle answer. */
  predicate Ends(blocking: bool, reply: Reply) {
    match reply
    case Bytes(_) => false
    case EndOfStream => true
    case Eintr(stop) => !blocking && stop
    case Eagain(stop) => blocking || stop
    case Errno(_) => true
  }

  function StateAfter(blocking: bool, reply: Reply): ReceiveState {
    match reply
    case EndOfStream => PeerClosed
    case Errno(code) => Error(code)
    case Eagain(_) => if blocking then Error(EAGAIN) else Stopped
    case _ => Stopped
  }

  /** The call's result is what its answers say: the bytes of all, and the state of the first that ends it. */
  ghost predicate DecidedBy(k: Peer, want: nat, blocking: bool, replies: seq<Reply>, r: Receipt) {
    && Answers(k, want, replies, r.peer) && r.data == BytesOf(replies)
    && (forall i :: 0 <= i < |replies| - 1 ==> !Ends(blocking, replies[i]))
    && (if replies != [] && Ends(blocking, replies[|replies| - 1])
        then r.state == StateAfter(blocking, replies[|replies| - 1]) && |r.data| < want
        else r.state == Complete && |r.data| == want)
  }

  lemma DecidedLater(k: Peer, want: nat, blocking: bool, replies: seq<Reply>, r: Receipt)
    requires want > 0 && !Ends(blocking, Recv(k, want).0)
    requires DecidedBy(Recv(k, want).1, Left(want, Recv(k, want).0), blocking, replies, r)
    ensures var reply := Recv(k, want).0;
            DecidedBy(k, want, blocking, [reply] + replies, if reply.Bytes? then r.After(reply.data) else r)
  {
    hide Recv;
    var reply := Recv(k, want).0;
    var all := [reply] + replies;
    assert all[1..] == replies;
    if !reply.Bytes? {
      assert [] + BytesOf(replies) == BytesOf(replies);
    }
  }

  lemma DecidedNow(k: Peer, want: nat, blocking: bool, r: Receipt)
    requires if want == 0 then r == Receipt([], Complete, k)
             else Ends(blocking, Recv(k, want).0) && r == Receipt([], StateAfter(blocking, Recv(k, want).0), Recv(k, want).1)
    ensures DecidedBy(k, want, blocking, if want == 0 then [] else [Recv(k, want).0], r)
  {
    hide Recv;
    if want > 0 {
      var reply := Recv(k, want).0;
      assert [reply][1..] == [] && BytesOf([reply][1..]) == [];
      assert Answers(Recv(k, want).1, Left(want, reply), [], r.peer);
    }
  }

  lemma {:induction false} SpinIsDecided(k: Peer, want: nat) returns (replies: seq<Reply>)
    ensures DecidedBy(k, want, false, replies, Spin(k, want))
    decreases k.Remaining()
  {
    hide Recv, DecidedBy;
    if want > 0 && !Ends(false, Recv(k, want).0) {
      var (reply, k') := Recv(k, want);
      var rest := SpinIsDecided(k', Left(want, reply));
      DecidedLater(k, want, false, rest, Spin(k', Left(want, reply)));
      replies := [reply] + rest;
    } else {
      DecidedNow(k, want, false, Spin(k, want));
      replies := if want == 0 then [] else [Recv(k, want).0];
    }
  }

  lemma {:induction false} BlockIsDecided(k: Peer, want: nat) returns (replies: seq<Reply>)
    ensures DecidedBy(k, want, true, replies, Block(k, want))
    decreases k.Remaining()
  {
    hide Recv, DecidedBy;
    if want > 0 && !Ends(true, Recv(k, want).0) {
      var (reply, k') := Recv(k, want);
      var rest := BlockIsDecided(k', Left(want, reply));
      DecidedLater(k, want, true, rest, Block(k', Left(want, reply)));
      replies := [reply] + rest;
    } else {
      DecidedNow(k, want, true, Block(k, want));
      replies := if want == 0 then [] else [Recv(k, want).0];
    }
  }

  // ----- stop and resume -----

  function NeverStops(o: Outcome): Outcome {
    if o.Interrupted? || o.WouldBlock? then o.(stop := false) else o
  }

  /** The same kernel when the stop predicate always answers false. */
  function Quiet(k: Peer): (q: Peer)
    ensures q.Remaining() == k.Remaining() && q.stream == k.stream
  {
    k.(schedule := seq(|k.schedule|, i requires 0 <= i < |k.schedule| => NeverStops(k.schedule[i])))
  }

  /** The call repeated on the rest of the span until it is not stopped any more. */
  function Resumed(k: Peer, want: nat): (r: Receipt)
    decreases k.Remaining()
  {
    var r := Spin(k, want);
    if r.state == Stopped then
      SpinTakesPrefix(k, want);
      Resumed(r.peer, want - |r.data|).After(r.data)
    else r
  }

  ghost predicate SameReceipt(quiet: Receipt, r: Receipt) {
    quiet.data == r.data && quiet.state == r.state && quiet.peer == Quiet(r.peer)
  }

  lemma QuietRecv(k: Peer, want: nat)
    requires want > 0
    ensures var (reply, k') := Recv(k, want); var (reply', q') := Recv(Quiet(k), want);
            && q' == Quiet(k')
            && reply' == (if reply.Eintr? || reply.Eagain? then reply.(stop := false) else reply)
  {
    if k.schedule != [] {
      assert Quiet(k).schedule[1..] == Quiet(Peer(k.stream, k.schedule[1..])).schedule;
    }
  }

  /** Stopping any number of times and resuming is one uninterrupted call. */
  lemma {:induction false} ResumedIsUninterrupted(k: Peer, want: nat)
    ensures SameReceipt(Spin(Quiet(k), want), Resumed(k, want))
    decreases k.Remaining()
  {
    hide Recv, Quiet;
    if want > 0 {
      var (reply, k') := Recv(k, want);
      QuietRecv(k, want);
      if reply.Bytes? {
        ResumedIsUninterrupted(k', want - |reply.data|);
        ResumedStep(k, want);
      } else if reply.Eintr? || reply.Eagain? {
        ResumedIsUninterrupted(k', want);
      }
    }
  }

  lemma {:induction false} ResumedTakesPrefix(k: Peer, want: nat)
    ensures TakesPrefix(k, want, Resumed(k, want)) && Resumed(k, want).state != Stopped
  {
    ResumedIsUninterrupted(k, want);
    SpinTakesPrefix(Quiet(k), want);
    ResumedNeverStops(k, want);
  }

  lemma {:induction false} ResumedNeverStops(k: Peer, want: nat)
    ensures Resumed(k, want).state != Stopped
    decreases k.Remaining()
  {
    var r := Spin(k, want);
    if r.state == Stopped {
      SpinTakesPrefix(k, want);
      ResumedNeverStops(r.peer, want - |r.data|);
    }
  }

  lemma ResumedStep(k: Peer, want: nat)
    requires want > 0 && Recv(k, want).0.Bytes?
    ensures var (reply, k') := Recv(k, want);
            Resumed(k, want) == Resumed(k', want - |reply.data|).After(reply.data)
  {
    hide Recv;
    var (reply, k') := Recv(k, want);
    var rest := Spin(k', want - |reply.data|);
    if rest.state == Stopped {
      SpinTakesPrefix(k', want - |reply.data|);
      var later := Resumed(rest.peer, want - |reply.data| - |rest.data|).data;
      assert (reply.data + rest.data) + later == reply.data + (rest.data + later);
    }
  }

  // ----- the blocking form -----

  /** A blocking descriptor waits where a polled one has nothing. */
  function Waiting(schedule: seq<Outcome>): seq<Outcome> {
    if schedule == [] then [] else
      (if schedule[0].WouldBlock? then [] else [NeverStops(schedule[0])]) + Waiting(schedule[1..])
  }

  function Blocking(k: Peer): Peer {
    k.(schedule := Waiting(k.schedule))
  }

  /** The blocking call gets the same bytes and the same state as the uninterrupted busy spin. */
  lemma {:induction false} BlockingIsSpin(k: Peer, want: nat)
    ensures var s := Spin(Quiet(k), want); var b := Block(Blocking(k), want);
            b.data == s.data && b.state == s.state && b.peer.stream == s.peer.stream
    decreases k.Remaining()
  {
    hide Quiet, Recv;
    if want > 0 {
      QuietRecv(k, want);
      var (reply, k') := Recv(k, want);
      if reply.Bytes? {
        BlockingRecv(k, want);
        BlockingIsSpin(k', want - |reply.data|);
      } else if reply.Eintr? {
        BlockingRecv(k, want);
        BlockingIsSpin(k', want);
      } else if reply.Eagain? {
        BlockingSkips(k, want);
        BlockingIsSpin(k', want);
      } else {
        BlockingRecv(k, want);
      }
    }
  }

  lemma BlockingSkips(k: Peer, want: nat)
    requires want > 0 && Recv(k, want).0.Eagain?
    ensures Blocking(k) == Blocking(Recv(k, want).1)
  {}

  lemma BlockingRecv(k: Peer, want: nat)
    requires want > 0 && !Recv(k, want).0.Eagain?
    ensures var (reply, k') := Recv(k, want); var (reply', b') := Recv(Blocking(k), want);
            && b' == Blocking(k')
            && reply' == if reply.Eintr? then Eintr(false) else reply
  {}

  /** No call fails. */
  ghost predicate Healthy(k: Peer) {
    forall o :: o in k.schedule ==> !o.Failed?
  }

  lemma HealthyRecv(k: Peer, want: nat)
    requires Healthy(k) && want > 0
    ensures !Recv(k, want).0.Errno? && Healthy(Recv(k, want).1)
  {}

  /** The cases of a resumed receive that take no bytes. */
  lemma ResumedIdle(k: Peer, want: nat)
    ensures want == 0 ==> Resumed(k, want) == Receipt([], Complete, k)
    ensures want > 0 ==>
              var (reply, k') := Recv(k, want);
              && (reply.Eintr? || reply.Eagain? ==> Resumed(k, want) == Resumed(k', want))
              && (reply.EndOfStream? ==> Resumed(k, want) == Receipt([], PeerClosed, k'))
  {
    hide Recv;
    if want > 0 && (Recv(k, want).0.Eintr? || Recv(k, want).0.Eagain?) && Recv(k, want).0.stop {
      var rest := Resumed(Recv(k, want).1, want);
      assert rest.After([]) == rest;
    }
  }

  lemma FrontOfConcat(data: seq<byte>, rest: seq<byte>, want: nat)
    requires |data| <= want
    ensures (data + rest)[..Min(want, |data + rest|)] == data + rest[..Min(want - |data|, |rest|)]
  {}

  /** However the stream is cut up, a call that does not fail gets, stopped or not, all it wants or all there is. */
  lemma {:induction false} FragmentsDoNotMatter(k: Peer, want: nat)
    requires Healthy(k)
    ensures var n := Min(want, |k.stream|); var r := Resumed(k, want);
            && r.data == k.stream[..n] && r.state == (if want <= |k.stream| then Complete else PeerClosed)
            && Healthy(r.peer)
    decreases k.Remaining()
  {
    hide Recv, Healthy, Spin, Resumed;
    ResumedIdle(k, want);
    if want > 0 {
      HealthyRecv(k, want);
      var (reply, k') := Recv(k, want);
      if reply.Bytes? {
        FragmentsDoNotMatter(k', want - |reply.data|);
        ResumedStep(k, want);
        FrontOfConcat(reply.data, k'.stream, want);
      } else if !reply.EndOfStream? {
        FragmentsDoNotMatter(k', want);
      }
    }
  }

  // ----- the calls on the caller's buffer -----

  /** buffer with data written from index start. */
  function Overwrite(buffer: seq<byte>, start: nat, data: seq<byte>): seq<byte>
    requires start + |data| <= |buffer|
  {
    buffer[..start] + data + buffer[start + |data|..]
  }

  /** Only the span's front changes, and it holds the data. */
  lemma OverwriteMeans(buffer: seq<byte>, start: nat, data: seq<byte>)
    requires start + |data| <= |buffer|
    ensures |Overwrite(buffer, start, data)| == |buffer|
    ensures forall i :: 0 <= i < |buffer| ==>
              Overwrite(buffer, start, data)[i] == if start <= i < start + |data| then data[i - start] else buffer[i]
  {}

  class Socket {
    var peer: Peer

    constructor (peer: Peer)
      ensures this.peer == peer
    {
      this.peer := peer;
    }

    method Receive(bytes: array<byte>, start: nat, want: nat) returns (reply: Reply)
      requires start + want <= bytes.Length && want > 0
      modifies this, bytes
      ensures (reply, peer) == Recv(old(peer), want)
      ensures bytes[..] == if reply.Bytes? then Overwrite(old(bytes[..]), start, reply.data) else old(bytes[..])
    {
      var (answer, after) := Recv(peer, want);
      peer := after;
      if answer.Bytes? {
        forall i | 0 <= i < |answer.data| {
          bytes[start + i] := answer.data[i];
        }
      }
      return answer;
    }
  }

  lemma OverwriteTwice(buffer: seq<byte>, start: nat, first: seq<byte>, second: seq<byte>)
    requires start + |first| + |second| <= |buffer|
    ensures Overwrite(Overwrite(buffer, start, first), start + |first|, second) == Overwrite(buffer, start, first + second)
  {}

  lemma OverwriteNothing(buffer: seq<byte>, start: nat)
    requires start <= |buffer|
    ensures Overwrite(buffer, start, []) == buffer
  {}

  method ReceiveExactBlocking(socket: Socket, bytes: array<byte>, start: nat, length: nat)
    returns (received: nat, state: ReceiveState)
    requires start + length <= bytes.Length
    modifies socket, bytes
    ensures var r := Block(old(socket.peer), length);
            && received == |r.data| && state == r.state && socket.peer == r.peer
            && bytes[..] == Overwrite(old(bytes[..]), start, r.data)
  {
    hide Recv, Overwrite;
    OverwriteNothing(bytes[..], start);
    received := 0;
    ghost var data: seq<byte> := [];
    while received < length
      invariant received == |data| <= length
      invariant bytes[..] == Overwrite(old(bytes[..]), start, data)
      invariant Block(old(socket.peer), length) == Block(socket.peer, length - received).After(data)
      decreases socket.peer.Remaining()
    {
      assert data + [] == data;
      var reply := socket.Receive(bytes, start + received, length - received);
      if reply.Bytes? {
        OverwriteTwice(old(bytes[..]), start, data, reply.data);
        data := data + reply.data;
        received := received + |reply.data|;
      } else if !reply.Eintr? {
        if reply.EndOfStream? {
          state := PeerClosed;
        } else {
          state := Error(if reply.Eagain? then EAGAIN else reply.code);
        }
        return;
      }
    }
    assert data + [] == data;
    state := Complete;
  }

  method ReceiveExactBusySpin(socket: Socket, bytes: array<byte>, start: nat, length: nat)
    returns (received: nat, state: ReceiveState)
    requires start + length <= bytes.Length
    modifies socket, bytes
    ensures var r := Spin(old(socket.peer), length);
            && received == |r.data| && state == r.state && socket.peer == r.peer
            && bytes[..] == Overwrite(old(bytes[..]), start, r.data)
  {
    hide Recv, Overwrite;
    OverwriteNothing(bytes[..], start);
    received := 0;
    ghost var data: seq<byte> := [];
    while received < length
      invariant received == |data| <= length
      invariant bytes[..] == Overwrite(old(bytes[..]), start, data)
      invariant Spin(old(socket.peer), length) == Spin(socket.peer, length - received).After(data)
      decreases socket.peer.Remaining()
    {
      assert data + [] == data;
      var reply := socket.Receive(bytes, start + received, length - received);
      if reply.Bytes? {
        OverwriteTwice(old(bytes[..]), start, data, reply.data);
        data := data + reply.data;
        received := received + |reply.data|;
      } else if reply.Eintr? || reply.Eagain? {
        if reply.stop {
          state := Stopped;
          return;
        }
      } else if reply.EndOfStream? {
        state := PeerClosed;
        return;
      } else {
        state := Error(reply.code);
        return;
      }
    }
    assert data + [] == data;
    state := Complete;
  }
}
