/** The server's receive loop: real bitmap and counters, over every sequence of requests. */
module UdpServer {
  import opened Options
  import opened UdpWire
  import opened UdpEndpoints

  /** What the server has counted after these datagrams. */
  function Served(g: Setup, requests: seq<Datagram>): (t: Tally)
    requires g.Valid()
    ensures |t.seen| == g.samples
  {
    if requests == [] then NewTally(g) else
      var n := |requests| - 1;
      var t := Served(g, requests[..n]);
      Count(g, t, ClassifyRequest(g, t.seen, requests[n]))
  }

  /** What it has sent back, in order. */
  function EchoesOf(g: Setup, requests: seq<Datagram>): seq<seq<byte>>
    requires g.Valid()
  {
    if requests == [] then [] else
      var n := |requests| - 1;
      EchoesOf(g, requests[..n]) + if Echoes(ClassifyRequest(g, Served(g, requests[..n]).seen, requests[n])) then [requests[n].bytes] else []
  }

  /** Every request is counted exactly once, and exactly those that are neither truncated nor invalid are echoed. */
  lemma {:induction false} ServedConserved(g: Setup, requests: seq<Datagram>)
    requires g.Valid()
    ensures var t := Served(g, requests);
            && Conserved(g, t) && t.received == |requests|
            && |EchoesOf(g, requests)| == t.warmups + t.duplicates + |t.firsts|
  {
    hide BitmapExact, IsHighWater, Reordered, ReadSequence;
    if requests == [] {
      NewTallyConserved(g);
    } else {
      var n := |requests| - 1;
      ServedConserved(g, requests[..n]);
      RequestConserved(g, Served(g, requests[..n]), requests[n]);
    }
  }

  /** Every request is counted as what it is. */
  lemma {:induction false} ServedCounts(g: Setup, requests: seq<Datagram>)
    requires g.Valid()
    ensures CountsKinds(RequestKinds(g), NewTally(g), requests, Served(g, requests))
  {
    hide ClassifyRequest, Count, RequestKinds;
    if requests != [] {
      var n := |requests| - 1;
      ServedCounts(g, requests[..n]);
      RequestCounted(g, Served(g, requests[..n]), requests[n]);
    }
  }

  /** A request the server answers: whole, and with a sequence of the session. */
  ghost predicate Accepted(g: Setup, d: Datagram)
    requires g.Valid()
  {
    exists x: nat :: Requests(g, d, x)
  }

  lemma AcceptedIsEchoed(g: Setup, seen: seq<bool>, d: Datagram)
    requires g.Valid() && |seen| == g.samples
    ensures Echoes(ClassifyRequest(g, seen, d)) <==> Accepted(g, d)
  {
    hide Header, ReadSequence, ClassifyRequest;
    RequestVerdicts(g, seen, d);
  }

  /** The answers are the accepted requests, byte for byte and in order: answer j repeats request which[j]. */
  ghost predicate Repeats(g: Setup, requests: seq<Datagram>, sent: seq<seq<byte>>, which: seq<nat>)
    requires g.Valid()
  {
    && |which| == |sent|
    && (forall j :: 0 <= j < |which| ==>
          which[j] < |requests| && sent[j] == requests[which[j]].bytes && Accepted(g, requests[which[j]]))
    && (forall i, j :: 0 <= i < j < |which| ==> which[i] < which[j])
    && (forall k: nat :: k < |requests| && Accepted(g, requests[k]) ==> k in which)
  }

  lemma RepeatsMore(g: Setup, requests: seq<Datagram>, sent: seq<seq<byte>>, which: seq<nat>)
    requires g.Valid() && requests != [] && Repeats(g, requests[..|requests| - 1], sent, which)
    ensures var n := |requests| - 1;
            if Accepted(g, requests[n]) then Repeats(g, requests, sent + [requests[n].bytes], which + [n])
            else Repeats(g, requests, sent, which)
  {
    hide Accepted;
    var n := |requests| - 1;
    assert forall k: nat :: k < n ==> requests[..n][k] == requests[k];
    assert (which + [n])[|which|] == n;
    forall k: nat | k < |requests| && Accepted(g, requests[k])
      ensures k in which + [n]
    {
      if k < n {
        assert k in which;
      }
    }
  }

  lemma {:induction false} EchoesRepeat(g: Setup, requests: seq<Datagram>) returns (which: seq<nat>)
    requires g.Valid()
    ensures Repeats(g, requests, EchoesOf(g, requests), which)
  {
    hide ClassifyRequest, Accepted, Served, Repeats;
    if requests == [] {
      which := [];
      NothingRepeated(g);
    } else {
      var n := |requests| - 1;
      which := EchoesRepeat(g, requests[..n]);
      RepeatsMore(g, requests, EchoesOf(g, requests[..n]), which);
      AcceptedIsEchoed(g, Served(g, requests[..n]).seen, requests[n]);
      if Accepted(g, requests[n]) {
        which := which + [n];
      } else {
        assert EchoesOf(g, requests) == EchoesOf(g, requests[..n]);
      }
    }
  }

  lemma NothingRepeated(g: Setup)
    requires g.Valid()
    ensures Repeats(g, [], [], [])
  {}

  /** The datagram is a valid request for measured sample k. */
  predicate Asks(g: Setup, d: Datagram, k: nat)
    requires g.Valid()
  {
    !d.truncated && |d.bytes| == g.size && ReadSequence(d.bytes, UDP) == Some(g.warmup + k)
  }

  ghost predicate SomeAsk(g: Setup, requests: seq<Datagram>, k: nat)
    requires g.Valid()
  {
    exists d :: d in requests && Asks(g, d, k)
  }

  lemma AskOne(g: Setup, requests: seq<Datagram>, d: Datagram, k: nat)
    requires g.Valid()
    ensures SomeAsk(g, requests + [d], k) <==> SomeAsk(g, requests, k) || Asks(g, d, k)
  {
    hide Asks;
    if Asks(g, d, k) {
      assert d in requests + [d];
    }
    if SomeAsk(g, requests, k) {
      var e :| e in requests && Asks(g, e, k);
      assert e in requests + [d];
    }
  }

  /** A sample's bit is set exactly when some datagram asked for it. */
  lemma {:induction false} SeenExactly(g: Setup, requests: seq<Datagram>, k: nat)
    requires g.Valid() && k < g.samples
    ensures Served(g, requests).seen[k] <==> SomeAsk(g, requests, k)
  {
    hide ReadSequence, SomeAsk;
    if requests == [] {
      assert !SomeAsk(g, [], k) by { NobodyAsks(g, k); }
    } else {
      var n := |requests| - 1;
      SeenExactly(g, requests[..n], k);
      AskOne(g, requests[..n], requests[n], k);
      assert requests[..n] + [requests[n]] == requests;
    }
  }

  lemma NobodyAsks(g: Setup, k: nat)
    requires g.Valid()
    ensures !SomeAsk(g, [], k)
  {}

  /** Retransmission, duplication and reordering change neither the bitmap nor measured_unique_requests. */
  lemma OrderAndRepetitionDoNotMatter(g: Setup, xs: seq<Datagram>, ys: seq<Datagram>)
    requires g.Valid() && forall d :: d in xs <==> d in ys
    ensures Served(g, xs).seen == Served(g, ys).seen
    ensures |Served(g, xs).firsts| == |Served(g, ys).firsts|
  {
    hide Asks, Served;
    forall k | 0 <= k < g.samples
      ensures Served(g, xs).seen[k] == Served(g, ys).seen[k]
    {
      SeenExactly(g, xs, k);
      SeenExactly(g, ys, k);
    }
    ServedConserved(g, xs);
    ServedConserved(g, ys);
  }

  /** The variables of the server thread. */
  class ServerLoop {
    const g: Setup
    const measuredSeen: array<bool>
    var truncated: nat
    var invalid: nat
    var messages: nat
    var unique: nat
    var duplicates: nat
    var reordered: nat
    var highWaterValid: bool
    var highWater: u32
    ghost var tally: Tally

    /** The variables hold exactly the tally. */
    ghost predicate Valid()
      reads this, measuredSeen
    {
      && g.Valid() && measuredSeen.Length == g.samples
      && tally.seen == measuredSeen[..] && tally.truncated == truncated && tally.invalid == invalid
      && tally.duplicates == duplicates && tally.reordered == reordered && |tally.firsts| == unique
      && tally.warmups + tally.duplicates + |tally.firsts| == messages
      && tally.highWater == (if highWaterValid then Some(highWater) else None)
    }

    constructor (g: Setup)
      requires g.Valid()
      ensures Valid() && this.g == g && tally == NewTally(g) && fresh(measuredSeen)
    {
      this.g := g;
      measuredSeen := new bool[g.samples](_ => false);
      truncated, invalid, messages, unique, duplicates, reordered := 0, 0, 0, 0, 0, 0;
      highWaterValid, highWater, tally := false, 0, NewTally(g);
      new;
      assert measuredSeen[..] == NewTally(g).seen;
    }

    /** The body of the server loop; `echo` is whether the datagram is sent back. */
    method OnRequest(d: Datagram) returns (echo: bool)
      requires Valid()
      modifies this, measuredSeen
      ensures Valid()
      ensures var v := ClassifyRequest(g, old(tally).seen, d);
              tally == Count(g, old(tally), v) && echo == Echoes(v)
    {
      hide ReadSequence;
      tally := Count(g, tally, ClassifyRequest(g, tally.seen, d));
      if d.truncated || |d.bytes| > g.size {
        truncated := truncated + 1;
        return false;
      }
      if |d.bytes| != g.size {
        invalid := invalid + 1;
        return false;
      }
      var read := ReadSequence(d.bytes, UDP);
      if read.None? || read.value >= g.Total() {
        invalid := invalid + 1;
        return false;
      }
      var observed := read.value;
      messages := messages + 1;
      if observed < g.warmup {
        return true;
      }
      if measuredSeen[observed - g.warmup] {
        duplicates := duplicates + 1;
        return true;
      }
      measuredSeen[observed - g.warmup] := true;
      unique := unique + 1;
      if highWaterValid && observed < highWater {
        reordered := reordered + 1;
      }
      if !highWaterValid || observed > highWater {
        highWater, highWaterValid := observed, true;
      }
      return true;
    }

    /** The loop until cancellation: what it counts and what it sends back. */
    method Serve(datagrams: seq<Datagram>) returns (sent: seq<seq<byte>>, ghost which: seq<nat>)
      requires Valid() && tally == NewTally(g)
      modifies this, measuredSeen
      ensures Valid() && tally == Served(g, datagrams) && sent == EchoesOf(g, datagrams)
      ensures Repeats(g, datagrams, sent, which)
      ensures messages == |sent| && truncated + invalid + messages == |datagrams|
    {
      hide ClassifyRequest, Count;
      sent := [];
      for k := 0 to |datagrams|
        invariant Valid() && tally == Served(g, datagrams[..k]) && sent == EchoesOf(g, datagrams[..k])
      {
        assert datagrams[..k + 1][..k] == datagrams[..k];
        var echo := OnRequest(datagrams[k]);
        if echo {
          sent := sent + [datagrams[k].bytes];
        }
      }
      assert datagrams[..|datagrams|] == datagrams;
      ServedConserved(g, datagrams);
      which := EchoesRepeat(g, datagrams);
    }
  }
}
