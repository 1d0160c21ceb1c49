/** The client's measured loop: real bitmap and counters, over every sequence of arrivals. */
module UdpClient {
  import opened Options
  import opened Words
  import opened UdpWire
  import opened UdpEndpoints

  /** Waiting for one sample: arrivals until it is recorded or time runs out; None when a sample is non-positive. */
  function Sample(g: Setup, c: Client, index: nat, arrivals: seq<Arrival>): (o: Option<Client>)
    requires g.Valid() && |c.tally.seen| == g.samples && index < g.samples
    ensures o.Some? ==> |o.value.tally.seen| == g.samples
    decreases |arrivals|
  {
    if arrivals == [] then Some(c) else
      match OnResponse(g, c, g.warmup + index, arrivals[0])
      case Waiting(d) => Sample(g, d, index, arrivals[1..])
      case Recorded(d) => Some(d)
      case NonPositive => None
  }

  /** All samples; `samples[i]` is what the network hands the client while it waits for sample i. */
  function Measured(g: Setup, samples: seq<seq<Arrival>>): (o: Option<Client>)
    requires g.Valid() && |samples| <= g.samples
    ensures o.Some? ==> |o.value.tally.seen| == g.samples
  {
    if samples == [] then Some(NewClient(g)) else
      var n := |samples| - 1;
      match Measured(g, samples[..n])
      case None => None
      case Some(c) => Sample(g, c, n, samples[n])
  }

  lemma InvWidens(g: Setup, c: Client, index: nat)
    requires ClientInv(g, c, index) && index < g.samples
    ensures ClientInv(g, c, index + 1)
  {}

  lemma {:induction false} SampleKeeps(g: Setup, c: Client, index: nat, arrivals: seq<Arrival>)
    requires ClientInv(g, c, index) && index < g.samples
    ensures var o := Sample(g, c, index, arrivals);
            o.Some? ==> ClientInv(g, o.value, index + 1)
    decreases |arrivals|
  {
    hide OnResponse, Conserved;
    if arrivals == [] {
      InvWidens(g, c, index);
    } else {
      OnResponseKeeps(g, c, index, arrivals[0]);
      var r := OnResponse(g, c, g.warmup + index, arrivals[0]);
      if r.Waiting? {
        SampleKeeps(g, r.c, index, arrivals[1..]);
      }
    }
  }

  /** Whatever the network does, every datagram of the measured loop is counted exactly once. */
  lemma {:induction false} MeasuredKeeps(g: Setup, samples: seq<seq<Arrival>>)
    requires g.Valid() && |samples| <= g.samples
    ensures var o := Measured(g, samples);
            o.Some? ==> ClientInv(g, o.value, |samples|)
  {
    hide Conserved, Sample;
    if samples == [] {
      NewTallyConserved(g);
    } else {
      var n := |samples| - 1;
      MeasuredKeeps(g, samples[..n]);
      var o := Measured(g, samples[..n]);
      if o.Some? {
        SampleKeeps(g, o.value, n, samples[n]);
      }
    }
  }

  // ----- which arrival is recorded, and what is counted -----

  /** The arrivals a sample's wait gets through: all of them, or up to the first response if that is in time. */
  function Heard(g: Setup, arrivals: seq<Arrival>, k: nat, settled: bool): (ds: seq<Datagram>)
    requires g.Valid()
    ensures |ds| <= |arrivals| && forall m :: 0 <= m < |ds| ==> ds[m] == arrivals[m].datagram
  {
    if arrivals == [] then [] else
      var a := arrivals[0];
      if !settled && Answers(g, a.datagram, k) && !a.late then [a.datagram]
      else [a.datagram] + Heard(g, arrivals[1..], k, settled || Answers(g, a.datagram, k))
  }

  /** Arrival j is the sample's first response. */
  ghost predicate FirstAnswer(g: Setup, arrivals: seq<Arrival>, k: nat, j: nat)
    requires g.Valid()
  {
    && j < |arrivals| && Answers(g, arrivals[j].datagram, k)
    && forall m :: 0 <= m < j ==> !Answers(g, arrivals[m].datagram, k)
  }

  /** The sample's first response, if any came. */
  function FirstResponse(g: Setup, arrivals: seq<Arrival>, k: nat): (o: Option<Arrival>)
    requires g.Valid()
    ensures o.None? ==> forall m :: 0 <= m < |arrivals| ==> !Answers(g, arrivals[m].datagram, k)
    ensures o.Some? ==> exists j: nat :: FirstAnswer(g, arrivals, k, j) && arrivals[j] == o.value
  {
    if arrivals == [] then None
    else if Answers(g, arrivals[0].datagram, k) then
      assert FirstAnswer(g, arrivals, k, 0);
      Some(arrivals[0])
    else
      var o := FirstResponse(g, arrivals[1..], k);
      FirstLater(g, arrivals, k, o);
      o
  }

  lemma FirstLater(g: Setup, arrivals: seq<Arrival>, k: nat, o: Option<Arrival>)
    requires g.Valid() && arrivals != [] && !Answers(g, arrivals[0].datagram, k)
    ensures (forall m :: 0 <= m < |arrivals| - 1 ==> !Answers(g, arrivals[1..][m].datagram, k)) ==>
              forall m :: 0 <= m < |arrivals| ==> !Answers(g, arrivals[m].datagram, k)
    ensures o.Some? && (exists j: nat :: FirstAnswer(g, arrivals[1..], k, j) && arrivals[1..][j] == o.value) ==>
              exists j: nat :: FirstAnswer(g, arrivals, k, j) && arrivals[j] == o.value
  {
    hide Answers;
    assert forall m :: 1 <= m < |arrivals| ==> arrivals[m] == arrivals[1..][m - 1];
    if o.Some? && exists j: nat :: FirstAnswer(g, arrivals[1..], k, j) && arrivals[1..][j] == o.value {
      var j: nat :| FirstAnswer(g, arrivals[1..], k, j) && arrivals[1..][j] == o.value;
      assert FirstAnswer(g, arrivals, k, j + 1);
    }
  }

  /** The client after a list of datagrams. */
  function HearAll(g: Setup, t: Tally, ds: seq<Datagram>): (u: Tally)
    requires g.Valid() && |t.seen| == g.samples
    ensures |u.seen| == g.samples
    decreases |ds|
  {
    if ds == [] then t else HearAll(g, Hear(g, t, ds[0]), ds[1..])
  }

  /** Nothing but the tally moves. */
  ghost predicate Unrecorded(c: Client, o: Option<Client>) {
    o.Some? && o.value.latencies == c.latencies && o.value.recorded == c.recorded && o.value.checksum == c.checksum
  }

  /** The sample's one entry: the latency, the sequence and its mix into the checksum. */
  ghost predicate RecordedAs(g: Setup, c: Client, k: nat, elapsed: int, o: Option<Client>)
    requires g.Valid() && k < g.samples
  {
    && elapsed > 0 && o.Some?
    && o.value.latencies == c.latencies + [elapsed] && o.value.recorded == c.recorded + [g.warmup + k]
    && o.value.checksum == UpdateChecksum(c.checksum, g.warmup + k, g.size)
  }

  /** The sample's first response decides: late it is lost, in time it is recorded or, if not positive, the run fails. */
  ghost predicate SampleOutcome(g: Setup, c: Client, k: nat, arrivals: seq<Arrival>, o: Option<Client>)
    requires g.Valid() && |c.tally.seen| == g.samples && k < g.samples
  {
    var first := FirstResponse(g, arrivals, k);
    && (if c.tally.seen[k] || first.None? || first.value.late then Unrecorded(c, o)
        else if first.value.elapsed <= 0 then o.None?
        else RecordedAs(g, c, k, first.value.elapsed, o))
    && (o.Some? ==> o.value.tally == HearAll(g, c.tally, Heard(g, arrivals, k, c.tally.seen[k])))
  }

  /** Hearing one datagram sets the bit it answers and no other. */
  lemma HearSets(g: Setup, t: Tally, d: Datagram)
    requires g.Valid() && |t.seen| == g.samples
    ensures forall k :: 0 <= k < g.samples ==> (Hear(g, t, d).seen[k] <==> t.seen[k] || Answers(g, d, k))
  {
    hide Message, ReadSequence;
    ResponseVerdicts(g, t.seen, d);
    forall k | 0 <= k < g.samples && Answers(g, d, k)
      ensures Hear(g, t, d).seen[k]
    {}
    forall k | 0 <= k < g.samples && Hear(g, t, d).seen[k] && !t.seen[k]
      ensures Answers(g, d, k)
    {}
  }

  lemma {:induction false} SampleMeans(g: Setup, c: Client, k: nat, arrivals: seq<Arrival>)
    requires g.Valid() && |c.tally.seen| == g.samples && k < g.samples
    ensures SampleOutcome(g, c, k, arrivals, Sample(g, c, k, arrivals))
    decreases |arrivals|
  {
    hide OnResponse, Answers, UpdateChecksum, Hear;
    if arrivals != [] {
      var a := arrivals[0];
      OnResponseMeans(g, c, k, a);
      HearSets(g, c.tally, a.datagram);
      var r := OnResponse(g, c, g.warmup + k, a);
      if r.Waiting? {
        SampleMeans(g, r.c, k, arrivals[1..]);
      } else if r.Recorded? {
        assert Heard(g, arrivals, k, c.tally.seen[k]) == [a.datagram];
        assert [a.datagram][1..] == [] && HearAll(g, r.c.tally, []) == r.c.tally;
        assert HearAll(g, c.tally, [a.datagram]) == r.c.tally;
      }
    }
  }

  /** Every datagram heard is counted as what it is. */
  lemma {:induction false} HearAllCounts(g: Setup, t: Tally, ds: seq<Datagram>)
    requires g.Valid() && |t.seen| == g.samples
    ensures CountsKinds(ResponseKinds(g), t, ds, HearAll(g, t, ds))
    decreases |ds|
  {
    hide ClassifyResponse, Count, ResponseKinds;
    if ds != [] {
      var kinds := ResponseKinds(g);
      ResponseCounted(g, t, ds[0]);
      HearAllCounts(g, Hear(g, t, ds[0]), ds[1..]);
      HowManyFirst(ds, kinds.cut);
      HowManyFirst(ds, kinds.warmup);
      HowManyFirst(ds, kinds.sample);
      HowManyFirst(ds, kinds.Other());
    }
  }

  // ----- the whole measured part -----

  lemma {:induction false} HearAllSets(g: Setup, t: Tally, ds: seq<Datagram>, k: nat)
    requires g.Valid() && |t.seen| == g.samples && k < g.samples
    ensures HearAll(g, t, ds).seen[k] <==> t.seen[k] || exists d :: d in ds && Answers(g, d, k)
    decreases |ds|
  {
    hide Answers, Hear;
    if ds != [] {
      HearSets(g, t, ds[0]);
      HearAllSets(g, Hear(g, t, ds[0]), ds[1..], k);
      assert ds == [ds[0]] + ds[1..];
      assert forall d :: d in ds <==> d == ds[0] || d in ds[1..];
    }
  }

  lemma {:induction false} HearAllConcat(g: Setup, t: Tally, xs: seq<Datagram>, ys: seq<Datagram>)
    requires g.Valid() && |t.seen| == g.samples
    ensures HearAll(g, t, xs + ys) == HearAll(g, HearAll(g, t, xs), ys)
    decreases |xs|
  {
    hide Hear;
    if xs == [] {
      assert xs + ys == ys;
    } else {
      assert (xs + ys)[0] == xs[0] && (xs + ys)[1..] == xs[1..] + ys;
      HearAllConcat(g, Hear(g, t, xs[0]), xs[1..], ys);
    }
  }

  /** Everything the client has heard over the samples, sample by sample. */
  function HeardOver(g: Setup, samples: seq<seq<Arrival>>): seq<Datagram>
    requires g.Valid() && |samples| <= g.samples
  {
    if samples == [] then [] else
      var n := |samples| - 1;
      var before := HeardOver(g, samples[..n]);
      before + Heard(g, samples[n], n, AlreadyAnswered(g, before, n))
  }

  predicate AlreadyAnswered(g: Setup, ds: seq<Datagram>, k: nat)
    requires g.Valid()
  {
    exists m :: 0 <= m < |ds| && Answers(g, ds[m], k)
  }

  /** Sample i is recorded: nothing answered it before its turn, and its first response is in time and positive. */
  ghost predicate IsRecorded(g: Setup, samples: seq<seq<Arrival>>, i: nat)
    requires g.Valid() && i < |samples| <= g.samples
  {
    var first := FirstResponse(g, samples[i], i);
    && !AlreadyAnswered(g, HeardOver(g, samples[..i]), i)
    && first.Some? && !first.value.late && first.value.elapsed > 0
  }

  ghost predicate RecordedSamples(g: Setup, samples: seq<seq<Arrival>>, recorded: seq<u32>)
    requires g.Valid() && |samples| <= g.samples
  {
    forall i: nat :: i < |samples| ==> (g.warmup + i in recorded <==> IsRecorded(g, samples, i))
  }

  /** The latency is that of the first response to the sample. */
  ghost predicate EntryOf(g: Setup, samples: seq<seq<Arrival>>, sequence: u32, latency: nat)
    requires g.Valid()
  {
    && g.warmup <= sequence < g.warmup + |samples|
    && var first := FirstResponse(g, samples[sequence - g.warmup], sequence - g.warmup);
       first.Some? && latency == first.value.elapsed
  }

  ghost predicate Entries(g: Setup, samples: seq<seq<Arrival>>, c: Client)
    requires g.Valid()
  {
    |c.latencies| == |c.recorded| && forall j :: 0 <= j < |c.recorded| ==> EntryOf(g, samples, c.recorded[j], c.latencies[j])
  }

  /** What a measured part that did not fail has counted and recorded. */
  ghost predicate MeasuredAs(g: Setup, samples: seq<seq<Arrival>>, c: Client)
    requires g.Valid() && |samples| <= g.samples
  {
    && c.tally == HearAll(g, NewTally(g), HeardOver(g, samples))
    && RecordedSamples(g, samples, c.recorded) && Entries(g, samples, c)
  }

  lemma {:induction false} MeasuredMeans(g: Setup, samples: seq<seq<Arrival>>)
    requires g.Valid() && |samples| <= g.samples
    ensures Measured(g, samples).Some? ==> MeasuredAs(g, samples, Measured(g, samples).value)
  {
    hide Sample, Answers, Hear, Heard, FirstResponse, UpdateChecksum;
    if samples != [] && Measured(g, samples).Some? {
      var n := |samples| - 1;
      MeasuredMeans(g, samples[..n]);
      var c := Measured(g, samples[..n]).value;
      SampleMeans(g, c, n, samples[n]);
      SeenBefore(g, samples[..n], c, n);
      HearAllConcat(g, NewTally(g), HeardOver(g, samples[..n]), Heard(g, samples[n], n, c.tally.seen[n]));
      OneMoreSample(g, samples, c, Measured(g, samples).value);
    }
  }

  lemma SeenBefore(g: Setup, samples: seq<seq<Arrival>>, c: Client, k: nat)
    requires g.Valid() && |samples| <= g.samples && k < g.samples
    requires c.tally == HearAll(g, NewTally(g), HeardOver(g, samples))
    ensures c.tally.seen[k] <==> AlreadyAnswered(g, HeardOver(g, samples), k)
  {
    hide Answers, Hear, HeardOver;
    HearAllSets(g, NewTally(g), HeardOver(g, samples), k);
  }

  lemma OneMoreSample(g: Setup, samples: seq<seq<Arrival>>, c: Client, d: Client)
    requires g.Valid() && 0 < |samples| <= g.samples && |c.tally.seen| == g.samples
    requires var n := |samples| - 1;
             && MeasuredAs(g, samples[..n], c)
             && (c.tally.seen[n] <==> AlreadyAnswered(g, HeardOver(g, samples[..n]), n))
             && SampleOutcome(g, c, n, samples[n], Some(d))
             && d.tally == HearAll(g, NewTally(g), HeardOver(g, samples))
    ensures MeasuredAs(g, samples, d)
  {
    hide RecordedSamples, Entries, Heard, HeardOver, HearAll, UpdateChecksum, Answers;
    MoreRecorded(g, samples, c, d);
    MoreEntries(g, samples, c, d);
  }

  lemma EarlierSample(g: Setup, samples: seq<seq<Arrival>>, i: nat)
    requires g.Valid() && i < |samples| - 1 && |samples| <= g.samples
    ensures IsRecorded(g, samples[..|samples| - 1], i) == IsRecorded(g, samples, i)
  {
    assert samples[..|samples| - 1][i] == samples[i] && samples[..|samples| - 1][..i] == samples[..i];
  }

  lemma MoreRecorded(g: Setup, samples: seq<seq<Arrival>>, c: Client, d: Client)
    requires g.Valid() && 0 < |samples| <= g.samples && |c.tally.seen| == g.samples
    requires var n := |samples| - 1;
             && RecordedSamples(g, samples[..n], c.recorded) && Entries(g, samples[..n], c)
             && (c.tally.seen[n] <==> AlreadyAnswered(g, HeardOver(g, samples[..n]), n))
             && SampleOutcome(g, c, n, samples[n], Some(d))
    ensures RecordedSamples(g, samples, d.recorded)
  {
    hide Heard, HeardOver, FirstResponse, HearAll, AlreadyAnswered, UpdateChecksum, IsRecorded;
    var n := |samples| - 1;
    assert g.warmup + n !in c.recorded;
    forall i: nat | i < |samples|
      ensures g.warmup + i in d.recorded <==> IsRecorded(g, samples, i)
    {
      if i < n {
        EarlierSample(g, samples, i);
        assert g.warmup + i in c.recorded <==> IsRecorded(g, samples[..n], i);
      } else {
        RecordedNow(g, samples, c.tally.seen[n]);
      }
    }
  }

  lemma RecordedNow(g: Setup, samples: seq<seq<Arrival>>, seen: bool)
    requires g.Valid() && 0 < |samples| <= g.samples
    requires seen <==> AlreadyAnswered(g, HeardOver(g, samples[..|samples| - 1]), |samples| - 1)
    ensures var n := |samples| - 1; var first := FirstResponse(g, samples[n], n);
            IsRecorded(g, samples, n) <==> !seen && first.Some? && !first.value.late && first.value.elapsed > 0
  {}

  lemma MoreEntries(g: Setup, samples: seq<seq<Arrival>>, c: Client, d: Client)
    requires g.Valid() && 0 < |samples| <= g.samples && |c.tally.seen| == g.samples
    requires Entries(g, samples[..|samples| - 1], c) && SampleOutcome(g, c, |samples| - 1, samples[|samples| - 1], Some(d))
    ensures Entries(g, samples, d)
  {
    hide Heard, FirstResponse, HearAll, UpdateChecksum;
    var n := |samples| - 1;
    forall j | 0 <= j < |d.recorded|
      ensures EntryOf(g, samples, d.recorded[j], d.latencies[j])
    {
      if j < |c.recorded| {
        assert EntryOf(g, samples[..n], c.recorded[j], c.latencies[j]);
        assert samples[..n][c.recorded[j] - g.warmup] == samples[c.recorded[j] - g.warmup];
      }
    }
  }

  datatype Outcome = Continue | Received | NonPositiveRtt

  /** The variables of the measured part of run_udp. */
  class MeasuredLoop {
    const g: Setup
    const responseSeen: array<bool>
    var truncated: nat
    var invalid: nat
    var duplicates: nat
    var reordered: nat
    var highWaterValid: bool
    var highWater: u32
    var latencies: seq<nat>
    var checksum: u64
    ghost var state: Client

    /** The variables hold exactly the abstract client state. */
    ghost predicate Valid()
      reads this, responseSeen
    {
      && g.Valid() && responseSeen.Length == g.samples
      && state.tally.seen == responseSeen[..] && state.tally.truncated == truncated && state.tally.invalid == invalid
      && state.tally.duplicates == duplicates && state.tally.reordered == reordered
      && state.tally.highWater == (if highWaterValid then Some(highWater) else None)
      && state.latencies == latencies && state.checksum == checksum
    }

    constructor (g: Setup)
      requires g.Valid()
      ensures Valid() && this.g == g && state == NewClient(g) && fresh(responseSeen)
    {
      this.g := g;
      responseSeen := new bool[g.samples](_ => false);
      truncated, invalid, duplicates, reordered := 0, 0, 0, 0;
      highWaterValid, highWater, latencies, checksum := false, 0, [], INITIAL_CHECKSUM;
      state := NewClient(g);
      new;
      assert responseSeen[..] == state.tally.seen;
    }

    /** The body of the receive loop. */
    method OnDatagram(sequence: u32, a: Arrival) returns (outcome: Outcome)
      requires Valid()
      modifies this, responseSeen
      ensures var r := OnResponse(g, old(state), sequence, a);
              match outcome
              case Continue => Valid() && r == Waiting(state)
              case Received => Valid() && r == Recorded(state)
              case NonPositiveRtt => r == NonPositive
    {
      hide UpdateChecksum, Message, ReadSequence;
      var d := a.datagram;
      ghost var v := ClassifyResponse(g, state.tally.seen, d);
      state := state.(tally := Count(g, state.tally, v));
      if d.truncated || |d.bytes| > g.size {
        truncated := truncated + 1;
        return Continue;
      }
      if |d.bytes| != g.size || (!g.connected && !d.fromPeer) {
        invalid := invalid + 1;
        return Continue;
      }
      var read := ReadSequence(d.bytes, UDP);
      if read.None? {
        invalid := invalid + 1;
        return Continue;
      }
      var observed := read.value;
      if observed < g.warmup || observed >= g.Total() {
        invalid := invalid + 1;
        return Continue;
      }
      if d.bytes != Message(g.size, UDP, observed) {
        invalid := invalid + 1;
        return Continue;
      }
      if responseSeen[observed - g.warmup] {
        duplicates := duplicates + 1;
        return Continue;
      }
      responseSeen[observed - g.warmup] := true;
      if highWaterValid && observed < highWater {
        reordered := reordered + 1;
      }
      if !highWaterValid || observed > highWater {
        highWater, highWaterValid := observed, true;
      }
      if observed != sequence || a.late {
        return Continue;
      }
      if a.elapsed <= 0 {
        return NonPositiveRtt;
      }
      latencies := latencies + [a.elapsed];
      checksum := UpdateChecksum(checksum, observed, g.size);
      state := state.(latencies := latencies, recorded := state.recorded + [sequence], checksum := checksum);
      return Received;
    }

    /** One sample: receive until it is recorded or its deadline passes. */
    method ReceiveSample(index: nat, arrivals: seq<Arrival>) returns (ok: bool)
      requires Valid() && index < g.samples
      modifies this, responseSeen
      ensures ok ==> Valid()
      ensures Sample(g, old(state), index, arrivals) == if ok then Some(state) else None
    {
      hide OnResponse;
      var k := 0;
      assert arrivals[0..] == arrivals;
      while k < |arrivals|
        invariant 0 <= k <= |arrivals| && Valid()
        invariant Sample(g, old(state), index, arrivals) == Sample(g, state, index, arrivals[k..])
      {
        assert arrivals[k..][0] == arrivals[k] && arrivals[k..][1..] == arrivals[k + 1..];
        var outcome := OnDatagram(g.warmup + index, arrivals[k]);
        if outcome == Received {
          return true;
        }
        if outcome == NonPositiveRtt {
          return false;
        }
        k := k + 1;
      }
      return true;
    }

    /** The whole measured loop. */
    method MeasureSamples(samples: seq<seq<Arrival>>) returns (ok: bool)
      requires Valid() && state == NewClient(g) && |samples| == g.samples
      modifies this, responseSeen
      ensures ok ==> Valid()
      ensures Measured(g, samples) == if ok then Some(state) else None
    {
      hide Sample;
      for index := 0 to g.samples
        invariant Valid() && Measured(g, samples[..index]) == Some(state)
      {
        assert samples[..index + 1][..index] == samples[..index];
        ok := ReceiveSample(index, samples[index]);
        if !ok {
          LaterSamplesFail(g, samples, index + 1);
          return false;
        }
      }
      assert samples[..g.samples] == samples;
      return true;
    }
  }

  lemma {:induction false} LaterSamplesFail(g: Setup, samples: seq<seq<Arrival>>, k: nat)
    requires g.Valid() && k <= |samples| <= g.samples && Measured(g, samples[..k]).None?
    ensures Measured(g, samples).None?
  {
    if k < |samples| {
      assert samples[..|samples| - 1][..k] == samples[..k];
      LaterSamplesFail(g, samples[..|samples| - 1], k);
    } else {
      assert samples[..k] == samples;
    }
  }
}
