/** How both ends of the UDP echo classify and count datagrams: bitmaps, counters and a high-water mark. */
module UdpEndpoints {
  import opened Options
  import opened Words
  import opened Orders
  import opened UdpWire

  datatype Setup = Setup(size: nat, warmup: nat, samples: nat, connected: bool) {
    /** A payload with room for the header, and warm-up plus samples within the 32-bit wire sequence. */
    predicate Valid() {
      size >= 8 && warmup + samples <= 0xffff_ffff
    }
    function Total(): nat { warmup + samples }
  }

  /** A received datagram: its wire bytes, the MSG_TRUNC flag and whether its source is the expected peer. */
  datatype Datagram = Datagram(bytes: seq<byte>, truncated: bool, fromPeer: bool)

  datatype Verdict = Truncated | Invalid | WarmupEcho | Duplicate | First(observed: u32)

  // ----- classification -----

  /** The client's tests on a response, in order. */
  function ClassifyResponse(g: Setup, seen: seq<bool>, d: Datagram): Verdict
    requires g.Valid() && |seen| == g.samples
  {
    if d.truncated || |d.bytes| > g.size then Truncated
    else if |d.bytes| != g.size || (!g.connected && !d.fromPeer) then Invalid
    else
      match ReadSequence(d.bytes, UDP)
      case None => Invalid
      case Some(observed) =>
        if observed < g.warmup || observed >= g.Total() then Invalid
        else if d.bytes != Message(g.size, UDP, observed) then Invalid
        else if seen[observed - g.warmup] then Duplicate
        else First(observed)
  }

  /** The server's tests on a request; it echoes whatever is neither truncated nor invalid. */
  function ClassifyRequest(g: Setup, seen: seq<bool>, d: Datagram): Verdict
    requires g.Valid() && |seen| == g.samples
  {
    if d.truncated || |d.bytes| > g.size then Truncated
    else if |d.bytes| != g.size then Invalid
    else
      match ReadSequence(d.bytes, UDP)
      case None => Invalid
      case Some(observed) =>
        if observed >= g.Total() then Invalid
        else if observed < g.warmup then WarmupEcho
        else if seen[observed - g.warmup] then Duplicate
        else First(observed)
  }

  // ----- what the verdicts mean -----

  predicate TooLong(g: Setup, d: Datagram) {
    d.truncated || |d.bytes| > g.size
  }

  /** The datagram is the server's own response for measured sample k. */
  predicate Answers(g: Setup, d: Datagram, k: nat)
    requires g.Valid()
  {
    k < g.samples && !d.truncated && (g.connected || d.fromPeer) && d.bytes == Message(g.size, UDP, g.warmup + k)
  }

  /** The datagram is a request with this sequence. */
  predicate Requests(g: Setup, d: Datagram, sequence: nat)
    requires g.Valid()
  {
    !d.truncated && |d.bytes| == g.size && sequence < g.Total() && d.bytes[..8] == Header(UDP, sequence)
  }

  /** The client: cut off, or the response of a sample, new or repeated, or invalid. */
  lemma ResponseVerdicts(g: Setup, seen: seq<bool>, d: Datagram)
    requires g.Valid() && |seen| == g.samples
    ensures var v := ClassifyResponse(g, seen, d);
            && (v.Truncated? <==> TooLong(g, d))
            && (forall k: nat :: Answers(g, d, k) ==> v == if seen[k] then Duplicate else First(g.warmup + k))
            && (v.First? || v.Duplicate? ==> exists k: nat :: Answers(g, d, k))
            && (v.First? ==> g.warmup <= v.observed && Answers(g, d, v.observed - g.warmup))
            && v != WarmupEcho
  {
    hide Message, ReadSequence;
    forall k: nat | Answers(g, d, k)
      ensures ClassifyResponse(g, seen, d) == if seen[k] then Duplicate else First(g.warmup + k)
    {
      MessageReadsBack(g.size, UDP, g.warmup + k);
    }
    var v := ClassifyResponse(g, seen, d);
    if v.First? || v.Duplicate? {
      assert Answers(g, d, ReadSequence(d.bytes, UDP).value - g.warmup);
    }
  }

  /** The server: cut off, or a request of the warm-up or of a sample, new or repeated, or invalid. */
  lemma RequestVerdicts(g: Setup, seen: seq<bool>, d: Datagram)
    requires g.Valid() && |seen| == g.samples
    ensures var v := ClassifyRequest(g, seen, d);
            && (v.Truncated? <==> TooLong(g, d))
            && (forall x: nat :: Requests(g, d, x) ==>
                  v == if x < g.warmup then WarmupEcho else if seen[x - g.warmup] then Duplicate else First(x))
            && (v.WarmupEcho? || v.First? || v.Duplicate? ==> exists x: nat :: Requests(g, d, x))
  {
    hide ReadSequence, Header;
    forall x: nat | Requests(g, d, x)
      ensures ReadSequence(d.bytes, UDP) == Some(x)
    {
      HeaderRoundTrip(d.bytes, UDP, x);
    }
    var v := ClassifyRequest(g, seen, d);
    if v.WarmupEcho? || v.First? || v.Duplicate? {
      HeaderRoundTrip(d.bytes, UDP, ReadSequence(d.bytes, UDP).value);
      assert Requests(g, d, ReadSequence(d.bytes, UDP).value);
    }
  }

  /** What the server sends back. */
  predicate Echoes(v: Verdict) {
    !v.Truncated? && !v.Invalid?
  }

  // ----- counting -----

  datatype Tally = Tally(
    seen: seq<bool>, truncated: nat, invalid: nat, warmups: nat, duplicates: nat, reordered: nat,
    highWater: Option<u32>,
    received: nat, firsts: seq<u32>)           // history: how many datagrams, and the first-seen ones in order

  function NewTally(g: Setup): Tally {
    Tally(seq(g.samples, _ => false), 0, 0, 0, 0, 0, None, 0, [])
  }

  function Count(g: Setup, t: Tally, v: Verdict): Tally
    requires v.First? ==> g.warmup <= v.observed < g.warmup + |t.seen|
  {
    var u := t.(received := t.received + 1);
    match v
    case Truncated => u.(truncated := t.truncated + 1)
    case Invalid => u.(invalid := t.invalid + 1)
    case WarmupEcho => u.(warmups := t.warmups + 1)
    case Duplicate => u.(duplicates := t.duplicates + 1)
    case First(observed) =>
      u.(seen := t.seen[observed - g.warmup := true],
         reordered := t.reordered + (if t.highWater.Some? && observed < t.highWater.value then 1 else 0),
         highWater := if t.highWater.None? || observed > t.highWater.value then Some(observed) else t.highWater,
         firsts := t.firsts + [observed])
  }

  function CountTrue(bits: seq<bool>): nat {
    if bits == [] then 0 else CountTrue(bits[..|bits| - 1]) + if bits[|bits| - 1] then 1 else 0
  }

  ghost predicate PrecededByLarger(xs: seq<u32>, x: u32) {
    exists i :: 0 <= i < |xs| && xs[i] > x
  }

  /** How many elements come after a larger one. */
  ghost function Reordered(xs: seq<u32>): nat {
    if xs == [] then 0 else
      var n := |xs| - 1;
      Reordered(xs[..n]) + if PrecededByLarger(xs[..n], xs[n]) then 1 else 0
  }

  /** The bitmap holds exactly the first-seen sequences, each of them once. */
  ghost predicate BitmapExact(g: Setup, seen: seq<bool>, firsts: seq<u32>) {
    && |seen| == g.samples && CountTrue(seen) == |firsts|
    && (forall k :: 0 <= k < g.samples ==> (seen[k] <==> g.warmup + k in firsts))
    && (forall i :: 0 <= i < |firsts| ==> g.warmup <= firsts[i] < g.Total())
    && (forall i, j :: 0 <= i < j < |firsts| ==> firsts[i] != firsts[j])
  }

  /** The high-water mark is the greatest of them. */
  ghost predicate IsHighWater(mark: Option<u32>, firsts: seq<u32>) {
    && (mark.None? <==> firsts == [])
    && (mark.Some? ==> mark.value in firsts && forall i :: 0 <= i < |firsts| ==> firsts[i] <= mark.value)
  }

  /** Every datagram is counted exactly once, and the bitmap, the reorder count and the mark say what they should. */
  ghost predicate Conserved(g: Setup, t: Tally) {
    && t.truncated + t.invalid + t.warmups + t.duplicates + |t.firsts| == t.received
    && BitmapExact(g, t.seen, t.firsts)
    && t.reordered == Reordered(t.firsts)
    && IsHighWater(t.highWater, t.firsts)
  }

  lemma {:induction false} CountTrueUpdate(bits: seq<bool>, k: nat)
    requires k < |bits| && !bits[k]
    ensures CountTrue(bits[k := true]) == CountTrue(bits) + 1
  {
    var n := |bits| - 1;
    if k == n {
      assert bits[k := true][..n] == bits[..n];
    } else {
      assert bits[k := true][..n] == bits[..n][k := true];
      CountTrueUpdate(bits[..n], k);
    }
  }

  lemma {:induction false} CountTrueMonotone(a: seq<bool>, b: seq<bool>)
    requires |a| == |b| && forall k :: 0 <= k < |a| && a[k] ==> b[k]
    ensures CountTrue(a) <= CountTrue(b) <= |b|
  {
    if a != [] {
      CountTrueMonotone(a[..|a| - 1], b[..|b| - 1]);
    }
  }

  lemma {:induction false} NothingSeen(n: nat)
    ensures CountTrue(seq(n, _ => false)) == 0
  {
    if n > 0 {
      assert seq(n, _ => false)[..n - 1] == seq(n - 1, _ => false);
      NothingSeen(n - 1);
    }
  }

  lemma NewTallyConserved(g: Setup)
    ensures Conserved(g, NewTally(g))
  {
    NothingSeen(g.samples);
  }

  lemma BitmapUpdate(g: Setup, seen: seq<bool>, firsts: seq<u32>, observed: u32)
    requires BitmapExact(g, seen, firsts) && g.warmup <= observed < g.Total() && !seen[observed - g.warmup]
    ensures BitmapExact(g, seen[observed - g.warmup := true], firsts + [observed])
  {
    CountTrueUpdate(seen, observed - g.warmup);
    var updated := seen[observed - g.warmup := true];
    forall k | 0 <= k < g.samples
      ensures updated[k] <==> g.warmup + k in firsts + [observed]
    {
      assert g.warmup + k in firsts + [observed] <==> g.warmup + k in firsts || g.warmup + k == observed;
    }
  }

  /** Comparing with the mark alone decides whether any earlier one was larger. */
  lemma HighWaterUpdate(mark: Option<u32>, firsts: seq<u32>, observed: u32)
    requires IsHighWater(mark, firsts)
    ensures PrecededByLarger(firsts, observed) <==> mark.Some? && observed < mark.value
    ensures IsHighWater(if mark.None? || observed > mark.value then Some(observed) else mark, firsts + [observed])
    ensures Reordered(firsts + [observed]) == Reordered(firsts) + if PrecededByLarger(firsts, observed) then 1 else 0
  {}

  lemma FirstConserved(g: Setup, t: Tally, observed: u32)
    requires Conserved(g, t) && g.warmup <= observed < g.Total() && !t.seen[observed - g.warmup]
    ensures Conserved(g, Count(g, t, First(observed)))
  {
    hide BitmapExact, IsHighWater, Reordered, PrecededByLarger;
    BitmapUpdate(g, t.seen, t.firsts, observed);
    HighWaterUpdate(t.highWater, t.firsts, observed);
  }

  /** Each response the client receives is counted exactly once. */
  lemma ResponseConserved(g: Setup, t: Tally, d: Datagram)
    requires g.Valid() && Conserved(g, t)
    ensures Conserved(g, Count(g, t, ClassifyResponse(g, t.seen, d)))
  {
    var v := ClassifyResponse(g, t.seen, d);
    if v.First? {
      FirstConserved(g, t, v.observed);
    }
  }

  /** Each request the server receives is counted exactly once. */
  lemma RequestConserved(g: Setup, t: Tally, d: Datagram)
    requires g.Valid() && Conserved(g, t)
    ensures Conserved(g, Count(g, t, ClassifyRequest(g, t.seen, d)))
  {
    var v := ClassifyRequest(g, t.seen, d);
    if v.First? {
      FirstConserved(g, t, v.observed);
    }
  }

  // ----- counting by kind -----

  /** How many of the datagrams are of one kind. */
  ghost function HowMany(ds: seq<Datagram>, kind: Datagram -> bool): nat {
    if ds == [] then 0 else HowMany(ds[..|ds| - 1], kind) + if kind(ds[|ds| - 1]) then 1 else 0
  }

  lemma {:induction false} HowManyFirst(ds: seq<Datagram>, kind: Datagram -> bool)
    requires ds != []
    ensures HowMany(ds, kind) == (if kind(ds[0]) then 1 else 0) + HowMany(ds[1..], kind)
  {
    var n := |ds| - 1;
    if n == 0 {
      assert ds[..0] == [] && ds[1..] == [];
    } else {
      HowManyFirst(ds[..n], kind);
      assert ds[1..][..n - 1] == ds[..n][1..];
    }
  }

  ghost predicate IsAnswer(g: Setup, d: Datagram) {
    g.Valid() && exists k: nat :: Answers(g, d, k)
  }

  ghost predicate IsWarmupRequest(g: Setup, d: Datagram) {
    g.Valid() && exists x: nat :: x < g.warmup && Requests(g, d, x)
  }

  ghost predicate IsSampleRequest(g: Setup, d: Datagram) {
    g.Valid() && exists x: nat :: g.warmup <= x && Requests(g, d, x)
  }

  /** The kinds a receiver tells apart, whatever it has seen before. */
  datatype Kinds = Kinds(cut: Datagram -> bool, warmup: Datagram -> bool, sample: Datagram -> bool) {
    ghost function Other(): Datagram -> bool {
      (d: Datagram) => !cut(d) && !warmup(d) && !sample(d)
    }
  }

  ghost function ResponseKinds(g: Setup): Kinds {
    Kinds((d: Datagram) => TooLong(g, d), (d: Datagram) => false, (d: Datagram) => IsAnswer(g, d))
  }

  ghost function RequestKinds(g: Setup): Kinds {
    Kinds((d: Datagram) => TooLong(g, d), (d: Datagram) => IsWarmupRequest(g, d), (d: Datagram) => IsSampleRequest(g, d))
  }

  /** From t to u each counter has grown by the number of its kind; repeated and first-seen samples share theirs. */
  ghost predicate CountsKinds(kinds: Kinds, t: Tally, ds: seq<Datagram>, u: Tally) {
    && u.truncated == t.truncated + HowMany(ds, kinds.cut)
    && u.warmups == t.warmups + HowMany(ds, kinds.warmup)
    && u.duplicates + |u.firsts| == t.duplicates + |t.firsts| + HowMany(ds, kinds.sample)
    && u.invalid == t.invalid + HowMany(ds, kinds.Other())
    && u.received == t.received + |ds|
  }

  /** One datagram moves one counter. */
  ghost predicate CountsOne(kinds: Kinds, t: Tally, d: Datagram, u: Tally) {
    && u.truncated == t.truncated + (if kinds.cut(d) then 1 else 0)
    && u.warmups == t.warmups + (if kinds.warmup(d) then 1 else 0)
    && u.duplicates + |u.firsts| == t.duplicates + |t.firsts| + (if kinds.sample(d) then 1 else 0)
    && u.invalid == t.invalid + (if kinds.Other()(d) then 1 else 0)
    && u.received == t.received + 1
  }

  lemma ResponseCounted(g: Setup, t: Tally, d: Datagram)
    requires g.Valid() && |t.seen| == g.samples
    ensures CountsOne(ResponseKinds(g), t, d, Count(g, t, ClassifyResponse(g, t.seen, d)))
  {
    hide Message, ReadSequence, ClassifyResponse;
    ResponseVerdicts(g, t.seen, d);
  }

  lemma RequestCounted(g: Setup, t: Tally, d: Datagram)
    requires g.Valid() && |t.seen| == g.samples
    ensures CountsOne(RequestKinds(g), t, d, Count(g, t, ClassifyRequest(g, t.seen, d)))
  {
    hide Header, ReadSequence, ClassifyRequest;
    RequestVerdicts(g, t.seen, d);
  }

  // ----- the client's samples -----

  datatype Client = Client(tally: Tally, latencies: seq<nat>, checksum: u64, recorded: seq<u32>)

  /** A datagram handed to the client, whether it came after the deadline, and received_at - sent_at. */
  datatype Arrival = Arrival(datagram: Datagram, late: bool, elapsed: int)

  datatype Reaction = Waiting(c: Client) | Recorded(c: Client) | NonPositive

  function UpdateChecksum(checksum: u64, sequence: u32, size: nat): u64 {
    Mul(Xor64(checksum, Wrap(sequence + size * 257 + UDP)), 1_099_511_628_211)
  }

  /** The inverse of the multiplier modulo 2^64. */
  const UNMIX: u64 := 0xce96_5057_aff6_957b

  lemma Unmix(x: u64)
    ensures Mul(Mul(x, 1_099_511_628_211), UNMIX) == x
  {
    var a, b := x * 1_099_511_628_211 / TWO64, x * 1_099_511_628_211 % TWO64;
    assert b == x * 1_099_511_628_211 - TWO64 * a;
    assert b * UNMIX == x * (1_099_511_628_211 * UNMIX) - TWO64 * (a * UNMIX);
    assert 1_099_511_628_211 * UNMIX == 1 + TWO64 * 887_285_111_055;
    assert b * UNMIX == x + TWO64 * (x * 887_285_111_055 - a * UNMIX);
    QuotientUnique(TWO64, b * UNMIX / TWO64, b * UNMIX % TWO64, x * 887_285_111_055 - a * UNMIX, x);
  }

  /** The word an update mixes in: the sequence, 257 times the payload size, and the protocol. */
  function Mixed(sequence: u32, size: nat): u64 {
    (sequence + size * 257 + 2) % TWO64
  }

  /** An update can be undone: multiplying back and mixing out what was mixed in gives the checksum before. */
  lemma ChecksumUndone(checksum: u64, sequence: u32, size: nat)
    ensures Xor64(Mul(UpdateChecksum(checksum, sequence, size), UNMIX), Mixed(sequence, size)) == checksum
    ensures Mul(UpdateChecksum(checksum, sequence, size), UNMIX) == Xor64(checksum, Mixed(sequence, size))
  {
    hide Mul, Xor;
    Unmix(Xor64(checksum, Mixed(sequence, size)));
    XorTwice(checksum, Mixed(sequence, size));
  }

  lemma MixedDiffers(s: u32, t: u32, size: nat)
    requires Mixed(s, size) == Mixed(t, size)
    ensures s == t
  {
    var x, y := s + size * 257 + 2, t + size * 257 + 2;
    assert TWO64 * (x / TWO64 - y / TWO64) == x - y;
    QuotientUnique(TWO64, x / TWO64 - y / TWO64, 0, 0, if x >= y then x - y else 0);
  }

  /** Different sequences, or different checksums before, give different checksums. */
  lemma ChecksumDiffers(c: u64, d: u64, s: u32, t: u32, size: nat)
    requires UpdateChecksum(c, s, size) == UpdateChecksum(d, t, size) && (c == d || s == t)
    ensures c == d && s == t
  {
    hide Xor, UpdateChecksum, Mixed;
    ChecksumUndone(c, s, size);
    ChecksumUndone(d, t, size);
    if c == d {
      XorTwice(Mixed(s, size), c);
      XorTwice(Mixed(t, size), c);
      XorSwaps(c, Mixed(s, size));
      XorSwaps(c, Mixed(t, size));
      MixedDiffers(s, t, size);
    }
  }

  const INITIAL_CHECKSUM: u64 := 1_469_598_103_934_665_603

  function NewClient(g: Setup): Client {
    Client(NewTally(g), [], INITIAL_CHECKSUM, [])
  }

  /** What the measured loop does with one datagram while waiting for `sequence`. */
  function OnResponse(g: Setup, c: Client, sequence: u32, a: Arrival): Reaction
    requires g.Valid() && |c.tally.seen| == g.samples
  {
    var v := ClassifyResponse(g, c.tally.seen, a.datagram);
    var d := c.(tally := Count(g, c.tally, v));
    if v != First(sequence) || a.late then Waiting(d)
    else if a.elapsed <= 0 then NonPositive
    else Recorded(d.(latencies := c.latencies + [a.elapsed], recorded := c.recorded + [sequence],
                     checksum := UpdateChecksum(c.checksum, sequence, g.size)))
  }

  /** This arrival settles sample k: it is the sample's response and the first one. */
  predicate Settles(g: Setup, c: Client, k: nat, a: Arrival)
    requires g.Valid() && |c.tally.seen| == g.samples
  {
    Answers(g, a.datagram, k) && !c.tally.seen[k]
  }

  /** A sample is recorded exactly by its first response, in time and with a positive round trip, which is its latency. */
  lemma OnResponseMeans(g: Setup, c: Client, k: nat, a: Arrival)
    requires g.Valid() && |c.tally.seen| == g.samples && k < g.samples
    ensures var r := OnResponse(g, c, g.warmup + k, a);
            && (r.Recorded? <==> Settles(g, c, k, a) && !a.late && a.elapsed > 0)
            && (r.NonPositive? <==> Settles(g, c, k, a) && !a.late && a.elapsed <= 0)
            && (r.Recorded? ==>
                  && r.c.latencies == c.latencies + [a.elapsed] && r.c.recorded == c.recorded + [g.warmup + k]
                  && r.c.checksum == UpdateChecksum(c.checksum, g.warmup + k, g.size))
            && (r.Waiting? ==> r.c.latencies == c.latencies && r.c.recorded == c.recorded && r.c.checksum == c.checksum)
            && (!r.NonPositive? ==> r.c.tally == Hear(g, c.tally, a.datagram))
  {
    hide Message, ReadSequence, UpdateChecksum;
    ResponseVerdicts(g, c.tally.seen, a.datagram);
  }

  /** One received datagram on the client's tally. */
  function Hear(g: Setup, t: Tally, d: Datagram): (u: Tally)
    requires g.Valid() && |t.seen| == g.samples
    ensures |u.seen| == g.samples
  {
    Count(g, t, ClassifyResponse(g, t.seen, d))
  }

  function ChecksumOf(g: Setup, sequences: seq<u32>): u64 {
    if sequences == [] then INITIAL_CHECKSUM else
      var n := |sequences| - 1;
      UpdateChecksum(ChecksumOf(g, sequences[..n]), sequences[n], g.size)
  }

  /** Up to sample `index` (exclusive): what was recorded is in order, was seen, and makes up the checksum. */
  ghost predicate SamplesInv(g: Setup, c: Client, index: nat) {
    && index <= g.samples == |c.tally.seen|
    && |c.latencies| == |c.recorded|
    && Increasing(c.recorded)
    && (forall i :: 0 <= i < |c.recorded| ==>
          g.warmup <= c.recorded[i] < g.warmup + index && c.tally.seen[c.recorded[i] - g.warmup])
    && c.checksum == ChecksumOf(g, c.recorded)
  }

  ghost predicate ClientInv(g: Setup, c: Client, index: nat) {
    g.Valid() && Conserved(g, c.tally) && SamplesInv(g, c, index)
  }

  lemma SamplesKept(g: Setup, c: Client, index: nat, v: Verdict)
    requires g.Valid() && SamplesInv(g, c, index)
    requires v.First? ==> g.warmup <= v.observed < g.Total()
    ensures SamplesInv(g, c.(tally := Count(g, c.tally, v)), index)
  {
    hide UpdateChecksum, ChecksumOf;
  }

  lemma SampleAdded(g: Setup, c: Client, index: nat, elapsed: nat)
    requires g.Valid() && index < g.samples && SamplesInv(g, c, index) && c.tally.seen[index]
    ensures var sequence := g.warmup + index;
            SamplesInv(g, c.(latencies := c.latencies + [elapsed], recorded := c.recorded + [sequence],
                             checksum := UpdateChecksum(c.checksum, sequence, g.size)), index + 1)
  {
    hide UpdateChecksum;
    assert (c.recorded + [g.warmup + index])[..|c.recorded|] == c.recorded;
  }

  lemma OnResponseKeeps(g: Setup, c: Client, index: nat, a: Arrival)
    requires ClientInv(g, c, index) && index < g.samples
    ensures var r := OnResponse(g, c, g.warmup + index, a);
            match r
            case Waiting(d) => ClientInv(g, d, index)
            case Recorded(d) => ClientInv(g, d, index + 1)
            case NonPositive => true
  {
    hide UpdateChecksum, ChecksumOf, Conserved;
    var v := ClassifyResponse(g, c.tally.seen, a.datagram);
    ResponseConserved(g, c.tally, a.datagram);
    SamplesKept(g, c, index, v);
    if v == First(g.warmup + index) && a.elapsed > 0 {
      SampleAdded(g, c.(tally := Count(g, c.tally, v)), index, a.elapsed);
    }
  }

  lemma {:induction false} IncreasingFills(xs: seq<u32>, low: nat, n: nat)
    requires Increasing(xs) && |xs| == n && forall i :: 0 <= i < n ==> low <= xs[i] < low + n
    ensures forall i :: 0 <= i < n ==> xs[i] == low + i
  {
    if n > 0 {
      IncreasingLow(xs, low, n - 1);
      assert xs[n - 1] == low + n - 1;
      IncreasingFills(xs[..n - 1], low, n - 1);
    }
  }

  lemma {:induction false} IncreasingLow(xs: seq<u32>, low: nat, i: nat)
    requires Increasing(xs) && i < |xs| && forall j :: 0 <= j < |xs| ==> low <= xs[j]
    ensures low + i <= xs[i]
  {
    if i > 0 { IncreasingLow(xs, low, i - 1); }
  }

  /** The sequences of all samples. */
  function AllSequences(g: Setup): seq<u32>
    requires g.Valid()
  {
    seq<u32>(g.samples, i requires 0 <= i < g.samples => g.warmup + i)
  }

  /** With no deadline missed the checksum is a function of warm-up, samples and payload size only. */
  lemma StableChecksum(g: Setup, c: Client)
    requires ClientInv(g, c, g.samples) && |c.latencies| == g.samples
    ensures c.checksum == ChecksumOf(g, AllSequences(g))
  {
    IncreasingFills(c.recorded, g.warmup, g.samples);
    assert c.recorded == AllSequences(g);
  }
}
