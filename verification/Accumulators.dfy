/** The validation handler of the paired benchmark: what its OR-of-XOR word and wrapping sum decide. */
module Accumulators {
  import opened Words

  // ----- bitwise facts -----

  lemma {:induction false} XorZero(a: nat, b: nat)
    ensures Xor(a, b) == 0 <==> a == b
    decreases a + b
  {
    if a != 0 || b != 0 { XorZero(a / 2, b / 2); }
  }

  lemma {:induction false} OrZero(a: nat, b: nat)
    ensures Or(a, b) == 0 <==> a == 0 && b == 0
    decreases a + b
  {
    if a != 0 || b != 0 { OrZero(a / 2, b / 2); }
  }

  // ----- the expected checksum -----

  function ExpectedChecksum(count: u64): u64 {
    if And(count, 1) == 0 then Mul(count / 2, Sub(count, 1)) else Mul(count, Sub(count, 1) / 2)
  }

  /** 0 + 1 + ... + (n - 1). */
  function Triangular(n: nat): nat {
    if n == 0 then 0 else Triangular(n - 1) + (n - 1)
  }

  lemma {:induction false} TriangularTwice(n: nat)
    ensures 2 * Triangular(n) == n * (n - 1)
  {
    if n > 0 {
      TriangularTwice(n - 1);
      assert (n - 1) * (n - 2) + 2 * (n - 1) == n * (n - 1);
    }
  }

  lemma {:induction false} TriangularEven(h: nat)
    requires h > 0
    ensures Triangular(2 * h) == h * (2 * h - 1)
  {
    TriangularTwice(2 * h);
    assert 2 * h * (2 * h - 1) == 2 * (h * (2 * h - 1));
  }

  lemma {:induction false} TriangularOdd(h: nat)
    ensures Triangular(2 * h + 1) == (2 * h + 1) * h
  {
    TriangularTwice(2 * h + 1);
    assert (2 * h + 1) * (2 * h) == 2 * ((2 * h + 1) * h);
  }

  lemma LowBit(count: nat)
    ensures And(count, 1) == count % 2
  {}

  lemma Predecessor(count: u64)
    requires count > 0
    ensures Sub(count, 1) == count - 1
  {}

  lemma ZeroChecksum()
    ensures ExpectedChecksum(0) == Wrap(Triangular(0)) == 0
  {}

  /** Dividing before multiplying gives the exact triangular number modulo 2^64, for both parities. */
  lemma ExpectedChecksumIsTriangular(count: u64)
    ensures ExpectedChecksum(count) == Wrap(Triangular(count))
  {
    hide And, Triangular, Wrap, Sub;
    LowBit(count);
    if count == 0 {
      ZeroChecksum();
    } else {
      Predecessor(count);
      if count % 2 == 0 {
        TriangularEven(count / 2);
      } else {
        TriangularOdd(count / 2);
      }
    }
  }

  // ----- the handler -----

  datatype Validation = Validation(consumed: u64, checksum: u64, mismatch: u64)

  function Observe(v: Validation, first: u64, value: u64, sequence: u64): Validation {
    var expected := v.consumed;
    Validation(
      Add(v.consumed, 1),
      Add(v.checksum, value),
      Or64(v.mismatch, Or64(Xor64(value, expected), Xor64(sequence, Add(first, expected)))))
  }

  lemma AddWrapped(a: u64, n: nat)
    ensures Add(a, Wrap(n)) == Wrap(a + n)
  {}

  lemma AddBothWrapped(a: nat, n: nat)
    ensures Add(Wrap(a), Wrap(n)) == Wrap(a + n)
  {}

  lemma WrapZero()
    ensures Wrap(0) == 0
  {}

  /** The accumulators after a run of callbacks (value, sequence). */
  function ObserveAll(first: u64, calls: seq<(u64, u64)>): Validation {
    if calls == [] then Validation(0, 0, 0) else
      var n := |calls| - 1;
      Observe(ObserveAll(first, calls[..n]), first, calls[n].0, calls[n].1)
  }

  /** The callbacks a correct delivery of one phase makes. */
  predicate InOrder(first: u64, calls: seq<(u64, u64)>) {
    forall k :: 0 <= k < |calls| ==> calls[k] == (Wrap(k), Wrap(first + k))
  }

  lemma MismatchStep(mismatch: u64, value: u64, sequence: u64, expected: u64, position: u64)
    ensures Or64(mismatch, Or64(Xor64(value, expected), Xor64(sequence, position))) == 0
       <==> mismatch == 0 && value == expected && sequence == position
  {
    hide Or, Xor;
    XorZero(value, expected);
    XorZero(sequence, position);
    OrZero(Xor64(value, expected), Xor64(sequence, position));
    OrZero(mismatch, Or64(Xor64(value, expected), Xor64(sequence, position)));
  }

  /** The mismatch word is zero exactly when every value and sequence was the expected one. */
  lemma {:induction false} AccumulatorsDecide(first: u64, calls: seq<(u64, u64)>)
    ensures ObserveAll(first, calls).consumed == Wrap(|calls|)
    ensures ObserveAll(first, calls).mismatch == 0 <==> InOrder(first, calls)
  {
    hide Or64, Xor64, Wrap, Add;
    if calls == [] {
      WrapZero();
    } else {
      var n := |calls| - 1;
      var v := ObserveAll(first, calls[..n]);
      AccumulatorsDecide(first, calls[..n]);
      WrapAdd(n, 1);
      AddWrapped(first, n);
      MismatchStep(v.mismatch, calls[n].0, calls[n].1, v.consumed, Add(first, v.consumed));
      assert forall k :: 0 <= k < n ==> calls[..n][k] == calls[k];
      assert InOrder(first, calls) <==> InOrder(first, calls[..n]) && calls[n] == (Wrap(n), Wrap(first + n));
    }
  }

  lemma {:induction false} InOrderSum(first: u64, calls: seq<(u64, u64)>)
    requires InOrder(first, calls)
    ensures ObserveAll(first, calls).checksum == Wrap(Triangular(|calls|))
  {
    hide Or64, Xor64, Wrap, Add;
    if calls == [] {
      WrapZero();
    } else {
      var n := |calls| - 1;
      InOrderSum(first, calls[..n]);
      assert calls[n] == (Wrap(n), Wrap(first + n));
      AddBothWrapped(Triangular(n), n);
    }
  }

  function SumOf(calls: seq<(u64, u64)>): nat {
    if calls == [] then 0 else SumOf(calls[..|calls| - 1]) + calls[|calls| - 1].0
  }

  /** Whatever was delivered, the checksum is the sum of the values modulo 2^64. */
  lemma {:induction false} ChecksumIsSum(first: u64, calls: seq<(u64, u64)>)
    ensures ObserveAll(first, calls).checksum == Wrap(SumOf(calls))
  {
    hide Or64, Xor64, Wrap, Add;
    if calls == [] {
      WrapZero();
    } else {
      var n := |calls| - 1;
      ChecksumIsSum(first, calls[..n]);
      WrapAdd(SumOf(calls[..n]), calls[n].0);
    }
  }

  /** A phase that delivered exactly its events in order passes every accumulator check. */
  lemma CorrectDeliveryPasses(first: u64, calls: seq<(u64, u64)>)
    requires InOrder(first, calls) && |calls| < TWO64
    ensures ObserveAll(first, calls) == Validation(|calls|, ExpectedChecksum(|calls|), 0)
  {
    hide Or64, Xor64, ObserveAll, ExpectedChecksum, Triangular;
    AccumulatorsDecide(first, calls);
    InOrderSum(first, calls);
    ExpectedChecksumIsTriangular(|calls|);
  }

  // ----- the argument checks -----

  const MAXIMUM_EVENT_COUNT: nat := 0x7fff_ffff_ffff_ffff

  /** The integer checks on events, warmup_events and warmup_runs. */
  predicate ArgumentsAccepted(events: u64, warmupEvents: u64, warmupRuns: u64) {
    && 0 < events <= MAXIMUM_EVENT_COUNT && 0 < warmupEvents <= MAXIMUM_EVENT_COUNT && 0 < warmupRuns
    && warmupRuns <= (MAXIMUM_EVENT_COUNT - events) / warmupEvents
  }

  /** The divided check is exactly the statement that all positions of the session fit in INT64_MAX. */
  lemma ArgumentsBoundPositions(events: u64, warmupEvents: u64, warmupRuns: u64)
    ensures ArgumentsAccepted(events, warmupEvents, warmupRuns)
       <==> events > 0 && warmupEvents > 0 && warmupRuns > 0 && warmupRuns * warmupEvents + events <= MAXIMUM_EVENT_COUNT
  {
    if events > 0 && warmupEvents > 0 && warmupRuns > 0 {
      MulMonotone(1, warmupRuns, warmupEvents);
      if events <= MAXIMUM_EVENT_COUNT {
        DividedBound(events, warmupEvents, warmupRuns);
      }
    }
  }

  lemma DividedBound(events: nat, warmupEvents: nat, warmupRuns: nat)
    requires events <= MAXIMUM_EVENT_COUNT && warmupEvents > 0
    ensures warmupRuns <= (MAXIMUM_EVENT_COUNT - events) / warmupEvents
       <==> warmupRuns * warmupEvents + events <= MAXIMUM_EVENT_COUNT
  {
    var room := MAXIMUM_EVENT_COUNT - events;
    var q := room / warmupEvents;
    assert q * warmupEvents <= room < (q + 1) * warmupEvents;
    if warmupRuns <= q {
      MulMonotone(warmupRuns, q, warmupEvents);
    } else {
      MulMonotone(q + 1, warmupRuns, warmupEvents);
    }
  }

  lemma MulMonotone(a: nat, b: nat, c: nat)
    requires a <= b
    ensures a * c <= b * c
  {}
}
