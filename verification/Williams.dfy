/** The Williams first row and its cyclic shifts, for every even width. */
module Williams {
  import opened Options
  import opened Words

  /** One or an even number of treatments; every other width is the invalid_argument. */
  predicate LegalWidth(n: nat) {
    n == 1 || (n > 0 && n % 2 == 0)
  }

  function Entry(n: nat, p: nat): nat
    requires p < n
  {
    if p == 0 then 0 else if p % 2 != 0 then (p + 1) / 2 else n - p / 2
  }

  function FirstRow(n: nat): seq<nat> {
    seq(n, p requires 0 <= p < n => Entry(n, p))
  }

  /** 0, 1, n - 1, 2, n - 2, ...: told by the sums of neighbours. */
  predicate IsZigzag(row: seq<nat>, n: nat) {
    && |row| == n > 0 && row[0] == 0
    && forall p :: 0 <= p < n - 1 ==>
         row[p] + row[p + 1] == if p == 0 then 1 else if p % 2 == 0 then n + 1 else n
  }

  method WilliamsFirstRow(width: nat) returns (order: Option<seq<nat>>)
    ensures order == if LegalWidth(width) then Some(FirstRow(width)) else None
    ensures order.None? <==> width == 0 || (width > 1 && width % 2 != 0)
    // from 0 on, neighbours add up in turn to 1, n, n + 1, n, n + 1, ...: this determines the row
    ensures order.Some? ==> IsZigzag(order.value, width)
  {
    if width == 0 || (width > 1 && width % 2 != 0) {
      return None;
    }
    var row: seq<nat> := [];
    for position := 0 to width
      invariant |row| == position && forall p :: 0 <= p < position ==> row[p] == Entry(width, p)
    {
      if position == 0 {
        row := row + [0];
      } else if position % 2 != 0 {
        row := row + [(position + 1) / 2];
      } else {
        row := row + [width - position / 2];
      }
    }
    assert row == FirstRow(width);
    return Some(row);
  }

  /** The treatment run `run` (from 0) puts at position p (from 0). */
  function Scheduled(n: nat, run: nat, p: nat): (t: nat)
    requires p < n
    ensures t < n
  {
    (Entry(n, p) + run) % n
  }

  /** Only one row has these sums. */
  lemma {:induction false} ZigzagIsUnique(row: seq<nat>, other: seq<nat>, n: nat, p: nat)
    requires IsZigzag(row, n) && IsZigzag(other, n) && p < n
    ensures row[p] == other[p]
  {
    if p > 0 {
      ZigzagIsUnique(row, other, n, p - 1);
      assert row[p - 1] + row[p - 1 + 1] == other[p - 1] + other[p - 1 + 1];
    }
  }

  /** The first run has the first row; each run has every treatment of the one before moved on by one. */
  lemma ScheduledShifts(n: nat, run: nat, p: nat)
    requires LegalWidth(n) && p < n
    ensures Scheduled(n, 0, p) == Entry(n, p)
    ensures Scheduled(n, run + 1, p) == (Scheduled(n, run, p) + 1) % n
  {
    hide Entry;
    EntryRange(n, p);
    SmallRemainder(Entry(n, p), n);
    RemainderOfNext(Entry(n, p) + run, n);
  }

  lemma SmallRemainder(x: nat, n: nat)
    requires x < n
    ensures x % n == x
  {
    RemainderUnique(x, n, 0, x);
  }

  lemma RemainderOfNext(x: nat, n: nat)
    requires n > 0
    ensures (x + 1) % n == (x % n + 1) % n
  {
    NextRemainder(x, n, x / n, x % n);
  }

  lemma NextRemainder(x: nat, n: nat, q: nat, r: nat)
    requires x == n * q + r && r < n
    ensures x % n == r && (x + 1) % n == (r + 1) % n
  {
    RemainderUnique(x, n, q, r);
    if r + 1 < n {
      RemainderUnique(x + 1, n, q, r + 1);
      RemainderUnique(r + 1, n, 0, r + 1);
    } else {
      RemainderUnique(x + 1, n, q + 1, 0);
      RemainderUnique(r + 1, n, 1, 0);
    }
  }

  // ----- the first row -----

  lemma EntryRange(n: nat, p: nat)
    requires LegalWidth(n) && p < n
    ensures Entry(n, p) < n
  {}

  lemma EntryInjective(n: nat, p: nat, q: nat)
    requires LegalWidth(n) && p < n && q < n && Entry(n, p) == Entry(n, q)
    ensures p == q
  {}

  /** The row is a permutation: every treatment has its one position. */
  function PositionOf(n: nat, t: nat): (p: nat)
    requires LegalWidth(n) && t < n
    ensures p < n && Entry(n, p) == t
  {
    if t == 0 then 0 else if 2 * t - 1 < n then 2 * t - 1 else 2 * (n - t)
  }

  /** The step from position p to the next, modulo n. */
  function StepAt(n: nat, p: nat): int
    requires p + 1 < n
  {
    if p % 2 == 0 then p + 1 else n - (p + 1)
  }

  lemma StepAtDistinct(n: nat, p: nat, q: nat)
    requires LegalWidth(n) && p + 1 < n && q + 1 < n
    ensures 0 < StepAt(n, p) < n
    ensures StepAt(n, p) == StepAt(n, q) ==> p == q
  {}

  lemma StepIsDifference(n: nat, p: nat)
    requires LegalWidth(n) && p + 1 < n
    ensures Entry(n, p + 1) - Entry(n, p) == StepAt(n, p) || Entry(n, p + 1) - Entry(n, p) == StepAt(n, p) - n
  {}

  /** The difference of the row's entries at p + 1 and p, modulo n. */
  function Difference(n: nat, p: nat): nat
    requires p + 1 < n
  {
    (Entry(n, p + 1) - Entry(n, p)) % n
  }

  lemma ResidueIs(x: int, n: nat, r: nat)
    requires r < n && (x == r || x == r - n)
    ensures x % n == r
  {
    QuotientUnique(n, x / n, x % n, if x == r then 0 else -1, r);
  }

  lemma DifferenceIsStep(n: nat, p: nat)
    requires LegalWidth(n) && p + 1 < n
    ensures Difference(n, p) == StepAt(n, p)
  {
    StepAtDistinct(n, p, p);
    StepIsDifference(n, p);
    ResidueIs(Entry(n, p + 1) - Entry(n, p), n, StepAt(n, p));
  }

  /** The row's adjacent differences modulo n are all distinct, none is zero, and so every other residue is one. */
  lemma StepsDistinct(n: nat, p: nat, q: nat)
    requires LegalWidth(n) && p + 1 < n && q + 1 < n
    ensures 0 < Difference(n, p) < n
    ensures Difference(n, p) == Difference(n, q) ==> p == q
    ensures forall d {:trigger StepPosition(n, d)} :: 0 < d < n ==> Difference(n, StepPosition(n, d)) == d
  {
    hide Difference;
    DifferenceIsStep(n, p);
    DifferenceIsStep(n, q);
    StepAtDistinct(n, p, q);
    forall d | 0 < d < n
      ensures Difference(n, StepPosition(n, d)) == d
    {
      DifferenceIsStep(n, StepPosition(n, d));
    }
  }

  /** Every non-zero step occurs. */
  function StepPosition(n: nat, d: nat): (p: nat)
    requires LegalWidth(n) && 0 < d < n
    ensures p + 1 < n && StepAt(n, p) == d
  {
    if d % 2 == 1 then d - 1 else n - d - 1
  }

  // ----- cyclic shifts -----

  /** x reduced once: enough for a sum of two residues. */
  function Fold(n: nat, x: nat): nat {
    if x < n then x else x - n
  }

  lemma ShiftByResidue(n: nat, x: nat, run: nat)
    requires x < n
    ensures (x + run) % n == Fold(n, x + run % n)
  {
    var q, r := run / n, run % n;
    assert run == n * q + r;
    if x + r < n {
      RemainderUnique(x + run, n, q, x + r);
    } else {
      RemainderUnique(x + run, n, q + 1, x + r - n);
    }
  }

  /** The one run of the n runs from `start` on with residue r. */
  lemma RunWithResidue(n: nat, start: nat, r: nat) returns (run: nat)
    requires r < n
    ensures start <= run < start + n && run % n == r
  {
    var q, s := start / n, start % n;
    assert start == n * q + s;
    if s <= r {
      run := start + (r - s);
      RemainderUnique(run, n, q, r);
    } else {
      run := start + (n + r - s);
      assert run == n * (q + 1) + r;
      RemainderUnique(run, n, q + 1, r);
    }
  }

  lemma SameResidue(n: nat, start: nat, run: nat, run': nat)
    requires n > 0 && start <= run < start + n && start <= run' < start + n && run % n == run' % n
    ensures run == run'
  {
    var q, q' := run / n, run' / n;
    assert n * (q - q') == run - run';
    if q > q' { MulAtLeast(n, q - q'); }
    if q < q' { MulAtLeast(n, q' - q); }
  }

  /** Over any n consecutive runs a treatment takes each position exactly once. */
  lemma PositionOnce(n: nat, start: nat, t: nat, p: nat) returns (run: nat)
    requires LegalWidth(n) && t < n && p < n
    ensures start <= run < start + n && Scheduled(n, run, p) == t
    ensures forall other {:trigger Scheduled(n, other, p)} :: start <= other < start + n && Scheduled(n, other, p) == t ==> other == run
  {
    EntryRange(n, p);
    var e := Entry(n, p);
    run := RunWithResidue(n, start, if e <= t then t - e else t + n - e);
    ShiftByResidue(n, e, run);
    forall other | start <= other < start + n && Scheduled(n, other, p) == t
      ensures other == run
    {
      ShiftByResidue(n, e, other);
      SameResidue(n, start, run, other);
    }
  }

  /** Each run is a permutation of the treatments. */
  lemma RunIsPermutation(n: nat, run: nat, t: nat) returns (p: nat)
    requires LegalWidth(n) && t < n
    ensures p < n && Scheduled(n, run, p) == t
    ensures forall q :: 0 <= q < n && Scheduled(n, run, q) == t ==> q == p
  {
    var r := run % n;
    p := PositionOf(n, if r <= t then t - r else t + n - r);
    ShiftByResidue(n, Entry(n, p), run);
    forall q | 0 <= q < n && Scheduled(n, run, q) == t
      ensures q == p
    {
      EntryRange(n, q);
      ShiftByResidue(n, Entry(n, q), run);
      EntryInjective(n, p, q);
    }
  }

  ghost predicate Adjacent(n: nat, run: nat, p: nat, a: nat, b: nat) {
    p + 1 < n && Scheduled(n, run, p) == a && Scheduled(n, run, p + 1) == b
  }

  /** Adjacent treatments differ by the step of their position. */
  lemma AdjacentStep(n: nat, run: nat, p: nat, a: nat, b: nat)
    requires LegalWidth(n) && Adjacent(n, run, p, a, b)
    ensures b - a == StepAt(n, p) || b - a == StepAt(n, p) - n
  {
    EntryRange(n, p);
    EntryRange(n, p + 1);
    ShiftByResidue(n, Entry(n, p), run);
    ShiftByResidue(n, Entry(n, p + 1), run);
    StepIsDifference(n, p);
    StepAtDistinct(n, p, p);
  }

  /** Over any n consecutive runs every ordered pair of distinct treatments is adjacent exactly once. */
  lemma PairOnce(n: nat, start: nat, a: nat, b: nat) returns (run: nat, p: nat)
    requires LegalWidth(n) && a < n && b < n && a != b
    ensures start <= run < start + n && Adjacent(n, run, p, a, b)
    ensures forall run', p' :: start <= run' < start + n && p' >= 0 && Adjacent(n, run', p', a, b) ==> run' == run && p' == p
  {
    var d := if a < b then b - a else b + n - a;
    p := StepPosition(n, d);
    run := PositionOnce(n, start, a, p);
    var c := Scheduled(n, run, p + 1);
    AdjacentStep(n, run, p, a, c);
    forall run', p' | start <= run' < start + n && p' >= 0 && Adjacent(n, run', p', a, b)
      ensures run' == run && p' == p
    {
      AdjacentStep(n, run', p', a, b);
      StepAtDistinct(n, p, p');
    }
  }
}
