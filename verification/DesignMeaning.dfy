/** What the summarizer's design check accepts, said of the rows themselves: exactly the balanced designs. */
module DesignMeaning {
  import opened Words
  import opened Designs
  import opened DesignValidation

  /** Some row puts the treatment at this position of this run. */
  ghost predicate Stands<T>(rows: seq<Row<T, Configuration>>, run: int, p: int, t: T) {
    exists k :: 0 <= k < |rows| && rows[k].run == run && rows[k].position == p && rows[k].treatment == t
  }

  /** The rows are in range, and no run repeats a position or a treatment. */
  ghost predicate WellFormed<T>(rows: seq<Row<T, Configuration>>, treatments: set<T>, runs: nat) {
    && (forall k :: 0 <= k < |rows| ==> 1 <= rows[k].run <= runs && 1 <= rows[k].position <= |treatments| && rows[k].treatment in treatments)
    && (forall j, k :: 0 <= j < k < |rows| && rows[j].run == rows[k].run ==>
          rows[j].position != rows[k].position && rows[j].treatment != rows[k].treatment)
  }

  /** One treatment takes one position in exactly one run of the block. */
  ghost predicate TakenOnce<T>(rows: seq<Row<T, Configuration>>, start: int, n: nat, p: int, t: T) {
    && (exists run :: start <= run < start + n && Stands(rows, run, p, t))
    && (forall x, y :: start <= x < start + n && start <= y < start + n && Stands(rows, x, p, t) && Stands(rows, y, p, t) ==> x == y)
  }

  ghost predicate PositionsOnce<T>(rows: seq<Row<T, Configuration>>, treatments: set<T>, start: int) {
    forall t, p {:trigger TakenOnce(rows, start, |treatments|, p, t)} ::
      t in treatments && 1 <= p <= |treatments| ==> TakenOnce(rows, start, |treatments|, p, t)
  }

  /** In this run of the block, left stands at position p and right at the next. */
  ghost predicate FollowsIn<T>(rows: seq<Row<T, Configuration>>, start: int, n: nat, run: int, p: int, left: T, right: T) {
    InBlock(start, n, run, p) && Stands(rows, run, p, left) && Stands(rows, run, p + 1, right)
  }

  /** One pair of treatments is adjacent at exactly one place of the block. */
  ghost predicate AdjacentOnce<T>(rows: seq<Row<T, Configuration>>, start: int, n: nat, left: T, right: T) {
    && (exists run, p :: FollowsIn(rows, start, n, run, p, left, right))
    && (forall x, p, y, q ::
          FollowsIn(rows, start, n, x, p, left, right) && FollowsIn(rows, start, n, y, q, left, right) ==> x == y && p == q)
  }

  predicate InBlock(start: int, n: nat, run: int, p: int) {
    start <= run < start + n && 1 <= p < n
  }

  ghost predicate PairsOnce<T>(rows: seq<Row<T, Configuration>>, treatments: set<T>, start: int) {
    forall left, right :: left in treatments && right in treatments && left != right ==>
      AdjacentOnce(rows, start, |treatments|, left, right)
  }

  ghost predicate BalancedDesign<T>(rows: seq<Row<T, Configuration>>, treatments: set<T>, runs: nat) {
    var n := |treatments|;
    && IsMultiple(runs, n) && rows != [] && |rows| == runs * n
    && (forall j, k :: 0 <= j < |rows| && 0 <= k < |rows| ==> rows[j].data == rows[k].data)
    && WellFormed(rows, treatments, runs)
    && forall start :: IsBlockStart(start, n, runs) ==> PositionsOnce(rows, treatments, start) && PairsOnce(rows, treatments, start)
  }

  // ----- rows and rows of a run -----

  /** Where row k stands among the rows of its run. */
  ghost function Place<T, D>(rows: seq<Row<T, D>>, k: nat): nat
    requires k < |rows|
  {
    |RowsOf(rows[..k], rows[k].run)|
  }

  lemma PlaceHolds<T, D>(rows: seq<Row<T, D>>, k: nat)
    requires k < |rows|
    ensures Place(rows, k) < |RowsOf(rows, rows[k].run)| && RowsOf(rows, rows[k].run)[Place(rows, k)] == rows[k]
  {
    var run := rows[k].run;
    assert rows == rows[..k] + ([rows[k]] + rows[k + 1..]);
    RowsOfConcat(rows[..k], [rows[k]] + rows[k + 1..], run);
    RowsOfConcat([rows[k]], rows[k + 1..], run);
    RowsOfUniform([rows[k]], run, run);
  }

  lemma PlacesIncrease<T, D>(rows: seq<Row<T, D>>, j: nat, k: nat)
    requires j < k < |rows| && rows[j].run == rows[k].run
    ensures Place(rows, j) < Place(rows, k)
  {
    PlaceHolds(rows[..k], j);
    assert rows[..k][..j] == rows[..j];
  }

  lemma {:induction false} PlaceOf<T, D>(rows: seq<Row<T, D>>, run: int, i: nat) returns (k: nat)
    requires i < |RowsOf(rows, run)|
    ensures k < |rows| && rows[k].run == run && rows[k] == RowsOf(rows, run)[i] && Place(rows, k) == i
  {
    var n := |rows| - 1;
    if i < |RowsOf(rows[..n], run)| {
      k := PlaceOf(rows[..n], run, i);
      assert rows[..n][..k] == rows[..k];
    } else {
      k := n;
    }
  }

  lemma StandsInRun<T>(rows: seq<Row<T, Configuration>>, run: int, p: int, t: T)
    ensures Stands(rows, run, p, t) <==> exists i :: Places(rows, run, i, p, t)
  {
    hide RowsOf;
    if Stands(rows, run, p, t) {
      var k :| 0 <= k < |rows| && rows[k].run == run && rows[k].position == p && rows[k].treatment == t;
      PlaceHolds(rows, k);
      assert Places(rows, run, Place(rows, k), p, t);
    }
    if exists i :: Places(rows, run, i, p, t) {
      var i :| Places(rows, run, i, p, t);
      var k := PlaceOf(rows, run, i);
    }
  }

  /** The line of a run has t at position p exactly when a row says so. */
  lemma LineStands<T>(rows: seq<Row<T, Configuration>>, treatments: set<T>, run: int, p: int, t: T)
    requires CompleteRun(RowsOf(rows, run), treatments) && 1 <= p <= |treatments|
    ensures Line(RowsOf(rows, run), treatments)[p - 1] == t <==> Stands(rows, run, p, t)
  {
    hide RowsOf;
    var rs := RowsOf(rows, run);
    StandsInRun(rows, run, p, t);
    CompleteRunDistinct(rs, treatments);
    assert p in Range(|treatments|);
    assert Places(rows, run, IndexOfPosition(rs, p), p, Line(rs, treatments)[p - 1]);
  }

  // ----- complete runs -----

  lemma RunsAreWellFormed<T>(rows: seq<Row<T, Configuration>>, treatments: set<T>, runs: nat)
    requires Elements(Runs(rows)) == Range(runs) && AllComplete(rows, treatments, 1, runs)
    ensures WellFormed(rows, treatments, runs)
  {
    hide RowsOf, CompleteRun, Place;
    forall k | 0 <= k < |rows|
      ensures 1 <= rows[k].run <= runs && 1 <= rows[k].position <= |treatments| && rows[k].treatment in treatments
    {
      assert Runs(rows)[k] in Elements(Runs(rows));
      PlaceHolds(rows, k);
      CompleteContains(RowsOf(rows, rows[k].run), treatments, Place(rows, k));
    }
    forall j, k | 0 <= j < k < |rows| && rows[j].run == rows[k].run
      ensures rows[j].position != rows[k].position && rows[j].treatment != rows[k].treatment
    {
      PlaceHolds(rows, j);
      PlaceHolds(rows, k);
      PlacesIncrease(rows, j, k);
      CompleteRunDistinct(RowsOf(rows, rows[k].run), treatments);
    }
  }

  lemma CompleteContains<T>(rs: seq<Row<T, Configuration>>, treatments: set<T>, i: nat)
    requires CompleteRun(rs, treatments) && i < |rs|
    ensures 1 <= rs[i].position <= |treatments| && rs[i].treatment in treatments
  {
    assert Positions(rs)[i] in Elements(Positions(rs)) && Treatments(rs)[i] in Elements(Treatments(rs));
  }

  /** All rows up to run m, counted run by run. */
  ghost function UpTo<T, D>(rows: seq<Row<T, D>>, m: nat): nat {
    if m == 0 then 0 else UpTo(rows, m - 1) + |RowsOf(rows, m)|
  }

  lemma {:induction false} UpToAppend<T, D>(rows: seq<Row<T, D>>, row: Row<T, D>, m: nat)
    ensures UpTo(rows + [row], m) == UpTo(rows, m) + if 1 <= row.run <= m then 1 else 0
  {
    if m > 0 {
      UpToAppend(rows, row, m - 1);
      assert (rows + [row])[..|rows|] == rows;
    }
  }

  lemma {:induction false} UpToAll<T, D>(rows: seq<Row<T, D>>, runs: nat)
    requires forall k :: 0 <= k < |rows| ==> 1 <= rows[k].run <= runs
    ensures UpTo(rows, runs) == |rows|
  {
    if rows == [] {
      UpToNothing<T, D>(runs);
    } else {
      var n := |rows| - 1;
      UpToAll(rows[..n], runs);
      UpToAppend(rows[..n], rows[n], runs);
      assert rows[..n] + [rows[n]] == rows;
    }
  }

  lemma {:induction false} UpToNothing<T, D>(m: nat)
    ensures UpTo<T, D>([], m) == 0
  {
    if m > 0 { UpToNothing<T, D>(m - 1); }
  }

  /** If no run has more than n rows but all together have runs * n, each has n. */
  lemma {:induction false} AllFull<T, D>(rows: seq<Row<T, D>>, n: nat, m: nat)
    requires forall run :: 1 <= run <= m ==> |RowsOf(rows, run)| <= n
    ensures UpTo(rows, m) <= m * n
    ensures UpTo(rows, m) == m * n ==> forall run :: 1 <= run <= m ==> |RowsOf(rows, run)| == n
  {
    hide RowsOf;
    if m > 0 {
      AllFull(rows, n, m - 1);
      assert m * n == (m - 1) * n + n;
    }
  }

  lemma {:induction false} DistinctWithin<T>(xs: seq<T>, all: set<T>)
    requires Distinct(xs) && forall x :: x in xs ==> x in all
    ensures |xs| <= |all| && (|xs| == |all| ==> Elements(xs) == all)
  {
    DistinctElements(xs);
    SubsetSize(Elements(xs), all);
  }

  lemma SubsetSize<T>(a: set<T>, b: set<T>)
    requires a <= b
    ensures |a| <= |b| && (|a| == |b| ==> a == b)
  {
    assert b == a + (b - a);
  }

  lemma RunFits<T>(rows: seq<Row<T, Configuration>>, treatments: set<T>, runs: nat, run: int)
    requires WellFormed(rows, treatments, runs)
    ensures |RowsOf(rows, run)| <= |treatments|
    ensures |RowsOf(rows, run)| == |treatments| ==> CompleteRun(RowsOf(rows, run), treatments)
  {
    hide RowsOf, Place;
    var rs := RowsOf(rows, run);
    forall i | 0 <= i < |rs|
      ensures 1 <= rs[i].position <= |treatments| && rs[i].treatment in treatments
    {
      var k := PlaceOf(rows, run, i);
    }
    forall i, j | 0 <= i < j < |rs|
      ensures rs[i].position != rs[j].position && rs[i].treatment != rs[j].treatment
    {
      var k := PlaceOf(rows, run, i);
      var m := PlaceOf(rows, run, j);
      if m < k {
        PlacesIncrease(rows, m, k);
      }
    }
    RangeSize(|treatments|);
    DistinctWithin(Positions(rs), Range(|treatments|));
    DistinctWithin(Treatments(rs), treatments);
  }

  lemma WellFormedIsComplete<T>(rows: seq<Row<T, Configuration>>, treatments: set<T>, runs: nat)
    requires WellFormed(rows, treatments, runs) && |rows| == runs * |treatments| && treatments != {}
    ensures AllComplete(rows, treatments, 1, runs) && Elements(Runs(rows)) == Range(runs)
  {
    hide RowsOf, CompleteRun, UpTo;
    forall run | 1 <= run <= runs
      ensures |RowsOf(rows, run)| <= |treatments|
    {
      RunFits(rows, treatments, runs, run);
    }
    UpToAll(rows, runs);
    AllFull(rows, |treatments|, runs);
    forall run | 1 <= run <= runs
      ensures CompleteRun(RowsOf(rows, run), treatments) && run in Elements(Runs(rows))
    {
      RunFits(rows, treatments, runs, run);
      var k := PlaceOf(rows, run, 0);
      assert Runs(rows)[k] == run;
    }
  }

  // ----- blocks -----

  lemma PositionsMean<T>(rows: seq<Row<T, Configuration>>, treatments: set<T>, start: int)
    requires AllComplete(rows, treatments, start, |treatments|)
    ensures PositionsAccepted(rows, treatments, start) <==> PositionsOnce(rows, treatments, start)
  {
    hide RowsOf, CompleteRun, PositionsOf, Range;
    if PositionsAccepted(rows, treatments, start) {
      forall t, p | t in treatments && 1 <= p <= |treatments|
        ensures TakenOnce(rows, start, |treatments|, p, t)
      {
        AcceptedIsOnce(rows, treatments, start, p, t);
      }
    }
    if PositionsOnce(rows, treatments, start) {
      forall t | t in treatments
        ensures PositionsOf(rows, start, |treatments|, t) == Range(|treatments|)
      {
        OnceIsAccepted(rows, treatments, start, t);
      }
    }
  }

  lemma AcceptedIsOnce<T>(rows: seq<Row<T, Configuration>>, treatments: set<T>, start: int, p: int, t: T)
    requires AllComplete(rows, treatments, start, |treatments|) && t in treatments && 1 <= p <= |treatments|
    requires PositionsOf(rows, start, |treatments|, t) == Range(|treatments|)
    ensures TakenOnce(rows, start, |treatments|, p, t)
  {
    hide RowsOf, CompleteRun, PositionsOf;
    var run, k := SomePlace(rows, treatments, start, p, t);
    StandsInRun(rows, run, p, t);
    forall x, y | start <= x < start + |treatments| && start <= y < start + |treatments| && Stands(rows, x, p, t) && Stands(rows, y, p, t)
      ensures x == y
    {
      StandsInRun(rows, x, p, t);
      StandsInRun(rows, y, p, t);
      var i :| Places(rows, x, i, p, t);
      var j :| Places(rows, y, j, p, t);
      OnePositionPerRun(rows, treatments, start, p, t, x, i, y, j);
    }
  }

  lemma OnceIsAccepted<T>(rows: seq<Row<T, Configuration>>, treatments: set<T>, start: int, t: T)
    requires AllComplete(rows, treatments, start, |treatments|) && t in treatments
    requires PositionsOnce(rows, treatments, start)
    ensures PositionsOf(rows, start, |treatments|, t) == Range(|treatments|)
  {
    hide RowsOf, CompleteRun;
    var n := |treatments|;
    forall p
      ensures p in PositionsOf(rows, start, n, t) <==> p in Range(n)
    {
      if p in PositionsOf(rows, start, n, t) {
        var run, k := SomePlace(rows, treatments, start, p, t);
        CompleteContains(RowsOf(rows, run), treatments, k);
      }
      if 1 <= p <= n {
        assert TakenOnce(rows, start, n, p, t);
        var run :| start <= run < start + n && Stands(rows, run, p, t);
        StandsInRun(rows, run, p, t);
        var i :| Places(rows, run, i, p, t);
        assert RowsOf(rows, run)[i] in RowsOf(rows, run);
      }
    }
  }

  lemma LineLengths<T>(rows: seq<Row<T, Configuration>>, treatments: set<T>, start: int, n: nat)
    requires AllComplete(rows, treatments, start, n)
    ensures forall j :: 0 <= j < n ==> |Lines(rows, treatments, start, n)[j]| == |treatments|
  {
    hide RowsOf, CompleteRun;
    forall j | 0 <= j < n
      ensures |Lines(rows, treatments, start, n)[j]| == |treatments|
    {
      assert Lines(rows, treatments, start, n)[j] == Line(RowsOf(rows, start + j), treatments);
    }
  }

  /** A place of a pair among the lines is a run and a position where it is adjacent. */
  lemma PairStands<T>(rows: seq<Row<T, Configuration>>, treatments: set<T>, start: int, j: int, p: int, left: T, right: T)
    requires AllComplete(rows, treatments, start, |treatments|)
    ensures PairAt(Lines(rows, treatments, start, |treatments|), j, p, (left, right))
       <==> FollowsIn(rows, start, |treatments|, start + j, p + 1, left, right)
  {
    hide RowsOf, CompleteRun, Line;
    LineLengths(rows, treatments, start, |treatments|);
    if 0 <= j < |treatments| && 0 <= p && p + 1 < |treatments| {
      LineStands(rows, treatments, start + j, p + 1, left);
      LineStands(rows, treatments, start + j, p + 2, right);
    }
  }

  lemma OnePlaceMeans<T(!new)>(rows: seq<Row<T, Configuration>>, treatments: set<T>, start: int, left: T, right: T)
    requires AllComplete(rows, treatments, start, |treatments|)
    ensures OnePlace(Lines(rows, treatments, start, |treatments|), (left, right))
       <==> AdjacentOnce(rows, start, |treatments|, left, right)
  {
    hide RowsOf, CompleteRun, Lines, PairAt, FollowsIn;
    var lines, n := Lines(rows, treatments, start, |treatments|), |treatments|;
    forall j, p
      ensures PairAt(lines, j, p, (left, right)) <==> FollowsIn(rows, start, n, start + j, p + 1, left, right)
    {
      PairStands(rows, treatments, start, j, p, left, right);
    }
    forall run, p
      ensures FollowsIn(rows, start, n, run, p, left, right) <==> PairAt(lines, run - start, p - 1, (left, right))
    {
      assert start + (run - start) == run && p - 1 + 1 == p;
      PairStands(rows, treatments, start, run - start, p - 1, left, right);
    }
    if AdjacentOnce(rows, start, n, left, right) {
      var run, p :| FollowsIn(rows, start, n, run, p, left, right);
      assert PairAt(lines, run - start, p - 1, (left, right));
    }
    if OnePlace(lines, (left, right)) {
      var j, p :| PairAt(lines, j, p, (left, right));
      assert FollowsIn(rows, start, n, start + j, p + 1, left, right);
    }
  }

  /** Lines of complete runs pair only different treatments of the design. */
  lemma LinesPairDifferent<T>(rows: seq<Row<T, Configuration>>, treatments: set<T>, start: int, pair: (T, T))
    requires AllComplete(rows, treatments, start, |treatments|)
    requires pair in AllPairs(Lines(rows, treatments, start, |treatments|))
    ensures pair in ExpectedPairs(treatments)
  {
    hide RowsOf, AllPairs, CompleteRun, Line;
    var lines := Lines(rows, treatments, start, |treatments|);
    var j, p := CountedStands(lines, pair);
    LineLengths(rows, treatments, start, |treatments|);
    LineHasDifferent(RowsOf(rows, start + j), treatments, p, p + 1);
  }

  lemma LineHasDifferent<T>(rs: seq<Row<T, Configuration>>, treatments: set<T>, p: nat, q: nat)
    requires CompleteRun(rs, treatments) && p < q < |treatments|
    ensures var line := Line(rs, treatments); line[p] != line[q] && line[p] in treatments && line[q] in treatments
  {
    assert p + 1 in Range(|treatments|) && q + 1 in Range(|treatments|);
    CompleteRunDistinct(rs, treatments);
    CompleteContains(rs, treatments, IndexOfPosition(rs, p + 1));
    CompleteContains(rs, treatments, IndexOfPosition(rs, q + 1));
  }

  lemma PairsMean<T(!new)>(rows: seq<Row<T, Configuration>>, treatments: set<T>, start: int)
    requires AllComplete(rows, treatments, start, |treatments|)
    ensures PairsAccepted(rows, treatments, start) <==> PairsOnce(rows, treatments, start)
  {
    hide RowsOf, CompleteRun, Lines, AllPairs, OnePlace, AdjacentOnce;
    var all := AllPairs(Lines(rows, treatments, start, |treatments|));
    forall left, right
      ensures multiset(all)[(left, right)] == 1 <==> AdjacentOnce(rows, start, |treatments|, left, right)
    {
      CountedOnceIsOnePlace(Lines(rows, treatments, start, |treatments|), (left, right));
      OnePlaceMeans(rows, treatments, start, left, right);
    }
    forall pair: (T, T)
      ensures pair in ExpectedPairs(treatments) ==> multiset(ExpectedPairs(treatments))[pair] == 1
      ensures pair !in ExpectedPairs(treatments) ==> multiset(all)[pair] == 0 == multiset(ExpectedPairs(treatments))[pair]
    {
      if pair in all {
        LinesPairDifferent(rows, treatments, start, pair);
      }
    }
    if PairsOnce(rows, treatments, start) {
      forall pair: (T, T)
        ensures multiset(all)[pair] == multiset(ExpectedPairs(treatments))[pair]
      {
        if pair in ExpectedPairs(treatments) {
          assert AdjacentOnce(rows, start, |treatments|, pair.0, pair.1);
          assert pair == (pair.0, pair.1);
        }
      }
      assert multiset(all) == multiset(ExpectedPairs(treatments));
    }
    if PairsAccepted(rows, treatments, start) {
      forall left, right | left in treatments && right in treatments && left != right
        ensures AdjacentOnce(rows, start, |treatments|, left, right)
      {
        assert (left, right) in ExpectedPairs(treatments);
      }
    }
  }

  // ----- the whole check -----

  lemma NoElements<X>()
    ensures Elements<X>([]) == {}
  {}

  lemma SameConfiguration<T>(rows: seq<Row<T, Configuration>>)
    ensures |Elements(Configurations(rows))| == 1 <==>
            rows != [] && forall j, k :: 0 <= j < |rows| && 0 <= k < |rows| ==> rows[j].data == rows[k].data
  {
    var all := Configurations(rows);
    if |Elements(all)| == 1 {
      NoElements<Configuration>();
      assert rows != [];
      assert {all[0]} <= Elements(all);
      SubsetSize({all[0]}, Elements(all));
      forall j | 0 <= j < |rows|
        ensures rows[j].data == all[0]
      {
        assert all[j] in Elements(all);
      }
    }
    if rows != [] && forall j, k :: 0 <= j < |rows| && 0 <= k < |rows| ==> rows[j].data == rows[k].data {
      assert Elements(all) == {all[0]};
    }
  }

  /** The design check accepts exactly the balanced designs, in whatever order their rows come. */
  lemma AcceptsExactly<T(!new)>(rows: seq<Row<T, Configuration>>, treatments: set<T>, runs: nat)
    requires treatments != {}
    ensures Accepts(rows, treatments, runs) <==> BalancedDesign(rows, treatments, runs)
  {
    hide RowsOf, CompleteRun, Lines, AllPairs, PositionsAccepted, PairsAccepted, PositionsOnce, PairsOnce, WellFormed, AllComplete, Elements, Range;
    SameConfiguration(rows);
    if Accepts(rows, treatments, runs) {
      RunsAreWellFormed(rows, treatments, runs);
    }
    if BalancedDesign(rows, treatments, runs) {
      WellFormedIsComplete(rows, treatments, runs);
    }
    if AllComplete(rows, treatments, 1, runs) && IsMultiple(runs, |treatments|) {
      forall start | IsBlockStart(start, |treatments|, runs)
        ensures AllComplete(rows, treatments, start, |treatments|)
        ensures PositionsAccepted(rows, treatments, start) <==> PositionsOnce(rows, treatments, start)
        ensures PairsAccepted(rows, treatments, start) <==> PairsOnce(rows, treatments, start)
      {
        BlockOfRuns(rows, treatments, runs, start);
        PositionsMean(rows, treatments, start);
        PairsMean(rows, treatments, start);
      }
    }
  }

  lemma BlockOfRuns<T>(rows: seq<Row<T, Configuration>>, treatments: set<T>, runs: nat, start: int)
    requires AllComplete(rows, treatments, 1, runs) && IsMultiple(runs, |treatments|) && IsBlockStart(start, |treatments|, runs)
    ensures AllComplete(rows, treatments, start, |treatments|)
  {
    NextMultiple(start - 1, runs, |treatments|);
  }
}
