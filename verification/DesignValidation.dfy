/** The design check of the summarizer: what acceptance means, and that the benchmark's own schedule passes. */
module DesignValidation {
  import opened Words
  import opened Designs
  import opened Options

  /** Attempted samples, warm-up and UDP deadline of a row. */
  type Configuration = (int, int, int)

  function Treatments<T>(rs: seq<Row<T, Configuration>>): seq<T> {
    seq(|rs|, k requires 0 <= k < |rs| => rs[k].treatment)
  }

  function Runs<T>(rows: seq<Row<T, Configuration>>): seq<int> {
    seq(|rows|, k requires 0 <= k < |rows| => rows[k].run)
  }

  function Configurations<T>(rows: seq<Row<T, Configuration>>): seq<Configuration> {
    seq(|rows|, k requires 0 <= k < |rows| => rows[k].data)
  }

  /** "one complete treatment row": n rows with all positions and all treatments. */
  predicate CompleteRun<T(==)>(rs: seq<Row<T, Configuration>>, treatments: set<T>) {
    var n := |treatments|;
    |rs| == n && Elements(Positions(rs)) == Range(n) && Elements(Treatments(rs)) == treatments
  }

  /** The treatments of a complete run sorted by position. */
  function Line<T(==)>(rs: seq<Row<T, Configuration>>, treatments: set<T>): (line: seq<T>)
    requires CompleteRun(rs, treatments)
    ensures |line| == |treatments|
  {
    seq(|treatments|, q requires 0 <= q < |treatments| => rs[IndexOfPosition(rs, q + 1)].treatment)
  }

  predicate AllComplete<T(==)>(rows: seq<Row<T, Configuration>>, treatments: set<T>, start: int, n: nat) {
    forall run :: start <= run < start + n ==> CompleteRun(RowsOf(rows, run), treatments)
  }

  function Lines<T(==)>(rows: seq<Row<T, Configuration>>, treatments: set<T>, start: int, n: nat): seq<seq<T>>
    requires AllComplete(rows, treatments, start, n)
  {
    seq(n, j requires 0 <= j < n => Line(RowsOf(rows, start + j), treatments))
  }

  /** The positions a treatment takes in a block of runs. */
  function PositionsOf<T(==)>(rows: seq<Row<T, Configuration>>, start: int, n: nat, t: T): set<int> {
    set run, r | start <= run < start + n && r in RowsOf(rows, run) && r.treatment == t :: r.position
  }

  function ExpectedPairs<T(==)>(treatments: set<T>): set<(T, T)> {
    set l, r | l in treatments && r in treatments && l != r :: (l, r)
  }

  /** Each treatment takes every position in the block. */
  ghost predicate PositionsAccepted<T>(rows: seq<Row<T, Configuration>>, treatments: set<T>, start: int) {
    forall t :: t in treatments ==> PositionsOf(rows, start, |treatments|, t) == Range(|treatments|)
  }

  /** Every directed predecessor pair is counted once in the block. */
  ghost predicate PairsAccepted<T>(rows: seq<Row<T, Configuration>>, treatments: set<T>, start: int)
    requires AllComplete(rows, treatments, start, |treatments|)
  {
    multiset(AllPairs(Lines(rows, treatments, start, |treatments|))) == multiset(ExpectedPairs(treatments))
  }

  /** Both tests of one aligned block of runs. */
  ghost predicate BlockAccepted<T>(rows: seq<Row<T, Configuration>>, treatments: set<T>, start: int)
    requires AllComplete(rows, treatments, start, |treatments|)
  {
    PositionsAccepted(rows, treatments, start) && PairsAccepted(rows, treatments, start)
  }

  predicate IsBlockStart(start: int, n: nat, runs: nat) {
    1 <= start <= runs && IsMultiple(start - 1, n)
  }

  /** The blocks that start before `limit` pass. */
  ghost predicate BlocksAccepted<T>(rows: seq<Row<T, Configuration>>, treatments: set<T>, runs: nat, limit: int) {
    forall start :: IsBlockStart(start, |treatments|, runs) && start < limit ==>
      AllComplete(rows, treatments, start, |treatments|) && BlockAccepted(rows, treatments, start)
  }

  /** The tests before any run is looked at. */
  predicate Countable<T>(rows: seq<Row<T, Configuration>>, treatments: set<T>, runs: nat) {
    IsMultiple(runs, |treatments|) && |rows| == runs * |treatments|
  }

  predicate Uniform<T(==)>(rows: seq<Row<T, Configuration>>, treatments: set<T>, runs: nat) {
    && Countable(rows, treatments, runs)
    && Elements(Runs(rows)) == Range(runs) && |Elements(Configurations(rows))| == 1
  }

  /** All tests of validate_design. */
  ghost predicate Accepts<T>(rows: seq<Row<T, Configuration>>, treatments: set<T>, runs: nat) {
    && Uniform(rows, treatments, runs)
    && AllComplete(rows, treatments, 1, runs)
    && BlocksAccepted(rows, treatments, runs, runs + 1)
  }

  datatype DesignError =
    | NotMultipleOfWidth | RowCount | RunIds | MixedConfigurations
    | IncompleteRun(run: int) | UnbalancedPositions(block: int) | UnbalancedPredecessors(block: int)

  /** The error is that of the first test that fails. */
  ghost predicate FirstFailure<T>(rows: seq<Row<T, Configuration>>, treatments: set<T>, runs: nat, error: DesignError) {
    match error
    case NotMultipleOfWidth => !IsMultiple(runs, |treatments|)
    case RowCount => IsMultiple(runs, |treatments|) && |rows| != runs * |treatments|
    case RunIds => Countable(rows, treatments, runs) && Elements(Runs(rows)) != Range(runs)
    case MixedConfigurations =>
      && Countable(rows, treatments, runs) && Elements(Runs(rows)) == Range(runs)
      && |Elements(Configurations(rows))| != 1
    case IncompleteRun(run) =>
      && Uniform(rows, treatments, runs) && 1 <= run <= runs
      && AllComplete(rows, treatments, 1, run - 1) && !CompleteRun(RowsOf(rows, run), treatments)
    case UnbalancedPositions(block) =>
      && Uniform(rows, treatments, runs) && AllComplete(rows, treatments, 1, runs)
      && IsBlockStart(block, |treatments|, runs) && BlocksAccepted(rows, treatments, runs, block)
      && !PositionsAccepted(rows, treatments, block)
    case UnbalancedPredecessors(block) =>
      && Uniform(rows, treatments, runs) && AllComplete(rows, treatments, 1, runs)
      && IsBlockStart(block, |treatments|, runs) && BlocksAccepted(rows, treatments, runs, block)
      && AllComplete(rows, treatments, block, |treatments|)
      && PositionsAccepted(rows, treatments, block) && !PairsAccepted(rows, treatments, block)
  }

  // ----- one complete run -----

  /** In a complete run no position and no treatment repeats. */
  lemma CompleteRunDistinct<T>(rs: seq<Row<T, Configuration>>, treatments: set<T>)
    requires CompleteRun(rs, treatments)
    ensures forall k, m :: 0 <= k < |rs| && 0 <= m < |rs| && rs[k].position == rs[m].position ==> k == m
    ensures forall k, m :: 0 <= k < |rs| && 0 <= m < |rs| && rs[k].treatment == rs[m].treatment ==> k == m
  {
    RangeSize(|treatments|);
    Pigeonhole(Positions(rs));
    Pigeonhole(Treatments(rs));
    forall k, m | 0 <= k < m < |rs|
      ensures rs[k].position != rs[m].position && rs[k].treatment != rs[m].treatment
    {
      assert Positions(rs)[k] != Positions(rs)[m];
      assert Treatments(rs)[k] != Treatments(rs)[m];
    }
  }

  function IndexOfTreatment<T(==)>(rs: seq<Row<T, Configuration>>, t: T): (k: nat)
    requires t in Elements(Treatments(rs))
    ensures k < |rs| && rs[k].treatment == t
  {
    var n := |rs| - 1;
    if rs[n].treatment == t then n else
      assert forall k :: 0 <= k < n ==> Treatments(rs[..n])[k] == Treatments(rs)[k];
      IndexOfTreatment(rs[..n], t)
  }

  // ----- soundness -----

  /** Row k of a run puts t at position p. */
  ghost predicate Places<T>(rows: seq<Row<T, Configuration>>, run: int, k: int, p: int, t: T) {
    && 0 <= k < |RowsOf(rows, run)|
    && RowsOf(rows, run)[k].position == p && RowsOf(rows, run)[k].treatment == t
  }

  /** An accepted block has each treatment in each position exactly once. */
  lemma PositionsBalanced<T>(rows: seq<Row<T, Configuration>>, treatments: set<T>, runs: nat, start: int, p: int, t: T)
    returns (run: int, k: int)
    requires Accepts(rows, treatments, runs) && IsBlockStart(start, |treatments|, runs)
    requires 1 <= p <= |treatments| && t in treatments
    ensures start <= run < start + |treatments| && Places(rows, run, k, p, t)
    ensures forall run', k' :: start <= run' < start + |treatments| && Places(rows, run', k', p, t) ==> run' == run && k' == k
  {
    hide RowsOf, Elements, AllPairs, Pairs;
    assert AllComplete(rows, treatments, start, |treatments|) && BlockAccepted(rows, treatments, start);
    run, k := SomePlace(rows, treatments, start, p, t);
    forall run', k' | start <= run' < start + |treatments| && Places(rows, run', k', p, t)
      ensures run' == run && k' == k
    {
      OnePositionPerRun(rows, treatments, start, p, t, run, k, run', k');
    }
  }

  lemma SomePlace<T>(rows: seq<Row<T, Configuration>>, treatments: set<T>, start: int, p: int, t: T) returns (run: int, k: int)
    requires p in PositionsOf(rows, start, |treatments|, t)
    ensures start <= run < start + |treatments| && Places(rows, run, k, p, t)
  {
    hide RowsOf;
    var run0, r :| start <= run0 < start + |treatments| && r in RowsOf(rows, run0) && r.treatment == t && r.position == p;
    run := run0;
    k :| 0 <= k < |RowsOf(rows, run)| && RowsOf(rows, run)[k] == r;
  }

  function PositionIn<T(==)>(rows: seq<Row<T, Configuration>>, treatments: set<T>, run: int, t: T): int
    requires CompleteRun(RowsOf(rows, run), treatments) && t in treatments
  {
    RowsOf(rows, run)[IndexOfTreatment(RowsOf(rows, run), t)].position
  }

  lemma PositionInIs<T>(rows: seq<Row<T, Configuration>>, treatments: set<T>, run: int, p: int, t: T, k: int)
    requires CompleteRun(RowsOf(rows, run), treatments) && t in treatments && Places(rows, run, k, p, t)
    ensures PositionIn(rows, treatments, run, t) == p
  {
    CompleteRunDistinct(RowsOf(rows, run), treatments);
  }

  /** The positions of one treatment, run by run. */
  function PositionsByRun<T(==)>(rows: seq<Row<T, Configuration>>, treatments: set<T>, start: int, t: T): (qs: seq<int>)
    requires AllComplete(rows, treatments, start, |treatments|) && t in treatments
    ensures |qs| == |treatments|
  {
    seq(|treatments|, m requires 0 <= m < |treatments| => PositionIn(rows, treatments, start + m, t))
  }

  lemma PositionsByRunSet<T>(rows: seq<Row<T, Configuration>>, treatments: set<T>, start: int, t: T)
    requires AllComplete(rows, treatments, start, |treatments|) && t in treatments
    requires PositionsOf(rows, start, |treatments|, t) == Range(|treatments|)
    ensures Elements(PositionsByRun(rows, treatments, start, t)) == Range(|treatments|)
  {
    hide CompleteRun, RowsOf;
    var qs := PositionsByRun(rows, treatments, start, t);
    forall p
      ensures p in qs <==> p in PositionsOf(rows, start, |treatments|, t)
    {
      if p in qs {
        var m :| 0 <= m < |qs| && qs[m] == p;
        TreatmentStands(rows, treatments, start + m, t);
      }
      if p in PositionsOf(rows, start, |treatments|, t) {
        var run, k := SomePlace(rows, treatments, start, p, t);
        PositionInIs(rows, treatments, run, p, t, k);
        assert qs[run - start] == p;
      }
    }
  }

  lemma TreatmentStands<T>(rows: seq<Row<T, Configuration>>, treatments: set<T>, run: int, t: T)
    requires CompleteRun(RowsOf(rows, run), treatments) && t in treatments
    ensures exists r :: r in RowsOf(rows, run) && r.treatment == t && r.position == PositionIn(rows, treatments, run, t)
  {}

  /** n runs give a treatment n different positions. */
  lemma PositionsByRunDistinct<T>(rows: seq<Row<T, Configuration>>, treatments: set<T>, start: int, t: T)
    requires AllComplete(rows, treatments, start, |treatments|) && t in treatments
    requires PositionsOf(rows, start, |treatments|, t) == Range(|treatments|)
    ensures Distinct(PositionsByRun(rows, treatments, start, t))
  {
    hide RowsOf, CompleteRun, PositionIn, PositionsOf, AllComplete, PositionsByRun;
    PositionsByRunSet(rows, treatments, start, t);
    RangeSize(|treatments|);
    Pigeonhole(PositionsByRun(rows, treatments, start, t));
  }

  /** So one position never comes twice. */
  lemma OnePositionPerRun<T>(rows: seq<Row<T, Configuration>>, treatments: set<T>, start: int, p: int, t: T,
                             run: int, k: int, run': int, k': int)
    requires AllComplete(rows, treatments, start, |treatments|) && t in treatments
    requires PositionsOf(rows, start, |treatments|, t) == Range(|treatments|)
    requires start <= run < start + |treatments| && start <= run' < start + |treatments|
    requires Places(rows, run, k, p, t) && Places(rows, run', k', p, t)
    ensures run == run' && k == k'
  {
    hide RowsOf, CompleteRun, PositionIn, PositionsOf;
    var qs := PositionsByRun(rows, treatments, start, t);
    PositionsByRunDistinct(rows, treatments, start, t);
    PositionInIs(rows, treatments, run, p, t, k);
    PositionInIs(rows, treatments, run', p, t, k');
    assert qs[run - start] == p == qs[run' - start];
    CompleteRunDistinct(RowsOf(rows, run), treatments);
  }

  /** In an accepted block every ordered pair of distinct treatments is adjacent exactly once. */
  lemma PairsBalanced<T(!new)>(rows: seq<Row<T, Configuration>>, treatments: set<T>, runs: nat, start: int, left: T, right: T)
    requires Accepts(rows, treatments, runs) && IsBlockStart(start, |treatments|, runs)
    requires left in treatments && right in treatments && left != right
    ensures AllComplete(rows, treatments, start, |treatments|)
    ensures OnePlace(Lines(rows, treatments, start, |treatments|), (left, right))
  {
    assert BlockAccepted(rows, treatments, start);
    assert (left, right) in ExpectedPairs(treatments);
    CountedOnceIsOnePlace(Lines(rows, treatments, start, |treatments|), (left, right));
  }

  // ----- the check itself -----

  /** by_run as a defaultdict. */
  function Grouped<T>(byRun: map<int, seq<Row<T, Configuration>>>, run: int): seq<Row<T, Configuration>> {
    if run in byRun then byRun[run] else []
  }

  method GroupByRun<T>(rows: seq<Row<T, Configuration>>) returns (byRun: map<int, seq<Row<T, Configuration>>>)
    ensures forall run :: Grouped(byRun, run) == RowsOf(rows, run)
  {
    byRun := map[];
    for i := 0 to |rows|
      invariant forall run :: Grouped(byRun, run) == RowsOf(rows[..i], run)
    {
      assert rows[..i + 1][..i] == rows[..i];
      var row := rows[i];
      byRun := byRun[row.run := Grouped(byRun, row.run) + [row]];
    }
    assert rows[..|rows|] == rows;
  }

  method CheckPositions<T(==)>(ghost rows: seq<Row<T, Configuration>>, byRun: map<int, seq<Row<T, Configuration>>>, treatments: seq<T>, start: int)
    returns (balanced: bool)
    requires forall run :: Grouped(byRun, run) == RowsOf(rows, run)
    requires |Elements(treatments)| == |treatments|
    ensures balanced <==> PositionsAccepted(rows, Elements(treatments), start)
  {
    hide RowsOf, Range;
    for k := 0 to |treatments|
      invariant forall m :: 0 <= m < k ==> PositionsOf(rows, start, |treatments|, treatments[m]) == Range(|treatments|)
    {
      var t := treatments[k];
      var positions := set run, r | start <= run < start + |treatments| && r in Grouped(byRun, run) && r.treatment == t :: r.position;
      assert positions == PositionsOf(rows, start, |treatments|, t);
      if positions != Range(|treatments|) {
        assert t in Elements(treatments);
        return false;
      }
    }
    return true;
  }

  method CollectPredecessors<T(==)>(ghost rows: seq<Row<T, Configuration>>, byRun: map<int, seq<Row<T, Configuration>>>, expected: set<T>, start: int)
    returns (predecessors: seq<(T, T)>)
    requires forall run :: Grouped(byRun, run) == RowsOf(rows, run)
    requires AllComplete(rows, expected, start, |expected|)
    ensures predecessors == AllPairs(Lines(rows, expected, start, |expected|))
  {
    hide RowsOf, CompleteRun, Pairs;
    predecessors := [];
    for k := 0 to |expected|
      invariant AllComplete(rows, expected, start, k)
      invariant predecessors == AllPairs(Lines(rows, expected, start, k))
    {
      assert Lines(rows, expected, start, k + 1)[..k] == Lines(rows, expected, start, k);
      predecessors := predecessors + Pairs(Line(Grouped(byRun, start + k), expected));
    }
  }

  method CheckBlock<T(==)>(ghost rows: seq<Row<T, Configuration>>, byRun: map<int, seq<Row<T, Configuration>>>, treatments: seq<T>, start: int)
    returns (error: Option<DesignError>)
    requires Distinct(treatments) && forall run :: Grouped(byRun, run) == RowsOf(rows, run)
    requires AllComplete(rows, Elements(treatments), start, |treatments|)
    ensures |Elements(treatments)| == |treatments|
    ensures match error
            case None => BlockAccepted(rows, Elements(treatments), start)
            case Some(e) =>
              if PositionsAccepted(rows, Elements(treatments), start)
              then e == UnbalancedPredecessors(start) && !PairsAccepted(rows, Elements(treatments), start)
              else e == UnbalancedPositions(start)
  {
    hide RowsOf, CompleteRun, AllPairs, Lines, PositionsOf, Distinct;
    DistinctElements(treatments);
    var balanced := CheckPositions(rows, byRun, treatments, start);
    if !balanced {
      return Some(UnbalancedPositions(start));
    }
    var predecessors := CollectPredecessors(rows, byRun, Elements(treatments), start);
    if multiset(predecessors) != multiset(ExpectedPairs(Elements(treatments))) {
      return Some(UnbalancedPredecessors(start));
    }
    return None;
  }

  method CheckBlocks<T(==)>(rows: seq<Row<T, Configuration>>, byRun: map<int, seq<Row<T, Configuration>>>, treatments: seq<T>, runs: nat)
    returns (error: Option<DesignError>)
    requires Distinct(treatments) && forall run :: Grouped(byRun, run) == RowsOf(rows, run)
    requires Uniform(rows, Elements(treatments), runs) && AllComplete(rows, Elements(treatments), 1, runs)
    ensures match error
            case None => BlocksAccepted(rows, Elements(treatments), runs, runs + 1)
            case Some(e) => FirstFailure(rows, Elements(treatments), runs, e) && !BlocksAccepted(rows, Elements(treatments), runs, runs + 1)
  {
    hide RowsOf, CompleteRun, AllPairs, Lines, PositionsAccepted, PairsAccepted;
    DistinctElements(treatments);
    var width, expected := |treatments|, Elements(treatments);
    var start := 1;
    ZeroIsMultiple(width);
    while start <= runs
      invariant start >= 1 && IsMultiple(start - 1, width)
      invariant BlocksAccepted(rows, expected, runs, start)
    {
      NextMultiple(start - 1, runs, width);
      error := CheckBlock(rows, byRun, treatments, start);
      assert IsBlockStart(start, width, runs);
      if error.Some? {
        return;
      }
      BlockPassed(rows, expected, runs, start);
      start := start + width;
    }
    return None;
  }

  lemma BlockPassed<T>(rows: seq<Row<T, Configuration>>, treatments: set<T>, runs: nat, start: int)
    requires BlocksAccepted(rows, treatments, runs, start) && IsBlockStart(start, |treatments|, runs)
    requires AllComplete(rows, treatments, start, |treatments|) && BlockAccepted(rows, treatments, start)
    ensures BlocksAccepted(rows, treatments, runs, start + |treatments|)
  {
    hide RowsOf, CompleteRun, BlockAccepted;
    forall s | IsBlockStart(s, |treatments|, runs) && s < start + |treatments|
      ensures AllComplete(rows, treatments, s, |treatments|) && BlockAccepted(rows, treatments, s)
    {
      if start < s {
        NextMultiple(start - 1, s - 1, |treatments|);
      }
    }
  }

  method ValidateDesign<T(==)>(rows: seq<Row<T, Configuration>>, treatments: seq<T>, runs: nat)
    returns (error: Option<DesignError>)
    requires Distinct(treatments) && treatments != []
    ensures error.None? <==> Accepts(rows, Elements(treatments), runs)
    ensures error.Some? ==> FirstFailure(rows, Elements(treatments), runs, error.value)
  {
    hide RowsOf, CompleteRun, BlocksAccepted, PositionsAccepted, PairsAccepted;
    DistinctElements(treatments);
    var width, expected := |treatments|, Elements(treatments);
    if runs % width != 0 {
      return Some(NotMultipleOfWidth);
    }
    if |rows| != runs * width {
      return Some(RowCount);
    }
    if Elements(Runs(rows)) != Range(runs) {
      return Some(RunIds);
    }
    if |Elements(Configurations(rows))| != 1 {
      return Some(MixedConfigurations);
    }
    var byRun := GroupByRun(rows);
    for run := 1 to runs + 1
      invariant AllComplete(rows, expected, 1, run - 1)
    {
      if !CompleteRun(Grouped(byRun, run), expected) {
        return Some(IncompleteRun(run));
      }
    }
    error := CheckBlocks(rows, byRun, treatments, runs);
  }
}
