/** Rows of a benchmark design, their grouping by run, and the counting facts validators rely on. */
module Designs {

  /** A result row: its run, its position in the run, its treatment, and the other columns a check looks at. */
  datatype Row<T, D> = Row(run: int, position: int, treatment: T, data: D)

  /** The rows of one run in input order. */
  function RowsOf<T, D>(rows: seq<Row<T, D>>, run: int): (rs: seq<Row<T, D>>)
    ensures forall k :: 0 <= k < |rs| ==> rs[k].run == run
  {
    if rows == [] then [] else
      var last := rows[|rows| - 1];
      RowsOf(rows[..|rows| - 1], run) + if last.run == run then [last] else []
  }

  lemma {:induction false} RowsOfConcat<T, D>(xs: seq<Row<T, D>>, ys: seq<Row<T, D>>, run: int)
    ensures RowsOf(xs + ys, run) == RowsOf(xs, run) + RowsOf(ys, run)
  {
    if ys == [] {
      assert xs + ys == xs;
    } else {
      var n := |ys| - 1;
      assert (xs + ys)[..|xs| + n] == xs + ys[..n];
      RowsOfConcat(xs, ys[..n], run);
    }
  }

  lemma {:induction false} RowsOfUniform<T, D>(xs: seq<Row<T, D>>, own: int, run: int)
    requires forall k :: 0 <= k < |xs| ==> xs[k].run == own
    ensures RowsOf(xs, run) == if run == own then xs else []
  {
    if xs != [] {
      RowsOfUniform(xs[..|xs| - 1], own, run);
    }
  }

  function Positions<T, D>(rs: seq<Row<T, D>>): seq<int> {
    seq(|rs|, k requires 0 <= k < |rs| => rs[k].position)
  }

  /** The last row at position p. */
  function IndexOfPosition<T, D>(rs: seq<Row<T, D>>, p: int): (k: nat)
    requires p in Elements(Positions(rs))
    ensures k < |rs| && rs[k].position == p
  {
    var n := |rs| - 1;
    if rs[n].position == p then n else
      assert forall k :: 0 <= k < n ==> Positions(rs[..n])[k] == Positions(rs)[k];
      IndexOfPosition(rs[..n], p)
  }

  /** {1, ..., n}. */
  function Range(n: nat): (s: set<int>)
    ensures forall p :: p in s <==> 1 <= p <= n
  {
    if n == 0 then {} else Range(n - 1) + {n}
  }

  predicate Distinct<T(==)>(xs: seq<T>) {
    forall i, j :: 0 <= i < j < |xs| ==> xs[i] != xs[j]
  }

  function Elements<T>(xs: seq<T>): set<T> {
    set x | x in xs
  }

  // ----- pigeonhole -----

  lemma {:induction false} RangeSize(n: nat)
    ensures |Range(n)| == n
  {
    if n > 0 {
      RangeSize(n - 1);
    }
  }

  lemma {:induction false} ElementsAtMost<T>(xs: seq<T>)
    ensures |Elements(xs)| <= |xs|
  {
    if xs == [] {
      assert Elements(xs) == {};
    } else {
      var n := |xs| - 1;
      ElementsAtMost(xs[..n]);
      assert Elements(xs) == Elements(xs[..n]) + {xs[n]};
    }
  }

  /** n items with n different values have no repetition. */
  lemma Pigeonhole<T>(xs: seq<T>)
    requires |Elements(xs)| == |xs|
    ensures Distinct(xs)
  {
    forall i, j | 0 <= i < j < |xs|
      ensures xs[i] != xs[j]
    {
      if xs[i] == xs[j] {
        var ys := xs[..j] + xs[j + 1..];
        assert forall x :: x in xs ==> x in ys by {
          assert xs == xs[..j] + [xs[j]] + xs[j + 1..];
          assert ys[i] == xs[i];
        }
        assert Elements(xs) == Elements(ys);
        ElementsAtMost(ys);
      }
    }
  }

  lemma {:induction false} DistinctElements<T>(xs: seq<T>)
    requires Distinct(xs)
    ensures |Elements(xs)| == |xs|
  {
    if xs == [] {
      assert Elements(xs) == {};
    } else {
      var n := |xs| - 1;
      DistinctElements(xs[..n]);
      assert Elements(xs) == Elements(xs[..n]) + {xs[n]};
      assert xs[n] !in Elements(xs[..n]);
    }
  }

  // ----- adjacent pairs -----

  function Pairs<T>(line: seq<T>): seq<(T, T)> {
    if |line| == 0 then [] else seq(|line| - 1, p requires 0 <= p < |line| - 1 => (line[p], line[p + 1]))
  }

  /** The predecessor pairs of several lines, one after the other. */
  function AllPairs<T>(lines: seq<seq<T>>): seq<(T, T)> {
    if lines == [] then [] else AllPairs(lines[..|lines| - 1]) + Pairs(lines[|lines| - 1])
  }

  ghost predicate PairAt<T>(lines: seq<seq<T>>, j: int, p: int, pair: (T, T)) {
    0 <= j < |lines| && 0 <= p && p + 1 < |lines[j]| && lines[j][p] == pair.0 && lines[j][p + 1] == pair.1
  }

  /** The pair stands at exactly one place. */
  ghost predicate OnePlace<T(!new)>(lines: seq<seq<T>>, pair: (T, T)) {
    && (exists j, p :: PairAt(lines, j, p, pair))
    && (forall j, p, j', p' :: PairAt(lines, j, p, pair) && PairAt(lines, j', p', pair) ==> j == j' && p == p')
  }

  /** xs without its i-th element. */
  function Without<T>(xs: seq<T>, i: nat): seq<T>
    requires i < |xs|
  {
    xs[..i] + xs[i + 1..]
  }

  lemma OthersStay<T>(xs: seq<T>, i: nat)
    requires i < |xs|
    ensures forall k :: 0 <= k < |xs| && k != i ==> xs[k] in Without(xs, i)
  {}

  lemma CountOne<T>(xs: seq<T>, i: nat)
    requires i < |xs|
    ensures multiset(xs)[xs[i]] == 1 <==> forall k :: 0 <= k < |xs| && xs[k] == xs[i] ==> k == i
  {
    var x, rest := xs[i], Without(xs, i);
    assert xs == xs[..i] + [x] + xs[i + 1..];
    assert multiset(xs) == multiset(rest) + multiset{x};
    if multiset(xs)[x] != 1 {
      assert x in rest;
      var k :| 0 <= k < |rest| && rest[k] == x;
      assert xs[if k < i then k else k + 1] == x;
    }
    OthersStay(xs, i);
  }

  /** Where line j starts among all pairs. */
  function Offset<T>(lines: seq<seq<T>>, j: nat): nat
    requires j <= |lines|
  {
    |AllPairs(lines[..j])|
  }

  lemma {:induction false} OffsetStep<T>(lines: seq<seq<T>>, j: nat)
    requires j < |lines|
    ensures Offset(lines, j + 1) == Offset(lines, j) + |Pairs(lines[j])|
  {
    assert lines[..j + 1][..j] == lines[..j];
  }

  lemma {:induction false} OffsetMonotone<T>(lines: seq<seq<T>>, j: nat, k: nat)
    requires j <= k <= |lines|
    ensures Offset(lines, j) <= Offset(lines, k)
  {
    hide Pairs, AllPairs, Offset;
    if j < k {
      OffsetMonotone(lines, j, k - 1);
      OffsetStep(lines, k - 1);
    }
  }

  lemma {:induction false} PairIndex<T>(lines: seq<seq<T>>, j: nat, p: nat)
    requires j < |lines| && p < |Pairs(lines[j])|
    ensures Offset(lines, j) + p < |AllPairs(lines)|
    ensures AllPairs(lines)[Offset(lines, j) + p] == Pairs(lines[j])[p]
  {
    hide Pairs;
    var n := |lines| - 1;
    if j < n {
      assert lines[..n][..j] == lines[..j];
      PairIndex(lines[..n], j, p);
    }
  }

  lemma {:induction false} LocateIndex<T>(lines: seq<seq<T>>, i: nat) returns (j: nat, p: nat)
    requires i < |AllPairs(lines)|
    ensures j < |lines| && p < |Pairs(lines[j])| && i == Offset(lines, j) + p
  {
    var n := |lines| - 1;
    var before := |AllPairs(lines[..n])|;
    if before <= i {
      j, p := n, i - before;
    } else {
      j, p := LocateIndex(lines[..n], i);
      assert lines[..n][..j] == lines[..j];
    }
  }

  lemma IndexDeterminesPlace<T>(lines: seq<seq<T>>, j: nat, p: nat, j': nat, p': nat)
    requires j < |lines| && p < |Pairs(lines[j])| && j' < |lines| && p' < |Pairs(lines[j'])|
    requires Offset(lines, j) + p == Offset(lines, j') + p'
    ensures j == j' && p == p'
  {
    OffsetStep(lines, j);
    OffsetStep(lines, j');
    if j < j' {
      OffsetMonotone(lines, j + 1, j');
    } else if j' < j {
      OffsetMonotone(lines, j' + 1, j);
    }
  }

  /** A place is an index into all pairs, and the other way round. */
  lemma PlaceIndex<T>(lines: seq<seq<T>>, j: nat, p: nat, pair: (T, T))
    requires PairAt(lines, j, p, pair)
    ensures p < |Pairs(lines[j])|
    ensures Offset(lines, j) + p < |AllPairs(lines)| && AllPairs(lines)[Offset(lines, j) + p] == pair
  {
    hide AllPairs, Offset;
    PairIndex(lines, j, p);
  }

  lemma IndexPlace<T>(lines: seq<seq<T>>, i: nat) returns (j: nat, p: nat)
    requires i < |AllPairs(lines)|
    ensures PairAt(lines, j, p, AllPairs(lines)[i]) && p < |Pairs(lines[j])| && i == Offset(lines, j) + p
  {
    hide AllPairs, Offset;
    j, p := LocateIndex(lines, i);
    PairIndex(lines, j, p);
  }

  /** Counting a pair once is standing at one place. */
  lemma CountedOnceIsOnePlace<T(!new)>(lines: seq<seq<T>>, pair: (T, T))
    ensures multiset(AllPairs(lines))[pair] == 1 <==> OnePlace(lines, pair)
  {
    if multiset(AllPairs(lines))[pair] == 1 {
      CountedOnceStandsOnce(lines, pair);
    }
    if OnePlace(lines, pair) {
      StandingOnceCountsOnce(lines, pair);
    }
  }

  lemma CountedOnceStandsOnce<T(!new)>(lines: seq<seq<T>>, pair: (T, T))
    requires multiset(AllPairs(lines))[pair] == 1
    ensures OnePlace(lines, pair)
  {
    hide Pairs, AllPairs, Offset;
    var all := AllPairs(lines);
    assert pair in all;
    var i :| 0 <= i < |all| && all[i] == pair;
    CountOne(all, i);
    var j, p := IndexPlace(lines, i);
    forall j1, p1 | PairAt(lines, j1, p1, pair)
      ensures j1 == j && p1 == p
    {
      PlaceIndex(lines, j1, p1, pair);
      IndexDeterminesPlace(lines, j, p, j1, p1);
    }
  }

  lemma StandingOnceCountsOnce<T(!new)>(lines: seq<seq<T>>, pair: (T, T))
    requires OnePlace(lines, pair)
    ensures multiset(AllPairs(lines))[pair] == 1
  {
    hide Pairs, AllPairs, Offset;
    var all := AllPairs(lines);
    var j, p :| PairAt(lines, j, p, pair);
    PlaceIndex(lines, j, p, pair);
    var i := Offset(lines, j) + p;
    forall k | 0 <= k < |all| && all[k] == pair
      ensures k == i
    {
      var j1, p1 := IndexPlace(lines, k);
    }
    CountOne(all, i);
  }

  /** A pair that is counted stands somewhere. */
  lemma CountedStands<T>(lines: seq<seq<T>>, pair: (T, T)) returns (j: nat, p: nat)
    requires pair in AllPairs(lines)
    ensures PairAt(lines, j, p, pair)
  {
    var i :| 0 <= i < |AllPairs(lines)| && AllPairs(lines)[i] == pair;
    j, p := IndexPlace(lines, i);
  }
}
