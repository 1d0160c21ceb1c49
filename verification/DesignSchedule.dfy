/** The schedule the benchmark runs, and its acceptance by the design check. */
module DesignSchedule {
  import opened Words
  import opened Williams
  import opened Designs
  import opened Schedules
  import opened DesignValidation

  lemma {:induction false} ScheduleHasRun<T>(canonical: seq<T>, runs: nat, data: (nat, nat) -> Configuration, run: int)
    requires canonical != [] && 1 <= run <= runs
    ensures run in Runs(Schedule(canonical, runs, data))
  {
    var rows := Schedule(canonical, runs, data);
    var before := Schedule(canonical, runs - 1, data);
    if run == runs {
      assert Runs(rows)[|before|] == run;
    } else {
      ScheduleHasRun(canonical, runs - 1, data, run);
      var k :| 0 <= k < |before| && Runs(before)[k] == run;
      assert Runs(rows)[k] == run;
    }
  }

  // ----- each run is complete -----

  lemma RunRowsComplete<T>(canonical: seq<T>, run: nat, data: (nat, nat) -> Configuration)
    requires LegalWidth(|canonical|) && Distinct(canonical)
    ensures CompleteRun(RunRows(canonical, run, data), Elements(canonical))
  {
    var n, rs := |canonical|, RunRows(canonical, run, data);
    DistinctElements(canonical);
    forall p
      ensures p in Elements(Positions(rs)) <==> p in Range(n)
    {
      if 1 <= p <= n { assert Positions(rs)[p - 1] == p; }
    }
    forall t
      ensures t in Elements(Treatments(rs)) <==> t in Elements(canonical)
    {
      if t in canonical {
        var i :| 0 <= i < n && canonical[i] == t;
        var p := RunIsPermutation(n, run, i);
        assert Treatments(rs)[p] == t;
      }
      if t in Treatments(rs) {
        var p :| 0 <= p < n && Treatments(rs)[p] == t;
        assert t == canonical[Scheduled(n, run, p)];
      }
    }
    assert Elements(Positions(rs)) == Range(n);
    assert Elements(Treatments(rs)) == Elements(canonical);
  }

  // ----- the block tests -----

  lemma BlockPositions<T>(canonical: seq<T>, runs: nat, data: (nat, nat) -> Configuration, start: nat, i: nat)
    requires LegalWidth(|canonical|) && Distinct(canonical) && i < |canonical|
    requires 1 <= start && start + |canonical| <= runs + 1
    ensures PositionsOf(Schedule(canonical, runs, data), start, |canonical|, canonical[i]) == Range(|canonical|)
  {
    hide RowsOf;
    var n, rows, t := |canonical|, Schedule(canonical, runs, data), canonical[i];
    forall run | start <= run < start + n
      ensures RowsOf(rows, run) == RunRows(canonical, run - 1, data)
    {
      ScheduleByRun(canonical, runs, data, run);
    }
    forall p
      ensures p in PositionsOf(rows, start, n, t) <==> p in Range(n)
    {
      if 1 <= p <= n {
        var run := PositionOnce(n, start - 1, i, p - 1);
        var rs := RowsOf(rows, run + 1);
        assert rs[p - 1] in rs && rs[p - 1].treatment == t && rs[p - 1].position == p;
      }
    }
  }

  lemma ScheduleComplete<T>(canonical: seq<T>, runs: nat, data: (nat, nat) -> Configuration, start: int, n: nat)
    requires LegalWidth(|canonical|) && Distinct(canonical) && 1 <= start && start + n <= runs + 1
    ensures AllComplete(Schedule(canonical, runs, data), Elements(canonical), start, n)
  {
    hide RowsOf;
    forall run | start <= run < start + n
      ensures CompleteRun(RowsOf(Schedule(canonical, runs, data), run), Elements(canonical))
    {
      ScheduleByRun(canonical, runs, data, run);
      RunRowsComplete(canonical, run - 1, data);
    }
  }

  /** Line j of a block is the canonical order shifted by its run. */
  ghost predicate IsShiftedBlock<T>(lines: seq<seq<T>>, canonical: seq<T>, start: nat) {
    && |lines| == |canonical|
    && forall j :: 0 <= j < |lines| ==> IsShiftedLine(lines[j], canonical, start + j)
  }

  ghost predicate IsShiftedLine<T>(line: seq<T>, canonical: seq<T>, run: nat) {
    && |line| == |canonical|
    && forall q :: 0 <= q < |line| ==> line[q] == canonical[Scheduled(|canonical|, run, q)]
  }

  /** Sorting a run by position gives the shifted first row. */
  lemma RunRowsLine<T>(canonical: seq<T>, run: nat, data: (nat, nat) -> Configuration)
    requires LegalWidth(|canonical|) && Distinct(canonical)
    requires CompleteRun(RunRows(canonical, run, data), Elements(canonical))
    ensures IsShiftedLine(Line(RunRows(canonical, run, data), Elements(canonical)), canonical, run)
  {}

  lemma BlockIsShifted<T>(canonical: seq<T>, runs: nat, data: (nat, nat) -> Configuration, start: nat)
    requires LegalWidth(|canonical|) && Distinct(canonical)
    requires 1 <= start && start + |canonical| <= runs + 1
    requires AllComplete(Schedule(canonical, runs, data), Elements(canonical), start, |canonical|)
    ensures IsShiftedBlock(Lines(Schedule(canonical, runs, data), Elements(canonical), start, |canonical|),
                           canonical, start - 1)
  {
    hide RowsOf, RunRows, Line, IsShiftedLine, Schedule, CompleteRun;
    var lines := Lines(Schedule(canonical, runs, data), Elements(canonical), start, |canonical|);
    forall j | 0 <= j < |lines|
      ensures IsShiftedLine(lines[j], canonical, start - 1 + j)
    {
      ScheduleByRun(canonical, runs, data, start + j);
      RunRowsComplete(canonical, start + j - 1, data);
      RunRowsLine(canonical, start + j - 1, data);
    }
  }

  lemma PairStandsOnce<T(!new)>(lines: seq<seq<T>>, canonical: seq<T>, start: nat, pair: (T, T))
    requires LegalWidth(|canonical|) && Distinct(canonical) && IsShiftedBlock(lines, canonical, start)
    requires pair in ExpectedPairs(Elements(canonical))
    ensures OnePlace(lines, pair)
  {
    hide Scheduled;
    var n := |canonical|;
    var a :| 0 <= a < n && canonical[a] == pair.0;
    var b :| 0 <= b < n && canonical[b] == pair.1;
    var run, p := PairOnce(n, start, a, b);
    assert IsShiftedLine(lines[run - start], canonical, run);
    assert PairAt(lines, run - start, p, pair);
    forall j, q | PairAt(lines, j, q, pair)
      ensures j == run - start && q == p
    {
      assert IsShiftedLine(lines[j], canonical, start + j);
      assert Adjacent(n, start + j, q, a, b);
    }
  }

  lemma OnlyExpectedPairs<T>(lines: seq<seq<T>>, canonical: seq<T>, start: nat, pair: (T, T))
    requires LegalWidth(|canonical|) && Distinct(canonical) && IsShiftedBlock(lines, canonical, start)
    requires pair in AllPairs(lines)
    ensures pair in ExpectedPairs(Elements(canonical))
  {
    hide Scheduled, AllPairs;
    var n := |canonical|;
    var j, p := CountedStands(lines, pair);
    assert IsShiftedLine(lines[j], canonical, start + j);
    var a, b := Scheduled(n, start + j, p), Scheduled(n, start + j, p + 1);
    AdjacentStep(n, start + j, p, a, b);
    StepAtDistinct(n, p, p);
    assert canonical[a] in canonical && canonical[b] in canonical;
  }

  lemma BlockPairs<T(!new)>(lines: seq<seq<T>>, canonical: seq<T>, start: nat)
    requires LegalWidth(|canonical|) && Distinct(canonical) && IsShiftedBlock(lines, canonical, start)
    ensures multiset(AllPairs(lines)) == multiset(ExpectedPairs(Elements(canonical)))
  {
    hide AllPairs, IsShiftedBlock, OnePlace;
    forall pair: (T, T)
      ensures multiset(AllPairs(lines))[pair] == multiset(ExpectedPairs(Elements(canonical)))[pair]
    {
      if pair in ExpectedPairs(Elements(canonical)) {
        PairStandsOnce(lines, canonical, start, pair);
        CountedOnceIsOnePlace(lines, pair);
      } else if pair in AllPairs(lines) {
        OnlyExpectedPairs(lines, canonical, start, pair);
      }
    }
  }

  /** Every schedule the benchmark generates over a whole number of blocks passes the design check. */
  lemma ScheduleAccepted<T(!new)>(canonical: seq<T>, runs: nat, data: (nat, nat) -> Configuration, configuration: Configuration)
    requires forall run: nat, p: nat :: data(run, p) == configuration
    requires LegalWidth(|canonical|) && Distinct(canonical) && runs > 0 && IsMultiple(runs, |canonical|)
    ensures Accepts(Schedule(canonical, runs, data), Elements(canonical), runs)
  {
    hide RowsOf, Schedule, CompleteRun, AllPairs, Lines, PositionsOf, AllComplete, IsMultiple, Pairs;
    var rows, ts := Schedule(canonical, runs, data), Elements(canonical);
    DistinctElements(canonical);
    ScheduleSize(canonical, runs, data);
    ScheduleRunIds(canonical, runs, data, configuration);
    ScheduleComplete(canonical, runs, data, 1, runs);
    forall start | IsBlockStart(start, |canonical|, runs)
      ensures AllComplete(rows, ts, start, |canonical|) && BlockAccepted(rows, ts, start)
    {
      NextMultiple(start - 1, runs, |canonical|);
      ScheduleComplete(canonical, runs, data, start, |canonical|);
      BlockIsShifted(canonical, runs, data, start);
      BlockPairs(Lines(rows, ts, start, |canonical|), canonical, start - 1);
      forall t | t in ts
        ensures PositionsOf(rows, start, |canonical|, t) == Range(|canonical|)
      {
        var i :| 0 <= i < |canonical| && canonical[i] == t;
        BlockPositions(canonical, runs, data, start, i);
      }
    }
  }

  lemma ScheduleRunIds<T>(canonical: seq<T>, runs: nat, data: (nat, nat) -> Configuration, configuration: Configuration)
    requires forall run: nat, p: nat :: data(run, p) == configuration
    requires canonical != [] && runs > 0
    ensures var rows := Schedule(canonical, runs, data);
            Elements(Runs(rows)) == Range(runs) && |Elements(Configurations(rows))| == 1
  {
    hide Schedule;
    var rows := Schedule(canonical, runs, data);
    forall run
      ensures run in Elements(Runs(rows)) <==> run in Range(runs)
    {
      if 1 <= run <= runs {
        ScheduleHasRun(canonical, runs, data, run);
      }
      if run in Runs(rows) {
        var k :| 0 <= k < |rows| && Runs(rows)[k] == run;
        ScheduleRow(canonical, runs, data, k);
      }
    }
    forall k | 0 <= k < |rows|
      ensures rows[k].data == configuration
    {
      ScheduleRow(canonical, runs, data, k);
    }
    ScheduleHasRun(canonical, runs, data, 1);
    assert Configurations(rows)[0] == configuration;
    assert Elements(Configurations(rows)) == {configuration};
  }
}
