/** What an accepted tournament is: the designed schedule in some order, balanced over the positions. */
module TournamentDesign {
  import opened Words
  import opened Williams
  import opened Designs
  import opened Schedules
  import opened Tournament

  /** What a row says about the design, without its measured columns. */
  function Keys<T, D>(rows: seq<Row<T, D>>): seq<(int, int, T)> {
    seq(|rows|, k requires 0 <= k < |rows| => (rows[k].run, rows[k].position, rows[k].treatment))
  }

  /** Condition and position of a row. */
  function Places<T, D>(rows: seq<Row<T, D>>): seq<(T, int)> {
    seq(|rows|, k requires 0 <= k < |rows| => (rows[k].treatment, rows[k].position))
  }

  /** The same design rows in some order. */
  ghost predicate SameDesign<T, D>(xs: seq<Row<T, D>>, ys: seq<Row<T, D>>) {
    multiset(Keys(xs)) == multiset(Keys(ys))
  }

  // ----- counting rows -----

  lemma {:induction false} KeysByRun<T, D>(rows: seq<Row<T, D>>, key: (int, int, T))
    ensures multiset(Keys(rows))[key] == multiset(Keys(RowsOf(rows, key.0)))[key]
  {
    if rows != [] {
      var n := |rows| - 1;
      KeysByRun(rows[..n], key);
      assert Keys(rows) == Keys(rows[..n]) + Keys([rows[n]]);
      assert Keys([rows[n]]) == [(rows[n].run, rows[n].position, rows[n].treatment)];
      var before := RowsOf(rows[..n], key.0);
      if rows[n].run == key.0 {
        assert Keys(before + [rows[n]]) == Keys(before) + Keys([rows[n]]);
      } else {
        assert RowsOf(rows, key.0) == before;
      }
    }
  }

  lemma CountDistinct<X>(xs: seq<X>, x: X)
    requires Distinct(xs)
    ensures multiset(xs)[x] == if x in xs then 1 else 0
  {
    if x in xs {
      var i :| 0 <= i < |xs| && xs[i] == x;
      CountOne(xs, i);
    }
  }

  lemma DistinctSameElements<X>(xs: seq<X>, ys: seq<X>)
    requires Distinct(xs) && Distinct(ys) && forall x :: x in xs <==> x in ys
    ensures multiset(xs) == multiset(ys)
  {
    forall x
      ensures multiset(xs)[x] == multiset(ys)[x]
    {
      CountDistinct(xs, x);
      CountDistinct(ys, x);
    }
  }

  lemma SubBagOfSameSize<X>(a: multiset<X>, b: multiset<X>)
    requires a <= b && |a| == |b|
    ensures a == b
  {
    assert b == a + (b - a);
  }

  // ----- one macro run -----

  lemma RunKeysDistinct<C>(rs: seq<Observation<C>>, n: nat)
    requires |rs| == n && Elements(Positions(rs)) == Range(n)
    ensures Distinct(Keys(rs))
    ensures forall k, m :: 0 <= k < m < |rs| ==> rs[k].position != rs[m].position
  {
    RangeSize(n);
    Pigeonhole(Positions(rs));
    forall k, m | 0 <= k < m < |rs|
      ensures rs[k].position != rs[m].position
    {
      assert Positions(rs)[k] != Positions(rs)[m];
    }
  }

  lemma RowIsScheduled<C>(rs: seq<Observation<C>>, conditions: seq<C>, q: nat, k: nat)
    requires RunFollows(rs, conditions, q) && k < |rs|
    ensures var n := |conditions|;
            1 <= rs[k].position <= n && rs[k].treatment == conditions[Scheduled(n, q, rs[k].position - 1)]
  {
    hide Scheduled;
    RunKeysDistinct(rs, |conditions|);
    assert Positions(rs)[k] in Elements(Positions(rs));
    assert IndexOfPosition(rs, rs[k].position) == k;
  }

  lemma RunFollowsKeys<C>(rs: seq<Observation<C>>, conditions: seq<C>, q: nat, data: (nat, nat) -> Outcome)
    requires RunFollows(rs, conditions, q) && forall k :: 0 <= k < |rs| ==> rs[k].run == q + 1
    ensures SameDesign(rs, RunRows(conditions, q, data))
  {
    hide Scheduled, IndexOfPosition;
    var n, design := |conditions|, RunRows(conditions, q, data);
    RunKeysDistinct(rs, n);
    forall key | key in Keys(rs)
      ensures key in Keys(design)
    {
      var k :| 0 <= k < n && Keys(rs)[k] == key;
      RowIsScheduled(rs, conditions, q, k);
      assert Keys(design)[rs[k].position - 1] == key;
    }
    forall key | key in Keys(design)
      ensures key in Keys(rs)
    {
      var p :| 0 <= p < n && Keys(design)[p] == key;
      assert Keys(rs)[IndexOfPosition(rs, p + 1)] == key;
    }
    DistinctSameElements(Keys(rs), Keys(design));
  }

  lemma SameKeysFollow<C>(rs: seq<Observation<C>>, conditions: seq<C>, q: nat, data: (nat, nat) -> Outcome)
    requires SameDesign(rs, RunRows(conditions, q, data))
    ensures RunFollows(rs, conditions, q)
  {
    hide Scheduled;
    var n, design := |conditions|, RunRows(conditions, q, data);
    assert |rs| == |multiset(Keys(rs))| == |multiset(Keys(design))| == n;
    forall k | 0 <= k < n
      ensures 1 <= rs[k].position <= n && rs[k].treatment == conditions[Scheduled(n, q, rs[k].position - 1)]
    {
      assert Keys(rs)[k] in multiset(Keys(design));
    }
    forall p
      ensures p in Elements(Positions(rs)) <==> p in Range(n)
    {
      if 1 <= p <= n {
        assert Keys(design)[p - 1] in multiset(Keys(rs));
        var k :| 0 <= k < n && Keys(rs)[k] == Keys(design)[p - 1];
        assert Positions(rs)[k] == p;
      }
    }
  }

  // ----- the whole tournament -----

  lemma DesignCountInRun<C>(conditions: seq<C>, observations: nat, data: (nat, nat) -> Outcome, key: (int, int, C))
    ensures multiset(Keys(Schedule(conditions, observations, data)))[key]
         == if 1 <= key.0 <= observations then multiset(Keys(RunRows(conditions, key.0 - 1, data)))[key] else 0
  {
    hide RunRows, Schedule;
    KeysByRun(Schedule(conditions, observations, data), key);
    ScheduleByRun(conditions, observations, data, key.0);
  }

  lemma FollowingIsSameDesign<C>(rows: seq<Observation<C>>, conditions: seq<C>, observations: nat, data: (nat, nat) -> Outcome)
    requires |rows| == |conditions| * observations && AllFollow(rows, conditions, observations)
    ensures SameDesign(rows, Schedule(conditions, observations, data))
  {
    hide RunRows, Schedule, RunFollows, RowsOf;
    var design := Schedule(conditions, observations, data);
    forall key
      ensures multiset(Keys(design))[key] <= multiset(Keys(rows))[key]
    {
      DesignCountInRun(conditions, observations, data, key);
      KeysByRun(rows, key);
      if 1 <= key.0 <= observations {
        assert MacroRunFollows(rows, conditions, key.0 - 1);
        RunFollowsKeys(RowsOf(rows, key.0), conditions, key.0 - 1, data);
      }
    }
    ScheduleSize(conditions, observations, data);
    SubBagOfSameSize(multiset(Keys(design)), multiset(Keys(rows)));
  }

  lemma SameDesignFollows<C>(rows: seq<Observation<C>>, conditions: seq<C>, observations: nat, data: (nat, nat) -> Outcome)
    requires SameDesign(rows, Schedule(conditions, observations, data))
    ensures |rows| == |conditions| * observations && AllFollow(rows, conditions, observations)
  {
    hide RunRows, Schedule, RunFollows, RowsOf;
    var design := Schedule(conditions, observations, data);
    ScheduleSize(conditions, observations, data);
    assert |rows| == |multiset(Keys(rows))| == |multiset(Keys(design))| == |design|;
    forall q | 0 <= q < observations
      ensures MacroRunFollows(rows, conditions, q)
    {
      RunOfSameDesign(rows, conditions, observations, data, q);
      SameKeysFollow(RowsOf(rows, q + 1), conditions, q, data);
    }
  }

  lemma RunOfSameDesign<C>(rows: seq<Observation<C>>, conditions: seq<C>, observations: nat, data: (nat, nat) -> Outcome, q: nat)
    requires SameDesign(rows, Schedule(conditions, observations, data)) && q < observations
    ensures SameDesign(RowsOf(rows, q + 1), RunRows(conditions, q, data))
  {
    hide RowsOf, Schedule;
    var rs, line := RowsOf(rows, q + 1), RunRows(conditions, q, data);
    forall key
      ensures multiset(Keys(rs))[key] == multiset(Keys(line))[key]
    {
      if key.0 == q + 1 {
        KeysByRun(rows, key);
        DesignCountInRun(conditions, observations, data, key);
      } else {
        assert key !in Keys(rs) && key !in Keys(line);
      }
    }
    assert multiset(Keys(rs)) == multiset(Keys(line));
  }

  /** The row-count and order checks accept exactly the reorderings of the designed schedule. */
  lemma FollowsExactly<C>(rows: seq<Observation<C>>, conditions: seq<C>, observations: nat, data: (nat, nat) -> Outcome)
    ensures |rows| == |conditions| * observations && AllFollow(rows, conditions, observations)
       <==> SameDesign(rows, Schedule(conditions, observations, data))
  {
    if |rows| == |conditions| * observations && AllFollow(rows, conditions, observations) {
      FollowingIsSameDesign(rows, conditions, observations, data);
    }
    if SameDesign(rows, Schedule(conditions, observations, data)) {
      SameDesignFollows(rows, conditions, observations, data);
    }
  }

  /** The schedule the tournament runs is accepted exactly when every condition's checksum is stable. */
  lemma ScheduleRejectedOnlyForChecksums<C>(conditions: seq<C>, observations: nat, data: (nat, nat) -> Outcome)
    requires LegalWidth(|conditions|) && observations > 0 && IsMultiple(observations, |conditions|)
    ensures var rows := Schedule(conditions, observations, data);
            AllFollow(rows, conditions, observations)
            && (Accepts(rows, conditions, observations) <==>
                forall i :: 0 <= i < |conditions| ==> Stable(Group(rows, conditions, i, observations)))
  {
    hide AllFollow, Stable, Group, Schedule;
    FollowsExactly(Schedule(conditions, observations, data), conditions, observations, data);
  }

  // ----- balance -----

  lemma LineCount<C>(conditions: seq<C>, q: nat, data: (nat, nat) -> Outcome, i: nat, p: nat)
    requires LegalWidth(|conditions|) && Distinct(conditions) && i < |conditions| && p < |conditions|
    ensures multiset(Places(RunRows(conditions, q, data)))[(conditions[i], p + 1)]
         == if Scheduled(|conditions|, q, p) == i then 1 else 0
  {
    hide Scheduled;
    var places := Places(RunRows(conditions, q, data));
    if Scheduled(|conditions|, q, p) == i {
      CountOne(places, p);
    } else {
      assert (conditions[i], p + 1) !in places;
    }
  }

  /** Of the first m runs, those with the right remainder put the condition at the position. */
  lemma {:induction false} ScheduleCount<C>(conditions: seq<C>, m: nat, data: (nat, nat) -> Outcome, i: nat, p: nat)
    requires LegalWidth(|conditions|) && Distinct(conditions) && i < |conditions| && p < |conditions|
    ensures multiset(Places(Schedule(conditions, m, data)))[(conditions[i], p + 1)]
         == Hits(m, |conditions|, Residue(|conditions|, i, p))
  {
    hide Scheduled, Hits, Residue, RunRows;
    var n := |conditions|;
    if m == 0 {
      HitsStep(0, n, Residue(n, i, p));
    } else {
      var before, line := Schedule(conditions, m - 1, data), RunRows(conditions, m - 1, data);
      ScheduleCount(conditions, m - 1, data, i, p);
      LineCount(conditions, m - 1, data, i, p);
      ScheduledByResidue(n, m - 1, i, p);
      HitsStep(m - 1, n, Residue(n, i, p));
      assert Places(before + line) == Places(before) + Places(line);
    }
  }

  /** Over whole blocks each condition takes each position exactly observations / width times. */
  lemma ScheduleBalanced<C>(conditions: seq<C>, observations: nat, data: (nat, nat) -> Outcome, i: nat, p: nat)
    requires LegalWidth(|conditions|) && Distinct(conditions) && i < |conditions| && p < |conditions|
    requires IsMultiple(observations, |conditions|)
    ensures multiset(Places(Schedule(conditions, observations, data)))[(conditions[i], p + 1)] == observations / |conditions|
  {
    ScheduleCount(conditions, observations, data, i, p);
  }
}
