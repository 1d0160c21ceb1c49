/** The schedule of shifted rows that both benchmark drivers run. */
module Schedules {
  import opened Williams
  import opened Designs
  import opened Options

  /** One run: the shifted first row with run and position counted from 1; data gives the measured columns. */
  function RunRows<T, D>(canonical: seq<T>, run: nat, data: (nat, nat) -> D): (rs: seq<Row<T, D>>)
    ensures |rs| == |canonical|
  {
    seq(|canonical|, p requires 0 <= p < |canonical| =>
      Row(run + 1, p + 1, canonical[Scheduled(|canonical|, run, p)], data(run, p)))
  }

  function Schedule<T, D>(canonical: seq<T>, runs: nat, data: (nat, nat) -> D): seq<Row<T, D>> {
    if runs == 0 then [] else
      Schedule(canonical, runs - 1, data) + RunRows(canonical, runs - 1, data)
  }

  lemma RunRowsByRun<T, D>(canonical: seq<T>, q: nat, data: (nat, nat) -> D, run: int)
    ensures RowsOf(RunRows(canonical, q, data), run) == if run == q + 1 then RunRows(canonical, q, data) else []
  {
    RowsOfUniform(RunRows(canonical, q, data), q + 1, run);
  }

  lemma {:induction false} ScheduleByRun<T, D>(canonical: seq<T>, runs: nat, data: (nat, nat) -> D, run: int)
    ensures RowsOf(Schedule(canonical, runs, data), run)
         == if 1 <= run <= runs then RunRows(canonical, run - 1, data) else []
  {
    hide RunRows;
    if runs > 0 {
      var last := RunRows(canonical, runs - 1, data);
      ScheduleByRun(canonical, runs - 1, data, run);
      RowsOfConcat(Schedule(canonical, runs - 1, data), last, run);
      RunRowsByRun(canonical, runs - 1, data, run);
    }
  }

  lemma {:induction false} ScheduleSize<T, D>(canonical: seq<T>, runs: nat, data: (nat, nat) -> D)
    ensures |Schedule(canonical, runs, data)| == runs * |canonical|
  {
    if runs > 0 {
      ScheduleSize(canonical, runs - 1, data);
      assert (runs - 1) * |canonical| + |canonical| == runs * |canonical|;
    }
  }

  lemma {:induction false} ScheduleRow<T, D>(canonical: seq<T>, runs: nat, data: (nat, nat) -> D, k: nat)
    requires k < |Schedule(canonical, runs, data)|
    ensures var r := Schedule(canonical, runs, data)[k]; 1 <= r.run <= runs && 1 <= r.position <= |canonical| && r.data == data(r.run - 1, r.position - 1)
  {
    var before := |Schedule(canonical, runs - 1, data)|;
    if k < before {
      ScheduleRow(canonical, runs - 1, data, k);
    }
  }

  /** Row q * n + p of the schedule. */
  lemma {:induction false} ScheduleAt<T, D>(canonical: seq<T>, runs: nat, data: (nat, nat) -> D, q: nat, p: nat)
    requires q < runs && p < |canonical|
    ensures q * |canonical| + p < |Schedule(canonical, runs, data)|
    ensures Schedule(canonical, runs, data)[q * |canonical| + p] == RunRows(canonical, q, data)[p]
  {
    ScheduleSize(canonical, runs - 1, data);
    if q < runs - 1 {
      ScheduleAt(canonical, runs - 1, data, q, p);
    }
  }

  /**
   The loop both drivers run: `data` stands for measuring. Row p of run q holds, counted from 1, its run and
   position, and the treatment the shifted first row puts there.
   */
  method RunSchedule<T, D>(canonical: seq<T>, runs: nat, data: (nat, nat) -> D) returns (o: Option<seq<Row<T, D>>>)
    ensures o.Some? <==> LegalWidth(|canonical|)
    ensures o.Some? ==> o.value == Schedule(canonical, runs, data) && |o.value| == runs * |canonical|
    ensures o.Some? ==> forall q: nat, p: nat :: q < runs && p < |canonical| ==> RowIs(o.value, canonical, data, q, p)
  {
    var order := WilliamsFirstRow(|canonical|);
    if order.None? {
      return None;
    }
    var rows: seq<Row<T, D>> := [];
    for run := 0 to runs
      invariant rows == Schedule(canonical, run, data)
    {
      var before := rows;
      for position := 0 to |order.value|
        invariant rows == before + RunRows(canonical, run, data)[..position]
      {
        var index := (order.value[position] + run) % |canonical|;
        assert RunRows(canonical, run, data)[..position + 1] == RunRows(canonical, run, data)[..position] + [RunRows(canonical, run, data)[position]];
        rows := rows + [Row(run + 1, position + 1, canonical[index], data(run, position))];
      }
      assert RunRows(canonical, run, data)[..|canonical|] == RunRows(canonical, run, data);
    }
    ScheduleSize(canonical, runs, data);
    forall q: nat, p: nat | q < runs && p < |canonical|
      ensures RowIs(rows, canonical, data, q, p)
    {
      ScheduleAt(canonical, runs, data, q, p);
    }
    return Some(rows);
  }

  ghost predicate RowIs<T, D>(rows: seq<Row<T, D>>, canonical: seq<T>, data: (nat, nat) -> D, q: nat, p: nat)
    requires p < |canonical|
  {
    && q * |canonical| + p < |rows|
    && rows[q * |canonical| + p] == Row(q + 1, p + 1, canonical[(Entry(|canonical|, p) + q) % |canonical|], data(q, p))
  }
}
