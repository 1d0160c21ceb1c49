/** A tournament over UDP runs: whatever the network does to each run, the scheduled tournament is accepted. */
module TournamentOutcomes {
  import opened Words
  import opened Williams
  import opened Designs
  import opened Schedules
  import opened Tournament
  import opened TournamentDesign
  import UdpEndpoints
  import UdpEcho

  /** The columns are those of some UDP run of this setup; `text` prints the checksum. */
  ghost predicate Reports(g: UdpEndpoints.Setup, text: u64 -> string, o: Outcome) {
    g.Valid() && exists run :: ReportsRun(g, text, o, run)
  }

  ghost predicate ReportsRun(g: UdpEndpoints.Setup, text: u64 -> string, o: Outcome, run: seq<UdpEcho.Action>)
    requires g.Valid()
  {
    && UdpEcho.Run(g, run).Some?
    && var s := UdpEcho.Run(g, run).value;
       && s.client.Reported?
       && o == Outcome(false, g.samples - s.client.completed, text(s.c.checksum))
  }

  /** A run without a deadline miss prints the checksum of its setup. */
  lemma CompleteReport(g: UdpEndpoints.Setup, text: u64 -> string, o: Outcome)
    requires Reports(g, text, o) && o.deadlineMisses == 0
    ensures o.checksum == text(UdpEndpoints.ChecksumOf(g, UdpEndpoints.AllSequences(g)))
  {
    hide UdpEcho.Run;
    var run :| ReportsRun(g, text, o, run);
    UdpEcho.CompleteRunsAgree(g, run);
  }

  /** Row p of macro run q reports a run of the condition scheduled there. */
  ghost predicate AllReport<C(!new)>(conditions: seq<C>, observations: nat, data: (nat, nat) -> Outcome,
                                     setup: C -> UdpEndpoints.Setup, text: u64 -> string) {
    forall q: nat, p: nat :: q < observations && p < |conditions| ==>
      Reports(setup(conditions[Scheduled(|conditions|, q, p)]), text, data(q, p))
  }

  lemma RunRowAt<C>(conditions: seq<C>, q: nat, data: (nat, nat) -> Outcome, p: nat)
    requires p < |conditions| && p + 1 in Elements(Positions(RunRows(conditions, q, data)))
    ensures RowAt(RunRows(conditions, q, data), p + 1).data == data(q, p)
  {
    hide Scheduled;
  }

  lemma GroupAt<C>(rows: seq<Observation<C>>, conditions: seq<C>, i: nat, m: nat, q: nat)
    requires LegalWidth(|conditions|) && i < |conditions| && q < m && AllFollow(rows, conditions, m)
    ensures PositionFor(|conditions|, q, i) + 1 in Elements(Positions(RowsOf(rows, q + 1)))
    ensures Group(rows, conditions, i, m)[q] == RowAt(RowsOf(rows, q + 1), PositionFor(|conditions|, q, i) + 1)
  {
    hide RowsOf, PositionFor, RowAt;
    assert MacroRunFollows(rows, conditions, q);
  }

  /** In the scheduled rows, the group of a condition holds its measurements, run by run. */
  lemma ScheduledGroup<C>(conditions: seq<C>, observations: nat, data: (nat, nat) -> Outcome, i: nat, q: nat)
    requires LegalWidth(|conditions|) && i < |conditions| && q < observations
    requires AllFollow(Schedule(conditions, observations, data), conditions, observations)
    ensures Group(Schedule(conditions, observations, data), conditions, i, observations)[q].data
         == data(q, PositionFor(|conditions|, q, i))
  {
    hide RowsOf, Schedule, PositionFor, Group, RunRows, RowAt, AllFollow, Elements, Positions;
    ScheduleByRun(conditions, observations, data, q + 1);
    GroupAt(Schedule(conditions, observations, data), conditions, i, observations, q);
    RunRowAt(conditions, q, data, PositionFor(|conditions|, q, i));
  }

  lemma GroupIsStable<C(!new)>(conditions: seq<C>, observations: nat, data: (nat, nat) -> Outcome,
                               setup: C -> UdpEndpoints.Setup, text: u64 -> string, i: nat)
    requires LegalWidth(|conditions|) && i < |conditions| && observations > 0
    requires AllReport(conditions, observations, data, setup, text)
    requires AllFollow(Schedule(conditions, observations, data), conditions, observations)
    ensures Stable(Group(Schedule(conditions, observations, data), conditions, i, observations))
  {
    hide Group, Schedule, AllFollow, Scheduled, PositionFor, Reports;
    var group := Group(Schedule(conditions, observations, data), conditions, i, observations);
    var g := setup(conditions[i]);
    forall q | 0 <= q < observations
      ensures Reports(g, text, group[q].data)
    {
      ScheduledGroup(conditions, observations, data, i, q);
      var p := PositionFor(|conditions|, q, i);
      assert Reports(setup(conditions[Scheduled(|conditions|, q, p)]), text, data(q, p));
    }
    ReportsAreStable(g, text, group);
  }

  lemma ReportsAreStable<C>(g: UdpEndpoints.Setup, text: u64 -> string, group: seq<Observation<C>>)
    requires group != [] && forall q :: 0 <= q < |group| ==> Reports(g, text, group[q].data)
    ensures Stable(group)
  {
    hide Reports;
    assert !group[0].data.tcp by { ReportIsUdp(g, text, group[0].data); }
    if NoMisses(group) {
      assert g.Valid() by { ReportIsUdp(g, text, group[0].data); }
      var x := text(UdpEndpoints.ChecksumOf(g, UdpEndpoints.AllSequences(g)));
      forall q | 0 <= q < |group|
        ensures group[q].data.checksum == x
      {
        CompleteReport(g, text, group[q].data);
      }
      var checksums := seq(|group|, k requires 0 <= k < |group| => group[k].data.checksum);
      assert checksums[0] == x;
      assert Elements(checksums) == {x};
      assert Checksums(group) == Elements(checksums);
    }
  }

  lemma ReportIsUdp(g: UdpEndpoints.Setup, text: u64 -> string, o: Outcome)
    requires Reports(g, text, o)
    ensures g.Valid() && !o.tcp
  {}

  /** Every row measured by a UDP run of its condition's setup, the scheduled tournament is accepted outright. */
  lemma UdpTournamentAccepted<C(!new)>(conditions: seq<C>, observations: nat, data: (nat, nat) -> Outcome,
                                       setup: C -> UdpEndpoints.Setup, text: u64 -> string)
    requires LegalWidth(|conditions|) && observations > 0 && IsMultiple(observations, |conditions|)
    requires AllReport(conditions, observations, data, setup, text)
    ensures Accepts(Schedule(conditions, observations, data), conditions, observations)
  {
    hide AllReport, AllFollow, Stable, Group, Schedule;
    ScheduleRejectedOnlyForChecksums(conditions, observations, data);
    forall i | 0 <= i < |conditions|
      ensures Stable(Group(Schedule(conditions, observations, data), conditions, i, observations))
    {
      GroupIsStable(conditions, observations, data, setup, text, i);
    }
  }
}
