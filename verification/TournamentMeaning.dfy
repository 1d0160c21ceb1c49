/** What the tournament check accepts, said of the rows themselves. */
module TournamentMeaning {
  import opened Words
  import opened Williams
  import opened Designs
  import opened Schedules
  import opened Tournament
  import opened TournamentDesign
  import opened DesignMeaning

  /** Row k is a measurement of the condition. */
  ghost predicate IsOf<C>(rows: seq<Observation<C>>, c: C, k: int) {
    0 <= k < |rows| && rows[k].treatment == c
  }

  /** The condition runs over TCP, or none of its rows missed a deadline. */
  ghost predicate MustRepeat<C>(rows: seq<Observation<C>>, c: C) {
    || (exists k :: IsOf(rows, c, k) && rows[k].run == 1 && rows[k].data.tcp)
    || (forall k :: IsOf(rows, c, k) ==> rows[k].data.deadlineMisses == 0)
  }

  ghost predicate SameChecksum<C>(rows: seq<Observation<C>>, c: C) {
    forall j, k :: IsOf(rows, c, j) && IsOf(rows, c, k) ==> rows[j].data.checksum == rows[k].data.checksum
  }

  /** Every row belongs to a macro run of the tournament. */
  lemma RowInRange<C>(rows: seq<Observation<C>>, conditions: seq<C>, observations: nat, k: nat)
    requires |rows| == |conditions| * observations && AllFollow(rows, conditions, observations) && k < |rows|
    ensures 1 <= rows[k].run <= observations
  {
    hide AllFollow, Schedule;
    var data := (q: nat, p: nat) => rows[k].data;
    FollowsExactly(rows, conditions, observations, data);
    var design := Schedule(conditions, observations, data);
    assert Keys(rows)[k] in multiset(Keys(design));
    var m :| 0 <= m < |design| && Keys(design)[m] == Keys(rows)[k];
    ScheduleRow(conditions, observations, data, m);
  }

  /** It is its condition's entry for that macro run. */
  lemma RowInGroup<C>(rows: seq<Observation<C>>, conditions: seq<C>, observations: nat, i: nat, k: nat)
    requires LegalWidth(|conditions|) && Distinct(conditions) && i < |conditions|
    requires |rows| == |conditions| * observations && AllFollow(rows, conditions, observations)
    requires IsOf(rows, conditions[i], k)
    ensures 1 <= rows[k].run <= observations
    ensures Group(rows, conditions, i, observations)[rows[k].run - 1] == rows[k]
  {
    hide RowsOf, Scheduled, PositionFor;
    RowInRange(rows, conditions, observations, k);
    var n, q := |conditions|, rows[k].run - 1;
    var rs := RowsOf(rows, q + 1);
    assert MacroRunFollows(rows, conditions, q);
    PlaceHolds(rows, k);
    RowIsScheduled(rs, conditions, q, Place(rows, k));
    PositionForUnique(n, q, i, rows[k].position - 1);
    RunKeysDistinct(rs, n);
    assert IndexOfPosition(rs, rows[k].position) == Place(rows, k);
  }

  /** And every entry is a row. */
  lemma GroupIsRows<C>(rows: seq<Observation<C>>, conditions: seq<C>, observations: nat, i: nat, q: nat) returns (k: nat)
    requires LegalWidth(|conditions|) && i < |conditions| && q < observations && AllFollow(rows, conditions, observations)
    ensures IsOf(rows, conditions[i], k) && rows[k].run == q + 1 && rows[k] == Group(rows, conditions, i, observations)[q]
  {
    hide RowsOf, Scheduled, PositionFor;
    assert MacroRunFollows(rows, conditions, q);
    var p := PositionFor(|conditions|, q, i);
    PositionForUnique(|conditions|, q, i, p);
    k := PlaceOf(rows, q + 1, IndexOfPosition(RowsOf(rows, q + 1), p + 1));
  }

  lemma OneChecksum<C>(group: seq<Observation<C>>)
    requires group != []
    ensures |Checksums(group)| == 1 <==>
            forall q, r :: 0 <= q < |group| && 0 <= r < |group| ==> group[q].data.checksum == group[r].data.checksum
  {
    var all := seq(|group|, k requires 0 <= k < |group| => group[k].data.checksum);
    assert Checksums(group) == Elements(all);
    assert all[0] in Elements(all);
    if |Checksums(group)| == 1 {
      SubsetSize({all[0]}, Elements(all));
      forall q | 0 <= q < |group|
        ensures group[q].data.checksum == all[0]
      {
        assert all[q] in Elements(all);
      }
    }
    if forall q, r :: 0 <= q < |group| && 0 <= r < |group| ==> group[q].data.checksum == group[r].data.checksum {
      assert Elements(all) == {all[0]};
    }
  }

  /** Stability of a condition's group is agreement of its rows. */
  lemma StableMeans<C>(rows: seq<Observation<C>>, conditions: seq<C>, observations: nat, i: nat)
    requires LegalWidth(|conditions|) && Distinct(conditions) && i < |conditions| && observations > 0
    requires |rows| == |conditions| * observations && AllFollow(rows, conditions, observations)
    ensures Stable(Group(rows, conditions, i, observations)) <==>
            (MustRepeat(rows, conditions[i]) ==> SameChecksum(rows, conditions[i]))
  {
    hide RowsOf, AllFollow, Group, Checksums;
    var c, group := conditions[i], Group(rows, conditions, i, observations);
    GroupLength(rows, conditions, i, observations);
    OneChecksum(group);
    GroupCorresponds(rows, conditions, observations, i);
    GroupMatches(rows, c, group);
  }

  ghost predicate IsEntry<C>(rows: seq<Observation<C>>, c: C, group: seq<Observation<C>>, q: nat)
    requires q < |group|
  {
    exists k :: IsOf(rows, c, k) && rows[k].run == q + 1 && rows[k] == group[q]
  }

  /** The group lists the condition's rows by macro run. */
  ghost predicate Corresponds<C>(rows: seq<Observation<C>>, c: C, group: seq<Observation<C>>) {
    && (forall k :: IsOf(rows, c, k) ==> 1 <= rows[k].run <= |group| && group[rows[k].run - 1] == rows[k])
    && (forall q: nat :: q < |group| ==> IsEntry(rows, c, group, q))
  }

  lemma GroupCorresponds<C>(rows: seq<Observation<C>>, conditions: seq<C>, observations: nat, i: nat)
    requires LegalWidth(|conditions|) && Distinct(conditions) && i < |conditions| && observations > 0
    requires |rows| == |conditions| * observations && AllFollow(rows, conditions, observations)
    ensures Corresponds(rows, conditions[i], Group(rows, conditions, i, observations))
  {
    hide RowsOf, AllFollow, Group;
    var c, group := conditions[i], Group(rows, conditions, i, observations);
    GroupLength(rows, conditions, i, observations);
    forall k | IsOf(rows, c, k)
      ensures 1 <= rows[k].run <= observations && group[rows[k].run - 1] == rows[k]
    {
      RowInGroup(rows, conditions, observations, i, k);
    }
    forall q: nat | q < observations
      ensures IsEntry(rows, c, group, q)
    {
      var k := GroupIsRows(rows, conditions, observations, i, q);
    }
  }

  lemma GroupLength<C>(rows: seq<Observation<C>>, conditions: seq<C>, i: nat, m: nat)
    requires LegalWidth(|conditions|) && i < |conditions| && AllFollow(rows, conditions, m)
    ensures |Group(rows, conditions, i, m)| == m
  {}

  lemma GroupMatches<C>(rows: seq<Observation<C>>, c: C, group: seq<Observation<C>>)
    requires group != []
    requires Corresponds(rows, c, group)
    ensures (group[0].data.tcp || NoMisses(group)) <==> MustRepeat(rows, c)
    ensures (forall q, r :: 0 <= q < |group| && 0 <= r < |group| ==> group[q].data.checksum == group[r].data.checksum)
       <==> SameChecksum(rows, c)
  {
    assert IsEntry(rows, c, group, 0);
    var k0 :| IsOf(rows, c, k0) && rows[k0].run == 1 && rows[k0] == group[0];
    if MustRepeat(rows, c) && !group[0].data.tcp {
      forall q | 0 <= q < |group|
        ensures group[q].data.deadlineMisses == 0
      {
        assert IsEntry(rows, c, group, q);
      }
    }
    if SameChecksum(rows, c) {
      forall q, r | 0 <= q < |group| && 0 <= r < |group|
        ensures group[q].data.checksum == group[r].data.checksum
      {
        assert IsEntry(rows, c, group, q) && IsEntry(rows, c, group, r);
      }
    }
  }

  /**
   The check accepts exactly: a legal width, the designed schedule in some order, whole blocks, and for every
   condition that must repeat its checksum the same one in all its rows.
   */
  lemma AcceptsExactly<C>(rows: seq<Observation<C>>, conditions: seq<C>, observations: nat, data: (nat, nat) -> Outcome)
    requires Distinct(conditions) && observations > 0
    ensures Accepts(rows, conditions, observations) <==>
            && LegalWidth(|conditions|) && IsMultiple(observations, |conditions|)
            && SameDesign(rows, Schedule(conditions, observations, data))
            && forall i :: 0 <= i < |conditions| ==> MustRepeat(rows, conditions[i]) ==> SameChecksum(rows, conditions[i])
  {
    hide RowsOf, AllFollow, Group, Stable, SameDesign, Schedule, MustRepeat, SameChecksum;
    FollowsExactly(rows, conditions, observations, data);
    if LegalWidth(|conditions|) && |rows| == |conditions| * observations && AllFollow(rows, conditions, observations) {
      forall i | 0 <= i < |conditions|
        ensures Stable(Group(rows, conditions, i, observations)) <==>
                (MustRepeat(rows, conditions[i]) ==> SameChecksum(rows, conditions[i]))
      {
        StableMeans(rows, conditions, observations, i);
      }
    }
  }
}
