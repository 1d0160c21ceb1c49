/** The check of a profile tournament: it accepts exactly the designed schedule with stable checksums. */
module Tournament {
  import opened Options
  import opened Words
  import opened Williams
  import opened Designs

  /** The measured columns the check reads. */
  datatype Outcome = Outcome(tcp: bool, deadlineMisses: int, checksum: string)

  type Observation<C> = Row<C, Outcome>

  datatype TournamentError =
    | IncompleteTournament | IllegalWidth | IncompleteMacroRun | IncompletePositions | WrongOrder
    | ConditionCount | PositionBalance | UnstableChecksum

  // ----- the conditions -----

  /** Every payload with every profile. */
  function Conditions<P, Q>(profiles: seq<P>, payloads: seq<Q>): (cs: seq<(P, Q)>)
    ensures |cs| == |profiles| * |payloads|
  {
    if payloads == [] then [] else
      var n := |payloads| - 1;
      assert |profiles| * n + |profiles| == |profiles| * |payloads|;
      Conditions(profiles, payloads[..n]) + seq(|profiles|, k requires 0 <= k < |profiles| => (profiles[k], payloads[n]))
  }

  /** Payload by payload, every profile in order. */
  lemma {:induction false} ConditionsAt<P, Q>(profiles: seq<P>, payloads: seq<Q>, a: nat, b: nat)
    requires a < |profiles| && b < |payloads|
    ensures b * |profiles| + a < |Conditions(profiles, payloads)|
    ensures Conditions(profiles, payloads)[b * |profiles| + a] == (profiles[a], payloads[b])
  {
    var n := |payloads| - 1;
    if b < n {
      ConditionsAt(profiles, payloads[..n], a, b);
    } else {
      assert |Conditions(profiles, payloads[..n])| == n * |profiles|;
    }
  }

  lemma {:induction false} ConditionsFrom<P, Q>(profiles: seq<P>, payloads: seq<Q>, k: nat)
    requires k < |Conditions(profiles, payloads)|
    ensures Conditions(profiles, payloads)[k].0 in profiles && Conditions(profiles, payloads)[k].1 in payloads
  {
    var n := |payloads| - 1;
    if k < |Conditions(profiles, payloads[..n])| {
      ConditionsFrom(profiles, payloads[..n], k);
    }
  }

  /** Unique profiles and payloads make unique conditions. */
  lemma {:induction false} ConditionsDistinct<P, Q>(profiles: seq<P>, payloads: seq<Q>)
    requires Distinct(profiles) && Distinct(payloads)
    ensures Distinct(Conditions(profiles, payloads))
  {
    if payloads != [] {
      var n := |payloads| - 1;
      var before := Conditions(profiles, payloads[..n]);
      ConditionsDistinct(profiles, payloads[..n]);
      forall i | 0 <= i < |before|
        ensures before[i].1 != payloads[n]
      {
        ConditionsFrom(profiles, payloads[..n], i);
      }
    }
  }

  // ----- what the check looks at -----

  /** The macro run is the design's: n rows, every position, the scheduled condition at each. */
  predicate RunFollows<C(==)>(rs: seq<Observation<C>>, conditions: seq<C>, q: nat) {
    var n := |conditions|;
    && |rs| == n && Elements(Positions(rs)) == Range(n)
    && forall p :: 0 <= p < n ==> rs[IndexOfPosition(rs, p + 1)].treatment == conditions[Scheduled(n, q, p)]
  }

  predicate MacroRunFollows<C(==)>(rows: seq<Observation<C>>, conditions: seq<C>, q: nat) {
    RunFollows(RowsOf(rows, q + 1), conditions, q)
  }

  ghost predicate AllFollow<C>(rows: seq<Observation<C>>, conditions: seq<C>, m: nat) {
    forall q :: 0 <= q < m ==> MacroRunFollows(rows, conditions, q)
  }

  /** The position of condition i in run q. */
  function PositionFor(n: nat, q: nat, i: nat): (p: nat)
    requires LegalWidth(n) && i < n
    ensures p < n && Scheduled(n, q, p) == i
  {
    var p := PositionOf(n, if q % n <= i then i - q % n else i + n - q % n);
    assert Scheduled(n, q, p) == i by { ShiftByResidue(n, Entry(n, p), q); }
    p
  }

  lemma PositionForUnique(n: nat, q: nat, i: nat, p: nat)
    requires LegalWidth(n) && i < n && p < n
    ensures PositionFor(n, q, i) == p <==> Scheduled(n, q, p) == i
  {
    var p' := RunIsPermutation(n, q, i);
  }

  function RowAt<C>(rs: seq<Observation<C>>, p: int): Observation<C>
    requires p in Elements(Positions(rs))
  {
    rs[IndexOfPosition(rs, p)]
  }

  /** The row of condition i in macro run q. */
  function GroupRow<C>(rows: seq<Observation<C>>, conditions: seq<C>, i: nat, q: nat): (row: Observation<C>)
    requires LegalWidth(|conditions|) && i < |conditions| && MacroRunFollows(rows, conditions, q)
    ensures row.position == PositionFor(|conditions|, q, i) + 1
  {
    RowAt(RowsOf(rows, q + 1), PositionFor(|conditions|, q, i) + 1)
  }

  /** groups[conditions[i]]: the rows of one condition, run by run. */
  ghost function Group<C>(rows: seq<Observation<C>>, conditions: seq<C>, i: nat, m: nat): (group: seq<Observation<C>>)
    requires LegalWidth(|conditions|) && i < |conditions| && AllFollow(rows, conditions, m)
    ensures |group| == m
    ensures forall q :: 0 <= q < m ==> group[q].position == PositionFor(|conditions|, q, i) + 1
  {
    seq(m, q requires 0 <= q < m =>
      assert MacroRunFollows(rows, conditions, q); GroupRow(rows, conditions, i, q))
  }

  function CountAt<C>(group: seq<Observation<C>>, p: int): nat {
    if group == [] then 0 else
      var n := |group| - 1;
      CountAt(group[..n], p) + if group[n].position == p then 1 else 0
  }

  function Checksums<C>(group: seq<Observation<C>>): set<string> {
    Elements(seq(|group|, k requires 0 <= k < |group| => group[k].data.checksum))
  }

  predicate NoMisses<C>(group: seq<Observation<C>>) {
    forall k :: 0 <= k < |group| ==> group[k].data.deadlineMisses == 0
  }

  /** TCP, or UDP without a missed deadline, must always give the same checksum. */
  predicate Stable<C>(group: seq<Observation<C>>)
    requires group != []
  {
    (group[0].data.tcp || NoMisses(group)) ==> |Checksums(group)| == 1
  }

  ghost predicate Accepts<C>(rows: seq<Observation<C>>, conditions: seq<C>, observations: nat)
    requires observations > 0
  {
    && LegalWidth(|conditions|)
    && |rows| == |conditions| * observations
    && AllFollow(rows, conditions, observations)
    && IsMultiple(observations, |conditions|)
    && forall i :: 0 <= i < |conditions| ==> Stable(Group(rows, conditions, i, observations))
  }

  /** The error is that of the first test that fails; the condition count never does. */
  ghost predicate FirstFailure<C>(rows: seq<Observation<C>>, conditions: seq<C>, observations: nat, error: TournamentError)
    requires observations > 0
  {
    var counted := |rows| == |conditions| * observations;
    match error
    case IncompleteTournament => !counted
    case IllegalWidth => counted && !LegalWidth(|conditions|)
    case IncompleteMacroRun | IncompletePositions | WrongOrder =>
      && counted && LegalWidth(|conditions|)
      && exists q :: 0 <= q < observations && AllFollow(rows, conditions, q)
                     && RunFailure(RowsOf(rows, q + 1), conditions, q, error)
    case ConditionCount => false
    case PositionBalance =>
      && counted && LegalWidth(|conditions|) && AllFollow(rows, conditions, observations)
      && !IsMultiple(observations, |conditions|)
    case UnstableChecksum =>
      && counted && LegalWidth(|conditions|) && AllFollow(rows, conditions, observations)
      && IsMultiple(observations, |conditions|)
      && exists i :: 0 <= i < |conditions| && !Stable(Group(rows, conditions, i, observations))
  }

  predicate RunFailure<C(==)>(rs: seq<Observation<C>>, conditions: seq<C>, q: nat, error: TournamentError) {
    if |rs| != |conditions| then error == IncompleteMacroRun
    else if Elements(Positions(rs)) != Range(|conditions|) then error == IncompletePositions
    else error == WrongOrder && !RunFollows(rs, conditions, q)
  }

  // ----- how often a condition meets a position -----

  /** The runs with condition i at position p are those with this remainder. */
  function Residue(n: nat, i: nat, p: nat): (r: nat)
    requires LegalWidth(n) && i < n && p < n
    ensures r < n
  {
    EntryRange(n, p);
    if Entry(n, p) <= i then i - Entry(n, p) else i + n - Entry(n, p)
  }

  lemma ScheduledByResidue(n: nat, q: nat, i: nat, p: nat)
    requires LegalWidth(n) && i < n && p < n
    ensures Scheduled(n, q, p) == i <==> q % n == Residue(n, i, p)
  {
    EntryRange(n, p);
    ShiftByResidue(n, Entry(n, p), q);
  }

  /** Of the numbers below m, how many have remainder r. */
  function Hits(m: nat, n: nat, r: nat): nat
    requires n > 0
  {
    m / n + if r < m % n then 1 else 0
  }

  lemma NextHit(m: nat, n: nat, r: nat, q: nat, s: nat)
    requires r < n && s < n && m == n * q + s
    ensures m % n == s && Hits(m, n, r) == q + if r < s then 1 else 0
    ensures Hits(m + 1, n, r) == q + if r <= s then 1 else 0
  {
    hide Hits;
    assert Hits(m, n, r) == q + if r < s then 1 else 0 by { HitsIs(m, n, r, q, s); }
    RemainderUnique(m, n, q, s);
    if s == n - 1 {
      assert m + 1 == n * (q + 1);
      HitsIs(m + 1, n, r, q + 1, 0);
    } else {
      HitsIs(m + 1, n, r, q, s + 1);
    }
  }

  lemma HitsIs(m: nat, n: nat, r: nat, q: nat, s: nat)
    requires r < n && s < n && m == n * q + s
    ensures Hits(m, n, r) == q + if r < s then 1 else 0
  {
    RemainderUnique(m, n, q, s);
  }

  lemma HitsStep(m: nat, n: nat, r: nat)
    requires r < n
    ensures Hits(0, n, r) == 0
    ensures Hits(m + 1, n, r) == Hits(m, n, r) + if m % n == r then 1 else 0
  {
    hide Hits;
    HitsIs(0, n, r, 0, 0);
    NextHit(m, n, r, m / n, m % n);
  }

  lemma GroupStep<C>(rows: seq<Observation<C>>, conditions: seq<C>, i: nat, m: nat)
    requires LegalWidth(|conditions|) && i < |conditions| && AllFollow(rows, conditions, m + 1)
    ensures Group(rows, conditions, i, m + 1)[..m] == Group(rows, conditions, i, m)
  {}

  lemma {:induction false} GroupCount<C>(rows: seq<Observation<C>>, conditions: seq<C>, i: nat, m: nat, p: nat)
    requires LegalWidth(|conditions|) && i < |conditions| && p < |conditions| && AllFollow(rows, conditions, m)
    ensures var n := |conditions|;
            CountAt(Group(rows, conditions, i, m), p + 1) == Hits(m, n, Residue(n, i, p))
  {
    hide MacroRunFollows, Residue, Group, PositionFor, Hits, Scheduled;
    var n := |conditions|;
    if m == 0 {
      HitsStep(0, n, Residue(n, i, p));
    } else {
      GroupStep(rows, conditions, i, m - 1);
      GroupCount(rows, conditions, i, m - 1, p);
      PositionForUnique(n, m - 1, i, p);
      ScheduledByResidue(n, m - 1, i, p);
      HitsStep(m - 1, n, Residue(n, i, p));
    }
  }

  predicate Balanced<C>(group: seq<Observation<C>>, n: nat, count: int) {
    forall p :: 1 <= p <= n ==> CountAt(group, p) == count
  }

  /** Every position comes observations / width times exactly when the division leaves nothing. */
  lemma BalancedWhenMultiple<C>(rows: seq<Observation<C>>, conditions: seq<C>, i: nat, m: nat)
    requires LegalWidth(|conditions|) && i < |conditions| && AllFollow(rows, conditions, m)
    ensures IsMultiple(m, |conditions|) ==> Balanced(Group(rows, conditions, i, m), |conditions|, m / |conditions|)
    ensures i == 0 && !IsMultiple(m, |conditions|) ==> !Balanced(Group(rows, conditions, i, m), |conditions|, m / |conditions|)
  {
    hide AllFollow, CountAt, Group;
    var group, n := Group(rows, conditions, i, m), |conditions|;
    forall p | 1 <= p <= n
      ensures CountAt(group, p) == Hits(m, n, Residue(n, i, p - 1))
    {
      GroupCount(rows, conditions, i, m, p - 1);
    }
    if i == 0 && !IsMultiple(m, n) {
      assert Residue(n, 0, 0) == 0;
      assert CountAt(group, 1) == m / n + 1;
    }
  }

  // ----- the check itself -----

  function Get<K, V>(m: map<K, seq<V>>, k: K): seq<V> {
    if k in m then m[k] else []
  }

  function Tally(counts: map<int, nat>, p: int): nat {
    if p in counts then counts[p] else 0
  }

  method IndexByPosition<C>(rs: seq<Observation<C>>) returns (byPosition: map<int, Observation<C>>)
    ensures byPosition.Keys == Elements(Positions(rs))
    ensures forall p :: p in byPosition ==> byPosition[p] == RowAt(rs, p)
  {
    byPosition := map[];
    for k := 0 to |rs|
      invariant byPosition.Keys == Elements(Positions(rs[..k]))
      invariant forall p :: p in byPosition ==> byPosition[p] == RowAt(rs[..k], p)
    {
      assert rs[..k + 1][..k] == rs[..k];
      assert Positions(rs[..k + 1]) == Positions(rs[..k]) + [rs[k].position];
      byPosition := byPosition[rs[k].position := rs[k]];
    }
    assert rs[..|rs|] == rs;
  }

  method CountPositions<C>(group: seq<Observation<C>>) returns (counts: map<int, nat>)
    ensures forall p :: Tally(counts, p) == CountAt(group, p)
  {
    counts := map[];
    for k := 0 to |group|
      invariant forall p :: Tally(counts, p) == CountAt(group[..k], p)
    {
      assert group[..k + 1][..k] == group[..k];
      var p := group[k].position;
      counts := counts[p := Tally(counts, p) + 1];
    }
    assert group[..|group|] == group;
  }

  /** groups after m whole macro runs and the first `position` rows of the next. */
  ghost predicate GroupsHold<C>(groups: map<C, seq<Observation<C>>>, rows: seq<Observation<C>>, conditions: seq<C>,
                                m: nat, position: nat)
    requires LegalWidth(|conditions|) && AllFollow(rows, conditions, m)
    requires Elements(Positions(RowsOf(rows, m + 1))) == Range(|conditions|)
  {
    forall i :: 0 <= i < |conditions| ==>
      Get(groups, conditions[i]) == Group(rows, conditions, i, m) + NextRow(rows, conditions, m, position, i)
  }

  ghost function NextRow<C>(rows: seq<Observation<C>>, conditions: seq<C>, m: nat, position: nat, i: nat): seq<Observation<C>>
    requires LegalWidth(|conditions|) && i < |conditions|
    requires Elements(Positions(RowsOf(rows, m + 1))) == Range(|conditions|)
  {
    var p := PositionFor(|conditions|, m, i);
    if p < position then [RowAt(RowsOf(rows, m + 1), p + 1)] else []
  }

  ghost predicate GroupsAre<C>(groups: map<C, seq<Observation<C>>>, rows: seq<Observation<C>>, conditions: seq<C>, m: nat)
    requires LegalWidth(|conditions|) && AllFollow(rows, conditions, m)
  {
    forall i :: 0 <= i < |conditions| ==> Get(groups, conditions[i]) == Group(rows, conditions, i, m)
  }

  lemma MacroRunStart<C>(groups: map<C, seq<Observation<C>>>, rows: seq<Observation<C>>, conditions: seq<C>, q: nat)
    requires LegalWidth(|conditions|) && AllFollow(rows, conditions, q) && GroupsAre(groups, rows, conditions, q)
    requires Elements(Positions(RowsOf(rows, q + 1))) == Range(|conditions|)
    ensures GroupsHold(groups, rows, conditions, q, 0)
  {
    hide Group, RowsOf, AllFollow;
  }

  lemma MacroRunEnd<C>(groups: map<C, seq<Observation<C>>>, rows: seq<Observation<C>>, conditions: seq<C>, q: nat)
    requires LegalWidth(|conditions|) && AllFollow(rows, conditions, q) && MacroRunFollows(rows, conditions, q)
    requires GroupsHold(groups, rows, conditions, q, |conditions|)
    ensures AllFollow(rows, conditions, q + 1) && GroupsAre(groups, rows, conditions, q + 1)
  {
    hide RowsOf, PositionFor, Group, MacroRunFollows;
    forall i | 0 <= i < |conditions|
      ensures Group(rows, conditions, i, q + 1) == Get(groups, conditions[i])
    {
      GroupGrows(rows, conditions, i, q);
    }
  }

  lemma GroupGrows<C>(rows: seq<Observation<C>>, conditions: seq<C>, i: nat, q: nat)
    requires LegalWidth(|conditions|) && i < |conditions| && AllFollow(rows, conditions, q + 1)
    ensures Elements(Positions(RowsOf(rows, q + 1))) == Range(|conditions|)
    ensures Group(rows, conditions, i, q + 1) == Group(rows, conditions, i, q) + NextRow(rows, conditions, q, |conditions|, i)
  {
    hide RowsOf, PositionFor;
    assert MacroRunFollows(rows, conditions, q);
  }

  method CheckMacroRun<C(==)>(rows: seq<Observation<C>>, conditions: seq<C>, q: nat, groups0: map<C, seq<Observation<C>>>)
    returns (error: Option<TournamentError>, groups: map<C, seq<Observation<C>>>)
    requires LegalWidth(|conditions|) && Distinct(conditions)
    requires AllFollow(rows, conditions, q) && GroupsAre(groups0, rows, conditions, q)
    ensures error.None? <==> MacroRunFollows(rows, conditions, q)
    ensures error.None? ==> AllFollow(rows, conditions, q + 1) && GroupsAre(groups, rows, conditions, q + 1)
    ensures error.Some? ==> RunFailure(RowsOf(rows, q + 1), conditions, q, error.value)
  {
    hide GroupsHold, GroupsAre, AllFollow, Scheduled, RowsOf, Distinct, Positions;
    groups := groups0;
    var n, macroRows := |conditions|, RowsOf(rows, q + 1);
    if |macroRows| != n {
      return Some(IncompleteMacroRun), groups;
    }
    var byPosition := IndexByPosition(macroRows);
    if byPosition.Keys != Range(n) {
      return Some(IncompletePositions), groups;
    }
    MacroRunStart(groups, rows, conditions, q);
    for position := 0 to n
      invariant GroupsHold(groups, rows, conditions, q, position)
      invariant forall p :: 0 <= p < position ==> RowAt(macroRows, p + 1).treatment == conditions[Scheduled(n, q, p)]
    {
      var row := byPosition[position + 1];
      if row.treatment != conditions[Scheduled(n, q, position)] {
        return Some(WrongOrder), groups;
      }
      groups := AppendToGroup(rows, conditions, q, position, groups, row);
    }
    MacroRunEnd(groups, rows, conditions, q);
    error := None;
  }

  method AppendToGroup<C(==)>(ghost rows: seq<Observation<C>>, ghost conditions: seq<C>, ghost q: nat, ghost position: nat,
                              groups0: map<C, seq<Observation<C>>>, row: Observation<C>)
    returns (groups: map<C, seq<Observation<C>>>)
    requires LegalWidth(|conditions|) && Distinct(conditions) && AllFollow(rows, conditions, q)
    requires Elements(Positions(RowsOf(rows, q + 1))) == Range(|conditions|)
    requires position < |conditions| && row == RowAt(RowsOf(rows, q + 1), position + 1)
    requires row.treatment == conditions[Scheduled(|conditions|, q, position)]
    requires GroupsHold(groups0, rows, conditions, q, position)
    ensures GroupsHold(groups, rows, conditions, q, position + 1)
  {
    hide RowsOf, Group, NextRow, AllFollow, Scheduled, Positions, LegalWidth;
    groups := groups0[row.treatment := Get(groups0, row.treatment) + [row]];
    forall i | 0 <= i < |conditions|
      ensures Get(groups, conditions[i]) == Group(rows, conditions, i, q) + NextRow(rows, conditions, q, position + 1, i)
    {
      NextRowGrows(rows, conditions, q, position, i);
    }
  }

  lemma NextRowGrows<C>(rows: seq<Observation<C>>, conditions: seq<C>, q: nat, position: nat, i: nat)
    requires LegalWidth(|conditions|) && i < |conditions| && position < |conditions|
    requires Elements(Positions(RowsOf(rows, q + 1))) == Range(|conditions|)
    ensures NextRow(rows, conditions, q, position + 1, i)
         == NextRow(rows, conditions, q, position, i)
            + if Scheduled(|conditions|, q, position) == i then [RowAt(RowsOf(rows, q + 1), position + 1)] else []
  {
    hide RowsOf, PositionFor;
    PositionForUnique(|conditions|, q, i, position);
  }

  method ValidateTournament<C(==)>(rows: seq<Observation<C>>, conditions: seq<C>, observations: nat)
    returns (error: Option<TournamentError>)
    requires Distinct(conditions) && observations > 0
    ensures error.None? <==> Accepts(rows, conditions, observations)
    ensures error.Some? ==> FirstFailure(rows, conditions, observations, error.value)
  {
    hide MacroRunFollows, RowsOf, Group, CountAt, Stable, IsMultiple;
    var n := |conditions|;
    if |rows| != n * observations {
      return Some(IncompleteTournament);
    }
    var firstRow := WilliamsFirstRow(n);
    if firstRow.None? {
      return Some(IllegalWidth);
    }
    var groups: map<C, seq<Observation<C>>> := map[];
    for macroRun := 0 to observations
      invariant AllFollow(rows, conditions, macroRun) && GroupsAre(groups, rows, conditions, macroRun)
    {
      error, groups := CheckMacroRun(rows, conditions, macroRun, groups);
      if error.Some? {
        assert RunFailure(RowsOf(rows, macroRun + 1), conditions, macroRun, error.value);
        return;
      }
    }
    for i := 0 to n
      invariant i > 0 ==> IsMultiple(observations, n)
      invariant forall j :: 0 <= j < i ==> Stable(Group(rows, conditions, j, observations))
    {
      var group := Get(groups, conditions[i]);
      if |group| != observations {
        return Some(ConditionCount);
      }
      BalancedWhenMultiple(rows, conditions, i, observations);
      var counts := CountPositions(group);
      if exists p :: 1 <= p <= n && Tally(counts, p) != observations / n {
        return Some(PositionBalance);
      }
      assert Balanced(group, n, observations / n);
      if !Stable(group) {
        return Some(UnstableChecksum);
      }
    }
    return None;
  }
}
