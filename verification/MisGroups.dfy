/** Groups from the independent-set solver, run one after the other: equal to running the block group by group. */
module MisGroups {
  import opened ComponentGroups
  import opened Graphs
  import opened Groups
  import opened Machines
  import opened MisInTurn
  import opened Rounds
  import opened Schedules
  import opened Stores
  import R = Reachability

  /** No two different members conflict. */
  ghost predicate ConflictFree(b: Block, group: seq<nat>) {
    forall x, y :: x in group && y in group && x != y ==> !Clash(b, x, y)
  }

  /** Each predicted transaction is in exactly one group, once, and groups are free of conflicts. */
  ghost predicate FreeGroups(b: Block, groups: seq<seq<nat>>) {
    Partition(groups, Predicted(b)) && forall i :: 0 <= i < |groups| ==> ConflictFree(b, groups[i])
  }

  /** halts is false exactly when a run of the solver goes stale, after which the source does not return. */
  method GenerateMISGroups(b: Block) returns (groups: seq<seq<nat>>, halts: bool, ghost rounds: seq<SolverRound>)
    requires |b.sets| <= MAX_UINT
    ensures halts ==> FreeGroups(b, groups)
    ensures exists g :: IsConflictGraph(b, g) && WellFormed(g) && AllRounds(g, rounds, groups, halts)
  {
    var graph := GenerateUndiGraph(b);
    ghost var g := graph.View();
    assert forall x :: x in g.live ==> x < MAX_UINT;
    groups, halts, rounds := SolveMisInTurn(graph);
    if halts {
      IndependentIsFree(b, g, groups);
    }
  }

  lemma IndependentIsFree(b: Block, g: Graph, groups: seq<seq<nat>>)
    requires IsConflictGraph(b, g) && AllIndependent(g.adj, groups)
    ensures forall i :: 0 <= i < |groups| ==> ConflictFree(b, groups[i])
  {
    forall i, x, y | 0 <= i < |groups| && x in groups[i] && y in groups[i] && x != y
      ensures !Clash(b, x, y)
    {
      assert x in R.Members(groups[i]) && y in R.Members(groups[i]);
      assert Adjacent(g, x, y) <==> Clash(b, x, y);
    }
  }

  // ---------- the block listed group by group ----------

  function Flat(groups: seq<seq<nat>>): seq<nat> {
    if |groups| == 0 then [] else groups[0] + Flat(groups[1..])
  }

  ghost predicate Lists(b: Block, order: seq<nat>) {
    |b.txs| == |b.sets| && forall k :: 0 <= k < |order| ==> order[k] in Predicted(b) && order[k] < |b.txs|
  }

  function Relisted(b: Block, order: seq<nat>): Block
    requires Lists(b, order)
  {
    Block(seq(|order|, k requires 0 <= k < |order| => b.txs[order[k]]),
          seq(|order|, k requires 0 <= k < |order| => b.sets[order[k]]))
  }

  function Range(lo: nat, n: nat): seq<nat> {
    seq(n, k requires 0 <= k < n => lo + k)
  }

  /** Where each group's transactions stand in the relisted block. */
  function Positions(groups: seq<seq<nat>>, start: nat): seq<seq<nat>> {
    if |groups| == 0 then [] else [Range(start, |groups[0]|)] + Positions(groups[1..], start + |groups[0]|)
  }

  lemma {:induction false} RangeDistinct(lo: nat, n: nat)
    ensures Distinct(Range(lo, n))
  {
    if n > 0 {
      RangeDistinct(lo, n - 1);
      assert Range(lo, n) == Range(lo, n - 1) + [lo + n - 1];
      DistinctAppend(Range(lo, n - 1), lo + n - 1);
    }
  }

  lemma RangeMembers(b: Block, order: seq<nat>, lo: nat, n: nat)
    requires Lists(b, order) && lo + n <= |order|
    ensures var c := Relisted(b, order); Earlier(c, lo) + R.Members(Range(lo, n)) == Earlier(c, lo + n)
  {
    forall k | lo <= k < lo + n ensures k in Range(lo, n) {
      assert Range(lo, n)[k - lo] == k;
    }
  }

  lemma PositionReady(b: Block, order: seq<nat>, group: seq<nat>, start: nat, j: nat)
    requires Lists(b, order)
    requires start <= j < start + |group| <= |order| && order[start..start + |group|] == group
    requires Distinct(group) && ConflictFree(b, group)
    ensures Schedules.Ready(Relisted(b, order), Earlier(Relisted(b, order), start), j)
  {
    var c := Relisted(b, order);
    DistinctPairwise(group);
    forall i | i in Predicted(c) && i < j && Conflicting(c, j, i) ensures i in Earlier(c, start) {
      if i >= start {
        assert group[i - start] == order[i] && group[j - start] == order[j];
        assert Clash(b, order[j], order[i]);
      }
    }
  }

  /** One group's positions, each in a batch of its own, fit the round. */
  lemma GroupFits(b: Block, order: seq<nat>, group: seq<nat>, start: nat)
    requires Lists(b, order) && Distinct(group) && ConflictFree(b, group)
    requires start + |group| <= |order| && order[start..start + |group|] == group
    ensures var c := Relisted(b, order); var batches := Singles(Range(start, |group|));
      && RoundFits(c, Earlier(c, start), batches)
      && Earlier(c, start) + RoundIds(batches) == Earlier(c, start + |group|)
  {
    var c, n := Relisted(b, order), |group|;
    forall j | j in Range(start, n) ensures Schedules.Ready(c, Earlier(c, start), j) {
      PositionReady(b, order, group, start, j);
    }
    RangeDistinct(start, n);
    SinglesFit(c, Earlier(c, start), Range(start, n));
    SinglesMembers(Range(start, n));
    RangeMembers(b, order, start, n);
  }

  lemma FirstSingles(groups: seq<seq<nat>>, start: nat)
    requires |groups| > 0
    ensures var rounds := AllSingles(Positions(groups, start)); var n := |groups[0]|;
      && |rounds| > 0 && rounds[0] == Singles(Range(start, n))
      && rounds[1..] == AllSingles(Positions(groups[1..], start + n))
  {
  }

  lemma FlatParts(order: seq<nat>, groups: seq<seq<nat>>, start: nat)
    requires |groups| > 0 && start <= |order| && order[start..] == Flat(groups)
    ensures var n := |groups[0]|;
      start + n <= |order| && order[start..start + n] == groups[0] && order[start + n..] == Flat(groups[1..])
  {
  }

  lemma {:induction false} PositionsFit(b: Block, order: seq<nat>, groups: seq<seq<nat>>, start: nat)
    requires Lists(b, order)
    requires start <= |order| && order[start..] == Flat(groups)
    requires forall i :: 0 <= i < |groups| ==> Distinct(groups[i]) && ConflictFree(b, groups[i])
    ensures ScheduleFits(Relisted(b, order), Earlier(Relisted(b, order), start), AllSingles(Positions(groups, start)))
    decreases |groups|
  {
    if |groups| == 0 {
      assert Earlier(Relisted(b, order), start) == Predicted(Relisted(b, order));
    } else {
      FlatParts(order, groups, start);
      GroupFits(b, order, groups[0], start);
      PositionsFit(b, order, groups[1..], start + |groups[0]|);
      FirstSingles(groups, start);
    }
  }

  lemma {:induction false} FlatMembers(groups: seq<seq<nat>>, x: nat)
    ensures x in Flat(groups) <==> R.InSome(groups, x)
  {
    if |groups| > 0 {
      FlatMembers(groups[1..], x);
      if R.InSome(groups, x) {
        var i :| 0 <= i < |groups| && x in groups[i];
        assert i > 0 ==> x in groups[1..][i - 1];
      }
      if R.InSome(groups[1..], x) {
        var i :| 0 <= i < |groups[1..]| && x in groups[1..][i];
        assert x in groups[i + 1];
      }
    }
  }

  lemma FlatLists(b: Block, groups: seq<seq<nat>>)
    requires |b.txs| == |b.sets| && FreeGroups(b, groups)
    ensures Lists(b, Flat(groups))
  {
    forall k | 0 <= k < |Flat(groups)| ensures Flat(groups)[k] in Predicted(b) {
      FlatMembers(groups, Flat(groups)[k]);
    }
  }

  /** The block with its predicted transactions listed group by group. */
  function GroupedBlock(b: Block, groups: seq<seq<nat>>): (c: Block)
    requires |b.txs| == |b.sets| && FreeGroups(b, groups)
    ensures |c.txs| == |c.sets|
  {
    FlatLists(b, groups);
    Relisted(b, Flat(groups))
  }

  lemma FreeGroupsFit(b: Block, groups: seq<seq<nat>>)
    requires |b.txs| == |b.sets| && FreeGroups(b, groups)
    ensures ScheduleFits(GroupedBlock(b, groups), {}, AllSingles(Positions(groups, 0)))
  {
    FlatLists(b, groups);
    assert Flat(groups)[0..] == Flat(groups);
    PositionsFit(b, Flat(groups), groups, 0);
    assert Earlier(GroupedBlock(b, groups), 0) == {};
  }

  /** Running the groups in turn leaves the storage that running the transactions group by group leaves. */
  lemma GroupByGroup(b: Block, groups: seq<seq<nat>>, s: Storage, rounds: seq<Round>)
    requires |b.txs| == |b.sets| && FreeGroups(b, groups)
    requires Good(GroupedBlock(b, groups), s) && Happens(GroupedBlock(b, groups), s, rounds)
    requires Schedule(rounds) == AllSingles(Positions(groups, 0))
    ensures Final(s, rounds) == Serial(GroupedBlock(b, groups), s)
  {
    FreeGroupsFit(b, groups);
    ScheduleIsSerial(GroupedBlock(b, groups), s, rounds);
  }
}
