/** A conflict graph on which every reduction is exact and the answer is still not a largest independent set: what
    the loop pushed cannot join again. */
module ShortExample {
  import opened Chains
  import opened ChainSteps
  import opened Endless
  import opened Fields
  import opened Graphs
  import opened LargestSets
  import opened Machines
  import opened NearLargest
  import opened Reachability
  import opened Reductions
  import opened TurnLaws
  import opened Worklist

  /** 0 and 1 do not conflict. The chain 2-3 joins them, and 4 and 5 each touch both. */
  const DIAMOND := Graph(map[0 := [2, 4, 5], 1 := [3, 4, 5], 2 := [0, 3], 3 := [2, 1], 4 := [0, 1], 5 := [0, 1]],
                         {0, 1, 2, 3, 4, 5})

  lemma Rows(x: nat, y: nat)
    ensures Adjacent(DIAMOND, x, y) <==>
      || (x == 0 && y in {2, 4, 5}) || (x == 1 && y in {3, 4, 5}) || (x == 2 && y in {0, 3})
      || (x == 3 && y in {1, 2}) || (x == 4 && y in {0, 1}) || (x == 5 && y in {0, 1})
  {
  }

  lemma DiamondWellFormed()
    ensures WellFormed(DIAMOND) && DIAMOND.live == DIAMOND.adj.Keys
    ensures forall x :: x in DIAMOND.live ==> x < MAX_UINT
  {
    forall x, y | Adjacent(DIAMOND, x, y) ensures x != y && Adjacent(DIAMOND, y, x) {
      Rows(x, y);
      Rows(y, x);
    }
    RowsDistinct(2, 4, 5);
    RowsDistinct(3, 4, 5);
    RowsDistinct(0, 3, 1);
    RowsDistinct(2, 1, 0);
    RowsDistinct(0, 1, 2);
  }

  ghost function FieldsAtStart(): Degrees {
    map[0 := 3, 1 := 3, 2 := 2, 3 := 2, 4 := 2, 5 := 2]
  }

  lemma DiamondNeighbours()
    ensures Neighbours(DIAMOND, 0) == {2, 4, 5} && Neighbours(DIAMOND, 1) == {3, 4, 5}
    ensures Neighbours(DIAMOND, 2) == {0, 3} && Neighbours(DIAMOND, 3) == {1, 2}
    ensures Neighbours(DIAMOND, 4) == {0, 1} && Neighbours(DIAMOND, 5) == {0, 1}
  {
  }

  lemma DegreesAt()
    ensures Degree(DIAMOND, 0) == Degree(DIAMOND, 1) == 3
    ensures Degree(DIAMOND, 2) == Degree(DIAMOND, 3) == Degree(DIAMOND, 4) == Degree(DIAMOND, 5) == 2
  {
    DiamondNeighbours();
  }

  lemma DegreeSets()
    ensures OfDegree(DIAMOND, 0) == {} && OfDegree(DIAMOND, 1) == {} && OfDegree(DIAMOND, 2) == {2, 3, 4, 5}
  {
    DegreesAt();
  }

  lemma DiamondFits()
    ensures Fit(DIAMOND, FieldsAtStart())
  {
    DiamondWellFormed();
    forall y | y in DIAMOND.live ensures FieldOf(FieldsAtStart(), y) == Degree(DIAMOND, y) {
      FieldAtStart(y);
    }
  }

  lemma FieldAtStart(y: nat)
    requires y in DIAMOND.live
    ensures FieldOf(FieldsAtStart(), y) == Degree(DIAMOND, y)
  {
    DegreesAt();
  }

  // ---------- a turn that pops a given vertex of a chain ----------

  /** From a clean state the loop may pop u; if the component of u is no cycle, what follows is the contraction of the
      chain that the component is. */
  lemma PopsChain(f: Machine, u: nat, S: set<nat>) returns (p: seq<nat>, v: nat, w: nat, f': Machine, stale: bool)
    requires Clean(f) && f.m.one == {} && u in f.m.two
    requires IsComponent(f.m.g, OfDegree(f.m.g, 2), u, S) && !Closed(f.m.g, f.m.g.live, S)
    ensures IsChain(f.m.g, p, v, w) && Members(p) == S && (stale <==> LeavesStale(f.m.g, p, v, w))
    ensures p[0] in f.m.g.adj && v in f.m.g.adj && w in f.m.g.adj && p[0] != w
    ensures MachineTurn(f, f', stale) && f'.m == ChainStep(f.m, u, p, v, w)
  {
    var f1 := Popped(f, u);
    FoundIsComponent(f1, u);
    assert S <= Members(Found(f1, u)) && Members(Found(f1, u)) <= S;
    FindsChain(f1, u);
    p := Ordered(f1, Found(f1, u));
    v, w := FirstOf(f1, p), LastOf(f1, p);
    assert Members(p) <= S && S <= Members(p);
    PoppedSticks(f, u);
    ChainAgrees(f1, p, v, w);
    ContractedReady(f.m.g, p, v, w);
    f', stale := AfterTwo(f1, u), TwoIsStale(f1, u);
    assert TwoTurnOn(f, u, f', stale);
  }

  // ---------- the two turns ----------

  lemma StartIs() returns (f: Machine)
    ensures f == Start(DIAMOND, FieldsAtStart()) && Clean(f) && f.m.g == DIAMOND
    ensures f.m.one == {} && f.m.two == {2, 3, 4, 5} == OfDegree(DIAMOND, 2) && f.m.stack == []
  {
    DiamondFits();
    DiamondWellFormed();
    DegreeSets();
    f := Start(DIAMOND, FieldsAtStart());
    StartIsClean(DIAMOND, FieldsAtStart());
    NothingGone(DIAMOND);
  }

  lemma NothingGone(g: Graph)
    ensures RemoveSet(g, {}) == g
  {
    assert g.live - {} == g.live;
  }

  lemma ChainComponent()
    ensures IsComponent(DIAMOND, {2, 3, 4, 5}, 2, {2, 3}) && !Closed(DIAMOND, DIAMOND.live, {2, 3})
  {
    forall x, y | x in {2, 3} && Adjacent(DIAMOND, x, y) && y in {2, 3, 4, 5} ensures y in {2, 3} {
      Rows(x, y);
    }
    assert Adjacent(DIAMOND, 2, 3) && Adjacent(DIAMOND, 2, 0);
  }

  lemma FoundChain(p: seq<nat>, v: nat, w: nat)
    requires IsChain(DIAMOND, p, v, w) && Members(p) == {2, 3}
    ensures |p| == 2 && {v, w} == {0, 1} && v != w && !Adjacent(DIAMOND, v, w)
    ensures EvenGraph(DIAMOND, p, v, w) == WithEdge(RemoveSet(DIAMOND, {2, 3}), 0, 1)
  {
    DistinctCount(p);
    DistinctPairwise(p);
    assert p[0] in Members(p) && p[1] in Members(p);
    Rows(p[0], v);
    Rows(p[1], w);
    Rows(v, w);
  }

  lemma LeftOver(two: set<nat>, gone: set<nat>)
    requires two == {2, 3, 4, 5} && gone == {2, 3}
    ensures two - {2} - gone == {4, 5}
  {
  }

  /** The chain 2-3 is replaced by an edge between 0 and 1, and pushed. */
  lemma FirstTurn(f: Machine) returns (f': Machine)
    requires Clean(f) && f.m.g == DIAMOND && f.m.one == {} && f.m.stack == []
    requires f.m.two == {2, 3, 4, 5} == OfDegree(DIAMOND, 2)
    ensures MachineTurn(f, f', false) && Clean(f') && f'.m.two == {4, 5} && |f'.m.stack| == 2
    ensures f'.m.g == WithEdge(RemoveSet(DIAMOND, {2, 3}), 0, 1)
  {
    ChainComponent();
    var p, v, w, stale;
    p, v, w, f', stale := PopsChain(f, 2, {2, 3});
    FoundChain(p, v, w);
    ReversedMembers(p);
    assert !LeavesStale(DIAMOND, p, v, w);
    assert f'.m == Replaced(PopTwo(f.m, 2), p, v, w);
    LeftOver(f.m.two, Members(p));
    CleanOrDoomed(f, f', false);
  }

  /** What is left after the first turn: 0 and 1 are adjacent now, and 4 and 5 still touch both. */
  ghost function Joined(): Graph {
    WithEdge(RemoveSet(DIAMOND, {2, 3}), 0, 1)
  }

  lemma JoinedRows(x: nat, y: nat)
    requires x in {0, 1, 4, 5} && y in {0, 1, 4, 5}
    ensures Adjacent(Joined(), x, y) <==> x != y && (x in {0, 1} || y in {0, 1})
  {
    AdjacentWithEdge(RemoveSet(DIAMOND, {2, 3}), 0, 1, x, y);
    Rows(x, y);
  }

  lemma JoinedNeighbours()
    ensures Joined().live == {0, 1, 4, 5}
    ensures Neighbours(Joined(), 0) == {1, 4, 5} && Neighbours(Joined(), 1) == {0, 4, 5}
    ensures Neighbours(Joined(), 4) == {0, 1} && Neighbours(Joined(), 5) == {0, 1}
  {
    forall x, y | x in {0, 1, 4, 5} && y in {0, 1, 4, 5} { JoinedRows(x, y); }
  }

  lemma JoinedDegrees()
    ensures OfDegree(Joined(), 1) == {} && OfDegree(Joined(), 2) == {4, 5}
  {
    JoinedNeighbours();
  }

  lemma SingleComponent()
    ensures IsComponent(Joined(), {4, 5}, 4, {4}) && !Closed(Joined(), Joined().live, {4})
  {
    JoinedNeighbours();
    JoinedRows(4, 5);
    assert !Adjacent(Joined(), 4, 4) by { JoinedRows(4, 4); }
    assert Adjacent(Joined(), 4, 0) by { JoinedRows(4, 0); }
  }

  lemma FoundSingle(p: seq<nat>, v: nat, w: nat)
    requires IsChain(Joined(), p, v, w) && Members(p) == {4}
    ensures |p| == 1 && {v, w} == {0, 1} && v != w && Adjacent(Joined(), v, w)
  {
    DistinctCount(p);
    JoinedNeighbours();
    assert p[0] in Members(p);
    assert v in Neighbours(Joined(), 4) && w in Neighbours(Joined(), 4);
    JoinedRows(v, w);
  }

  lemma EndsGone(v: nat, w: nat)
    requires {v, w} == {0, 1}
    ensures {0, 1, 4, 5} - {v} - {w} == {4, 5}
  {
  }

  /** 4 is a chain of its own between two adjacent ends: both are deleted. */
  lemma SecondTurn(f: Machine) returns (f': Machine)
    requires Clean(f) && f.m.g == Joined() && f.m.two == {4, 5}
    ensures f.m.one == {} && MachineTurn(f, f', false) && Clean(f') && f'.m.stack == f.m.stack
    ensures f'.m.g.live == {4, 5} && f'.m.g.adj == Joined().adj
  {
    JoinedDegrees();
    SingleComponent();
    var p, v, w, stale;
    p, v, w, f', stale := PopsChain(f, 4, {4});
    FoundSingle(p, v, w);
    JoinedNeighbours();
    EndsGone(v, w);
    assert f'.m == Deleted(Deleted(PopTwo(f.m, 4), v), w);
    CleanOrDoomed(f, f', false);
  }

  lemma NothingToDo(f: Machine)
    requires Clean(f) && f.m.g.live == {4, 5} && f.m.g.adj == Joined().adj
    ensures BucketsEmpty(f.m)
  {
    JoinedRows(4, 5);
    JoinedRows(4, 4);
    JoinedRows(5, 4);
    JoinedRows(5, 5);
    assert Neighbours(f.m.g, 4) == {} && Neighbours(f.m.g, 5) == {};
    assert OfDegree(f.m.g, 1) == {} && OfDegree(f.m.g, 2) == {} && AtLeastThree(f.m.g) == {};
  }

  lemma OneMoreTurn(run: seq<Machine>, f: Machine) returns (more: seq<Machine>)
    requires Unspoilt(run) && MachineTurn(run[|run| - 1], f, false) && run[|run| - 1].m.two != {}
    ensures more == run + [f] && Unspoilt(more) && Peels(more) == Peels(run)
  {
    more := run + [f];
    PeelsOneMore(run, f);
    UnspoiltOneMore(run, f);
  }

  lemma UnspoiltOneMore(run: seq<Machine>, f: Machine)
    requires Unspoilt(run) && MachineTurn(run[|run| - 1], f, false)
    ensures Unspoilt(run + [f])
  {
    var more := run + [f];
    forall i | 0 < i < |more| ensures MachineTurn(more[i - 1], more[i], false) {
      if i < |run| {
        assert more[i - 1] == run[i - 1] && more[i] == run[i];
      }
    }
  }

  lemma AnswerIsTwo(run: seq<Machine>)
    requires Solved(DIAMOND, FieldsAtStart(), run) && run[|run| - 1].m.g.live == {4, 5}
    ensures |run[|run| - 1].m.chosen| == 2
  {
    var k := SolvedCosts(DIAMOND, FieldsAtStart(), run);
    AnswerSize(DIAMOND, run[|run| - 1].m);
    DegreeSets();
  }

  lemma FirstPart() returns (run: seq<Machine>, f: Machine)
    ensures Unspoilt(run) && Peels(run) == 0 && run[0] == Start(DIAMOND, FieldsAtStart()) && run[|run| - 1] == f
    ensures Clean(f) && f.m.g == Joined() && f.m.two == {4, 5} && |f.m.stack| == 2
  {
    var f0 := StartIs();
    f := FirstTurn(f0);
    run := OneMoreTurn([f0], f);
  }

  lemma ExampleRun() returns (run: seq<Machine>)
    ensures Unspoilt(run) && Peels(run) == 0 && run[0] == Start(DIAMOND, FieldsAtStart())
    ensures var m := run[|run| - 1].m; BucketsEmpty(m) && m.g.live == {4, 5} && |m.stack| == 2
  {
    var before, f1 := FirstPart();
    var f2 := SecondTurn(f1);
    NothingToDo(f2);
    run := OneMoreTurn(before, f2);
  }

  /** There is a conflict graph of six transactions and a run on it that ends and never peels, whose answer has two
      members although three transactions are pairwise free of conflicts. */
  lemma AnswerMayFallShort() returns (run: seq<Machine>)
    ensures Solved(DIAMOND, FieldsAtStart(), run) && Peels(run) == 0
    ensures |run[|run| - 1].m.chosen| == 2 && exists s :: Free(DIAMOND, s) && |s| == 3
  {
    run := ExampleRun();
    DiamondFits();
    DiamondWellFormed();
    AnswerIsTwo(run);
    LargestExactlyIfNothingPushed(DIAMOND, FieldsAtStart(), run);
  }
}
