/** A conflict graph on which the solver's loop runs for ever: one turn leaves two stale ends, four more turns
    delete every vertex, and from then on the loop deletes the same deleted vertex again and again. */
module StaleExample {
  import opened Chains
  import opened Endless
  import opened Fields
  import opened Graphs
  import opened Machines
  import opened Reachability
  import opened Reductions
  import opened Searches
  import opened Worklist

  /** 0 and 1 conflict, the chain 2-3 joins them, and 4 touches both: 0 and 1 have degree three. */
  const EXAMPLE := Graph(map[0 := [2, 1, 4], 1 := [3, 0, 4], 2 := [0, 3], 3 := [2, 1], 4 := [0, 1]], {0, 1, 2, 3, 4})

  lemma ExampleRows(x: nat, y: nat)
    ensures Adjacent(EXAMPLE, x, y) <==>
      || (x == 0 && y in {1, 2, 4}) || (x == 1 && y in {0, 3, 4})
      || (x == 2 && y in {0, 3}) || (x == 3 && y in {1, 2}) || (x == 4 && y in {0, 1})
  {
  }

  lemma ExampleNeighbours()
    ensures Neighbours(EXAMPLE, 0) == {1, 2, 4} && Neighbours(EXAMPLE, 1) == {0, 3, 4}
    ensures Neighbours(EXAMPLE, 2) == {0, 3} && Neighbours(EXAMPLE, 3) == {1, 2} && Neighbours(EXAMPLE, 4) == {0, 1}
  {
  }

  lemma ExampleWellFormed()
    ensures WellFormed(EXAMPLE)
  {
    forall x, y | Adjacent(EXAMPLE, x, y) ensures x != y && Adjacent(EXAMPLE, y, x) {
      ExampleRows(x, y);
      ExampleRows(y, x);
    }
    RowsDistinct(2, 1, 4);
    RowsDistinct(3, 0, 4);
    RowsDistinct(0, 3, 4);
    RowsDistinct(0, 1, 4);
  }

  // ---------- the states of one run ----------

  ghost function FieldsOf(a: int, b: int, c: int, d: int, e: int): Degrees {
    map[0 := a, 1 := b, 2 := c, 3 := d, 4 := e]
  }

  ghost function StateOf(live: set<nat>, one: set<nat>, two: set<nat>, three: set<nat>, chosen: set<nat>,
                         stack: seq<nat>, deg: Degrees): Machine
  {
    Machine(Solver(EXAMPLE.(live := live), one, two, three, chosen, stack), deg)
  }

  ghost function Fresh(): Machine {
    StateOf({0, 1, 2, 3, 4}, {}, {2, 3, 4}, {0, 1}, {}, [], FieldsOf(3, 3, 2, 2, 2))
  }

  /** After 2 was popped: 0 and 1 are adjacent, live and have degree two, but are in VerticesGreaterThanThree. */
  ghost function Stale(): Machine {
    StateOf({0, 1, 4}, {}, {4}, {0, 1}, {}, [3, 2], FieldsOf(2, 2, 2, 1, 2))
  }

  /** After 4 was popped and, being on a cycle, deleted. */
  ghost function Pair(): Machine {
    StateOf({0, 1}, {0, 1}, {}, {0, 1}, {}, [3, 2], FieldsOf(1, 1, 2, 1, 2))
  }

  /** After 0 was popped and its neighbour 1 deleted with a field of one: 1 is stuck. */
  ghost function Deleted1(): Machine {
    StateOf({0}, {}, {}, {0, 1}, {0}, [3, 2], FieldsOf(0, 1, 2, 1, 2))
  }

  /** After 1 was deleted again, which took the field of 0 below zero. */
  ghost function Wrapped(): Machine {
    StateOf({0}, {}, {}, {0, 1}, {0}, [3, 2], FieldsOf(-1, 1, 2, 1, 2))
  }

  /** After 0 was deleted: deleting 1 once more changes nothing. */
  ghost function Fixed(): Machine {
    StateOf({}, {}, {}, {1}, {0}, [3, 2], FieldsOf(-1, 1, 2, 1, 2))
  }

  // ---------- folds over short lists ----------

  lemma StepsOfTwo(f: Machine, a: nat, b: nat)
    ensures Steps(f, [a, b]) == Step(Step(f, a), b)
  {
    assert [a, b][..1] == [a] && [a][..0] == [];
    assert Steps(f, []) == f && Steps(f, [a]) == Step(f, a);
  }

  lemma StepsOfThree(f: Machine, a: nat, b: nat, c: nat)
    ensures Steps(f, [a, b, c]) == Step(Step(Step(f, a), b), c)
  {
    StepsOfTwo(f, a, b);
    assert [a, b, c][..2] == [a, b];
  }

  lemma DeletesOfThree(f: Machine, a: nat, b: nat, c: nat)
    ensures AfterDeletes(f, [a, b, c]) == AfterLook(AfterLook(AfterLook(f, a), b), c)
  {
    assert [a, b, c][..2] == [a, b] && [a, b][..1] == [a] && [a][..0] == [];
    assert AfterDeletes(f, []) == f && AfterDeletes(f, [a]) == AfterLook(f, a);
    assert AfterDeletes(f, [a, b]) == AfterLook(AfterLook(f, a), b);
  }

  ghost function LoweredOne(g: Graph, deg: Degrees, y: nat): Degrees {
    if y in g.live then Changed(deg, y, -1) else deg
  }

  lemma LoweredOfTwo(g: Graph, deg: Degrees, a: nat, b: nat)
    ensures Lowered(g, deg, [a, b]) == LoweredOne(g, LoweredOne(g, deg, a), b)
  {
    assert [a, b][..1] == [a] && [a][..0] == [];
    assert Lowered(g, deg, []) == deg && Lowered(g, deg, [a]) == LoweredOne(g, deg, a);
  }

  lemma RemovesOfTwo(f: Machine, a: nat, b: nat)
    ensures AfterRemoves(f, [a, b]) == AfterRemove(AfterRemove(f, a), b)
  {
    assert [a, b][..1] == [a] && [a][..0] == [];
    assert AfterRemoves(f, []) == f && AfterRemoves(f, [a]) == AfterRemove(f, a);
  }

  ghost function OtherOne(f: Machine, y: nat): seq<nat> {
    if y in f.m.g.live && FieldOf(f.deg, y) != 2 then [y] else []
  }

  lemma OthersOfTwo(f: Machine, a: nat, b: nat)
    ensures Others(f, [a, b]) == OtherOne(f, a) + OtherOne(f, b)
  {
    assert [a, b][..1] == [a] && [a][..0] == [];
    assert Others(f, []) == [] && Others(f, [a]) == [] + OtherOne(f, a) == OtherOne(f, a);
  }

  // ---------- the stale turn ----------

  lemma SearchFindsBoth(f: Machine, ok: set<nat>)
    requires f.m.g.adj == EXAMPLE.adj && (ok == {2, 3, 4} || ok == {2, 3})
    ensures Search(f.m.g, ok, 2, []) == [2, 3]
  {
    var g := f.m.g;
    assert Known(g) by {
      forall x, y | Adjacent(g, x, y) ensures y in g.adj {
        assert Adjacent(EXAMPLE, x, y);
        ExampleRows(x, y);
      }
    }
    SearchIsComponent(g, ok, 2);
    var r := Search(g, ok, 2, []);
    var S := Members(r);
    assert Closed(g, ok, {2, 3}) by {
      forall x, y | x in {2, 3} && Adjacent(g, x, y) && y in ok ensures y in {2, 3} {
        assert Adjacent(EXAMPLE, x, y);
        ExampleRows(x, y);
      }
    }
    assert Adjacent(g, 2, 3) && S == {2, 3};
    assert [] + [2] <= r && r[0] == 2;
    ListOfPair(r, 2, 3);
  }

  lemma ListOfPair(r: seq<nat>, a: nat, b: nat)
    requires Distinct(r) && |r| > 0 && r[0] == a && a != b && Members(r) == {a, b}
    ensures r == [a, b]
  {
    DistinctCount(r);
    DistinctPairwise(r);
    assert r[1] in Members(r);
  }

  lemma PopTwoOthers()
    ensures var f := Popped(Fresh(), 2); OthersOf(f, 2) == [0] && OthersOf(f, 3) == [1]
  {
    var f := Popped(Fresh(), 2);
    OthersOfTwo(f, 0, 3);
    OthersOfTwo(f, 2, 1);
  }

  lemma PopTwoSearch()
    ensures var f := Popped(Fresh(), 2); Found(f, 2) == [2, 3] && Ordered(f, [2, 3]) == [2, 3]
  {
    var f := Popped(Fresh(), 2);
    PopTwoOthers();
    assert Twos(f) + {2} == {2, 3, 4};
    SearchFindsBoth(f, {2, 3, 4});
    assert FirstEnd(f, [2, 3]) == 2;
    assert Members([2, 3]) * f.m.g.live == {2, 3};
    SearchFindsBoth(f, {2, 3});
  }

  lemma PopTwoFinds()
    ensures var f := Popped(Fresh(), 2);
      && Found(f, 2) == [2, 3] && Ordered(f, [2, 3]) == [2, 3] && !OnCycle(f, 2) && !Panics(f, 2)
      && FirstOf(f, [2, 3]) == 0 && LastOf(f, [2, 3]) == 1
  {
    var f := Popped(Fresh(), 2);
    PopTwoSearch();
    PopTwoOthers();
    assert Adjacent(f.m.g, 2, 0) && 0 !in Members([2, 3]);
  }

  lemma ChainRemoved()
    ensures AfterRemoves(Popped(Fresh(), 2), [2, 3])
         == StateOf({0, 1, 4}, {}, {4}, {0, 1}, {}, [], FieldsOf(2, 2, 2, 1, 2))
  {
    var f := Popped(Fresh(), 2);
    RemovesOfTwo(f, 2, 3);
    var f1 := AfterRemove(f, 2);
    LoweredOfTwo(Without(f.m.g, 2), f.deg, 0, 3);
    assert f1 == StateOf({0, 1, 3, 4}, {}, {3, 4}, {0, 1}, {}, [], FieldsOf(2, 3, 2, 1, 2));
    LoweredOfTwo(Without(f1.m.g, 3), f1.deg, 2, 1);
  }

  lemma FirstTurn()
    ensures MachineTurn(Fresh(), Stale(), true)
  {
    var f := Popped(Fresh(), 2);
    PopTwoFinds();
    ChainRemoved();
    assert Reversed([2, 3]) == [3, 2] by {
      assert [2, 3][..1] == [2] && [2][..0] == [];
      assert Reversed([2]) == [2] + Reversed([]);
    }
    var r := AfterRemoves(f, [2, 3]);
    assert HasLiveEdge(r.m.g, 0, 1);
    assert AfterTwo(f, 2) == Stale() && TwoIsStale(f, 2);
    assert TwoTurnOn(Fresh(), 2, Stale(), true);
  }

  // ---------- the turns after it ----------

  lemma SecondTurn()
    ensures MachineTurn(Stale(), Pair(), false)
  {
    var f := Popped(Stale(), 4);
    assert Twos(f) + {4} == f.m.g.live;
    assert Known(f.m.g) by {
      forall x, y | Adjacent(f.m.g, x, y) ensures y in f.m.g.adj {
        assert Adjacent(EXAMPLE, x, y);
        ExampleRows(x, y);
      }
    }
    SearchIsComponent(f.m.g, f.m.g.live, 4);
    StepsOfTwo(Marked(f, 4), 0, 1);
    assert AfterDelete(f, 4) == Pair();
    assert TwoTurnOn(Stale(), 4, Pair(), false);
  }

  lemma ThirdTurn()
    ensures MachineTurn(Pair(), Deleted1(), false)
  {
    var f := Pair().(m := Pair().m.(one := Pair().m.one - {0}));
    DeletesOfThree(f, 2, 1, 4);
    StepsOfThree(Marked(f, 1), 3, 0, 4);
    assert AfterDelete(f, 1) == Deleted1();
    assert AfterOne(Pair(), 0) == Deleted1();
  }

  lemma FourthTurn()
    ensures MachineTurn(Deleted1(), Wrapped(), false)
  {
    StepsOfThree(Marked(Deleted1(), 1), 3, 0, 4);
    assert AfterDelete(Deleted1(), 1) == Wrapped();
    assert Greatest(Deleted1(), 1);
  }

  lemma FifthTurn()
    ensures MachineTurn(Wrapped(), Fixed(), false)
  {
    StepsOfThree(Marked(Wrapped(), 0), 2, 1, 4);
    assert AfterDelete(Wrapped(), 0) == Fixed();
    assert Greatest(Wrapped(), 0);
  }

  lemma LastTurnForEver()
    ensures MachineTurn(Fixed(), Fixed(), false)
  {
    StepsOfThree(Marked(Fixed(), 1), 3, 0, 4);
    assert AfterDelete(Fixed(), 1) == Fixed();
    assert Greatest(Fixed(), 1);
  }

  ghost function RunAt(i: nat): Machine {
    if i == 0 then Fresh()
    else if i == 1 then Stale()
    else if i == 2 then Pair()
    else if i == 3 then Deleted1()
    else if i == 4 then Wrapped()
    else Fixed()
  }

  lemma RunTurns(i: nat)
    ensures LoopStep(RunAt(i), RunAt(i + 1), i == 0) && !BucketsEmpty(RunAt(i).m)
  {
    if i == 0 {
      FirstTurn();
    } else if i == 1 {
      SecondTurn();
    } else if i == 2 {
      ThirdTurn();
    } else if i == 3 {
      FourthTurn();
    } else if i == 4 {
      FifthTurn();
    } else {
      LastTurnForEver();
    }
  }

  lemma ExampleDegrees()
    ensures Degree(EXAMPLE, 0) == Degree(EXAMPLE, 1) == 3
    ensures Degree(EXAMPLE, 2) == Degree(EXAMPLE, 3) == Degree(EXAMPLE, 4) == 2
  {
    ExampleNeighbours();
  }

  lemma FreshFits()
    ensures Fit(EXAMPLE, FieldsOf(3, 3, 2, 2, 2)) && EXAMPLE.live == EXAMPLE.adj.Keys
  {
    ExampleWellFormed();
    ExampleDegrees();
  }

  lemma FreshIsSorted()
    ensures Fresh().m == Sorted(EXAMPLE, FieldsOf(3, 3, 2, 2, 2), EXAMPLE.adj.Keys)
  {
    var deg, all := FieldsOf(3, 3, 2, 2, 2), EXAMPLE.adj.Keys;
    assert all == {0, 1, 2, 3, 4} && EXAMPLE.live - {} == EXAMPLE.live;
    assert WithField(deg, all, 0) == {} && WithField(deg, all, 1) == {} && WithField(deg, all, 2) == {2, 3, 4};
    assert (set y | y in all && FieldOf(deg, y) !in {0, 1, 2}) == {0, 1};
  }

  lemma FreshIsStart()
    ensures Fresh() == Start(EXAMPLE, FieldsOf(3, 3, 2, 2, 2)) && Clean(Fresh())
  {
    FreshFits();
    FreshIsSorted();
    SmallIds();
    assert Fresh() == Start(EXAMPLE, FieldsOf(3, 3, 2, 2, 2));
    StartIsClean(EXAMPLE, FieldsOf(3, 3, 2, 2, 2));
  }

  lemma SmallIds()
    ensures forall x :: x in EXAMPLE.live ==> x < MAX_UINT
  {
  }

  /** There is a conflict graph of five transactions and a run of the loop on it, from the freshly built buckets,
      that never ends: its first turn is stale, and its guard is true for ever. */
  lemma LoopMayNotEnd() returns (run: nat -> Machine, stale: nat -> bool)
    ensures run(0) == Start(EXAMPLE, FieldsOf(3, 3, 2, 2, 2)) && Clean(run(0))
    ensures IsRun(run, stale) && stale(0) && forall i: nat :: !BucketsEmpty(run(i).m)
  {
    run, stale := (i: nat) => RunAt(i), (i: nat) => i == 0;
    FreshIsStart();
    forall i: nat
      ensures LoopStep(run(i), run(i + 1), stale(i))
    {
      RunTurns(i);
    }
    forall i: nat
      ensures !BucketsEmpty(run(i).m)
    {
      RunTurns(i);
    }
  }
}
