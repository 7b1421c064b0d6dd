/** The solver's worklist loop as a relation between solver values: what every turn keeps, why the loop
    ends, and why it cannot end once an end of a chain has been left stale. */
module Worklist {
  import opened Graphs
  import opened Reachability
  import opened Reductions
  import opened Chains
  import opened ChainSteps

  ghost predicate BucketsEmpty(m: Solver) {
    m.one == {} && m.two == {} && m.three == {}
  }

  /** One turn of Solve's first loop; stale reports the step that leaves a chain end stale. */
  ghost predicate Turn(m: Solver, m': Solver, stale: bool) {
    if m.one != {} then OneStep(m, m') && !stale
    else if m.two != {} then TwoStep(m, m', stale)
    else m.three != {} && PeelStep(m, m') && !stale
  }

  // ---------- the invariant ----------

  lemma OneStepSound(m: Solver, m': Solver)
    requires Sound(m) && OneStep(m, m')
    ensures Sound(m') && (Tight(m) ==> Tight(m'))
  {
    var x, z :| OneStepOn(m, x, z, m');
    var m1 := m.(one := m.one - {x});
    NeighboursSymmetric(m.g, x, z);
    DegreeWithout(m.g, z, x);
    assert x in NowOf(Without(m.g, z), Neighbours(m.g, z), 0);
    SamePopOne(m, x, z);
    DeleteKeepsSound(m, z);
    if Tight(m) {
      DeleteKeepsTight(m, z);
    }
  }

  /** The popped vertex would have left VerticesOne anyway. */
  lemma SamePopOne(m: Solver, x: nat, z: nat)
    requires x in NowOf(Without(m.g, z), Neighbours(m.g, z), 0)
    ensures Deleted(m.(one := m.one - {x}), z) == Deleted(m, z)
  {
  }

  lemma SamePopTwo(m: Solver, u: nat)
    requires Degree(m.g, u) == 2
    ensures Deleted(PopTwo(m, u), u) == Deleted(m, u)
  {
  }

  lemma CycleStepSound(m: Solver, u: nat, S: set<nat>, m': Solver)
    requires Sound(m) && CycleStepOn(m, u, S, m')
    ensures Sound(m') && (Tight(m) ==> Tight(m'))
  {
    assert u in OfDegree(m.g, 2);
    SamePopTwo(m, u);
    DeleteKeepsSound(m, u);
    if Tight(m) {
      DeleteKeepsTight(m, u);
    }
  }

  lemma TwoStepSound(m: Solver, m': Solver, stale: bool)
    requires Sound(m) && TwoStep(m, m', stale)
    ensures Sound(m')
    ensures Tight(m) ==> (Tight(m') <==> !stale)
  {
    if u, S :| CycleStepOn(m, u, S, m') && !stale {
      CycleStepSound(m, u, S, m');
    } else {
      var u, p, v, w :| ChainStepOn(m, u, p, v, w, m') && (stale <==> LeavesStale(m.g, p, v, w));
      ChainStepSound(m, u, p, v, w);
      if Tight(m) {
        ChainStepTight(m, u, p, v, w);
      }
    }
  }

  lemma PeelStepSound(m: Solver, m': Solver)
    requires Sound(m) && m.three <= m.g.live && PeelStep(m, m')
    ensures Sound(m') && (Tight(m) ==> Tight(m'))
  {
    if x :| PeelStepOn(m, x, m') {
      DeleteKeepsSound(m, x);
      if Tight(m) {
        DeleteKeepsTight(m, x);
      }
    }
  }

  /** A turn keeps the solver's invariant exactly when it does not leave a chain end stale. */
  lemma TurnTight(m: Solver, m': Solver, stale: bool)
    requires Tight(m) && Turn(m, m', stale)
    ensures Tight(m') <==> !stale
  {
    if m.one != {} {
      OneStepSound(m, m');
    } else if m.two != {} {
      TwoStepSound(m, m', stale);
    } else {
      PeelStepSound(m, m');
    }
  }

  /** Without any condition on stale members other than that they are live. */
  lemma TurnSound(m: Solver, m': Solver, stale: bool)
    requires Sound(m) && m.three <= m.g.live && Turn(m, m', stale)
    ensures Sound(m')
  {
    if m.one != {} {
      OneStepSound(m, m');
    } else if m.two != {} {
      TwoStepSound(m, m', stale);
    } else {
      PeelStepSound(m, m');
    }
  }

  // ---------- progress ----------

  /** Same vertices, no edge lost, no choice undone, no vertex revived, some vertex alive, and the measure
      (live vertices, then size of VerticesTwo) went down. */
  ghost predicate Progress(m: Solver, m': Solver) {
    && EdgesGrow(m.g, m'.g) && m.chosen <= m'.chosen
    && m'.g.live <= m.g.live && m'.g.live != {}
    && (|m'.g.live| < |m.g.live| || (m'.g.live == m.g.live && |m'.two| < |m.two|))
  }

  lemma DeleteProgress(m: Solver, id: nat)
    requires WellFormed(m.g) && id in m.g.live && Degree(m.g, id) > 0
    ensures Progress(m, Deleted(m, id))
  {
    CardinalityWithout(m.g.live, id);
    assert Neighbours(m.g, id) != {};
    var y :| y in Neighbours(m.g, id);
    assert y in Deleted(m, id).g.live;
  }

  lemma ChainStepProgress(m: Solver, u: nat, p: seq<nat>, v: nat, w: nat)
    requires IsChainOf(m, u, p, v, w)
    ensures Progress(m, ChainStep(m, u, p, v, w))
  {
    ChainDegrees(m.g, p, v, w);
    assert p[0] in OfDegree(m.g, 2);
    if v == w {
      DeleteProgress(PopTwo(m, u), v);
    } else if |p| % 2 == 0 {
      EvenProgress(m, u, p, v, w);
    } else if Adjacent(m.g, v, w) {
      BothEndsProgress(m, u, p, v, w);
    } else {
      OddProgress(m, u, p, v, w);
    }
  }

  lemma BothEndsProgress(m: Solver, u: nat, p: seq<nat>, v: nat, w: nat)
    requires IsChainOf(m, u, p, v, w) && v != w && |p| % 2 == 1 && Adjacent(m.g, v, w)
    ensures Progress(m, ChainStep(m, u, p, v, w))
  {
    ChainDegrees(m.g, p, v, w);
    var m1 := Deleted(PopTwo(m, u), v);
    DegreeWithout(m.g, v, w);
    WellFormedWithout(m.g, v);
    DeleteProgress(PopTwo(m, u), v);
    DeleteProgress(m1, w);
  }

  lemma SmallerBy(s: set<nat>, gone: set<nat>, x: nat)
    requires x in s && x in gone
    ensures |s - gone| < |s|
  {
    SubsetCardinality(s - gone, s - {x});
    CardinalityWithout(s, x);
  }

  lemma LinkGrows(g: Graph, gone: set<nat>, a: nat, b: nat)
    requires a in g.adj && b in g.adj && a != b
    ensures EdgesGrow(g, WithEdge(RemoveSet(g, gone), a, b))
  {
  }

  lemma EvenProgress(m: Solver, u: nat, p: seq<nat>, v: nat, w: nat)
    requires IsChainOf(m, u, p, v, w) && v != w && |p| % 2 == 0
    ensures Progress(m, ChainStep(m, u, p, v, w))
  {
    assert p[0] in OfDegree(m.g, 2);
    SmallerBy(m.g.live, Members(p), p[0]);
    EvenEdgeIsNew(m.g, p, v, w);
    LinkGrows(m.g, Members(p), v, w);
    assert EdgesGrow(m.g, EvenGraph(m.g, p, v, w));
  }

  lemma OddGrows(g: Graph, p: seq<nat>, v: nat, w: nat)
    requires WellFormed(g) && IsChain(g, p, v, w) && v != w
    ensures EdgesGrow(g, OddGraph(g, p, w))
    ensures OddGraph(g, p, w).live == g.live - Members(p[1..])
    ensures |p| > 1 ==> p[1] in g.live && p[1] in Members(p[1..])
    ensures v in OddGraph(g, p, w).live
  {
    assert forall i :: 0 <= i < |p| ==> p[i] in OfDegree(g, 2);
    if |p| > 1 {
      OddEdgeIsNew(g, p, v, w);
      LinkGrows(g, Members(p[1..]), p[0], w);
      assert p[1] == p[1..][0];
    }
  }

  lemma OddProgress(m: Solver, u: nat, p: seq<nat>, v: nat, w: nat)
    requires IsChainOf(m, u, p, v, w) && v != w && |p| % 2 == 1 && !Adjacent(m.g, v, w)
    ensures Progress(m, ChainStep(m, u, p, v, w))
  {
    OddGrows(m.g, p, v, w);
    if |p| > 1 {
      SmallerBy(m.g.live, Members(p[1..]), p[1]);
    } else {
      SmallerBy(m.two, {u} + Members(p[1..]), u);
      assert PopTwo(m, u).two - Members(p[1..]) == m.two - ({u} + Members(p[1..]));
      assert Members(p[1..]) == {};
    }
  }

  lemma OneStepProgress(m: Solver, m': Solver)
    requires Sound(m) && OneStep(m, m')
    ensures Progress(m, m')
  {
    var x, z :| OneStepOn(m, x, z, m');
    NeighboursSymmetric(m.g, x, z);
    DeleteProgress(m.(one := m.one - {x}), z);
  }

  lemma TwoStepProgress(m: Solver, m': Solver, stale: bool)
    requires Sound(m) && TwoStep(m, m', stale)
    ensures Progress(m, m')
  {
    if u, S :| CycleStepOn(m, u, S, m') && !stale {
      assert u in OfDegree(m.g, 2);
      DeleteProgress(PopTwo(m, u), u);
    } else {
      var u, p, v, w :| ChainStepOn(m, u, p, v, w, m');
      ChainStepProgress(m, u, p, v, w);
    }
  }

  /** Every turn of the loop from a state the invariant describes makes progress. */
  lemma TurnProgress(m: Solver, m': Solver, stale: bool)
    requires Tight(m) && Turn(m, m', stale)
    ensures Progress(m, m')
  {
    if m.one != {} {
      OneStepProgress(m, m');
    } else if m.two != {} {
      TwoStepProgress(m, m', stale);
    } else {
      var y :| y in m.three;
      assert y in AtLeastThree(m.g);
      var x :| PeelStepOn(m, x, m');
      DeleteProgress(m, x);
    }
  }

  /** What any number of turns keeps. */
  ghost predicate Since(m0: Solver, m: Solver) {
    && EdgesGrow(m0.g, m.g) && m0.chosen <= m.chosen
    && m.g.live <= m0.g.live && (m0.g.live != {} ==> m.g.live != {})
  }

  lemma SinceTurn(m0: Solver, m: Solver, m': Solver)
    requires Since(m0, m) && Progress(m, m')
    ensures Since(m0, m')
  {
  }

  // ---------- the end ----------

  /** The chosen vertices are pairwise non-adjacent at every moment, deleted ones included. */
  lemma ChosenIndependent(g: Graph, chosen: set<nat>)
    requires WellFormed(g) && ChosenRight(g, chosen)
    ensures Independent(g.adj, chosen)
  {
    forall x, y | x in chosen && y in chosen && x in g.adj
      ensures y !in g.adj[x]
    {
      assert Adjacent(g, x, y) ==> Adjacent(g, y, x);
      assert Adjacent(g, x, y) && y in g.live ==> y in Neighbours(g, x);
    }
  }

  lemma TwosAreTwoOnly(g: Graph)
    requires WellFormed(g) && OfDegree(g, 1) == {} && AtLeastThree(g) == {} && OfDegree(g, 2) != {}
    ensures TwoOnly(g, OfDegree(g, 2))
  {
    forall x, y | x in OfDegree(g, 2) && Adjacent(g, x, y) && y in g.live
      ensures y in OfDegree(g, 2)
    {
      NeighboursSymmetric(g, x, y);
      assert Neighbours(g, y) != {};
      assert y !in OfDegree(g, 1) && y !in AtLeastThree(g);
    }
  }

  /** Once the buckets are empty every vertex still live is chosen. */
  lemma EmptyBucketsChooseLive(m: Solver)
    requires Tight(m) && BucketsEmpty(m)
    ensures m.g.live <= m.chosen
  {
    if OfDegree(m.g, 2) != {} {
      TwosAreTwoOnly(m.g);
      var t := CoveredMember(m.g, m.two, OfDegree(m.g, 2));
    }
    forall x | x in m.g.live
      ensures x in m.chosen
    {
      assert x !in OfDegree(m.g, 1) && x !in OfDegree(m.g, 2) && x !in AtLeastThree(m.g);
    }
  }

  // ---------- a stale end never goes away ----------

  /** Some member of VerticesGreaterThanThree is deleted or has degree two or less. */
  ghost predicate HasStale(m: Solver) {
    exists x :: x in m.three && x !in AtLeastThree(m.g)
  }

  lemma StaleAfterDelete(m: Solver, id: nat, x: nat)
    requires WellFormed(m.g) && id in m.g.live && Degree(m.g, id) > 0
    requires x in m.three && x !in AtLeastThree(m.g)
    ensures x in Deleted(m, id).three && x !in AtLeastThree(Without(m.g, id))
  {
    if x in m.g.live {
      DegreeWithout(m.g, id, x);
    }
  }

  lemma StaleAfterChain(m: Solver, u: nat, p: seq<nat>, v: nat, w: nat, x: nat)
    requires IsChainOf(m, u, p, v, w) && x in m.three && x !in AtLeastThree(m.g)
    ensures x in ChainStep(m, u, p, v, w).three && x !in AtLeastThree(ChainStep(m, u, p, v, w).g)
  {
    ChainDegrees(m.g, p, v, w);
    if v == w {
      StaleAfterDelete(PopTwo(m, u), v, x);
    } else if |p| % 2 == 0 {
      EvenShrunk(m.g, p, v, w);
    } else if Adjacent(m.g, v, w) {
      StaleAfterDelete(PopTwo(m, u), v, x);
      DegreeWithout(m.g, v, w);
      WellFormedWithout(m.g, v);
      StaleAfterDelete(Deleted(PopTwo(m, u), v), w, x);
    } else {
      OddShrunk(m.g, p, v, w);
    }
  }

  /** While every member of VerticesGreaterThanThree is live, a turn leaves a stale one in it. */
  lemma StaleStays(m: Solver, m': Solver, stale: bool)
    requires Sound(m) && m.three <= m.g.live && HasStale(m) && Turn(m, m', stale)
    ensures HasStale(m')
  {
    var x :| x in m.three && x !in AtLeastThree(m.g);
    if m.one != {} {
      var y, z :| OneStepOn(m, y, z, m');
      NeighboursSymmetric(m.g, y, z);
      StaleAfterDelete(m.(one := m.one - {y}), z, x);
    } else if m.two != {} {
      if u, S :| CycleStepOn(m, u, S, m') && !stale {
        assert u in OfDegree(m.g, 2);
        StaleAfterDelete(PopTwo(m, u), u, x);
      } else {
        var u, p, v, w :| ChainStepOn(m, u, p, v, w, m');
        StaleAfterChain(m, u, p, v, w, x);
      }
    } else if z :| PeelStepOn(m, z, m') {
      StaleAfterDelete(m, z, x);
    }
    assert x in m'.three && x !in AtLeastThree(m'.g);
  }

  lemma TurnNarrows(m: Solver, m': Solver, stale: bool)
    requires Sound(m) && m.three <= m.g.live && Turn(m, m', stale)
    ensures m'.g.live <= m.g.live
  {
    if m.one != {} {
      OneStepProgress(m, m');
    } else if m.two != {} {
      TwoStepProgress(m, m', stale);
    }
  }

  /** The step that leaves an end stale makes it so. */
  lemma StaleBorn(m: Solver, m': Solver)
    requires Tight(m) && Turn(m, m', true)
    ensures HasStale(m')
  {
    TwoStepSound(m, m', true);
    var u, p, v, w :| ChainStepOn(m, u, p, v, w, m') && LeavesStale(m.g, p, v, w);
    EvenSound(m, u, p, v, w);
    ChainDegrees(m.g, p, v, w);
    EvenGraphNeighbours(m.g, p, v, w, v);
    EvenGraphNeighbours(m.g, p, v, w, w);
    var x := if Degree(m.g, v) == 3 then v else w;
    assert x in m'.three && x !in AtLeastThree(m'.g);
  }
}
