/** Contracting a chain keeps the solver's invariant, except in exactly one situation. */
module ChainSteps {
  import opened Graphs
  import opened Reachability
  import opened Reductions
  import opened Chains

  // ---------- all-two components survive ----------

  /** If outside Q nothing changed, and no all-two component of h meets Q, what was covered stays so. */
  lemma CoveredOutside(g: Graph, h: Graph, Q: set<nat>, two: set<nat>, two': set<nat>)
    requires h.live <= g.live && TwosCovered(g, two)
    requires forall x :: x in h.live - Q ==> Neighbours(h, x) == Neighbours(g, x)
    requires forall C :: TwoOnly(h, C) ==> C !! Q
    requires forall x :: x in h.live - Q && x in two ==> x in two'
    ensures TwosCovered(h, two')
  {
    forall C | TwoOnly(h, C)
      ensures C * two' != {}
    {
      SameOutside(g, h, Q, C);
      MetInside(g, h.live - Q, two, two', C);
    }
  }

  lemma MetInside(g: Graph, inside: set<nat>, two: set<nat>, two': set<nat>, C: set<nat>)
    requires TwosCovered(g, two) && TwoOnly(g, C) && C <= inside && inside * two <= two'
    ensures C * two' != {}
  {
    var t := CoveredMember(g, two, C);
    assert t in C * two';
  }

  lemma SameOutside(g: Graph, h: Graph, Q: set<nat>, C: set<nat>)
    requires h.live <= g.live && TwoOnly(h, C) && C !! Q
    requires forall x :: x in h.live - Q ==> Neighbours(h, x) == Neighbours(g, x)
    ensures TwoOnly(g, C)
  {
    forall x | x in C
      ensures x in OfDegree(g, 2)
    {
      assert x in h.live - Q;
    }
    forall x, y | x in C && Adjacent(g, x, y) && y in g.live
      ensures y in C
    {
      assert x in h.live - Q;
      assert y in Neighbours(g, x) && y in Neighbours(h, x);
    }
  }

  /** A popped chain vertex was not needed: its component is not all of degree two. */
  lemma PopCovered(g: Graph, two: set<nat>, u: nat, p: seq<nat>, v: nat, w: nat)
    requires WellFormed(g) && IsChain(g, p, v, w) && u in p && TwosCovered(g, two)
    ensures TwosCovered(g, two - {u})
  {
    forall C | TwoOnly(g, C)
      ensures C !! {u}
    {
      if u in C {
        var i :| 0 <= i < |p| && p[i] == u;
        ChainLeadsOut(g, p, v, w, i, C);
      }
    }
    CoveredOutside(g, g, {u}, two, two - {u});
  }

  /** v and w keep their degrees and the surviving chain vertex touches v. */
  lemma OddAvoids(g: Graph, p: seq<nat>, v: nat, w: nat, C: set<nat>)
    requires WellFormed(g) && IsChain(g, p, v, w) && v != w && TwoOnly(OddGraph(g, p, w), C)
    ensures C !! {p[0], v, w}
  {
    var h := OddGraph(g, p, w);
    FirstNotInTail(p);
    OddGraphNeighbours(g, p, v, w, v);
    OddGraphNeighbours(g, p, v, w, w);
    OddGraphNeighbours(g, p, v, w, p[0]);
    assert v in Neighbours(h, p[0]);
  }

  lemma OddCovered(g: Graph, two: set<nat>, u: nat, p: seq<nat>, v: nat, w: nat)
    requires WellFormed(g) && IsChain(g, p, v, w) && v != w && u in p && TwosCovered(g, two)
    ensures TwosCovered(OddGraph(g, p, w), two - {u} - Members(p[1..]))
  {
    var h := OddGraph(g, p, w);
    var Q := {p[0], v, w};
    forall x | x in h.live - Q
      ensures x !in p && Neighbours(h, x) == Neighbours(g, x)
    {
      OddGraphNeighbours(g, p, v, w, x);
    }
    forall C | TwoOnly(h, C) { OddAvoids(g, p, v, w, C); }
    CoveredOutside(g, h, Q, two, two - {u} - Members(p[1..]));
  }

  lemma EvenCovered(g: Graph, two: set<nat>, u: nat, p: seq<nat>, v: nat, w: nat)
    requires WellFormed(g) && IsChain(g, p, v, w) && v != w && u in p && TwosCovered(g, two)
    requires Degree(EvenGraph(g, p, v, w), v) != 2 && Degree(EvenGraph(g, p, v, w), w) != 2
    ensures TwosCovered(EvenGraph(g, p, v, w), two - {u} - Members(p))
  {
    var h := EvenGraph(g, p, v, w);
    forall x | x in h.live && x != v && x != w
      ensures Neighbours(h, x) == Neighbours(g, x) && x !in p
    {
      EvenGraphNeighbours(g, p, v, w, x);
    }
    forall C | TwoOnly(h, C) ensures C !! {v, w} {
    }
    forall x | x in h.live - {v, w} && x in two ensures x in two - {u} - Members(p) {
    }
    CoveredOutside(g, h, {v, w}, two, two - {u} - Members(p));
  }

  // ---------- the buckets after a contraction ----------

  lemma {:induction false} ReversedMembers(s: seq<nat>)
    ensures |Reversed(s)| == |s|
    ensures forall x :: x in Reversed(s) <==> x in s
  {
    if s != [] {
      ReversedMembers(s[..|s| - 1]);
      assert s == s[..|s| - 1] + [s[|s| - 1]];
    }
  }

  /** h lost only degree-two vertices of g; an end that lost a neighbour had at least three. */
  ghost predicate Shrunk(g: Graph, h: Graph, gone: set<nat>) {
    && h.live == g.live - gone && gone <= OfDegree(g, 2)
    && (forall x :: x in h.live ==>
      Degree(h, x) == Degree(g, x) || (Degree(g, x) >= 3 && Degree(h, x) == Degree(g, x) - 1))
  }

  lemma BucketsAfter(m: Solver, h: Graph, gone: set<nat>, two': set<nat>)
    requires Sound(m) && Shrunk(m.g, h, gone) && two' <= m.two - gone
    ensures m.one == OfDegree(h, 1)
    ensures two' <= OfDegree(h, 2)
    ensures AtLeastThree(h) <= m.three
  {
  }

  /** The third bucket stays exact unless some vertex fell from degree three to two. */
  lemma ThreeAfter(g: Graph, h: Graph, gone: set<nat>)
    requires Shrunk(g, h, gone)
    ensures AtLeastThree(g) == AtLeastThree(h)
       <==> forall x :: x in h.live && Degree(g, x) == 3 ==> Degree(h, x) == 3
  {
    forall x | x in AtLeastThree(g)
      ensures x in h.live && (Degree(g, x) > 3 ==> x in AtLeastThree(h))
    {
    }
    assert AtLeastThree(h) <= AtLeastThree(g);
    if AtLeastThree(g) == AtLeastThree(h) {
      forall x | x in h.live && Degree(g, x) == 3
        ensures Degree(h, x) == 3
      {
        assert x in AtLeastThree(h);
      }
    }
  }

  lemma ChosenAfter(m: Solver, h: Graph, gone: set<nat>)
    requires Sound(m) && h.live == m.g.live - gone && gone <= OfDegree(m.g, 2)
    requires forall x :: x in h.live ==> (Degree(h, x) == 0 <==> Degree(m.g, x) == 0)
    requires forall x :: x in m.g.adj && x !in m.g.live ==> x in h.adj && h.adj[x] == m.g.adj[x]
    ensures ChosenRight(h, m.chosen)
  {
  }

  lemma StackAfter(m: Solver, h: Graph, tail: seq<nat>)
    requires Sound(m) && h.live == m.g.live - Members(tail) && Members(tail) <= OfDegree(m.g, 2)
    requires forall x :: x in m.g.adj && x !in h.live ==> x in h.adj && h.adj[x] == m.g.adj[x]
    ensures StackDead(h, m.stack + Reversed(tail))
  {
    ReversedMembers(tail);
    forall x | x in tail
      ensures x in m.g.adj && m.g.adj[x] != []
    {
      assert x in OfDegree(m.g, 2);
      assert Neighbours(m.g, x) != {};
      var y :| y in Neighbours(m.g, x);
    }
  }

  lemma ChainDegrees(g: Graph, p: seq<nat>, v: nat, w: nat)
    requires WellFormed(g) && IsChain(g, p, v, w) && OfDegree(g, 1) == {}
    ensures Degree(g, v) >= 3 && Degree(g, w) >= 3
    ensures Members(p) <= OfDegree(g, 2)
  {
    NeighboursSymmetric(g, p[0], v);
    NeighboursSymmetric(g, p[|p| - 1], w);
    assert v !in OfDegree(g, 1) && w !in OfDegree(g, 1);
    assert Degree(g, v) != 0 && Degree(g, w) != 0;
  }

  // ---------- the three outcomes of a chain step ----------

  ghost predicate IsChainOf(m: Solver, u: nat, p: seq<nat>, v: nat, w: nat) {
    Sound(m) && m.one == {} && u in m.two && u in p && IsChain(m.g, p, v, w)
  }

  lemma PopSound(m: Solver, u: nat, p: seq<nat>, v: nat, w: nat)
    requires IsChainOf(m, u, p, v, w)
    ensures Sound(PopTwo(m, u)) && (Tight(m) ==> Tight(PopTwo(m, u)))
  {
    if Tight(m) {
      PopCovered(m.g, m.two, u, p, v, w);
    }
  }

  lemma LoopStep(m: Solver, u: nat, p: seq<nat>, v: nat, w: nat)
    requires IsChainOf(m, u, p, v, w) && v == w
    ensures Sound(ChainStep(m, u, p, v, w))
    ensures Tight(m) ==> Tight(ChainStep(m, u, p, v, w))
  {
    PopSound(m, u, p, v, w);
    ChainDegrees(m.g, p, v, w);
    DeleteKeepsSound(PopTwo(m, u), v);
    if Tight(m) {
      DeleteKeepsTight(PopTwo(m, u), v);
    }
  }

  lemma BothEndsStep(m: Solver, u: nat, p: seq<nat>, v: nat, w: nat)
    requires IsChainOf(m, u, p, v, w) && v != w && |p| % 2 == 1 && Adjacent(m.g, v, w)
    ensures Sound(ChainStep(m, u, p, v, w))
    ensures Tight(m) ==> Tight(ChainStep(m, u, p, v, w))
  {
    PopSound(m, u, p, v, w);
    ChainDegrees(m.g, p, v, w);
    var m1 := Deleted(PopTwo(m, u), v);
    DeleteKeepsSound(PopTwo(m, u), v);
    DegreeWithout(m.g, v, w);
    DeleteKeepsSound(m1, w);
    if Tight(m) {
      DeleteKeepsTight(PopTwo(m, u), v);
      DeleteKeepsTight(m1, w);
    }
  }

  lemma OddShrunk(g: Graph, p: seq<nat>, v: nat, w: nat)
    requires WellFormed(g) && IsChain(g, p, v, w) && v != w
    ensures WellFormed(OddGraph(g, p, w)) && Shrunk(g, OddGraph(g, p, w), Members(p[1..]))
    ensures forall x :: x in OddGraph(g, p, w).live ==> Degree(OddGraph(g, p, w), x) == Degree(g, x)
  {
    var h := OddGraph(g, p, w);
    FirstNotInTail(p);
    OddGraphNeighbours(g, p, v, w, p[0]);
    assert forall i :: 0 <= i < |p| ==> p[i] in OfDegree(g, 2);
    forall x | x in h.live
      ensures Degree(h, x) == Degree(g, x)
    {
      OddGraphNeighbours(g, p, v, w, x);
    }
  }

  lemma OddListsKept(g: Graph, p: seq<nat>, v: nat, w: nat, x: nat)
    requires WellFormed(g) && IsChain(g, p, v, w) && v != w
    requires x in g.adj && x !in OddGraph(g, p, w).live
    ensures x in OddGraph(g, p, w).adj && OddGraph(g, p, w).adj[x] == g.adj[x]
  {
    FirstNotInTail(p);
    assert p[0] in OfDegree(g, 2);
    if |p| > 1 {
      OddEdgeIsNew(g, p, v, w);
    }
  }

  lemma OddStep(m: Solver, u: nat, p: seq<nat>, v: nat, w: nat)
    requires IsChainOf(m, u, p, v, w) && v != w && |p| % 2 == 1 && !Adjacent(m.g, v, w)
    ensures Sound(ChainStep(m, u, p, v, w))
    ensures Tight(m) ==> Tight(ChainStep(m, u, p, v, w))
  {
    var h := OddGraph(m.g, p, w);
    var gone := Members(p[1..]);
    OddShrunk(m.g, p, v, w);
    BucketsAfter(m, h, gone, PopTwo(m, u).two - gone);
    ThreeAfter(m.g, h, gone);
    forall x | x in m.g.adj && x !in h.live { OddListsKept(m.g, p, v, w, x); }
    ChosenAfter(m, h, gone);
    StackAfter(m, h, p[1..]);
    if Tight(m) {
      OddCovered(m.g, m.two, u, p, v, w);
    }
  }

  lemma EvenShrunk(g: Graph, p: seq<nat>, v: nat, w: nat)
    requires WellFormed(g) && IsChain(g, p, v, w) && v != w && OfDegree(g, 1) == {}
    ensures WellFormed(EvenGraph(g, p, v, w)) && Shrunk(g, EvenGraph(g, p, v, w), Members(p))
  {
    var h := EvenGraph(g, p, v, w);
    ChainDegrees(g, p, v, w);
    EvenGraphNeighbours(g, p, v, w, v);
    forall x | x in h.live
      ensures Degree(h, x) == Degree(g, x) || (Degree(g, x) >= 3 && Degree(h, x) == Degree(g, x) - 1)
    {
      EvenGraphNeighbours(g, p, v, w, x);
    }
  }

  lemma EvenSound(m: Solver, u: nat, p: seq<nat>, v: nat, w: nat)
    requires IsChainOf(m, u, p, v, w) && v != w && |p| % 2 == 0
    ensures Sound(ChainStep(m, u, p, v, w))
  {
    var h := EvenGraph(m.g, p, v, w);
    EvenShrunk(m.g, p, v, w);
    BucketsAfter(m, h, Members(p), PopTwo(m, u).two - Members(p));
    EvenRest(m, u, p, v, w);
  }

  lemma EvenListsKept(g: Graph, p: seq<nat>, v: nat, w: nat, x: nat)
    requires WellFormed(g) && IsChain(g, p, v, w) && v != w
    requires x in g.adj && x !in EvenGraph(g, p, v, w).live
    ensures x in EvenGraph(g, p, v, w).adj && EvenGraph(g, p, v, w).adj[x] == g.adj[x]
  {
    EvenEdgeIsNew(g, p, v, w);
  }

  /** The choice and the stack after an even chain was replaced. */
  lemma EvenRest(m: Solver, u: nat, p: seq<nat>, v: nat, w: nat)
    requires IsChainOf(m, u, p, v, w) && v != w && |p| % 2 == 0
    ensures ChosenRight(EvenGraph(m.g, p, v, w), m.chosen)
    ensures StackDead(EvenGraph(m.g, p, v, w), m.stack + Reversed(p))
  {
    var h := EvenGraph(m.g, p, v, w);
    forall x | x in m.g.adj && x !in h.live { EvenListsKept(m.g, p, v, w, x); }
    EvenShrunk(m.g, p, v, w);
    RestAfter(m, h, p);
  }

  lemma RestAfter(m: Solver, h: Graph, gone: seq<nat>)
    requires Sound(m) && Shrunk(m.g, h, Members(gone))
    requires forall x :: x in m.g.adj && x !in h.live ==> x in h.adj && h.adj[x] == m.g.adj[x]
    ensures ChosenRight(h, m.chosen) && StackDead(h, m.stack + Reversed(gone))
  {
    forall x | x in m.g.adj && x !in m.g.live ensures x !in h.live {
    }
    ChosenAfter(m, h, Members(gone));
    StackAfter(m, h, gone);
  }

  lemma EvenStep(m: Solver, u: nat, p: seq<nat>, v: nat, w: nat)
    requires IsChainOf(m, u, p, v, w) && v != w && |p| % 2 == 0 && Tight(m)
    ensures Tight(ChainStep(m, u, p, v, w)) <==> !LeavesStale(m.g, p, v, w)
  {
    var h := EvenGraph(m.g, p, v, w);
    EvenSound(m, u, p, v, w);
    EvenShrunk(m.g, p, v, w);
    ChainDegrees(m.g, p, v, w);
    ThreeAfter(m.g, h, Members(p));
    EvenGraphNeighbours(m.g, p, v, w, v);
    EvenGraphNeighbours(m.g, p, v, w, w);
    forall x | x in h.live && x != v && x != w
      ensures Degree(h, x) == Degree(m.g, x)
    {
      EvenGraphNeighbours(m.g, p, v, w, x);
    }
    if !LeavesStale(m.g, p, v, w) {
      EvenCovered(m.g, m.two, u, p, v, w);
    }
  }

  lemma ChainStepSound(m: Solver, u: nat, p: seq<nat>, v: nat, w: nat)
    requires IsChainOf(m, u, p, v, w)
    ensures Sound(ChainStep(m, u, p, v, w))
  {
    if v == w {
      LoopStep(m, u, p, v, w);
    } else if |p| % 2 == 0 {
      EvenSound(m, u, p, v, w);
    } else if Adjacent(m.g, v, w) {
      BothEndsStep(m, u, p, v, w);
    } else {
      OddStep(m, u, p, v, w);
    }
  }

  /** The solver's invariant survives a chain step exactly when the step does not leave an end stale. */
  lemma ChainStepTight(m: Solver, u: nat, p: seq<nat>, v: nat, w: nat)
    requires IsChainOf(m, u, p, v, w) && Tight(m)
    ensures Tight(ChainStep(m, u, p, v, w)) <==> !LeavesStale(m.g, p, v, w)
  {
    if v == w {
      LoopStep(m, u, p, v, w);
    } else if |p| % 2 == 0 {
      EvenStep(m, u, p, v, w);
    } else if Adjacent(m.g, v, w) {
      BothEndsStep(m, u, p, v, w);
    } else {
      OddStep(m, u, p, v, w);
    }
  }

  // ---------- the worklist loop's other two steps ----------

  /** degreeOneReduction: a degree-one vertex is popped and its only live neighbour deleted. */
  ghost predicate OneStepOn(m: Solver, x: nat, z: nat, m': Solver) {
    x in m.one && Neighbours(m.g, x) == {z} && m' == Deleted(m.(one := m.one - {x}), z)
  }

  ghost predicate OneStep(m: Solver, m': Solver) {
    exists x, z :: OneStepOn(m, x, z, m')
  }

  /** inexactReduction: a vertex of greatest degree in the third bucket is deleted, if that degree is
      not zero. */
  ghost predicate PeelStepOn(m: Solver, x: nat, m': Solver) {
    && x in m.three && Degree(m.g, x) > 0 && (forall y :: y in m.three ==> Degree(m.g, y) <= Degree(m.g, x))
    && m' == Deleted(m, x)
  }

  ghost predicate PeelStep(m: Solver, m': Solver) {
    || (exists x :: PeelStepOn(m, x, m'))
    || (m' == m && forall y :: y in m.three ==> Degree(m.g, y) == 0)
  }

  /** degreeTwoPathReduction on a component that is a cycle: the popped vertex is deleted. */
  ghost predicate CycleStepOn(m: Solver, u: nat, S: set<nat>, m': Solver) {
    && u in m.two
    && IsComponent(m.g, OfDegree(m.g, 2), u, S) && Closed(m.g, m.g.live, S)
    && m' == Deleted(PopTwo(m, u), u)
  }

  /** degreeTwoPathReduction on a chain p: all the degree-two vertices reachable from the popped u. */
  ghost predicate ChainStepOn(m: Solver, u: nat, p: seq<nat>, v: nat, w: nat, m': Solver) {
    && IsChainOf(m, u, p, v, w)
    && IsComponent(m.g, OfDegree(m.g, 2), u, Members(p))
    && m' == ChainStep(m, u, p, v, w)
  }

  /** One degreeTwoPathReduction; stale says whether it was the step that leaves an end stale. */
  ghost predicate TwoStep(m: Solver, m': Solver, stale: bool) {
    || (!stale && exists u, S :: CycleStepOn(m, u, S, m'))
    || (exists u, p, v, w :: ChainStepOn(m, u, p, v, w, m') && (stale <==> LeavesStale(m.g, p, v, w)))
  }
}
