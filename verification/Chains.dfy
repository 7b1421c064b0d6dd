/** Chains of degree-two vertices and their contraction: what is left of the graph after a chain is
    shortened to one vertex (odd length) or replaced by an edge (even length). */
module Chains {
  import opened Graphs
  import opened Reachability
  import opened Reductions

  /** p is a chain of live degree-two vertices whose two ends touch v and w, neither of degree two. */
  ghost predicate IsChain(g: Graph, p: seq<nat>, v: nat, w: nat) {
    && |p| >= 1 && Distinct(p)
    && (forall i :: 0 <= i < |p| ==> p[i] in OfDegree(g, 2))
    && (forall i :: 0 <= i < |p| - 1 ==> Adjacent(g, p[i], p[i + 1]))
    && v in g.live && w in g.live && v !in OfDegree(g, 2) && w !in OfDegree(g, 2)
    && Adjacent(g, p[0], v) && Adjacent(g, p[|p| - 1], w)
    && (|p| == 1 ==> v != w)
  }

  ghost function Extended(p: seq<nat>, v: nat, w: nat): seq<nat> {
    [v] + p + [w]
  }

  /** A chain member's live neighbours are its two companions along the extended chain. */
  lemma ChainNeighbours(g: Graph, p: seq<nat>, v: nat, w: nat, i: nat)
    requires WellFormed(g) && IsChain(g, p, v, w) && i < |p|
    ensures var e := Extended(p, v, w);
      e[i] != e[i + 2] && Neighbours(g, p[i]) == {e[i], e[i + 2]}
  {
    var e := Extended(p, v, w);
    DistinctPairwise(p);
    assert e[i + 1] == p[i];
    assert i > 0 ==> e[i] == p[i - 1] && Adjacent(g, p[i - 1], p[i]);
    assert i < |p| - 1 ==> e[i + 2] == p[i + 1];
    assert e[i] in Neighbours(g, p[i]) && e[i + 2] in Neighbours(g, p[i]);
    PairOfNeighbours(Neighbours(g, p[i]), e[i], e[i + 2]);
  }

  /** Outside the chain only v and w touch it, and only at its ends. */
  lemma ChainTouches(g: Graph, p: seq<nat>, v: nat, w: nat, x: nat, i: nat)
    requires WellFormed(g) && IsChain(g, p, v, w) && i < |p|
    requires x in g.live && x !in p && p[i] in Neighbours(g, x)
    ensures (i == 0 && x == v) || (i == |p| - 1 && x == w)
  {
    NeighboursSymmetric(g, x, p[i]);
    ChainNeighbours(g, p, v, w, i);
  }

  /** A component containing a chain member contains v, so it is not all of degree two. */
  lemma {:induction false} ChainLeadsOut(g: Graph, p: seq<nat>, v: nat, w: nat, i: nat, C: set<nat>)
    requires WellFormed(g) && IsChain(g, p, v, w) && i < |p|
    requires Closed(g, g.live, C) && p[i] in C
    ensures v in C
  {
    if i == 0 {
      assert Adjacent(g, p[0], v);
    } else {
      assert Adjacent(g, p[i - 1], p[i]);
      assert Adjacent(g, p[i], p[i - 1]);
      assert p[i - 1] in OfDegree(g, 2);
      ChainLeadsOut(g, p, v, w, i - 1, C);
    }
  }

  // ---------- removing a stretch of the chain ----------

  /** The live neighbours of x once the whole chain is gone. */
  lemma NeighboursWithoutChain(g: Graph, p: seq<nat>, v: nat, w: nat, x: nat)
    requires WellFormed(g) && IsChain(g, p, v, w) && v != w && x in g.live && x !in p
    ensures Neighbours(RemoveSet(g, Members(p)), x)
         == Neighbours(g, x) - (if x == v then {p[0]} else if x == w then {p[|p| - 1]} else {})
    ensures x == v ==> p[0] in Neighbours(g, x)
    ensures x == w ==> p[|p| - 1] in Neighbours(g, x)
  {
    NeighboursRemoveSet(g, Members(p), x);
    forall y | y in Neighbours(g, x) && y in p
      ensures (y == p[0] && x == v) || (y == p[|p| - 1] && x == w)
    {
      var i :| 0 <= i < |p| && p[i] == y;
      ChainTouches(g, p, v, w, x, i);
    }
    assert x == v ==> Adjacent(g, v, p[0]);
    assert x == w ==> Adjacent(g, w, p[|p| - 1]);
  }

  /** The live neighbours of x once all of the chain but its first vertex is gone. */
  lemma NeighboursWithoutTail(g: Graph, p: seq<nat>, v: nat, w: nat, x: nat)
    requires WellFormed(g) && IsChain(g, p, v, w) && v != w && |p| > 1 && x in g.live && x !in p[1..]
    ensures x == p[0] ==> Neighbours(RemoveSet(g, Members(p[1..])), x) == {v}
    ensures x != p[0] ==>
      Neighbours(RemoveSet(g, Members(p[1..])), x) == Neighbours(g, x) - (if x == w then {p[|p| - 1]} else {})
    ensures x == w ==> p[|p| - 1] in Neighbours(g, x)
  {
    NeighboursRemoveSet(g, Members(p[1..]), x);
    if x == p[0] {
      ChainNeighbours(g, p, v, w, 0);
      assert Extended(p, v, w)[2] == p[1] && p[1] in p[1..];
      assert v !in p[1..];
    } else {
      assert x !in p;
      forall y | y in Neighbours(g, x) && y in p[1..]
        ensures y == p[|p| - 1] && x == w
      {
        var i :| 1 <= i < |p| && p[i] == y;
        ChainTouches(g, p, v, w, x, i);
      }
      assert x == w ==> Adjacent(g, w, p[|p| - 1]) && p[|p| - 1] in p[1..];
    }
  }

  // ---------- the contracted graphs ----------

  /** Odd chain, ends not adjacent: the first vertex stays and is linked to w. */
  ghost function OddGraph(g: Graph, p: seq<nat>, w: nat): Graph
    requires |p| >= 1 && p[0] in g.adj && w in g.adj && p[0] != w
  {
    if |p| == 1 then g else WithEdge(RemoveSet(g, Members(p[1..])), p[0], w)
  }

  /** Even chain: it goes, and its ends become adjacent if they were not. */
  ghost function EvenGraph(g: Graph, p: seq<nat>, v: nat, w: nat): Graph
    requires v in g.adj && w in g.adj && v != w
  {
    var r := RemoveSet(g, Members(p));
    if Adjacent(g, v, w) then r else WithEdge(r, v, w)
  }

  lemma FirstNotInTail(p: seq<nat>)
    requires Distinct(p) && |p| >= 1
    ensures p[0] !in p[1..]
  {
  }

  lemma OddEdgeIsNew(g: Graph, p: seq<nat>, v: nat, w: nat)
    requires WellFormed(g) && IsChain(g, p, v, w) && v != w && |p| > 1
    ensures var r := RemoveSet(g, Members(p[1..]));
      WellFormed(r) && p[0] in r.live && w in r.live && p[0] != w && !Adjacent(r, p[0], w)
  {
    WellFormedRemoveSet(g, Members(p[1..]));
    ChainNeighbours(g, p, v, w, 0);
    assert Extended(p, v, w)[2] == p[1];
    assert w !in Neighbours(g, p[0]);
    FirstNotInTail(p);
  }

  /** The tail is gone (r) and the new edge restores what its loss took from a and from w. */
  lemma EdgeRestores(g: Graph, r: Graph, a: nat, v: nat, w: nat, last: nat, x: nat)
    requires WellFormed(r) && a in r.live && w in r.live && a != w && !Adjacent(r, a, w) && v != w
    requires x == a ==> Neighbours(r, x) == {v} && Degree(g, x) == 2
    requires x != a ==> Neighbours(r, x) == Neighbours(g, x) - (if x == w then {last} else {})
    requires x == w ==> last in Neighbours(g, x)
    ensures x == a ==> Neighbours(WithEdge(r, a, w), x) == {v, w}
    ensures x != a && x != w ==> Neighbours(WithEdge(r, a, w), x) == Neighbours(g, x)
    ensures Degree(WithEdge(r, a, w), x) == Degree(g, x)
  {
    NeighboursWithEdge(r, a, w, x);
    if x == a {
      assert Neighbours(WithEdge(r, a, w), x) == {v} + {w} == {v, w};
      assert Degree(r, x) == |{v}| == 1;
    } else if x == w {
      CardinalityWithout(Neighbours(g, x), last);
    } else {
      assert Neighbours(r, x) == Neighbours(g, x);
    }
  }

  lemma OddGraphNeighbours(g: Graph, p: seq<nat>, v: nat, w: nat, x: nat)
    requires WellFormed(g) && IsChain(g, p, v, w) && v != w && x in g.live && x !in p[1..]
    ensures WellFormed(OddGraph(g, p, w))
    ensures x == p[0] ==> Neighbours(OddGraph(g, p, w), x) == {v, w}
    ensures x != p[0] && x != w ==> Neighbours(OddGraph(g, p, w), x) == Neighbours(g, x)
    ensures Degree(OddGraph(g, p, w), x) == Degree(g, x)
  {
    if |p| > 1 {
      var r := RemoveSet(g, Members(p[1..]));
      OddEdgeIsNew(g, p, v, w);
      WellFormedWithEdge(r, p[0], w);
      NeighboursWithoutTail(g, p, v, w, x);
      EdgeRestores(g, r, p[0], v, w, p[|p| - 1], x);
    } else {
      ChainNeighbours(g, p, v, w, 0);
    }
  }

  lemma EvenEdgeIsNew(g: Graph, p: seq<nat>, v: nat, w: nat)
    requires WellFormed(g) && IsChain(g, p, v, w) && v != w
    ensures var r := RemoveSet(g, Members(p));
      && WellFormed(r) && v in r.live && w in r.live
      && (Adjacent(r, v, w) <==> Adjacent(g, v, w))
  {
    WellFormedRemoveSet(g, Members(p));
  }

  lemma EvenGraphNeighbours(g: Graph, p: seq<nat>, v: nat, w: nat, x: nat)
    requires WellFormed(g) && IsChain(g, p, v, w) && v != w && x in g.live && x !in p
    ensures WellFormed(EvenGraph(g, p, v, w))
    ensures x != v && x != w ==> Neighbours(EvenGraph(g, p, v, w), x) == Neighbours(g, x)
    ensures Degree(EvenGraph(g, p, v, w), x)
         == Degree(g, x) - (if (x == v || x == w) && Adjacent(g, v, w) then 1 else 0)
  {
    var r := RemoveSet(g, Members(p));
    EvenEdgeIsNew(g, p, v, w);
    NeighboursWithoutChain(g, p, v, w, x);
    CardinalityWithout(Neighbours(g, x), if x == v then p[0] else p[|p| - 1]);
    if !Adjacent(g, v, w) {
      WellFormedWithEdge(r, v, w);
      NeighboursWithEdge(r, v, w, x);
    }
  }

  // ---------- one chain step on the solver ----------

  /** The vertices of s last to first. */
  ghost function Reversed(s: seq<nat>): seq<nat> {
    if s == [] then [] else [s[|s| - 1]] + Reversed(s[..|s| - 1])
  }

  ghost function PopTwo(m: Solver, u: nat): Solver {
    m.(two := m.two - {u})
  }

  /** An odd chain shortened to its first vertex; the others are stacked. */
  ghost function Shortened(m: Solver, p: seq<nat>, w: nat): Solver
    requires |p| >= 1 && p[0] in m.g.adj && w in m.g.adj && p[0] != w
  {
    m.(g := OddGraph(m.g, p, w), two := m.two - Members(p[1..]), stack := m.stack + Reversed(p[1..]))
  }

  /** An even chain replaced by an edge and stacked. */
  ghost function Replaced(m: Solver, p: seq<nat>, v: nat, w: nat): Solver
    requires v in m.g.adj && w in m.g.adj && v != w
  {
    m.(g := EvenGraph(m.g, p, v, w), two := m.two - Members(p), stack := m.stack + Reversed(p))
  }

  /** What degreeTwoPathReduction does once it has the chain p and its ends v and w. */
  ghost function Contracted(m: Solver, p: seq<nat>, v: nat, w: nat): Solver
    requires |p| >= 1 && p[0] in m.g.adj && v in m.g.adj && w in m.g.adj && p[0] != w
  {
    if v == w then Deleted(m, v)
    else if |p| % 2 == 0 then Replaced(m, p, v, w)
    else if Adjacent(m.g, v, w) then Deleted(Deleted(m, v), w)
    else Shortened(m, p, w)
  }

  /** degreeTwoPathReduction on a chain p that contains the popped vertex u and ends at v and w. */
  ghost function ChainStep(m: Solver, u: nat, p: seq<nat>, v: nat, w: nat): Solver
    requires |p| >= 1 && p[0] in m.g.adj && v in m.g.adj && w in m.g.adj && p[0] != w
  {
    Contracted(PopTwo(m, u), p, v, w)
  }

  /** The branch that leaves an end stale: the chain is even, its ends are already adjacent, and one
      of them has degree three. */
  ghost predicate LeavesStale(g: Graph, p: seq<nat>, v: nat, w: nat) {
    && v != w && |p| % 2 == 0 && Adjacent(g, v, w)
    && (Degree(g, v) == 3 || Degree(g, w) == 3)
  }
}
