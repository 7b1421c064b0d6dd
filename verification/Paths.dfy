/** From the degree-two vertices reachable from one of them to a chain with two ends. */
module Paths {
  import opened Graphs
  import opened Reachability
  import opened Chains

  ghost predicate Consecutive(g: Graph, p: seq<nat>) {
    forall i :: 0 <= i < |p| - 1 ==> Adjacent(g, p[i], p[i + 1])
  }

  /** At most one vertex of S next to x is still unvisited. */
  ghost predicate OneWayOn(g: Graph, S: set<nat>, visited: set<nat>, x: nat) {
    forall a, b :: a in S - visited && b in S - visited && Adjacent(g, x, a) && Adjacent(g, x, b) ==> a == b
  }

  /** A degree-two vertex with one neighbour that does not count has one way on. */
  lemma OneWayOnFrom(g: Graph, S: set<nat>, visited: set<nat>, x: nat, seen: nat)
    requires WellFormed(g) && x in OfDegree(g, 2) && S <= g.live
    requires seen in Neighbours(g, x) && seen !in S - visited
    ensures OneWayOn(g, S, visited, x)
  {
    forall a, b | a in S - visited && b in S - visited && Adjacent(g, x, a) && Adjacent(g, x, b)
      ensures a == b
    {
      assert a in Neighbours(g, x) && b in Neighbours(g, x);
      PairOfNeighbours(Neighbours(g, x), seen, a);
    }
  }

  lemma OtherNeighbour(s: set<nat>, x: nat) returns (y: nat)
    requires |s| == 2 && x in s
    ensures y in s && y != x
  {
    CardinalityWithout(s, x);
    y :| y in s - {x};
  }

  /** p lists the component S of degree-two vertices in chain order, from an end of it. */
  ghost predicate IsPathOf(g: Graph, p: seq<nat>, S: set<nat>) {
    && |p| >= 1 && Distinct(p) && Members(p) == S && Consecutive(g, p)
    && Touches(g, p[0])
  }

  lemma {:induction false} Triple(s: set<nat>, a: nat, b: nat, c: nat)
    requires a in s && b in s && c in s && a != b && a != c && b != c
    ensures |s| >= 3
  {
    CardinalityWithout(s, a);
    CardinalityWithout(s - {a}, b);
    CardinalityWithout(s - {a} - {b}, c);
  }

  /** The neighbour of the last vertex that is not its predecessor lies outside the component. */
  lemma LastLeadsOut(g: Graph, p: seq<nat>, v: nat, S: set<nat>, q: nat)
    requires WellFormed(g) && IsPathOf(g, p, S) && S <= OfDegree(g, 2)
    requires v in Neighbours(g, p[0]) && v !in OfDegree(g, 2)
    requires q in Neighbours(g, p[|p| - 1]) && (|p| > 1 ==> q != p[|p| - 2])
    ensures q !in S
  {
    DistinctPairwise(p);
    var z := p[|p| - 1];
    if q in S {
      var j :| 0 <= j < |p| && p[j] == q;
      assert z in Members(p);
      NeighboursSymmetric(g, z, q);
      assert z in Neighbours(g, p[j]) && j < |p| - 2;
      assert p[j + 1] in S && p[j + 1] in Neighbours(g, p[j]);
      if j == 0 {
        Triple(Neighbours(g, q), v, p[1], z);
      } else {
        assert Adjacent(g, p[j - 1], p[j]);
        assert p[j - 1] in S && p[j - 1] in Neighbours(g, p[j]);
        Triple(Neighbours(g, q), p[j - 1], p[j + 1], z);
      }
    }
  }

  /** Such a path is a chain: both its ends touch a vertex that has not degree two. */
  lemma PathIsChain(g: Graph, p: seq<nat>, u: nat, S: set<nat>) returns (v: nat, w: nat)
    requires WellFormed(g) && IsComponent(g, OfDegree(g, 2), u, S) && IsPathOf(g, p, S)
    ensures IsChain(g, p, v, w)
  {
    v :| v in Neighbours(g, p[0]) && v !in OfDegree(g, 2);
    var z := p[|p| - 1];
    assert z in S;
    if |p| > 1 {
      assert Adjacent(g, p[|p| - 2], z);
      assert p[|p| - 2] in S;
      w := OtherNeighbour(Neighbours(g, z), p[|p| - 2]);
    } else {
      w := OtherNeighbour(Neighbours(g, z), v);
    }
    LastLeadsOut(g, p, v, S, w);
    assert w !in OfDegree(g, 2);
  }

  /** The ends of a chain are determined by it: any live neighbour of an end vertex that has not
      degree two is the end itself. */
  lemma EndsAreUnique(g: Graph, p: seq<nat>, v: nat, w: nat, x: nat)
    requires WellFormed(g) && IsChain(g, p, v, w) && x in g.live && x !in OfDegree(g, 2)
    ensures |p| > 1 && Adjacent(g, p[0], x) ==> x == v
    ensures |p| > 1 && Adjacent(g, p[|p| - 1], x) ==> x == w
    ensures |p| == 1 && Adjacent(g, p[0], x) ==> x == v || x == w
  {
    ChainNeighbours(g, p, v, w, 0);
    ChainNeighbours(g, p, v, w, |p| - 1);
    var e := Extended(p, v, w);
    assert e[0] == v && e[|p| + 1] == w;
    assert |p| > 1 ==> e[2] == p[1] && e[|p| - 1] == p[|p| - 2];
    assert Adjacent(g, p[0], x) ==> x in Neighbours(g, p[0]);
    assert Adjacent(g, p[|p| - 1], x) ==> x in Neighbours(g, p[|p| - 1]);
  }

  /** A search restricted to the component, from any member, visits all of it. */
  lemma SearchVisitsComponent(g: Graph, u: nat, S: set<nat>, st: nat, visited: set<nat>)
    requires WellFormed(g) && IsComponent(g, OfDegree(g, 2), u, S) && st in S
    requires Explored(g, S, st, {}, visited)
    ensures visited == S
  {
    ComponentOfMember(g, OfDegree(g, 2), u, S, st);
    assert Closed(g, OfDegree(g, 2), visited);
  }

  /** One more vertex in front of a chain-ordered list. */
  lemma ConsecutiveAfter(g: Graph, path: seq<nat>, x: nat, path': seq<nat>, n: nat)
    requires path + [x] <= path' && |path'| > |path| + 1 && path'[|path| + 1] == n
    requires Adjacent(g, x, n) && Consecutive(g, path'[|path| + 1..])
    ensures Consecutive(g, path'[|path|..])
  {
  }

  ghost predicate AllVisited(g: Graph, S: set<nat>, visited: set<nat>, x: nat) {
    forall y :: Adjacent(g, x, y) && y in S ==> y in visited
  }

  /** After the one way on from x has been followed to n, nothing next to x is left. */
  lemma OnlyWayTaken(g: Graph, S: set<nat>, before: set<nat>, after: set<nat>, x: nat, n: nat)
    requires OneWayOn(g, S, before, x) && before <= after
    requires Adjacent(g, x, n) && n in S && n !in before && n in after
    ensures AllVisited(g, S, after, x)
  {
  }

  /** x has a live neighbour that has not degree two. */
  ghost predicate Touches(g: Graph, x: nat) {
    exists y :: y in Neighbours(g, x) && y !in OfDegree(g, 2)
  }

  /** A component of degree-two vertices that is not a whole live component touches the rest. */
  lemma SomeTouches(g: Graph, u: nat, path: seq<nat>)
    requires IsComponent(g, OfDegree(g, 2), u, Members(path)) && !Closed(g, g.live, Members(path))
    ensures exists k :: 0 <= k < |path| && Touches(g, path[k])
  {
  }

  lemma OneWayOnFromEnd(g: Graph, S: set<nat>, st: nat)
    requires WellFormed(g) && S <= OfDegree(g, 2) && st in S && Touches(g, st)
    ensures OneWayOn(g, S, {}, st)
  {
    var y :| y in Neighbours(g, st) && y !in OfDegree(g, 2);
    OneWayOnFrom(g, S, {}, st, y);
  }
}
