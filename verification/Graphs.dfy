/** The conflict graph as a value: who is adjacent to whom, and which vertices are still live
    (not marked deleted). Both graph classes and the independent-set solver are specified by it. */
module Graphs {

  /** `adj` keeps deleted vertices and their edges; `live` holds the vertices not marked deleted. */
  datatype Graph = Graph(adj: map<nat, seq<nat>>, live: set<nat>)

  ghost predicate Adjacent(g: Graph, x: nat, y: nat) {
    x in g.adj && y in g.adj[x]
  }

  /** Adjacency is symmetric, irreflexive and listed without repetition; only known vertices are live. */
  ghost predicate WellFormed(g: Graph) {
    && g.live <= g.adj.Keys
    && (forall x, y :: Adjacent(g, x, y) ==> x != y && Adjacent(g, y, x))
    && (forall x :: x in g.adj ==> Distinct(g.adj[x]))
  }

  /** The live neighbours of x. */
  ghost function Neighbours(g: Graph, x: nat): set<nat> {
    set y | y in g.live && Adjacent(g, x, y)
  }

  ghost function Degree(g: Graph, x: nat): nat {
    |Neighbours(g, x)|
  }

  ghost function OfDegree(g: Graph, d: nat): set<nat> {
    set x | x in g.live && Degree(g, x) == d
  }

  /** No two members of s are joined by an edge, deleted endpoints included. */
  ghost predicate Independent(adj: map<nat, seq<nat>>, s: set<nat>) {
    forall x, y :: x in s && y in s && x in adj ==> y !in adj[x]
  }

  /** Same vertices, and every edge of g is an edge of h. */
  ghost predicate EdgesGrow(g: Graph, h: Graph) {
    && g.adj.Keys == h.adj.Keys
    && (forall x, y :: Adjacent(g, x, y) ==> Adjacent(h, x, y))
  }

  /** No vertex occurs twice in s. */
  ghost predicate Distinct(s: seq<nat>) {
    |s| == 0 || (s[|s| - 1] !in s[..|s| - 1] && Distinct(s[..|s| - 1]))
  }

  ghost function WithVertex(g: Graph, x: nat): Graph {
    Graph(g.adj[x := []], g.live + {x})
  }

  ghost function Without(g: Graph, x: nat): Graph {
    g.(live := g.live - {x})
  }

  /** g with every vertex of s marked deleted. */
  ghost function RemoveSet(g: Graph, s: set<nat>): Graph {
    g.(live := g.live - s)
  }

  ghost function WithEdge(g: Graph, x: nat, y: nat): Graph
    requires x in g.adj && y in g.adj && x != y
  {
    g.(adj := g.adj[x := g.adj[x] + [y]][y := g.adj[y] + [x]])
  }

  /** h is g restricted to its live vertices, edges between them included. */
  ghost predicate InducedCopy(g: Graph, h: Graph) {
    && h.adj.Keys == g.live
    && h.live == g.live
    && (forall x, y :: Adjacent(h, x, y) <==> x in g.live && y in g.live && Adjacent(g, x, y))
  }

  ghost predicate NoEdges(g: Graph) {
    forall x, y :: !Adjacent(g, x, y)
  }

  /** A copy under construction: the right vertices, and no edge that g lacks. */
  ghost predicate PartialCopy(g: Graph, h: Graph) {
    && h.adj.Keys == g.live
    && h.live == g.live
    && (forall x, y :: Adjacent(h, x, y) ==> Adjacent(g, x, y))
  }

  /** Every edge of g from x to a live member of ys is already in h. */
  ghost predicate EdgesCopied(g: Graph, h: Graph, x: nat, ys: seq<nat>) {
    forall y :: y in ys && y in g.live ==> Adjacent(h, x, y)
  }

  /** The copy holds every edge of every vertex outside todo. */
  ghost predicate CopiedExcept(g: Graph, h: Graph, todo: set<nat>) {
    && PartialCopy(g, h)
    && (forall x :: x in g.live - todo ==> x in g.adj && EdgesCopied(g, h, x, g.adj[x]))
  }

  /** From h0 the copy has gained the edges to the first i neighbours of id. */
  ghost predicate CopyingRow(g: Graph, h0: Graph, h: Graph, id: nat, i: nat) {
    && PartialCopy(g, h) && EdgesGrow(h0, h)
    && id in g.adj && i <= |g.adj[id]| && EdgesCopied(g, h, id, g.adj[id][..i])
  }

  // ---------- small facts about neighbours ----------

  lemma DistinctAppend(s: seq<nat>, x: nat)
    requires Distinct(s) && x !in s
    ensures Distinct(s + [x])
  {
  }

  lemma {:induction false} DistinctAt(s: seq<nat>, i: nat)
    requires Distinct(s) && i < |s|
    ensures s[i] !in s[..i]
  {
    if i < |s| - 1 {
      DistinctAt(s[..|s| - 1], i);
      assert s[..|s| - 1][..i] == s[..i];
    }
  }

  lemma DistinctPairwise(p: seq<nat>)
    requires Distinct(p)
    ensures forall i, j :: 0 <= i < j < |p| ==> p[i] != p[j]
  {
  }

  lemma RowsDistinct(a: nat, b: nat, c: nat)
    requires a != b && a != c && b != c
    ensures Distinct([a, b]) && Distinct([b, a]) && Distinct([a, b, c])
  {
    DistinctAppend([a], b);
    DistinctAppend([b], a);
    DistinctAppend([a, b], c);
    assert [a, b] + [c] == [a, b, c] && [a] + [b] == [a, b] && [b] + [a] == [b, a];
  }

  lemma CardinalityWithout(s: set<nat>, x: nat)
    ensures |s - {x}| == |s| - (if x in s then 1 else 0)
  {
  }

  lemma NeighboursWithout(g: Graph, id: nat, y: nat)
    ensures Neighbours(Without(g, id), y) == Neighbours(g, y) - {id}
    ensures Degree(Without(g, id), y) == Degree(g, y) - (if id in Neighbours(g, y) then 1 else 0)
  {
  }

  lemma WellFormedWithout(g: Graph, id: nat)
    requires WellFormed(g)
    ensures WellFormed(Without(g, id))
  {
    forall x, y | Adjacent(Without(g, id), x, y)
      ensures x != y && Adjacent(Without(g, id), y, x)
    {
      assert Adjacent(g, x, y);
      assert Adjacent(g, y, x);
    }
  }

  lemma WellFormedWithVertex(g: Graph, id: nat)
    requires WellFormed(g) && id !in g.adj
    ensures WellFormed(WithVertex(g, id))
    ensures forall x :: Degree(WithVertex(g, id), x) == Degree(g, x)
    ensures Degree(g, id) == 0
  {
    var h := WithVertex(g, id);
    forall x, y
      ensures Adjacent(h, x, y) <==> Adjacent(g, x, y)
      ensures Adjacent(g, x, y) ==> y != id
    {
      assert Adjacent(g, x, y) ==> Adjacent(g, y, x);
    }
    forall x
      ensures Neighbours(h, x) == Neighbours(g, x)
    {
      assert forall y :: y in Neighbours(h, x) <==> y in Neighbours(g, x);
    }
    assert Neighbours(g, id) == {};
  }

  lemma AdjacentWithEdge(g: Graph, a: nat, b: nat, x: nat, y: nat)
    requires a in g.adj && b in g.adj && a != b
    ensures Adjacent(WithEdge(g, a, b), x, y)
       <==> Adjacent(g, x, y) || (x == a && y == b) || (x == b && y == a)
  {
  }

  lemma WellFormedWithEdge(g: Graph, a: nat, b: nat)
    requires WellFormed(g) && a in g.adj && b in g.adj && a != b && !Adjacent(g, a, b)
    ensures WellFormed(WithEdge(g, a, b))
  {
    var h := WithEdge(g, a, b);
    assert !Adjacent(g, b, a);
    DistinctAppend(g.adj[a], b);
    DistinctAppend(g.adj[b], a);
    forall x, y | Adjacent(h, x, y)
      ensures x != y && Adjacent(h, y, x)
    {
      AdjacentWithEdge(g, a, b, x, y);
      AdjacentWithEdge(g, a, b, y, x);
    }
  }

  lemma NeighboursWithEdge(g: Graph, a: nat, b: nat, y: nat)
    requires WellFormed(g) && a in g.live && b in g.live && a != b && !Adjacent(g, a, b)
    ensures Neighbours(WithEdge(g, a, b), y)
         == Neighbours(g, y) + (if y == a then {b} else if y == b then {a} else {})
    ensures Degree(WithEdge(g, a, b), y) == Degree(g, y) + (if y == a || y == b then 1 else 0)
  {
    var h := WithEdge(g, a, b);
    var extra := if y == a then {b} else if y == b then {a} else {};
    forall z
      ensures z in Neighbours(h, y) <==> z in Neighbours(g, y) + extra
    {
      AdjacentWithEdge(g, a, b, y, z);
    }
    assert Neighbours(h, y) == Neighbours(g, y) + extra;
    assert Neighbours(g, y) !! extra;
  }

  /** Live adjacency is symmetric. */
  lemma NeighboursSymmetric(g: Graph, x: nat, y: nat)
    requires WellFormed(g) && x in g.live && y in Neighbours(g, x)
    ensures x in Neighbours(g, y)
  {
  }

  lemma SingletonNeighbour(s: set<nat>, x: nat)
    requires |s| == 1 && x in s
    ensures s == {x}
  {
    CardinalityWithout(s, x);
    assert s - {x} == {};
  }

  lemma PairOfNeighbours(s: set<nat>, x: nat, y: nat)
    requires |s| == 2 && x in s && y in s && x != y
    ensures s == {x, y}
  {
    CardinalityWithout(s, x);
    SingletonNeighbour(s - {x}, y);
    assert s == (s - {x}) + {x};
  }

  lemma PartialCopyWithVertex(g: Graph, h: Graph, todo: set<nat>, id: nat)
    requires id in todo && id in g.live && WellFormed(h)
    requires h.adj.Keys == h.live == g.live - todo && NoEdges(h)
    ensures var h' := WithVertex(h, id);
      h'.adj.Keys == h'.live == g.live - (todo - {id}) && NoEdges(h')
  {
    var h' := WithVertex(h, id);
    forall x, y
      ensures !Adjacent(h', x, y)
    {
      assert !Adjacent(h, x, y);
    }
  }

  /** Looking at the next neighbour of id takes the copy from h1 to h2. */
  lemma CopyingRowStep(g: Graph, h0: Graph, h1: Graph, h2: Graph, id: nat, i: nat)
    requires WellFormed(g) && id in g.live && i < |g.adj[id]| && id != g.adj[id][i]
    requires CopyingRow(g, h0, h1, id, i)
    requires var y := g.adj[id][i];
      h2 == if y !in g.live || Adjacent(h1, id, y) then h1 else WithEdge(h1, id, y)
    ensures CopyingRow(g, h0, h2, id, i + 1)
  {
    var y := g.adj[id][i];
    assert g.adj[id][..i + 1] == g.adj[id][..i] + [y];
    if h2 != h1 {
      assert Adjacent(g, id, y) && Adjacent(g, y, id);
      forall a, b { AdjacentWithEdge(h1, id, y, a, b); }
    }
  }

  lemma RowCopied(g: Graph, h0: Graph, h: Graph, todo: set<nat>, id: nat)
    requires id in g.adj && CopiedExcept(g, h0, todo) && CopyingRow(g, h0, h, id, |g.adj[id]|)
    ensures CopiedExcept(g, h, todo - {id})
  {
  }

  lemma CopyComplete(g: Graph, h: Graph)
    requires WellFormed(h) && CopiedExcept(g, h, {})
    ensures InducedCopy(g, h)
  {
  }

  lemma WellFormedRemoveSet(g: Graph, s: set<nat>)
    requires WellFormed(g)
    ensures WellFormed(RemoveSet(g, s))
  {
    forall x, y | Adjacent(RemoveSet(g, s), x, y)
      ensures x != y && Adjacent(RemoveSet(g, s), y, x)
    {
      assert Adjacent(g, x, y);
      assert Adjacent(g, y, x);
    }
  }

  lemma NeighboursRemoveSet(g: Graph, s: set<nat>, x: nat)
    ensures Neighbours(RemoveSet(g, s), x) == Neighbours(g, x) - s
  {
  }
}
