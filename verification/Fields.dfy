/** The degree fields a conflict graph stores with its vertices: what adding an edge and removing a vertex do
    to them in any state, and when they count what they are meant to count. */
module Fields {
  import opened Graphs

  /** Degree fields, those of deleted vertices included. The source's uint wraps around below zero; here
      such a field is negative, and Unsigned gives the number the source sees. */
  type Degrees = map<nat, int>

  const WRAP: int := 0x1_0000_0000_0000_0000

  function Unsigned(d: int): int {
    if d < 0 then d + WRAP else d
  }

  /** What a uint field holds that has been counted down to d: the number between zero and WRAP that differs from d
      by a multiple of WRAP. */
  lemma UnsignedWraps(d: int)
    requires -WRAP <= d < WRAP
    ensures 0 <= Unsigned(d) < WRAP && Unsigned(d) % WRAP == d % WRAP
  {
  }

  function FieldOf(deg: Degrees, x: nat): int {
    if x in deg then deg[x] else 0
  }

  function Changed(deg: Degrees, x: nat, d: int): Degrees {
    if x in deg then deg[x := deg[x] + d] else deg
  }

  /** Every neighbour that is listed is a vertex. */
  ghost predicate Known(g: Graph) {
    forall x, y :: Adjacent(g, x, y) ==> y in g.adj
  }

  lemma KnownSame(g: Graph, h: Graph)
    requires Known(g) && h.adj == g.adj
    ensures Known(h)
  {
    forall x, y | Adjacent(h, x, y) ensures y in h.adj {
      assert Adjacent(g, x, y);
    }
  }

  ghost function Listed(g: Graph, x: nat): seq<nat> {
    if x in g.adj then g.adj[x] else []
  }

  /** RemoveVertex's loop over ys: whatever is not marked deleted loses one. */
  ghost function Lowered(g: Graph, deg: Degrees, ys: seq<nat>): Degrees {
    if ys == [] then deg
    else
      var before, y := Lowered(g, deg, ys[..|ys| - 1]), ys[|ys| - 1];
      if y in g.live then Changed(before, y, -1) else before
  }

  /** The two appends of AddEdge. */
  ghost function Joined(g: Graph, a: nat, b: nat): Graph {
    var h := g.(adj := g.adj[a := Listed(g, a) + [b]]);
    h.(adj := h.adj[b := Listed(h, b) + [a]])
  }

  /** Each is listed for the other once more, a vertex joined to itself twice for itself, and no list is changed
      otherwise. */
  lemma JoinedLists(g: Graph, a: nat, b: nat)
    ensures a != b ==> Listed(Joined(g, a, b), a) == Listed(g, a) + [b]
    ensures a != b ==> Listed(Joined(g, a, b), b) == Listed(g, b) + [a]
    ensures a == b ==> Listed(Joined(g, a, b), a) == Listed(g, a) + [a, a]
    ensures forall x :: x != a && x != b ==> Listed(Joined(g, a, b), x) == Listed(g, x)
  {
    assert Listed(g, a) + [a] + [a] == Listed(g, a) + [a, a];
  }

  ghost predicate HasLiveEdge(g: Graph, a: nat, b: nat) {
    a in g.live && b in g.live && Adjacent(g, a, b)
  }

  ghost function RaisedBoth(deg: Degrees, a: nat, b: nat): Degrees {
    Changed(Changed(deg, a, 1), b, 1)
  }

  /** A well-formed graph whose live vertices' fields count their live neighbours. */
  ghost predicate Fit(g: Graph, deg: Degrees) {
    && WellFormed(g) && deg.Keys == g.adj.Keys
    && (forall y :: y in g.live ==> FieldOf(deg, y) == Degree(g, y))
  }

  /** Deleted vertices keep their fields. */
  ghost predicate DeadKept(live: set<nat>, deg: Degrees, deg': Degrees) {
    deg.Keys == deg'.Keys && forall y :: y in deg && y !in live ==> deg'[y] == deg[y]
  }

  /** Whatever the list, repetitions included: a vertex not marked loses one for each time it is listed. */
  lemma {:induction false} LoweredCounts(g: Graph, deg: Degrees, ys: seq<nat>, y: nat)
    requires y in deg
    ensures y in Lowered(g, deg, ys)
    ensures Lowered(g, deg, ys)[y] == deg[y] - (if y in g.live then multiset(ys)[y] else 0)
  {
    if ys != [] {
      LoweredCounts(g, deg, ys[..|ys| - 1], y);
      assert ys == ys[..|ys| - 1] + [ys[|ys| - 1]];
    }
  }

  lemma {:induction false} LoweredIs(g: Graph, deg: Degrees, ys: seq<nat>)
    requires Distinct(ys)
    ensures Lowered(g, deg, ys).Keys == deg.Keys
    ensures forall y :: y in deg ==>
      Lowered(g, deg, ys)[y] == deg[y] - (if y in ys && y in g.live then 1 else 0)
  {
    if ys != [] {
      LoweredIs(g, deg, ys[..|ys| - 1]);
      assert ys == ys[..|ys| - 1] + [ys[|ys| - 1]];
    }
  }

  /** RemoveVertex keeps the fields right, and leaves those of deleted vertices alone. */
  lemma RemoveFits(g: Graph, deg: Degrees, x: nat)
    requires Fit(g, deg) && x in g.live
    ensures var h := Without(g, x);
      Fit(h, Lowered(h, deg, g.adj[x])) && DeadKept(h.live, deg, Lowered(h, deg, g.adj[x]))
  {
    var h := Without(g, x);
    WellFormedWithout(g, x);
    LoweredIs(h, deg, g.adj[x]);
    forall y | y in h.live
      ensures FieldOf(Lowered(h, deg, g.adj[x]), y) == Degree(h, y)
    {
      NeighboursWithout(g, x, y);
      assert y in g.adj[x] <==> Adjacent(g, x, y);
    }
  }

  /** Both fields go up by one, that of a vertex joined to itself by two. */
  lemma RaisedFields(deg: Degrees, a: nat, b: nat)
    ensures RaisedBoth(deg, a, b).Keys == deg.Keys
    ensures forall y :: y in deg ==>
      RaisedBoth(deg, a, b)[y] == deg[y] + (if y == a then 1 else 0) + (if y == b then 1 else 0)
  {
  }

  /** AddEdge keeps the fields right between live vertices, and leaves those of deleted vertices alone. */
  lemma JoinFits(g: Graph, deg: Degrees, a: nat, b: nat)
    requires Fit(g, deg) && a in g.live && b in g.live && a != b && !Adjacent(g, a, b)
    ensures Joined(g, a, b) == WithEdge(g, a, b)
    ensures Fit(Joined(g, a, b), RaisedBoth(deg, a, b)) && DeadKept(g.live, deg, RaisedBoth(deg, a, b))
  {
    WellFormedWithEdge(g, a, b);
    RaisedFields(deg, a, b);
    forall y | y in g.live
      ensures FieldOf(RaisedBoth(deg, a, b), y) == Degree(WithEdge(g, a, b), y)
    {
      NeighboursWithEdge(g, a, b, y);
    }
  }
}
