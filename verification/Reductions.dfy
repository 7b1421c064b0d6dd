/** The reduce-and-peel solver as a value: its buckets, what one deletion does to them, and the
    invariant that makes every vertex left alive at the end a member of the independent set. */
module Reductions {
  import opened Graphs
  import opened Reachability

  /** one, two, three: VerticesOne, VerticesTwo, VerticesGreaterThanThree; chosen: IndependentSet. */
  datatype Solver = Solver(g: Graph, one: set<nat>, two: set<nat>, three: set<nat>,
                           chosen: set<nat>, stack: seq<nat>)

  ghost function AtLeastThree(g: Graph): set<nat> {
    set x | x in g.live && Degree(g, x) >= 3
  }

  /** C is a union of whole live components in which every vertex has degree two. */
  ghost predicate TwoOnly(g: Graph, C: set<nat>) {
    C != {} && C <= OfDegree(g, 2) && Closed(g, g.live, C)
  }

  /** Every live component made only of degree-two vertices keeps a member in VerticesTwo. */
  ghost predicate TwosCovered(g: Graph, two: set<nat>) {
    forall C :: TwoOnly(g, C) ==> C * two != {}
  }

  /** Of the live vertices exactly the isolated ones are chosen; a chosen vertex that is no longer
      live never had an edge. */
  ghost predicate ChosenRight(g: Graph, chosen: set<nat>) {
    && (forall x :: x in g.live ==> (x in chosen <==> Degree(g, x) == 0))
    && (forall x :: x in chosen && x !in g.live ==> x in g.adj && g.adj[x] == [])
  }

  /** Stacked vertices are deleted and have a neighbour, deleted or not. */
  ghost predicate StackDead(g: Graph, stack: seq<nat>) {
    forall x :: x in stack ==> x in g.adj && x !in g.live && g.adj[x] != []
  }

  /** The buckets never miss a vertex of degree one or of degree three and more. */
  ghost predicate Sound(m: Solver) {
    && WellFormed(m.g)
    && m.one == OfDegree(m.g, 1)
    && m.two <= OfDegree(m.g, 2)
    && AtLeastThree(m.g) <= m.three
    && ChosenRight(m.g, m.chosen)
    && StackDead(m.g, m.stack)
  }

  /** The solver's invariant: no bucket holds a stale vertex, and no all-two component is lost. */
  ghost predicate Tight(m: Solver) {
    && Sound(m)
    && m.three == AtLeastThree(m.g)
    && TwosCovered(m.g, m.two)
  }

  // ---------- deleting one vertex ----------

  ghost function NowOf(g: Graph, ys: set<nat>, d: nat): set<nat> {
    set y | y in ys && Degree(g, y) == d
  }

  /** Part of deleteVertex: id is marked and out of its bucket, and the neighbours in ys have moved
      down one degree. */
  ghost function PartlyDeleted(m: Solver, id: nat, ys: set<nat>): Solver {
    var h := Without(m.g, id);
    var d := Degree(m.g, id);
    Solver(h,
      m.one - (if d == 1 then {id} else {}) - NowOf(h, ys, 0) + NowOf(h, ys, 1),
      m.two - (if d == 2 then {id} else {}) - NowOf(h, ys, 1) + NowOf(h, ys, 2),
      m.three - (if d == 1 || d == 2 then {} else {id}) - NowOf(h, ys, 2),
      m.chosen + NowOf(h, ys, 0),
      m.stack)
  }

  /** deleteVertex: the vertex leaves its bucket and each live neighbour moves down one degree. */
  ghost function Deleted(m: Solver, id: nat): Solver {
    PartlyDeleted(m, id, Neighbours(m.g, id))
  }

  /** A neighbour whose degree has just become d changes bucket. */
  ghost function Moved(m: Solver, y: nat, d: int): Solver {
    if d == 0 then m.(chosen := m.chosen + {y}, one := m.one - {y})
    else if d == 1 then m.(one := m.one + {y}, two := m.two - {y})
    else if d == 2 then m.(two := m.two + {y}, three := m.three - {y})
    else m
  }


  lemma NowOfWith(h: Graph, ys: set<nat>, y: nat, d: nat)
    requires y !in ys
    ensures y !in NowOf(h, ys, d)
    ensures NowOf(h, ys + {y}, d) == if Degree(h, y) == d then NowOf(h, ys, d) + {y} else NowOf(h, ys, d)
  {
  }

  lemma TakenOut(bucket: set<nat>, gone: set<nat>, come: set<nat>, y: nat)
    requires y !in come
    ensures bucket - (gone + {y}) + come == (bucket - gone + come) - {y}
    ensures bucket - (gone + {y}) == (bucket - gone) - {y}
    ensures bucket - gone + (come + {y}) == (bucket - gone + come) + {y}
    ensures bucket + (come + {y}) == (bucket + come) + {y}
  {
  }

  lemma MovedIsPartlyDeleted(m: Solver, id: nat, ys: set<nat>, y: nat)
    requires y !in ys
    ensures Moved(PartlyDeleted(m, id, ys), y, Degree(Without(m.g, id), y)) == PartlyDeleted(m, id, ys + {y})
  {
    var h := Without(m.g, id);
    var d := Degree(m.g, id);
    var zero, one, two := NowOf(h, ys, 0), NowOf(h, ys, 1), NowOf(h, ys, 2);
    NowOfWith(h, ys, y, 0);
    NowOfWith(h, ys, y, 1);
    NowOfWith(h, ys, y, 2);
    TakenOut(m.one - (if d == 1 then {id} else {}), zero, one, y);
    TakenOut(m.two - (if d == 2 then {id} else {}), one, two, y);
    TakenOut(m.three - (if d == 1 || d == 2 then {} else {id}), two, {}, y);
    TakenOut(m.chosen, {}, zero, y);
  }

  lemma DegreeWithout(g: Graph, id: nat, y: nat)
    requires WellFormed(g) && id in g.live && y in g.live
    ensures Degree(Without(g, id), y) == Degree(g, y) - (if y in Neighbours(g, id) then 1 else 0)
  {
    NeighboursWithout(g, id, y);
    assert id in Neighbours(g, y) <==> y in Neighbours(g, id);
  }

  lemma DegreesWithout(g: Graph, id: nat)
    requires WellFormed(g) && id in g.live
    ensures forall y :: y in g.live ==>
      Degree(Without(g, id), y) == Degree(g, y) - (if y in Neighbours(g, id) then 1 else 0)
  {
    forall y | y in g.live { DegreeWithout(g, id, y); }
  }

  lemma DeleteBucketOne(m: Solver, id: nat)
    requires WellFormed(m.g) && id in m.g.live && m.one == OfDegree(m.g, 1)
    ensures Deleted(m, id).one == OfDegree(Without(m.g, id), 1)
  {
    DegreesWithout(m.g, id);
  }

  lemma DeleteBucketTwo(m: Solver, id: nat)
    requires WellFormed(m.g) && id in m.g.live && m.two <= OfDegree(m.g, 2)
    ensures Deleted(m, id).two <= OfDegree(Without(m.g, id), 2)
  {
    DegreesWithout(m.g, id);
  }

  lemma DeleteBucketThree(m: Solver, id: nat)
    requires WellFormed(m.g) && id in m.g.live && AtLeastThree(m.g) <= m.three
    ensures AtLeastThree(Without(m.g, id)) <= Deleted(m, id).three
    ensures m.three == AtLeastThree(m.g) ==> Deleted(m, id).three == AtLeastThree(Without(m.g, id))
  {
    DegreesWithout(m.g, id);
  }

  lemma DeleteChosen(m: Solver, id: nat)
    requires WellFormed(m.g) && id in m.g.live && Degree(m.g, id) > 0 && ChosenRight(m.g, m.chosen)
    ensures ChosenRight(Without(m.g, id), Deleted(m, id).chosen)
  {
    DegreesWithout(m.g, id);
  }

  lemma DeleteKeepsSound(m: Solver, id: nat)
    requires Sound(m) && id in m.g.live && Degree(m.g, id) > 0
    ensures Sound(Deleted(m, id))
  {
    WellFormedWithout(m.g, id);
    DeleteBucketOne(m, id);
    DeleteBucketTwo(m, id);
    DeleteBucketThree(m, id);
    DeleteChosen(m, id);
  }

  lemma DeleteKeepsCovered(m: Solver, id: nat)
    requires WellFormed(m.g) && id in m.g.live && TwosCovered(m.g, m.two)
    ensures TwosCovered(Without(m.g, id), Deleted(m, id).two)
  {
    var h := Without(m.g, id);
    forall C | TwoOnly(h, C)
      ensures C * Deleted(m, id).two != {}
    {
      DeleteCoversOne(m, id, C);
    }
  }

  /** Either deleting id made a member of C reach degree two, or C was all-two before. */
  lemma DeleteCoversOne(m: Solver, id: nat, C: set<nat>)
    requires WellFormed(m.g) && id in m.g.live && TwosCovered(m.g, m.two)
    requires TwoOnly(Without(m.g, id), C)
    ensures C * Deleted(m, id).two != {}
  {
    var ys := Neighbours(m.g, id);
    var two := Deleted(m, id).two;
    if C !! ys {
      var t := UntouchedMember(m.g, m.two, id, C);
      InDeletedTwo(m, id, t);
      assert t in C * two;
    } else {
      var t :| t in C && t in ys;
      InDeletedTwo(m, id, t);
      assert t in C * two;
    }
  }

  lemma UntouchedMember(g: Graph, two: set<nat>, id: nat, C: set<nat>) returns (t: nat)
    requires WellFormed(g) && id in g.live && TwosCovered(g, two)
    requires TwoOnly(Without(g, id), C) && C !! Neighbours(g, id)
    ensures t in C && t in two
  {
    UntouchedTwoOnly(g, id, C);
    t := CoveredMember(g, two, C);
  }

  lemma CoveredMember(g: Graph, two: set<nat>, C: set<nat>) returns (t: nat)
    requires TwosCovered(g, two) && TwoOnly(g, C)
    ensures t in C && t in two
  {
    assert C * two != {};
    t :| t in C * two;
  }

  lemma InDeletedTwo(m: Solver, id: nat, t: nat)
    requires t in Without(m.g, id).live
    requires t in Neighbours(m.g, id) ==> t in OfDegree(Without(m.g, id), 2)
    requires t !in Neighbours(m.g, id) ==> t in m.two
    ensures t in Deleted(m, id).two
  {
  }

  lemma UntouchedTwoOnly(g: Graph, id: nat, C: set<nat>)
    requires WellFormed(g) && id in g.live && TwoOnly(Without(g, id), C)
    requires C !! Neighbours(g, id)
    ensures TwoOnly(g, C)
  {
    var h := Without(g, id);
    forall x | x in C
      ensures x in OfDegree(g, 2)
    {
      DegreeWithout(g, id, x);
    }
    forall x, y | x in C && Adjacent(g, x, y) && y in g.live
      ensures y in C
    {
      assert Adjacent(g, y, x);
      assert Adjacent(h, x, y);
    }
  }

  /** Deleting any live vertex that is not isolated keeps the invariant. */
  lemma DeleteKeepsTight(m: Solver, id: nat)
    requires Tight(m) && id in m.g.live && Degree(m.g, id) > 0
    ensures Tight(Deleted(m, id))
  {
    DeleteKeepsSound(m, id);
    DeleteBucketThree(m, id);
    DeleteKeepsCovered(m, id);
  }

  // ---------- the start ----------

  /** NewSolution: isolated vertices are chosen and deleted at once, the others go to their buckets. */
  ghost function Initial(g: Graph): Solver {
    Solver(RemoveSet(g, OfDegree(g, 0)), OfDegree(g, 1), OfDegree(g, 2), AtLeastThree(g), OfDegree(g, 0), [])
  }

  lemma IsolatedGone(g: Graph, gone: set<nat>, x: nat)
    requires WellFormed(g) && gone <= OfDegree(g, 0) && x in g.live
    ensures Neighbours(RemoveSet(g, gone), x) == Neighbours(g, x)
  {
    NeighboursRemoveSet(g, gone, x);
    forall y | y in Neighbours(g, x)
      ensures y !in gone
    {
      NeighboursSymmetric(g, x, y);
      assert Neighbours(g, y) != {};
    }
  }

  lemma InitialTight(g: Graph)
    requires WellFormed(g) && g.live == g.adj.Keys
    ensures Tight(Initial(g))
  {
    var m := Initial(g);
    WellFormedRemoveSet(g, OfDegree(g, 0));
    forall x | x in g.live
      ensures Neighbours(m.g, x) == Neighbours(g, x)
    {
      IsolatedGone(g, OfDegree(g, 0), x);
    }
    assert m.two == OfDegree(m.g, 2);
    AllTwosCovered(m.g);
    forall x | x in m.chosen
      ensures g.adj[x] == []
    {
      ListedAreNeighbours(g, x);
    }
  }

  lemma ListedAreNeighbours(g: Graph, x: nat)
    requires WellFormed(g) && g.live == g.adj.Keys && x in g.adj
    ensures g.adj[x] != [] ==> g.adj[x][0] in Neighbours(g, x)
  {
    if g.adj[x] != [] {
      assert Adjacent(g, x, g.adj[x][0]) && Adjacent(g, g.adj[x][0], x);
    }
  }

  lemma AllTwosCovered(g: Graph)
    ensures TwosCovered(g, OfDegree(g, 2))
  {
  }
}
