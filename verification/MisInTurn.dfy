/** Splitting a conflict graph into groups by solving, removing and copying, over and over. */
module MisInTurn {
  import opened Endless
  import opened Fields
  import opened Graphs
  import opened LinearTimeSolver
  import opened Machines
  import opened NearLargest
  import opened Reachability
  import opened Reductions
  import opened UndirectedGraphs
  import opened Worklist

  /** Each vertex of V is in exactly one group, once. */
  ghost predicate Partition(groups: seq<seq<nat>>, V: set<nat>) {
    && Covers(groups, V)
    && (forall i :: 0 <= i < |groups| ==> Distinct(groups[i]))
    && (forall i, j :: 0 <= i < j < |groups| ==> Members(groups[i]) !! Members(groups[j]))
  }

  ghost predicate AllIndependent(adj: map<nat, seq<nat>>, groups: seq<seq<nat>>) {
    forall i :: 0 <= i < |groups| ==> Independent(adj, Members(groups[i]))
  }

  /** The rest of the graph still has every edge g0 has between its vertices. */
  ghost predicate KeepsEdges(g0: Graph, g: Graph) {
    forall x, y :: x in g.live && y in g.live && Adjacent(g0, x, y) ==> Adjacent(g, x, y)
  }

  lemma PartitionOneMore(groups: seq<seq<nat>>, V: set<nat>, c: seq<nat>, S: set<nat>)
    requires Partition(groups, V) && Distinct(c) && Members(c) == S && V !! S
    ensures Partition(groups + [c], V + S)
  {
    assert forall x :: x in c <==> x in Members(c);
    CoveredByOneMore(groups, V, c, V + S);
    var all := groups + [c];
    forall i, j | 0 <= i < j < |all|
      ensures Members(all[i]) !! Members(all[j])
    {
      if j == |groups| {
        GroupInside(groups, V, i);
      }
    }
  }

  lemma GroupInside(groups: seq<seq<nat>>, V: set<nat>, i: nat)
    requires Covers(groups, V) && i < |groups|
    ensures Members(groups[i]) <= V
  {
  }

  /** A set independent in a graph that kept g0's edges is independent in g0. */
  lemma IndependentEarlier(g0: Graph, g: Graph, S: set<nat>)
    requires KeepsEdges(g0, g) && S <= g.live && Independent(g.adj, S)
    ensures Independent(g0.adj, S)
  {
  }

  /** The members of a set in some order. */
  method ToSlice(s: set<nat>) returns (slice: seq<nat>)
    ensures Distinct(slice) && Members(slice) == s
  {
    slice := [];
    var todo := s;
    while todo != {}
      invariant todo <= s && Distinct(slice) && Members(slice) == s - todo
    {
      var x :| x in todo;
      assert x !in Members(slice);
      DistinctAppend(slice, x);
      MembersAppend(slice, x);
      slice := slice + [x];
      todo := todo - {x};
    }
  }

  /** Revives every vertex and sets its degree to the length of its neighbour list. */
  method ResetVertices(graph: UndirectedGraph)
    requires graph.Shaped()
    modifies graph`live, graph.vertices.Values
    ensures graph.Shaped() && graph.live == graph.vertices.Keys
    ensures forall id :: id in graph.vertices ==> graph.vertices[id].degree == |graph.adjacencyMap[id]|
  {
    var todo := graph.vertices.Keys;
    while todo != {}
      invariant todo <= graph.vertices.Keys && graph.Shaped()
      invariant graph.vertices.Keys - todo <= graph.live
      invariant forall id :: id in graph.vertices.Keys - todo ==>
        graph.vertices[id].degree == |graph.adjacencyMap[id]|
    {
      var id :| id in todo;
      ResetVertex(graph, id);
      todo := todo - {id};
    }
  }

  method ResetVertex(graph: UndirectedGraph, id: nat)
    requires graph.Shaped() && id in graph.vertices
    modifies graph`live, graph.vertices.Values
    ensures graph.Shaped() && graph.live == old(graph.live) + {id}
    ensures forall x :: x in graph.vertices ==>
      graph.vertices[x].degree == if x == id then |graph.adjacencyMap[id]| else old(graph.vertices[x].degree)
  {
    var v := graph.vertices[id];
    v.isDeleted := false;
    v.degree := |graph.adjacencyMap[v.txId]|;
    graph.live := graph.live + {id};
  }

  method MarkAll(graph: UndirectedGraph, slice: seq<nat>)
    requires graph.Shaped() && Members(slice) <= graph.vertices.Keys
    modifies graph`live, graph.vertices.Values
    ensures graph.Shaped() && graph.live == old(graph.live) - Members(slice)
  {
    ghost var live := graph.live;
    for i := 0 to |slice|
      invariant graph.Shaped() && graph.live == live - Members(slice[..i])
    {
      assert slice[i] in Members(slice);
      assert slice[..i + 1] == slice[..i] + [slice[i]];
      graph.vertices[slice[i]].isDeleted := true;
      graph.live := graph.live - {slice[i]};
    }
    assert slice[..|slice|] == slice;
  }

  ghost function DegreesOf(g: Graph): Degrees {
    map x | x in g.adj :: Degree(g, x)
  }

  /** The solver as NewSolution builds it over g. */
  ghost function StartOf(g: Graph): Machine {
    Start(g, DegreesOf(g))
  }

  /** A run of the solver's loop on g: to its end, or up to its first turn that leaves an end stale. */
  ghost predicate SolverRun(g: Graph, run: seq<Machine>, ends: bool) {
    && run != [] && run[0] == StartOf(g)
    && if ends then EndedRun(run) else StaleRun(run)
  }

  lemma StartOfIsClean(g: Graph)
    requires WellFormed(g) && g.live == g.adj.Keys && forall x :: x in g.live ==> x < MAX_UINT
    ensures Clean(StartOf(g)) && StartOf(g).m == Initial(g)
  {
    assert Fit(g, DegreesOf(g));
    StartIsClean(g, DegreesOf(g));
  }

  /** Once a run has gone stale, no turns it could still take lead to empty buckets. */
  lemma StaleNeverEnds(g: Graph, run: seq<Machine>, more: seq<Machine>)
    requires WellFormed(g) && g.live == g.adj.Keys && forall x :: x in g.live ==> x < MAX_UINT
    requires SolverRun(g, run, false) && FurtherTurns(more) && more[0] == run[|run| - 1]
    ensures forall i :: 0 <= i < |more| ==> !BucketsEmpty(more[i].m)
  {
    StartOfIsClean(g);
    NeverEndsAfter(run, more);
  }

  lemma SolvedNears(g: Graph, run: seq<Machine>)
    requires WellFormed(g) && g.live == g.adj.Keys && forall x :: x in g.live ==> x < MAX_UINT
    requires SolverRun(g, run, true)
    ensures Nears(g, run[|run| - 1].m.chosen, run)
  {
    AnswerNears(g, DegreesOf(g), run);
  }

  /** Solves a graph with all vertices live. The graph is left with its original edges and more. */
  method SolveGraph(graph: UndirectedGraph) returns (chosen: set<nat>, halts: bool, ghost run: seq<Machine>)
    requires graph.Valid() && graph.live == graph.vertices.Keys
    requires forall x :: x in graph.vertices ==> x < MAX_UINT
    modifies graph`live, graph`adjacencyMap, graph.vertices.Values
    ensures graph.Valid() && EdgesGrow(old(graph.View()), graph.View())
    ensures SolverRun(old(graph.View()), run, halts)
    ensures halts ==> chosen == run[|run| - 1].m.chosen
    ensures halts ==> chosen <= graph.vertices.Keys && Independent(graph.adjacencyMap, chosen)
    ensures halts && graph.vertices.Keys != {} ==> chosen != {}
    ensures halts ==> Nears(old(graph.View()), chosen, run)
  {
    ghost var g := graph.View();
    DegreesAre(graph);
    var solution := new LinearTime(graph);
    chosen, halts, run := RunSolver(solution, g);
    if halts {
      SolvedNears(g, run);
    }
  }

  /** The run of the freshly built solver. */
  method RunSolver(solution: LinearTime, ghost g: Graph)
    returns (chosen: set<nat>, halts: bool, ghost run: seq<Machine>)
    requires solution.graph.Shaped() && solution.State() == StartOf(g)
    requires WellFormed(g) && g.live == g.adj.Keys && forall x :: x in g.adj ==> x < MAX_UINT
    modifies solution, solution.graph`live, solution.graph`adjacencyMap, solution.graph.vertices.Values
    ensures solution.graph.Valid() && EdgesGrow(g, solution.graph.View()) && SolverRun(g, run, halts)
    ensures halts ==> chosen == run[|run| - 1].m.chosen && chosen <= g.adj.Keys
    ensures halts ==> Independent(solution.graph.adjacencyMap, chosen) && (g.live != {} ==> chosen != {})
  {
    StartOfIsClean(g);
    CleanHolds(StartOf(g));
    halts, run := solution.Solve();
    chosen := solution.independentSet;
    solution.graph.FitsIsValid();
    SolvedFromStart(g, run, solution.View(), halts);
  }

  lemma DegreesAre(graph: UndirectedGraph)
    requires graph.Valid() && graph.live == graph.vertices.Keys
    ensures graph.Degrees() == DegreesOf(graph.View()) && Known(graph.View())
  {
    graph.FitsIsValid();
    forall x | x in graph.vertices
      ensures graph.Degrees()[x] == Degree(graph.View(), x)
    {
      assert FieldOf(graph.Degrees(), x) == Degree(graph.View(), x);
    }
    forall x, y | Adjacent(graph.View(), x, y) ensures y in graph.adjacencyMap {
      assert Adjacent(graph.View(), y, x);
    }
  }

  lemma SolvedFromStart(g: Graph, run: seq<Machine>, m: Solver, halts: bool)
    requires run != [] && LeadsTo(Machine(Initial(g), DegreesOf(g)), run, run[|run| - 1], halts)
    requires m.g == run[|run| - 1].m.g && m.chosen == run[|run| - 1].m.chosen
    requires halts ==> m.g.live <= m.chosen
    ensures EdgesGrow(g, m.g)
    ensures halts ==> m.chosen <= m.g.adj.Keys
    ensures halts && g.live != {} ==> m.chosen != {}
  {
  }

  /** One round: the chosen set, and the graph of the others. */
  method OneRound(graph: UndirectedGraph)
    returns (slice: seq<nat>, rest: UndirectedGraph, halts: bool, ghost run: seq<Machine>)
    requires graph.Valid() && graph.live == graph.vertices.Keys
    requires forall x :: x in graph.vertices ==> x < MAX_UINT
    modifies graph`live, graph`adjacencyMap, graph.vertices.Values
    ensures SolverRun(old(graph.View()), run, halts)
    ensures halts ==> fresh(rest) && fresh(rest.vertices.Values) && rest.Valid()
    ensures halts ==> RoundDone(old(graph.View()), slice, rest.View()) && rest.live == rest.vertices.Keys
    ensures halts ==> Members(slice) == run[|run| - 1].m.chosen
  {
    rest := graph;
    slice := [];
    var chosen: set<nat>;
    ghost var g := graph.View();
    chosen, halts, run := SolveGraph(graph);
    if halts {
      slice, rest := SplitOff(graph, g, chosen);
    }
  }

  /** The part of a round that follows the solver. */
  method SplitOff(graph: UndirectedGraph, ghost g: Graph, chosen: set<nat>)
    returns (slice: seq<nat>, rest: UndirectedGraph)
    requires graph.Valid() && g.live == g.adj.Keys && EdgesGrow(g, graph.View())
    requires chosen <= graph.vertices.Keys && Independent(graph.adjacencyMap, chosen)
    requires graph.vertices.Keys != {} ==> chosen != {}
    modifies graph`live, graph.vertices.Values
    ensures fresh(rest) && fresh(rest.vertices.Values) && rest.Valid()
    ensures RoundDone(g, slice, rest.View()) && rest.live == rest.vertices.Keys && Members(slice) == chosen
  {
    slice := ToSlice(chosen);
    ghost var g1 := graph.View();
    ResetVertices(graph);
    MarkAll(graph, slice);
    ghost var g2 := graph.View();
    SameEdgesWellFormed(g1, g2);
    rest := graph.CopyGraphWithDeletion();
    RoundIsDone(g, g1, g2, slice, rest.View());
  }

  /** A round on g chose slice and left h: every vertex of g is in exactly one of the two. */
  ghost predicate RoundDone(g: Graph, slice: seq<nat>, h: Graph) {
    && h.live == g.live - Members(slice) && Distinct(slice) && Members(slice) <= g.live
    && (g.live != {} ==> slice != [])
    && Independent(g.adj, Members(slice))
    && KeepsEdges(g, h)
  }

  lemma SameEdgesWellFormed(g1: Graph, g2: Graph)
    requires WellFormed(g1) && g2.adj == g1.adj && g2.live <= g2.adj.Keys
    ensures WellFormed(g2)
  {
    forall x, y | Adjacent(g2, x, y)
      ensures x != y && Adjacent(g2, y, x)
    {
      assert Adjacent(g1, x, y) && Adjacent(g1, y, x);
    }
  }

  lemma RoundIsDone(g: Graph, g1: Graph, g2: Graph, slice: seq<nat>, h: Graph)
    requires g.live == g.adj.Keys && EdgesGrow(g, g1) && g2.adj == g1.adj
    requires Distinct(slice) && Members(slice) <= g.live && (g.live != {} ==> Members(slice) != {})
    requires Independent(g1.adj, Members(slice))
    requires g2.live == g.live - Members(slice) && InducedCopy(g2, h)
    ensures RoundDone(g, slice, h)
  {
    forall x, y | x in Members(slice) && y in Members(slice) && x in g.adj
      ensures y !in g.adj[x]
    {
      assert Adjacent(g, x, y) ==> Adjacent(g1, x, y);
    }
    forall x, y | x in h.live && y in h.live && Adjacent(g, x, y)
      ensures Adjacent(h, x, y)
    {
      assert Adjacent(g1, x, y);
      assert Adjacent(g2, x, y);
    }
  }

  /** One round of solveMISInTurn: the graph it is given, and the run of the solver on it. */
  datatype SolverRound = SolverRound(g: Graph, run: seq<Machine>)

  /** The k-th round ended, chose the k-th group and left h. */
  ghost predicate RoundGave(rounds: seq<SolverRound>, ans: seq<seq<nat>>, k: nat, h: Graph)
    requires k < |rounds| && k < |ans|
  {
    && SolverRun(rounds[k].g, rounds[k].run, true)
    && RoundDone(rounds[k].g, ans[k], h) && Members(ans[k]) == rounds[k].run[|rounds[k].run| - 1].m.chosen
  }

  ghost function LeftBy(rounds: seq<SolverRound>, k: nat, h: Graph): Graph {
    if k + 1 < |rounds| then rounds[k + 1].g else h
  }

  /** The rounds so far: each ended and handed what it left to the next; the last one left h. */
  ghost predicate RoundsTo(g: Graph, rounds: seq<SolverRound>, ans: seq<seq<nat>>, h: Graph) {
    && |rounds| == |ans| && (rounds != [] ==> rounds[0].g == g) && (rounds == [] ==> h == g)
    && forall k :: 0 <= k < |rounds| ==> RoundGave(rounds, ans, k, LeftBy(rounds, k, h))
  }

  lemma RoundsOneMore(g: Graph, rounds: seq<SolverRound>, ans: seq<seq<nat>>, h: Graph, run: seq<Machine>,
                      slice: seq<nat>, h': Graph)
    requires RoundsTo(g, rounds, ans, h) && SolverRun(h, run, true) && RoundDone(h, slice, h')
    requires Members(slice) == run[|run| - 1].m.chosen
    ensures RoundsTo(g, rounds + [SolverRound(h, run)], ans + [slice], h')
  {
    var more, groups := rounds + [SolverRound(h, run)], ans + [slice];
    forall k | 0 <= k < |more|
      ensures RoundGave(more, groups, k, LeftBy(more, k, h'))
    {
      if k < |rounds| {
        assert RoundGave(rounds, ans, k, LeftBy(rounds, k, h));
      }
    }
  }

  /** How solveMISInTurn goes on g. Either every round's run of the solver ended, and the last left nothing,
      or every round but the last did, and the last one's run went stale. */
  ghost predicate AllRounds(g: Graph, rounds: seq<SolverRound>, ans: seq<seq<nat>>, halts: bool) {
    if halts then exists h: Graph :: h.live == {} && RoundsTo(g, rounds, ans, h)
    else
      && rounds != [] && RoundsTo(g, rounds[..|rounds| - 1], ans, rounds[|rounds| - 1].g)
      && SolverRun(rounds[|rounds| - 1].g, rounds[|rounds| - 1].run, false)
  }

  /** A round of the loop on what is left of g, seen from the groups found so far. */
  method NextGroup(graph: UndirectedGraph, ghost g: Graph, ghost ans: seq<seq<nat>>, ghost rounds: seq<SolverRound>,
                   ghost size: nat)
    returns (slice: seq<nat>, rest: UndirectedGraph, halts: bool, ghost rounds': seq<SolverRound>, ghost size': nat)
    requires graph.Valid() && Remains(g, ans, rounds, graph.View(), size)
    requires forall x :: x in g.live ==> x < MAX_UINT
    modifies graph`live, graph`adjacencyMap, graph.vertices.Values
    ensures halts ==> fresh(rest) && fresh(rest.vertices.Values) && rest.Valid()
    ensures halts ==> Remains(g, ans + [slice], rounds', rest.View(), size')
    ensures halts && rest.vertices.Keys != {} ==> size' < size
    ensures !halts ==> AllRounds(g, rounds', ans, false)
    ensures size' <= size
  {
    ghost var h := graph.View();
    size' := size;
    ghost var run;
    slice, rest, halts, run := OneRound(graph);
    rounds' := rounds + [SolverRound(h, run)];
    assert rounds'[..|rounds|] == rounds;
    if halts {
      RoundsOneMore(g, rounds, ans, h, run, slice, rest.View());
      SplitOneMore(g, ans, h, slice, rest.View());
      size' := |rest.live|;
    }
  }

  ghost predicate Remains(g: Graph, ans: seq<seq<nat>>, rounds: seq<SolverRound>, h: Graph, size: nat) {
    SplitSoFar(g, ans, h) && RoundsTo(g, rounds, ans, h) && h.live == h.adj.Keys && size == |h.live|
  }

  /** Groups of pairwise non-conflicting transactions, until none is left; or, with halts == false, the first
      round whose run goes stale and which therefore never ends (StaleNeverEnds). */
  method SolveMisInTurn(graph: UndirectedGraph)
    returns (ans: seq<seq<nat>>, halts: bool, ghost rounds: seq<SolverRound>)
    requires graph.Valid() && graph.live == graph.vertices.Keys
    requires forall x :: x in graph.vertices ==> x < MAX_UINT
    modifies graph`live, graph`adjacencyMap, graph.vertices.Values
    ensures halts ==> Partition(ans, old(graph.live)) && AllIndependent(old(graph.adjacencyMap), ans)
    ensures AllRounds(old(graph.View()), rounds, ans, halts)
  {
    ghost var g := graph.View();
    ans := [];
    rounds := [];
    halts := true;
    var undiConfGraph := graph;
    var finished := false;
    ghost var size: nat := |graph.live|;
    while !finished && halts
      invariant halts && undiConfGraph != graph ==> fresh(undiConfGraph) && fresh(undiConfGraph.vertices.Values)
      invariant halts ==> undiConfGraph.Valid() && Remains(g, ans, rounds, undiConfGraph.View(), size)
      invariant !halts ==> AllRounds(g, rounds, ans, false)
      invariant finished && halts ==> undiConfGraph.live == {}
      decreases size, !finished, halts
    {
      var slice, rest, more;
      slice, rest, more, rounds, size := NextGroup(undiConfGraph, g, ans, rounds, size);
      if more {
        ans := ans + [slice];
        undiConfGraph := rest;
        finished := |rest.vertices| == 0;
      } else {
        halts := false;
      }
    }
    if halts {
      assert g.live - {} == g.live;
      assert undiConfGraph.View().live == {} && RoundsTo(g, rounds, ans, undiConfGraph.View());
    }
  }

  /** The groups found so far split off what h no longer has; h keeps g's edges. */
  ghost predicate SplitSoFar(g: Graph, ans: seq<seq<nat>>, h: Graph) {
    && h.live <= g.live && KeepsEdges(g, h)
    && Partition(ans, g.live - h.live) && AllIndependent(g.adj, ans)
  }

  lemma SplitOneMore(g: Graph, ans: seq<seq<nat>>, h: Graph, slice: seq<nat>, h': Graph)
    requires SplitSoFar(g, ans, h) && RoundDone(h, slice, h')
    ensures SplitSoFar(g, ans + [slice], h')
    ensures h'.live != {} ==> |h'.live| < |h.live|
    ensures |h'.live| <= |h.live|
  {
    var S := Members(slice);
    PartitionOneMore(ans, g.live - h.live, slice, S);
    assert (g.live - h.live) + S == g.live - h'.live;
    IndependentEarlier(g, h, S);
    SliceTaken(h.live, slice, h'.live);
  }

  lemma SliceTaken(live: set<nat>, slice: seq<nat>, rest: set<nat>)
    requires rest == live - Members(slice) && Members(slice) <= live && (live != {} ==> slice != [])
    ensures |rest| <= |live| && (rest != {} ==> |rest| < |live|)
  {
    SubsetCardinality(rest, live);
    if slice != [] {
      assert slice[0] in Members(slice);
      SubsetCardinality(rest, live - {slice[0]});
      CardinalityWithout(live, slice[0]);
    }
  }
}
