/** From predicted access sets to conflict graphs, and from those to groups that may run in parallel. */
module Groups {
  import opened AccessLists
  import opened Schedules
  import opened Rounds
  import opened Stores
  import opened DirectedGraphs
  import L = Layers
  import R = Reachability
  import G = Graphs

  ghost predicate Clash(b: Block, i: nat, j: nat) {
    i in Predicted(b) && j in Predicted(b) && Conflicting(b, i, j)
  }

  lemma ClashSymmetric(b: Block, i: nat, j: nat)
    ensures Clash(b, i, j) <==> Clash(b, j, i)
  {
  }

  // ---------- the directed conflict graph ----------

  /** Exactly the arcs from an earlier to a later conflicting transaction. */
  ghost predicate IsConflictOrder(b: Block, arcs: L.Arcs) {
    && arcs.Keys == Predicted(b)
    && forall i, j :: L.Arc(arcs, i, j) <==> i < j && Clash(b, i, j)
  }

  /** The arcs found when the double loop stands at row i, column j. */
  ghost predicate ArcsSoFar(b: Block, arcs: L.Arcs, i: nat, j: nat) {
    && arcs.Keys == Predicted(b)
    && forall x: nat, y: nat :: L.Arc(arcs, x, y) <==> x < y && Clash(b, x, y) && (x < i || (x == i && y < j))
  }

  ghost function NodesSoFar(b: Block, i: nat): L.Arcs {
    map k | k in Predicted(b) && k < i :: {}
  }

  lemma NodesDone(b: Block)
    ensures ArcsSoFar(b, NodesSoFar(b, |b.sets|), 0, 1)
  {
  }

  lemma NodeAdded(b: Block, i: nat)
    requires i < |b.sets|
    ensures NodesSoFar(b, i + 1)
         == if b.sets[i].Some? then WithNode(NodesSoFar(b, i), i) else NodesSoFar(b, i)
  {
  }

  lemma ArcAdded(b: Block, arcs: L.Arcs, i: nat, j: nat)
    requires ArcsSoFar(b, arcs, i, j) && i < j < |b.sets|
    ensures !Clash(b, i, j) ==> ArcsSoFar(b, arcs, i, j + 1)
    ensures Clash(b, i, j) ==> i in arcs && ArcsSoFar(b, WithArc(arcs, i, j), i, j + 1)
  {
    if Clash(b, i, j) {
      var more := WithArc(arcs, i, j);
      forall x: nat, y: nat
        ensures L.Arc(more, x, y) <==> L.Arc(arcs, x, y) || (x == i && y == j)
      {
      }
    }
  }

  lemma RowDone(b: Block, arcs: L.Arcs, i: nat)
    requires ArcsSoFar(b, arcs, i, |b.sets|) && i < |b.sets|
    ensures ArcsSoFar(b, arcs, i + 1, i + 2)
  {
  }

  lemma RowsDone(b: Block, arcs: L.Arcs)
    requires ArcsSoFar(b, arcs, |b.sets|, |b.sets| + 1)
    ensures IsConflictOrder(b, arcs)
  {
  }

  method AddNodes(b: Block) returns (graph: DirectedGraph)
    ensures fresh(graph) && fresh(graph.vertices.Values) && graph.Valid()
    ensures graph.adjacencyMap == NodesSoFar(b, |b.sets|)
  {
    graph := new DirectedGraph();
    for i := 0 to |b.sets|
      invariant fresh(graph) && fresh(graph.vertices.Values) && graph.Valid()
      invariant graph.adjacencyMap == NodesSoFar(b, i)
    {
      NodeAdded(b, i);
      if b.sets[i].Some? {
        graph.AddVertex(i, i);
      }
    }
  }

  method AddArcsFrom(b: Block, graph: DirectedGraph, i: nat)
    requires i < |b.sets| && graph.Valid() && ArcsSoFar(b, graph.adjacencyMap, i, i + 1)
    modifies graph`adjacencyMap, graph.vertices.Values
    ensures graph.Valid() && ArcsSoFar(b, graph.adjacencyMap, i + 1, i + 2)
  {
    for j := i + 1 to |b.sets|
      invariant graph.Valid() && ArcsSoFar(b, graph.adjacencyMap, i, j)
    {
      ArcAdded(b, graph.adjacencyMap, i, j);
      if b.sets[i].Some? && b.sets[j].Some? {
        var conflict := HasConflict(b.sets[i].value, b.sets[j].value);
        if conflict {
          graph.AddEdge(i, j);
        }
      }
    }
    RowDone(b, graph.adjacencyMap, i);
  }

  method GenerateDiGraph(b: Block) returns (graph: DirectedGraph)
    ensures fresh(graph) && fresh(graph.vertices.Values) && graph.Valid() && IsConflictOrder(b, graph.adjacencyMap)
  {
    graph := AddNodes(b);
    NodesDone(b);
    for i := 0 to |b.sets|
      invariant fresh(graph) && fresh(graph.vertices.Values) && graph.Valid()
      invariant ArcsSoFar(b, graph.adjacencyMap, i, i + 1)
    {
      AddArcsFrom(b, graph, i);
    }
    RowsDone(b, graph.adjacencyMap);
  }

  /** Each transaction of a group on a cache of its own. */
  function Singles(group: seq<nat>): seq<Batch> {
    seq(|group|, k requires 0 <= k < |group| => [group[k]])
  }

  function AllSingles(groups: seq<seq<nat>>): seq<seq<Batch>> {
    seq(|groups|, k requires 0 <= k < |groups| => Singles(groups[k]))
  }

  lemma SinglesMembers(group: seq<nat>)
    ensures RoundIds(Singles(group)) == R.Members(group)
  {
    forall j | j in group ensures j in RoundIds(Singles(group)) {
      var k :| 0 <= k < |group| && group[k] == j;
      assert Singles(group)[k] == [j] && j in Singles(group)[k];
    }
  }

  lemma SinglesFit(b: Block, c: set<nat>, group: seq<nat>)
    requires G.Distinct(group) && forall j :: j in group ==> Schedules.Ready(b, c, j)
    ensures RoundFits(b, c, Singles(group))
  {
    G.DistinctPairwise(group);
    forall k | 0 <= k < |group| ensures Sequenced(b, c, Singles(group)[k]) {
      assert c + R.Members([group[k]][..0]) == c;
    }
  }

  // ---------- the layered schedule ----------

  lemma LayerReady(b: Block, arcs: L.Arcs, k: nat, j: nat)
    requires IsConflictOrder(b, arcs) && j in L.Layer(arcs, k)
    ensures Schedules.Ready(b, L.Before(arcs, k), j)
  {
  }

  lemma {:induction false} LayersFitFrom(b: Block, arcs: L.Arcs, layers: seq<seq<nat>>, k: nat)
    requires IsConflictOrder(b, arcs) && L.AreLayers(arcs, layers) && k <= |layers|
    ensures ScheduleFits(b, L.Before(arcs, k), AllSingles(layers)[k..])
    decreases |layers| - k
  {
    if k == |layers| {
      assert L.Forward(arcs);
      L.ForwardAllRun(arcs, k);
    } else {
      L.LayerAt(arcs, layers, k);
      forall j | j in layers[k] ensures Schedules.Ready(b, L.Before(arcs, k), j) {
        assert j in R.Members(layers[k]);
        LayerReady(b, arcs, k, j);
      }
      SinglesFit(b, L.Before(arcs, k), layers[k]);
      SinglesMembers(layers[k]);
      L.BeforeGrows(arcs, k);
      assert L.Before(arcs, k) + L.Layer(arcs, k) == L.Before(arcs, k + 1);
      LayersFitFrom(b, arcs, layers, k + 1);
      assert AllSingles(layers)[k..][1..] == AllSingles(layers)[k + 1..];
    }
  }

  /** The layers of the conflict order are a schedule that respects block order. */
  lemma LayersFit(b: Block, arcs: L.Arcs, layers: seq<seq<nat>>)
    requires IsConflictOrder(b, arcs) && L.AreLayers(arcs, layers)
    ensures ScheduleFits(b, {}, AllSingles(layers))
  {
    LayersFitFrom(b, arcs, layers, 0);
    assert AllSingles(layers)[0..] == AllSingles(layers);
  }

  method GenerateDegreeZeroGroups(b: Block) returns (groups: seq<seq<nat>>, ghost arcs: L.Arcs)
    ensures IsConflictOrder(b, arcs) && L.AreLayers(arcs, groups)
    ensures ScheduleFits(b, {}, AllSingles(groups))
  {
    var graph := GenerateDiGraph(b);
    arcs := graph.adjacencyMap;
    groups := graph.GetDegreeZero();
    LayersFit(b, arcs, groups);
  }

  /**
   * Running the layers in turn, each transaction on its own prefetched cache and the merges interleaved in any
   * way, leaves the storage that running the block in order leaves.
   */
  lemma LayersAreSerial(b: Block, s: Storage, arcs: L.Arcs, layers: seq<seq<nat>>, rounds: seq<Round>)
    requires |b.txs| == |b.sets| && Good(b, s) && IsConflictOrder(b, arcs) && L.AreLayers(arcs, layers)
    requires Schedule(rounds) == AllSingles(layers) && Happens(b, s, rounds)
    ensures Final(s, rounds) == Serial(b, s)
  {
    LayersFit(b, arcs, layers);
    ScheduleIsSerial(b, s, rounds);
  }
}
