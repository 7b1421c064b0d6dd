/** Groups joined by chains of conflicts, each run in block order on one cache, all in a single round. */
module ComponentGroups {
  import opened AccessLists
  import opened Graphs
  import opened Groups
  import opened Reachability
  import opened Rounds
  import opened Schedules
  import opened Stores
  import opened UndirectedGraphs

  /** Exactly the edges between conflicting transactions. */
  ghost predicate IsConflictGraph(b: Block, g: Graph) {
    && g.adj.Keys == Predicted(b) && g.live == Predicted(b)
    && forall x: nat, y: nat :: Adjacent(g, x, y) <==> x != y && Clash(b, x, y)
  }

  ghost predicate Seen(x: nat, y: nat, i: nat, j: nat) {
    x < i || (x == i && y < j)
  }

  /** The edges found when the double loop stands at row i, column j. */
  ghost predicate EdgesSoFar(b: Block, g: Graph, i: nat, j: nat) {
    && g.adj.Keys == Predicted(b) && g.live == Predicted(b)
    && forall x: nat, y: nat :: Adjacent(g, x, y) <==>
         x != y && Clash(b, x, y) && (if x < y then Seen(x, y, i, j) else Seen(y, x, i, j))
  }

  ghost function VerticesSoFar(b: Block, i: nat): Graph {
    var ids := set k | k in Predicted(b) && k < i;
    Graph(map k | k in ids :: [], ids)
  }

  lemma VerticesDone(b: Block)
    ensures EdgesSoFar(b, VerticesSoFar(b, |b.sets|), 0, 1)
  {
  }

  lemma VertexAdded(b: Block, i: nat)
    requires i < |b.sets|
    ensures VerticesSoFar(b, i + 1)
         == if b.sets[i].Some? then WithVertex(VerticesSoFar(b, i), i) else VerticesSoFar(b, i)
  {
  }

  lemma EdgeAdded(b: Block, g: Graph, i: nat, j: nat)
    requires EdgesSoFar(b, g, i, j) && i < j < |b.sets|
    ensures !Clash(b, i, j) ==> EdgesSoFar(b, g, i, j + 1)
    ensures Clash(b, i, j) ==>
      i in g.live && j in g.live && !Adjacent(g, i, j) && EdgesSoFar(b, WithEdge(g, i, j), i, j + 1)
  {
    ClashSymmetric(b, i, j);
    if Clash(b, i, j) {
      var more := WithEdge(g, i, j);
      forall x: nat, y: nat
        ensures Adjacent(more, x, y) <==> Adjacent(g, x, y) || (x == i && y == j) || (x == j && y == i)
      {
      }
    }
  }

  lemma EdgeRowDone(b: Block, g: Graph, i: nat)
    requires EdgesSoFar(b, g, i, |b.sets|) && i < |b.sets|
    ensures EdgesSoFar(b, g, i + 1, i + 2)
  {
  }

  lemma EdgeRowsDone(b: Block, g: Graph)
    requires EdgesSoFar(b, g, |b.sets|, |b.sets| + 1)
    ensures IsConflictGraph(b, g)
  {
  }

  method AddVertices(b: Block) returns (graph: UndirectedGraph)
    ensures fresh(graph) && fresh(graph.vertices.Values) && graph.Valid()
    ensures graph.View() == VerticesSoFar(b, |b.sets|)
  {
    graph := new UndirectedGraph();
    for i := 0 to |b.sets|
      invariant fresh(graph) && fresh(graph.vertices.Values) && graph.Valid()
      invariant graph.View() == VerticesSoFar(b, i)
    {
      VertexAdded(b, i);
      if b.sets[i].Some? {
        graph.AddVertex(i, i);
      }
    }
  }

  method AddEdgesFrom(b: Block, graph: UndirectedGraph, i: nat)
    requires i < |b.sets| && graph.Valid() && EdgesSoFar(b, graph.View(), i, i + 1)
    modifies graph`adjacencyMap, graph.vertices.Values
    ensures graph.Valid() && EdgesSoFar(b, graph.View(), i + 1, i + 2)
  {
    for j := i + 1 to |b.sets|
      invariant graph.Valid() && EdgesSoFar(b, graph.View(), i, j)
    {
      AddEdgeIf(b, graph, i, j);
    }
    EdgeRowDone(b, graph.View(), i);
  }

  /** One turn of the inner loop. */
  method AddEdgeIf(b: Block, graph: UndirectedGraph, i: nat, j: nat)
    requires i < j < |b.sets| && graph.Valid() && EdgesSoFar(b, graph.View(), i, j)
    modifies graph`adjacencyMap, graph.vertices.Values
    ensures graph.Valid() && EdgesSoFar(b, graph.View(), i, j + 1)
  {
    EdgeAdded(b, graph.View(), i, j);
    if b.sets[i].Some? && b.sets[j].Some? {
      var conflict := HasConflict(b.sets[i].value, b.sets[j].value);
      if conflict {
        graph.AddEdge(i, j);
      }
    }
  }

  method AddEdges(b: Block, graph: UndirectedGraph)
    requires graph.Valid() && graph.View() == VerticesSoFar(b, |b.sets|)
    modifies graph`adjacencyMap, graph.vertices.Values
    ensures graph.Valid() && IsConflictGraph(b, graph.View())
  {
    VerticesDone(b);
    for i := 0 to |b.sets|
      invariant graph.Valid() && EdgesSoFar(b, graph.View(), i, i + 1)
    {
      AddEdgesFrom(b, graph, i);
    }
    EdgeRowsDone(b, graph.View());
  }

  method GenerateUndiGraph(b: Block) returns (graph: UndirectedGraph)
    ensures fresh(graph) && fresh(graph.vertices.Values) && graph.Valid() && IsConflictGraph(b, graph.View())
  {
    graph := AddVertices(b);
    AddEdges(b, graph);
  }

  // ---------- groups in block order ----------

  ghost predicate Increasing(s: seq<nat>) {
    forall i, j :: 0 <= i < j < |s| ==> s[i] < s[j]
  }

  lemma InsertedAt(s: seq<nat>, p: nat, x: nat)
    requires Increasing(s) && x !in Members(s) && p <= |s|
    requires (forall k :: 0 <= k < p ==> s[k] < x) && (p < |s| ==> s[p] >= x)
    ensures Increasing(s[..p] + [x] + s[p..])
    ensures Members(s[..p] + [x] + s[p..]) == Members(s) + {x}
  {
  }

  ghost predicate SortedFrom(sorted: seq<nat>, group: seq<nat>) {
    Increasing(sorted) && Members(sorted) == Members(group) && |sorted| == |group|
  }

  /** The library's sort, on ids without repetition. */
  method SortByTxId(group: seq<nat>) returns (sorted: seq<nat>)
    requires Distinct(group)
    ensures SortedFrom(sorted, group)
  {
    sorted := [];
    DistinctPairwise(group);
    for i := 0 to |group|
      invariant Increasing(sorted) && |sorted| == i && Members(sorted) == Members(group[..i])
    {
      var p := 0;
      assert group[i] !in Members(sorted);
      while p < i && sorted[p] < group[i]
        invariant 0 <= p <= i && forall k :: 0 <= k < p ==> sorted[k] < group[i]
      {
        p := p + 1;
      }
      InsertedAt(sorted, p, group[i]);
      assert group[..i + 1] == group[..i] + [group[i]];
      MembersAppend(group[..i], group[i]);
      sorted := sorted[..p] + [group[i]] + sorted[p..];
    }
    assert group[..|group|] == group;
  }

  /** The same components, each listed in block order. */
  ghost predicate SortedComponents(g: Graph, groups: seq<seq<nat>>) {
    && (forall i :: 0 <= i < |groups| ==>
         && |groups[i]| > 0 && Increasing(groups[i])
         && IsComponent(g, g.live, groups[i][0], Members(groups[i])))
    && (forall i, j :: 0 <= i < j < |groups| ==> Members(groups[i]) !! Members(groups[j]))
    && Covers(groups, g.live)
  }

  method GenerateTxAndRWSetGroups(b: Block) returns (groups: seq<seq<nat>>, ghost g: Graph)
    ensures IsConflictGraph(b, g) && WellFormed(g) && SortedComponents(g, groups)
    ensures ScheduleFits(b, {}, [groups])
  {
    var graph := GenerateUndiGraph(b);
    g := graph.View();
    var components := graph.GetConnectedComponents();
    groups := SortAll(components);
    SameMembersSorted(g, components, groups);
    ComponentsFit(b, g, groups);
  }

  method SortAll(components: seq<seq<nat>>) returns (groups: seq<seq<nat>>)
    requires forall k :: 0 <= k < |components| ==> Distinct(components[k])
    ensures |groups| == |components| && forall k :: 0 <= k < |groups| ==> SortedFrom(groups[k], components[k])
  {
    groups := [];
    for i := 0 to |components|
      invariant |groups| == i && forall k :: 0 <= k < i ==> SortedFrom(groups[k], components[k])
    {
      var sorted := SortByTxId(components[i]);
      groups := groups + [sorted];
    }
  }

  lemma SameMembersSorted(g: Graph, components: seq<seq<nat>>, groups: seq<seq<nat>>)
    requires WellFormed(g) && AreComponents(g, components, g.live) && |groups| == |components|
    requires forall k :: 0 <= k < |groups| ==> SortedFrom(groups[k], components[k])
    ensures SortedComponents(g, groups)
  {
    forall k | 0 <= k < |groups|
      ensures Increasing(groups[k]) && Members(groups[k]) == Members(components[k])
      ensures |groups[k]| == |components[k]|
    {
      assert SortedFrom(groups[k], components[k]);
    }
    forall i | 0 <= i < |groups|
      ensures |groups[i]| > 0 && IsComponent(g, g.live, groups[i][0], Members(groups[i]))
    {
      assert groups[i][0] in Members(groups[i]);
      ComponentOfMember(g, g.live, components[i][0], Members(components[i]), groups[i][0]);
    }
    forall x ensures x in g.live <==> InSome(groups, x) {
      forall i | 0 <= i < |groups| ensures x in groups[i] <==> x in components[i] {
        assert x in groups[i] <==> x in Members(groups[i]);
        assert x in components[i] <==> x in Members(components[i]);
      }
    }
  }

  /** Two transactions share a group exactly when a chain of conflicts joins them. */
  lemma SharedGroupIsChain(b: Block, g: Graph, groups: seq<seq<nat>>, i: nat, x: nat, y: nat)
    requires IsConflictGraph(b, g) && WellFormed(g) && SortedComponents(g, groups) && i < |groups| && x in groups[i]
    ensures y in groups[i] <==> Linked(g, g.live, x, y)
  {
    assert x in Members(groups[i]);
    ComponentOfMember(g, g.live, groups[i][0], Members(groups[i]), x);
    ComponentIsLinked(g, g.live, x, Members(groups[i]), y);
  }

  lemma GroupSequenced(b: Block, g: Graph, group: seq<nat>)
    requires IsConflictGraph(b, g) && |group| > 0 && Increasing(group)
    requires IsComponent(g, g.live, group[0], Members(group))
    ensures Sequenced(b, {}, group)
  {
    forall p | 0 <= p < |group| ensures Schedules.Ready(b, {} + Members(group[..p]), group[p]) {
      var j := group[p];
      assert j in Members(group);
      forall i | i in Predicted(b) && i < j && Conflicting(b, j, i) ensures i in group[..p] {
        assert Adjacent(g, j, i);
        assert i in Members(group);
        var q :| 0 <= q < |group| && group[q] == i;
        assert q < p;
      }
    }
  }

  lemma GroupsFit(b: Block, g: Graph, groups: seq<seq<nat>>)
    requires IsConflictGraph(b, g) && SortedComponents(g, groups)
    ensures RoundFits(b, {}, groups)
  {
    forall i | 0 <= i < |groups| ensures Sequenced(b, {}, groups[i]) {
      GroupSequenced(b, g, groups[i]);
    }
    forall i, k | 0 <= i < k < |groups| ensures Members(groups[i]) !! Members(groups[k]) {
    }
  }

  lemma OneRoundFits(b: Block, batches: seq<Batch>)
    requires RoundFits(b, {}, batches) && RoundIds(batches) == Predicted(b)
    ensures ScheduleFits(b, {}, [batches])
  {
  }

  /** All components in one round respect the block order of conflicting transactions. */
  lemma ComponentsFit(b: Block, g: Graph, groups: seq<seq<nat>>)
    requires IsConflictGraph(b, g) && SortedComponents(g, groups)
    ensures ScheduleFits(b, {}, [groups])
  {
    GroupsFit(b, g, groups);
    CoveredMembers(groups, g.live);
    OneRoundFits(b, groups);
  }

  lemma CoveredMembers(groups: seq<seq<nat>>, all: set<nat>)
    requires Covers(groups, all)
    ensures RoundIds(groups) == all
  {
  }

  /**
   * Running every group on its own cache and interleaving the merges in any way leaves the storage that running
   * the block in order leaves.
   */
  lemma GroupsAreSerial(b: Block, s: Storage, g: Graph, groups: seq<seq<nat>>, r: Round)
    requires |b.txs| == |b.sets| && Good(b, s) && IsConflictGraph(b, g) && SortedComponents(g, groups)
    requires r.batches == groups && Happens(b, s, [r])
    ensures Final(s, [r]) == Serial(b, s)
  {
    ComponentsFit(b, g, groups);
    assert Schedule([r]) == [groups];
    ScheduleIsSerial(b, s, [r]);
  }
}
