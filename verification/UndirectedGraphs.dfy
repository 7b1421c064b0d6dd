/** The undirected conflict graph: vertex objects and adjacency lists updated in place. */
module UndirectedGraphs {
  import opened Fields
  import opened Graphs
  import opened Reachability

  class Vertex {
    const txId: nat
    const txHash: nat
    var isDeleted: bool
    /** A uint in the source: below zero it stands for what it wraps around to (Unsigned). */
    var degree: int

    constructor (txId: nat, txHash: nat)
      ensures this.txId == txId && this.txHash == txHash && !isDeleted && degree == 0
    {
      this.txId := txId;
      this.txHash := txHash;
      isDeleted := false;
      degree := 0;
    }
  }

  class UndirectedGraph {
    var vertices: map<nat, Vertex>
    var adjacencyMap: map<nat, seq<nat>>

    /** The vertices not marked deleted. */
    ghost var live: set<nat>

    ghost function View(): Graph
      reads this
    {
      Graph(adjacencyMap, live)
    }

    /** The degree fields, those of deleted vertices included. */
    ghost function Degrees(): Degrees
      reads this, vertices.Values
    {
      map id | id in vertices :: vertices[id].degree
    }

    /** Each vertex object sits under its own id, so the objects are pairwise distinct. */
    ghost predicate Shaped()
      reads this, vertices.Values
    {
      && vertices.Keys == adjacencyMap.Keys
      && live <= vertices.Keys
      && (forall id {:trigger vertices[id]} :: id in vertices ==> vertices[id].txId == id)
      && (forall id {:trigger vertices[id]} :: id in vertices ==> (id in live <==> !vertices[id].isDeleted))
    }

    /** A live vertex's degree field counts its live neighbours. */
    ghost predicate DegreesAgree()
      reads this, vertices.Values
    {
      forall id {:trigger Degree(View(), id)} :: id in vertices && id in live ==>
        vertices[id].degree == Degree(View(), id)
    }

    ghost predicate Valid()
      reads this, vertices.Values
    {
      Shaped() && WellFormed(View()) && DegreesAgree()
    }

    constructor ()
      ensures Valid() && View() == Graph(map[], {})
    {
      vertices := map[];
      adjacencyMap := map[];
      live := {};
    }

    method AddVertex(tx: nat, id: nat)
      requires Valid()
      modifies this
      ensures Valid()
      ensures id in old(vertices) ==> vertices == old(vertices) && adjacencyMap == old(adjacencyMap)
      ensures id !in old(vertices) ==>
        && View() == WithVertex(old(View()), id)
        && vertices == old(vertices)[id := vertices[id]]
        && fresh(vertices[id]) && fresh(vertices.Values - old(vertices.Values))
    {
      if id in vertices {
        return;
      }
      var v := new Vertex(id, tx);
      WellFormedWithVertex(View(), id);
      vertices := vertices[id := v];
      adjacencyMap := adjacencyMap[id := []];
      live := live + {id};
    }

    method HasEdge(tx1: nat, tx2: nat) returns (b: bool)
      requires Shaped() && tx1 in vertices && tx2 in vertices
      ensures b <==> tx1 in live && tx2 in live && Adjacent(View(), tx1, tx2)
    {
      if vertices[tx1].isDeleted || vertices[tx2].isDeleted {
        return false;
      }
      for i := 0 to |adjacencyMap[tx1]|
        invariant tx2 !in adjacencyMap[tx1][..i]
      {
        if adjacencyMap[tx1][i] == tx2 {
          return true;
        }
      }
      return false;
    }

    /** In any state: unless both vertices are live and adjacent, each is listed for the other once more and
        both fields go up. Between different live vertices the graph stays valid. */
    method AddEdge(source: nat, destination: nat)
      requires Shaped() && source in vertices && destination in vertices
      modifies this`adjacencyMap, vertices.Values
      ensures Shaped()
      ensures HasLiveEdge(old(View()), source, destination) ==> View() == old(View()) && Degrees() == old(Degrees())
      ensures !HasLiveEdge(old(View()), source, destination) ==>
        && View() == Joined(old(View()), source, destination)
        && Degrees() == RaisedBoth(old(Degrees()), source, destination)
      ensures old(Valid()) && source in live && destination in live && source != destination ==>
        && Valid()
        && View() == if Adjacent(old(View()), source, destination) then old(View())
                     else WithEdge(old(View()), source, destination)
    {
      ghost var g, deg := View(), Degrees();
      FitsIsValid();
      var found := HasEdge(source, destination);
      if !found {
        Append(source, destination);
        if Fit(g, deg) && source in g.live && destination in g.live && source != destination {
          JoinFits(g, deg, source, destination);
        }
      }
      FitsIsValid();
    }

    /** AddEdge after its check. */
    method Append(source: nat, destination: nat)
      requires Shaped() && source in vertices && destination in vertices
      modifies this`adjacencyMap, vertices.Values
      ensures Shaped() && View() == Joined(old(View()), source, destination)
      ensures Degrees() == RaisedBoth(old(Degrees()), source, destination)
    {
      ghost var deg := Degrees();
      ListBoth(source, destination);
      assert Degrees() == deg;
      RaiseBoth(source, destination, deg);
    }

    method ListBoth(source: nat, destination: nat)
      requires source in adjacencyMap && destination in adjacencyMap
      modifies this`adjacencyMap
      ensures adjacencyMap.Keys == old(adjacencyMap.Keys) && View() == Joined(old(View()), source, destination)
    {
      ghost var after := Joined(View(), source, destination);
      adjacencyMap := adjacencyMap[source := adjacencyMap[source] + [destination]];
      adjacencyMap := adjacencyMap[destination := adjacencyMap[destination] + [source]];
      assert View() == after;
    }

    method RaiseBoth(a: nat, b: nat, ghost deg: Degrees)
      requires Shaped() && a in vertices && b in vertices && deg == Degrees()
      modifies vertices.Values
      ensures Shaped() && Degrees() == RaisedBoth(deg, a, b)
    {
      Raise(a);
      Raise(b);
    }

    method Raise(id: nat)
      requires Shaped() && id in vertices
      modifies vertices.Values
      ensures Shaped() && Degrees() == Changed(old(Degrees()), id, 1)
    {
      ghost var after := Changed(Degrees(), id, 1);
      vertices[id].degree := vertices[id].degree + 1;
      assert Degrees() == after;
    }

    /** In any state: the mark, and one less for every listed vertex that is not marked. */
    method RemoveVertex(tx: nat)
      requires Shaped() && Known(View()) && tx in vertices
      modifies this`live, vertices.Values
      ensures Shaped() && View() == Without(old(View()), tx)
      ensures Degrees() == Lowered(View(), old(Degrees()), adjacencyMap[tx])
      ensures old(Valid()) && tx in old(live) ==> Valid()
    {
      ghost var g, deg := View(), Degrees();
      FitsIsValid();
      MarkDeleted(tx);
      KnownSame(g, View());
      LowerNeighbours(tx, deg);
      if Fit(g, deg) && tx in g.live {
        RemoveFits(g, deg, tx);
      }
      FitsIsValid();
    }

    method MarkDeleted(tx: nat)
      requires Shaped() && tx in vertices
      modifies this`live, vertices.Values
      ensures Shaped() && View() == Without(old(View()), tx) && Degrees() == old(Degrees())
    {
      ghost var deg := Degrees();
      vertices[tx].isDeleted := true;
      live := live - {tx};
      assert Degrees() == deg;
    }

    /** The loop of RemoveVertex. */
    method LowerNeighbours(tx: nat, ghost deg: Degrees)
      requires Shaped() && Known(View()) && tx in vertices && deg == Degrees()
      modifies vertices.Values
      ensures Shaped() && Degrees() == Lowered(View(), deg, adjacencyMap[tx])
    {
      var neighbours := adjacencyMap[tx];
      for i := 0 to |neighbours|
        invariant Shaped() && Degrees() == Lowered(View(), deg, neighbours[..i])
      {
        assert neighbours[..i + 1][..i] == neighbours[..i];
        assert Adjacent(View(), tx, neighbours[i]);
        LowerOne(neighbours[i]);
      }
      assert neighbours[..|neighbours|] == neighbours;
    }

    method LowerOne(id: nat)
      requires Shaped() && id in vertices
      modifies vertices.Values
      ensures Shaped()
      ensures Degrees() == if id in live then Changed(old(Degrees()), id, -1) else old(Degrees())
    {
      ghost var after := if id in live then Changed(Degrees(), id, -1) else Degrees();
      if !vertices[id].isDeleted {
        vertices[id].degree := vertices[id].degree - 1;
      }
      assert Degrees() == after;
    }

    lemma FitsIsValid()
      requires Shaped()
      ensures Valid() <==> Fit(View(), Degrees())
    {
      if Fit(View(), Degrees()) {
        forall id | id in vertices && id in live
          ensures vertices[id].degree == Degree(View(), id)
        {
          assert FieldOf(Degrees(), id) == Degree(View(), id);
        }
      }
    }

    // ---------- copying ----------

    /** A fresh graph of the live vertices and the edges between them. Degree fields of this graph
        are not consulted. */
    method CopyGraphWithDeletion() returns (copy: UndirectedGraph)
      requires Shaped() && WellFormed(View())
      ensures fresh(copy) && fresh(copy.vertices.Values) && copy.Valid()
      ensures InducedCopy(View(), copy.View())
    {
      copy := CopyLiveVertices();
      CopyAllEdges(copy);
    }

    /** The second loop of CopyGraphWithDeletion. */
    method CopyAllEdges(copy: UndirectedGraph)
      requires Shaped() && WellFormed(View())
      requires copy != this && copy.vertices.Values !! vertices.Values
      requires copy.Valid() && CopiedExcept(View(), copy.View(), live)
      modifies copy`adjacencyMap, copy.vertices.Values
      ensures copy.Valid() && InducedCopy(View(), copy.View())
    {
      ghost var g := View();
      var todo := copy.vertices.Keys;
      while todo != {}
        invariant todo <= g.live
        invariant Shaped() && copy.Valid() && CopiedExcept(g, copy.View(), todo)
      {
        var id :| id in todo;
        CopyEdgesOf(copy, id, todo);
        todo := todo - {id};
      }
      CopyComplete(g, copy.View());
    }

    /** The first loop of CopyGraphWithDeletion. */
    method CopyLiveVertices() returns (copy: UndirectedGraph)
      requires Shaped()
      ensures fresh(copy) && fresh(copy.vertices.Values) && copy.Valid()
      ensures CopiedExcept(View(), copy.View(), live)
    {
      ghost var g := View();
      copy := new UndirectedGraph();
      var todo := vertices.Keys;
      while todo != {}
        invariant todo <= vertices.Keys
        invariant fresh(copy) && fresh(copy.vertices.Values) && copy.Valid()
        invariant copy.View().adj.Keys == copy.View().live == g.live - todo && NoEdges(copy.View())
      {
        var id :| id in todo;
        if !vertices[id].isDeleted {
          PartialCopyWithVertex(g, copy.View(), todo, id);
          copy.AddVertex(vertices[id].txHash, id);
        } else {
          assert g.live - (todo - {id}) == g.live - todo;
        }
        todo := todo - {id};
      }
    }

    /** The inner loop of CopyGraphWithDeletion. */
    method CopyEdgesOf(copy: UndirectedGraph, id: nat, ghost todo: set<nat>)
      requires Shaped() && WellFormed(View()) && id in live && id in todo
      requires copy != this && copy.vertices.Values !! vertices.Values
      requires copy.Valid() && CopiedExcept(View(), copy.View(), todo)
      modifies copy`adjacencyMap, copy.vertices.Values
      ensures Shaped() && copy.Valid() && CopiedExcept(View(), copy.View(), todo - {id})
    {
      ghost var g, c0 := View(), copy.View();
      var neighbours := adjacencyMap[id];
      for i := 0 to |neighbours|
        invariant Shaped() && copy.Valid() && CopyingRow(g, c0, copy.View(), id, i)
      {
        ghost var c := copy.View();
        assert Adjacent(g, id, neighbours[i]);
        CopyEdge(copy, id, neighbours[i]);
        CopyingRowStep(g, c0, c, copy.View(), id, i);
      }
      RowCopied(g, c0, copy.View(), todo, id);
    }

    method CopyEdge(copy: UndirectedGraph, id: nat, neighbourId: nat)
      requires Shaped() && WellFormed(View()) && Adjacent(View(), id, neighbourId) && id in live
      requires copy != this && copy.vertices.Values !! vertices.Values
      requires copy.Valid() && copy.View().live == live && copy.View().adj.Keys == live
      modifies copy`adjacencyMap, copy.vertices.Values
      ensures copy.Valid() && Shaped()
      ensures id != neighbourId
      ensures copy.View() == var c := old(copy.View());
        if neighbourId !in live || Adjacent(c, id, neighbourId) then c else WithEdge(c, id, neighbourId)
    {
      var neighbour := vertices[neighbourId];
      if !neighbour.isDeleted {
        copy.AddEdge(id, neighbour.txId);
      }
    }

    // ---------- connected components ----------

    /** Visits v and everything reachable from it that is neither visited nor deleted. */
    method Dfs(v: nat, visited: set<nat>, component: seq<nat>)
      returns (visited': set<nat>, component': seq<nat>)
      requires Shaped() && WellFormed(View()) && v in live - visited
      ensures Explored(View(), live, v, visited, visited')
      ensures Grew(component, component', visited' - visited)
      ensures |component'| > |component| && component'[|component|] == v
      decreases |live - visited|
    {
      visited' := visited + {v};
      component' := component + [v];
      ghost var g := View();
      GrewByOne(component, v);
      assert visited' - visited == {v};
      var neighbours := adjacencyMap[v];
      for i := 0 to |neighbours|
        invariant visited + {v} <= visited'
        invariant Exploring(g, live, v, visited, visited', i)
        invariant Grew(component, component', visited' - visited)
        invariant |component'| > |component| && component'[|component|] == v
      {
        var n := neighbours[i];
        assert Adjacent(g, v, n) && (n in live <==> !vertices[n].isDeleted);
        ghost var before, path := visited', component';
        assert Exploring(g, live, v, visited, before, i);
        if n !in visited' && !vertices[n].isDeleted {
          ShrinkingRest(live, visited, visited', v);
          visited', component' := Dfs(n, visited', component');
          GrewAgain(component, path, component', visited, before, visited');
          assert Explored(g, live, n, before, visited');
        }
        ExploringStep(g, live, v, visited, before, i, visited');
      }
      ExploringDone(g, live, v, visited, visited');
    }

    method GetConnectedComponents() returns (components: seq<seq<nat>>)
      requires Shaped() && WellFormed(View())
      ensures AreComponents(View(), components, live)
    {
      var visited: set<nat> := {};
      components := [];
      var todo := vertices.Keys;
      while todo != {}
        invariant todo <= vertices.Keys
        invariant live - todo <= visited <= live && Closed(View(), live, visited)
        invariant AreComponents(View(), components, visited)
      {
        var v :| v in todo;
        if v !in visited && !vertices[v].isDeleted {
          ghost var before := visited;
          var component: seq<nat>;
          visited, component := Dfs(v, visited, []);
          ExploredIsComponent(View(), live, v, before, visited);
          assert component[0..] == component;
          OneMoreComponent(View(), components, before, component, visited);
          components := components + [component];
        }
        todo := todo - {v};
      }
    }
  }
}
