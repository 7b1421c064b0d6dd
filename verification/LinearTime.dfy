/** The independent-set solver itself: buckets, worklist loop and reductions, in place. Every method of the
    first loop is proved to be the operation on the machine, whatever state the solver is in. */
module LinearTimeSolver {
  import opened Endless
  import opened Fields
  import opened Graphs
  import opened Holdings
  import opened Machines
  import opened Reachability
  import opened Reductions
  import opened Searches
  import opened Stuck
  import opened TurnLaws
  import opened UndirectedGraphs
  import opened Worklist
  import C = Chains

  ghost function OneSorted(m: Solver, id: nat, d: int): Solver {
    if d == 0 then m.(chosen := m.chosen + {id}, g := Without(m.g, id))
    else if d == 1 then m.(one := m.one + {id})
    else if d == 2 then m.(two := m.two + {id})
    else m.(three := m.three + {id})
  }

  lemma WithFieldMore(deg: Degrees, done: set<nat>, id: nat, d: int)
    ensures WithField(deg, done + {id}, d)
         == WithField(deg, done, d) + if FieldOf(deg, id) == d then {id} else {}
  {
  }

  lemma SortedOneMore(g: Graph, deg: Degrees, done: set<nat>, id: nat)
    ensures Sorted(g, deg, done + {id}) == OneSorted(Sorted(g, deg, done), id, FieldOf(deg, id))
  {
    var d := FieldOf(deg, id);
    WithFieldMore(deg, done, id, 0);
    WithFieldMore(deg, done, id, 1);
    WithFieldMore(deg, done, id, 2);
    assert WithField(deg, done, d) + {} == WithField(deg, done, d);
    assert g.live - (WithField(deg, done, 0) + {id}) == g.live - WithField(deg, done, 0) - {id};
    assert (set y | y in done + {id} && FieldOf(deg, y) !in {0, 1, 2})
        == (set y | y in done && FieldOf(deg, y) !in {0, 1, 2}) + (if d in {0, 1, 2} then {} else {id});
  }

  class LinearTime {
    const graph: UndirectedGraph
    var verticesOne: set<nat>
    var verticesTwo: set<nat>
    var verticesGreaterThanThree: set<nat>
    var independentSet: set<nat>
    var stack: seq<nat>

    ghost function View(): Solver
      reads this, graph
    {
      Solver(graph.View(), verticesOne, verticesTwo, verticesGreaterThanThree, independentSet, stack)
    }

    ghost function State(): Machine
      reads this, graph, graph.vertices.Values
    {
      Machine(View(), graph.Degrees())
    }

    /** The adjacency lists mention vertices only; nothing is said of fields, marks or buckets. */
    ghost predicate Usable()
      reads graph, graph.vertices.Values
    {
      graph.Shaped() && Known(graph.View())
    }

    constructor (graph: UndirectedGraph)
      requires graph.Shaped()
      modifies graph`live, graph.vertices.Values
      ensures this.graph == graph && graph.Shaped()
      ensures State() == Start(old(graph.View()), old(graph.Degrees()))
    {
      this.graph := graph;
      verticesOne, verticesTwo, verticesGreaterThanThree, independentSet := {}, {}, {}, {};
      stack := [];
      new;
      SortAll();
    }

    /** NewSolution's loop over the vertices, in no particular order. */
    method SortAll()
      requires graph.Shaped() && View() == Solver(graph.View(), {}, {}, {}, {}, [])
      modifies this, graph`live, graph.vertices.Values
      ensures graph.Shaped() && State() == Start(old(graph.View()), old(graph.Degrees()))
    {
      ghost var g, deg, done := graph.View(), graph.Degrees(), {};
      var todo := graph.vertices.Keys;
      assert g.live - {} == g.live;
      while todo != {}
        invariant todo <= graph.vertices.Keys && graph.Shaped() && graph.Degrees() == deg
        invariant done == graph.vertices.Keys - todo && View() == Sorted(g, deg, done)
      {
        var id :| id in todo;
        SortedOneMore(g, deg, done, id);
        SortVertex(id, deg);
        todo, done := todo - {id}, done + {id};
      }
      assert done == g.adj.Keys;
    }

    /** One turn of NewSolution's loop. */
    method SortVertex(id: nat, ghost deg: Degrees)
      requires graph.Shaped() && id in graph.vertices && graph.Degrees() == deg
      modifies this, graph`live, graph.vertices.Values
      ensures graph.Shaped() && graph.Degrees() == deg
      ensures View() == OneSorted(old(View()), id, FieldOf(deg, id))
    {
      var v := graph.vertices[id];
      assert v.degree == FieldOf(deg, id);
      match v.degree {
        case 0 =>
          independentSet := independentSet + {v.txId};
          graph.MarkDeleted(id);
        case 1 =>
          verticesOne := verticesOne + {v.txId};
        case 2 =>
          verticesTwo := verticesTwo + {v.txId};
        case _ =>
          verticesGreaterThanThree := verticesGreaterThanThree + {v.txId};
      }
    }

    // ---------- deleting a vertex ----------

    /** In any state: the vertex is marked and leaves one bucket, chosen by its field, and, unless the field
        is zero, each listed vertex that is not marked moves down one degree. */
    method DeleteVertex(id: nat)
      requires Usable() && id in graph.vertices
      modifies this, graph`live, graph.vertices.Values
      ensures Usable() && State() == AfterDelete(old(State()), id)
    {
      ghost var f := State();
      MarkDeleted(id);
      if graph.vertices[id].degree == 0 {
        return;
      }
      ghost var f1 := State();
      var neighbours := graph.adjacencyMap[id];
      for i := 0 to |neighbours|
        invariant Usable() && graph.adjacencyMap == f.m.g.adj && State() == Steps(f1, neighbours[..i])
      {
        assert neighbours[..i + 1][..i] == neighbours[..i];
        assert Adjacent(graph.View(), id, neighbours[i]);
        StepDown(neighbours[i]);
      }
      assert neighbours[..|neighbours|] == neighbours;
    }

    /** The head of deleteVertex: the mark, and the vertex's own bucket. */
    method MarkDeleted(id: nat)
      requires Usable() && id in graph.vertices
      modifies this, graph`live, graph.vertices.Values
      ensures Usable() && State() == Marked(old(State()), id)
    {
      ghost var g := graph.View();
      graph.MarkDeleted(id);
      KnownSame(g, graph.View());
      LeaveBucket(id, graph.vertices[id].degree);
    }

    /** A vertex with a field of d leaves its bucket. */
    method LeaveBucket(id: nat, d: int)
      modifies this
      ensures View() == LeftBucket(old(View()), id, d)
    {
      match d {
        case 1 =>
          verticesOne := verticesOne - {id};
        case 2 =>
          verticesTwo := verticesTwo - {id};
        case _ =>
          verticesGreaterThanThree := verticesGreaterThanThree - {id};
      }
    }

    /** One turn of deleteVertex's loop. */
    method StepDown(neighbourId: nat)
      requires Usable() && neighbourId in graph.vertices
      modifies this, graph.vertices.Values
      ensures Usable() && State() == Step(old(State()), neighbourId)
    {
      if !graph.vertices[neighbourId].isDeleted {
        graph.LowerOne(neighbourId);
        MoveDown(neighbourId, graph.vertices[neighbourId].degree);
      }
    }

    /** The bucket change that goes with a field that has just become d. */
    method MoveDown(id: nat, d: int)
      modifies this
      ensures View() == Moved(old(View()), id, d)
    {
      match d {
        case 0 =>
          independentSet := independentSet + {id};
          verticesOne := verticesOne - {id};
        case 1 =>
          verticesOne := verticesOne + {id};
          verticesTwo := verticesTwo - {id};
        case 2 =>
          verticesTwo := verticesTwo + {id};
          verticesGreaterThanThree := verticesGreaterThanThree - {id};
        case _ =>
      }
    }

    // ---------- the degree-one reduction ----------

    method DegreeOneReduction()
      requires Usable() && verticesOne != {} && verticesOne <= graph.vertices.Keys
      modifies this, graph`live, graph.vertices.Values
      ensures Usable() && OneTurn(old(State()), State())
    {
      ghost var f := State();
      var txId :| txId in verticesOne;
      verticesOne := verticesOne - {txId};
      ghost var after := AfterOne(f, txId);
      LookAtAll(txId);
      assert State() == after;
    }

    /** degreeOneReduction's loop. */
    method LookAtAll(txId: nat)
      requires Usable() && txId in graph.vertices
      modifies this, graph`live, graph.vertices.Values
      ensures Usable() && State() == AfterDeletes(old(State()), Listed(old(graph.View()), txId))
    {
      ghost var f := State();
      var neighbours := graph.adjacencyMap[txId];
      for i := 0 to |neighbours|
        invariant Usable() && graph.adjacencyMap == f.m.g.adj && State() == AfterDeletes(f, neighbours[..i])
      {
        assert neighbours[..i + 1][..i] == neighbours[..i];
        assert Adjacent(graph.View(), txId, neighbours[i]);
        LookAt(neighbours[i]);
      }
      assert neighbours[..|neighbours|] == neighbours;
    }

    /** One turn of degreeOneReduction's loop. */
    method LookAt(neighbourId: nat)
      requires Usable() && neighbourId in graph.vertices
      modifies this, graph`live, graph.vertices.Values
      ensures Usable() && State() == AfterLook(old(State()), neighbourId)
      ensures graph.adjacencyMap == old(graph.adjacencyMap)
    {
      if !graph.vertices[neighbourId].isDeleted {
        DeleteVertex(neighbourId);
      }
    }

    // ---------- the peeling step ----------

    method InexactReduction()
      requires Usable() && verticesGreaterThanThree <= graph.vertices.Keys
      requires forall x :: x in graph.vertices ==> x < MAX_UINT
      modifies this, graph`live, graph.vertices.Values
      ensures Usable() && PeelTurn(old(State()), State())
    {
      var maxDegree := 0;
      var maxDegreeId := MAX_UINT;
      ghost var f := State();
      var todo := verticesGreaterThanThree;
      while todo != {}
        invariant todo <= verticesGreaterThanThree
        invariant forall x :: x in verticesGreaterThanThree - todo ==> Unsigned(FieldOf(f.deg, x)) <= maxDegree
        invariant maxDegreeId == MAX_UINT ==> maxDegree == 0
        invariant maxDegreeId != MAX_UINT ==>
          maxDegreeId in verticesGreaterThanThree && maxDegree == Unsigned(FieldOf(f.deg, maxDegreeId)) > 0
      {
        var txId :| txId in todo;
        var vertex := graph.vertices[txId];
        if Unsigned(vertex.degree) > maxDegree {
          maxDegree := Unsigned(vertex.degree);
          maxDegreeId := txId;
        }
        todo := todo - {txId};
      }
      if maxDegreeId != MAX_UINT {
        DeleteVertex(maxDegreeId);
        assert Greatest(f, maxDegreeId);
      }
    }

    // ---------- finding a chain ----------

    /** u is the vertex the search began with. */
    method DfsToFindDegreeTwoPath(vId: nat, visited: set<nat>, path: seq<nat>, ghost u: nat, ghost f: Machine)
      returns (visited': set<nat>, path': seq<nat>)
      requires Usable() && f == State() && vId in graph.vertices
      requires visited == Members(path) && vId !in visited && (u == vId || u in visited)
      ensures Usable() && f == State()
      ensures visited' == Members(path') && path' == Search(f.m.g, Twos(f) + {u}, vId, path)
      decreases |Twos(f) + {u} - visited - {vId}|, 1
    {
      visited' := visited + {vId};
      path' := path + [vId];
      ghost var ok := Twos(f) + {u};
      MembersAppend(path, vId);
      var neighbours := graph.adjacencyMap[vId];
      assert neighbours[0..] == neighbours;
      for i := 0 to |neighbours|
        invariant Usable() && f == State()
        invariant visited' == Members(path') && visited + {vId} <= visited' && u in visited'
        invariant SearchEach(f.m.g, ok, neighbours[i..], path') == Search(f.m.g, ok, vId, path)
      {
        var n := neighbours[i];
        assert Adjacent(f.m.g, vId, n);
        SearchStep(f.m.g, ok, neighbours, i, path');
        SubsetCardinality(ok - visited', ok - visited - {vId});
        visited', path' := DfsNeighbour(n, visited', path', u, f);
      }
    }

    /** One turn of its loop. */
    method DfsNeighbour(n: nat, visited: set<nat>, path: seq<nat>, ghost u: nat, ghost f: Machine)
      returns (visited': set<nat>, path': seq<nat>)
      requires Usable() && f == State() && n in graph.vertices && visited == Members(path) && u in visited
      ensures Usable() && f == State() && visited' == Members(path')
      ensures path' == if n in Members(path) || n !in Twos(f) + {u} then path
                       else Search(f.m.g, Twos(f) + {u}, n, path)
      decreases |Twos(f) + {u} - visited|, 0
    {
      visited', path' := visited, path;
      TwoOrStart(f, u, n);
      if n !in visited && graph.vertices[n].degree == 2 && !graph.vertices[n].isDeleted {
        CardinalityWithout(Twos(f) + {u} - visited, n);
        visited', path' := DfsToFindDegreeTwoPath(n, visited, path, u, f);
      }
    }

    /** What the popped vertex reaches through live vertices with a field of two, and whether no listed live
        neighbour leads out of it. */
    method FindLongestDegreeTwoPath(vId: nat) returns (path: seq<nat>, isCycle: bool)
      requires Usable() && vId in graph.vertices
      ensures path == Found(State(), vId) && (isCycle <==> OnCycle(State(), vId))
    {
      var visited: set<nat>;
      assert Members([]) == {};
      visited, path := DfsToFindDegreeTwoPath(vId, {}, [], vId, State());
      assert forall k :: 0 <= k < |path| ==> path[k] in Members(path);
      isCycle := NoneLeadsOut(path, visited);
      ClosedIffAll(graph.View(), visited, path);
    }

    /** The second loop of findLongestDegreeTwoPath. */
    method NoneLeadsOut(path: seq<nat>, visited: set<nat>) returns (isCycle: bool)
      requires Usable() && forall k :: 0 <= k < |path| ==> path[k] in graph.vertices
      ensures isCycle <==> forall k :: 0 <= k < |path| ==> StaysIn(graph.View(), visited, path[k])
    {
      for i := 0 to |path|
        invariant forall k :: 0 <= k < i ==> StaysIn(graph.View(), visited, path[k])
      {
        var leads := LeadsOut(path[i], visited);
        if leads {
          return false;
        }
      }
      return true;
    }

    /** Does a listed neighbour of vId lie outside the visited set and live? */
    method LeadsOut(vId: nat, visited: set<nat>) returns (leads: bool)
      requires Usable() && vId in graph.vertices
      ensures leads <==> !StaysIn(graph.View(), visited, vId)
    {
      var neighbours := graph.adjacencyMap[vId];
      for i := 0 to |neighbours|
        invariant forall y :: y in neighbours[..i] && y in graph.live ==> y in visited
      {
        var n := neighbours[i];
        assert Adjacent(graph.View(), vId, n);
        if n !in visited && !graph.vertices[n].isDeleted {
          return true;
        }
      }
      assert neighbours[..|neighbours|] == neighbours;
      return false;
    }

    // ---------- putting the chain in order ----------

    method DfsToReOrgPath(x: nat, visited: set<nat>, inPath: set<nat>, path: seq<nat>, ghost g: Graph)
      returns (visited': set<nat>, path': seq<nat>)
      requires Usable() && g == graph.View() && x in graph.vertices && visited == Members(path) && x !in visited
      ensures Usable() && g == graph.View()
      ensures visited' == Members(path') && path' == Search(g, inPath * g.live, x, path)
      decreases |inPath * g.live - visited - {x}|
    {
      visited' := visited + {x};
      path' := path + [x];
      ghost var ok := inPath * g.live;
      MembersAppend(path, x);
      var neighbours := graph.adjacencyMap[x];
      assert neighbours[0..] == neighbours;
      for i := 0 to |neighbours|
        invariant Usable() && g == graph.View()
        invariant visited' == Members(path') && visited + {x} <= visited'
        invariant SearchEach(g, ok, neighbours[i..], path') == Search(g, ok, x, path)
      {
        var n := neighbours[i];
        assert Adjacent(g, x, n);
        SearchStep(g, ok, neighbours, i, path');
        assert n in ok <==> !graph.vertices[n].isDeleted && n in inPath;
        if n !in visited' && !graph.vertices[n].isDeleted && n in inPath {
          SmallerRest(ok, visited, visited', x, n);
          visited', path' := DfsToReOrgPath(n, visited', inPath, path', g);
        }
      }
    }

    /** The listed neighbours of vId that live with a field other than two: the first two of them. */
    method FirstOthers(vId: nat) returns (v: nat, w: nat)
      requires Usable() && vId in graph.vertices && forall x :: x in graph.vertices ==> x < MAX_UINT
      ensures v == Nth(OthersOf(State(), vId), 0) && w == Nth(OthersOf(State(), vId), 1)
    {
      v, w := MAX_UINT, MAX_UINT;
      var neighbours := graph.adjacencyMap[vId];
      ghost var f := State();
      for i := 0 to |neighbours|
        invariant v == MAX_UINT <==> |Others(f, neighbours[..i])| == 0
        invariant w == MAX_UINT <==> |Others(f, neighbours[..i])| <= 1
        invariant v == Nth(Others(f, neighbours[..i]), 0) && w == Nth(Others(f, neighbours[..i]), 1)
      {
        var n := neighbours[i];
        assert Adjacent(graph.View(), vId, n);
        OthersStep(f, neighbours, i);
        if !graph.vertices[n].isDeleted && graph.vertices[n].degree != 2 {
          if v == MAX_UINT {
            v := graph.vertices[n].txId;
          } else if w == MAX_UINT {
            w := graph.vertices[n].txId;
          } else {
            OthersGrow(f, neighbours, i);
            return;
          }
        }
      }
      assert neighbours[..|neighbours|] == neighbours;
    }

    /** The first listed neighbour of vId that lives with a field other than two. */
    method FirstOther(vId: nat) returns (other: nat)
      requires Usable() && vId in graph.vertices
      ensures other == Nth(OthersOf(State(), vId), 0)
    {
      var neighbours := graph.adjacencyMap[vId];
      ghost var f := State();
      for i := 0 to |neighbours|
        invariant Others(f, neighbours[..i]) == []
      {
        var n := neighbours[i];
        assert Adjacent(graph.View(), vId, n);
        OthersStep(f, neighbours, i);
        if !graph.vertices[n].isDeleted && graph.vertices[n].degree != 2 {
          FirstHere(f, neighbours, i);
          return n;
        }
      }
      assert neighbours[..|neighbours|] == neighbours;
      return MAX_UINT;
    }

    /** pathReOrg's inner loop: does a listed neighbour of vId live with a field other than two? */
    method HasOther(vId: nat) returns (found: bool)
      requires Usable() && vId in graph.vertices && forall x :: x in graph.vertices ==> x < MAX_UINT
      ensures found <==> OthersOf(State(), vId) != []
    {
      var other := FirstOther(vId);
      OthersLive(State(), Listed(graph.View(), vId));
      assert OthersOf(State(), vId) != [] ==> OthersOf(State(), vId)[0] in OthersOf(State(), vId);
      found := other != MAX_UINT;
    }

    /** The first loop of pathReOrg: the set of the path's vertices, and its first one with such a neighbour. */
    method FindEnd(initPath: seq<nat>) returns (inPath: set<nat>, st: nat)
      requires Usable() && forall x :: x in graph.vertices ==> x < MAX_UINT
      requires forall k :: 0 <= k < |initPath| ==> initPath[k] in graph.vertices
      ensures inPath == Members(initPath) && st == FirstEnd(State(), initPath)
      ensures st == MAX_UINT || st in graph.vertices
    {
      inPath := {};
      st := MAX_UINT;
      ghost var f := State();
      for i := 0 to |initPath|
        invariant inPath == Members(initPath[..i])
        invariant st == MAX_UINT ==> FirstEnd(f, initPath) == FirstEnd(f, initPath[i..])
        invariant st != MAX_UINT ==> st == FirstEnd(f, initPath) && st in graph.vertices
      {
        assert initPath[..i + 1] == initPath[..i] + [initPath[i]];
        assert initPath[i..][1..] == initPath[i + 1..];
        inPath := inPath + {initPath[i]};
        if st == MAX_UINT {
          var found := HasOther(initPath[i]);
          if found {
            st := initPath[i];
          }
        }
      }
      assert initPath[..|initPath|] == initPath;
    }

    /** The vertices of initPath from an end on. Without such an end the source reads through nil. */
    method PathReOrg(initPath: seq<nat>) returns (path: seq<nat>, panicked: bool)
      requires Usable() && forall x :: x in graph.vertices ==> x < MAX_UINT
      requires forall k :: 0 <= k < |initPath| ==> initPath[k] in graph.vertices
      ensures panicked <==> FirstEnd(State(), initPath) == MAX_UINT
      ensures !panicked ==> path == Ordered(State(), initPath)
    {
      path := [];
      var inPath, st := FindEnd(initPath);
      panicked := st == MAX_UINT;
      if !panicked {
        var visited: set<nat>;
        assert Members([]) == {};
        visited, path := DfsToReOrgPath(st, {}, inPath, [], graph.View());
      }
    }

    // ---------- the degree-two reduction ----------

    method FindEnds(path: seq<nat>) returns (v: nat, w: nat)
      requires Usable() && path != [] && Members(path) <= graph.vertices.Keys
      requires forall x :: x in graph.vertices ==> x < MAX_UINT
      ensures v == FirstOf(State(), path) && w == LastOf(State(), path)
    {
      assert path[0] in Members(path) && path[|path| - 1] in Members(path);
      if |path| == 1 {
        v, w := FirstOthers(path[0]);
      } else {
        v := FirstOther(path[0]);
        w := FirstOther(path[|path| - 1]);
      }
    }

    /** Removes path[low..] from the graph and from VerticesTwo. */
    method RemoveStretch(path: seq<nat>, low: nat)
      requires Usable() && low <= |path| && Members(path) <= graph.vertices.Keys
      modifies this`verticesTwo, graph`live, graph.vertices.Values
      ensures Usable() && State() == AfterRemoves(old(State()), path[low..])
    {
      ghost var f, ys := State(), path[low..];
      for i := low to |path|
        invariant Usable() && State() == AfterRemoves(f, ys[..i - low])
      {
        assert ys[..i + 1 - low][..i - low] == ys[..i - low] && ys[i - low] == path[i];
        assert path[i] in Members(path);
        RemoveOne(path[i]);
      }
      assert ys[..|path| - low] == ys;
    }

    method RemoveOne(id: nat)
      requires Usable() && id in graph.vertices
      modifies this`verticesTwo, graph`live, graph.vertices.Values
      ensures Usable() && State() == AfterRemove(old(State()), id)
    {
      ghost var g := graph.View();
      graph.RemoveVertex(id);
      KnownSame(g, graph.View());
      verticesTwo := verticesTwo - {id};
    }

    method Link(a: nat, b: nat)
      requires Usable() && a in graph.vertices && b in graph.vertices
      modifies graph`adjacencyMap, graph.vertices.Values
      ensures Usable() && State() == AfterEdge(old(State()), a, b)
    {
      KnownJoined(graph.View(), a, b);
      graph.AddEdge(a, b);
    }

    /** Pushes path[low..], the last vertex first. */
    method PushStretch(path: seq<nat>, low: nat)
      requires low <= |path|
      modifies this`stack
      ensures State() == Stacked(old(State()), path[low..])
    {
      var i := |path|;
      assert path[low..|path|] == path[low..];
      while i > low
        invariant low <= i <= |path|
        invariant stack + C.Reversed(path[low..i]) == old(stack) + C.Reversed(path[low..])
      {
        i := i - 1;
        assert path[low..i + 1][..i - low] == path[low..i];
        stack := stack + [path[i]];
      }
      assert path[low..low] == [];
    }

    /** Odd chain whose ends are not adjacent: all but its first vertex goes, and that one is linked to w. */
    method ShortenChain(path: seq<nat>, w: nat)
      requires Usable() && path != [] && Members(path) <= graph.vertices.Keys && w in graph.vertices
      modifies this, graph`live, graph`adjacencyMap, graph.vertices.Values
      ensures Usable()
      ensures State() == Stacked(AfterEdge(AfterRemoves(old(State()), path[1..]), path[0], w), path[1..])
    {
      ghost var linked := AfterEdge(AfterRemoves(State(), path[1..]), path[0], w);
      ghost var after := Stacked(linked, path[1..]);
      assert path[0] in Members(path);
      RemoveStretch(path, 1);
      Link(path[0], w);
      assert State() == linked;
      PushStretch(path, 1);
      assert State() == after;
    }

    /** Even chain: it goes, and its ends are joined unless they were. Reports whether an end that was
        adjacent to the other is left with a field of two. */
    method ReplaceChain(path: seq<nat>, v: nat, w: nat) returns (stale: bool)
      requires Usable() && Members(path) <= graph.vertices.Keys && v in graph.vertices && w in graph.vertices
      modifies this, graph`live, graph`adjacencyMap, graph.vertices.Values
      ensures Usable() && State() == Stacked(AfterEdge(AfterRemoves(old(State()), path), v, w), path)
      ensures var r := AfterRemoves(old(State()), path);
        stale <==> HasLiveEdge(r.m.g, v, w) && (FieldOf(r.deg, v) == 2 || FieldOf(r.deg, w) == 2)
    {
      ghost var f := State();
      assert path[0..] == path;
      RemoveStretch(path, 0);
      assert State() == AfterRemoves(f, path);
      stale := LinkEnds(v, w, path);
    }

    /** What follows the removal of an even chain. */
    method LinkEnds(v: nat, w: nat, path: seq<nat>) returns (stale: bool)
      requires Usable() && v in graph.vertices && w in graph.vertices
      modifies this`stack, graph`adjacencyMap, graph.vertices.Values
      ensures Usable() && State() == Stacked(AfterEdge(old(State()), v, w), path)
      ensures var r := old(State());
        stale <==> HasLiveEdge(r.m.g, v, w) && (FieldOf(r.deg, v) == 2 || FieldOf(r.deg, w) == 2)
    {
      ghost var linked := AfterEdge(State(), v, w);
      ghost var after := Stacked(linked, path);
      var joined := graph.HasEdge(v, w);
      stale := joined && (graph.vertices[v].degree == 2 || graph.vertices[w].degree == 2);
      if !joined {
        Link(v, w);
      }
      assert State() == linked;
      PushStretch(path, 0);
      assert State() == after by { assert path[0..] == path; }
    }

    /** The part of degreeTwoPathReduction that follows the search for the chain's ends. */
    method ReduceChain(path: seq<nat>, v: nat, w: nat) returns (stale: bool)
      requires Usable() && path != [] && Members(path) <= graph.vertices.Keys
      requires v in graph.vertices && w in graph.vertices
      modifies this, graph`live, graph`adjacencyMap, graph.vertices.Values
      ensures Usable() && State() == AfterChain(old(State()), path, v, w)
      ensures stale <==> ChainIsStale(old(State()), path, v, w)
    {
      stale := false;
      if v == w {
        DeleteVertex(v);
      } else if |path| % 2 == 1 {
        ReduceOddChain(path, v, w);
      } else {
        stale := ReplaceChain(path, v, w);
      }
    }

    method ReduceOddChain(path: seq<nat>, v: nat, w: nat)
      requires Usable() && path != [] && Members(path) <= graph.vertices.Keys
      requires v in graph.vertices && w in graph.vertices && v != w && |path| % 2 == 1
      modifies this, graph`live, graph`adjacencyMap, graph.vertices.Values
      ensures Usable() && State() == AfterChain(old(State()), path, v, w)
    {
      var joined := graph.HasEdge(v, w);
      if joined {
        DeleteVertex(v);
        DeleteVertex(w);
      } else {
        ShortenChain(path, w);
      }
    }

    /** Pops a vertex and reduces the chain or cycle it lies on. `stale` reports the branch that leaves an end
        with a field of two where it was; `panicked`, that the source reads through a nil pointer. */
    method DegreeTwoPathReduction() returns (panicked: bool, stale: bool)
      requires Usable() && verticesTwo != {} && verticesTwo <= graph.vertices.Keys
      requires forall x :: x in graph.vertices ==> x < MAX_UINT
      modifies this, graph`live, graph`adjacencyMap, graph.vertices.Values
      ensures panicked ==> exists u :: u in old(verticesTwo) && Panics(Popped(old(State()), u), u)
      ensures !panicked ==> Usable() && TwoTurn(old(State()), State(), stale)
    {
      ghost var f := State();
      var uId :| uId in verticesTwo;
      verticesTwo := verticesTwo - {uId};
      assert State() == Popped(f, uId);
      panicked, stale := ReduceFrom(uId);
      assert !panicked ==> TwoTurnOn(f, uId, State(), stale);
    }

    /** The search from the popped vertex, and the reduction of what it finds. */
    method ReduceFrom(uId: nat) returns (panicked: bool, stale: bool)
      requires Usable() && uId in graph.vertices && forall x :: x in graph.vertices ==> x < MAX_UINT
      modifies this, graph`live, graph`adjacencyMap, graph.vertices.Values
      ensures panicked <==> Panics(old(State()), uId)
      ensures !panicked ==> Usable() && State() == AfterTwo(old(State()), uId)
      ensures !panicked ==> (stale <==> TwoIsStale(old(State()), uId))
    {
      var initPath, isCycle := FindLongestDegreeTwoPath(uId);
      panicked, stale := false, false;
      if isCycle {
        DeleteVertex(uId);
      } else {
        panicked, stale := ReduceFound(uId, initPath);
      }
    }

    /** The other branch: what was found is not a whole component. The source panics when it asks for the mark
        of an end that it did not find. */
    method ReduceFound(ghost u: nat, initPath: seq<nat>) returns (panicked: bool, stale: bool)
      requires Usable() && u in graph.vertices && initPath == Found(State(), u) && !OnCycle(State(), u)
      requires forall x :: x in graph.vertices ==> x < MAX_UINT
      modifies this, graph`live, graph`adjacencyMap, graph.vertices.Values
      ensures panicked <==> Panics(old(State()), u)
      ensures !panicked ==> Usable() && State() == AfterTwo(old(State()), u)
      ensures !panicked ==> (stale <==> TwoIsStale(old(State()), u))
    {
      ghost var f := State();
      SearchKnown(f.m.g, Twos(f) + {u}, u);
      stale := false;
      var path;
      path, panicked := PathReOrg(initPath);
      if panicked {
        return;
      }
      OrderedKnown(f, initPath);
      var v, w := FindEnds(path);
      if w == MAX_UINT {
        panicked := true;
        return;
      }
      EndsKnown(f, path);
      stale := ReduceChain(path, v, w);
    }

    // ---------- the worklist loop ----------

    /** One turn of the loop, from any state. */
    method TakeTurn() returns (panicked: bool, stale: bool)
      requires graph.Shaped() && Holds(State()) && !BucketsEmpty(View())
      requires forall x :: x in graph.vertices ==> x < MAX_UINT
      modifies this, graph`live, graph`adjacencyMap, graph.vertices.Values
      ensures panicked ==> TurnPanics(old(State()))
      ensures !panicked ==> graph.Shaped() && Holds(State()) && MachineTurn(old(State()), State(), stale)
    {
      ghost var f := State();
      panicked, stale := DoTurn();
      if !panicked {
        TurnHolds(f, State(), stale);
      }
    }

    /** The three branches of the loop. */
    method DoTurn() returns (panicked: bool, stale: bool)
      requires Usable() && !BucketsEmpty(View())
      requires verticesOne + verticesTwo + verticesGreaterThanThree <= graph.vertices.Keys
      requires forall x :: x in graph.vertices ==> x < MAX_UINT
      modifies this, graph`live, graph`adjacencyMap, graph.vertices.Values
      ensures panicked ==> TurnPanics(old(State()))
      ensures !panicked ==> Usable() && MachineTurn(old(State()), State(), stale)
    {
      panicked, stale := false, false;
      if |verticesOne| > 0 {
        DegreeOneReduction();
      } else if |verticesTwo| > 0 {
        panicked, stale := DegreeTwoPathReduction();
      } else {
        InexactReduction();
      }
    }

    /** Runs the worklist until the buckets are empty. Once a turn leaves an end stale the source's loop never
        ends (NeverEndsAfter); the model stops there and reports it by halts == false. */
    method EmptyBuckets() returns (halts: bool, ghost run: seq<Machine>)
      requires Usable() && Clean(State()) && forall x :: x in graph.vertices ==> x < MAX_UINT
      modifies this, graph`live, graph`adjacencyMap, graph.vertices.Values
      ensures Usable() && Agrees(State())
      ensures LeadsTo(old(State()), run, State(), halts)
    {
      ghost var f0, f := State(), State();
      run := [f];
      StartsHere(f);
      while |verticesOne| > 0 || |verticesTwo| > 0 || |verticesGreaterThanThree| > 0
        invariant Usable() && f == State() && forall x :: x in graph.vertices ==> x < MAX_UINT
        invariant GoesOn(f0, run, f)
        decreases |f.m.g.live|, |f.m.two|
      {
        var stale;
        stale, f, run := NextTurn(f0, run, f);
        if stale {
          return false, run;
        }
      }
      EndsHere(f0, run, f);
      return true, run;
    }

    /** One turn from a clean state, and what it means for the loop. */
    method NextTurn(ghost f0: Machine, ghost run: seq<Machine>, ghost f: Machine)
      returns (stale: bool, ghost f': Machine, ghost run': seq<Machine>)
      requires Usable() && f == State() && GoesOn(f0, run, f) && !BucketsEmpty(f.m)
      requires forall x :: x in graph.vertices ==> x < MAX_UINT
      modifies this, graph`live, graph`adjacencyMap, graph.vertices.Values
      ensures Usable() && f' == State() && Agrees(f')
      ensures stale ==> LeadsTo(f0, run', f', false)
      ensures !stale ==> GoesOn(f0, run', f') && Smaller(f', f)
    {
      CleanHolds(f);
      var panicked;
      panicked, stale := TakeTurn();
      f', run' := State(), run + [State()];
      TurnLeads(f0, run, f, f', panicked, stale);
    }

    method Pop() returns (v: nat)
      modifies this`stack
      ensures old(stack) == [] ==> v == MAX_UINT && stack == []
      ensures old(stack) != [] ==> old(stack) == stack + [v] && v in old(stack)
    {
      if |stack| == 0 {
        return MAX_UINT;
      }
      v := stack[|stack| - 1];
      stack := stack[..|stack| - 1];
    }

    /** May the stacked vertex join? Only if every neighbour it ever had is live and not chosen. */
    method CanAdd(id: nat) returns (canAdd: bool)
      requires Usable() && id in graph.vertices
      ensures canAdd <==> forall y :: y in graph.adjacencyMap[id] ==> y in graph.live && y !in independentSet
    {
      var neighbours := graph.adjacencyMap[id];
      for i := 0 to |neighbours|
        invariant forall y :: y in neighbours[..i] ==> y in graph.live && y !in independentSet
      {
        assert Adjacent(graph.View(), id, neighbours[i]);
        if graph.vertices[neighbours[i]].isDeleted || neighbours[i] in independentSet {
          return false;
        }
      }
      assert neighbours[..|neighbours|] == neighbours;
      return true;
    }

    /** Empties the buckets, then tries the stacked vertices. When the loop halts, every vertex still
        live is chosen; so no stacked vertex can join, and the pass over the stack changes nothing. */
    method Solve() returns (halts: bool, ghost run: seq<Machine>)
      requires Usable() && Clean(State()) && forall x :: x in graph.vertices ==> x < MAX_UINT
      modifies this, graph`live, graph`adjacencyMap, graph.vertices.Values
      ensures Usable() && Agrees(State())
      ensures run != [] && LeadsTo(old(State()), run, run[|run| - 1], halts)
      ensures State() == run[|run| - 1].(m := run[|run| - 1].m.(stack := stack)) && (halts ==> stack == [])
      ensures halts ==> graph.live <= independentSet && Independent(graph.adjacencyMap, independentSet)
    {
      halts, run := EmptyBuckets();
      if !halts {
        return;
      }
      EndedChooses(State());
      TryAll();
    }

    /** The pass over the stack when every live vertex is chosen: it only empties the stack. */
    method TryAll()
      requires Usable() && StackDead(graph.View(), stack) && graph.live <= independentSet
      requires forall x :: x in graph.vertices ==> x < MAX_UINT
      modifies this`stack, this`independentSet
      ensures stack == [] && State() == old(State()).(m := old(View()).(stack := []))
    {
      ghost var f := State();
      TryStack();
      NoneJoined(f.m.g, f.m.chosen, independentSet);
      assert State() == f.(m := f.m.(stack := []));
    }

    /** The pass over the stack. A vertex joins only if every neighbour listed for it is live and was
        not chosen. */
    method TryStack()
      requires Usable() && StackDead(graph.View(), stack)
      requires forall x :: x in graph.vertices ==> x < MAX_UINT
      modifies this`stack, this`independentSet
      ensures stack == [] && old(independentSet) <= independentSet
      ensures forall x :: x in independentSet - old(independentSet) ==> MayJoin(graph.View(), old(independentSet), x)
    {
      ghost var g, chosen := graph.View(), independentSet;
      var id := Pop();
      while id != MAX_UINT
        invariant chosen <= independentSet && StackDead(g, stack)
        invariant forall x :: x in independentSet - chosen ==> MayJoin(g, chosen, x)
        invariant id != MAX_UINT ==> id in g.adj && g.adj[id] != []
        invariant id == MAX_UINT ==> stack == []
        decreases |stack| + if id == MAX_UINT then 0 else 1
      {
        var canAdd := CanAdd(id);
        if canAdd {
          independentSet := independentSet + {id};
        }
        id := Pop();
      }
    }
  }

  /** x has listed neighbours, all of them live and none of them chosen. */
  ghost predicate MayJoin(g: Graph, chosen: set<nat>, x: nat) {
    x in g.adj && g.adj[x] != [] && forall y :: y in g.adj[x] ==> y in g.live && y !in chosen
  }

  /** With every live vertex chosen no stacked vertex can join. */
  lemma NoneJoined(g: Graph, chosen: set<nat>, now: set<nat>)
    requires g.live <= chosen <= now
    requires forall x :: x in now - chosen ==> MayJoin(g, chosen, x)
    ensures now == chosen
  {
    forall x | x in now
      ensures x in chosen
    {
      assert x in g.adj && g.adj[x] != [] ==> g.adj[x][0] in g.adj[x];
      assert !MayJoin(g, chosen, x);
    }
  }

  /** Every live neighbour of x is in T. */
  ghost predicate StaysIn(g: Graph, T: set<nat>, x: nat) {
    forall y :: Adjacent(g, x, y) && y in g.live ==> y in T
  }

  lemma ClosedIffAll(g: Graph, T: set<nat>, path: seq<nat>)
    requires T == Members(path)
    ensures Closed(g, g.live, T) <==> forall k :: 0 <= k < |path| ==> StaysIn(g, T, path[k])
  {
  }

  /** One turn of a search's loop. */
  lemma SearchStep(g: Graph, ok: set<nat>, ys: seq<nat>, i: nat, seen: seq<nat>)
    requires i < |ys|
    ensures var next := if ys[i] in Members(seen) || ys[i] !in ok then seen else Search(g, ok, ys[i], seen);
      && SearchEach(g, ok, ys[i..], seen) == SearchEach(g, ok, ys[i + 1..], next)
      && Members(seen) <= Members(next)
  {
    assert ys[i..][1..] == ys[i + 1..] && ys[i..][0] == ys[i];
    MembersOfPrefix(seen, if ys[i] in Members(seen) || ys[i] !in ok then seen else Search(g, ok, ys[i], seen));
  }

  lemma TwoOrStart(f: Machine, u: nat, n: nat)
    ensures n in Twos(f) + {u} <==> n == u || (n in f.m.g.live && FieldOf(f.deg, n) == 2)
  {
  }

  lemma SmallerRest(ok: set<nat>, before: set<nat>, now: set<nat>, x: nat, n: nat)
    requires before + {x} <= now && n in ok && n !in now
    ensures |ok - now - {n}| < |ok - before - {x}|
  {
    CardinalityWithout(ok - now, n);
    SubsetCardinality(ok - now, ok - before - {x});
  }

  lemma OthersStep(f: Machine, ys: seq<nat>, i: nat)
    requires i < |ys|
    ensures Others(f, ys[..i + 1])
         == if ys[i] in f.m.g.live && FieldOf(f.deg, ys[i]) != 2 then Others(f, ys[..i]) + [ys[i]]
            else Others(f, ys[..i])
  {
    assert ys[..i + 1][..i] == ys[..i];
    assert Others(f, ys[..i]) + [] == Others(f, ys[..i]);
  }

  /** Others of more of the list only adds at the end. */
  lemma {:induction false} OthersGrow(f: Machine, ys: seq<nat>, i: nat)
    requires i <= |ys|
    ensures Others(f, ys[..i]) <= Others(f, ys)
    decreases |ys| - i
  {
    if i == |ys| {
      assert ys[..i] == ys;
    } else {
      assert ys[..i + 1][..i] == ys[..i];
      OthersGrow(f, ys, i + 1);
    }
  }

  lemma FirstHere(f: Machine, ys: seq<nat>, i: nat)
    requires i < |ys| && Others(f, ys[..i]) == [] && ys[i] in f.m.g.live && FieldOf(f.deg, ys[i]) != 2
    ensures Nth(Others(f, ys), 0) == ys[i]
  {
    OthersStep(f, ys, i);
    OthersGrow(f, ys, i + 1);
    assert Others(f, ys[..i + 1]) == [ys[i]];
  }

  lemma CleanHolds(f: Machine)
    requires Clean(f)
    ensures Holds(f)
  {
    TwosAreDegreeTwo(f);
  }

  /** A turn from a clean state does not panic, makes progress and leaves the fields right. */
  lemma CleanTurn(f: Machine, f': Machine, panicked: bool, stale: bool)
    requires Clean(f) && (panicked ==> TurnPanics(f)) && (!panicked ==> MachineTurn(f, f', stale))
    ensures !panicked && MachineTurn(f, f', stale) && Progress(f.m, f'.m) && Agrees(f')
    ensures !stale ==> Clean(f')
  {
    NoPanic(f);
    CleanOrDoomed(f, f', stale);
    TurnAgrees(f, f', stale);
  }

  /** run leads from f0 to f without a stale turn, and the loop has not ended. */
  ghost predicate GoesOn(f0: Machine, run: seq<Machine>, f: Machine) {
    Clean(f) && Unspoilt(run) && run[0] == f0 && run[|run| - 1] == f && Since(f0.m, f.m)
  }

  /** run leads from f0 to f: to the end of the loop, or to the first state with a stale end. */
  ghost predicate LeadsTo(f0: Machine, run: seq<Machine>, f: Machine, ends: bool) {
    && run != [] && run[0] == f0 && run[|run| - 1] == f && Since(f0.m, f.m)
    && if ends then EndedRun(run) && Clean(f) else StaleRun(run)
  }

  lemma StartsHere(f: Machine)
    requires Clean(f)
    ensures GoesOn(f, [f], f)
  {
  }

  lemma EndsHere(f0: Machine, run: seq<Machine>, f: Machine)
    requires GoesOn(f0, run, f) && BucketsEmpty(f.m)
    ensures LeadsTo(f0, run, f, true) && Agrees(f)
  {
  }

  /** The measure of the loop. */
  ghost predicate Smaller(f': Machine, f: Machine) {
    || |f'.m.g.live| < |f.m.g.live|
    || (|f'.m.g.live| == |f.m.g.live| && |f'.m.two| < |f.m.two|)
  }

  lemma TurnLeads(f0: Machine, run: seq<Machine>, f: Machine, f': Machine, panicked: bool, stale: bool)
    requires GoesOn(f0, run, f) && (panicked ==> TurnPanics(f)) && (!panicked ==> MachineTurn(f, f', stale))
    ensures !panicked && Agrees(f')
    ensures stale ==> LeadsTo(f0, run + [f'], f', false)
    ensures !stale ==> GoesOn(f0, run + [f'], f') && Smaller(f', f)
  {
    CleanTurn(f, f', panicked, stale);
    SinceTurn(f0.m, f.m, f'.m);
    RunLonger(run, f', stale);
  }

  /** When the loop has ended, every vertex still live is chosen, and the choice is independent. */
  lemma EndedChooses(f: Machine)
    requires Clean(f) && BucketsEmpty(f.m)
    ensures f.m.g.live <= f.m.chosen && Independent(f.m.g.adj, f.m.chosen) && StackDead(f.m.g, f.m.stack)
  {
    EmptyBucketsChooseLive(f.m);
    ChosenIndependent(f.m.g, f.m.chosen);
  }

  lemma RunLonger(run: seq<Machine>, f: Machine, stale: bool)
    requires Unspoilt(run) && MachineTurn(run[|run| - 1], f, stale)
    ensures if stale then StaleRun(run + [f]) else Unspoilt(run + [f])
  {
    var all := run + [f];
    assert all[..|all| - 1] == run;
    if !stale {
      forall i | 0 < i < |all|
        ensures MachineTurn(all[i - 1], all[i], false)
      {
        if i < |run| {
          assert all[i] == run[i];
        }
      }
    }
  }
}
