/** The directed conflict graph, whose degree fields are in-degrees, and its layered schedule. */
module DirectedGraphs {
  import opened Graphs
  import opened Reachability
  import opened Layers
  import opened UndirectedGraphs

  class DirectedGraph {
    var vertices: map<nat, Vertex>
    var adjacencyMap: map<nat, set<nat>>

    ghost predicate Shaped()
      reads this, vertices.Values
    {
      && vertices.Keys == adjacencyMap.Keys && Proper(adjacencyMap)
      && (forall id {:trigger vertices[id]} :: id in vertices ==> vertices[id].txId == id)
    }

    /** Degree fields count the predecessors outside `done`. */
    ghost predicate CountsLeft(done: set<nat>)
      reads this, vertices.Values
    {
      forall v {:trigger Left(adjacencyMap, v, done)} ::
        v in vertices ==> vertices[v].degree == Left(adjacencyMap, v, done)
    }

    ghost predicate Valid()
      reads this, vertices.Values
    {
      Shaped() && CountsLeft({})
    }

    constructor ()
      ensures Valid() && adjacencyMap == map[] && vertices == map[]
    {
      vertices := map[];
      adjacencyMap := map[];
    }

    method AddVertex(tx: nat, id: nat)
      requires Valid()
      modifies this
      ensures Valid() && fresh(vertices.Values - old(vertices.Values))
      ensures adjacencyMap == if id in old(adjacencyMap) then old(adjacencyMap) else WithNode(old(adjacencyMap), id)
    {
      if id in vertices {
        return;
      }
      var v := new Vertex(id, tx);
      ProperWithNode(adjacencyMap, id);
      ghost var arcs := adjacencyMap;
      assert forall y :: y in vertices ==> vertices[y].degree == Left(arcs, y, {});
      vertices := vertices[id := v];
      adjacencyMap := adjacencyMap[id := {}];
    }

    method HasEdge(source: nat, destination: nat) returns (b: bool)
      requires source in adjacencyMap
      ensures b <==> Arc(adjacencyMap, source, destination)
    {
      return destination in adjacencyMap[source];
    }

    method AddEdge(source: nat, destination: nat)
      requires Valid() && source in vertices && destination in vertices
      modifies this`adjacencyMap, vertices.Values
      ensures Valid()
      ensures adjacencyMap == WithArc(old(adjacencyMap), source, destination)
    {
      var found := HasEdge(source, destination);
      if found {
        assert adjacencyMap[source] + {destination} == adjacencyMap[source];
        return;
      }
      ProperWithArc(adjacencyMap, source, destination);
      adjacencyMap := adjacencyMap[source := adjacencyMap[source] + {destination}];
      vertices[destination].degree := vertices[destination].degree + 1;
    }

    // ---------- the layered schedule ----------

    method ZeroDegrees() returns (degreeZero: seq<nat>)
      requires Valid()
      ensures Distinct(degreeZero) && Members(degreeZero) == Layer(adjacencyMap, 0)
    {
      degreeZero := [];
      var todo := vertices.Keys;
      ghost var first := Layer(adjacencyMap, 0);
      assert first <= vertices.Keys;
      while todo != {}
        invariant todo <= vertices.Keys && Collected(degreeZero, {}, first, todo)
      {
        var id :| id in todo;
        NoPreds(adjacencyMap, id);
        CollectedStep(degreeZero, {}, first, todo, id);
        if vertices[id].degree == 0 {
          degreeZero := degreeZero + [id];
        }
        todo := todo - {id};
      }
    }

    /** One vertex of the current layer is consumed: its successors lose one predecessor, and those
        left with none join the next layer. */
    method Consume(vid: nat, newDegreeZero: seq<nat>, ghost done: set<nat>) returns (newDegreeZero': seq<nat>)
      requires Shaped() && CountsLeft(done) && vid in vertices && vid !in done && Distinct(newDegreeZero)
      requires Members(newDegreeZero) !! Freed(adjacencyMap, vid, done)
      modifies vertices.Values
      ensures Shaped() && CountsLeft(done + {vid}) && Distinct(newDegreeZero')
      ensures Members(newDegreeZero') == Members(newDegreeZero) + Freed(adjacencyMap, vid, done)
    {
      newDegreeZero' := newDegreeZero;
      var todo := adjacencyMap[vid];
      ghost var arcs, new0 := adjacencyMap, Members(newDegreeZero);
      ghost var freed := Freed(arcs, vid, done);
      forall v | v in vertices && v !in todo { NotSuccessor(arcs, vid, v, done); }
      while todo != {}
        invariant todo <= arcs[vid] && Shaped() && Counting(vid, done, todo)
        invariant Collected(newDegreeZero', new0, freed, todo)
      {
        var neighbourId :| neighbourId in todo;
        assert Arc(arcs, vid, neighbourId);
        CollectedStep(newDegreeZero', new0, freed, todo, neighbourId);
        OnePredFewer(arcs, vid, neighbourId, done);
        LosePredecessor(vid, neighbourId, done, todo);
        if vertices[neighbourId].degree == 0 {
          newDegreeZero' := newDegreeZero' + [neighbourId];
        }
        todo := todo - {neighbourId};
      }
    }

    method LosePredecessor(ghost vid: nat, neighbourId: nat, ghost done: set<nat>, ghost todo: set<nat>)
      requires Shaped() && Counting(vid, done, todo) && neighbourId in todo && neighbourId in vertices
      requires Arc(adjacencyMap, vid, neighbourId) && vid !in done
      modifies vertices.Values
      ensures Shaped() && Counting(vid, done, todo - {neighbourId})
      ensures vertices[neighbourId].degree == Left(adjacencyMap, neighbourId, done + {vid})
    {
      OnePredFewer(adjacencyMap, vid, neighbourId, done);
      vertices[neighbourId].degree := vertices[neighbourId].degree - 1;
    }

    /** One round of the outer loop: the whole layer k of the arcs is consumed, giving layer k + 1. */
    method ConsumeLayer(ghost arcs: Arcs, degreeZero: seq<nat>, ghost k: nat) returns (newDegreeZero: seq<nat>)
      requires Shaped() && arcs == adjacencyMap && CountsLeft(Before(arcs, k))
      requires Distinct(degreeZero) && Members(degreeZero) == Layer(arcs, k)
      modifies vertices.Values
      ensures Shaped() && CountsLeft(Before(arcs, k + 1))
      ensures Distinct(newDegreeZero) && Members(newDegreeZero) == Layer(arcs, k + 1)
    {
      newDegreeZero := [];
      ghost var done := Before(arcs, k);
      LayerConsumed(arcs, k, degreeZero);
      for i := 0 to |degreeZero|
        invariant Shaped() && CountsLeft(done) && NextSoFar(arcs, k, degreeZero, i, done, newDegreeZero)
      {
        ghost var list := newDegreeZero;
        var vid := degreeZero[i];
        LayerReady(arcs, k, degreeZero, i, done, list);
        newDegreeZero := Consume(vid, newDegreeZero, done);
        LayerStep(arcs, k, degreeZero, i, done, list, newDegreeZero);
        done := done + {vid};
      }
      LayerFinished(arcs, k, degreeZero, done, newDegreeZero);
    }

    /** One turn of the schedule's loop: the next layer, if there is one. */
    method NextLayer(ghost arcs: Arcs, ans: seq<seq<nat>>, ghost k: nat, ghost left: nat)
      returns (newDegreeZero: seq<nat>, ghost left': nat)
      requires Shaped() && arcs == adjacencyMap && Scheduled(arcs, ans, k, left)
      requires CountsLeft(Before(arcs, k))
      modifies vertices.Values
      ensures Shaped() && CountsLeft(Before(arcs, k + 1))
      ensures newDegreeZero == [] ==> AreLayers(arcs, ans)
      ensures newDegreeZero != [] ==> Scheduled(arcs, ans + [newDegreeZero], k + 1, left') && left' < left
    {
      LayerAt(arcs, ans, k);
      newDegreeZero := ConsumeLayer(arcs, ans[|ans| - 1], k);
      left' := NextLayerFound(arcs, ans, k, left, newDegreeZero);
    }

    /** The layered schedule. Consumes the degree fields. */
    method GetDegreeZero() returns (ans: seq<seq<nat>>)
      requires Valid()
      modifies vertices.Values
      ensures AreLayers(adjacencyMap, ans)
    {
      ghost var arcs := adjacencyMap;
      var degreeZero := ZeroDegrees();
      ans := [degreeZero];
      ghost var k := 0;
      ghost var left := ScheduleStarts(arcs, degreeZero);
      var finished := false;
      while !finished
        invariant finished ==> AreLayers(arcs, ans)
        invariant !finished ==> Shaped() && CountsLeft(Before(arcs, k)) && Scheduled(arcs, ans, k, left)
        decreases left, !finished
      {
        ghost var left0 := left;
        degreeZero, left := NextLayer(arcs, ans, k, left);
        if |degreeZero| == 0 {
          finished := true;
          left := left0;
        } else {
          ans := ans + [degreeZero];
          k := k + 1;
        }
      }
    }

    /** Inside Consume: the successors in todo have not been looked at. */
    ghost predicate Counting(vid: nat, done: set<nat>, todo: set<nat>)
      reads this, vertices.Values
    {
      forall v {:trigger vertices[v]} :: v in vertices ==>
        vertices[v].degree == Left(adjacencyMap, v, if v in todo then done else done + {vid})
    }
  }

  lemma ReadyWith(arcs: Arcs, done: set<nat>, vid: nat)
    requires Proper(arcs) && vid !in done
    ensures Ready(arcs, done + {vid}) == Ready(arcs, done) + Freed(arcs, vid, done)
    ensures Ready(arcs, done) !! Freed(arcs, vid, done)
  {
  }

  /** Layer k is consumed up to its i-th vertex: what is done, and what is known to come next. */
  ghost predicate NextSoFar(arcs: Arcs, k: nat, layer: seq<nat>, i: nat, done: set<nat>, list: seq<nat>) {
    && i <= |layer| && done == Before(arcs, k) + Members(layer[..i])
    && Distinct(list) && Members(list) == Ready(arcs, done) - Before(arcs, k + 1)
  }

  lemma LayerReady(arcs: Arcs, k: nat, layer: seq<nat>, i: nat, done: set<nat>, list: seq<nat>)
    requires Proper(arcs) && Distinct(layer) && Members(layer) == Layer(arcs, k) && i < |layer|
    requires NextSoFar(arcs, k, layer, i, done, list)
    ensures layer[i] in arcs && layer[i] !in done
    ensures Members(list) !! Freed(arcs, layer[i], done)
  {
    DistinctAt(layer, i);
    assert layer[i] in Members(layer);
    ReadyWith(arcs, done, layer[i]);
  }

  lemma LayerStep(arcs: Arcs, k: nat, layer: seq<nat>, i: nat, done: set<nat>, list: seq<nat>, list': seq<nat>)
    requires Proper(arcs) && i < |layer| && layer[i] !in done
    requires NextSoFar(arcs, k, layer, i, done, list)
    requires Distinct(list') && Members(list') == Members(list) + Freed(arcs, layer[i], done)
    ensures NextSoFar(arcs, k, layer, i + 1, done + {layer[i]}, list')
  {
  }

  lemma LayerConsumed(arcs: Arcs, k: nat, layer: seq<nat>)
    ensures NextSoFar(arcs, k, layer, 0, Before(arcs, k), [])
  {
  }

  lemma LayerFinished(arcs: Arcs, k: nat, layer: seq<nat>, done: set<nat>, list: seq<nat>)
    requires Members(layer) == Layer(arcs, k) && NextSoFar(arcs, k, layer, |layer|, done, list)
    ensures done == Before(arcs, k + 1) && Members(list) == Layer(arcs, k + 1)
  {
    BeforeGrows(arcs, k);
    assert layer[..|layer|] == layer;
    assert done == Before(arcs, k + 1);
    assert Before(arcs, k + 2) == Ready(arcs, Before(arcs, k + 1));
  }

  /** How many vertices do not run in the first k rounds. */
  ghost function LeftAfter(arcs: Arcs, k: nat): nat {
    |arcs.Keys - Before(arcs, k)|
  }

  /** Layers 0 to k, and how many vertices they leave over. */
  ghost predicate Scheduled(arcs: Arcs, layers: seq<seq<nat>>, k: nat, left: nat) {
    FirstLayers(arcs, layers) && |layers| == k + 1 && left == LeftAfter(arcs, k + 1)
  }

  lemma ScheduleStarts(arcs: Arcs, layer: seq<nat>) returns (left: nat)
    requires Distinct(layer) && Members(layer) == Layer(arcs, 0)
    ensures Scheduled(arcs, [layer], 0, left) && Before(arcs, 0) == {}
  {
    left := LeftAfter(arcs, 1);
  }

  lemma NextLayerFound(arcs: Arcs, layers: seq<seq<nat>>, k: nat, left: nat, next: seq<nat>) returns (left': nat)
    requires Scheduled(arcs, layers, k, left)
    requires Distinct(next) && Members(next) == Layer(arcs, k + 1)
    ensures next == [] ==> AreLayers(arcs, layers)
    ensures next != [] ==> Scheduled(arcs, layers + [next], k + 1, left') && left' < left
  {
    OneMoreLayer(arcs, layers, next);
    left' := LeftAfter(arcs, k + 2);
    if next != [] {
      MoreRun(arcs, k + 1);
    }
  }

  lemma MoreRun(arcs: Arcs, k: nat)
    requires Layer(arcs, k) != {}
    ensures LeftAfter(arcs, k + 1) < LeftAfter(arcs, k)
  {
    var v :| v in Layer(arcs, k);
    BeforeGrows(arcs, k);
    BeforeAreVertices(arcs, k + 1);
    SubsetCardinality(arcs.Keys - Before(arcs, k + 1), arcs.Keys - Before(arcs, k) - {v});
    CardinalityWithout(arcs.Keys - Before(arcs, k), v);
  }

  /** The successors of vid whose predecessors are all in done, vid itself aside. */
  ghost function Freed(arcs: Arcs, vid: nat, done: set<nat>): set<nat> {
    set v | v in arcs && Arc(arcs, vid, v) && Preds(arcs, v) <= done + {vid}
  }

  /** The predecessors of v that are not done. */
  ghost function Waiting(arcs: Arcs, v: nat, done: set<nat>): set<nat> {
    set u | u in arcs && u !in done && Arc(arcs, u, v)
  }

  ghost function Left(arcs: Arcs, v: nat, done: set<nat>): nat {
    |Waiting(arcs, v, done)|
  }

  ghost function WithNode(arcs: Arcs, id: nat): Arcs {
    arcs[id := {}]
  }

  lemma ProperWithNode(arcs: Arcs, id: nat)
    requires Proper(arcs) && id !in arcs
    ensures Proper(WithNode(arcs, id)) && Left(WithNode(arcs, id), id, {}) == 0
    ensures forall v :: v in arcs ==> Left(WithNode(arcs, id), v, {}) == Left(arcs, v, {})
  {
    forall u, v
      ensures Arc(WithNode(arcs, id), u, v) <==> Arc(arcs, u, v)
      ensures Arc(arcs, u, v) ==> v != id
    {
    }
    forall v
      ensures Waiting(WithNode(arcs, id), v, {}) == Waiting(arcs, v, {})
    {
    }
    assert Waiting(arcs, id, {}) == {};
  }

  ghost function WithArc(arcs: Arcs, a: nat, b: nat): Arcs
    requires a in arcs
  {
    arcs[a := arcs[a] + {b}]
  }

  lemma WaitingWithArc(arcs: Arcs, a: nat, b: nat, v: nat)
    requires a in arcs
    ensures Waiting(WithArc(arcs, a, b), v, {}) == Waiting(arcs, v, {}) + (if v == b then {a} else {})
  {
  }

  lemma ProperWithArc(arcs: Arcs, a: nat, b: nat)
    requires Proper(arcs) && a in arcs && b in arcs && !Arc(arcs, a, b)
    ensures Proper(WithArc(arcs, a, b))
    ensures forall v :: v in arcs ==> Left(WithArc(arcs, a, b), v, {}) == Left(arcs, v, {}) + (if v == b then 1 else 0)
  {
    forall u, v
      ensures Arc(WithArc(arcs, a, b), u, v) <==> Arc(arcs, u, v) || (u == a && v == b)
    {
    }
    forall v | v in arcs
      ensures Left(WithArc(arcs, a, b), v, {}) == Left(arcs, v, {}) + (if v == b then 1 else 0)
    {
      LeftWithArc(arcs, a, b, v);
    }
  }

  lemma LeftWithArc(arcs: Arcs, a: nat, b: nat, v: nat)
    requires a in arcs && !Arc(arcs, a, b)
    ensures Left(WithArc(arcs, a, b), v, {}) == Left(arcs, v, {}) + (if v == b then 1 else 0)
  {
    WaitingWithArc(arcs, a, b, v);
    assert v == b ==> a !in Waiting(arcs, v, {});
  }

  lemma NoPreds(arcs: Arcs, v: nat)
    requires v in arcs
    ensures Left(arcs, v, {}) == 0 <==> v in Layer(arcs, 0)
  {
  }

  lemma OnePredFewer(arcs: Arcs, vid: nat, v: nat, done: set<nat>)
    requires Arc(arcs, vid, v) && vid !in done && v in arcs
    ensures Left(arcs, v, done + {vid}) == Left(arcs, v, done) - 1
    ensures Left(arcs, v, done + {vid}) == 0 <==> v in Freed(arcs, vid, done)
  {
    var left := Waiting(arcs, v, done);
    assert vid in left;
    CardinalityWithout(left, vid);
    assert Waiting(arcs, v, done + {vid}) == left - {vid};
    assert left - {vid} == {} <==> Preds(arcs, v) <= done + {vid};
  }

  lemma NotSuccessor(arcs: Arcs, vid: nat, v: nat, done: set<nat>)
    requires !Arc(arcs, vid, v)
    ensures Left(arcs, v, done + {vid}) == Left(arcs, v, done)
  {
    assert Waiting(arcs, v, done + {vid}) == Waiting(arcs, v, done);
  }

  /** The list of freed vertices while todo holds the successors not looked at. */
  ghost predicate Collected(list: seq<nat>, old0: set<nat>, freed: set<nat>, todo: set<nat>) {
    Distinct(list) && Members(list) == old0 + (freed - todo)
  }

  lemma CollectedStep(list: seq<nat>, old0: set<nat>, freed: set<nat>, todo: set<nat>, v: nat)
    requires Collected(list, old0, freed, todo) && old0 !! freed && v in todo
    ensures v in freed ==> Collected(list + [v], old0, freed, todo - {v})
    ensures v !in freed ==> Collected(list, old0, freed, todo - {v})
  {
  }
}
