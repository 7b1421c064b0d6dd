/** Layers of a directed graph: a vertex's layer is the length of the longest path ending at it. */
module Layers {
  import opened Graphs
  import opened Reachability

  /** For each vertex its successors; every successor is a vertex. */
  type Arcs = map<nat, set<nat>>

  ghost predicate Proper(arcs: Arcs) {
    forall u, v :: Arc(arcs, u, v) ==> v in arcs
  }

  ghost predicate Arc(arcs: Arcs, u: nat, v: nat) {
    u in arcs && v in arcs[u]
  }

  ghost function Preds(arcs: Arcs, v: nat): set<nat> {
    set u | u in arcs && Arc(arcs, u, v)
  }

  /** The vertices all of whose predecessors are in s. */
  ghost function Ready(arcs: Arcs, s: set<nat>): set<nat> {
    set v | v in arcs && Preds(arcs, v) <= s
  }

  /** The vertices that can run in the first k rounds: all their predecessors ran in earlier ones. */
  ghost function Before(arcs: Arcs, k: nat): set<nat> {
    if k == 0 then {} else Ready(arcs, Before(arcs, k - 1))
  }

  ghost function Layer(arcs: Arcs, k: nat): set<nat> {
    Before(arcs, k + 1) - Before(arcs, k)
  }

  lemma {:induction false} BeforeGrows(arcs: Arcs, k: nat)
    ensures Before(arcs, k) <= Before(arcs, k + 1)
  {
    if k > 0 {
      BeforeGrows(arcs, k - 1);
    }
  }

  lemma {:induction false} BeforeMonotone(arcs: Arcs, j: nat, k: nat)
    requires j <= k
    ensures Before(arcs, j) <= Before(arcs, k)
    decreases k
  {
    if j < k {
      BeforeMonotone(arcs, j, k - 1);
      BeforeGrows(arcs, k - 1);
    }
  }

  /** Arcs from smaller to larger ids, as between transactions of a block. */
  ghost predicate Forward(arcs: Arcs) {
    forall u, v :: Arc(arcs, u, v) ==> u < v
  }

  /** The lists are the first layers, none of them empty but possibly layer 0. */
  ghost predicate FirstLayers(arcs: Arcs, layers: seq<seq<nat>>) {
    && |layers| >= 1
    && (forall k {:trigger layers[k]} ::
          0 <= k < |layers| ==> Distinct(layers[k]) && Members(layers[k]) == Layer(arcs, k))
    && (forall k :: 1 <= k < |layers| ==> layers[k] != [])
  }

  /** The lists are all the layers: no further layer has a vertex. */
  ghost predicate AreLayers(arcs: Arcs, layers: seq<seq<nat>>) {
    FirstLayers(arcs, layers) && Layer(arcs, |layers|) == {}
  }

  lemma LayerAt(arcs: Arcs, layers: seq<seq<nat>>, k: nat)
    requires FirstLayers(arcs, layers) && k < |layers|
    ensures Distinct(layers[k]) && Members(layers[k]) == Layer(arcs, k)
  {
  }

  lemma OneMoreLayer(arcs: Arcs, layers: seq<seq<nat>>, next: seq<nat>)
    requires FirstLayers(arcs, layers) && Distinct(next) && Members(next) == Layer(arcs, |layers|)
    ensures next == [] ==> AreLayers(arcs, layers)
    ensures next != [] ==> FirstLayers(arcs, layers + [next]) && Layer(arcs, |layers|) != {}
  {
    if next != [] {
      assert next[0] in Members(next);
    }
  }

  // ---------- every vertex is in a layer ----------

  lemma EmptyLayerIsEnd(arcs: Arcs, n: nat, k: nat)
    requires Layer(arcs, n) == {} && n <= k
    ensures Before(arcs, k) == Before(arcs, n)
  {
    EmptyLayerStays(arcs, n);
    StaysFrom(arcs, n, k - n);
  }

  lemma {:induction false} StaysFrom(arcs: Arcs, n: nat, d: nat)
    requires Before(arcs, n + 1) == Before(arcs, n)
    ensures Before(arcs, n + d) == Before(arcs, n)
    decreases d
  {
    if d > 0 {
      StaysFrom(arcs, n, d - 1);
      SameNext(arcs, n + d - 1, n);
    }
  }

  lemma EmptyLayerStays(arcs: Arcs, n: nat)
    requires Layer(arcs, n) == {}
    ensures Before(arcs, n + 1) == Before(arcs, n)
  {
    BeforeGrows(arcs, n);
    forall v | v in Before(arcs, n + 1)
      ensures v in Before(arcs, n)
    {
      assert v !in Layer(arcs, n);
    }
  }

  lemma SameNext(arcs: Arcs, i: nat, j: nat)
    requires Before(arcs, i) == Before(arcs, j)
    ensures Before(arcs, i + 1) == Before(arcs, j + 1)
  {
  }

  /** In a forward graph vertex v runs within the first v + 1 rounds. */
  lemma {:induction false} ForwardRuns(arcs: Arcs, v: nat)
    requires Forward(arcs) && v in arcs
    ensures v in Before(arcs, v + 1)
  {
    forall u | u in Preds(arcs, v)
      ensures u in Before(arcs, v)
    {
      ForwardRuns(arcs, u);
      BeforeMonotone(arcs, u + 1, v);
    }
  }

  lemma ForwardRunsBy(arcs: Arcs, n: nat, v: nat)
    requires Forward(arcs) && Layer(arcs, n) == {} && v in arcs
    ensures v in Before(arcs, n)
  {
    ForwardRuns(arcs, v);
    if v + 1 <= n {
      BeforeMonotone(arcs, v + 1, n);
    } else {
      EmptyLayerIsEnd(arcs, n, v + 1);
    }
  }

  lemma ForwardAllRun(arcs: Arcs, n: nat)
    requires Forward(arcs) && Layer(arcs, n) == {}
    ensures Before(arcs, n) == arcs.Keys
  {
    forall v | v in arcs { ForwardRunsBy(arcs, n, v); }
    BeforeAreVertices(arcs, n);
  }

  lemma BeforeAreVertices(arcs: Arcs, k: nat)
    ensures Before(arcs, k) <= arcs.Keys
  {
  }

  lemma {:induction false} LayerOf(arcs: Arcs, n: nat, v: nat) returns (k: nat)
    requires v in Before(arcs, n)
    ensures k < n && v in Layer(arcs, k)
  {
    k := n - 1;
    if v in Before(arcs, n - 1) {
      k := LayerOf(arcs, n - 1, v);
    }
  }

  lemma LayersApart(arcs: Arcs, j: nat, k: nat)
    requires j < k
    ensures Layer(arcs, j) !! Layer(arcs, k)
  {
    BeforeMonotone(arcs, j + 1, k);
  }

  /** The layers of a forward graph hold each of its vertices exactly once. */
  lemma LayersPartition(arcs: Arcs, layers: seq<seq<nat>>)
    requires Forward(arcs) && AreLayers(arcs, layers)
    ensures Covers(layers, arcs.Keys)
    ensures forall i, j :: 0 <= i < j < |layers| ==> Members(layers[i]) !! Members(layers[j])
  {
    ForwardAllRun(arcs, |layers|);
    forall v | v in arcs
      ensures InSome(layers, v)
    {
      var k := LayerOf(arcs, |layers|, v);
      assert v in Members(layers[k]);
    }
    forall v | InSome(layers, v)
      ensures v in arcs
    {
      var k :| 0 <= k < |layers| && v in layers[k];
      assert v in Members(layers[k]);
      BeforeAreVertices(arcs, k + 1);
    }
    forall i, j | 0 <= i < j < |layers|
      ensures Members(layers[i]) !! Members(layers[j])
    {
      LayersApart(arcs, i, j);
    }
  }

  /** An arc leads from an earlier to a later layer. */
  lemma ArcGoesUp(arcs: Arcs, u: nat, v: nat, i: nat, j: nat)
    requires Arc(arcs, u, v) && u in Layer(arcs, i) && v in Layer(arcs, j)
    ensures i < j
  {
    assert u in Preds(arcs, v);
    assert j > 0 && u in Before(arcs, j);
    if j <= i {
      BeforeMonotone(arcs, j, i);
    }
  }

  // ---------- a layer is a longest path ----------

  ghost predicate IsPath(arcs: Arcs, p: seq<nat>) {
    && |p| > 0
    && (forall i :: 0 <= i < |p| ==> p[i] in arcs)
    && (forall i :: 0 <= i < |p| - 1 ==> Arc(arcs, p[i], p[i + 1]))
  }

  lemma {:induction false} PathNoLonger(arcs: Arcs, p: seq<nat>, k: nat)
    requires IsPath(arcs, p) && p[|p| - 1] in Before(arcs, k)
    ensures |p| <= k
  {
    if |p| > 1 {
      var u := p[|p| - 2];
      assert Arc(arcs, u, p[|p| - 1]);
      assert u in Preds(arcs, p[|p| - 1]);
      PathNoLonger(arcs, p[..|p| - 1], k - 1);
    }
  }

  lemma {:induction false} PathThatLong(arcs: Arcs, k: nat, v: nat) returns (p: seq<nat>)
    requires v in Layer(arcs, k)
    ensures IsPath(arcs, p) && p[|p| - 1] == v && |p| == k + 1
  {
    if k == 0 {
      p := [v];
    } else {
      var u :| u in Preds(arcs, v) && u !in Before(arcs, k - 1);
      p := PathThatLong(arcs, k - 1, u);
      p := p + [v];
    }
  }

  /** A vertex is in layer k exactly when the longest path ending at it has k + 1 vertices. */
  lemma LayerIsLongestPath(arcs: Arcs, n: nat, v: nat, k: nat)
    requires v in Before(arcs, n)
    ensures v in Layer(arcs, k) <==>
      && (exists p :: IsPath(arcs, p) && p[|p| - 1] == v && |p| == k + 1)
      && (forall p :: IsPath(arcs, p) && p[|p| - 1] == v ==> |p| <= k + 1)
  {
    var j := LayerOf(arcs, n, v);
    var q := PathThatLong(arcs, j, v);
    forall p | IsPath(arcs, p) && p[|p| - 1] == v
      ensures |p| <= j + 1
    {
      PathNoLonger(arcs, p, j + 1);
    }
    if v in Layer(arcs, k) && j != k {
      LayersApart(arcs, if j < k then j else k, if j < k then k else j);
    }
  }

  /** Any assignment of rounds that respects the arcs gives a layer-k vertex round k or later; so no
      schedule needs fewer rounds than there are layers. */
  lemma {:induction false} NoScheduleIsShorter(arcs: Arcs, round: map<nat, nat>, k: nat, v: nat)
    requires round.Keys == arcs.Keys
    requires forall a, b :: Arc(arcs, a, b) && b in arcs ==> round[a] < round[b]
    requires v in Layer(arcs, k)
    ensures round[v] >= k
  {
    if k > 0 {
      var u :| u in Preds(arcs, v) && u !in Before(arcs, k - 1);
      NoScheduleIsShorter(arcs, round, k - 1, u);
      assert Arc(arcs, u, v);
    }
  }

  /** For a graph with a vertex, the layers are as few rounds as any assignment that respects the arcs can use. */
  lemma FewestRounds(arcs: Arcs, layers: seq<seq<nat>>, round: map<nat, nat>, n: nat)
    requires Forward(arcs) && AreLayers(arcs, layers) && arcs != map[]
    requires round.Keys == arcs.Keys && forall v :: v in round ==> round[v] < n
    requires forall a, b :: Arc(arcs, a, b) && b in arcs ==> round[a] < round[b]
    ensures |layers| <= n
  {
    var v := LastLayerMember(arcs, layers);
    NoScheduleIsShorter(arcs, round, |layers| - 1, v);
  }

  lemma LastLayerMember(arcs: Arcs, layers: seq<seq<nat>>) returns (v: nat)
    requires Forward(arcs) && AreLayers(arcs, layers) && arcs != map[]
    ensures v in Layer(arcs, |layers| - 1) && v in arcs
  {
    var last := |layers| - 1;
    LayerAt(arcs, layers, last);
    BeforeAreVertices(arcs, last + 1);
    if last == 0 {
      v :| v in arcs.Keys;
      ForwardRunsBy(arcs, 1, v);
    } else {
      v := layers[last][0];
      assert v in Members(layers[last]);
    }
  }
}
