/** Whatever turns the loop takes, every id in a bucket stays a vertex and every listed neighbour does, so
    that the loop can go on reading them. */
module Holdings {
  import opened Fields
  import opened Graphs
  import opened Machines
  import opened Reachability
  import opened Searches
  import opened Stuck

  ghost predicate Holds(f: Machine) {
    && Known(f.m.g) && f.deg.Keys == f.m.g.adj.Keys
    && f.m.one + f.m.two + f.m.three + f.m.g.live <= f.m.g.adj.Keys
  }

  /** f' holds what a state on the same adjacency lists may hold. */
  ghost predicate StillHolds(f: Machine, f': Machine) {
    Holds(f) ==> Holds(f') && f'.m.g.adj == f.m.g.adj
  }

  lemma StepHolds(f: Machine, y: nat)
    ensures StillHolds(f, Step(f, y))
  {
    if Holds(f) {
      KnownSame(f.m.g, Step(f, y).m.g);
    }
  }

  lemma {:induction false} StepsHold(f: Machine, ys: seq<nat>)
    ensures StillHolds(f, Steps(f, ys))
  {
    if ys != [] {
      StepsHold(f, ys[..|ys| - 1]);
      StepHolds(Steps(f, ys[..|ys| - 1]), ys[|ys| - 1]);
    }
  }

  lemma DeleteHolds(f: Machine, id: nat)
    ensures StillHolds(f, AfterDelete(f, id))
  {
    if Holds(f) {
      KnownSame(f.m.g, Marked(f, id).m.g);
    }
    StepsHold(Marked(f, id), Listed(f.m.g, id));
  }

  lemma {:induction false} DeletesHold(f: Machine, ys: seq<nat>)
    ensures StillHolds(f, AfterDeletes(f, ys))
  {
    if ys != [] {
      DeletesHold(f, ys[..|ys| - 1]);
      DeleteHolds(AfterDeletes(f, ys[..|ys| - 1]), ys[|ys| - 1]);
    }
  }

  lemma {:induction false} LoweredKeys(g: Graph, deg: Degrees, ys: seq<nat>)
    ensures Lowered(g, deg, ys).Keys == deg.Keys
  {
    if ys != [] {
      LoweredKeys(g, deg, ys[..|ys| - 1]);
    }
  }

  lemma {:induction false} RemovesHold(f: Machine, ys: seq<nat>)
    ensures StillHolds(f, AfterRemoves(f, ys))
  {
    if ys != [] {
      RemovesHold(f, ys[..|ys| - 1]);
      RemoveHolds(AfterRemoves(f, ys[..|ys| - 1]), ys[|ys| - 1]);
    }
  }

  lemma RemoveHolds(f: Machine, y: nat)
    ensures StillHolds(f, AfterRemove(f, y))
  {
    var h := Without(f.m.g, y);
    LoweredKeys(h, f.deg, Listed(h, y));
    if Holds(f) {
      KnownSame(f.m.g, h);
    }
  }

  lemma KnownJoined(g: Graph, a: nat, b: nat)
    requires Known(g) && a in g.adj && b in g.adj
    ensures Known(Joined(g, a, b))
  {
    forall x, y | Adjacent(Joined(g, a, b), x, y)
      ensures y in Joined(g, a, b).adj
    {
      assert Adjacent(g, x, y) || y == a || y == b;
    }
  }

  lemma SearchKnown(g: Graph, ok: set<nat>, x: nat)
    requires ok <= g.adj.Keys && x in g.adj
    ensures forall k :: 0 <= k < |Search(g, ok, x, [])| ==> Search(g, ok, x, [])[k] in g.adj
  {
    var r := Search(g, ok, x, []);
    assert Members([]) == {};
    forall k | 0 <= k < |r|
      ensures r[k] in g.adj
    {
      assert r[k] in Members(r);
    }
  }

  lemma OrderedKnown(f: Machine, found: seq<nat>)
    requires FirstEnd(f, found) != MAX_UINT && f.m.g.live <= f.m.g.adj.Keys
    requires forall k :: 0 <= k < |found| ==> found[k] in f.m.g.adj
    ensures Ordered(f, found) != [] && Members(Ordered(f, found)) <= f.m.g.adj.Keys
    ensures OthersOf(f, Ordered(f, found)[0]) != []
  {
    FirstEndListed(f, found);
    assert FirstEnd(f, found) in Members(found);
    assert Members([]) == {};
  }

  lemma EndsKnown(f: Machine, p: seq<nat>)
    requires p != [] && OthersOf(f, p[0]) != [] && LastOf(f, p) != MAX_UINT
    ensures FirstOf(f, p) in f.m.g.live && LastOf(f, p) in f.m.g.live
  {
    OthersLive(f, Listed(f.m.g, p[0]));
    OthersLive(f, Listed(f.m.g, p[|p| - 1]));
  }

  lemma EdgeHolds(f: Machine, a: nat, b: nat)
    requires Holds(f) && a in f.m.g.adj && b in f.m.g.adj
    ensures Holds(AfterEdge(f, a, b)) && AfterEdge(f, a, b).m.g.adj.Keys == f.m.g.adj.Keys
  {
    KnownJoined(f.m.g, a, b);
  }

  lemma ChainHolds(f: Machine, p: seq<nat>, v: nat, w: nat)
    requires Holds(f) && p != [] && p[0] in f.m.g.adj && v in f.m.g.adj && w in f.m.g.adj
    ensures var f' := AfterChain(f, p, v, w); Holds(f') && f'.m.g.adj.Keys == f.m.g.adj.Keys
  {
    if v == w {
      DeleteHolds(f, v);
    } else if |p| % 2 == 0 {
      RemovesHold(f, p);
      EdgeHolds(AfterRemoves(f, p), v, w);
    } else if HasLiveEdge(f.m.g, v, w) {
      DeleteHolds(f, v);
      DeleteHolds(AfterDelete(f, v), w);
    } else {
      RemovesHold(f, p[1..]);
      EdgeHolds(AfterRemoves(f, p[1..]), p[0], w);
    }
  }

  lemma TwoHolds(f: Machine, u: nat)
    requires Holds(f) && u in f.m.g.adj && !Panics(f, u)
    ensures var f' := AfterTwo(f, u); Holds(f') && f'.m.g.adj.Keys == f.m.g.adj.Keys
  {
    if OnCycle(f, u) {
      DeleteHolds(f, u);
    } else {
      SearchKnown(f.m.g, Twos(f) + {u}, u);
      OrderedKnown(f, Found(f, u));
      var p := Ordered(f, Found(f, u));
      assert p[0] in Members(p);
      EndsKnown(f, p);
      ChainHolds(f, p, FirstOf(f, p), LastOf(f, p));
    }
  }

  /** Any turn that returns leaves the loop able to take the next one. */
  lemma TurnHolds(f: Machine, f': Machine, stale: bool)
    requires Holds(f) && MachineTurn(f, f', stale)
    ensures Holds(f') && f'.m.g.adj.Keys == f.m.g.adj.Keys
  {
    if f.m.one != {} {
      var x :| x in f.m.one && f' == AfterOne(f, x);
      DeletesHold(f.(m := f.m.(one := f.m.one - {x})), Listed(f.m.g, x));
    } else if f.m.two != {} {
      var u :| TwoTurnOn(f, u, f', stale);
      TwoHolds(Popped(f, u), u);
    } else if x :| Greatest(f, x) && f' == AfterDelete(f, x) {
      DeleteHolds(f, x);
    }
  }
}
