/** A deleted vertex left in VerticesGreaterThanThree with a field of one or two is there for good: no
    operation of the loop removes it, whatever state the solver is in. */
module Stuck {
  import opened Fields
  import opened Graphs
  import opened Machines
  import opened Reachability

  ghost predicate StuckAt(f: Machine, x: nat) {
    x in f.m.three && x !in f.m.g.live && x !in f.m.two && x in f.deg && f.deg[x] in {1, 2}
  }

  lemma MarkedKeeps(f: Machine, id: nat, x: nat)
    requires StuckAt(f, x)
    ensures StuckAt(Marked(f, id), x)
  {
  }

  lemma StepKeeps(f: Machine, y: nat, x: nat)
    requires StuckAt(f, x)
    ensures StuckAt(Step(f, y), x)
  {
  }

  lemma {:induction false} StepsKeep(f: Machine, ys: seq<nat>, x: nat)
    requires StuckAt(f, x)
    ensures StuckAt(Steps(f, ys), x)
  {
    if ys != [] {
      StepsKeep(f, ys[..|ys| - 1], x);
      StepKeeps(Steps(f, ys[..|ys| - 1]), ys[|ys| - 1], x);
    }
  }

  lemma DeleteKeeps(f: Machine, id: nat, x: nat)
    requires StuckAt(f, x)
    ensures StuckAt(AfterDelete(f, id), x)
  {
    MarkedKeeps(f, id, x);
    StepsKeep(Marked(f, id), Listed(f.m.g, id), x);
  }

  lemma {:induction false} DeletesKeep(f: Machine, ys: seq<nat>, x: nat)
    requires StuckAt(f, x)
    ensures StuckAt(AfterDeletes(f, ys), x)
  {
    if ys != [] {
      DeletesKeep(f, ys[..|ys| - 1], x);
      DeleteKeeps(AfterDeletes(f, ys[..|ys| - 1]), ys[|ys| - 1], x);
    }
  }

  /** RemoveVertex's loop leaves the fields of vertices marked deleted alone. */
  lemma {:induction false} LoweredKeepsDead(g: Graph, deg: Degrees, ys: seq<nat>, x: nat)
    requires x !in g.live && x in deg
    ensures x in Lowered(g, deg, ys) && Lowered(g, deg, ys)[x] == deg[x]
  {
    if ys != [] {
      LoweredKeepsDead(g, deg, ys[..|ys| - 1], x);
    }
  }

  lemma RemoveKeeps(f: Machine, y: nat, x: nat)
    requires StuckAt(f, x)
    ensures StuckAt(AfterRemove(f, y), x)
  {
    var h := Without(f.m.g, y);
    LoweredKeepsDead(h, f.deg, Listed(h, y), x);
  }

  lemma {:induction false} RemovesKeep(f: Machine, ys: seq<nat>, x: nat)
    requires StuckAt(f, x)
    ensures StuckAt(AfterRemoves(f, ys), x)
  {
    if ys != [] {
      RemovesKeep(f, ys[..|ys| - 1], x);
      RemoveKeeps(AfterRemoves(f, ys[..|ys| - 1]), ys[|ys| - 1], x);
    }
  }

  lemma EdgeKeeps(f: Machine, a: nat, b: nat, x: nat)
    requires StuckAt(f, x) && x != a && x != b
    ensures StuckAt(AfterEdge(f, a, b), x)
  {
  }

  lemma {:induction false} OthersLive(f: Machine, ys: seq<nat>)
    ensures forall y :: y in Others(f, ys) ==> y in ys && y in f.m.g.live && FieldOf(f.deg, y) != 2
  {
    if ys != [] {
      OthersLive(f, ys[..|ys| - 1]);
    }
  }

  lemma {:induction false} FirstEndListed(f: Machine, path: seq<nat>)
    ensures FirstEnd(f, path) == MAX_UINT || (FirstEnd(f, path) in path && OthersOf(f, FirstEnd(f, path)) != [])
  {
    if path != [] {
      FirstEndListed(f, path[1..]);
    }
  }

  /** Nothing a degree-two reduction adds an edge to is a stuck vertex. */
  lemma ChainAvoids(f: Machine, u: nat, x: nat)
    requires StuckAt(f, x) && u != x && !OnCycle(f, u) && !Panics(f, u)
    ensures var p := Ordered(f, Found(f, u));
      p != [] && x != p[0] && x != FirstOf(f, p) && x != LastOf(f, p)
  {
    var found := Found(f, u);
    var p := Ordered(f, found);
    FirstEndListed(f, found);
    OthersLive(f, Listed(f.m.g, p[0]));
    OthersLive(f, Listed(f.m.g, p[|p| - 1]));
    assert Members(found) <= {u} + Twos(f);
    assert p[0] in Members(found);
  }

  lemma ChainKeeps(f: Machine, p: seq<nat>, v: nat, w: nat, x: nat)
    requires StuckAt(f, x) && p != [] && x != p[0] && x != v && x != w
    ensures StuckAt(AfterChain(f, p, v, w), x)
  {
    if v == w {
      DeleteKeeps(f, v, x);
    } else if |p| % 2 == 0 {
      RemovesKeep(f, p, x);
      EdgeKeeps(AfterRemoves(f, p), v, w, x);
    } else if HasLiveEdge(f.m.g, v, w) {
      DeleteKeeps(f, v, x);
      DeleteKeeps(AfterDelete(f, v), w, x);
    } else {
      RemovesKeep(f, p[1..], x);
      EdgeKeeps(AfterRemoves(f, p[1..]), p[0], w, x);
    }
  }

  /** Whatever turn the loop takes, from whatever state, what is stuck stays stuck. */
  lemma TurnKeepsStuck(f: Machine, f': Machine, stale: bool, x: nat)
    requires StuckAt(f, x) && MachineTurn(f, f', stale)
    ensures StuckAt(f', x)
  {
    if f.m.one != {} {
      var y :| y in f.m.one && f' == AfterOne(f, y);
      DeletesKeep(f.(m := f.m.(one := f.m.one - {y})), Listed(f.m.g, y), x);
    } else if f.m.two != {} {
      var u :| TwoTurnOn(f, u, f', stale);
      TwoKeeps(Popped(f, u), u, x);
    } else if y :| Greatest(f, y) && f' == AfterDelete(f, y) {
      DeleteKeeps(f, y, x);
    }
  }

  lemma TwoKeeps(f: Machine, u: nat, x: nat)
    requires StuckAt(f, x) && u != x && !Panics(f, u)
    ensures StuckAt(AfterTwo(f, u), x)
  {
    if OnCycle(f, u) {
      DeleteKeeps(f, u, x);
    } else {
      var p := Ordered(f, Found(f, u));
      ChainAvoids(f, u, x);
      ChainKeeps(f, p, FirstOf(f, p), LastOf(f, p), x);
    }
  }
}
