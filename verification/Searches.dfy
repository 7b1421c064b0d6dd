/** Depth-first search as a function: what the solver's two searches list, in the order they list it. */
module Searches {
  import opened Fields
  import opened Graphs
  import opened Paths
  import opened Reachability

  lemma MembersOfPrefix(a: seq<nat>, b: seq<nat>)
    requires a <= b
    ensures Members(a) <= Members(b)
  {
    assert b == a + b[|a|..];
  }

  /** A search call on x that may enter the vertices of ok; `seen` lists what was visited before, in order. */
  ghost function Search(g: Graph, ok: set<nat>, x: nat, seen: seq<nat>): (r: seq<nat>)
    ensures seen + [x] <= r && Members(r) <= Members(seen) + {x} + ok
    decreases |ok - Members(seen) - {x}|, |Listed(g, x)| + 1
  {
    MembersAppend(seen, x);
    assert ok - Members(seen + [x]) == ok - Members(seen) - {x};
    SearchEach(g, ok, Listed(g, x), seen + [x])
  }

  /** Its loop over the neighbours ys. */
  ghost function SearchEach(g: Graph, ok: set<nat>, ys: seq<nat>, seen: seq<nat>): (r: seq<nat>)
    ensures seen <= r && Members(r) <= Members(seen) + ok
    decreases |ok - Members(seen)|, |ys|
  {
    if ys == [] then seen
    else if ys[0] in seen || ys[0] !in ok then SearchEach(g, ok, ys[1..], seen)
    else
      CardinalityWithout(ok - Members(seen), ys[0]);
      var now := Search(g, ok, ys[0], seen);
      MembersOfPrefix(seen, now);
      SubsetCardinality(ok - Members(now), ok - Members(seen));
      SearchEach(g, ok, ys[1..], now)
  }

  /** A search call visits, once each, exactly what x reaches through ok outside what was visited. */
  lemma {:induction false} SearchExplores(g: Graph, ok: set<nat>, x: nat, seen: seq<nat>)
    requires Known(g) && ok <= g.adj.Keys && x in ok && x !in seen
    ensures Explored(g, ok, x, Members(seen), Members(Search(g, ok, x, seen)))
    ensures Grew(seen, Search(g, ok, x, seen), Members(Search(g, ok, x, seen)) - Members(seen))
    decreases |ok - Members(seen) - {x}|, |Listed(g, x)| + 1
  {
    var now := seen + [x];
    MembersAppend(seen, x);
    assert ok - Members(now) == ok - Members(seen) - {x};
    GrewByOne(seen, x);
    assert Members(now) - Members(seen) == {x};
    assert g.adj[x][0..] == Listed(g, x);
    EachExplores(g, ok, x, seen, 0, now);
  }

  lemma {:induction false} EachExplores(g: Graph, ok: set<nat>, x: nat, seen: seq<nat>, i: nat, now: seq<nat>)
    requires Known(g) && ok <= g.adj.Keys && x in ok && i <= |g.adj[x]|
    requires Exploring(g, ok, x, Members(seen), Members(now), i)
    requires Grew(seen, now, Members(now) - Members(seen))
    ensures var r := SearchEach(g, ok, g.adj[x][i..], now);
      Explored(g, ok, x, Members(seen), Members(r)) && Grew(seen, r, Members(r) - Members(seen))
    decreases |ok - Members(now)|, |g.adj[x]| - i
  {
    if i == |g.adj[x]| {
      ExploringDone(g, ok, x, Members(seen), Members(now));
    } else {
      var n := g.adj[x][i];
      var next := if n in now || n !in ok then now else Search(g, ok, n, now);
      if n !in now && n in ok {
        CardinalityWithout(ok - Members(now), n);
        SearchExplores(g, ok, n, now);
        GrewAgain(seen, now, next, Members(seen), Members(now), Members(next));
      }
      SubsetCardinality(ok - Members(next), ok - Members(now));
      ExploringStep(g, ok, x, Members(seen), Members(now), i, Members(next));
      assert g.adj[x][i..][1..] == g.adj[x][i + 1..];
      EachExplores(g, ok, x, seen, i + 1, next);
    }
  }

  /** A search from scratch lists one component. */
  lemma SearchIsComponent(g: Graph, ok: set<nat>, x: nat)
    requires Known(g) && ok <= g.adj.Keys && x in ok
    ensures Distinct(Search(g, ok, x, [])) && IsComponent(g, ok, x, Members(Search(g, ok, x, [])))
  {
    SearchExplores(g, ok, x, []);
    var r := Search(g, ok, x, []);
    assert r[0..] == r && Members(r) - Members([]) == Members(r);
  }

  /** From a vertex with one way on, a search among degree-two vertices lists them in chain order. */
  lemma {:induction false} SearchFollows(g: Graph, S: set<nat>, x: nat, seen: seq<nat>)
    requires WellFormed(g) && S <= OfDegree(g, 2) && x in S - Members(seen)
    requires OneWayOn(g, S, Members(seen), x)
    ensures Consecutive(g, Search(g, S, x, seen)[|seen|..])
    decreases |S - Members(seen) - {x}|, |Listed(g, x)| + 1
  {
    var now := seen + [x];
    MembersAppend(seen, x);
    assert S - Members(now) == S - Members(seen) - {x};
    assert Members(now) - Members(seen) == {x};
    assert g.adj[x][0..] == Listed(g, x);
    assert now[|seen|..] == [x];
    EachFollows(g, S, x, seen, 0, now, false);
  }

  lemma {:induction false} EachFollows(g: Graph, S: set<nat>, x: nat, seen: seq<nat>, i: nat, now: seq<nat>,
                                       moved: bool)
    requires WellFormed(g) && S <= OfDegree(g, 2) && x in S && i <= |g.adj[x]|
    requires OneWayOn(g, S, Members(seen), x) && seen + [x] <= now
    requires !moved ==> now == seen + [x]
    requires moved ==> AllVisited(g, S, Members(now), x)
    requires Consecutive(g, now[|seen|..])
    ensures Consecutive(g, SearchEach(g, S, g.adj[x][i..], now)[|seen|..])
    decreases |S - Members(now)|, |g.adj[x]| - i
  {
    if i < |g.adj[x]| {
      var n := g.adj[x][i];
      assert Adjacent(g, x, n) && Adjacent(g, n, x);
      assert g.adj[x][i..][1..] == g.adj[x][i + 1..];
      if n in now || n !in S {
        EachFollows(g, S, x, seen, i + 1, now, moved);
      } else {
        assert now == seen + [x];
        NextFollows(g, S, x, seen, n);
        CardinalityWithout(S - Members(now), n);
        EachFollows(g, S, x, seen, i + 1, Search(g, S, n, now), true);
      }
    }
  }

  /** The one way on from x leads to n, and the search goes on from there. */
  lemma {:induction false} NextFollows(g: Graph, S: set<nat>, x: nat, seen: seq<nat>, n: nat)
    requires WellFormed(g) && S <= OfDegree(g, 2) && x in S && Adjacent(g, x, n) && Adjacent(g, n, x)
    requires n in S - Members(seen + [x]) && OneWayOn(g, S, Members(seen), x)
    ensures var next := Search(g, S, n, seen + [x]);
      && seen + [x] <= next && Consecutive(g, next[|seen|..]) && AllVisited(g, S, Members(next), x)
      && |S - Members(next)| < |S - Members(seen + [x])|
    decreases |S - Members(seen + [x])|, 0
  {
    var now := seen + [x];
    assert x in Members(now) && x in Neighbours(g, n);
    OneWayOnFrom(g, S, Members(now), n, x);
    CardinalityWithout(S - Members(now), n);
    SearchFollows(g, S, n, now);
    var next := Search(g, S, n, now);
    assert now + [n] <= next && next[|now|] == n;
    MembersOfPrefix(now + [n], next);
    MembersAppend(now, n);
    MembersAppend(seen, x);
    ShrinkingRest(S, Members(now), Members(next), n);
    ConsecutiveAfter(g, seen, x, next, n);
    OnlyWayTaken(g, S, Members(seen), Members(next), x, n);
  }
}
