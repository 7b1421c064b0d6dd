/** Connected parts of a graph, described twice: as the least set closed under adjacency
    (what a depth-first search computes) and by walks (what "a chain of conflicts" means). */
module Reachability {
  import opened Graphs

  /** An allowed vertex next to a member of T is itself in T. */
  ghost predicate Closed(g: Graph, allowed: set<nat>, T: set<nat>) {
    forall x, y :: x in T && Adjacent(g, x, y) && y in allowed ==> y in T
  }

  /** S is what s reaches through allowed vertices: the least closed set holding s. */
  ghost predicate IsComponent(g: Graph, allowed: set<nat>, s: nat, S: set<nat>) {
    && s in S
    && S <= allowed
    && Closed(g, allowed, S)
    && (forall T :: Closed(g, allowed, T) && s in T ==> S <= T)
  }

  /** A walk through allowed vertices along edges. */
  ghost predicate IsWalk(g: Graph, allowed: set<nat>, p: seq<nat>) {
    && |p| > 0
    && (forall i :: 0 <= i < |p| ==> p[i] in allowed)
    && (forall i :: 0 <= i < |p| - 1 ==> Adjacent(g, p[i], p[i + 1]))
  }

  ghost predicate Linked(g: Graph, allowed: set<nat>, a: nat, b: nat) {
    exists p :: IsWalk(g, allowed, p) && p[0] == a && p[|p| - 1] == b
  }

  // ---------- what a depth-first search call achieves ----------

  /** A call on v grew the visited set from `before` to `after`. */
  ghost predicate Explored(g: Graph, allowed: set<nat>, v: nat, before: set<nat>, after: set<nat>) {
    && v in after
    && before <= after <= before + allowed
    && (forall x, y :: x in after - before && Adjacent(g, x, y) && y in allowed ==> y in after)
    && (forall T :: Closed(g, allowed, T) && v in T ==> after - before <= T)
  }

  /** The same call after its loop has looked at the first i neighbours of v. */
  ghost predicate Exploring(g: Graph, allowed: set<nat>, v: nat, before: set<nat>, now: set<nat>, i: nat)
    requires v in g.adj && i <= |g.adj[v]|
  {
    && v in allowed && v in now
    && before <= now <= before + allowed
    && (forall y :: y in g.adj[v][..i] && y in allowed ==> y in now)
    && (forall x, y :: x in now - before && x != v && Adjacent(g, x, y) && y in allowed ==> y in now)
    && (forall T :: Closed(g, allowed, T) && v in T ==> now - before <= T)
  }

  lemma ExploringStep(g: Graph, allowed: set<nat>, v: nat, before: set<nat>, now: set<nat>, i: nat, next: set<nat>)
    requires v in g.adj && i < |g.adj[v]| && Exploring(g, allowed, v, before, now, i)
    requires if g.adj[v][i] in allowed && g.adj[v][i] !in now
             then Explored(g, allowed, g.adj[v][i], now, next) else next == now
    ensures Exploring(g, allowed, v, before, next, i + 1)
  {
    var n := g.adj[v][i];
    assert g.adj[v][..i + 1] == g.adj[v][..i] + [n];
    forall T | Closed(g, allowed, T) && v in T
      ensures next - before <= T
    {
      assert Adjacent(g, v, n);
    }
    forall x, y | x in next - before && x != v && Adjacent(g, x, y) && y in allowed
      ensures y in next
    {
      if x in now {
        assert y in now;
      }
    }
  }

  lemma ExploringDone(g: Graph, allowed: set<nat>, v: nat, before: set<nat>, now: set<nat>)
    requires v in g.adj && Exploring(g, allowed, v, before, now, |g.adj[v]|)
    ensures Explored(g, allowed, v, before, now)
  {
  }

  /** A search started outside a closed visited set finds exactly one component. */
  lemma ExploredIsComponent(g: Graph, allowed: set<nat>, v: nat, before: set<nat>, after: set<nat>)
    requires WellFormed(g) && Closed(g, allowed, before) && before <= allowed
    requires v in allowed && v !in before && Explored(g, allowed, v, before, after)
    ensures IsComponent(g, allowed, v, after - before)
    ensures Closed(g, allowed, after) && after <= allowed
  {
  }

  // ---------- lists of vertices built by a search ----------

  /** The list grew by exactly the vertices in `added`, each once. */
  ghost predicate Grew(path: seq<nat>, path': seq<nat>, added: set<nat>) {
    && path <= path'
    && (forall x :: x in path'[|path|..] <==> x in added)
    && Distinct(path'[|path|..])
  }

  lemma GrewByOne(path: seq<nat>, x: nat)
    ensures Grew(path, path + [x], {x})
  {
  }

  lemma {:induction false} DistinctConcat(a: seq<nat>, b: seq<nat>)
    requires Distinct(a) && Distinct(b) && forall x :: x in a ==> x !in b
    ensures Distinct(a + b)
  {
    if b == [] {
      assert a + b == a;
    } else {
      DistinctConcat(a, b[..|b| - 1]);
      DistinctAppend(a + b[..|b| - 1], b[|b| - 1]);
      assert a + b[..|b| - 1] + [b[|b| - 1]] == a + b;
    }
  }

  lemma GrewAgain(p: seq<nat>, p1: seq<nat>, p2: seq<nat>, v0: set<nat>, v1: set<nat>, v2: set<nat>)
    requires v0 <= v1 <= v2 && Grew(p, p1, v1 - v0) && Grew(p1, p2, v2 - v1)
    ensures Grew(p, p2, v2 - v0)
  {
    assert p2[|p|..] == p1[|p|..] + p2[|p1|..];
    DistinctConcat(p1[|p|..], p2[|p1|..]);
  }

  // ---------- components ----------

  lemma ComponentOfMember(g: Graph, allowed: set<nat>, s: nat, S: set<nat>, t: nat)
    requires WellFormed(g) && IsComponent(g, allowed, s, S) && t in S
    ensures IsComponent(g, allowed, t, S)
  {
    forall T | Closed(g, allowed, T) && t in T
      ensures S <= T
    {
      var rest := S - T;
      forall x, y | x in rest && Adjacent(g, x, y) && y in allowed
        ensures y in rest
      {
        assert Adjacent(g, y, x);
      }
      assert Closed(g, allowed, rest);
    }
  }

  lemma {:induction false} WalkStaysInside(g: Graph, allowed: set<nat>, p: seq<nat>, T: set<nat>)
    requires IsWalk(g, allowed, p) && Closed(g, allowed, T) && p[0] in T
    ensures p[|p| - 1] in T
  {
    if |p| > 1 {
      WalkStaysInside(g, allowed, p[..|p| - 1], T);
      assert Adjacent(g, p[|p| - 2], p[|p| - 1]);
    }
  }

  lemma LinkedIsClosed(g: Graph, allowed: set<nat>, s: nat)
    ensures Closed(g, allowed, set y | y in allowed && Linked(g, allowed, s, y))
  {
    forall x, y | x in allowed && Linked(g, allowed, s, x) && Adjacent(g, x, y) && y in allowed
      ensures Linked(g, allowed, s, y)
    {
      var p :| IsWalk(g, allowed, p) && p[0] == s && p[|p| - 1] == x;
      assert IsWalk(g, allowed, p + [y]);
    }
  }

  /** The component of s holds exactly the vertices some walk joins to s. */
  lemma ComponentIsLinked(g: Graph, allowed: set<nat>, s: nat, S: set<nat>, t: nat)
    requires IsComponent(g, allowed, s, S)
    ensures t in S <==> Linked(g, allowed, s, t)
  {
    if t in S {
      LinkedIsClosed(g, allowed, s);
      assert IsWalk(g, allowed, [s]);
      assert s in set y | y in allowed && Linked(g, allowed, s, y);
    }
    if Linked(g, allowed, s, t) {
      var p :| IsWalk(g, allowed, p) && p[0] == s && p[|p| - 1] == t;
      WalkStaysInside(g, allowed, p, S);
    }
  }

  /** `groups` are connected components of the live vertices, together covering `covered`:
      each is non-empty, lists a whole component once, and no two meet. */
  ghost predicate AreComponents(g: Graph, groups: seq<seq<nat>>, covered: set<nat>) {
    && (forall i :: 0 <= i < |groups| ==>
      && |groups[i]| > 0 && Distinct(groups[i])
      && IsComponent(g, g.live, groups[i][0], Members(groups[i])))
    && (forall i, j :: 0 <= i < j < |groups| ==> Members(groups[i]) !! Members(groups[j]))
    && Covers(groups, covered)
  }

  ghost predicate InSome(groups: seq<seq<nat>>, x: nat) {
    exists i :: 0 <= i < |groups| && x in groups[i]
  }

  ghost predicate Covers(groups: seq<seq<nat>>, covered: set<nat>) {
    forall x :: x in covered <==> InSome(groups, x)
  }

  ghost function Members(s: seq<nat>): set<nat> {
    set x | x in s
  }

  lemma MembersAppend(s: seq<nat>, x: nat)
    ensures Members(s + [x]) == Members(s) + {x}
  {
  }

  lemma {:induction false} DistinctCount(r: seq<nat>)
    requires Distinct(r)
    ensures |Members(r)| == |r|
  {
    if r == [] {
      assert Members(r) == {};
    } else {
      DistinctCount(r[..|r| - 1]);
      MembersAppend(r[..|r| - 1], r[|r| - 1]);
      assert r == r[..|r| - 1] + [r[|r| - 1]];
    }
  }

  lemma OneMoreComponent(g: Graph, groups: seq<seq<nat>>, before: set<nat>, c: seq<nat>, after: set<nat>)
    requires AreComponents(g, groups, before) && before <= after
    requires |c| > 0 && Distinct(c) && (forall x :: x in c <==> x in after - before)
    requires IsComponent(g, g.live, c[0], after - before)
    ensures AreComponents(g, groups + [c], after)
  {
    var all := groups + [c];
    assert Members(c) == after - before;
    forall i, j | 0 <= i < j < |all|
      ensures Members(all[i]) !! Members(all[j])
    {
      if j == |groups| {
        assert Members(groups[i]) <= before;
      }
    }
    CoveredByOneMore(groups, before, c, after);
  }

  lemma CoveredByOneMore(groups: seq<seq<nat>>, before: set<nat>, c: seq<nat>, after: set<nat>)
    requires Covers(groups, before) && before <= after && (forall x :: x in c <==> x in after - before)
    ensures Covers(groups + [c], after)
  {
    var all := groups + [c];
    forall x | x in after
      ensures InSome(all, x)
    {
      if x in before {
        var i :| 0 <= i < |groups| && x in groups[i];
        assert x in all[i];
      } else {
        assert x in all[|groups|];
      }
    }
    forall x | InSome(all, x)
      ensures x in after
    {
      var i :| 0 <= i < |all| && x in all[i];
      if i < |groups| {
        assert InSome(groups, x);
      }
    }
  }

  lemma ShrinkingRest(live: set<nat>, before: set<nat>, now: set<nat>, v: nat)
    requires v in live - before && before + {v} <= now
    ensures |live - now| < |live - before|
  {
    SubsetCardinality(live - now, live - before - {v});
    CardinalityWithout(live - before, v);
  }

  lemma {:induction false} SubsetCardinality(a: set<nat>, b: set<nat>)
    requires a <= b
    ensures |a| <= |b|
  {
    if a != {} {
      var x :| x in a;
      SubsetCardinality(a - {x}, b - {x});
      CardinalityWithout(a, x);
      CardinalityWithout(b, x);
    }
  }
}
