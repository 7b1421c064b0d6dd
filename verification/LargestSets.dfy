/** What a reduction costs in terms of the graph alone: how the sizes of independent sets of live vertices before
    and after it compare. Nothing here mentions buckets, fields or the solver's functions. */
module LargestSets {
  import opened Chains
  import opened Graphs
  import opened Reachability

  /** An independent set of live vertices. */
  ghost predicate Free(g: Graph, s: set<nat>) {
    s <= g.live && Independent(g.adj, s)
  }

  /** Some independent set of live vertices has n members or more. */
  ghost predicate HasFree(g: Graph, n: int) {
    exists s :: Free(g, s) && |s| >= n
  }

  /** Every independent set of live vertices of g has one of h that is smaller by k at most. */
  ghost predicate CostsAtMost(g: Graph, h: Graph, k: nat) {
    forall n: int :: HasFree(g, n) ==> HasFree(h, n - k)
  }

  /** Every independent set of live vertices of h has one of g that is larger by k or more. */
  ghost predicate GivesBack(g: Graph, h: Graph, k: nat) {
    forall n: int :: HasFree(h, n) ==> HasFree(g, n + k)
  }

  lemma CostsByEach(g: Graph, h: Graph, k: nat)
    requires forall s :: Free(g, s) ==> HasFree(h, |s| - k)
    ensures CostsAtMost(g, h, k)
  {
    forall n: int | HasFree(g, n)
      ensures HasFree(h, n - k)
    {
      var s :| Free(g, s) && |s| >= n;
      var t :| Free(h, t) && |t| >= |s| - k;
    }
  }

  lemma GivesByEach(g: Graph, h: Graph, k: nat)
    requires forall t :: Free(h, t) ==> HasFree(g, |t| + k)
    ensures GivesBack(g, h, k)
  {
    forall n: int | HasFree(h, n)
      ensures HasFree(g, n + k)
    {
      var t :| Free(h, t) && |t| >= n;
      var s :| Free(g, s) && |s| >= |t| + k;
    }
  }

  // ---------- deleting a vertex ----------

  lemma SubsetIndependent(adj: map<nat, seq<nat>>, s: set<nat>, t: set<nat>)
    requires Independent(adj, s) && t <= s
    ensures Independent(adj, t)
  {
  }

  /** Deleting a vertex gives nothing back and costs one at most. */
  lemma DeletionCosts(g: Graph, x: nat)
    ensures CostsAtMost(g, Without(g, x), 1) && GivesBack(g, Without(g, x), 0)
  {
    forall s | Free(g, s)
      ensures HasFree(Without(g, x), |s| - 1)
    {
      CardinalityWithout(s, x);
      assert Free(Without(g, x), s - {x});
    }
    CostsByEach(g, Without(g, x), 1);
    forall t | Free(Without(g, x), t)
      ensures HasFree(g, |t|)
    {
      assert Free(g, t);
    }
    GivesByEach(g, Without(g, x), 0);
  }

  /** z is the only live neighbour of x: instead of z an independent set can hold x. */
  lemma PendantCosts(g: Graph, x: nat, z: nat)
    requires WellFormed(g) && x in g.live && Neighbours(g, x) == {z}
    ensures CostsAtMost(g, Without(g, z), 0)
  {
    forall s | Free(g, s)
      ensures HasFree(Without(g, z), |s|)
    {
      if z in s {
        var t := s - {z} + {x};
        assert Adjacent(g, x, z) && Adjacent(g, z, x) && x !in s;
        CardinalityWithout(s, z);
        assert |t| == |s|;
        OneMoreFree(g, s - {z}, x);
        assert Free(Without(g, z), t);
      } else {
        assert Free(Without(g, z), s);
      }
    }
    CostsByEach(g, Without(g, z), 0);
  }

  lemma OneMoreFree(g: Graph, s: set<nat>, x: nat)
    requires WellFormed(g) && Free(g, s) && x in g.live && s !! Neighbours(g, x)
    ensures Free(g, s + {x})
  {
    assert x !in Neighbours(g, x) by { assert !Adjacent(g, x, x); }
    MoreFree(g, s, {x});
  }

  /** An independent set may take in vertices whose live neighbours are all outside. */
  lemma MoreFree(g: Graph, s: set<nat>, more: set<nat>)
    requires WellFormed(g) && Free(g, s) && more <= g.live
    requires forall x, y :: x in more && y in Neighbours(g, x) ==> y !in s && y !in more
    ensures Free(g, s + more)
  {
    forall a, b | a in s + more && b in s + more && a in g.adj
      ensures b !in g.adj[a]
    {
      assert Adjacent(g, a, b) ==> Adjacent(g, b, a);
    }
  }

  // ---------- vertices of degree two around one vertex ----------

  /** C holds vertices of degree two, and apart from u nothing outside touches it. */
  ghost predicate Around(g: Graph, C: set<nat>, u: nat) {
    u in g.live - C && C <= OfDegree(g, 2) && forall x :: x in C ==> Neighbours(g, x) <= C + {u}
  }

  /** On the way from u along C, the members `out` of s, u first, are exchanged for all but one as many vertices. */
  ghost predicate Exchanging(g: Graph, C: set<nat>, u: nat, s: set<nat>, out: set<nat>, into: set<nat>) {
    && u in out && out <= s && |out| == |into| + 1
    && forall x :: x in into ==> x in C - s && Neighbours(g, x) <= out
  }

  lemma OtherNeighbour(g: Graph, x: nat, a: nat) returns (b: nat)
    requires x in OfDegree(g, 2) && a in Neighbours(g, x)
    ensures b != a && Neighbours(g, x) == {a, b}
  {
    CardinalityWithout(Neighbours(g, x), a);
    assert Neighbours(g, x) - {a} != {};
    b :| b in Neighbours(g, x) - {a};
    PairOfNeighbours(Neighbours(g, x), a, b);
  }

  lemma MovedOne(s: set<nat>, out: set<nat>, b: nat, into: set<nat>, t: nat)
    requires b in s - out && t !in into
    ensures |out + {b}| == |out| + 1 && |into + {t}| == |into| + 1 && |s - (out + {b})| < |s - out|
  {
    CardinalityWithout(s - out, b);
    assert s - out - {b} == s - (out + {b});
  }

  /** t comes in and its neighbour b ahead goes out; c, ahead of b, is next. */
  lemma OneFurther(g: Graph, C: set<nat>, u: nat, s: set<nat>, out: set<nat>, into: set<nat>, a: nat, t: nat, b: nat)
    returns (c: nat)
    requires WellFormed(g) && Around(g, C, u) && Free(g, s) && Exchanging(g, C, u, s, out, into)
    requires t in C - s - into && a in out && Neighbours(g, t) == {a, b} && b in s - out
    ensures Exchanging(g, C, u, s, out + {b}, into + {t})
    ensures c in C - s - (into + {t}) && b in Neighbours(g, c)
  {
    NeighboursSymmetric(g, t, b);
    c := OtherNeighbour(g, b, t);
    NeighboursSymmetric(g, b, c);
    assert Adjacent(g, b, c);
    MovedOne(s, out, b, into, t);
    forall x | x in into + {t}
      ensures x in C - s && Neighbours(g, x) <= out + {b}
    {
      assert x != t ==> Neighbours(g, x) <= out;
    }
  }

  /** t is next to come in. Its neighbour ahead is either not in s, and the exchange is complete, or goes out. */
  lemma {:induction false} Exchange(g: Graph, C: set<nat>, u: nat, s: set<nat>, out: set<nat>, into: set<nat>, a: nat,
                                    t: nat)
    requires WellFormed(g) && Around(g, C, u) && Free(g, s) && Exchanging(g, C, u, s, out, into)
    requires t in C - s - into && a in out && a in Neighbours(g, t)
    ensures HasFree(Without(g, u), |s|)
    decreases |s - out|
  {
    var b := OtherNeighbour(g, t, a);
    if b in s - out {
      var c := OneFurther(g, C, u, s, out, into, a, t, b);
      MovedOne(s, out, b, into, t);
      Exchange(g, C, u, s, out + {b}, into + {t}, b, c);
    } else {
      LastIn(g, C, u, s, out, into, a, t, b);
      Exchanged(g, C, u, s, out, into + {t});
    }
  }

  lemma LastIn(g: Graph, C: set<nat>, u: nat, s: set<nat>, out: set<nat>, into: set<nat>, a: nat, t: nat, b: nat)
    requires WellFormed(g) && Around(g, C, u) && Free(g, s) && Exchanging(g, C, u, s, out, into)
    requires t in C - s - into && a in out && Neighbours(g, t) == {a, b} && b !in s - out
    ensures |out| == |into + {t}| && into + {t} <= C - s
    ensures forall x, y :: x in into + {t} && y in Neighbours(g, x) ==> y !in s - out && y !in into + {t}
  {
    NeighboursSymmetric(g, t, b);
    assert b != t by { assert !Adjacent(g, t, t); }
    assert b !in into;
    forall x, y | x in into + {t} && y in Neighbours(g, x)
      ensures y !in s - out && y !in into + {t}
    {
      assert x != t ==> y in out;
    }
  }

  lemma Exchanged(g: Graph, C: set<nat>, u: nat, s: set<nat>, out: set<nat>, into: set<nat>)
    requires WellFormed(g) && Around(g, C, u) && Free(g, s)
    requires u in out && out <= s && into <= C - s && |out| == |into|
    requires forall x, y :: x in into && y in Neighbours(g, x) ==> y !in s - out && y !in into
    ensures HasFree(Without(g, u), |s|)
  {
    MoreFree(g, s - out, into);
    var t := s - out + into;
    assert Free(Without(g, u), t);
    assert |s - out| == |s| - |out|;
    assert |t| == |s|;
  }

  /** Deleting u costs nothing if some vertex of degree two around it touches it. */
  lemma AroundCosts(g: Graph, C: set<nat>, u: nat, t: nat)
    requires WellFormed(g) && Around(g, C, u) && t in C && u in Neighbours(g, t)
    ensures CostsAtMost(g, Without(g, u), 0)
  {
    forall s | Free(g, s)
      ensures HasFree(Without(g, u), |s|)
    {
      if u in s {
        assert Adjacent(g, t, u) && Adjacent(g, u, t) && t !in s;
        Exchange(g, C, u, s, {u}, {}, u, t);
      } else {
        assert Free(Without(g, u), s);
      }
    }
    CostsByEach(g, Without(g, u), 0);
  }

  /** On a cycle of degree-two vertices any one of them can be spared. */
  lemma CycleCosts(g: Graph, S: set<nat>, u: nat)
    requires WellFormed(g) && u in S && S <= OfDegree(g, 2) && Closed(g, g.live, S)
    ensures CostsAtMost(g, Without(g, u), 0)
  {
    assert Neighbours(g, u) != {};
    var t :| t in Neighbours(g, u);
    NeighboursSymmetric(g, u, t);
    AroundCosts(g, S - {u}, u, t);
  }

  /** A chain that begins and ends at v: v can be spared. */
  lemma LoopCosts(g: Graph, p: seq<nat>, v: nat)
    requires WellFormed(g) && IsChain(g, p, v, v)
    ensures CostsAtMost(g, Without(g, v), 0)
  {
    forall x | x in Members(p)
      ensures x in OfDegree(g, 2) && Neighbours(g, x) <= Members(p) + {v}
    {
      var i :| 0 <= i < |p| && p[i] == x;
      ChainNeighbours(g, p, v, v, i);
    }
    AroundCosts(g, Members(p), v, p[0]);
  }

  // ---------- along a chain ----------

  ghost function Stretch(p: seq<nat>, lo: nat, hi: nat): set<nat>
    requires hi <= |p|
  {
    set i {:trigger p[i]} | lo <= i < hi :: p[i]
  }

  /** Every other vertex of p, beginning with the given one. */
  ghost function EveryOther(p: seq<nat>, lo: nat): set<nat> {
    set i {:trigger p[i]} | lo <= i < |p| && (i - lo) % 2 == 0 :: p[i]
  }

  lemma StretchStep(p: seq<nat>, lo: nat, hi: nat)
    requires lo + 2 <= hi <= |p|
    ensures Stretch(p, lo, hi) == Stretch(p, lo, hi - 2) + {p[hi - 2], p[hi - 1]}
  {
  }

  /** Of two adjacent vertices more an independent set holds at most one. */
  lemma StretchGrows(g: Graph, p: seq<nat>, s: set<nat>, lo: nat, hi: nat)
    requires lo + 2 <= hi <= |p| && Adjacent(g, p[hi - 2], p[hi - 1]) && Independent(g.adj, s)
    ensures |s * Stretch(p, lo, hi)| <= |s * Stretch(p, lo, hi - 2)| + 1
  {
    StretchStep(p, lo, hi);
    var x := if p[hi - 2] in s then p[hi - 2] else p[hi - 1];
    SubsetCardinality(s * Stretch(p, lo, hi), s * Stretch(p, lo, hi - 2) + {x});
  }

  /** An independent set holds at most half of a stretch of a chain, rounded up. */
  lemma {:induction false} StretchBound(g: Graph, p: seq<nat>, s: set<nat>, lo: nat, hi: nat)
    requires forall i :: 0 <= i < |p| - 1 ==> Adjacent(g, p[i], p[i + 1])
    requires Independent(g.adj, s) && lo <= hi <= |p|
    ensures |s * Stretch(p, lo, hi)| <= (hi - lo + 1) / 2
    decreases hi
  {
    if hi - lo >= 2 {
      StretchBound(g, p, s, lo, hi - 2);
      assert Adjacent(g, p[hi - 2], p[hi - 2 + 1]);
      StretchGrows(g, p, s, lo, hi);
    } else if hi > lo {
      assert Stretch(p, lo, hi) == {p[lo]};
      SubsetCardinality(s * Stretch(p, lo, hi), {p[lo]});
    } else {
      assert Stretch(p, lo, hi) == {};
    }
  }

  lemma EveryOtherStep(p: seq<nat>, lo: nat)
    requires lo < |p| && forall i, j :: 0 <= i < j < |p| ==> p[i] != p[j]
    ensures EveryOther(p, lo) == EveryOther(p, lo + 2) + {p[lo]} && p[lo] !in EveryOther(p, lo + 2)
  {
    forall x | x in EveryOther(p, lo) ensures x in EveryOther(p, lo + 2) + {p[lo]} {
      var i :| lo <= i < |p| && (i - lo) % 2 == 0 && p[i] == x;
      assert i != lo ==> i >= lo + 2 && (i - (lo + 2)) % 2 == 0;
    }
    forall x | x in EveryOther(p, lo + 2) ensures x in EveryOther(p, lo) && x != p[lo] {
      var i :| lo + 2 <= i < |p| && (i - (lo + 2)) % 2 == 0 && p[i] == x;
      assert (i - lo) % 2 == 0;
    }
  }

  lemma {:induction false} EveryOtherSize(p: seq<nat>, lo: nat)
    requires lo <= |p| && forall i, j :: 0 <= i < j < |p| ==> p[i] != p[j]
    ensures |EveryOther(p, lo)| == (|p| - lo + 1) / 2
    decreases |p| - lo
  {
    if lo == |p| {
      assert EveryOther(p, lo) == {};
    } else if lo == |p| - 1 {
      assert EveryOther(p, lo) == {p[lo]};
    } else {
      EveryOtherSize(p, lo + 2);
      EveryOtherStep(p, lo);
    }
  }

  /** What keeps every other vertex of a chain, from the given one on, out of an independent set that holds no vertex
      of the chain: only its two ends. */
  ghost predicate RoomFor(p: seq<nat>, v: nat, w: nat, s: set<nat>, lo: nat) {
    && lo <= |p| && s !! Members(p)
    && (lo == 0 ==> v !in s) && ((|p| - lo) % 2 == 1 ==> w !in s)
  }

  lemma EveryOtherApart(g: Graph, p: seq<nat>, v: nat, w: nat, s: set<nat>, lo: nat, i: nat, y: nat)
    requires WellFormed(g) && IsChain(g, p, v, w) && RoomFor(p, v, w, s, lo)
    requires lo <= i < |p| && (i - lo) % 2 == 0 && y in Neighbours(g, p[i])
    ensures y !in s && y !in EveryOther(p, lo)
  {
    var e := Extended(p, v, w);
    ChainNeighbours(g, p, v, w, i);
    DistinctPairwise(p);
    if y == e[i] {
      assert y == if i == 0 then v else p[i - 1];
    } else {
      assert y == if i == |p| - 1 then w else p[i + 1];
    }
  }

  /** Where there is room, every other vertex of the chain can come in. */
  lemma Placed(g: Graph, p: seq<nat>, v: nat, w: nat, s: set<nat>, lo: nat)
    requires WellFormed(g) && IsChain(g, p, v, w) && Free(g, s) && RoomFor(p, v, w, s, lo)
    ensures Free(g, s + EveryOther(p, lo)) && |s + EveryOther(p, lo)| == |s| + (|p| - lo + 1) / 2
  {
    var more := EveryOther(p, lo);
    forall x, y | x in more && y in Neighbours(g, x)
      ensures y !in s && y !in more
    {
      var i :| lo <= i < |p| && (i - lo) % 2 == 0 && p[i] == x;
      EveryOtherApart(g, p, v, w, s, lo, i, y);
    }
    forall x | x in more ensures x in g.live && x in Members(p) {
      var i :| lo <= i < |p| && (i - lo) % 2 == 0 && p[i] == x;
      assert p[i] in OfDegree(g, 2);
    }
    MoreFree(g, s, more);
    DistinctPairwise(p);
    EveryOtherSize(p, lo);
  }

  /** Without the chain, an independent set is smaller by half the chain at most, rounded up; by less if it holds one
      of the ends, and by still less if it holds both. */
  lemma OffChain(g: Graph, p: seq<nat>, v: nat, w: nat, s: set<nat>)
    requires WellFormed(g) && IsChain(g, p, v, w) && Free(g, s)
    ensures Free(g, s - Members(p)) && s - Members(p) !! Members(p)
    ensures |s - Members(p)| >= |s| - (|p| + 1) / 2
    ensures v in s || w in s ==> |s - Members(p)| >= |s| - |p| / 2
    ensures v in s && w in s && |p| > 1 ==> |s - Members(p)| >= |s| - (|p| - 1) / 2
  {
    var lo := if v in s then 1 else 0;
    var hi := if w in s && (v !in s || |p| > 1) then |p| - 1 else |p|;
    OnStretch(g, p, v, w, s, lo, hi);
    StretchBound(g, p, s, lo, hi);
    SubsetCardinality(s * Members(p), s * Stretch(p, lo, hi));
    SplitBy(s, Members(p));
    SubsetIndependent(g.adj, s, s - Members(p));
  }

  lemma SplitBy(s: set<nat>, t: set<nat>)
    ensures |s| == |s - t| + |s * t|
  {
    assert s == (s - t) + (s * t);
  }

  /** An independent set that holds an end of a chain does not hold the chain's vertex next to it. */
  lemma OnStretch(g: Graph, p: seq<nat>, v: nat, w: nat, s: set<nat>, lo: nat, hi: nat)
    requires WellFormed(g) && IsChain(g, p, v, w) && Independent(g.adj, s)
    requires lo == (if v in s then 1 else 0) && hi == if w in s && (v !in s || |p| > 1) then |p| - 1 else |p|
    ensures s * Members(p) <= s * Stretch(p, lo, hi)
  {
    assert Adjacent(g, v, p[0]) && Adjacent(g, w, p[|p| - 1]);
    forall x | x in s * Members(p)
      ensures x in Stretch(p, lo, hi)
    {
      var i :| 0 <= i < |p| && p[i] == x;
      assert v in s ==> i != 0;
      assert w in s ==> i != |p| - 1;
    }
  }

  // ---------- the branches of the contraction ----------

  /** Instead of one end of an odd chain, and of what it holds of the chain, an independent set can hold every other
      vertex of the chain. */
  lemma EndSpared(g: Graph, p: seq<nat>, v: nat, w: nat, s: set<nat>, x: nat) returns (t: set<nat>)
    requires WellFormed(g) && IsChain(g, p, v, w) && v != w && |p| % 2 == 1 && Adjacent(g, v, w)
    requires Free(g, s) && x in s && x in {v, w}
    ensures Free(g, t) && |t| >= |s| && v !in t && w !in t
  {
    var rest := s - Members(p);
    var off := rest - {x};
    OffChain(g, p, v, w, s);
    EndsOff(g, p, v, w);
    CardinalityWithout(rest, x);
    SubsetIndependent(g.adj, s, off);
    assert v !in off && w !in off by { assert Adjacent(g, w, v); }
    Placed(g, p, v, w, off, 0);
    EveryOtherMembers(p, 0);
    t := off + EveryOther(p, 0);
  }

  lemma EndsOff(g: Graph, p: seq<nat>, v: nat, w: nat)
    requires IsChain(g, p, v, w)
    ensures v !in p && w !in p && Members(p) <= g.live
  {
    forall x | x in p ensures x in OfDegree(g, 2) {
      var i :| 0 <= i < |p| && p[i] == x;
    }
  }

  lemma EveryOtherMembers(p: seq<nat>, lo: nat)
    ensures EveryOther(p, lo) <= Members(p)
  {
  }

  /** An odd chain between adjacent ends: both ends can be spared. */
  lemma BothEndsCost(g: Graph, p: seq<nat>, v: nat, w: nat)
    requires WellFormed(g) && IsChain(g, p, v, w) && v != w && |p| % 2 == 1 && Adjacent(g, v, w)
    ensures CostsAtMost(g, Without(Without(g, v), w), 0)
  {
    var h := Without(Without(g, v), w);
    forall s | Free(g, s)
      ensures HasFree(h, |s|)
    {
      var t := s;
      if v in s {
        t := EndSpared(g, p, v, w, s, v);
      } else if w in s {
        t := EndSpared(g, p, v, w, s, w);
      }
      assert Free(h, t);
    }
    CostsByEach(g, h, 0);
  }

  /** What is free once an edge a-b was added: the same, but not both a and b. */
  lemma FreeWithEdge(g: Graph, gone: set<nat>, a: nat, b: nat, t: set<nat>)
    requires a in g.adj && b in g.adj && a != b
    ensures Free(WithEdge(RemoveSet(g, gone), a, b), t)
       <==> t <= g.live - gone && Independent(g.adj, t) && !(a in t && b in t)
  {
    var r := RemoveSet(g, gone);
    forall x, y { AdjacentWithEdge(r, a, b, x, y); }
  }

  lemma FreeInOdd(g: Graph, p: seq<nat>, v: nat, w: nat, t: set<nat>)
    requires WellFormed(g) && IsChain(g, p, v, w) && v != w
    requires |p| > 1
    ensures p[0] in g.adj && w in g.adj && p[0] != w
    ensures Free(OddGraph(g, p, w), t)
       <==> t <= g.live - Members(p[1..]) && Independent(g.adj, t) && !(p[0] in t && w in t)
  {
    OddEdgeIsNew(g, p, v, w);
    FreeWithEdge(g, Members(p[1..]), p[0], w, t);
  }

  lemma FreeInEven(g: Graph, p: seq<nat>, v: nat, w: nat, t: set<nat>)
    requires WellFormed(g) && IsChain(g, p, v, w) && v != w
    ensures Free(EvenGraph(g, p, v, w), t)
       <==> t <= g.live - Members(p) && Independent(g.adj, t) && !(v in t && w in t)
  {
    if !Adjacent(g, v, w) {
      FreeWithEdge(g, Members(p), v, w, t);
    }
  }

  /** A chain's first vertex can come in once the chain is out, if the end next to it is not in. */
  lemma FirstBack(g: Graph, p: seq<nat>, v: nat, w: nat, off: set<nat>)
    requires WellFormed(g) && IsChain(g, p, v, w) && Free(g, off) && off !! Members(p) && v !in off && |p| > 1
    ensures Free(g, off + {p[0]})
  {
    ChainNeighbours(g, p, v, w, 0);
    assert Extended(p, v, w)[0] == v && Extended(p, v, w)[2] == p[1] && p[1] in Members(p);
    assert p[0] in OfDegree(g, 2);
    OneMoreFree(g, off, p[0]);
  }

  lemma OddSpared(g: Graph, p: seq<nat>, v: nat, w: nat, s: set<nat>) returns (t: set<nat>)
    requires WellFormed(g) && IsChain(g, p, v, w) && v != w && |p| % 2 == 1 && |p| > 1 && Free(g, s)
    ensures p[0] in g.adj && w in g.adj && p[0] != w
    ensures Free(OddGraph(g, p, w), t) && |t| >= |s| - |p| / 2
  {
    t := s - Members(p);
    OffChain(g, p, v, w, s);
    EndsOff(g, p, v, w);
    FirstNotInTail(p);
    if v !in s && w !in s {
      FirstBack(g, p, v, w, t);
      assert |t + {p[0]}| == |t| + 1 by { assert p[0] !in t; }
      t := t + {p[0]};
    }
    FreeInOdd(g, p, v, w, t);
  }

  lemma OddGiven(g: Graph, p: seq<nat>, v: nat, w: nat, t: set<nat>) returns (s: set<nat>)
    requires WellFormed(g) && IsChain(g, p, v, w) && v != w && |p| % 2 == 1 && |p| > 1
    requires p[0] in g.adj && w in g.adj && p[0] != w && Free(OddGraph(g, p, w), t)
    ensures Free(g, s) && |s| >= |t| + |p| / 2
  {
    FreeInOdd(g, p, v, w, t);
    FirstAndTail(p);
    if p[0] in t {
      s := FirstExtended(g, p, v, w, t);
    } else {
      Placed(g, p, v, w, t, 1);
      s := t + EveryOther(p, 1);
    }
  }

  /** A set that holds the first vertex of an odd chain, and neither the rest of it nor w, can hold every other one. */
  lemma FirstExtended(g: Graph, p: seq<nat>, v: nat, w: nat, t: set<nat>) returns (s: set<nat>)
    requires WellFormed(g) && IsChain(g, p, v, w) && |p| % 2 == 1
    requires Free(g, t) && p[0] in t && t !! Members(p[1..]) && w !in t
    ensures Free(g, s) && |s| >= |t| + |p| / 2
  {
    var off := t - {p[0]};
    assert Adjacent(g, p[0], v);
    SubsetIndependent(g.adj, t, off);
    CardinalityWithout(t, p[0]);
    FirstAndTail(p);
    Placed(g, p, v, w, off, 0);
    s := off + EveryOther(p, 0);
  }

  lemma FirstAndTail(p: seq<nat>)
    requires |p| > 0
    ensures Members(p) == {p[0]} + Members(p[1..])
  {
    assert p == [p[0]] + p[1..];
  }

  /** An odd chain shortened to its first vertex costs exactly half of what was removed. */
  lemma OddCosts(g: Graph, p: seq<nat>, v: nat, w: nat)
    requires WellFormed(g) && IsChain(g, p, v, w) && v != w && |p| % 2 == 1
    ensures p[0] in g.adj && w in g.adj && p[0] != w
    ensures CostsAtMost(g, OddGraph(g, p, w), |p| / 2) && GivesBack(g, OddGraph(g, p, w), |p| / 2)
  {
    assert p[0] in OfDegree(g, 2);
    var h := OddGraph(g, p, w);
    forall s | Free(g, s)
      ensures HasFree(h, |s| - |p| / 2)
    {
      var t := s;
      if |p| > 1 {
        t := OddSpared(g, p, v, w, s);
      }
      assert Free(h, t);
    }
    CostsByEach(g, h, |p| / 2);
    forall t | Free(h, t)
      ensures HasFree(g, |t| + |p| / 2)
    {
      var s := t;
      if |p| > 1 {
        s := OddGiven(g, p, v, w, t);
      }
      assert Free(g, s);
    }
    GivesByEach(g, h, |p| / 2);
  }

  lemma EvenSpared(g: Graph, p: seq<nat>, v: nat, w: nat, s: set<nat>) returns (t: set<nat>)
    requires WellFormed(g) && IsChain(g, p, v, w) && v != w && |p| % 2 == 0 && Free(g, s)
    ensures Free(EvenGraph(g, p, v, w), t) && |t| >= |s| - |p| / 2
  {
    t := s - Members(p);
    OffChain(g, p, v, w, s);
    if v in t && w in t {
      CardinalityWithout(t, w);
      SubsetIndependent(g.adj, t, t - {w});
      t := t - {w};
    }
    FreeInEven(g, p, v, w, t);
  }

  lemma EvenGiven(g: Graph, p: seq<nat>, v: nat, w: nat, t: set<nat>) returns (s: set<nat>)
    requires WellFormed(g) && IsChain(g, p, v, w) && v != w && |p| % 2 == 0
    requires Free(EvenGraph(g, p, v, w), t)
    ensures Free(g, s) && |s| >= |t| + |p| / 2
  {
    FreeInEven(g, p, v, w, t);
    var lo := if v in t then 1 else 0;
    Placed(g, p, v, w, t, lo);
    s := t + EveryOther(p, lo);
  }

  /** An even chain replaced by an edge costs exactly half of it. */
  lemma EvenCosts(g: Graph, p: seq<nat>, v: nat, w: nat)
    requires WellFormed(g) && IsChain(g, p, v, w) && v != w && |p| % 2 == 0
    ensures CostsAtMost(g, EvenGraph(g, p, v, w), |p| / 2) && GivesBack(g, EvenGraph(g, p, v, w), |p| / 2)
  {
    var h := EvenGraph(g, p, v, w);
    forall s | Free(g, s)
      ensures HasFree(h, |s| - |p| / 2)
    {
      var t := EvenSpared(g, p, v, w, s);
    }
    CostsByEach(g, h, |p| / 2);
    forall t | Free(h, t)
      ensures HasFree(g, |t| + |p| / 2)
    {
      var s := EvenGiven(g, p, v, w, t);
    }
    GivesByEach(g, h, |p| / 2);
  }
}
