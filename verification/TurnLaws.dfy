/** While the degree fields of the live vertices count their live neighbours, every operation on the machine
    is the operation on the graph it stands for, and the fields go on counting. */
module TurnLaws {
  import opened Chains
  import opened ChainSteps
  import opened Fields
  import opened Graphs
  import opened Machines
  import opened Paths
  import opened Reachability
  import opened Reductions
  import opened Searches
  import opened Stuck
  import opened Worklist

  ghost predicate Agrees(f: Machine) {
    Fit(f.m.g, f.deg)
  }

  /** The deleted members of VerticesGreaterThanThree, if any, are stuck there. */
  ghost predicate DeadAreStuck(f: Machine) {
    forall x :: x in f.m.three && x !in f.m.g.live ==> StuckAt(f, x)
  }

  // ---------- deleteVertex ----------

  /** The live neighbours among the first i listed. */
  ghost function Seen(g: Graph, id: nat, i: nat): set<nat>
    requires id in g.adj && i <= |g.adj[id]|
  {
    set y | y in g.adj[id][..i] && y in Neighbours(g, id)
  }

  lemma SeenOneMore(m: Solver, id: nat, i: nat)
    requires WellFormed(m.g) && id in m.g.live && i < |m.g.adj[id]|
    ensures var y := m.g.adj[id][i];
      && y in m.g.adj && y != id && y !in Seen(m.g, id, i)
      && Seen(m.g, id, i + 1) == Seen(m.g, id, i) + (if y in m.g.live then {y} else {})
      && PartlyDeleted(m, id, Seen(m.g, id, i + 1))
         == if y in m.g.live then Moved(PartlyDeleted(m, id, Seen(m.g, id, i)), y, Degree(m.g, y) - 1)
            else PartlyDeleted(m, id, Seen(m.g, id, i))
  {
    var g, y := m.g, m.g.adj[id][i];
    assert Adjacent(g, id, y) && Adjacent(g, y, id);
    DistinctAt(g.adj[id], i);
    assert g.adj[id][..i + 1] == g.adj[id][..i] + [y];
    if y in g.live {
      DegreeWithout(g, id, y);
      assert Seen(g, id, i + 1) == Seen(g, id, i) + {y};
      MovedIsPartlyDeleted(m, id, Seen(g, id, i), y);
    } else {
      assert Seen(g, id, i + 1) == Seen(g, id, i);
    }
  }

  /** The fields of the vertices in ys are one less. */
  ghost predicate LoweredBy(deg: Degrees, deg': Degrees, ys: set<nat>) {
    deg'.Keys == deg.Keys && forall y :: y in deg ==> deg'[y] == deg[y] - (if y in ys then 1 else 0)
  }

  lemma LoweredOneMore(deg: Degrees, deg': Degrees, ys: set<nat>, y: nat)
    requires LoweredBy(deg, deg', ys) && y !in ys
    ensures LoweredBy(deg, Changed(deg', y, -1), ys + {y}) && FieldOf(deg', y) == FieldOf(deg, y)
  {
  }

  lemma StepAgrees(f: Machine, id: nat, i: nat, r: Machine)
    requires Agrees(f) && id in f.m.g.live && i < |f.m.g.adj[id]|
    requires r.m == PartlyDeleted(f.m, id, Seen(f.m.g, id, i)) && LoweredBy(f.deg, r.deg, Seen(f.m.g, id, i))
    ensures var r' := Step(r, f.m.g.adj[id][i]);
      && r'.m == PartlyDeleted(f.m, id, Seen(f.m.g, id, i + 1))
      && LoweredBy(f.deg, r'.deg, Seen(f.m.g, id, i + 1))
  {
    SeenOneMore(f.m, id, i);
    LoweredOneMore(f.deg, r.deg, Seen(f.m.g, id, i), f.m.g.adj[id][i]);
  }

  lemma {:induction false} StepsAgree(f: Machine, id: nat, i: nat)
    requires Agrees(f) && id in f.m.g.live && i <= |f.m.g.adj[id]|
    ensures var r := Steps(Marked(f, id), f.m.g.adj[id][..i]);
      r.m == PartlyDeleted(f.m, id, Seen(f.m.g, id, i)) && LoweredBy(f.deg, r.deg, Seen(f.m.g, id, i))
  {
    var ys := f.m.g.adj[id];
    if i == 0 {
      assert Seen(f.m.g, id, 0) == {};
    } else {
      assert ys[..i][..i - 1] == ys[..i - 1] && ys[..i][i - 1] == ys[i - 1];
      StepsAgree(f, id, i - 1);
      StepAgrees(f, id, i - 1, Steps(Marked(f, id), ys[..i - 1]));
    }
  }

  lemma DeleteAgrees(f: Machine, id: nat)
    requires Agrees(f) && id in f.m.g.live
    ensures AfterDelete(f, id).m == Deleted(f.m, id) && Agrees(AfterDelete(f, id))
  {
    var ys := f.m.g.adj[id];
    if Degree(f.m.g, id) == 0 {
      assert Neighbours(f.m.g, id) == {};
      assert Seen(f.m.g, id, 0) == {};
      StepsAgree(f, id, 0);
      assert ys[..0] == [];
    } else {
      StepsAgree(f, id, |ys|);
      assert ys[..|ys|] == ys;
      assert Seen(f.m.g, id, |ys|) == Neighbours(f.m.g, id);
    }
    DeleteFits(f, id);
  }

  lemma DeleteFits(f: Machine, id: nat)
    requires Agrees(f) && id in f.m.g.live
    requires AfterDelete(f, id).m.g == Without(f.m.g, id)
    requires LoweredBy(f.deg, AfterDelete(f, id).deg, Neighbours(f.m.g, id))
    ensures Agrees(AfterDelete(f, id))
  {
    WellFormedWithout(f.m.g, id);
    forall y | y in f.m.g.live - {id}
      ensures FieldOf(AfterDelete(f, id).deg, y) == Degree(Without(f.m.g, id), y)
    {
      DegreeWithout(f.m.g, id, y);
    }
  }

  /** A vertex deleted with a field of one or two stays in VerticesGreaterThanThree if it was there. */
  lemma DeleteSticks(f: Machine, id: nat)
    requires DeadAreStuck(f) && id in f.m.g.live && id in f.deg && (f.deg[id] == 1 ==> id !in f.m.two)
    ensures DeadAreStuck(AfterDelete(f, id))
  {
    StepsShrink(Marked(f, id), Listed(f.m.g, id));
    forall x | x in AfterDelete(f, id).m.three && x !in AfterDelete(f, id).m.g.live
      ensures StuckAt(AfterDelete(f, id), x)
    {
      if x == id {
        assert StuckAt(Marked(f, id), id);
        StepsKeep(Marked(f, id), Listed(f.m.g, id), id);
      } else {
        DeleteKeeps(f, id, x);
      }
    }
  }

  lemma {:induction false} StepsShrink(f: Machine, ys: seq<nat>)
    ensures Steps(f, ys).m.three <= f.m.three && Steps(f, ys).m.g == f.m.g
  {
    if ys != [] {
      StepsShrink(f, ys[..|ys| - 1]);
    }
  }

  // ---------- degreeOneReduction ----------

  /** Of the neighbours listed for a vertex of degree one exactly one, the k-th, is live. */
  lemma OnlyNeighbourListed(g: Graph, x: nat) returns (k: nat)
    requires WellFormed(g) && x in g.live && Degree(g, x) == 1
    ensures k < |g.adj[x]| && Neighbours(g, x) == {g.adj[x][k]}
    ensures forall i :: 0 <= i < |g.adj[x]| ==> g.adj[x][i] in g.adj && (g.adj[x][i] in g.live <==> i == k)
  {
    var ys := g.adj[x];
    assert Neighbours(g, x) != {};
    var z :| z in Neighbours(g, x);
    SingletonNeighbour(Neighbours(g, x), z);
    k :| 0 <= k < |ys| && ys[k] == z;
    forall i | 0 <= i < |ys|
      ensures ys[i] in g.adj && (ys[i] in g.live <==> i == k)
    {
      assert Adjacent(g, x, ys[i]) && Adjacent(g, ys[i], x);
      assert ys[i] in g.live <==> ys[i] in Neighbours(g, x);
      DistinctPairwise(ys);
    }
  }

  lemma {:induction false} OnlyOneDeleted(f: Machine, ys: seq<nat>, k: nat, i: nat)
    requires k < |ys| && i <= |ys|
    requires forall j :: 0 <= j < |ys| ==> (ys[j] in f.m.g.live <==> j == k)
    ensures AfterDeletes(f, ys[..i]) == if i > k then AfterDelete(f, ys[k]) else f
  {
    if i > 0 {
      assert ys[..i][..i - 1] == ys[..i - 1] && ys[..i][i - 1] == ys[i - 1];
      OnlyOneDeleted(f, ys, k, i - 1);
      StepsShrink(Marked(f, ys[k]), Listed(f.m.g, ys[k]));
    }
  }

  lemma OneAgrees(f: Machine, x: nat)
    requires Agrees(f) && Sound(f.m) && DeadAreStuck(f) && x in f.m.one
    ensures OneStep(f.m, AfterOne(f, x).m) && Agrees(AfterOne(f, x)) && DeadAreStuck(AfterOne(f, x))
  {
    var k := OnlyNeighbourListed(f.m.g, x);
    var ys := f.m.g.adj[x];
    var f1 := f.(m := f.m.(one := f.m.one - {x}));
    OnlyOneDeleted(f1, ys, k, |ys|);
    assert ys[..|ys|] == ys;
    assert ys[k] in Neighbours(f.m.g, x);
    DeleteAgrees(f1, ys[k]);
    DeleteSticks(f1, ys[k]);
    assert OneStepOn(f.m, x, ys[k], AfterOne(f, x).m);
  }

  // ---------- inexactReduction ----------

  lemma PeelAgrees(f: Machine, f': Machine)
    requires Agrees(f) && Sound(f.m) && f.m.three <= f.m.g.live && PeelTurn(f, f')
    ensures PeelStep(f.m, f'.m) && Agrees(f') && DeadAreStuck(f')
  {
    if x :| Greatest(f, x) && f' == AfterDelete(f, x) {
      DeleteAgrees(f, x);
      DeleteSticks(f, x);
      forall y | y in f.m.three
        ensures Degree(f.m.g, y) <= Degree(f.m.g, x)
      {
        assert Unsigned(FieldOf(f.deg, y)) == Degree(f.m.g, y);
      }
      assert PeelStepOn(f.m, x, f'.m);
    } else {
      forall y | y in f.m.three
        ensures Degree(f.m.g, y) == 0
      {
        assert Unsigned(FieldOf(f.deg, y)) == Degree(f.m.g, y);
      }
    }
  }

  // ---------- the contraction of a chain ----------

  lemma RemoveAgrees(f: Machine, y: nat)
    requires Agrees(f) && y in f.m.g.live
    ensures AfterRemove(f, y).m == f.m.(g := Without(f.m.g, y), two := f.m.two - {y})
    ensures Agrees(AfterRemove(f, y))
  {
    RemoveFits(f.m.g, f.deg, y);
  }

  lemma RemoveSticks(f: Machine, y: nat)
    requires DeadAreStuck(f) && y in f.m.g.live && FieldOf(f.deg, y) in {1, 2}
    ensures DeadAreStuck(AfterRemove(f, y))
  {
    var h := Without(f.m.g, y);
    forall x | x in f.m.three && x !in h.live
      ensures StuckAt(AfterRemove(f, y), x)
    {
      if x == y {
        LoweredKeepsDead(h, f.deg, Listed(h, y), y);
      } else {
        RemoveKeeps(f, y, x);
      }
    }
  }

  /** When the vertices before the i-th are gone, the i-th is live with one or two live neighbours. */
  ghost predicate GoesAt(g: Graph, ys: seq<nat>, i: nat) {
    && i < |ys| && ys[i] in g.live && ys[i] !in ys[..i]
    && 1 <= Degree(RemoveSet(g, Members(ys[..i])), ys[i]) <= 2
  }

  /** A chain, or all of it but its first vertex, can go one vertex after the other. */
  lemma ChainGoes(g: Graph, p: seq<nat>, v: nat, w: nat, low: nat, i: nat)
    requires WellFormed(g) && IsChain(g, p, v, w) && low + i < |p|
    ensures GoesAt(g, p[low..], i)
  {
    var ys, e := p[low..], Extended(p, v, w);
    ChainNeighbours(g, p, v, w, low + i);
    NeighboursRemoveSet(g, Members(ys[..i]), ys[i]);
    DistinctPairwise(p);
    var next := e[low + i + 2];
    assert next == if low + i + 1 < |p| then p[low + i + 1] else w;
    assert next in Neighbours(RemoveSet(g, Members(ys[..i])), ys[i]);
    SubsetCardinality(Neighbours(RemoveSet(g, Members(ys[..i])), ys[i]), Neighbours(g, ys[i]));
  }

  /** r is f with the vertices of `gone` removed from the graph and from VerticesTwo. */
  ghost predicate PartRemoved(f: Machine, gone: set<nat>, r: Machine) {
    && r.m == f.m.(g := RemoveSet(f.m.g, gone), two := f.m.two - gone)
    && Agrees(r) && DeadAreStuck(r)
  }

  lemma OneMoreRemoved(f: Machine, gone: set<nat>, r: Machine, y: nat)
    requires PartRemoved(f, gone, r) && y in r.m.g.live && 1 <= Degree(r.m.g, y) <= 2
    ensures PartRemoved(f, gone + {y}, AfterRemove(r, y))
  {
    RemoveAgrees(r, y);
    RemoveSticks(r, y);
    assert f.m.g.live - gone - {y} == f.m.g.live - (gone + {y});
    assert f.m.two - gone - {y} == f.m.two - (gone + {y});
  }

  lemma RemovesOne(f: Machine, ys: seq<nat>, i: nat)
    requires i < |ys| && GoesAt(f.m.g, ys, i) && PartRemoved(f, Members(ys[..i]), AfterRemoves(f, ys[..i]))
    ensures PartRemoved(f, Members(ys[..i + 1]), AfterRemoves(f, ys[..i + 1]))
  {
    var before, y := ys[..i], ys[i];
    assert y !in Members(before);
    OneMoreRemoved(f, Members(before), AfterRemoves(f, before), y);
    MembersAppend(before, y);
    assert ys[..i + 1] == before + [y];
    assert (before + [y])[..i] == before;
  }

  lemma {:induction false} RemovesAgree(f: Machine, ys: seq<nat>, i: nat)
    requires Agrees(f) && DeadAreStuck(f) && i <= |ys|
    requires forall k :: 0 <= k < |ys| ==> GoesAt(f.m.g, ys, k)
    ensures PartRemoved(f, Members(ys[..i]), AfterRemoves(f, ys[..i]))
  {
    if i == 0 {
      NothingRemoved(f);
      assert ys[..0] == [];
    } else {
      RemovesAgree(f, ys, i - 1);
      RemovesOne(f, ys, i - 1);
    }
  }

  lemma NothingRemoved(f: Machine)
    requires Agrees(f) && DeadAreStuck(f)
    ensures PartRemoved(f, Members([]), AfterRemoves(f, []))
  {
    assert Members([]) == {};
    assert f.m.g.live - {} == f.m.g.live && f.m.two - {} == f.m.two;
  }

  /** The edge a-b added to g unless it is there. */
  ghost function LinkedIn(g: Graph, a: nat, b: nat): Graph
    requires a in g.adj && b in g.adj && a != b
  {
    if Adjacent(g, a, b) then g else WithEdge(g, a, b)
  }

  lemma EdgeAgrees(f: Machine, a: nat, b: nat)
    requires Agrees(f) && DeadAreStuck(f) && a in f.m.g.live && b in f.m.g.live && a != b
    ensures var r := AfterEdge(f, a, b);
      r.m == f.m.(g := LinkedIn(f.m.g, a, b)) && Agrees(r) && DeadAreStuck(r)
  {
    if !Adjacent(f.m.g, a, b) {
      JoinFits(f.m.g, f.deg, a, b);
      forall x | x in f.m.three && x !in f.m.g.live { EdgeKeeps(f, a, b, x); }
    }
  }

  lemma OddReady(g: Graph, p: seq<nat>, v: nat, w: nat)
    requires WellFormed(g) && IsChain(g, p, v, w) && v != w
    ensures p[0] in g.live - Members(p[1..]) && w in g.live - Members(p[1..]) && p[0] != w
    ensures OddGraph(g, p, w) == LinkedIn(RemoveSet(g, Members(p[1..])), p[0], w)
  {
    assert forall i :: 0 <= i < |p| ==> p[i] in OfDegree(g, 2);
    if |p| > 1 {
      OddEdgeIsNew(g, p, v, w);
    } else {
      assert RemoveSet(g, Members(p[1..])) == g;
    }
  }

  lemma EvenReady(g: Graph, p: seq<nat>, v: nat, w: nat)
    requires WellFormed(g) && IsChain(g, p, v, w) && v != w
    ensures v in g.live - Members(p) && w in g.live - Members(p)
    ensures EvenGraph(g, p, v, w) == LinkedIn(RemoveSet(g, Members(p)), v, w)
    ensures |p| % 2 == 0 ==> var r := RemoveSet(g, Members(p));
      LeavesStale(g, p, v, w) <==> Adjacent(r, v, w) && (Degree(r, v) == 2 || Degree(r, w) == 2)
  {
    assert forall i :: 0 <= i < |p| ==> p[i] in OfDegree(g, 2);
    EvenEdgeIsNew(g, p, v, w);
    if Adjacent(g, v, w) {
      EvenGraphNeighbours(g, p, v, w, v);
      EvenGraphNeighbours(g, p, v, w, w);
    }
  }

  /** The tail of a chain removed: what is left agrees. */
  lemma TailRemoved(f: Machine, p: seq<nat>, v: nat, w: nat, low: nat)
    requires Agrees(f) && DeadAreStuck(f) && IsChain(f.m.g, p, v, w) && low <= |p|
    ensures PartRemoved(f, Members(p[low..]), AfterRemoves(f, p[low..]))
  {
    forall k | 0 <= k < |p[low..]|
      ensures GoesAt(f.m.g, p[low..], k)
    {
      ChainGoes(f.m.g, p, v, w, low, k);
    }
    RemovesAgree(f, p[low..], |p[low..]|);
    assert p[low..][..|p[low..]|] == p[low..];
  }

  ghost predicate ChainDone(f: Machine, p: seq<nat>, v: nat, w: nat)
    requires WellFormed(f.m.g) && IsChain(f.m.g, p, v, w)
  {
    var r := AfterChain(f, p, v, w);
    ContractedReady(f.m.g, p, v, w);
    r.m == Contracted(f.m, p, v, w) && Agrees(r) && DeadAreStuck(r)
  }

  lemma ContractedReady(g: Graph, p: seq<nat>, v: nat, w: nat)
    requires WellFormed(g) && IsChain(g, p, v, w)
    ensures p[0] in g.adj && v in g.adj && w in g.adj && p[0] != w
  {
    assert p[0] in OfDegree(g, 2);
  }

  lemma StackedAgrees(f: Machine, ys: seq<nat>)
    requires Agrees(f) && DeadAreStuck(f)
    ensures Agrees(Stacked(f, ys)) && DeadAreStuck(Stacked(f, ys))
  {
    forall x | x in f.m.three && x !in f.m.g.live
      ensures StuckAt(Stacked(f, ys), x)
    {
      assert StuckAt(f, x);
    }
  }

  lemma EvenAgrees(f: Machine, p: seq<nat>, v: nat, w: nat)
    requires Agrees(f) && DeadAreStuck(f) && IsChain(f.m.g, p, v, w) && v != w && |p| % 2 == 0
    ensures ChainDone(f, p, v, w) && (ChainIsStale(f, p, v, w) <==> LeavesStale(f.m.g, p, v, w))
  {
    EvenReady(f.m.g, p, v, w);
    TailRemoved(f, p, v, w, 0);
    assert p[0..] == p;
    var r := AfterRemoves(f, p);
    EdgeAgrees(r, v, w);
    StackedAgrees(AfterEdge(r, v, w), p);
  }

  lemma ShortenAgrees(f: Machine, p: seq<nat>, v: nat, w: nat)
    requires Agrees(f) && DeadAreStuck(f) && IsChain(f.m.g, p, v, w) && v != w
    requires |p| % 2 == 1 && !Adjacent(f.m.g, v, w)
    ensures ChainDone(f, p, v, w)
  {
    OddReady(f.m.g, p, v, w);
    TailRemoved(f, p, v, w, 1);
    var r := AfterRemoves(f, p[1..]);
    EdgeAgrees(r, p[0], w);
    StackedAgrees(AfterEdge(r, p[0], w), p[1..]);
  }

  lemma EndsAgree(f: Machine, p: seq<nat>, v: nat, w: nat)
    requires Agrees(f) && DeadAreStuck(f) && IsChain(f.m.g, p, v, w) && (v == w || Adjacent(f.m.g, v, w))
    requires f.m.two <= OfDegree(f.m.g, 2) && Degree(f.m.g, v) >= 3 && (v == w || |p| % 2 == 1)
    ensures ChainDone(f, p, v, w)
  {
    DeleteAgrees(f, v);
    DeleteSticks(f, v);
    if v != w {
      var f1 := AfterDelete(f, v);
      DeleteBucketTwo(f.m, v);
      assert FieldOf(f1.deg, w) == Degree(f1.m.g, w);
      DeleteAgrees(f1, w);
      DeleteSticks(f1, w);
    }
  }

  lemma ChainAgrees(f: Machine, p: seq<nat>, v: nat, w: nat)
    requires Agrees(f) && DeadAreStuck(f) && IsChain(f.m.g, p, v, w)
    requires f.m.two <= OfDegree(f.m.g, 2) && OfDegree(f.m.g, 1) == {}
    ensures ChainDone(f, p, v, w) && (ChainIsStale(f, p, v, w) <==> LeavesStale(f.m.g, p, v, w))
  {
    ChainDegrees(f.m.g, p, v, w);
    if v == w || (|p| % 2 == 1 && Adjacent(f.m.g, v, w)) {
      EndsAgree(f, p, v, w);
    } else if |p| % 2 == 0 {
      EvenAgrees(f, p, v, w);
    } else {
      ShortenAgrees(f, p, v, w);
    }
  }

  // ---------- the search for the chain ----------

  lemma TwosAreDegreeTwo(f: Machine)
    requires Agrees(f)
    ensures Twos(f) == OfDegree(f.m.g, 2) && Known(f.m.g)
  {
    forall x, y | Adjacent(f.m.g, x, y) ensures y in f.m.g.adj {
      assert Adjacent(f.m.g, y, x);
    }
  }

  ghost function Kept(f: Machine, ys: set<nat>): set<nat> {
    set y | y in ys && y in f.m.g.live && FieldOf(f.deg, y) != 2
  }

  /** Others lists, without repetition, the listed live vertices whose field is not two. */
  lemma {:induction false} OthersAre(f: Machine, ys: seq<nat>)
    requires Distinct(ys)
    ensures Distinct(Others(f, ys)) && Members(Others(f, ys)) == Kept(f, Members(ys))
  {
    if ys != [] {
      var before, y := ys[..|ys| - 1], ys[|ys| - 1];
      OthersAre(f, before);
      assert ys == before + [y];
      OneMoreKept(f, before, y, Others(f, before));
    }
  }

  lemma OneMoreKept(f: Machine, ys: seq<nat>, y: nat, os: seq<nat>)
    requires y !in ys && Distinct(os) && Members(os) == Kept(f, Members(ys))
    ensures var more := if y in f.m.g.live && FieldOf(f.deg, y) != 2 then [y] else [];
      Distinct(os + more) && Members(os + more) == Kept(f, Members(ys + [y]))
  {
    MembersAppend(os, y);
    MembersAppend(ys, y);
    assert y !in Members(os) && os + [] == os;
    DistinctAppend(os, y);
  }

  lemma OthersOfAre(f: Machine, x: nat)
    requires Agrees(f) && x in f.m.g.adj
    ensures Distinct(OthersOf(f, x))
    ensures forall y :: y in OthersOf(f, x) <==> y in Neighbours(f.m.g, x) && y !in OfDegree(f.m.g, 2)
    ensures Touches(f.m.g, x) <==> OthersOf(f, x) != []
  {
    OthersAre(f, f.m.g.adj[x]);
    var os := OthersOf(f, x);
    forall y
      ensures y in os <==> y in Neighbours(f.m.g, x) && y !in OfDegree(f.m.g, 2)
    {
      assert y in os <==> y in Members(os);
    }
    assert os != [] ==> os[0] in os;
  }

  /** The first of the found vertices that touches another degree exists if one of them does. */
  lemma {:induction false} FirstEndFound(f: Machine, path: seq<nat>, k: nat)
    requires k < |path| && OthersOf(f, path[k]) != []
    ensures FirstEnd(f, path) in path && OthersOf(f, FirstEnd(f, path)) != []
  {
    if OthersOf(f, path[0]) == [] {
      FirstEndFound(f, path[1..], k - 1);
    }
  }

  lemma FoundIsComponent(f: Machine, u: nat)
    requires Agrees(f) && u in OfDegree(f.m.g, 2)
    ensures Distinct(Found(f, u)) && IsComponent(f.m.g, OfDegree(f.m.g, 2), u, Members(Found(f, u)))
  {
    TwosAreDegreeTwo(f);
    assert Twos(f) + {u} == OfDegree(f.m.g, 2);
    SearchIsComponent(f.m.g, OfDegree(f.m.g, 2), u);
  }

  lemma EndIsFound(f: Machine, u: nat)
    requires Agrees(f) && u in OfDegree(f.m.g, 2) && !OnCycle(f, u)
    ensures var st := FirstEnd(f, Found(f, u)); st in Members(Found(f, u)) && Touches(f.m.g, st)
  {
    var g, found := f.m.g, Found(f, u);
    FoundIsComponent(f, u);
    SomeTouches(g, u, found);
    var k :| 0 <= k < |found| && Touches(g, found[k]);
    assert found[k] in Members(found);
    OthersOfAre(f, found[k]);
    FirstEndFound(f, found, k);
    assert FirstEnd(f, found) in Members(found);
    OthersOfAre(f, FirstEnd(f, found));
  }

  lemma OrderedIsPath(f: Machine, u: nat)
    requires Agrees(f) && u in OfDegree(f.m.g, 2) && !OnCycle(f, u)
    ensures IsPathOf(f.m.g, Ordered(f, Found(f, u)), Members(Found(f, u)))
  {
    var S := Members(Found(f, u));
    FoundIsComponent(f, u);
    TwosAreDegreeTwo(f);
    EndIsFound(f, u);
    assert S * f.m.g.live == S;
    FollowedIsPath(f.m.g, u, S, FirstEnd(f, Found(f, u)));
  }

  lemma FollowedIsPath(g: Graph, u: nat, S: set<nat>, st: nat)
    requires WellFormed(g) && Known(g) && IsComponent(g, OfDegree(g, 2), u, S) && st in S && Touches(g, st)
    ensures IsPathOf(g, Search(g, S, st, []), S)
  {
    var p := Search(g, S, st, []);
    OneWayOnFromEnd(g, S, st);
    assert Members([]) == {};
    SearchExplores(g, S, st, []);
    assert Members(p) - Members([]) == Members(p);
    SearchVisitsComponent(g, u, S, st, Members(p));
    SearchFollows(g, S, st, []);
    assert p[0..] == p;
  }

  lemma ChainSwapped(g: Graph, p: seq<nat>, a: nat, b: nat, v: nat, w: nat)
    requires IsChain(g, p, a, b) && |p| == 1 && v in {a, b} && w in {a, b} && v != w
    ensures IsChain(g, p, v, w)
  {
  }

  lemma SingleEnds(f: Machine, p: seq<nat>, a: nat, b: nat)
    requires Agrees(f) && IsChain(f.m.g, p, a, b) && |p| == 1
    ensures IsChain(f.m.g, p, FirstOf(f, p), LastOf(f, p))
  {
    var os := OthersOf(f, p[0]);
    assert p[0] in OfDegree(f.m.g, 2);
    OthersOfAre(f, p[0]);
    assert a in os && b in os;
    DistinctPairwise(os);
    assert |os| >= 2 && os[0] in os && os[1] in os;
    EndsAreUnique(f.m.g, p, a, b, os[0]);
    EndsAreUnique(f.m.g, p, a, b, os[1]);
    ChainSwapped(f.m.g, p, a, b, os[0], os[1]);
  }

  lemma LongEnds(f: Machine, p: seq<nat>, a: nat, b: nat)
    requires Agrees(f) && IsChain(f.m.g, p, a, b) && |p| > 1
    ensures FirstOf(f, p) == a && LastOf(f, p) == b
  {
    var first, last := p[0], p[|p| - 1];
    assert first in OfDegree(f.m.g, 2) && last in OfDegree(f.m.g, 2);
    OthersOfAre(f, first);
    OthersOfAre(f, last);
    assert a in OthersOf(f, first) && b in OthersOf(f, last);
    assert OthersOf(f, first)[0] in OthersOf(f, first) && OthersOf(f, last)[0] in OthersOf(f, last);
    EndsAreUnique(f.m.g, p, a, b, OthersOf(f, first)[0]);
    EndsAreUnique(f.m.g, p, a, b, OthersOf(f, last)[0]);
  }

  /** What the code takes for the two ends are the ends of the chain. */
  lemma EndsAreChain(f: Machine, p: seq<nat>, u: nat, S: set<nat>)
    requires Agrees(f) && IsComponent(f.m.g, OfDegree(f.m.g, 2), u, S) && IsPathOf(f.m.g, p, S)
    ensures IsChain(f.m.g, p, FirstOf(f, p), LastOf(f, p))
  {
    var a, b := PathIsChain(f.m.g, p, u, S);
    if |p| == 1 {
      SingleEnds(f, p, a, b);
    } else {
      LongEnds(f, p, a, b);
    }
  }

  // ---------- a turn ----------

  lemma CycleAgrees(f: Machine, u: nat)
    requires Agrees(f) && Sound(f.m) && DeadAreStuck(f) && u in f.m.two && OnCycle(Popped(f, u), u)
    ensures var f' := AfterTwo(Popped(f, u), u);
      TwoStep(f.m, f'.m, false) && Agrees(f') && DeadAreStuck(f')
  {
    var f1 := Popped(f, u);
    FoundIsComponent(f1, u);
    PoppedSticks(f, u);
    DeleteAgrees(f1, u);
    DeleteSticks(f1, u);
    assert CycleStepOn(f.m, u, Members(Found(f1, u)), AfterTwo(f1, u).m);
  }

  /** The search ends in a chain, so that the source's two nil pointers cannot arise. */
  lemma FindsChain(f: Machine, u: nat)
    requires Agrees(f) && u in OfDegree(f.m.g, 2) && !OnCycle(f, u)
    requires forall x :: x in f.m.g.live ==> x < MAX_UINT
    ensures var p := Ordered(f, Found(f, u));
      && !Panics(f, u) && IsChain(f.m.g, p, FirstOf(f, p), LastOf(f, p)) && u in p
      && IsComponent(f.m.g, OfDegree(f.m.g, 2), u, Members(p))
  {
    var found := Found(f, u);
    FoundIsComponent(f, u);
    OrderedIsPath(f, u);
    EndsAreChain(f, Ordered(f, found), u, Members(found));
    EndIsFound(f, u);
    assert u in Members(Ordered(f, found));
  }

  lemma TwoAgrees(f: Machine, u: nat)
    requires Agrees(f) && Sound(f.m) && DeadAreStuck(f) && f.m.one == {} && u in f.m.two
    requires forall x :: x in f.m.g.live ==> x < MAX_UINT
    ensures var f1 := Popped(f, u); var f' := AfterTwo(f1, u);
      !Panics(f1, u) && TwoStep(f.m, f'.m, TwoIsStale(f1, u)) && Agrees(f') && DeadAreStuck(f')
  {
    var f1 := Popped(f, u);
    if OnCycle(f1, u) {
      CycleAgrees(f, u);
    } else {
      var p := Ordered(f1, Found(f1, u));
      FindsChain(f1, u);
      PoppedSticks(f, u);
      ChainAgrees(f1, p, FirstOf(f1, p), LastOf(f1, p));
      assert ChainStepOn(f.m, u, p, FirstOf(f1, p), LastOf(f1, p), AfterTwo(f1, u).m);
    }
  }

  lemma PoppedSticks(f: Machine, u: nat)
    requires DeadAreStuck(f)
    ensures DeadAreStuck(Popped(f, u))
  {
    forall x | x in f.m.three && x !in f.m.g.live
      ensures StuckAt(Popped(f, u), x)
    {
      assert StuckAt(f, x);
    }
  }

  /** A turn of the loop on fields that agree is a turn on the graph, and they agree afterwards. A member of
      VerticesGreaterThanThree that dies in it is stuck there. */
  lemma TurnAgrees(f: Machine, f': Machine, stale: bool)
    requires Agrees(f) && Sound(f.m) && f.m.three <= f.m.g.live && MachineTurn(f, f', stale)
    requires forall x :: x in f.m.g.live ==> x < MAX_UINT
    ensures Turn(f.m, f'.m, stale) && Agrees(f') && DeadAreStuck(f')
  {
    if f.m.one != {} {
      var x :| x in f.m.one && f' == AfterOne(f, x);
      OneAgrees(f, x);
    } else if f.m.two != {} {
      var u :| TwoTurnOn(f, u, f', stale);
      TwoAgrees(f, u);
    } else {
      PeelAgrees(f, f');
    }
  }

  /** From such a state no turn panics. */
  lemma NoPanic(f: Machine)
    requires Agrees(f) && Sound(f.m) && f.m.three <= f.m.g.live
    requires forall x :: x in f.m.g.live ==> x < MAX_UINT
    ensures !TurnPanics(f)
  {
    forall u | u in f.m.two && f.m.one == {}
      ensures !Panics(Popped(f, u), u)
    {
      TwoAgrees(f, u);
    }
  }

  // ---------- the start ----------

  lemma SameField(g: Graph, deg: Degrees, d: nat)
    requires Fit(g, deg) && g.live == g.adj.Keys
    ensures WithField(deg, g.adj.Keys, d) == OfDegree(g, d)
  {
  }

  lemma StartFits(g: Graph, deg: Degrees, gone: set<nat>)
    requires Fit(g, deg) && gone == OfDegree(g, 0)
    ensures Fit(RemoveSet(g, gone), deg)
  {
    WellFormedRemoveSet(g, gone);
    forall y | y in g.live - gone
      ensures FieldOf(deg, y) == Degree(RemoveSet(g, gone), y)
    {
      IsolatedGone(g, gone, y);
    }
  }

  lemma HighField(g: Graph, deg: Degrees)
    requires Fit(g, deg) && g.live == g.adj.Keys
    ensures (set y | y in g.adj.Keys && FieldOf(deg, y) !in {0, 1, 2}) == AtLeastThree(g)
  {
  }

  lemma SortedIs(g: Graph, deg: Degrees)
    requires WithField(deg, g.adj.Keys, 0) == OfDegree(g, 0) && WithField(deg, g.adj.Keys, 1) == OfDegree(g, 1)
    requires WithField(deg, g.adj.Keys, 2) == OfDegree(g, 2)
    requires (set y | y in g.adj.Keys && FieldOf(deg, y) !in {0, 1, 2}) == AtLeastThree(g)
    ensures Sorted(g, deg, g.adj.Keys) == Initial(g)
  {
  }

  /** With every vertex live and the fields right, the buckets are those of the degrees. */
  lemma StartAgrees(g: Graph, deg: Degrees)
    requires Fit(g, deg) && g.live == g.adj.Keys
    ensures Start(g, deg).m == Initial(g) && Agrees(Start(g, deg))
  {
    SameField(g, deg, 0);
    SameField(g, deg, 1);
    SameField(g, deg, 2);
    HighField(g, deg);
    SortedIs(g, deg);
    StartFits(g, deg, OfDegree(g, 0));
  }
}
