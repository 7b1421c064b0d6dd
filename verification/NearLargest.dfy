/** How far the solver's answer can be from a largest independent set: what a turn of its loop costs, what a whole
    run costs, and when the answer is a largest one. */
module NearLargest {
  import opened Chains
  import opened ChainSteps
  import opened Endless
  import opened Fields
  import opened Graphs
  import opened LargestSets
  import opened Machines
  import opened Paths
  import opened Reachability
  import opened Reductions
  import opened TurnLaws
  import opened Worklist

  /** The loop's only turn that may lose something is the one it takes when nothing has degree one or two. */
  ghost function Peeled(m: Solver): nat {
    if m.one == {} && m.two == {} then 1 else 0
  }

  /** What was pushed between m and m'. */
  ghost function Pushed(m: Solver, m': Solver): seq<nat>
    requires m.stack <= m'.stack
  {
    m'.stack[|m.stack|..]
  }

  /** A step that pushes 2k vertices and costs k, or k + extra at most. */
  ghost predicate StepCosts(m: Solver, m': Solver, k: nat, extra: nat) {
    && m.stack <= m'.stack && |Pushed(m, m')| == 2 * k
    && CostsAtMost(m.g, m'.g, k + extra) && GivesBack(m.g, m'.g, k)
  }

  /** The vertices pushed are the ones that went, each next to the one pushed before it. */
  ghost predicate PushesWhatWent(m: Solver, m': Solver) {
    m.stack <= m'.stack
    && (Pushed(m, m') != [] ==>
          Members(Pushed(m, m')) == m.g.live - m'.g.live && Consecutive(m.g, Pushed(m, m')))
  }

  lemma Pushes(m: Solver, m': Solver, q: seq<nat>)
    requires m'.stack == m.stack + q
    ensures m.stack <= m'.stack && Pushed(m, m') == q
  {
  }

  // ---------- one step ----------

  lemma OneStepCosts(m: Solver, x: nat, z: nat, m': Solver)
    requires Sound(m) && OneStepOn(m, x, z, m')
    ensures StepCosts(m, m', 0, 0) && PushesWhatWent(m, m')
  {
    Pushes(m, m', []);
    assert x in OfDegree(m.g, 1);
    PendantCosts(m.g, x, z);
    DeletionCosts(m.g, z);
  }

  lemma CycleStepCosts(m: Solver, u: nat, S: set<nat>, m': Solver)
    requires Sound(m) && CycleStepOn(m, u, S, m')
    ensures StepCosts(m, m', 0, 0) && PushesWhatWent(m, m')
  {
    Pushes(m, m', []);
    CycleCosts(m.g, S, u);
    DeletionCosts(m.g, u);
  }

  lemma {:induction false} ReversedAt(s: seq<nat>, i: nat)
    requires i < |s|
    ensures |Reversed(s)| == |s| && Reversed(s)[i] == s[|s| - 1 - i]
  {
    if |s| > 1 {
      ReversedAt(s[..|s| - 1], if i > 0 then i - 1 else 0);
    }
  }

  lemma ReversedEnds(s: seq<nat>)
    requires s != []
    ensures |Reversed(s)| == |s| && Reversed(s)[0] == s[|s| - 1] && Reversed(s)[|s| - 1] == s[0]
  {
    ReversedAt(s, 0);
    ReversedAt(s, |s| - 1);
  }

  /** The tail of a chain begins next to the chain's first vertex and ends next to w. */
  lemma TailEnds(g: Graph, p: seq<nat>, v: nat, w: nat)
    requires WellFormed(g) && IsChain(g, p, v, w)
    ensures var q := Reversed(p[1..]); q != [] ==> Adjacent(g, q[0], w) && Adjacent(g, q[|q| - 1], p[0])
  {
    if |p| > 1 {
      ReversedEnds(p[1..]);
      assert Adjacent(g, p[0], p[0 + 1]) && Adjacent(g, p[1], p[0]);
    }
  }

  lemma ReversedConsecutive(g: Graph, s: seq<nat>)
    requires WellFormed(g) && Consecutive(g, s)
    ensures Consecutive(g, Reversed(s)) && |Reversed(s)| == |s| && Members(Reversed(s)) == Members(s)
  {
    ReversedMembers(s);
    forall i | 0 <= i < |s| - 1
      ensures Adjacent(g, Reversed(s)[i], Reversed(s)[i + 1])
    {
      ReversedAt(s, i);
      ReversedAt(s, i + 1);
      assert Adjacent(g, s[|s| - 2 - i], s[|s| - 2 - i + 1]);
    }
  }

  /** Deleting both ends in turn leaves the graph without them. */
  lemma DeletesCost(m: Solver, p: seq<nat>, v: nat, w: nat, m': Solver)
    requires WellFormed(m.g) && IsChain(m.g, p, v, w) && v != w && |p| % 2 == 1 && Adjacent(m.g, v, w)
    requires m'.g == Without(Without(m.g, v), w) && m'.stack == m.stack
    ensures StepCosts(m, m', 0, 0)
  {
    Pushes(m, m', []);
    BothEndsCost(m.g, p, v, w);
    DeletionCosts(m.g, v);
    DeletionCosts(Without(m.g, v), w);
  }

  lemma ChainStepCosts(m: Solver, u: nat, p: seq<nat>, v: nat, w: nat) returns (k: nat)
    requires IsChainOf(m, u, p, v, w)
    ensures StepCosts(m, ChainStep(m, u, p, v, w), k, 0) && PushesWhatWent(m, ChainStep(m, u, p, v, w))
    ensures var q := Pushed(m, ChainStep(m, u, p, v, w));
      q != [] ==> Adjacent(m.g, q[0], w) && Adjacent(m.g, q[|q| - 1], if |p| % 2 == 1 then p[0] else v)
  {
    var m' := ChainStep(m, u, p, v, w);
    if v == w {
      k := 0;
      Pushes(m, m', []);
      LoopCosts(m.g, p, v);
      DeletionCosts(m.g, v);
    } else if |p| % 2 == 0 {
      k := |p| / 2;
      EvenStepCosts(m, u, p, v, w);
      ReversedEnds(p);
    } else if Adjacent(m.g, v, w) {
      k := 0;
      Pushes(m, m', []);
      DeletesCost(m, p, v, w, m');
    } else {
      k := |p| / 2;
      OddStepCosts(m, u, p, v, w);
      TailEnds(m.g, p, v, w);
    }
  }

  lemma EvenStepCosts(m: Solver, u: nat, p: seq<nat>, v: nat, w: nat)
    requires IsChainOf(m, u, p, v, w) && v != w && |p| % 2 == 0
    ensures StepCosts(m, ChainStep(m, u, p, v, w), |p| / 2, 0) && PushesWhatWent(m, ChainStep(m, u, p, v, w))
    ensures Pushed(m, ChainStep(m, u, p, v, w)) == Reversed(p)
  {
    var m' := ChainStep(m, u, p, v, w);
    Pushes(m, m', Reversed(p));
    ReversedConsecutive(m.g, p);
    EvenCosts(m.g, p, v, w);
    EndsOff(m.g, p, v, w);
    assert m'.g.live == m.g.live - Members(p);
  }

  lemma OddHalf(n: nat)
    requires n % 2 == 1
    ensures n - 1 == 2 * (n / 2)
  {
  }

  lemma TailGone(g: Graph, p: seq<nat>, v: nat, w: nat)
    requires WellFormed(g) && IsChain(g, p, v, w) && v != w
    ensures p[0] in g.adj && w in g.adj && p[0] != w
    ensures Members(p[1..]) == g.live - OddGraph(g, p, w).live
  {
    OddReady(g, p, v, w);
    EndsOff(g, p, v, w);
    assert p == [p[0]] + p[1..];
  }

  lemma OddStepCosts(m: Solver, u: nat, p: seq<nat>, v: nat, w: nat)
    requires IsChainOf(m, u, p, v, w) && v != w && |p| % 2 == 1 && !Adjacent(m.g, v, w)
    ensures StepCosts(m, ChainStep(m, u, p, v, w), |p| / 2, 0) && PushesWhatWent(m, ChainStep(m, u, p, v, w))
    ensures Pushed(m, ChainStep(m, u, p, v, w)) == Reversed(p[1..])
  {
    var m' := ChainStep(m, u, p, v, w);
    OddHalf(|p|);
    Pushes(m, m', Reversed(p[1..]));
    ReversedConsecutive(m.g, p[1..]);
    OddCosts(m.g, p, v, w);
    TailGone(m.g, p, v, w);
  }

  lemma TwoStepCosts(m: Solver, m': Solver, stale: bool) returns (k: nat)
    requires Sound(m) && TwoStep(m, m', stale)
    ensures StepCosts(m, m', k, 0) && PushesWhatWent(m, m')
  {
    if u, S :| CycleStepOn(m, u, S, m') && !stale {
      k := 0;
      CycleStepCosts(m, u, S, m');
    } else {
      var u, p, v, w :| ChainStepOn(m, u, p, v, w, m');
      k := ChainStepCosts(m, u, p, v, w);
    }
  }

  // ---------- one turn of the loop ----------

  lemma {:induction false} StepsKeepStack(f: Machine, ys: seq<nat>)
    ensures Steps(f, ys).m.stack == f.m.stack && Steps(f, ys).m.g == f.m.g
  {
    if ys != [] {
      StepsKeepStack(f, ys[..|ys| - 1]);
    }
  }

  lemma PeelTurnCosts(f: Machine, f': Machine)
    requires PeelTurn(f, f')
    ensures StepCosts(f.m, f'.m, 0, 1) && PushesWhatWent(f.m, f'.m)
  {
    Pushes(f.m, f.m, []);
    if x :| Greatest(f, x) && f' == AfterDelete(f, x) {
      StepsKeepStack(Marked(f, x), Listed(f.m.g, x));
      DeletionCosts(f.m.g, x);
    }
  }

  /** What a turn that returns costs, as long as the fields are right: nothing but what it pushes, unless it peels; and
      then one more at most. What it pushes costs half as many. */
  lemma TurnCosts(f: Machine, f': Machine, stale: bool) returns (k: nat)
    requires FieldsRight(f) && MachineTurn(f, f', stale)
    ensures StepCosts(f.m, f'.m, k, Peeled(f.m)) && PushesWhatWent(f.m, f'.m)
  {
    if f.m.one != {} {
      k := 0;
      var x :| x in f.m.one && f' == AfterOne(f, x);
      OneAgrees(f, x);
      var y, z :| OneStepOn(f.m, y, z, f'.m);
      OneStepCosts(f.m, y, z, f'.m);
    } else if f.m.two != {} {
      var u :| TwoTurnOn(f, u, f', stale);
      TwoAgrees(f, u);
      k := TwoStepCosts(f.m, f'.m, stale);
    } else {
      k := 0;
      PeelTurnCosts(f, f');
    }
  }

  /** A degree-one or degree-two reduction that pushes nothing loses nothing: for every independent set of live
      vertices there is one at least as large among the vertices that are still live. */
  lemma ReductionKeepsLargest(f: Machine, f': Machine, stale: bool, s: set<nat>)
    requires FieldsRight(f) && (f.m.one != {} || f.m.two != {}) && MachineTurn(f, f', stale)
    requires f'.m.stack == f.m.stack && s <= f.m.g.live && Independent(f.m.g.adj, s)
    ensures exists t :: t <= f'.m.g.live && Independent(f'.m.g.adj, t) && |t| >= |s|
  {
    var k := TurnCosts(f, f', stale);
    assert Pushed(f.m, f'.m) == [];
    assert Free(f.m.g, s) && HasFree(f.m.g, |s|);
    var t :| Free(f'.m.g, t) && |t| >= |s| - 0;
  }

  // ---------- a whole run ----------

  lemma CostsAddUp(g: Graph, h: Graph, i: Graph, a: nat, b: nat, c: nat, d: nat)
    requires CostsAtMost(g, h, a) && CostsAtMost(h, i, b) && GivesBack(g, h, c) && GivesBack(h, i, d)
    ensures CostsAtMost(g, i, a + b) && GivesBack(g, i, c + d)
  {
    forall n: int | HasFree(g, n)
      ensures HasFree(i, n - (a + b))
    {
      assert HasFree(h, n - a) && n - a - b == n - (a + b);
    }
    forall n: int | HasFree(i, n)
      ensures HasFree(g, n + (c + d))
    {
      assert HasFree(h, n + d) && n + d + c == n + (c + d);
    }
  }

  /** How often a run peeled. */
  ghost function Peels(run: seq<Machine>): nat {
    if |run| <= 1 then 0 else Peels(run[..|run| - 1]) + Peeled(run[|run| - 2].m)
  }

  lemma PeelsOneMore(run: seq<Machine>, f: Machine)
    requires run != []
    ensures Peels(run + [f]) == Peels(run) + Peeled(run[|run| - 1].m)
  {
    assert (run + [f])[..|run|] == run;
  }

  ghost predicate RunCost(m: Solver, m': Solver, k: nat, peels: nat) {
    && |m'.stack| == |m.stack| + 2 * k && Since(m, m')
    && CostsAtMost(m.g, m'.g, k + peels) && GivesBack(m.g, m'.g, k)
  }

  lemma RunCostAddsUp(m0: Solver, m: Solver, m': Solver, k: nat, peels: nat, i: nat, extra: nat)
    requires RunCost(m0, m, k, peels) && StepCosts(m, m', i, extra) && Since(m0, m')
    ensures RunCost(m0, m', k + i, peels + extra)
  {
    CostsAddUp(m0.g, m.g, m'.g, k + peels, i + extra, k, i);
    assert (k + peels) + (i + extra) == (k + i) + (peels + extra);
  }

  lemma RunCostsMore(m0: Solver, f: Machine, f': Machine, k: nat, peels: nat) returns (k': nat)
    requires RunCost(m0, f.m, k, peels) && Clean(f) && MachineTurn(f, f', false)
    ensures RunCost(m0, f'.m, k', peels + Peeled(f.m))
  {
    CleanOrDoomed(f, f', false);
    SinceTurn(m0, f.m, f'.m);
    var i := TurnCosts(f, f', false);
    RunCostAddsUp(m0, f.m, f'.m, k, peels, i, Peeled(f.m));
    k' := k + i;
  }

  lemma {:induction false} RunCosts(run: seq<Machine>) returns (k: nat)
    requires Unspoilt(run) && Clean(run[0])
    ensures RunCost(run[0].m, run[|run| - 1].m, k, Peels(run))
  {
    if |run| == 1 {
      k := 0;
    } else {
      var before := run[..|run| - 1];
      forall i | 0 < i < |before| ensures MachineTurn(before[i - 1], before[i], false) {
        assert before[i] == run[i];
      }
      k := RunCosts(before);
      UnspoiltClean(before);
      k := RunCostsMore(run[0].m, run[|run| - 2], run[|run| - 1], k, Peels(before));
    }
  }

  // ---------- the start and the end ----------

  lemma StartCounts(g: Graph, n: int)
    requires WellFormed(g)
    ensures HasFree(g, n) <==> HasFree(Initial(g).g, n - |OfDegree(g, 0)|)
  {
    var iso, h := OfDegree(g, 0), Initial(g).g;
    if s :| Free(g, s) && |s| >= n {
      assert |s - iso| >= |s| - |iso|;
      SubsetIndependent(g.adj, s, s - iso);
      assert Free(h, s - iso);
    }
    if t :| Free(h, t) && |t| >= n - |iso| {
      forall x | x in iso ensures Neighbours(g, x) == {} {
        assert |Neighbours(g, x)| == 0;
      }
      assert Free(g, t);
      MoreFree(g, t, iso);
      assert |t + iso| == |t| + |iso|;
    }
  }

  lemma EndCounts(m: Solver, n: int)
    requires Tight(m) && BucketsEmpty(m)
    ensures m.g.live <= m.chosen && (HasFree(m.g, n) <==> n <= |m.g.live|)
  {
    EmptyBucketsChooseLive(m);
    ChosenIndependent(m.g, m.chosen);
    SubsetIndependent(m.g.adj, m.chosen, m.g.live);
    assert Free(m.g, m.g.live);
    if s :| Free(m.g, s) && |s| >= n {
      SubsetCardinality(s, m.g.live);
    }
  }

  /** The vertices chosen in the end are the live ones and those that never had a neighbour. */
  lemma ChosenInTheEnd(g: Graph, m: Solver)
    requires WellFormed(g) && g.live == g.adj.Keys && Since(Initial(g), m) && Tight(m) && BucketsEmpty(m)
    ensures m.g.live !! OfDegree(g, 0) && m.chosen == m.g.live + OfDegree(g, 0)
  {
    var iso := OfDegree(g, 0);
    EmptyBucketsChooseLive(m);
    forall x | x in m.chosen
      ensures x in m.g.live + iso
    {
      if x !in m.g.live {
        assert x in m.g.adj && m.g.adj[x] == [];
        forall y ensures y !in Neighbours(g, x) {
          assert Adjacent(g, x, y) ==> Adjacent(Initial(g).g, x, y) && Adjacent(m.g, x, y);
        }
        assert Neighbours(g, x) == {};
      }
    }
  }

  /** A run of the loop over the whole graph g that ended. */
  ghost predicate Solved(g: Graph, deg: Degrees, run: seq<Machine>) {
    && Fit(g, deg) && g.live == g.adj.Keys && (forall x :: x in g.live ==> x < MAX_UINT)
    && EndedRun(run) && run[0] == Start(g, deg)
  }

  lemma SolvedCosts(g: Graph, deg: Degrees, run: seq<Machine>) returns (k: nat)
    requires Solved(g, deg, run)
    ensures var m := run[|run| - 1].m;
      Tight(m) && BucketsEmpty(m) && RunCost(Initial(g), m, k, Peels(run))
  {
    StartIsClean(g, deg);
    UnspoiltClean(run);
    k := RunCosts(run);
  }

  lemma AtLeast(g: Graph, m: Solver, k: nat)
    requires WellFormed(g) && GivesBack(Initial(g).g, m.g, k) && Tight(m) && BucketsEmpty(m)
    ensures HasFree(g, |m.g.live| + |OfDegree(g, 0)| + k)
  {
    EndCounts(m, |m.g.live|);
    assert HasFree(Initial(g).g, |m.g.live| + k);
    StartCounts(g, |m.g.live| + |OfDegree(g, 0)| + k);
  }

  lemma AtMost(g: Graph, m: Solver, size: int, k: nat)
    requires WellFormed(g) && HasFree(g, size) && CostsAtMost(Initial(g).g, m.g, k)
    requires Tight(m) && BucketsEmpty(m)
    ensures size <= |m.g.live| + |OfDegree(g, 0)| + k
  {
    StartCounts(g, size);
    EndCounts(m, size - |OfDegree(g, 0)| - k);
  }

  lemma AnswerSize(g: Graph, m: Solver)
    requires WellFormed(g) && g.live == g.adj.Keys && Since(Initial(g), m) && Tight(m) && BucketsEmpty(m)
    ensures |m.chosen| == |m.g.live| + |OfDegree(g, 0)|
  {
    ChosenInTheEnd(g, m);
  }

  /** The largest independent sets of g have no fewer members than the answer and half of what the run pushed, and no
      more than these and one for every time it peeled. */
  ghost predicate Nears(g: Graph, answer: set<nat>, run: seq<Machine>)
    requires run != []
  {
    var found := |answer| + |run[|run| - 1].m.stack| / 2;
    HasFree(g, found) && !HasFree(g, found + Peels(run) + 1)
  }

  lemma AnswerNears(g: Graph, deg: Degrees, run: seq<Machine>)
    requires Solved(g, deg, run)
    ensures Nears(g, run[|run| - 1].m.chosen, run)
  {
    AnswerNearLargest(g, deg, run);
  }

  lemma Halved(n: nat, k: nat)
    requires n == 2 * k
    ensures n % 2 == 0 && n / 2 == k
  {
  }

  /** No independent set of g has more members than the answer, half of what was pushed and one for every time the run
      peeled; and one has as many as the answer and half of what was pushed. */
  lemma AnswerNearLargest(g: Graph, deg: Degrees, run: seq<Machine>)
    requires Solved(g, deg, run)
    ensures var m := run[|run| - 1].m;
      && |m.stack| % 2 == 0
      && (exists s :: Free(g, s) && |s| >= |m.chosen| + |m.stack| / 2)
      && (forall s :: Free(g, s) ==> |s| <= |m.chosen| + |m.stack| / 2 + Peels(run))
  {
    var m := run[|run| - 1].m;
    var k := SolvedCosts(g, deg, run);
    Halved(|m.stack|, k);
    AnswerSize(g, m);
    AtLeast(g, m, k);
    forall s | Free(g, s)
      ensures |s| <= |m.chosen| + k + Peels(run)
    {
      assert HasFree(g, |s|);
      AtMost(g, m, |s|, k + Peels(run));
    }
  }

  /** A run that never peeled: its answer is a largest independent set if and only if nothing was left on the stack, and
      falls short by half of what was. */
  lemma LargestExactlyIfNothingPushed(g: Graph, deg: Degrees, run: seq<Machine>)
    requires Solved(g, deg, run) && Peels(run) == 0
    ensures var m := run[|run| - 1].m;
      && (exists s :: Free(g, s) && |s| == |m.chosen| + |m.stack| / 2)
      && ((forall s :: Free(g, s) ==> |s| <= |m.chosen|) <==> m.stack == [])
  {
    var m := run[|run| - 1].m;
    AnswerNearLargest(g, deg, run);
    var s :| Free(g, s) && |s| >= |m.chosen| + |m.stack| / 2;
    assert |s| == |m.chosen| + |m.stack| / 2;
  }
}
