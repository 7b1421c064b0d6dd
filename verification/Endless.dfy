/** When the solver's first loop ends: exactly when no turn leaves a chain end stale. After such a turn the
    loop's guard stays true for ever, in every state that any further turns can reach. */
module Endless {
  import opened Fields
  import opened Graphs
  import opened Machines
  import opened Reductions
  import opened Stuck
  import opened TurnLaws
  import opened Worklist

  /** Right fields, no vertex missing from its bucket, and every member of VerticesGreaterThanThree live. */
  ghost predicate Regular(f: Machine) {
    && Agrees(f) && Sound(f.m) && f.m.three <= f.m.g.live
    && forall x :: x in f.m.g.live ==> x < MAX_UINT
  }

  /** The loop's invariant as long as no end has been left stale. */
  ghost predicate Clean(f: Machine) {
    Regular(f) && Tight(f.m)
  }

  /** VerticesGreaterThanThree holds a live vertex of degree two or less, or one that is stuck. */
  ghost predicate Doomed(f: Machine) {
    (Regular(f) && HasStale(f.m)) || exists x :: StuckAt(f, x)
  }

  lemma DoomedGoesOn(f: Machine)
    requires Doomed(f)
    ensures !BucketsEmpty(f.m)
  {
  }

  /** A turn from a regular state leads to a regular state, or a vertex of the third bucket gets stuck. */
  lemma RegularOrStuck(f: Machine, f': Machine, stale: bool)
    requires Regular(f) && MachineTurn(f, f', stale)
    ensures Turn(f.m, f'.m, stale)
    ensures Regular(f') || exists x :: StuckAt(f', x)
    ensures f'.m.three <= f'.m.g.live ==> Regular(f')
  {
    TurnAgrees(f, f', stale);
    TurnSound(f.m, f'.m, stale);
    TurnNarrows(f.m, f'.m, stale);
    if !(f'.m.three <= f'.m.g.live) {
      var x :| x in f'.m.three && x !in f'.m.g.live;
      assert StuckAt(f', x);
    }
  }

  /** Whatever turn the loop takes, it cannot leave a doomed state. */
  lemma DoomedStays(f: Machine, f': Machine, stale: bool)
    requires Doomed(f) && MachineTurn(f, f', stale)
    ensures Doomed(f')
  {
    if x :| StuckAt(f, x) {
      TurnKeepsStuck(f, f', stale, x);
    } else {
      RegularOrStuck(f, f', stale);
      StaleStays(f.m, f'.m, stale);
    }
  }

  /** A turn from a clean state ends in a clean state, or, exactly when it is stale, in a doomed one. */
  lemma CleanOrDoomed(f: Machine, f': Machine, stale: bool)
    requires Clean(f) && MachineTurn(f, f', stale)
    ensures stale ==> Doomed(f')
    ensures !stale ==> Clean(f')
    ensures Progress(f.m, f'.m)
  {
    RegularOrStuck(f, f', stale);
    TurnTight(f.m, f'.m, stale);
    TurnProgress(f.m, f'.m, stale);
    if stale {
      StaleBorn(f.m, f'.m);
    }
  }

  // ---------- finite runs ----------

  /** Each state follows from the one before by a turn that leaves nothing stale. */
  ghost predicate Unspoilt(run: seq<Machine>) {
    |run| >= 1 && forall i {:trigger run[i]} :: 0 < i < |run| ==> MachineTurn(run[i - 1], run[i], false)
  }

  /** The run of a loop that ended. */
  ghost predicate EndedRun(run: seq<Machine>) {
    Unspoilt(run) && BucketsEmpty(run[|run| - 1].m)
  }

  /** A run up to and with its first turn that leaves an end stale. */
  ghost predicate StaleRun(run: seq<Machine>) {
    && |run| >= 2 && Unspoilt(run[..|run| - 1])
    && MachineTurn(run[|run| - 2], run[|run| - 1], true)
  }

  lemma {:induction false} UnspoiltClean(run: seq<Machine>)
    requires Unspoilt(run) && Clean(run[0])
    ensures Clean(run[|run| - 1])
  {
    if |run| > 1 {
      var before := run[..|run| - 1];
      forall i | 0 < i < |before| ensures MachineTurn(before[i - 1], before[i], false) {
        assert before[i] == run[i];
      }
      UnspoiltClean(before);
      CleanOrDoomed(run[|run| - 2], run[|run| - 1], false);
    }
  }

  /** Any number of further turns, stale or not. */
  ghost predicate FurtherTurns(run: seq<Machine>) {
    |run| >= 1 && forall i {:trigger run[i]} :: 0 < i < |run| ==> SomeTurn(run[i - 1], run[i])
  }

  ghost predicate SomeTurn(f: Machine, f': Machine) {
    MachineTurn(f, f', false) || MachineTurn(f, f', true)
  }

  /** After a turn that left an end stale the loop's guard is true in every state any further turns lead to. */
  lemma NeverEndsAfter(run: seq<Machine>, more: seq<Machine>)
    requires StaleRun(run) && Clean(run[0]) && FurtherTurns(more) && more[0] == run[|run| - 1]
    ensures forall i :: 0 <= i < |more| ==> !BucketsEmpty(more[i].m)
  {
    UnspoiltClean(run[..|run| - 1]);
    CleanOrDoomed(run[|run| - 2], run[|run| - 1], true);
    forall i | 0 <= i < |more|
      ensures !BucketsEmpty(more[i].m)
    {
      DoomedAt(more, i);
      DoomedGoesOn(more[i]);
    }
  }

  lemma DoomedAgain(f: Machine, f': Machine)
    requires Doomed(f) && SomeTurn(f, f')
    ensures Doomed(f')
  {
    if MachineTurn(f, f', false) {
      DoomedStays(f, f', false);
    } else {
      DoomedStays(f, f', true);
    }
  }

  lemma {:induction false} DoomedAt(more: seq<Machine>, i: nat)
    requires FurtherTurns(more) && Doomed(more[0]) && i < |more|
    ensures Doomed(more[i])
  {
    if i > 0 {
      DoomedAt(more, i - 1);
      DoomedAgain(more[i - 1], more[i]);
    }
  }

  // ---------- no turn panics ----------

  ghost predicate CanTurn(f: Machine) {
    exists f' :: SomeTurn(f, f')
  }

  /** Right fields and full buckets; what is deleted in VerticesGreaterThanThree is stuck there. */
  ghost predicate FieldsRight(f: Machine) {
    && Agrees(f) && Sound(f.m) && DeadAreStuck(f)
    && forall x :: x in f.m.g.live ==> x < MAX_UINT
  }

  /** No live vertex has a field above two, and VerticesTwo is empty: it stays so, since only a field that falls
      from three to two puts a vertex there. */
  ghost predicate AllLow(f: Machine) {
    f.m.two == {} && forall y :: y in f.m.g.live ==> FieldOf(f.deg, y) <= 2
  }

  ghost predicate Sane(f: Machine) {
    FieldsRight(f) || AllLow(f)
  }

  lemma StepKeepsLow(f: Machine, y: nat)
    requires AllLow(f)
    ensures AllLow(Step(f, y))
  {
  }

  lemma {:induction false} StepsKeepLow(f: Machine, ys: seq<nat>)
    requires AllLow(f)
    ensures AllLow(Steps(f, ys))
  {
    if ys != [] {
      StepsKeepLow(f, ys[..|ys| - 1]);
      StepKeepsLow(Steps(f, ys[..|ys| - 1]), ys[|ys| - 1]);
    }
  }

  lemma DeleteKeepsLow(f: Machine, id: nat)
    requires AllLow(f)
    ensures AllLow(AfterDelete(f, id))
  {
    assert AllLow(Marked(f, id));
    StepsKeepLow(Marked(f, id), Listed(f.m.g, id));
  }

  lemma {:induction false} DeletesKeepLow(f: Machine, ys: seq<nat>)
    requires AllLow(f)
    ensures AllLow(AfterDeletes(f, ys))
  {
    if ys != [] {
      DeletesKeepLow(f, ys[..|ys| - 1]);
      DeleteKeepsLow(AfterDeletes(f, ys[..|ys| - 1]), ys[|ys| - 1]);
    }
  }

  lemma LowStays(f: Machine, f': Machine, stale: bool)
    requires AllLow(f) && MachineTurn(f, f', stale)
    ensures AllLow(f')
  {
    if f.m.one != {} {
      var x :| x in f.m.one && f' == AfterOne(f, x);
      DeletesKeepLow(f.(m := f.m.(one := f.m.one - {x})), Listed(f.m.g, x));
    } else if x :| Greatest(f, x) && f' == AfterDelete(f, x) {
      DeleteKeepsLow(f, x);
    }
  }

  /** A deleted vertex is peeled only when no live vertex has a field of three or more. */
  lemma DeadPeeledLow(f: Machine, x: nat)
    requires FieldsRight(f) && f.m.two == {} && Greatest(f, x) && x !in f.m.g.live
    ensures AllLow(f)
  {
    assert StuckAt(f, x);
    forall y | y in f.m.g.live
      ensures FieldOf(f.deg, y) <= 2
    {
      assert y in AtLeastThree(f.m.g) ==> y in f.m.three;
    }
  }

  lemma PeelStaysSane(f: Machine, f': Machine)
    requires FieldsRight(f) && f.m.two == {} && PeelTurn(f, f')
    ensures Sane(f')
  {
    if x :| Greatest(f, x) && f' == AfterDelete(f, x) {
      if x in f.m.g.live {
        DeleteAgrees(f, x);
        DeleteSticks(f, x);
        DeleteKeepsSound(f.m, x);
      } else {
        DeadPeeledLow(f, x);
        DeleteKeepsLow(f, x);
      }
    }
  }

  lemma RightStaysSane(f: Machine, f': Machine, stale: bool)
    requires FieldsRight(f) && MachineTurn(f, f', stale)
    ensures Sane(f')
  {
    if f.m.one != {} {
      var x :| x in f.m.one && f' == AfterOne(f, x);
      OneAgrees(f, x);
      OneStepSound(f.m, f'.m);
      OneStepProgress(f.m, f'.m);
    } else if f.m.two != {} {
      var u :| TwoTurnOn(f, u, f', stale);
      TwoAgrees(f, u);
      TwoStepSound(f.m, f'.m, stale);
      TwoStepProgress(f.m, f'.m, stale);
    } else {
      PeelStaysSane(f, f');
    }
  }

  /** Whatever turns the loop takes, stale or not, from a sane state the next one neither panics nor is missing. */
  lemma SaneGoesOn(f: Machine)
    requires Sane(f)
    ensures !TurnPanics(f)
    ensures !BucketsEmpty(f.m) ==> CanTurn(f)
  {
    forall u | u in f.m.two && f.m.one == {}
      ensures !Panics(Popped(f, u), u)
    {
      TwoAgrees(f, u);
    }
    if !BucketsEmpty(f.m) {
      var f', stale := NextTurn(f);
      assert SomeTurn(f, f');
    }
  }

  lemma NextTurn(f: Machine) returns (f': Machine, stale: bool)
    requires !BucketsEmpty(f.m) && forall u :: u in f.m.two && f.m.one == {} ==> !Panics(Popped(f, u), u)
    ensures MachineTurn(f, f', stale)
  {
    stale := false;
    if f.m.one != {} {
      var x :| x in f.m.one;
      f' := AfterOne(f, x);
    } else if f.m.two != {} {
      var u :| u in f.m.two;
      f', stale := AfterTwo(Popped(f, u), u), TwoIsStale(Popped(f, u), u);
      assert TwoTurnOn(f, u, f', stale);
    } else {
      var x := GreatestOf(f, f.m.three);
      f' := if Unsigned(FieldOf(f.deg, x)) > 0 then AfterDelete(f, x) else f;
      assert Unsigned(FieldOf(f.deg, x)) > 0 ==> Greatest(f, x);
    }
  }

  lemma {:induction false} GreatestOf(f: Machine, xs: set<nat>) returns (x: nat)
    requires xs != {}
    ensures x in xs && forall y :: y in xs ==> Unsigned(FieldOf(f.deg, y)) <= Unsigned(FieldOf(f.deg, x))
  {
    x :| x in xs;
    if xs != {x} {
      var z := GreatestOf(f, xs - {x});
      if Unsigned(FieldOf(f.deg, z)) > Unsigned(FieldOf(f.deg, x)) {
        x := z;
      }
    }
  }

  lemma SaneStays(f: Machine, f': Machine)
    requires Sane(f) && SomeTurn(f, f')
    ensures Sane(f')
  {
    var stale := MachineTurn(f, f', true);
    if FieldsRight(f) {
      RightStaysSane(f, f', stale);
    } else {
      LowStays(f, f', stale);
    }
  }

  /** From freshly built buckets, or any clean state, no number of turns, stale ones included, leads to a panic: the
      loop ends or can always take another turn. */
  lemma {:induction false} NoTurnPanics(run: seq<Machine>)
    requires FurtherTurns(run) && Clean(run[0])
    ensures Sane(run[|run| - 1]) && !TurnPanics(run[|run| - 1])
    ensures !BucketsEmpty(run[|run| - 1].m) ==> CanTurn(run[|run| - 1])
  {
    if |run| > 1 {
      var before := run[..|run| - 1];
      forall i | 0 < i < |before| ensures SomeTurn(before[i - 1], before[i]) {
        assert before[i] == run[i];
      }
      NoTurnPanics(before);
      assert SomeTurn(run[|run| - 2], run[|run| - 1]);
      SaneStays(run[|run| - 2], run[|run| - 1]);
    }
    SaneGoesOn(run[|run| - 1]);
  }

  // ---------- runs without end ----------

  /** The loop leaves its state alone once its guard is false. */
  ghost predicate LoopStep(f: Machine, f': Machine, stale: bool) {
    if BucketsEmpty(f.m) then f' == f && !stale else MachineTurn(f, f', stale)
  }

  /** What the loop does, turn after turn; no turn panics (NoTurnPanics). */
  ghost predicate IsRun(run: nat -> Machine, stale: nat -> bool) {
    forall i: nat {:trigger stale(i)} :: LoopStep(run(i), run(i + 1), stale(i))
  }

  lemma {:induction false} CleanUpTo(run: nat -> Machine, stale: nat -> bool, n: nat)
    requires IsRun(run, stale) && Clean(run(0)) && forall i: nat :: i < n ==> !stale(i)
    ensures Clean(run(n))
  {
    if n > 0 {
      CleanUpTo(run, stale, n - 1);
      assert !stale(n - 1);
      if !BucketsEmpty(run(n - 1).m) {
        CleanOrDoomed(run(n - 1), run(n), false);
      }
    }
  }

  lemma FirstStale(stale: nat -> bool, n: nat) returns (i: nat)
    requires stale(n)
    ensures i <= n && stale(i) && forall k: nat :: k < i ==> !stale(k)
  {
    i := 0;
    while !stale(i)
      invariant i <= n && forall k: nat :: k < i ==> !stale(k)
      decreases n - i
    {
      i := i + 1;
    }
  }

  lemma {:induction false} DoomedFrom(run: nat -> Machine, stale: nat -> bool, i: nat, n: nat)
    requires IsRun(run, stale) && Doomed(run(i)) && i <= n
    ensures Doomed(run(n))
    decreases n
  {
    if i < n {
      DoomedFrom(run, stale, i, n - 1);
      DoomedNext(run, stale, n - 1);
    }
  }

  lemma DoomedNext(run: nat -> Machine, stale: nat -> bool, i: nat)
    requires IsRun(run, stale) && Doomed(run(i))
    ensures Doomed(run(i + 1))
  {
    var f, f', s := run(i), run(i + 1), stale(i);
    assert LoopStep(f, f', s);
    DoomedGoesOn(f);
    DoomedStays(f, f', s);
  }

  lemma {:induction false} EndsFrom(run: nat -> Machine, stale: nat -> bool, n: nat) returns (e: nat)
    requires IsRun(run, stale) && Clean(run(n)) && forall i: nat :: !stale(i)
    ensures BucketsEmpty(run(e).m)
    decreases |run(n).m.g.live|, |run(n).m.two|
  {
    if BucketsEmpty(run(n).m) {
      return n;
    }
    assert !stale(n);
    CleanOrDoomed(run(n), run(n + 1), false);
    e := EndsFrom(run, stale, n + 1);
  }

  /** From a clean start, such as freshly built buckets, the loop ends if and only if no turn it takes is stale. */
  lemma EndsExactlyIfNeverStale(run: nat -> Machine, stale: nat -> bool)
    requires IsRun(run, stale) && Clean(run(0))
    ensures (exists i: nat :: BucketsEmpty(run(i).m)) <==> (forall i: nat :: !stale(i))
  {
    if n: nat :| stale(n) {
      var i := FirstStale(stale, n);
      CleanUpTo(run, stale, i);
      assert LoopStep(run(i), run(i + 1), stale(i));
      CleanOrDoomed(run(i), run(i + 1), true);
      forall e: nat
        ensures !BucketsEmpty(run(e).m)
      {
        NotEmptyAt(run, stale, i, e);
      }
    } else {
      var e := EndsFrom(run, stale, 0);
    }
  }

  /** Before the stale turn the guard was true, too: the loop was still taking turns. */
  lemma NotEmptyAt(run: nat -> Machine, stale: nat -> bool, i: nat, e: nat)
    requires IsRun(run, stale) && stale(i) && Doomed(run(i + 1))
    ensures !BucketsEmpty(run(e).m)
  {
    if e > i {
      DoomedFrom(run, stale, i + 1, e);
      DoomedGoesOn(run(e));
    } else if BucketsEmpty(run(e).m) {
      StaysEmpty(run, stale, e, i);
      assert false;
    }
  }

  lemma {:induction false} StaysEmpty(run: nat -> Machine, stale: nat -> bool, e: nat, n: nat)
    requires IsRun(run, stale) && BucketsEmpty(run(e).m) && e <= n
    ensures BucketsEmpty(run(n).m)
    decreases n
  {
    if e < n {
      StaysEmpty(run, stale, e, n - 1);
      assert LoopStep(run(n - 1), run(n), stale(n - 1));
    }
  }

  /** Freshly built buckets over a graph with every vertex live and right fields are a clean start. */
  lemma StartIsClean(g: Graph, deg: Degrees)
    requires Fit(g, deg) && g.live == g.adj.Keys && forall x :: x in g.live ==> x < MAX_UINT
    ensures Clean(Start(g, deg)) && Start(g, deg).m == Initial(g)
  {
    StartAgrees(g, deg);
    InitialTight(g);
  }
}
