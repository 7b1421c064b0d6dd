/** The solver together with the degree fields it reads, and every operation of its loop as a function on
    them. Nothing is assumed of the state: deleted members in the buckets and wrong fields included. */
module Machines {
  import opened Chains
  import opened Fields
  import opened Graphs
  import opened Reachability
  import opened Reductions
  import opened Searches

  /** What stands for "no vertex", so every vertex id must lie below it. */
  const MAX_UINT: nat := 2147483647

  datatype Machine = Machine(m: Solver, deg: Degrees)

  // ---------- NewSolution ----------

  ghost function WithField(deg: Degrees, done: set<nat>, d: int): set<nat> {
    set y | y in done && FieldOf(deg, y) == d
  }

  /** The buckets once the vertices in done have been sorted into them, by their fields alone. */
  ghost function Sorted(g: Graph, deg: Degrees, done: set<nat>): Solver {
    var zero := WithField(deg, done, 0);
    Solver(RemoveSet(g, zero), WithField(deg, done, 1), WithField(deg, done, 2),
           (set y | y in done && FieldOf(deg, y) !in {0, 1, 2}), zero, [])
  }

  ghost function Start(g: Graph, deg: Degrees): Machine {
    Machine(Sorted(g, deg, g.adj.Keys), deg)
  }

  // ---------- deleteVertex ----------

  /** A vertex with a field of d leaves its bucket. */
  ghost function LeftBucket(m: Solver, id: nat, d: int): Solver {
    if d == 1 then m.(one := m.one - {id})
    else if d == 2 then m.(two := m.two - {id})
    else m.(three := m.three - {id})
  }

  /** The head of deleteVertex: the mark, and the vertex's own bucket. */
  ghost function Marked(f: Machine, id: nat): Machine {
    f.(m := LeftBucket(f.m.(g := Without(f.m.g, id)), id, FieldOf(f.deg, id)))
  }

  /** One turn of its loop: a listed neighbour that is not marked deleted moves down one degree. */
  ghost function Step(f: Machine, y: nat): Machine {
    if y in f.m.g.live then Machine(Moved(f.m, y, FieldOf(f.deg, y) - 1), Changed(f.deg, y, -1)) else f
  }

  ghost function Steps(f: Machine, ys: seq<nat>): Machine {
    if ys == [] then f else Step(Steps(f, ys[..|ys| - 1]), ys[|ys| - 1])
  }

  ghost function AfterDelete(f: Machine, id: nat): Machine {
    if FieldOf(f.deg, id) == 0 then Marked(f, id) else Steps(Marked(f, id), Listed(f.m.g, id))
  }

  // ---------- degreeOneReduction ----------

  /** Every listed vertex that is not yet marked deleted when its turn comes is deleted. */
  ghost function AfterDeletes(f: Machine, ys: seq<nat>): Machine {
    if ys == [] then f
    else
      AfterLook(AfterDeletes(f, ys[..|ys| - 1]), ys[|ys| - 1])
  }

  ghost function AfterLook(f: Machine, y: nat): Machine {
    if y in f.m.g.live then AfterDelete(f, y) else f
  }

  ghost function AfterOne(f: Machine, x: nat): Machine {
    AfterDeletes(f.(m := f.m.(one := f.m.one - {x})), Listed(f.m.g, x))
  }

  // ---------- degreeTwoPathReduction: the search ----------

  ghost function Twos(f: Machine): set<nat> {
    set x | x in f.m.g.live && FieldOf(f.deg, x) == 2
  }

  /** What the search from the popped vertex lists; u itself is listed whatever its state. */
  ghost function Found(f: Machine, u: nat): seq<nat> {
    Search(f.m.g, Twos(f) + {u}, u, [])
  }

  /** The listed neighbours that are not marked deleted and whose field is not two. */
  ghost function Others(f: Machine, ys: seq<nat>): seq<nat> {
    if ys == [] then []
    else
      var y := ys[|ys| - 1];
      Others(f, ys[..|ys| - 1]) + if y in f.m.g.live && FieldOf(f.deg, y) != 2 then [y] else []
  }

  ghost function OthersOf(f: Machine, x: nat): seq<nat> {
    Others(f, Listed(f.m.g, x))
  }

  /** The first of the listed vertices with such a neighbour. */
  ghost function FirstEnd(f: Machine, path: seq<nat>): nat {
    if path == [] then MAX_UINT
    else if OthersOf(f, path[0]) != [] then path[0]
    else FirstEnd(f, path[1..])
  }

  ghost function Ordered(f: Machine, found: seq<nat>): seq<nat> {
    Search(f.m.g, Members(found) * f.m.g.live, FirstEnd(f, found), [])
  }

  ghost function Nth(ys: seq<nat>, i: nat): nat {
    if i < |ys| then ys[i] else MAX_UINT
  }

  ghost function FirstOf(f: Machine, p: seq<nat>): nat {
    if p == [] then MAX_UINT else Nth(OthersOf(f, p[0]), 0)
  }

  ghost function LastOf(f: Machine, p: seq<nat>): nat {
    if p == [] then MAX_UINT
    else if |p| == 1 then Nth(OthersOf(f, p[0]), 1)
    else Nth(OthersOf(f, p[|p| - 1]), 0)
  }

  // ---------- degreeTwoPathReduction: the contraction ----------

  ghost function AfterRemove(f: Machine, y: nat): Machine {
    var h := Without(f.m.g, y);
    Machine(f.m.(g := h, two := f.m.two - {y}), Lowered(h, f.deg, Listed(h, y)))
  }

  ghost function AfterRemoves(f: Machine, ys: seq<nat>): Machine {
    if ys == [] then f else AfterRemove(AfterRemoves(f, ys[..|ys| - 1]), ys[|ys| - 1])
  }

  ghost function AfterEdge(f: Machine, a: nat, b: nat): Machine {
    if HasLiveEdge(f.m.g, a, b) then f
    else Machine(f.m.(g := Joined(f.m.g, a, b)), RaisedBoth(f.deg, a, b))
  }

  ghost function Stacked(f: Machine, ys: seq<nat>): Machine {
    f.(m := f.m.(stack := f.m.stack + Reversed(ys)))
  }

  ghost function AfterChain(f: Machine, p: seq<nat>, v: nat, w: nat): Machine
    requires p != []
  {
    if v == w then AfterDelete(f, v)
    else if |p| % 2 == 0 then Stacked(AfterEdge(AfterRemoves(f, p), v, w), p)
    else if HasLiveEdge(f.m.g, v, w) then AfterDelete(AfterDelete(f, v), w)
    else Stacked(AfterEdge(AfterRemoves(f, p[1..]), p[0], w), p[1..])
  }

  /** The branch that joins nothing and leaves an end with a field of two, in whatever bucket it was. */
  ghost predicate ChainIsStale(f: Machine, p: seq<nat>, v: nat, w: nat) {
    var r := AfterRemoves(f, p);
    && v != w && |p| % 2 == 0 && HasLiveEdge(r.m.g, v, w)
    && (FieldOf(r.deg, v) == 2 || FieldOf(r.deg, w) == 2)
  }

  ghost function Popped(f: Machine, u: nat): Machine {
    f.(m := PopTwo(f.m, u))
  }

  ghost predicate OnCycle(f: Machine, u: nat) {
    Closed(f.m.g, f.m.g.live, Members(Found(f, u)))
  }

  /** u has been popped. No vertex to start from, or no second end: the source then reads through nil. */
  ghost predicate Panics(f: Machine, u: nat) {
    var found := Found(f, u);
    !OnCycle(f, u) && (FirstEnd(f, found) == MAX_UINT || LastOf(f, Ordered(f, found)) == MAX_UINT)
  }

  /** What degreeTwoPathReduction does once it has popped u. */
  ghost function AfterTwo(f: Machine, u: nat): Machine {
    var p := Ordered(f, Found(f, u));
    if OnCycle(f, u) then AfterDelete(f, u) else AfterChain(f, p, FirstOf(f, p), LastOf(f, p))
  }

  ghost predicate TwoIsStale(f: Machine, u: nat) {
    var p := Ordered(f, Found(f, u));
    !OnCycle(f, u) && ChainIsStale(f, p, FirstOf(f, p), LastOf(f, p))
  }

  // ---------- a turn of the loop ----------

  /** inexactReduction picks a member of VerticesGreaterThanThree with the greatest field. */
  ghost predicate Greatest(f: Machine, x: nat) {
    && x in f.m.three && Unsigned(FieldOf(f.deg, x)) > 0
    && forall y :: y in f.m.three ==> Unsigned(FieldOf(f.deg, y)) <= Unsigned(FieldOf(f.deg, x))
  }

  ghost predicate OneTurn(f: Machine, f': Machine) {
    exists x :: x in f.m.one && f' == AfterOne(f, x)
  }

  ghost predicate TwoTurnOn(f: Machine, u: nat, f': Machine, stale: bool) {
    var f1 := Popped(f, u);
    u in f.m.two && !Panics(f1, u) && f' == AfterTwo(f1, u) && (stale <==> TwoIsStale(f1, u))
  }

  ghost predicate TwoTurn(f: Machine, f': Machine, stale: bool) {
    exists u :: TwoTurnOn(f, u, f', stale)
  }

  ghost predicate PeelTurn(f: Machine, f': Machine) {
    || (exists x :: Greatest(f, x) && f' == AfterDelete(f, x))
    || (f' == f && forall y :: y in f.m.three ==> Unsigned(FieldOf(f.deg, y)) <= 0)
  }

  /** One turn of Solve's first loop that returns; stale reports the step that leaves a chain end stale. */
  ghost predicate MachineTurn(f: Machine, f': Machine, stale: bool) {
    if f.m.one != {} then OneTurn(f, f') && !stale
    else if f.m.two != {} then TwoTurn(f, f', stale)
    else f.m.three != {} && PeelTurn(f, f') && !stale
  }

  /** The turn the loop would take ends in a panic instead. */
  ghost predicate TurnPanics(f: Machine) {
    f.m.one == {} && exists u :: u in f.m.two && Panics(Popped(f, u), u)
  }
}
