/**
 * Transactions as deterministic bounded programs over storage slots, run directly on a plain storage. The run
 * keeps its writes as a delta over the storage, and records the slots it reads and writes.
 */
module Programs {
  import opened AccessLists
  import opened Stores

  /** What a transaction does next: touch a slot, open or close a call that may be reverted, or stop. */
  datatype Action = Load(slot: SlotId) | Store(slot: SlotId, value: Hash) | Enter | Leave(ok: bool) | Halt

  /** How the core takes a transaction before it runs: Invalid if no message can be made of it, Refused if the
      message fails a check. Either way the core returns an error and nothing is run. */
  datatype Fate = Accepted | Invalid | Refused

  /** The next action depends on how many were taken and on everything loaded so far; gas bounds their number. */
  datatype Tx = Tx(next: (nat, seq<Hash>) -> Action, gas: nat, fate: Fate)

  /** How many actions the transaction may take. */
  function Steps(tx: Tx): nat {
    if tx.fate.Accepted? then tx.gas else 0
  }

  /** How executing a transaction ends: without an error, with the false-prediction error, or with another one. */
  datatype Ending = Ran | FalsePredict | Failed

  datatype Direct = Direct(delta: Storage, frames: seq<Storage>, loads: seq<Hash>, loaded: set<SlotId>,
                           stored: set<SlotId>, step: nat, halted: bool)

  const START := Direct(map[], [], [], {}, {}, 0, false)

  function Under(s: Storage, delta: Storage, slot: SlotId): Hash {
    if slot in delta then delta[slot] else if slot in s then s[slot] else 0
  }

  /** Writes to a slot the storage does not hold are ignored, as in the shared state. */
  function Act(s: Storage, r: Direct, action: Action): Direct {
    match action
    case Load(slot) => r.(loads := r.loads + [Under(s, r.delta, slot)], loaded := r.loaded + {slot})
    case Store(slot, value) =>
      r.(delta := if slot in s then r.delta[slot := value] else r.delta, stored := r.stored + {slot})
    case Enter => r.(frames := r.frames + [r.delta])
    case Leave(ok) =>
      if |r.frames| == 0 then r.(halted := true)
      else if ok then r.(frames := r.frames[..|r.frames| - 1])
      else r.(delta := r.frames[|r.frames| - 1], frames := r.frames[..|r.frames| - 1])
    case Halt => r.(halted := true)
  }

  function Tick(s: Storage, tx: Tx, r: Direct): Direct {
    Act(s, r, tx.next(r.step, r.loads)).(step := r.step + 1)
  }

  function Exec(s: Storage, tx: Tx, r: Direct, n: nat): Direct
    decreases n
  {
    if n == 0 || r.halted then r else Exec(s, tx, Tick(s, tx, r), n - 1)
  }

  function Outcome(s: Storage, tx: Tx): Direct {
    Exec(s, tx, START, Steps(tx))
  }

  function Commit(s: Storage, delta: Storage): Storage {
    map slot | slot in s :: if slot in delta then delta[slot] else s[slot]
  }

  /** The storage after a transaction. */
  function After(s: Storage, tx: Tx): Storage {
    Commit(s, Outcome(s, tx).delta)
  }

  function Touched(r: Direct): set<SlotId> {
    r.loaded + r.stored
  }

  lemma {:induction false} ExecEnds(s: Storage, tx: Tx, r: Direct, n: nat)
    ensures Exec(s, tx, r, n).halted || Exec(s, tx, r, n).step == r.step + n
    decreases n
  {
    if n > 0 && !r.halted {
      ExecEnds(s, tx, Tick(s, tx, r), n - 1);
    }
  }

  /** A transaction that is taken runs until it stops or has used up its gas; one that is not does nothing. */
  lemma RunsToTheEnd(s: Storage, tx: Tx)
    ensures tx.fate.Accepted? ==> Outcome(s, tx).halted || Outcome(s, tx).step == tx.gas
    ensures !tx.fate.Accepted? ==> After(s, tx) == s && Touched(Outcome(s, tx)) == {}
  {
    ExecEnds(s, tx, START, Steps(tx));
    assert Commit(s, map[]) == s;
  }

  // ---------- what a call leaves behind ----------

  /** For the next n actions the calls that are open now stay open. */
  ghost predicate StaysOpen(s: Storage, tx: Tx, r: Direct, n: nat) {
    forall k: nat :: k <= n ==> |Exec(s, tx, r, k).frames| >= |r.frames|
  }

  lemma {:induction false} ExecOneMore(s: Storage, tx: Tx, r: Direct, n: nat)
    ensures Exec(s, tx, r, n + 1) == Exec(s, tx, Exec(s, tx, r, n), 1)
    decreases n
  {
    if n > 0 && !r.halted {
      ExecOneMore(s, tx, Tick(s, tx, r), n - 1);
    }
  }

  lemma {:induction false} OpenCallsKept(s: Storage, tx: Tx, r: Direct, n: nat)
    requires StaysOpen(s, tx, r, n)
    ensures |Exec(s, tx, r, n).frames| >= |r.frames| && Exec(s, tx, r, n).frames[..|r.frames|] == r.frames
    decreases n
  {
    if n > 0 {
      OpenCallsKept(s, tx, r, n - 1);
      ExecOneMore(s, tx, r, n - 1);
      var before, after := Exec(s, tx, r, n - 1), Exec(s, tx, r, n);
      assert |after.frames| >= |r.frames|;
      if !before.halted {
        assert after == Tick(s, tx, before);
      }
    } else {
      assert r.frames[..|r.frames|] == r.frames;
    }
  }

  /** A call that ends well keeps what was written inside it, inner calls included; one that fails leaves exactly the
      writes there were before it. Either way what was loaded and touched inside stays on the record. */
  lemma CallEnds(s: Storage, tx: Tx, r: Direct, n: nat, ok: bool)
    requires var called := Act(s, r, Enter); var last := Exec(s, tx, called, n);
      StaysOpen(s, tx, called, n) && |last.frames| == |called.frames|
    ensures var last := Exec(s, tx, Act(s, r, Enter), n); var after := Act(s, last, Leave(ok));
      && after.delta == (if ok then last.delta else r.delta) && after.frames == r.frames
      && after.loads == last.loads && after.loaded == last.loaded && after.stored == last.stored
      && after.halted == last.halted
  {
    var called := Act(s, r, Enter);
    OpenCallsKept(s, tx, called, n);
    var last := Exec(s, tx, called, n);
    assert last.frames == r.frames + [r.delta];
  }

  /** A slot that the storage holds is loaded with the value last stored; other slots are not affected. */
  lemma LoadsSeeStores(s: Storage, r: Direct, slot: SlotId, value: Hash, other: SlotId)
    ensures var stored := Act(s, r, Store(slot, value));
      Act(s, stored, Load(other)).loads
      == r.loads + [if other == slot && slot in s then value else Under(s, r.delta, other)]
  {
  }

  // ---------- a run writes only what it records ----------

  ghost predicate Recorded(s: Storage, r: Direct) {
    && r.delta.Keys <= r.stored && r.delta.Keys <= s.Keys
    && forall i :: 0 <= i < |r.frames| ==> r.frames[i].Keys <= r.stored && r.frames[i].Keys <= s.Keys
  }

  lemma RecordedTick(s: Storage, tx: Tx, r: Direct)
    requires Recorded(s, r)
    ensures Recorded(s, Tick(s, tx, r))
    ensures r.loaded <= Tick(s, tx, r).loaded && r.stored <= Tick(s, tx, r).stored
  {
  }

  lemma {:induction false} ExecRecorded(s: Storage, tx: Tx, r: Direct, n: nat)
    requires Recorded(s, r)
    ensures Recorded(s, Exec(s, tx, r, n))
    ensures r.loaded <= Exec(s, tx, r, n).loaded && r.stored <= Exec(s, tx, r, n).stored
    decreases n
  {
    if n > 0 && !r.halted {
      RecordedTick(s, tx, r);
      ExecRecorded(s, tx, Tick(s, tx, r), n - 1);
    }
  }

  /** Only recorded writes change the storage. */
  lemma ChangesAreRecorded(s: Storage, tx: Tx, slot: SlotId)
    requires slot in s && slot !in Outcome(s, tx).stored
    ensures After(s, tx)[slot] == s[slot]
  {
    ExecRecorded(s, tx, START, Steps(tx));
  }

  lemma OutcomeRecorded(s: Storage, tx: Tx)
    ensures Outcome(s, tx).delta.Keys <= Outcome(s, tx).stored && Outcome(s, tx).delta.Keys <= s.Keys
  {
    ExecRecorded(s, tx, START, Steps(tx));
  }

  // ---------- a run depends only on what it records ----------

  ghost predicate SameAccess(s: Storage, t: Storage, loaded: set<SlotId>, stored: set<SlotId>) {
    && (forall slot :: slot in loaded + stored ==> (slot in s <==> slot in t))
    && (forall slot :: slot in loaded && slot in s && slot in t ==> s[slot] == t[slot])
  }

  lemma TickFramed(s: Storage, t: Storage, tx: Tx, r: Direct)
    requires Recorded(s, r) && SameAccess(s, t, Tick(s, tx, r).loaded, Tick(s, tx, r).stored)
    ensures Tick(t, tx, r) == Tick(s, tx, r)
  {
    match tx.next(r.step, r.loads)
    case Load(slot) =>
      assert slot in Tick(s, tx, r).loaded;
      assert Under(t, r.delta, slot) == Under(s, r.delta, slot);
    case Store(slot, value) =>
      assert slot in Tick(s, tx, r).stored;
    case _ =>
  }

  lemma {:induction false} ExecFramed(s: Storage, t: Storage, tx: Tx, r: Direct, n: nat)
    requires Recorded(s, r) && SameAccess(s, t, Exec(s, tx, r, n).loaded, Exec(s, tx, r, n).stored)
    ensures Exec(t, tx, r, n) == Exec(s, tx, r, n)
    decreases n
  {
    if n > 0 && !r.halted {
      var next := Tick(s, tx, r);
      RecordedTick(s, tx, r);
      ExecRecorded(s, tx, next, n - 1);
      TickFramed(s, t, tx, r);
      ExecFramed(s, t, tx, next, n - 1);
    }
  }

  /** Two storages that agree on the recorded reads give the same run: same loads, same accesses, same writes. */
  lemma Framed(s: Storage, t: Storage, tx: Tx)
    requires SameAccess(s, t, Outcome(s, tx).loaded, Outcome(s, tx).stored)
    ensures Outcome(t, tx) == Outcome(s, tx)
  {
    ExecFramed(s, t, tx, START, Steps(tx));
  }

  /** The recorded accesses as access lists. */
  ghost predicate Records(access: Access, r: Direct) {
    forall a: Address, h: Hash ::
      && ((a, h) in r.loaded <==> Contains(access.readSet, a, Slot(h)))
      && ((a, h) in r.stored <==> Contains(access.writeSet, a, Slot(h)))
  }

  /** Runs whose recorded sets do not conflict commute. */
  lemma Commute(s: Storage, x: Tx, y: Tx, xs: Access, ys: Access)
    requires Records(xs, Outcome(s, x)) && Records(ys, Outcome(s, y)) && !Conflict(xs, ys)
    ensures After(After(s, x), y) == After(After(s, y), x)
  {
    var rx, ry := Outcome(s, x), Outcome(s, y);
    OutcomeRecorded(s, x);
    OutcomeRecorded(s, y);
    NoMeeting(xs, ys, rx, ry);
    Framed(s, After(s, x), y);
    Framed(s, After(s, y), x);
    assert After(After(s, x), y) == Commit(Commit(s, rx.delta), ry.delta);
    assert After(After(s, y), x) == Commit(Commit(s, ry.delta), rx.delta);
  }

  lemma NoMeeting(xs: Access, ys: Access, rx: Direct, ry: Direct)
    requires Records(xs, rx) && Records(ys, ry) && !Conflict(xs, ys)
    ensures rx.stored !! ry.stored && rx.stored !! ry.loaded && rx.loaded !! ry.stored
  {
    forall slot: SlotId | slot in rx.stored ensures slot !in ry.stored && slot !in ry.loaded {
      assert Contains(xs.writeSet, slot.0, Slot(slot.1)) by { assert (slot.0, slot.1) in rx.stored; }
      assert slot == (slot.0, slot.1);
    }
    forall slot: SlotId | slot in rx.loaded ensures slot !in ry.stored {
      assert Contains(xs.readSet, slot.0, Slot(slot.1)) by { assert (slot.0, slot.1) in rx.loaded; }
      assert slot == (slot.0, slot.1);
    }
  }
}
