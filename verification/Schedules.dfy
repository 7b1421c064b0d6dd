/**
 * Blocks of transactions with predicted access sets, run in block order; and the storage that results when only
 * some of them have been committed.
 */
module Schedules {
  import opened AccessLists
  import opened Caches
  import opened Programs
  import opened Stores

  /** A transaction without a prediction is skipped by every scheduler. */
  datatype Block = Block(txs: seq<Tx>, sets: seq<Option<Access>>)

  function Predicted(b: Block): set<nat> {
    set i: nat | i < |b.sets| && b.sets[i].Some?
  }

  ghost predicate Writes(access: Access, slot: SlotId) {
    Contains(access.writeSet, slot.0, Slot(slot.1))
  }

  ghost predicate Names(access: Access, slot: SlotId) {
    Contains(access.readSet, slot.0, Slot(slot.1)) || Writes(access, slot)
  }

  ghost predicate Conflicting(b: Block, i: nat, j: nat)
    requires i in Predicted(b) && j in Predicted(b)
  {
    Conflict(b.sets[i].value, b.sets[j].value)
  }

  /** The run stays inside its predicted sets. */
  ghost predicate Within(access: Access, r: Direct) {
    && (forall slot :: slot in r.loaded ==> Names(access, slot))
    && (forall slot :: slot in r.stored ==> Writes(access, slot))
  }

  lemma SharedSlotConflicts(x: Access, y: Access, slot: SlotId)
    requires Writes(x, slot) && Names(y, slot)
    ensures Conflict(x, y) && Conflict(y, x)
  {
  }

  // ---------- the conflict test is exact ----------

  ghost predicate SlotsOnly(access: Access) {
    forall a, key :: Contains(access.readSet, a, key) || Contains(access.writeSet, a, key) ==> key.Slot?
  }

  /** On s the order of x and y matters: to what is left, or to what one of them loads, touches or writes. */
  ghost predicate Interfere(s: Storage, x: Tx, y: Tx) {
    || After(After(s, x), y) != After(After(s, y), x)
    || Outcome(After(s, x), y) != Outcome(s, y)
    || Outcome(After(s, y), x) != Outcome(s, x)
  }

  /** Two transactions that stay within the given sets may interfere. */
  ghost predicate MayInterfere(xs: Access, ys: Access) {
    exists s, x, y :: Within(xs, Outcome(s, x)) && Within(ys, Outcome(s, y)) && Interfere(s, x, y)
  }

  lemma NoConflictNoMeeting(xs: Access, ys: Access, rx: Direct, ry: Direct)
    requires Within(xs, rx) && Within(ys, ry) && !Conflict(xs, ys)
    ensures rx.stored !! ry.stored && rx.stored !! ry.loaded && rx.loaded !! ry.stored
  {
    forall slot: SlotId | slot in rx.stored ensures slot !in ry.stored && slot !in ry.loaded {
      assert Writes(xs, slot);
      if Names(ys, slot) {
        SharedSlotConflicts(xs, ys, slot);
      }
    }
    forall slot: SlotId | slot in ry.stored ensures slot !in rx.loaded {
      assert Writes(ys, slot);
      if Names(xs, slot) {
        SharedSlotConflicts(ys, xs, slot);
      }
    }
  }

  lemma WithinCommutes(s: Storage, x: Tx, y: Tx, xs: Access, ys: Access)
    requires Within(xs, Outcome(s, x)) && Within(ys, Outcome(s, y)) && !Conflict(xs, ys)
    ensures !Interfere(s, x, y)
  {
    var rx, ry := Outcome(s, x), Outcome(s, y);
    OutcomeRecorded(s, x);
    OutcomeRecorded(s, y);
    NoConflictNoMeeting(xs, ys, rx, ry);
    Framed(s, After(s, x), y);
    Framed(s, After(s, y), x);
    assert After(After(s, x), y) == Commit(Commit(s, rx.delta), ry.delta);
    assert After(After(s, y), x) == Commit(Commit(s, ry.delta), rx.delta);
  }

  /** One action and no more. */
  function Single(action: Action): Tx {
    Tx((step: nat, loads: seq<Hash>) => action, 1, Accepted)
  }

  lemma SingleRuns(s: Storage, action: Action)
    ensures Outcome(s, Single(action)) == Act(s, START, action).(step := 1)
  {
    assert Exec(s, Single(action), START, 1) == Tick(s, Single(action), START);
  }

  /** A store before a load of the same slot, or before another store to it, is noticed. */
  lemma StoreIsNoticed(slot: SlotId, load: bool)
    ensures Interfere(map[slot := 0], Single(Store(slot, 1)), Single(if load then Load(slot) else Store(slot, 2)))
  {
    var s := map[slot := 0];
    var x, y := Single(Store(slot, 1)), Single(if load then Load(slot) else Store(slot, 2));
    SingleRuns(s, Store(slot, 1));
    assert After(s, x)[slot] == 1;
    if load {
      SingleRuns(s, Load(slot));
      SingleRuns(After(s, x), Load(slot));
      assert Outcome(s, y).loads == [0] && Outcome(After(s, x), y).loads == [1];
    } else {
      SingleRuns(s, Store(slot, 2));
      SingleRuns(After(s, x), Store(slot, 2));
      SingleRuns(After(s, y), Store(slot, 1));
      assert After(After(s, x), y)[slot] == 2 && After(After(s, y), x)[slot] == 1;
    }
  }

  lemma WriterInterferes(xs: Access, ys: Access, slot: SlotId)
    requires Writes(xs, slot) && Names(ys, slot)
    ensures MayInterfere(xs, ys) && MayInterfere(ys, xs)
  {
    var s := map[slot := 0];
    var load := !Writes(ys, slot);
    var action := if load then Load(slot) else Store(slot, 2);
    SingleRuns(s, Store(slot, 1));
    SingleRuns(s, action);
    StoreIsNoticed(slot, load);
    assert Within(xs, Outcome(s, Single(Store(slot, 1)))) && Within(ys, Outcome(s, Single(action)));
    assert Interfere(s, Single(action), Single(Store(slot, 1)));
  }

  /** Two access sets over slots conflict exactly if some two transactions that stay within them interfere on some
      storage. */
  lemma ConflictExactly(xs: Access, ys: Access)
    requires SlotsOnly(xs) && SlotsOnly(ys)
    ensures Conflict(xs, ys) <==> MayInterfere(xs, ys)
  {
    if Conflict(xs, ys) {
      if Meet(xs.readSet, ys.writeSet) {
        var a, key :| Contains(xs.readSet, a, key) && Contains(ys.writeSet, a, key);
        WriterInterferes(ys, xs, (a, key.hash));
      } else if a, key :| Contains(xs.writeSet, a, key) && Contains(ys.writeSet, a, key) {
        WriterInterferes(xs, ys, (a, key.hash));
      } else {
        var a, key :| Contains(xs.writeSet, a, key) && Contains(ys.readSet, a, key);
        WriterInterferes(xs, ys, (a, key.hash));
      }
    }
    if s, x, y :| Within(xs, Outcome(s, x)) && Within(ys, Outcome(s, y)) && Interfere(s, x, y) {
      if !Conflict(xs, ys) {
        WithinCommutes(s, x, y, xs, ys);
      }
    }
  }

  // ---------- block order ----------

  /** The storage before the k-th transaction, in block order. */
  function Before(b: Block, s: Storage, k: nat): Storage
    requires |b.txs| == |b.sets| && k <= |b.txs|
  {
    if k == 0 then s
    else if b.sets[k - 1].Some? then After(Before(b, s, k - 1), b.txs[k - 1])
    else Before(b, s, k - 1)
  }

  function Serial(b: Block, s: Storage): Storage
    requires |b.txs| == |b.sets|
  {
    Before(b, s, |b.txs|)
  }

  /** What the k-th transaction writes when the block runs in order. */
  function Delta(b: Block, s: Storage, k: nat): Storage
    requires |b.txs| == |b.sets| && k < |b.txs|
  {
    Outcome(Before(b, s, k), b.txs[k]).delta
  }

  /** In block order every predicted run stays inside its predicted sets, and the storage holds those slots. */
  ghost predicate Good(b: Block, s: Storage)
    requires |b.txs| == |b.sets|
  {
    forall k :: k in Predicted(b) ==>
      && Within(b.sets[k].value, Outcome(Before(b, s, k), b.txs[k]))
      && forall slot :: Names(b.sets[k].value, slot) ==> slot in s
  }

  lemma {:induction false} BeforeKeys(b: Block, s: Storage, k: nat)
    requires |b.txs| == |b.sets| && k <= |b.txs|
    ensures Before(b, s, k).Keys == s.Keys
  {
    if k > 0 {
      BeforeKeys(b, s, k - 1);
    }
  }

  lemma DeltaNamed(b: Block, s: Storage, k: nat, slot: SlotId)
    requires |b.txs| == |b.sets| && Good(b, s) && k in Predicted(b) && slot in Delta(b, s, k)
    ensures Writes(b.sets[k].value, slot)
  {
    OutcomeRecorded(Before(b, s, k), b.txs[k]);
  }

  // ---------- some of the block committed ----------

  /** What the transactions in c below k write in block order, and nothing of the others. */
  function Part(b: Block, s: Storage, c: set<nat>, k: nat): Storage
    requires |b.txs| == |b.sets| && k <= |b.txs|
  {
    if k == 0 then s
    else if k - 1 in c then Commit(Part(b, s, c, k - 1), Delta(b, s, k - 1))
    else Part(b, s, c, k - 1)
  }

  function Committed(b: Block, s: Storage, c: set<nat>): Storage
    requires |b.txs| == |b.sets|
  {
    Part(b, s, c, |b.txs|)
  }

  lemma {:induction false} PartKeys(b: Block, s: Storage, c: set<nat>, k: nat)
    requires |b.txs| == |b.sets| && k <= |b.txs|
    ensures Part(b, s, c, k).Keys == s.Keys
  {
    if k > 0 {
      PartKeys(b, s, c, k - 1);
    }
  }

  /** Committing all predicted transactions is running the block in order. */
  lemma {:induction false} PartIsBefore(b: Block, s: Storage, c: set<nat>, k: nat)
    requires |b.txs| == |b.sets| && k <= |b.txs|
    requires forall i :: 0 <= i < k ==> (i in c <==> b.sets[i].Some?)
    ensures Part(b, s, c, k) == Before(b, s, k)
  {
    if k > 0 {
      PartIsBefore(b, s, c, k - 1);
    }
  }

  /** Two committed sets agree on a slot that no transaction in only one of them writes. */
  lemma {:induction false} PartsAgree(b: Block, s: Storage, c: set<nat>, d: set<nat>, slot: SlotId, k: nat)
    requires |b.txs| == |b.sets| && k <= |b.txs| && slot in s
    requires forall i :: 0 <= i < k && (i in c) != (i in d) ==> slot !in Delta(b, s, i)
    ensures slot in Part(b, s, c, k) && slot in Part(b, s, d, k)
    ensures Part(b, s, c, k)[slot] == Part(b, s, d, k)[slot]
  {
    PartKeys(b, s, c, k);
    PartKeys(b, s, d, k);
    if k > 0 {
      PartsAgree(b, s, c, d, slot, k - 1);
    }
  }

  /** The last committed writer of a slot decides its value. */
  lemma {:induction false} LastWriter(b: Block, s: Storage, c: set<nat>, j: nat, slot: SlotId, k: nat)
    requires |b.txs| == |b.sets| && j < k <= |b.txs| && slot in s && j in c && slot in Delta(b, s, j)
    requires forall i :: j < i < k && i in c ==> slot !in Delta(b, s, i)
    ensures slot in Part(b, s, c, k) && Part(b, s, c, k)[slot] == Delta(b, s, j)[slot]
  {
    PartKeys(b, s, c, k);
    PartKeys(b, s, c, k - 1);
    if k > j + 1 {
      LastWriter(b, s, c, j, slot, k - 1);
    }
  }

  function Earlier(b: Block, j: nat): set<nat> {
    set i | i in Predicted(b) && i < j
  }

  lemma {:induction false} BeforeIsPart(b: Block, s: Storage, j: nat, k: nat)
    requires |b.txs| == |b.sets| && j <= k <= |b.txs|
    ensures Part(b, s, Earlier(b, j), k) == Before(b, s, j)
  {
    var c := Earlier(b, j);
    if k == j {
      PartIsBefore(b, s, c, j);
    } else {
      BeforeIsPart(b, s, j, k - 1);
    }
  }

  // ---------- committing in an order that respects conflicts ----------

  /** Whatever was committed, everything it conflicts with from earlier in the block was committed too. */
  ghost predicate DownClosed(b: Block, c: set<nat>) {
    && c <= Predicted(b)
    && forall i, j :: i in c && j in Predicted(b) && j < i && Conflicting(b, i, j) ==> j in c
  }

  /** Everything j conflicts with from earlier in the block is in c. */
  ghost predicate Ready(b: Block, c: set<nat>, j: nat) {
    && j in Predicted(b) && j !in c
    && forall i :: i in Predicted(b) && i < j && Conflicting(b, j, i) ==> i in c
  }

  lemma ReadyKeepsClosed(b: Block, c: set<nat>, j: nat)
    requires DownClosed(b, c) && Ready(b, c, j)
    ensures DownClosed(b, c + {j})
  {
  }

  /** A writer of a slot that j names is on the same side of j in the block as it is in c. */
  lemma WritersSettled(b: Block, s: Storage, c: set<nat>, j: nat, slot: SlotId, i: nat)
    requires |b.txs| == |b.sets| && Good(b, s) && DownClosed(b, c) && Ready(b, c, j)
    requires Names(b.sets[j].value, slot) && i in Predicted(b) && i != j && slot in Delta(b, s, i)
    ensures i in c <==> i < j
  {
    DeltaNamed(b, s, i, slot);
    SharedSlotConflicts(b.sets[i].value, b.sets[j].value, slot);
  }

  /** A ready transaction finds, on the slots it names, what it would find in block order. */
  lemma ReadySees(b: Block, s: Storage, c: set<nat>, j: nat, slot: SlotId)
    requires |b.txs| == |b.sets| && Good(b, s) && DownClosed(b, c) && Ready(b, c, j)
    requires Names(b.sets[j].value, slot)
    ensures slot in Committed(b, s, c) && slot in Before(b, s, j)
    ensures Committed(b, s, c)[slot] == Before(b, s, j)[slot]
  {
    var n, d := |b.txs|, Earlier(b, j);
    BeforeIsPart(b, s, j, n);
    forall i | 0 <= i < n && (i in c) != (i in d) ensures slot !in Delta(b, s, i) {
      if slot in Delta(b, s, i) {
        WritersSettled(b, s, c, j, slot, i);
      }
    }
    PartsAgree(b, s, c, d, slot, n);
  }

  /** Committing a ready transaction after c adds exactly its block-order writes. */
  lemma CommitReady(b: Block, s: Storage, c: set<nat>, j: nat)
    requires |b.txs| == |b.sets| && Good(b, s) && DownClosed(b, c) && Ready(b, c, j)
    ensures Committed(b, s, c + {j}) == Commit(Committed(b, s, c), Delta(b, s, j))
  {
    var n := |b.txs|;
    PartKeys(b, s, c, n);
    PartKeys(b, s, c + {j}, n);
    forall slot | slot in s
      ensures Committed(b, s, c + {j})[slot] == Commit(Committed(b, s, c), Delta(b, s, j))[slot]
    {
      if slot in Delta(b, s, j) {
        DeltaNamed(b, s, j, slot);
        forall i | j < i < n && i in c + {j} ensures slot !in Delta(b, s, i) {
          if slot in Delta(b, s, i) {
            WritersSettled(b, s, c, j, slot, i);
          }
        }
        LastWriter(b, s, c + {j}, j, slot, n);
      } else {
        PartsAgree(b, s, c, c + {j}, slot, n);
      }
    }
  }

  /** On any storage with the committed values on the slots it names, a ready transaction runs as in block order. */
  lemma ReadyRuns(b: Block, s: Storage, c: set<nat>, j: nat, t: Storage)
    requires |b.txs| == |b.sets| && Good(b, s) && DownClosed(b, c) && Ready(b, c, j)
    requires forall slot :: Names(b.sets[j].value, slot) ==>
      slot in t && slot in Committed(b, s, c) && t[slot] == Committed(b, s, c)[slot]
    ensures Outcome(t, b.txs[j]) == Outcome(Before(b, s, j), b.txs[j])
  {
    var r := Outcome(Before(b, s, j), b.txs[j]);
    forall slot | slot in r.loaded + r.stored
      ensures slot in Before(b, s, j) && slot in t && t[slot] == Before(b, s, j)[slot]
    {
      ReadySees(b, s, c, j, slot);
    }
    Framed(Before(b, s, j), t, b.txs[j]);
  }
}
