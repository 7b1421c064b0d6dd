/** The merge that ends an Aria round: exactly when it leaves what the round's serial order leaves. A merge writes
    every cached slot of every account its transaction changed, those that were only read included. */
module AriaMerges {
  import opened AccessLists
  import opened Aria
  import opened AriaRounds
  import opened Caches
  import opened CacheRuns
  import opened Programs
  import opened Rounds
  import opened Stores

  /** A round as AriaRound leaves it. */
  datatype AriaRun = AriaRun(s: Storage, sets: seq<seq<Access>>, txs: seq<Tx>, traces: seq<Trace>,
                             recorded: seq<Access>, endings: seq<Ending>, rest: seq<nat>, commit: seq<nat>,
                             order: seq<nat>)

  ghost predicate IsRound(a: AriaRun) {
    && AllRan(a.s, a.sets, a.txs, a.traces, a.recorded, a.endings)
    && Split(a.recorded, a.endings, |a.txs|, a.rest, a.commit)
    && Serializable(a.s, a.txs, a.endings, a.commit, a.order)
  }

  /** What the i-th transaction changes, on the starting storage and, by serializability, in the serial order. */
  function DeltaOf(a: AriaRun, i: nat): Storage {
    if i < |a.txs| then Outcome(a.s, a.txs[i]).delta else map[]
  }

  /** The storage the serial order leaves. */
  ghost function SerialEnd(a: AriaRun): Storage {
    if forall i :: 0 <= i < |a.order| ==> a.order[i] < |a.txs| then RunInOrder(a.s, a.txs, a.order, |a.order|) else a.s
  }

  /** The caches that are merged. */
  ghost function CommitModels(a: AriaRun): seq<Cache> {
    seq(|a.commit|, k requires 0 <= k < |a.commit| =>
      if a.commit[k] < |a.traces| then a.traces[a.commit[k]].model else Fresh(map[]))
  }

  /** Two committed transactions never change the same slot. */
  lemma OneWriter(a: AriaRun, i: nat, j: nat, slot: SlotId)
    requires IsRound(a) && i in a.order && j in a.order && slot in DeltaOf(a, i) && slot in DeltaOf(a, j)
    ensures i == j
  {
    OutcomeRecorded(a.s, a.txs[i]);
    OutcomeRecorded(a.s, a.txs[j]);
    AllTold(a.s, a.sets, a.txs, a.traces, a.recorded, a.endings);
    assert slot == (slot.0, slot.1);
    assert Contains(a.recorded[i].writeSet, slot.0, Slot(slot.1));
    assert Contains(a.recorded[j].writeSet, slot.0, Slot(slot.1));
    if i != j {
      CommittedWritesDisjoint(a.recorded, a.endings, i, j);
    }
  }

  /** The changes of the first k transactions of the order, one after the other. */
  function CommitsOf(s: Storage, deltas: seq<Storage>, order: seq<nat>, k: nat): Storage
    requires k <= |order|
  {
    if k == 0 || order[k - 1] >= |deltas| then s
    else Commit(CommitsOf(s, deltas, order, k - 1), deltas[order[k - 1]])
  }

  function Deltas(a: AriaRun): seq<Storage> {
    seq(|a.txs|, i requires 0 <= i < |a.txs| => DeltaOf(a, i))
  }

  /** In the serial order each transaction changes what it changed in the round. */
  lemma {:induction false} RunIsCommits(a: AriaRun, k: nat)
    requires Serializable(a.s, a.txs, a.endings, a.commit, a.order) && k <= |a.order|
    ensures RunInOrder(a.s, a.txs, a.order, k) == CommitsOf(a.s, Deltas(a), a.order, k)
  {
    if k > 0 {
      RunIsCommits(a, k - 1);
      assert SameRun(a.s, a.txs, a.order, k - 1);
    }
  }

  ghost predicate OneChanges(deltas: seq<Storage>, slot: SlotId, order: seq<nat>) {
    && (forall i :: i in order ==> i < |deltas|)
    && (forall i, j :: i in order && j in order && slot in deltas[i] && slot in deltas[j] ==> i == j)
  }

  /** The slot's value: that of the one transaction that changes it, or the starting value. */
  ghost predicate SlotAfter(s: Storage, deltas: seq<Storage>, slot: SlotId, done: seq<nat>, now: Storage) {
    && slot in s && slot in now
    && (forall j :: j in done && j < |deltas| && slot in deltas[j] ==> now[slot] == deltas[j][slot])
    && ((forall j :: j in done && j < |deltas| ==> slot !in deltas[j]) ==> now[slot] == s[slot])
  }

  lemma {:induction false} SlotInOrder(s: Storage, deltas: seq<Storage>, slot: SlotId, order: seq<nat>, k: nat)
    requires OneChanges(deltas, slot, order) && slot in s && k <= |order|
    ensures SlotAfter(s, deltas, slot, order[..k], CommitsOf(s, deltas, order, k))
  {
    if k > 0 {
      var last := order[k - 1];
      SlotInOrder(s, deltas, slot, order, k - 1);
      assert order[..k] == order[..k - 1] + [last];
      assert last in order && last in order[..k];
      forall j | j in order[..k - 1] ensures j in order {
      }
    }
  }

  lemma OrderChangesOnce(a: AriaRun, slot: SlotId)
    requires IsRound(a)
    ensures OneChanges(Deltas(a), slot, a.order)
  {
    forall i, j | i in a.order && j in a.order && slot in Deltas(a)[i] && slot in Deltas(a)[j]
      ensures i == j
    {
      OneWriter(a, i, j, slot);
    }
  }

  /** The slot's value in the serial order. */
  ghost predicate SerialAt(a: AriaRun, slot: SlotId, now: Storage) {
    && slot in a.s && slot in now
    && (forall j :: j in a.order && slot in DeltaOf(a, j) ==> now[slot] == DeltaOf(a, j)[slot])
    && ((forall j :: j in a.order ==> slot !in DeltaOf(a, j)) ==> now[slot] == a.s[slot])
  }

  lemma AfterIsSerial(a: AriaRun, slot: SlotId, now: Storage)
    requires SlotAfter(a.s, Deltas(a), slot, a.order, now) && forall j :: j in a.order ==> j < |a.txs|
    ensures SerialAt(a, slot, now)
  {
    assert forall j :: j in a.order ==> Deltas(a)[j] == DeltaOf(a, j);
  }

  lemma CommitsAt(a: AriaRun, slot: SlotId)
    requires OneChanges(Deltas(a), slot, a.order) && slot in a.s
    ensures SerialAt(a, slot, CommitsOf(a.s, Deltas(a), a.order, |a.order|))
  {
    SlotInOrder(a.s, Deltas(a), slot, a.order, |a.order|);
    assert a.order[..|a.order|] == a.order;
    AfterIsSerial(a, slot, CommitsOf(a.s, Deltas(a), a.order, |a.order|));
  }

  lemma EndIsCommits(a: AriaRun)
    requires Serializable(a.s, a.txs, a.endings, a.commit, a.order)
    ensures SerialEnd(a) == CommitsOf(a.s, Deltas(a), a.order, |a.order|)
  {
    RunIsCommits(a, |a.order|);
  }

  lemma SerialSlot(a: AriaRun, slot: SlotId)
    requires IsRound(a) && slot in a.s
    ensures SerialAt(a, slot, SerialEnd(a))
  {
    OrderChangesOnce(a, slot);
    CommitsAt(a, slot);
    EndIsCommits(a);
  }

  // ---------- what a merge writes ----------

  /** The cache of a committed transaction: its own changes over the starting values; nothing, if it was undone. */
  lemma CommittedCache(a: AriaRun, i: nat)
    requires IsRound(a) && i in a.commit
    ensures i < |a.txs|
    ensures i !in a.order ==> a.traces[i].model.dirties == map[]
    ensures i in a.order ==> var cached := Slots(a.traces[i].model.accounts);
      && (forall slot :: slot in cached ==> slot in a.s)
      && (forall slot :: slot in cached ==>
            cached[slot] == if slot in DeltaOf(a, i) then DeltaOf(a, i)[slot] else a.s[slot])
      && DeltaOf(a, i).Keys <= cached.Keys
  {
    var t := a.traces[i];
    assert RanOn(a.s, a.sets[i], a.txs[i], t.base, t.model, a.recorded[i], a.endings[i]);
    if a.endings[i] == Ran {
      Framed(Slots(t.base), a.s, a.txs[i]);
      OutcomeRecorded(Slots(t.base), a.txs[i]);
    }
  }

  /** A slot that a committed transaction changes is written by its merge. */
  lemma ChangeIsMerged(a: AriaRun, i: nat, slot: SlotId)
    requires IsRound(a) && i in a.order && slot in a.s && slot in DeltaOf(a, i) && DeltaOf(a, i)[slot] != a.s[slot]
    ensures i < |a.traces| && Merges(a.traces[i].model, SlotWrite(slot, DeltaOf(a, i)[slot]))
  {
    var t := a.traces[i];
    CommittedCache(a, i);
    assert RanOn(a.s, a.sets[i], a.txs[i], t.base, t.model, a.recorded[i], a.endings[i]);
    ChangedIsDirty(t.base, t.model, slot);
  }

  /** i's merge writes back the starting value of a slot that i only had cached and that j changes. */
  ghost predicate WritesBack(a: AriaRun, i: nat, j: nat, slot: SlotId) {
    && i in a.order && j in a.order && i < |a.traces|
    && slot.0 in a.traces[i].model.dirties && slot in Slots(a.traces[i].model.accounts) && slot !in DeltaOf(a, i)
    && slot in a.s && slot in DeltaOf(a, j) && DeltaOf(a, j)[slot] != a.s[slot]
  }

  ghost predicate NoneWritesBack(a: AriaRun) {
    forall i, j, slot :: !WritesBack(a, i, j, slot)
  }

  /** Unless some merge writes a starting value back, every merged value is that of the serial order. */
  lemma MergedIsSerial(a: AriaRun, i: nat, w: SlotWrite)
    requires IsRound(a) && NoneWritesBack(a) && i in a.commit && i < |a.traces| && Merges(a.traces[i].model, w)
    ensures w.slot in a.s && w.slot in SerialEnd(a) && SerialEnd(a)[w.slot] == w.value
  {
    CommittedCache(a, i);
    SerialSlot(a, w.slot);
    if w.slot !in DeltaOf(a, i) {
      forall j | j in a.order && w.slot in DeltaOf(a, j)
        ensures DeltaOf(a, j)[w.slot] == a.s[w.slot]
      {
        assert !WritesBack(a, i, j, w.slot);
      }
    }
  }

  // ---------- all interleavings ----------

  lemma FromCommitted(a: AriaRun, writes: seq<SlotWrite>, n: nat) returns (i: nat)
    requires IsRound(a) && Interleaves(CommitModels(a), writes) && n < |writes|
    ensures i in a.commit && i < |a.traces| && Merges(a.traces[i].model, writes[n])
  {
    var k := FromModels(CommitModels(a), writes, n);
    i := a.commit[k];
    assert i in a.commit;
  }

  lemma FromModels(models: seq<Cache>, writes: seq<SlotWrite>, n: nat) returns (k: nat)
    requires Interleaves(models, writes) && n < |writes|
    ensures k < |models| && Merges(models[k], writes[n])
  {
    var w := writes[n];
    var m :| 0 <= m < |models| && Merges(models[m], w);
    k := m;
  }

  lemma {:induction false} SerialKeys(s: Storage, txs: seq<Tx>, order: seq<nat>, k: nat)
    requires k <= |order| && forall i :: 0 <= i < |order| ==> order[i] < |txs|
    ensures RunInOrder(s, txs, order, k).Keys == s.Keys
  {
    if k > 0 {
      SerialKeys(s, txs, order, k - 1);
    }
  }

  lemma ChangedIsWritten(a: AriaRun, writes: seq<SlotWrite>, slot: SlotId)
    requires IsRound(a) && Interleaves(CommitModels(a), writes) && slot in a.s
    requires slot in SerialEnd(a) && a.s[slot] != SerialEnd(a)[slot]
    ensures exists n :: 0 <= n < |writes| && writes[n].slot == slot
  {
    SerialSlot(a, slot);
    var j :| j in a.order && slot in DeltaOf(a, j);
    ChangeIsMerged(a, j, slot);
    CommittedAt(a, j);
    assert SlotWrite(slot, DeltaOf(a, j)[slot]) in writes;
  }

  lemma CommittedAt(a: AriaRun, i: nat)
    requires i in a.commit && i < |a.traces|
    ensures exists k :: 0 <= k < |CommitModels(a)| && CommitModels(a)[k] == a.traces[i].model
  {
    var k :| 0 <= k < |a.commit| && a.commit[k] == i;
    assert CommitModels(a)[k] == a.traces[i].model;
  }

  lemma InterleavedSlot(a: AriaRun, writes: seq<SlotWrite>, slot: SlotId)
    requires IsRound(a) && NoneWritesBack(a) && Interleaves(CommitModels(a), writes) && slot in a.s
    ensures slot in PutAll(a.s, writes) && slot in SerialEnd(a) && PutAll(a.s, writes)[slot] == SerialEnd(a)[slot]
  {
    SerialSlot(a, slot);
    forall n | 0 <= n < |writes| && writes[n].slot == slot
      ensures writes[n].value == SerialEnd(a)[slot]
    {
      var i := FromCommitted(a, writes, n);
      MergedIsSerial(a, i, writes[n]);
    }
    if a.s[slot] != SerialEnd(a)[slot] {
      ChangedIsWritten(a, writes, slot);
    }
    PutAllAgreed(a.s, writes, slot, SerialEnd(a)[slot]);
  }

  lemma AnyInterleavingIsSerial(a: AriaRun, writes: seq<SlotWrite>)
    requires IsRound(a) && NoneWritesBack(a) && Interleaves(CommitModels(a), writes)
    ensures PutAll(a.s, writes) == SerialEnd(a)
  {
    PutAllKeys(a.s, writes);
    SerialKeys(a.s, a.txs, a.order, |a.order|);
    forall slot | slot in a.s
      ensures PutAll(a.s, writes)[slot] == SerialEnd(a)[slot]
    {
      InterleavedSlot(a, writes, slot);
    }
  }

  // ---------- an interleaving with a given last write ----------

  ghost function AllMerges(models: seq<Cache>): set<SlotWrite> {
    set k, slot | 0 <= k < |models| && slot in Slots(models[k].accounts) && slot.0 in models[k].dirties ::
      SlotWrite(slot, Slots(models[k].accounts)[slot])
  }

  lemma {:induction false} Listing(ws: set<SlotWrite>) returns (list: seq<SlotWrite>)
    ensures forall w :: w in list <==> w in ws
  {
    list := [];
    if ws != {} {
      var w :| w in ws;
      list := Listing(ws - {w});
      list := list + [w];
    }
  }

  lemma {:induction false} PutAllLast(s: Storage, writes: seq<SlotWrite>, w: SlotWrite)
    ensures PutAll(s, writes + [w]) == Put(PutAll(s, writes), w)
  {
    if writes == [] {
      assert [] + [w] == [w] && [w][1..] == [];
    } else {
      assert (writes + [w])[1..] == writes[1..] + [w];
      PutAllLast(Put(s, writes[0]), writes[1..], w);
    }
  }

  lemma MergedLast(models: seq<Cache>, k: nat, w: SlotWrite) returns (list: seq<SlotWrite>)
    requires k < |models| && Merges(models[k], w)
    ensures Interleaves(models, list + [w])
  {
    list := Listing(AllMerges(models) - {w});
    var writes := list + [w];
    forall n | 0 <= n < |writes|
      ensures exists m :: 0 <= m < |models| && Merges(models[m], writes[n])
    {
      if n < |list| {
        assert writes[n] in list;
        var m, slot :| 0 <= m < |models| && slot in Slots(models[m].accounts) && slot.0 in models[m].dirties
          && SlotWrite(slot, Slots(models[m].accounts)[slot]) == writes[n];
        assert Merges(models[m], writes[n]);
      }
    }
    forall m, v | 0 <= m < |models| && Merges(models[m], v)
      ensures v in writes
    {
      assert v == SlotWrite(v.slot, Slots(models[m].accounts)[v.slot]);
      assert v in AllMerges(models);
    }
  }

  lemma LastWins(s: Storage, before: seq<SlotWrite>, w: SlotWrite)
    requires w.slot in s
    ensures w.slot in PutAll(s, before + [w]) && PutAll(s, before + [w])[w.slot] == w.value
  {
    PutAllLast(s, before, w);
    PutAllKeys(s, before);
  }

  lemma WrittenBack(a: AriaRun, i: nat, j: nat, slot: SlotId)
    requires IsRound(a) && WritesBack(a, i, j, slot)
    ensures slot in a.s && i in a.commit && Merges(a.traces[i].model, SlotWrite(slot, a.s[slot]))
    ensures slot in SerialEnd(a) && SerialEnd(a)[slot] != a.s[slot]
  {
    CommittedCache(a, i);
    SerialSlot(a, slot);
  }

  lemma LosingOrder(models: seq<Cache>, k: nat, s: Storage, slot: SlotId, after: Storage)
    returns (writes: seq<SlotWrite>)
    requires slot in s && slot in after && after[slot] != s[slot]
    requires k < |models| && Merges(models[k], SlotWrite(slot, s[slot]))
    ensures Interleaves(models, writes) && PutAll(s, writes) != after
  {
    var before := MergedLast(models, k, SlotWrite(slot, s[slot]));
    LastWins(s, before, SlotWrite(slot, s[slot]));
    writes := before + [SlotWrite(slot, s[slot])];
  }

  /** When a merge writes a starting value back, it may come last, and the other transaction's change is lost. */
  lemma WriteBackLoses(a: AriaRun, i: nat, j: nat, slot: SlotId) returns (writes: seq<SlotWrite>)
    requires IsRound(a) && WritesBack(a, i, j, slot)
    ensures Interleaves(CommitModels(a), writes) && PutAll(a.s, writes) != SerialEnd(a)
  {
    WrittenBack(a, i, j, slot);
    CommittedAt(a, i);
    var k :| 0 <= k < |CommitModels(a)| && CommitModels(a)[k] == a.traces[i].model;
    writes := LosingOrder(CommitModels(a), k, a.s, slot, SerialEnd(a));
  }

  /**
   * However the merges of an Aria round interleave, the shared storage ends as after the round's serial order: true
   * if and only if no committed transaction has cached, in an account it changes, a slot it does not write and
   * another committed transaction changes.
   */
  lemma MergeIsSerialExactlyIf(a: AriaRun)
    requires IsRound(a)
    ensures (forall writes :: Interleaves(CommitModels(a), writes) ==> PutAll(a.s, writes) == SerialEnd(a))
       <==> NoneWritesBack(a)
  {
    if NoneWritesBack(a) {
      forall writes | Interleaves(CommitModels(a), writes)
        ensures PutAll(a.s, writes) == SerialEnd(a)
      {
        AnyInterleavingIsSerial(a, writes);
      }
    } else {
      var i, j, slot :| WritesBack(a, i, j, slot);
      var writes := WriteBackLoses(a, i, j, slot);
    }
  }

  // ---------- an input ----------

  /** Reads slot 0 of account 0 and sets slot 1 of it. */
  function Reader(): Tx {
    Tx((step: nat, loads: seq<Hash>) => if step == 0 then Load((0, 0)) else Store((0, 1), 1), 2, Accepted)
  }

  /** Sets slot 0 of account 0. */
  function Writer(): Tx {
    Tx((step: nat, loads: seq<Hash>) => Store((0, 0), 1), 1, Accepted)
  }

  const START_VALUES: Storage := map[(0, 0) := 0, (0, 1) := 0]

  lemma ReaderRuns()
    ensures Outcome(START_VALUES, Reader()).delta == map[(0, 1) := 1]
    ensures Outcome(START_VALUES, Reader()).loaded == {(0, 0)} && Outcome(START_VALUES, Reader()).stored == {(0, 1)}
  {
    var tx := Reader();
    var r1 := Tick(START_VALUES, tx, Programs.START);
    var r2 := Tick(START_VALUES, tx, r1);
    assert Exec(START_VALUES, tx, r1, 1) == Exec(START_VALUES, tx, r2, 0) == r2;
    assert Exec(START_VALUES, tx, Programs.START, 2) == r2;
  }

  lemma WriterRuns()
    ensures Outcome(START_VALUES, Writer()).delta == map[(0, 0) := 1]
    ensures Outcome(START_VALUES, Writer()).loaded == {} && Outcome(START_VALUES, Writer()).stored == {(0, 0)}
  {
    var tx := Writer();
    var r1 := Tick(START_VALUES, tx, Programs.START);
    assert Exec(START_VALUES, tx, Programs.START, 1) == Exec(START_VALUES, tx, r1, 0) == r1;
  }

  /** The sets both predict: the reader's two slots, the writer's one. */
  function ReaderSet(): Access {
    Access(map[0 := {Slot(0)}], map[0 := {Slot(1)}])
  }

  function WriterSet(): Access {
    Access(map[], map[0 := {Slot(0)}])
  }

  function AccountWith(storage: map<Hash, Hash>): Accounts {
    map[0 := NEW_ACCOUNT.(storage := storage)]
  }

  lemma SlotsOfOne(storage: map<Hash, Hash>, slot: SlotId)
    ensures slot in Slots(AccountWith(storage)) <==> slot.0 == 0 && slot.1 in storage
    ensures slot in Slots(AccountWith(storage)) ==> Slots(AccountWith(storage))[slot] == storage[slot.1]
  {
    SlotsAt(AccountWith(storage), slot.0, slot.1);
    assert slot == (slot.0, slot.1);
  }

  /** One of the two transactions on a cache that holds what it predicts. */
  lemma ExampleRan(sets: seq<Access>, tx: Tx, storage: map<Hash, Hash>, recorded: Access) returns (t: Trace)
    requires FetchedSlots(START_VALUES, sets, Slots(AccountWith(storage))) && tx.fate.Accepted?
    requires Records(recorded, Outcome(START_VALUES, tx)) && StaysInside(sets, Outcome(START_VALUES, tx))
    ensures t.base == AccountWith(storage)
    ensures RanOn(START_VALUES, sets, tx, t.base, t.model, recorded, Ran)
  {
    var base := AccountWith(storage);
    ExecuteTxMeans(Fresh(base), base, tx);
    var r := ExecuteTx(Fresh(base), tx).value;
    t := Trace(base, r.0);
    Framed(START_VALUES, Slots(base), tx);
    RunTold(START_VALUES, sets, tx, base, r.0, r.1, recorded);
  }

  lemma ExampleSlots()
    ensures FetchedSlots(START_VALUES, [ReaderSet()], Slots(AccountWith(map[0 := 0, 1 := 0])))
    ensures FetchedSlots(START_VALUES, [WriterSet()], Slots(AccountWith(map[0 := 0])))
  {
    forall slot: SlotId
      ensures slot in Slots(AccountWith(map[0 := 0, 1 := 0])) <==> slot in START_VALUES
      ensures slot in Slots(AccountWith(map[0 := 0])) <==> slot == (0, 0)
    {
      SlotsOfOne(map[0 := 0, 1 := 0], slot);
      SlotsOfOne(map[0 := 0], slot);
      assert slot == (slot.0, slot.1);
    }
    SlotsOfOne(map[0 := 0, 1 := 0], (0, 0));
    SlotsOfOne(map[0 := 0, 1 := 0], (0, 1));
    SlotsOfOne(map[0 := 0], (0, 0));
    RequestedByReader();
    RequestedByWriter();
  }

  lemma RequestedByReader()
    ensures forall a: Address, h: Hash :: Requested([ReaderSet()], a, Slot(h)) <==> a == 0 && h in {0, 1}
  {
    forall a: Address, h: Hash
      ensures Requested([ReaderSet()], a, Slot(h)) <==> a == 0 && h in {0, 1}
    {
      var sets := [ReaderSet()];
      assert Contains(sets[0].readSet, a, Slot(h)) <==> a == 0 && h == 0;
      assert Contains(sets[0].writeSet, a, Slot(h)) <==> a == 0 && h == 1;
    }
  }

  lemma RequestedByWriter()
    ensures forall a: Address, h: Hash :: Requested([WriterSet()], a, Slot(h)) <==> a == 0 && h == 0
  {
    forall a: Address, h: Hash
      ensures Requested([WriterSet()], a, Slot(h)) <==> a == 0 && h == 0
    {
      var sets := [WriterSet()];
      assert !Contains(sets[0].readSet, a, Slot(h));
      assert Contains(sets[0].writeSet, a, Slot(h)) <==> a == 0 && h == 0;
    }
  }

  /** The rule commits both: the writer has an earlier reader of its write, but no read hazard. */
  lemma BothCommit(recorded: seq<Access>, endings: seq<Ending>)
    requires recorded == [ReaderSet(), WriterSet()] && endings == [Ran, Ran]
    ensures Split(recorded, endings, 2, [], [0, 1])
  {
    assert !Meet(recorded[0].writeSet, recorded[1].writeSet);
    assert !EarlierWrites(recorded, 1, recorded[1].writeSet);
    assert !ReadHazard(recorded, 1);
    assert Commits(recorded, endings, 0) && Commits(recorded, endings, 1);
  }

  lemma TwoRan(s: Storage, sets: seq<seq<Access>>, txs: seq<Tx>, t0: Trace, t1: Trace, recorded: seq<Access>,
               endings: seq<Ending>)
    requires |sets| == |txs| == |recorded| == |endings| == 2
    requires RanOn(s, sets[0], txs[0], t0.base, t0.model, recorded[0], endings[0])
    requires RanOn(s, sets[1], txs[1], t1.base, t1.model, recorded[1], endings[1])
    ensures AllRan(s, sets, txs, [t0, t1], recorded, endings)
  {
    var traces := [t0, t1];
    forall i | 0 <= i < 2
      ensures RanOn(s, sets[i], txs[i], traces[i].base, traces[i].model, recorded[i], endings[i])
    {
      if i == 0 {
        assert traces[0] == t0;
      } else {
        assert i == 1 && traces[1] == t1;
      }
    }
  }

  /** Executions and the rule's decisions make a round; a serial order for it exists. */
  lemma RoundOf(s: Storage, sets: seq<seq<Access>>, txs: seq<Tx>, traces: seq<Trace>, recorded: seq<Access>,
                endings: seq<Ending>, rest: seq<nat>, commit: seq<nat>) returns (a: AriaRun)
    requires AllRan(s, sets, txs, traces, recorded, endings) && Split(recorded, endings, |txs|, rest, commit)
    ensures IsRound(a) && a == AriaRun(s, sets, txs, traces, recorded, endings, rest, commit, a.order)
  {
    AllTold(s, sets, txs, traces, recorded, endings);
    var order := CommittedSerialize(s, txs, recorded, endings, rest, commit);
    a := AriaRun(s, sets, txs, traces, recorded, endings, rest, commit, order);
  }

  lemma ReaderReady()
    ensures Records(ReaderSet(), Outcome(START_VALUES, Reader()))
    ensures StaysInside([ReaderSet()], Outcome(START_VALUES, Reader()))
  {
    ReaderRuns();
    RequestedByReader();
  }

  lemma WriterReady()
    ensures Records(WriterSet(), Outcome(START_VALUES, Writer()))
    ensures StaysInside([WriterSet()], Outcome(START_VALUES, Writer()))
  {
    WriterRuns();
    RequestedByWriter();
  }

  lemma ReaderTrace() returns (t: Trace)
    ensures t.base == AccountWith(map[0 := 0, 1 := 0])
    ensures RanOn(START_VALUES, [ReaderSet()], Reader(), t.base, t.model, ReaderSet(), Ran)
  {
    ExampleSlots();
    ReaderReady();
    t := ExampleRan([ReaderSet()], Reader(), map[0 := 0, 1 := 0], ReaderSet());
  }

  lemma WriterTrace() returns (t: Trace)
    ensures RanOn(START_VALUES, [WriterSet()], Writer(), t.base, t.model, WriterSet(), Ran)
  {
    ExampleSlots();
    WriterReady();
    t := ExampleRan([WriterSet()], Writer(), map[0 := 0], WriterSet());
  }

  /** The reader's merge writes slot 0 back, which the writer changes. */
  lemma ReaderWritesBack(a: AriaRun)
    requires IsRound(a) && a.s == START_VALUES && a.txs == [Reader(), Writer()] && 0 in a.order && 1 in a.order
    requires Slots(a.traces[0].model.accounts).Keys == START_VALUES.Keys
    ensures WritesBack(a, 0, 1, (0, 0))
  {
    ReaderRuns();
    WriterRuns();
    ChangeIsMerged(a, 0, (0, 1));
  }

  lemma ReaderCached(t: Trace)
    requires RanOn(START_VALUES, [ReaderSet()], Reader(), t.base, t.model, ReaderSet(), Ran)
    requires t.base == AccountWith(map[0 := 0, 1 := 0])
    ensures Slots(t.model.accounts).Keys == START_VALUES.Keys
  {
    forall slot: SlotId
      ensures slot in Slots(t.base) <==> slot in START_VALUES
    {
      SlotsOfOne(map[0 := 0, 1 := 0], slot);
      assert slot == (slot.0, slot.1);
    }
  }

  lemma ExampleAllRan() returns (t0: Trace, t1: Trace)
    ensures AllRan(START_VALUES, [[ReaderSet()], [WriterSet()]], [Reader(), Writer()], [t0, t1],
                   [ReaderSet(), WriterSet()], [Ran, Ran])
    ensures Slots(t0.model.accounts).Keys == START_VALUES.Keys
  {
    t0 := ReaderTrace();
    t1 := WriterTrace();
    ReaderCached(t0);
    TwoRan(START_VALUES, [[ReaderSet()], [WriterSet()]], [Reader(), Writer()], t0, t1, [ReaderSet(), WriterSet()],
           [Ran, Ran]);
  }

  lemma ExampleRound() returns (a: AriaRun)
    ensures IsRound(a) && a.s == START_VALUES && a.txs == [Reader(), Writer()] && a.commit == [0, 1]
    ensures a.endings == [Ran, Ran] && Slots(a.traces[0].model.accounts).Keys == START_VALUES.Keys
  {
    var t0, t1 := ExampleAllRan();
    var sets, txs := [[ReaderSet()], [WriterSet()]], [Reader(), Writer()];
    var recorded, endings := [ReaderSet(), WriterSet()], [Ran, Ran];
    BothCommit(recorded, endings);
    a := RoundOf(START_VALUES, sets, txs, [t0, t1], recorded, endings, [], [0, 1]);
  }

  lemma BothInOrder(a: AriaRun)
    requires Serializable(a.s, a.txs, a.endings, a.commit, a.order)
    requires |a.txs| == 2 && a.commit == [0, 1] && a.endings == [Ran, Ran]
    ensures 0 in a.order && 1 in a.order
  {
  }

  /** There is a round, of two committed transactions, whose merges may lose what one of them wrote: the reader's merge
      comes last and writes back slot 0 of the account it changed. */
  lemma MergeMayLose() returns (a: AriaRun, writes: seq<SlotWrite>)
    ensures IsRound(a) && a.txs == [Reader(), Writer()] && a.commit == [0, 1] && a.endings == [Ran, Ran]
    ensures Interleaves(CommitModels(a), writes) && PutAll(a.s, writes) != SerialEnd(a)
  {
    a := ExampleRound();
    BothInOrder(a);
    ReaderWritesBack(a);
    writes := WriteBackLoses(a, 0, 1, (0, 0));
  }
}
