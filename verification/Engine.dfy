/** Running batches on cache states and merging them into the shared state, round after round. */
module Engine {
  import opened AccessLists
  import opened Caches
  import opened CacheRuns
  import opened CacheStates
  import opened Programs
  import opened Rounds
  import opened Schedules
  import opened SharedStates
  import opened Stores

  /** The run so far, and what it still has to do, is the whole run. */
  ghost predicate Underway(tx: Tx, q: OnCache, left: nat, whole: OnCache) {
    ExecCache(tx, q, left) == whole
  }

  /** One action of the transaction, on the cache state. */
  method Perform(statedb: CacheState, action: Action, ids: seq<nat>, loads: seq<Hash>, ghost q: OnCache)
    returns (ids': seq<nat>, loads': seq<Hash>, stop: bool, panicked: bool)
    requires statedb.Valid() && q.cache == statedb.Model() && q.ids == ids && q.loads == loads
    requires !q.halted && !q.panicked
    modifies statedb, statedb.journal, statedb.objects
    ensures statedb.Valid() && statedb.objects == old(statedb.objects)
    ensures panicked <==> Stepped(q.cache, OpOf(q, action)).None?
    ensures panicked ==> statedb.Model() == q.cache && ids' == ids && loads' == loads
    ensures !panicked ==>
      && statedb.Model() == Stepped(q.cache, OpOf(q, action)).value
      && Noted(q, action) == q.(ids := ids', loads := loads', halted := stop)
  {
    ids', loads', stop, panicked := ids, loads, false, false;
    match action
    case Load(slot) =>
      AccessSteps(q, slot, 0);
      var value := statedb.GetState(slot.0, slot.1);
      loads' := loads + [value];
    case Store(slot, value) =>
      AccessSteps(q, slot, value);
      statedb.SetState(slot.0, slot.1, value);
    case Enter =>
      var id := statedb.Snapshot();
      ids' := ids + [id];
    case Leave(ok) =>
      ids', stop, panicked := LeaveCall(statedb, ok, ids, q);
    case Halt =>
      stop := true;
  }

  lemma AccessSteps(q: OnCache, slot: SlotId, value: Hash)
    ensures Stepped(q.cache, OpOf(q, Load(slot))) == Some(Write(q.cache, Op.GetState(slot.0, slot.1)))
    ensures Noted(q, Load(slot)) == q.(loads := q.loads + [SlotOf(q.cache.accounts, slot.0, slot.1)])
    ensures Stepped(q.cache, OpOf(q, Store(slot, value))) == Some(Write(q.cache, Op.SetState(slot.0, slot.1, value)))
    ensures Noted(q, Store(slot, value)) == q
  {
  }

  /** A call ends; a failed one is reverted to its snapshot. */
  method LeaveCall(statedb: CacheState, ok: bool, ids: seq<nat>, ghost q: OnCache)
    returns (ids': seq<nat>, stop: bool, panicked: bool)
    requires statedb.Valid() && q.cache == statedb.Model() && q.ids == ids && !q.halted && !q.panicked
    modifies statedb, statedb.journal, statedb.objects
    ensures statedb.Valid() && statedb.objects == old(statedb.objects)
    ensures panicked <==> Stepped(q.cache, OpOf(q, Leave(ok))).None?
    ensures panicked ==> statedb.Model() == q.cache && ids' == ids && !stop
    ensures !panicked ==>
      && statedb.Model() == Stepped(q.cache, OpOf(q, Leave(ok))).value
      && Noted(q, Leave(ok)) == q.(ids := ids', halted := stop)
  {
    ids', stop, panicked := ids, false, false;
    if |ids| == 0 {
      stop := true;
    } else {
      if !ok {
        var reverted := statedb.RevertToSnapshot(ids[|ids| - 1]);
        if !reverted {
          panicked := true;
          return;
        }
      }
      ids' := ids[..|ids| - 1];
    }
  }

  /** The interpreter's loop: actions until the transaction stops or its gas is used up. A message that is refused
      is an error, and nothing is run. */
  method ApplyMessage(statedb: CacheState, tx: Tx) returns (refused: bool, panicked: bool)
    requires statedb.Valid()
    modifies statedb, statedb.journal, statedb.objects
    ensures statedb.Valid() && statedb.objects == old(statedb.objects)
    ensures refused <==> tx.fate.Refused?
    ensures refused ==> statedb.Model() == old(statedb.Model())
    ensures var q := ExecCache(tx, Begin(old(statedb.Model())), Steps(tx));
      panicked == q.panicked && statedb.Model() == q.cache
  {
    refused := tx.fate.Refused?;
    panicked := false;
    if !refused {
      panicked := Interpret(statedb, tx);
    }
  }

  method Interpret(statedb: CacheState, tx: Tx) returns (panicked: bool)
    requires statedb.Valid()
    modifies statedb, statedb.journal, statedb.objects
    ensures statedb.Valid() && statedb.objects == old(statedb.objects)
    ensures var q := ExecCache(tx, Begin(old(statedb.Model())), Steps(tx));
      panicked == q.panicked && statedb.Model() == q.cache
  {
    var left := Steps(tx);
    ghost var q := Begin(statedb.Model());
    ghost var whole := ExecCache(tx, q, left);
    var ids: seq<nat>, loads: seq<Hash>, step, stop := [], [], 0, false;
    panicked := false;
    while left > 0 && !stop
      invariant statedb.Valid() && statedb.objects == old(statedb.objects)
      invariant ShownBy(q, statedb.Model(), ids, loads, step, stop, panicked) && Underway(tx, q, left, whole)
      decreases left, !stop
    {
      ids, loads, step, left, stop, panicked, q := TakeAction(statedb, tx, ids, loads, step, left, q, whole);
    }
  }

  /** The run on the cache is what the cache and the interpreter's variables show. */
  ghost predicate ShownBy(q: OnCache, c: Cache, ids: seq<nat>, loads: seq<Hash>, step: nat, stop: bool, panicked: bool)
  {
    q == OnCache(c, ids, loads, q.step, stop, panicked) && (!stop ==> q.step == step) && (panicked ==> stop)
  }

  method TakeAction(statedb: CacheState, tx: Tx, ids: seq<nat>, loads: seq<Hash>, step: nat, left: nat,
                    ghost q: OnCache, ghost whole: OnCache)
    returns (ids': seq<nat>, loads': seq<Hash>, step': nat, left': nat, stop: bool, panicked: bool, ghost q': OnCache)
    requires statedb.Valid() && left > 0
    requires ShownBy(q, statedb.Model(), ids, loads, step, false, false) && Underway(tx, q, left, whole)
    modifies statedb, statedb.journal, statedb.objects
    ensures statedb.Valid() && statedb.objects == old(statedb.objects)
    ensures ShownBy(q', statedb.Model(), ids', loads', step', stop, panicked) && Underway(tx, q', left', whole)
    ensures left' == left - 1
  {
    var action := tx.next(step, loads);
    UnderwayTick(tx, q, left, whole);
    q' := TickCache(tx, q);
    ids', loads', stop, panicked := Perform(statedb, action, ids, loads, q);
    if panicked {
      stop := true;
    }
    step', left' := step + 1, left - 1;
  }

  lemma UnderwayTick(tx: Tx, q: OnCache, left: nat, whole: OnCache)
    requires Underway(tx, q, left, whole) && left > 0 && !q.halted
    ensures Underway(tx, TickCache(tx, q), left - 1, whole)
  {
  }

  lemma TxParts(c: Cache, tx: Tx)
    requires Caches.Valid(c) && c.judge && !tx.fate.Invalid?
    ensures var q := ExecCache(tx, Begin(Mark(c)), Steps(tx)); var r := CacheRuns.ExecuteTx(c, tx);
      && !q.panicked
      && (tx.fate.Refused? ==> q.cache.judge && r == Some((q.cache, Failed)))
      && (tx.fate.Accepted? && q.cache.judge ==> r == Some((q.cache, Ran)))
      && (!q.cache.judge ==>
            && Caches.Valid(q.cache.(judge := true))
            && Revert(q.cache.(judge := true), c.nextId).Some?
            && r == Some((Revert(q.cache.(judge := true), c.nextId).value, FalsePredict)))
  {
    RunStaysValid(c, tx);
    ExecuteTxMeans(c, Rewound(c.accounts, c.entries, 0), tx);
  }

  /** An invalid transaction leaves everything as it is; a refused one, its snapshot; a false prediction is undone. */
  method ExecuteTx(statedb: CacheState, tx: Tx) returns (err: Ending)
    requires statedb.Valid() && statedb.stateJudge
    modifies statedb, statedb.journal, statedb.objects
    ensures statedb.Valid() && statedb.stateJudge && statedb.objects == old(statedb.objects)
    ensures CacheRuns.ExecuteTx(old(statedb.Model()), tx) == Some((statedb.Model(), err))
  {
    if tx.fate.Invalid? {
      return Failed;
    }
    TxParts(statedb.Model(), tx);
    var snapshot := statedb.Snapshot();
    var refused, panicked := ApplyMessage(statedb, tx);
    if refused {
      return Failed;
    }
    if !statedb.stateJudge {
      UndoFalsePredict(statedb, snapshot);
      return FalsePredict;
    }
    return Ran;
  }

  method UndoFalsePredict(statedb: CacheState, snapshot: nat)
    requires statedb.Valid()
    requires var c := statedb.Model().(judge := true); Caches.Valid(c) && Revert(c, snapshot).Some?
    modifies statedb, statedb.journal, statedb.objects
    ensures statedb.Valid() && statedb.stateJudge && statedb.objects == old(statedb.objects)
    ensures statedb.Model() == Revert(old(statedb.Model()).(judge := true), snapshot).value
  {
    statedb.stateJudge := true;
    var reverted := statedb.RevertToSnapshot(snapshot);
  }

  /** One transaction after the other on one cache; an error does not stop the list. */
  method ExecuteTxs(statedb: CacheState, txs: seq<Tx>) returns (errs: seq<Ending>)
    requires statedb.Valid() && statedb.stateJudge
    modifies statedb, statedb.journal, statedb.objects
    ensures statedb.Valid() && statedb.stateJudge && statedb.objects == old(statedb.objects)
    ensures CacheRuns.ExecuteTxs(old(statedb.Model()), txs) == Some(statedb.Model())
    ensures errs == Endings(old(statedb.Model()), txs)
  {
    ghost var c := statedb.Model();
    assert txs[0..] == txs;
    errs := [];
    for i := 0 to |txs|
      invariant statedb.Valid() && statedb.stateJudge && statedb.objects == old(statedb.objects)
      invariant CacheRuns.ExecuteTxs(statedb.Model(), txs[i..]) == CacheRuns.ExecuteTxs(c, txs)
      invariant errs + Endings(statedb.Model(), txs[i..]) == Endings(c, txs)
    {
      assert txs[i..][1..] == txs[i + 1..];
      var err := ExecuteTx(statedb, txs[i]);
      errs := errs + [err];
    }
  }

  // ---------- one batch: a new cache, prefetched and run ----------

  /** The predictions of a batch's transactions. */
  method PredictionsOf(b: Block, batch: Batch) returns (sets: seq<Access>)
    requires forall p :: 0 <= p < |batch| ==> batch[p] in Predicted(b)
    ensures forall a, key :: Requested(sets, a, key) <==>
      exists j :: j in batch && j in Predicted(b)
        && (Contains(b.sets[j].value.readSet, a, key) || Contains(b.sets[j].value.writeSet, a, key))
  {
    sets := [];
    for p := 0 to |batch|
      invariant |sets| == p && forall k :: 0 <= k < p ==> sets[k] == b.sets[batch[k]].value
    {
      sets := sets + [b.sets[batch[p]].value];
    }
    forall a: Address, key
      ensures Requested(sets, a, key) <==>
        exists j :: j in batch && j in Predicted(b)
          && (Contains(b.sets[j].value.readSet, a, key) || Contains(b.sets[j].value.writeSet, a, key))
    {
      if Requested(sets, a, key) {
        var k :| 0 <= k < |sets| && (Contains(sets[k].readSet, a, key) || Contains(sets[k].writeSet, a, key));
        assert batch[k] in batch;
      }
      if j :| j in batch && j in Predicted(b)
              && (Contains(b.sets[j].value.readSet, a, key) || Contains(b.sets[j].value.writeSet, a, key)) {
        var k :| 0 <= k < |batch| && batch[k] == j;
        assert sets[k] == b.sets[j].value;
      }
    }
  }

  /** The shared state holds every slot the batch's transactions name. */
  ghost predicate HoldsNamed(b: Block, shared: Storage, batch: Batch) {
    forall slot :: NamedBy(b, batch, slot) ==> slot in shared
  }

  lemma FetchedForBatch(b: Block, batch: Batch, shared: Accounts, now: Accounts, sets: seq<Access>, done: ALTuple,
                        got: ALTuple)
    requires Fetching(map[], shared, map[], now, done, got)
    requires forall a, key :: Contains(done, a, key) <==> Requested(sets, a, key)
    requires forall a, key :: Requested(sets, a, key) <==>
      exists j :: j in batch && j in Predicted(b)
        && (Contains(b.sets[j].value.readSet, a, key) || Contains(b.sets[j].value.writeSet, a, key))
    requires HoldsNamed(b, Slots(shared), batch)
    ensures PrefetchedFor(b, Slots(shared), batch, Slots(now))
  {
    PrefetchedSlots(shared, sets, now, done, got);
    forall slot: SlotId
      ensures slot in Slots(now) <==> NamedBy(b, batch, slot)
      ensures slot in Slots(now) ==> slot in Slots(shared) && Slots(now)[slot] == Slots(shared)[slot]
    {
      var (a, h) := slot;
      assert slot == (a, h);
      assert (a, h) in Slots(now) <==> Requested(sets, a, Slot(h));
      if j :| j in batch && j in Predicted(b) && Names(b.sets[j].value, slot) {
        assert Requested(sets, a, Slot(h));
      }
      SlotsAt(shared, a, h);
    }
  }

  method RunBatch(b: Block, batch: Batch, shared: SharedState)
    returns (cache: CacheState, errs: seq<Ending>, ghost base: Accounts)
    requires InBlock(b, batch) && forall p :: 0 <= p < |batch| ==> batch[p] in Predicted(b)
    requires HoldsNamed(b, Slots(shared.accounts), batch)
    ensures fresh(cache) && cache.Valid()
    ensures PrefetchedFor(b, Slots(shared.accounts), batch, Slots(base))
    ensures CacheRuns.ExecuteTxs(Fresh(base), TxsOf(b, batch)) == Some(cache.Model())
    ensures errs == Endings(Fresh(base), TxsOf(b, batch))
  {
    cache := new CacheState();
    var sets := PredictionsOf(b, batch);
    ghost var got := cache.Prefetch(shared.accounts, sets);
    base := cache.view;
    FetchedForBatch(b, batch, shared.accounts, base, sets, cache.prefetched, got);
    assert cache.Model() == Fresh(base);
    var txs := seq(|batch|, p requires 0 <= p < |batch| => b.txs[batch[p]]);
    assert txs == TxsOf(b, batch);
    errs := ExecuteTxs(cache, txs);
  }

  // ---------- one round ----------

  lemma GoodHolds(b: Block, s: Storage, c: set<nat>, batch: Batch)
    requires |b.txs| == |b.sets| && Good(b, s) && Sequenced(b, c, batch)
    ensures InBlock(b, batch) && HoldsNamed(b, Committed(b, s, c), batch)
    ensures forall p :: 0 <= p < |batch| ==> batch[p] in Predicted(b)
  {
    PartKeys(b, s, c, |b.txs|);
    forall p | 0 <= p < |batch| ensures batch[p] in Predicted(b) {
      MemberReady(b, c, batch, batch[p]);
    }
    forall slot | NamedBy(b, batch, slot) ensures slot in s {
      var j :| j in batch && j in Predicted(b) && Names(b.sets[j].value, slot);
    }
  }

  lemma MergedSlots(target: Accounts, cache: Accounts, dirty: set<Address>, keccak: seq<nat> -> Hash, slot: SlotId)
    ensures var merged := Slots(Merged(target, cache, dirty, keccak));
      && (slot in merged <==> slot in Slots(target))
      && (slot in merged ==>
            merged[slot] == if slot.0 in dirty && slot in Slots(cache) then Slots(cache)[slot] else Slots(target)[slot])
  {
  }

  /** With the first k caches merged, each slot has its new value, or its old one and nothing of it was merged. */
  ghost predicate Merging(before: Storage, after: Storage, models: seq<Cache>, k: nat, now: Storage)
    requires k <= |models|
  {
    && before.Keys == after.Keys && now.Keys == after.Keys
    && forall slot :: slot in now ==>
         || now[slot] == after[slot]
         || (now[slot] == before[slot]
             && forall i :: 0 <= i < k && slot.0 in models[i].dirties ==> slot !in Slots(models[i].accounts))
  }

  lemma OneMoreMerged(b: Block, s: Storage, c: set<nat>, batches: seq<Batch>, bases: seq<Accounts>, models: seq<Cache>,
                      k: nat, target: Accounts, keccak: seq<nat> -> Hash)
    requires |b.txs| == |b.sets| && Good(b, s) && RoundFits(b, c, batches)
    requires RoundRan(b, s, c, batches, bases, models) && k < |batches|
    requires Merging(Committed(b, s, c), Committed(b, s, c + RoundIds(batches)), models, k, Slots(target))
    ensures Merging(Committed(b, s, c), Committed(b, s, c + RoundIds(batches)), models, k + 1,
                    Slots(Merged(target, models[k].accounts, models[k].dirties.Keys, keccak)))
  {
    var merged := Slots(Merged(target, models[k].accounts, models[k].dirties.Keys, keccak));
    EachMergedOrKept(b, s, c, batches, bases, models, k, target, keccak);
    MergingOneMore(Committed(b, s, c), Committed(b, s, c + RoundIds(batches)), models, k, Slots(target), merged);
  }

  lemma EachMergedOrKept(b: Block, s: Storage, c: set<nat>, batches: seq<Batch>, bases: seq<Accounts>,
                         models: seq<Cache>, k: nat, target: Accounts, keccak: seq<nat> -> Hash)
    requires |b.txs| == |b.sets| && Good(b, s) && RoundFits(b, c, batches)
    requires RoundRan(b, s, c, batches, bases, models) && k < |batches|
    ensures AllMergedOrKept(Slots(target), Committed(b, s, c + RoundIds(batches)), models[k],
                            Slots(Merged(target, models[k].accounts, models[k].dirties.Keys, keccak)))
  {
    forall slot: SlotId {
      MergedSlotAt(b, s, c, batches, bases, models, k, target, keccak, slot);
    }
  }

  ghost predicate AllMergedOrKept(now: Storage, after: Storage, m: Cache, merged: Storage) {
    && merged.Keys == now.Keys
    && forall slot :: slot in merged && slot in after ==> MergedOrKept(merged[slot], now[slot], after[slot], m, slot)
  }

  lemma MergedSlotAt(b: Block, s: Storage, c: set<nat>, batches: seq<Batch>, bases: seq<Accounts>, models: seq<Cache>,
                     k: nat, target: Accounts, keccak: seq<nat> -> Hash, slot: SlotId)
    requires |b.txs| == |b.sets| && Good(b, s) && RoundFits(b, c, batches)
    requires RoundRan(b, s, c, batches, bases, models) && k < |batches|
    ensures var merged := Slots(Merged(target, models[k].accounts, models[k].dirties.Keys, keccak));
      var after := Committed(b, s, c + RoundIds(batches));
      && (slot in merged <==> slot in Slots(target))
      && (slot in merged && slot in after ==>
            MergedOrKept(merged[slot], Slots(target)[slot], after[slot], models[k], slot))
  {
    MergedSlots(target, models[k].accounts, models[k].dirties.Keys, keccak, slot);
    if slot in Slots(models[k].accounts) {
      MergeWritesCommitted(b, s, c, batches, bases, models, k, slot);
    }
  }

  ghost predicate MergedOrKept(merged: Hash, now: Hash, after: Hash, m: Cache, slot: SlotId) {
    merged == after || (merged == now && (slot.0 in m.dirties ==> slot !in Slots(m.accounts)))
  }

  lemma MergingOneMore(before: Storage, after: Storage, models: seq<Cache>, k: nat, now: Storage, merged: Storage)
    requires k < |models| && Merging(before, after, models, k, now) && AllMergedOrKept(now, after, models[k], merged)
    ensures Merging(before, after, models, k + 1, merged)
  {
  }

  lemma AllMerged(b: Block, s: Storage, c: set<nat>, batches: seq<Batch>, bases: seq<Accounts>, models: seq<Cache>,
                  now: Storage)
    requires |b.txs| == |b.sets| && Good(b, s) && RoundFits(b, c, batches)
    requires RoundRan(b, s, c, batches, bases, models)
    requires Merging(Committed(b, s, c), Committed(b, s, c + RoundIds(batches)), models, |models|, now)
    ensures now == Committed(b, s, c + RoundIds(batches))
  {
    PartKeys(b, s, c, |b.txs|);
    forall slot | slot in now ensures now[slot] == Committed(b, s, c + RoundIds(batches))[slot] {
      if now[slot] != Committed(b, s, c + RoundIds(batches))[slot] {
        UnmergedCommitted(b, s, c, batches, bases, models, slot);
      }
    }
  }

  lemma MergingStarts(b: Block, s: Storage, c: set<nat>, batches: seq<Batch>, models: seq<Cache>)
    requires |b.txs| == |b.sets|
    ensures Merging(Committed(b, s, c), Committed(b, s, c + RoundIds(batches)), models, 0, Committed(b, s, c))
  {
    PartKeys(b, s, c, |b.txs|);
    PartKeys(b, s, c + RoundIds(batches), |b.txs|);
  }

  /** Prefetches and runs every batch on a cache of its own. */
  method RunBatches(b: Block, batches: seq<Batch>, shared: SharedState, ghost s: Storage, ghost c: set<nat>)
    returns (caches: seq<CacheState>, ghost models: seq<Cache>, ghost bases: seq<Accounts>)
    requires |b.txs| == |b.sets| && Good(b, s) && DownClosed(b, c) && RoundFits(b, c, batches)
    requires Slots(shared.accounts) == Committed(b, s, c)
    ensures |caches| == |batches| && RoundRan(b, s, c, batches, bases, models)
    ensures forall k :: 0 <= k < |caches| ==> caches[k].Valid() && caches[k].Model() == models[k]
  {
    caches, models, bases := [], [], [];
    for k := 0 to |batches|
      invariant |caches| == k && |models| == k
      invariant forall i :: 0 <= i < k ==> caches[i].Valid() && caches[i].Model() == models[i]
      invariant RoundRan(b, s, c, batches[..k], bases, models)
    {
      caches, models, bases := RunNext(b, batches, k, shared, s, c, caches, models, bases);
    }
    assert batches[..|batches|] == batches;
  }

  method RunMember(b: Block, batches: seq<Batch>, k: nat, shared: SharedState, ghost s: Storage, ghost c: set<nat>)
    returns (cache: CacheState, ghost base: Accounts)
    requires |b.txs| == |b.sets| && Good(b, s) && DownClosed(b, c) && RoundFits(b, c, batches) && k < |batches|
    requires Slots(shared.accounts) == Committed(b, s, c)
    ensures fresh(cache) && cache.Valid()
    ensures BatchRan(b, s, c, batches[k], base, cache.Model())
  {
    GoodHolds(b, s, c, batches[k]);
    var errs;
    cache, errs, base := RunBatch(b, batches[k], shared);
    BatchMeans(b, s, c, batches[k], base);
  }

  method RunNext(b: Block, batches: seq<Batch>, k: nat, shared: SharedState, ghost s: Storage, ghost c: set<nat>,
                 caches: seq<CacheState>, ghost models: seq<Cache>, ghost bases: seq<Accounts>)
    returns (caches': seq<CacheState>, ghost models': seq<Cache>, ghost bases': seq<Accounts>)
    requires |b.txs| == |b.sets| && Good(b, s) && DownClosed(b, c) && RoundFits(b, c, batches) && k < |batches|
    requires Slots(shared.accounts) == Committed(b, s, c) && RoundRan(b, s, c, batches[..k], bases, models)
    requires |caches| == |models|
    requires forall i :: 0 <= i < |caches| ==> caches[i].Valid() && caches[i].Model() == models[i]
    ensures |caches'| == |models'| == |models| + 1
    ensures forall i :: 0 <= i < |caches'| ==> caches'[i].Valid() && caches'[i].Model() == models'[i]
    ensures RoundRan(b, s, c, batches[..k + 1], bases', models')
  {
    var cache;
    ghost var base;
    cache, base := RunMember(b, batches, k, shared, s, c);
    RanOneMore(b, s, c, batches, k, bases, models, base, cache.Model());
    caches', models', bases' := caches + [cache], models + [cache.Model()], bases + [base];
  }

  lemma RanOneMore(b: Block, s: Storage, c: set<nat>, batches: seq<Batch>, k: nat, bases: seq<Accounts>,
                   models: seq<Cache>, base: Accounts, model: Cache)
    requires |b.txs| == |b.sets| && k < |batches| && RoundRan(b, s, c, batches[..k], bases, models)
    requires BatchRan(b, s, c, batches[k], base, model)
    ensures RoundRan(b, s, c, batches[..k + 1], bases + [base], models + [model])
  {
  }

  method MergeToState(caches: seq<CacheState>, shared: SharedState, keccak: seq<nat> -> Hash, b: Block,
                      ghost s: Storage, ghost c: set<nat>, batches: seq<Batch>, ghost bases: seq<Accounts>,
                      ghost models: seq<Cache>)
    requires |b.txs| == |b.sets| && Good(b, s) && RoundFits(b, c, batches) && RoundRan(b, s, c, batches, bases, models)
    requires |caches| == |batches| && Slots(shared.accounts) == Committed(b, s, c)
    requires forall k :: 0 <= k < |caches| ==> caches[k].Valid() && caches[k].Model() == models[k]
    modifies shared`accounts
    ensures Slots(shared.accounts) == Committed(b, s, c + RoundIds(batches))
  {
    MergingStarts(b, s, c, batches, models);
    for k := 0 to |caches|
      invariant forall i :: 0 <= i < |caches| ==> caches[i].Valid() && caches[i].Model() == models[i]
      invariant Merging(Committed(b, s, c), Committed(b, s, c + RoundIds(batches)), models, k, Slots(shared.accounts))
    {
      MergeNext(caches[k], k, shared, keccak, b, s, c, batches, bases, models);
    }
    AllMerged(b, s, c, batches, bases, models, Slots(shared.accounts));
  }

  method MergeNext(cache: CacheState, ghost k: nat, shared: SharedState, keccak: seq<nat> -> Hash, ghost b: Block,
                   ghost s: Storage, ghost c: set<nat>, ghost batches: seq<Batch>, ghost bases: seq<Accounts>,
                   ghost models: seq<Cache>)
    requires |b.txs| == |b.sets| && Good(b, s) && RoundFits(b, c, batches) && RoundRan(b, s, c, batches, bases, models)
    requires k < |batches| && cache.Valid() && cache.Model() == models[k]
    requires Merging(Committed(b, s, c), Committed(b, s, c + RoundIds(batches)), models, k, Slots(shared.accounts))
    modifies shared`accounts
    ensures Merging(Committed(b, s, c), Committed(b, s, c + RoundIds(batches)), models, k + 1, Slots(shared.accounts))
  {
    ghost var next := Merged(shared.accounts, models[k].accounts, models[k].dirties.Keys, keccak);
    OneMoreMerged(b, s, c, batches, bases, models, k, shared.accounts, keccak);
    cache.MergeState(shared, keccak);
    assert shared.accounts == next;
  }

  /** A round of batches, then all merges. */
  method ExecuteRound(b: Block, batches: seq<Batch>, shared: SharedState, keccak: seq<nat> -> Hash,
                      ghost s: Storage, ghost c: set<nat>)
    requires |b.txs| == |b.sets| && Good(b, s) && DownClosed(b, c) && RoundFits(b, c, batches)
    requires Slots(shared.accounts) == Committed(b, s, c)
    modifies shared`accounts
    ensures Slots(shared.accounts) == Committed(b, s, c + RoundIds(batches)) && DownClosed(b, c + RoundIds(batches))
  {
    var caches;
    ghost var models, bases;
    caches, models, bases := RunBatches(b, batches, shared, s, c);
    MergeToState(caches, shared, keccak, b, s, c, batches, bases, models);
    RoundClosed(b, c, batches);
  }

  /** All rounds of a schedule that respects block order: the shared state ends as after the serial run. */
  method ExecuteSchedule(b: Block, schedule: seq<seq<Batch>>, shared: SharedState, keccak: seq<nat> -> Hash)
    requires |b.txs| == |b.sets| && Good(b, Slots(shared.accounts)) && ScheduleFits(b, {}, schedule)
    modifies shared`accounts
    ensures Slots(shared.accounts) == Serial(b, old(Slots(shared.accounts)))
  {
    ghost var s, c: set<nat> := Slots(shared.accounts), {};
    NothingCommitted(b, s, |b.txs|);
    assert schedule[0..] == schedule;
    for round := 0 to |schedule|
      invariant DownClosed(b, c) && ScheduleFits(b, c, schedule[round..])
      invariant Slots(shared.accounts) == Committed(b, s, c)
    {
      assert schedule[round..][0] == schedule[round] && schedule[round..][1..] == schedule[round + 1..];
      ExecuteRound(b, schedule[round], shared, keccak, s, c);
      c := c + RoundIds(schedule[round]);
    }
    PartIsBefore(b, s, Predicted(b), |b.txs|);
  }
}
