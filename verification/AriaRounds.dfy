/** An Aria round on cache states: everyone runs on the same starting state, and then the rule decides. */
module AriaRounds {
  import opened AccessLists
  import opened Aria
  import opened Caches
  import opened CacheRuns
  import opened CacheStates
  import opened Programs
  import opened Recorders
  import opened SharedStates
  import opened Stores

  /** The shared state holds every slot that will be prefetched. */
  ghost predicate HoldsRequested(shared: Storage, sets: seq<Access>) {
    forall a: Address, h: Hash :: Requested(sets, a, Slot(h)) ==> (a, h) in shared
  }

  /** The run touches only requested slots. */
  ghost predicate StaysInside(sets: seq<Access>, r: Direct) {
    forall slot :: slot in Touched(r) ==> Requested(sets, slot.0, Slot(slot.1))
  }

  lemma FetchedFromShared(shared: Accounts, sets: seq<Access>, now: Accounts, done: ALTuple, got: ALTuple)
    requires Fetching(map[], shared, map[], now, done, got) && HoldsRequested(Slots(shared), sets)
    requires forall a, key :: Contains(done, a, key) <==> Requested(sets, a, key)
    ensures FetchedSlots(Slots(shared), sets, Slots(now))
  {
    PrefetchedSlots(shared, sets, now, done, got);
    forall slot: SlotId
      ensures slot in Slots(now) <==> Requested(sets, slot.0, Slot(slot.1))
      ensures slot in Slots(now) ==> slot in Slots(shared) && Slots(now)[slot] == Slots(shared)[slot]
    {
      assert slot == (slot.0, slot.1);
      SlotsAt(shared, slot.0, slot.1);
    }
  }

  /**
   * What a transaction's own execution tells: it failed exactly if the core does not accept it, its prediction was
   * false exactly if its run on the starting state leaves it, and otherwise the record is exactly what that run
   * touches.
   */
  ghost predicate Told(shared: Storage, sets: seq<Access>, tx: Tx, recorded: Access, ending: Ending) {
    && (ending == Failed <==> !tx.fate.Accepted?)
    && (ending == FalsePredict <==> !StaysInside(sets, Outcome(shared, tx)))
    && (ending != FalsePredict ==> Records(recorded, Outcome(shared, tx)))
  }

  /** The cached slots are the requested ones, with the shared state's values. */
  ghost predicate FetchedSlots(shared: Storage, sets: seq<Access>, cached: Storage) {
    && (forall slot :: slot in cached <==> Requested(sets, slot.0, Slot(slot.1)))
    && (forall slot :: slot in cached ==> slot in shared && cached[slot] == shared[slot])
  }

  /** A new cache, prefetched with what is requested. */
  method PrefetchSnapshot(shared: SharedState, sets: seq<Access>) returns (cache: CacheState)
    requires HoldsRequested(Slots(shared.accounts), sets)
    ensures fresh(cache) && fresh(cache.journal) && fresh(cache.objects)
    ensures cache.Valid() && cache.Model() == Fresh(cache.view)
    ensures FetchedSlots(Slots(shared.accounts), sets, Slots(cache.view))
  {
    cache := new CacheState();
    ghost var got := cache.Prefetch(shared.accounts, sets);
    FetchedFromShared(shared.accounts, sets, cache.view, cache.prefetched, got);
  }

  lemma RunTold(shared: Storage, sets: seq<Access>, tx: Tx, base: Accounts, d: Cache, ending: Ending,
                recorded: Access)
    requires FetchedSlots(shared, sets, Slots(base))
    requires Means(Fresh(base), base, tx, d, ending) && Records(recorded, Outcome(Slots(base), tx))
    ensures Told(shared, sets, tx, recorded, ending)
  {
    if ending != FalsePredict {
      RecordIsOfBase(Slots(base), shared, tx, recorded);
      assert Outcome(shared, tx) == Outcome(Slots(base), tx);
    } else if StaysInside(sets, Outcome(shared, tx)) {
      Framed(shared, Slots(base), tx);
    }
  }

  method RecordOn(cache: CacheState, tx: Tx, ghost base: Accounts) returns (recorded: Access, err: Ending)
    requires cache.Valid() && cache.Model() == Fresh(base)
    modifies cache, cache.journal, cache.objects
    ensures cache.Valid()
    ensures Means(Fresh(base), base, tx, cache.Model(), err) && Records(recorded, Outcome(Slots(base), tx))
  {
    var snapshot := new StateWithRwSets(cache);
    var rwSet := new RWSet();
    snapshot.SetRWSet(rwSet);
    err := ExecuteRecorded(snapshot, rwSet, tx, base);
    recorded := Access(rwSet.readSet, rwSet.writeSet);
  }

  /** One transaction on its own recorded cache. */
  method ExecOnSnapshot(shared: SharedState, sets: seq<Access>, tx: Tx)
    returns (cache: CacheState, recorded: Access, err: Ending, ghost base: Accounts)
    requires HoldsRequested(Slots(shared.accounts), sets)
    ensures fresh(cache) && cache.Valid()
    ensures FetchedSlots(Slots(shared.accounts), sets, Slots(base))
    ensures Means(Fresh(base), base, tx, cache.Model(), err)
    ensures Told(Slots(shared.accounts), sets, tx, recorded, err)
  {
    cache := PrefetchSnapshot(shared, sets);
    base := cache.view;
    recorded, err := RecordOn(cache, tx, base);
    RunTold(Slots(shared.accounts), sets, tx, base, cache.Model(), err, recorded);
  }

  /** What one transaction's execution on its own cache amounts to. */
  ghost predicate RanOn(shared: Storage, sets: seq<Access>, tx: Tx, base: Accounts, model: Cache, recorded: Access,
                        ending: Ending)
  {
    && FetchedSlots(shared, sets, Slots(base)) && Means(Fresh(base), base, tx, model, ending)
    && Told(shared, sets, tx, recorded, ending)
  }

  /** The caches of a round as values: what each was prefetched with, and how it ended. */
  datatype Trace = Trace(base: Accounts, model: Cache)

  ghost predicate AllRan(shared: Storage, sets: seq<seq<Access>>, txs: seq<Tx>, traces: seq<Trace>,
                         recorded: seq<Access>, endings: seq<Ending>)
  {
    && |sets| == |txs| == |traces| == |recorded| == |endings|
    && forall i :: 0 <= i < |txs| ==>
         RanOn(shared, sets[i], txs[i], traces[i].base, traces[i].model, recorded[i], endings[i])
  }

  /** All transactions, each on its own cache over the same starting state. */
  method ExecWithSnapshotState(shared: SharedState, sets: seq<seq<Access>>, txs: seq<Tx>)
    returns (caches: seq<CacheState>, recorded: seq<Access>, endings: seq<Ending>, ghost traces: seq<Trace>)
    requires |sets| == |txs| && forall i :: 0 <= i < |sets| ==> HoldsRequested(Slots(shared.accounts), sets[i])
    ensures AllRan(Slots(shared.accounts), sets, txs, traces, recorded, endings) && |caches| == |txs|
    ensures forall i :: 0 <= i < |caches| ==> caches[i].Valid() && caches[i].Model() == traces[i].model
  {
    caches, recorded, endings, traces := [], [], [], [];
    for i := 0 to |txs|
      invariant |caches| == i && AllRan(Slots(shared.accounts), sets[..i], txs[..i], traces, recorded, endings)
      invariant forall k :: 0 <= k < i ==> caches[k].Valid() && caches[k].Model() == traces[k].model
    {
      var cache, access, ending;
      ghost var trace;
      cache, access, ending, trace := ExecTraced(shared, sets[i], txs[i]);
      RanOneMore(Slots(shared.accounts), sets, txs, i, traces, recorded, endings, trace, access, ending);
      caches, recorded, endings := caches + [cache], recorded + [access], endings + [ending];
      traces := traces + [trace];
    }
    assert sets[..|txs|] == sets && txs[..|txs|] == txs;
  }

  method ExecTraced(shared: SharedState, sets: seq<Access>, tx: Tx)
    returns (cache: CacheState, recorded: Access, err: Ending, ghost trace: Trace)
    requires HoldsRequested(Slots(shared.accounts), sets)
    ensures fresh(cache) && cache.Valid() && cache.Model() == trace.model
    ensures RanOn(Slots(shared.accounts), sets, tx, trace.base, trace.model, recorded, err)
  {
    ghost var base;
    cache, recorded, err, base := ExecOnSnapshot(shared, sets, tx);
    trace := Trace(base, cache.Model());
  }

  lemma RanOneMore(shared: Storage, sets: seq<seq<Access>>, txs: seq<Tx>, i: nat, traces: seq<Trace>,
                   recorded: seq<Access>, endings: seq<Ending>, trace: Trace, access: Access, ending: Ending)
    requires i < |txs| == |sets| && AllRan(shared, sets[..i], txs[..i], traces, recorded, endings)
    requires RanOn(shared, sets[i], txs[i], trace.base, trace.model, access, ending)
    ensures AllRan(shared, sets[..i + 1], txs[..i + 1], traces + [trace], recorded + [access], endings + [ending])
  {
    var more, list := traces + [trace], txs[..i + 1];
    forall k | 0 <= k < |list|
      ensures RanOn(shared, sets[..i + 1][k], list[k], more[k].base, more[k].model, (recorded + [access])[k],
                    (endings + [ending])[k])
    {
      if k < i {
        assert RanOn(shared, sets[..i][k], txs[..i][k], traces[k].base, traces[k].model, recorded[k], endings[k]);
      }
    }
  }

  /**
   * The committed transactions whose predictions held have an order in which, run one after the other on the round's
   * starting state, each does exactly what it did in the round.
   */
  ghost predicate Serializable(s: Storage, txs: seq<Tx>, endings: seq<Ending>, commit: seq<nat>, order: seq<nat>) {
    && |endings| == |txs|
    && (forall i: nat :: i in order <==> i in commit && i < |txs| && endings[i] == Ran)
    && (forall k :: 0 <= k < |order| ==> order[k] < |txs|)
    && forall k :: 0 <= k < |order| ==> SameRun(s, txs, order, k)
  }

  /** The k-th transaction of the order, run after those before it, does what it does on the starting state. */
  ghost predicate SameRun(s: Storage, txs: seq<Tx>, order: seq<nat>, k: nat)
    requires k < |order| && forall i :: 0 <= i < |order| ==> order[i] < |txs|
  {
    Outcome(RunInOrder(s, txs, order, k), txs[order[k]]) == Outcome(s, txs[order[k]])
  }

  lemma CommittedSerialize(s: Storage, txs: seq<Tx>, recorded: seq<Access>, endings: seq<Ending>, rest: seq<nat>,
                           commit: seq<nat>) returns (order: seq<nat>)
    requires |recorded| == |endings| == |txs| && Split(recorded, endings, |txs|, rest, commit)
    requires forall i :: 0 <= i < |txs| && endings[i] == Ran ==> Records(recorded[i], Outcome(s, txs[i]))
    ensures Serializable(s, txs, endings, commit, order)
  {
    var ids := set i | i in commit && i < |txs| && endings[i] == Ran;
    order := SerialOrderExists(recorded, endings, ids);
    forall k | 0 <= k < |order|
      ensures order[k] < |txs| && Records(recorded[order[k]], Outcome(s, txs[order[k]]))
    {
      assert order[k] in ids;
    }
    forall k | 0 <= k < |order|
      ensures SameRun(s, txs, order, k)
    {
      ReadsStartingValues(s, txs, recorded, endings, order, k);
    }
  }

  /** The whole round up to the merge: run, reserve, decide; order is the serial order it amounts to. */
  method AriaRound(shared: SharedState, sets: seq<seq<Access>>, txs: seq<Tx>)
    returns (rest: seq<nat>, commit: seq<nat>, caches: seq<CacheState>, recorded: seq<Access>, endings: seq<Ending>,
             ghost traces: seq<Trace>, ghost order: seq<nat>)
    requires |sets| == |txs| && forall i :: 0 <= i < |sets| ==> HoldsRequested(Slots(shared.accounts), sets[i])
    ensures AllRan(Slots(shared.accounts), sets, txs, traces, recorded, endings) && |caches| == |txs|
    ensures forall i :: 0 <= i < |caches| ==> caches[i].Valid() && caches[i].Model() == traces[i].model
    ensures Split(recorded, endings, |txs|, rest, commit)
    ensures Serializable(Slots(shared.accounts), txs, endings, commit, order)
  {
    caches, recorded, endings, traces := ExecWithSnapshotState(shared, sets, txs);
    rest, commit := AriaOneRound(recorded, endings);
    AllTold(Slots(shared.accounts), sets, txs, traces, recorded, endings);
    order := CommittedSerialize(Slots(shared.accounts), txs, recorded, endings, rest, commit);
  }

  lemma AllTold(shared: Storage, sets: seq<seq<Access>>, txs: seq<Tx>, traces: seq<Trace>, recorded: seq<Access>,
                endings: seq<Ending>)
    requires AllRan(shared, sets, txs, traces, recorded, endings)
    ensures forall i :: 0 <= i < |txs| && endings[i] == Ran ==> Records(recorded[i], Outcome(shared, txs[i]))
  {
    forall i | 0 <= i < |txs| && endings[i] == Ran
      ensures Records(recorded[i], Outcome(shared, txs[i]))
    {
      assert RanOn(shared, sets[i], txs[i], traces[i].base, traces[i].model, recorded[i], endings[i]);
    }
  }

  /**
   * A transaction is lost, neither handed on to the next round nor run in the serial order, exactly if its prediction
   * was false and the rule has nothing else against it: its effects were undone, and utils/aria.go:41 does not count
   * that as a failure.
   */
  lemma LostExactly(txs: seq<Tx>, recorded: seq<Access>, endings: seq<Ending>, rest: seq<nat>, commit: seq<nat>, i: nat)
    requires |recorded| == |endings| == |txs| && Split(recorded, endings, |txs|, rest, commit) && i < |txs|
    ensures i !in rest && !(i in commit && endings[i] == Ran) <==>
      && endings[i] == FalsePredict
      && !EarlierWrites(recorded, i, recorded[i].writeSet)
      && !(EarlierReads(recorded, i, recorded[i].writeSet) && ReadHazard(recorded, i))
  {
  }

  /** A transaction that loads one slot, with an empty prediction, in a round of its own: lost, on every storage. */
  lemma UnpredictedLoadIsLost(s: Storage, slot: SlotId, traces: seq<Trace>, recorded: seq<Access>, endings: seq<Ending>,
                              rest: seq<nat>, commit: seq<nat>)
    requires var tx := Tx((step: nat, loads: seq<Hash>) => Load(slot), 1, Accepted);
      AllRan(s, [[]], [tx], traces, recorded, endings) && Split(recorded, endings, 1, rest, commit)
    ensures 0 !in rest && endings[0] == FalsePredict
  {
    var tx := Tx((step: nat, loads: seq<Hash>) => Load(slot), 1, Accepted);
    assert RanOn(s, [], tx, traces[0].base, traces[0].model, recorded[0], endings[0]);
    assert Exec(s, tx, START, 1) == Tick(s, tx, START);
    assert slot in Touched(Outcome(s, tx));
    LostExactly([tx], recorded, endings, rest, commit, 0);
  }
}
