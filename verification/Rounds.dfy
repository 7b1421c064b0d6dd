/**
 * One round of parallel execution: every batch runs its transactions on its own cache, prefetched from the shared
 * storage, and then all caches are merged, their slot writes interleaved in any way.
 */
module Rounds {
  import opened AccessLists
  import opened Caches
  import opened CacheRuns
  import opened Programs
  import opened Schedules
  import opened Stores
  import R = Reachability

  /** The ids of the transactions of one batch, in the order it runs them. */
  type Batch = seq<nat>

  /** The ids of all transactions of a round. */
  ghost function RoundIds(batches: seq<Batch>): set<nat> {
    set i, j | 0 <= i < |batches| && j in batches[i] :: j
  }

  /** Each transaction of the batch is ready once those before it in the batch are added to c. */
  ghost predicate Sequenced(b: Block, c: set<nat>, batch: Batch) {
    forall p :: 0 <= p < |batch| ==> Ready(b, c + R.Members(batch[..p]), batch[p])
  }

  ghost predicate RoundFits(b: Block, c: set<nat>, batches: seq<Batch>) {
    && (forall i :: 0 <= i < |batches| ==> Sequenced(b, c, batches[i]))
    && (forall i, k :: 0 <= i < k < |batches| ==> R.Members(batches[i]) !! R.Members(batches[k]))
  }

  ghost predicate NamedBy(b: Block, batch: Batch, slot: SlotId) {
    exists j :: j in batch && j in Predicted(b) && Names(b.sets[j].value, slot)
  }

  /** The cached slots are those the batch's transactions name, with the shared storage's values. */
  ghost predicate PrefetchedFor(b: Block, shared: Storage, batch: Batch, cached: Storage) {
    && (forall slot :: slot in cached <==> NamedBy(b, batch, slot))
    && (forall slot :: slot in cached ==> slot in shared && cached[slot] == shared[slot])
  }

  ghost predicate InBlock(b: Block, batch: Batch) {
    forall p :: 0 <= p < |batch| ==> batch[p] < |b.txs|
  }

  function TxsOf(b: Block, batch: Batch): seq<Tx>
    requires InBlock(b, batch)
  {
    seq(|batch|, p requires 0 <= p < |batch| => b.txs[batch[p]])
  }

  // ---------- one batch ----------

  /** The cache shows the committed values on the slots the batch names, and rewinds to what was prefetched. */
  ghost predicate InStep(b: Block, s: Storage, batch: Batch, base: Accounts, done: set<nat>, c: Cache)
    requires |b.txs| == |b.sets|
  {
    && Valid(c) && c.judge
    && Rewound(c.accounts, c.entries, 0) == base
    && Slots(c.accounts).Keys == Slots(base).Keys
    && (forall slot :: slot in Slots(base) <==> NamedBy(b, batch, slot))
    && forall slot :: slot in Slots(c.accounts) ==>
         slot in Committed(b, s, done) && Slots(c.accounts)[slot] == Committed(b, s, done)[slot]
  }

  lemma CommitValue(s: Storage, delta: Storage, t: Storage, slot: SlotId)
    requires slot in s && slot in t && s[slot] == t[slot]
    ensures Commit(s, delta)[slot] == Commit(t, delta)[slot]
  {
  }

  /** One more transaction of the batch, run on its cache. */
  lemma StaysInStep(b: Block, s: Storage, batch: Batch, base: Accounts, done: set<nat>, c: Cache, j: nat)
    requires |b.txs| == |b.sets| && Good(b, s) && DownClosed(b, done) && Ready(b, done, j) && j in batch
    requires InStep(b, s, batch, base, done, c)
    ensures var r := ExecuteTx(c, b.txs[j]);
      r.Some? && r.value.1 != FalsePredict && InStep(b, s, batch, base, done + {j}, r.value.0)
  {
    var local, tx := Slots(c.accounts), b.txs[j];
    forall slot | Names(b.sets[j].value, slot) ensures slot in local {
      assert NamedBy(b, batch, slot);
    }
    ReadyRuns(b, s, done, j, local);
    ExecuteTxMeans(c, base, tx);
    CommitReady(b, s, done, j);
    var after := Slots(ExecuteTx(c, tx).value.0.accounts);
    forall slot | slot in after
      ensures slot in Committed(b, s, done + {j}) && after[slot] == Committed(b, s, done + {j})[slot]
    {
      CommitValue(local, Delta(b, s, j), Committed(b, s, done), slot);
    }
  }

  lemma ListStep(c: Cache, txs: seq<Tx>)
    requires |txs| > 0 && ExecuteTx(c, txs[0]).Some?
    ensures var first := ExecuteTx(c, txs[0]).value;
      && ExecuteTxs(c, txs) == ExecuteTxs(first.0, txs[1..])
      && Endings(c, txs) == [first.1] + Endings(first.0, txs[1..])
  {
  }

  lemma {:induction false} BatchRuns(b: Block, s: Storage, c: set<nat>, batch: Batch, base: Accounts, p: nat,
                                     cache: Cache)
    requires p <= |batch| && InBlock(b, batch)
    requires |b.txs| == |b.sets| && Good(b, s) && DownClosed(b, c + R.Members(batch[..p])) && Sequenced(b, c, batch)
    requires InStep(b, s, batch, base, c + R.Members(batch[..p]), cache)
    ensures var r := ExecuteTxs(cache, TxsOf(b, batch)[p..]);
      r.Some? && InStep(b, s, batch, base, c + R.Members(batch), r.value)
    ensures FalsePredict !in Endings(cache, TxsOf(b, batch)[p..])
    decreases |batch| - p
  {
    var rest := TxsOf(b, batch)[p..];
    if p == |batch| {
      assert batch[..p] == batch;
    } else {
      var done := c + R.Members(batch[..p]);
      assert Ready(b, done, batch[p]);
      StaysInStep(b, s, batch, base, done, cache, batch[p]);
      ReadyKeepsClosed(b, done, batch[p]);
      assert c + R.Members(batch[..p + 1]) == done + {batch[p]};
      assert rest[0] == b.txs[batch[p]] && rest[1..] == TxsOf(b, batch)[p + 1..];
      ListStep(cache, rest);
      BatchRuns(b, s, c, batch, base, p + 1, ExecuteTx(cache, rest[0]).value.0);
    }
  }

  /** A whole batch on a freshly prefetched cache: no false prediction, and the block-order values at the end. */
  lemma BatchMeans(b: Block, s: Storage, c: set<nat>, batch: Batch, base: Accounts)
    requires |b.txs| == |b.sets| && Good(b, s) && DownClosed(b, c) && Sequenced(b, c, batch)
    requires InBlock(b, batch)
    requires PrefetchedFor(b, Committed(b, s, c), batch, Slots(base))
    ensures var r := ExecuteTxs(Fresh(base), TxsOf(b, batch));
      r.Some? && InStep(b, s, batch, base, c + R.Members(batch), r.value)
    ensures FalsePredict !in Endings(Fresh(base), TxsOf(b, batch))
  {
    assert c + R.Members(batch[..0]) == c;
    assert TxsOf(b, batch)[0..] == TxsOf(b, batch);
    BatchRuns(b, s, c, batch, base, 0, Fresh(base));
  }

  // ---------- the merge ----------

  datatype SlotWrite = SlotWrite(slot: SlotId, value: Hash)

  /** Merging a cache writes every cached slot of every dirty account, read-only slots included. */
  ghost predicate Merges(c: Cache, w: SlotWrite) {
    w.slot.0 in c.dirties && w.slot in Slots(c.accounts) && Slots(c.accounts)[w.slot] == w.value
  }

  function Put(s: Storage, w: SlotWrite): Storage {
    if w.slot in s then s[w.slot := w.value] else s
  }

  function PutAll(s: Storage, writes: seq<SlotWrite>): Storage {
    if |writes| == 0 then s else PutAll(Put(s, writes[0]), writes[1..])
  }

  /** The writes of all merges, one by one, in any order. */
  ghost predicate Interleaves(caches: seq<Cache>, writes: seq<SlotWrite>) {
    && (forall i :: 0 <= i < |writes| ==> exists k :: 0 <= k < |caches| && Merges(caches[k], writes[i]))
    && (forall k, w :: 0 <= k < |caches| && Merges(caches[k], w) ==> w in writes)
  }

  lemma {:induction false} PutAllAgreed(s: Storage, writes: seq<SlotWrite>, slot: SlotId, value: Hash)
    requires slot in s
    requires forall i :: 0 <= i < |writes| && writes[i].slot == slot ==> writes[i].value == value
    requires s[slot] == value || exists i :: 0 <= i < |writes| && writes[i].slot == slot
    ensures slot in PutAll(s, writes) && PutAll(s, writes)[slot] == value
  {
    if |writes| > 0 {
      var rest := writes[1..];
      if s[slot] != value && writes[0].slot != slot {
        var i :| 0 <= i < |writes| && writes[i].slot == slot;
        assert rest[i - 1].slot == slot;
      }
      PutAllAgreed(Put(s, writes[0]), rest, slot, value);
    }
  }

  lemma {:induction false} PutAllKeys(s: Storage, writes: seq<SlotWrite>)
    ensures PutAll(s, writes).Keys == s.Keys
  {
    if |writes| > 0 {
      PutAllKeys(Put(s, writes[0]), writes[1..]);
    }
  }

  /** A slot that differs from its prefetched value belongs to a dirty account. */
  lemma ChangedIsDirty(base: Accounts, c: Cache, slot: SlotId)
    requires Valid(c) && Rewound(c.accounts, c.entries, 0) == base
    requires slot in Slots(c.accounts) && slot in Slots(base) && Slots(c.accounts)[slot] != Slots(base)[slot]
    ensures slot.0 in c.dirties
  {
    DirtyExists(c, slot.0);
    if slot.0 !in c.dirties {
      forall i | 0 <= i < |c.entries| ensures c.entries[i].account != slot.0 {
        assert Addresses(c.entries)[i] in Addresses(c.entries);
      }
      UntouchedSame(c.accounts, c.entries, 0, slot.0);
    }
  }

  // ---------- a round ----------

  /** A member of a batch is predicted, new, and has its earlier conflicts in c or in its own batch. */
  lemma MemberReady(b: Block, c: set<nat>, batch: Batch, j: nat)
    requires Sequenced(b, c, batch) && j in batch
    ensures j in Predicted(b) && j !in c
    ensures forall i :: i in Predicted(b) && i < j && Conflicting(b, j, i) ==> i in c || i in batch
  {
  }

  lemma RoundClosed(b: Block, c: set<nat>, batches: seq<Batch>)
    requires DownClosed(b, c) && RoundFits(b, c, batches)
    ensures DownClosed(b, c + RoundIds(batches))
  {
    forall i | i in c + RoundIds(batches)
      ensures i in Predicted(b)
      ensures forall j :: j in Predicted(b) && j < i && Conflicting(b, i, j) ==> j in c + RoundIds(batches)
    {
      if i !in c {
        var k :| 0 <= k < |batches| && i in batches[k];
        MemberReady(b, c, batches[k], i);
        assert forall j :: j in batches[k] ==> j in RoundIds(batches);
      }
    }
  }

  /** Transactions of different batches of a round do not conflict. */
  lemma BatchesApart(b: Block, c: set<nat>, batches: seq<Batch>, i: nat, k: nat, j: nat, m: nat)
    requires RoundFits(b, c, batches) && i < |batches| && k < |batches| && i != k && j in batches[i] && m in batches[k]
    ensures j in Predicted(b) && m in Predicted(b) && j != m && !Conflicting(b, j, m)
  {
    MemberReady(b, c, batches[i], j);
    MemberReady(b, c, batches[k], m);
    assert j in R.Members(batches[i]) && m in R.Members(batches[k]);
    assert R.Members(batches[i]) !! R.Members(batches[k]);
    ConflictSymmetric(b.sets[j].value, b.sets[m].value);
  }

  /** What a transaction of one batch writes, no other batch names. */
  lemma WritesApart(b: Block, s: Storage, c: set<nat>, batches: seq<Batch>, i: nat, k: nat, j: nat, slot: SlotId)
    requires |b.txs| == |b.sets| && Good(b, s) && RoundFits(b, c, batches)
    requires i < |batches| && k < |batches| && i != k && j in batches[i] && NamedBy(b, batches[k], slot)
    ensures j < |b.txs| && slot !in Delta(b, s, j)
  {
    var m :| m in batches[k] && m in Predicted(b) && Names(b.sets[m].value, slot);
    BatchesApart(b, c, batches, i, k, j, m);
    WriterConflicts(b, s, j, m, slot);
  }

  lemma WriterConflicts(b: Block, s: Storage, j: nat, m: nat, slot: SlotId)
    requires |b.txs| == |b.sets| && Good(b, s) && j in Predicted(b) && m in Predicted(b)
    requires Names(b.sets[m].value, slot)
    ensures slot in Delta(b, s, j) ==> Conflicting(b, j, m)
  {
    if slot in Delta(b, s, j) {
      DeltaNamed(b, s, j, slot);
      SharedSlotConflicts(b.sets[j].value, b.sets[m].value, slot);
    }
  }

  lemma WritesNamed(b: Block, s: Storage, c: set<nat>, batch: Batch, j: nat, slot: SlotId)
    requires |b.txs| == |b.sets| && Good(b, s) && Sequenced(b, c, batch) && j in batch
    ensures j in Predicted(b) && (slot in Delta(b, s, j) ==> NamedBy(b, batch, slot))
  {
    MemberReady(b, c, batch, j);
    if slot in Delta(b, s, j) {
      DeltaNamed(b, s, j, slot);
    }
  }

  /** On the slots a batch names, the whole round commits what the batch alone commits. */
  lemma OwnBatchDecides(b: Block, s: Storage, c: set<nat>, batches: seq<Batch>, k: nat, slot: SlotId)
    requires |b.txs| == |b.sets| && Good(b, s) && RoundFits(b, c, batches) && slot in s
    requires k < |batches| && NamedBy(b, batches[k], slot)
    ensures slot in Committed(b, s, c + RoundIds(batches)) && slot in Committed(b, s, c + R.Members(batches[k]))
    ensures Committed(b, s, c + RoundIds(batches))[slot] == Committed(b, s, c + R.Members(batches[k]))[slot]
  {
    var one, all := c + R.Members(batches[k]), c + RoundIds(batches);
    forall j | 0 <= j < |b.txs| && (j in one) != (j in all) ensures slot !in Delta(b, s, j) {
      assert j in batches[k] ==> j in RoundIds(batches);
      var i :| 0 <= i < |batches| && j in batches[i];
      WritesApart(b, s, c, batches, i, k, j, slot);
    }
    PartsAgree(b, s, one, all, slot, |b.txs|);
  }

  /** A slot no batch names keeps its value. */
  lemma UnnamedKept(b: Block, s: Storage, c: set<nat>, batches: seq<Batch>, slot: SlotId)
    requires |b.txs| == |b.sets| && Good(b, s) && RoundFits(b, c, batches) && slot in s
    requires forall k :: 0 <= k < |batches| ==> !NamedBy(b, batches[k], slot)
    ensures slot in Committed(b, s, c) && slot in Committed(b, s, c + RoundIds(batches))
    ensures Committed(b, s, c + RoundIds(batches))[slot] == Committed(b, s, c)[slot]
  {
    forall j | 0 <= j < |b.txs| && (j in c) != (j in c + RoundIds(batches)) ensures slot !in Delta(b, s, j) {
      var k :| 0 <= k < |batches| && j in batches[k];
      WritesNamed(b, s, c, batches[k], j, slot);
    }
    PartsAgree(b, s, c, c + RoundIds(batches), slot, |b.txs|);
  }

  ghost predicate BatchRan(b: Block, s: Storage, c: set<nat>, batch: Batch, base: Accounts, cache: Cache)
    requires |b.txs| == |b.sets|
  {
    && PrefetchedFor(b, Committed(b, s, c), batch, Slots(base))
    && InStep(b, s, batch, base, c + R.Members(batch), cache)
  }

  /** The caches at the end of the round, each prefetched from the shared storage the round started with. */
  ghost predicate RoundRan(b: Block, s: Storage, c: set<nat>, batches: seq<Batch>, bases: seq<Accounts>,
                           caches: seq<Cache>)
    requires |b.txs| == |b.sets|
  {
    && |bases| == |batches| && |caches| == |batches|
    && forall k :: 0 <= k < |batches| ==> BatchRan(b, s, c, batches[k], bases[k], caches[k])
  }

  /** What a merge writes is what the block-order commit of the round holds. */
  lemma MergeWritesCommitted(b: Block, s: Storage, c: set<nat>, batches: seq<Batch>, bases: seq<Accounts>,
                             caches: seq<Cache>, k: nat, slot: SlotId)
    requires |b.txs| == |b.sets| && Good(b, s) && RoundFits(b, c, batches)
    requires RoundRan(b, s, c, batches, bases, caches) && k < |batches| && slot in Slots(caches[k].accounts)
    ensures slot in s && slot in Committed(b, s, c + RoundIds(batches))
    ensures Slots(caches[k].accounts)[slot] == Committed(b, s, c + RoundIds(batches))[slot]
  {
    assert BatchRan(b, s, c, batches[k], bases[k], caches[k]);
    assert NamedBy(b, batches[k], slot);
    PartKeys(b, s, c, |b.txs|);
    OwnBatchDecides(b, s, c, batches, k, slot);
  }

  /** A slot that no merge writes already has its committed value. */
  lemma UnmergedCommitted(b: Block, s: Storage, c: set<nat>, batches: seq<Batch>, bases: seq<Accounts>,
                          caches: seq<Cache>, slot: SlotId)
    requires |b.txs| == |b.sets| && Good(b, s) && RoundFits(b, c, batches) && slot in s
    requires RoundRan(b, s, c, batches, bases, caches)
    requires forall k :: 0 <= k < |batches| && slot in Slots(caches[k].accounts) ==> slot.0 !in caches[k].dirties
    ensures slot in Committed(b, s, c) && slot in Committed(b, s, c + RoundIds(batches))
    ensures Committed(b, s, c + RoundIds(batches))[slot] == Committed(b, s, c)[slot]
  {
    if k :| 0 <= k < |batches| && NamedBy(b, batches[k], slot) {
      assert BatchRan(b, s, c, batches[k], bases[k], caches[k]);
      assert slot in Slots(bases[k]);
      if Slots(caches[k].accounts)[slot] != Slots(bases[k])[slot] {
        ChangedIsDirty(bases[k], caches[k], slot);
      }
      MergeWritesCommitted(b, s, c, batches, bases, caches, k, slot);
    } else {
      UnnamedKept(b, s, c, batches, slot);
    }
  }

  lemma InterleavedWrite(b: Block, s: Storage, c: set<nat>, batches: seq<Batch>, bases: seq<Accounts>,
                         caches: seq<Cache>, writes: seq<SlotWrite>, i: nat)
    requires |b.txs| == |b.sets| && Good(b, s) && RoundFits(b, c, batches)
    requires RoundRan(b, s, c, batches, bases, caches) && Interleaves(caches, writes) && i < |writes|
    ensures writes[i].slot in Committed(b, s, c + RoundIds(batches))
    ensures writes[i].value == Committed(b, s, c + RoundIds(batches))[writes[i].slot]
  {
    var k :| 0 <= k < |caches| && Merges(caches[k], writes[i]);
    MergeWritesCommitted(b, s, c, batches, bases, caches, k, writes[i].slot);
  }

  lemma NeverWritten(b: Block, s: Storage, c: set<nat>, batches: seq<Batch>, bases: seq<Accounts>,
                     caches: seq<Cache>, writes: seq<SlotWrite>, slot: SlotId)
    requires |b.txs| == |b.sets| && Good(b, s) && RoundFits(b, c, batches) && slot in s
    requires RoundRan(b, s, c, batches, bases, caches) && Interleaves(caches, writes)
    requires forall i :: 0 <= i < |writes| ==> writes[i].slot != slot
    ensures slot in Committed(b, s, c) && slot in Committed(b, s, c + RoundIds(batches))
    ensures Committed(b, s, c + RoundIds(batches))[slot] == Committed(b, s, c)[slot]
  {
    forall k | 0 <= k < |batches| && slot in Slots(caches[k].accounts) ensures slot.0 !in caches[k].dirties {
      var w := SlotWrite(slot, Slots(caches[k].accounts)[slot]);
      assert w !in writes;
      assert !Merges(caches[k], w);
    }
    UnmergedCommitted(b, s, c, batches, bases, caches, slot);
  }

  /** Any interleaving of the merges of a round takes the committed storage to the next committed storage. */
  lemma AnyInterleavingCommits(b: Block, s: Storage, c: set<nat>, batches: seq<Batch>, bases: seq<Accounts>,
                               caches: seq<Cache>, writes: seq<SlotWrite>)
    requires |b.txs| == |b.sets| && Good(b, s) && RoundFits(b, c, batches)
    requires RoundRan(b, s, c, batches, bases, caches) && Interleaves(caches, writes)
    ensures PutAll(Committed(b, s, c), writes) == Committed(b, s, c + RoundIds(batches))
  {
    var before, after := Committed(b, s, c), Committed(b, s, c + RoundIds(batches));
    PartKeys(b, s, c, |b.txs|);
    PartKeys(b, s, c + RoundIds(batches), |b.txs|);
    PutAllKeys(before, writes);
    forall i | 0 <= i < |writes| ensures writes[i].slot in after && writes[i].value == after[writes[i].slot] {
      InterleavedWrite(b, s, c, batches, bases, caches, writes, i);
    }
    forall slot | slot in s ensures PutAll(before, writes)[slot] == after[slot] {
      if forall i :: 0 <= i < |writes| ==> writes[i].slot != slot {
        NeverWritten(b, s, c, batches, bases, caches, writes, slot);
      }
      PutAllAgreed(before, writes, slot, after[slot]);
    }
  }

  // ---------- many rounds ----------

  /** One round as it happened: its batches, what their caches were prefetched with and ended as, the merge writes. */
  datatype Round = Round(batches: seq<Batch>, bases: seq<Accounts>, caches: seq<Cache>, writes: seq<SlotWrite>)

  ghost predicate RoundHappens(b: Block, shared: Storage, r: Round) {
    && |r.bases| == |r.batches| && |r.caches| == |r.batches|
    && (forall k :: 0 <= k < |r.batches| ==>
         && InBlock(b, r.batches[k])
         && PrefetchedFor(b, shared, r.batches[k], Slots(r.bases[k]))
         && ExecuteTxs(Fresh(r.bases[k]), TxsOf(b, r.batches[k])) == Some(r.caches[k]))
    && Interleaves(r.caches, r.writes)
  }

  /** The shared storage after the rounds, each starting where the one before it ended. */
  function Final(shared: Storage, rounds: seq<Round>): Storage
    decreases |rounds|
  {
    if |rounds| == 0 then shared else Final(PutAll(shared, rounds[0].writes), rounds[1..])
  }

  ghost predicate Happens(b: Block, shared: Storage, rounds: seq<Round>)
    decreases |rounds|
  {
    |rounds| > 0 ==> RoundHappens(b, shared, rounds[0]) && Happens(b, PutAll(shared, rounds[0].writes), rounds[1..])
  }

  /** The rounds, after c was committed, respect the block order of conflicting transactions and run all the rest. */
  ghost predicate ScheduleFits(b: Block, c: set<nat>, schedule: seq<seq<Batch>>)
    decreases |schedule|
  {
    if |schedule| == 0 then c == Predicted(b)
    else RoundFits(b, c, schedule[0]) && ScheduleFits(b, c + RoundIds(schedule[0]), schedule[1..])
  }

  function Schedule(rounds: seq<Round>): seq<seq<Batch>> {
    seq(|rounds|, i requires 0 <= i < |rounds| => rounds[i].batches)
  }

  lemma RoundCommits(b: Block, s: Storage, c: set<nat>, r: Round)
    requires |b.txs| == |b.sets| && Good(b, s) && DownClosed(b, c) && RoundFits(b, c, r.batches)
    requires RoundHappens(b, Committed(b, s, c), r)
    ensures PutAll(Committed(b, s, c), r.writes) == Committed(b, s, c + RoundIds(r.batches))
    ensures DownClosed(b, c + RoundIds(r.batches))
  {
    forall k | 0 <= k < |r.batches|
      ensures BatchRan(b, s, c, r.batches[k], r.bases[k], r.caches[k])
    {
      BatchMeans(b, s, c, r.batches[k], r.bases[k]);
    }
    AnyInterleavingCommits(b, s, c, r.batches, r.bases, r.caches, r.writes);
    RoundClosed(b, c, r.batches);
  }

  lemma {:induction false} RoundsCommit(b: Block, s: Storage, c: set<nat>, rounds: seq<Round>)
    requires |b.txs| == |b.sets| && Good(b, s) && DownClosed(b, c) && ScheduleFits(b, c, Schedule(rounds))
    requires Happens(b, Committed(b, s, c), rounds)
    ensures Final(Committed(b, s, c), rounds) == Committed(b, s, Predicted(b))
    decreases |rounds|
  {
    if |rounds| > 0 {
      assert Schedule(rounds)[0] == rounds[0].batches && Schedule(rounds)[1..] == Schedule(rounds[1..]);
      RoundCommits(b, s, c, rounds[0]);
      RoundsCommit(b, s, c + RoundIds(rounds[0].batches), rounds[1..]);
    }
  }

  lemma {:induction false} NothingCommitted(b: Block, s: Storage, k: nat)
    requires |b.txs| == |b.sets| && k <= |b.txs|
    ensures Part(b, s, {}, k) == s
  {
    if k > 0 {
      NothingCommitted(b, s, k - 1);
    }
  }

  /**
   * Any run of any schedule that respects the block order of conflicting transactions ends in the storage that
   * running the block in order leaves.
   */
  lemma ScheduleIsSerial(b: Block, s: Storage, rounds: seq<Round>)
    requires |b.txs| == |b.sets| && Good(b, s) && ScheduleFits(b, {}, Schedule(rounds)) && Happens(b, s, rounds)
    ensures Final(s, rounds) == Serial(b, s)
  {
    NothingCommitted(b, s, |b.txs|);
    RoundsCommit(b, s, {}, rounds);
    PartIsBefore(b, s, Predicted(b), |b.txs|);
  }
}
