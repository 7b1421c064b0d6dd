/** Whole blocks: prefetch the shared state, group, then run the groups round after round. */
module Executors {
  import opened AccessLists
  import opened Caches
  import opened ComponentGroups
  import opened Engine
  import opened Graphs
  import opened Groups
  import opened Machines
  import opened MisGroups
  import opened MisInTurn
  import opened Programs
  import opened Schedules
  import opened SharedStates
  import opened Stores

  // ---------- the shared state a block starts with ----------

  function NamedSlots(access: Access): set<SlotId> {
    (set a, key | a in access.readSet && key in access.readSet[a] && key.Slot? :: (a, key.hash))
    + (set a, key | a in access.writeSet && key in access.writeSet[a] && key.Slot? :: (a, key.hash))
  }

  /** Every slot some prediction names, with its value in the state before the block. */
  function StartStorage(b: Block, state: Accounts): Storage {
    map slot | slot in (set k, slot | k in Predicted(b) && slot in NamedSlots(b.sets[k].value) :: slot) ::
      SlotOf(state, slot.0, slot.1)
  }

  lemma NamedSlotsAt(access: Access, slot: SlotId)
    ensures slot in NamedSlots(access) <==> Names(access, slot)
  {
  }

  lemma StartStorageAt(b: Block, state: Accounts, slot: SlotId)
    ensures slot in StartStorage(b, state) <==> exists k :: k in Predicted(b) && Names(b.sets[k].value, slot)
  {
    if slot in StartStorage(b, state) {
      var k :| k in Predicted(b) && slot in NamedSlots(b.sets[k].value);
      NamedSlotsAt(b.sets[k].value, slot);
    }
    if k :| k in Predicted(b) && Names(b.sets[k].value, slot) {
      NamedSlotsAt(b.sets[k].value, slot);
    }
  }

  /** Prefetching reads through the nil pointer of a prediction that is missing. */
  ghost predicate PrefetchPanics(b: Block) {
    exists i :: 0 <= i < |b.sets| && b.sets[i].None?
  }

  /** One transaction without a prediction is enough: nothing is left to be grouped or run, and still the block
      panics before its first round. */
  lemma MissingPredictionPanics(tx: Tx)
    ensures var b := Block([tx], [None]);
      PrefetchPanics(b) && Predicted(b) == {} && forall state :: Good(b, StartStorage(b, state))
  {
    var b := Block([tx], [None]);
    assert b.sets[0].None?;
  }

  lemma {:induction false} PresentAre(sets: seq<Option<Access>>, access: Access)
    ensures access in Present(sets) <==> exists k :: 0 <= k < |sets| && sets[k].Some? && sets[k].value == access
  {
    if sets != [] {
      var n := |sets| - 1;
      PresentAre(sets[..n], access);
      if k :| 0 <= k < |sets| && sets[k].Some? && sets[k].value == access && k < n {
        assert sets[..n][k] == sets[k];
      }
    }
  }

  method PrefetchBlock(b: Block, state: Accounts) returns (shared: SharedState, panicked: bool)
    ensures fresh(shared) && (panicked <==> PrefetchPanics(b))
    ensures !panicked ==> Slots(shared.accounts) == StartStorage(b, state)
  {
    shared := new SharedState();
    ghost var n, got;
    panicked, n, got := shared.Prefetch(state, b.sets);
    if !panicked {
      assert b.sets[..n] == b.sets;
      forall access
        ensures access in Present(b.sets) <==> exists k :: k in Predicted(b) && b.sets[k].value == access
      {
        PresentAre(b.sets, access);
        if k :| 0 <= k < |b.sets| && b.sets[k].Some? && b.sets[k].value == access {
          assert k in Predicted(b);
        }
      }
      BlockPrefetched(b, state, Present(b.sets), shared.accounts, shared.prefetched, got);
    }
  }

  lemma RequestedIsNamed(b: Block, sets: seq<Access>, slot: SlotId)
    requires forall access :: access in sets <==> exists k :: k in Predicted(b) && b.sets[k].value == access
    ensures Requested(sets, slot.0, Slot(slot.1)) <==> exists k :: k in Predicted(b) && Names(b.sets[k].value, slot)
  {
    if Requested(sets, slot.0, Slot(slot.1)) {
      var i :| 0 <= i < |sets| && Names(sets[i], slot);
      assert sets[i] in sets;
    }
    if k :| k in Predicted(b) && Names(b.sets[k].value, slot) {
      assert b.sets[k].value in sets;
    }
  }

  lemma BlockPrefetched(b: Block, state: Accounts, sets: seq<Access>, now: Accounts, done: ALTuple, got: ALTuple)
    requires forall access :: access in sets <==> exists k :: k in Predicted(b) && b.sets[k].value == access
    requires Fetching(map[], state, map[], now, done, got)
    requires forall a, key :: Contains(done, a, key) <==> Requested(sets, a, key)
    ensures Slots(now) == StartStorage(b, state)
  {
    forall slot: SlotId
      ensures slot in Slots(now) <==> slot in StartStorage(b, state)
      ensures slot in Slots(now) ==> Slots(now)[slot] == StartStorage(b, state)[slot]
    {
      BlockPrefetchedAt(b, state, sets, now, done, got, slot);
    }
  }

  lemma BlockPrefetchedAt(b: Block, state: Accounts, sets: seq<Access>, now: Accounts, done: ALTuple, got: ALTuple,
                          slot: SlotId)
    requires forall access :: access in sets <==> exists k :: k in Predicted(b) && b.sets[k].value == access
    requires Fetching(map[], state, map[], now, done, got)
    requires forall a, key :: Contains(done, a, key) <==> Requested(sets, a, key)
    ensures slot in Slots(now) <==> slot in StartStorage(b, state)
    ensures slot in Slots(now) ==> Slots(now)[slot] == StartStorage(b, state)[slot]
  {
    PrefetchedSlots(state, sets, now, done, got);
    assert slot == (slot.0, slot.1);
    RequestedIsNamed(b, sets, slot);
    StartStorageAt(b, state, slot);
  }

  // ---------- the blocks ----------

  /** The layered schedule, one cache for each transaction: the shared state ends as after the serial block, unless
      a prediction is missing. */
  method ExecWithDegreeZero(b: Block, state: Accounts, keccak: seq<nat> -> Hash)
    returns (shared: SharedState, panicked: bool)
    requires |b.txs| == |b.sets| && (!PrefetchPanics(b) ==> Good(b, StartStorage(b, state)))
    ensures panicked <==> PrefetchPanics(b)
    ensures !panicked ==> Slots(shared.accounts) == Serial(b, StartStorage(b, state))
  {
    var groups, arcs := GenerateDegreeZeroGroups(b);
    shared, panicked := PrefetchBlock(b, state);
    if !panicked {
      ExecuteSchedule(b, AllSingles(groups), shared, keccak);
    }
  }

  /** Chains of conflicts, one cache for each group, all in one round: as after the serial block. */
  method ExecWithConnectedComponents(b: Block, state: Accounts, keccak: seq<nat> -> Hash)
    returns (shared: SharedState, panicked: bool)
    requires |b.txs| == |b.sets| && (!PrefetchPanics(b) ==> Good(b, StartStorage(b, state)))
    ensures panicked <==> PrefetchPanics(b)
    ensures !panicked ==> Slots(shared.accounts) == Serial(b, StartStorage(b, state))
  {
    var groups, g := GenerateTxAndRWSetGroups(b);
    shared, panicked := PrefetchBlock(b, state);
    if !panicked {
      ExecuteSchedule(b, [groups], shared, keccak);
    }
  }

  /** The predictions hold when the block is run group by group, whatever conflict-free groups the solver finds. */
  ghost predicate GoodInGroups(b: Block, s: Storage) {
    |b.txs| == |b.sets| && forall groups :: FreeGroups(b, groups) ==> Good(GroupedBlock(b, groups), s)
  }

  /**
   * Conflict-free groups in turn, one cache for each transaction: as after running the block group by group. Before
   * that the solver may fail to return (halts == false, GenerateMISGroups), or a prediction may be missing.
   */
  method ExecWithMIS(b: Block, state: Accounts, keccak: seq<nat> -> Hash)
    returns (shared: SharedState, groups: seq<seq<nat>>, halts: bool, panicked: bool, ghost rounds: seq<SolverRound>)
    requires |b.txs| == |b.sets| <= MAX_UINT && (!PrefetchPanics(b) ==> GoodInGroups(b, StartStorage(b, state)))
    ensures exists g :: IsConflictGraph(b, g) && WellFormed(g) && AllRounds(g, rounds, groups, halts)
    ensures halts ==> FreeGroups(b, groups) && (panicked <==> PrefetchPanics(b))
    ensures halts && !panicked ==>
      Slots(shared.accounts) == Serial(GroupedBlock(b, groups), StartStorage(b, state))
  {
    groups, halts, rounds := GenerateMISGroups(b);
    panicked := false;
    shared := new SharedState();
    if halts {
      shared, panicked := PrefetchBlock(b, state);
      if !panicked {
        FreeGroupsFit(b, groups);
        ExecuteSchedule(GroupedBlock(b, groups), AllSingles(Positions(groups, 0)), shared, keccak);
      }
    }
  }
}
