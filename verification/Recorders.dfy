/** A cache state wrapped so that a run's reads and writes are recorded as it goes. */
module Recorders {
  import opened AccessLists
  import opened Caches
  import opened CacheRuns
  import opened CacheStates
  import opened Engine
  import opened Programs
  import opened Snapshots
  import opened Stores

  class StateWithRwSets {
    const stateDB: CacheState
    var rwSets: RWSet?

    constructor (stateDB: CacheState)
      ensures this.stateDB == stateDB && rwSets == null
    {
      this.stateDB, rwSets := stateDB, null;
    }

    method SetRWSet(rwSets: RWSet)
      modifies this
      ensures this.rwSets == rwSets
    {
      this.rwSets := rwSets;
    }

    method GetState(addr: Address, key: Hash) returns (value: Hash)
      requires stateDB.Valid()
      modifies stateDB`stateJudge, rwSets
      ensures stateDB.Valid() && stateDB.Model() == Write(old(stateDB.Model()), Op.GetState(addr, key))
      ensures value == SlotOf(stateDB.view, addr, key)
      ensures rwSets != null ==>
        rwSets.readSet == Add(old(rwSets.readSet), addr, Slot(key)) && rwSets.writeSet == old(rwSets.writeSet)
    {
      if rwSets != null {
        rwSets.AddReadSet(addr, Slot(key));
      }
      value := stateDB.GetState(addr, key);
    }

    method RecordWrite(addr: Address, key: Key)
      modifies rwSets
      ensures rwSets != null ==>
        rwSets.writeSet == Add(old(rwSets.writeSet), addr, key) && rwSets.readSet == old(rwSets.readSet)
    {
      if rwSets != null {
        rwSets.AddWriteSet(addr, key);
      }
    }

    method SetState(addr: Address, key: Hash, value: Hash)
      requires stateDB.Valid()
      modifies stateDB, stateDB.journal, stateDB.objects, rwSets
      ensures stateDB.Valid() && stateDB.Model() == Write(old(stateDB.Model()), Op.SetState(addr, key, value))
      ensures stateDB.objects == old(stateDB.objects)
      ensures rwSets != null ==>
        rwSets.writeSet == Add(old(rwSets.writeSet), addr, Slot(key)) && rwSets.readSet == old(rwSets.readSet)
    {
      RecordWrite(addr, Slot(key));
      stateDB.SetState(addr, key, value);
    }

    method GetCode(addr: Address) returns (code: seq<nat>)
      requires stateDB.Valid()
      modifies stateDB`stateJudge, rwSets
      ensures stateDB.Valid() && stateDB.Model() == Write(old(stateDB.Model()), Op.GetCode(addr))
      ensures code == if addr in stateDB.view then stateDB.view[addr].code else []
      ensures rwSets != null ==>
        rwSets.readSet == Add(old(rwSets.readSet), addr, Code) && rwSets.writeSet == old(rwSets.writeSet)
    {
      if rwSets != null {
        rwSets.AddReadSet(addr, Code);
      }
      code := stateDB.GetCode(addr);
    }

    /** A new code is recorded as a write of the code and of its hash. */
    method SetCode(addr: Address, code: seq<nat>, keccak: seq<nat> -> Hash)
      requires stateDB.Valid()
      modifies stateDB, stateDB.journal, stateDB.objects, rwSets
      ensures stateDB.Valid()
      ensures stateDB.Model() == Write(old(stateDB.Model()), Op.SetCode(addr, code, keccak(code)))
      ensures rwSets != null ==>
        && rwSets.writeSet == Add(Add(old(rwSets.writeSet), addr, Code), addr, CodeHash)
        && rwSets.readSet == old(rwSets.readSet)
    {
      if rwSets != null {
        rwSets.AddWriteSet(addr, Code);
        rwSets.AddWriteSet(addr, CodeHash);
      }
      stateDB.SetCode(addr, code, keccak);
    }

    method SelfDestruct(addr: Address)
      requires stateDB.Valid()
      modifies stateDB, stateDB.journal, stateDB.objects, rwSets
      ensures stateDB.Valid() && stateDB.Model() == Write(old(stateDB.Model()), Op.SelfDestruct(addr))
      ensures rwSets != null ==>
        && rwSets.writeSet == Add(Add(old(rwSets.writeSet), addr, Alive), addr, Balance)
        && rwSets.readSet == old(rwSets.readSet)
    {
      if rwSets != null {
        rwSets.AddWriteSet(addr, Alive);
        rwSets.AddWriteSet(addr, Balance);
      }
      stateDB.SelfDestruct(addr);
    }
  }

  /** The accesses an action adds to the record. */
  function RecordedBy(access: Access, action: Action): Access {
    match action
    case Load(slot) => access.(readSet := Add(access.readSet, slot.0, Slot(slot.1)))
    case Store(slot, _) => access.(writeSet := Add(access.writeSet, slot.0, Slot(slot.1)))
    case _ => access
  }

  lemma RecordsOneMore(access: Access, s: Storage, tx: Tx, r: Direct)
    requires Records(access, r)
    ensures Records(RecordedBy(access, tx.next(r.step, r.loads)), Tick(s, tx, r))
  {
  }

  method PerformRecorded(fs: StateWithRwSets, rw: RWSet, action: Action, ids: seq<nat>, loads: seq<Hash>,
                         ghost q: OnCache)
    returns (ids': seq<nat>, loads': seq<Hash>, stop: bool, panicked: bool)
    requires fs.stateDB.Valid() && fs.rwSets == rw
    requires q.cache == fs.stateDB.Model() && q.ids == ids && q.loads == loads && !q.halted && !q.panicked
    modifies fs.stateDB, fs.stateDB.journal, fs.stateDB.objects, rw
    ensures fs.stateDB.Valid() && fs.stateDB.objects == old(fs.stateDB.objects)
    ensures panicked <==> Stepped(q.cache, OpOf(q, action)).None?
    ensures !panicked ==>
      && fs.stateDB.Model() == Stepped(q.cache, OpOf(q, action)).value
      && Noted(q, action) == q.(ids := ids', loads := loads', halted := stop)
    ensures Access(rw.readSet, rw.writeSet) == RecordedBy(old(Access(rw.readSet, rw.writeSet)), action)
  {
    ids', loads', stop, panicked := ids, loads, false, false;
    match action
    case Load(slot) =>
      var value := fs.GetState(slot.0, slot.1);
      loads' := loads + [value];
    case Store(slot, value) =>
      fs.SetState(slot.0, slot.1, value);
    case _ =>
      ids', loads', stop, panicked := Perform(fs.stateDB, action, ids, loads, q);
  }

  /** A recorded run seen from its start: the slots, the cache below the outer snapshot, the transaction, its end. */
  datatype Start = Start(s: Storage, c: Cache, base: Accounts, tx: Tx, whole: OnCache)

  /** How far it is: on the slots, on the cache, on a plain state, the actions left and the record so far. */
  datatype Progress = Progress(r: Direct, q: OnCache, p: Plain, left: nat, access: Access)

  /** Where the recorded run stands: its record, its cache, and what is left to do. */
  ghost predicate Recording(a: Start, g: Progress) {
    && Sims(a.s, a.c, a.base, g.r, g.q, g.p)
    && Exec(a.s, a.tx, g.r, g.left) == Outcome(a.s, a.tx)
    && Underway(a.tx, g.q, g.left, a.whole)
    && Records(g.access, g.r)
  }

  lemma RecordingTick(a: Start, g: Progress) returns (h: Progress)
    requires Caches.Valid(a.c) && Recording(a, g) && g.left > 0 && !g.q.halted
    ensures var action := a.tx.next(g.q.step, g.q.loads);
      && Stepped(g.q.cache, OpOf(g.q, action)).Some?
      && h.q == TickCache(a.tx, g.q) && h.left == g.left - 1 && h.access == RecordedBy(g.access, action)
    ensures Recording(a, h)
  {
    var rr, qq, next := TickSims(a.s, a.c, a.base, a.tx, g.r, g.q, g.p);
    UnderwayTick(a.tx, g.q, g.left, a.whole);
    RecordsOneMore(g.access, a.s, a.tx, g.r);
    h := Progress(rr, qq, next, g.left - 1, RecordedBy(g.access, a.tx.next(g.q.step, g.q.loads)));
  }

  lemma RecordingStarts(c: Cache, base: Accounts, tx: Tx) returns (a: Start, g: Progress)
    requires Caches.Valid(c) && c.judge && Rewound(c.accounts, c.entries, 0) == base
    ensures a.c == c && a.tx == tx && a.s == Slots(c.accounts) && a.whole == ExecCache(tx, Begin(Mark(c)), Steps(tx))
    ensures g.q == Begin(Mark(c)) && g.left == Steps(tx) && g.access == Access(map[], map[]) && Recording(a, g)
  {
    BeginSims(c, base);
    a := Start(Slots(c.accounts), c, base, tx, ExecCache(tx, Begin(Mark(c)), Steps(tx)));
    g := Progress(START, Begin(Mark(c)), Unjournalled(Mark(c)), Steps(tx), Access(map[], map[]));
  }

  /** The whole run is over: the record is that of the direct run. */
  lemma RecordingEnds(a: Start, g: Progress)
    requires Recording(a, g) && (g.left == 0 || g.q.halted)
    ensures Records(g.access, Outcome(a.s, a.tx)) && g.q == a.whole && !g.q.panicked
  {
  }

  /** The progress is what the wrapped state, its record and the loop's variables show. */
  ghost predicate At(g: Progress, c: Cache, access: Access, ids: seq<nat>, loads: seq<Hash>, step: nat, stop: bool,
                     gas: nat)
  {
    g.q == OnCache(c, ids, loads, step, stop, false) && g.left == gas && g.access == access
  }

  method StepRecorded(fs: StateWithRwSets, rw: RWSet, tx: Tx, ids: seq<nat>, loads: seq<Hash>, step: nat,
                      gas: nat, ghost a: Start, ghost g: Progress)
    returns (ids': seq<nat>, loads': seq<Hash>, step': nat, gas': nat, stop: bool, ghost h: Progress)
    requires fs.stateDB.Valid() && fs.rwSets == rw && Caches.Valid(a.c) && gas > 0 && tx == a.tx
    requires At(g, fs.stateDB.Model(), Access(rw.readSet, rw.writeSet), ids, loads, step, false, gas) && Recording(a, g)
    modifies fs.stateDB, fs.stateDB.journal, fs.stateDB.objects, rw
    ensures fs.stateDB.Valid() && fs.stateDB.objects == old(fs.stateDB.objects)
    ensures At(h, fs.stateDB.Model(), Access(rw.readSet, rw.writeSet), ids', loads', step', stop, gas')
    ensures Recording(a, h) && gas' == gas - 1
  {
    var action := tx.next(step, loads);
    h := RecordingTick(a, g);
    var panicked;
    ids', loads', stop, panicked := PerformRecorded(fs, rw, action, ids, loads, g.q);
    TickIs(tx, g.q, ids', loads', stop);
    step', gas' := step + 1, gas - 1;
  }

  lemma TickIs(tx: Tx, q: OnCache, ids: seq<nat>, loads: seq<Hash>, stop: bool)
    requires Caches.Valid(q.cache) && !q.panicked
    requires Stepped(q.cache, OpOf(q, tx.next(q.step, q.loads))).Some?
    requires Noted(q, tx.next(q.step, q.loads)) == q.(ids := ids, loads := loads, halted := stop)
    ensures TickCache(tx, q)
         == OnCache(Stepped(q.cache, OpOf(q, tx.next(q.step, q.loads))).value, ids, loads, q.step + 1, stop, false)
  {
  }

  /** The interpreter's loop, recorded. */
  method RecordSteps(fs: StateWithRwSets, rw: RWSet, tx: Tx, ghost a: Start, ghost g0: Progress)
    returns (ghost g: Progress)
    requires fs.stateDB.Valid() && fs.rwSets == rw && Caches.Valid(a.c) && tx == a.tx && Recording(a, g0)
    requires At(g0, fs.stateDB.Model(), Access(rw.readSet, rw.writeSet), [], [], 0, false, Steps(tx))
    modifies fs.stateDB, fs.stateDB.journal, fs.stateDB.objects, rw
    ensures fs.stateDB.Valid() && fs.stateDB.objects == old(fs.stateDB.objects)
    ensures g.q.cache == fs.stateDB.Model() && g.access == Access(rw.readSet, rw.writeSet)
    ensures Recording(a, g) && (g.left == 0 || g.q.halted)
  {
    g := g0;
    var ids: seq<nat>, loads: seq<Hash>, step: nat, gas: nat := [], [], 0, Steps(tx);
    var stop := false;
    while gas > 0 && !stop
      invariant fs.stateDB.Valid() && fs.stateDB.objects == old(fs.stateDB.objects)
      invariant At(g, fs.stateDB.Model(), Access(rw.readSet, rw.writeSet), ids, loads, step, stop, gas)
      invariant Recording(a, g)
      decreases gas, !stop
    {
      ids, loads, step, gas, stop, g := StepRecorded(fs, rw, tx, ids, loads, step, gas, a, g);
    }
  }

  /** Runs a transaction on a fresh record: afterwards the record holds exactly what the run touched. */
  method ApplyRecorded(fs: StateWithRwSets, rw: RWSet, tx: Tx, ghost c: Cache, ghost base: Accounts)
    requires fs.stateDB.Valid() && fs.rwSets == rw && rw.readSet == map[] && rw.writeSet == map[]
    requires Caches.Valid(c) && c.judge && Rewound(c.accounts, c.entries, 0) == base && fs.stateDB.Model() == Mark(c)
    modifies fs.stateDB, fs.stateDB.journal, fs.stateDB.objects, rw
    ensures fs.stateDB.Valid() && fs.stateDB.objects == old(fs.stateDB.objects)
    ensures fs.stateDB.Model() == ExecCache(tx, Begin(Mark(c)), Steps(tx)).cache
    ensures Records(Access(rw.readSet, rw.writeSet), Outcome(Slots(c.accounts), tx))
  {
    ghost var a, g := RecordingStarts(c, base, tx);
    ghost var h := RecordSteps(fs, rw, tx, a, g);
    RecordingEnds(a, h);
  }

  lemma NothingRecorded(tx: Tx, s: Storage)
    requires !tx.fate.Accepted?
    ensures Records(Access(map[], map[]), Outcome(s, tx))
  {
  }

  /** The recorded form of executeTx. The record also holds what an undone transaction touched. */
  method ExecuteRecorded(fs: StateWithRwSets, rw: RWSet, tx: Tx, ghost base: Accounts) returns (err: Ending)
    requires fs.stateDB.Valid() && fs.stateDB.stateJudge
    requires fs.rwSets == rw && rw.readSet == map[] && rw.writeSet == map[]
    requires Rewound(fs.stateDB.view, fs.stateDB.journal.entries, 0) == base
    modifies fs.stateDB, fs.stateDB.journal, fs.stateDB.objects, rw
    ensures fs.stateDB.Valid()
    ensures Means(old(fs.stateDB.Model()), base, tx, fs.stateDB.Model(), err)
    ensures Records(Access(rw.readSet, rw.writeSet), Outcome(old(Slots(fs.stateDB.view)), tx))
  {
    ghost var c := fs.stateDB.Model();
    ExecuteTxMeans(c, base, tx);
    if tx.fate.Invalid? {
      NothingRecorded(tx, Slots(c.accounts));
      return Failed;
    }
    TxParts(c, tx);
    var snapshot := fs.stateDB.Snapshot();
    err := RunRecorded(fs, rw, tx, c, base, snapshot);
  }

  /** What follows the outer snapshot. */
  method RunRecorded(fs: StateWithRwSets, rw: RWSet, tx: Tx, ghost c: Cache, ghost base: Accounts, snapshot: nat)
    returns (err: Ending)
    requires fs.stateDB.Valid() && fs.rwSets == rw && rw.readSet == map[] && rw.writeSet == map[]
    requires Caches.Valid(c) && c.judge && Rewound(c.accounts, c.entries, 0) == base && !tx.fate.Invalid?
    requires fs.stateDB.Model() == Mark(c) && snapshot == c.nextId
    modifies fs.stateDB, fs.stateDB.journal, fs.stateDB.objects, rw
    ensures fs.stateDB.Valid() && CacheRuns.ExecuteTx(c, tx) == Some((fs.stateDB.Model(), err))
    ensures Records(Access(rw.readSet, rw.writeSet), Outcome(Slots(c.accounts), tx))
  {
    TxParts(c, tx);
    if tx.fate.Refused? {
      NothingRecorded(tx, Slots(c.accounts));
      return Failed;
    }
    ApplyRecorded(fs, rw, tx, c, base);
    if !fs.stateDB.stateJudge {
      UndoFalsePredict(fs.stateDB, snapshot);
      return FalsePredict;
    }
    return Ran;
  }

  /** What a run on a prefetched cache recorded is what a run on the base state itself would record. */
  lemma RecordIsOfBase(cached: Storage, base: Storage, tx: Tx, access: Access)
    requires Records(access, Outcome(cached, tx)) && Touched(Outcome(cached, tx)) <= cached.Keys
    requires forall slot :: slot in cached ==> slot in base && cached[slot] == base[slot]
    ensures Outcome(base, tx) == Outcome(cached, tx) && Records(access, Outcome(base, tx))
  {
    Framed(cached, base, tx);
  }
}
