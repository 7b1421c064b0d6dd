/** Transactions run on a cache, through its snapshots and judgement, against direct runs on its slots. */
module CacheRuns {
  import opened AccessLists
  import opened Caches
  import opened Programs
  import opened Snapshots
  import opened Stores

  /** A run in progress: the cache, the snapshot ids of the open calls, and what was loaded. */
  datatype OnCache = OnCache(cache: Cache, ids: seq<nat>, loads: seq<Hash>, step: nat, halted: bool, panicked: bool)

  /** The cache operation an action comes down to. */
  function OpOf(q: OnCache, action: Action): Option<Op> {
    match action
    case Load(slot) => Some(Op.GetState(slot.0, slot.1))
    case Store(slot, value) => Some(Op.SetState(slot.0, slot.1, value))
    case Enter => Some(Op.Snapshot)
    case Leave(ok) => if |q.ids| > 0 && !ok then Some(Op.RevertToSnapshot(q.ids[|q.ids| - 1])) else None
    case Halt => None
  }

  function Stepped(c: Cache, op: Option<Op>): Option<Cache> {
    if op.None? then Some(c) else Step(c, op.value)
  }

  /** The local part of an action: loaded values, open calls, whether to stop. */
  function Noted(q: OnCache, action: Action): OnCache {
    match action
    case Load(slot) => q.(loads := q.loads + [SlotOf(q.cache.accounts, slot.0, slot.1)])
    case Store(_, _) => q
    case Enter => q.(ids := q.ids + [q.cache.nextId])
    case Leave(_) => if |q.ids| == 0 then q.(halted := true) else q.(ids := q.ids[..|q.ids| - 1])
    case Halt => q.(halted := true)
  }

  function TickCache(tx: Tx, q: OnCache): OnCache {
    var action := tx.next(q.step, q.loads);
    var next := Stepped(q.cache, OpOf(q, action));
    if next.None? then q.(halted := true, panicked := true)
    else Noted(q, action).(cache := next.value, step := q.step + 1)
  }

  function ExecCache(tx: Tx, q: OnCache, n: nat): OnCache
    decreases n
  {
    if n == 0 || q.halted then q else ExecCache(tx, TickCache(tx, q), n - 1)
  }

  function Begin(c: Cache): OnCache {
    OnCache(c, [], [], 0, false, false)
  }

  // ---------- the cache run is the direct run on the cache's slots ----------

  ghost predicate Saved(p: Plain, id: nat, store: Storage) {
    exists i :: 0 <= i < |p.copies| && p.copies[i].id == id && Slots(p.copies[i].accounts) == store
  }

  ghost predicate Ascending(ids: seq<nat>, low: nat, high: nat) {
    && (forall i :: 0 <= i < |ids| ==> low <= ids[i] < high)
    && (forall i, j :: 0 <= i < j < |ids| ==> ids[i] < ids[j])
  }

  ghost predicate AllSaved(s: Storage, frames: seq<Storage>, ids: seq<nat>, p: Plain) {
    && |ids| == |frames|
    && forall i :: 0 <= i < |ids| ==> Saved(p, ids[i], Commit(s, frames[i]))
  }

  ghost predicate Known(p: Plain) {
    && (forall i :: 0 <= i < |p.copies| ==> p.copies[i].id < p.nextId)
    && (forall i, j :: 0 <= i < j < |p.copies| ==> p.copies[i].id < p.copies[j].id)
  }

  /** The plain state p shows the storage s with the run's delta, now and at every open call. */
  ghost predicate Mirrors(s: Storage, r: Direct, ids: seq<nat>, p: Plain, low: nat) {
    && Slots(p.accounts) == Commit(s, r.delta)
    && AllSaved(s, r.frames, ids, p)
    && Ascending(ids, low, p.nextId)
    && Known(p)
    && low <= p.nextId
  }

  lemma StoreMirrors(s: Storage, delta: Storage, accounts: Accounts, slot: SlotId, value: Hash)
    requires Slots(accounts) == Commit(s, delta)
    ensures Slots(Apply(Op.SetState(slot.0, slot.1, value), accounts))
         == Commit(s, if slot in s then delta[slot := value] else delta)
    ensures Hits(Op.SetState(slot.0, slot.1, value), accounts) <==> slot in s
  {
    SlotsAt(accounts, slot.0, slot.1);
    assert slot == (slot.0, slot.1);
    SlotsAfterSet(accounts, slot.0, slot.1, value);
    CommitOneMore(s, delta, slot, value);
  }

  lemma CommitOneMore(s: Storage, delta: Storage, slot: SlotId, value: Hash)
    ensures slot in Commit(s, delta) <==> slot in s
    ensures slot in s ==> Commit(s, delta[slot := value]) == Commit(s, delta)[slot := value]
  {
  }

  lemma LoadMirrors(s: Storage, delta: Storage, accounts: Accounts, slot: SlotId)
    requires Slots(accounts) == Commit(s, delta) && delta.Keys <= s.Keys
    ensures SlotOf(accounts, slot.0, slot.1) == Under(s, delta, slot)
    ensures Hits(Op.GetState(slot.0, slot.1), accounts) <==> slot in s
  {
    SlotsAt(accounts, slot.0, slot.1);
    assert slot == (slot.0, slot.1);
    assert slot in Commit(s, delta) <==> slot in s;
  }

  /** What one action of the direct run does to the plain state, through the operation it comes down to. */
  ghost function Followed(p: Plain, op: Option<Op>): Option<Plain> {
    if op.None? then Some(p) else PlainStep(p, op.value)
  }

  lemma RevertMirrors(s: Storage, r: Direct, ids: seq<nat>, p: Plain, low: nat)
    requires Mirrors(s, r, ids, p, low) && |ids| > 0
    ensures var n := |ids| - 1; var back := PlainStep(p, Op.RevertToSnapshot(ids[n]));
      && back.Some?
      && Mirrors(s, r.(delta := r.frames[n], frames := r.frames[..n]), ids[..n], back.value, low)
  {
    var n := |ids| - 1;
    assert Saved(p, ids[n], Commit(s, r.frames[n]));
    var i :| 0 <= i < |p.copies| && p.copies[i].id == ids[n] && Slots(p.copies[i].accounts) == Commit(s, r.frames[n]);
    var back := PlainStep(p, Op.RevertToSnapshot(ids[n])).value;
    assert back == p.(accounts := p.copies[i].accounts, copies := p.copies[..i]);
    forall k | 0 <= k < n ensures Saved(back, ids[k], Commit(s, r.frames[k])) {
      SavedBelow(p, back, i, ids[k], Commit(s, r.frames[k]));
    }
  }

  /** Dropping the copies from the i-th on keeps those with smaller ids. */
  lemma SavedBelow(p: Plain, back: Plain, i: nat, id: nat, store: Storage)
    requires Known(p) && i < |p.copies| && back.copies == p.copies[..i] && id < p.copies[i].id && Saved(p, id, store)
    ensures Saved(back, id, store)
  {
    var j :| 0 <= j < |p.copies| && p.copies[j].id == id && Slots(p.copies[j].accounts) == store;
    assert j < i;
    assert back.copies[j] == p.copies[j];
  }

  lemma EnterMirrors(s: Storage, r: Direct, ids: seq<nat>, p: Plain, low: nat)
    requires Mirrors(s, r, ids, p, low)
    ensures Mirrors(s, r.(frames := r.frames + [r.delta]), ids + [p.nextId], PlainStep(p, Op.Snapshot).value, low)
  {
    var next, frames, more := PlainStep(p, Op.Snapshot).value, r.frames + [r.delta], ids + [p.nextId];
    assert next.copies[|p.copies|] == Copy(p.nextId, p.accounts);
    forall k | 0 <= k < |more| ensures Saved(next, more[k], Commit(s, frames[k])) {
      if k < |ids| {
        assert Saved(p, ids[k], Commit(s, r.frames[k]));
        var j :| 0 <= j < |p.copies| && p.copies[j].id == ids[k]
                 && Slots(p.copies[j].accounts) == Commit(s, r.frames[k]);
        assert next.copies[j] == p.copies[j];
      }
    }
  }

  /** What stays of the cache c0 a snapshot was taken of, and of the prefetched accounts base. */
  ghost predicate Rooted(c0: Cache, base: Accounts, c: Cache) {
    && Valid(c)
    && Above(c0, c)
    && Rewound(c.accounts, c.entries, 0) == base
  }

  lemma SteppedRooted(c0: Cache, base: Accounts, c: Cache, op: Option<Op>)
    requires Valid(c0) && Rooted(c0, base, c)
    requires op.Some? && op.value.RevertToSnapshot? ==> op.value.id > c0.nextId
    requires Stepped(c, op).Some?
    ensures Rooted(c0, base, Stepped(c, op).value)
  {
    if op.Some? {
      StepKeepsValid(c, op.value);
      StepStaysAbove(c0, c, op.value);
      StepRewindsToStart(base, c, op.value);
    }
  }

  lemma SteppedShows(c: Cache, p: Plain, op: Option<Op>)
    requires Valid(c) && Shows(c, p)
    ensures Stepped(c, op).Some? <==> Followed(p, op).Some?
    ensures Stepped(c, op).Some? ==> Shows(Stepped(c, op).value, Followed(p, op).value)
  {
    if op.Some? {
      StepShows(c, p, op.value);
    }
  }

  /** One action on the storage is one operation on the plain state that mirrors it. */
  ghost predicate Follows(s: Storage, r: Direct, q: OnCache, p: Plain, low: nat, action: Action, next: Option<Plain>) {
    && next.Some?
    && Mirrors(s, Act(s, r, action), Noted(q, action).ids, next.value, low)
    && Noted(q, action).loads == Act(s, r, action).loads
    && (!q.halted && !r.halted ==> Noted(q, action).halted == Act(s, r, action).halted)
  }

  lemma LoadFollows(s: Storage, r: Direct, q: OnCache, p: Plain, low: nat, slot: SlotId)
    requires Mirrors(s, r, q.ids, p, low) && r.delta.Keys <= s.Keys
    requires q.cache.accounts == p.accounts && q.loads == r.loads
    ensures Follows(s, r, q, p, low, Load(slot), PlainStep(p, Op.GetState(slot.0, slot.1)))
  {
    LoadMirrors(s, r.delta, p.accounts, slot);
  }

  lemma StoreFollows(s: Storage, r: Direct, q: OnCache, p: Plain, low: nat, slot: SlotId, value: Hash)
    requires Mirrors(s, r, q.ids, p, low)
    requires q.cache.accounts == p.accounts && q.loads == r.loads
    ensures Follows(s, r, q, p, low, Store(slot, value), PlainStep(p, Op.SetState(slot.0, slot.1, value)))
  {
    StoreMirrors(s, r.delta, p.accounts, slot, value);
    var next := PlainStep(p, Op.SetState(slot.0, slot.1, value)).value;
    assert next == p.(accounts := Apply(Op.SetState(slot.0, slot.1, value), p.accounts));
    CopiesSaved(s, r.frames, q.ids, p, next);
  }

  lemma CopiesSaved(s: Storage, frames: seq<Storage>, ids: seq<nat>, p: Plain, next: Plain)
    requires AllSaved(s, frames, ids, p) && next.copies == p.copies
    ensures AllSaved(s, frames, ids, next)
  {
  }

  lemma PopMirrors(s: Storage, r: Direct, ids: seq<nat>, p: Plain, low: nat)
    requires Mirrors(s, r, ids, p, low) && |ids| > 0
    ensures var n := |ids| - 1; Mirrors(s, r.(frames := r.frames[..n]), ids[..n], p, low)
  {
  }

  lemma LeaveFollows(s: Storage, r: Direct, q: OnCache, p: Plain, low: nat, ok: bool)
    requires Mirrors(s, r, q.ids, p, low) && q.loads == r.loads
    ensures var op := OpOf(q, Leave(ok));
      && Follows(s, r, q, p, low, Leave(ok), Followed(p, op))
      && (op.Some? ==> op.value.RevertToSnapshot? && op.value.id >= low)
  {
    if |q.ids| > 0 {
      LeaveActs(s, r, q, ok);
      if ok {
        PopMirrors(s, r, q.ids, p, low);
      } else {
        RevertMirrors(s, r, q.ids, p, low);
      }
    }
  }

  lemma LeaveActs(s: Storage, r: Direct, q: OnCache, ok: bool)
    requires |q.ids| > 0 && |r.frames| == |q.ids|
    ensures var n := |q.ids| - 1;
      && Noted(q, Leave(ok)) == q.(ids := q.ids[..n])
      && Act(s, r, Leave(ok)) == r.(delta := if ok then r.delta else r.frames[n], frames := r.frames[..n])
  {
  }

  lemma ActMirrors(s: Storage, r: Direct, q: OnCache, p: Plain, low: nat, action: Action)
    requires Mirrors(s, r, q.ids, p, low) && Recorded(s, r)
    requires q.cache.accounts == p.accounts && q.cache.nextId == p.nextId && q.loads == r.loads
    ensures var op := OpOf(q, action);
      && Follows(s, r, q, p, low, action, Followed(p, op))
      && (op.Some? && op.value.RevertToSnapshot? ==> op.value.id >= low)
  {
    match action
    case Load(slot) => LoadFollows(s, r, q, p, low, slot);
    case Store(slot, value) => StoreFollows(s, r, q, p, low, slot, value);
    case Enter => EnterMirrors(s, r, q.ids, p, low);
    case Leave(ok) => LeaveFollows(s, r, q, p, low, ok);
    case Halt =>
  }

  /** The judgement falls at the first access outside the cached slots. */
  lemma ActJudges(s: Storage, r: Direct, q: OnCache, action: Action)
    requires Valid(q.cache) && Slots(q.cache.accounts) == Commit(s, r.delta) && r.delta.Keys <= s.Keys
    requires q.cache.judge <==> Touched(r) <= s.Keys
    requires Stepped(q.cache, OpOf(q, action)).Some?
    ensures Stepped(q.cache, OpOf(q, action)).value.judge <==> Touched(Act(s, r, action)) <= s.Keys
  {
    match action
    case Load(slot) => LoadMirrors(s, r.delta, q.cache.accounts, slot);
    case Store(slot, value) => StoreMirrors(s, r.delta, q.cache.accounts, slot, value);
    case _ =>
  }

  ghost predicate Sims(s: Storage, c0: Cache, base: Accounts, r: Direct, q: OnCache, p: Plain) {
    && Rooted(c0, base, q.cache)
    && Shows(q.cache, p)
    && Mirrors(s, r, q.ids, p, c0.nextId + 1)
    && Recorded(s, r)
    && q.loads == r.loads && q.step == r.step && q.halted == r.halted && !q.panicked
    && (q.cache.judge <==> Touched(r) <= s.Keys)
  }

  lemma TickSims(s: Storage, c0: Cache, base: Accounts, tx: Tx, r: Direct, q: OnCache, p: Plain)
    returns (rr: Direct, qq: OnCache, next: Plain)
    requires Valid(c0) && Sims(s, c0, base, r, q, p) && !r.halted
    ensures rr == Tick(s, tx, r) && qq == TickCache(tx, q) && Sims(s, c0, base, rr, qq, next)
  {
    var action := tx.next(q.step, q.loads);
    var op := OpOf(q, action);
    ActMirrors(s, r, q, p, c0.nextId + 1, action);
    SteppedShows(q.cache, p, op);
    ActJudges(s, r, q, action);
    SteppedRooted(c0, base, q.cache, op);
    RecordedTick(s, tx, r);
    next := Followed(p, op).value;
    TickMirrors(s, r, q, p, c0.nextId + 1, tx, next);
    rr, qq := Tick(s, tx, r), TickCache(tx, q);
    assert qq.cache == Stepped(q.cache, op).value;
    assert qq == Noted(q, action).(cache := qq.cache, step := q.step + 1);
    NotedKeeps(q, action);
    Assembled(s, c0, base, rr, qq, next);
  }

  lemma NotedKeeps(q: OnCache, action: Action)
    ensures Noted(q, action).panicked == q.panicked && Noted(q, action).step == q.step
  {
  }

  lemma Assembled(s: Storage, c0: Cache, base: Accounts, r: Direct, q: OnCache, p: Plain)
    requires Valid(q.cache)
    requires Rooted(c0, base, q.cache)
    requires Shows(q.cache, p)
    requires Mirrors(s, r, q.ids, p, c0.nextId + 1)
    requires Recorded(s, r)
    requires q.loads == r.loads && q.step == r.step && q.halted == r.halted && !q.panicked
    requires q.cache.judge <==> Touched(r) <= s.Keys
    ensures Sims(s, c0, base, r, q, p)
  {
  }

  /** Counting the step changes nothing that is mirrored. */
  lemma TickMirrors(s: Storage, r: Direct, q: OnCache, p: Plain, low: nat, tx: Tx, next: Plain)
    requires Valid(q.cache) && q.step == r.step && q.loads == r.loads
    requires Follows(s, r, q, p, low, tx.next(q.step, q.loads), Some(next))
    requires Stepped(q.cache, OpOf(q, tx.next(q.step, q.loads))).Some?
    ensures Mirrors(s, Tick(s, tx, r), TickCache(tx, q).ids, next, low)
  {
  }

  /** What every action keeps, a whole run keeps. */
  lemma {:induction false} ExecKeeps(s: Storage, tx: Tx, r: Direct, q: OnCache, n: nat, kept: (Direct, OnCache) -> bool)
    requires forall r, q {:trigger kept(r, q)} :: kept(r, q) ==> r.halted == q.halted
    requires forall r, q {:trigger Tick(s, tx, r), TickCache(tx, q)} ::
               kept(r, q) && !r.halted ==> kept(Tick(s, tx, r), TickCache(tx, q))
    requires kept(r, q)
    ensures kept(Exec(s, tx, r, n), ExecCache(tx, q, n))
    decreases n
  {
    if n > 0 && !r.halted {
      ExecKeeps(s, tx, Tick(s, tx, r), TickCache(tx, q), n - 1, kept);
    }
  }

  ghost predicate SimsSome(s: Storage, c0: Cache, base: Accounts, r: Direct, q: OnCache) {
    exists p :: Sims(s, c0, base, r, q, p)
  }

  lemma TickSimsSome(s: Storage, c0: Cache, base: Accounts, tx: Tx, r: Direct, q: OnCache)
    requires Valid(c0) && SimsSome(s, c0, base, r, q)
    ensures r.halted == q.halted
    ensures !r.halted ==> SimsSome(s, c0, base, Tick(s, tx, r), TickCache(tx, q))
  {
    var p :| Sims(s, c0, base, r, q, p);
    if !r.halted {
      var rr, qq, next := TickSims(s, c0, base, tx, r, q, p);
    }
  }

  /** A whole run on the cache is the direct run on its slots. */
  lemma ExecSims(s: Storage, c0: Cache, base: Accounts, tx: Tx, r: Direct, q: OnCache, n: nat)
    returns (rr: Direct, qq: OnCache, last: Plain)
    requires Valid(c0) && SimsSome(s, c0, base, r, q)
    ensures rr == Exec(s, tx, r, n) && qq == ExecCache(tx, q, n) && Sims(s, c0, base, rr, qq, last)
  {
    var kept := (r, q) => SimsSome(s, c0, base, r, q);
    forall r, q | kept(r, q)
      ensures r.halted == q.halted
      ensures !r.halted ==> kept(Tick(s, tx, r), TickCache(tx, q))
    {
      TickSimsSome(s, c0, base, tx, r, q);
    }
    ExecKeeps(s, tx, r, q, n, kept);
    rr, qq := Exec(s, tx, r, n), ExecCache(tx, q, n);
    last :| Sims(s, c0, base, rr, qq, last);
  }

  // ---------- executing a transaction with its outer snapshot ----------

  /** The plain state that keeps, for every revision of a cache, the accounts it would rewind to. */
  ghost function Unjournalled(c: Cache): Plain
    requires Valid(c)
  {
    Plain(c.accounts,
          seq(|c.revisions|, i requires 0 <= i < |c.revisions| =>
            Copy(c.revisions[i].id, Rewound(c.accounts, c.entries, c.revisions[i].journalIndex))),
          c.nextId)
  }

  lemma BeginSims(c: Cache, base: Accounts)
    requires Valid(c) && c.judge && Rewound(c.accounts, c.entries, 0) == base
    ensures Sims(Slots(c.accounts), c, base, START, Begin(Mark(c)), Unjournalled(Mark(c)))
  {
    assert Mark(c).revisions[..|c.revisions|] == c.revisions;
    assert Mark(c).entries[..|c.entries|] == c.entries;
    assert Commit(Slots(c.accounts), map[]) == Slots(c.accounts);
  }

  /** None stands for a panic. An error of the core is returned before the judgement is looked at; a false
      judgement leads to the outer snapshot. */
  function ExecuteTx(c: Cache, tx: Tx): Option<(Cache, Ending)> {
    if tx.fate.Invalid? then Some((c, Failed))
    else
      var q := ExecCache(tx, Begin(Mark(c)), Steps(tx));
      if q.panicked then None
      else if tx.fate.Refused? then Some((q.cache, Failed))
      else if q.cache.judge then Some((q.cache, Ran))
      else
        var back := Stepped(q.cache.(judge := true), Some(Op.RevertToSnapshot(c.nextId)));
        if back.None? then None else Some((back.value, FalsePredict))
  }

  /** Apart from the ids handed out, nothing of the cache changed. */
  ghost predicate Undone(c: Cache, d: Cache) {
    && d.accounts == c.accounts && d.entries == c.entries && d.dirties == c.dirties
    && d.revisions == c.revisions && d.judge
  }

  /** What executing a transaction on a cache means for its slots. */
  ghost predicate Means(c: Cache, base: Accounts, tx: Tx, d: Cache, ending: Ending) {
    var s := Slots(c.accounts);
    && Valid(d) && d.judge
    && Rewound(d.accounts, d.entries, 0) == base
    && (ending == Failed <==> !tx.fate.Accepted?)
    && (ending == FalsePredict <==> !(Touched(Outcome(s, tx)) <= s.Keys))
    && (ending == FalsePredict ==> Undone(c, d))
    && (ending == Failed ==> d.accounts == c.accounts && d.entries == c.entries && d.dirties == c.dirties)
    && (ending != FalsePredict ==> Slots(d.accounts) == After(s, tx))
  }

  lemma UndoneMeans(c: Cache, base: Accounts, d: Cache)
    requires Valid(c) && Valid(d) && Above(c, d) && Rewound(c.accounts, c.entries, 0) == base
    ensures var back := Stepped(d.(judge := true), Some(Op.RevertToSnapshot(c.nextId)));
      && back.Some? && Undone(c, back.value) && Valid(back.value)
      && Rewound(back.value.accounts, back.value.entries, 0) == base
  {
    var e := d.(judge := true);
    RevertFinds(e, c.nextId, |c.revisions|);
    RevertKeepsValid(e, c.nextId);
    DroppedIsTally(d.entries, |c.entries|);
  }

  lemma FailedMeans(c: Cache, base: Accounts, tx: Tx)
    requires Valid(c) && c.judge && Rewound(c.accounts, c.entries, 0) == base && !tx.fate.Accepted?
    ensures var r := ExecuteTx(c, tx); r.Some? && Means(c, base, tx, r.value.0, r.value.1)
  {
    assert Commit(Slots(c.accounts), map[]) == Slots(c.accounts);
    assert Outcome(Slots(c.accounts), tx) == START && Touched(START) == {};
    StepKeepsValid(c, Op.Snapshot);
  }

  /** Where a run on a cache ends, before the judgement is looked at. */
  lemma RunEnds(c: Cache, base: Accounts, tx: Tx)
    requires Valid(c) && c.judge && Rewound(c.accounts, c.entries, 0) == base
    ensures var q := ExecCache(tx, Begin(Mark(c)), Steps(tx)); var s := Slots(c.accounts);
      && Valid(q.cache) && Above(c, q.cache) && !q.panicked && Rewound(q.cache.accounts, q.cache.entries, 0) == base
      && (q.cache.judge <==> Touched(Outcome(s, tx)) <= s.Keys) && Slots(q.cache.accounts) == After(s, tx)
  {
    BeginSims(c, base);
    var r, q, p := ExecSims(Slots(c.accounts), c, base, tx, START, Begin(Mark(c)), Steps(tx));
  }

  /** Up to the point where the judgement is looked at, the cache stays valid and nothing panics. */
  lemma RunStaysValid(c: Cache, tx: Tx)
    requires Valid(c) && c.judge
    ensures var q := ExecCache(tx, Begin(Mark(c)), Steps(tx)); Valid(q.cache) && Above(c, q.cache) && !q.panicked
  {
    RunEnds(c, Rewound(c.accounts, c.entries, 0), tx);
  }

  lemma AcceptedMeans(c: Cache, base: Accounts, tx: Tx)
    requires Valid(c) && c.judge && Rewound(c.accounts, c.entries, 0) == base && tx.fate.Accepted?
    ensures var r := ExecuteTx(c, tx); r.Some? && Means(c, base, tx, r.value.0, r.value.1)
  {
    RunEnds(c, base, tx);
    var q := ExecCache(tx, Begin(Mark(c)), Steps(tx));
    if !q.cache.judge {
      UndoneMeans(c, base, q.cache);
    }
  }

  /**
   * A transaction never panics on a valid cache. If the core refuses it, the cache is as before. If it touches only
   * cached slots, the cache shows the storage the direct run leaves; otherwise the prediction is found false and the
   * cache is back at what it was.
   */
  lemma ExecuteTxMeans(c: Cache, base: Accounts, tx: Tx)
    requires Valid(c) && c.judge && Rewound(c.accounts, c.entries, 0) == base
    ensures var r := ExecuteTx(c, tx); r.Some? && Means(c, base, tx, r.value.0, r.value.1)
  {
    if tx.fate.Accepted? {
      AcceptedMeans(c, base, tx);
    } else {
      FailedMeans(c, base, tx);
    }
  }

  /**
   * A cache whose slots hold the base state's values: as long as the judgement is still true at the end, the run
   * loaded what a run on the base state itself would have loaded, and wrote the same.
   */
  lemma JudgedReadsAreTrue(c: Cache, base: Storage, tx: Tx)
    requires Valid(c) && c.judge
    requires forall slot :: slot in Slots(c.accounts) ==> slot in base && Slots(c.accounts)[slot] == base[slot]
    ensures var q := ExecCache(tx, Begin(Mark(c)), Steps(tx)); var r := Outcome(base, tx);
      q.cache.judge ==>
        && q.loads == r.loads
        && Slots(q.cache.accounts) == Commit(Slots(c.accounts), r.delta)
  {
    var s, b0 := Slots(c.accounts), Rewound(c.accounts, c.entries, 0);
    BeginSims(c, b0);
    var r, q, p := ExecSims(s, c, b0, tx, START, Begin(Mark(c)), Steps(tx));
    if q.cache.judge {
      Framed(s, base, tx);
    }
  }

  // ---------- executing a list of transactions on one cache ----------

  function ExecuteTxs(c: Cache, txs: seq<Tx>): Option<Cache>
    decreases |txs|
  {
    if |txs| == 0 then Some(c)
    else
      var first := ExecuteTx(c, txs[0]);
      if first.None? then None else ExecuteTxs(first.value.0, txs[1..])
  }

  /** The list of errors ExecuteTxs returns. */
  function Endings(c: Cache, txs: seq<Tx>): seq<Ending>
    decreases |txs|
  {
    if |txs| == 0 then []
    else
      var first := ExecuteTx(c, txs[0]);
      if first.None? then [] else [first.value.1] + Endings(first.value.0, txs[1..])
  }

  /** One error for each transaction, whatever the others ended with: that of running it on the cache the ones before it
      left. */
  lemma {:induction false} EndingsInOrder(c: Cache, txs: seq<Tx>, i: nat)
    requires Valid(c) && c.judge && i < |txs|
    ensures |Endings(c, txs)| == |txs| && ExecuteTxs(c, txs[..i]).Some?
    ensures var before := ExecuteTxs(c, txs[..i]).value;
      ExecuteTx(before, txs[i]).Some? && Endings(c, txs)[i] == ExecuteTx(before, txs[i]).value.1
    decreases |txs|
  {
    var base := Rewound(c.accounts, c.entries, 0);
    ExecuteTxMeans(c, base, txs[0]);
    var next := ExecuteTx(c, txs[0]).value.0;
    if i > 0 {
      EndingsInOrder(next, txs[1..], i - 1);
      assert txs[..i][1..] == txs[1..][..i - 1];
    } else {
      assert txs[..0] == [];
      if |txs| > 1 {
        EndingsInOrder(next, txs[1..], 0);
      }
    }
  }
}
