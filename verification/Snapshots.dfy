/**
 * The journal against a state that keeps a full copy of its accounts at every snapshot: the two show the same
 * accounts and refuse the same reverts, over any run.
 */
module Snapshots {
  import opened AccessLists
  import opened Caches

  datatype Copy = Copy(id: nat, accounts: Accounts)

  datatype Plain = Plain(accounts: Accounts, copies: seq<Copy>, nextId: nat)

  ghost predicate Holds(copies: seq<Copy>, id: nat) {
    exists i :: 0 <= i < |copies| && copies[i].id == id
  }

  ghost function PlainStep(p: Plain, op: Op): Option<Plain> {
    match op
    case Snapshot => Some(p.(copies := p.copies + [Copy(p.nextId, p.accounts)], nextId := p.nextId + 1))
    case RevertToSnapshot(id) =>
      if Holds(p.copies, id) then
        var i :| 0 <= i < |p.copies| && p.copies[i].id == id;
        Some(p.(accounts := p.copies[i].accounts, copies := p.copies[..i]))
      else None
    case _ => Some(p.(accounts := Apply(op, p.accounts)))
  }

  /** The cache shows what the plain state holds, now and at each of its snapshots. */
  ghost predicate Shows(c: Cache, p: Plain) {
    && c.accounts == p.accounts
    && c.nextId == p.nextId
    && |c.revisions| == |p.copies|
    && forall i :: 0 <= i < |c.revisions| ==>
         && c.revisions[i].id == p.copies[i].id
         && Rewound(c.accounts, c.entries, c.revisions[i].journalIndex) == p.copies[i].accounts
  }

  lemma RewoundAfterWrite(c: Cache, op: Op, n: nat)
    requires Valid(c) && n <= |c.entries|
    ensures |c.entries| <= |Write(c, op).entries|
    ensures Rewound(Write(c, op).accounts, Write(c, op).entries, n) == Rewound(c.accounts, c.entries, n)
  {
    WriteKeepsValid(c, op);
    RewoundTwice(Write(c, op).accounts, Write(c, op).entries, |c.entries|, n);
  }

  lemma WriteShows(c: Cache, p: Plain, op: Op)
    requires Valid(c) && Shows(c, p) && !op.Snapshot? && !op.RevertToSnapshot?
    ensures Valid(Write(c, op)) && Shows(Write(c, op), PlainStep(p, op).value)
  {
    WriteKeepsValid(c, op);
    forall i | 0 <= i < |c.revisions|
      ensures Rewound(Write(c, op).accounts, Write(c, op).entries, c.revisions[i].journalIndex)
           == Rewound(c.accounts, c.entries, c.revisions[i].journalIndex)
    {
      RewoundAfterWrite(c, op, c.revisions[i].journalIndex);
    }
  }

  lemma RevertFinds(c: Cache, id: nat, i: nat)
    requires Valid(c) && i < |c.revisions| && c.revisions[i].id == id
    ensures FirstAtLeast(c.revisions, id) == i
  {
  }

  /** Reverting to the i-th revision shows the i-th copy, and the earlier ones as before. */
  lemma RevertShowsAt(c: Cache, p: Plain, id: nat, i: nat)
    requires Valid(c) && Shows(c, p) && i < |p.copies| && p.copies[i].id == id
    ensures Revert(c, id).Some? && Valid(Revert(c, id).value)
    ensures Shows(Revert(c, id).value, p.(accounts := p.copies[i].accounts, copies := p.copies[..i]))
  {
    RevertFinds(c, id, i);
    RevertKeepsValid(c, id);
    var d, n := Revert(c, id).value, c.revisions[i].journalIndex;
    forall k | 0 <= k < i
      ensures Rewound(d.accounts, d.entries, c.revisions[k].journalIndex)
           == Rewound(c.accounts, c.entries, c.revisions[k].journalIndex)
    {
      RewoundTwice(c.accounts, c.entries, n, c.revisions[k].journalIndex);
    }
  }

  lemma RevertShows(c: Cache, p: Plain, id: nat)
    requires Valid(c) && Shows(c, p)
    ensures Revert(c, id).Some? <==> PlainStep(p, RevertToSnapshot(id)).Some?
    ensures Revert(c, id).Some? ==>
      && Valid(Revert(c, id).value)
      && Shows(Revert(c, id).value, PlainStep(p, RevertToSnapshot(id)).value)
  {
    if Revert(c, id).Some? {
      assert p.copies[FirstAtLeast(c.revisions, id)].id == id;
    }
    if Holds(p.copies, id) {
      var i :| 0 <= i < |p.copies| && p.copies[i].id == id;
      RevertFinds(c, id, i);
      forall j | 0 <= j < |p.copies| && p.copies[j].id == id ensures j == i {
        RevertFinds(c, id, j);
      }
      RevertShowsAt(c, p, id, i);
    }
  }

  /** One operation: refused by both or by neither, and the cache goes on showing the plain state. */
  lemma StepShows(c: Cache, p: Plain, op: Op)
    requires Valid(c) && Shows(c, p)
    ensures Step(c, op).Some? <==> PlainStep(p, op).Some?
    ensures Step(c, op).Some? ==>
      Valid(Step(c, op).value) && Shows(Step(c, op).value, PlainStep(p, op).value)
  {
    match op
    case Snapshot =>
    case RevertToSnapshot(id) => RevertShows(c, p, id);
    case _ => WriteShows(c, p, op);
  }

  // ---------- runs ----------

  function Run(c: Cache, ops: seq<Op>): (r: Option<Cache>)
    ensures Valid(c) && r.Some? ==> Valid(r.value)
    decreases |ops|
  {
    if |ops| == 0 then Some(c)
    else
      var next := Step(c, ops[0]);
      if next.None? then None
      else
        StepKeepsValidIf(c, ops[0]);
        Run(next.value, ops[1..])
  }

  lemma StepKeepsValidIf(c: Cache, op: Op)
    requires Step(c, op).Some?
    ensures Valid(c) ==> Valid(Step(c, op).value)
  {
    if Valid(c) {
      StepKeepsValid(c, op);
    }
  }

  ghost function PlainRun(p: Plain, ops: seq<Op>): Option<Plain>
    decreases |ops|
  {
    if |ops| == 0 then Some(p)
    else
      var next := PlainStep(p, ops[0]);
      if next.None? then None else PlainRun(next.value, ops[1..])
  }

  lemma {:induction false} RunShows(c: Cache, p: Plain, ops: seq<Op>)
    requires Valid(c) && Shows(c, p)
    ensures Run(c, ops).Some? <==> PlainRun(p, ops).Some?
    ensures Run(c, ops).Some? ==> Shows(Run(c, ops).value, PlainRun(p, ops).value)
    decreases |ops|
  {
    if |ops| > 0 {
      StepShows(c, p, ops[0]);
      if Step(c, ops[0]).Some? {
        RunShows(Step(c, ops[0]).value, PlainStep(p, ops[0]).value, ops[1..]);
      }
    }
  }

  /** From a prefetched cache, any run shows the accounts a state with full copies shows, panics included. */
  lemma JournalRefinesCopies(accounts: Accounts, ops: seq<Op>)
    ensures Run(Fresh(accounts), ops).Some? <==> PlainRun(Plain(accounts, [], 0), ops).Some?
    ensures Run(Fresh(accounts), ops).Some? ==>
      Run(Fresh(accounts), ops).value.accounts == PlainRun(Plain(accounts, [], 0), ops).value.accounts
  {
    RunShows(Fresh(accounts), Plain(accounts, [], 0), ops);
  }

  /** No revert in the run goes to the given id or below it. */
  ghost predicate StaysAbove(ops: seq<Op>, id: nat) {
    forall i :: 0 <= i < |ops| && ops[i].RevertToSnapshot? ==> ops[i].id > id
  }

  /** d was reached from c, after a snapshot of c, without going below that snapshot. */
  ghost predicate Above(c: Cache, d: Cache) {
    && |c.revisions| < |d.revisions|
    && d.revisions[..|c.revisions|] == c.revisions
    && d.revisions[|c.revisions|] == Revision(c.nextId, |c.entries|)
    && |c.entries| <= |d.entries|
    && d.entries[..|c.entries|] == c.entries
    && Rewound(d.accounts, d.entries, |c.entries|) == c.accounts
  }

  lemma RevertStaysAbove(c: Cache, d: Cache, id: nat)
    requires Valid(c) && Valid(d) && Above(c, d) && id > c.nextId && Revert(d, id).Some?
    ensures Above(c, Revert(d, id).value)
  {
    var i := FirstAtLeast(d.revisions, id);
    var n, e := d.revisions[i].journalIndex, Revert(d, id).value;
    assert i > |c.revisions|;
    RewoundTwice(d.accounts, d.entries, n, |c.entries|);
    assert e.entries[..|c.entries|] == d.entries[..|c.entries|];
    assert e.revisions[..|c.revisions|] == d.revisions[..|c.revisions|];
  }

  lemma WriteStaysAbove(c: Cache, d: Cache, op: Op)
    requires Valid(c) && Valid(d) && Above(c, d)
    ensures Above(c, Write(d, op))
  {
    var e := Write(d, op);
    RewoundAfterWrite(d, op, |c.entries|);
    WriteKeepsValid(d, op);
    assert e.entries[..|c.entries|] == e.entries[..|d.entries|][..|c.entries|];
  }

  lemma StepStaysAbove(c: Cache, d: Cache, op: Op)
    requires Valid(c) && Valid(d) && Above(c, d)
    requires op.RevertToSnapshot? ==> op.id > c.nextId
    requires Step(d, op).Some?
    ensures Above(c, Step(d, op).value)
  {
    match op
    case Snapshot =>
    case RevertToSnapshot(id) => RevertStaysAbove(c, d, id);
    case _ => WriteStaysAbove(c, d, op);
  }

  lemma {:induction false} RunStaysAbove(c: Cache, d: Cache, ops: seq<Op>)
    requires Valid(c) && Valid(d) && Above(c, d) && StaysAbove(ops, c.nextId)
    requires Run(d, ops).Some?
    ensures Above(c, Run(d, ops).value)
    decreases |ops|
  {
    if |ops| > 0 {
      StepStaysAbove(c, d, ops[0]);
      StepKeepsValid(d, ops[0]);
      assert StaysAbove(ops[1..], c.nextId);
      RunStaysAbove(c, Step(d, ops[0]).value, ops[1..]);
    }
  }

  lemma MarkIsAbove(c: Cache)
    requires Valid(c)
    ensures Valid(Mark(c)) && Above(c, Mark(c))
  {
    StepKeepsValid(c, Op.Snapshot);
    assert Mark(c).revisions[..|c.revisions|] == c.revisions;
    assert Mark(c).entries[..|c.entries|] == c.entries;
  }

  /**
   * Take a snapshot, run anything that reverts only to later ids, and revert to the snapshot: that is possible, and
   * accounts, journal, counters and revisions are back to what they were.
   */
  lemma RevertRestores(c: Cache, ops: seq<Op>)
    requires Valid(c) && StaysAbove(ops, c.nextId)
    requires Run(Mark(c), ops).Some?
    ensures var back := Revert(Run(Mark(c), ops).value, c.nextId);
      && back.Some?
      && back.value.accounts == c.accounts
      && back.value.entries == c.entries
      && back.value.dirties == c.dirties
      && back.value.revisions == c.revisions
  {
    MarkIsAbove(c);
    RunStaysAbove(c, Mark(c), ops);
    var d := Run(Mark(c), ops).value;
    RevertFinds(d, c.nextId, |c.revisions|);
    RevertKeepsValid(d, c.nextId);
  }

  /** Nothing sets the judgement back to true, an inner revert included. */
  lemma {:induction false} FalseStaysFalse(c: Cache, ops: seq<Op>)
    requires Valid(c) && !c.judge && Run(c, ops).Some?
    ensures !Run(c, ops).value.judge
    decreases |ops|
  {
    if |ops| > 0 {
      StepKeepsValid(c, ops[0]);
      FalseStaysFalse(Step(c, ops[0]).value, ops[1..]);
    }
  }

  /** The i-th operation finds what it asks for in the cache as the run has left it by then. */
  ghost predicate FoundAt(c: Cache, ops: seq<Op>, i: nat)
    requires i < |ops|
  {
    var before := Run(c, ops[..i]);
    before.Some? && Finds(ops[i], before.value.accounts)
  }

  lemma RunOneLater(c: Cache, ops: seq<Op>, i: nat)
    requires i < |ops| - 1 && Step(c, ops[0]).Some?
    ensures FoundAt(Step(c, ops[0]).value, ops[1..], i) <==> FoundAt(c, ops, i + 1)
  {
    assert ops[..i + 1][1..] == ops[1..][..i];
  }

  lemma StepJudged(c: Cache, op: Op)
    requires Step(c, op).Some?
    ensures Step(c, op).value.judge <==> c.judge && Finds(op, c.accounts)
  {
    JudgedBy(c, op);
  }

  /** Over a run without a panic the judgement stays true exactly if every operation that asks for an account's code or
      for a slot found it, whatever was reverted in between. */
  lemma {:induction false} JudgedExactly(c: Cache, ops: seq<Op>)
    requires Run(c, ops).Some?
    ensures Run(c, ops).value.judge <==> c.judge && forall i :: 0 <= i < |ops| ==> FoundAt(c, ops, i)
    decreases |ops|
  {
    if |ops| > 0 {
      var next, rest := Step(c, ops[0]).value, ops[1..];
      JudgedExactly(next, rest);
      StepJudged(c, ops[0]);
      assert ops[..0] == [];
      assert FoundAt(c, ops, 0) <==> Finds(ops[0], c.accounts);
      forall i | 0 <= i < |rest| ensures FoundAt(next, rest, i) <==> FoundAt(c, ops, i + 1) {
        RunOneLater(c, ops, i);
      }
      forall i | 0 < i < |ops| ensures FoundAt(c, ops, i) <==> FoundAt(next, rest, i - 1) {
        RunOneLater(c, ops, i - 1);
      }
    }
  }

  // ---------- what a run leaves for the merge ----------

  lemma StepRewindsToStart(base: Accounts, c: Cache, op: Op)
    requires Valid(c) && Rewound(c.accounts, c.entries, 0) == base
    requires Step(c, op).Some?
    ensures var d := Step(c, op).value; Rewound(d.accounts, d.entries, 0) == base
  {
    match op
    case Snapshot =>
    case RevertToSnapshot(id) =>
      var n := c.revisions[FirstAtLeast(c.revisions, id)].journalIndex;
      RewoundTwice(c.accounts, c.entries, n, 0);
    case _ => RewoundAfterWrite(c, op, 0);
  }

  /** Every entry undone, the cache is back at what was prefetched. */
  lemma {:induction false} RunRewindsToStart(base: Accounts, c: Cache, ops: seq<Op>)
    requires Valid(c) && Rewound(c.accounts, c.entries, 0) == base
    requires Run(c, ops).Some?
    ensures var d := Run(c, ops).value; Rewound(d.accounts, d.entries, 0) == base
    decreases |ops|
  {
    if |ops| > 0 {
      StepKeepsValid(c, ops[0]);
      StepRewindsToStart(base, c, ops[0]);
      RunRewindsToStart(base, Step(c, ops[0]).value, ops[1..]);
    }
  }

  /**
   * In every cache reachable from prefetched accounts: a counter is the number of journal entries touching its
   * account, a dirty account exists, and an account that is not dirty is exactly as it was prefetched.
   */
  lemma ReachableCache(base: Accounts, ops: seq<Op>, a: Address)
    requires Run(Fresh(base), ops).Some?
    ensures var c := Run(Fresh(base), ops).value;
      && (a in c.dirties ==> c.dirties[a] == multiset(Addresses(c.entries))[a] > 0 && a in c.accounts)
      && (a !in c.dirties ==> a !in Addresses(c.entries) && (a in c.accounts <==> a in base))
      && (a !in c.dirties && a in base ==> c.accounts[a] == base[a])
  {
    var c := Run(Fresh(base), ops).value;
    RunRewindsToStart(base, Fresh(base), ops);
    DirtyExists(c, a);
    if a !in c.dirties {
      forall i | 0 <= i < |c.entries| ensures c.entries[i].account != a {
        assert Addresses(c.entries)[i] in Addresses(c.entries);
      }
      UntouchedSame(c.accounts, c.entries, 0, a);
    }
  }
}
