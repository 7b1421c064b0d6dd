/** One round of Aria: which of the transactions run on the same starting state are committed, and why that is safe. */
module Aria {
  import opened AccessLists
  import opened Programs
  import opened Reserves
  import opened Stores

  ghost predicate EarlierWrites(sets: seq<Access>, i: nat, tuple: ALTuple) {
    exists j :: 0 <= j < i && j < |sets| && Meet(sets[j].writeSet, tuple)
  }

  ghost predicate EarlierReads(sets: seq<Access>, i: nat, tuple: ALTuple) {
    exists j :: 0 <= j < i && j < |sets| && Meet(sets[j].readSet, tuple)
  }

  /** An earlier transaction writes what i reads: i read a value that block order would have changed. */
  ghost predicate ReadHazard(sets: seq<Access>, i: nat)
    requires i < |sets|
  {
    EarlierWrites(sets, i, sets[i].readSet)
  }

  /** No failure, no earlier writer of what i writes, and not both a read hazard and an earlier reader of it. */
  ghost predicate Commits(sets: seq<Access>, endings: seq<Ending>, i: nat)
    requires i < |sets| && |endings| == |sets|
  {
    && endings[i] != Failed
    && !EarlierWrites(sets, i, sets[i].writeSet)
    && !(EarlierReads(sets, i, sets[i].writeSet) && ReadHazard(sets, i))
  }

  // ---------- the round ----------

  ghost predicate AllReserved(steps: seq<Reservation>, tuples: seq<ALTuple>, n: nat)
    requires n <= |tuples|
  {
    forall r :: r in steps <==> r.tid < n && Contains(tuples[r.tid], r.addr, r.key)
  }

  lemma SmallerIsEarlier(steps: seq<Reservation>, tuples: seq<ALTuple>, i: nat, tuple: ALTuple)
    requires AllReserved(steps, tuples, |tuples|) && i <= |tuples|
    ensures SmallerReserved(steps, i, tuple) <==> exists j :: 0 <= j < i && Meet(tuples[j], tuple)
  {
    if SmallerReserved(steps, i, tuple) {
      var r :| r in steps && r.tid < i && Contains(tuple, r.addr, r.key);
      assert Meet(tuples[r.tid], tuple);
    }
    if j :| 0 <= j < i && Meet(tuples[j], tuple) {
      var a, k :| Contains(tuples[j], a, k) && Contains(tuple, a, k);
      assert Reservation(j, a, k) in steps;
    }
  }

  function ReadSets(sets: seq<Access>): seq<ALTuple> {
    seq(|sets|, i requires 0 <= i < |sets| => sets[i].readSet)
  }

  function WriteSets(sets: seq<Access>): seq<ALTuple> {
    seq(|sets|, i requires 0 <= i < |sets| => sets[i].writeSet)
  }

  /** Every transaction reserves what it recorded. */
  method ReserveTables(sets: seq<Access>) returns (readReserve: ReserveSet, writeReserve: ReserveSet)
    ensures fresh(readReserve) && fresh(writeReserve) && readReserve.Valid() && writeReserve.Valid()
    ensures AllReserved(readReserve.steps, ReadSets(sets), |sets|)
    ensures AllReserved(writeReserve.steps, WriteSets(sets), |sets|)
  {
    readReserve := new ReserveSet();
    writeReserve := new ReserveSet();
    for i := 0 to |sets|
      invariant fresh(readReserve) && fresh(writeReserve) && readReserve != writeReserve
      invariant readReserve.Valid() && writeReserve.Valid()
      invariant AllReserved(readReserve.steps, ReadSets(sets), i)
      invariant AllReserved(writeReserve.steps, WriteSets(sets), i)
    {
      readReserve.Reserve(sets[i].readSet, i);
      writeReserve.Reserve(sets[i].writeSet, i);
    }
  }

  /** The branches for one transaction, over tables that hold every reservation. */
  method Decide(sets: seq<Access>, endings: seq<Ending>, i: nat, readReserve: ReserveSet, writeReserve: ReserveSet)
    returns (commit: bool)
    requires |endings| == |sets| && i < |sets| && readReserve.Valid() && writeReserve.Valid()
    requires AllReserved(readReserve.steps, ReadSets(sets), |sets|)
    requires AllReserved(writeReserve.steps, WriteSets(sets), |sets|)
    ensures commit <==> Commits(sets, endings, i)
    ensures commit <==>
      && endings[i] != Failed
      && !(exists j :: 0 <= j < i && Meet(sets[j].writeSet, sets[i].writeSet))
      && !((exists j :: 0 <= j < i && Meet(sets[j].readSet, sets[i].writeSet))
           && (exists j :: 0 <= j < i && Meet(sets[j].writeSet, sets[i].readSet)))
  {
    SmallerIsEarlier(writeReserve.steps, WriteSets(sets), i, sets[i].writeSet);
    SmallerIsEarlier(readReserve.steps, ReadSets(sets), i, sets[i].writeSet);
    SmallerIsEarlier(writeReserve.steps, WriteSets(sets), i, sets[i].readSet);
    EarlierByTables(sets, i);
    if endings[i] != Ran && endings[i] != FalsePredict {
      return false;
    }
    var waw := writeReserve.HasConflict(i, sets[i].writeSet);
    if waw {
      return false;
    }
    var war := readReserve.HasConflict(i, sets[i].writeSet);
    if war {
      var raw := writeReserve.HasConflict(i, sets[i].readSet);
      if raw {
        return false;
      }
    }
    return true;
  }

  lemma EarlierByTables(sets: seq<Access>, i: nat)
    requires i < |sets|
    ensures forall t :: EarlierWrites(sets, i, t) <==> exists j :: 0 <= j < i && Meet(WriteSets(sets)[j], t)
    ensures forall t :: EarlierReads(sets, i, t) <==> exists j :: 0 <= j < i && Meet(ReadSets(sets)[j], t)
  {
    assert forall j :: 0 <= j < |sets| ==> WriteSets(sets)[j] == sets[j].writeSet;
    assert forall j :: 0 <= j < |sets| ==> ReadSets(sets)[j] == sets[j].readSet;
  }

  /** The first n transactions are split: those that commit, and the rest, both in order. */
  ghost predicate Split(sets: seq<Access>, endings: seq<Ending>, n: nat, rest: seq<nat>, commit: seq<nat>)
    requires n <= |sets| == |endings|
  {
    && (forall i: nat :: i in commit <==> i < n && Commits(sets, endings, i))
    && (forall i: nat :: i in rest <==> i < n && !Commits(sets, endings, i))
    && (forall k, m :: 0 <= k < m < |commit| ==> commit[k] < commit[m])
    && (forall k, m :: 0 <= k < m < |rest| ==> rest[k] < rest[m])
  }

  lemma SplitOneMore(sets: seq<Access>, endings: seq<Ending>, n: nat, rest: seq<nat>, commit: seq<nat>)
    requires n < |sets| == |endings| && Split(sets, endings, n, rest, commit)
    ensures Commits(sets, endings, n) ==> Split(sets, endings, n + 1, rest, commit + [n])
    ensures !Commits(sets, endings, n) ==> Split(sets, endings, n + 1, rest + [n], commit)
  {
    assert forall k :: 0 <= k < |commit| ==> commit[k] in commit;
    assert forall k :: 0 <= k < |rest| ==> rest[k] in rest;
  }

  /** The ids to run again and the ids to commit, from the recorded sets and endings of the round. */
  method AriaOneRound(sets: seq<Access>, endings: seq<Ending>) returns (rest: seq<nat>, commit: seq<nat>)
    requires |endings| == |sets|
    ensures Split(sets, endings, |sets|, rest, commit)
  {
    var readReserve, writeReserve := ReserveTables(sets);
    rest, commit := [], [];
    for i := 0 to |sets|
      invariant readReserve.Valid() && writeReserve.Valid()
      invariant AllReserved(readReserve.steps, ReadSets(sets), |sets|)
      invariant AllReserved(writeReserve.steps, WriteSets(sets), |sets|)
      invariant Split(sets, endings, i, rest, commit)
    {
      var ok := Decide(sets, endings, i, readReserve, writeReserve);
      SplitOneMore(sets, endings, i, rest, commit);
      if ok {
        commit := commit + [i];
      } else {
        rest := rest + [i];
      }
    }
  }

  // ---------- the committed transactions are serializable ----------

  lemma WritesEarlier(sets: seq<Access>, j: nat, i: nat)
    requires j < i < |sets|
    ensures Meet(sets[j].writeSet, sets[i].writeSet) ==> EarlierWrites(sets, i, sets[i].writeSet)
  {
  }

  /** Two committed transactions write no common key. */
  lemma CommittedWritesDisjoint(sets: seq<Access>, endings: seq<Ending>, i: nat, j: nat)
    requires i < |sets| == |endings| && j < |sets| && i != j
    requires Commits(sets, endings, i) && Commits(sets, endings, j)
    ensures !Meet(sets[i].writeSet, sets[j].writeSet)
  {
    MeetSymmetric(sets[i].writeSet, sets[j].writeSet);
    if i < j {
      WritesEarlier(sets, i, j);
    } else {
      WritesEarlier(sets, j, i);
    }
  }

  /** i read the starting value of something j writes, so i must come first. */
  ghost predicate MustPrecede(sets: seq<Access>, i: nat, j: nat)
    requires i < |sets| && j < |sets|
  {
    i != j && Meet(sets[i].readSet, sets[j].writeSet)
  }

  /** Transactions with a read hazard go first, the latest of them first; the others follow in block order. */
  ghost function Rank(sets: seq<Access>, i: nat): int
    requires i < |sets|
  {
    if ReadHazard(sets, i) then -1 - i else i
  }

  /** Among committed transactions must-precede leads to higher ranks only; so it has no cycle. */
  lemma PrecedenceRanks(sets: seq<Access>, endings: seq<Ending>, i: nat, j: nat)
    requires i < |sets| == |endings| && j < |sets|
    requires Commits(sets, endings, i) && Commits(sets, endings, j) && MustPrecede(sets, i, j)
    ensures Rank(sets, i) < Rank(sets, j)
  {
    MeetSymmetric(sets[i].readSet, sets[j].writeSet);
    if j < i {
      assert ReadHazard(sets, i);
    } else {
      assert EarlierReads(sets, j, sets[j].writeSet);
    }
  }

  ghost predicate IsCycle(sets: seq<Access>, cycle: seq<nat>) {
    && |cycle| > 0
    && (forall k :: 0 <= k < |cycle| ==> cycle[k] < |sets|)
    && (forall k :: 0 <= k < |cycle| - 1 ==> MustPrecede(sets, cycle[k], cycle[k + 1]))
    && MustPrecede(sets, cycle[|cycle| - 1], cycle[0])
  }

  lemma {:induction false} RanksRise(sets: seq<Access>, endings: seq<Ending>, cycle: seq<nat>, k: nat)
    requires |endings| == |sets| && IsCycle(sets, cycle) && k < |cycle|
    requires forall m :: 0 <= m < |cycle| ==> Commits(sets, endings, cycle[m])
    ensures Rank(sets, cycle[0]) <= Rank(sets, cycle[k])
  {
    if k > 0 {
      RanksRise(sets, endings, cycle, k - 1);
      PrecedenceRanks(sets, endings, cycle[k - 1], cycle[k]);
    }
  }

  lemma NoCommittedCycle(sets: seq<Access>, endings: seq<Ending>, cycle: seq<nat>)
    requires |endings| == |sets| && IsCycle(sets, cycle)
    ensures exists k :: 0 <= k < |cycle| && !Commits(sets, endings, cycle[k])
  {
    if forall m :: 0 <= m < |cycle| ==> Commits(sets, endings, cycle[m]) {
      RanksRise(sets, endings, cycle, |cycle| - 1);
      PrecedenceRanks(sets, endings, cycle[|cycle| - 1], cycle[0]);
    }
  }

  /** A list of committed transactions in which everyone comes after those that must precede it. */
  ghost predicate SerialOrder(sets: seq<Access>, endings: seq<Ending>, order: seq<nat>)
    requires |endings| == |sets|
  {
    && (forall k :: 0 <= k < |order| ==> order[k] < |sets| && Commits(sets, endings, order[k]))
    && (forall k, m :: 0 <= k < m < |order| ==> Rank(sets, order[k]) < Rank(sets, order[m]))
  }

  /** Any set of committed transactions can be listed in a serial order. */
  lemma {:induction false} SerialOrderExists(sets: seq<Access>, endings: seq<Ending>, ids: set<nat>)
    returns (order: seq<nat>)
    requires |endings| == |sets| && forall i :: i in ids ==> i < |sets| && Commits(sets, endings, i)
    ensures SerialOrder(sets, endings, order) && forall i :: i in order <==> i in ids
    decreases |ids|
  {
    order := [];
    if ids != {} {
      var i := Highest(sets, ids);
      order := SerialOrderExists(sets, endings, ids - {i});
      forall k | 0 <= k < |order| ensures Rank(sets, order[k]) < Rank(sets, i) {
        assert order[k] in ids - {i};
      }
      order := order + [i];
    }
  }

  lemma {:induction false} Highest(sets: seq<Access>, ids: set<nat>) returns (i: nat)
    requires ids != {} && forall k :: k in ids ==> k < |sets|
    ensures i in ids && forall k :: k in ids && k != i ==> Rank(sets, k) < Rank(sets, i)
    decreases |ids|
  {
    i :| i in ids;
    if ids != {i} {
      var j := Highest(sets, ids - {i});
      if Rank(sets, i) < Rank(sets, j) {
        i := j;
      }
    }
  }

  // ---------- run one after the other ----------

  /** The storage after running the first k transactions of the order, one after the other. */
  function RunInOrder(s: Storage, txs: seq<Tx>, order: seq<nat>, k: nat): Storage
    requires k <= |order| && forall i :: 0 <= i < |order| ==> order[i] < |txs|
  {
    if k == 0 then s else After(RunInOrder(s, txs, order, k - 1), txs[order[k - 1]])
  }

  /** Each transaction recorded its run on the starting storage. */
  ghost predicate RecordedAll(s: Storage, txs: seq<Tx>, sets: seq<Access>, order: seq<nat>) {
    && |txs| == |sets|
    && forall k :: 0 <= k < |order| ==> order[k] < |sets| && Records(sets[order[k]], Outcome(s, txs[order[k]]))
  }

  lemma EarlierWriterMissesReads(s: Storage, txs: seq<Tx>, sets: seq<Access>, endings: seq<Ending>, order: seq<nat>,
                                 m: nat, k: nat, slot: SlotId)
    requires RecordedAll(s, txs, sets, order) && |endings| == |sets| && SerialOrder(sets, endings, order)
    requires m < k < |order| && slot in Outcome(s, txs[order[k]]).loaded
    ensures slot !in Outcome(s, txs[order[m]]).stored
  {
    var i, j := order[k], order[m];
    assert slot == (slot.0, slot.1);
    if slot in Outcome(s, txs[j]).stored {
      assert Contains(sets[i].readSet, slot.0, Slot(slot.1)) && Contains(sets[j].writeSet, slot.0, Slot(slot.1));
      assert MustPrecede(sets, i, j);
      PrecedenceRanks(sets, endings, i, j);
    }
  }

  /** Only slots some earlier transaction of the order recorded as written have changed. */
  ghost predicate OnlyWritten(s: Storage, txs: seq<Tx>, order: seq<nat>, k: nat, now: Storage)
    requires k <= |order| && forall i :: 0 <= i < |order| ==> order[i] < |txs|
  {
    && now.Keys == s.Keys
    && forall slot :: slot in s && now[slot] != s[slot] ==>
         exists m :: 0 <= m < k && slot in Outcome(s, txs[order[m]]).stored
  }

  /** In a serial order every transaction reads exactly the round's starting values, and so writes the same. */
  lemma {:induction false} ReadsStartingValues(s: Storage, txs: seq<Tx>, sets: seq<Access>, endings: seq<Ending>,
                                               order: seq<nat>, k: nat)
    requires RecordedAll(s, txs, sets, order) && |endings| == |sets| && SerialOrder(sets, endings, order)
    requires k <= |order|
    ensures OnlyWritten(s, txs, order, k, RunInOrder(s, txs, order, k))
    ensures k < |order| ==> Outcome(RunInOrder(s, txs, order, k), txs[order[k]]) == Outcome(s, txs[order[k]])
  {
    var now := RunInOrder(s, txs, order, k);
    if k > 0 {
      ReadsStartingValues(s, txs, sets, endings, order, k - 1);
      OutcomeRecorded(s, txs[order[k - 1]]);
    }
    if k < |order| {
      forall slot | slot in Outcome(s, txs[order[k]]).loaded && slot in s ensures now[slot] == s[slot] {
        if now[slot] != s[slot] {
          var m :| 0 <= m < k && slot in Outcome(s, txs[order[m]]).stored;
          EarlierWriterMissesReads(s, txs, sets, endings, order, m, k, slot);
        }
      }
      Framed(s, now, txs[order[k]]);
    }
  }
}
