/** Reading accounts that may be missing, copying predicted entries into a cache, and writing a cache back. */
module Stores {
  import opened AccessLists
  import opened Caches

  type SlotId = (Address, Hash)

  type Storage = map<SlotId, Hash>

  // ---------- getters and their defaults ----------

  function BalanceOf(accounts: Accounts, a: Address): int {
    if a in accounts then accounts[a].balance else 0
  }

  function NonceOf(accounts: Accounts, a: Address): nat {
    if a in accounts then accounts[a].nonce else 0
  }

  function CodeHashOf(accounts: Accounts, a: Address): Hash {
    if a in accounts then accounts[a].codeHash else 0
  }

  function CodeOf(accounts: Accounts, a: Address): seq<nat> {
    if a in accounts then accounts[a].code else []
  }

  function SlotOf(accounts: Accounts, a: Address, key: Hash): Hash {
    if a in accounts && key in accounts[a].storage then accounts[a].storage[key] else 0
  }

  function SlotKeys(accounts: Accounts): set<SlotId> {
    set a, key | a in accounts && key in accounts[a].storage :: (a, key)
  }

  /** The storage slots of all accounts. */
  function Slots(accounts: Accounts): Storage {
    map slot | slot in SlotKeys(accounts) :: accounts[slot.0].storage[slot.1]
  }

  lemma SlotsAt(accounts: Accounts, a: Address, key: Hash)
    ensures (a, key) in Slots(accounts) <==> a in accounts && key in accounts[a].storage
    ensures (a, key) in Slots(accounts) ==> Slots(accounts)[(a, key)] == accounts[a].storage[key]
  {
  }

  /** Setting a slot changes that slot, if it is there, and no other. */
  lemma SlotsAfterSet(accounts: Accounts, a: Address, key: Hash, value: Hash)
    ensures Slots(Apply(Op.SetState(a, key, value), accounts))
         == if (a, key) in Slots(accounts) then Slots(accounts)[(a, key) := value] else Slots(accounts)
  {
    SlotsAt(accounts, a, key);
    if a in accounts && key in accounts[a].storage {
      var before, after := Slots(accounts), Slots(Apply(Op.SetState(a, key, value), accounts));
      assert after.Keys == before.Keys;
      forall slot | slot in after.Keys ensures after[slot] == before[(a, key) := value][slot] {
      }
    }
  }

  // ---------- prefetching ----------

  /** One entry of an account copied from the base state. */
  function Filled(account: Account, base: Accounts, a: Address, key: Key): Account {
    match key
    case Balance => account.(balance := BalanceOf(base, a))
    case Nonce => account.(nonce := NonceOf(base, a))
    case CodeHash => account.(codeHash := CodeHashOf(base, a))
    case Code => account.(code := CodeOf(base, a))
    case Alive => account.(alive := a in base)
    case Slot(hash) => account.(storage := account.storage[hash := SlotOf(base, a, hash)])
  }

  /** prefetchSetter: the account is created if need be, and the entry filled. */
  function FilledIn(accounts: Accounts, base: Accounts, a: Address, key: Key): Accounts {
    accounts[a := Filled(if a in accounts then accounts[a] else NEW_ACCOUNT, base, a, key)]
  }

  function Hashes(keys: set<Key>): set<Hash> {
    set key | key in keys && key.Slot? :: key.hash
  }

  /** All the given entries of an account copied from the base state. */
  function FilledAll(account: Account, base: Accounts, a: Address, keys: set<Key>): Account {
    Account(
      if Nonce in keys then NonceOf(base, a) else account.nonce,
      if Balance in keys then BalanceOf(base, a) else account.balance,
      if CodeHash in keys then CodeHashOf(base, a) else account.codeHash,
      if Code in keys then CodeOf(base, a) else account.code,
      map hash | hash in account.storage.Keys + Hashes(keys) ::
        if Slot(hash) in keys then SlotOf(base, a, hash) else account.storage[hash],
      if Alive in keys then a in base else account.alive)
  }

  /** The accounts after fetching a set of entries from the base state. */
  function Fetched(accounts: Accounts, base: Accounts, tuple: ALTuple): Accounts {
    map a | a in accounts.Keys + tuple.Keys ::
      FilledAll(if a in accounts then accounts[a] else NEW_ACCOUNT, base, a, if a in tuple then tuple[a] else {})
  }

  lemma FilledNone(account: Account, base: Accounts, a: Address)
    ensures FilledAll(account, base, a, {}) == account
  {
  }

  lemma HashesOneMore(keys: set<Key>, key: Key)
    ensures Hashes(keys + {key}) == Hashes(keys) + if key.Slot? then {key.hash} else {}
  {
  }

  lemma FilledStorage(account: Account, base: Accounts, a: Address, keys: set<Key>, key: Key)
    ensures var before := FilledAll(account, base, a, keys).storage;
      var after := FilledAll(account, base, a, keys + {key}).storage;
      after == if key.Slot? then before[key.hash := SlotOf(base, a, key.hash)] else before
  {
    HashesOneMore(keys, key);
    var before, after := FilledAll(account, base, a, keys).storage, FilledAll(account, base, a, keys + {key}).storage;
    forall hash
      ensures hash in after <==> hash in before || (key.Slot? && hash == key.hash)
      ensures hash in after ==>
        after[hash] == if key.Slot? && hash == key.hash then SlotOf(base, a, hash) else before[hash]
    {
      assert Slot(hash) in keys + {key} <==> Slot(hash) in keys || key == Slot(hash);
    }
  }

  lemma FilledOneMore(account: Account, base: Accounts, a: Address, keys: set<Key>, key: Key)
    ensures FilledAll(account, base, a, keys + {key}) == Filled(FilledAll(account, base, a, keys), base, a, key)
  {
    FilledStorage(account, base, a, keys, key);
  }

  lemma FetchedNone(accounts: Accounts, base: Accounts)
    ensures Fetched(accounts, base, map[]) == accounts
  {
    forall a | a in accounts ensures Fetched(accounts, base, map[])[a] == accounts[a] {
      FilledNone(accounts[a], base, a);
    }
  }

  lemma Updated<K, V>(before: map<K, V>, after: map<K, V>, k: K, v: V)
    requires after.Keys == before.Keys + {k} && after[k] == v
    requires forall x :: x in before && x != k ==> after[x] == before[x]
    ensures after == before[k := v]
  {
  }

  lemma FetchedSame(accounts: Accounts, base: Accounts, tuple: ALTuple, a: Address, key: Key)
    ensures var before := Fetched(accounts, base, tuple);
      var after := Fetched(accounts, base, Add(tuple, a, key));
      a in after && after[a] == Filled(if a in before then before[a] else NEW_ACCOUNT, base, a, key)
  {
    var account := if a in accounts then accounts[a] else NEW_ACCOUNT;
    FilledNone(account, base, a);
    FilledOneMore(account, base, a, if a in tuple then tuple[a] else {}, key);
  }

  lemma FetchedOther(accounts: Accounts, base: Accounts, tuple: ALTuple, a: Address, key: Key, b: Address)
    requires b != a && b in Fetched(accounts, base, tuple)
    ensures b in Fetched(accounts, base, Add(tuple, a, key))
    ensures Fetched(accounts, base, Add(tuple, a, key))[b] == Fetched(accounts, base, tuple)[b]
  {
  }

  /** Fetching one more entry is what prefetchSetter does: create the account if need be, then fill the entry. */
  lemma FetchedOneMore(accounts: Accounts, base: Accounts, tuple: ALTuple, a: Address, key: Key)
    ensures Fetched(accounts, base, Add(tuple, a, key)) == FilledIn(Fetched(accounts, base, tuple), base, a, key)
  {
    var before, after := Fetched(accounts, base, tuple), Fetched(accounts, base, Add(tuple, a, key));
    assert after.Keys == before.Keys + {a};
    FetchedSame(accounts, base, tuple, a, key);
    forall b | b in before && b != a ensures b in after && after[b] == before[b] {
      FetchedOther(accounts, base, tuple, a, key, b);
    }
    Updated(before, after, a, after[a]);
  }

  ghost predicate Requested(sets: seq<Access>, a: Address, key: Key) {
    exists i :: 0 <= i < |sets| && (Contains(sets[i].readSet, a, key) || Contains(sets[i].writeSet, a, key))
  }

  /** Fetching a prediction's reads takes what was fetched from p0 to p1, fetching its writes to p2. */
  lemma BothTuples(had: ALTuple, sets: seq<Access>, access: Access, p0: ALTuple, p1: ALTuple, p2: ALTuple)
    requires forall a, k :: Contains(p0, a, k) <==> Contains(had, a, k) || Requested(sets, a, k)
    requires forall a, k :: Contains(p1, a, k) <==> Contains(p0, a, k) || Contains(access.readSet, a, k)
    requires forall a, k :: Contains(p2, a, k) <==> Contains(p1, a, k) || Contains(access.writeSet, a, k)
    ensures forall a, k :: Contains(p2, a, k) <==> Contains(had, a, k) || Requested(sets + [access], a, k)
  {
    RequestedOneMore(sets + [access], |sets|);
    assert (sets + [access])[..|sets|] == sets && (sets + [access])[..|sets| + 1] == sets + [access];
  }

  /** The predictions that are there. */
  function Present(sets: seq<Option<Access>>): seq<Access> {
    if sets == [] then []
    else
      var last := sets[|sets| - 1];
      Present(sets[..|sets| - 1]) + if last.Some? then [last.value] else []
  }

  lemma RequestedOneMore(sets: seq<Access>, i: nat)
    requires i < |sets|
    ensures forall a, key :: Requested(sets[..i + 1], a, key) <==>
      Requested(sets[..i], a, key) || Contains(sets[i].readSet, a, key) || Contains(sets[i].writeSet, a, key)
  {
  }

  /**
   * The accounts now are those before with the entries of got copied from the base; done is what was prefetched
   * before together with got, and nothing was copied twice.
   */
  ghost predicate Fetching(before: Accounts, base: Accounts, had: ALTuple, now: Accounts, done: ALTuple, got: ALTuple) {
    && now == Fetched(before, base, got)
    && (forall a :: a in got ==> got[a] != {})
    && forall a, key :: (Contains(done, a, key) <==> Contains(had, a, key) || Contains(got, a, key))
                     && !(Contains(had, a, key) && Contains(got, a, key))
  }

  lemma FetchingStarts(before: Accounts, base: Accounts, had: ALTuple)
    ensures Fetching(before, base, had, before, had, map[])
  {
    FetchedNone(before, base);
  }

  lemma FetchingOneMore(before: Accounts, base: Accounts, had: ALTuple, now: Accounts, done: ALTuple, got: ALTuple,
                        a: Address, key: Key)
    requires Fetching(before, base, had, now, done, got) && !Contains(done, a, key)
    ensures Fetching(before, base, had, FilledIn(now, base, a, key), Add(done, a, key), Add(got, a, key))
  {
    FetchedOneMore(before, base, got, a, key);
  }

  /** A fresh cache holds exactly the requested slots, each with the base state's value. */
  lemma PrefetchedSlots(base: Accounts, sets: seq<Access>, now: Accounts, done: ALTuple, got: ALTuple)
    requires Fetching(map[], base, map[], now, done, got)
    requires forall a, key :: Contains(done, a, key) <==> Requested(sets, a, key)
    ensures forall a: Address, h: Hash :: (a, h) in Slots(now) <==> Requested(sets, a, Slot(h))
    ensures forall a: Address, h: Hash :: (a, h) in Slots(now) ==> Slots(now)[(a, h)] == SlotOf(base, a, h)
  {
    forall a: Address, h: Hash
      ensures (a, h) in Slots(now) <==> Requested(sets, a, Slot(h))
      ensures (a, h) in Slots(now) ==> Slots(now)[(a, h)] == SlotOf(base, a, h)
    {
      SlotsAt(now, a, h);
      assert Requested(sets, a, Slot(h)) <==> Contains(got, a, Slot(h));
      if a in now && h in now[a].storage {
        assert h in Hashes(if a in got then got[a] else {});
      }
      if Contains(got, a, Slot(h)) {
        assert h in Hashes(got[a]);
      }
    }
  }

  // ---------- prefetching in plain terms ----------

  /** The entries of got are the base account's own, or zero, empty and dead where the base has no such account; the
      other fields are those of the account before. */
  ghost predicate FieldsCopied(before: Account, base: Accounts, got: ALTuple, a: Address, now: Account) {
    && now.balance == (if !Contains(got, a, Balance) then before.balance else if a in base then base[a].balance else 0)
    && now.nonce == (if !Contains(got, a, Nonce) then before.nonce else if a in base then base[a].nonce else 0)
    && now.codeHash == (if !Contains(got, a, CodeHash) then before.codeHash
                        else if a in base then base[a].codeHash else 0)
    && now.code == (if !Contains(got, a, Code) then before.code else if a in base then base[a].code else [])
    && now.alive == (if !Contains(got, a, Alive) then before.alive else a in base)
    && (forall h :: h in now.storage <==> h in before.storage || Contains(got, a, Slot(h)))
    && (forall h :: h in now.storage ==>
          now.storage[h] == if !Contains(got, a, Slot(h)) && h in before.storage then before.storage[h]
                            else if a in base && h in base[a].storage then base[a].storage[h] else 0)
  }

  function WasOrNew(before: Accounts, a: Address): Account {
    if a in before then before[a] else Account(0, 0, EMPTY_CODE_HASH, [], map[], true)
  }

  ghost predicate SomeContained(tuple: ALTuple, a: Address) {
    exists key :: Contains(tuple, a, key)
  }

  /** Exactly the accounts that were there or of which something was copied are there now. Those that are new were
      alive and empty before their entries were copied. */
  ghost predicate Copied(before: Accounts, base: Accounts, got: ALTuple, now: Accounts) {
    && (forall a {:trigger SomeContained(got, a)} :: a in now <==> a in before || SomeContained(got, a))
    && (forall a {:trigger FieldsCopied(WasOrNew(before, a), base, got, a, now[a])} :: a in now ==>
          FieldsCopied(WasOrNew(before, a), base, got, a, now[a]))
  }

  lemma FilledCopies(account: Account, base: Accounts, got: ALTuple, a: Address)
    ensures FieldsCopied(account, base, got, a, FilledAll(account, base, a, if a in got then got[a] else {}))
  {
    var keys := if a in got then got[a] else {};
    forall h: Hash ensures h in Hashes(keys) <==> Contains(got, a, Slot(h)) {
      assert Contains(got, a, Slot(h)) <==> Slot(h) in keys;
    }
  }

  lemma FetchingCopies(before: Accounts, base: Accounts, had: ALTuple, now: Accounts, done: ALTuple, got: ALTuple)
    requires Fetching(before, base, had, now, done, got)
    ensures Copied(before, base, got, now)
  {
    forall a
      ensures a in now <==> a in before || SomeContained(got, a)
    {
      if a in got {
        var key :| key in got[a];
        assert Contains(got, a, key);
      }
    }
    forall a | a in now
      ensures FieldsCopied(WasOrNew(before, a), base, got, a, now[a])
    {
      FilledCopies(if a in before then before[a] else NEW_ACCOUNT, base, got, a);
    }
  }

  /** Prefetching into nothing: exactly the accounts of which something was requested are there; each requested field
      is the base account's own, or zero, empty and dead where the base has no such account; the others are those of
      an account that is alive and empty. */
  ghost predicate FreshlyPrefetched(base: Accounts, sets: seq<Access>, now: Accounts) {
    && (forall a {:trigger SomeRequested(sets, a)} :: a in now <==> SomeRequested(sets, a))
    && (forall a {:trigger FieldsPrefetched(base, sets, a, now[a])} :: a in now ==>
          FieldsPrefetched(base, sets, a, now[a]))
  }

  ghost predicate SomeRequested(sets: seq<Access>, a: Address) {
    exists key :: Requested(sets, a, key)
  }

  ghost predicate FieldsPrefetched(base: Accounts, sets: seq<Access>, a: Address, now: Account) {
    && now.balance == (if Requested(sets, a, Balance) && a in base then base[a].balance else 0)
    && now.nonce == (if Requested(sets, a, Nonce) && a in base then base[a].nonce else 0)
    && now.codeHash == (if !Requested(sets, a, CodeHash) then EMPTY_CODE_HASH
                        else if a in base then base[a].codeHash else 0)
    && now.code == (if Requested(sets, a, Code) && a in base then base[a].code else [])
    && now.alive == (if Requested(sets, a, Alive) then a in base else true)
    && (forall h :: h in now.storage <==> Requested(sets, a, Slot(h)))
    && (forall h :: h in now.storage ==>
          now.storage[h] == if a in base && h in base[a].storage then base[a].storage[h] else 0)
  }

  lemma CopiedIntoNothing(base: Accounts, sets: seq<Access>, got: ALTuple, now: Accounts)
    requires Copied(map[], base, got, now)
    requires forall a, key :: Contains(got, a, key) <==> Requested(sets, a, key)
    ensures FreshlyPrefetched(base, sets, now)
  {
    forall a ensures a in now <==> SomeRequested(sets, a) {
      assert a in now <==> SomeContained(got, a);
      if key :| Contains(got, a, key) {
        assert Requested(sets, a, key);
      }
      if key :| Requested(sets, a, key) {
        assert Contains(got, a, key);
      }
    }
    forall a | a in now ensures FieldsPrefetched(base, sets, a, now[a]) {
      assert FieldsCopied(WasOrNew(map[], a), base, got, a, now[a]);
    }
  }

  lemma FetchedIntoNothing(base: Accounts, sets: seq<Access>, now: Accounts, done: ALTuple, got: ALTuple)
    requires Fetching(map[], base, map[], now, done, got)
    requires forall a, key :: Contains(done, a, key) <==> Requested(sets, a, key)
    ensures FreshlyPrefetched(base, sets, now)
  {
    FetchingCopies(map[], base, map[], now, done, got);
    CopiedIntoNothing(base, sets, got, now);
  }

  /** What prefetching did, in plain terms; into nothing or not. */
  lemma PrefetchMeans(before: Accounts, base: Accounts, had: ALTuple, now: Accounts, done: ALTuple, got: ALTuple,
                      sets: seq<Access>)
    requires Fetching(before, base, had, now, done, got)
    requires forall a, key :: Contains(done, a, key) <==> Contains(had, a, key) || Requested(sets, a, key)
    ensures Copied(before, base, got, now)
    ensures before == map[] && had == map[] ==> FreshlyPrefetched(base, sets, now)
  {
    FetchingCopies(before, base, had, now, done, got);
    if before == map[] && had == map[] {
      FetchedIntoNothing(base, sets, now, done, got);
    }
  }

  // ---------- merging ----------

  /** Writing slots that the target holds; the others are ignored. */
  function Overwritten(storage: map<Hash, Hash>, written: map<Hash, Hash>): map<Hash, Hash> {
    map key | key in storage :: if key in written then written[key] else storage[key]
  }

  /** A dirty account's balance, nonce and code overwrite the target's, and so does every slot it has cached. */
  function MergedAccount(account: Account, from: Account, keccak: seq<nat> -> Hash): Account {
    Account(from.nonce, from.balance, keccak(from.code), from.code, Overwritten(account.storage, from.storage),
            account.alive)
  }

  function Merged(target: Accounts, cache: Accounts, dirty: set<Address>, keccak: seq<nat> -> Hash): Accounts {
    map a | a in target ::
      if a in dirty && a in cache then MergedAccount(target[a], cache[a], keccak) else target[a]
  }

  /** One account's slots written into the target, if the target holds the account. */
  function SlotsWritten(target: Accounts, a: Address, written: map<Hash, Hash>): Accounts {
    if a in target then target[a := target[a].(storage := Overwritten(target[a].storage, written))] else target
  }

  lemma NothingWritten(target: Accounts, a: Address)
    ensures SlotsWritten(target, a, map[]) == target
  {
    if a in target {
      assert Overwritten(target[a].storage, map[]) == target[a].storage;
    }
  }

  lemma OneMoreWritten(target: Accounts, a: Address, written: map<Hash, Hash>, key: Hash, value: Hash)
    ensures Apply(Op.SetState(a, key, value), SlotsWritten(target, a, written))
         == SlotsWritten(target, a, written[key := value])
  {
    if a in target {
      var storage := target[a].storage;
      var before, after := Overwritten(storage, written), Overwritten(storage, written[key := value]);
      if key in storage {
        assert after == before[key := value];
      } else {
        assert after == before;
      }
    }
  }

  /** MergeState's calls for one account, one after the other. */
  lemma MergedByParts(target: Accounts, cache: Accounts, a: Address, keccak: seq<nat> -> Hash)
    requires a in cache
    ensures var t1 := Apply(Op.SetBalance(a, cache[a].balance), target);
      var t2 := Apply(Op.SetNonce(a, cache[a].nonce), t1);
      var t3 := Apply(Op.SetCode(a, cache[a].code, keccak(cache[a].code)), t2);
      SlotsWritten(t3, a, cache[a].storage) == Merged(target, cache, {a}, keccak)
  {
  }

  /** The account was merged: balance, nonce and code are the cache's, the code's hash is computed again, and of the
      slots it holds those that the cache has are the cache's. */
  ghost predicate AccountMerged(before: Account, from: Account, keccak: seq<nat> -> Hash, now: Account) {
    && now.balance == from.balance && now.nonce == from.nonce && now.code == from.code
    && now.codeHash == keccak(from.code) && now.alive == before.alive && now.storage.Keys == before.storage.Keys
    && forall h :: h in now.storage ==>
         now.storage[h] == if h in from.storage then from.storage[h] else before.storage[h]
  }

  /** Of the accounts that the target holds exactly the dirty ones were merged. */
  ghost predicate DirtyMerged(before: Accounts, cache: Accounts, dirty: set<Address>, keccak: seq<nat> -> Hash,
                              now: Accounts) {
    && now.Keys == before.Keys
    && forall a :: a in now ==>
         if a in dirty && a in cache then AccountMerged(before[a], cache[a], keccak, now[a]) else now[a] == before[a]
  }

  lemma MergedMeans(target: Accounts, cache: Accounts, dirty: set<Address>, keccak: seq<nat> -> Hash)
    ensures DirtyMerged(target, cache, dirty, keccak, Merged(target, cache, dirty, keccak))
  {
  }

  lemma MergedNone(target: Accounts, cache: Accounts, keccak: seq<nat> -> Hash)
    ensures Merged(target, cache, {}, keccak) == target
  {
  }

  lemma MergedOneMore(target: Accounts, cache: Accounts, dirty: set<Address>, a: Address, keccak: seq<nat> -> Hash)
    requires a !in dirty
    ensures Merged(Merged(target, cache, dirty, keccak), cache, {a}, keccak)
         == Merged(target, cache, dirty + {a}, keccak)
  {
  }
}
