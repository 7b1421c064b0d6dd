/** The state shared by all workers, which caches are prefetched from and merged into. */
module SharedStates {
  import opened AccessLists
  import opened Caches
  import opened Stores

  class SharedState {
    var accounts: Accounts
    var prefetched: ALTuple

    constructor ()
      ensures accounts == map[] && prefetched == map[]
    {
      accounts, prefetched := map[], map[];
    }

    method GetState(addr: Address, key: Hash) returns (value: Hash)
      ensures value == SlotOf(accounts, addr, key)
    {
      if addr in accounts {
        if key in accounts[addr].storage {
          return accounts[addr].storage[key];
        }
        return 0;
      }
      return 0;
    }

    method CreateAccount(addr: Address)
      modifies this`accounts
      ensures accounts == Apply(Op.CreateAccount(addr), old(accounts))
      ensures accounts == if addr in old(accounts) then old(accounts)
                          else old(accounts)[addr := Account(0, 0, EMPTY_CODE_HASH, [], map[], true)]
    {
      if addr !in accounts {
        accounts := accounts[addr := NEW_ACCOUNT];
      }
    }

    method SetBalance(addr: Address, amount: int)
      modifies this`accounts
      ensures accounts == Apply(Op.SetBalance(addr, amount), old(accounts))
      ensures accounts == if addr in old(accounts)
                          then old(accounts)[addr := old(accounts)[addr].(balance := amount)] else old(accounts)
    {
      if addr in accounts {
        accounts := accounts[addr := accounts[addr].(balance := amount)];
      }
    }

    method SetNonce(addr: Address, nonce: nat)
      modifies this`accounts
      ensures accounts == Apply(Op.SetNonce(addr, nonce), old(accounts))
      ensures accounts == if addr in old(accounts)
                          then old(accounts)[addr := old(accounts)[addr].(nonce := nonce)] else old(accounts)
    {
      if addr in accounts {
        accounts := accounts[addr := accounts[addr].(nonce := nonce)];
      }
    }

    method SetCode(addr: Address, code: seq<nat>, keccak: seq<nat> -> Hash)
      modifies this`accounts
      ensures accounts == Apply(Op.SetCode(addr, code, keccak(code)), old(accounts))
      ensures accounts == if addr in old(accounts)
                          then old(accounts)[addr := old(accounts)[addr].(code := code, codeHash := keccak(code))]
                          else old(accounts)
    {
      if addr in accounts {
        accounts := accounts[addr := accounts[addr].(code := code, codeHash := keccak(code))];
      }
    }

    /** A slot that was not prefetched is not written. */
    method SetState(addr: Address, key: Hash, value: Hash)
      modifies this`accounts
      ensures accounts == Apply(Op.SetState(addr, key, value), old(accounts))
      ensures accounts == if addr in old(accounts) && key in old(accounts)[addr].storage
                          then old(accounts)[addr :=
                                 old(accounts)[addr].(storage := old(accounts)[addr].storage[key := value])]
                          else old(accounts)
    {
      if addr in accounts && key in accounts[addr].storage {
        accounts := accounts[addr := accounts[addr].(storage := accounts[addr].storage[key := value])];
      }
    }

    // ---------- prefetching ----------

    method PrefetchSetter(base: Accounts, addr: Address, key: Key, ghost before: Accounts, ghost had: ALTuple,
                          ghost got: ALTuple) returns (ghost more: ALTuple)
      requires Fetching(before, base, had, accounts, prefetched, got)
      modifies this
      ensures Fetching(before, base, had, accounts, prefetched, more) && Copied(before, base, more, accounts)
      ensures forall a, k :: Contains(prefetched, a, k) <==> Contains(old(prefetched), a, k) || (a == addr && k == key)
    {
      FetchingCopies(before, base, had, accounts, prefetched, got);
      more := got;
      if Contains(prefetched, addr, key) {
        return;
      }
      FetchingOneMore(before, base, had, accounts, prefetched, got, addr, key);
      more := Add(got, addr, key);
      prefetched := Add(prefetched, addr, key);
      Fill(base, addr, key);
      FetchingCopies(before, base, had, accounts, prefetched, more);
    }

    method Fill(base: Accounts, addr: Address, key: Key)
      modifies this`accounts
      ensures accounts == FilledIn(old(accounts), base, addr, key)
    {
      CreateAccount(addr);
      accounts := accounts[addr := Filled(accounts[addr], base, addr, key)];
    }

    method PrefetchTuple(base: Accounts, tuple: ALTuple, ghost before: Accounts, ghost had: ALTuple,
                         ghost got: ALTuple) returns (ghost more: ALTuple)
      requires Fetching(before, base, had, accounts, prefetched, got)
      modifies this
      ensures Fetching(before, base, had, accounts, prefetched, more)
      ensures forall a, k :: Contains(prefetched, a, k) <==> Contains(old(prefetched), a, k) || Contains(tuple, a, k)
    {
      more := got;
      var addrs := tuple.Keys;
      while addrs != {}
        invariant addrs <= tuple.Keys && Fetching(before, base, had, accounts, prefetched, more)
        invariant forall a, k :: Contains(prefetched, a, k) <==>
                    Contains(old(prefetched), a, k) || (Contains(tuple, a, k) && a !in addrs)
      {
        var addr :| addr in addrs;
        ghost var done := prefetched;
        var keys := tuple[addr];
        while keys != {}
          invariant keys <= tuple[addr] && Fetching(before, base, had, accounts, prefetched, more)
          invariant forall a, k :: Contains(prefetched, a, k) <==>
                      Contains(done, a, k) || (a == addr && k in tuple[addr] && k !in keys)
        {
          var key :| key in keys;
          more := PrefetchSetter(base, addr, key, before, had, more);
          keys := keys - {key};
        }
        addrs := addrs - {addr};
      }
    }

    /** One prediction's entries. */
    method PrefetchAccess(base: Accounts, access: Access, ghost sets: seq<Access>, ghost before: Accounts,
                          ghost had: ALTuple, ghost got: ALTuple) returns (ghost more: ALTuple)
      requires Fetching(before, base, had, accounts, prefetched, got)
      requires forall a, k :: Contains(prefetched, a, k) <==> Contains(had, a, k) || Requested(sets, a, k)
      modifies this
      ensures Fetching(before, base, had, accounts, prefetched, more)
      ensures forall a, k :: Contains(prefetched, a, k) <==> Contains(had, a, k) || Requested(sets + [access], a, k)
    {
      ghost var p0 := prefetched;
      more := PrefetchTuple(base, access.readSet, before, had, got);
      ghost var p1 := prefetched;
      more := PrefetchTuple(base, access.writeSet, before, had, more);
      BothTuples(had, sets, access, p0, p1, prefetched);
    }

    /** Copies every requested entry that was not prefetched before; got is what it copied. A prediction that is
        missing is read through a nil pointer: the first n predictions have been copied by then. */
    method Prefetch(base: Accounts, rwSets: seq<Option<Access>>)
      returns (panicked: bool, ghost n: nat, ghost got: ALTuple)
      modifies this
      ensures panicked <==> exists i :: 0 <= i < |rwSets| && rwSets[i].None?
      ensures n <= |rwSets| && (panicked ==> n < |rwSets| && rwSets[n].None?) && (!panicked ==> n == |rwSets|)
      ensures forall i :: 0 <= i < n ==> rwSets[i].Some?
      ensures Fetching(old(accounts), base, old(prefetched), accounts, prefetched, got)
      ensures Copied(old(accounts), base, got, accounts)
      ensures old(accounts) == map[] && old(prefetched) == map[] ==>
        FreshlyPrefetched(base, Present(rwSets[..n]), accounts)
      ensures forall a, k :: Contains(prefetched, a, k) <==>
        Contains(old(prefetched), a, k) || Requested(Present(rwSets[..n]), a, k)
    {
      ghost var before, had := accounts, prefetched;
      FetchingStarts(before, base, had);
      got := map[];
      for i := 0 to |rwSets|
        invariant Fetching(before, base, had, accounts, prefetched, got)
        invariant forall k :: 0 <= k < i ==> rwSets[k].Some?
        invariant forall a, k :: Contains(prefetched, a, k) <==>
          Contains(had, a, k) || Requested(Present(rwSets[..i]), a, k)
      {
        if rwSets[i].None? {
          PrefetchMeans(before, base, had, accounts, prefetched, got, Present(rwSets[..i]));
          return true, i, got;
        }
        assert rwSets[..i + 1][..i] == rwSets[..i];
        got := PrefetchAccess(base, rwSets[i].value, Present(rwSets[..i]), before, had, got);
      }
      PrefetchMeans(before, base, had, accounts, prefetched, got, Present(rwSets[..|rwSets|]));
      return false, |rwSets|, got;
    }
  }
}
