/** The cache state itself: account objects, journal and revisions, all updated in place. */
module CacheStates {
  import opened AccessLists
  import opened Caches
  import opened SharedStates
  import opened Stores

  class AccountObject {
    const address: Address
    var nonce: nat
    var balance: int
    var codeHash: Hash
    var code: seq<nat>
    var storage: map<Hash, Hash>
    var alive: bool

    constructor (address: Address)
      ensures this.address == address && View() == NEW_ACCOUNT
    {
      this.address := address;
      nonce, balance, codeHash, code, storage, alive := 0, 0, EMPTY_CODE_HASH, [], map[], true;
    }

    ghost function View(): Account
      reads this
    {
      Account(nonce, balance, codeHash, code, storage, alive)
    }

    method SubBalance(amount: int)
      modifies this
      ensures View() == old(View()).(balance := old(balance) - amount)
    {
      if amount == 0 {
        return;
      }
      balance := balance - amount;
    }

    method AddBalance(amount: int)
      modifies this
      ensures View() == old(View()).(balance := old(balance) + amount)
    {
      if amount == 0 {
        return;
      }
      balance := balance + amount;
    }

    method SetBalance(amount: int)
      modifies this
      ensures View() == old(View()).(balance := amount)
    {
      balance := amount;
    }

    method SetNonce(nonce: nat)
      modifies this
      ensures View() == old(View()).(nonce := nonce)
    {
      this.nonce := nonce;
    }

    method SetCode(codeHash: Hash, code: seq<nat>)
      modifies this
      ensures View() == old(View()).(codeHash := codeHash, code := code)
    {
      this.codeHash := codeHash;
      this.code := code;
    }

    method Destruct()
      modifies this
      ensures View() == old(View()).(alive := false, balance := 0)
    {
      alive, balance := false, 0;
    }

    method GetStorageState(key: Hash) returns (value: Hash, exist: bool)
      ensures exist <==> key in storage
      ensures value == if exist then storage[key] else 0
    {
      if key in storage {
        return storage[key], true;
      }
      return 0, false;
    }

    method SetStorageState(key: Hash, value: Hash)
      modifies this
      ensures View() == old(View()).(storage := old(storage)[key := value])
    {
      storage := storage[key := value];
    }

    /** What the entries other than the creation do when they are reverted. */
    method Restore(e: Entry)
      modifies this
      ensures View() == Restored(e, old(View()))
    {
      match e
      case CreateObject(_) =>
      case SelfDestructed(_, alive, balance) =>
        this.alive := alive;
        SetBalance(balance);
      case BalanceChange(_, balance) => SetBalance(balance);
      case NonceChange(_, nonce) => SetNonce(nonce);
      case StorageChange(_, key, value) => SetStorageState(key, value);
      case CodeChange(_, code, hash) => SetCode(hash, code);
    }

    /** The setters prefetching uses, one for each kind of entry. */
    method Fill(base: Accounts, key: Key)
      modifies this
      ensures View() == Filled(old(View()), base, address, key)
    {
      match key
      case Balance => SetBalance(BalanceOf(base, address));
      case Nonce => SetNonce(NonceOf(base, address));
      case CodeHash => codeHash := CodeHashOf(base, address);
      case Code => code := CodeOf(base, address);
      case Alive => alive := address in base;
      case Slot(hash) => SetStorageState(hash, SlotOf(base, address, hash));
    }
  }

  class Journal {
    var entries: seq<Entry>
    var dirties: map<Address, int>

    constructor ()
      ensures entries == [] && dirties == map[]
    {
      entries, dirties := [], map[];
    }

    method Append(entry: Entry)
      modifies this
      ensures entries == old(entries) + [entry]
      ensures dirties == Bump(old(dirties), entry.account)
    {
      entries := entries + [entry];
      dirties := dirties[entry.account := (if entry.account in dirties then dirties[entry.account] else 0) + 1];
    }

    /** Undoes entries, last first, until only the first snapshot ones are left. */
    method Revert(statedb: CacheState, snapshot: nat)
      requires snapshot <= |entries| && statedb.journal == this && statedb.Coherent()
      requires Unwinds(statedb.view, entries) && dirties == Tally(entries)
      modifies this, statedb`accounts, statedb`view, statedb.objects
      ensures statedb.Coherent() && statedb.objects == old(statedb.objects)
      ensures statedb.view == Rewound(old(statedb.view), old(entries), snapshot)
      ensures entries == old(entries)[..snapshot] && dirties == Tally(entries)
    {
      UndoDownTo(statedb, snapshot);
      entries := entries[..snapshot];
    }

    method UndoDownTo(statedb: CacheState, snapshot: nat)
      requires snapshot <= |entries| && statedb.journal == this && statedb.Coherent()
      requires Unwinds(statedb.view, entries) && dirties == Tally(entries)
      modifies this`dirties, statedb`accounts, statedb`view, statedb.objects
      ensures statedb.Coherent() && statedb.objects == old(statedb.objects)
      ensures statedb.view == Rewound(old(statedb.view), entries, snapshot)
      ensures dirties == Tally(entries[..snapshot])
    {
      var i := |entries|;
      ghost var start := statedb.view;
      assert entries[..i] == entries;
      while i > snapshot
        invariant snapshot <= i <= |entries| && statedb.Coherent() && statedb.objects == old(statedb.objects)
        invariant statedb.view == Rewound(start, entries, i)
        invariant Unwinds(statedb.view, entries[..i]) && dirties == Tally(entries[..i])
      {
        i := i - 1;
        RevertNext(statedb, i, start);
      }
    }

    method RevertNext(statedb: CacheState, i: nat, ghost start: Accounts)
      requires i < |entries| && statedb.journal == this && statedb.Coherent()
      requires statedb.view == Rewound(start, entries, i + 1)
      requires Unwinds(statedb.view, entries[..i + 1]) && dirties == Tally(entries[..i + 1])
      modifies this`dirties, statedb`accounts, statedb`view, statedb.objects
      ensures statedb.Coherent() && statedb.objects == old(statedb.objects)
      ensures statedb.view == Rewound(start, entries, i)
      ensures Unwinds(statedb.view, entries[..i]) && dirties == Tally(entries[..i])
    {
      RewoundOneMore(start, entries, i);
      RevertAt(statedb, i);
    }

    /** Undoes the change one entry made, and drops the dirty tracking it caused. */
    method RevertAt(statedb: CacheState, i: nat)
      requires i < |entries| && statedb.journal == this && statedb.Coherent()
      requires Unwinds(statedb.view, entries[..i + 1]) && dirties == Tally(entries[..i + 1])
      modifies this`dirties, statedb`accounts, statedb`view, statedb.objects
      ensures statedb.Coherent() && statedb.objects == old(statedb.objects)
      ensures statedb.view == Undo(entries[i], old(statedb.view))
      ensures Unwinds(statedb.view, entries[..i]) && dirties == Tally(entries[..i])
    {
      LastUndone(statedb.view, entries, i);
      statedb.RevertEntry(entries[i]);
      DropAddress(entries[i].account);
    }

    method DropAddress(addr: Address)
      modifies this`dirties
      ensures dirties == Drop(old(dirties), addr)
    {
      dirties := dirties[addr := (if addr in dirties then dirties[addr] else 0) - 1];
      if dirties[addr] == 0 {
        dirties := dirties - {addr};
      }
    }
  }

  function WithAccount(accounts: Accounts, addr: Address): Accounts {
    if addr in accounts then accounts else accounts[addr := NEW_ACCOUNT]
  }

  lemma InTwoSteps(accounts: Accounts, base: Accounts, addr: Address, key: Key)
    ensures var created := WithAccount(accounts, addr);
      FilledIn(accounts, base, addr, key) == created[addr := Filled(created[addr], base, addr, key)]
  {
  }

  lemma LastUndone(accounts: Accounts, entries: seq<Entry>, i: nat)
    requires i < |entries| && Unwinds(accounts, entries[..i + 1])
    ensures entries[i].account in accounts
    ensures Unwinds(Undo(entries[i], accounts), entries[..i])
    ensures Drop(Tally(entries[..i + 1]), entries[i].account) == Tally(entries[..i])
  {
    assert entries[..i + 1][..i] == entries[..i];
    DroppedIsTally(entries[..i + 1], i);
  }

  lemma {:induction false} RewoundOneMore(accounts: Accounts, entries: seq<Entry>, i: nat)
    requires i < |entries|
    ensures Rewound(accounts, entries, i) == Undo(entries[i], Rewound(accounts, entries, i + 1))
  {
    RewoundTwice(accounts, entries, i + 1, i);
    assert entries[..i + 1][..i] == entries[..i];
  }

  /** op finds its account, journals e for it and changes nothing else. */
  ghost predicate Overwrites(op: Op, accounts: Accounts, e: Entry) {
    && Hits(op, accounts)
    && Journalled(op, accounts) == [e]
    && e.account in Apply(op, accounts)
    && Apply(op, accounts) == accounts[e.account := Apply(op, accounts)[e.account]]
  }

  lemma SlotOverwrites(accounts: Accounts, a: Address, key: Hash, value: Hash)
    requires a in accounts && key in accounts[a].storage
    ensures var op := Op.SetState(a, key, value);
      && Overwrites(op, accounts, StorageChange(a, key, accounts[a].storage[key]))
      && Apply(op, accounts)[a] == accounts[a].(storage := accounts[a].storage[key := value])
  {
  }

  /** A slot that is not cached is the one thing that sets the judgement to false here. */
  lemma SlotMissed(c: Cache, a: Address, key: Hash, value: Hash)
    ensures var cached := a in c.accounts && key in c.accounts[a].storage;
      && Write(c, Op.GetState(a, key)) == (if cached then c else c.(judge := false))
      && (!cached ==> Write(c, Op.SetState(a, key, value)) == c.(judge := false))
    ensures Caches.Valid(c) ==> Caches.Valid(c.(judge := false))
  {
  }

  lemma BalanceOverwrites(op: Op, accounts: Accounts, a: Address, amount: int, balance: int)
    requires a in accounts
    requires || (op == Op.SubBalance(a, amount) && balance == accounts[a].balance - amount)
             || (op == Op.AddBalance(a, amount) && balance == accounts[a].balance + amount)
             || (op == Op.SetBalance(a, amount) && balance == amount)
    ensures Overwrites(op, accounts, BalanceChange(a, accounts[a].balance))
    ensures Apply(op, accounts)[a] == accounts[a].(balance := balance)
  {
  }

  lemma CodeOverwrites(accounts: Accounts, a: Address, code: seq<nat>, codeHash: Hash)
    requires a in accounts
    ensures Overwrites(Op.SetCode(a, code, codeHash), accounts, CodeChange(a, accounts[a].code, accounts[a].codeHash))
    ensures Apply(Op.SetCode(a, code, codeHash), accounts)[a] == accounts[a].(code := code, codeHash := codeHash)
  {
  }

  lemma DestructOverwrites(accounts: Accounts, a: Address)
    requires a in accounts
    ensures Overwrites(Op.SelfDestruct(a), accounts, SelfDestructed(a, accounts[a].alive, accounts[a].balance))
    ensures Apply(Op.SelfDestruct(a), accounts)[a] == accounts[a].(alive := false, balance := 0)
  {
  }

  lemma NonceOverwrites(accounts: Accounts, a: Address, nonce: nat)
    requires a in accounts
    ensures var op := Op.SetNonce(a, nonce);
      && Overwrites(op, accounts, NonceChange(a, accounts[a].nonce))
      && Apply(op, accounts)[a] == accounts[a].(nonce := nonce)
  {
  }

  /** While nothing is journalled the accounts may be filled freely. */
  lemma StillValidAfter(c: Cache, now: Cache)
    requires Caches.Valid(c) && now == c.(accounts := now.accounts)
    ensures c.entries == [] ==> Caches.Valid(now)
  {
  }

  lemma WriteIs(c: Cache, op: Op, e: Entry)
    requires Overwrites(op, c.accounts, e)
    ensures Write(c, op) == Cache(c.accounts[e.account := Apply(op, c.accounts)[e.account]], c.entries + [e],
                                  Bump(c.dirties, e.account), c.revisions, c.nextId, c.judge)
  {
  }

  lemma RevertIs(c: Cache, id: nat) returns (back: Cache)
    requires Caches.Valid(c) && Revert(c, id).Some?
    ensures back == Revert(c, id).value && Caches.Valid(back)
    ensures var i := FirstAtLeast(c.revisions, id); var n := c.revisions[i].journalIndex;
      back == Cache(Rewound(c.accounts, c.entries, n), c.entries[..n], Tally(c.entries[..n]), c.revisions[..i],
                    c.nextId, c.judge)
  {
    back := Revert(c, id).value;
    RevertKeepsValid(c, id);
  }

  class CacheState {
    var accounts: map<Address, AccountObject>
    const journal: Journal
    var validRevisions: seq<Revision>
    var nextRevisionId: nat
    var stateJudge: bool
    var prefetching: bool
    var prefetched: ALTuple
    ghost var view: Accounts
    ghost var objects: set<AccountObject>

    constructor ()
      ensures Valid() && fresh(journal) && accounts == map[] && objects == {} && prefetched == map[]
      ensures Model() == Fresh(map[])
    {
      accounts, validRevisions, nextRevisionId, prefetched := map[], [], 0, map[];
      stateJudge, prefetching := true, false;
      journal := new Journal();
      view, objects := map[], {};
    }

    /** Every address has its own object, and view is what the objects hold. */
    ghost predicate Coherent()
      reads this`accounts, this`view, this`objects, objects
    {
      && accounts.Keys == view.Keys
      && forall a :: a in accounts ==>
           accounts[a] in objects && accounts[a].address == a && accounts[a].View() == view[a]
    }

    ghost function Model(): Cache
      reads this`view, this`validRevisions, this`nextRevisionId, this`stateJudge, journal
    {
      Cache(view, journal.entries, journal.dirties, validRevisions, nextRevisionId, stateJudge)
    }

    ghost predicate Valid()
      reads this, journal, objects
    {
      Coherent() && !prefetching && Caches.Valid(Model())
    }

    /** The journal entry and the changed account together are the write the setter stands for. */
    lemma Wrote(was: Cache, op: Op, e: Entry)
      requires Caches.Valid(was) && Overwrites(op, was.accounts, e)
      requires accounts.Keys == was.accounts.Keys + {e.account}
      requires forall a :: a in accounts ==> accounts[a] in objects && accounts[a].address == a
      requires forall a :: a in accounts && a != e.account ==> accounts[a].View() == was.accounts[a]
      requires accounts[e.account].View() == Apply(op, was.accounts)[e.account]
      requires view == was.accounts[e.account := accounts[e.account].View()]
      requires journal.entries == was.entries + [e] && journal.dirties == Bump(was.dirties, e.account)
      requires validRevisions == was.revisions && nextRevisionId == was.nextId && stateJudge == was.judge
      ensures Coherent() && Caches.Valid(Model()) && Model() == Write(was, op)
    {
      WriteKeepsValid(was, op);
      WriteIs(was, op, e);
    }

    // ---------- getters ----------

    method GetBalance(addr: Address) returns (balance: int)
      requires Coherent()
      ensures balance == if addr in view then view[addr].balance else 0
    {
      if addr in accounts {
        return accounts[addr].balance;
      }
      return 0;
    }

    method GetNonce(addr: Address) returns (nonce: nat)
      requires Coherent()
      ensures nonce == if addr in view then view[addr].nonce else 0
    {
      if addr in accounts {
        return accounts[addr].nonce;
      }
      return 0;
    }

    method GetCodeHash(addr: Address) returns (hash: Hash)
      requires Valid()
      modifies this`stateJudge
      ensures Valid() && Model() == Write(old(Model()), Op.GetCode(addr))
      ensures stateJudge == (old(stateJudge) && addr in view)
      ensures hash == if addr in view then view[addr].codeHash else 0
    {
      if addr in accounts {
        return accounts[addr].codeHash;
      }
      stateJudge := false;
      return 0;
    }

    method GetCode(addr: Address) returns (code: seq<nat>)
      requires Valid()
      modifies this`stateJudge
      ensures Valid() && Model() == Write(old(Model()), Op.GetCode(addr))
      ensures stateJudge == (old(stateJudge) && addr in view)
      ensures code == if addr in view then view[addr].code else []
    {
      if addr in accounts {
        return accounts[addr].code;
      }
      stateJudge := false;
      return [];
    }

    method GetCodeSize(addr: Address) returns (size: nat)
      requires Valid()
      modifies this`stateJudge
      ensures Valid() && Model() == Write(old(Model()), Op.GetCode(addr))
      ensures stateJudge == (old(stateJudge) && addr in view)
      ensures size == if addr in view then |view[addr].code| else 0
    {
      if addr in accounts {
        return |accounts[addr].code|;
      }
      stateJudge := false;
      return 0;
    }

    method GetState(addr: Address, key: Hash) returns (value: Hash)
      requires Valid()
      modifies this`stateJudge
      ensures Valid() && Model() == Write(old(Model()), Op.GetState(addr, key))
      ensures stateJudge == (old(stateJudge) && addr in view && key in view[addr].storage)
      ensures value == if addr in view && key in view[addr].storage then view[addr].storage[key] else 0
    {
      SlotMissed(Model(), addr, key, 0);
      if addr in accounts {
        var val, ok := accounts[addr].GetStorageState(key);
        if ok {
          return val;
        }
        stateJudge := false;
        return 0;
      }
      stateJudge := false;
      return 0;
    }

    // ---------- setters ----------

    /** The journal has the entry e more than `was`; nothing else has changed. */
    ghost predicate Logged(was: Cache, e: Entry)
      reads this, journal
    {
      && view == was.accounts && journal.entries == was.entries + [e]
      && journal.dirties == Bump(was.dirties, e.account)
      && validRevisions == was.revisions && nextRevisionId == was.nextId && stateJudge == was.judge
    }

    method Log(e: Entry, ghost was: Cache)
      requires Coherent() && was == Model()
      modifies journal
      ensures Coherent() && Logged(was, e)
    {
      journal.Append(e);
    }

    /** After the journal, the object has been changed: together that is the write. */
    method Show(obj: AccountObject, e: Entry, ghost op: Op, ghost was: Cache)
      requires Caches.Valid(was) && Overwrites(op, was.accounts, e) && Logged(was, e)
      requires accounts.Keys == was.accounts.Keys && e.account in accounts && accounts[e.account] == obj
      requires forall a :: a in accounts ==> accounts[a] in objects && accounts[a].address == a
      requires forall a :: a in accounts && a != e.account ==> accounts[a].View() == was.accounts[a]
      requires obj.View() == Apply(op, was.accounts)[e.account]
      modifies this`view
      ensures Coherent() && Caches.Valid(Model()) && Model() == Write(was, op)
    {
      view := view[e.account := obj.View()];
      Wrote(was, op, e);
    }

    method AddNewObject(addr: Address)
      requires Coherent() && addr !in accounts
      modifies this`accounts, this`view, this`objects
      ensures Coherent() && addr in accounts && fresh(accounts[addr]) && objects == old(objects) + {accounts[addr]}
      ensures accounts == old(accounts)[addr := accounts[addr]]
      ensures view == old(view)[addr := NEW_ACCOUNT]
    {
      var obj := new AccountObject(addr);
      accounts := accounts[addr := obj];
      view, objects := view[addr := NEW_ACCOUNT], objects + {obj};
    }

    method CreateAccount(addr: Address)
      requires Coherent() && (!prefetching ==> Caches.Valid(Model()))
      modifies this`accounts, this`view, this`objects, journal
      ensures Coherent() && addr in accounts && fresh(objects - old(objects))
      ensures addr in old(view) ==> view == old(view)
      ensures addr !in old(view) ==> view == old(view)[addr := Account(0, 0, EMPTY_CODE_HASH, [], map[], true)]
      ensures prefetching ==> unchanged(journal) && view == WithAccount(old(view), addr)
      ensures !prefetching ==> Caches.Valid(Model()) && Model() == Write(old(Model()), Op.CreateAccount(addr))
    {
      if addr in accounts {
        return;
      }
      if prefetching {
        AddNewObject(addr);
        return;
      }
      journal.Append(CreateObject(addr));
      AddNewObject(addr);
      Wrote(old(Model()), Op.CreateAccount(addr), CreateObject(addr));
    }

    method SubBalance(addr: Address, amount: int)
      requires Valid()
      modifies this`view, journal, objects
      ensures Valid() && Model() == Write(old(Model()), Op.SubBalance(addr, amount))
      ensures view == if addr in old(view)
                      then old(view)[addr := old(view)[addr].(balance := old(view)[addr].balance - amount)]
                      else old(view)
    {
      BalanceAfter(Model(), addr, amount);
      if addr in accounts {
        LowerBalance(addr, amount);
      }
    }

    method LowerBalance(addr: Address, amount: int)
      requires Valid() && addr in accounts
      modifies this`view, journal, objects
      ensures Valid() && Model() == Write(old(Model()), Op.SubBalance(addr, amount))
    {
      var obj := accounts[addr];
      ghost var was := Model();
      BalanceOverwrites(Op.SubBalance(addr, amount), was.accounts, addr, amount, was.accounts[addr].balance - amount);
      var e := BalanceChange(addr, obj.balance);
      if !prefetching {
        Log(e, was);
      }
      obj.SubBalance(amount);
      Show(obj, e, Op.SubBalance(addr, amount), was);
    }

    method AddBalance(addr: Address, amount: int)
      requires Valid()
      modifies this`view, journal, objects
      ensures Valid() && Model() == Write(old(Model()), Op.AddBalance(addr, amount))
      ensures view == if addr in old(view)
                      then old(view)[addr := old(view)[addr].(balance := old(view)[addr].balance + amount)]
                      else old(view)
    {
      BalanceAfter(Model(), addr, amount);
      if addr in accounts {
        RaiseBalance(addr, amount);
      }
    }

    method RaiseBalance(addr: Address, amount: int)
      requires Valid() && addr in accounts
      modifies this`view, journal, objects
      ensures Valid() && Model() == Write(old(Model()), Op.AddBalance(addr, amount))
    {
      var obj := accounts[addr];
      ghost var was := Model();
      BalanceOverwrites(Op.AddBalance(addr, amount), was.accounts, addr, amount, was.accounts[addr].balance + amount);
      var e := BalanceChange(addr, obj.balance);
      if !prefetching {
        Log(e, was);
      }
      obj.AddBalance(amount);
      Show(obj, e, Op.AddBalance(addr, amount), was);
    }

    method SetBalance(addr: Address, amount: int)
      requires Valid()
      modifies this`view, journal, objects
      ensures Valid() && Model() == Write(old(Model()), Op.SetBalance(addr, amount))
      ensures view == if addr in old(view) then old(view)[addr := old(view)[addr].(balance := amount)] else old(view)
    {
      BalanceAfter(Model(), addr, amount);
      if addr in accounts {
        ReplaceBalance(addr, amount);
      }
    }

    method ReplaceBalance(addr: Address, amount: int)
      requires Valid() && addr in accounts
      modifies this`view, journal, objects
      ensures Valid() && Model() == Write(old(Model()), Op.SetBalance(addr, amount))
    {
      var obj := accounts[addr];
      ghost var was := Model();
      BalanceOverwrites(Op.SetBalance(addr, amount), was.accounts, addr, amount, amount);
      var e := BalanceChange(addr, obj.balance);
      Log(e, was);
      obj.SetBalance(amount);
      Show(obj, e, Op.SetBalance(addr, amount), was);
    }

    method SetNonce(addr: Address, nonce: nat)
      requires Valid()
      modifies this`view, journal, objects
      ensures Valid() && Model() == Write(old(Model()), Op.SetNonce(addr, nonce))
      ensures view == if addr in old(view) then old(view)[addr := old(view)[addr].(nonce := nonce)] else old(view)
    {
      NonceAfter(Model(), addr, nonce);
      if addr in accounts {
        ReplaceNonce(addr, nonce);
      }
    }

    method ReplaceNonce(addr: Address, nonce: nat)
      requires Valid() && addr in accounts
      modifies this`view, journal, objects
      ensures Valid() && Model() == Write(old(Model()), Op.SetNonce(addr, nonce))
    {
      var obj := accounts[addr];
      ghost var was := Model();
      var e := NonceChange(addr, obj.nonce);
      NonceOverwrites(was.accounts, addr, nonce);
      Log(e, was);
      obj.SetNonce(nonce);
      Show(obj, e, Op.SetNonce(addr, nonce), was);
    }

    method SetCode(addr: Address, code: seq<nat>, keccak: seq<nat> -> Hash)
      requires Valid()
      modifies this`view, this`stateJudge, journal, objects
      ensures Valid() && Model() == Write(old(Model()), Op.SetCode(addr, code, keccak(code)))
      ensures stateJudge == (old(stateJudge) && addr in old(view))
      ensures view == if addr in old(view)
                      then old(view)[addr := old(view)[addr].(code := code, codeHash := keccak(code))] else old(view)
    {
      CodeAfter(Model(), addr, code, keccak(code));
      if addr in accounts {
        ReplaceCode(addr, code, keccak(code));
        return;
      }
      stateJudge := false;
    }

    method ReplaceCode(addr: Address, code: seq<nat>, codeHash: Hash)
      requires Valid() && addr in accounts
      modifies this`view, journal, objects
      ensures Valid() && Model() == Write(old(Model()), Op.SetCode(addr, code, codeHash))
    {
      ghost var was := Model();
      CodeOverwrites(was.accounts, addr, code, codeHash);
      var obj := accounts[addr];
      var e := CodeChange(addr, obj.code, obj.codeHash);
      if !prefetching {
        Log(e, was);
      }
      obj.SetCode(codeHash, code);
      Show(obj, e, Op.SetCode(addr, code, codeHash), was);
    }

    method SetState(addr: Address, key: Hash, value: Hash)
      requires Valid()
      modifies this`view, this`stateJudge, journal, objects
      ensures Valid() && Model() == Write(old(Model()), Op.SetState(addr, key, value))
      ensures stateJudge == (old(stateJudge) && addr in old(view) && key in old(view)[addr].storage)
      ensures view == if addr in old(view) && key in old(view)[addr].storage
                      then old(view)[addr := old(view)[addr].(storage := old(view)[addr].storage[key := value])]
                      else old(view)
    {
      SlotAfter(Model(), addr, key, value);
      SlotMissed(Model(), addr, key, value);
      if addr in accounts {
        var obj := accounts[addr];
        var val, ok := obj.GetStorageState(key);
        if ok {
          ReplaceSlot(addr, key, val, value);
        } else {
          stateJudge := false;
        }
        return;
      }
      stateJudge := false;
    }

    /** SetState on a slot that is cached: journalled, then overwritten. */
    method ReplaceSlot(addr: Address, key: Hash, val: Hash, value: Hash)
      requires Valid() && addr in accounts && key in accounts[addr].storage && val == accounts[addr].storage[key]
      modifies this`view, journal, objects
      ensures Valid() && Model() == Write(old(Model()), Op.SetState(addr, key, value))
    {
      ghost var was := Model();
      SlotOverwrites(was.accounts, addr, key, value);
      var obj := accounts[addr];
      var e := StorageChange(addr, key, val);
      Log(e, was);
      obj.SetStorageState(key, value);
      Show(obj, e, Op.SetState(addr, key, value), was);
    }

    method SelfDestruct(addr: Address)
      requires Valid()
      modifies this`view, journal, objects
      ensures Valid() && Model() == Write(old(Model()), Op.SelfDestruct(addr))
      ensures view == if addr in old(view) then old(view)[addr := old(view)[addr].(alive := false, balance := 0)]
                      else old(view)
    {
      LifeAfter(Model(), addr);
      if addr !in accounts {
        return;
      }
      Destroy(addr);
    }

    method Destroy(addr: Address)
      requires Valid() && addr in accounts
      modifies this`view, journal, objects
      ensures Valid() && Model() == Write(old(Model()), Op.SelfDestruct(addr))
    {
      var obj := accounts[addr];
      ghost var was := Model();
      DestructOverwrites(was.accounts, addr);
      var e := SelfDestructed(addr, obj.alive, obj.balance);
      Log(e, was);
      obj.Destruct();
      Show(obj, e, Op.SelfDestruct(addr), was);
    }

    // ---------- snapshots ----------

    method Snapshot() returns (id: nat)
      requires Valid()
      modifies this`validRevisions, this`nextRevisionId
      ensures Valid() && Model() == Mark(old(Model())) && id == old(nextRevisionId)
    {
      id := nextRevisionId;
      nextRevisionId := nextRevisionId + 1;
      validRevisions := validRevisions + [Revision(id, |journal.entries|)];
    }

    /** One journal entry's revert. */
    method RevertEntry(e: Entry)
      requires Coherent() && e.account in accounts
      modifies this`accounts, this`view, objects
      ensures Coherent() && view == Undo(e, old(view))
    {
      if e.CreateObject? {
        accounts := accounts - {e.account};
      } else {
        accounts[e.account].Restore(e);
      }
      view := Undo(e, view);
    }

    /** The library's binary search over the revision ids. */
    method Search(id: nat) returns (i: nat)
      requires Stacked(validRevisions, nextRevisionId, |journal.entries|)
      ensures i == FirstAtLeast(validRevisions, id)
    {
      var j := |validRevisions|;
      i := 0;
      while i < j
        invariant i <= j <= |validRevisions|
        invariant forall k :: 0 <= k < i ==> validRevisions[k].id < id
        invariant j < |validRevisions| ==> validRevisions[j].id >= id
      {
        var h := (i + j) / 2;
        if validRevisions[h].id < id {
          i := h + 1;
        } else {
          j := h;
        }
      }
    }

    /** False stands for the panic on an id that is not on the stack. */
    method RevertToSnapshot(id: nat) returns (ok: bool)
      requires Valid()
      modifies this`accounts, this`view, this`validRevisions, journal, objects
      ensures Valid()
      ensures ok <==> Revert(old(Model()), id).Some?
      ensures Model() == if ok then Revert(old(Model()), id).value else old(Model())
    {
      var idx := Search(id);
      if idx == |validRevisions| || validRevisions[idx].id != id {
        return false;
      }
      ghost var back := RevertIs(Model(), id);
      RevertToRevision(idx);
      return true;
    }

    /** The rest of RevertToSnapshot: undoes the journal down to the revision and drops it and all after it. */
    method RevertToRevision(idx: nat)
      requires Valid() && idx < |validRevisions|
      modifies this`accounts, this`view, this`validRevisions, journal, objects
      ensures Coherent()
      ensures var c := old(Model()); var n := c.revisions[idx].journalIndex;
        Model() == Cache(Rewound(c.accounts, c.entries, n), c.entries[..n], Tally(c.entries[..n]),
                         c.revisions[..idx], c.nextId, c.judge)
    {
      var snapshot := validRevisions[idx].journalIndex;
      journal.Revert(this, snapshot);
      validRevisions := validRevisions[..idx];
    }

    // ---------- prefetching ----------

    method Fill(base: Accounts, addr: Address, key: Key)
      requires Coherent() && prefetching
      modifies this`accounts, this`view, this`objects, journal, objects
      ensures Coherent() && unchanged(journal) && fresh(objects - old(objects))
      ensures view == FilledIn(old(view), base, addr, key)
    {
      InTwoSteps(view, base, addr, key);
      CreateAccount(addr);
      FillObject(base, accounts[addr], key);
    }

    method FillObject(base: Accounts, obj: AccountObject, key: Key)
      requires Coherent() && obj.address in accounts && accounts[obj.address] == obj
      modifies this`view, obj
      ensures Coherent() && view == old(view)[obj.address := Filled(old(view)[obj.address], base, obj.address, key)]
    {
      obj.Fill(base, key);
      view := view[obj.address := obj.View()];
    }

    method PrefetchSetter(base: Accounts, addr: Address, key: Key, ghost before: Accounts, ghost had: ALTuple,
                          ghost got: ALTuple) returns (ghost more: ALTuple)
      requires Coherent() && prefetching && Fetching(before, base, had, view, prefetched, got)
      modifies this`accounts, this`view, this`objects, this`prefetched, journal, objects
      ensures Coherent() && unchanged(journal) && fresh(objects - old(objects))
      ensures Fetching(before, base, had, view, prefetched, more) && Copied(before, base, more, view)
      ensures forall a, k :: Contains(prefetched, a, k) <==> Contains(old(prefetched), a, k) || (a == addr && k == key)
    {
      FetchingCopies(before, base, had, view, prefetched, got);
      more := got;
      if Contains(prefetched, addr, key) {
        return;
      }
      FetchingOneMore(before, base, had, view, prefetched, got, addr, key);
      more := Add(got, addr, key);
      FetchNew(base, addr, key);
      FetchingCopies(before, base, had, view, prefetched, more);
    }

    method FetchNew(base: Accounts, addr: Address, key: Key)
      requires Coherent() && prefetching
      modifies this`accounts, this`view, this`objects, this`prefetched, journal, objects
      ensures Coherent() && unchanged(journal) && fresh(objects - old(objects))
      ensures view == FilledIn(old(view), base, addr, key)
      ensures prefetched == Add(old(prefetched), addr, key)
    {
      prefetched := Add(prefetched, addr, key);
      Fill(base, addr, key);
    }

    method PrefetchTuple(base: Accounts, tuple: ALTuple, ghost before: Accounts, ghost had: ALTuple,
                         ghost got: ALTuple) returns (ghost more: ALTuple)
      requires Coherent() && prefetching && Fetching(before, base, had, view, prefetched, got)
      modifies this`accounts, this`view, this`objects, this`prefetched, journal, objects
      ensures Coherent() && unchanged(journal) && fresh(objects - old(objects))
      ensures Fetching(before, base, had, view, prefetched, more)
      ensures forall a, k :: Contains(prefetched, a, k) <==> Contains(old(prefetched), a, k) || Contains(tuple, a, k)
    {
      more := got;
      var addrs := tuple.Keys;
      while addrs != {}
        invariant addrs <= tuple.Keys && Coherent() && unchanged(journal)
        invariant fresh(objects - old(objects))
        invariant Fetching(before, base, had, view, prefetched, more)
        invariant forall a, k :: Contains(prefetched, a, k) <==>
                    Contains(old(prefetched), a, k) || (Contains(tuple, a, k) && a !in addrs)
      {
        var addr :| addr in addrs;
        ghost var done := prefetched;
        var keys := tuple[addr];
        while keys != {}
          invariant keys <= tuple[addr] && Coherent() && unchanged(journal)
          invariant fresh(objects - old(objects))
          invariant Fetching(before, base, had, view, prefetched, more)
          invariant forall a, k :: Contains(prefetched, a, k) <==>
                      Contains(done, a, k) || (a == addr && k in tuple[addr] && k !in keys)
        {
          var key :| key in keys;
          more := PrefetchSetter(base, addr, key, before, had, more);
          keys := keys - {key};
        }
        addrs := addrs - {addr};
      }
    }

    /** Copies every requested entry that was not prefetched before, without the journal; got is what it copied. */
    method Prefetch(base: Accounts, rwSets: seq<Access>) returns (ghost got: ALTuple)
      requires Valid()
      modifies this`accounts, this`view, this`objects, this`prefetched, this`prefetching, journal, objects
      ensures Coherent() && !prefetching && unchanged(journal) && fresh(objects - old(objects))
      ensures old(journal.entries) == [] ==> Valid()
      ensures Fetching(old(view), base, old(prefetched), view, prefetched, got)
      ensures Copied(old(view), base, got, view)
      ensures old(view) == map[] && old(prefetched) == map[] ==> FreshlyPrefetched(base, rwSets, view)
      ensures forall a, k :: Contains(prefetched, a, k) <==> Contains(old(prefetched), a, k) || Requested(rwSets, a, k)
    {
      ghost var c, before, had := Model(), view, prefetched;
      prefetching := true;
      got := PrefetchAll(base, rwSets);
      ghost var now := Model();
      StopPrefetching();
      StillValidAfter(c, now);
      PrefetchMeans(before, base, had, view, prefetched, got, rwSets);
    }

    method StopPrefetching()
      requires Coherent()
      modifies this`prefetching
      ensures Coherent() && !prefetching && Model() == old(Model())
    {
      prefetching := false;
    }

    method PrefetchAll(base: Accounts, rwSets: seq<Access>) returns (ghost got: ALTuple)
      requires Coherent() && prefetching
      modifies this`accounts, this`view, this`objects, this`prefetched, journal, objects
      ensures Coherent() && unchanged(journal) && fresh(objects - old(objects))
      ensures Model() == old(Model()).(accounts := view)
      ensures Fetching(old(view), base, old(prefetched), view, prefetched, got)
      ensures forall a, k :: Contains(prefetched, a, k) <==> Contains(old(prefetched), a, k) || Requested(rwSets, a, k)
    {
      ghost var before, had := view, prefetched;
      FetchingStarts(before, base, had);
      got := map[];
      for i := 0 to |rwSets|
        invariant Coherent() && prefetching && unchanged(journal)
        invariant fresh(objects - old(objects))
        invariant Fetching(before, base, had, view, prefetched, got)
        invariant forall a, k :: Contains(prefetched, a, k) <==> Contains(had, a, k) || Requested(rwSets[..i], a, k)
      {
        RequestedOneMore(rwSets, i);
        got := PrefetchSets(base, rwSets[i], before, had, got);
      }
      assert rwSets[..|rwSets|] == rwSets;
    }

    method PrefetchSets(base: Accounts, rwSet: Access, ghost before: Accounts, ghost had: ALTuple, ghost got: ALTuple)
      returns (ghost more: ALTuple)
      requires Coherent() && prefetching && Fetching(before, base, had, view, prefetched, got)
      modifies this`accounts, this`view, this`objects, this`prefetched, journal, objects
      ensures Coherent() && unchanged(journal) && fresh(objects - old(objects))
      ensures Fetching(before, base, had, view, prefetched, more)
      ensures forall a, k :: Contains(prefetched, a, k) <==>
        Contains(old(prefetched), a, k) || Contains(rwSet.readSet, a, k) || Contains(rwSet.writeSet, a, k)
    {
      more := PrefetchTuple(base, rwSet.readSet, before, had, got);
      more := PrefetchTuple(base, rwSet.writeSet, before, had, more);
    }

    // ---------- merging ----------

    /** Writes one account into the target: balance, nonce, code, and every slot it has cached. */
    method MergeAccount(target: SharedState, addr: Address, keccak: seq<nat> -> Hash)
      requires Coherent() && addr in accounts
      modifies target`accounts
      ensures target.accounts == Merged(old(target.accounts), view, {addr}, keccak)
    {
      var obj := accounts[addr];
      target.SetBalance(addr, obj.balance);
      target.SetNonce(addr, obj.nonce);
      target.SetCode(addr, obj.code, keccak);
      ghost var start, written := target.accounts, map[];
      var slots := obj.storage.Keys;
      NothingWritten(start, addr);
      while slots != {}
        invariant slots <= obj.storage.Keys && written.Keys == obj.storage.Keys - slots
        invariant forall slot :: slot in written ==> written[slot] == obj.storage[slot]
        invariant target.accounts == SlotsWritten(start, addr, written)
      {
        var slot :| slot in slots;
        OneMoreWritten(start, addr, written, slot, obj.storage[slot]);
        target.SetState(addr, slot, obj.storage[slot]);
        written := written[slot := obj.storage[slot]];
        slots := slots - {slot};
      }
      assert written == obj.storage;
      MergedByParts(old(target.accounts), view, addr, keccak);
    }

    /** Writes back every dirty account; which are not missing, by what Valid says of the journal. */
    method MergeState(target: SharedState, keccak: seq<nat> -> Hash)
      requires Valid()
      modifies target`accounts
      ensures target.accounts == Merged(old(target.accounts), view, journal.dirties.Keys, keccak)
      ensures DirtyMerged(old(target.accounts), view, journal.dirties.Keys, keccak, target.accounts)
    {
      ghost var start := target.accounts;
      var addrs := journal.dirties.Keys;
      MergedNone(start, view, keccak);
      while addrs != {}
        invariant addrs <= journal.dirties.Keys
        invariant target.accounts == Merged(start, view, journal.dirties.Keys - addrs, keccak)
      {
        var addr :| addr in addrs;
        DirtyExists(Model(), addr);
        MergedOneMore(start, view, journal.dirties.Keys - addrs, addr, keccak);
        MergeAccount(target, addr, keccak);
        assert journal.dirties.Keys - (addrs - {addr}) == (journal.dirties.Keys - addrs) + {addr};
        addrs := addrs - {addr};
      }
      assert journal.dirties.Keys - addrs == journal.dirties.Keys;
      MergedMeans(start, view, journal.dirties.Keys, keccak);
    }
  }
}
