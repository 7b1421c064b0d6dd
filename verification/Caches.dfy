/**
 * What a cache state holds, as a value: accounts, the undo journal, the dirty counters and the stack of
 * revisions; and what each of its operations does to that value.
 */
module Caches {
  import opened AccessLists

  datatype Option<T> = None | Some(value: T)

  /** Keccak-256 of no code at all. */
  const EMPTY_CODE_HASH: Hash := 0xc5d2460186f7233c927e7db2dcc703c0e500b653ca82273b7bfad8045d85a470

  datatype Account = Account(nonce: nat, balance: int, codeHash: Hash, code: seq<nat>, storage: map<Hash, Hash>,
                             alive: bool)

  const NEW_ACCOUNT := Account(0, 0, EMPTY_CODE_HASH, [], map[], true)

  type Accounts = map<Address, Account>

  datatype Entry =
    | CreateObject(account: Address)
    | SelfDestructed(account: Address, prevAlive: bool, prevBalance: int)
    | BalanceChange(account: Address, prev: int)
    | NonceChange(account: Address, prevNonce: nat)
    | StorageChange(account: Address, key: Hash, prevValue: Hash)
    | CodeChange(account: Address, prevCode: seq<nat>, prevHash: Hash)

  datatype Revision = Revision(id: nat, journalIndex: nat)

  datatype Cache = Cache(accounts: Accounts, entries: seq<Entry>, dirties: map<Address, int>,
                         revisions: seq<Revision>, nextId: nat, judge: bool)

  datatype Op =
    | CreateAccount(addr: Address)
    | SubBalance(addr: Address, amount: int)
    | AddBalance(addr: Address, amount: int)
    | SetBalance(addr: Address, amount: int)
    | SetNonce(addr: Address, nonce: nat)
    | SetCode(addr: Address, code: seq<nat>, codeHash: Hash)
    | SetState(addr: Address, key: Hash, value: Hash)
    | SelfDestruct(addr: Address)
    | GetState(addr: Address, key: Hash)
    | GetCode(addr: Address)
    | Snapshot
    | RevertToSnapshot(id: nat)

  // ---------- undoing ----------

  /** The account with the value the entry overwrote. */
  function Restored(e: Entry, account: Account): Account {
    match e
    case CreateObject(_) => account
    case SelfDestructed(_, alive, balance) => account.(alive := alive, balance := balance)
    case BalanceChange(_, balance) => account.(balance := balance)
    case NonceChange(_, nonce) => account.(nonce := nonce)
    case StorageChange(_, key, value) => account.(storage := account.storage[key := value])
    case CodeChange(_, code, hash) => account.(code := code, codeHash := hash)
  }

  /** What an entry's revert does to the accounts. All but the first two kinds would fail on a missing account. */
  function Undo(e: Entry, accounts: Accounts): Accounts {
    if e.CreateObject? then accounts - {e.account}
    else if e.account !in accounts then accounts
    else accounts[e.account := Restored(e, accounts[e.account])]
  }

  /** The accounts after undoing the last entries, down to the first n. */
  function Rewound(accounts: Accounts, entries: seq<Entry>, n: nat): Accounts
    decreases |entries|
  {
    if |entries| <= n then accounts
    else Rewound(Undo(entries[|entries| - 1], accounts), entries[..|entries| - 1], n)
  }

  /** Undoing every entry, last first, never meets a missing account. */
  ghost predicate Unwinds(accounts: Accounts, entries: seq<Entry>) {
    |entries| > 0 ==>
      && entries[|entries| - 1].account in accounts
      && Unwinds(Undo(entries[|entries| - 1], accounts), entries[..|entries| - 1])
  }

  function Bump(dirties: map<Address, int>, addr: Address): map<Address, int> {
    dirties[addr := (if addr in dirties then dirties[addr] else 0) + 1]
  }

  function Drop(dirties: map<Address, int>, addr: Address): map<Address, int> {
    var n := (if addr in dirties then dirties[addr] else 0) - 1;
    if n == 0 then dirties - {addr} else dirties[addr := n]
  }

  function Dropped(dirties: map<Address, int>, entries: seq<Entry>, n: nat): map<Address, int>
    decreases |entries|
  {
    if |entries| <= n then dirties
    else Dropped(Drop(dirties, entries[|entries| - 1].account), entries[..|entries| - 1], n)
  }

  // ---------- the operations ----------

  /** What a setter does to the accounts; the other operations leave them alone. */
  function Apply(op: Op, accounts: Accounts): Accounts {
    match op
    case CreateAccount(a) => if a in accounts then accounts else accounts[a := NEW_ACCOUNT]
    case SubBalance(a, amount) =>
      if a in accounts then accounts[a := accounts[a].(balance := accounts[a].balance - amount)] else accounts
    case AddBalance(a, amount) =>
      if a in accounts then accounts[a := accounts[a].(balance := accounts[a].balance + amount)] else accounts
    case SetBalance(a, amount) =>
      if a in accounts then accounts[a := accounts[a].(balance := amount)] else accounts
    case SetNonce(a, nonce) =>
      if a in accounts then accounts[a := accounts[a].(nonce := nonce)] else accounts
    case SetCode(a, code, hash) =>
      if a in accounts then accounts[a := accounts[a].(code := code, codeHash := hash)] else accounts
    case SetState(a, key, value) =>
      if a in accounts && key in accounts[a].storage
      then accounts[a := accounts[a].(storage := accounts[a].storage[key := value])]
      else accounts
    case SelfDestruct(a) =>
      if a in accounts then accounts[a := accounts[a].(alive := false, balance := 0)] else accounts
    case _ => accounts
  }

  /** What a setter writes into the journal: the values it is about to overwrite. */
  function Journalled(op: Op, accounts: Accounts): seq<Entry> {
    match op
    case CreateAccount(a) => if a in accounts then [] else [CreateObject(a)]
    case SubBalance(a, _) => if a in accounts then [BalanceChange(a, accounts[a].balance)] else []
    case AddBalance(a, _) => if a in accounts then [BalanceChange(a, accounts[a].balance)] else []
    case SetBalance(a, _) => if a in accounts then [BalanceChange(a, accounts[a].balance)] else []
    case SetNonce(a, _) => if a in accounts then [NonceChange(a, accounts[a].nonce)] else []
    case SetCode(a, _, _) => if a in accounts then [CodeChange(a, accounts[a].code, accounts[a].codeHash)] else []
    case SetState(a, key, _) =>
      if a in accounts && key in accounts[a].storage then [StorageChange(a, key, accounts[a].storage[key])] else []
    case SelfDestruct(a) =>
      if a in accounts then [SelfDestructed(a, accounts[a].alive, accounts[a].balance)] else []
    case _ => []
  }

  /** The operation finds in the cache what it needs; if not, the prediction is judged false. */
  predicate Hits(op: Op, accounts: Accounts) {
    match op
    case SetCode(a, _, _) => a in accounts
    case GetCode(a) => a in accounts
    case SetState(a, key, _) => a in accounts && key in accounts[a].storage
    case GetState(a, key) => a in accounts && key in accounts[a].storage
    case _ => true
  }

  /** The first revision whose id is at least the given one. */
  function FirstAtLeast(revisions: seq<Revision>, id: nat): (i: nat)
    ensures i <= |revisions|
    ensures forall k :: 0 <= k < i ==> revisions[k].id < id
    ensures i < |revisions| ==> revisions[i].id >= id
  {
    if |revisions| == 0 || revisions[0].id >= id then 0 else 1 + FirstAtLeast(revisions[1..], id)
  }

  function Mark(c: Cache): Cache {
    c.(revisions := c.revisions + [Revision(c.nextId, |c.entries|)], nextId := c.nextId + 1)
  }

  function Write(c: Cache, op: Op): Cache {
    var journalled := Journalled(op, c.accounts);
    c.(accounts := Apply(op, c.accounts),
       entries := c.entries + journalled,
       dirties := if journalled == [] then c.dirties else Bump(c.dirties, journalled[0].account),
       judge := c.judge && Hits(op, c.accounts))
  }

  /** Reverting to an id that is not on the stack of revisions panics, and so would cutting beyond the journal. */
  function Revert(c: Cache, id: nat): Option<Cache> {
    var i := FirstAtLeast(c.revisions, id);
    if i == |c.revisions| || c.revisions[i].id != id || c.revisions[i].journalIndex > |c.entries| then None
    else
      var n := c.revisions[i].journalIndex;
      Some(c.(accounts := Rewound(c.accounts, c.entries, n), entries := c.entries[..n],
              dirties := Dropped(c.dirties, c.entries, n), revisions := c.revisions[..i]))
  }

  function Step(c: Cache, op: Op): Option<Cache> {
    match op
    case Snapshot => Some(Mark(c))
    case RevertToSnapshot(id) => Revert(c, id)
    case _ => Some(Write(c, op))
  }

  // ---------- what holds of every reachable cache ----------

  function Tally(entries: seq<Entry>): map<Address, int> {
    if |entries| == 0 then map[] else Bump(Tally(entries[..|entries| - 1]), entries[|entries| - 1].account)
  }

  ghost predicate Stacked(revisions: seq<Revision>, nextId: nat, length: nat) {
    && (forall i :: 0 <= i < |revisions| ==> revisions[i].id < nextId && revisions[i].journalIndex <= length)
    && (forall i, j :: 0 <= i < j < |revisions| ==>
          revisions[i].id < revisions[j].id && revisions[i].journalIndex <= revisions[j].journalIndex)
  }

  ghost predicate Valid(c: Cache) {
    && Unwinds(c.accounts, c.entries)
    && c.dirties == Tally(c.entries)
    && Stacked(c.revisions, c.nextId, |c.entries|)
  }

  /** A cache on which nothing was journalled yet: prefetching fills the accounts without the journal. */
  function Fresh(accounts: Accounts): (c: Cache)
    ensures Valid(c)
  {
    Cache(accounts, [], map[], [], 0, true)
  }

  // ---------- the operations in plain terms ----------

  /** Only the balance of an account that is there changes: it grows, shrinks or is replaced by the amount. */
  lemma BalanceAfter(c: Cache, a: Address, amount: int)
    ensures var now := Write(c, Op.AddBalance(a, amount)).accounts;
      now == if a in c.accounts then c.accounts[a := c.accounts[a].(balance := c.accounts[a].balance + amount)]
             else c.accounts
    ensures var now := Write(c, Op.SubBalance(a, amount)).accounts;
      now == if a in c.accounts then c.accounts[a := c.accounts[a].(balance := c.accounts[a].balance - amount)]
             else c.accounts
    ensures var now := Write(c, Op.SetBalance(a, amount)).accounts;
      now == if a in c.accounts then c.accounts[a := c.accounts[a].(balance := amount)] else c.accounts
  {
  }

  lemma NonceAfter(c: Cache, a: Address, nonce: nat)
    ensures var now := Write(c, Op.SetNonce(a, nonce)).accounts;
      now == if a in c.accounts then c.accounts[a := c.accounts[a].(nonce := nonce)] else c.accounts
  {
  }

  lemma CodeAfter(c: Cache, a: Address, code: seq<nat>, hash: Hash)
    ensures var now := Write(c, Op.SetCode(a, code, hash)).accounts;
      now == if a in c.accounts then c.accounts[a := c.accounts[a].(code := code, codeHash := hash)] else c.accounts
  {
  }

  /** Only a slot that is there is written. */
  lemma SlotAfter(c: Cache, a: Address, key: Hash, value: Hash)
    ensures var now := Write(c, Op.SetState(a, key, value)).accounts;
      now == if a in c.accounts && key in c.accounts[a].storage
             then c.accounts[a := c.accounts[a].(storage := c.accounts[a].storage[key := value])] else c.accounts
  {
  }

  /** A destroyed account is dead and has no balance; one that is created is alive and empty. */
  lemma LifeAfter(c: Cache, a: Address)
    ensures var now := Write(c, Op.SelfDestruct(a)).accounts;
      now == if a in c.accounts then c.accounts[a := c.accounts[a].(alive := false, balance := 0)] else c.accounts
    ensures var now := Write(c, Op.CreateAccount(a)).accounts;
      now == if a in c.accounts then c.accounts
             else c.accounts[a := Account(0, 0, EMPTY_CODE_HASH, [], map[], true)]
  {
  }

  /** The operation asks for an account's code or a slot of its storage, and the cache has it; or for neither. */
  ghost predicate Finds(op: Op, accounts: Accounts) {
    && (op.GetCode? || op.SetCode? ==> op.addr in accounts)
    && (op.GetState? || op.SetState? ==> op.addr in accounts && op.key in accounts[op.addr].storage)
  }

  /** A setter or reader leaves the judgement true exactly if it was true and the operation found what it asks for. */
  lemma JudgedBy(c: Cache, op: Op)
    ensures Write(c, op).judge <==> c.judge && Finds(op, c.accounts)
  {
  }

  lemma UndoInverts(op: Op, accounts: Accounts)
    ensures |Journalled(op, accounts)| <= 1
    ensures Journalled(op, accounts) == [] ==> Apply(op, accounts) == accounts
    ensures |Journalled(op, accounts)| == 1 ==>
      var e := Journalled(op, accounts)[0];
      e.account in Apply(op, accounts) && Undo(e, Apply(op, accounts)) == accounts
  {
    if |Journalled(op, accounts)| == 1 {
      var e := Journalled(op, accounts)[0];
      var undone := Undo(e, Apply(op, accounts));
      assert undone.Keys == accounts.Keys;
      if op.SetState? {
        var storage := accounts[op.addr].storage;
        assert storage[op.key := op.value][op.key := storage[op.key]] == storage;
      }
      assert forall a :: a in accounts ==> undone[a] == accounts[a];
    }
  }

  lemma {:induction false} RewoundTwice(accounts: Accounts, entries: seq<Entry>, n: nat, m: nat)
    requires m <= n <= |entries|
    ensures Rewound(Rewound(accounts, entries, n), entries[..n], m) == Rewound(accounts, entries, m)
    decreases |entries|
  {
    if |entries| == n {
      assert entries[..n] == entries;
    } else {
      var rest := entries[..|entries| - 1];
      RewoundTwice(Undo(entries[|entries| - 1], accounts), rest, n, m);
      assert rest[..n] == entries[..n];
    }
  }

  lemma {:induction false} RewoundUnwinds(accounts: Accounts, entries: seq<Entry>, n: nat)
    requires n <= |entries| && Unwinds(accounts, entries)
    ensures Unwinds(Rewound(accounts, entries, n), entries[..n])
    decreases |entries|
  {
    if |entries| == n {
      assert entries[..n] == entries;
    } else {
      var rest := entries[..|entries| - 1];
      RewoundUnwinds(Undo(entries[|entries| - 1], accounts), rest, n);
      assert rest[..n] == entries[..n];
    }
  }

  lemma {:induction false} TallyPositive(entries: seq<Entry>)
    ensures forall a :: a in Tally(entries) ==> Tally(entries)[a] > 0
  {
    if |entries| > 0 {
      TallyPositive(entries[..|entries| - 1]);
    }
  }

  lemma {:induction false} DroppedIsTally(entries: seq<Entry>, n: nat)
    requires n <= |entries|
    ensures Dropped(Tally(entries), entries, n) == Tally(entries[..n])
    decreases |entries|
  {
    if |entries| == n {
      assert entries[..n] == entries;
    } else {
      var rest, a := entries[..|entries| - 1], entries[|entries| - 1].account;
      TallyPositive(rest);
      assert Drop(Bump(Tally(rest), a), a) == Tally(rest);
      DroppedIsTally(rest, n);
      assert rest[..n] == entries[..n];
    }
  }

  function Addresses(entries: seq<Entry>): seq<Address> {
    seq(|entries|, i requires 0 <= i < |entries| => entries[i].account)
  }

  /** Each dirty counter is the number of journal entries that touch the account. */
  lemma {:induction false} TallyCounts(entries: seq<Entry>, a: Address)
    ensures a in Tally(entries) <==> a in Addresses(entries)
    ensures a in Tally(entries) ==> Tally(entries)[a] == multiset(Addresses(entries))[a]
  {
    if |entries| > 0 {
      var rest := entries[..|entries| - 1];
      TallyCounts(rest, a);
      assert Addresses(entries) == Addresses(rest) + [entries[|entries| - 1].account];
    }
  }

  lemma {:induction false} TouchedExists(accounts: Accounts, entries: seq<Entry>, i: nat)
    requires Unwinds(accounts, entries) && i < |entries|
    ensures entries[i].account in accounts
    decreases |entries|
  {
    if i < |entries| - 1 {
      TouchedExists(Undo(entries[|entries| - 1], accounts), entries[..|entries| - 1], i);
    }
  }

  lemma {:induction false} UntouchedSame(accounts: Accounts, entries: seq<Entry>, n: nat, a: Address)
    requires n <= |entries| && forall i :: n <= i < |entries| ==> entries[i].account != a
    ensures a in Rewound(accounts, entries, n) <==> a in accounts
    ensures a in accounts ==> Rewound(accounts, entries, n)[a] == accounts[a]
    decreases |entries|
  {
    if |entries| > n {
      UntouchedSame(Undo(entries[|entries| - 1], accounts), entries[..|entries| - 1], n, a);
    }
  }

  /** Marking, writing and reverting keep a cache valid. */
  lemma WriteKeepsValid(c: Cache, op: Op)
    requires Valid(c)
    ensures Valid(Write(c, op))
    ensures |c.entries| <= |Write(c, op).entries| && Write(c, op).entries[..|c.entries|] == c.entries
    ensures Rewound(Write(c, op).accounts, Write(c, op).entries, |c.entries|) == c.accounts
  {
    UndoInverts(op, c.accounts);
    var d := Write(c, op);
    if d.entries == c.entries {
      assert d.entries[..|c.entries|] == c.entries;
    } else {
      assert d.entries[..|d.entries| - 1] == c.entries;
    }
  }

  lemma RevertKeepsValid(c: Cache, id: nat)
    requires Valid(c) && Revert(c, id).Some?
    ensures Valid(Revert(c, id).value)
  {
    var n := c.revisions[FirstAtLeast(c.revisions, id)].journalIndex;
    RewoundUnwinds(c.accounts, c.entries, n);
    DroppedIsTally(c.entries, n);
  }

  lemma StepKeepsValid(c: Cache, op: Op)
    requires Valid(c) && Step(c, op).Some?
    ensures Valid(Step(c, op).value)
  {
    match op
    case Snapshot =>
    case RevertToSnapshot(id) => RevertKeepsValid(c, id);
    case _ => WriteKeepsValid(c, op);
  }

  /** In a valid cache a counter is the number of entries touching the account, and a dirty account exists. */
  lemma DirtyExists(c: Cache, a: Address)
    requires Valid(c)
    ensures a in c.dirties <==> a in Addresses(c.entries)
    ensures a in c.dirties ==> c.dirties[a] == multiset(Addresses(c.entries))[a] && a in c.accounts
  {
    TallyCounts(c.entries, a);
    if a in c.dirties {
      var i :| 0 <= i < |c.entries| && Addresses(c.entries)[i] == a;
      TouchedExists(c.accounts, c.entries, i);
    }
  }
}
