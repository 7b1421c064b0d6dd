/** Read and write sets of transactions, and when two of them conflict. */
module AccessLists {

  type Address = nat
  type Hash = nat

  /** What an access-list entry names: one of the five reserved hashes, or a storage slot. */
  datatype Key = Code | CodeHash | Balance | Nonce | Alive | Slot(hash: Hash)

  type ALTuple = map<Address, set<Key>>

  predicate Contains(tuple: ALTuple, addr: Address, key: Key) {
    addr in tuple && key in tuple[addr]
  }

  /** The sets a transaction is predicted or recorded to touch. */
  datatype Access = Access(readSet: ALTuple, writeSet: ALTuple)

  ghost predicate Meet(s: ALTuple, t: ALTuple) {
    exists a, k :: Contains(s, a, k) && Contains(t, a, k)
  }

  /** One of the two writes something the other reads or writes. */
  ghost predicate Conflict(x: Access, y: Access) {
    Meet(x.readSet, y.writeSet) || Meet(x.writeSet, y.writeSet) || Meet(x.writeSet, y.readSet)
  }

  lemma MeetSymmetric(s: ALTuple, t: ALTuple)
    ensures Meet(s, t) <==> Meet(t, s)
  {
  }

  lemma ConflictSymmetric(x: Access, y: Access)
    ensures Conflict(x, y) <==> Conflict(y, x)
  {
  }

  /** The nested loops of HasConflict: some entry of s is in t, or in u. */
  method MeetsEither(s: ALTuple, t: ALTuple, u: ALTuple) returns (b: bool)
    ensures b <==> Meet(s, t) || Meet(s, u)
  {
    var addrs := s.Keys;
    while addrs != {}
      invariant addrs <= s.Keys
      invariant forall a, k :: a !in addrs && Contains(s, a, k) ==> !Contains(t, a, k) && !Contains(u, a, k)
    {
      var addr :| addr in addrs;
      var keys := s[addr];
      while keys != {}
        invariant keys <= s[addr]
        invariant forall k :: k in s[addr] - keys ==> !Contains(t, addr, k) && !Contains(u, addr, k)
      {
        var key :| key in keys;
        assert Contains(s, addr, key);
        if Contains(t, addr, key) {
          return true;
        }
        if Contains(u, addr, key) {
          return true;
        }
        keys := keys - {key};
      }
      addrs := addrs - {addr};
    }
    return false;
  }

  method HasConflict(x: Access, y: Access) returns (b: bool)
    ensures b <==> Conflict(x, y)
  {
    b := MeetsEither(x.readSet, y.writeSet, map[]);
    if !b {
      b := MeetsEither(x.writeSet, y.writeSet, y.readSet);
    }
  }

  function Add(tuple: ALTuple, addr: Address, key: Key): (r: ALTuple)
    ensures forall a, k :: Contains(r, a, k) <==> Contains(tuple, a, k) || (a == addr && k == key)
  {
    tuple[addr := (if addr in tuple then tuple[addr] else {}) + {key}]
  }

  /** The recorded sets of a run, filled in place. */
  class RWSet {
    var readSet: ALTuple
    var writeSet: ALTuple

    constructor ()
      ensures readSet == map[] && writeSet == map[]
    {
      readSet, writeSet := map[], map[];
    }

    method AddReadSet(addr: Address, key: Key)
      modifies this`readSet
      ensures readSet == Add(old(readSet), addr, key)
    {
      readSet := Add(readSet, addr, key);
    }

    method AddWriteSet(addr: Address, key: Key)
      modifies this`writeSet
      ensures writeSet == Add(old(writeSet), addr, key)
    {
      writeSet := Add(writeSet, addr, key);
    }
  }
}
