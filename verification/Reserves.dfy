/** Reservation tables: for each accessed key, the smallest transaction id that reserved it. */
module Reserves {
  import opened AccessLists

  /** One transaction's reservation of one key; a table is built from these in any order. */
  datatype Reservation = Reservation(tid: nat, addr: Address, key: Key)

  type Table = map<Address, map<Key, nat>>

  predicate Has(table: Table, addr: Address, key: Key) {
    addr in table && key in table[addr]
  }

  /** The atomic step: get, compare, set. */
  function ReserveOne(table: Table, r: Reservation): Table {
    if Has(table, r.addr, r.key) && table[r.addr][r.key] <= r.tid then table
    else table[r.addr := (if r.addr in table then table[r.addr] else map[])[r.key := r.tid]]
  }

  function ReserveAll(table: Table, steps: seq<Reservation>): Table {
    if |steps| == 0 then table else ReserveOne(ReserveAll(table, steps[..|steps| - 1]), steps[|steps| - 1])
  }

  /** Some transaction reserved the key. */
  ghost predicate Reserved(steps: seq<Reservation>, tid: nat, addr: Address, key: Key) {
    Reservation(tid, addr, key) in steps
  }

  /** The key's entry is the smallest reserving id, and there is none if nobody reserved it. */
  ghost predicate SmallestAt(table: Table, steps: seq<Reservation>, addr: Address, key: Key) {
    && (Has(table, addr, key) ==> Reserved(steps, table[addr][key], addr, key))
    && (forall tid :: Reserved(steps, tid, addr, key) ==> Has(table, addr, key) && table[addr][key] <= tid)
  }

  /** After any order of reservations each key holds the smallest reserving id. */
  lemma {:induction false} AnyOrderHoldsSmallest(steps: seq<Reservation>, addr: Address, key: Key)
    ensures SmallestAt(ReserveAll(map[], steps), steps, addr, key)
  {
    if |steps| > 0 {
      var rest, r := steps[..|steps| - 1], steps[|steps| - 1];
      AnyOrderHoldsSmallest(rest, addr, key);
      forall tid
        ensures Reserved(steps, tid, addr, key) <==> Reserved(rest, tid, addr, key) || r == Reservation(tid, addr, key)
      {
        assert steps == rest + [r];
      }
    }
  }

  /** Two orders of the same reservations give the same entry. */
  lemma OrderIrrelevant(steps: seq<Reservation>, other: seq<Reservation>, addr: Address, key: Key)
    requires forall r :: r in steps <==> r in other
    ensures var t, u := ReserveAll(map[], steps), ReserveAll(map[], other);
      (Has(t, addr, key) <==> Has(u, addr, key)) && (Has(t, addr, key) ==> t[addr][key] == u[addr][key])
  {
    AnyOrderHoldsSmallest(steps, addr, key);
    AnyOrderHoldsSmallest(other, addr, key);
    assert forall tid :: Reserved(steps, tid, addr, key) <==> Reserved(other, tid, addr, key);
  }

  /** Some id below tid reserved a key of the set. */
  ghost predicate SmallerReserved(steps: seq<Reservation>, tid: nat, tuple: ALTuple) {
    exists r :: r in steps && r.tid < tid && Contains(tuple, r.addr, r.key)
  }

  class ReserveSet {
    var innerMap: Table
    ghost var steps: seq<Reservation>

    /** The table is what the reservations so far make of an empty one. */
    ghost predicate Valid()
      reads this
    {
      innerMap == ReserveAll(map[], steps)
    }

    constructor ()
      ensures Valid() && steps == []
    {
      innerMap, steps := map[], [];
    }

    method Get(addr: Address, key: Key) returns (tid: nat, exist: bool)
      ensures exist <==> Has(innerMap, addr, key)
      ensures exist ==> tid == innerMap[addr][key]
    {
      if addr !in innerMap {
        return 0, false;
      }
      if key !in innerMap[addr] {
        return 0, false;
      }
      return innerMap[addr][key], true;
    }

    method Set(addr: Address, key: Key, tid: nat)
      modifies this`innerMap
      ensures var inner := if addr in old(innerMap) then old(innerMap)[addr] else map[];
        innerMap == old(innerMap)[addr := inner[key := tid]]
    {
      var inner := map[];
      if addr in innerMap {
        inner := innerMap[addr];
      }
      innerMap := innerMap[addr := inner[key := tid]];
    }

    method ReserveKey(addr: Address, key: Key, tid: nat)
      requires Valid()
      modifies this
      ensures Valid() && steps == old(steps) + [Reservation(tid, addr, key)]
    {
      var reservId, exist := Get(addr, key);
      if !exist || tid < reservId {
        Set(addr, key, tid);
      }
      steps := steps + [Reservation(tid, addr, key)];
      assert steps[..|steps| - 1] == old(steps);
    }

    /** Reserves every key of the set. */
    method Reserve(tuple: ALTuple, tid: nat)
      requires Valid()
      modifies this
      ensures Valid()
      ensures forall r :: r in steps <==> r in old(steps) || (r.tid == tid && Contains(tuple, r.addr, r.key))
    {
      var addrs := tuple.Keys;
      while addrs != {}
        invariant addrs <= tuple.Keys && Valid()
        invariant forall r :: r in steps <==>
                    r in old(steps) || (r.tid == tid && Contains(tuple, r.addr, r.key) && r.addr !in addrs)
      {
        var addr :| addr in addrs;
        var keys := tuple[addr];
        ghost var done := steps;
        while keys != {}
          invariant keys <= tuple[addr] && Valid()
          invariant forall r :: r in steps <==>
                      r in done || (r.tid == tid && r.addr == addr && r.key in tuple[addr] && r.key !in keys)
        {
          var key :| key in keys;
          ReserveKey(addr, key, tid);
          keys := keys - {key};
        }
        addrs := addrs - {addr};
      }
    }

    /** True exactly when some smaller id reserved one of the keys. */
    method HasConflict(tid: nat, tuple: ALTuple) returns (b: bool)
      requires Valid()
      ensures b <==> SmallerReserved(steps, tid, tuple)
    {
      var addrs := tuple.Keys;
      while addrs != {}
        invariant addrs <= tuple.Keys
        invariant forall r :: r in steps && Contains(tuple, r.addr, r.key) && r.addr !in addrs ==> r.tid >= tid
      {
        var addr :| addr in addrs;
        var keys := tuple[addr];
        while keys != {}
          invariant keys <= tuple[addr]
          invariant forall r :: r in steps && r.addr == addr && r.key in tuple[addr] && r.key !in keys ==> r.tid >= tid
        {
          var key :| key in keys;
          var reservId, exist := Get(addr, key);
          AnyOrderHoldsSmallest(steps, addr, key);
          if exist && reservId < tid {
            assert Reserved(steps, reservId, addr, key);
            assert Reservation(reservId, addr, key) in steps;
            return true;
          }
          forall r | r in steps && r.addr == addr && r.key == key ensures r.tid >= tid {
            assert r == Reservation(r.tid, addr, key);
            assert Reserved(steps, r.tid, addr, key);
          }
          keys := keys - {key};
        }
        addrs := addrs - {addr};
      }
      return false;
    }
  }
}
