/** Looking up the hash of an ancestor block by number, with a cache of the walk along parent links. */
module AncestorHashes {
  import opened AccessLists
  import opened Caches

  datatype Header = Header(parentHash: Hash, number: nat)

  /** A chain context: the header with a given hash and number, if it is there. */
  type Chain = (Hash, nat) -> Option<Header>

  /** A fetched header carries the number that was asked for, as core/evm.go:36 says of GetHeader. */
  ghost predicate Honest(chain: Chain) {
    forall hash, number :: chain(hash, number).Some? ==> chain(hash, number).value.number == number
  }

  /** From the block of the given hash and number down to block n, without a cache; 0 if a header is missing. */
  function Walk(chain: Chain, hash: Hash, number: nat, n: nat): Hash
    requires n <= number
    decreases number
  {
    if n == number then hash
    else
      match chain(hash, number)
      case None => 0
      case Some(header) => Walk(chain, header.parentHash, number - 1, n)
  }

  function Answer(chain: Chain, ref: Header, n: nat): Hash {
    if ref.number <= n then 0 else Walk(chain, ref.parentHash, ref.number - 1, n)
  }

  /** The header of the i-th hash, that of block ref.number - 1 - i, is there, and the next hash is its parent's. */
  ghost predicate Linked(chain: Chain, ref: Header, h: seq<Hash>, i: nat)
    requires i < |h| - 1 && |h| <= ref.number
  {
    var header := chain(h[i], ref.number - 1 - i);
    header.Some? && header.value.parentHash == h[i + 1]
  }

  /** h begins with the parent of ref and goes on from parent to parent. */
  ghost predicate Ancestors(chain: Chain, ref: Header, h: seq<Hash>) {
    && 1 <= |h| <= ref.number && h[0] == ref.parentHash
    && forall i :: 0 <= i < |h| - 1 ==> Linked(chain, ref, h, i)
  }

  /** The ancestors go down to block n, and the answer is the last of them; or the next header is missing before
      that, and the answer is zero, as it is for a block that is no ancestor. */
  ghost predicate IsAnswer(chain: Chain, ref: Header, n: nat, hash: Hash) {
    if ref.number <= n then hash == 0
    else exists h :: Ancestors(chain, ref, h) && Decides(chain, ref, n, h, hash)
  }

  ghost predicate Decides(chain: Chain, ref: Header, n: nat, h: seq<Hash>, hash: Hash)
    requires Ancestors(chain, ref, h)
  {
    || (|h| == ref.number - n && hash == h[|h| - 1])
    || (|h| < ref.number - n && chain(h[|h| - 1], ref.number - |h|).None? && hash == 0)
  }

  lemma OneMoreAncestor(chain: Chain, ref: Header, h: seq<Hash>, header: Header)
    requires Ancestors(chain, ref, h) && |h| < ref.number && chain(h[|h| - 1], ref.number - |h|) == Some(header)
    ensures Ancestors(chain, ref, h + [header.parentHash])
  {
    var more := h + [header.parentHash];
    forall i | 0 <= i < |more| - 1
      ensures Linked(chain, ref, more, i)
    {
      assert i < |h| - 1 ==> Linked(chain, ref, h, i);
    }
  }

  /** The walk to a block below some of the ancestors goes through each of them. */
  lemma {:induction false} WalkDown(chain: Chain, ref: Header, n: nat, h: seq<Hash>, i: nat)
    requires Ancestors(chain, ref, h) && i < |h| && n <= ref.number - 1 - i
    ensures Answer(chain, ref, n) == Walk(chain, h[i], ref.number - 1 - i, n)
  {
    if i > 0 {
      WalkDown(chain, ref, n, h, i - 1);
      assert Linked(chain, ref, h, i - 1);
    }
  }

  /** However far the headers go: the walk answers the hash of block n if they go down to it, and zero if not. */
  lemma {:induction false} AncestorsFrom(chain: Chain, ref: Header, n: nat, h: seq<Hash>)
    requires Ancestors(chain, ref, h) && |h| <= ref.number - n
    ensures IsAnswer(chain, ref, n, Answer(chain, ref, n))
    decreases ref.number - |h|
  {
    var hash := Answer(chain, ref, n);
    WalkDown(chain, ref, n, h, |h| - 1);
    var header := chain(h[|h| - 1], ref.number - |h|);
    if |h| == ref.number - n || header.None? {
      assert Decides(chain, ref, n, h, hash);
    } else {
      OneMoreAncestor(chain, ref, h, header.value);
      AncestorsFrom(chain, ref, n, h + [header.value.parentHash]);
    }
  }

  /** Two lists of ancestors agree as far as both go. */
  lemma {:induction false} AncestorsAgree(chain: Chain, ref: Header, h: seq<Hash>, k: seq<Hash>, i: nat)
    requires Ancestors(chain, ref, h) && Ancestors(chain, ref, k) && i < |h| && i < |k|
    ensures h[i] == k[i]
  {
    if i > 0 {
      AncestorsAgree(chain, ref, h, k, i - 1);
      assert Linked(chain, ref, h, i - 1) && Linked(chain, ref, k, i - 1);
    }
  }

  lemma OneAnswer(chain: Chain, ref: Header, n: nat, h: seq<Hash>, hash: Hash, k: seq<Hash>, other: Hash)
    requires Ancestors(chain, ref, h) && Decides(chain, ref, n, h, hash) && |h| <= |k|
    requires Ancestors(chain, ref, k) && Decides(chain, ref, n, k, other)
    ensures hash == other
  {
    AncestorsAgree(chain, ref, h, k, |h| - 1);
    assert |h| < |k| ==> Linked(chain, ref, k, |h| - 1);
  }

  /** The walk's answer is the one that the ancestors decide, and there is no other. */
  lemma AnswerIsAncestor(chain: Chain, ref: Header, n: nat, hash: Hash)
    ensures hash == Answer(chain, ref, n) <==> IsAnswer(chain, ref, n, hash)
  {
    if ref.number > n {
      AncestorsFrom(chain, ref, n, [ref.parentHash]);
      if IsAnswer(chain, ref, n, hash) {
        var h :| Ancestors(chain, ref, h) && Decides(chain, ref, n, h, hash);
        var k :| Ancestors(chain, ref, k) && Decides(chain, ref, n, k, Answer(chain, ref, n));
        if |h| <= |k| {
          OneAnswer(chain, ref, n, h, hash, k, Answer(chain, ref, n));
        } else {
          OneAnswer(chain, ref, n, k, Answer(chain, ref, n), h, hash);
        }
      }
    }
  }

  class HashFn {
    const ref: Header
    const chain: Chain
    var cache: seq<Hash>

    /** The cache is the beginning of the walk: entry i is the hash of block ref.number - 1 - i. */
    ghost predicate Valid()
      reads this
    {
      cache == [] || Ancestors(chain, ref, cache)
    }

    constructor (ref: Header, chain: Chain)
      ensures Valid() && this.ref == ref && this.chain == chain
    {
      this.ref, this.chain, cache := ref, chain, [];
    }

    /** The walk to a block below the cached ones goes through every cached entry. */
    lemma ThroughCache(i: nat, n: nat)
      requires Valid() && i < |cache| && n <= ref.number - 1 - i
      ensures Answer(chain, ref, n) == Walk(chain, cache[i], ref.number - 1 - i, n)
    {
      WalkDown(chain, ref, n, cache, i);
    }

    /** Whatever was asked before, the answer is that of the walk without a cache: the hash of block n if all headers
        down to it are there, and zero if not. */
    method GetHash(n: nat) returns (hash: Hash)
      requires Valid() && Honest(chain)
      modifies this`cache
      ensures Valid() && old(cache) <= cache
      ensures hash == Answer(chain, ref, n) && IsAnswer(chain, ref, n, hash)
    {
      AnswerIsAncestor(chain, ref, n, Answer(chain, ref, n));
      if ref.number <= n {
        return 0;
      }
      if |cache| == 0 {
        cache := cache + [ref.parentHash];
      }
      var idx := ref.number - n - 1;
      if idx < |cache| {
        ThroughCache(idx, n);
        return cache[idx];
      }
      var lastKnownHash, lastKnownNumber := cache[|cache| - 1], ref.number - |cache|;
      while true
        invariant Valid() && cache != [] && old(cache) <= cache
        invariant lastKnownHash == cache[|cache| - 1] && lastKnownNumber == ref.number - |cache| > n
        decreases lastKnownNumber
      {
        var header := chain(lastKnownHash, lastKnownNumber);
        ThroughCache(|cache| - 1, n);
        if header.None? {
          break;
        }
        OneMoreAncestor(chain, ref, cache, header.value);
        cache := cache + [header.value.parentHash];
        lastKnownHash := header.value.parentHash;
        lastKnownNumber := header.value.number - 1;
        if n == lastKnownNumber {
          return lastKnownHash;
        }
      }
      return 0;
    }
  }
}
