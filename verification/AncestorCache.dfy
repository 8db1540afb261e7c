/** The BLOCKHASH lookup of core/evm.go: the closure that `GetHashFn` returns and the cache it keeps.
    The header store is a function that does not change while the closure lives. */
module AncestorCache {
  import opened Basics

  type Hash = nat

  const ZERO_HASH: Hash := 0

  datatype Header = Header(number: Word, parentHash: Hash)

  type Store = (Hash, Word) -> Option<Header>

  /** A header is found only under its own number, and none under the number before the genesis block. */
  ghost predicate Linked(get: Store) {
    forall h: Hash, n: Word :: get(h, n).Some? ==> get(h, n).value.number == n < WORD - 1
  }

  /** Walking from block `number` with the given hash parent by parent to block n, without a cache. */
  ghost function Ancestor(get: Store, hash: Hash, number: Word, n: Word): Hash
    requires Linked(get)
    decreases if number == WORD - 1 then 0 else number + 1
  {
    if number == n then hash
    else
      var header := get(hash, number);
      if header.None? then ZERO_HASH else Ancestor(get, header.value.parentHash, Minus(number, 1), n)
  }

  /** The hash that a fresh walk from ref finds for block n. */
  ghost function Fresh(get: Store, ref: Header, n: Word): Hash
    requires Linked(get)
  {
    Ancestor(get, ref.parentHash, Minus(ref.number, 1), n)
  }

  /** On a complete chain below ref, the fresh walk finds the hash of the block with that number. */
  lemma FreshOnChain(get: Store, ref: Header, hashes: seq<Hash>, n: Word)
    requires Linked(get) && 0 < ref.number == |hashes| && ref.parentHash == hashes[|hashes| - 1] && n < ref.number
    requires forall k: Word :: 0 < k < |hashes| ==> get(hashes[k], k) == Some(Header(k, hashes[k - 1]))
    ensures Fresh(get, ref, n) == hashes[n]
  {
    WalkOnChain(get, hashes, ref.number - 1, n);
  }

  lemma {:induction false} WalkOnChain(get: Store, hashes: seq<Hash>, number: Word, n: Word)
    requires Linked(get) && n <= number < |hashes|
    requires forall k: Word :: 0 < k < |hashes| ==> get(hashes[k], k) == Some(Header(k, hashes[k - 1]))
    ensures Ancestor(get, hashes[number], number, n) == hashes[n]
  {
    if n < number { WalkOnChain(get, hashes, number - 1, n); }
  }

  /** From the reference on, no block is found: a walk to any such number but the last goes down to the end of
      the chain and gives the zero hash. */
  lemma FreshAbove(get: Store, ref: Header, n: Word)
    requires Linked(get) && ref.number <= n < WORD - 1
    ensures Fresh(get, ref, n) == ZERO_HASH
  {
    NeverFound(get, ref.parentHash, Minus(ref.number, 1), n);
  }

  lemma {:induction false} NeverFound(get: Store, hash: Hash, number: Word, n: Word)
    requires Linked(get) && n < WORD - 1 && (number < n || number == WORD - 1)
    ensures Ancestor(get, hash, number, n) == ZERO_HASH
    decreases if number == WORD - 1 then 0 else number + 1
  {
    var header := get(hash, number);
    if header.Some? { NeverFound(get, header.value.parentHash, Minus(number, 1), n); }
  }

  /** A walk from block `number` finds all headers down to block n. */
  ghost predicate Reaches(get: Store, hash: Hash, number: Word, n: Word)
    requires n <= number
    decreases number
  {
    number == n || (get(hash, number).Some? && Reaches(get, get(hash, number).value.parentHash, number - 1, n))
  }

  /** The last number stands for the block before the genesis block: the answer is the genesis header's parent
      hash, or the zero hash if the chain is not complete down to it. */
  lemma FreshBeforeGenesis(get: Store, ref: Header)
    requires Linked(get)
    ensures Fresh(get, ref, WORD - 1) ==
            if ref.number == 0 then ref.parentHash
            else if Reaches(get, ref.parentHash, ref.number - 1, 0) && get(Fresh(get, ref, 0), 0).Some?
            then get(Fresh(get, ref, 0), 0).value.parentHash
            else ZERO_HASH
  {
    if ref.number > 0 { BeforeGenesis(get, ref.parentHash, ref.number - 1); }
  }

  lemma {:induction false} BeforeGenesis(get: Store, hash: Hash, number: Word)
    requires Linked(get) && number < WORD - 1
    ensures Ancestor(get, hash, number, WORD - 1) ==
            var genesis := Ancestor(get, hash, number, 0);
            if Reaches(get, hash, number, 0) && get(genesis, 0).Some? then get(genesis, 0).value.parentHash
            else ZERO_HASH
    decreases number
  {
    if number > 0 && get(hash, number).Some? { BeforeGenesis(get, get(hash, number).value.parentHash, number - 1); }
  }

  // ------------------------------------------------------------------- the cache

  /** The number of the block whose hash is at position k of the cache. */
  function NumberAt(ref: Header, k: nat): Word
    requires k <= ref.number
  {
    Minus(Minus(ref.number, k), 1)
  }

  /** The cache holds the hashes of ref's parent, grandparent and so on, as far as they were fetched. */
  ghost predicate Ancestry(get: Store, ref: Header, cache: seq<Hash>) {
    && |cache| <= ref.number + 1
    && (cache != [] ==> cache[0] == ref.parentHash)
    && (forall k :: 0 < k < |cache| ==>
          get(cache[k - 1], NumberAt(ref, k - 1)) == Some(Header(NumberAt(ref, k - 1), cache[k])))
  }

  /** A walk to a number among the first k of the cache ends there, any other goes through position k. */
  lemma {:induction false} WalkThrough(get: Store, ref: Header, cache: seq<Hash>, k: nat, n: Word)
    requires Linked(get) && Ancestry(get, ref, cache) && k < |cache|
    requires forall j :: 0 <= j < k ==> NumberAt(ref, j) != n
    ensures Fresh(get, ref, n) == Ancestor(get, cache[k], NumberAt(ref, k), n)
  {
    if k > 0 {
      WalkThrough(get, ref, cache, k - 1, n);
      assert get(cache[k - 1], NumberAt(ref, k - 1)) == Some(Header(NumberAt(ref, k - 1), cache[k]));
    }
  }

  /** Different positions are for different blocks. */
  lemma Position(ref: Header, n: Word, k: nat)
    requires k <= ref.number
    ensures NumberAt(ref, k) == n <==> Minus(Minus(ref.number, n), 1) == k
  {
  }

  class HashFn {
    const ref: Header
    const get: Store
    var cache: seq<Hash>

    ghost predicate Valid() reads this { Linked(get) && Ancestry(get, ref, cache) }

    /** `GetHashFn`. */
    constructor (ref: Header, get: Store)
      requires Linked(get)
      ensures Valid() && this.ref == ref && this.get == get && cache == []
    {
      this.ref, this.get, cache := ref, get, [];
    }

    /** The closure: whatever was asked before, the answer is that of a fresh walk. */
    method Call(n: Word) returns (h: Hash)
      requires Valid()
      modifies this
      ensures Valid() && h == Fresh(get, ref, n) && old(cache) <= cache
    {
      if |cache| == 0 { cache := [ref.parentHash]; }
      var idx := Minus(Minus(ref.number, n), 1);
      if idx < |cache| {
        h := cache[idx];
        Hit(get, ref, cache, idx, n);
        return;
      }
      h := Extend(n);
    }

    /** The search loop, from the last hash already known. */
    method Extend(n: Word) returns (h: Hash)
      requires Valid() && cache != [] && Minus(Minus(ref.number, n), 1) >= |cache|
      modifies this
      ensures Valid() && h == Fresh(get, ref, n) && old(cache) <= cache
    {
      hide Ancestry, Linked, Ancestor;
      Missed(get, ref, cache, n);
      var lastKnownHash := cache[|cache| - 1];
      var lastKnownNumber := LastNumber(ref.number, |cache|);
      while true
        invariant Valid() && 0 < |cache| <= ref.number + 1 && old(cache) <= cache
        invariant lastKnownHash == cache[|cache| - 1] && lastKnownNumber == NumberAt(ref, |cache| - 1) != n
        invariant Fresh(get, ref, n) == Ancestor(get, lastKnownHash, lastKnownNumber, n)
        decreases if lastKnownNumber == WORD - 1 then 0 else lastKnownNumber + 1
      {
        Fetched(get, ref, cache, n);
        var header := get(lastKnownHash, lastKnownNumber);
        if header.None? { break; }
        cache := cache + [header.value.parentHash];
        lastKnownHash := header.value.parentHash;
        lastKnownNumber := Minus(header.value.number, 1);
        if n == lastKnownNumber { return lastKnownHash; }
      }
      return ZERO_HASH;
    }

    /** Any sequence of queries to one closure is answered like so many fresh walks. */
    method CallAll(ns: seq<Word>) returns (hs: seq<Hash>)
      requires Valid()
      modifies this
      ensures Valid() && |hs| == |ns| && forall i :: 0 <= i < |ns| ==> hs[i] == Fresh(get, ref, ns[i])
    {
      hs := [];
      for i := 0 to |ns|
        invariant Valid() && |hs| == i && forall j :: 0 <= j < i ==> hs[j] == Fresh(get, ref, ns[j])
      {
        hide Linked, Ancestry, Fresh;
        var h := Call(ns[i]);
        hs := hs + [h];
      }
    }
  }

  /** ref.Number - len(cache), as uint64 values. */
  function LastNumber(number: Word, len: nat): (r: Word)
    requires 0 < len <= number + 1
    ensures r == Minus(Minus(number, len - 1), 1)
  {
    (number - len) % WORD
  }

  lemma Hit(get: Store, ref: Header, cache: seq<Hash>, idx: nat, n: Word)
    requires Linked(get) && Ancestry(get, ref, cache) && idx < |cache| && idx == Minus(Minus(ref.number, n), 1)
    ensures Fresh(get, ref, n) == cache[idx]
  {
    forall j | 0 <= j < idx ensures NumberAt(ref, j) != n { Position(ref, n, j); }
    Position(ref, n, idx);
    WalkThrough(get, ref, cache, idx, n);
  }

  lemma Missed(get: Store, ref: Header, cache: seq<Hash>, n: Word)
    requires Linked(get) && Ancestry(get, ref, cache) && cache != [] && Minus(Minus(ref.number, n), 1) >= |cache|
    ensures |cache| <= ref.number + 1 && NumberAt(ref, |cache| - 1) != n
    ensures Fresh(get, ref, n) == Ancestor(get, cache[|cache| - 1], NumberAt(ref, |cache| - 1), n)
  {
    forall j | 0 <= j < |cache| ensures NumberAt(ref, j) != n { Position(ref, n, j); }
    WalkThrough(get, ref, cache, |cache| - 1, n);
  }

  /** One more header fetched: the cache grows by an ancestor, and the walk goes on from it. */
  lemma Fetched(get: Store, ref: Header, cache: seq<Hash>, n: Word)
    requires Linked(get) && Ancestry(get, ref, cache) && cache != [] && NumberAt(ref, |cache| - 1) != n
    ensures var last, number := cache[|cache| - 1], NumberAt(ref, |cache| - 1); var header := get(last, number);
            if header.None? then Ancestor(get, last, number, n) == ZERO_HASH
            else
              && header.value.number == number < WORD - 1 && |cache| <= ref.number
              && Minus(number, 1) == NumberAt(ref, |cache|)
              && Ancestry(get, ref, cache + [header.value.parentHash])
              && Ancestor(get, last, number, n) == Ancestor(get, header.value.parentHash, Minus(number, 1), n)
              && (Minus(number, 1) == n ==> Ancestor(get, last, number, n) == header.value.parentHash)
  {
  }
}
