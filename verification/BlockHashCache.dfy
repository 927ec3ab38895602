/** The BLOCKHASH lookup: a closure over a growing list of ancestor hashes of a
    reference header. */
module BlockHashCaches {
  import opened HashTree

  /** GetHeader: the header must be stored under this very number. */
  predicate Known(s: Store, h: Hash, n: nat) {
    h in s && s[h].number == n
  }

  /** The answer without a cache: the ancestor of `ref` at height `n`, or the empty
      hash if there is none or the walk meets an unknown header. */
  function Uncached(s: Store, ref: Header, n: nat): Hash {
    if n >= ref.number then EMPTY else Walked(s, ref.parent, ref.number - 1, ref.number - 1 - n)
  }

  /** The k-th parent of `h`, which should have number `n`, provided all headers on
      the way are known. */
  function Walked(s: Store, h: Hash, n: nat, k: nat): Hash
    requires k <= n
    decreases k
  {
    if k == 0 then h else if Known(s, h, n) then Walked(s, s[h].parent, n - 1, k - 1) else EMPTY
  }

  /** On a complete chain the answer is the plain parent walk. */
  lemma UncachedIsUp(s: Store, genesis: Hash, h: Hash, n: nat)
    requires Tree(s, genesis) && h in s && n < s[h].number
    ensures Uncached(s, s[h], n) == At(s, h, n)
  {
    assert Linked(s, h);
    WalkedIsUp(s, genesis, s[h].parent, s[h].number - 1 - n);
  }

  lemma {:induction false} WalkedIsUp(s: Store, genesis: Hash, h: Hash, k: nat)
    requires Tree(s, genesis) && h in s && k <= s[h].number
    ensures Walked(s, h, s[h].number, k) == Up(s, h, k)
    decreases k
  {
    if k > 0 {
      assert Linked(s, h);
      WalkedIsUp(s, genesis, s[h].parent, k - 1);
    }
  }

  /** The first `k` headers of the walk from `h` are known. */
  predicate Unbroken(s: Store, h: Hash, n: nat, k: nat)
    requires k <= n
    decreases k
  {
    k == 0 || (Known(s, h, n) && Unbroken(s, s[h].parent, n - 1, k - 1))
  }

  lemma {:induction false} OneMore(s: Store, h: Hash, n: nat, k: nat)
    requires k < n && Unbroken(s, h, n, k) && Known(s, Walked(s, h, n, k), n - k)
    ensures Unbroken(s, h, n, k + 1) && Walked(s, h, n, k + 1) == s[Walked(s, h, n, k)].parent
    decreases k
  {
    if k > 0 {
      OneMore(s, s[h].parent, n - 1, k - 1);
    }
  }

  lemma {:induction false} BrokenStays(s: Store, h: Hash, n: nat, j: nat, k: nat)
    requires j < k <= n && Unbroken(s, h, n, j) && !Known(s, Walked(s, h, n, j), n - j)
    ensures Walked(s, h, n, k) == EMPTY
    decreases j
  {
    if j > 0 {
      BrokenStays(s, s[h].parent, n - 1, j - 1, k - 1);
    }
  }

  /** The cache holds the first ancestors of the reference header. */
  ghost predicate Prefix(s: Store, ref: Header, cache: seq<Hash>) {
    && |cache| <= ref.number
    && (forall i :: 0 <= i < |cache| ==> cache[i] == Walked(s, ref.parent, ref.number - 1, i))
    && (cache != [] ==> Unbroken(s, ref.parent, ref.number - 1, |cache| - 1))
  }

  class BlockHashCache {
    const ref: Header
    const headers: Store
    var cache: seq<Hash>

    constructor (ref: Header, headers: Store)
      ensures this.ref == ref && this.headers == headers && Prefix(headers, ref, cache)
    {
      this.ref, this.headers, cache := ref, headers, [];
    }

    /** One query: the same answer as without a cache, whatever was asked before. */
    method Query(n: nat) returns (h: Hash)
      requires Prefix(headers, ref, cache)
      modifies this
      ensures Prefix(headers, ref, cache) && old(cache) <= cache
      ensures h == Uncached(headers, ref, n)
    {
      if ref.number <= n {
        return EMPTY;
      }
      if |cache| == 0 {
        cache := [ref.parent];
      }
      var idx := ref.number - n - 1;
      if idx < |cache| {
        return cache[idx];
      }
      var lastKnownHash := cache[|cache| - 1];
      var lastKnownNumber: nat := ref.number - |cache|;
      while Known(headers, lastKnownHash, lastKnownNumber)
        invariant Prefix(headers, ref, cache) && 0 < |cache| <= idx && old(cache) <= cache
        invariant lastKnownHash == cache[|cache| - 1] && lastKnownNumber == ref.number - |cache|
        decreases lastKnownNumber
      {
        OneMore(headers, ref.parent, ref.number - 1, |cache| - 1);
        cache := cache + [headers[lastKnownHash].parent];
        lastKnownHash, lastKnownNumber := headers[lastKnownHash].parent, headers[lastKnownHash].number - 1;
        if n == lastKnownNumber {
          return lastKnownHash;
        }
      }
      BrokenStays(headers, ref.parent, ref.number - 1, |cache| - 1, idx);
      return EMPTY;
    }
  }
}
