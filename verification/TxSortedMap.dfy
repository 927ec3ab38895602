/** txSortedMap of core/tx_list.go: a nonce map with a heap of its nonces and a
    lazily filled cache of its transactions in nonce order. Its methods are
    proved to act on the plain nonce map `items` alone, whatever state the heap
    and the cache are in. */
module TxSortedMaps {
  import opened Basics
  import opened Transactions
  import Heap = ContainerHeap

  function NonceRank(n: nat): int { n }

  function TxRank(t: Tx): int { t.nonce }

  ghost predicate SortedBy<T>(s: seq<T>, rank: T -> int) {
    s != [] ==> (forall y :: y in s[1..] ==> rank(s[0]) <= rank(y)) && SortedBy(s[1..], rank)
  }

  lemma {:induction false} SortedPair<T>(s: seq<T>, rank: T -> int, i: nat, j: nat)
    requires SortedBy(s, rank) && i < j < |s|
    ensures rank(s[i]) <= rank(s[j])
  {
    if i == 0 {
      assert s[j] == s[1..][j - 1];
    } else {
      SortedPair(s[1..], rank, i - 1, j - 1);
    }
  }

  function Insert<T>(s: seq<T>, x: T, rank: T -> int): (r: seq<T>)
    ensures multiset(r) == multiset(s) + multiset{x}
    ensures SortedBy(s, rank) ==> SortedBy(r, rank)
  {
    if s == [] || rank(x) <= rank(s[0]) then
      assert ([x] + s)[1..] == s;
      [x] + s
    else
      var t := Insert(s[1..], x, rank);
      assert s == [s[0]] + s[1..];
      assert forall y :: y in t ==> y in multiset(t);
      assert ([s[0]] + t)[1..] == t;
      [s[0]] + t
  }

  /** What sort.Sort promises: the same elements by increasing rank. */
  method Sort<T>(s: seq<T>, rank: T -> int) returns (r: seq<T>)
    ensures multiset(r) == multiset(s) && SortedBy(r, rank)
  {
    r := [];
    for k := 0 to |s|
      invariant multiset(r) == multiset(s[..k]) && SortedBy(r, rank)
    {
      assert s[..k + 1] == s[..k] + [s[k]];
      r := Insert(r, s[k], rank);
    }
    assert s[..|s|] == s;
  }

  lemma CountedTwice<T>(q: seq<T>, i: nat, j: nat)
    requires i < j < |q|
    ensures q[i] == q[j] ==> multiset(q)[q[i]] >= 2
  {
    assert q == q[..i] + [q[i]] + q[i + 1..j] + [q[j]] + q[j + 1..];
  }

  /** A sequence holding each element of a set once, in order. */
  lemma OnceEach(q: seq<nat>, s: set<nat>)
    requires multiset(q) == multiset(s) && SortedBy(q, NonceRank)
    ensures q == Ascending(s)
  {
    forall i, j | 0 <= i < j < |q| ensures q[i] < q[j] {
      CountedTwice(q, i, j);
      SortedPair(q, NonceRank, i, j);
    }
    assert forall x :: x in q <==> x in multiset(q);
    assert Elements(q) == s;
    AscendingUnique(q);
  }

  function Values(m: Items): set<Tx> {
    set n | n in m :: m[n]
  }

  function Restrict(m: Items, ks: set<nat>): Items {
    map n | n in m && n in ks :: m[n]
  }

  /** What has gone from `before` when `now` is left. */
  function Gone(before: Items, now: Items): Items {
    map n | n in before && n !in now :: before[n]
  }

  function Keep(m: Items, drop: Tx -> bool): Items {
    map n | n in m && !drop(m[n]) :: m[n]
  }

  function Dropped(m: Items, drop: Tx -> bool): Items {
    map n | n in m && drop(m[n]) :: m[n]
  }

  /** A listing of the values of `m`, each once, in no particular order. */
  ghost predicate Listing(r: seq<Tx>, m: Items) {
    multiset(r) == multiset(Values(m))
  }

  function Nonces(r: seq<Tx>): (q: seq<nat>)
    ensures |q| == |r| && forall i :: 0 <= i < |r| ==> q[i] == r[i].nonce
  {
    seq(|r|, i requires 0 <= i < |r| => r[i].nonce)
  }

  lemma ListingHas(r: seq<Tx>, m: Items, i: nat)
    requires Keyed(m) && Listing(r, m) && i < |r|
    ensures Has(m, r[i])
  {
    assert r[i] in multiset(r);
  }

  lemma ListingNonces(r: seq<Tx>, m: Items)
    requires Keyed(m) && Listing(r, m)
    ensures Elements(Nonces(r)) == m.Keys
  {
    forall n | n in m ensures n in Nonces(r) {
      assert m[n] in multiset(r);
      var i :| 0 <= i < |r| && r[i] == m[n];
      assert Nonces(r)[i] == n;
    }
    forall n | n in Nonces(r) ensures n in m {
      var i :| 0 <= i < |r| && Nonces(r)[i] == n;
      ListingHas(r, m, i);
    }
  }

  lemma SortedListing(r: seq<Tx>, m: Items)
    requires Keyed(m) && Listing(r, m) && SortedBy(r, TxRank)
    ensures r == InOrder(m)
  {
    var q := Nonces(r);
    forall i, j | 0 <= i < j < |q| ensures q[i] < q[j] {
      CountedTwice(r, i, j);
      ListingHas(r, m, i);
      ListingHas(r, m, j);
      SortedPair(r, TxRank, i, j);
    }
    ListingNonces(r, m);
    AscendingUnique(q);
    forall i | 0 <= i < |r| ensures r[i] == InOrder(m)[i] {
      ListingHas(r, m, i);
    }
  }

  lemma DropOne(before: Items, now: Items, n: nat)
    requires Keyed(before) && n in now && now.Keys <= before.Keys
    requires forall k :: k in now ==> now[k] == before[k]
    ensures multiset(Values(Gone(before, now - {n}))) == multiset(Values(Gone(before, now))) + multiset{now[n]}
  {
    var out, out' := Gone(before, now), Gone(before, now - {n});
    assert out' == out[n := before[n]];
    assert Values(out') == Values(out) + {before[n]} by {
      assert out'[n] == before[n];
      assert forall k :: k in out ==> out'[k] == out[k];
    }
    assert before[n] !in Values(out);
  }

  /* ---------- the nonce map and its heap, as values ---------- */

  lemma PutKeys(items: Items, tx: Tx)
    requires Keyed(items)
    ensures Keyed(items[tx.nonce := tx])
    ensures multiset(items[tx.nonce := tx].Keys)
      == multiset(items.Keys) + if tx.nonce in items then multiset{} else multiset{tx.nonce}
  {
  }

  lemma IndexedKeyed(items: Items, index: seq<nat>)
    requires Indexed(items, index)
    ensures Keyed(items)
  {
  }

  /** The index holds each nonce of the map once, in heap order. */
  ghost predicate Indexed(items: Items, index: seq<nat>) {
    Keyed(items) && Heap.IsHeap<nat>(index, NonceRank) && multiset(index) == multiset(items.Keys)
  }

  /** The front of the index is the lowest nonce. */
  lemma IndexFront(items: Items, index: seq<nat>)
    requires Indexed(items, index)
    ensures index == [] <==> items.Keys == {}
    ensures index != [] ==> index[0] == Least(items.Keys)
  {
    if index == [] {
      assert multiset(items.Keys) == multiset{};
      assert forall k :: k in items.Keys <==> k in multiset(items.Keys);
    } else {
      assert index[0] in multiset(index);
      forall k | k in items.Keys ensures index[0] <= k {
        assert k in multiset(index);
        var i :| 0 <= i < |index| && index[i] == k;
        Heap.RootIsLeast<nat>(index, NonceRank, i);
      }
    }
  }

  lemma RemoveNonce(items: Items, n: nat)
    requires n in items
    ensures (items - {n}).Keys == items.Keys - {n}
    ensures multiset((items - {n}).Keys) == multiset(items.Keys) - multiset{n}
  {
  }

  /** Takes the lowest nonce out of the heap and the map. */
  method PopLowest(items: Items, index: seq<nat>) returns (tx: Tx, items': Items, index': seq<nat>)
    requires Indexed(items, index) && index != []
    ensures Indexed(items', index') && |index'| == |index| - 1
    ensures items.Keys != {} && index[0] == Least(items.Keys)
    ensures items' == items - {index[0]} && tx == items[index[0]]
    ensures InOrder(items) == [tx] + InOrder(items')
  {
    IndexFront(items, index);
    var nonce;
    nonce, index' := Heap.Pop<nat>(index, NonceRank);
    RemoveNonce(items, nonce);
    InOrderHead(items);
    tx, items' := items[nonce], items - {nonce};
  }

  lemma AtLeastStep(m: Items, low: nat)
    requires AtLeast(m, low).Keys != {}
    ensures AtLeast(m, low) - {Least(AtLeast(m, low).Keys)} == AtLeast(m, Least(AtLeast(m, low).Keys) + 1)
  {
  }

  lemma AtLeastZero(m: Items)
    ensures AtLeast(m, 0) == m
  {
  }

  lemma AtLeastDone(m: Items, low: nat, threshold: nat)
    requires low <= threshold
    requires AtLeast(m, low).Keys == {} || Least(AtLeast(m, low).Keys) >= threshold
    ensures AtLeast(m, low) == AtLeast(m, threshold)
  {
  }

  /** Pops off every nonce below `threshold`. */
  method PopBelow(items: Items, index: seq<nat>, threshold: nat)
    returns (removed: seq<Tx>, items': Items, index': seq<nat>)
    requires Indexed(items, index)
    ensures Indexed(items', index') && items' == AtLeast(items, threshold)
    ensures removed == InOrder(Below(items, threshold))
    ensures InOrder(items) == removed + InOrder(items')
  {
    hide Indexed, InOrder, AtLeast, Below, Least;
    removed, items', index' := [], items, index;
    ghost var low: nat := 0;
    AtLeastZero(items);
    while |index'| > 0 && index'[0] < threshold
      invariant Indexed(items', index') && low <= threshold && items' == AtLeast(items, low)
      invariant InOrder(items) == removed + InOrder(items')
      decreases |index'|
    {
      IndexFront(items', index');
      AtLeastStep(items, low);
      low := index'[0] + 1;
      var tx;
      tx, items', index' := PopLowest(items', index');
      removed := removed + [tx];
    }
    IndexFront(items', index');
    AtLeastDone(items, low, threshold);
    InOrderSplit(items, threshold);
    SamePrefix(removed, InOrder(Below(items, threshold)), InOrder(items'));
  }

  lemma SamePrefix<T>(a: seq<T>, b: seq<T>, c: seq<T>)
    requires a + c == b + c
    ensures a == b
  {
    assert |a| == |b| && a == (a + c)[..|a|] && b == (b + c)[..|a|];
  }

  /** Pops off consecutive nonces starting from the lowest one. */
  method PopRun(items: Items, index: seq<nat>) returns (ready: seq<Tx>, items': Items, index': seq<nat>)
    requires Indexed(items, index) && index != [] && items.Keys != {}
    ensures Indexed(items', index')
    ensures items' == AtLeast(items, RunEnd(items, Least(items.Keys)))
    ensures ready == InOrder(Below(items, RunEnd(items, Least(items.Keys))))
  {
    IndexFront(items, index);
    ready, items', index' := [], items, index;
    var next := index[0];
    ghost var low := next;
    assert AtLeast(items, next) == items;
    while |index'| > 0 && index'[0] == next
      invariant Indexed(items', index') && low <= next && items' == AtLeast(items, next)
      invariant forall n :: low <= n < next ==> n in items
      invariant InOrder(items) == ready + InOrder(items')
      decreases |index'|
    {
      var tx;
      tx, items', index' := PopLowest(items', index');
      assert next in items;
      assert items' == AtLeast(items, next + 1);
      ready := ready + [tx];
      next := next + 1;
    }
    IndexFront(items', index');
    assert next in items ==> next in items';
    RunEndIs(items, low, next);
    InOrderSplit(items, next);
    SamePrefix(ready, InOrder(Below(items, next)), InOrder(items'));
  }

  /** The part of the map whose nonces are among the first `size` of the index. */
  function FirstOf(items: Items, index: seq<nat>, size: nat): Items
    requires size <= |index|
  {
    Restrict(items, Elements(index[..size]))
  }

  lemma FirstStep(items: Items, index: seq<nat>, size: nat)
    requires Increasing(index) && Elements(index) == items.Keys
    requires 0 < size <= |index|
    ensures Elements(index) <= items.Keys && index[size - 1] in FirstOf(items, index, size)
    ensures FirstOf(items, index, size)[index[size - 1]] == Pick(items, index)[size - 1]
    ensures FirstOf(items, index, size) - {index[size - 1]} == FirstOf(items, index, size - 1)
  {
    hide Pick;
    ShrinkPrefix(index, size);
    assert index[size - 1] in Elements(index);
  }

  lemma AllFirst(items: Items, index: seq<nat>)
    requires Elements(index) == items.Keys
    ensures FirstOf(items, index, |index|) == items
  {
  }

  /** The dropping loop of Cap, over a sorted index. */
  method DropHighest(items: Items, index: seq<nat>, threshold: nat) returns (drops: seq<Tx>, items': Items)
    requires Increasing(index) && Elements(index) == items.Keys
    requires threshold < |items| == |index|
    ensures items' == FirstOf(items, index, threshold)
    ensures |drops| == |items| - threshold
    ensures Elements(index) <= items.Keys
    ensures forall i :: 0 <= i < |drops| ==> drops[i] == Pick(items, index)[|index| - 1 - i]
  {
    hide FirstOf, Pick, Elements, Increasing;
    drops, items' := [], items;
    var size := |items|;
    AllFirst(items, index);
    FirstStep(items, index, size);
    ghost var ordered := Pick(items, index);
    while size > threshold
      invariant threshold <= size <= |index|
      invariant items' == FirstOf(items, index, size)
      invariant |drops| == |items| - size
      invariant forall i :: 0 <= i < |drops| ==> drops[i] == ordered[|index| - 1 - i]
    {
      FirstStep(items, index, size);
      var n := index[size - 1];
      drops, items', size := drops + [items'[n]], items' - {n}, size - 1;
    }
  }

  /** Cap on the map and its heap. */
  method CapItems(items: Items, index: seq<nat>, threshold: nat)
    returns (drops: seq<Tx>, items': Items, index': seq<nat>)
    requires Indexed(items, index) && threshold < |items|
    ensures items' == Lowest(items, threshold) && |items'| == threshold && Indexed(items', index')
    ensures |drops| == |items| - threshold
    ensures forall i :: 0 <= i < |drops| ==> drops[i] == InOrder(items)[|items| - 1 - i]
  {
    hide FirstOf, Pick, Lowest, Elements, Increasing, Ascending, SortedBy;
    var sorted := Sort<nat>(index, NonceRank);
    OnceEach(sorted, items.Keys);
    AscendingSorts(items.Keys);
    drops, items' := DropHighest(items, sorted, threshold);
    CappedItems(items, sorted, threshold);
    index' := Heap.Init<nat>(sorted[..threshold], NonceRank);
  }

  lemma CappedItems(m: Items, sorted: seq<nat>, k: nat)
    requires Keyed(m) && k < |m| && sorted == Ascending(m.Keys)
    ensures k <= |sorted| && FirstOf(m, sorted, k) == Lowest(m, k) && |Lowest(m, k)| == k && Keyed(Lowest(m, k))
    ensures multiset(sorted[..k]) == multiset(Lowest(m, k).Keys)
  {
    hide Lowest, Ascending;
    AscendingSorts(m.Keys);
    LowestKept(m, k);
    OncePrefix(sorted, k);
    KeyedLowest(m, k);
  }

  lemma KeyedLowest(m: Items, k: nat)
    requires Keyed(m)
    ensures Keyed(Lowest(m, k))
  {
  }

  /** The dropping loop of Filter. */
  method FilterItems(items: Items, drop: Tx -> bool) returns (removed: seq<Tx>, items': Items)
    requires Keyed(items)
    ensures items' == Keep(items, drop) && Listing(removed, Dropped(items, drop))
    ensures removed == [] ==> items' == items
  {
    hide Values;
    removed, items' := [], items;
    var todo := items.Keys;
    NothingGone(items);
    while todo != {}
      invariant todo <= items'.Keys <= items.Keys && forall n :: n in items' ==> items'[n] == items[n]
      invariant forall n :: n in items && n !in todo ==> (n in items' <==> !drop(items[n]))
      invariant multiset(removed) == multiset(Values(Gone(items, items')))
      invariant removed == [] ==> items' == items
    {
      var n :| n in todo;
      todo := todo - {n};
      if drop(items'[n]) {
        DropOne(items, items', n);
        removed, items' := removed + [items'[n]], items' - {n};
      }
    }
    assert items' == Keep(items, drop);
    assert Dropped(items, drop) == Gone(items, items');
  }

  lemma NothingGone(m: Items)
    ensures Values(Gone(m, m)) == {}
  {
  }

  /** All transactions of the map, each once, in map order. */
  method ListAll(items: Items) returns (all: seq<Tx>)
    requires Keyed(items)
    ensures Listing(all, items)
  {
    all := [];
    var left: Items := items;
    while left.Keys != {}
      invariant left.Keys <= items.Keys && forall n :: n in left ==> left[n] == items[n]
      invariant Listing(all, Gone(items, left))
      decreases left.Keys
    {
      var n :| n in left.Keys;
      DropOne(items, left, n);
      all, left := all + [left[n]], left - {n};
    }
    assert Gone(items, left) == items;
  }

  class TxSortedMap {
    var items: Items
    var index: seq<nat>
    var cache: Option<seq<Tx>>

    /** The index holds each nonce once, in heap order; the cache is absent or is
        the list of all transactions in nonce order. */
    ghost predicate Valid()
      reads this
    {
      Indexed(items, index) && (cache.Some? ==> cache.value == InOrder(items))
    }

    constructor ()
      ensures Valid() && items == map[]
    {
      items, index, cache := map[], [], None;
    }

    method Get(nonce: nat) returns (r: Option<Tx>)
      requires Valid()
      ensures r == if nonce in items then Some(items[nonce]) else None
    {
      r := if nonce in items then Some(items[nonce]) else None;
    }

    method Put(tx: Tx)
      requires Valid()
      modifies this
      ensures Valid() && items == old(items)[tx.nonce := tx]
    {
      hide InOrder;
      PutKeys(items, tx);
      if tx.nonce !in items {
        index := Heap.Push<nat>(index, tx.nonce, NonceRank);
      }
      items, cache := items[tx.nonce := tx], None;
    }

    /** Removes and returns, in nonce order, everything below `threshold`. */
    method Forward(threshold: nat) returns (removed: seq<Tx>)
      requires Valid()
      modifies this
      ensures Valid() && items == AtLeast(old(items), threshold)
      ensures removed == InOrder(Below(old(items), threshold))
    {
      removed, items, index := PopBelow(items, index, threshold);
      if cache.Some? {
        cache := Some(cache.value[|removed|..]);
      }
    }

    /** Rebuilds the index from the map and drops the cache. */
    method Reindex()
      requires Keyed(items)
      modifies this`index, this`cache
      ensures Valid()
    {
      var nonces: seq<nat> := [];
      var todo := items.Keys;
      while todo != {}
        invariant todo <= items.Keys && multiset(nonces) == multiset(items.Keys - todo)
      {
        var n :| n in todo;
        assert multiset(items.Keys - (todo - {n})) == multiset(items.Keys - todo) + multiset{n} by {
          assert items.Keys - (todo - {n}) == (items.Keys - todo) + {n};
        }
        nonces, todo := nonces + [n], todo - {n};
      }
      assert items.Keys - todo == items.Keys;
      index := Heap.Init<nat>(nonces, NonceRank);
      cache := None;
    }

    /** Removes and returns, in any order, everything that `drop` holds of. */
    method Filter(drop: Tx -> bool) returns (removed: seq<Tx>)
      requires Valid()
      modifies this
      ensures Valid() && items == Keep(old(items), drop)
      ensures Listing(removed, Dropped(old(items), drop))
    {
      removed, items := FilterItems(items, drop);
      if |removed| > 0 {
        Reindex();
      }
    }

    /** Keeps the `threshold` lowest nonces; returns the rest, highest first. */
    method Cap(threshold: nat) returns (drops: seq<Tx>)
      requires Valid()
      modifies this
      ensures Valid() && items == Lowest(old(items), threshold)
      ensures |drops| == |old(items)| - |items|
      ensures forall i :: 0 <= i < |drops| ==> drops[i] == InOrder(old(items))[|old(items)| - 1 - i]
    {
      if |items| <= threshold {
        return [];
      }
      ghost var before := items;
      LowestInOrder(before, threshold);
      drops, items, index := CapItems(items, index, threshold);
      if cache.Some? {
        cache := Some(cache.value[..|cache.value| - |drops|]);
      }
    }

    /** Deletes a nonce, saying whether it was there. */
    method Remove(nonce: nat) returns (found: bool)
      requires Valid()
      modifies this
      ensures Valid() && items == old(items) - {nonce}
      ensures found <==> nonce in old(items)
    {
      if nonce !in items {
        assert items - {nonce} == items;
        return false;
      }
      assert nonce in multiset(index);
      var i := 0;
      while index[i] != nonce
        invariant 0 <= i < |index| && nonce in index[i..]
        decreases |index| - i
      {
        i := i + 1;
      }
      index := Heap.Remove<nat>(index, i, NonceRank);
      assert multiset(items.Keys - {nonce}) == multiset(items.Keys) - multiset{nonce};
      assert (items - {nonce}).Keys == items.Keys - {nonce};
      items, cache := items - {nonce}, None;
      found := true;
    }

    /** Removes and returns the run of consecutive nonces from the lowest one,
        if that is no higher than `start`. */
    method Ready(start: nat) returns (ready: seq<Tx>)
      requires Valid()
      modifies this
      ensures Valid() && items == old(items) - Run(old(items), start).Keys
      ensures ready == InOrder(Run(old(items), start))
    {
      IndexFront(items, index);
      if |index| == 0 || index[0] > start {
        assert items - {} == items;
        return [];
      }
      ghost var e := RunEnd(items, Least(items.Keys));
      assert AtLeast(items, e) == items - Below(items, e).Keys;
      ready, items, index := PopRun(items, index);
      cache := None;
    }

    /** All transactions in nonce order, cached for the next call. */
    method Flatten() returns (txs: seq<Tx>)
      requires Valid()
      modifies this`cache
      ensures Valid() && txs == InOrder(items)
    {
      if cache == None {
        var all := ListAll(items);
        var sorted := Sort<Tx>(all, TxRank);
        SortedListing(sorted, items);
        cache := Some(sorted);
      }
      txs := cache.value;
    }
  }

  lemma LowestKept(m: Items, k: nat)
    requires k < |m|
    ensures |Ascending(m.Keys)| == |m| && Lowest(m, k).Keys == Elements(Ascending(m.Keys)[..k])
    ensures Lowest(m, k) == Restrict(m, Elements(Ascending(m.Keys)[..k])) && |Lowest(m, k)| == k
    ensures InOrder(Lowest(m, k)) == InOrder(m)[..k]
  {
    LowestAscending(m, k);
    LowestKeeps(m, k);
    LowestInOrder(m, k);
  }

  lemma LowestInOrder(m: Items, k: nat)
    requires k < |m|
    ensures InOrder(Lowest(m, k)) == InOrder(m)[..k]
  {
    hide Lowest, Ascending, Increasing;
    LowestAscending(m, k);
    LowestKeeps(m, k);
    AscendingSorts(m.Keys);
    var ks, lo := Ascending(m.Keys), Lowest(m, k);
    AscendingSorts(lo.Keys);
    assert InOrder(lo) == Pick(lo, ks[..k]);
    forall i | 0 <= i < k ensures InOrder(lo)[i] == InOrder(m)[i] {
      assert ks[..k][i] in Elements(ks[..k]);
    }
  }

  lemma ShrinkPrefix(ks: seq<nat>, size: nat)
    requires Increasing(ks) && 0 < size <= |ks|
    ensures Elements(ks[..size - 1]) == Elements(ks[..size]) - {ks[size - 1]}
    ensures ks[size - 1] in Elements(ks[..size])
  {
  }

  lemma {:induction false} OncePrefix(ks: seq<nat>, k: nat)
    requires Increasing(ks) && k <= |ks|
    ensures multiset(ks[..k]) == multiset(Elements(ks[..k]))
  {
    hide Increasing;
    if k > 0 {
      OncePrefix(ks, k - 1);
      ShrinkPrefix(ks, k);
      hide Elements;
      assert ks[..k] == ks[..k - 1] + [ks[k - 1]];
      assert multiset(Elements(ks[..k])) == multiset(Elements(ks[..k - 1])) + multiset{ks[k - 1]};
    }
  }

  lemma {:induction false} RunEndIs(m: Items, n: nat, e: nat)
    requires n <= e && e !in m && forall x :: n <= x < e ==> x in m
    ensures RunEnd(m, n) == e
  {
  }
}
