/** txPricedList of core/tx_list.go: a heap of the pooled transactions by price
    that is allowed to lag behind the pool, with a count of its stale entries. */
module TxPricedLists {
  import opened Basics
  import opened Transactions
  import Heap = ContainerHeap

  /** Orders by price, and among equal prices puts the higher nonce first. */
  function PriceRank(t: Tx): int {
    t.price * TWO64 + (TWO64 - 1 - t.nonce)
  }

  lemma PriceRankIsLess(x: Tx, y: Tx)
    ensures PriceRank(x) < PriceRank(y) <==> x.price < y.price || (x.price == y.price && x.nonce > y.nonce)
    ensures PriceRank(x) <= PriceRank(y) ==> x.price <= y.price
  {
  }

  function Pooled(s: seq<Tx>): set<Tx> {
    set t | t in s
  }

  lemma {:induction false} DistinctFit(a: set<Tx>, s: seq<Tx>)
    requires a <= Pooled(s)
    ensures |a| <= |s|
  {
    if s == [] {
      assert a == {};
    } else {
      var t := s[0];
      assert a - {t} <= Pooled(s[1..]);
      DistinctFit(a - {t}, s[1..]);
    }
  }

  /** Every pooled transaction is in the heap, and the entries beyond one per
      pooled transaction are covered by the stale counter plus `owed` removals
      that have not been reported yet. */
  ghost predicate Covers(items: seq<Tx>, stales: int, all: set<Tx>, owed: int) {
    all <= Pooled(items) && |items| <= |all| + stales + owed
  }

  /** The number of entries whose transaction is no longer pooled. */
  ghost function StaleCount(items: seq<Tx>, all: set<Tx>): nat {
    if items == [] then 0
    else (if items[0] in all then 0 else 1) + StaleCount(items[1..], all)
  }

  /** Stale entries never exceed the counter. */
  lemma {:induction false} StaleBounded(items: seq<Tx>, stales: int, all: set<Tx>)
    requires Covers(items, stales, all, 0)
    ensures StaleCount(items, all) <= stales
  {
    FreshEntries(items, all, all);
  }

  lemma {:induction false} FreshEntries(items: seq<Tx>, all: set<Tx>, some: set<Tx>)
    requires some <= all && some <= Pooled(items)
    ensures StaleCount(items, all) + |some| <= |items|
  {
    if items == [] {
      assert some == {};
    } else {
      var t := items[0];
      assert some - {t} <= Pooled(items[1..]);
      FreshEntries(items[1..], all, some - {t});
    }
  }

  class TxPricedList {
    var items: seq<Tx>
    var stales: int

    ghost predicate Valid(all: set<Tx>)
      reads this
    {
      Heap.IsHeap<Tx>(items, PriceRank) && Covers(items, stales, all, 0) && stales >= 0
    }

    /** The state between removing `owed` transactions from the pool and saying so. */
    ghost predicate Owes(all: set<Tx>, owed: nat)
      reads this
    {
      Heap.IsHeap<Tx>(items, PriceRank) && Covers(items, stales, all, owed) && stales >= 0
    }

    constructor ()
      ensures Valid({}) && items == [] && stales == 0
    {
      items, stales := [], 0;
    }

    method Put(tx: Tx, ghost all: set<Tx>, ghost owed: nat)
      requires Owes(all, owed) && tx !in all
      modifies this
      ensures Owes(all + {tx}, owed)
      ensures multiset(items) == multiset(old(items)) + multiset{tx} && stales == old(stales)
    {
      ghost var before := items;
      items := Heap.Push<Tx>(items, tx, PriceRank);
      PooledFromMultiset(items, before + [tx]);
    }

    /** Reports `count` removals out of `count + rest` unreported ones; rebuilds the
        heap from the pool once more than a quarter of it may be stale. */
    method Removed(all: set<Tx>, count: nat, ghost rest: nat)
      requires Owes(all, count + rest)
      modifies this
      ensures Owes(all, rest) && (rest == 0 ==> Valid(all))
      ensures old(stales) + count <= |old(items)| / 4 ==> items == old(items) && stales == old(stales) + count
      ensures old(stales) + count > |old(items)| / 4 ==> multiset(items) == multiset(all) && stales == 0
    {
      stales := stales + count;
      if stales <= |items| / 4 {
        return;
      }
      var reheap := ListAll(all);
      stales := 0;
      items := Heap.Init<Tx>(reheap, PriceRank);
      PooledFromMultiset(items, reheap);
    }

    /** Whether the pool is full of better priced transactions than `tx`. */
    method Underpriced(tx: Tx, all: set<Tx>, locals: set<Address>) returns (r: bool)
      requires Valid(all)
      modifies this
      ensures Valid(all)
      ensures r <==> tx.sender !in locals && all != {} && forall t :: t in all ==> t.price >= tx.price
    {
      if tx.sender in locals {
        return false;
      }
      assert all - Pooled([]) == all;
      while |items| > 0 && items[0] !in all
        invariant Valid(all)
        decreases |items|
      {
        var stale := Take(all, [], []);
      }
      if |items| == 0 {
        return false;
      }
      var cheapest := items[0];
      forall t | t in all ensures cheapest.price <= t.price {
        var k :| 0 <= k < |items| && items[k] == t;
        Heap.RootIsLeast<Tx>(items, PriceRank, k);
        PriceRankIsLess(cheapest, t);
      }
      r := cheapest.price >= tx.price;
    }

    /** Pops the cheapest entry; a stale one only lowers the counter. */
    method Take(all: set<Tx>, ghost save: seq<Tx>, ghost drop: seq<Tx>) returns (t: Option<Tx>)
      requires Pulling(items, stales, save, drop, all) && |items| > 0
      modifies this
      ensures |items| == |old(items)| - 1 && Pooled(items) <= Pooled(old(items))
      ensures multiset(items) == multiset(old(items)) - multiset{old(items[0])}
      ensures forall y :: y in items ==> PriceRank(old(items[0])) <= PriceRank(y)
      ensures t == if old(items[0]) in all then Some(old(items[0])) else None
      ensures t == None ==> Pulling(items, stales, save, drop, all)
      ensures t.Some? ==>
        && t.value in all
        && Pulling(items, stales, save + [t.value], drop, all)
        && Pulling(items, stales, save, drop + [t.value], all)
        && forall y :: y in items ==> t.value.price <= y.price
    {
      ghost var before := items;
      var head;
      head, items := Heap.Pop<Tx>(items, PriceRank);
      PopKeeps(before, items, head);
      forall y | y in items ensures PriceRank(head) <= PriceRank(y) {
        assert y in Pooled(before);
      }
      if head !in all {
        StaleHead(before, save, all - Pooled(drop), head);
        stales := stales - 1;
        t := None;
      } else {
        forall y | y in items ensures head.price <= y.price {
          PriceRankIsLess(head, y);
        }
        PulledOne(before, items, stales, save, drop, all, head);
        t := Some(head);
      }
    }

    /** Puts the spared entries back. */
    method PutBack(save: seq<Tx>, ghost drop: seq<Tx>, ghost all: set<Tx>)
      requires Pulling(items, stales, save, drop, all)
      modifies this
      ensures Valid(all - Pooled(drop)) && stales == old(stales)
    {
      for i := 0 to |save|
        invariant Pulling(items, stales, save[i..], drop, all) && stales == old(stales)
      {
        ghost var before := items;
        items := Heap.Push<Tx>(items, save[i], PriceRank);
        PooledFromMultiset(items, before + [save[i]]);
        assert save[i..] == [save[i]] + save[i + 1..];
      }
    }

    /** Takes up to `count` of the lowest ranked entries of remote pooled transactions
        out of the heap. No remote transaction left in the pool is cheaper than one
        dropped. */
    method Discard(count: nat, all: set<Tx>, locals: set<Address>) returns (drop: seq<Tx>)
      requires Valid(all)
      modifies this
      ensures Valid(all - Pooled(drop)) && Pooled(drop) <= all
      ensures forall d :: d in drop ==> d.sender !in locals
      ensures forall d, t :: d in drop && t in all - Pooled(drop) && t.sender !in locals ==> d.price <= t.price
      ensures |drop| <= count
      ensures |drop| < count ==> forall t :: t in all - Pooled(drop) ==> t.sender in locals
      ensures LowestOf(drop, Remote(old(items), all, locals), count)
    {
      hide Remote, Pulling, Purging, LowestOf, PriceRank;
      drop := [];
      var save: seq<Tx> := [];
      PurgeStart(items, stales, all, locals);
      while |items| > 0 && |drop| < count
        invariant |drop| <= count && Pulling(items, stales, save, drop, all)
        invariant Purging(old(items), items, save, drop, all, locals)
        decreases |items|
      {
        ghost var before := items;
        var t := Take(all, save, drop);
        PurgeStep(old(items), before, items, save, drop, all, locals);
        if t.Some? {
          if t.value.sender in locals {
            save := save + [t.value];
          } else {
            drop := drop + [t.value];
          }
        }
      }
      PurgeEnd(old(items), items, stales, save, drop, all, locals, count);
      PutBack(save, drop, all);
    }

    /** Takes every remote transaction cheaper than `threshold` out of the heap. */
    method Cap(threshold: nat, all: set<Tx>, locals: set<Address>) returns (drop: seq<Tx>)
      requires Valid(all)
      modifies this
      ensures Valid(all - Pooled(drop)) && Pooled(drop) <= all
      ensures forall t :: t in all ==> (t in drop <==> t.sender !in locals && t.price < threshold)
    {
      drop := [];
      var save: seq<Tx> := [];
      assert all - Pooled([]) == all;
      while |items| > 0
        invariant Pulling(items, stales, save, drop, all)
        invariant forall d :: d in drop ==> d.sender !in locals && d.price < threshold
        invariant forall t :: t in save ==> t.sender in locals
        decreases |items|
      {
        var t := Take(all, save, drop);
        if t.Some? {
          if t.value.price >= threshold {
            save := save + [t.value];
            assert forall y :: y in items + [t.value] ==> y.price >= threshold;
            break;
          }
          if t.value.sender in locals {
            save := save + [t.value];
          } else {
            drop := drop + [t.value];
          }
        }
      }
      forall t | t in all && t !in drop ensures t.sender in locals || t.price >= threshold {
        assert t in Pooled(items) + Pooled(save);
      }
      PutBack(save, drop, all);
    }
  }

  /** Mid-way through a purge: entries of `save` will go back, transactions of
      `drop` will leave the pool. */
  ghost predicate Pulling(items: seq<Tx>, stales: int, save: seq<Tx>, drop: seq<Tx>, all: set<Tx>) {
    && Heap.IsHeap<Tx>(items, PriceRank)
    && Pooled(drop) <= all && Pooled(save) <= all
    && all - Pooled(drop) <= Pooled(items) + Pooled(save)
    && |items| + |save| <= |all - Pooled(drop)| + stales
    && stales >= 0
  }

  lemma PooledFromMultiset(a: seq<Tx>, b: seq<Tx>)
    requires multiset(a) == multiset(b)
    ensures Pooled(a) == Pooled(b) && |a| == |b|
  {
    assert forall t :: t in a <==> t in multiset(a);
    assert forall t :: t in b <==> t in multiset(b);
    assert |multiset(a)| == |a| && |multiset(b)| == |b|;
  }

  lemma PopKeeps(before: seq<Tx>, after: seq<Tx>, head: Tx)
    requires before != [] && before[0] == head && multiset(after) == multiset(before) - multiset{head}
    ensures Pooled(after) + {head} == Pooled(before)
  {
    assert multiset(after + [head]) == multiset(before);
    PooledFromMultiset(after + [head], before);
    assert Pooled(after + [head]) == Pooled(after) + {head};
  }

  /** A stale entry must have been counted. */
  lemma StaleHead(items: seq<Tx>, save: seq<Tx>, kept: set<Tx>, head: Tx)
    requires kept <= Pooled(items) + Pooled(save) && head in items && head !in kept
    ensures |kept| + 1 <= |items| + |save|
  {
    assert kept + {head} <= Pooled(items + save);
    DistinctFit(kept + {head}, items + save);
  }

  lemma PulledOne(before: seq<Tx>, items: seq<Tx>, stales: int, save: seq<Tx>, drop: seq<Tx>, all: set<Tx>, t: Tx)
    requires Pulling(before, stales, save, drop, all) && Heap.IsHeap<Tx>(items, PriceRank)
    requires Pooled(items) + {t} == Pooled(before) && |items| + 1 == |before| && t in all
    ensures Pulling(items, stales, save + [t], drop, all)
    ensures Pulling(items, stales, save, drop + [t], all)
  {
    assert Pooled(save + [t]) == Pooled(save) + {t};
    assert Pooled(drop + [t]) == Pooled(drop) + {t};
    assert all - Pooled(drop + [t]) == (all - Pooled(drop)) - {t};
  }

  /** Removing the listed transactions removes no more than the list is long. */
  lemma AtMostListed(all: set<Tx>, drop: seq<Tx>)
    requires Pooled(drop) <= all
    ensures all - (all - Pooled(drop)) == Pooled(drop) && |Pooled(drop)| <= |drop|
    ensures |all - Pooled(drop)| == |all| - |Pooled(drop)|
    ensures drop != [] ==> |all - Pooled(drop)| < |all|
  {
    DistinctFit(Pooled(drop), drop);
    if drop != [] {
      assert drop[0] in Pooled(drop);
    }
  }

  /** The pooled transactions, each once, in whatever order the index gives. */
  method ListAll(all: set<Tx>) returns (r: seq<Tx>)
    ensures Pooled(r) == all && |r| == |all| && multiset(r) == multiset(all)
  {
    r := [];
    var todo := all;
    while todo != {}
      invariant todo <= all && Pooled(r) == all - todo && |r| + |todo| == |all| && multiset(r) == multiset(all - todo)
    {
      var t :| t in todo;
      assert Pooled(r + [t]) == Pooled(r) + {t};
      assert all - (todo - {t}) == (all - todo) + {t};
      r, todo := r + [t], todo - {t};
    }
    assert all - todo == all;
  }

  /* ---------- how much room a purge makes ---------- */

  function Filter(s: seq<Tx>, p: Tx -> bool): seq<Tx> {
    if s == [] then [] else (if p(s[0]) then [s[0]] else []) + Filter(s[1..], p)
  }

  lemma {:induction false} FilterCount(s: seq<Tx>, p: Tx -> bool, t: Tx)
    ensures multiset(Filter(s, p))[t] == if p(t) then multiset(s)[t] else 0
    ensures |Filter(s, p)| <= |s|
    decreases |s|
  {
    if s != [] {
      FilterCount(s[1..], p, t);
      assert s == [s[0]] + s[1..];
    }
  }

  /** The heap entries of pooled transactions that are not local. */
  function Remote(items: seq<Tx>, all: set<Tx>, locals: set<Address>): seq<Tx> {
    Filter(items, (t: Tx) => t in all && t.sender !in locals)
  }

  /** `drop` are entries of `remote` of the lowest ranks, `count` of them or all. */
  ghost predicate LowestOf(drop: seq<Tx>, remote: seq<Tx>, count: nat) {
    && multiset(drop) <= multiset(remote) && |drop| == Min(count, |remote|)
    && forall d, y :: d in drop && multiset(drop)[y] < multiset(remote)[y] ==> PriceRank(d) <= PriceRank(y)
  }

  lemma RemotePop(before: seq<Tx>, after: seq<Tx>, all: set<Tx>, locals: set<Address>, head: Tx)
    requires multiset(after) == multiset(before) - multiset{head} && head in before
    ensures head in all && head.sender !in locals ==>
      multiset(Remote(before, all, locals)) == multiset(Remote(after, all, locals)) + multiset{head}
    ensures head !in all || head.sender in locals ==>
      multiset(Remote(before, all, locals)) == multiset(Remote(after, all, locals))
  {
    FilterPop(before, after, (t: Tx) => t in all && t.sender !in locals, head);
  }

  lemma FilterPop(before: seq<Tx>, after: seq<Tx>, p: Tx -> bool, head: Tx)
    requires multiset(after) == multiset(before) - multiset{head} && head in before
    ensures p(head) ==> multiset(Filter(before, p)) == multiset(Filter(after, p)) + multiset{head}
    ensures !p(head) ==> multiset(Filter(before, p)) == multiset(Filter(after, p))
  {
    hide Filter;
    forall t: Tx
      ensures multiset(Filter(before, p))[t] == multiset(Filter(after, p))[t] + if p(head) && t == head then 1 else 0
    {
      FilterCount(before, p, t);
      FilterCount(after, p, t);
    }
  }

  /** Mid-way through Discard: the remote entries of `items0` are dropped or still in
      the heap, dropped ones rank no higher, and what was set aside is local. */
  ghost predicate Purging(items0: seq<Tx>, items: seq<Tx>, save: seq<Tx>, drop: seq<Tx>, all: set<Tx>,
                          locals: set<Address>)
  {
    && multiset(Remote(items0, all, locals)) == multiset(drop) + multiset(Remote(items, all, locals))
    && (forall d, y :: d in drop && y in items ==> PriceRank(d) <= PriceRank(y))
    && (forall d :: d in drop ==> d.sender !in locals) && (forall t :: t in save ==> t.sender in locals)
  }

  lemma PurgeStart(items: seq<Tx>, stales: int, all: set<Tx>, locals: set<Address>)
    requires Heap.IsHeap<Tx>(items, PriceRank) && Covers(items, stales, all, 0) && stales >= 0
    ensures Pulling(items, stales, [], [], all) && Purging(items, items, [], [], all, locals)
  {
    hide Remote;
    assert all - Pooled([]) == all;
  }

  lemma PurgeStep(items0: seq<Tx>, before: seq<Tx>, items: seq<Tx>, save: seq<Tx>, drop: seq<Tx>, all: set<Tx>,
                  locals: set<Address>)
    requires Purging(items0, before, save, drop, all, locals) && before != []
    requires multiset(items) == multiset(before) - multiset{before[0]} && Pooled(items) <= Pooled(before)
    requires forall y :: y in items ==> PriceRank(before[0]) <= PriceRank(y)
    ensures before[0] !in all ==> Purging(items0, items, save, drop, all, locals)
    ensures before[0].sender in locals ==> Purging(items0, items, save + [before[0]], drop, all, locals)
    ensures before[0] in all && before[0].sender !in locals ==>
      Purging(items0, items, save, drop + [before[0]], all, locals)
  {
    hide Remote, PriceRank;
    var head := before[0];
    assert forall y :: y in items ==> y in Pooled(items);
    RemotePop(before, items, all, locals, head);
    AddLast(save, drop, items, head);
  }

  lemma AddLast(save: seq<Tx>, drop: seq<Tx>, items: seq<Tx>, t: Tx)
    requires forall y :: y in items ==> PriceRank(t) <= PriceRank(y)
    requires forall d, y :: d in drop && y in items ==> PriceRank(d) <= PriceRank(y)
    ensures multiset(drop + [t]) == multiset(drop) + multiset{t}
    ensures forall d, y :: d in drop + [t] && y in items ==> PriceRank(d) <= PriceRank(y)
    ensures forall d :: d in drop + [t] <==> d in drop || d == t
    ensures forall d :: d in save + [t] <==> d in save || d == t
  {
    hide PriceRank;
  }

  lemma PurgeEnd(items0: seq<Tx>, items: seq<Tx>, stales: int, save: seq<Tx>, drop: seq<Tx>, all: set<Tx>,
                 locals: set<Address>, count: nat)
    requires Purging(items0, items, save, drop, all, locals) && Pulling(items, stales, save, drop, all)
    requires |drop| <= count && (|drop| == count || items == [])
    ensures LowestOf(drop, Remote(items0, all, locals), count)
    ensures forall d :: d in drop ==> d.sender !in locals
    ensures forall d, t :: d in drop && t in all - Pooled(drop) && t.sender !in locals ==> d.price <= t.price
    ensures |drop| < count ==> forall t :: t in all - Pooled(drop) ==> t.sender in locals
    ensures Pooled(drop) <= all
  {
    hide PriceRank;
    forall t | t in all - Pooled(drop) && t.sender !in locals ensures t in items {
      assert t in Pooled(items) + Pooled(save);
    }
    forall d, t | d in drop && t in all - Pooled(drop) && t.sender !in locals ensures d.price <= t.price {
      PriceRankIsLess(d, t);
    }
    RemoteInHeap(items, all, locals);
    LowestTaken(drop, Remote(items0, all, locals), items, Remote(items, all, locals), count);
  }

  lemma RemoteInHeap(items: seq<Tx>, all: set<Tx>, locals: set<Address>)
    ensures forall y :: y in Remote(items, all, locals) ==> y in items
  {
    var p := (t: Tx) => t in all && t.sender !in locals;
    forall y | y in Filter(items, p) ensures y in items {
      FilterCount(items, p, y);
      assert y in multiset(Filter(items, p));
    }
  }

  lemma LowestTaken(drop: seq<Tx>, remote: seq<Tx>, items: seq<Tx>, left: seq<Tx>, count: nat)
    requires multiset(remote) == multiset(drop) + multiset(left) && |drop| <= count && (|drop| == count || items == [])
    requires forall y :: y in left ==> y in items
    requires forall d, y :: d in drop && y in items ==> PriceRank(d) <= PriceRank(y)
    ensures LowestOf(drop, remote, count)
  {
    hide PriceRank;
    assert |multiset(remote)| == |remote| && |multiset(drop)| == |drop| && |multiset(left)| == |left|;
    assert left != [] ==> left[0] in items;
    forall y | multiset(drop)[y] < multiset(remote)[y] ensures y in items {
      assert y in multiset(left);
    }
  }

  /** Entries of `remote` that rank below `t`, and others of its rank. */
  function Cheaper(remote: seq<Tx>, t: Tx): nat {
    |Filter(remote, (x: Tx) => PriceRank(x) < PriceRank(t))|
  }

  function Tied(remote: seq<Tx>, t: Tx): nat {
    |Filter(remote, (x: Tx) => PriceRank(x) == PriceRank(t) && x != t)|
  }

  /** A transaction with two entries that the purge is sure to reach. */
  ghost predicate Reached(remote: seq<Tx>, count: nat, t: Tx) {
    multiset(remote)[t] >= 2 && Cheaper(remote, t) + Tied(remote, t) + 2 <= count
  }

  /** A transaction with two entries that the purge may reach. */
  ghost predicate Reachable(remote: seq<Tx>, count: nat, t: Tx) {
    multiset(remote)[t] >= 2 && Cheaper(remote, t) + 2 <= count
  }

  /** A purge frees as many places as it names entries if it cannot reach a second
      entry of a transaction, and only if there is none it is sure to reach. */
  lemma RoomMade(drop: seq<Tx>, remote: seq<Tx>, count: nat)
    requires LowestOf(drop, remote, count)
    ensures (forall t :: !Reachable(remote, count, t)) ==> |Pooled(drop)| == |drop|
    ensures |Pooled(drop)| == |drop| ==> forall t :: !Reached(remote, count, t)
  {
    hide LowestOf, Reachable, Reached;
    if forall t :: !Reachable(remote, count, t) {
      forall t ensures multiset(drop)[t] <= 1 {
        if multiset(drop)[t] >= 2 {
          TwiceReachable(drop, remote, count, t);
        }
      }
      OnceCounted(drop);
    }
    if |Pooled(drop)| == |drop| {
      forall t ensures !Reached(remote, count, t) {
        if Reached(remote, count, t) {
          ReachedTwice(drop, remote, count, t);
          TwiceCounted(drop, t);
        }
      }
    }
  }

  /** Where no other transaction has the rank of one with two entries, the purge
      makes its room if and only if it cannot reach such a second entry. */
  lemma RoomMadeIff(drop: seq<Tx>, remote: seq<Tx>, count: nat)
    requires LowestOf(drop, remote, count)
    requires forall t :: multiset(remote)[t] >= 2 ==> Tied(remote, t) == 0
    ensures |Pooled(drop)| == |drop| <==> forall t :: !Reachable(remote, count, t)
  {
    hide LowestOf, Tied, Cheaper;
    RoomMade(drop, remote, count);
    assert forall t :: Reachable(remote, count, t) ==> Reached(remote, count, t);
  }

  lemma TwiceReachable(drop: seq<Tx>, remote: seq<Tx>, count: nat, t: Tx)
    requires LowestOf(drop, remote, count) && multiset(drop)[t] >= 2
    ensures Reachable(remote, count, t)
  {
    hide PriceRank;
    var p := (x: Tx) => PriceRank(x) < PriceRank(t);
    var low := Filter(remote, p);
    assert t in multiset(drop);
    forall x: Tx ensures multiset(low)[x] <= (multiset(drop) - multiset{t, t})[x] {
      FilterCount(remote, p, x);
    }
    assert multiset(low) <= multiset(drop) - multiset{t, t};
    SubCount(multiset(low), multiset(drop) - multiset{t, t});
    assert |multiset(low)| == |low| && |multiset(drop)| == |drop|;
  }

  lemma SubCount(x: multiset<Tx>, y: multiset<Tx>)
    requires x <= y
    ensures |x| <= |y|
  {
    assert y == x + (y - x);
  }

  lemma ReachedTwice(drop: seq<Tx>, remote: seq<Tx>, count: nat, t: Tx)
    requires LowestOf(drop, remote, count) && Reached(remote, count, t)
    ensures multiset(drop)[t] >= 2
  {
    hide PriceRank;
    var below, tie := (x: Tx) => PriceRank(x) < PriceRank(t), (x: Tx) => PriceRank(x) == PriceRank(t) && x != t;
    var low, same := multiset(Filter(remote, below)), multiset(Filter(remote, tie));
    assert |low| == Cheaper(remote, t) && |same| == Tied(remote, t);
    hide Filter, Cheaper, Tied;
    forall x: Tx
      ensures low[x] == if below(x) then multiset(remote)[x] else 0
      ensures same[x] == if tie(x) then multiset(remote)[x] else 0
    {
      FilterCount(remote, below, x);
      FilterCount(remote, tie, x);
    }
    NotReached(multiset(drop), multiset(remote), low, same, t);
    assert |multiset(remote)| == |remote| && |multiset(drop)| == |drop|;
  }

  lemma NotReached(drop: multiset<Tx>, remote: multiset<Tx>, low: multiset<Tx>, same: multiset<Tx>, t: Tx)
    requires forall x :: low[x] == if PriceRank(x) < PriceRank(t) then remote[x] else 0
    requires forall x :: same[x] == if PriceRank(x) == PriceRank(t) && x != t then remote[x] else 0
    requires drop <= remote && remote[t] >= 2
    requires forall d, y :: d in drop && drop[y] < remote[y] ==> PriceRank(d) <= PriceRank(y)
    ensures |low| + |same| + 2 <= |remote|
    ensures drop[t] < 2 ==> |drop| < |low| + |same| + 2
  {
    hide PriceRank;
    assert low + same + multiset{t, t} <= remote;
    SubCount(low + same + multiset{t, t}, remote);
    if drop[t] < 2 {
      assert drop <= low + same + multiset{t};
      SubCount(drop, low + same + multiset{t});
    }
  }

  lemma {:induction false} OnceCounted(s: seq<Tx>)
    requires forall t :: multiset(s)[t] <= 1
    ensures |Pooled(s)| == |s|
  {
    if s != [] {
      var rest := s[1..];
      assert s == [s[0]] + rest;
      assert forall t :: multiset(rest)[t] <= multiset(s)[t];
      OnceCounted(rest);
      assert s[0] !in rest by {
        assert multiset(s)[s[0]] == 1 + multiset(rest)[s[0]];
      }
      assert Pooled(s) == {s[0]} + Pooled(rest);
    }
  }

  lemma TwiceCounted(s: seq<Tx>, t: Tx)
    requires multiset(s)[t] >= 2
    ensures |Pooled(s)| < |s|
  {
    assert t in s;
    var i :| 0 <= i < |s| && s[i] == t;
    var rest := s[..i] + s[i + 1..];
    assert s == s[..i] + [t] + s[i + 1..];
    assert multiset(s) == multiset(rest) + multiset{t};
    assert t in multiset(rest);
    assert Pooled(s) <= Pooled(rest);
    DistinctFit(Pooled(s), rest);
  }

  lemma BothEntries(drop: seq<Tx>, remote: seq<Tx>, t: Tx)
    requires LowestOf(drop, remote, 2) && multiset(remote)[t] >= 2
    requires forall x :: x in remote && x != t ==> PriceRank(t) < PriceRank(x)
    ensures drop == [t, t]
  {
    hide PriceRank;
    assert |multiset(remote)| == |remote|;
    SubCount(multiset{t, t}, multiset(remote));
    forall d | d in drop ensures d == t {
      assert d in multiset(remote);
      assert d != t ==> multiset(drop)[t] >= 2 && multiset{d, t, t} <= multiset(drop);
      if d != t {
        SubCount(multiset{d, t, t}, multiset(drop));
        assert false;
      }
    }
    assert drop[0] in drop && drop[1] in drop;
  }

  /** A list whose cheapest transaction left the pool and came back while its old
      entry was still in the heap. */
  method Reentered(t: Tx, u: Tx, v: Tx, w: Tx) returns (list: TxPricedList)
    requires t.price < u.price < v.price < w.price
    ensures fresh(list) && list.Valid({u, v, w} + {t}) && multiset(list.items)[t] == 2
  {
    hide Covers, Heap.IsHeap, PriceRank;
    list := new TxPricedList();
    list.Put(t, {}, 0);
    list.Put(u, {} + {t}, 0);
    list.Put(v, {} + {t} + {u}, 0);
    list.Put(w, {} + {t} + {u} + {v}, 0);
    assert {} + {t} + {u} + {v} + {w} - {t} == {u, v, w};
    OwesOne(list.items, list.stales, {} + {t} + {u} + {v} + {w}, t);
    assert |multiset(list.items)| == 4;
    list.Removed({u, v, w}, 1, 0);
    list.Put(t, {u, v, w}, 0);
  }

  /** A purge that falls short: asked for two drops it names one transaction twice
      and frees one place. */
  method PurgeFallsShort(t: Tx, u: Tx, v: Tx, w: Tx) returns (drop: seq<Tx>)
    requires t.price < u.price < v.price < w.price
    ensures drop == [t, t] && |Pooled(drop)| == 1
  {
    hide Covers, Heap.IsHeap, PriceRank, Remote, LowestOf, Pooled;
    var list := Reentered(t, u, v, w);
    ghost var items := list.items;
    drop := list.Discard(2, {u, v, w} + {t}, {});
    ShortEntries(items, {u, v, w} + {t}, {}, t);
    BothEntries(drop, Remote(items, {u, v, w} + {t}, {}), t);
    PooledPair(t);
  }

  lemma PooledPair(t: Tx)
    ensures Pooled([t, t]) == {t}
  {
  }

  lemma OwesOne(items: seq<Tx>, stales: int, all: set<Tx>, t: Tx)
    requires Covers(items, stales, all, 0) && t in all
    ensures Covers(items, stales, all - {t}, 1)
  {
  }

  lemma ShortEntries(items: seq<Tx>, all: set<Tx>, locals: set<Address>, t: Tx)
    requires multiset(items)[t] == 2 && t in all && t.sender !in locals
    requires forall x :: x in all && x != t ==> t.price < x.price
    ensures multiset(Remote(items, all, locals))[t] == 2
    ensures forall x :: x in Remote(items, all, locals) && x != t ==> PriceRank(t) < PriceRank(x)
  {
    var p := (x: Tx) => x in all && x.sender !in locals;
    FilterCount(items, p, t);
    forall x | x in Filter(items, p) && x != t ensures PriceRank(t) < PriceRank(x) {
      FilterCount(items, p, x);
      assert x in multiset(Filter(items, p));
      PriceRankIsLess(t, x);
    }
  }
}
