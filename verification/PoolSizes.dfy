/** Sizes of the pending lists, and what it means to level them off. */
module PoolSizes {
  import opened Basics
  import opened Transactions
  import opened PoolAccounts
  import opened PoolIndex

  function Len(m: map<Address, Items>, a: Address): nat {
    |ItemsOf(m, a)|
  }

  /** The number of transactions in all lists. */
  ghost function Total(m: map<Address, Items>): nat {
    if m.Keys == {} then 0
    else
      var a := Least(m.Keys);
      |m[a]| + Total(m - {a})
  }

  lemma TotalUnfold(m: map<Address, Items>)
    requires m.Keys != {}
    ensures Total(m) == |m[Least(m.Keys)]| + Total(m - {Least(m.Keys)})
  {
  }

  lemma LeastStays(s: set<Address>, a: Address)
    requires a in s && a != Least(s)
    ensures s - {a} != {} && Least(s - {a}) == Least(s)
  {
    hide Least;
    assert Least(s) in s - {a};
  }

  lemma MinusTwice(m: map<Address, Items>, a: Address, b: Address)
    ensures m - {b} - {a} == m - {a} - {b} && (m - {a}).Keys == m.Keys - {a} && (m - {b}).Keys == m.Keys - {b}
  {
  }

  lemma {:induction false} TotalWithout(m: map<Address, Items>, a: Address)
    requires a in m
    ensures Total(m) == |m[a]| + Total(m - {a})
    decreases m.Keys
  {
    hide Least, Total;
    var b := Least(m.Keys);
    TotalUnfold(m);
    if a != b {
      MinusTwice(m, a, b);
      LeastStays(m.Keys, a);
      TotalWithout(m - {b}, a);
      TotalUnfold(m - {a});
    }
  }

  lemma TotalApart(m: map<Address, Items>, a: Address)
    ensures Total(m) == Len(m, a) + Total(m - {a})
  {
    if a in m {
      TotalWithout(m, a);
    } else {
      assert m - {a} == m;
    }
  }

  lemma TotalSet(m: map<Address, Items>, a: Address, items: Items)
    ensures Total(SetItems(m, a, items)) == Total(m) - Len(m, a) + |items|
  {
    hide Total;
    TotalApart(m, a);
    TotalApart(SetItems(m, a, items), a);
    assert SetItems(m, a, items) - {a} == m - {a};
  }

  /** Counts the transactions of all lists. */
  method CountAll(m: map<Address, Items>) returns (n: nat)
    ensures n == Total(m)
  {
    n := 0;
    var left := m;
    while left.Keys != {}
      invariant n + Total(left) == Total(m)
      decreases left.Keys
    {
      var a :| a in left.Keys;
      TotalWithout(left, a);
      n, left := n + |left[a]|, left - {a};
    }
  }

  /** Every list of `m` that is not local is the list of `was` cut to `level`. */
  ghost predicate Leveled(was: map<Address, Items>, m: map<Address, Items>, locals: set<Address>, level: nat) {
    forall a :: Len(m, a) == if a in locals then Len(was, a) else Min(Len(was, a), level)
  }

  /** The accounts that lose something when lists are cut to `level`. */
  function CutBy(was: map<Address, Items>, locals: set<Address>, level: nat): set<Address> {
    set a | a in was && a !in locals && Len(was, a) > level
  }

  ghost predicate Distinct(s: seq<Address>) {
    forall i, j :: 0 <= i < j < |s| ==> s[i] != s[j]
  }

  ghost function Addresses(s: seq<Address>): set<Address> {
    set a | a in s
  }

  lemma {:induction false} DistinctCount(s: seq<Address>)
    requires Distinct(s)
    ensures |Addresses(s)| == |s|
  {
    if s != [] {
      DistinctCount(s[1..]);
      assert Addresses(s) == {s[0]} + Addresses(s[1..]);
    }
  }

  /** Dropping one transaction from each account above `level - 1` lowers the level. */
  lemma LowerLevel(was: map<Address, Items>, m: map<Address, Items>, m': map<Address, Items>, locals: set<Address>,
                   level: nat, offenders: seq<Address>)
    requires level > 0 && Leveled(was, m, locals, level)
    requires Addresses(offenders) == CutBy(was, locals, level - 1)
    requires forall a :: Len(m', a) == Len(m, a) - (if a in offenders then 1 else 0)
    ensures Leveled(was, m', locals, level - 1)
  {
    forall a ensures Len(m', a) == if a in locals then Len(was, a) else Min(Len(was, a), level - 1) {
      assert a in offenders <==> a in CutBy(was, locals, level - 1);
      if a !in was {
        assert Len(was, a) == 0;
      }
    }
  }

  /** The offenders stand at `level`, and nobody else is above `threshold`. */
  ghost predicate Tier(was: map<Address, Items>, m: map<Address, Items>, locals: set<Address>, offenders: seq<Address>,
                       threshold: nat, level: nat)
  {
    && threshold <= level && Leveled(was, m, locals, level) && Distinct(offenders)
    && (forall a :: a in CutBy(was, locals, threshold) ==> a in offenders)
    && (forall a :: a in offenders ==> a in was && a !in locals && Len(was, a) >= level)
  }

  lemma TierLens(was: map<Address, Items>, m: map<Address, Items>, locals: set<Address>, offenders: seq<Address>,
                 threshold: nat, level: nat)
    requires Tier(was, m, locals, offenders, threshold, level)
    ensures threshold <= level && Distinct(offenders)
    ensures forall i :: 0 <= i < |offenders| ==> offenders[i] !in locals && Len(m, offenders[i]) == level
  {
  }

  lemma TierRound(was: map<Address, Items>, m: map<Address, Items>, m': map<Address, Items>, locals: set<Address>,
                  offenders: seq<Address>, threshold: nat, level: nat)
    requires Tier(was, m, locals, offenders, threshold, level) && level > threshold
    requires forall a :: Len(m', a) == Len(m, a) - (if a in offenders then 1 else 0)
    ensures Tier(was, m', locals, offenders, threshold, level - 1)
    ensures |CutBy(was, locals, level - 1)| == |offenders|
  {
    assert CutBy(was, locals, level - 1) == Addresses(offenders) by {
      forall a | a in CutBy(was, locals, level - 1) ensures a in offenders {
        assert a in CutBy(was, locals, threshold);
      }
    }
    LowerLevel(was, m, m', locals, level, offenders);
    DistinctCount(offenders);
  }

  /** Everyone who is neither an offender nor still in the spam queue is small. */
  ghost predicate Sorted(was: map<Address, Items>, locals: set<Address>, slots: nat, offenders: seq<Address>,
                         spammers: set<Address>)
  {
    && (forall a :: a in CutBy(was, locals, slots) <==> a in offenders || a in spammers)
    && (forall a :: a in offenders ==> a !in spammers)
  }

  /** What the spam queue pops: an account with a longest list. */
  method PickLargest(m: map<Address, Items>, s: set<Address>) returns (a: Address)
    requires s != {}
    ensures a in s && forall b :: b in s ==> Len(m, b) <= Len(m, a)
  {
    hide Len;
    a :| a in s;
    var todo := s - {a};
    while todo != {}
      invariant todo <= s && a in s
      invariant forall b :: b in s && b !in todo ==> Len(m, b) <= Len(m, a)
    {
      var b :| b in todo;
      todo := todo - {b};
      if Len(m, b) > Len(m, a) {
        a := b;
      }
    }
  }

  /** While offenders are gathered: they stand at `level`, the rest of the spam
      queue is no higher. */
  ghost predicate Gathering(was: map<Address, Items>, m: map<Address, Items>, locals: set<Address>, slots: nat,
                            offenders: seq<Address>, spammers: set<Address>, level: nat) {
    && level >= slots && Leveled(was, m, locals, level)
    && Sorted(was, locals, slots, offenders, spammers) && Distinct(offenders)
    && (forall a :: a in offenders ==> Len(was, a) >= level)
    && (forall a :: a in spammers ==> Len(was, a) <= level)
  }

  lemma GatheringGives(was: map<Address, Items>, m: map<Address, Items>, locals: set<Address>, slots: nat,
                       offenders: seq<Address>, spammers: set<Address>, level: nat)
    requires Gathering(was, m, locals, slots, offenders, spammers, level)
    ensures level >= slots && Leveled(was, m, locals, level) && Sorted(was, locals, slots, offenders, spammers)
  {
  }

  lemma GatheringStart(was: map<Address, Items>, locals: set<Address>, slots: nat)
    ensures Gathering(was, was, locals, slots, [], CutBy(was, locals, slots), Total(was) + slots)
  {
  }

  /** The next offender joins: nobody outside is above it. */
  lemma GatheringPop(was: map<Address, Items>, m: map<Address, Items>, locals: set<Address>, slots: nat,
                     offenders: seq<Address>, spammers: set<Address>, level: nat, o: Address)
    requires Gathering(was, m, locals, slots, offenders, spammers, level)
    requires o in spammers && forall b :: b in spammers ==> Len(was, b) <= Len(was, o)
    ensures Tier(was, m, locals, offenders, Len(was, o), level)
    ensures Len(m, o) == Len(was, o) > slots
  {
  }

  lemma GatheringNext(was: map<Address, Items>, m: map<Address, Items>, locals: set<Address>, slots: nat,
                      offenders: seq<Address>, spammers: set<Address>, o: Address)
    requires Sorted(was, locals, slots, offenders, spammers) && o in spammers
    requires forall b :: b in spammers ==> Len(was, b) <= Len(was, o)
    requires Len(was, o) > slots && Tier(was, m, locals, offenders, Len(was, o), Len(was, o))
    ensures Gathering(was, m, locals, slots, offenders + [o], spammers - {o}, Len(was, o))
  {
  }

  /** The first offender sets the level. */
  lemma GatheringFirst(was: map<Address, Items>, locals: set<Address>, slots: nat, spammers: set<Address>, level: nat,
                       o: Address)
    requires Gathering(was, was, locals, slots, [], spammers, level)
    requires o in spammers && forall b :: b in spammers ==> Len(was, b) <= Len(was, o)
    ensures Gathering(was, was, locals, slots, [o], spammers - {o}, Len(was, o))
  {
  }

  lemma GatheringEnd(was: map<Address, Items>, m: map<Address, Items>, locals: set<Address>, slots: nat,
                     offenders: seq<Address>, level: nat)
    requires Gathering(was, m, locals, slots, offenders, {}, level)
    ensures Tier(was, m, locals, offenders, slots, level)
    ensures offenders == [] ==> Leveled(was, was, locals, slots)
  {
  }

  /** Lists without empty entries are equal when every account has the same one. */
  lemma SameLists(m: map<Address, Items>, m': map<Address, Items>)
    requires NonEmpty(m) && NonEmpty(m') && forall a :: ItemsOf(m', a) == ItemsOf(m, a)
    ensures m == m'
  {
    forall a ensures a in m <==> a in m' {
      assert ItemsOf(m', a) == ItemsOf(m, a);
    }
    forall a | a in m ensures m[a] == m'[a] {
      assert ItemsOf(m', a) == ItemsOf(m, a);
    }
  }

  lemma QueuedTx(pending: map<Address, Items>, queue: map<Address, Items>, all: set<Tx>, a: Address, n: nat)
    requires InStep(pending, queue, all) && n in ItemsOf(queue, a)
    ensures NonEmpty(pending) && NonEmpty(queue) && n !in ItemsOf(pending, a)
    ensures var tx := ItemsOf(queue, a)[n]; tx in all && tx.sender == a && tx.nonce == n
  {
  }

  lemma NonEmptyLists(pending: map<Address, Items>, queue: map<Address, Items>, all: set<Tx>)
    requires InStep(pending, queue, all)
    ensures NonEmpty(pending) && NonEmpty(queue)
  {
  }

  lemma RemovedFromQueue(pending: map<Address, Items>, queue: map<Address, Items>, nonces: map<Address, nat>,
                         pending': map<Address, Items>, queue': map<Address, Items>, nonces': map<Address, nat>,
                         state: map<Address, nat>, a: Address, n: nat)
    requires NonEmpty(pending) && NonEmpty(queue) && NonEmpty(pending') && NonEmpty(queue')
    requires n !in ItemsOf(pending, a)
    requires forall b ::
      AcctOf(pending', queue', nonces', state, b)
      == if b == a then Remove(AcctOf(pending, queue, nonces, state, b), n)
         else AcctOf(pending, queue, nonces, state, b)
    ensures pending' == pending && queue' == SetItems(queue, a, ItemsOf(queue, a) - {n})
    ensures forall b :: NextOf(nonces', state, b) == NextOf(nonces, state, b)
  {
    hide NonEmpty, ItemsOf, SetItems, NextOf;
    forall b
      ensures ItemsOf(pending', b) == ItemsOf(pending, b)
      ensures ItemsOf(queue', b) == if b == a then ItemsOf(queue, a) - {n} else ItemsOf(queue, b)
      ensures NextOf(nonces', state, b) == NextOf(nonces, state, b)
    {
      assert AcctOf(pending', queue', nonces', state, b).pending == ItemsOf(pending', b);
    }
    SameLists(pending, pending');
    StillNonEmpty(queue, a, ItemsOf(queue, a) - {n});
    SameLists(SetItems(queue, a, ItemsOf(queue, a) - {n}), queue');
  }

  lemma StillNonEmpty(m: map<Address, Items>, a: Address, items: Items)
    requires NonEmpty(m)
    ensures NonEmpty(SetItems(m, a, items))
  {
  }

  lemma LowestAll(m: Items)
    ensures Lowest(m, |m|) == m
  {
  }

  lemma SetTwice(m: map<Address, Items>, a: Address, x: Items, y: Items)
    ensures SetItems(SetItems(m, a, x), a, y) == SetItems(m, a, y)
  {
  }

  lemma LowestAgain(m: Items, k: nat)
    requires 0 < k <= |m|
    ensures Lowest(m, k).Keys != {} && Lowest(m, k - 1) == Lowest(m, k) - {Greatest(Lowest(m, k))}
  {
    hide Lowest, Greatest;
    LowestKeeps(m, k);
    LowestKeeps(m, k - 1);
    var lo := Lowest(m, k);
    assert |lo.Keys| == k;
    OneLess(m, lo, Lowest(m, k - 1), Greatest(lo));
  }

  lemma OneLess(m: Items, lo: Items, less: Items, g: nat)
    requires forall n :: n in lo ==> n in m && lo[n] == m[n]
    requires forall n :: n in less ==> n in m && less[n] == m[n]
    requires |lo| == |less| + 1
    requires forall x, y :: x in less && y in m && y !in less ==> x < y
    requires forall x, y :: x in lo && y in m && y !in lo ==> x < y
    requires g in lo && forall y :: y in lo ==> y <= g
    ensures less == lo - {g}
  {
    assert |lo.Keys| == |lo| && |less.Keys| == |less|;
    var rest := lo - {g};
    assert rest.Keys == lo.Keys - {g};
    forall x | x in less ensures x in lo && x != g {
      LowerPart(m, less, lo, x, g);
    }
    SubsetEqual(less.Keys, rest.Keys);
  }

  lemma LowerPart(m: Items, less: Items, lo: Items, x: nat, g: nat)
    requires less.Keys <= m.Keys && lo.Keys <= m.Keys && |less.Keys| < |lo.Keys| && x in less
    requires forall x, y :: x in less && y in m && y !in less ==> x < y
    requires forall x, y :: x in lo && y in m && y !in lo ==> x < y
    requires g in lo && forall y :: y in lo ==> y <= g
    ensures x in lo && x != g
  {
    var both := lo.Keys + less.Keys;
    assert |both| == |less.Keys| + |lo.Keys - less.Keys| && |both| == |lo.Keys| + |less.Keys - lo.Keys|;
    var y :| y in lo.Keys - less.Keys;
    assert x < y;
  }

  /** list.Cap(list.Len() - 1) drops exactly the highest nonce. */
  lemma CapOne(list: Items)
    requires |list| > 1
    ensures list.Keys != {} && Lowest(list, |list| - 1) == list - {Greatest(list)}
  {
    var k := |list| - 1;
    LowestKeeps(list, k);
    var lo, g := Lowest(list, k), Greatest(list);
    assert lo.Keys <= list.Keys && |lo.Keys| == |lo| == k < |list.Keys|;
    assert list.Keys - lo.Keys != {} by { assert |list.Keys - lo.Keys| == |list.Keys| - |lo.Keys|; }
    var y :| y in list.Keys && y !in lo.Keys;
    assert list.Keys == lo.Keys + {y} by {
      assert lo.Keys + {y} <= list.Keys && |lo.Keys + {y}| == |list.Keys|;
      SubsetEqual(lo.Keys + {y}, list.Keys);
    }
  }

  lemma SubsetEqual(a: set<nat>, b: set<nat>)
    requires a <= b && |a| == |b|
    ensures a == b
  {
    assert |b - a| == |b| - |a|;
  }

  lemma DropLastKeepsStep(pending: map<Address, Items>, queue: map<Address, Items>, all: set<Tx>,
                          nonces: map<Address, nat>, state: map<Address, nat>, a: Address)
    requires InStep(pending, queue, all) && Len(pending, a) > 1
    ensures ItemsOf(pending, a).Keys != {}
    ensures
      var list := ItemsOf(pending, a);
      var g := Greatest(list);
      && list[g] in all && list[g].nonce == g
      && InStep(SetItems(pending, a, list - {g}), queue, all - {list[g]})
      && forall b ::
        AcctOf(SetItems(pending, a, list - {g}), queue, nonces[a := Min(NextOf(nonces, state, a), g)], state, b)
        == if b == a then DropLast(AcctOf(pending, queue, nonces, state, a))
           else AcctOf(pending, queue, nonces, state, b)
  {
    hide InStep, Greatest;
    AccountInStep(pending, queue, all, a);
    var list, q := ItemsOf(pending, a), ItemsOf(queue, a);
    CapOne(list);
    var g := Greatest(list);
    ReplaceAccount(pending, queue, all, a, list - {g}, q, all - {list[g]});
    var r := DropLast(AcctOf(pending, queue, nonces, state, a));
    OnlyAccount(pending, queue, nonces, state, a, r, nonces[a := r.next]);
  }

  function Over(n: nat, limit: nat): nat {
    if n <= limit then 0 else n - limit
  }

  /* ---------- shedding queues, latest heartbeat first ---------- */

  method PickLatest(beats: map<Address, nat>, s: set<Address>) returns (a: Address)
    requires s != {}
    ensures a in s && forall b :: b in s ==> Lookup(beats, b) <= Lookup(beats, a)
  {
    a :| a in s;
    var todo := s - {a};
    while todo != {}
      invariant todo <= s && a in s
      invariant forall b :: b in s && b !in todo ==> Lookup(beats, b) <= Lookup(beats, a)
    {
      var b :| b in todo;
      todo := todo - {b};
      if Lookup(beats, b) > Lookup(beats, a) {
        a := b;
      }
    }
  }

  /** Local queues are untouched, the others keep their lowest nonces, and one
      only shrinks once every queue with a later heartbeat is gone. */
  ghost predicate Shed(was: map<Address, Items>, queue: map<Address, Items>, locals: set<Address>,
                       beats: map<Address, nat>)
  {
    && (forall a :: a in locals ==> ItemsOf(queue, a) == ItemsOf(was, a))
    && (forall a :: ItemsOf(queue, a) == Lowest(ItemsOf(was, a), Len(queue, a)))
    && (forall a, b ::
      Len(queue, a) < Len(was, a) && b !in locals && Lookup(beats, b) > Lookup(beats, a) ==> Len(queue, b) == 0)
  }

  /** Only accounts that are not local lose anything, those with the latest heartbeat
      first, and of each the highest nonces. */
  lemma ShedExactly(was: map<Address, Items>, queue: map<Address, Items>, locals: set<Address>,
                    beats: map<Address, nat>)
    requires Shed(was, queue, locals, beats)
    ensures forall a, b :: Len(queue, a) < Len(was, a) && b !in locals && Len(queue, b) > 0 ==>
      a !in locals && Lookup(beats, b) <= Lookup(beats, a)
    ensures forall a, n, m :: n in ItemsOf(queue, a) && m in ItemsOf(was, a) && m !in ItemsOf(queue, a) ==> n < m
  {
    hide Lowest;
    forall a, n, m | n in ItemsOf(queue, a) && m in ItemsOf(was, a) && m !in ItemsOf(queue, a) ensures n < m {
      LowestKeeps(ItemsOf(was, a), Len(queue, a));
    }
  }

  lemma LeveledExactly(was: map<Address, Items>, m: map<Address, Items>, locals: set<Address>, level: nat)
    requires Leveled(was, m, locals, level)
    ensures forall a :: Len(m, a) == if a in locals then Len(was, a) else Min(Len(was, a), level)
  {
    hide Len;
  }

  /** What the limit on pending transactions leaves: the local lists whole, every
      other list cut to one common level. The level is never below the guaranteed
      slots, and cutting by one less from each list would have left too many. */
  ghost predicate CutToSlots(was: map<Address, Items>, m: map<Address, Items>, locals: set<Address>, slots: nat,
                             limit: nat)
  {
    && (Total(was) <= limit ==> m == was)
    && exists level: nat ::
        && level >= slots && Leveled(was, m, locals, level)
        && (Total(m) <= limit || level == slots)
        && (m == was || Total(m) + |CutBy(was, locals, level)| > limit)
  }

  /** What the limit on queued transactions leaves: exactly the excess is gone, as far
      as it is not local; the latest heartbeats and the highest nonces went first. */
  ghost predicate CutToQueue(was: map<Address, Items>, queue: map<Address, Items>, locals: set<Address>,
                             beats: map<Address, nat>, limit: nat)
  {
    && (Total(was) <= limit ==> queue == was)
    && Total(queue) == Total(was) - Min(Over(Total(was), limit), Total(was - locals))
    && Shed(was, queue, locals, beats)
  }

  lemma ShedLocals(was: map<Address, Items>, queue: map<Address, Items>, locals: set<Address>,
                   beats: map<Address, nat>)
    requires Shed(was, queue, locals, beats)
    ensures forall a :: a in locals ==> ItemsOf(queue, a) == ItemsOf(was, a)
  {
  }

  /** The queues of `done` are gone, the others are whole, and `drop` of the
      `over` transactions still have to go. */
  ghost predicate Shedding(was: map<Address, Items>, queue: map<Address, Items>, locals: set<Address>,
                           beats: map<Address, nat>, done: set<Address>, drop: nat, over: nat)
  {
    && done <= was.Keys - locals && queue == was - done
    && (forall d, b :: d in done && b in was.Keys - locals - done ==> Lookup(beats, b) <= Lookup(beats, d))
    && over - drop == Total(was) - Total(queue) == Total(was - locals) - Total(was - locals - done)
  }

  lemma SheddingStart(was: map<Address, Items>, locals: set<Address>, beats: map<Address, nat>, over: nat)
    ensures Shedding(was, was, locals, beats, {}, over, over)
  {
    assert was - {} == was && was - locals - {} == was - locals;
  }

  lemma SheddingGives(was: map<Address, Items>, queue: map<Address, Items>, locals: set<Address>,
                      beats: map<Address, nat>, done: set<Address>, drop: nat, over: nat)
    requires Shedding(was, queue, locals, beats, done, drop, over)
    ensures Shed(was, queue, locals, beats)
    ensures drop <= over && Total(queue) == Total(was) - (over - drop) && over - drop <= Total(was - locals)
    ensures done == was.Keys - locals ==>
      over - drop == Total(was - locals) && forall a :: a !in locals ==> Len(queue, a) == 0
  {
    hide Total, Lowest;
    forall a ensures ItemsOf(queue, a) == Lowest(ItemsOf(was, a), Len(queue, a)) {
      LowestAll(ItemsOf(was, a));
      LowestNone(ItemsOf(was, a));
    }
    TotalMinus(was, done);
    if done == was.Keys - locals {
      assert was - locals - done == map[];
      TotalEmpty();
    }
  }

  lemma LowestNone(m: Items)
    ensures Lowest(m, 0) == map[]
  {
  }

  lemma TotalEmpty()
    ensures Total(map[]) == 0
  {
  }

  lemma MinusRest(m: map<Address, Items>, s: set<Address>, a: Address)
    requires a in s
    ensures m - (s - {a}) - {a} == m - s
  {
  }

  lemma {:induction false} TotalMinus(m: map<Address, Items>, s: set<Address>)
    ensures Total(m - s) <= Total(m)
  {
    hide Total;
    if s != {} {
      var a :| a in s;
      var rest := s - {a};
      TotalMinus(m, rest);
      TotalApart(m - rest, a);
      MinusRest(m, s, a);
    } else {
      assert m - s == m;
    }
  }

  lemma SheddingWhole(was: map<Address, Items>, queue: map<Address, Items>, locals: set<Address>,
                      beats: map<Address, nat>, done: set<Address>, drop: nat, over: nat, a: Address)
    requires Shedding(was, queue, locals, beats, done, drop, over)
    requires a in was.Keys - locals - done
    requires forall b :: b in was.Keys - locals - done ==> Lookup(beats, b) <= Lookup(beats, a)
    requires Len(queue, a) <= drop
    ensures Shedding(was, SetItems(queue, a, map[]), locals, beats, done + {a}, drop - Len(queue, a), over)
  {
    hide Total;
    TotalApart(queue, a);
    TotalApart(was - locals - done, a);
    assert SetItems(queue, a, map[]) == queue - {a} == was - (done + {a});
    assert was - locals - done - {a} == was - locals - (done + {a});
  }

  lemma SheddingPart(was: map<Address, Items>, queue: map<Address, Items>, locals: set<Address>,
                     beats: map<Address, nat>, done: set<Address>, drop: nat, over: nat, a: Address,
                     queue': map<Address, Items>)
    requires Shedding(was, queue, locals, beats, done, drop, over)
    requires a in was.Keys - locals - done
    requires forall b :: b in was.Keys - locals - done ==> Lookup(beats, b) <= Lookup(beats, a)
    requires Len(queue, a) > drop && queue' == SetItems(queue, a, Lowest(ItemsOf(queue, a), Len(queue, a) - drop))
    ensures Shed(was, queue', locals, beats)
    ensures Total(queue') == Total(was) - over && over <= Total(was - locals)
  {
    hide Total, Lowest, Shedding, Shed, SetItems, ItemsOf;
    SheddingGives(was, queue, locals, beats, done, drop, over);
    var keep := Len(queue, a) - drop;
    LowestKeeps(ItemsOf(queue, a), keep);
    assert |Lowest(ItemsOf(queue, a), keep).Keys| == keep;
    TotalSet(queue, a, Lowest(ItemsOf(queue, a), keep));
    SheddingWas(was, queue, locals, beats, done, drop, over, a);
    TotalApart(was - locals - done, a);
    PartShed(was, queue, locals, beats, done, a, keep);
  }

  lemma SheddingWas(was: map<Address, Items>, queue: map<Address, Items>, locals: set<Address>,
                    beats: map<Address, nat>, done: set<Address>, drop: nat, over: nat, a: Address)
    requires Shedding(was, queue, locals, beats, done, drop, over)
    requires a in was.Keys - locals - done
    ensures over - drop == Total(was - locals) - Total(was - locals - done)
    ensures Len(was - locals - done, a) == Len(queue, a)
    ensures queue == was - done
  {
  }

  lemma PartShed(was: map<Address, Items>, queue: map<Address, Items>, locals: set<Address>, beats: map<Address, nat>,
                 done: set<Address>, a: Address, keep: nat)
    requires Shed(was, queue, locals, beats) && queue == was - done && a in was.Keys - locals - done
    requires forall b :: b in was.Keys - locals - done ==> Lookup(beats, b) <= Lookup(beats, a)
    requires |Lowest(ItemsOf(queue, a), keep)| == keep <= Len(queue, a)
    ensures Shed(was, SetItems(queue, a, Lowest(ItemsOf(queue, a), keep)), locals, beats)
  {
    hide Lowest, SetItems;
    var queue' := SetItems(queue, a, Lowest(ItemsOf(queue, a), keep));
    forall b, c | Len(queue', b) < Len(was, b) && c !in locals && Lookup(beats, c) > Lookup(beats, b)
      ensures Len(queue', c) == 0
    {
      if b == a {
        assert c !in was.Keys - locals - done;
      }
    }
  }
}
