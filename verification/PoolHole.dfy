/** A run of the pool after which an account that was in order has a hole among its
    pending nonces. */
module PoolHoles {
  import opened Basics
  import opened Transactions
  import opened TxSortedMaps
  import opened TxLists
  import opened PoolAccounts
  import opened PoolIndex
  import opened PoolSizes
  import opened PoolRuns
  import opened TxPools

  function SampleTx(n: Uint64): Tx {
    Tx(0, 1, n, 1, 1, 1)
  }

  const SUBMITTED: seq<Tx> := [SampleTx(5), SampleTx(6), SampleTx(7)]

  /** A head whose state has account 1 at `nonce`, with means for everything. */
  function HeadAt(nonce: nat): HeadState {
    (map[1 := nonce], map[1 := 10], 10)
  }

  /** Account 1 enters with nonces 5 to 7, which become pending. */
  method Fill(config: Config) returns (pool: TxPool)
    requires config.Sane() && config.globalSlots + config.globalQueue >= 4
    ensures fresh(pool) && fresh(pool.priced) && pool.Valid() && pool.config == config && pool.locals == {1}
    ensures Waiting(pool.Now()) && forall t :: t in pool.all ==> t in SUBMITTED
  {
    hide InStep, Executable, Turned, Reordered, OfferedAll, Moment.Packed, Trimmed, Refreshed, Settles, AcctOf,
      PlaceAll,
      Promote, Cut, Waiting, Total, Len, Moment.Limited;
    var checks := (t: Tx) => true;
    pool := new TxPool(config, {1}, 1);
    ghost var x := pool.Now();
    ghost var mid := pool.TurnToHead(Some(HeadAt(5)), [], checks, 0);
    Entered(config, x, checks, mid, pool.Now());
    assert pool.Acct(1) == pool.Now().Acct(1);
    ghost var terms := pool.TermsOf(false, checks);
    pool.AddAll(SUBMITTED, false, checks);
    Queued(config, terms);
    x := pool.Now();
    assert x.Acct(1) == pool.Acct(1) && x.Fine(1) == pool.Fine(1);
    ghost var promoted := pool.Settle({1}, 0);
    assert pool.Acct(1) == pool.Now().Acct(1) && pool.Fine(1) == pool.Now().Fine(1);
    Pending(x, pool.Now());
  }

  /** Then the head goes back to nonce 3, and of the two transactions in between only
      nonce 3 is reinjected: it becomes pending too, and nonce 4 is missing. */
  method RewoundHeadLeavesHole(config: Config) returns (pool: TxPool, ghost before: Moment)
    requires config.Sane() && config.globalSlots + config.globalQueue >= 4
    ensures fresh(pool) && pool.Valid() && before.Fine(1) && !pool.Fine(1)
  {
    hide InStep, Executable, Turned, Reordered, Moment.Packed, AcctOf;
    var checks := (t: Tx) => true;
    pool := Fill(config);
    before := pool.Now();
    AtMostThree(before.all);
    ghost var mid := pool.TurnToHead(Some(HeadAt(3)), [SampleTx(3)], checks, 0);
    Left(config, before, checks, mid, pool.Now());
  }

  lemma AtMostThree(all: set<Tx>)
    requires forall t :: t in all ==> t in SUBMITTED
    ensures |all| <= 3
  {
    SubsetSize(all, {SampleTx(5), SampleTx(6), SampleTx(7)});
  }

  lemma NoLists(x: Moment)
    requires InStep(x.pending, x.queue, x.all) && x.all == {}
    ensures x.Acct(1).pending == map[] && x.Acct(1).queue == map[]
  {
    AccountInStep(x.pending, x.queue, x.all, 1);
  }

  lemma EmptySettles(acc: Account, w: Limits)
    requires acc.pending == map[] && acc.queue == map[] && acc.next == w.nonce
    ensures Settles(acc, w)
  {
  }

  /** On the first head account 1 has nothing and its virtual nonce is 5. */
  lemma Entered(config: Config, x: Moment, checks: Tx -> bool, mid: Moment, y: Moment)
    requires InStep(x.pending, x.queue, x.all) && x.all == {} && InStep(y.pending, y.queue, y.all)
    requires Turned(config, x, Some(HeadAt(5)), [], checks, mid) && Reordered(config, mid, y)
    ensures y.all == {} && y.Acct(1) == Account(map[], map[], 5) && y.locals == x.locals && y.Head() == HeadAt(5)
  {
    hide InStep, AcctOf, Settles, OfferedAll;
    NoLists(x);
    EmptySettles(mid.Acct(1), mid.LimitsOf(1));
    assert mid.Settled(1) && y.Fine(1);
    NoLists(y);
    EmptyIff(y.Acct(1), 5);
  }

  /** Its transactions enter the queue. */
  lemma Queued(config: Config, terms: Terms)
    requires terms.nonces == map[1 := 5] && terms.balances == map[1 := 10] && terms.maxGas == 10 && terms.locals == {1}
    requires forall t :: terms.checks(t)
    ensures
      PlaceAll(Account(map[], map[], 5), SUBMITTED, 1, config.priceBump, terms)
      == Account(map[], map[5 := SampleTx(5), 6 := SampleTx(6), 7 := SampleTx(7)], 5)
  {
    var acc := Account(map[], map[], 5);
    assert SUBMITTED[..2] == [SampleTx(5), SampleTx(6)] && [SampleTx(5), SampleTx(6)][..1] == [SampleTx(5)];
    assert [SampleTx(5)][..0] == [];
    assert PlaceAll(acc, [SampleTx(5)], 1, config.priceBump, terms) == acc.(queue := map[5 := SampleTx(5)]);
    assert PlaceAll(acc, [SampleTx(5), SampleTx(6)], 1, config.priceBump, terms)
      == acc.(queue := map[5 := SampleTx(5), 6 := SampleTx(6)]);
  }

  lemma Promoted(acc: Account, w: Limits)
    requires acc == Account(map[], map[5 := SampleTx(5), 6 := SampleTx(6), 7 := SampleTx(7)], 5)
    requires w == Limits(5, 10, 10)
    ensures Promote(acc, w, None).pending.Keys == {5, 6, 7}
  {
    assert Payable(acc.queue, w) == acc.queue;
    assert acc.queue.Keys == {5, 6, 7};
    assert RunEnd(acc.queue, 5) == 8;
    assert Run(acc.queue, 5).Keys == {5, 6, 7};
  }

  /** They become pending. */
  lemma Pending(x: Moment, y: Moment)
    requires x.Acct(1) == Account(map[], map[5 := SampleTx(5), 6 := SampleTx(6), 7 := SampleTx(7)], 5)
    requires InStep(y.pending, y.queue, y.all) && x.Head() == y.Head() == HeadAt(5)
    requires Refreshed(Promote(x.Acct(1), Limits(5, 10, 10), None), y.Acct(1)) && (x.Fine(1) ==> y.Fine(1))
    requires forall t :: t in y.all ==> t in SUBMITTED
    ensures Waiting(y)
  {
    hide InStep, AcctOf, Promote, Executable;
    Promoted(x.Acct(1), Limits(5, 10, 10));
    EmptyIff(x.Acct(1), 5);
    AccountInStep(y.pending, y.queue, y.all, 1);
    Parts(y);
    OnlySubmitted(ItemsOf(y.pending, 1), ItemsOf(y.queue, 1), y.all);
  }

  lemma OnlySubmitted(p: Items, q: Items, all: set<Tx>)
    requires SoundLists(1, p, q) && p.Keys == {5, 6, 7} && forall t :: t in all ==> t in SUBMITTED
    requires (forall n :: n in p ==> p[n] in all) && (forall n :: n in q ==> q[n] in all)
    ensures q == map[] && forall n :: n in p ==> p[n] == SampleTx(n)
  {
    assert forall t :: t in SUBMITTED ==> 5 <= t.nonce <= 7 && t == SampleTx(t.nonce);
    assert forall t :: t in all ==> t.nonce in p.Keys;
  }

  lemma Parts(y: Moment)
    ensures y.Acct(1).pending == ItemsOf(y.pending, 1) && y.Acct(1).queue == ItemsOf(y.queue, 1)
  {
  }

  /** Account 1 has nonces 5 to 7 pending and nothing queued. */
  ghost predicate Waiting(y: Moment) {
    var acc := y.Acct(1);
    && y.Fine(1) && acc.queue == map[] && acc.pending.Keys == {5, 6, 7}
    && forall n :: n in acc.pending ==> acc.pending[n] == SampleTx(n)
  }

  lemma HoleShape(acc: Account, w: Limits)
    requires w.nonce == 3 == acc.next && w.balance == w.maxGas == 10
    requires acc.queue == map[3 := SampleTx(3)]
    requires acc.pending.Keys == {5, 6, 7} && forall n :: n in acc.pending ==> acc.pending[n] == SampleTx(n)
    ensures !Survives(acc, w) && GapFree(acc.pending)
  {
    assert forall n :: n in acc.pending <==> 5 <= n < 8;
    assert Payable(acc.queue, w) == acc.queue;
    assert 3 in acc.queue && 4 !in acc.queue && RunEnd(acc.queue, 3) == 4;
    assert AtLeast(acc.pending, 3) == acc.pending;
    assert Least(acc.pending.Keys) == 5;
  }

  lemma Reinjected(config: Config, x: Moment, checks: Tx -> bool, mid: Moment)
    requires Waiting(x) && 1 in x.locals && x.Room(config, 1) && forall t :: checks(t)
    requires Turned(config, x, Some(HeadAt(3)), [SampleTx(3)], checks, mid)
    ensures mid.Acct(1) == Account(x.Acct(1).pending, map[3 := SampleTx(3)], 3) && mid.Head() == HeadAt(3)
    ensures mid.locals == x.locals
  {
    hide InStep, AcctOf, OfferedAll, Cut;
    assert mid.Acct(1)
      == PlaceAll(Rewound(x, 1, 3), [SampleTx(3)], 1, config.priceBump, mid.TermsOf(false, checks));
    OnePlaced(x.Acct(1), config.priceBump, mid.TermsOf(false, checks));
  }

  lemma OnePlaced(acc: Account, priceBump: nat, terms: Terms)
    requires acc.queue == map[] && 3 !in acc.pending && 1 in terms.locals && forall t :: terms.checks(t)
    requires terms.nonces == map[1 := 3] && terms.balances == map[1 := 10] && terms.maxGas == 10
    ensures
      PlaceAll(acc.(next := 3), [SampleTx(3)], 1, priceBump, terms) == Account(acc.pending, map[3 := SampleTx(3)], 3)
  {
    assert [SampleTx(3)][..0] == [];
  }

  lemma LocalExactly(config: Config, x: Moment, y: Moment)
    requires Reordered(config, x, y) && 1 in x.locals
    ensures y.Fine(1) <==> x.Settled(1)
  {
    hide AcctOf, Executable, Settles, Trimmed, Refreshed, Promote, Demote, Total;
  }

  /** What the rewound head makes of it. */
  lemma Left(config: Config, x: Moment, checks: Tx -> bool, mid: Moment, y: Moment)
    requires Waiting(x) && 1 in x.locals && x.Room(config, 1) && forall t :: checks(t)
    requires Turned(config, x, Some(HeadAt(3)), [SampleTx(3)], checks, mid) && Reordered(config, mid, y)
    ensures !y.Fine(1)
  {
    hide InStep, AcctOf, Survives, GapFree, Settles, Turned, Reordered, Moment.Fine, Moment.Settled;
    Reinjected(config, x, checks, mid);
    LocalExactly(config, mid, y);
    HoleShape(mid.Acct(1), mid.LimitsOf(1));
    SettledIffSurvives(config, x, Some(HeadAt(3)), [SampleTx(3)], checks, mid, 1);
  }
}
