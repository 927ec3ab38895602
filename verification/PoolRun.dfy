/** Runs of the pool of core/tx_pool.go as values: a snapshot before and after every
    operation, and in which accounts the pending transactions stay in order. */
module PoolRuns {
  import opened Basics
  import opened Transactions
  import opened TxSortedMaps
  import opened TxLists
  import opened PoolAccounts
  import opened PoolIndex
  import opened PoolSizes
  import opened TxPricedLists

  /** The pool limits, after sanitizing. */
  datatype Config = Config(priceBump: nat, accountSlots: nat, globalSlots: nat, accountQueue: nat, globalQueue: nat) {
    predicate Sane() {
      priceBump >= 1 && accountSlots >= 1 && globalSlots >= 1 && accountQueue >= 1 && globalQueue >= 1
    }
  }

  /** What the head state says: nonces, balances and the gas limit of the block. */
  type HeadState = (map<Address, nat>, map<Address, nat>, nat)

  /** The entry points of the pool. `checks` stands for the checks made outside the
      pool state; a head change has no `state` if that state cannot be read. */
  datatype Operation =
    | Submit(txs: seq<Tx>, local: bool, checks: Tx -> bool)
    | Reorganise(dirty: set<Address>, now: nat)
    | NewHead(state: Option<HeadState>, reinject: seq<Tx>, checks: Tx -> bool, now: nat)
    | SetPrice(price: nat)
    | EvictionTick(now: nat, lifetime: nat)

  /** The pool at one moment. */
  datatype Moment = Moment(pending: map<Address, Items>, queue: map<Address, Items>, all: set<Tx>, locals: set<Address>,
                           beats: map<Address, nat>, nonces: map<Address, nat>, stateNonces: map<Address, nat>,
                           balances: map<Address, nat>, maxGas: nat, gasPrice: nat)
  {
    function Acct(a: Address): Account {
      AcctOf(pending, queue, nonces, stateNonces, a)
    }

    function LimitsOf(a: Address): Limits {
      Limits(Lookup(stateNonces, a), Lookup(balances, a), maxGas)
    }

    function TermsOf(local: bool, checks: Tx -> bool): Terms {
      Terms(stateNonces, balances, maxGas, gasPrice, locals, local, checks)
    }

    function QueueCap(config: Config, a: Address): Option<nat> {
      if a in locals then None else Some(config.accountQueue)
    }

    function Head(): HeadState {
      (stateNonces, balances, maxGas)
    }

    /** The pending nonces of `a` run from the state to the virtual nonce. */
    ghost predicate Fine(a: Address) {
      Executable(Acct(a), Lookup(stateNonces, a))
    }

    /** A reorganisation would put `a` in order. */
    ghost predicate Settled(a: Address) {
      Settles(Acct(a), LimitsOf(a))
    }

    /** The pool cannot fill up before the last of `n` further transactions. */
    predicate Room(config: Config, n: nat) {
      n == 0 || |all| + n <= config.globalSlots + config.globalQueue
    }

    /** The pool is within its limit, or all of it but one transaction is local. */
    ghost predicate Packed(config: Config) {
      |all| <= config.globalSlots + config.globalQueue || AtMostOne(all, locals)
    }

    ghost predicate Limited(config: Config) {
      && (Total(pending) <= config.globalSlots || forall a :: a !in locals ==> Len(pending, a) <= config.accountSlots)
      && (Total(queue) <= config.globalQueue || forall a :: a !in locals ==> Len(queue, a) == 0)
    }
  }

  /** Any two transactions that are not local are one. */
  ghost predicate AtMostOne(all: set<Tx>, locals: set<Address>) {
    forall s, t :: s in all && t in all && s.sender !in locals && t.sender !in locals ==> s == t
  }

  lemma StaysPacked(config: Config, x: Moment, y: Moment)
    requires x.Packed(config) && y.all <= x.all && x.locals <= y.locals
    ensures y.Packed(config)
  {
    SubsetSize(y.all, x.all);
  }

  /* ---------- adding one transaction ---------- */

  datatype AddResult = Added(replaced: bool) | Known | Invalid | UnderpricedTx | ReplaceUnderpriced

  /** What a full pool gives up for one more transaction: the cheapest remote ones, until
      there is a place or only local ones are left. */
  ghost predicate Purge(config: Config, x: Moment, drop: seq<Tx>) {
    var left := x.all - Pooled(drop);
    && Pooled(drop) <= x.all
    && (forall d :: d in drop ==> d.sender !in x.locals)
    && (forall d, t :: d in drop && t in left && t.sender !in x.locals ==> d.price <= t.price)
    && (if x.Room(config, 1) then drop == []
        else |left| == config.globalSlots + config.globalQueue - 1 || forall t :: t in left ==> t.sender in x.locals)
  }

  /** Account `a` after a purge. */
  function Spared(x: Moment, drop: seq<Tx>, a: Address): Account {
    RemoveAll(x.Acct(a), drop, a)
  }

  /** Transaction `tx` is offered to the pool `x`; `drop` goes before it is placed. */
  ghost predicate Offered(config: Config, x: Moment, tx: Tx, local: bool, checks: Tx -> bool, r: AddResult,
                          drop: seq<Tx>, y: Moment)
  {
    && (r.Known? <==> tx in x.all)
    && (r.Invalid? <==>
          && tx !in x.all
          && (|| tx.gas > x.maxGas || (!local && tx.sender !in x.locals && tx.price < x.gasPrice)
              || tx.nonce < Lookup(x.stateNonces, tx.sender) || tx.cost > Lookup(x.balances, tx.sender) || !checks(tx)))
    && (r.UnderpricedTx? <==>
          && tx !in x.all && !r.Invalid? && |x.all| >= config.globalSlots + config.globalQueue
          && !local && tx.sender !in x.locals && forall t :: t in x.all ==> t.price >= tx.price)
    && (if r.Added? || r.ReplaceUnderpriced? then Purge(config, x, drop) && Placed(config, x, tx, local, r, drop, y)
        else y == x)
  }

  /** An admitted transaction takes its place among what a purge has left, unless it is
      underpriced there. */
  ghost predicate Placed(config: Config, x: Moment, tx: Tx, local: bool, r: AddResult, drop: seq<Tx>, y: Moment) {
    var slot := Slot(Spared(x, drop, tx.sender), tx.nonce);
    && (r.Added? <==> Accepts(slot, tx, config.priceBump)) && (r.Added? ==> (r.replaced <==> tx.nonce in slot))
    && y.Head() == x.Head() && y.gasPrice == x.gasPrice
    && y.locals == (if r.Added? && local && tx.nonce !in Spared(x, drop, tx.sender).pending then x.locals + {tx.sender}
                    else x.locals)
    && (forall a :: y.Acct(a)
              == if a == tx.sender then PlaceIn(Spared(x, drop, a), tx, config.priceBump) else Spared(x, drop, a))
  }

  /** All of `txs` are offered, one after the other. */
  ghost predicate OfferedAll(config: Config, x: Moment, txs: seq<Tx>, local: bool, checks: Tx -> bool, y: Moment) {
    if txs == [] then y == x
    else
      var front, tx := txs[..|txs| - 1], txs[|txs| - 1];
      exists m, r, drop ::
        OfferedAll(config, x, front, local, checks, m) && Offered(config, m, tx, local, checks, r, drop, y)
  }

  lemma OfferedNone(config: Config, x: Moment, local: bool, checks: Tx -> bool)
    ensures OfferedAll(config, x, [], local, checks, x)
  {
  }

  lemma OfferedMore(config: Config, x: Moment, txs: seq<Tx>, local: bool, checks: Tx -> bool, m: Moment, tx: Tx,
                    r: AddResult, drop: seq<Tx>, y: Moment)
    requires OfferedAll(config, x, txs, local, checks, m) && Offered(config, m, tx, local, checks, r, drop, y)
    ensures OfferedAll(config, x, txs + [tx], local, checks, y)
  {
    hide Offered;
    var more := txs + [tx];
    assert more[..|more| - 1] == txs && more[|more| - 1] == tx;
  }

  /* ---------- head changes and runs ---------- */

  /** Account `a` of `x` once the head is one where its nonce is `nonce`. */
  function Rewound(x: Moment, a: Address, nonce: nat): Account {
    x.Acct(a).(next := nonce)
  }

  /** The pool with the state of another head and no virtual nonces. */
  function AtHead(x: Moment, head: HeadState): Moment {
    x.(nonces := map[], stateNonces := head.0, balances := head.1, maxGas := head.2)
  }

  /** From `x` the pool has turned to another head and taken back `reinject`. */
  ghost predicate Turned(config: Config, x: Moment, state: Option<HeadState>, reinject: seq<Tx>, checks: Tx -> bool,
                         y: Moment)
  {
    && InStep(y.pending, y.queue, y.all)
    && (state.None? ==> y == x)
    && (state.Some? ==>
          && y.Head() == state.value && y.locals == x.locals && y.gasPrice == x.gasPrice
          && OfferedAll(config, AtHead(x, state.value), reinject, false, checks, y)
          && (forall t :: t in y.all ==> t in x.all || t in reinject)
          && (forall a :: Cut(Rewound(x, a, Lookup(y.stateNonces, a)), y.Acct(a)))
          && (x.Room(config, |reinject|) ==>
                forall a :: y.Acct(a)
                  == PlaceAll(Rewound(x, a, Lookup(y.stateNonces, a)), reinject, a, config.priceBump,
                              y.TermsOf(false, checks))))
  }

  /** The size limits, applied to `x`, left `y`. */
  ghost predicate CutToSize(config: Config, x: Moment, y: Moment) {
    && CutToSlots(x.pending, y.pending, x.locals, config.accountSlots, config.globalSlots)
    && CutToQueue(x.queue, y.queue, x.locals, x.beats, config.globalQueue)
    && forall a :: Trimmed(x.Acct(a), y.Acct(a))
  }

  /** Every account of `x` is promoted and demoted; nothing else changes. */
  ghost predicate Reclassified(config: Config, x: Moment, y: Moment) {
    && y.Head() == x.Head() && y.locals == x.locals && y.gasPrice == x.gasPrice
    && forall a :: y.Acct(a) == Demote(Promote(x.Acct(a), x.LimitsOf(a), x.QueueCap(config, a)), x.LimitsOf(a))
  }

  /** The `dirty` accounts of `x` are promoted; nothing else changes. */
  ghost predicate Promoted(config: Config, x: Moment, dirty: set<Address>, y: Moment) {
    && y.Head() == x.Head() && y.locals == x.locals && y.gasPrice == x.gasPrice
    && forall a ::
        y.Acct(a) == if a in dirty then Promote(x.Acct(a), x.LimitsOf(a), x.QueueCap(config, a)) else x.Acct(a)
  }

  /** The reorganisation that follows a turn to another head: accounts are promoted and
      demoted, then trimmed. */
  ghost predicate Reordered(config: Config, x: Moment, y: Moment) {
    && y.Head() == x.Head() && y.locals == x.locals && y.gasPrice == x.gasPrice && y.all <= x.all && y.Limited(config)
    && (exists z :: Reclassified(config, x, z) && CutToSize(config, z, y))
    && (forall a :: Trimmed(Demote(Promote(x.Acct(a), x.LimitsOf(a), x.QueueCap(config, a)), x.LimitsOf(a)), y.Acct(a)))
    && (forall a :: a in y.locals || Len(y.pending, a) < config.accountSlots ==>
          Refreshed(Demote(Promote(x.Acct(a), x.LimitsOf(a), x.QueueCap(config, a)), x.LimitsOf(a)), y.Acct(a)))
    && (forall t :: t in y.all ==>
          t.nonce >= Lookup(x.stateNonces, t.sender) && t.cost <= Lookup(x.balances, t.sender) && t.gas <= x.maxGas)
    && (forall t :: t in x.all && t.sender in x.locals ==>
          (t.nonce >= Lookup(x.stateNonces, t.sender) && t.cost <= Lookup(x.balances, t.sender) && t.gas <= x.maxGas ==>
            t in y.all))
    && (forall a :: x.Settled(a) ==> y.Fine(a))
    && (forall a :: a in y.locals || Len(y.pending, a) < config.accountSlots ==> (y.Fine(a) <==> x.Settled(a)))
  }

  /** One operation from `x` to `y`; for a change of head, `mid` is the pool once it
      has turned to the new head. */
  ghost predicate Moved(config: Config, op: Operation, x: Moment, mid: Moment, y: Moment) {
    match op
    case NewHead(state, reinject, checks, _) =>
      Turned(config, x, state, reinject, checks, mid) && Reordered(config, mid, y)
    case Submit(txs, local, checks) =>
      && y.Head() == x.Head() && y.gasPrice == x.gasPrice && (!local ==> y.locals == x.locals)
      && OfferedAll(config, x, txs, local, checks, y)
      && (forall t :: t in y.all ==> t in x.all || t in txs)
      && (forall a :: Cut(x.Acct(a), y.Acct(a)))
      && (x.Room(config, |txs|) ==>
            forall a :: y.Acct(a) == PlaceAll(x.Acct(a), txs, a, config.priceBump, x.TermsOf(local, checks)))
    case Reorganise(dirty, _) =>
      && y.Head() == x.Head() && y.gasPrice == x.gasPrice && y.locals == x.locals && y.all <= x.all && y.Limited(config)
      && (exists z :: Promoted(config, x, dirty, z) && CutToSize(config, z, y))
      && (forall a ::
            Trimmed(if a in dirty then Promote(x.Acct(a), x.LimitsOf(a), x.QueueCap(config, a)) else x.Acct(a),
                    y.Acct(a)))
      && (forall a :: a in y.locals || Len(y.pending, a) < config.accountSlots ==>
            Refreshed(if a in dirty then Promote(x.Acct(a), x.LimitsOf(a), x.QueueCap(config, a)) else x.Acct(a),
                      y.Acct(a)))
      && forall a :: x.Fine(a) ==> y.Fine(a)
    case SetPrice(price) =>
      && y.Head() == x.Head() && y.gasPrice == price && y.locals == x.locals
      && y.all == (set t | t in x.all && (t.price >= price || t.sender in x.locals))
      && forall a :: Cut(x.Acct(a), y.Acct(a))
    case EvictionTick(now, lifetime) =>
      && y.Head() == x.Head() && y.gasPrice == x.gasPrice && y.locals == x.locals && y.pending == x.pending
      && (forall a :: ItemsOf(y.queue, a)
                == if a !in x.locals && now - Lookup(x.beats, a) > lifetime then map[] else ItemsOf(x.queue, a))
      && forall a :: y.Acct(a).next == x.Acct(a).next
  }

  /** A run of operations: `trace` holds the pool before the first and after each,
      `turned` the pool in the middle of each change of head. */
  ghost predicate Recorded(config: Config, ops: seq<Operation>, trace: seq<Moment>, turned: seq<Moment>) {
    && |trace| == |ops| + 1 && |turned| == |ops| && (forall i :: 0 <= i < |trace| ==> trace[i].Packed(config))
    && forall i :: 0 <= i < |ops| ==> Moved(config, ops[i], trace[i], turned[i], trace[i + 1])
  }

  /** Only a change of head can put an account out of order. */
  lemma QuietStep(config: Config, op: Operation, x: Moment, mid: Moment, y: Moment, a: Address)
    requires Moved(config, op, x, mid, y) && !op.NewHead? && x.Fine(a)
    ensures y.Fine(a)
  {
    hide Executable;
    if op.Submit? || op.SetPrice? {
      CutKeepsExecutable(x.Acct(a), y.Acct(a), Lookup(x.stateNonces, a));
    } else if op.EvictionTick? {
      SameNonces(x.Acct(a), y.Acct(a));
      CutKeepsExecutable(x.Acct(a), y.Acct(a), Lookup(x.stateNonces, a));
    }
  }

  /** An account in order stays in order along every run whose changes of head, with
      whatever they reinject, each find it settled; changes of head that come before
      the moment `k` do not matter. */
  lemma {:induction false} StaysFine(config: Config, ops: seq<Operation>, trace: seq<Moment>, turned: seq<Moment>,
                                     a: Address, k: nat, n: nat)
    requires Recorded(config, ops, trace, turned) && k <= n <= |ops|
    requires trace[k].Fine(a)
    requires forall i :: k <= i < n && ops[i].NewHead? ==> turned[i].Settled(a)
    ensures trace[n].Fine(a)
  {
    hide Moment.Fine, Moment.Settled;
    if k < n {
      StaysFine(config, ops, trace, turned, a, k, n - 1);
      assert Moved(config, ops[n - 1], trace[n - 1], turned[n - 1], trace[n]);
      if !ops[n - 1].NewHead? {
        QuietStep(config, ops[n - 1], trace[n - 1], turned[n - 1], trace[n], a);
      }
    }
  }

  /** A change of head puts every account in order that it finds settled, in
      whatever order the account was before. */
  lemma FineAgain(config: Config, ops: seq<Operation>, trace: seq<Moment>, turned: seq<Moment>, a: Address, k: nat,
                  n: nat)
    requires Recorded(config, ops, trace, turned) && k < n <= |ops|
    requires ops[k].NewHead?
    requires forall i :: k <= i < n && ops[i].NewHead? ==> turned[i].Settled(a)
    ensures trace[n].Fine(a)
  {
    hide Moment.Fine, Moment.Settled;
    assert Moved(config, ops[k], trace[k], turned[k], trace[k + 1]);
    StaysFine(config, ops, trace, turned, a, k + 1, n);
  }

  /** Of a pending list without holes, a change of head settles exactly what survives
      it. */
  lemma SettledIffSurvives(config: Config, x: Moment, state: Option<HeadState>, reinject: seq<Tx>, checks: Tx -> bool,
                           y: Moment, a: Address)
    requires Turned(config, x, state, reinject, checks, y) && state.Some? && GapFree(x.Acct(a).pending)
    ensures y.Settled(a) <==> Survives(y.Acct(a), y.LimitsOf(a))
  {
    hide Cut, GapFree, InStep, Survives, Settles;
    CutKeepsGapFree(Rewound(x, a, Lookup(y.stateNonces, a)), y.Acct(a));
    SoundAccounts(y.pending, y.queue, y.all, y.nonces, y.stateNonces);
    HeadChangeExactly(a, y.Acct(a), y.LimitsOf(a), None);
  }

  /** If the state could not be read, an account in order is settled exactly if it
      can pay for its first pending transaction. */
  lemma SettledWithoutState(config: Config, x: Moment, reinject: seq<Tx>, checks: Tx -> bool, y: Moment, a: Address)
    requires Turned(config, x, None, reinject, checks, y) && x.Fine(a)
    ensures y.Settled(a) <==>
      var acc, w := x.Acct(a), x.LimitsOf(a);
      acc.pending.Keys == {} || (w.nonce in acc.pending && !Unaffordable(acc.pending[w.nonce], w.balance, w.maxGas))
  {
    hide InStep, Settles;
    SoundAccounts(y.pending, y.queue, y.all, y.nonces, y.stateNonces);
    SameHeadExactly(a, y.Acct(a), y.LimitsOf(a));
  }

  /** No change of head of the run takes the nonce of `a` back, reinjects anything, or
      lacks its state. */
  ghost predicate CalmFor(ops: seq<Operation>, nonces: map<Address, nat>, a: Address) {
    if ops == [] then true
    else if ops[0].NewHead? then
      && ops[0].state.Some? && ops[0].reinject == [] && Lookup(nonces, a) <= Lookup(ops[0].state.value.0, a)
      && CalmFor(ops[1..], ops[0].state.value.0, a)
    else CalmFor(ops[1..], nonces, a)
  }

  /** A calm run keeps the account in order, without asking what the heads find. */
  lemma {:induction false} CalmStaysFine(config: Config, ops: seq<Operation>, trace: seq<Moment>, turned: seq<Moment>,
                                         a: Address)
    requires Recorded(config, ops, trace, turned) && CalmFor(ops, trace[0].stateNonces, a) && trace[0].Fine(a)
    ensures trace[|ops|].Fine(a)
    decreases |ops|
  {
    hide Moment.Fine, Moved;
    if ops != [] {
      assert Moved(config, ops[0], trace[0], turned[0], trace[1]);
      CalmStep(config, ops[0], trace[0], turned[0], trace[1], a);
      forall i | 0 <= i < |ops[1..]|
        ensures Moved(config, ops[1..][i], trace[1..][i], turned[1..][i], trace[1..][i + 1])
      {
        assert Moved(config, ops[i + 1], trace[i + 1], turned[i + 1], trace[i + 2]);
      }
      CalmStaysFine(config, ops[1..], trace[1..], turned[1..], a);
    }
  }

  lemma CalmStep(config: Config, op: Operation, x: Moment, mid: Moment, y: Moment, a: Address)
    requires Moved(config, op, x, mid, y) && x.Fine(a)
    requires op.NewHead? ==>
      op.state.Some? && op.reinject == [] && Lookup(x.stateNonces, a) <= Lookup(op.state.value.0, a)
    ensures y.Fine(a)
    ensures y.stateNonces == if op.NewHead? then op.state.value.0 else x.stateNonces
  {
    hide Executable, InStep, Settles, Cut, Trimmed, Refreshed, Promote, Demote, OfferedAll, Total;
    if op.NewHead? {
      SoundAccounts(mid.pending, mid.queue, mid.all, mid.nonces, mid.stateNonces);
      assert mid.Acct(a) == Rewound(x, a, Lookup(mid.stateNonces, a));
      AdvancedAccount(a, x.Acct(a), Lookup(x.stateNonces, a), mid.Acct(a), mid.LimitsOf(a));
    } else {
      QuietStep(config, op, x, mid, y, a);
    }
  }
}
