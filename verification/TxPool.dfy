/** TxPool of core/tx_pool.go. The account lists are the nonce maps that the
    objects of TxLists are proved to implement. */
module TxPools {
  import opened Basics
  import opened Transactions
  import opened TxSortedMaps
  import opened TxLists
  import opened PoolAccounts
  import opened PoolIndex
  import opened PoolSizes
  import opened PoolRuns
  import opened TxPricedLists

  /** How an admitted transaction fares against `slot`, the list that held its nonce:
      it is turned away exactly if the holder is too good to be replaced and did not
      have to leave the pool itself, and otherwise takes the nonce. Only a purge can
      take the holder away first, and there is none while the pool has `room`. */
  ghost predicate Settlement(slot: Items, tx: Tx, priceBump: nat, all: set<Tx>, room: bool, r: AddResult) {
    && (r.ReplaceUnderpriced? <==> !Accepts(slot, tx, priceBump) && slot[tx.nonce] in all)
    && (r == Added(true) ==> tx.nonce in slot && Accepts(slot, tx, priceBump) && slot[tx.nonce] !in all)
    && (r == Added(false) ==> tx.nonce !in slot || (!room && slot[tx.nonce] !in all))
  }

  lemma NoPurge(config: Config, x: Moment)
    ensures x.Room(config, 1) ==> Purge(config, x, [])
    ensures forall a :: RemoveAll(x.Acct(a), [], a) == x.Acct(a)
  {
  }

  lemma PurgeGives(config: Config, x: Moment, drop: seq<Tx>)
    requires Purge(config, x, drop)
    ensures forall d :: d in drop ==> d.sender !in x.locals
    ensures forall d, t :: d in drop && t in x.all - Pooled(drop) && t.sender !in x.locals ==> d.price <= t.price
  {
  }

  /** Because a pool above its limit holds at most one remote transaction, a purge never
      falls short of its aim. */
  lemma Emptied(x: Moment, config: Config, drop: seq<Tx>, excess: nat)
    requires x.Packed(config) && !x.Room(config, 1) && config.Sane()
    requires excess == |x.all| - (config.globalSlots + config.globalQueue - 1)
    requires Pooled(drop) <= x.all && |drop| <= excess && |x.all - Pooled(drop)| == |x.all| - |Pooled(drop)|
    requires forall d :: d in drop ==> d.sender !in x.locals
    requires |drop| < excess ==> forall t :: t in x.all - Pooled(drop) ==> t.sender in x.locals
    ensures |x.all - Pooled(drop)| == config.globalSlots + config.globalQueue - 1 || forall t ::
      t in x.all - Pooled(drop) ==>
      t.sender in x.locals
  {
    if |drop| == excess {
      assert drop[0] in Pooled(drop);
      if excess == 1 {
        assert drop == [drop[0]] && Pooled(drop) == {drop[0]};
      }
    }
  }

  /** One transaction more than a purge has left. */
  lemma PackedAfter(config: Config, x: Moment, drop: seq<Tx>, tx: Tx, y: Moment)
    requires Purge(config, x, drop) && y.all <= x.all - Pooled(drop) + {tx} && x.locals <= y.locals
    ensures y.Packed(config)
  {
    SubsetSize(y.all, x.all - Pooled(drop) + {tx});
  }

  lemma PlacedBy(config: Config, x: Moment, m: Moment, tx: Tx, local: bool, r: AddResult, drop: seq<Tx>, y: Moment)
    requires forall a :: m.Acct(a) == Spared(x, drop, a)
    requires forall a :: y.Acct(a) == if a == tx.sender then PlaceIn(m.Acct(a), tx, config.priceBump) else m.Acct(a)
    requires
      var slot := Slot(m.Acct(tx.sender), tx.nonce);
      (r.Added? <==> Accepts(slot, tx, config.priceBump)) && (r.Added? ==> (r.replaced <==> tx.nonce in slot))
    requires m.Head() == x.Head() == y.Head() && m.gasPrice == x.gasPrice == y.gasPrice && m.locals == x.locals
    requires
      y.locals == if r.Added? && local && tx.nonce !in m.Acct(tx.sender).pending then m.locals + {tx.sender}
        else m.locals
    ensures Placed(config, x, tx, local, r, drop, y)
  {
    hide AcctOf, Spared, PlaceIn, Slot, Accepts;
    forall a
      ensures y.Acct(a)
        == if a == tx.sender then PlaceIn(Spared(x, drop, a), tx, config.priceBump) else Spared(x, drop, a)
    {
      assert m.Acct(a) == Spared(x, drop, a);
    }
  }

  /** What is in the lists of unchanged accounts stays indexed. */
  lemma LocalsKept(x: Moment, y: Moment)
    requires InStep(x.pending, x.queue, x.all) && InStep(y.pending, y.queue, y.all)
    requires forall a :: a in x.locals ==>
      ItemsOf(y.pending, a) == ItemsOf(x.pending, a) && ItemsOf(y.queue, a) == ItemsOf(x.queue, a)
    ensures forall t :: t in x.all && t.sender in x.locals ==> t in y.all
  {
    hide InStep, ItemsOf;
    forall t | t in x.all && t.sender in x.locals ensures t in y.all {
      AccountInStep(x.pending, x.queue, x.all, t.sender);
      AccountInStep(y.pending, y.queue, y.all, t.sender);
    }
  }

  /** How the outcome follows from the holder of the nonce before the purge. */
  lemma SlotSettled(x: Moment, m: Moment, tx: Tx, priceBump: nat, all: set<Tx>, room: bool, r: AddResult)
    requires InStep(x.pending, x.queue, x.all) && InStep(m.pending, m.queue, m.all) && m.all <= x.all
    requires m.stateNonces == x.stateNonces && tx !in x.all && (room ==> m == x)
    requires r.Added? || r.ReplaceUnderpriced?
    requires
      var slot := Slot(m.Acct(tx.sender), tx.nonce);
      && (r.Added? <==> Accepts(slot, tx, priceBump)) && (r.Added? ==> (r.replaced <==> tx.nonce in slot))
      && (r == Added(true) ==> slot[tx.nonce] !in all) && (!r.Added? ==> all == m.all) && all <= m.all + {tx}
    ensures Settlement(Slot(x.Acct(tx.sender), tx.nonce), tx, priceBump, all, room, r)
  {
    hide InStep, Accepts, AcctOf, Slot;
    SlotShrinks(x.pending, x.queue, x.all, x.nonces, m.pending, m.queue, m.all, m.nonces, x.stateNonces, tx.sender,
                tx.nonce);
    AcceptsBy(Slot(x.Acct(tx.sender), tx.nonce), Slot(m.Acct(tx.sender), tx.nonce), tx, priceBump);
  }

  class TxPool {
    const config: Config
    const priced: TxPricedList
    var pending: map<Address, Items>
    var queue: map<Address, Items>
    var all: set<Tx>
    var locals: set<Address>
    var beats: map<Address, nat>
    var nonces: map<Address, nat>
    // the head state
    var stateNonces: map<Address, nat>
    var balances: map<Address, nat>
    var maxGas: nat
    var gasPrice: nat

    /** The pool as a value. */
    function Now(): Moment
      reads this
    {
      Moment(pending, queue, all, locals, beats, nonces, stateNonces, balances, maxGas, gasPrice)
    }

    function Acct(a: Address): Account
      reads this
    {
      Now().Acct(a)
    }

    function LimitsOf(a: Address): Limits
      reads this
    {
      Now().LimitsOf(a)
    }

    function QueueCap(a: Address): Option<nat>
      reads this
    {
      Now().QueueCap(config, a)
    }

    function TermsOf(local: bool, checks: Tx -> bool): Terms
      reads this
    {
      Now().TermsOf(local, checks)
    }

    ghost predicate Fine(a: Address)
      reads this
    {
      Now().Fine(a)
    }

    ghost predicate Limited()
      reads this
    {
      Now().Limited(config)
    }

    predicate Room(n: nat)
      reads this
    {
      Now().Room(config, n)
    }

    /** Lists, index and price heap are in step. */
    ghost predicate Coherent()
      reads this, priced
    {
      config.Sane() && InStep(pending, queue, all) && priced.Valid(all)
    }

    ghost predicate Valid()
      reads this, priced
    {
      Coherent() && Now().Packed(config)
    }

    constructor (config: Config, locals: set<Address>, gasPrice: nat)
      requires config.Sane()
      ensures Valid() && all == {} && forall a :: Fine(a)
      ensures fresh(priced) && this.config == config && this.locals == locals && this.gasPrice == gasPrice
    {
      this.config := config;
      priced := new TxPricedList();
      pending, queue, all, beats, nonces := map[], map[], {}, map[], map[];
      stateNonces, balances, maxGas := map[], map[], 0;
      this.locals, this.gasPrice := locals, gasPrice;
    }

    /** txNoncer.setIfLower. */
    method SetIfLower(a: Address, nonce: nat)
      modifies this`nonces
      ensures nonces == old(nonces)[a := Min(NextOf(old(nonces), stateNonces, a), nonce)]
    {
      if a !in nonces {
        nonces := nonces[a := Lookup(stateNonces, a)];
      }
      if nonces[a] > nonce {
        nonces := nonces[a := nonce];
      }
    }

    /** Puts a transaction that is new, or already indexed, into the queue of its
        sender. */
    method EnqueueTx(tx: Tx) returns (replaced: bool, ok: bool)
      requires Displaced(queue, tx) <= all - {tx}
      requires tx !in all || Displaced(queue, tx) != {} ==> priced.Valid(all)
      modifies this`queue, this`all, priced
      ensures ok == Accepts(ItemsOf(old(queue), tx.sender), tx, config.priceBump)
      ensures replaced == (ok && Displaced(old(queue), tx) != {})
      ensures ok ==> queue == Enqueued(old(queue), tx) && all == old(all) + {tx} - Displaced(old(queue), tx)
      ensures !ok ==> queue == old(queue) && all == old(all)
      ensures !ok || (tx in old(all) && Displaced(old(queue), tx) == {}) ==>
        priced.items == old(priced.items) && priced.stales == old(priced.stales)
      ensures old(priced.Valid(all)) ==> priced.Valid(all)
    {
      hide Accepts;
      var list := ItemsOf(queue, tx.sender);
      ok := Accepts(list, tx, config.priceBump);
      if !ok {
        return false, false;
      }
      replaced := tx.nonce in list;
      queue := Enqueued(queue, tx);
      if replaced {
        all := all - {list[tx.nonce]};
        priced.Removed(all, 1, 0);
      }
      if tx !in all {
        priced.Put(tx, all, 0);
        all := all + {tx};
      }
    }

    /** Sends transactions that left the pending list back to the queue. */
    method Requeue(a: Address, txs: Items)
      requires Requeueable(queue, all, a, txs)
      modifies this`queue, this`all, priced
      ensures queue == SetItems(old(queue), a, ItemsOf(old(queue), a) + txs)
      ensures all == old(all) && priced.items == old(priced.items) && priced.stales == old(priced.stales)
    {
      var done: Items, todo := map[], txs.Keys;
      assert ItemsOf(queue, a) + done == ItemsOf(queue, a);
      assert SetItems(queue, a, ItemsOf(queue, a)) == queue;
      while todo != {}
        invariant todo <= txs.Keys && done.Keys == txs.Keys - todo && forall n :: n in done ==> done[n] == txs[n]
        invariant queue == SetItems(old(queue), a, old(ItemsOf(queue, a)) + done)
        invariant all == old(all) && priced.items == old(priced.items) && priced.stales == old(priced.stales)
      {
        var n :| n in todo;
        assert txs[n] in Values(txs);
        var replaced, ok := EnqueueTx(txs[n]);
        MergeOne(old(queue), a, old(ItemsOf(queue, a)), done, n, txs[n]);
        done, todo := done[n := txs[n]], todo - {n};
      }
      assert done == txs;
    }

    /** Deletes one transaction; pending ones above it return to the queue. */
    method RemoveTx(tx: Tx, outOfBound: bool)
      requires InStep(pending, queue, all) && (outOfBound ==> priced.Valid(all))
      modifies this`pending, this`queue, this`all, this`nonces, this`beats, priced
      ensures InStep(pending, queue, all) && all == old(all) - {tx}
      ensures forall a ::
        Acct(a) == if a == tx.sender && tx in old(all) then Remove(old(Acct(a)), tx.nonce) else old(Acct(a))
      ensures outOfBound ==> priced.Valid(all)
      ensures !outOfBound ==> priced.items == old(priced.items) && priced.stales == old(priced.stales)
      ensures tx.nonce !in ItemsOf(old(pending), tx.sender) ==> beats == old(beats)
    {
      if tx !in all {
        return;
      }
      hide InStep, Remove, SetItems, ItemsOf, AcctOf, Uncuttable;
      RemoveKeepsStep(pending, queue, all, tx, Remove(Acct(tx.sender), tx.nonce), nonces, stateNonces);
      Deindex(tx, outOfBound);
      Unlist(tx.sender, tx.nonce);
    }

    /** The index part of removeTx; the price heap is only told when asked. */
    method Deindex(tx: Tx, outOfBound: bool)
      requires tx in all && (outOfBound ==> priced.Valid(all))
      modifies this`all, priced
      ensures all == old(all) - {tx}
      ensures outOfBound ==> priced.Valid(all)
      ensures !outOfBound ==> priced.items == old(priced.items) && priced.stales == old(priced.stales)
    {
      all := all - {tx};
      if outOfBound {
        priced.Removed(all, 1, 0);
      }
    }

    /** The list part of removeTx. */
    method Unlist(a: Address, nonce: nat)
      requires Uncuttable(pending, queue, all, a, nonce)
      modifies this`pending, this`queue, this`all, this`nonces, this`beats, priced
      ensures pending == SetItems(old(pending), a, Remove(old(Acct(a)), nonce).pending)
      ensures queue == SetItems(old(queue), a, Remove(old(Acct(a)), nonce).queue)
      ensures forall b :: Acct(b) == if b == a then Remove(old(Acct(a)), nonce) else old(Acct(b))
      ensures all == old(all) && priced.items == old(priced.items) && priced.stales == old(priced.stales)
      ensures nonce !in ItemsOf(old(pending), a) ==> beats == old(beats)
    {
      hide Below, AtLeast, SetItems;
      var list, future := ItemsOf(pending, a), ItemsOf(queue, a);
      ghost var r := Remove(Acct(a), nonce);
      if nonce in list {
        assert r == Account(Below(list, nonce), future + AtLeast(list, nonce + 1),
                            Min(NextOf(nonces, stateNonces, a), nonce));
        CutPending(a, nonce, list, future);
      } else {
        assert r == Account(list, future - {nonce}, NextOf(nonces, stateNonces, a));
        SameItems(pending, a);
        queue := SetItems(queue, a, future - {nonce});
      }
      OnlyAccount(old(pending), old(queue), old(nonces), stateNonces, a, r, nonces);
    }

    /** Cuts the pending list of `a` off at `nonce`; what is above goes back to
        the queue and the virtual nonce comes down. */
    method CutPending(a: Address, nonce: nat, list: Items, future: Items)
      requires list == ItemsOf(pending, a) && future == ItemsOf(queue, a) && Uncuttable(pending, queue, all, a, nonce)
      modifies this`pending, this`queue, this`all, this`nonces, this`beats, priced
      ensures pending == SetItems(old(pending), a, Below(list, nonce))
      ensures queue == SetItems(old(queue), a, future + AtLeast(list, nonce + 1))
      ensures nonces == old(nonces)[a := Min(NextOf(old(nonces), stateNonces, a), nonce)]
      ensures beats == if a in pending then old(beats) else old(beats) - {a}
      ensures all == old(all) && priced.items == old(priced.items) && priced.stales == old(priced.stales)
    {
      var invalids := AtLeast(list, nonce + 1);
      pending := SetItems(pending, a, Below(list, nonce));
      if a !in pending {
        beats := beats - {a};
      }
      Requeue(a, invalids);
      SetIfLower(a, nonce);
    }

    /** Removes transactions that the price heap has already given up. */
    method RemoveDropped(drop: seq<Tx>)
      requires InStep(pending, queue, all) && Pooled(drop) <= all && priced.Valid(all - Pooled(drop))
      modifies this`pending, this`queue, this`all, this`nonces, this`beats, priced
      ensures InStep(pending, queue, all) && priced.Valid(all) && all == old(all) - Pooled(drop)
      ensures forall a :: Acct(a) == RemoveAll(old(Acct(a)), drop, a)
      ensures forall a :: Cut(old(Acct(a)), Acct(a))
    {
      hide InStep, Cut, RemoveHeld, AcctOf;
      forall a ensures Cut(Acct(a), Acct(a)) {
        CutReflexive(Acct(a));
      }
      for i := 0 to |drop|
        invariant InStep(pending, queue, all) && all == old(all) - Pooled(drop[..i])
        invariant priced.items == old(priced.items) && priced.stales == old(priced.stales)
        invariant forall a :: Acct(a) == RemoveAll(old(Acct(a)), drop[..i], a)
        invariant forall a :: Cut(old(Acct(a)), Acct(a))
      {
        assert drop[..i + 1] == drop[..i] + [drop[i]] && drop[..i + 1][..i] == drop[..i];
        RemoveOne(drop[i], false);
      }
      assert drop[..|drop|] == drop;
    }

    /** RemoveTx, seen as a cut. */
    method RemoveOne(tx: Tx, outOfBound: bool)
      requires InStep(pending, queue, all) && (outOfBound ==> priced.Valid(all))
      modifies this`pending, this`queue, this`all, this`nonces, this`beats, priced
      ensures InStep(pending, queue, all) && all == old(all) - {tx}
      ensures forall a :: Acct(a) == RemoveHeld(old(Acct(a)), tx, a)
      ensures forall x, a :: Cut(x, old(Acct(a))) ==> Cut(x, Acct(a))
      ensures outOfBound ==> priced.Valid(all)
      ensures !outOfBound ==> priced.items == old(priced.items) && priced.stales == old(priced.stales)
    {
      hide InStep, Cut, Remove, Holds, AcctOf;
      HeldIndexed(pending, queue, all, nonces, stateNonces, tx);
      RemoveTx(tx, outOfBound);
      forall a ensures Cut(old(Acct(a)), Acct(a)) {
        CutReflexive(Acct(a));
        RemoveCuts(old(Acct(a)), tx.nonce);
      }
      forall x, a | Cut(x, old(Acct(a))) ensures Cut(x, Acct(a)) {
        CutTransitive(x, old(Acct(a)), Acct(a));
      }
    }

    /** Makes room for one transaction by dropping the cheapest remote ones: afterwards
        there is exactly one place, or only local transactions are left. */
    method MakeRoom() returns (ghost drop: seq<Tx>)
      requires Valid() && !Room(1)
      modifies this`pending, this`queue, this`all, this`nonces, this`beats, priced
      ensures Valid() && all == old(all) - Pooled(drop) && Purge(config, old(Now()), drop)
      ensures |drop| <= |old(all)| - (config.globalSlots + config.globalQueue - 1)
      ensures |all| == config.globalSlots + config.globalQueue - 1 || forall t :: t in all ==> t.sender in locals
      ensures forall a :: Acct(a) == RemoveAll(old(Acct(a)), drop, a)
      ensures forall a :: Cut(old(Acct(a)), Acct(a))
    {
      hide InStep, Cut, Remote, LowestOf, RemoveAll;
      var excess := |all| - (config.globalSlots + config.globalQueue - 1);
      var dropped := priced.Discard(excess, all, locals);
      drop := dropped;
      AtMostListed(all, drop);
      Emptied(Now(), config, drop, excess);
      RemoveDropped(dropped);
      StaysPacked(config, old(Now()), Now());
    }

    /** Puts a better priced transaction in the place of a pending one. */
    method ReplacePending(tx: Tx)
      requires Coherent() && tx !in all && tx.nonce in ItemsOf(pending, tx.sender)
      modifies this`pending, this`all, priced
      ensures Coherent() && tx in all && all == old(all) + {tx} - {ItemsOf(old(pending), tx.sender)[tx.nonce]}
      ensures tx.nonce in ItemsOf(pending, tx.sender) && ItemsOf(old(pending), tx.sender)[tx.nonce].sender == tx.sender
      ensures
        pending == SetItems(old(pending), tx.sender, ItemsOf(old(pending), tx.sender)[tx.nonce := tx])
      ensures forall x, a :: Cut(x, old(Acct(a))) ==> Cut(x, Acct(a))
    {
      hide InStep, SoundLists, SetItems, Cut;
      var list := ItemsOf(pending, tx.sender);
      var present := list[tx.nonce];
      PresentSender(pending, queue, all, tx);
      ReplaceKeepsStep(pending, queue, all, tx);
      pending := SetItems(pending, tx.sender, list[tx.nonce := tx]);
      all := all - {present};
      priced.Removed(all, 1, 0);
      priced.Put(tx, all, 0);
      all := all + {tx};
      assert all == old(all) + {tx} - {present};
      forall x, a | Cut(x, old(Acct(a))) ensures Cut(x, Acct(a)) {
        SameNonces(old(Acct(a)), Acct(a));
        CutTransitive(x, old(Acct(a)), Acct(a));
      }
    }

    /** Validates a transaction and puts it into the pool. Until the pool is full this
        changes nothing but the place of its nonce in its sender's lists. */
    method Add(tx: Tx, local: bool, checks: Tx -> bool) returns (r: AddResult, ghost drop: seq<Tx>)
      requires Valid()
      modifies this`pending, this`queue, this`all, this`nonces, this`beats, this`locals, priced
      ensures Valid() && all <= old(all) + {tx} && |all| <= |old(all)| + 1 && old(locals) <= locals
      ensures Offered(config, old(Now()), tx, local, checks, r, drop, Now())
      ensures tx in all <==> r.Added? || r.Known?
      ensures forall a :: Cut(old(Acct(a)), Acct(a))
      ensures old(Room(1)) ==> forall a ::
        Acct(a)
        == if a == tx.sender && Admits(old(TermsOf(local, checks)), tx) then PlaceIn(old(Acct(a)), tx, config.priceBump)
           else old(Acct(a))
      ensures r.Added? || r.ReplaceUnderpriced? ==>
        Settlement(Slot(old(Acct(tx.sender)), tx.nonce), tx, config.priceBump, all, old(Room(1)), r)
      ensures forall d :: d in old(all) - all ==> d.sender !in old(locals) || d.sender == tx.sender
      ensures forall d, t ::
        d in old(all) - all && d.sender != tx.sender && t in all && t != tx && t.sender !in old(locals) ==>
          d.price <= t.price
    {
      hide InStep, Cut, PlaceIn, AcctOf, Settlement, Slot, Purge, Placed, Moment.Packed;
      forall a ensures Cut(Acct(a), Acct(a)) {
        CutReflexive(Acct(a));
      }
      drop := [];
      if tx in all {
        PlaceKnown(pending, queue, all, nonces, stateNonces, tx, config.priceBump);
        return Known, drop;
      }
      if !Admits(TermsOf(local, checks), tx) {
        return Invalid, drop;
      }
      if |all| >= config.globalSlots + config.globalQueue && !local {
        var under := priced.Underpriced(tx, all, locals);
        if under {
          return UnderpricedTx, drop;
        }
      }
      r, drop := Insert(tx, local);
    }

    /** The part of add that comes after the checks. */
    method Insert(tx: Tx, local: bool) returns (r: AddResult, ghost drop: seq<Tx>)
      requires Valid() && tx !in all
      modifies this`pending, this`queue, this`all, this`nonces, this`beats, this`locals, priced
      ensures Valid() && all <= old(all) + {tx} && |all| <= |old(all)| + 1 && old(locals) <= locals
      ensures (tx in all <==> r.Added?) && (r.Added? || r.ReplaceUnderpriced?)
      ensures Purge(config, old(Now()), drop) && Placed(config, old(Now()), tx, local, r, drop, Now())
      ensures forall a :: Cut(old(Acct(a)), Acct(a))
      ensures old(Room(1)) ==> forall a ::
        Acct(a) == if a == tx.sender then PlaceIn(old(Acct(a)), tx, config.priceBump) else old(Acct(a))
      ensures Settlement(Slot(old(Acct(tx.sender)), tx.nonce), tx, config.priceBump, all, old(Room(1)), r)
      ensures forall d :: d in old(all) - all ==> d.sender !in old(locals) || d.sender == tx.sender
      ensures forall d, t ::
        d in old(all) - all && d.sender != tx.sender && t in all && t != tx && t.sender !in old(locals) ==>
          d.price <= t.price
    {
      hide InStep, Cut, PlaceIn, AcctOf, Accepts, Slot, ItemsOf, RemoveAll, Moment.Packed, Settlement, Purge, Placed;
      drop := Clear();
      ghost var m := Now();
      r := Place(tx, local);
      PlacedBy(config, old(Now()), m, tx, local, r, drop, Now());
      SlotSettled(old(Now()), m, tx, config.priceBump, all, old(Room(1)), r);
      PurgeGives(config, old(Now()), drop);
      PackedAfter(config, old(Now()), drop, tx, Now());
    }

    /** A full pool makes room. */
    method Clear() returns (ghost drop: seq<Tx>)
      requires Valid()
      modifies this`pending, this`queue, this`all, this`nonces, this`beats, priced
      ensures Coherent() && all == old(all) - Pooled(drop) && Purge(config, old(Now()), drop)
      ensures |all| <= |old(all)| && (old(Room(1)) ==> Now() == old(Now()))
      ensures forall a :: Acct(a) == Spared(old(Now()), drop, a)
      ensures forall a :: Cut(old(Acct(a)), Acct(a))
    {
      hide InStep, Cut, AcctOf, RemoveAll, Purge;
      forall a ensures Cut(Acct(a), Acct(a)) {
        CutReflexive(Acct(a));
      }
      drop := [];
      NoPurge(config, Now());
      if |all| >= config.globalSlots + config.globalQueue {
        drop := MakeRoom();
      }
      SubsetSize(all, old(all));
    }

    /** The insertion part of add. */
    method Place(tx: Tx, local: bool) returns (r: AddResult)
      requires Coherent() && tx !in all
      modifies this`pending, this`queue, this`all, this`locals, priced
      ensures Coherent() && all <= old(all) + {tx} && (tx in all <==> r.Added?) && (r.Added? || r.ReplaceUnderpriced?)
      ensures r.Added? <==> Accepts(Slot(old(Acct(tx.sender)), tx.nonce), tx, config.priceBump)
      ensures r.Added? ==> (r.replaced <==> tx.nonce in Slot(old(Acct(tx.sender)), tx.nonce))
      ensures r.Added? && r.replaced ==> Slot(old(Acct(tx.sender)), tx.nonce)[tx.nonce] !in all
      ensures !r.Added? ==> all == old(all)
      ensures forall a ::
        Acct(a) == if a == tx.sender then PlaceIn(old(Acct(a)), tx, config.priceBump) else old(Acct(a))
      ensures |all| <= |old(all)| + 1 && forall d :: d in old(all) - all ==> d.sender == tx.sender
      ensures forall x, a :: Cut(x, old(Acct(a))) ==> Cut(x, Acct(a))
      ensures
        locals
        == if r.Added? && local && tx.nonce !in old(Acct(tx.sender)).pending then old(locals) + {tx.sender}
           else old(locals)
    {
      hide InStep, Cut, Accepts, AcctOf, ItemsOf, PlaceIn, SetItems, Enqueued, Slot;
      PlaceStored(pending, queue, all, nonces, stateNonces, tx, config.priceBump);
      SlotOf(pending, queue, nonces, stateNonces, tx.sender, tx.nonce);
      if tx.nonce in ItemsOf(pending, tx.sender) {
        if !Accepts(ItemsOf(pending, tx.sender), tx, config.priceBump) {
          return ReplaceUnderpriced;
        }
        ReplacePending(tx);
        return Added(true);
      }
      var replaced, ok := PlaceInQueue(tx);
      if !ok {
        return ReplaceUnderpriced;
      }
      if local {
        locals := locals + {tx.sender};
      }
      return Added(replaced);
    }

    /** Puts a transaction whose nonce is not pending into the queue. */
    method PlaceInQueue(tx: Tx) returns (replaced: bool, ok: bool)
      requires Coherent() && tx !in all && tx.nonce !in ItemsOf(pending, tx.sender)
      modifies this`queue, this`all, priced
      ensures Coherent() && all <= old(all) + {tx} && (tx in all <==> ok)
      ensures |all| <= |old(all)| + 1 && forall d :: d in old(all) - all ==> d.sender == tx.sender
      ensures forall x, a :: Cut(x, old(Acct(a))) ==> Cut(x, Acct(a))
      ensures ok == Accepts(ItemsOf(old(queue), tx.sender), tx, config.priceBump)
      ensures queue == if ok then Enqueued(old(queue), tx) else old(queue)
      ensures ok ==> (replaced <==> tx.nonce in ItemsOf(old(queue), tx.sender))
      ensures replaced ==> ok && ItemsOf(old(queue), tx.sender)[tx.nonce] !in all
      ensures !ok ==> all == old(all)
    {
      hide InStep, Cut, Accepts;
      EnqueueKeepsStep(pending, queue, all, tx);
      DisplacedSender(pending, queue, all, tx);
      replaced, ok := EnqueueTx(tx);
      forall x, a | Cut(x, old(Acct(a))) ensures Cut(x, Acct(a)) {
        SamePending(old(Acct(a)), Acct(a));
        CutTransitive(x, old(Acct(a)), Acct(a));
      }
    }

    /** Moves a transaction from its way out of the queue into the pending list. */
    method PromoteTx(a: Address, tx: Tx, now: nat, ghost owed: nat) returns (inserted: bool)
      requires tx.sender == a && tx in all && priced.Owes(all, owed)
      requires tx.nonce in ItemsOf(pending, a) ==> ItemsOf(pending, a)[tx.nonce] in all - {tx}
      modifies this`pending, this`all, this`nonces, this`beats, priced
      ensures inserted == Accepts(ItemsOf(old(pending), a), tx, config.priceBump)
      ensures pending == if inserted then Enqueued(old(pending), tx) else old(pending)
      ensures all == old(all) - (if inserted then Displaced(old(pending), tx) else {tx})
      ensures nonces == if inserted then old(nonces)[a := tx.nonce + 1] else old(nonces)
      ensures tx.nonce !in ItemsOf(old(pending), a) ==> inserted && all == old(all)
      ensures beats == if inserted then old(beats)[a := now] else old(beats)
      ensures priced.Owes(all, owed)
    {
      var list := ItemsOf(pending, a);
      inserted := Accepts(list, tx, config.priceBump);
      if !inserted {
        all := all - {tx};
        priced.Removed(all, 1, owed);
        return;
      }
      pending := Enqueued(pending, tx);
      if tx.nonce in list {
        all := all - {list[tx.nonce]};
        priced.Removed(all, 1, owed);
      }
      beats := beats[a := now];
      nonces := nonces[a := tx.nonce + 1];
    }

    /** Promotes a run of consecutive nonces, none of which is pending, in order. */
    method PromoteRun(a: Address, run: Items, start: nat, end: nat, now: nat, ghost owed: nat)
      requires Promotable(pending, all, a, run, start, end) && priced.Owes(all, owed)
      modifies this`pending, this`all, this`nonces, this`beats, priced
      ensures pending == SetItems(old(pending), a, ItemsOf(old(pending), a) + run)
      ensures nonces == if start < end then old(nonces)[a := end] else old(nonces)
      ensures beats == if start < end then old(beats)[a := now] else old(beats)
      ensures all == old(all) && priced.Owes(all, owed)
    {
      hide *;
      PartlyPromotedEnds(pending, all, a, run, start, end);
      for n := start to end
        invariant pending == PartlyPromoted(old(pending), a, run, n)
        invariant all == old(all) && priced.Owes(all, owed)
        invariant nonces == if start < n then old(nonces)[a := n] else old(nonces)
        invariant beats == if start < n then old(beats)[a := now] else old(beats)
      {
        PartlyPromotedStep(old(pending), all, a, run, start, end, n);
        var inserted := PromoteTx(a, run[n], now, owed);
        UpdateTwice(old(nonces), a, n, n + 1);
        UpdateTwice(old(beats), a, now, now);
      }
    }

    /** Drops transactions from the index; the price heap is told later. */
    method Forget(gone: Items, ghost owed: nat)
      requires Keyed(gone) && Values(gone) <= all && priced.Owes(all, owed)
      modifies this`all
      ensures all == old(all) - Values(gone) && priced.Owes(all, owed + |gone|)
    {
      Shrinks(all, gone);
      all := all - Values(gone);
    }

    /** promoteExecutables for one account. */
    method PromoteAccount(a: Address, now: nat)
      requires Coherent()
      modifies this`pending, this`queue, this`all, this`nonces, this`beats, priced
      ensures Coherent() && all <= old(all)
      ensures forall b :: Acct(b) == if b == a then Promote(old(Acct(a)), LimitsOf(a), QueueCap(a)) else old(Acct(b))
      ensures forall t :: t in all && t.sender == a ==>
        || Has(old(Acct(a)).pending, t)
        || (t.nonce >= Lookup(stateNonces, a) && t.cost <= Lookup(balances, a) && t.gas <= maxGas)
      ensures forall t :: t in old(all) - all ==>
        && t.sender == a && !Has(old(Acct(a)).pending, t)
        && (t.nonce >= Lookup(stateNonces, a) && t.cost <= Lookup(balances, a) && t.gas <= maxGas ==>
              && a !in locals && |Acct(a).queue| == config.accountQueue
              && forall n :: n in Acct(a).queue ==> n < t.nonce)
    {
      hide InStep, PlanOf, Promote, Surviving, SetItems, ItemsOf, AcctOf, PlanReady, NoncesAfter, Holds, Sound;
      SoundAccounts(pending, queue, all, nonces, stateNonces);
      var plan := PlanOf(ItemsOf(queue, a), LimitsOf(a), NextOf(nonces, stateNonces, a), QueueCap(a));
      PlanWorks(pending, queue, all, nonces, stateNonces, a, LimitsOf(a), QueueCap(a), plan);
      Execute(a, plan, now);
      forall t | t in old(all)
        ensures t in all <==> Holds(Acct(t.sender), t)
        ensures Holds(old(Acct(t.sender)), t)
      {
        HeldIndexed(old(pending), old(queue), old(all), old(nonces), stateNonces, t);
        HeldIndexed(pending, queue, all, nonces, stateNonces, t);
      }
      forall t | t in old(all) && t.sender == a
        ensures PromotedAlike(old(Acct(a)), Acct(a), LimitsOf(a), QueueCap(a), t)
      {
        PromotedOne(a, old(Acct(a)), LimitsOf(a), QueueCap(a), t);
      }
    }

    method ForgetStale(tooOld: Items, tooDear: Items)
      requires Keyed(tooOld) && Values(tooOld) <= all && priced.Valid(all)
      requires Keyed(tooDear) && Values(tooDear) <= all - Values(tooOld)
      modifies this`all
      ensures all == old(all) - Values(tooOld) - Values(tooDear)
      ensures priced.Owes(all, |tooOld| + |tooDear|)
    {
      Forget(tooOld, 0);
      Forget(tooDear, |tooOld|);
    }

    /** Carries out a promotion plan. */
    method Execute(a: Address, plan: Plan, now: nat)
      requires priced.Valid(all)
      requires PlanReady(pending, all, a, plan)
      modifies this`pending, this`queue, this`all, this`nonces, this`beats, priced
      ensures pending == SetItems(old(pending), a, ItemsOf(old(pending), a) + plan.run)
      ensures queue == SetItems(old(queue), a, plan.kept)
      ensures nonces == NoncesAfter(old(nonces), a, plan)
      ensures beats == if plan.start < plan.end then old(beats)[a := now] else old(beats)
      ensures all == Surviving(old(all), plan) && all <= old(all) && priced.Valid(all)
    {
      hide Values, Keyed, SetItems, ItemsOf, Promotable;
      ForgetStale(plan.tooOld, plan.tooDear);
      PromoteRun(a, plan.run, plan.start, plan.end, now, |plan.tooOld| + |plan.tooDear|);
      TrimQueue(a, plan.kept, plan.excess, |plan.tooOld| + |plan.tooDear|);
    }

    /** The end of a promotion: the queue is cut down and the price heap told. */
    method TrimQueue(a: Address, kept: Items, excess: Items, owed: nat)
      requires Keyed(excess) && Values(excess) <= all && priced.Owes(all, owed)
      modifies this`queue, this`all, priced
      ensures queue == SetItems(old(queue), a, kept)
      ensures all == old(all) - Values(excess) && priced.Valid(all)
    {
      hide Values, Keyed, SetItems;
      Forget(excess, owed);
      priced.Removed(all, owed + |excess|, 0);
      queue := SetItems(queue, a, kept);
    }

    /** demoteUnexecutables for one account. */
    method DemoteAccount(a: Address)
      requires Coherent()
      modifies this`pending, this`queue, this`all, this`beats, priced
      ensures Coherent() && all <= old(all)
      ensures forall b :: Acct(b) == if b == a then Demote(old(Acct(a)), LimitsOf(a)) else old(Acct(b))
      ensures forall t :: t in all <==>
        && t in old(all)
        && (|| t.sender != a || Has(old(Acct(a)).queue, t)
            || (t.nonce >= Lookup(stateNonces, a) && t.cost <= Lookup(balances, a) && t.gas <= maxGas))
    {
      hide InStep, Demote, SetItems, ItemsOf, AcctOf, RetreatOf, Requeueable, Values, Keyed, Back, Current, Sound;
      SoundAccounts(pending, queue, all, nonces, stateNonces);
      var plan := RetreatOf(ItemsOf(pending, a), LimitsOf(a));
      RetreatWorks(pending, queue, all, nonces, stateNonces, a, LimitsOf(a), plan);
      DropUnpayable(plan);
      Retreating(a, plan);
      forall t
        ensures t in all <==>
          && t in old(all)
          && (|| t.sender != a || Has(old(Acct(a)).queue, t)
              || (t.nonce >= Lookup(stateNonces, a) && t.cost <= Lookup(balances, a) && t.gas <= maxGas))
      {
        HeldIndexed(old(pending), old(queue), old(all), old(nonces), stateNonces, t);
        HeldIndexed(pending, queue, all, nonces, stateNonces, t);
        DemoteExactly(a, old(Acct(a)), LimitsOf(a));
      }
    }

    method DropUnpayable(plan: Retreat)
      requires Keyed(plan.tooOld) && Values(plan.tooOld) <= all && priced.Valid(all)
      requires Keyed(plan.tooDear) && Values(plan.tooDear) <= all - Values(plan.tooOld)
      modifies this`all, priced
      ensures all == Current(old(all), plan) && priced.Valid(all)
    {
      ForgetStale(plan.tooOld, plan.tooDear);
      priced.Removed(all, |plan.tooOld| + |plan.tooDear|, 0);
    }

    /** Keeps what is executable pending and sends the rest back to the queue. */
    method Retreating(a: Address, plan: Retreat)
      requires Requeueable(queue, all, a, Back(plan))
      requires forall n :: n in plan.invalid ==> n !in plan.gapped
      modifies this`pending, this`queue, this`all, this`beats, priced
      ensures pending == SetItems(old(pending), a, plan.stay)
      ensures queue == SetItems(old(queue), a, ItemsOf(old(queue), a) + Back(plan))
      ensures beats == if a in pending then old(beats) else old(beats) - {a}
      ensures all == old(all) && priced.items == old(priced.items) && priced.stales == old(priced.stales)
    {
      hide SetItems, ItemsOf, Requeueable, Back;
      pending := SetItems(pending, a, plan.stay);
      if a !in pending {
        beats := beats - {a};
      }
      RequeueBoth(queue, all, a, plan);
      RequeueTwice(queue, a, ItemsOf(queue, a), plan);
      Requeue(a, plan.invalid);
      Requeue(a, plan.gapped);
    }

    /** Drops the highest pending nonce of `a`. */
    method DropLastOf(a: Address)
      requires Coherent() && Len(pending, a) > 1
      modifies this`pending, this`all, this`nonces, priced
      ensures Coherent() && all <= old(all) && ItemsOf(old(pending), a).Keys != {}
      ensures forall b :: Acct(b) == if b == a then DropLast(old(Acct(a))) else old(Acct(b))
      ensures forall b :: Len(pending, b) == Len(old(pending), b) - (if b == a then 1 else 0)
      ensures Total(pending) == Total(old(pending)) - 1
    {
      hide InStep, SetItems, ItemsOf, AcctOf, DropLast, Lowest, Greatest, Total;
      var list := ItemsOf(pending, a);
      CapOne(list);
      DropLastKeepsStep(pending, queue, all, nonces, stateNonces, a);
      var tx := list[Greatest(list)];
      TotalSet(pending, a, list - {Greatest(list)});
      assert |list - {Greatest(list)}| == |list| - 1 by { RemoveNonce(list, Greatest(list)); }
      pending := SetItems(pending, a, Lowest(list, |list| - 1));
      SetIfLower(a, tx.nonce);
      all := all - {tx};
      priced.Removed(all, 1, 0);
    }

    /** One round of the fair truncation: every offender loses one transaction. */
    method DropRound(offenders: seq<Address>)
      requires Coherent() && Distinct(offenders)
      requires forall i :: 0 <= i < |offenders| ==> Len(pending, offenders[i]) > 1
      modifies this`pending, this`all, this`nonces, priced
      ensures Coherent() && all <= old(all)
      ensures forall b :: Cut(old(Acct(b)), Acct(b)) && (b !in offenders ==> Acct(b) == old(Acct(b)))
      ensures forall b :: Len(pending, b) == Len(old(pending), b) - (if b in offenders then 1 else 0)
      ensures Total(pending) == Total(old(pending)) - |offenders|
    {
      hide InStep, Cut, AcctOf, DropLast, Total, ItemsOf;
      forall b ensures Cut(Acct(b), Acct(b)) {
        CutReflexive(Acct(b));
      }
      for i := 0 to |offenders|
        invariant Coherent() && all <= old(all)
        invariant forall b :: Cut(old(Acct(b)), Acct(b)) && (b !in offenders[..i] ==> Acct(b) == old(Acct(b)))
        invariant forall b :: Len(pending, b) == Len(old(pending), b) - (if b in offenders[..i] then 1 else 0)
        invariant Total(pending) == Total(old(pending)) - i
      {
        var a := offenders[i];
        assert a !in offenders[..i];
        assert forall b :: b in offenders[..i + 1] <==> b in offenders[..i] || b == a;
        CutLast(a);
      }
      assert offenders[..|offenders|] == offenders;
    }

    /** DropLastOf, seen as a cut. */
    method CutLast(a: Address)
      requires Coherent() && Len(pending, a) > 1
      modifies this`pending, this`all, this`nonces, priced
      ensures Coherent() && all <= old(all)
      ensures forall x, b :: Cut(x, old(Acct(b))) ==> Cut(x, Acct(b))
      ensures forall b :: b != a ==> Acct(b) == old(Acct(b))
      ensures forall b :: Len(pending, b) == Len(old(pending), b) - (if b == a then 1 else 0)
      ensures Total(pending) == Total(old(pending)) - 1
    {
      hide InStep, Cut, DropLast, Total;
      ghost var acc := Acct(a);
      AccountInStep(pending, queue, all, a);
      DropLastOf(a);
      DropLastCuts(a, acc);
      forall x, b | Cut(x, old(Acct(b))) ensures Cut(x, Acct(b)) {
        if b == a {
          CutTransitive(x, old(Acct(b)), Acct(b));
        }
      }
    }

    /** Lowers all offenders together, one transaction at a time, until the pool is
        within its limit or they have come down to `threshold`. */
    method Equalize(offenders: seq<Address>, threshold: nat, count: nat, ghost was: map<Address, Items>,
                    ghost level: nat)
      returns (count': nat, ghost level': nat)
      requires Coherent() && count == Total(pending) && offenders != [] && threshold >= 1
      requires Tier(was, pending, locals, offenders, threshold, level)
      modifies this`pending, this`all, this`nonces, priced
      ensures Coherent() && all <= old(all) && count' == Total(pending)
      ensures Tier(was, pending, locals, offenders, threshold, level') && level' <= level
      ensures forall b :: Cut(old(Acct(b)), Acct(b)) && (b in locals ==> Acct(b) == old(Acct(b)))
      ensures count' > config.globalSlots ==> level' == threshold
      ensures level' == level ==> count' == count
      ensures level' != level ==>
        |CutBy(was, locals, level')| == |offenders| && count' + |offenders| > config.globalSlots
    {
      hide InStep, Cut, AcctOf, Total, ItemsOf, Tier, CutBy, Len;
      count', level' := count, level;
      forall b ensures Cut(Acct(b), Acct(b)) {
        CutReflexive(Acct(b));
      }
      TierLens(was, pending, locals, offenders, threshold, level);
      while count' > config.globalSlots && Len(pending, offenders[|offenders| - 1]) > threshold
        invariant Coherent() && all <= old(all) && count' == Total(pending)
        invariant Tier(was, pending, locals, offenders, threshold, level') && threshold <= level' <= level
        invariant forall b :: Cut(old(Acct(b)), Acct(b)) && (b in locals ==> Acct(b) == old(Acct(b)))
        invariant forall i :: 0 <= i < |offenders| ==> offenders[i] !in locals && Len(pending, offenders[i]) == level'
        invariant level' == level ==> count' == count
        invariant level' != level ==>
          |CutBy(was, locals, level')| == |offenders| && count' + |offenders| > config.globalSlots
        decreases level'
      {
        ghost var before := pending;
        CutRound(offenders);
        TierRound(was, before, pending, locals, offenders, threshold, level');
        count', level' := count' - |offenders|, level' - 1;
        TierLens(was, pending, locals, offenders, threshold, level');
      }
    }

    /** DropRound, continuing an earlier cut. */
    method CutRound(offenders: seq<Address>)
      requires Coherent() && Distinct(offenders)
      requires forall i :: 0 <= i < |offenders| ==> Len(pending, offenders[i]) > 1
      modifies this`pending, this`all, this`nonces, priced
      ensures Coherent() && all <= old(all)
      ensures forall x, b :: Cut(x, old(Acct(b))) ==> Cut(x, Acct(b))
      ensures forall b :: b !in offenders ==> Acct(b) == old(Acct(b))
      ensures forall b :: Len(pending, b) == Len(old(pending), b) - (if b in offenders then 1 else 0)
      ensures Total(pending) == Total(old(pending)) - |offenders|
    {
      hide InStep, Cut, AcctOf, Total, ItemsOf;
      DropRound(offenders);
      forall x, b | Cut(x, old(Acct(b))) ensures Cut(x, Acct(b)) {
        CutTransitive(x, old(Acct(b)), Acct(b));
      }
    }

    /** Brings the pending lists within the global limit. Lists that are not local
        are cut to one common level, which is as high as the limit allows but never
        below the guaranteed number of slots; nothing else changes. */
    method TruncatePending() returns (ghost level: nat)
      requires Coherent()
      modifies this`pending, this`all, this`nonces, priced
      ensures Coherent() && all <= old(all)
      ensures forall a :: Cut(old(Acct(a)), Acct(a)) && (a in locals ==> Acct(a) == old(Acct(a)))
      ensures level >= config.accountSlots && Leveled(old(pending), pending, locals, level)
      ensures forall a ::
        Len(pending, a) == if a in locals then Len(old(pending), a) else Min(Len(old(pending), a), level)
      ensures Total(pending) <= config.globalSlots || level == config.accountSlots
      ensures pending == old(pending) || Total(pending) + |CutBy(old(pending), locals, level)| > config.globalSlots
      ensures Total(old(pending)) <= config.globalSlots ==> pending == old(pending)
    {
      hide InStep, Cut, AcctOf, Total, ItemsOf, Tier, CutBy, Len, Leveled, Sorted, Gathering;
      forall b ensures Cut(Acct(b), Acct(b)) {
        CutReflexive(Acct(b));
      }
      var was := pending; // the spam queue is ordered by the lengths at the start
      var count := CountAll(pending);
      GatheringStart(pending, locals, config.accountSlots);
      level := Total(pending) + config.accountSlots;
      GatheringGives(was, pending, locals, config.accountSlots, [], CutBy(was, locals, config.accountSlots), level);
      if count <= config.globalSlots {
        LeveledExactly(was, pending, locals, level);
        return;
      }
      var spammers := CutBy(pending, locals, config.accountSlots);
      var offenders: seq<Address> := [];
      while count > config.globalSlots && spammers != {}
        invariant Coherent() && all <= old(all) && count == Total(pending)
        invariant forall b :: Cut(old(Acct(b)), Acct(b)) && (b in locals ==> Acct(b) == old(Acct(b)))
        invariant level >= config.accountSlots && Leveled(was, pending, locals, level)
        invariant count > config.globalSlots ==>
          Gathering(was, pending, locals, config.accountSlots, offenders, spammers, level)
        invariant count <= config.globalSlots ==> count + |CutBy(was, locals, level)| > config.globalSlots
        invariant offenders == [] ==> pending == was && count > config.globalSlots
        decreases spammers
      {
        var o := PickLargest(was, spammers);
        count, level := Gather(offenders, spammers, o, count, was, level);
        offenders, spammers := offenders + [o], spammers - {o};
      }
      if count > config.globalSlots {
        GatheringEnd(was, pending, locals, config.accountSlots, offenders, level);
        if |offenders| > 0 {
          count, level := CutDown(offenders, config.accountSlots, count, was, level);
        } else {
          level := config.accountSlots;
        }
      }
      LeveledExactly(was, pending, locals, level);
    }

    /** One turn of the gathering loop: with a new offender at hand, the earlier
        ones come down to it. */
    method Gather(offenders: seq<Address>, spammers: set<Address>, o: Address, count: nat,
                  ghost was: map<Address, Items>, ghost level: nat)
      returns (count': nat, ghost level': nat)
      requires Coherent() && count == Total(pending) && count > config.globalSlots
      requires Gathering(was, pending, locals, config.accountSlots, offenders, spammers, level)
      requires o in spammers && forall b :: b in spammers ==> Len(was, b) <= Len(was, o)
      requires offenders == [] ==> pending == was
      modifies this`pending, this`all, this`nonces, priced
      ensures Coherent() && all <= old(all) && count' == Total(pending)
      ensures forall x, b :: Cut(x, old(Acct(b))) ==> Cut(x, Acct(b))
      ensures forall b :: b in locals ==> Acct(b) == old(Acct(b))
      ensures level' >= config.accountSlots && Leveled(was, pending, locals, level')
      ensures count' > config.globalSlots ==>
        Gathering(was, pending, locals, config.accountSlots, offenders + [o], spammers - {o}, level')
      ensures count' <= config.globalSlots ==> count' + |CutBy(was, locals, level')| > config.globalSlots
    {
      hide InStep, Cut, AcctOf, Total, ItemsOf, Tier, CutBy, Len, Leveled, Sorted, Gathering;
      GatheringGives(was, pending, locals, config.accountSlots, offenders, spammers, level);
      GatheringPop(was, pending, locals, config.accountSlots, offenders, spammers, level, o);
      if offenders == [] {
        GatheringFirst(was, locals, config.accountSlots, spammers, level, o);
        count', level' := count, Len(was, o);
        GatheringGives(was, pending, locals, config.accountSlots, [o], spammers - {o}, level');
        assert offenders + [o] == [o];
      } else {
        count', level' := CutDown(offenders, Len(pending, o), count, was, level);
        if count' > config.globalSlots {
          GatheringNext(was, pending, locals, config.accountSlots, offenders, spammers, o);
        }
      }
    }

    /** Equalize, continuing an earlier cut. */
    method CutDown(offenders: seq<Address>, threshold: nat, count: nat, ghost was: map<Address, Items>,
                   ghost level: nat)
      returns (count': nat, ghost level': nat)
      requires Coherent() && count == Total(pending) && count > config.globalSlots && offenders != [] && threshold >= 1
      requires Tier(was, pending, locals, offenders, threshold, level)
      modifies this`pending, this`all, this`nonces, priced
      ensures Coherent() && all <= old(all) && count' == Total(pending)
      ensures Tier(was, pending, locals, offenders, threshold, level')
      ensures threshold <= level' && Leveled(was, pending, locals, level')
      ensures forall x, b :: Cut(x, old(Acct(b))) ==> Cut(x, Acct(b))
      ensures forall b :: b in locals ==> Acct(b) == old(Acct(b))
      ensures count' > config.globalSlots ==> level' == threshold
      ensures count' <= config.globalSlots ==> count' + |CutBy(was, locals, level')| > config.globalSlots
    {
      hide InStep, Cut, AcctOf, Total, ItemsOf, CutBy, Len, Leveled;
      count', level' := Equalize(offenders, threshold, count, was, level);
      forall x, b | Cut(x, old(Acct(b))) ensures Cut(x, Acct(b)) {
        CutTransitive(x, old(Acct(b)), Acct(b));
      }
    }

    /** Removes one queued transaction of `a`. */
    method RemoveQueued(a: Address, n: nat)
      requires Coherent() && n in ItemsOf(queue, a)
      modifies this`pending, this`queue, this`all, this`nonces, this`beats, priced
      ensures Coherent() && all <= old(all) && pending == old(pending) && beats == old(beats)
      ensures queue == SetItems(old(queue), a, ItemsOf(old(queue), a) - {n})
      ensures forall b :: NextOf(nonces, stateNonces, b) == NextOf(old(nonces), stateNonces, b)
    {
      hide InStep, Remove, AcctOf, SetItems, ItemsOf, NextOf, NonEmpty;
      var tx := ItemsOf(queue, a)[n];
      QueuedTx(pending, queue, all, a, n);
      RemoveTx(tx, true);
      NonEmptyLists(pending, queue, all);
      forall b
        ensures AcctOf(pending, queue, nonces, stateNonces, b)
          == if b == a then Remove(old(Acct(b)), n) else old(Acct(b))
      {
        assert Acct(b) == if b == a then Remove(old(Acct(b)), n) else old(Acct(b));
      }
      RemovedFromQueue(old(pending), old(queue), old(nonces), pending, queue, nonces, stateNonces, a, n);
    }

    /** Cuts the queue of `a` down to its `keep` lowest nonces, highest first. */
    method CutQueue(a: Address, keep: nat)
      requires Coherent() && keep <= Len(queue, a)
      modifies this`pending, this`queue, this`all, this`nonces, this`beats, priced
      ensures Coherent() && all <= old(all) && pending == old(pending) && beats == old(beats)
      ensures queue == SetItems(old(queue), a, Lowest(ItemsOf(old(queue), a), keep))
      ensures forall b :: NextOf(nonces, stateNonces, b) == NextOf(old(nonces), stateNonces, b)
    {
      hide InStep, AcctOf, SetItems, ItemsOf, NextOf, NonEmpty, Lowest, Greatest;
      var list := ItemsOf(queue, a);
      NonEmptyLists(pending, queue, all);
      SameItems(queue, a);
      LowestAll(list);
      var k := |list|;
      while k > keep
        invariant keep <= k <= |list|
        invariant Coherent() && all <= old(all) && pending == old(pending) && beats == old(beats)
        invariant queue == SetItems(old(queue), a, Lowest(list, k))
        invariant forall b :: NextOf(nonces, stateNonces, b) == NextOf(old(nonces), stateNonces, b)
      {
        LowestAgain(list, k);
        SetTwice(old(queue), a, Lowest(list, k), Lowest(list, k - 1));
        RemoveQueued(a, Greatest(Lowest(list, k)));
        k := k - 1;
      }
    }

    /** Removes the whole queue of `a`, lowest nonce first. */
    method EmptyQueue(a: Address)
      requires Coherent()
      modifies this`pending, this`queue, this`all, this`nonces, this`beats, priced
      ensures Coherent() && all <= old(all) && pending == old(pending) && beats == old(beats)
      ensures queue == SetItems(old(queue), a, map[])
      ensures forall b :: NextOf(nonces, stateNonces, b) == NextOf(old(nonces), stateNonces, b)
    {
      hide InStep, AcctOf, SetItems, ItemsOf, NextOf, NonEmpty;
      var left := ItemsOf(queue, a);
      NonEmptyLists(pending, queue, all);
      SameItems(queue, a);
      while left.Keys != {}
        invariant Coherent() && all <= old(all) && pending == old(pending) && beats == old(beats)
        invariant queue == SetItems(old(queue), a, left)
        invariant forall b :: NextOf(nonces, stateNonces, b) == NextOf(old(nonces), stateNonces, b)
        decreases left.Keys
      {
        var n := Least(left.Keys);
        SetTwice(old(queue), a, left, left - {n});
        RemoveQueued(a, n);
        left := left - {n};
      }
      assert left == map[];
    }

    /** Brings the queues within the global limit: exactly the overflow goes, or
        everything that is not local if that is less, accounts with the latest
        heartbeat first and their highest nonces first. */
    method TruncateQueue()
      requires Coherent()
      modifies this`pending, this`queue, this`all, this`nonces, this`beats, priced
      ensures Coherent() && all <= old(all) && pending == old(pending)
      ensures forall b :: NextOf(nonces, stateNonces, b) == NextOf(old(nonces), stateNonces, b)
      ensures Shed(old(queue), queue, locals, old(beats))
      ensures forall a, b :: Len(queue, a) < Len(old(queue), a) && b !in locals && Len(queue, b) > 0 ==>
        a !in locals && Lookup(old(beats), b) <= Lookup(old(beats), a)
      ensures forall a, n, m ::
        n in ItemsOf(queue, a) && m in ItemsOf(old(queue), a) && m !in ItemsOf(queue, a) ==> n < m
      ensures Total(queue)
        == Total(old(queue)) - Min(Over(Total(old(queue)), config.globalQueue), Total(old(queue) - locals))
      ensures Total(queue) <= config.globalQueue || forall a :: a !in locals ==> Len(queue, a) == 0
      ensures Total(old(queue)) <= config.globalQueue ==> queue == old(queue)
    {
      hide Len, InStep, AcctOf, SetItems, ItemsOf, NextOf, Total, Shedding, Shed;
      var queued := CountAll(queue);
      var drop := Over(queued, config.globalQueue);
      ghost var done: set<Address> := {};
      SheddingStart(queue, locals, beats, drop);
      SheddingGives(queue, queue, locals, beats, {}, drop, drop);
      if drop == 0 {
        ShedExactly(queue, queue, locals, beats);
        return;
      }
      var snapshot := beats; // heartbeats are read before anything is removed
      var todo := queue.Keys - locals;
      while drop > 0 && todo != {}
        invariant Coherent() && all <= old(all) && pending == old(pending)
        invariant forall b :: NextOf(nonces, stateNonces, b) == NextOf(old(nonces), stateNonces, b)
        invariant done == old(queue).Keys - locals - todo && todo <= old(queue).Keys - locals
        invariant drop > 0 ==>
          Shedding(old(queue), queue, locals, snapshot, done, drop, Over(queued, config.globalQueue))
        invariant drop == 0 ==> Shed(old(queue), queue, locals, snapshot)
        invariant drop == 0 ==> Total(queue) == Total(old(queue)) - Over(queued, config.globalQueue)
        invariant drop == 0 ==> Over(queued, config.globalQueue) <= Total(old(queue) - locals)
        decreases todo
      {
        var a := PickLatest(snapshot, todo);
        assert todo == old(queue).Keys - locals - done;
        drop := ShedOne(old(queue), snapshot, done, a, drop, Over(queued, config.globalQueue));
        todo, done := todo - {a}, done + {a};
      }
      if drop > 0 {
        SheddingGives(old(queue), queue, locals, snapshot, done, drop, Over(queued, config.globalQueue));
      }
      ShedExactly(old(queue), queue, locals, snapshot);
    }

    /** One turn of the queue truncation. */
    method ShedOne(ghost was: map<Address, Items>, ghost snapshot: map<Address, nat>, ghost done: set<Address>,
                   a: Address, drop: nat, ghost over: nat)
      returns (drop': nat)
      requires Coherent() && drop > 0 && Shedding(was, queue, locals, snapshot, done, drop, over)
      requires a in was.Keys - locals - done
      requires forall b :: b in was.Keys - locals - done ==> Lookup(snapshot, b) <= Lookup(snapshot, a)
      modifies this`pending, this`queue, this`all, this`nonces, this`beats, priced
      ensures Coherent() && all <= old(all) && pending == old(pending)
      ensures forall b :: NextOf(nonces, stateNonces, b) == NextOf(old(nonces), stateNonces, b)
      ensures drop' > 0 ==> Shedding(was, queue, locals, snapshot, done + {a}, drop', over)
      ensures drop' == 0 ==> Shed(was, queue, locals, snapshot)
      ensures drop' == 0 ==> Total(queue) == Total(was) - over && over <= Total(was - locals)
    {
      hide InStep, AcctOf, SetItems, ItemsOf, NextOf, Total, Shedding, Shed, Lowest, Len;
      var size := Len(queue, a);
      if size <= drop {
        SheddingWhole(was, queue, locals, snapshot, done, drop, over, a);
        EmptyQueue(a);
        drop' := drop - size;
        SheddingGives(was, queue, locals, snapshot, done + {a}, drop', over);
      } else {
        ghost var before := queue;
        CutQueue(a, size - drop);
        SheddingPart(was, before, locals, snapshot, done, drop, over, a, queue);
        drop' := 0;
      }
    }

    /** promoteExecutables over a set of accounts. */
    method PromoteExecutables(accounts: set<Address>, now: nat)
      requires Coherent()
      modifies this`pending, this`queue, this`all, this`nonces, this`beats, priced
      ensures Coherent() && all <= old(all)
      ensures forall a ::
        Acct(a) == if a in accounts then Promote(old(Acct(a)), LimitsOf(a), QueueCap(a)) else old(Acct(a))
      ensures forall t :: t in all && t.sender in accounts ==>
        || Has(old(Acct(t.sender)).pending, t)
        || (t.nonce >= Lookup(stateNonces, t.sender) && t.cost <= Lookup(balances, t.sender) && t.gas <= maxGas)
      ensures forall t :: t in old(all) - all ==>
        && t.sender in accounts && !Has(old(Acct(t.sender)).pending, t)
        && (t.nonce >= Lookup(stateNonces, t.sender) && t.cost <= Lookup(balances, t.sender) && t.gas <= maxGas ==>
              && t.sender !in locals && |Acct(t.sender).queue| == config.accountQueue
              && forall n :: n in Acct(t.sender).queue ==> n < t.nonce)
      ensures forall a :: a in accounts && a !in locals ==> |Acct(a).queue| <= config.accountQueue
    {
      hide InStep, Promote, AcctOf, Holds, Sound;
      SoundAccounts(pending, queue, all, nonces, stateNonces);
      var todo := accounts;
      while todo != {}
        invariant todo <= accounts && Coherent() && all <= old(all)
        invariant forall a ::
          Acct(a) == if a in accounts - todo then Promote(old(Acct(a)), LimitsOf(a), QueueCap(a)) else old(Acct(a))
      {
        var a :| a in todo;
        if a in queue {
          PromoteAccount(a, now);
        } else {
          PromoteNothing(pending, queue, nonces, stateNonces, a, LimitsOf(a), QueueCap(a));
        }
        todo := todo - {a};
      }
      forall t | t in old(all)
        ensures t in all <==> Holds(Acct(t.sender), t)
        ensures Holds(old(Acct(t.sender)), t)
      {
        HeldIndexed(old(pending), old(queue), old(all), old(nonces), stateNonces, t);
        HeldIndexed(pending, queue, all, nonces, stateNonces, t);
      }
      forall t | t in old(all) && t.sender in accounts
        ensures PromotedAlike(old(Acct(t.sender)), Acct(t.sender), LimitsOf(t.sender), QueueCap(t.sender), t)
      {
        PromotedOne(t.sender, old(Acct(t.sender)), LimitsOf(t.sender), QueueCap(t.sender), t);
      }
      forall a | a in accounts && a !in locals ensures |Acct(a).queue| <= config.accountQueue {
        WithinCap(old(Acct(a)), LimitsOf(a), config.accountQueue);
      }
    }

    /** demoteUnexecutables over all accounts. */
    method DemoteUnexecutables()
      requires Coherent()
      modifies this`pending, this`queue, this`all, this`beats, priced
      ensures Coherent() && all <= old(all)
      ensures forall a :: Acct(a) == Demote(old(Acct(a)), LimitsOf(a))
      ensures forall t :: t in all <==>
        && t in old(all)
        && (|| Has(old(Acct(t.sender)).queue, t)
            || (t.nonce >= Lookup(stateNonces, t.sender) && t.cost <= Lookup(balances, t.sender) && t.gas <= maxGas))
    {
      hide InStep, Demote, AcctOf, Sound;
      SoundAccounts(pending, queue, all, nonces, stateNonces);
      var todo := pending.Keys;
      forall a | a !in pending ensures Acct(a) == Demote(Acct(a), LimitsOf(a)) {
        DemoteNothing(pending, queue, nonces, stateNonces, a, LimitsOf(a));
      }
      while todo != {}
        invariant todo <= old(pending).Keys && Coherent() && all <= old(all)
        invariant forall a :: Acct(a) == if a in todo then old(Acct(a)) else Demote(old(Acct(a)), LimitsOf(a))
      {
        var a :| a in todo;
        DemoteAccount(a);
        todo := todo - {a};
      }
      forall t
        ensures t in all <==>
          && t in old(all)
          && (|| Has(old(Acct(t.sender)).queue, t)
              || (t.nonce >= Lookup(stateNonces, t.sender) && t.cost <= Lookup(balances, t.sender) && t.gas <= maxGas))
      {
        HeldIndexed(old(pending), old(queue), old(all), old(nonces), stateNonces, t);
        HeldIndexed(pending, queue, all, nonces, stateNonces, t);
        DemoteExactly(t.sender, old(Acct(t.sender)), LimitsOf(t.sender));
      }
    }

    /** The last step of runReorg: virtual nonces follow the pending lists. */
    method RefreshNonces()
      requires Coherent()
      modifies this`nonces
      ensures forall a :: Acct(a) == Refresh(old(Acct(a)))
    {
      hide InStep, Refresh, AcctOf, Greatest, ItemsOf, NonEmpty;
      var todo := pending.Keys;
      NonEmptyLists(pending, queue, all);
      forall a | a !in pending ensures Acct(a) == Refresh(Acct(a)) {
        RefreshNothing(pending, queue, nonces, stateNonces, a);
      }
      while todo != {}
        invariant todo <= pending.Keys
        invariant forall a :: Acct(a) == if a in todo then old(Acct(a)) else Refresh(old(Acct(a)))
      {
        var a :| a in todo;
        RefreshOne(pending, queue, nonces, stateNonces, a);
        nonces := nonces[a := Greatest(ItemsOf(pending, a)) + 1];
        todo := todo - {a};
      }
    }

    /** addTxsLocked; `checks` stands for the checks made outside the pool state.
        Until the pool is full, every account gets its transactions, in order, and
        nothing else changes. */
    method AddAll(txs: seq<Tx>, local: bool, checks: Tx -> bool)
      requires Valid()
      modifies this`pending, this`queue, this`all, this`nonces, this`beats, this`locals, priced
      ensures Valid() && OfferedAll(config, old(Now()), txs, local, checks, Now())
      ensures !local ==> locals == old(locals)
      ensures forall t :: t in all ==> t in old(all) || t in txs
      ensures forall a :: Cut(old(Acct(a)), Acct(a))
      ensures old(Room(|txs|)) ==> forall a ::
        Acct(a) == PlaceAll(old(Acct(a)), txs, a, config.priceBump, old(TermsOf(local, checks)))
      ensures forall a :: old(Fine(a)) ==> Fine(a)
    {
      hide InStep, Cut, AcctOf, Executable, PlaceIn, Admits, Offered, OfferedAll, Moment.Packed;
      forall a ensures Cut(Acct(a), Acct(a)) {
        CutReflexive(Acct(a));
      }
      OfferedNone(config, Now(), local, checks);
      for i := 0 to |txs|
        invariant Valid() && (!local ==> locals == old(locals)) && |all| <= |old(all)| + i
        invariant OfferedAll(config, old(Now()), txs[..i], local, checks, Now())
        invariant forall t :: t in all ==> t in old(all) || t in txs[..i]
        invariant forall a :: Cut(old(Acct(a)), Acct(a))
        invariant old(Room(|txs|)) ==> forall a ::
          Acct(a) == PlaceAll(old(Acct(a)), txs[..i], a, config.priceBump, old(TermsOf(local, checks)))
      {
        assert txs[..i + 1][..i] == txs[..i] && txs[..i + 1] == txs[..i] + [txs[i]];
        SameTerms(old(TermsOf(local, checks)), TermsOf(local, checks), txs[i]);
        ghost var m := Now();
        ghost var r, drop := AddOne(txs[i], local, checks);
        OfferedMore(config, old(Now()), txs[..i], local, checks, m, txs[i], r, drop, Now());
      }
      assert txs[..|txs|] == txs;
      forall a | old(Fine(a)) ensures Fine(a) {
        CutKeepsExecutable(old(Acct(a)), Acct(a), Lookup(stateNonces, a));
      }
    }

    /** Add, continuing an earlier cut. */
    method AddOne(tx: Tx, local: bool, checks: Tx -> bool) returns (ghost r: AddResult, ghost drop: seq<Tx>)
      requires Valid()
      modifies this`pending, this`queue, this`all, this`nonces, this`beats, this`locals, priced
      ensures Offered(config, old(Now()), tx, local, checks, r, drop, Now())
      ensures Valid() && all <= old(all) + {tx} && |all| <= |old(all)| + 1 && (!local ==> locals == old(locals))
      ensures old(Room(1)) ==> forall a ::
        Acct(a)
        == if a == tx.sender && Admits(old(TermsOf(local, checks)), tx) then PlaceIn(old(Acct(a)), tx, config.priceBump)
           else old(Acct(a))
      ensures forall x, a :: Cut(x, old(Acct(a))) ==> Cut(x, Acct(a))
    {
      hide InStep, Cut, AcctOf, PlaceIn, Admits, Slot, Accepts, Settlement, Purge, Moment.Packed;
      r, drop := Add(tx, local, checks);
      forall x, a | Cut(x, old(Acct(a))) ensures Cut(x, Acct(a)) {
        CutTransitive(x, old(Acct(a)), Acct(a));
      }
    }

    /** Turns the pool to the state of a new head and reinjects the transactions
        that fell out of the chain. `state` is empty if the state is missing. */
    method Reset(state: Option<HeadState>, reinject: seq<Tx>, checks: Tx -> bool)
      requires Valid()
      modifies this`pending, this`queue, this`all, this`nonces, this`beats, this`locals, this`stateNonces,
        this`balances, this`maxGas, priced
      ensures Valid() && Turned(config, old(Now()), state, reinject, checks, Now())
    {
      hide InStep, Cut, AcctOf, OfferedAll, PlaceAll, Moment.Packed;
      if state.None? {
        return;
      }
      stateNonces, balances, maxGas := state.value.0, state.value.1, state.value.2;
      nonces := map[];
      assert Now() == AtHead(old(Now()), state.value);
      StaysPacked(config, old(Now()), Now());
      forall a ensures Acct(a) == Rewound(old(Now()), a, Lookup(stateNonces, a)) {
        NoncesForgotten(pending, queue, old(nonces), old(stateNonces), stateNonces, a);
      }
      AddAll(reinject, false, checks);
    }

    /** The classification part of runReorg. */
    method Reclassify(reset: bool, dirty: set<Address>, now: nat)
      requires Coherent()
      modifies this`pending, this`queue, this`all, this`nonces, this`beats, priced
      ensures Coherent() && all <= old(all)
      ensures reset ==> forall a :: Acct(a) == Demote(Promote(old(Acct(a)), LimitsOf(a), QueueCap(a)), LimitsOf(a))
      ensures !reset ==>
        forall a :: Acct(a) == if a in dirty then Promote(old(Acct(a)), LimitsOf(a), QueueCap(a)) else old(Acct(a))
      ensures reset ==> forall t :: t in all ==>
        t.nonce >= Lookup(stateNonces, t.sender) && t.cost <= Lookup(balances, t.sender) && t.gas <= maxGas
      ensures forall t :: t in old(all) && t.sender in locals ==>
        (t.nonce >= Lookup(stateNonces, t.sender) && t.cost <= Lookup(balances, t.sender) && t.gas <= maxGas ==>
          t in all)
    {
      hide InStep, Promote, Demote, AcctOf, Sound, Holds;
      if reset {
        forall a | a !in queue ensures Promote(Acct(a), LimitsOf(a), QueueCap(a)) == Acct(a) {
          PromoteNothing(pending, queue, nonces, stateNonces, a, LimitsOf(a), QueueCap(a));
        }
        SoundAccounts(pending, queue, all, nonces, stateNonces);
        PromoteExecutables(queue.Keys, now);
        SoundAccounts(pending, queue, all, nonces, stateNonces);
        assert forall a :: Acct(a) == Promote(old(Acct(a)), LimitsOf(a), QueueCap(a)) && Sound(a, Acct(a));
        DemoteUnexecutables();
        forall t | t in old(all)
          ensures t in all ==>
            t.nonce >= Lookup(stateNonces, t.sender) && t.cost <= Lookup(balances, t.sender) && t.gas <= maxGas
          ensures t.sender in locals ==>
            (t.nonce >= Lookup(stateNonces, t.sender) && t.cost <= Lookup(balances, t.sender) && t.gas <= maxGas ==>
              t in all)
        {
          HeldIndexed(old(pending), old(queue), old(all), old(nonces), stateNonces, t);
          HeldIndexed(pending, queue, all, nonces, stateNonces, t);
          HeadChangeHolds(t.sender, old(Acct(t.sender)), LimitsOf(t.sender), QueueCap(t.sender));
        }
      } else {
        PromoteExecutables(dirty, now);
      }
    }

    /** Both truncations; `mid` is the pool between them. */
    method Truncate() returns (ghost mid: Moment)
      requires Coherent()
      modifies this`pending, this`queue, this`all, this`nonces, this`beats, priced
      ensures Coherent() && all <= old(all) && Limited()
      ensures forall a ::
        Cut(old(Acct(a)), mid.Acct(a)) && (mid.Acct(a).pending.Keys == {} ==> old(Acct(a)).pending.Keys == {})
      ensures forall a :: a in locals || Len(pending, a) < config.accountSlots ==>
        |mid.Acct(a).pending| == |old(Acct(a)).pending|
      ensures forall a :: Acct(a).pending == mid.Acct(a).pending && Acct(a).next == mid.Acct(a).next
      ensures CutToSlots(old(pending), pending, locals, config.accountSlots, config.globalSlots)
      ensures CutToQueue(old(queue), queue, locals, old(beats), config.globalQueue)
      ensures forall a :: a in locals ==>
        ItemsOf(pending, a) == ItemsOf(old(pending), a) && ItemsOf(queue, a) == ItemsOf(old(queue), a)
    {
      hide InStep, Cut, Total, CutBy, Shed, Leveled;
      ghost var level := TruncatePending();
      mid := Now();
      forall a ensures ItemsOf(pending, a).Keys == {} ==> ItemsOf(old(pending), a).Keys == {} {
        assert Len(pending, a) >= Min(Len(old(pending), a), 1);
      }
      label cut:
      TruncateQueue();
      ShedLocals(old@cut(queue), queue, locals, old@cut(beats));
    }

    /** The size-limiting part of runReorg. */
    method Trim()
      requires Coherent()
      modifies this`pending, this`queue, this`all, this`nonces, this`beats, priced
      ensures Coherent() && all <= old(all)
      ensures forall a :: Trimmed(old(Acct(a)), Acct(a))
      ensures forall a :: a in locals || Len(pending, a) < config.accountSlots ==> Refreshed(old(Acct(a)), Acct(a))
      ensures Limited() && forall t :: t in old(all) && t.sender in locals ==> t in all
      ensures CutToSize(config, old(Now()), Now())
    {
      hide InStep, Cut, Total, Refresh, Trimmed, Refreshed, CutToSlots, CutToQueue, Len, ItemsOf, NextOf, AcctOf;
      ghost var mid := Truncate();
      label trimmed:
      RefreshNonces();
      forall a ensures Trimmed(old(Acct(a)), Acct(a)) {
        TrimOne(old(Acct(a)), mid.Acct(a), old@trimmed(Acct(a)), Acct(a));
      }
      forall a | a in locals || Len(pending, a) < config.accountSlots ensures Refreshed(old(Acct(a)), Acct(a)) {
        FullCut(old(Acct(a)), mid.Acct(a));
        RefreshedBy(old(Acct(a)), mid.Acct(a), old@trimmed(Acct(a)), Acct(a));
      }
      LocalsKept(old(Now()), Now());
      assert forall a :: old(Now()).Acct(a) == old(Acct(a)) && Now().Acct(a) == Acct(a);
    }

    /** runReorg without a head change: new transactions of `dirty` accounts are
        promoted, and every account in order stays so. */
    method Settle(dirty: set<Address>, now: nat) returns (ghost mid: Moment)
      requires Valid()
      modifies this`pending, this`queue, this`all, this`nonces, this`beats, priced
      ensures Valid() && all <= old(all) && Limited()
      ensures Promoted(config, old(Now()), dirty, mid) && CutToSize(config, mid, Now())
      ensures forall a ::
        Trimmed(if a in dirty then Promote(old(Acct(a)), LimitsOf(a), QueueCap(a)) else old(Acct(a)), Acct(a))
      ensures forall a :: a in locals || Len(pending, a) < config.accountSlots ==>
        Refreshed(if a in dirty then Promote(old(Acct(a)), LimitsOf(a), QueueCap(a)) else old(Acct(a)), Acct(a))
      ensures forall t :: t in old(all) && t.sender in locals ==>
        (t.nonce >= Lookup(stateNonces, t.sender) && t.cost <= Lookup(balances, t.sender) && t.gas <= maxGas ==>
          t in all)
      ensures forall a :: old(Fine(a)) ==> Fine(a)
    {
      hide InStep, Executable, Trimmed, Refreshed, Promote, Total, Sound, Limited, Moment.Packed, AcctOf, Len;
      SoundAccounts(pending, queue, all, nonces, stateNonces);
      Reclassify(false, dirty, now);
      mid := Now();
      Trim();
      StaysPacked(config, old(Now()), Now());
      forall a | old(Fine(a)) ensures Fine(a) {
        QuietReorgInOrder(a, old(Acct(a)), LimitsOf(a), QueueCap(a), Acct(a));
      }
    }

    /** runReorg after a head change. With `mid` the pool once it has turned to the
        new head, every account that is settled there ends up in order; of the local
        accounts and those below their guaranteed slots, no other does. */
    method TurnToHead(state: Option<HeadState>, reinject: seq<Tx>, checks: Tx -> bool, now: nat)
      returns (ghost mid: Moment)
      requires Valid()
      modifies this`pending, this`queue, this`all, this`nonces, this`beats, this`locals, this`stateNonces,
        this`balances, this`maxGas, priced
      ensures Valid() && Turned(config, old(Now()), state, reinject, checks, mid) && Reordered(config, mid, Now())
    {
      hide InStep, Executable, Trimmed, Refreshed, Promote, Demote, Total, Settles, Turned, AcctOf, Moment.Packed;
      Reset(state, reinject, checks);
      mid := Now();
      label turned:
      ghost var sorted := Reorder(now);
      StaysPacked(config, mid, Now());
      assert forall a :: mid.Acct(a) == old@turned(Acct(a)) && Now().Acct(a) == Acct(a);
      forall a | mid.Settled(a) ensures Now().Fine(a) {
        ReorgInOrder(mid.Acct(a), LimitsOf(a), QueueCap(a), Acct(a));
      }
      forall a | a in locals || Len(pending, a) < config.accountSlots ensures Now().Fine(a) <==> mid.Settled(a) {
        ReorgExactly(mid.Acct(a), LimitsOf(a), QueueCap(a), Acct(a));
      }
    }

    /** Promotes and demotes all accounts, then trims them. */
    method Reorder(now: nat) returns (ghost mid: Moment)
      requires Coherent()
      modifies this`pending, this`queue, this`all, this`nonces, this`beats, priced
      ensures Coherent() && all <= old(all) && Limited()
      ensures Reclassified(config, old(Now()), mid) && CutToSize(config, mid, Now())
      ensures forall a ::
        Trimmed(Demote(Promote(old(Acct(a)), LimitsOf(a), QueueCap(a)), LimitsOf(a)), Acct(a))
      ensures forall a :: a in locals || Len(pending, a) < config.accountSlots ==>
        Refreshed(Demote(Promote(old(Acct(a)), LimitsOf(a), QueueCap(a)), LimitsOf(a)), Acct(a))
      ensures forall t :: t in all ==>
        t.nonce >= Lookup(stateNonces, t.sender) && t.cost <= Lookup(balances, t.sender) && t.gas <= maxGas
      ensures forall t :: t in old(all) && t.sender in locals ==>
        (t.nonce >= Lookup(stateNonces, t.sender) && t.cost <= Lookup(balances, t.sender) && t.gas <= maxGas ==>
          t in all)
    {
      hide InStep, Trimmed, Refreshed, Promote, Demote, Total, AcctOf, Limited, Len;
      Reclassify(true, {}, now);
      mid := Now();
      assert forall a :: old(Now()).Acct(a) == old(Acct(a)) && mid.Acct(a) == Acct(a);
      Trim();
    }

    /** Raises or lowers the price threshold; what is now too cheap and not local
        leaves the pool. */
    method SetGasPrice(price: nat)
      requires Valid()
      modifies this`pending, this`queue, this`all, this`nonces, this`beats, this`gasPrice, priced
      ensures Valid() && gasPrice == price
      ensures all == set t | t in old(all) && (t.price >= price || t.sender in locals)
      ensures forall a :: Cut(old(Acct(a)), Acct(a)) && (old(Fine(a)) ==> Fine(a))
    {
      hide InStep, Cut, Executable, RemoveAll, Moment.Packed;
      gasPrice := price;
      var drop := priced.Cap(price, all, locals);
      RemoveDropped(drop);
      StaysPacked(config, old(Now()), Now());
      forall a | old(Fine(a)) ensures Fine(a) {
        CutKeepsExecutable(old(Acct(a)), Acct(a), Lookup(stateNonces, a));
      }
    }

    /** The eviction tick: queues of accounts that are not local and have been
        silent for longer than `lifetime` go, and nothing else does. */
    method Evict(now: nat, lifetime: nat)
      requires Valid()
      modifies this`pending, this`queue, this`all, this`nonces, this`beats, priced
      ensures Valid() && pending == old(pending)
      ensures forall a ::
        ItemsOf(queue, a)
          == if a !in locals && now - Lookup(old(beats), a) > lifetime then map[] else ItemsOf(old(queue), a)
      ensures forall a :: Acct(a).next == old(Acct(a)).next && (old(Fine(a)) ==> Fine(a))
    {
      hide InStep, SetItems, ItemsOf, NextOf, Executable, Moment.Packed;
      var todo := queue.Keys;
      NotListed(queue);
      while todo != {}
        invariant Coherent() && all <= old(all) && todo <= old(queue).Keys && pending == old(pending)
        invariant beats == old(beats)
        invariant forall a :: NextOf(nonces, stateNonces, a) == NextOf(old(nonces), stateNonces, a)
        invariant forall a ::
          ItemsOf(queue, a)
          == if a !in todo && a !in locals && now - Lookup(beats, a) > lifetime then map[] else ItemsOf(old(queue), a)
        decreases todo
      {
        var a :| a in todo;
        if a !in locals && now - Lookup(beats, a) > lifetime {
          EmptyQueue(a);
        }
        todo := todo - {a};
      }
      StaysPacked(config, old(Now()), Now());
      forall a | old(Fine(a)) ensures Fine(a) {
        SamePending(old(Acct(a)), Acct(a));
        CutKeepsExecutable(old(Acct(a)), Acct(a), Lookup(stateNonces, a));
      }
    }

    /** Any run of pool operations keeps lists, index and price heap in step. An
        account in order stays so if every change of head on the way finds it settled,
        and without that condition if the run is calm for it. */
    method Run(ops: seq<Operation>) returns (ghost trace: seq<Moment>, ghost turned: seq<Moment>)
      requires Valid()
      modifies this, priced
      ensures Valid()
      ensures Recorded(config, ops, trace, turned) && trace[0] == old(Now()) && trace[|ops|] == Now()
      ensures forall a ::
        old(Fine(a)) && (forall i :: 0 <= i < |ops| && ops[i].NewHead? ==> turned[i].Settled(a)) ==> Fine(a)
      ensures forall a :: old(Fine(a)) && CalmFor(ops, old(stateNonces), a) ==> Fine(a)
    {
      hide InStep, Executable, AcctOf, CalmFor, Moved, Moment.Settled, Moment.Packed;
      trace, turned := [Now()], [];
      for i := 0 to |ops|
        invariant Valid()
        invariant |trace| == i + 1 && |turned| == i && trace[0] == old(Now()) && trace[i] == Now()
        invariant forall k :: 0 <= k <= i ==> trace[k].Packed(config)
        invariant forall k :: 0 <= k < i ==> Moved(config, ops[k], trace[k], turned[k], trace[k + 1])
      {
        ghost var mid := Step(ops[i]);
        trace, turned := trace + [Now()], turned + [mid];
      }
      forall a | old(Fine(a)) && (forall i :: 0 <= i < |ops| && ops[i].NewHead? ==> turned[i].Settled(a))
        ensures Fine(a)
      {
        StaysFine(config, ops, trace, turned, a, 0, |ops|);
      }
      forall a | old(Fine(a)) && CalmFor(ops, old(stateNonces), a) ensures Fine(a) {
        CalmStaysFine(config, ops, trace, turned, a);
      }
    }

    /** Settle, as a step between moments. */
    method SettleStep(dirty: set<Address>, now: nat, ghost mid: Moment)
      requires Valid()
      modifies this, priced
      ensures Valid() && Moved(config, Reorganise(dirty, now), old(Now()), mid, Now())
    {
      hide InStep, Executable, AcctOf, Total, ItemsOf, Trimmed, Refreshed, Promote, Moment.Packed;
      ghost var promoted := Settle(dirty, now);
      assert forall a :: old(Now()).Acct(a) == old(Acct(a)) && Now().Acct(a) == Acct(a);
      assert forall a :: old(Now()).Fine(a) == old(Fine(a)) && Now().Fine(a) == Fine(a);
    }

    /** One operation. */
    method Step(op: Operation) returns (ghost mid: Moment)
      requires Valid()
      modifies this, priced
      ensures Valid() && Moved(config, op, old(Now()), mid, Now())
    {
      hide InStep, Executable, AcctOf, Cut, Total, Turned, Reordered, PlaceAll, ItemsOf, OfferedAll, Moment.Packed;
      mid := Now();
      match op {
        case Submit(txs, local, checks) =>
          AddAll(txs, local, checks);
          assert forall a :: old(Now()).Acct(a) == old(Acct(a)) && Now().Acct(a) == Acct(a);
        case Reorganise(dirty, now) =>
          SettleStep(dirty, now, mid);
        case NewHead(state, reinject, checks, now) =>
          mid := TurnToHead(state, reinject, checks, now);
        case SetPrice(price) =>
          SetGasPrice(price);
          assert forall a :: old(Now()).Acct(a) == old(Acct(a)) && Now().Acct(a) == Acct(a);
        case EvictionTick(now, lifetime) =>
          Evict(now, lifetime);
          assert forall a :: old(Now()).Acct(a) == old(Acct(a)) && Now().Acct(a) == Acct(a);
      }
    }
  }
}
