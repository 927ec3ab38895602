/** The lists and the hash index of the pool as values: what it means for them to
    be in step, and that replacing the lists of one account keeps them so. */
module PoolIndex {
  import opened Basics
  import opened Transactions
  import opened TxSortedMaps
  import opened TxLists
  import opened PoolAccounts

  /** The list of account `a`, empty if there is none. */
  function ItemsOf(m: map<Address, Items>, a: Address): Items {
    if a in m then m[a] else map[]
  }

  /** Stores a list, deleting the entry of an empty one. */
  function SetItems(m: map<Address, Items>, a: Address, items: Items): (r: map<Address, Items>)
    ensures forall b :: ItemsOf(r, b) == if b == a then items else ItemsOf(m, b)
  {
    if items.Keys == {} then
      assert items == map[];
      m - {a}
    else m[a := items]
  }

  function Lookup(m: map<Address, nat>, a: Address): nat {
    if a in m then m[a] else 0
  }

  /** txNoncer.get: the virtual nonce, falling back to the state nonce. */
  function NextOf(nonces: map<Address, nat>, state: map<Address, nat>, a: Address): nat {
    if a in nonces then nonces[a] else Lookup(state, a)
  }

  function AcctOf(pending: map<Address, Items>, queue: map<Address, Items>, nonces: map<Address, nat>,
                  state: map<Address, nat>, a: Address): Account {
    Account(ItemsOf(pending, a), ItemsOf(queue, a), NextOf(nonces, state, a))
  }

  /** Storing new lists and a new virtual nonce for `a` changes no other account. */
  lemma OnlyAccount(pending: map<Address, Items>, queue: map<Address, Items>, nonces: map<Address, nat>,
                    state: map<Address, nat>, a: Address, r: Account, nonces': map<Address, nat>)
    requires nonces' == nonces[a := r.next] || (nonces' == nonces && r.next == NextOf(nonces, state, a))
    ensures forall b ::
      AcctOf(SetItems(pending, a, r.pending), SetItems(queue, a, r.queue), nonces', state, b)
      == if b == a then r else AcctOf(pending, queue, nonces, state, b)
  {
  }

  lemma UpdateTwice(m: map<Address, nat>, a: Address, x: nat, y: nat)
    ensures m[a := x][a := y] == m[a := y]
  {
  }

  ghost predicate NonEmpty(m: map<Address, Items>) {
    forall a :: a in m ==> m[a].Keys != {}
  }

  ghost predicate SoundLists(a: Address, pending: Items, queue: Items) {
    Sound(a, Account(pending, queue, 0))
  }

  predicate Listed(pending: map<Address, Items>, queue: map<Address, Items>, t: Tx) {
    Has(ItemsOf(pending, t.sender), t) || Has(ItemsOf(queue, t.sender), t)
  }

  /** The hash index holds exactly the listed transactions, no nonce of an account
      is in both of its lists, and there are no empty lists. */
  ghost predicate InStep(pending: map<Address, Items>, queue: map<Address, Items>, all: set<Tx>) {
    && NonEmpty(pending) && NonEmpty(queue)
    && (forall a :: SoundLists(a, ItemsOf(pending, a), ItemsOf(queue, a)))
    && (forall t :: t in all <==> Listed(pending, queue, t))
  }

  lemma ReplaceAccount(pending: map<Address, Items>, queue: map<Address, Items>, all: set<Tx>,
                       a: Address, p: Items, q: Items, all': set<Tx>)
    requires InStep(pending, queue, all)
    requires SoundLists(a, p, q)
    requires forall t: Tx :: t.sender != a ==> (t in all' <==> t in all)
    requires forall t: Tx :: t.sender == a ==> (t in all' <==> Has(p, t) || Has(q, t))
    ensures InStep(SetItems(pending, a, p), SetItems(queue, a, q), all')
  {
    var pending', queue' := SetItems(pending, a, p), SetItems(queue, a, q);
    forall t ensures t in all' <==> Listed(pending', queue', t) {
      if t.sender != a {
        assert Listed(pending', queue', t) <==> Listed(pending, queue, t);
      }
    }
    forall b ensures SoundLists(b, ItemsOf(pending', b), ItemsOf(queue', b)) {
      if b != a {
        assert SoundLists(b, ItemsOf(pending, b), ItemsOf(queue, b));
      }
    }
  }

  lemma {:induction false} ValuesCount(m: Items)
    requires Keyed(m)
    ensures |Values(m)| == |m|
  {
    if m.Keys != {} {
      var n :| n in m.Keys;
      ValuesCount(m - {n});
      assert Values(m) == Values(m - {n}) + {m[n]};
      assert m[n] !in Values(m - {n});
      assert |m - {n}| == |m| - 1 by { assert (m - {n}).Keys == m.Keys - {n}; }
    } else {
      assert m == map[] && Values(m) == {};
    }
  }

  /** The queue with `tx` in its place. */
  function Enqueued(queue: map<Address, Items>, tx: Tx): map<Address, Items> {
    queue[tx.sender := ItemsOf(queue, tx.sender)[tx.nonce := tx]]
  }

  /** The queued transaction that `tx` would replace. */
  function Displaced(queue: map<Address, Items>, tx: Tx): set<Tx> {
    if tx.nonce in ItemsOf(queue, tx.sender) then {ItemsOf(queue, tx.sender)[tx.nonce]} else {}
  }

  /** A transaction that is new or floating takes its place in the queue. */
  lemma EnqueueKeepsStep(pending: map<Address, Items>, queue: map<Address, Items>, all: set<Tx>, tx: Tx)
    requires InStep(pending, queue, all) && tx !in all
    requires tx.nonce !in ItemsOf(pending, tx.sender)
    ensures InStep(pending, Enqueued(queue, tx), all + {tx} - Displaced(queue, tx))
    ensures Displaced(queue, tx) <= all - {tx}
  {
    var a := tx.sender;
    var p, q := ItemsOf(pending, a), ItemsOf(queue, a);
    assert SoundLists(a, p, q);
    forall t: Tx | t.sender == a ensures t in all <==> Has(p, t) || Has(q, t) {
      assert t in all <==> Listed(pending, queue, t);
    }
    EnqueuedAccount(a, p, q, all, tx);
    ReplaceAccount(pending, queue, all, a, p, q[tx.nonce := tx], all + {tx} - Displaced(queue, tx));
    assert SetItems(pending, a, p) == pending;
    assert tx.nonce in q[tx.nonce := tx].Keys;
  }

  lemma DisplacedSender(pending: map<Address, Items>, queue: map<Address, Items>, all: set<Tx>, tx: Tx)
    requires InStep(pending, queue, all)
    ensures forall d :: d in Displaced(queue, tx) ==> d.sender == tx.sender
  {
  }

  lemma PresentSender(pending: map<Address, Items>, queue: map<Address, Items>, all: set<Tx>, tx: Tx)
    requires InStep(pending, queue, all) && tx.nonce in ItemsOf(pending, tx.sender)
    ensures ItemsOf(pending, tx.sender)[tx.nonce].sender == tx.sender
  {
  }

  lemma EnqueuedAccount(a: Address, p: Items, q: Items, all: set<Tx>, tx: Tx)
    requires SoundLists(a, p, q) && tx.sender == a && tx.nonce !in p && tx !in all
    requires forall t: Tx :: t.sender == a ==> (t in all <==> Has(p, t) || Has(q, t))
    ensures SoundLists(a, p, q[tx.nonce := tx])
    ensures forall t: Tx :: t.sender == a ==>
      (t in all + {tx} - (if tx.nonce in q then {q[tx.nonce]} else {}) <==> Has(p, t) || Has(q[tx.nonce := tx], t))
  {
  }

  lemma AccountInStep(pending: map<Address, Items>, queue: map<Address, Items>, all: set<Tx>, a: Address)
    requires InStep(pending, queue, all)
    ensures NonEmpty(pending) && NonEmpty(queue)
    ensures SoundLists(a, ItemsOf(pending, a), ItemsOf(queue, a))
    ensures Keyed(ItemsOf(pending, a)) && Keyed(ItemsOf(queue, a))
    ensures forall t: Tx :: t.sender == a ==> (t in all <==> Has(ItemsOf(pending, a), t) || Has(ItemsOf(queue, a), t))
    ensures forall n :: n in ItemsOf(pending, a) ==> ItemsOf(pending, a)[n] in all
    ensures forall n :: n in ItemsOf(queue, a) ==> ItemsOf(queue, a)[n] in all
    ensures SetItems(pending, a, ItemsOf(pending, a)) == pending
    ensures SetItems(queue, a, ItemsOf(queue, a)) == queue
  {
  }

  lemma HoldsIs(x: Account, y: Account)
    ensures forall t: Tx :: Holds(x, t) <==> Has(x.pending, t) || Has(x.queue, t)
    ensures forall t: Tx :: Holds(y, t) <==> Has(y.pending, t) || Has(y.queue, t)
  {
  }

  /** removeTx deletes exactly the named transaction from lists and index. */
  lemma RemoveKeepsStep(pending: map<Address, Items>, queue: map<Address, Items>, all: set<Tx>, tx: Tx, r: Account,
                        nonces: map<Address, nat>, state: map<Address, nat>)
    requires InStep(pending, queue, all) && tx in all
    requires r == Remove(AcctOf(pending, queue, nonces, state, tx.sender), tx.nonce)
    ensures InStep(SetItems(pending, tx.sender, r.pending), SetItems(queue, tx.sender, r.queue), all - {tx})
    ensures Uncuttable(pending, queue, all - {tx}, tx.sender, tx.nonce)
  {
    hide InStep, Remove, SetItems, Holds;
    var a := tx.sender;
    AccountInStep(pending, queue, all, a);
    var acc := AcctOf(pending, queue, nonces, state, a);
    HoldsIs(acc, Remove(acc, tx.nonce));
    RemoveExactly(a, acc, tx);
    forall t: Tx | t.sender == a ensures t in all - {tx} <==> Has(r.pending, t) || Has(r.queue, t) {
      assert Holds(Remove(acc, tx.nonce), t) <==> Holds(acc, t) && t != tx;
    }
    ReplaceAccount(pending, queue, all, a, r.pending, r.queue, all - {tx});
  }

  /** The lists of `a` are sound, and everything pending besides `nonce` is
      indexed. */
  ghost predicate Uncuttable(pending: map<Address, Items>, queue: map<Address, Items>, all: set<Tx>, a: Address,
                             nonce: nat)
  {
    && NonEmpty(pending) && NonEmpty(queue)
    && SoundLists(a, ItemsOf(pending, a), ItemsOf(queue, a))
    && forall n :: n in ItemsOf(pending, a) && n != nonce ==> ItemsOf(pending, a)[n] in all
  }

  lemma SameItems(m: map<Address, Items>, a: Address)
    requires NonEmpty(m)
    ensures SetItems(m, a, ItemsOf(m, a)) == m
  {
  }

  lemma ReplaceKeepsStep(pending: map<Address, Items>, queue: map<Address, Items>, all: set<Tx>, tx: Tx)
    requires InStep(pending, queue, all) && tx !in all && tx.nonce in ItemsOf(pending, tx.sender)
    ensures
      var list := ItemsOf(pending, tx.sender);
      && list[tx.nonce] in all
      && InStep(SetItems(pending, tx.sender, list[tx.nonce := tx]), queue, all + {tx} - {list[tx.nonce]})
  {
    hide InStep;
    var a := tx.sender;
    AccountInStep(pending, queue, all, a);
    var p, q := ItemsOf(pending, a), ItemsOf(queue, a);
    ReplaceAccount(pending, queue, all, a, p[tx.nonce := tx], q, all + {tx} - {p[tx.nonce]});
  }

  /** A run of indexed transactions of `a` with consecutive nonces, none of them
      pending. */
  ghost predicate Promotable(pending: map<Address, Items>, all: set<Tx>, a: Address, run: Items, start: nat, end: nat) {
    && NonEmpty(pending) && start <= end && (forall n :: n in run <==> start <= n < end)
    && (forall n :: n in run ==> run[n].nonce == n && run[n].sender == a && run[n] in all && n !in ItemsOf(pending, a))
  }

  /** The pending lists once the part of `run` below `n` has been promoted. */
  function PartlyPromoted(pending: map<Address, Items>, a: Address, run: Items, n: nat): map<Address, Items> {
    SetItems(pending, a, ItemsOf(pending, a) + Below(run, n))
  }

  lemma PartlyPromotedEnds(pending: map<Address, Items>, all: set<Tx>, a: Address, run: Items, start: nat, end: nat)
    requires Promotable(pending, all, a, run, start, end)
    ensures start <= end
    ensures PartlyPromoted(pending, a, run, start) == pending
    ensures PartlyPromoted(pending, a, run, end) == SetItems(pending, a, ItemsOf(pending, a) + run)
  {
    assert Below(run, start) == map[] && Below(run, end) == run;
    assert ItemsOf(pending, a) + map[] == ItemsOf(pending, a);
  }

  lemma PartlyPromotedStep(pending: map<Address, Items>, all: set<Tx>, a: Address, run: Items, start: nat, end: nat,
                           n: nat)
    requires start <= n < end && Promotable(pending, all, a, run, start, end)
    ensures n in run && run[n].sender == a && run[n].nonce == n && run[n] in all
    ensures n !in ItemsOf(PartlyPromoted(pending, a, run, n), a)
    ensures Enqueued(PartlyPromoted(pending, a, run, n), run[n]) == PartlyPromoted(pending, a, run, n + 1)
  {
    assert Below(run, n + 1) == Below(run, n)[n := run[n]];
    MergeOne(pending, a, ItemsOf(pending, a), Below(run, n), n, run[n]);
  }

  /* ---------- promoting one account ---------- */

  /** Which queued transactions of an account go where when it is promoted. */
  datatype Plan = Plan(tooOld: Items, tooDear: Items, run: Items, start: nat, end: nat, kept: Items, excess: Items)

  function PlanOf(queue: Items, w: Limits, next: nat, cap: Option<nat>): Plan {
    var current := AtLeast(queue, w.nonce);
    var payable := Affordable(current, w.balance, w.maxGas);
    var run := Run(payable, next);
    var rest := payable - run.Keys;
    var kept := if cap.Some? then Lowest(rest, cap.value) else rest;
    var start := if run.Keys == {} then 0 else Least(payable.Keys);
    var end := if run.Keys == {} then 0 else RunEnd(payable, start);
    Plan(Below(queue, w.nonce), Expensive(current, w.balance, w.maxGas), run, start, end, kept, rest - kept.Keys)
  }

  /** Each queued transaction is in exactly one part of the plan. */
  ghost predicate Splits(p: Plan, queue: Items) {
    && (forall n :: n in p.tooOld ==>
         n in queue && p.tooOld[n] == queue[n] && n !in p.tooDear && n !in p.run && n !in p.kept && n !in p.excess)
    && (forall n :: n in p.tooDear ==>
         n in queue && p.tooDear[n] == queue[n] && n !in p.run && n !in p.kept && n !in p.excess)
    && (forall n :: n in p.run ==> n in queue && p.run[n] == queue[n] && n !in p.kept && n !in p.excess)
    && (forall n :: n in p.kept ==> n in queue && p.kept[n] == queue[n] && n !in p.excess)
    && (forall n :: n in p.excess ==> n in queue && p.excess[n] == queue[n])
    && (forall n :: n in queue ==> n in p.tooOld || n in p.tooDear || n in p.run || n in p.kept || n in p.excess)
  }

  lemma PlanRun(queue: Items, w: Limits, next: nat, cap: Option<nat>, p: Plan)
    requires p == PlanOf(queue, w, next, cap)
    ensures p.start <= p.end && (forall n :: n in p.run <==> p.start <= n < p.end)
  {
  }

  lemma PlanSplits(queue: Items, w: Limits, next: nat, cap: Option<nat>)
    ensures Splits(PlanOf(queue, w, next, cap), queue)
  {
    var current := AtLeast(queue, w.nonce);
    var payable := Affordable(current, w.balance, w.maxGas);
    var rest := payable - Run(payable, next).Keys;
    if cap.Some? {
      LowestKeeps(rest, cap.value);
    }
    assert Within(Run(payable, next), payable);
  }

  lemma PlanIsPromote(acc: Account, w: Limits, cap: Option<nat>)
    ensures
      var p := PlanOf(acc.queue, w, acc.next, cap);
      Promote(acc, w, cap) == Account(acc.pending + p.run, p.kept, if p.start < p.end then p.end else acc.next)
  {
  }

  lemma InValues(m: Items, t: Tx)
    requires Keyed(m)
    ensures t in Values(m) <==> Has(m, t)
  {
  }

  /** What is left of the index after promotion. */
  function Surviving(all: set<Tx>, p: Plan): set<Tx> {
    all - Values(p.tooOld) - Values(p.tooDear) - Values(p.excess)
  }

  lemma PlanIndexed(pending: map<Address, Items>, queue: map<Address, Items>, all: set<Tx>, a: Address, p: Plan)
    requires InStep(pending, queue, all) && Splits(p, ItemsOf(queue, a))
    ensures NonEmpty(pending)
    ensures Keyed(p.tooOld) && Values(p.tooOld) <= all
    ensures Keyed(p.tooDear) && Values(p.tooDear) <= all - Values(p.tooOld)
    ensures Keyed(p.excess) && Values(p.excess) <= all - Values(p.tooOld) - Values(p.tooDear)
    ensures p.start <= p.end && (forall n :: n in p.run <==> p.start <= n < p.end) ==>
      Promotable(pending, all - Values(p.tooOld) - Values(p.tooDear), a, p.run, p.start, p.end)
  {
    hide InStep;
    AccountInStep(pending, queue, all, a);
    forall t: Tx ensures t in Values(p.tooOld) <==> Has(p.tooOld, t) { InValues(p.tooOld, t); }
    forall t: Tx ensures t in Values(p.tooDear) <==> Has(p.tooDear, t) { InValues(p.tooDear, t); }
    forall t: Tx ensures t in Values(p.excess) <==> Has(p.excess, t) { InValues(p.excess, t); }
  }

  lemma SurvivingTx(pending: Items, queue: Items, all: set<Tx>, p: Plan, t: Tx)
    requires Splits(p, queue) && forall n :: n in pending ==> n !in queue
    requires Keyed(p.tooOld) && Keyed(p.tooDear) && Keyed(p.excess)
    requires t in all <==> Has(pending, t) || Has(queue, t)
    ensures t in Surviving(all, p) <==> Has(pending + p.run, t) || Has(p.kept, t)
  {
  }

  lemma PlanSound(pending: Items, queue: Items, a: Address, p: Plan)
    requires SoundLists(a, pending, queue) && Splits(p, queue)
    ensures SoundLists(a, pending + p.run, p.kept)
  {
  }

  lemma SurvivingAccount(pending: Items, queue: Items, all: set<Tx>, a: Address, p: Plan)
    requires SoundLists(a, pending, queue) && Splits(p, queue)
    requires Keyed(p.tooOld) && Keyed(p.tooDear) && Keyed(p.excess)
    requires forall t: Tx :: t.sender == a ==> (t in all <==> Has(pending, t) || Has(queue, t))
    ensures forall t: Tx :: t.sender == a ==> (t in Surviving(all, p) <==> Has(pending + p.run, t) || Has(p.kept, t))
    ensures forall t: Tx :: t.sender != a ==> (t in Surviving(all, p) <==> t in all)
  {
    forall t: Tx | t.sender == a ensures t in Surviving(all, p) <==> Has(pending + p.run, t) || Has(p.kept, t) {
      SurvivingTx(pending, queue, all, p, t);
    }
    forall t: Tx | t.sender != a ensures t in Surviving(all, p) <==> t in all {
      InValues(p.tooOld, t);
      InValues(p.tooDear, t);
      InValues(p.excess, t);
    }
  }

  lemma PromoteKeepsStep(pending: map<Address, Items>, queue: map<Address, Items>, all: set<Tx>, a: Address, p: Plan)
    requires InStep(pending, queue, all) && Splits(p, ItemsOf(queue, a))
    ensures InStep(SetItems(pending, a, ItemsOf(pending, a) + p.run), SetItems(queue, a, p.kept), Surviving(all, p))
  {
    hide InStep, SetItems, ItemsOf, Splits, Surviving, SoundLists, Values, Has;
    AccountInStep(pending, queue, all, a);
    PlanIndexed(pending, queue, all, a, p);
    PlanSound(ItemsOf(pending, a), ItemsOf(queue, a), a, p);
    SurvivingAccount(ItemsOf(pending, a), ItemsOf(queue, a), all, a, p);
    ReplaceAccount(pending, queue, all, a, ItemsOf(pending, a) + p.run, p.kept, Surviving(all, p));
  }

  /** A plan whose parts are indexed and whose run can be promoted. */
  ghost predicate PlanReady(pending: map<Address, Items>, all: set<Tx>, a: Address, p: Plan) {
    && Keyed(p.tooOld) && Values(p.tooOld) <= all
    && Keyed(p.tooDear) && Values(p.tooDear) <= all - Values(p.tooOld)
    && Keyed(p.excess) && Values(p.excess) <= all - Values(p.tooOld) - Values(p.tooDear)
    && Promotable(pending, all - Values(p.tooOld) - Values(p.tooDear), a, p.run, p.start, p.end)
  }

  function NoncesAfter(nonces: map<Address, nat>, a: Address, p: Plan): map<Address, nat> {
    if p.start < p.end then nonces[a := p.end] else nonces
  }

  /** Carrying out the plan of an account promotes it and keeps everything in step. */
  lemma PlanWorks(pending: map<Address, Items>, queue: map<Address, Items>, all: set<Tx>, nonces: map<Address, nat>,
                  state: map<Address, nat>, a: Address, w: Limits, cap: Option<nat>, p: Plan)
    requires InStep(pending, queue, all) && p == PlanOf(ItemsOf(queue, a), w, NextOf(nonces, state, a), cap)
    ensures PlanReady(pending, all, a, p)
    ensures InStep(SetItems(pending, a, ItemsOf(pending, a) + p.run), SetItems(queue, a, p.kept), Surviving(all, p))
    ensures Surviving(all, p) <= all
    ensures forall b ::
      AcctOf(SetItems(pending, a, ItemsOf(pending, a) + p.run), SetItems(queue, a, p.kept), NoncesAfter(nonces, a, p),
        state, b)
      == if b == a then Promote(AcctOf(pending, queue, nonces, state, a), w, cap)
         else AcctOf(pending, queue, nonces, state, b)
  {
    hide InStep, PlanOf, Splits, Promote, SetItems, ItemsOf;
    var acc := AcctOf(pending, queue, nonces, state, a);
    PlanSplits(acc.queue, w, acc.next, cap);
    PlanRun(acc.queue, w, acc.next, cap, p);
    PlanIndexed(pending, queue, all, a, p);
    PromoteKeepsStep(pending, queue, all, a, p);
    PlanIsPromote(acc, w, cap);
    OnlyAccount(pending, queue, nonces, state, a, Promote(acc, w, cap), NoncesAfter(nonces, a, p));
  }

  /* ---------- demoting one account ---------- */

  /** Indexed transactions of `a` whose nonces are not queued. */
  ghost predicate Requeueable(queue: map<Address, Items>, all: set<Tx>, a: Address, txs: Items) {
    && NonEmpty(queue)
    && forall n :: n in txs ==> txs[n].nonce == n && txs[n].sender == a && txs[n] in all && n !in ItemsOf(queue, a)
  }

  lemma RequeueBoth(queue: map<Address, Items>, all: set<Tx>, a: Address, r: Retreat)
    requires Requeueable(queue, all, a, Back(r)) && forall n :: n in r.invalid ==> n !in r.gapped
    ensures Requeueable(queue, all, a, r.invalid)
    ensures Requeueable(SetItems(queue, a, ItemsOf(queue, a) + r.invalid), all, a, r.gapped)
  {
  }

  lemma RequeueTwice(queue: map<Address, Items>, a: Address, q: Items, r: Retreat)
    ensures SetItems(SetItems(queue, a, q + r.invalid), a, q + r.invalid + r.gapped) == SetItems(queue, a, q + Back(r))
  {
    assert q + r.invalid + r.gapped == q + Back(r);
  }

  /** Which pending transactions of an account go where when it is demoted. */
  datatype Retreat = Retreat(tooOld: Items, tooDear: Items, stay: Items, invalid: Items, gapped: Items)

  /** What goes back to the queue. */
  function Back(r: Retreat): Items {
    r.invalid + r.gapped
  }

  /** The index without what is too old or too expensive. */
  function Current(all: set<Tx>, r: Retreat): set<Tx> {
    all - Values(r.tooOld) - Values(r.tooDear)
  }

  function RetreatOf(pending: Items, w: Limits): Retreat {
    var current := AtLeast(pending, w.nonce);
    var kept := Filtered(current, true, w.balance, w.maxGas);
    var gap := kept.Keys != {} && w.nonce !in kept;
    Retreat(Below(pending, w.nonce), Expensive(current, w.balance, w.maxGas), if gap then map[] else kept,
            Invalidated(current, true, w.balance, w.maxGas), if gap then kept else map[])
  }

  /** Each pending transaction is in exactly one part of the retreat. */
  ghost predicate Retains(r: Retreat, pending: Items) {
    && (forall n :: n in r.tooOld ==>
         && n in pending && r.tooOld[n] == pending[n]
         && n !in r.tooDear && n !in r.stay && n !in r.invalid && n !in r.gapped)
    && (forall n :: n in r.tooDear ==>
         n in pending && r.tooDear[n] == pending[n] && n !in r.stay && n !in r.invalid && n !in r.gapped)
    && (forall n :: n in r.stay ==> n in pending && r.stay[n] == pending[n] && n !in r.invalid && n !in r.gapped)
    && (forall n :: n in r.invalid ==> n in pending && r.invalid[n] == pending[n] && n !in r.gapped)
    && (forall n :: n in r.gapped ==> n in pending && r.gapped[n] == pending[n])
    && (forall n :: n in pending ==> n in r.tooOld || n in r.tooDear || n in r.stay || n in r.invalid || n in r.gapped)
  }

  lemma RetreatRetains(pending: Items, w: Limits)
    ensures Retains(RetreatOf(pending, w), pending)
  {
  }

  lemma RetreatIsDemote(acc: Account, w: Limits)
    ensures
      var r := RetreatOf(acc.pending, w);
      Demote(acc, w) == Account(r.stay, acc.queue + Back(r), acc.next)
  {
    var r := RetreatOf(acc.pending, w);
    assert r.invalid + map[] == r.invalid;
    assert acc.queue + r.invalid + r.gapped == acc.queue + Back(r);
  }

  lemma RetreatIndexed(pending: map<Address, Items>, queue: map<Address, Items>, all: set<Tx>, a: Address, r: Retreat)
    requires InStep(pending, queue, all) && Retains(r, ItemsOf(pending, a))
    ensures Keyed(r.tooOld) && Values(r.tooOld) <= all
    ensures Keyed(r.tooDear) && Values(r.tooDear) <= all - Values(r.tooOld)
    ensures Requeueable(queue, Current(all, r), a, Back(r))
    ensures forall n :: n in r.invalid ==> n !in r.gapped
  {
    hide InStep, ItemsOf, NonEmpty;
    AccountInStep(pending, queue, all, a);
    RetreatValues(ItemsOf(pending, a), ItemsOf(queue, a), all, a, r);
  }

  lemma RetreatValues(pending: Items, queue: Items, all: set<Tx>, a: Address, r: Retreat)
    requires SoundLists(a, pending, queue) && Retains(r, pending)
    requires forall n :: n in pending ==> pending[n] in all
    ensures Keyed(r.tooOld) && Values(r.tooOld) <= all
    ensures Keyed(r.tooDear) && Values(r.tooDear) <= all - Values(r.tooOld)
    ensures forall n :: n in r.invalid ==> n !in r.gapped
    ensures forall n :: n in Back(r) ==>
      Back(r)[n].nonce == n && Back(r)[n].sender == a && Back(r)[n] in Current(all, r) && n !in queue
  {
    hide Values;
    forall t: Tx ensures t in Values(r.tooOld) <==> Has(r.tooOld, t) { InValues(r.tooOld, t); }
    forall t: Tx ensures t in Values(r.tooDear) <==> Has(r.tooDear, t) { InValues(r.tooDear, t); }
  }

  lemma RetreatTx(pending: Items, queue: Items, all: set<Tx>, r: Retreat, t: Tx)
    requires Retains(r, pending) && forall n :: n in pending ==> n !in queue
    requires Keyed(r.tooOld) && Keyed(r.tooDear)
    requires t in all <==> Has(pending, t) || Has(queue, t)
    ensures t in Current(all, r) <==> Has(r.stay, t) || Has(queue + Back(r), t)
  {
  }

  lemma RetreatSound(a: Address, pending: Items, queue: Items, r: Retreat)
    requires SoundLists(a, pending, queue) && Retains(r, pending)
    ensures SoundLists(a, r.stay, queue + Back(r))
  {
  }

  lemma DemoteKeepsStep(pending: map<Address, Items>, queue: map<Address, Items>, all: set<Tx>, a: Address, r: Retreat)
    requires InStep(pending, queue, all) && Retains(r, ItemsOf(pending, a))
    ensures InStep(SetItems(pending, a, r.stay), SetItems(queue, a, ItemsOf(queue, a) + Back(r)),
                   Current(all, r))
  {
    hide InStep;
    AccountInStep(pending, queue, all, a);
    RetreatIndexed(pending, queue, all, a, r);
    var p, q := ItemsOf(pending, a), ItemsOf(queue, a);
    forall t: Tx | t.sender == a ensures t in Current(all, r) <==> Has(r.stay, t) || Has(q + Back(r), t) {
      RetreatTx(p, q, all, r, t);
    }
    forall t: Tx | t.sender != a ensures t in Current(all, r) <==> t in all {
      InValues(r.tooOld, t);
      InValues(r.tooDear, t);
    }
    RetreatSound(a, p, q, r);
    hide Current, Back, SoundLists, Has;
    ReplaceAccount(pending, queue, all, a, r.stay, q + Back(r), Current(all, r));
  }

  lemma RetreatWorks(pending: map<Address, Items>, queue: map<Address, Items>, all: set<Tx>, nonces: map<Address, nat>,
                     state: map<Address, nat>, a: Address, w: Limits, r: Retreat)
    requires InStep(pending, queue, all) && r == RetreatOf(ItemsOf(pending, a), w)
    ensures Keyed(r.tooOld) && Values(r.tooOld) <= all
    ensures Keyed(r.tooDear) && Values(r.tooDear) <= all - Values(r.tooOld)
    ensures Requeueable(queue, Current(all, r), a, Back(r)) && Current(all, r) <= all
    ensures forall n :: n in r.invalid ==> n !in r.gapped
    ensures InStep(SetItems(pending, a, r.stay), SetItems(queue, a, ItemsOf(queue, a) + Back(r)),
                   Current(all, r))
    ensures forall b ::
      AcctOf(SetItems(pending, a, r.stay), SetItems(queue, a, ItemsOf(queue, a) + Back(r)), nonces, state, b)
      == if b == a then Demote(AcctOf(pending, queue, nonces, state, a), w)
         else AcctOf(pending, queue, nonces, state, b)
  {
    hide InStep, RetreatOf, Retains, Demote, SetItems, ItemsOf, Requeueable;
    var acc := AcctOf(pending, queue, nonces, state, a);
    RetreatRetains(acc.pending, w);
    RetreatIndexed(pending, queue, all, a, r);
    DemoteKeepsStep(pending, queue, all, a, r);
    RetreatIsDemote(acc, w);
    OnlyAccount(pending, queue, nonces, state, a, Demote(acc, w), nonces);
  }

  lemma MergeOne(queue: map<Address, Items>, a: Address, base: Items, done: Items, n: nat, t: Tx)
    requires t.sender == a && t.nonce == n
    ensures Enqueued(SetItems(queue, a, base + done), t) == SetItems(queue, a, base + done[n := t])
  {
    assert (base + done)[n := t] == base + done[n := t];
    assert n in (base + done[n := t]).Keys;
  }

  lemma Shrinks(all: set<Tx>, gone: Items)
    requires Keyed(gone) && Values(gone) <= all
    ensures |all - Values(gone)| == |all| - |gone|
  {
    ValuesCount(gone);
  }

  /* ---------- accounts a pass may skip ---------- */

  lemma PromoteNothing(pending: map<Address, Items>, queue: map<Address, Items>, nonces: map<Address, nat>,
                       state: map<Address, nat>, a: Address, w: Limits, cap: Option<nat>)
    requires a !in queue
    ensures Promote(AcctOf(pending, queue, nonces, state, a), w, cap) == AcctOf(pending, queue, nonces, state, a)
  {
  }

  lemma DemoteNothing(pending: map<Address, Items>, queue: map<Address, Items>, nonces: map<Address, nat>,
                      state: map<Address, nat>, a: Address, w: Limits)
    requires a !in pending
    ensures Demote(AcctOf(pending, queue, nonces, state, a), w) == AcctOf(pending, queue, nonces, state, a)
  {
  }

  lemma RefreshNothing(pending: map<Address, Items>, queue: map<Address, Items>, nonces: map<Address, nat>,
                       state: map<Address, nat>, a: Address)
    requires a !in pending
    ensures Refresh(AcctOf(pending, queue, nonces, state, a)) == AcctOf(pending, queue, nonces, state, a)
  {
  }

  lemma RefreshOne(pending: map<Address, Items>, queue: map<Address, Items>, nonces: map<Address, nat>,
                   state: map<Address, nat>, a: Address)
    requires NonEmpty(pending) && a in pending
    ensures ItemsOf(pending, a).Keys != {}
    ensures forall b ::
      AcctOf(pending, queue, nonces[a := Greatest(ItemsOf(pending, a)) + 1], state, b)
      == if b == a then Refresh(AcctOf(pending, queue, nonces, state, b)) else AcctOf(pending, queue, nonces, state, b)
  {
  }

  lemma NotListed(m: map<Address, Items>)
    ensures forall a :: a !in m ==> ItemsOf(m, a) == map[]
  {
  }

  lemma SoundAccounts(pending: map<Address, Items>, queue: map<Address, Items>, all: set<Tx>, nonces: map<Address, nat>,
                      state: map<Address, nat>)
    requires InStep(pending, queue, all)
    ensures forall a :: Sound(a, AcctOf(pending, queue, nonces, state, a))
  {
  }

  /* ---------- adding a transaction to its account ---------- */

  /** What validateTx looks at besides the transaction: the head state, the price
      threshold, the local accounts, whether the transaction was submitted locally,
      and `checks` for size, signature, intrinsic gas and blacklists. */
  datatype Terms = Terms(nonces: map<Address, nat>, balances: map<Address, nat>, maxGas: nat, gasPrice: nat,
                         locals: set<Address>, local: bool, checks: Tx -> bool)

  predicate Admits(terms: Terms, tx: Tx) {
    && tx.gas <= terms.maxGas
    && (terms.local || tx.sender in terms.locals || terms.gasPrice <= tx.price)
    && Lookup(terms.nonces, tx.sender) <= tx.nonce
    && tx.cost <= Lookup(terms.balances, tx.sender)
    && terms.checks(tx)
  }

  /** The list of an account that holds nonce `n`, or would take it up. */
  function Slot(acc: Account, n: nat): Items {
    if n in acc.pending then acc.pending else acc.queue
  }

  /** The account once `tx` has been offered to it: it takes the place of its nonce
      in the pending list or in the queue, unless it is underpriced there. */
  function PlaceIn(acc: Account, tx: Tx, priceBump: nat): Account {
    if !Accepts(Slot(acc, tx.nonce), tx, priceBump) then acc
    else if tx.nonce in acc.pending then acc.(pending := acc.pending[tx.nonce := tx])
    else acc.(queue := acc.queue[tx.nonce := tx])
  }

  /** The account without `tx`, if it held it. */
  function RemoveHeld(acc: Account, tx: Tx, a: Address): Account {
    if tx.sender == a && Holds(acc, tx) then Remove(acc, tx.nonce) else acc
  }

  /** Account `a` once all of `drop` have been removed from the pool, in order. */
  function RemoveAll(acc: Account, drop: seq<Tx>, a: Address): Account {
    if drop == [] then acc
    else RemoveHeld(RemoveAll(acc, drop[..|drop| - 1], a), drop[|drop| - 1], a)
  }

  /** Whatever an account holds is in the index. */
  lemma HeldIndexed(pending: map<Address, Items>, queue: map<Address, Items>, all: set<Tx>, nonces: map<Address, nat>,
                    state: map<Address, nat>, t: Tx)
    requires InStep(pending, queue, all)
    ensures Holds(AcctOf(pending, queue, nonces, state, t.sender), t) <==> t in all
  {
    AccountInStep(pending, queue, all, t.sender);
  }

  /** Account `a` once all of `txs` have been offered to the pool, in order. */
  function PlaceAll(acc: Account, txs: seq<Tx>, a: Address, priceBump: nat, terms: Terms): Account {
    if txs == [] then acc
    else
      var tx := txs[|txs| - 1];
      var before := PlaceAll(acc, txs[..|txs| - 1], a, priceBump, terms);
      if tx.sender == a && Admits(terms, tx) then PlaceIn(before, tx, priceBump) else before
  }

  /** A transaction that is already there changes nothing. */
  lemma PlaceKnown(pending: map<Address, Items>, queue: map<Address, Items>, all: set<Tx>, nonces: map<Address, nat>,
                   state: map<Address, nat>, tx: Tx, priceBump: nat)
    requires InStep(pending, queue, all) && tx in all
    ensures
      var acc := AcctOf(pending, queue, nonces, state, tx.sender);
      PlaceIn(acc, tx, priceBump) == acc
  {
    AccountInStep(pending, queue, all, tx.sender);
  }

  /** Storing the changed list stores the changed account. */
  lemma PlaceStored(pending: map<Address, Items>, queue: map<Address, Items>, all: set<Tx>, nonces: map<Address, nat>,
                    state: map<Address, nat>, tx: Tx, priceBump: nat)
    requires InStep(pending, queue, all)
    ensures
      var a := tx.sender;
      var list := ItemsOf(pending, a);
      if !Accepts(if tx.nonce in list then list else ItemsOf(queue, a), tx, priceBump) then
        PlaceIn(AcctOf(pending, queue, nonces, state, a), tx, priceBump) == AcctOf(pending, queue, nonces, state, a)
      else
        forall b ::
          AcctOf(if tx.nonce in list then SetItems(pending, a, list[tx.nonce := tx]) else pending,
                 if tx.nonce in list then queue else Enqueued(queue, tx), nonces, state, b)
          == if b == a then PlaceIn(AcctOf(pending, queue, nonces, state, a), tx, priceBump)
             else AcctOf(pending, queue, nonces, state, b)
  {
  }

  lemma SlotOf(pending: map<Address, Items>, queue: map<Address, Items>, nonces: map<Address, nat>,
               state: map<Address, nat>, a: Address, n: nat)
    ensures Slot(AcctOf(pending, queue, nonces, state, a), n)
      == if n in ItemsOf(pending, a) then ItemsOf(pending, a) else ItemsOf(queue, a)
    ensures AcctOf(pending, queue, nonces, state, a).pending == ItemsOf(pending, a)
  {
  }

  /** Local accounts only matter to transactions that are not local themselves. */
  lemma SameTerms(x: Terms, y: Terms, tx: Tx)
    requires y == x.(locals := y.locals) && (x.local || y.locals == x.locals)
    ensures Admits(x, tx) <==> Admits(y, tx)
  {
  }

  lemma NoncesForgotten(pending: map<Address, Items>, queue: map<Address, Items>, nonces: map<Address, nat>,
                        was: map<Address, nat>, state: map<Address, nat>, a: Address)
    ensures AcctOf(pending, queue, map[], state, a) == AcctOf(pending, queue, nonces, was, a).(next := Lookup(state, a))
  {
  }

  /** Dropping transactions from the pool cannot change who holds a nonce, other
      than by dropping the holder. */
  lemma SlotShrinks(pending: map<Address, Items>, queue: map<Address, Items>, all: set<Tx>, nonces: map<Address, nat>,
                    pending': map<Address, Items>, queue': map<Address, Items>, all': set<Tx>,
                    nonces': map<Address, nat>, state: map<Address, nat>, a: Address, n: nat)
    requires InStep(pending, queue, all) && InStep(pending', queue', all') && all' <= all
    ensures
      var slot := Slot(AcctOf(pending, queue, nonces, state, a), n);
      var slot' := Slot(AcctOf(pending', queue', nonces', state, a), n);
      && (n in slot' <==> n in slot && slot[n] in all')
      && (n in slot' ==> slot'[n] == slot[n])
      && (n in slot ==> slot[n] in all)
  {
    hide InStep, ItemsOf, SetItems, NonEmpty;
    AccountInStep(pending, queue, all, a);
    AccountInStep(pending', queue', all', a);
    SlotLess(a, ItemsOf(pending, a), ItemsOf(queue, a), all, ItemsOf(pending', a), ItemsOf(queue', a), all', n);
  }

  lemma SlotLess(a: Address, p: Items, q: Items, all: set<Tx>, p': Items, q': Items, all': set<Tx>, n: nat)
    requires SoundLists(a, p, q) && SoundLists(a, p', q') && all' <= all
    requires forall t: Tx :: t.sender == a ==> (t in all <==> Has(p, t) || Has(q, t))
    requires forall t: Tx :: t.sender == a ==> (t in all' <==> Has(p', t) || Has(q', t))
    ensures
      var slot, slot' := if n in p then p else q, if n in p' then p' else q';
      && (n in slot' <==> n in slot && slot[n] in all')
      && (n in slot' ==> slot'[n] == slot[n])
      && (n in slot ==> slot[n] in all)
  {
    var slot' := if n in p' then p' else q';
    if n in slot' {
      assert slot'[n] in all';
    }
  }

  /** Whether `tx` is underpriced only depends on the holder of its nonce. */
  lemma AcceptsBy(m: Items, m': Items, tx: Tx, priceBump: nat)
    requires tx.nonce in m' ==> tx.nonce in m && m'[tx.nonce] == m[tx.nonce]
    ensures tx.nonce !in m ==> Accepts(m, tx, priceBump)
    ensures !Accepts(m', tx, priceBump) <==> tx.nonce in m' && !Accepts(m, tx, priceBump)
  {
  }
}
