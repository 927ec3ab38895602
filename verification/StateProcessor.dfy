/** Applying the transactions of a block, and the markers that keep a main-chain
    transaction from being credited or refunded twice. */
module StateProcessors {
  import opened Basics
  import opened Ledger
  import opened GasPools
  import opened StateTransitions

  datatype Transaction = Transaction(hash: Hash, msg: Message)

  datatype Receipt = Receipt(gasUsed: nat, cumulativeGasUsed: nat)

  datatype Block = Block(txs: seq<Transaction>, gasLimit: nat, env: Env, svc: Services)

  /** The parts of the node this model does not look into: the SPV lookup that
      returns one entry of a deposit, whether its data can be fetched, whether the
      zero address was touched, and the block rewards. */
  datatype Services = Services(entryOf: Hash -> Recharge, fetched: Hash -> bool, touched: World -> bool,
                               reward: World -> World)

  /** The lookup returns an entry of the deposit, and rewards leave markers and the
      nonce of the zero address alone. */
  ghost predicate Faithful(svc: Services, env: Env) {
    && (forall m :: env.spv(m).Some? && env.spv(m).value.recharges != [] ==>
         svc.entryOf(m) in env.spv(m).value.recharges)
    && (forall w :: svc.reward(w).markers == w.markers && NonceOf(svc.reward(w), ZERO) == NonceOf(w, ZERO))
  }

  /** Markers and their nonce go together. */
  predicate Alive(w: World) {
    w.markers.Keys != {} ==> NonceOf(w, ZERO) > 0
  }

  /** Records that `main` has been dealt with by `tx`. */
  function Mark(w: World, main: Hash, tx: Hash): World {
    w.(markers := w.markers[main := tx], nonces := w.nonces[ZERO := NonceOf(w, ZERO) + 1])
  }

  /** An empty account, as EIP-161 defines it, loses its storage when touched. */
  function Finalise(w: World, touched: bool): World {
    if touched && NonceOf(w, ZERO) == 0 && Balance(w.balances, ZERO) == 0 then w.(markers := map[]) else w
  }

  /** Because the nonce is bumped with every marker, clearing never loses one. */
  lemma MarkersSurvive(w: World, touched: bool)
    requires Alive(w)
    ensures Finalise(w, touched) == w
  {
  }

  /** Without the bump a marker would be lost. */
  lemma UnbumpedMarkerIsLost(main: Hash, tx: Hash)
    ensures
      var w := World(map[], map[], map[main := tx], 0);
      Finalise(w, true).markers == map[]
  {
  }

  /** A successful deposit passes the test that decides about its marker. */
  lemma DepositIsMarked(w: World, msg: Message, env: Env, svc: Services, main: Hash)
    requires Faithful(svc, env) && msg.to == Some(ZERO) && msg.payload == Deposit(main)
    requires Opening(w, msg, env).0.None?
    requires Opening(w, msg, env).1.RechargeLoan? ==>
      var rs := Opening(w, msg, env).1.data.recharges;
      forall i :: 0 <= i < |rs| ==> rs[i].fee > 0
    ensures svc.entryOf(main).fee > 0 && svc.entryOf(main).amount > 0 && svc.entryOf(main).target != ZERO
  {
  }

  /** A deposit whose data cannot be fetched again after it has been credited. */
  predicate Unfetched(tx: Transaction, svc: Services) {
    tx.msg.to == Some(ZERO) && tx.msg.payload.Deposit? && !svc.fetched(tx.msg.payload.main)
  }

  /** The main-chain transaction that is credited or refunded on `w` by `tx`, if any: the
      one for which it takes a loan. */
  function Credited(w: World, tx: Transaction, env: Env): Option<Hash> {
    var loan := Opening(w, tx.msg, env).1;
    if loan.WithdrawLoan? || loan.RechargeLoan? then Some(tx.msg.payload.main) else None
  }

  /** What a successful transaction makes of `w`. */
  ghost predicate Applied(evm: Evm, env: Env, w: World, tx: Transaction, used: nat, r: World) {
    var (start, loan) := Opening(w, tx.msg, env);
    && start.None? && IntrinsicOf(tx.msg, env) <= tx.msg.gas && used <= tx.msg.gas
    && used == UsedBy(tx.msg, env, Executed(evm, tx.msg, env, Begun(w, tx.msg, env, loan), loan))
    && var after := Afterwards(evm, tx.msg, env, w, loan, used);
       r == if Credited(w, tx, env).Some? then Mark(after, Credited(w, tx, env).value, tx.hash) else after
  }

  /** Applies one transaction. It succeeds exactly if its message does and the data of a
      deposit is at hand; then the gas is accounted for, and a main-chain transaction that
      was credited or refunded had no marker before and has one now. */
  method ApplyTransaction(gp: GasPool, w: World, tx: Transaction, env: Env, evm: Evm, svc: Services)
    returns (ok: bool, r: World, used: nat)
    requires Sensible(evm) && Faithful(svc, env) && Alive(w) && gp.gas <= MAX_UINT64
    modifies gp
    ensures ok <==>
      && Succeeds(evm, tx.msg, env, w, old(gp.gas))
      && (tx.msg.to == Some(ZERO) && tx.msg.payload.Deposit? ==> svc.fetched(tx.msg.payload.main))
    ensures ok ==> Alive(r) && used <= tx.msg.gas && gp.gas + used == old(gp.gas)
    ensures ok ==> Applied(evm, env, w, tx, used, r)
    ensures ok && (Opening(w, tx.msg, env).1.WithdrawLoan? || Opening(w, tx.msg, env).1.RechargeLoan?) ==>
      tx.msg.payload.main !in w.markers && r.markers == w.markers[tx.msg.payload.main := tx.hash]
    ensures ok && !(Opening(w, tx.msg, env).1.WithdrawLoan? || Opening(w, tx.msg, env).1.RechargeLoan?) ==>
      r.markers == w.markers
  {
    hide Sensible, Faithful, Opening, IntrinsicOf, Prepared, Begun, Total, Executed, Succeeds, UsedBy, Afterwards,
      ErrorIn;
    Unmarked(w, tx.msg, env);
    var st := new StateTransition(gp, tx.msg, env, evm, w);
    var err;
    err, used := st.TransitionDb();
    r := st.world;
    if err.Some? {
      return false, r, used;
    }
    StillAlive(w, r);
    ok, r := RecordCompletion(w, r, tx, env, svc);
    if ok {
      MarkersSurvive(r, svc.touched(r));
      r := Finalise(r, svc.touched(r));
    }
  }

  /** Marks the main-chain transaction a successful message has dealt with. */
  method RecordCompletion(ghost w: World, after: World, tx: Transaction, env: Env, svc: Services)
    returns (ok: bool, r: World)
    requires Faithful(svc, env) && Alive(after) && Opening(w, tx.msg, env).0.None?
    requires Opening(w, tx.msg, env).1.RechargeLoan? ==>
      var rs := Opening(w, tx.msg, env).1.data.recharges;
      forall i :: 0 <= i < |rs| ==> rs[i].fee > 0
    ensures ok <==> !Unfetched(tx, svc)
    ensures ok ==> Alive(r)
    ensures ok ==>
      r == if Credited(w, tx, env).Some? then Mark(after, Credited(w, tx, env).value, tx.hash) else after
  {
    hide Faithful, Opening;
    OpeningExactly(w, tx.msg, env);
    r, ok := after, true;
    if tx.msg.to == Some(ZERO) {
      match tx.msg.payload
      case WithdrawFailed(main) =>
        r := Mark(r, main, tx.hash);
      case Deposit(main) =>
        if !svc.fetched(main) {
          return false, r;
        }
        DepositIsMarked(w, tx.msg, env, svc, main);
        var entry := svc.entryOf(main);
        if entry.fee > 0 && entry.amount > 0 && entry.target != ZERO {
          r := Mark(r, main, tx.hash);
        }
      case SmallDeposit(main, verified) =>
        r := Mark(r, main, tx.hash);
      case Plain =>
    }
  }

  /** A message that starts on a loan from the main chain deals with nothing marked. */
  lemma Unmarked(w: World, msg: Message, env: Env)
    ensures Opening(w, msg, env).1.WithdrawLoan? || Opening(w, msg, env).1.RechargeLoan? ==>
      msg.payload.main !in w.markers
  {
  }

  lemma StillAlive(w: World, r: World)
    requires Alive(w) && r.markers == w.markers && NonceOf(r, ZERO) >= NonceOf(w, ZERO)
    ensures Alive(r)
  {
  }

  /* ---------- blocks and chains ---------- */

  /** The main-chain transactions credited or refunded by the first `n` transactions, which
      ran on `worlds`. */
  function Credits(worlds: seq<World>, txs: seq<Transaction>, env: Env, n: nat): seq<Hash>
    requires n <= |worlds| && n <= |txs|
  {
    if n == 0 then []
    else
      var last := Credited(worlds[n - 1], txs[n - 1], env);
      Credits(worlds, txs, env, n - 1) + if last.Some? then [last.value] else []
  }

  lemma {:induction false} CreditsPrefix(worlds: seq<World>, w: World, txs: seq<Transaction>, env: Env, n: nat)
    requires n <= |worlds| && n <= |txs|
    ensures Credits(worlds + [w], txs, env, n) == Credits(worlds, txs, env, n)
  {
    if n > 0 {
      CreditsPrefix(worlds, w, txs, env, n - 1);
    }
  }

  /** The main-chain transactions in `done` were dealt with on the way from the
      markers `before` to the markers `after`, each once. */
  ghost predicate Dealt(before: map<Hash, Hash>, after: map<Hash, Hash>, done: seq<Hash>) {
    && (forall i, j :: 0 <= i < j < |done| ==> done[i] != done[j]) && before.Keys <= after.Keys
    && forall m :: m in done ==> m !in before && m in after
  }

  lemma DealtOnce(before: map<Hash, Hash>, after: map<Hash, Hash>, done: seq<Hash>)
    requires Dealt(before, after, done)
    ensures forall i, j :: 0 <= i < j < |done| ==> done[i] != done[j]
    ensures forall m :: m in done ==> m !in before && m in after
  {
  }

  lemma DealtNone(markers: map<Hash, Hash>)
    ensures Dealt(markers, markers, [])
  {
  }

  lemma DealtOne(before: map<Hash, Hash>, mid: map<Hash, Hash>, done: seq<Hash>, main: Hash, tx: Hash)
    requires Dealt(before, mid, done) && main !in mid
    ensures Dealt(before, mid[main := tx], done + [main])
  {
  }

  lemma DealtMore(before: map<Hash, Hash>, mid: map<Hash, Hash>, after: map<Hash, Hash>, first: seq<Hash>,
                  second: seq<Hash>)
    requires Dealt(before, mid, first) && Dealt(mid, after, second)
    ensures Dealt(before, after, first + second)
  {
    forall i, j | 0 <= i < j < |first + second| ensures (first + second)[i] != (first + second)[j] {
      if i < |first| <= j {
        assert first[i] in mid && second[j - |first|] !in mid;
      }
    }
  }

  /** The gas used by the first `n` receipts. */
  function GasSum(receipts: seq<Receipt>, n: nat): nat
    requires n <= |receipts|
  {
    if n == 0 then 0 else GasSum(receipts, n - 1) + receipts[n - 1].gasUsed
  }

  lemma {:induction false} GasSumPrefix(receipts: seq<Receipt>, receipt: Receipt, n: nat)
    requires n <= |receipts|
    ensures GasSum(receipts + [receipt], n) == GasSum(receipts, n)
  {
    if n > 0 {
      GasSumPrefix(receipts, receipt, n - 1);
    }
  }

  /** The transactions of a block as far as there are receipts: each ran on what the one
      before had left, and its receipt carries the gas it used and all gas used so far. */
  ghost predicate Processed(evm: Evm, block: Block, worlds: seq<World>, receipts: seq<Receipt>) {
    && |receipts| <= |block.txs| && |worlds| == |receipts| + 1
    && forall i :: 0 <= i < |receipts| ==> ProcessedAt(evm, block, worlds, receipts, i)
  }

  ghost predicate ProcessedAt(evm: Evm, block: Block, worlds: seq<World>, receipts: seq<Receipt>, i: nat)
    requires i < |receipts| <= |block.txs| && |worlds| == |receipts| + 1
  {
    && Applied(evm, block.env, worlds[i], block.txs[i], receipts[i].gasUsed, worlds[i + 1])
    && receipts[i].cumulativeGasUsed == GasSum(receipts, i + 1) <= block.gasLimit
  }

  lemma ProcessedNext(evm: Evm, block: Block, worlds: seq<World>, receipts: seq<Receipt>, r: World, receipt: Receipt)
    requires Processed(evm, block, worlds, receipts) && |receipts| < |block.txs|
    requires Applied(evm, block.env, worlds[|receipts|], block.txs[|receipts|], receipt.gasUsed, r)
    requires receipt.cumulativeGasUsed == GasSum(receipts, |receipts|) + receipt.gasUsed <= block.gasLimit
    ensures Processed(evm, block, worlds + [r], receipts + [receipt])
    ensures GasSum(receipts + [receipt], |receipts| + 1) == receipt.cumulativeGasUsed
  {
    hide Applied;
    forall n: nat | n <= |receipts| ensures GasSum(receipts + [receipt], n) == GasSum(receipts, n) {
      GasSumPrefix(receipts, receipt, n);
    }
    forall i: nat | i < |receipts| ensures ProcessedAt(evm, block, worlds + [r], receipts + [receipt], i) {
      assert ProcessedAt(evm, block, worlds, receipts, i);
    }
  }

  lemma ProcessedNone(evm: Evm, block: Block, w: World)
    ensures Processed(evm, block, [w], []) && GasSum([], 0) == 0
  {
  }

  /** Processes a block up to the first transaction that fails. Pool plus used gas is the
      gas limit after every transaction, and no main-chain transaction is credited or
      refunded that was dealt with before. `worlds` are the states in between. */
  method Process(w: World, block: Block, evm: Evm)
    returns (ok: bool, r: World, receipts: seq<Receipt>, usedGas: nat, gasLeft: nat, ghost worlds: seq<World>)
    requires Sensible(evm) && Faithful(block.svc, block.env) && Alive(w) && block.gasLimit <= MAX_UINT64
    ensures |receipts| <= |block.txs| && |worlds| == |receipts| + 1 && worlds[0] == w
    ensures Processed(evm, block, worlds, receipts)
    ensures ok <==> |receipts| == |block.txs|
    ensures !ok ==>
      var tx := block.txs[|receipts|];
      !Succeeds(evm, tx.msg, block.env, worlds[|receipts|], gasLeft) || Unfetched(tx, block.svc)
    ensures usedGas == GasSum(receipts, |receipts|) && gasLeft + usedGas == block.gasLimit
    ensures ok ==> Alive(r) && r == block.svc.reward(worlds[|receipts|])
    ensures ok ==> Dealt(w.markers, r.markers, Credits(worlds, block.txs, block.env, |block.txs|))
  {
    hide Sensible, Faithful, Dealt, Processed, GasSum, Applied, Credits, Succeeds, Opening;
    var svc := block.svc;
    var gp := new GasPool();
    gp.AddGas(block.gasLimit);
    r, usedGas, receipts, gasLeft, worlds := w, 0, [], block.gasLimit, [w];
    ok := true;
    DealtNone(w.markers);
    ProcessedNone(evm, block, w);
    CreditsNone(worlds, block.txs, block.env);
    for i := 0 to |block.txs|
      invariant Alive(r) && gp.gas + usedGas == block.gasLimit && gasLeft == gp.gas && fresh(gp)
      invariant |receipts| == i && |worlds| == i + 1 && worlds[0] == w && worlds[i] == r
      invariant Processed(evm, block, worlds, receipts) && usedGas == GasSum(receipts, i)
      invariant Dealt(w.markers, r.markers, Credits(worlds, block.txs, block.env, i))
    {
      var tx := block.txs[i];
      var applied, r', used := ApplyTransaction(gp, r, tx, block.env, evm, svc);
      if !applied {
        return false, r', receipts, usedGas, gasLeft, worlds;
      }
      usedGas, gasLeft := usedGas + used, gp.gas;
      ProcessedNext(evm, block, worlds, receipts, r', Receipt(used, usedGas));
      CreditsNext(worlds, r', block.txs, block.env, i);
      if Credited(r, tx, block.env).Some? {
        DealtOne(w.markers, r.markers, Credits(worlds, block.txs, block.env, i), tx.msg.payload.main, tx.hash);
      }
      receipts, worlds, r := receipts + [Receipt(used, usedGas)], worlds + [r'], r';
    }
    Rewarded(svc, block.env, r);
    r := svc.reward(r);
  }

  lemma CreditsNone(worlds: seq<World>, txs: seq<Transaction>, env: Env)
    ensures Credits(worlds, txs, env, 0) == []
  {
  }

  lemma CreditsNext(worlds: seq<World>, w: World, txs: seq<Transaction>, env: Env, n: nat)
    requires n < |worlds| && n < |txs|
    ensures
      var last := Credited(worlds[n], txs[n], env);
      Credits(worlds + [w], txs, env, n + 1)
      == if last.Some? then Credits(worlds, txs, env, n) + [last.value] else Credits(worlds, txs, env, n)
  {
    CreditsPrefix(worlds, w, txs, env, n);
    assert Credits(worlds, txs, env, n) + [] == Credits(worlds, txs, env, n);
  }

  lemma Rewarded(svc: Services, env: Env, w: World)
    requires Faithful(svc, env)
    ensures svc.reward(w).markers == w.markers && NonceOf(svc.reward(w), ZERO) == NonceOf(w, ZERO)
  {
  }

  /** All main-chain transactions credited or refunded along a chain of blocks. */
  function ChainCredits(traces: seq<seq<World>>, blocks: seq<Block>, n: nat): seq<Hash>
    requires n <= |traces| && n <= |blocks| && forall b :: 0 <= b < n ==> |traces[b]| == |blocks[b].txs| + 1
  {
    if n == 0 then []
    else
      ChainCredits(traces, blocks, n - 1)
      + Credits(traces[n - 1], blocks[n - 1].txs, blocks[n - 1].env, |blocks[n - 1].txs|)
  }

  lemma {:induction false} ChainCreditsPrefix(traces: seq<seq<World>>, trace: seq<World>, blocks: seq<Block>, n: nat)
    requires n <= |traces| && n <= |blocks| && forall b :: 0 <= b < n ==> |traces[b]| == |blocks[b].txs| + 1
    ensures ChainCredits(traces + [trace], blocks, n) == ChainCredits(traces, blocks, n)
  {
    if n > 0 {
      ChainCreditsPrefix(traces, trace, blocks, n - 1);
    }
  }

  lemma ChainCreditsNone(traces: seq<seq<World>>, blocks: seq<Block>)
    ensures ChainCredits(traces, blocks, 0) == []
  {
  }

  lemma ChainCreditsNext(traces: seq<seq<World>>, trace: seq<World>, blocks: seq<Block>, n: nat)
    requires n == |traces| < |blocks| && forall b :: 0 <= b < n ==> |traces[b]| == |blocks[b].txs| + 1
    requires |trace| == |blocks[n].txs| + 1
    ensures ChainCredits(traces + [trace], blocks, n + 1)
      == ChainCredits(traces, blocks, n) + Credits(trace, blocks[n].txs, blocks[n].env, |blocks[n].txs|)
  {
    ChainCreditsPrefix(traces, trace, blocks, n);
  }

  /** Blocks processed one after the other: block `b` started on the state the blocks before
      had left, and ran through `traces[b]`. */
  ghost predicate Chained(evm: Evm, blocks: seq<Block>, w: World, traces: seq<seq<World>>, receipts: seq<seq<Receipt>>,
                          n: nat)
  {
    && |traces| == |receipts| == n <= |blocks|
    && (forall b :: 0 <= b < n ==> |receipts[b]| == |blocks[b].txs| && |traces[b]| == |blocks[b].txs| + 1)
    && forall b :: 0 <= b < n ==>
         && Processed(evm, blocks[b], traces[b], receipts[b])
         && traces[b][0]
            == if b == 0 then w else blocks[b - 1].svc.reward(traces[b - 1][|blocks[b - 1].txs|])
  }

  lemma ChainedNext(evm: Evm, blocks: seq<Block>, w: World, traces: seq<seq<World>>, receipts: seq<seq<Receipt>>,
                    trace: seq<World>, rs: seq<Receipt>)
    requires Chained(evm, blocks, w, traces, receipts, |traces|) && |traces| < |blocks|
    requires |rs| == |blocks[|traces|].txs| && |trace| == |rs| + 1
    requires Processed(evm, blocks[|traces|], trace, rs)
    requires
      var n := |traces|;
      trace[0] == if n == 0 then w else blocks[n - 1].svc.reward(traces[n - 1][|blocks[n - 1].txs|])
    ensures Chained(evm, blocks, w, traces + [trace], receipts + [rs], |traces| + 1)
  {
    hide Processed;
  }

  /** Transaction `i` took a loan from the main chain. */
  predicate Borrowed(trace: seq<World>, block: Block, i: nat)
    requires i < |trace| && i < |block.txs|
  {
    var loan := Opening(trace[i], block.txs[i].msg, block.env).1;
    loan.WithdrawLoan? || loan.RechargeLoan?
  }

  lemma {:induction false} CreditAt(trace: seq<World>, block: Block, n: nat, i: nat)
    requires i < n <= |trace| && n <= |block.txs| && Borrowed(trace, block, i)
    ensures
      var place := |Credits(trace, block.txs, block.env, i)|;
      var all := Credits(trace, block.txs, block.env, n);
      place < |all| && all[place] == block.txs[i].msg.payload.main
  {
    hide Opening;
    if i < n - 1 {
      CreditAt(trace, block, n - 1, i);
    }
  }

  lemma {:induction false} ChainCreditsGrow(traces: seq<seq<World>>, blocks: seq<Block>, m: nat, n: nat)
    requires m <= n <= |traces| && n <= |blocks| && forall b :: 0 <= b < n ==> |traces[b]| == |blocks[b].txs| + 1
    ensures ChainCredits(traces, blocks, m) <= ChainCredits(traces, blocks, n)
  {
    if m < n {
      ChainCreditsGrow(traces, blocks, m, n - 1);
    }
  }

  /** Where a credit stands among all credits of a chain. */
  lemma ChainCreditAt(traces: seq<seq<World>>, blocks: seq<Block>, n: nat, b: nat, i: nat)
    requires b < n <= |traces| && n <= |blocks| && forall b :: 0 <= b < n ==> |traces[b]| == |blocks[b].txs| + 1
    requires i < |blocks[b].txs| && Borrowed(traces[b], blocks[b], i)
    ensures
      var place := |ChainCredits(traces, blocks, b)| + |Credits(traces[b], blocks[b].txs, blocks[b].env, i)|;
      var all := ChainCredits(traces, blocks, n);
      && place < |ChainCredits(traces, blocks, b + 1)| <= |all|
      && all[place] == blocks[b].txs[i].msg.payload.main
  {
    hide Borrowed, Credits;
    CreditAt(traces[b], blocks[b], |blocks[b].txs|, i);
    ChainCreditsGrow(traces, blocks, b + 1, n);
  }

  /** Two transactions of a chain without repeated credits are not credited for the same. */
  lemma CreditedApart(traces: seq<seq<World>>, blocks: seq<Block>, n: nat, b: nat, i: nat, c: nat, j: nat)
    requires b <= c < n <= |traces| && n <= |blocks|
    requires forall b :: 0 <= b < n ==> |traces[b]| == |blocks[b].txs| + 1
    requires i < |blocks[b].txs| && j < |blocks[c].txs| && (b == c ==> i < j)
    requires Borrowed(traces[b], blocks[b], i) && Borrowed(traces[c], blocks[c], j)
    requires
      var all := ChainCredits(traces, blocks, n);
      forall k, l :: 0 <= k < l < |all| ==> all[k] != all[l]
    ensures blocks[b].txs[i].msg.payload.main != blocks[c].txs[j].msg.payload.main
  {
    hide Borrowed, Credits, ChainCredits;
    ChainCreditAt(traces, blocks, n, b, i);
    ChainCreditAt(traces, blocks, n, c, j);
    var place := |ChainCredits(traces, blocks, b)| + |Credits(traces[b], blocks[b].txs, blocks[b].env, i)|;
    var later := |ChainCredits(traces, blocks, c)| + |Credits(traces[c], blocks[c].txs, blocks[c].env, j)|;
    assert place < later by {
      if b == c {
        CreditAt(traces[b], blocks[b], j, i);
      } else {
        ChainCreditsGrow(traces, blocks, b + 1, c);
      }
    }
  }

  lemma CreditedOnce(traces: seq<seq<World>>, blocks: seq<Block>, n: nat)
    requires n <= |traces| && n <= |blocks| && forall b :: 0 <= b < n ==> |traces[b]| == |blocks[b].txs| + 1
    requires
      var all := ChainCredits(traces, blocks, n);
      forall k, l :: 0 <= k < l < |all| ==> all[k] != all[l]
    ensures forall b, i, c, j ::
      0 <= b <= c < n && 0 <= i < |blocks[b].txs| && 0 <= j < |blocks[c].txs| && (b == c ==> i < j) ==>
        var first, second :=
          Opening(traces[b][i], blocks[b].txs[i].msg, blocks[b].env).1,
          Opening(traces[c][j], blocks[c].txs[j].msg, blocks[c].env).1;
        (first.WithdrawLoan? || first.RechargeLoan?) && (second.WithdrawLoan? || second.RechargeLoan?) ==>
          blocks[b].txs[i].msg.payload.main != blocks[c].txs[j].msg.payload.main
  {
    hide Opening, ChainCredits;
    forall b, i, c, j |
      && 0 <= b <= c < n && 0 <= i < |blocks[b].txs| && 0 <= j < |blocks[c].txs| && (b == c ==> i < j)
      && Borrowed(traces[b], blocks[b], i) && Borrowed(traces[c], blocks[c], j)
      ensures blocks[b].txs[i].msg.payload.main != blocks[c].txs[j].msg.payload.main
    {
      CreditedApart(traces, blocks, n, b, i, c, j);
    }
  }

  /** Along a chain of blocks every main-chain transaction is credited or refunded
      by at most one successful transaction. */
  method ProcessChain(w: World, blocks: seq<Block>, evm: Evm)
    returns (ok: bool, r: World, ghost traces: seq<seq<World>>, ghost receipts: seq<seq<Receipt>>,
      ghost credits: seq<Hash>)
    requires Sensible(evm) && Alive(w)
    requires forall i :: 0 <= i < |blocks| ==>
      Faithful(blocks[i].svc, blocks[i].env) && blocks[i].gasLimit <= MAX_UINT64
    ensures ok ==>
      Chained(evm, blocks, w, traces, receipts, |blocks|) && credits == ChainCredits(traces, blocks, |blocks|)
    ensures ok ==> forall i, j :: 0 <= i < j < |credits| ==> credits[i] != credits[j]
    ensures ok ==> forall m :: m in credits ==> m !in w.markers && m in r.markers
    ensures ok ==> forall b, i, c, j ::
      0 <= b <= c < |blocks| && 0 <= i < |blocks[b].txs| && 0 <= j < |blocks[c].txs| && (b == c ==> i < j) ==>
        var first, second :=
          Opening(traces[b][i], blocks[b].txs[i].msg, blocks[b].env).1,
          Opening(traces[c][j], blocks[c].txs[j].msg, blocks[c].env).1;
        (first.WithdrawLoan? || first.RechargeLoan?) && (second.WithdrawLoan? || second.RechargeLoan?) ==>
          blocks[b].txs[i].msg.payload.main != blocks[c].txs[j].msg.payload.main
    ensures ok ==> Alive(r)
  {
    hide Sensible, Faithful, Processed, Credits, Dealt, Succeeds, Opening, ChainCredits;
    r, traces, receipts, credits := w, [], [], [];
    DealtNone(w.markers);
    ChainCreditsNone(traces, blocks);
    for b := 0 to |blocks|
      invariant Alive(r) && Chained(evm, blocks, w, traces, receipts, b)
      invariant r == if b == 0 then w else blocks[b - 1].svc.reward(traces[b - 1][|blocks[b - 1].txs|])
      invariant credits == ChainCredits(traces, blocks, b) && Dealt(w.markers, r.markers, credits)
    {
      ghost var mid, trace := r.markers, [];
      var applied, rs, used, left;
      applied, r, rs, used, left, trace := Process(r, blocks[b], evm);
      if !applied {
        return false, r, traces, receipts, credits;
      }
      ghost var more := Credits(trace, blocks[b].txs, blocks[b].env, |blocks[b].txs|);
      DealtMore(w.markers, mid, r.markers, credits, more);
      ChainCreditsNext(traces, trace, blocks, b);
      ChainedNext(evm, blocks, w, traces, receipts, trace, rs);
      traces, receipts, credits := traces + [trace], receipts + [rs], credits + more;
    }
    DealtOnce(w.markers, r.markers, credits);
    CreditedOnce(traces, blocks, |blocks|);
    ok := true;
  }
}
