/** Applying one message: gas is bought and refunded, deposits from the main chain
    and refunds of failed withdrawals run on a temporary loan. */
module StateTransitions {
  import opened Basics
  import opened Ledger
  import opened GasPools
  import opened IntrinsicGases

  type Hash = nat

  /** The address of deposits, which is also where completion markers are kept. */
  const ZERO: Address := 0

  /** The part of the state this model looks at. A marker records that a main-chain
      transaction has been dealt with. */
  datatype World = World(balances: Balances, nonces: map<Address, nat>, markers: map<Hash, Hash>, refund: nat)

  function Pay(w: World, a: Address, amount: int): World {
    w.(balances := Credit(w.balances, a, amount))
  }

  function NonceOf(w: World, a: Address): nat {
    if a in w.nonces then w.nonces[a] else 0
  }

  /** What the data of a message to the zero address stands for. */
  datatype Payload =
    | Plain
    | WithdrawFailed(main: Hash)
    | Deposit(main: Hash)
    | SmallDeposit(main: Hash, verified: bool)

  datatype Message = Message(from: Address, to: Option<Address>, gas: nat, gasPrice: nat, nonce: nat, checkNonce: bool,
                             data: seq<nat>, payload: Payload, deploysBlackContract: bool)

  datatype Recharge = Recharge(target: Address, amount: int, fee: int)

  datatype RechargeData = RechargeData(recharges: seq<Recharge>, totalFee: nat)

  /** The chain configuration, the block context and the SPV service. */
  datatype Env = Env(passBalance: nat, coinbase: Address, developers: seq<Address>, split: bool, bridgeCall: bool,
                     homestead: bool, istanbul: bool, spv: Hash -> Option<RechargeData>)

  datatype VmError = Fine | RefundCallFailed | OtherError

  datatype Outcome = Outcome(world: World, gas: nat, vmerr: VmError)

  /** The EVM: runs a message on a state with some gas, for the i-th deposit entry if
      any. */
  type Evm = (Message, Env, World, nat, nat) -> Outcome

  /** All that is assumed of the EVM: it does not create gas, leaves the completion
      markers alone and does not lower the nonce of the zero address. */
  ghost predicate Sensible(evm: Evm) {
    forall m, e, w, g, i ::
      var r := evm(m, e, w, g, i);
      r.gas <= g && r.world.markers == w.markers && NonceOf(r.world, ZERO) >= NonceOf(w, ZERO)
  }

  datatype Error =
    | Refunded | MainTxHashPresence | ElaToEthAddress | SmallCrossTxVerify
    | NonceTooHigh | NonceTooLow | InsufficientBalanceForGas | GasLimitReached | OutOfIntrinsicGas
    | WithdrawRefundFailed

  /** Why a message runs on a loan. */
  datatype Loan = NoLoan | WithdrawLoan | RechargeLoan(data: RechargeData) | BlackContractLoan

  predicate Usable(d: Option<RechargeData>) {
    && d.Some? && d.value.recharges != []
    && forall i :: 0 <= i < |d.value.recharges| ==>
         d.value.recharges[i].target != ZERO && d.value.recharges[i].amount >= d.value.recharges[i].fee
  }

  /** How a message starts: with an error, or with or without a loan. */
  function Opening(w: World, msg: Message, env: Env): (r: (Option<Error>, Loan))
    ensures r.1.WithdrawLoan? || r.1.RechargeLoan? ==> !msg.payload.Plain?
  {
    if msg.to == Some(ZERO) then
      match msg.payload
      case WithdrawFailed(main) => if main in w.markers then (Some(Refunded), NoLoan) else (None, WithdrawLoan)
      case Deposit(main) => OpenDeposit(w, env, main)
      case SmallDeposit(main, verified) =>
        if !verified then (Some(SmallCrossTxVerify), NoLoan) else OpenDeposit(w, env, main)
      case Plain => (None, NoLoan)
    else if msg.to == None && msg.deploysBlackContract then (None, BlackContractLoan)
    else (None, NoLoan)
  }

  function OpenDeposit(w: World, env: Env, main: Hash): (Option<Error>, Loan) {
    var d := env.spv(main);
    if d.None? || d.value.recharges == [] then (Some(ElaToEthAddress), NoLoan)
    else if main in w.markers then (Some(MainTxHashPresence), NoLoan)
    else if !Usable(d) then (Some(ElaToEthAddress), NoLoan)
    else (None, RechargeLoan(d.value))
  }

  /** Which messages are refused at once, and which run on a loan. */
  lemma OpeningExactly(w: World, msg: Message, env: Env)
    ensures
      var (start, loan) := Opening(w, msg, env);
      if msg.to == Some(ZERO) && msg.payload.WithdrawFailed? then
        if msg.payload.main in w.markers then start == Some(Refunded) else start == None && loan == WithdrawLoan
      else if msg.to == Some(ZERO) && msg.payload.SmallDeposit? && !msg.payload.verified then
        start == Some(SmallCrossTxVerify)
      else if msg.to == Some(ZERO) && !msg.payload.Plain? then
        var d := env.spv(msg.payload.main);
        if d.None? || d.value.recharges == [] then start == Some(ElaToEthAddress)
        else if msg.payload.main in w.markers then start == Some(MainTxHashPresence)
        else if exists e :: e in d.value.recharges && (e.target == 0 || e.amount < e.fee) then
          start == Some(ElaToEthAddress)
        else start == None && loan == RechargeLoan(d.value)
      else start == None && loan == if msg.to == None && msg.deploysBlackContract then BlackContractLoan else NoLoan
  {
    if msg.to == Some(ZERO) && (msg.payload.Deposit? || msg.payload.SmallDeposit?) {
      UsableExactly(env.spv(msg.payload.main));
    }
  }

  lemma UsableExactly(d: Option<RechargeData>)
    ensures d.Some? && d.value.recharges != [] ==>
      (Usable(d) <==> forall e :: e in d.value.recharges ==> e.target != 0 && e.amount >= e.fee)
  {
  }

  /** The state once the loan has been taken. */
  function Begun(w: World, msg: Message, env: Env, loan: Loan): World {
    if loan.NoLoan? then w else Pay(w, msg.from, env.passBalance)
  }

  /** The EVM called for entries `i` to `n`, each on what the one before has left. */
  function Ran(evm: Evm, msg: Message, env: Env, w: World, gas: nat, vmerr: VmError, i: nat, n: nat): Outcome
    decreases n - i
  {
    if i >= n then Outcome(w, gas, vmerr)
    else
      var r := evm(msg, env, w, gas, i);
      Ran(evm, msg, env, r.world, r.gas, r.vmerr, i + 1, n)
  }

  function IntrinsicOf(msg: Message, env: Env): nat {
    ExactGas(msg.data, msg.to.None?, env.homestead, env.istanbul, msg.payload.SmallDeposit?)
  }

  /** The state the EVM starts from: the gas is paid and the nonce has moved on,
      except for a contract creation. */
  function Prepared(w: World, msg: Message): World {
    var paid := Pay(w, msg.from, -(msg.gas * msg.gasPrice));
    if msg.to.Some? then paid.(nonces := paid.nonces[msg.from := NonceOf(paid, msg.from) + 1]) else paid
  }

  lemma PreparedExactly(w: World, msg: Message)
    ensures Total(Prepared(w, msg).balances) == Total(w.balances) - msg.gas * msg.gasPrice
    ensures forall a ::
      Balance(Prepared(w, msg).balances, a)
      == Balance(w.balances, a) - if a == msg.from then msg.gas * msg.gasPrice else 0
    ensures forall a :: NonceOf(Prepared(w, msg), a) == NonceOf(w, a) + if a == msg.from && msg.to.Some? then 1 else 0
    ensures Prepared(w, msg).markers == w.markers && Prepared(w, msg).refund == w.refund
  {
    hide Total;
    TotalCredit(w.balances, msg.from, -(msg.gas * msg.gasPrice));
  }

  /** What comes back from the EVM for a message whose gas is bought on `w`. */
  function Executed(evm: Evm, msg: Message, env: Env, w: World, loan: Loan): Outcome
    requires IntrinsicOf(msg, env) <= msg.gas
  {
    Ran(evm, msg, env, Prepared(w, msg), msg.gas - IntrinsicOf(msg, env), Fine, 0,
        if loan.RechargeLoan? then |loan.data.recharges| else 1)
  }

  /** Why a message fails on `w`, with `pool` gas left in the block. */
  function ErrorIn(evm: Evm, msg: Message, env: Env, w: World, loan: Loan, pool: nat): Option<Error> {
    if msg.checkNonce && NonceOf(w, msg.from) < msg.nonce then Some(NonceTooHigh)
    else if msg.checkNonce && NonceOf(w, msg.from) > msg.nonce then Some(NonceTooLow)
    else if Balance(w.balances, msg.from) < msg.gas * msg.gasPrice then Some(InsufficientBalanceForGas)
    else if pool < msg.gas then Some(GasLimitReached)
    else if IntrinsicOf(msg, env) > msg.gas then Some(OutOfIntrinsicGas)
    else if Executed(evm, msg, env, w, loan).vmerr == RefundCallFailed then Some(WithdrawRefundFailed)
    else None
  }

  lemma {:induction false} RanSensibly(evm: Evm, msg: Message, env: Env, w: World, gas: nat, vmerr: VmError, i: nat,
                                       n: nat)
    requires Sensible(evm)
    ensures
      var r := Ran(evm, msg, env, w, gas, vmerr, i, n);
      r.gas <= gas && r.world.markers == w.markers && NonceOf(r.world, ZERO) >= NonceOf(w, ZERO)
    decreases n - i
  {
    if i < n {
      var r := evm(msg, env, w, gas, i);
      RanSensibly(evm, msg, env, r.world, r.gas, r.vmerr, i + 1, n);
    }
  }

  /* ---------- who is paid ---------- */

  /** The developers' share each: half of the fee between them, rounded down. */
  function Share(env: Env, fee: nat): (s: nat)
    ensures env.developers == [] || !env.split ==> s == 0
    ensures env.developers != [] && env.split ==>
      2 * |env.developers| * s <= fee < 2 * |env.developers| * (s + 1)
  {
    if env.developers == [] || !env.split then 0
    else
      Halves(fee, |env.developers|);
      fee * 50 / 100 / |env.developers|
  }

  lemma Halves(fee: nat, n: nat)
    requires n > 0
    ensures
      var s := fee * 50 / 100 / n;
      2 * n * s <= fee < 2 * n * (s + 1)
  {
    var half, s := fee * 50 / 100, fee * 50 / 100 / n;
    assert half == fee / 2;
    assert half == s * n + half % n;
    assert 2 * n * (s + 1) == 2 * (s * n) + 2 * n && 2 * n * s == 2 * (s * n);
  }

  /** How often `a` is listed. */
  function Listed(accounts: seq<Address>, a: Address): nat {
    if accounts == [] then 0
    else Listed(accounts[..|accounts| - 1], a) + if accounts[|accounts| - 1] == a then 1 else 0
  }

  lemma {:induction false} ListedOnce(accounts: seq<Address>, a: Address)
    requires forall i, j :: 0 <= i < j < |accounts| ==> accounts[i] != accounts[j]
    ensures Listed(accounts, a) == if a in accounts then 1 else 0
    decreases |accounts|
  {
    if accounts != [] {
      var front := accounts[..|accounts| - 1];
      ListedOnce(front, a);
      assert accounts == front + [accounts[|accounts| - 1]];
    }
  }

  /** `share` credited to each of `accounts`. */
  function SharedOut(b: Balances, accounts: seq<Address>, share: int): Balances {
    if accounts == [] then b
    else Credit(SharedOut(b, accounts[..|accounts| - 1], share), accounts[|accounts| - 1], share)
  }

  /** The balances after a fee has been paid: back to the sender if the message runs
      free of charge, else half of it between the developers and the rest to the
      miner. */
  function FeePaid(b: Balances, from: Address, env: Env, fee: nat, free: bool): Balances {
    if free then Credit(b, from, fee)
    else if env.developers != [] && env.split then
      Credit(SharedOut(b, env.developers, Share(env, fee)), env.coinbase, fee - |env.developers| * Share(env, fee))
    else Credit(b, env.coinbase, fee)
  }

  lemma OneMoreShare(n: nat, share: int)
    ensures (n + 1) * share == n * share + share
  {
  }

  lemma {:induction false} SharedOutTotal(b: Balances, accounts: seq<Address>, share: int)
    ensures Total(SharedOut(b, accounts, share)) == Total(b) + |accounts| * share
    decreases |accounts|
  {
    hide Total;
    if accounts != [] {
      var n := |accounts| - 1;
      var front := accounts[..n];
      SharedOutTotal(b, front, share);
      TotalCredit(SharedOut(b, front, share), accounts[n], share);
      OneMoreShare(n, share);
    }
  }

  lemma {:induction false} SharedOutEach(b: Balances, accounts: seq<Address>, share: int, a: Address)
    ensures Balance(SharedOut(b, accounts, share), a) == Balance(b, a) + Listed(accounts, a) * share
    decreases |accounts|
  {
    if accounts != [] {
      var n := |accounts| - 1;
      SharedOutEach(b, accounts[..n], share, a);
      OneMoreShare(Listed(accounts[..n], a), share);
    }
  }

  /** Nothing of the fee is lost or created. */
  lemma FeePaidTotal(b: Balances, from: Address, env: Env, fee: nat, free: bool)
    ensures Total(FeePaid(b, from, env, fee, free)) == Total(b) + fee
  {
    hide Total, Share;
    TotalCredit(b, from, fee);
    TotalCredit(b, env.coinbase, fee);
    if env.developers != [] {
      var share := Share(env, fee);
      SharedOutTotal(b, env.developers, share);
      TotalCredit(SharedOut(b, env.developers, share), env.coinbase, fee - |env.developers| * share);
    }
  }

  /** Who gets which part of the fee. */
  lemma FeePaidEach(b: Balances, from: Address, env: Env, fee: nat, free: bool, a: Address)
    ensures free ==> Balance(FeePaid(b, from, env, fee, free), a) == Balance(b, a) + if a == from then fee else 0
    ensures !free && (env.developers == [] || !env.split) ==>
      Balance(FeePaid(b, from, env, fee, free), a) == Balance(b, a) + if a == env.coinbase then fee else 0
    ensures !free && env.developers != [] && env.split ==>
      Balance(FeePaid(b, from, env, fee, free), a)
      == Balance(b, a) + Listed(env.developers, a) * Share(env, fee)
         + if a == env.coinbase then fee - |env.developers| * Share(env, fee) else 0
  {
    hide Share;
    SharedOutEach(b, env.developers, Share(env, fee), a);
  }

  /** The miner keeps at least half of the fee, and less than a share more. */
  lemma MinerKeepsHalf(env: Env, fee: nat)
    requires env.developers != [] && env.split
    ensures fee <= 2 * (fee - |env.developers| * Share(env, fee)) < fee + 2 * |env.developers|
  {
    var n, s := |env.developers|, Share(env, fee);
    assert 2 * n * (s + 1) == 2 * (n * s) + 2 * n && 2 * n * s == 2 * (n * s);
  }

  /** What an amount of gas costs. */
  function CostOf(msg: Message, gas: nat): nat {
    gas * msg.gasPrice
  }

  lemma FeeSplit(a: nat, b: nat, p: nat)
    requires b <= a
    ensures (a - b) * p + b * p == a * p
  {
  }

  /** What is left to pay once the EVM is done: the sender gets `kept` for gas not used,
      the fee goes where it belongs. */
  function Closed(w: World, msg: Message, env: Env, kept: nat, fee: nat, free: bool): World {
    var paid := Pay(w, msg.from, kept);
    paid.(balances := FeePaid(paid.balances, msg.from, env, fee, free))
  }

  lemma ClosedTotal(w: World, msg: Message, env: Env, kept: nat, fee: nat, free: bool)
    ensures Total(Closed(w, msg, env, kept, fee, free).balances) == Total(w.balances) + kept + fee
  {
    hide Total, FeePaid;
    TotalCredit(w.balances, msg.from, kept);
    FeePaidTotal(Pay(w, msg.from, kept).balances, msg.from, env, fee, free);
  }

  /** The fee a free message gets back, or what another one pays to `a`. */
  ghost predicate PaidTo(was: Balances, now: Balances, msg: Message, env: Env, kept: int, fee: nat, free: bool,
                         a: Address)
  {
    Balance(now, a)
    == Balance(was, a) + (if a == msg.from then kept else 0)
       + if free then (if a == msg.from then fee else 0)
         else Listed(env.developers, a) * Share(env, fee)
              + if a == env.coinbase then fee - |env.developers| * Share(env, fee) else 0
  }

  lemma ClosedEach(w: World, msg: Message, env: Env, kept: nat, fee: nat, free: bool, a: Address)
    ensures PaidTo(w.balances, Closed(w, msg, env, kept, fee, free).balances, msg, env, kept, fee, free, a)
  {
    hide FeePaid, Share;
    FeePaidEach(Pay(w, msg.from, kept).balances, msg.from, env, fee, free, a);
    if env.developers == [] || !env.split {
      assert Listed(env.developers, a) * 0 == 0 && |env.developers| * 0 == 0;
    }
  }

  /* ---------- the transition ---------- */

  class StateTransition {
    const gp: GasPool
    const msg: Message
    const env: Env
    const evm: Evm
    var world: World
    var gas: nat
    var initialGas: nat
    var vmerr: VmError
    ghost var repaid: nat  // number of times the loan was paid back

    constructor (gp: GasPool, msg: Message, env: Env, evm: Evm, world: World)
      ensures this.gp == gp && this.msg == msg && this.env == env && this.evm == evm && this.world == world
      ensures gas == 0 && initialGas == 0 && repaid == 0 && vmerr == Fine
    {
      this.gp, this.msg, this.env, this.evm, this.world := gp, msg, env, evm, world;
      gas, initialGas, repaid, vmerr := 0, 0, 0, Fine;
    }

    /** Buys the gas of the message from the sender and from the block. */
    method BuyGas() returns (err: Option<Error>)
      requires gas == 0
      modifies this`world, this`gas, this`initialGas, gp
      ensures err
        == if Balance(old(world).balances, msg.from) < msg.gas * msg.gasPrice then Some(InsufficientBalanceForGas)
           else if old(gp.gas) < msg.gas then Some(GasLimitReached)
           else None
      ensures err.Some? ==> unchanged(this) && gp.gas == old(gp.gas)
      ensures err.None? ==> gas == initialGas == msg.gas && gp.gas == old(gp.gas) - msg.gas
      ensures err.None? ==> world == Pay(old(world), msg.from, -(msg.gas * msg.gasPrice))
    {
      var mgval := msg.gas * msg.gasPrice;
      if Balance(world.balances, msg.from) < mgval {
        return Some(InsufficientBalanceForGas);
      }
      var ok := gp.SubGas(msg.gas);
      if !ok {
        return Some(GasLimitReached);
      }
      gas, initialGas := gas + msg.gas, msg.gas;
      world := Pay(world, msg.from, -mgval);
      return None;
    }

    method PreCheck() returns (err: Option<Error>)
      requires gas == 0
      modifies this`world, this`gas, this`initialGas, gp
      ensures err
        == if msg.checkNonce && NonceOf(old(world), msg.from) < msg.nonce then Some(NonceTooHigh)
           else if msg.checkNonce && NonceOf(old(world), msg.from) > msg.nonce then Some(NonceTooLow)
           else if Balance(old(world).balances, msg.from) < msg.gas * msg.gasPrice then Some(InsufficientBalanceForGas)
           else if old(gp.gas) < msg.gas then Some(GasLimitReached)
           else None
      ensures err.Some? ==> unchanged(this) && gp.gas == old(gp.gas)
      ensures err.None? ==> gas == initialGas == msg.gas && gp.gas == old(gp.gas) - msg.gas
      ensures err.None? ==> world == Pay(old(world), msg.from, -(msg.gas * msg.gasPrice))
    {
      if msg.checkNonce {
        var nonce := NonceOf(world, msg.from);
        if nonce < msg.nonce {
          return Some(NonceTooHigh);
        } else if nonce > msg.nonce {
          return Some(NonceTooLow);
        }
      }
      err := BuyGas();
    }

    method UseGas(amount: nat) returns (ok: bool)
      modifies this`gas
      ensures ok <==> amount <= old(gas)
      ensures gas == if ok then old(gas) - amount else old(gas)
    {
      ok := gas >= amount;
      if ok {
        gas := gas - amount;
      }
    }

    /** Runs the EVM, once or once per deposit entry. */
    method Call(calls: nat)
      modifies this`world, this`gas, this`vmerr
      ensures Outcome(world, gas, vmerr) == Ran(evm, msg, env, old(world), old(gas), old(vmerr), 0, calls)
    {
      for i := 0 to calls
        invariant Ran(evm, msg, env, world, gas, vmerr, i, calls)
          == Ran(evm, msg, env, old(world), old(gas), old(vmerr), 0, calls)
      {
        var r := evm(msg, env, world, gas, i);
        world, gas, vmerr := r.world, r.gas, r.vmerr;
      }
    }

    function GasUsed(): int
      reads this
    {
      initialGas - gas
    }

    /** Returns unused gas to the sender and to the block; up to half of the used
        gas is refunded, or all of it for a bridge call. */
    method RefundGas(bridge: bool)
      requires gas <= initialGas && gp.gas + initialGas <= MAX_UINT64
      modifies this`world, this`gas, gp
      ensures old(gas) <= gas <= initialGas && gp.gas == old(gp.gas) + gas
      ensures GasUsed() == if bridge then 0 else old(GasUsed()) - Min(old(GasUsed()) / 2, old(world).refund)
      ensures world == Pay(old(world), msg.from, gas * msg.gasPrice)
    {
      var refund := GasUsed();
      if !bridge {
        refund := GasUsed() / 2;
        if refund > world.refund {
          refund := world.refund;
        }
      }
      gas := gas + refund;
      world := Pay(world, msg.from, gas * msg.gasPrice);
      gp.AddGas(gas);
    }

    /** Distributes the fee for the used gas. */
    method PayFee(free: bool)
      requires GasUsed() >= 0
      modifies this`world
      ensures world
        == old(world).(balances := FeePaid(old(world).balances, msg.from, env, GasUsed() * msg.gasPrice, free))
    {
      var fee := GasUsed() * msg.gasPrice;
      if free {
        world := Pay(world, msg.from, fee);
        return;
      }
      var minerFee := fee;
      if |env.developers| > 0 && env.split {
        var subFee := fee * 50 / 100 / |env.developers|;
        for i := 0 to |env.developers|
          invariant minerFee + i * subFee == fee
          invariant world == old(world).(balances := SharedOut(old(world).balances, env.developers[..i], subFee))
        {
          assert env.developers[..i + 1][..i] == env.developers[..i];
          world := Pay(world, env.developers[i], subFee);
          minerFee := minerFee - subFee;
        }
        assert env.developers[..|env.developers|] == env.developers;
      }
      world := Pay(world, env.coinbase, minerFee);
    }

    /** The body of the transition, between taking the loan and settling it. */
    method Execute(loan: Loan) returns (err: Option<Error>)
      requires Sensible(evm) && gas == initialGas == 0 && vmerr == Fine && gp.gas <= MAX_UINT64
      modifies this`world, this`gas, this`initialGas, this`vmerr, gp
      ensures err.None? ==> 0 <= GasUsed() <= msg.gas && gp.gas == old(gp.gas) - GasUsed()
      ensures err == ErrorIn(evm, msg, env, old(world), loan, old(gp.gas))
      ensures err.None? ==>
        var out := Executed(evm, msg, env, old(world), loan);
        && vmerr == out.vmerr && out.gas <= msg.gas
        && GasUsed() == UsedBy(msg, env, out)
        && world
           == Closed(out.world, msg, env, CostOf(msg, msg.gas - GasUsed()), CostOf(msg, GasUsed()),
                     loan.WithdrawLoan? || loan.BlackContractLoan?)
    {
      hide Sensible, IntrinsicOf, Prepared, Ran, Closed;
      err := Prepare();
      if err.Some? {
        return;
      }
      RanSensibly(evm, msg, env, world, gas, vmerr, 0, if loan.RechargeLoan? then |loan.data.recharges| else 1);
      Call(if loan.RechargeLoan? then |loan.data.recharges| else 1);
      if vmerr == RefundCallFailed {
        return Some(WithdrawRefundFailed);
      }
      Finish(loan.WithdrawLoan? || loan.BlackContractLoan?);
    }

    /** Everything before the EVM runs. */
    method Prepare() returns (err: Option<Error>)
      requires gas == 0 && gp.gas <= MAX_UINT64
      modifies this`world, this`gas, this`initialGas, gp
      ensures err
        == if msg.checkNonce && NonceOf(old(world), msg.from) < msg.nonce then Some(NonceTooHigh)
           else if msg.checkNonce && NonceOf(old(world), msg.from) > msg.nonce then Some(NonceTooLow)
           else if Balance(old(world).balances, msg.from) < msg.gas * msg.gasPrice then Some(InsufficientBalanceForGas)
           else if old(gp.gas) < msg.gas then Some(GasLimitReached)
           else if IntrinsicOf(msg, env) > msg.gas then Some(OutOfIntrinsicGas)
           else None
      ensures err.None? ==> world == Prepared(old(world), msg)
      ensures err.None? ==> initialGas == msg.gas && gas == msg.gas - IntrinsicOf(msg, env)
      ensures err.None? ==> gp.gas == old(gp.gas) - msg.gas
    {
      hide ExactGas;
      err := PreCheck();
      if err.Some? {
        return;
      }
      var intrinsic := IntrinsicGas(msg.data, msg.to.None?, env.homestead, env.istanbul, msg.payload.SmallDeposit?);
      if intrinsic.OutOfGas? {
        return Some(OutOfIntrinsicGas);
      }
      var ok := UseGas(intrinsic.value);
      if !ok {
        return Some(OutOfIntrinsicGas);
      }
      if msg.to.Some? {
        world := world.(nonces := world.nonces[msg.from := NonceOf(world, msg.from) + 1]);
      }
    }

    /** Refunds and fees. */
    method Finish(free: bool)
      requires gas <= initialGas && gp.gas + initialGas <= MAX_UINT64
      modifies this`world, this`gas, gp
      ensures gas <= initialGas && gp.gas == old(gp.gas) + gas
      ensures GasUsed()
        == if env.bridgeCall && vmerr == Fine then 0
           else old(GasUsed()) - Min(old(GasUsed()) / 2, old(world).refund)
      ensures world == Closed(old(world), msg, env, CostOf(msg, gas), CostOf(msg, GasUsed()), free)
    {
      hide FeePaid;
      RefundGas(env.bridgeCall && vmerr == Fine);
      PayFee(free);
    }

    /** The deferred settlement of a loan: paid back out of the sender's balance, or
        everything is undone. */
    method Settle(snapshot: World, loan: Loan, err0: Option<Error>) returns (err: Option<Error>)
      requires repaid == 0 && !loan.NoLoan?
      modifies this`world, this`repaid
      ensures repaid
        == if && (loan.WithdrawLoan? ==>
                    vmerr == Fine && Balance(old(world).balances, msg.from) >= GasUsed() * msg.gasPrice)
              && (loan.RechargeLoan? ==>
                    && (forall i :: 0 <= i < |loan.data.recharges| ==> loan.data.recharges[i].fee > 0)
                    && loan.data.totalFee >= GasUsed() * msg.gasPrice)
              && Balance(old(world).balances, msg.from) + Extra(loan) >= env.passBalance
           then 1 else 0
      ensures repaid == 0 ==> world == snapshot && err == if err0.Some? then err0 else Some(GasLimitReached)
      ensures repaid == 1 ==> err == err0 && world == Settled(old(world), msg.from, env, loan)
    {
      err := if err0.None? then Some(GasLimitReached) else err0;
      var fee := GasUsed() * msg.gasPrice;
      if loan.WithdrawLoan? {
        if Balance(world.balances, msg.from) < fee || vmerr != Fine {
          world := snapshot;
          return;
        }
      } else if loan.RechargeLoan? {
        for i := 0 to |loan.data.recharges|
          invariant forall k :: 0 <= k < i ==> loan.data.recharges[k].fee > 0
          invariant repaid == 0 && world == old(world)
        {
          if loan.data.recharges[i].fee <= 0 {
            world := snapshot;
            return;
          }
        }
        world := Pay(world, msg.from, loan.data.totalFee);
        if loan.data.totalFee < fee {
          world := snapshot;
          return;
        }
      }
      if Balance(world.balances, msg.from) < env.passBalance {
        world := snapshot;
        return;
      }
      world := Pay(world, msg.from, 0 - env.passBalance);
      repaid := repaid + 1;
      err := err0;
    }

    /** A whole transition. On success the message used the gas the EVM did not return,
        less the refund, or none in a bridge call; the unused gas is paid back to the
        sender, the fee goes to sender, miner or developers, and a loan is settled. */
    method TransitionDb() returns (err: Option<Error>, used: nat)
      requires Sensible(evm) && gas == initialGas == 0 && repaid == 0 && vmerr == Fine && gp.gas <= MAX_UINT64
      modifies this, gp
      ensures
        var (start, loan) := Opening(old(world), msg, env);
        && (start.Some? ==> err == start && world == old(world) && gp.gas == old(gp.gas))
        && (start.None? && loan.NoLoan? ==>
              repaid == 0 && err == ErrorIn(evm, msg, env, old(world), loan, old(gp.gas)))
        && (start.None? && !loan.NoLoan? ==>
              && (repaid == 1 || (repaid == 0 && err.Some? && world == old(world)))
              && (err.None? <==>
                    repaid == 1 && ErrorIn(evm, msg, env, Begun(old(world), msg, env, loan), loan, old(gp.gas)).None?))
        && (err.None? <==> Succeeds(evm, msg, env, old(world), old(gp.gas)))
        && (err.None? ==>
              && start.None? && Closing(evm, msg, env, old(world), loan, used, world)
              && used == UsedBy(msg, env, Executed(evm, msg, env, Begun(old(world), msg, env, loan), loan)))
        && (err.None? && loan.WithdrawLoan? ==> vmerr == Fine)
        && (err.None? && loan.RechargeLoan? ==>
              && (forall i :: 0 <= i < |loan.data.recharges| ==> loan.data.recharges[i].fee > 0)
              && loan.data.totalFee >= used * msg.gasPrice)
      ensures err.None? ==> used == GasUsed() && used <= msg.gas && gp.gas + used == old(gp.gas)
      ensures err.None? ==>
        var loan := Opening(old(world), msg, env).1;
        var intrinsic :=
          ExactGas(msg.data, msg.to.None?, env.homestead, env.istanbul, msg.payload.SmallDeposit?);
        && intrinsic <= msg.gas
        && var out := Ran(evm, msg, env, Prepared(Begun(old(world), msg, env, loan), msg), msg.gas - intrinsic, Fine, 0,
                          if loan.RechargeLoan? then |loan.data.recharges| else 1);
           && out.gas <= msg.gas
           && used == (if env.bridgeCall && out.vmerr == Fine then 0
                       else (msg.gas - out.gas) - Min((msg.gas - out.gas) / 2, out.world.refund))
           && forall a ::
                Balance(world.balances, a)
                == Balance(out.world.balances, a)
                   + (if a == msg.from then CostOf(msg, msg.gas - used) else 0)
                   + (if a == msg.from && loan.RechargeLoan? then loan.data.totalFee else 0)
                   - (if a == msg.from && !loan.NoLoan? then env.passBalance else 0)
                   + if loan.WithdrawLoan? || loan.BlackContractLoan? then
                       if a == msg.from then CostOf(msg, used) else 0
                     else
                       var share := Share(env, CostOf(msg, used));
                       Listed(env.developers, a) * share
                       + if a == env.coinbase then CostOf(msg, used) - |env.developers| * share else 0
      ensures err.None? ==>
        var loan := Opening(old(world), msg, env).1;
        var begun := Begun(old(world), msg, env, loan);
        && repaid == (if loan.NoLoan? then 0 else 1)
        && Total(world.balances)
           == Total(old(world).balances) + Extra(loan)
              + Total(Executed(evm, msg, env, begun, loan).world.balances) - Total(Prepared(begun, msg).balances)
      ensures err.None? ==> world.markers == old(world).markers && NonceOf(world, ZERO) >= NonceOf(old(world), ZERO)
    {
      hide Opening, UsedBy, Closing, Begun, ExactGas, Share, Listed, ErrorIn, Total, Prepared, Succeeds, Ran;
      err, used := Transit();
      if err.None? {
        ghost var loan := Opening(old(world), msg, env).1;
        ClosingTotal(evm, msg, env, old(world), loan, used, world);
        ClosingMarkers(evm, msg, env, old(world), loan, used, world);
        ClosingFits(evm, msg, env, old(world), loan, used, world);
        UsedExactly(evm, msg, env, Begun(old(world), msg, env, loan), loan);
        ghost var out := Executed(evm, msg, env, Begun(old(world), msg, env, loan), loan);
        forall a
          ensures
            Balance(world.balances, a)
            == Balance(out.world.balances, a)
               + (if a == msg.from then CostOf(msg, msg.gas - used) else 0)
               + (if a == msg.from && loan.RechargeLoan? then loan.data.totalFee else 0)
               - (if a == msg.from && !loan.NoLoan? then env.passBalance else 0)
               + if loan.WithdrawLoan? || loan.BlackContractLoan? then
                   if a == msg.from then CostOf(msg, used) else 0
                 else
                   var share := Share(env, CostOf(msg, used));
                   Listed(env.developers, a) * share
                   + if a == env.coinbase then CostOf(msg, used) - |env.developers| * share else 0
        {
          ClosingEach(evm, msg, env, old(world), loan, used, world, a);
        }
      }
    }

    /** The steps of a transition. */
    method Transit() returns (err: Option<Error>, used: nat)
      requires Sensible(evm) && gas == initialGas == 0 && repaid == 0 && vmerr == Fine && gp.gas <= MAX_UINT64
      modifies this, gp
      ensures
        var (start, loan) := Opening(old(world), msg, env);
        && (start.Some? ==> err == start && world == old(world) && gp.gas == old(gp.gas))
        && (start.None? && loan.NoLoan? ==>
              repaid == 0 && err == ErrorIn(evm, msg, env, old(world), loan, old(gp.gas)))
        && (start.None? && !loan.NoLoan? ==>
              && (repaid == 1 || (repaid == 0 && err.Some? && world == old(world)))
              && (err.None? <==>
                    repaid == 1 && ErrorIn(evm, msg, env, Begun(old(world), msg, env, loan), loan, old(gp.gas)).None?))
        && (err.None? <==> Succeeds(evm, msg, env, old(world), old(gp.gas)))
        && (err.None? ==>
              && start.None? && Closing(evm, msg, env, old(world), loan, used, world)
              && used == UsedBy(msg, env, Executed(evm, msg, env, Begun(old(world), msg, env, loan), loan)))
        && (err.None? && loan.WithdrawLoan? ==> vmerr == Fine)
        && (err.None? && loan.RechargeLoan? ==>
              && (forall i :: 0 <= i < |loan.data.recharges| ==> loan.data.recharges[i].fee > 0)
              && loan.data.totalFee >= used * msg.gasPrice)
      ensures err.None? ==> used == GasUsed() && used <= msg.gas && gp.gas + used == old(gp.gas)
    {
      hide Sensible, Ran, IntrinsicOf, Prepared, Opening, Closed, Executed, UsedBy;
      var snapshot := world;
      var (start, loan) := Opening(world, msg, env);
      if start.Some? {
        return start, 0;
      }
      if !loan.NoLoan? {
        world := Pay(world, msg.from, env.passBalance);
      }
      err := Execute(loan);
      used := if err.None? then GasUsed() else 0;
      if !loan.NoLoan? {
        err := Settle(snapshot, loan, err);
        if err.Some? {
          used := 0;
        }
      }
    }
  }

  /** The gas a message is charged for what the EVM returns. */
  function UsedBy(msg: Message, env: Env, out: Outcome): int {
    var burnt := msg.gas - out.gas;
    if env.bridgeCall && out.vmerr == Fine then 0
    else if burnt / 2 <= out.world.refund then burnt - burnt / 2 else burnt - out.world.refund
  }

  lemma UsedExactly(evm: Evm, msg: Message, env: Env, w: World, loan: Loan)
    requires Sensible(evm) && IntrinsicOf(msg, env) <= msg.gas
    ensures
      var out := Executed(evm, msg, env, w, loan);
      && out.gas <= msg.gas
      && UsedBy(msg, env, out)
         == if env.bridgeCall && out.vmerr == Fine then 0
            else (msg.gas - out.gas) - Min((msg.gas - out.gas) / 2, out.world.refund)
  {
    hide Ran, Prepared, IntrinsicOf;
    RanSensibly(evm, msg, env, Prepared(w, msg), msg.gas - IntrinsicOf(msg, env), Fine, 0,
                if loan.RechargeLoan? then |loan.data.recharges| else 1);
  }

  lemma ClosingFits(evm: Evm, msg: Message, env: Env, w: World, loan: Loan, used: nat, r: World)
    requires Closing(evm, msg, env, w, loan, used, r)
    ensures IntrinsicOf(msg, env) <= msg.gas
  {
  }

  /** The state after a message that used `used` gas on `w`: what the EVM returned, with all
      payments made. */
  function Afterwards(evm: Evm, msg: Message, env: Env, w: World, loan: Loan, used: nat): World
    requires IntrinsicOf(msg, env) <= msg.gas && used <= msg.gas
  {
    var closed := Closed(Executed(evm, msg, env, Begun(w, msg, env, loan), loan).world, msg, env,
                         CostOf(msg, msg.gas - used), CostOf(msg, used), loan.WithdrawLoan? || loan.BlackContractLoan?);
    if loan.NoLoan? then closed else Settled(closed, msg.from, env, loan)
  }

  ghost predicate Closing(evm: Evm, msg: Message, env: Env, w: World, loan: Loan, used: nat, r: World) {
    && IntrinsicOf(msg, env) <= msg.gas && used <= msg.gas
    && r == Afterwards(evm, msg, env, w, loan, used)
  }

  /** Whether a loan can be settled after the EVM has returned `out`. */
  predicate Repayable(msg: Message, env: Env, loan: Loan, out: Outcome, used: nat)
    requires used <= msg.gas
  {
    var balance := Balance(Closed(out.world, msg, env, CostOf(msg, msg.gas - used), CostOf(msg, used),
                                  loan.WithdrawLoan? || loan.BlackContractLoan?).balances, msg.from);
    && (loan.WithdrawLoan? ==> out.vmerr == Fine && balance >= CostOf(msg, used))
    && (loan.RechargeLoan? ==>
          && (forall i :: 0 <= i < |loan.data.recharges| ==> loan.data.recharges[i].fee > 0)
          && loan.data.totalFee >= CostOf(msg, used))
    && balance + Extra(loan) >= env.passBalance
  }

  /** Whether a message succeeds on `w`, with `pool` gas left in the block. */
  ghost predicate Succeeds(evm: Evm, msg: Message, env: Env, w: World, pool: nat) {
    var (start, loan) := Opening(w, msg, env);
    var begun := Begun(w, msg, env, loan);
    && start.None? && ErrorIn(evm, msg, env, begun, loan, pool).None?
    && var out := Executed(evm, msg, env, begun, loan);
       0 <= UsedBy(msg, env, out) <= msg.gas && (loan.NoLoan? || Repayable(msg, env, loan, out, UsedBy(msg, env, out)))
  }

  /** Every balance after a message. */
  lemma ClosingEach(evm: Evm, msg: Message, env: Env, w: World, loan: Loan, used: nat, r: World, a: Address)
    requires Closing(evm, msg, env, w, loan, used, r)
    ensures
      Balance(r.balances, a)
      == Balance(Executed(evm, msg, env, Begun(w, msg, env, loan), loan).world.balances, a)
         + (if a == msg.from then CostOf(msg, msg.gas - used) + Extra(loan) else 0)
         - (if a == msg.from && !loan.NoLoan? then env.passBalance else 0)
         + if loan.WithdrawLoan? || loan.BlackContractLoan? then
             if a == msg.from then CostOf(msg, used) else 0
           else
             var share := Share(env, CostOf(msg, used));
             Listed(env.developers, a) * share
             + if a == env.coinbase then CostOf(msg, used) - |env.developers| * share else 0
  {
    hide Ran, IntrinsicOf, Prepared, Closed, Share, Listed;
    var out := Executed(evm, msg, env, Begun(w, msg, env, loan), loan).world;
    ClosedEach(out, msg, env, CostOf(msg, msg.gas - used), CostOf(msg, used),
               loan.WithdrawLoan? || loan.BlackContractLoan?, a);
  }

  /** The sum of all balances changes by what the EVM does to it and, for a deposit, by the
      fee credited to the sender. */
  lemma ClosingTotal(evm: Evm, msg: Message, env: Env, w: World, loan: Loan, used: nat, r: World)
    requires Closing(evm, msg, env, w, loan, used, r)
    ensures
      var begun := Begun(w, msg, env, loan);
      Total(r.balances)
      == Total(w.balances) + Extra(loan)
         + Total(Executed(evm, msg, env, begun, loan).world.balances) - Total(Prepared(begun, msg).balances)
  {
    hide Ran, IntrinsicOf, Prepared, Closed, Total;
    var begun := Begun(w, msg, env, loan);
    var out := Executed(evm, msg, env, begun, loan).world;
    var kept, fee := CostOf(msg, msg.gas - used), CostOf(msg, used);
    var free := loan.WithdrawLoan? || loan.BlackContractLoan?;
    var closed := Closed(out, msg, env, kept, fee, free);
    ClosedTotal(out, msg, env, kept, fee, free);
    FeeSplit(msg.gas, used, msg.gasPrice);
    PreparedExactly(begun, msg);
    TotalCredit(w.balances, msg.from, env.passBalance);
    var topped := if loan.RechargeLoan? then Pay(closed, msg.from, loan.data.totalFee) else closed;
    TotalCredit(closed.balances, msg.from, Extra(loan));
    TotalCredit(topped.balances, msg.from, 0 - env.passBalance);
  }

  /** The EVM sees the markers as they were, and so does everyone after the message. */
  lemma ClosingMarkers(evm: Evm, msg: Message, env: Env, w: World, loan: Loan, used: nat, r: World)
    requires Sensible(evm) && Closing(evm, msg, env, w, loan, used, r)
    ensures r.markers == w.markers && NonceOf(r, ZERO) >= NonceOf(w, ZERO)
  {
    hide Ran, IntrinsicOf, Prepared, FeePaid;
    var begun := Begun(w, msg, env, loan);
    PreparedExactly(begun, msg);
    RanSensibly(evm, msg, env, Prepared(begun, msg), msg.gas - IntrinsicOf(msg, env), Fine, 0,
                if loan.RechargeLoan? then |loan.data.recharges| else 1);
  }

  /** The fee credited to the sender of a deposit. */
  function Extra(loan: Loan): nat {
    if loan.RechargeLoan? then loan.data.totalFee else 0
  }

  /** The state after the loan has been settled with the sender. */
  function Settled(w: World, from: Address, env: Env, loan: Loan): World {
    Pay(if loan.RechargeLoan? then Pay(w, from, loan.data.totalFee) else w, from, 0 - env.passBalance)
  }
}
