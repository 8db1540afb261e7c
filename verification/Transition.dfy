/** Gas and fees of one message: core/state_transition.go and core/gaspool.go, with gas refunds
    on, no gas bailout, outside Parlia. */
module Transition {
  import opened Basics
  import opened Ledger

  const DEPOSITS_NONCE: nat := 0xffff_ffff_ffff_fffd
  const REFUND_QUOTIENT: nat := 2
  const REFUND_QUOTIENT_EIP3529: nat := 5

  datatype Message = Message(
    from: Address, isCreate: bool, gasPrice: nat, feeCap: nat, tip: nat, gas: nat, value: nat,
    nonce: nat, checkNonce: bool, isFree: bool, isSystemTx: bool, mint: nat)
  {
    /** The widths of the fields. */
    ghost predicate Words() {
      && gasPrice < WEI_LIMIT && feeCap < WEI_LIMIT && tip < WEI_LIMIT && value < WEI_LIMIT && mint < WEI_LIMIT
      && gas < WORD && nonce < WORD
    }

    predicate IsDeposit() { nonce == DEPOSITS_NONCE }
  }

  datatype Collector = NoCollector | Collector(address: Address)

  datatype Env = Env(coinbase: Address, baseFee: nat, collector: Collector, isLondon: bool, noBaseFee: bool)

  /** What foreign code decides about the message: its intrinsic gas (or that computing it
      overflowed), whether its sender has code, is blacklisted, or its init code is too long. */
  datatype Oracle = Oracle(intrinsicOverflow: bool, intrinsic: nat, senderHasCode: bool, blacklisted: bool,
                           initCodeTooLong: bool)

  type Nonces = map<Address, nat>

  /** The outcome of the EVM's Call or Create, which may move nonces too. */
  datatype EvmOutcome = EvmOutcome(balances: Balances, nonces: Nonces, gasLeft: nat, refund: nat, failed: bool)

  type Evm = (Balances, Nonces, nat) -> EvmOutcome

  /** The EVM moves value around without making or losing any, and returns no more gas than it got. */
  ghost predicate Conserving(evm: Evm) {
    forall b, ns, g :: Total(evm(b, ns, g).balances) == Total(b) && evm(b, ns, g).gasLeft <= g
  }

  datatype TxError =
    | NonceTooHigh | NonceTooLow | NonceMax | SenderNoEOA
    | TipAboveFeeCap | FeeCapTooLow | InsufficientFunds | GasLimitReached
    | Blacklisted | GasUintOverflow | IntrinsicGas | MaxInitCodeSizeExceeded
    | GasPoolPanic

  datatype Result<T> = Ok(value: T) | Err(error: TxError)

  /** Errors met after the gas was bought. */
  predicate AfterPurchase(e: TxError) {
    e in {Blacklisted, GasUintOverflow, IntrinsicGas, MaxInitCodeSizeExceeded, GasPoolPanic}
  }

  datatype ExecutionResult = ExecutionResult(usedGas: nat, failed: bool)

  // ---------------------------------------------------------------------- fees

  /** `CheckEip1559TxGasFeeCap`. */
  function CheckFeeCap(feeCap: nat, tip: nat, baseFee: nat, isFree: bool): Result<()> {
    if feeCap < tip then Err(TipAboveFeeCap)
    else if feeCap < baseFee && !isFree then Err(FeeCapTooLow)
    else Ok(())
  }

  /** What the block producer gets for a unit of gas. */
  function EffectiveTip(msg: Message, env: Env): nat {
    if !env.isLondon then msg.gasPrice
    else if msg.feeCap > env.baseFee then Min(msg.tip, msg.feeCap - env.baseFee)
    else 0
  }

  function Collects(msg: Message, env: Env): bool { !msg.isFree && env.isLondon && env.collector.Collector? }

  /** The price of EIP-1559: the base fee and the tip, but not more than the fee cap. */
  predicate PricedByCap(msg: Message, env: Env) { msg.gasPrice == Min(msg.feeCap, env.baseFee + msg.tip) }

  /** What a unit of gas costs beyond the tip is the base fee, or the fee cap where that is less;
      so it is the base fee exactly if the cap covers it. */
  lemma PriceLessTip(msg: Message, env: Env)
    requires env.isLondon && PricedByCap(msg, env)
    ensures msg.gasPrice == EffectiveTip(msg, env) + Min(msg.feeCap, env.baseFee)
    ensures msg.gasPrice - EffectiveTip(msg, env) == env.baseFee <==> msg.feeCap >= env.baseFee
  {
  }

  /** `AsMessage` of a dynamic-fee transaction: the sum is a 256-bit word. */
  function DynamicGasPrice(feeCap: nat, tip: nat, baseFee: nat): nat {
    var p := (baseFee + tip) % WEI_LIMIT;
    if p > feeCap then feeCap else p
  }

  /** For a cap that covers the tip, the price is that of EIP-1559 exactly if base fee and tip together are a
      256-bit number. */
  lemma DynamicGasPriceExact(feeCap: nat, tip: nat, baseFee: nat)
    requires tip <= feeCap < WEI_LIMIT && baseFee < WEI_LIMIT
    ensures DynamicGasPrice(feeCap, tip, baseFee) == Min(feeCap, baseFee + tip) <==> baseFee + tip < WEI_LIMIT
  {
    var sum := baseFee + tip;
    if sum < WEI_LIMIT {
      SmallMod(sum);
    } else {
      SmallMod(sum - WEI_LIMIT);
      assert sum % WEI_LIMIT == (sum - WEI_LIMIT) % WEI_LIMIT;
    }
  }

  /** For a message that is accepted by the fee and balance checks with at least two units of gas, the sum can
      only have wrapped if the base fee is above the cap. */
  lemma DynamicGasPriceIsCapped(feeCap: nat, tip: nat, baseFee: nat, gas: nat, isFree: bool)
    requires gas >= 2 && gas * feeCap < WEI_LIMIT && baseFee < WEI_LIMIT
    requires CheckFeeCap(feeCap, tip, baseFee, isFree).Ok?
    ensures DynamicGasPrice(feeCap, tip, baseFee) == Min(feeCap, baseFee + tip) <==> baseFee + tip < WEI_LIMIT
    ensures baseFee <= feeCap ==> DynamicGasPrice(feeCap, tip, baseFee) == Min(feeCap, baseFee + tip)
  {
    MulMonotone(feeCap, 2, gas);
    DynamicGasPriceExact(feeCap, tip, baseFee);
  }

  /** A message with a single unit of gas that passes the fee and balance checks although its price has
      wrapped to zero. It is refused later: one unit never covers the intrinsic gas. */
  lemma DynamicGasPriceWraps(from: Address, oracle: Oracle)
    requires oracle.intrinsic > 1
    ensures var half := WEI_LIMIT / 2;
            var price := DynamicGasPrice(half, half, half);
            var msg := Message(from, false, price, half, half, 1, 0, 0, true, false, false, 0);
            var env := Env(0, half, NoCollector, true, false);
            && FeesAccepted(msg, env) && Affordable(msg, map[from := half])
            && msg.gasPrice == 0 < Min(half, half + half) && !Runnable(msg, oracle)
  {
  }

  // ------------------------------------------------------------------ settlement

  /** Paying the producer, and the collector if there is one. */
  ghost function Paid(b: Balances, msg: Message, env: Env, used: nat): Balances {
    var paid := Credit(b, env.coinbase, (used * EffectiveTip(msg, env)) % WEI_LIMIT);
    if Collects(msg, env) then Credit(paid, env.collector.address, (used * env.baseFee) % WEI_LIMIT) else paid
  }

  /** Refunding what is left of the gas, then paying. */
  ghost function AfterRun(ran: Balances, msg: Message, env: Env, gas: nat): Balances
    requires gas <= msg.gas
  {
    Paid(Credit(ran, msg.from, (gas * msg.gasPrice) % WEI_LIMIT), msg, env, msg.gas - gas)
  }

  lemma Distribute(a: nat, b: nat, p: nat, t: nat)
    requires b <= a && t <= p
    ensures a * p - b * p == (a - b) * p
    ensures (a - b) * t + (a - b) * (p - t) == (a - b) * p
    ensures 0 <= b * p <= a * p
    ensures 0 <= (a - b) * t <= (a - b) * p
  {
    assert a * p - b * p == (a - b) * p;
    assert (a - b) * t + (a - b) * (p - t) == (a - b) * p;
    assert (a - b) * (p - t) >= 0;
    assert (a - b) * p >= 0 && b * p >= 0 && (a - b) * t >= 0;
  }

  /** Where a collector is paid more than the message paid for, the total has room for it. */
  ghost predicate RoomToCollect(b: Balances, msg: Message, env: Env) {
    Collects(msg, env) && msg.feeCap < env.baseFee ==> Total(b) + msg.gas * env.baseFee < WEI_LIMIT
  }

  /** From the balances b before the purchase over those that the EVM left: apart from what a collector receives,
      the total falls by the gas used, priced without the tip. */
  lemma SettledTotal(b: Balances, msg: Message, env: Env, ran: Balances, gas: nat)
    requires gas <= msg.gas && Total(ran) == Total(Debit(b, msg.from, msg.gas * msg.gasPrice))
    requires Total(b) < WEI_LIMIT && msg.gas * msg.gasPrice <= Balance(b, msg.from)
    requires EffectiveTip(msg, env) <= msg.gasPrice
    requires Collects(msg, env) && msg.gasPrice - EffectiveTip(msg, env) < env.baseFee ==>
               Total(b) + msg.gas * env.baseFee < WEI_LIMIT
    ensures var used := msg.gas - gas;
            Total(AfterRun(ran, msg, env, gas))
            == Total(b) - used * (msg.gasPrice - EffectiveTip(msg, env))
               + (if Collects(msg, env) then used * env.baseFee else 0)
  {
    var price, tip, used := msg.gasPrice, EffectiveTip(msg, env), msg.gas - gas;
    var cost, back, fee, burn := msg.gas * price, gas * price, used * tip, used * env.baseFee;
    Distribute(msg.gas, gas, price, tip);
    BalanceWithinTotal(b, msg.from);
    if Collects(msg, env) { CollectedFits(Total(b), msg.gas, used, price - tip, env.baseFee); }
    SettledFlow(b, msg, env, ran, gas, cost, back, fee, burn);
  }

  /** The same with the four amounts of wei named. */
  lemma SettledFlow(b: Balances, msg: Message, env: Env, ran: Balances, gas: nat,
                    cost: nat, back: nat, fee: nat, burn: nat)
    requires gas <= msg.gas && Total(ran) == Total(Debit(b, msg.from, cost))
    requires Total(b) < WEI_LIMIT && cost <= Balance(b, msg.from)
    requires cost == msg.gas * msg.gasPrice && back == gas * msg.gasPrice && back + fee <= cost
    requires fee == (msg.gas - gas) * EffectiveTip(msg, env) && burn == (msg.gas - gas) * env.baseFee
    requires Collects(msg, env) ==> Total(b) - cost + back + fee + burn < WEI_LIMIT
    ensures Total(AfterRun(ran, msg, env, gas))
            == Total(b) - cost + back + fee + (if Collects(msg, env) then burn else 0)
  {
    hide EffectiveTip, Total, Debit, Credit, Paid;
    BalanceWithinTotal(b, msg.from);
    DebitTotal(b, msg.from, cost);
    CreditTotal(ran, msg.from, back);
    SmallMod(back);
    PaidTotal(Credit(ran, msg.from, back), msg, env, msg.gas - gas, fee, burn);
  }

  lemma PaidTotal(b: Balances, msg: Message, env: Env, used: nat, fee: nat, burn: nat)
    requires fee == used * EffectiveTip(msg, env) && burn == used * env.baseFee
    requires Total(b) + fee + (if Collects(msg, env) then burn else 0) < WEI_LIMIT
    ensures Total(Paid(b, msg, env, used)) == Total(b) + fee + (if Collects(msg, env) then burn else 0)
  {
    hide EffectiveTip, Total, Credit;
    CreditTotal(b, env.coinbase, fee);
    SmallMod(fee);
    if Collects(msg, env) {
      CreditTotal(Credit(b, env.coinbase, fee), env.collector.address, burn);
      SmallMod(burn);
    }
  }

  lemma Conserves(evm: Evm, b: Balances, ns: Nonces, g: nat)
    requires Conserving(evm)
    ensures Total(evm(b, ns, g).balances) == Total(b) && evm(b, ns, g).gasLeft <= g
  {
    hide Total;
  }

  /** What the collector gets stays within 256 bits: it was paid for, or there is room for it. */
  lemma CollectedFits(total: nat, gas: nat, used: nat, price: nat, baseFee: nat)
    requires used <= gas && used * price <= total < WEI_LIMIT
    requires price < baseFee ==> total + gas * baseFee < WEI_LIMIT
    ensures total - used * price + used * baseFee < WEI_LIMIT && used * baseFee < WEI_LIMIT
  {
    if price < baseFee {
      MulMonotone(baseFee, used, gas);
    } else {
      MulMonotone(used, baseFee, price);
    }
  }

  /** EIP-3529: at most this share of the gas used is refunded. */
  function RefundCap(used: nat, quotient: nat): nat
    requires quotient > 0
  {
    used / quotient
  }

  lemma RefundCapShare(used: nat, quotient: nat)
    requires quotient in {REFUND_QUOTIENT, REFUND_QUOTIENT_EIP3529}
    ensures var cap := RefundCap(used, quotient);
            && cap <= used
            && (quotient == 5 ==> 5 * cap <= used < 5 * (cap + 1))
            && (quotient == 2 ==> 2 * cap <= used < 2 * (cap + 1))
  {
    if quotient == 2 {
      assert used == 2 * (used / 2) + used % 2;
    } else {
      assert used == 5 * (used / 5) + used % 5;
    }
  }

  lemma SmallMod(x: nat)
    requires x < WEI_LIMIT
    ensures x % WEI_LIMIT == x
  {
  }

  lemma MulMonotone(a: nat, x: int, y: int)
    requires x <= y
    ensures a * x <= a * y
  {
  }

  /** The total falls by the gas used at the base fee exactly if the cap covers it or no gas was used. */
  lemma BurnIsBaseFee(used: nat, feeCap: nat, baseFee: nat)
    ensures used * Min(feeCap, baseFee) == used * baseFee <==> used == 0 || feeCap >= baseFee
  {
    if used > 0 && feeCap < baseFee {
      assert used * (baseFee - feeCap) > 0;
      assert used * baseFee - used * feeCap == used * (baseFee - feeCap);
    }
  }

  /** What the fees of a message should take out of circulation: nothing if they are collected, else the base
      fee of the gas used. */
  function Burn(msg: Message, env: Env, used: nat): nat { if Collects(msg, env) then 0 else used * env.baseFee }

  // ------------------------------------------------------------------- gas pool

  class GasPool {
    var gas: nat

    constructor ()
      ensures gas == 0
    {
      gas := 0;
    }

    /** Panics rather than let the pool grow beyond 64 bits. */
    method AddGas(amount: nat) returns (panicked: bool)
      requires gas < WORD && amount < WORD
      modifies this
      ensures panicked <==> old(gas) + amount >= WORD
      ensures gas == if panicked then old(gas) else old(gas) + amount
    {
      if gas > WORD - 1 - amount { return true; }
      gas := gas + amount;
      return false;
    }

    method SubGas(amount: nat) returns (r: Result<()>)
      modifies this
      ensures r == if old(gas) < amount then Err(GasLimitReached) else Ok(())
      ensures gas == if r.Ok? then old(gas) - amount else old(gas)
    {
      if gas < amount { return Err(GasLimitReached); }
      gas := gas - amount;
      return Ok(());
    }
  }

  class IntraBlockState {
    var balances: Balances
    var nonces: Nonces
    var refund: nat

    constructor (b: Balances, n: Nonces)
      ensures balances == b && nonces == n && refund == 0
    {
      balances, nonces, refund := b, n, 0;
    }

    function Nonce(a: Address): nat
      reads this
    {
      NonceOf(nonces, a)
    }
  }

  // ------------------------------------------------------------ state transition

  /** The sender can pay for the gas, at the cap, and for the value. */
  predicate Affordable(msg: Message, b: Balances) {
    && msg.gas * msg.gasPrice < WEI_LIMIT
    && msg.gas * msg.feeCap + msg.value < WEI_LIMIT
    && msg.gas * msg.feeCap + msg.value <= Balance(b, msg.from)
  }

  predicate FeesAccepted(msg: Message, env: Env) {
    env.isLondon && (!env.noBaseFee || msg.feeCap != 0 || msg.tip != 0) ==>
      CheckFeeCap(msg.feeCap, msg.tip, env.baseFee, msg.isFree).Ok?
  }

  /** What the nonce, sender, fee, balance and pool checks ask of an ordinary message. */
  predicate PreChecked(msg: Message, env: Env, oracle: Oracle, w: World) {
    && NonceOk(msg, oracle, NonceOf(w.nonces, msg.from))
    && FeesAccepted(msg, env) && Affordable(msg, w.balances) && msg.gas <= w.pool
  }

  /** What is asked of every message before the EVM runs. */
  predicate Runnable(msg: Message, oracle: Oracle) {
    !oracle.blacklisted && !oracle.intrinsicOverflow && oracle.intrinsic <= msg.gas && !oracle.initCodeTooLong
  }

  /** The balances after the purchase of gas, which a deposit does not pay for. */
  function Bought(b: Balances, msg: Message): Balances {
    if msg.IsDeposit() then b else Debit(b, msg.from, msg.gas * msg.gasPrice)
  }

  /** The nonces that the EVM starts with: a call finds the sender's moved, a creation moves it itself. */
  function Called(nonces: Nonces, msg: Message): Nonces {
    if msg.isCreate then nonces else Bumped(nonces, msg.from)
  }

  /** How the EVM ends, started on the world of before the purchase. */
  function Outcome(w: World, msg: Message, oracle: Oracle, evm: Evm): EvmOutcome
    requires oracle.intrinsic <= msg.gas
  {
    evm(Bought(w.balances, msg), Called(w.nonces, msg), msg.gas - oracle.intrinsic)
  }

  function RefundQuotient(env: Env): nat { if env.isLondon then REFUND_QUOTIENT_EIP3529 else REFUND_QUOTIENT }

  /** The gas left in the end: what the EVM left, and the capped refund. */
  function GasLeft(out: EvmOutcome, msg: Message, env: Env): nat {
    if out.gasLeft > msg.gas then out.gasLeft
    else out.gasLeft + Min(RefundCap(msg.gas - out.gasLeft, RefundQuotient(env)), out.refund)
  }

  /** How much pool and gas used together grow over a message: a deposit is not charged to the pool, yet its
      unused gas is put back, or its whole gas is counted as used, except for a failed system transaction. */
  function Drift(msg: Message, oracle: Oracle): nat {
    if msg.IsDeposit() && (Runnable(msg, oracle) || !msg.isSystemTx) then msg.gas else 0
  }

  /** The fees of the message are held against the base fee. */
  predicate FeesChecked(msg: Message, env: Env) {
    env.isLondon && !msg.isFree && (!env.noBaseFee || msg.feeCap != 0 || msg.tip != 0)
  }

  /** What a message can see and change. */
  datatype World = World(pool: nat, balances: Balances, nonces: Nonces)

  function NonceOf(nonces: Nonces, a: Address): nat { if a in nonces then nonces[a] else 0 }

  function Bumped(nonces: Nonces, a: Address): Nonces {
    nonces[a := (NonceOf(nonces, a) + 1) % WORD]
  }

  predicate NonceOk(msg: Message, oracle: Oracle, nonce: nat) {
    msg.checkNonce ==> nonce == msg.nonce && nonce != WORD - 1 && !oracle.senderHasCode
  }

  /** An error is the first of the reasons against the message, in the order of the checks. */
  predicate Because(e: TxError, msg: Message, env: Env, oracle: Oracle, w: World) {
    var nonce, fees := NonceOf(w.nonces, msg.from), env.isLondon && (!env.noBaseFee || msg.feeCap != 0 || msg.tip != 0);
    var checked := msg.IsDeposit() || PreChecked(msg, env, oracle, w);
    match e
    case NonceTooHigh => !msg.IsDeposit() && msg.checkNonce && nonce < msg.nonce
    case NonceTooLow => !msg.IsDeposit() && msg.checkNonce && nonce > msg.nonce
    case NonceMax => !msg.IsDeposit() && msg.checkNonce && nonce == msg.nonce == WORD - 1
    case SenderNoEOA => !msg.IsDeposit() && msg.checkNonce && nonce == msg.nonce < WORD - 1 && oracle.senderHasCode
    case TipAboveFeeCap => !msg.IsDeposit() && NonceOk(msg, oracle, nonce) && fees && msg.feeCap < msg.tip
    case FeeCapTooLow =>
      !msg.IsDeposit() && NonceOk(msg, oracle, nonce) && fees && msg.tip <= msg.feeCap < env.baseFee && !msg.isFree
    case InsufficientFunds =>
      !msg.IsDeposit() && NonceOk(msg, oracle, nonce) && FeesAccepted(msg, env) && !Affordable(msg, w.balances)
    case GasLimitReached =>
      && !msg.IsDeposit() && NonceOk(msg, oracle, nonce) && FeesAccepted(msg, env) && Affordable(msg, w.balances)
      && w.pool < msg.gas
    case Blacklisted => checked && oracle.blacklisted
    case GasUintOverflow => checked && !oracle.blacklisted && oracle.intrinsicOverflow
    case IntrinsicGas => checked && !oracle.blacklisted && !oracle.intrinsicOverflow && msg.gas < oracle.intrinsic
    case MaxInitCodeSizeExceeded =>
      && checked && !oracle.blacklisted && !oracle.intrinsicOverflow && oracle.intrinsic <= msg.gas
      && oracle.initCodeTooLong
    case GasPoolPanic => false
  }

  /** From w to v: the EVM ran, and the message was settled. */
  ghost predicate Ran(msg: Message, env: Env, oracle: Oracle, evm: Evm, w: World, res: ExecutionResult, v: World) {
    && Runnable(msg, oracle) && (msg.IsDeposit() || PreChecked(msg, env, oracle, w))
    && var out := Outcome(w, msg, oracle, evm);
       var left := GasLeft(out, msg, env);
       && left <= msg.gas && res == ExecutionResult(msg.gas - left, out.failed)
       && v.pool == w.pool + left - (if msg.IsDeposit() then 0 else msg.gas) < WORD
       && v.balances == AfterRun(out.balances, msg, env, left) && v.nonces == out.nonces
  }

  /** What `innerTransitionDb` does to the world. */
  ghost predicate Inner(msg: Message, env: Env, oracle: Oracle, evm: Evm, w: World, r: Result<ExecutionResult>,
                        v: World)
  {
    match r
    case Ok(res) => Ran(msg, env, oracle, evm, w, res, v)
    case Err(GasPoolPanic) =>
      && msg.IsDeposit() && Runnable(msg, oracle) && v.pool == w.pool
      && w.pool + GasLeft(Outcome(w, msg, oracle, evm), msg, env) >= WORD
    case Err(e) =>
      && Because(e, msg, env, oracle, w) && v.nonces == w.nonces
      && v.pool == (if !msg.IsDeposit() && AfterPurchase(e) then w.pool - msg.gas else w.pool)
      && v.balances == if AfterPurchase(e) then Bought(w.balances, msg) else w.balances
  }

  function Minted(msg: Message, w: World): World { w.(balances := Credit(w.balances, msg.from, msg.mint)) }

  /** What `TransitionDb` does to the world: mint, then the message, but a deposit that cannot run is kept as failed. */
  ghost predicate Happens(msg: Message, env: Env, oracle: Oracle, evm: Evm, w: World, r: Result<ExecutionResult>,
                          v: World)
  {
    var m := Minted(msg, w);
    if msg.IsDeposit() && !Runnable(msg, oracle)
    then r == Ok(ExecutionResult(if msg.isSystemTx then 0 else msg.gas, true))
         && v == m.(nonces := Bumped(m.nonces, msg.from))
    else Inner(msg, env, oracle, evm, m, r, v)
  }

  class StateTransition {
    const msg: Message
    const env: Env
    const oracle: Oracle
    const gp: GasPool
    const ibs: IntraBlockState
    var gas: nat
    var initialGas: nat

    constructor (msg: Message, env: Env, oracle: Oracle, gp: GasPool, ibs: IntraBlockState)
      ensures this.msg == msg && this.env == env && this.oracle == oracle && this.gp == gp && this.ibs == ibs
      ensures gas == 0 && initialGas == 0
    {
      this.msg, this.env, this.oracle, this.gp, this.ibs := msg, env, oracle, gp, ibs;
      gas, initialGas := 0, 0;
    }

    function Now(): World
      reads gp, ibs
    {
      World(gp.gas, ibs.balances, ibs.nonces)
    }

    /** The unsigned difference. */
    function GasUsed(): nat
      reads this
    {
      (initialGas - gas) % WORD
    }

    method BuyGas() returns (r: Result<()>)
      requires msg.Words()
      modifies this`gas, this`initialGas, gp, ibs`balances
      ensures r.Ok? <==> old(Affordable(msg, ibs.balances)) && msg.gas <= old(gp.gas)
      ensures r.Ok? ==> gas == (old(gas) + msg.gas) % WORD && initialGas == msg.gas
      ensures r.Ok? ==> gp.gas == old(gp.gas) - msg.gas
      ensures r.Ok? ==> ibs.balances == Debit(old(ibs.balances), msg.from, msg.gas * msg.gasPrice)
      ensures r.Err? ==> gp.gas == old(gp.gas) && ibs.balances == old(ibs.balances) && gas == old(gas)
      ensures r.Err? ==> r.error == if old(Affordable(msg, ibs.balances)) then GasLimitReached else InsufficientFunds
    {
      if msg.gas * msg.gasPrice >= WEI_LIMIT { return Err(InsufficientFunds); }
      var mgval := msg.gas * msg.gasPrice;
      if msg.gas * msg.feeCap >= WEI_LIMIT { return Err(InsufficientFunds); }
      var balanceCheck := msg.gas * msg.feeCap;
      if balanceCheck + msg.value >= WEI_LIMIT { return Err(InsufficientFunds); }
      balanceCheck := balanceCheck + msg.value;
      if Balance(ibs.balances, msg.from) < balanceCheck { return Err(InsufficientFunds); }
      r := gp.SubGas(msg.gas);
      if r.Err? { return; }
      gas := (gas + msg.gas) % WORD;
      initialGas := msg.gas;
      ibs.balances := Debit(ibs.balances, msg.from, mgval);
    }

    method PreCheck() returns (r: Result<()>)
      requires msg.Words()
      modifies this`gas, this`initialGas, gp, ibs`balances
      ensures r.Ok? <==> msg.IsDeposit() || old(PreChecked(msg, env, oracle, Now()))
      ensures r.Ok? ==> gas == (old(gas) + msg.gas) % WORD && initialGas == msg.gas
      ensures r.Ok? ==>
                gp.gas == old(gp.gas) - (if msg.IsDeposit() then 0 else msg.gas)
                && ibs.balances == Bought(old(ibs.balances), msg)
      ensures r.Err? ==>
                Now() == old(Now()) && !AfterPurchase(r.error) && old(Because(r.error, msg, env, oracle, Now()))
      // the reasons, spelled out
      ensures r.Err? ==>
                var nonce, nonceFits := old(ibs.Nonce(msg.from)), r.error !in {NonceTooHigh, NonceTooLow};
                && !msg.IsDeposit()
                && (r.error == NonceTooHigh <==> msg.checkNonce && nonce < msg.nonce)
                && (r.error == NonceTooLow <==> msg.checkNonce && nonce > msg.nonce)
                && (r.error == NonceMax <==> nonceFits && msg.checkNonce && nonce == WORD - 1)
                && (r.error == SenderNoEOA <==>
                      nonceFits && msg.checkNonce && nonce < WORD - 1 && oracle.senderHasCode)
      ensures r == Err(TipAboveFeeCap) ==> env.isLondon && msg.feeCap < msg.tip
      ensures r == Err(FeeCapTooLow) ==> env.isLondon && msg.tip <= msg.feeCap < env.baseFee && !msg.isFree
      ensures r == Err(InsufficientFunds) ==>
                || msg.gas * msg.gasPrice >= WEI_LIMIT || msg.gas * msg.feeCap + msg.value >= WEI_LIMIT
                || old(Balance(ibs.balances, msg.from)) < msg.gas * msg.feeCap + msg.value
      ensures r == Err(GasLimitReached) ==> gp.gas < msg.gas
    {
      hide Debit, Balance;
      if msg.IsDeposit() {
        initialGas := msg.gas;
        gas := (gas + msg.gas) % WORD;
        return Ok(());
      }
      if msg.checkNonce {
        var stNonce := ibs.Nonce(msg.from);
        if stNonce < msg.nonce { return Err(NonceTooHigh); }
        else if stNonce > msg.nonce { return Err(NonceTooLow); }
        else if (stNonce + 1) % WORD < stNonce { return Err(NonceMax); }
        if oracle.senderHasCode { return Err(SenderNoEOA); }
      }
      if env.isLondon {
        if !env.noBaseFee || msg.feeCap != 0 || msg.tip != 0 {
          r := CheckFeeCap(msg.feeCap, msg.tip, env.baseFee, msg.isFree);
          if r.Err? { return; }
        }
      }
      r := BuyGas();
    }

    /** The refund counter, but at most the given share of the gas used. */
    method AddRefund(quotient: nat)
      requires quotient in {REFUND_QUOTIENT, REFUND_QUOTIENT_EIP3529} && gas <= initialGas < WORD
      modifies this`gas
      ensures old(gas) <= gas <= initialGas
      ensures gas == old(gas) + Min(RefundCap(initialGas - old(gas), quotient), ibs.refund)
      ensures var used, refund := initialGas - old(gas), gas - old(gas);
              && refund <= ibs.refund
              && (quotient == 5 ==> 5 * refund <= used && (refund == ibs.refund || used < 5 * (refund + 1)))
              && (quotient == 2 ==> 2 * refund <= used && (refund == ibs.refund || used < 2 * (refund + 1)))
    {
      hide RefundCap;
      RefundCapShare(initialGas - gas, quotient);
      var refund := RefundCap(GasUsed(), quotient);
      if refund > ibs.refund { refund := ibs.refund; }
      gas := (gas + refund) % WORD;
    }

    /** Returns the unused gas, with the refund: to the sender at the price, and to the pool. */
    method RefundGas(quotient: nat) returns (panicked: bool)
      requires msg.Words() && quotient in {REFUND_QUOTIENT, REFUND_QUOTIENT_EIP3529}
      requires gas <= initialGas < WORD && gp.gas < WORD
      modifies this`gas, gp, ibs`balances
      ensures old(gas) <= gas <= initialGas
      ensures gas == old(gas) + Min(RefundCap(initialGas - old(gas), quotient), old(ibs.refund))
      ensures panicked <==> old(gp.gas) + gas >= WORD
      ensures gp.gas == if panicked then old(gp.gas) else old(gp.gas) + gas
      ensures ibs.balances == Credit(old(ibs.balances), msg.from, (gas * msg.gasPrice) % WEI_LIMIT)
    {
      hide RefundCap;
      AddRefund(quotient);
      var remaining := (gas * msg.gasPrice) % WEI_LIMIT;
      ibs.balances := Credit(ibs.balances, msg.from, remaining);
      panicked := gp.AddGas(gas);
    }

    /** Pays the block producer, and the collector of base fees if there is one. */
    method PayFees()
      requires gas <= initialGas < WORD
      modifies ibs`balances
      ensures ibs.balances == Paid(old(ibs.balances), msg, env, initialGas - gas)
    {
      var used, effectiveTip := GasUsed(), msg.gasPrice;
      if env.isLondon {
        if msg.feeCap > env.baseFee {
          effectiveTip := Min(msg.tip, msg.feeCap - env.baseFee);
        } else {
          effectiveTip := 0;
        }
      }
      assert used == initialGas - gas && effectiveTip == EffectiveTip(msg, env);
      hide EffectiveTip, Credit;
      var amount := (used * effectiveTip) % WEI_LIMIT;
      ibs.balances := Credit(ibs.balances, env.coinbase, amount);
      if !msg.isFree && env.isLondon && env.collector.Collector? {
        var burnAmount := (used * env.baseFee) % WEI_LIMIT;
        ibs.balances := Credit(ibs.balances, env.collector.address, burnAmount);
      }
    }

    /** `innerTransitionDb`. */
    method InnerTransition(evm: Evm) returns (r: Result<ExecutionResult>)
      requires msg.Words() && Conserving(evm) && gas == 0 && gp.gas < WORD
      modifies this`gas, this`initialGas, gp, ibs
      ensures Inner(msg, env, oracle, evm, old(Now()), r, Now())
      ensures msg.IsDeposit() && !Runnable(msg, oracle) ==>
                r.Err? && r.error != GasLimitReached && r.error != GasPoolPanic && gp.gas == old(gp.gas)
    {
      hide Total, Bought, Affordable, FeesAccepted, AfterRun, Conserving, GasLeft, RefundCap, Runnable, PreChecked;
      var ok := PreCheck();
      if ok.Err? { return Err(ok.error); }
      var run := TakeIntrinsic();
      if run.Err? { return Err(run.error); }
      r := Execute(evm);
    }

    /** The checks that every message has to pass, with its gas bought. */
    method TakeIntrinsic() returns (r: Result<()>)
      requires gas == msg.gas
      modifies this`gas
      ensures r.Ok? <==> Runnable(msg, oracle)
      ensures r.Ok? ==> oracle.intrinsic <= msg.gas && gas == msg.gas - oracle.intrinsic
      ensures r.Err? ==>
                && AfterPurchase(r.error) && r.error != GasPoolPanic
                && (r.error == Blacklisted <==> oracle.blacklisted)
                && (r.error == GasUintOverflow <==> !oracle.blacklisted && oracle.intrinsicOverflow)
                && (r.error == IntrinsicGas <==>
                      !oracle.blacklisted && !oracle.intrinsicOverflow && msg.gas < oracle.intrinsic)
                && (r.error == MaxInitCodeSizeExceeded ==> oracle.initCodeTooLong)
    {
      if oracle.blacklisted { return Err(Blacklisted); }
      if oracle.intrinsicOverflow { return Err(GasUintOverflow); }
      if gas < oracle.intrinsic { return Err(IntrinsicGas); }
      gas := gas - oracle.intrinsic;
      if oracle.initCodeTooLong { return Err(MaxInitCodeSizeExceeded); }
      return Ok(());
    }

    /** Runs the EVM on the gas left, then refunds and pays. */
    method Execute(evm: Evm) returns (r: Result<ExecutionResult>)
      requires msg.Words() && Conserving(evm) && gas <= initialGas == msg.gas && gp.gas < WORD
      modifies this`gas, gp, ibs
      ensures var out := evm(old(ibs.balances), Called(old(ibs.nonces), msg), old(gas));
              var left := GasLeft(out, msg, env);
              && left <= msg.gas
              && (r.Err? <==> old(gp.gas) + left >= WORD)
              && (r.Err? ==> r.error == GasPoolPanic && gp.gas == old(gp.gas))
              && (r.Ok? ==> r.value == ExecutionResult(msg.gas - left, out.failed) && gp.gas == old(gp.gas) + left)
              && (r.Ok? ==> ibs.balances == AfterRun(out.balances, msg, env, left) && ibs.nonces == out.nonces)
    {
      hide Total, Credit, RefundCap, Conserving, Paid;
      Conserves(evm, ibs.balances, Called(ibs.nonces, msg), gas);
      var out := RunEvm(evm);
      var panicked := RefundGas(RefundQuotient(env));
      if panicked { return Err(GasPoolPanic); }
      PayFees();
      return Ok(ExecutionResult(GasUsed(), out.failed));
    }

    /** A creation moves the sender's nonce itself; for a call it is moved before. */
    method RunEvm(evm: Evm) returns (out: EvmOutcome)
      modifies this`gas, ibs
      ensures out == evm(old(ibs.balances), Called(old(ibs.nonces), msg), old(gas))
      ensures ibs.balances == out.balances && ibs.nonces == out.nonces && gas == out.gasLeft && ibs.refund == out.refund
    {
      if !msg.isCreate {
        ibs.nonces := ibs.nonces[msg.from := (ibs.Nonce(msg.from) + 1) % WORD];
      }
      out := evm(ibs.balances, ibs.nonces, gas);
      ibs.balances, ibs.nonces, gas, ibs.refund := out.balances, out.nonces, out.gasLeft, out.refund;
    }

    /** `TransitionDb`. A failed deposit is kept: its state changes are undone, its nonce still moves
        and it counts as using all its gas, or none if it is a system transaction. */
    method TransitionDb(evm: Evm) returns (r: Result<ExecutionResult>)
      requires msg.Words() && Conserving(evm) && gas == 0 && gp.gas < WORD
      modifies this`gas, this`initialGas, gp, ibs
      ensures Happens(msg, env, oracle, evm, old(Now()), r, Now())
      ensures gp.gas < WORD
      ensures r.Ok? ==> r.value.usedGas <= msg.gas
      // an ordinary message is accepted exactly if nonce, sender, fees, balance, pool and intrinsic gas are in order
      ensures msg.nonce != 0xffff_ffff_ffff_fffd ==> (r.Ok? <==>
                && (msg.checkNonce ==>
                      old(ibs.Nonce(msg.from)) == msg.nonce < 0xffff_ffff_ffff_ffff && !oracle.senderHasCode)
                && (!env.isLondon || (env.noBaseFee && msg.feeCap == 0 && msg.tip == 0)
                    || (msg.tip <= msg.feeCap && (msg.isFree || env.baseFee <= msg.feeCap)))
                && msg.gas * msg.gasPrice < WEI_LIMIT
                && msg.gas * msg.feeCap + msg.value <= (old(Balance(ibs.balances, msg.from)) + msg.mint) % WEI_LIMIT
                && msg.gas <= old(gp.gas)
                && !oracle.blacklisted && !oracle.intrinsicOverflow && oracle.intrinsic <= msg.gas
                && !oracle.initCodeTooLong)
      // a message that runs uses what the EVM used, less the refund counter up to a fifth of that, or half
      // before London
      ensures r.Ok? && Runnable(msg, oracle) ==>
                var nonces := old(ibs.nonces);
                var out := evm(Bought(Credit(old(ibs.balances), msg.from, msg.mint), msg),
                               if msg.isCreate then nonces
                               else nonces[msg.from := (old(ibs.Nonce(msg.from)) + 1) % WORD],
                               msg.gas - oracle.intrinsic);
                var used, refund := msg.gas - out.gasLeft, msg.gas - out.gasLeft - r.value.usedGas;
                && r.value.failed == out.failed && ibs.nonces == out.nonces && 0 <= refund <= out.refund
                && (env.isLondon ==> 5 * refund <= used && (refund == out.refund || used < 5 * (refund + 1)))
                && (!env.isLondon ==> 2 * refund <= used && (refund == out.refund || used < 2 * (refund + 1)))
      // the pool and the gas used together are conserved but for the drift of deposits
      ensures r.Ok? ==> gp.gas + r.value.usedGas == old(gp.gas) + Drift(msg, oracle)
      ensures !msg.IsDeposit() && r.Err? ==>
                && r.error != GasPoolPanic && ibs.nonces == old(ibs.nonces)
                && gp.gas == old(gp.gas) - (if AfterPurchase(r.error) then msg.gas else 0)
      // a deposit that cannot run has failed but is kept; one that can run may panic for lack of room in the pool
      ensures msg.IsDeposit() && !Runnable(msg, oracle) ==>
                && r == Ok(ExecutionResult(if msg.isSystemTx then 0 else msg.gas, true)) && gp.gas == old(gp.gas)
                && ibs.balances == Credit(old(ibs.balances), msg.from, msg.mint)
                && ibs.nonces == old(ibs.nonces)[msg.from := (old(ibs.Nonce(msg.from)) + 1) % WORD]
      ensures msg.IsDeposit() && r.Err? ==>
                r.error == GasPoolPanic && gp.gas == old(gp.gas) && old(gp.gas) + msg.gas >= WORD
      // the wei law, for a London message priced by its cap
      ensures !msg.IsDeposit() && r.Ok? && old(LondonPriced(ibs.balances, msg, env)) ==>
                Total(ibs.balances) == old(Total(ibs.balances)) + msg.mint
                  - r.value.usedGas * Min(msg.feeCap, env.baseFee)
                  + (if Collects(msg, env) then r.value.usedGas * env.baseFee else 0)
      ensures !msg.IsDeposit() && r.Ok? && old(LondonPriced(ibs.balances, msg, env)) ==>
                (Total(ibs.balances) == old(Total(ibs.balances)) + msg.mint - Burn(msg, env, r.value.usedGas)
                 <==> r.value.usedGas == 0 || msg.feeCap >= env.baseFee)
      // so the law holds for a message that is not free and whose fees were not exempted from the check
      ensures !msg.IsDeposit() && r.Ok? && old(LondonPriced(ibs.balances, msg, env)) && FeesChecked(msg, env) ==>
                Total(ibs.balances) == old(Total(ibs.balances)) + msg.mint - Burn(msg, env, r.value.usedGas)
    {
      hide Total, Inner, Happens, Conserving, Runnable, Bought, LondonPriced, Burn, Credit, Balance, NonceOf, Drift,
        FeesChecked, Collects, Min, AfterPurchase;
      ghost var w := Now();
      r := Minting(evm);
      ghost var v := Now();
      if !msg.IsDeposit() { AcceptedExactly(msg, env, oracle, evm, w, r, v); }
      if r.Ok? { GasSettled(msg, env, oracle, evm, w, r, v); }
      PoolLaw(msg, env, oracle, evm, w, r, v);
      if r.Ok? && !msg.IsDeposit() && LondonPriced(w.balances, msg, env) {
        TotalLaw(msg, env, oracle, evm, w, r.value, v);
      }
    }

    /** Mint, snapshot, the message, and the way back if a deposit failed. */
    method Minting(evm: Evm) returns (r: Result<ExecutionResult>)
      requires msg.Words() && Conserving(evm) && gas == 0 && gp.gas < WORD
      modifies this`gas, this`initialGas, gp, ibs
      ensures Happens(msg, env, oracle, evm, old(Now()), r, Now())
    {
      hide Total, Inner, Conserving, Runnable, Credit;
      ibs.balances := Credit(ibs.balances, msg.from, msg.mint);
      var snap, nonces := ibs.balances, ibs.nonces;
      r := InnerTransition(evm);
      if r.Err? && r.error != GasLimitReached && r.error != GasPoolPanic && msg.IsDeposit() {
        InnerRefuses(msg, env, oracle, evm, Minted(msg, old(Now())), r, Now());
        ibs.balances, ibs.nonces := snap, nonces;
        ibs.nonces := ibs.nonces[msg.from := (ibs.Nonce(msg.from) + 1) % WORD];
        return Ok(ExecutionResult(if msg.isSystemTx then 0 else msg.gas, true));
      }
    }
  }

  // ------------------------------------------------------ laws of what happens

  lemma InnerRefuses(msg: Message, env: Env, oracle: Oracle, evm: Evm, w: World, r: Result<ExecutionResult>, v: World)
    requires Inner(msg, env, oracle, evm, w, r, v) && msg.IsDeposit() && r.Err? && r.error != GasPoolPanic
    ensures !Runnable(msg, oracle)
  {
    hide Ran, Outcome, GasLeft, PreChecked, Affordable;
  }

  /** Acceptance, check by check. */
  lemma AcceptedExactly(msg: Message, env: Env, oracle: Oracle, evm: Evm, w: World, r: Result<ExecutionResult>,
                        v: World)
    requires Happens(msg, env, oracle, evm, w, r, v) && !msg.IsDeposit() && msg.nonce < WORD
    ensures r.Ok? <==>
              && (msg.checkNonce ==>
                    NonceOf(w.nonces, msg.from) == msg.nonce < 0xffff_ffff_ffff_ffff && !oracle.senderHasCode)
              && (!env.isLondon || (env.noBaseFee && msg.feeCap == 0 && msg.tip == 0)
                  || (msg.tip <= msg.feeCap && (msg.isFree || env.baseFee <= msg.feeCap)))
              && msg.gas * msg.gasPrice < WEI_LIMIT
              && msg.gas * msg.feeCap + msg.value <= (Balance(w.balances, msg.from) + msg.mint) % WEI_LIMIT
              && msg.gas <= w.pool
              && !oracle.blacklisted && !oracle.intrinsicOverflow && oracle.intrinsic <= msg.gas
              && !oracle.initCodeTooLong
  {
    var m := Minted(msg, w);
    RunsIfChecked(msg, env, oracle, evm, w, r, v);
    assert Balance(m.balances, msg.from) == (Balance(w.balances, msg.from) + msg.mint) % WEI_LIMIT < WEI_LIMIT;
  }

  lemma RunsIfChecked(msg: Message, env: Env, oracle: Oracle, evm: Evm, w: World, r: Result<ExecutionResult>, v: World)
    requires Happens(msg, env, oracle, evm, w, r, v) && !msg.IsDeposit()
    ensures r.Ok? <==> PreChecked(msg, env, oracle, Minted(msg, w)) && Runnable(msg, oracle)
  {
    hide Outcome, GasLeft, AfterRun, Affordable, Minted;
  }

  /** The gas a message uses: what the EVM used, less a refund that is the counter or the most that the share of
      EIP-3529 allows; and the failure flag and the nonces. */
  lemma GasSettled(msg: Message, env: Env, oracle: Oracle, evm: Evm, w: World, r: Result<ExecutionResult>, v: World)
    requires Happens(msg, env, oracle, evm, w, r, v) && Conserving(evm) && r.Ok?
    ensures r.value.usedGas <= msg.gas
    ensures Runnable(msg, oracle) ==>
              var out := evm(Bought(Credit(w.balances, msg.from, msg.mint), msg),
                             if msg.isCreate then w.nonces
                             else w.nonces[msg.from := (NonceOf(w.nonces, msg.from) + 1) % WORD],
                             msg.gas - oracle.intrinsic);
              var used, refund := msg.gas - out.gasLeft, msg.gas - out.gasLeft - r.value.usedGas;
              && r.value.failed == out.failed && v.nonces == out.nonces && 0 <= refund <= out.refund
              && (env.isLondon ==> 5 * refund <= used && (refund == out.refund || used < 5 * (refund + 1)))
              && (!env.isLondon ==> 2 * refund <= used && (refund == out.refund || used < 2 * (refund + 1)))
  {
    hide Total, Credit, Conserving, PreChecked, AfterRun, RefundCap, Because;
    if Runnable(msg, oracle) {
      var m := Minted(msg, w);
      Conserves(evm, Bought(m.balances, msg), Called(m.nonces, msg), msg.gas - oracle.intrinsic);
      RefundCapShare(msg.gas - Outcome(m, msg, oracle, evm).gasLeft, RefundQuotient(env));
    }
  }

  /** Pool and gas used together change by the drift, and what the pool is after an error. */
  lemma PoolLaw(msg: Message, env: Env, oracle: Oracle, evm: Evm, w: World, r: Result<ExecutionResult>, v: World)
    requires Happens(msg, env, oracle, evm, w, r, v) && Conserving(evm) && w.pool < WORD && msg.gas < WORD
    ensures v.pool < WORD
    ensures r.Ok? ==> v.pool + r.value.usedGas == w.pool + Drift(msg, oracle)
    ensures !msg.IsDeposit() && r.Err? ==>
              && r.error != GasPoolPanic && v.nonces == w.nonces
              && v.pool == w.pool - (if AfterPurchase(r.error) then msg.gas else 0)
    ensures msg.IsDeposit() && !Runnable(msg, oracle) ==>
              && r == Ok(ExecutionResult(if msg.isSystemTx then 0 else msg.gas, true)) && v.pool == w.pool
              && v.balances == Credit(w.balances, msg.from, msg.mint)
              && v.nonces == w.nonces[msg.from := (NonceOf(w.nonces, msg.from) + 1) % WORD]
    ensures msg.IsDeposit() && r.Err? ==> r.error == GasPoolPanic && v.pool == w.pool && w.pool + msg.gas >= WORD
  {
    hide Total, Credit, Conserving, AfterRun, RefundCap, Affordable, FeesAccepted;
    if Runnable(msg, oracle) {
      var m := Minted(msg, w);
      Conserves(evm, Bought(m.balances, msg), Called(m.nonces, msg), msg.gas - oracle.intrinsic);
      RefundCapShare(msg.gas - Outcome(m, msg, oracle, evm).gasLeft, RefundQuotient(env));
    }
  }

  /** The total, for a London message priced by its cap. */
  lemma TotalLaw(msg: Message, env: Env, oracle: Oracle, evm: Evm, w: World, res: ExecutionResult, v: World)
    requires Happens(msg, env, oracle, evm, w, Ok(res), v) && Conserving(evm) && !msg.IsDeposit()
    requires LondonPriced(w.balances, msg, env)
    ensures Total(v.balances) == Total(w.balances) + msg.mint - res.usedGas * Min(msg.feeCap, env.baseFee)
                                 + (if Collects(msg, env) then res.usedGas * env.baseFee else 0)
    ensures Total(v.balances) == Total(w.balances) + msg.mint - Burn(msg, env, res.usedGas)
            <==> res.usedGas == 0 || msg.feeCap >= env.baseFee
    ensures FeesChecked(msg, env) ==>
              Total(v.balances) == Total(w.balances) + msg.mint - Burn(msg, env, res.usedGas)
  {
    hide Total, Credit, Conserving, AfterRun, GasLeft, Affordable, LondonPriced, Burn, Because;
    var m := Minted(msg, w);
    Conserves(evm, Bought(m.balances, msg), Called(m.nonces, msg), msg.gas - oracle.intrinsic);
    MintedLaw(w.balances, msg, env, Outcome(m, msg, oracle, evm).balances, res.usedGas);
  }

  /** What a settled message leaves every account: the EVM's balance, the unused gas for the sender at the price,
      the tip for the producer, and the base fee for the collector. */
  lemma AfterRunAccounts(ran: Balances, msg: Message, env: Env, gas: nat, a: Address,
                         tip: nat, back: nat, fee: nat, burn: nat)
    requires gas <= msg.gas && Balance(ran, a) < WEI_LIMIT
    requires tip == if !env.isLondon then msg.gasPrice else Max(0, Min(msg.tip, msg.feeCap - env.baseFee))
    requires back == gas * msg.gasPrice && fee == (msg.gas - gas) * tip && burn == (msg.gas - gas) * env.baseFee
    ensures Balance(AfterRun(ran, msg, env, gas), a) ==
            (Balance(ran, a) + (if a == msg.from then back else 0) + (if a == env.coinbase then fee else 0)
             + (if env.isLondon && !msg.isFree && env.collector == Collector(a) then burn else 0)) % WEI_LIMIT
  {
    assert EffectiveTip(msg, env) == tip;
    hide EffectiveTip, Balance, Credit, Max, Min;
    ThreeCredits(ran, msg.from, back, env.coinbase, fee, Collects(msg, env),
                 if Collects(msg, env) then env.collector.address else 0, burn, a);
  }

  lemma ThreeCredits(b: Balances, p: Address, x: nat, q: Address, y: nat, third: bool, r: Address, z: nat, a: Address)
    requires Balance(b, a) < WEI_LIMIT
    ensures var b2 := Credit(Credit(b, p, x % WEI_LIMIT), q, y % WEI_LIMIT);
            var all := if third then Credit(b2, r, z % WEI_LIMIT) else b2;
            Balance(all, a) == (Balance(b, a) + (if a == p then x else 0) + (if a == q then y else 0)
                                + (if third && a == r then z else 0)) % WEI_LIMIT
  {
    hide Balance, Credit;
    var b1 := Credit(b, p, x % WEI_LIMIT);
    var b2 := Credit(b1, q, y % WEI_LIMIT);
    var n := Balance(b, a) + if a == p then x else 0;
    var m := n + if a == q then y else 0;
    assert Balance(b1, a) == n % WEI_LIMIT < WEI_LIMIT by { Credited(b, p, x, a); }
    assert Balance(b2, a) == m % WEI_LIMIT < WEI_LIMIT by {
      Credited(b1, q, y, a);
      ModSum(n, if a == q then y else 0);
    }
    if third {
      Credited(b2, r, z, a);
      ModSum(m, if a == r then z else 0);
    }
  }

  lemma Credited(b: Balances, to: Address, amount: nat, a: Address)
    requires Balance(b, a) < WEI_LIMIT
    ensures var x := if a == to then amount else 0;
            Balance(Credit(b, to, amount % WEI_LIMIT), a) == (Balance(b, a) + x) % WEI_LIMIT < WEI_LIMIT
  {
    if a == to { ModSum(Balance(b, a), amount); } else { SmallMod(Balance(b, a)); }
  }

  lemma ModSum(x: nat, y: nat)
    ensures (x + y % WEI_LIMIT) % WEI_LIMIT == (x + y) % WEI_LIMIT == (x % WEI_LIMIT + y) % WEI_LIMIT
  {
    assert y == y % WEI_LIMIT + WEI_LIMIT * (y / WEI_LIMIT) && x == x % WEI_LIMIT + WEI_LIMIT * (x / WEI_LIMIT);
    ModShift(x + y % WEI_LIMIT, y / WEI_LIMIT);
    ModShift(x % WEI_LIMIT + y, x / WEI_LIMIT);
  }

  lemma {:induction false} ModShift(x: nat, k: nat)
    ensures (x + WEI_LIMIT * k) % WEI_LIMIT == x % WEI_LIMIT
  {
    if k > 0 {
      ModShift(x, k - 1);
      assert x + WEI_LIMIT * k == (x + WEI_LIMIT * (k - 1)) + WEI_LIMIT;
    }
  }

  /** A London message priced by its cap, with room for what it mints and what a collector may get unpaid. */
  ghost predicate LondonPriced(b: Balances, msg: Message, env: Env) {
    && env.isLondon && PricedByCap(msg, env) && Total(b) + msg.mint < WEI_LIMIT
    && (Collects(msg, env) && msg.feeCap < env.baseFee ==> Total(b) + msg.mint + msg.gas * env.baseFee < WEI_LIMIT)
  }

  /** The law of `TransitionDb`, from before the mint. */
  lemma MintedLaw(b: Balances, msg: Message, env: Env, ran: Balances, used: nat)
    requires used <= msg.gas && LondonPriced(b, msg, env) && Affordable(msg, Credit(b, msg.from, msg.mint))
    requires Total(ran) == Total(Debit(Credit(b, msg.from, msg.mint), msg.from, msg.gas * msg.gasPrice))
    ensures var total := Total(AfterRun(ran, msg, env, msg.gas - used));
            && total == Total(b) + msg.mint - used * Min(msg.feeCap, env.baseFee)
                        + (if Collects(msg, env) then used * env.baseFee else 0)
            && (total == Total(b) + msg.mint - Burn(msg, env, used) <==> used == 0 || msg.feeCap >= env.baseFee)
  {
    hide Total, AfterRun, Credit, Debit, Affordable;
    CreditTotal(b, msg.from, msg.mint);
    WeiLaw(Credit(b, msg.from, msg.mint), msg, env, ran, used);
  }

  /** The settlement of a London message priced by its cap: how the total changes, and that this is the burn
      exactly if the cap covers the base fee or no gas was used. */
  lemma WeiLaw(b: Balances, msg: Message, env: Env, ran: Balances, used: nat)
    requires Total(ran) == Total(Debit(b, msg.from, msg.gas * msg.gasPrice))
    requires Total(b) < WEI_LIMIT && used <= msg.gas && RoomToCollect(b, msg, env)
    requires env.isLondon && PricedByCap(msg, env) && Affordable(msg, b)
    ensures var total := Total(AfterRun(ran, msg, env, msg.gas - used));
            && total == Total(b) - used * Min(msg.feeCap, env.baseFee)
                        + (if Collects(msg, env) then used * env.baseFee else 0)
            && (total == Total(b) - Burn(msg, env, used) <==> used == 0 || msg.feeCap >= env.baseFee)
  {
    hide Total, AfterRun, Debit, EffectiveTip;
    PriceLessTip(msg, env);
    assert msg.gas * msg.gasPrice <= msg.gas * msg.feeCap by { MulMonotone(msg.gas, msg.gasPrice, msg.feeCap); }
    SettledTotal(b, msg, env, ran, msg.gas - used);
    BurnIsBaseFee(used, msg.feeCap, env.baseFee);
  }

  // ------------------------------------------------------------- where the law fails

  /** An EVM that does nothing, whatever gas it is given. */
  function Idle(): Evm { (b: Balances, ns: Nonces, g: nat) => EvmOutcome(b, ns, g, 0, false) }

  /** A plain transfer, of nothing, with exactly the intrinsic gas. */
  function Plain(feeCap: nat, gasPrice: nat, isFree: bool): Message {
    Message(1, false, gasPrice, feeCap, 0, 21000, 0, 0, false, isFree, false, 0)
  }

  method RunPlain(msg: Message, env: Env, balances: Balances) returns (ibs: IntraBlockState)
    requires msg.Words() && msg.gas == 21000 && !msg.IsDeposit() && !msg.checkNonce && msg.mint == 0
    requires FeesAccepted(msg, env) && Affordable(msg, balances) && LondonPriced(balances, msg, env)
    requires Balance(balances, msg.from) < WEI_LIMIT && msg.from in balances
    ensures fresh(ibs) && Total(ibs.balances) == Total(balances) - 21000 * Min(msg.feeCap, env.baseFee)
              + (if Collects(msg, env) then 21000 * env.baseFee else 0)
  {
    hide Total, LondonPriced, Happens;
    var gp := new GasPool();
    var _ := gp.AddGas(30000);
    ibs := new IntraBlockState(balances, map[]);
    var st := new StateTransition(msg, env, Oracle(false, 21000, false, false, false), gp, ibs);
    assert Credit(balances, msg.from, 0) == balances;
    var r := st.TransitionDb(Idle());
  }

  /** Fee checks off, no fees offered, a collector configured: it is credited with what nobody paid, and
      the total rises from nothing. */
  method UnpaidCollector(baseFee: nat) returns (ibs: IntraBlockState)
    requires 0 < baseFee && 21000 * baseFee < WEI_LIMIT
    ensures Total(ibs.balances) == 21000 * baseFee
  {
    TotalSet(map[], 1, 0);
    ibs := RunPlain(Plain(0, 0, false), Env(2, baseFee, Collector(3), true, true), map[1 := 0]);
  }

  /** A free message under a base fee of 2: the total falls by 21000 wei and not by 42000. */
  method FreeUnderBaseFee() returns (ibs: IntraBlockState)
    ensures Total(ibs.balances) == 100000 - 21000
  {
    TotalSet(map[], 1, 100000);
    ibs := RunPlain(Plain(1, 1, true), Env(2, 2, NoCollector, true, false), map[1 := 100000]);
  }
}
