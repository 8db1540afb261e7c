/** The gas accounting of a block: the transaction loop of core/blockchain.go over
    applyTransaction of core/state_processor.go. */
module Block {
  import opened Basics
  import opened Ledger
  import opened Transition

  /** A transaction, with what foreign code makes of it. */
  datatype Tx = Tx(msg: Message, oracle: Oracle, evm: Evm)

  datatype Receipt = Receipt(cumulativeGasUsed: nat, gasUsed: nat, failed: bool)

  datatype BlockError = CouldNotApply(index: nat, error: TxError) | GasUsedMismatch | Panicked

  /** After a transaction: the pool, the 64-bit gas counter, the gas of all receipts so far, and the gas that
      rejected transactions had bought. */
  datatype Tally = Tally(pool: nat, usedGas: nat, spent: nat, lost: nat)

  ghost predicate Proper(tx: Tx) { tx.msg.Words() && Conserving(tx.evm) }

  ghost predicate NoDeposits(txs: seq<Tx>) { forall tx | tx in txs :: !tx.msg.IsDeposit() }

  /** A London message that pays its way: priced by its cap, subject to the fee checks, minting nothing. */
  ghost predicate Paying(msg: Message, env: Env) {
    !msg.IsDeposit() && msg.mint == 0 && PricedByCap(msg, env) && FeesChecked(msg, env)
  }

  /** The wei a gas amount takes out of circulation. */
  function Burned(gas: nat, env: Env): nat { if env.collector.Collector? then 0 else gas * env.baseFee }

  lemma BurnedSum(g: nat, h: nat, env: Env)
    ensures Burned(g + h, env) == Burned(g, env) + Burned(h, env)
  {
    assert (g + h) * env.baseFee == g * env.baseFee + h * env.baseFee;
  }

  /** Sum of the gas of the receipts. */
  ghost function GasOf(rs: seq<Receipt>): nat {
    if rs == [] then 0 else GasOf(rs[..|rs| - 1]) + rs[|rs| - 1].gasUsed
  }

  /** Each receipt's cumulative gas is the sum up to and including it, as the 64-bit counter has it. */
  ghost predicate Cumulative(rs: seq<Receipt>) {
    rs == [] || (Cumulative(rs[..|rs| - 1]) && rs[|rs| - 1].cumulativeGasUsed == GasOf(rs) % WORD)
  }

  /** The exact prefix sums. */
  ghost predicate PrefixSums(rs: seq<Receipt>) {
    forall i | 0 <= i < |rs| :: rs[i].cumulativeGasUsed == GasOf(rs[..i + 1])
  }

  lemma GasOfSnoc(rs: seq<Receipt>, r: Receipt)
    ensures GasOf(rs + [r]) == GasOf(rs) + r.gasUsed
  {
    assert (rs + [r])[..|rs|] == rs;
  }

  lemma CumulativeSnoc(rs: seq<Receipt>, r: Receipt)
    requires Cumulative(rs) && r.cumulativeGasUsed == (GasOf(rs) + r.gasUsed) % WORD
    ensures Cumulative(rs + [r])
  {
    GasOfSnoc(rs, r);
    hide GasOf;
    assert (rs + [r])[..|rs|] == rs;
  }

  /** Without overflow of the counter the receipts hold the exact prefix sums. */
  lemma {:induction false} CumulativeExact(rs: seq<Receipt>)
    requires Cumulative(rs) && GasOf(rs) < WORD
    ensures PrefixSums(rs)
  {
    if rs != [] {
      var front := rs[..|rs| - 1];
      assert GasOf(front) <= GasOf(rs);
      CumulativeExact(front);
      hide GasOf, Cumulative;
      assert rs[..|rs|] == rs;
      forall i | 0 <= i < |front| ensures rs[i].cumulativeGasUsed == GasOf(rs[..i + 1]) {
        assert front[..i + 1] == rs[..i + 1] && front[i] == rs[i];
      }
    }
  }

  // ---------------------------------------------------------------------- drift

  /** How much the transactions let pool and gas used together grow. */
  ghost function DriftOf(txs: seq<Tx>): nat {
    if txs == [] then 0 else DriftOf(txs[..|txs| - 1]) + Drift(txs[|txs| - 1].msg, txs[|txs| - 1].oracle)
  }

  lemma DriftStep(txs: seq<Tx>, i: nat)
    requires i < |txs|
    ensures DriftOf(txs[..i + 1]) == DriftOf(txs[..i]) + Drift(txs[i].msg, txs[i].oracle)
  {
    assert txs[..i + 1][..i] == txs[..i];
  }

  lemma {:induction false} DriftMonotone(txs: seq<Tx>, k: nat)
    requires k <= |txs|
    ensures DriftOf(txs[..k]) <= DriftOf(txs)
  {
    if k < |txs| {
      var front := txs[..|txs| - 1];
      DriftMonotone(front, k);
      assert front[..k] == txs[..k];
    } else {
      assert txs[..k] == txs;
    }
  }

  /** Only deposits drift. */
  lemma {:induction false} NoDrift(txs: seq<Tx>)
    requires NoDeposits(txs)
    ensures DriftOf(txs) == 0
  {
    if txs != [] {
      assert txs[|txs| - 1] in txs;
      NoDrift(txs[..|txs| - 1]);
    }
  }

  ghost predicate Balanced(t: Tally, gasLimit: nat, drift: nat) {
    t.pool + t.spent + t.lost == gasLimit + drift && t.usedGas == t.spent % WORD
  }

  /** The block gas law: pool and counter, and what rejected transactions had bought, make up the limit. */
  ghost predicate GasLaw(t: Tally, gasLimit: nat) { t.pool + t.usedGas + t.lost == gasLimit }

  /** Every step of the trace is balanced up to the drift so far. */
  ghost predicate Traced(trace: seq<Tally>, txs: seq<Tx>, gasLimit: nat) {
    |trace| <= |txs| && forall k | 0 <= k < |trace| :: Balanced(trace[k], gasLimit, DriftOf(txs[..k + 1]))
  }

  lemma TracedSnoc(trace: seq<Tally>, txs: seq<Tx>, gasLimit: nat, t: Tally)
    requires Traced(trace, txs, gasLimit) && |trace| < |txs|
    requires Balanced(t, gasLimit, DriftOf(txs[..|trace| + 1]))
    ensures Traced(trace + [t], txs, gasLimit)
  {
    hide DriftOf, Balanced;
  }

  /** Where the counter cannot overflow, the law holds after a transaction exactly if nothing has drifted. */
  lemma LawIffNoDrift(trace: seq<Tally>, txs: seq<Tx>, gasLimit: nat, k: nat)
    requires Traced(trace, txs, gasLimit) && k < |trace| && gasLimit + DriftOf(txs) < WORD
    ensures GasLaw(trace[k], gasLimit) <==> DriftOf(txs[..k + 1]) == 0
  {
    hide DriftOf;
    DriftMonotone(txs, k + 1);
  }

  /** Where the loop stands: the tally of now, balanced, with the receipts it counts and the trace that led here. */
  ghost predicate Standing(txs: seq<Tx>, gasLimit: nat, t: Tally, receipts: seq<Receipt>, trace: seq<Tally>) {
    && Traced(trace, txs, gasLimit) && Balanced(t, gasLimit, DriftOf(txs[..|trace|]))
    && Cumulative(receipts) && t.spent == GasOf(receipts)
    && t.spent == if trace == [] then 0 else trace[|trace| - 1].spent
  }

  lemma AppliedStep(txs: seq<Tx>, gasLimit: nat, t: Tally, receipts: seq<Receipt>, trace: seq<Tally>,
                    pool: nat, r: Receipt)
    requires Standing(txs, gasLimit, t, receipts, trace) && |trace| < |txs|
    requires pool + r.gasUsed == t.pool + Drift(txs[|trace|].msg, txs[|trace|].oracle)
    requires r.cumulativeGasUsed == (t.usedGas + r.gasUsed) % WORD
    ensures var u := Tally(pool, r.cumulativeGasUsed, t.spent + r.gasUsed, t.lost);
            Standing(txs, gasLimit, u, receipts + [r], trace + [u])
  {
    var u := Tally(pool, r.cumulativeGasUsed, t.spent + r.gasUsed, t.lost);
    DriftStep(txs, |trace|);
    SumWraps(t.spent, r.gasUsed);
    hide DriftOf, GasOf, Cumulative, Drift, Traced;
    TracedSnoc(trace, txs, gasLimit, u);
    GasOfSnoc(receipts, r);
    CumulativeSnoc(receipts, r);
  }

  lemma SumWraps(a: nat, b: nat)
    ensures (a % WORD + b) % WORD == (a + b) % WORD
  {
  }

  lemma RejectedStep(txs: seq<Tx>, gasLimit: nat, t: Tally, receipts: seq<Receipt>, trace: seq<Tally>, bought: nat)
    requires Standing(txs, gasLimit, t, receipts, trace) && |trace| < |txs|
    requires !txs[|trace|].msg.IsDeposit() && bought <= t.pool
    ensures var u := t.(pool := t.pool - bought, lost := t.lost + bought);
            Standing(txs, gasLimit, u, receipts, trace + [u])
  {
    DriftStep(txs, |trace|);
    hide DriftOf, GasOf, Cumulative, Traced;
    TracedSnoc(trace, txs, gasLimit, t.(pool := t.pool - bought, lost := t.lost + bought));
  }

  /** A panic means that limit and drift are too much for 64 bits. */
  lemma PanicStep(txs: seq<Tx>, gasLimit: nat, t: Tally, receipts: seq<Receipt>, trace: seq<Tally>)
    requires Standing(txs, gasLimit, t, receipts, trace) && |trace| < |txs|
    requires t.pool + Drift(txs[|trace|].msg, txs[|trace|].oracle) >= WORD
    ensures gasLimit + DriftOf(txs) >= WORD
  {
    hide Traced, GasOf, Cumulative, Drift;
    DriftStep(txs, |trace|);
    DriftMonotone(txs, |trace| + 1);
  }

  /** What the trace says in the end. */
  lemma Closing(txs: seq<Tx>, gasLimit: nat, t: Tally, receipts: seq<Receipt>, trace: seq<Tally>)
    requires Standing(txs, gasLimit, t, receipts, trace)
    ensures t.usedGas == GasOf(receipts) % WORD && (NoDeposits(txs) ==> DriftOf(txs) == 0)
    ensures gasLimit + DriftOf(txs) < WORD ==>
              && GasOf(receipts) <= gasLimit + DriftOf(txs) && PrefixSums(receipts)
              && forall k | 0 <= k < |trace| :: GasLaw(trace[k], gasLimit) <==> DriftOf(txs[..k + 1]) == 0
  {
    hide GasOf, DriftOf, GasLaw, Cumulative, PrefixSums, Traced;
    if NoDeposits(txs) { NoDrift(txs); }
    if gasLimit + DriftOf(txs) < WORD {
      TraceLength(trace, txs, gasLimit);
      DriftMonotone(txs, |trace|);
      CumulativeExact(receipts);
      forall k | 0 <= k < |trace| ensures GasLaw(trace[k], gasLimit) <==> DriftOf(txs[..k + 1]) == 0 {
        LawIffNoDrift(trace, txs, gasLimit, k);
      }
    }
  }

  lemma TraceLength(trace: seq<Tally>, txs: seq<Tx>, gasLimit: nat)
    requires Traced(trace, txs, gasLimit)
    ensures |trace| <= |txs|
  {
  }

  /** In a block without deposits nothing has drifted at any point. */
  lemma LawOfPlainBlock(trace: seq<Tally>, txs: seq<Tx>, gasLimit: nat)
    requires Traced(trace, txs, gasLimit) && NoDeposits(txs) && gasLimit < WORD
    ensures forall t | t in trace :: GasLaw(t, gasLimit)
  {
    NoDrift(txs);
    hide DriftOf;
    forall k | 0 <= k < |trace| ensures GasLaw(trace[k], gasLimit) {
      LawIffNoDrift(trace, txs, gasLimit, k);
      DriftMonotone(txs, k + 1);
    }
  }

  class Counter {
    var usedGas: nat

    constructor ()
      ensures usedGas == 0
    {
      usedGas := 0;
    }
  }

  // ----------------------------------------------------------------- the block

  /** What applying a transaction does to the world. */
  ghost predicate Applies(tx: Tx, env: Env, w: World, r: Result<Receipt>, v: World) {
    match r
    case Ok(c) => Happens(tx.msg, env, tx.oracle, tx.evm, w, Ok(ExecutionResult(c.gasUsed, c.failed)), v)
    case Err(e) => Happens(tx.msg, env, tx.oracle, tx.evm, w, Err(e), v)
  }

  /** The transactions were applied one after the other, with these results. */
  ghost predicate Sequence(txs: seq<Tx>, env: Env, worlds: seq<World>, results: seq<Result<Receipt>>) {
    && |results| <= |txs| && |worlds| == |results| + 1
    && forall k | 0 <= k < |results| :: Applies(txs[k], env, worlds[k], results[k], worlds[k + 1])
  }

  /** The result ends the block: any error does, but in stateless mode only a panic. */
  predicate Fatal(r: Result<Receipt>, stateless: bool) { r.Err? && (!stateless || r.error == GasPoolPanic) }

  function Last<T>(s: seq<T>): T
    requires s != []
  {
    s[|s| - 1]
  }

  function Front<T>(s: seq<T>): seq<T>
    requires s != []
  {
    s[..|s| - 1]
  }

  /** The receipts, in order. */
  function Included(results: seq<Result<Receipt>>): seq<Receipt> {
    if results == [] then [] else Included(Front(results)) + if Last(results).Ok? then [Last(results).value] else []
  }

  lemma IncludedLast(results: seq<Result<Receipt>>)
    requires results != []
    ensures var r, front := Last(results), Included(Front(results));
            Included(results) == if r.Ok? then front + [r.value] else front
  {
  }

  lemma IncludedSnoc(results: seq<Result<Receipt>>, r: Result<Receipt>)
    ensures Included(results + [r]) == if r.Ok? then Included(results) + [r.value] else Included(results)
  {
    assert Front(results + [r]) == results;
  }

  lemma SequenceSnoc(txs: seq<Tx>, env: Env, worlds: seq<World>, results: seq<Result<Receipt>>, r: Result<Receipt>,
                     v: World)
    requires Sequence(txs, env, worlds, results) && |results| < |txs|
    requires Applies(txs[|results|], env, Last(worlds), r, v)
    ensures Sequence(txs, env, worlds + [v], results + [r])
  {
    hide Applies;
  }

  lemma SequenceFront(txs: seq<Tx>, env: Env, worlds: seq<World>, results: seq<Result<Receipt>>)
    requires Sequence(txs, env, worlds, results) && results != []
    ensures Sequence(txs, env, Front(worlds), Front(results)) && Last(Front(worlds)) == worlds[|results| - 1]
    ensures Applies(txs[|results| - 1], env, worlds[|results| - 1], Last(results), Last(worlds))
  {
    hide Applies;
  }

  /** What a step means for the gas. */
  lemma AppliedGas(tx: Tx, env: Env, w: World, r: Result<Receipt>, v: World)
    requires Applies(tx, env, w, r, v) && Proper(tx) && w.pool < WORD
    ensures v.pool < WORD
    ensures r.Ok? ==> v.pool + r.value.gasUsed == w.pool + Drift(tx.msg, tx.oracle)
    ensures !tx.msg.IsDeposit() && r.Err? ==>
              r.error != GasPoolPanic && v.pool == w.pool - (if AfterPurchase(r.error) then tx.msg.gas else 0)
    ensures tx.msg.IsDeposit() && r.Err? ==> r.error == GasPoolPanic && w.pool + Drift(tx.msg, tx.oracle) >= WORD
  {
    hide Happens, Conserving;
    var x := if r.Ok? then Ok(ExecutionResult(r.value.gasUsed, r.value.failed)) else Err(r.error);
    PoolLaw(tx.msg, env, tx.oracle, tx.evm, w, x, v);
  }

  /** Every run of a block, fatal end or not, is balanced up to the drift so far. */
  lemma {:induction false} Tallied(txs: seq<Tx>, env: Env, stateless: bool, gasLimit: nat, worlds: seq<World>,
                                   results: seq<Result<Receipt>>)
    returns (t: Tally, trace: seq<Tally>)
    requires Sequence(txs, env, worlds, results) && worlds[0].pool == gasLimit < WORD
    requires (forall tx | tx in txs :: Proper(tx)) && Cumulative(Included(results))
    requires forall k | 0 <= k < |results| - 1 :: !Fatal(results[k], stateless)
    ensures Standing(txs, gasLimit, t, Included(results), trace) && Last(worlds).pool < WORD
    ensures results == [] || !Fatal(Last(results), stateless) ==> |trace| == |results| && t.pool == Last(worlds).pool
    ensures results != [] && Fatal(Last(results), stateless) ==> |trace| == |results| - 1
    ensures results != [] && Last(results) == Err(GasPoolPanic) ==> gasLimit + DriftOf(txs) >= WORD
    ensures (forall k | 0 <= k < |trace| :: results[k].Ok?) ==> t.lost == 0 && forall u | u in trace :: u.lost == 0
    ensures forall k | 0 <= k < |trace| :: trace[k].pool == worlds[k + 1].pool
    decreases |results|
  {
    hide Applies, Standing, Cumulative, Proper, Drift, DriftOf, Sequence, Included;
    SequenceBounds(txs, env, worlds, results);
    if results == [] {
      NothingTallied(txs, gasLimit);
      t, trace := Tally(gasLimit, 0, 0, 0), [];
    } else {
      var n := |results| - 1;
      var r := results[n];
      SequenceFront(txs, env, worlds, results);
      CumulativeFront(results);
      IncludedLast(results);
      t, trace := Tallied(txs, env, stateless, gasLimit, Front(worlds), Front(results));
      assert forall k | 0 <= k < n :: Front(results)[k] == results[k];
      assert n > 0 ==> Last(Front(results)) == results[n - 1];
      AppliedGas(txs[n], env, worlds[n], r, worlds[n + 1]);
      if r.Ok? {
        t, trace := TallyReceipt(txs, gasLimit, t, Included(Front(results)), trace, worlds[n + 1].pool, r.value);
      } else if Fatal(r, stateless) {
        if r.error == GasPoolPanic { PanicStep(txs, gasLimit, t, Included(results), trace); }
      } else {
        var bought := if AfterPurchase(r.error) then txs[n].msg.gas else 0;
        RejectedStep(txs, gasLimit, t, Included(results), trace, bought);
        t := t.(pool := t.pool - bought, lost := t.lost + bought);
        trace := trace + [t];
      }
    }
  }

  lemma NothingTallied(txs: seq<Tx>, gasLimit: nat)
    ensures Included([]) == [] && Standing(txs, gasLimit, Tally(gasLimit, 0, 0, 0), [], [])
  {
  }

  lemma TallyReceipt(txs: seq<Tx>, gasLimit: nat, t: Tally, rs: seq<Receipt>, trace: seq<Tally>, pool: nat, c: Receipt)
    returns (u: Tally, all: seq<Tally>)
    requires Standing(txs, gasLimit, t, rs, trace) && |trace| < |txs| && Cumulative(rs + [c])
    requires pool + c.gasUsed == t.pool + Drift(txs[|trace|].msg, txs[|trace|].oracle)
    ensures Standing(txs, gasLimit, u, rs + [c], all) && u.pool == pool && u.lost == t.lost
    ensures all == trace + [u]
  {
    hide Drift, DriftOf, Traced;
    CumulativeInit(rs, c);
    u := Tally(pool, c.cumulativeGasUsed, t.spent + c.gasUsed, t.lost);
    SumWraps(t.spent, c.gasUsed);
    AppliedStep(txs, gasLimit, t, rs, trace, pool, c);
    all := trace + [u];
  }

  lemma CumulativeInit(rs: seq<Receipt>, c: Receipt)
    requires Cumulative(rs + [c])
    ensures Cumulative(rs) && c.cumulativeGasUsed == (GasOf(rs) + c.gasUsed) % WORD
  {
    var all := rs + [c];
    assert all[..|all| - 1] == rs;
    GasOfSnoc(rs, c);
    hide GasOf;
  }

  lemma SequenceBounds(txs: seq<Tx>, env: Env, worlds: seq<World>, results: seq<Result<Receipt>>)
    requires Sequence(txs, env, worlds, results)
    ensures |results| <= |txs| && |worlds| == |results| + 1
  {
  }

  lemma CumulativeFront(results: seq<Result<Receipt>>)
    requires results != [] && Cumulative(Included(results))
    ensures Cumulative(Included(Front(results)))
  {
    hide Included, Cumulative;
    IncludedLast(results);
    if Last(results).Ok? { CumulativeInit(Included(Front(results)), Last(results).value); }
  }

  /** A run of paying messages burns the gas of its receipts at the base fee. */
  lemma {:induction false} BurnedInAll(txs: seq<Tx>, env: Env, worlds: seq<World>, results: seq<Result<Receipt>>)
    requires Sequence(txs, env, worlds, results) && (forall tx | tx in txs :: Proper(tx) && Paying(tx.msg, env))
    requires (forall k | 0 <= k < |results| :: results[k].Ok?) && Total(worlds[0].balances) < WEI_LIMIT
    ensures Total(Last(worlds).balances) == Total(worlds[0].balances) - Burned(GasOf(Included(results)), env)
    decreases |results|
  {
    hide Applies, Total, Paying, Proper, GasOf, Sequence, Burned, Included;
    SequenceBounds(txs, env, worlds, results);
    if results == [] {
      NothingBurned(env);
    } else {
      SequenceFront(txs, env, worlds, results);
      BurnedInAll(txs, env, Front(worlds), Front(results));
      BurnedNext(txs, env, worlds, results);
    }
  }

  lemma NothingBurned(env: Env)
    ensures Burned(GasOf(Included([])), env) == 0
  {
  }

  lemma BurnedNext(txs: seq<Tx>, env: Env, worlds: seq<World>, results: seq<Result<Receipt>>)
    requires Sequence(txs, env, worlds, results) && results != [] && Last(results).Ok?
    requires var tx := txs[|results| - 1]; Proper(tx) && Paying(tx.msg, env)
    requires Total(worlds[0].balances) < WEI_LIMIT
    requires Total(Last(Front(worlds)).balances)
             == Total(worlds[0].balances) - Burned(GasOf(Included(Front(results))), env)
    ensures Total(Last(worlds).balances) == Total(worlds[0].balances) - Burned(GasOf(Included(results)), env)
  {
    hide Applies, Total, Paying, Proper, GasOf, Burned, Included;
    var n := |results| - 1;
    IncludedLast(results);
    BurnedByOne(txs[n], env, worlds[n], results[n].value, worlds[n + 1]);
    BurnedTogether(Included(Front(results)), results[n].value, env);
  }

  lemma BurnedTogether(rs: seq<Receipt>, c: Receipt, env: Env)
    ensures Burned(GasOf(rs + [c]), env) == Burned(GasOf(rs), env) + Burned(c.gasUsed, env)
  {
    GasOfSnoc(rs, c);
    hide GasOf, Burned;
    BurnedSum(GasOf(rs), c.gasUsed, env);
  }

  lemma BurnedByOne(tx: Tx, env: Env, w: World, c: Receipt, v: World)
    requires Applies(tx, env, w, Ok(c), v) && Proper(tx) && Paying(tx.msg, env) && Total(w.balances) < WEI_LIMIT
    ensures Total(v.balances) == Total(w.balances) - Burned(c.gasUsed, env)
  {
    hide Happens, Total, Conserving;
    var res := ExecutionResult(c.gasUsed, c.failed);
    PaidInFull(tx.msg, env, tx.oracle, tx.evm, w, res, v);
    TotalLaw(tx.msg, env, tx.oracle, tx.evm, w, res, v);
  }

  /** A message that paid and was accepted has a cap that covers the base fee. */
  lemma PaidInFull(msg: Message, env: Env, oracle: Oracle, evm: Evm, w: World, res: ExecutionResult, v: World)
    requires Happens(msg, env, oracle, evm, w, Ok(res), v) && msg.Words() && Paying(msg, env)
    requires Total(w.balances) < WEI_LIMIT
    ensures LondonPriced(w.balances, msg, env)
  {
    hide Happens, Total;
    AcceptedExactly(msg, env, oracle, evm, w, Ok(res), v);
  }

  /** `applyTransaction`: applies the message and adds the gas it used to the block's counter. */
  method ApplyTransaction(tx: Tx, env: Env, gp: GasPool, ibs: IntraBlockState, counter: Counter)
    returns (r: Result<Receipt>)
    requires Proper(tx) && gp.gas < WORD
    modifies gp, ibs, counter
    ensures gp.gas < WORD
    ensures Applies(tx, env, old(World(gp.gas, ibs.balances, ibs.nonces)), r, World(gp.gas, ibs.balances, ibs.nonces))
    ensures r.Err? ==> counter.usedGas == old(counter.usedGas)
    ensures r.Ok? ==> counter.usedGas == r.value.cumulativeGasUsed == (old(counter.usedGas) + r.value.gasUsed) % WORD
    ensures r.Ok? ==> gp.gas + r.value.gasUsed == old(gp.gas) + Drift(tx.msg, tx.oracle)
    ensures !tx.msg.IsDeposit() && r.Err? ==>
              r.error != GasPoolPanic && gp.gas == old(gp.gas) - (if AfterPurchase(r.error) then tx.msg.gas else 0)
    ensures tx.msg.IsDeposit() && r.Err? ==>
              r.error == GasPoolPanic && old(gp.gas) + Drift(tx.msg, tx.oracle) >= WORD
  {
    hide Total, Affordable, GasLeft, Outcome, Conserving, Happens;
    var st := new StateTransition(tx.msg, env, tx.oracle, gp, ibs);
    var result := st.TransitionDb(tx.evm);
    if result.Err? { return Err(result.error); }
    counter.usedGas := (counter.usedGas + result.value.usedGas) % WORD;
    return Ok(Receipt(counter.usedGas, result.value.usedGas, result.value.failed));
  }

  /** What the loop has collected is what the results so far say. */
  ghost predicate Collected(stateless: bool, results: seq<Result<Receipt>>, receipts: seq<Receipt>, rejected: seq<nat>,
                            usedGas: nat)
  {
    && receipts == Included(results) && Cumulative(receipts) && usedGas == GasOf(receipts) % WORD
    && (forall i, j | 0 <= i < j < |rejected| :: rejected[i] < rejected[j])
    && (forall j: nat :: j in rejected <==> j < |results| && results[j].Err? && !Fatal(results[j], stateless))
  }

  lemma CollectedSnoc(stateless: bool, results: seq<Result<Receipt>>, receipts: seq<Receipt>, rejected: seq<nat>,
                      usedGas: nat, r: Result<Receipt>, after: nat)
    requires Collected(stateless, results, receipts, rejected, usedGas)
    requires r.Err? ==> after == usedGas
    requires r.Ok? ==> after == r.value.cumulativeGasUsed == (usedGas + r.value.gasUsed) % WORD
    ensures var more := if r.Err? && !Fatal(r, stateless) then rejected + [|results|] else rejected;
            Collected(stateless, results + [r], if r.Ok? then receipts + [r.value] else receipts, more, after)
  {
    hide Included, GasOf, Cumulative, Fatal;
    IncludedSnoc(results, r);
    if r.Ok? {
      SumWraps(GasOf(receipts), r.value.gasUsed);
      GasOfSnoc(receipts, r.value);
      CumulativeSnoc(receipts, r.value);
    }
    assert forall j | 0 <= j < |rejected| :: rejected[j] in rejected;
    assert forall j: nat :: j in rejected + [|results|] <==> j in rejected || j == |results|;
  }

  lemma CollectedParts(stateless: bool, results: seq<Result<Receipt>>, receipts: seq<Receipt>, rejected: seq<nat>,
                       usedGas: nat)
    requires Collected(stateless, results, receipts, rejected, usedGas)
    ensures receipts == Included(results) && Cumulative(receipts) && usedGas == GasOf(receipts) % WORD
    ensures forall i, j | 0 <= i < j < |rejected| :: rejected[i] < rejected[j]
    ensures forall j: nat :: j in rejected <==>
              stateless && j < |results| && results[j].Err? && results[j].error != GasPoolPanic
  {
    hide Included, GasOf, Cumulative;
  }

  lemma NothingYet(stateless: bool, txs: seq<Tx>, env: Env, w: World)
    ensures Sequence(txs, env, [w], []) && Collected(stateless, [], [], [], 0)
  {
  }

  /** How a block ends: the transactions were applied in order, each to what the one before left, up to the first
      fatal result; the receipts are those of the transactions that were applied; the rejected ones are the others;
      and the block is in error exactly for the last result, or for its gas if all were applied. */
  ghost predicate Executed(txs: seq<Tx>, env: Env, headerGasUsed: nat, stateless: bool,
                           receipts: seq<Receipt>, rejected: seq<nat>, err: Option<BlockError>,
                           worlds: seq<World>, results: seq<Result<Receipt>>)
  {
    && Sequence(txs, env, worlds, results) && receipts == Included(results) && Cumulative(receipts)
    && (forall k | 0 <= k < |results| - 1 :: results[k].Ok? || (stateless && results[k].error != GasPoolPanic))
    && (|results| < |txs| ==>
          results != [] && Last(results).Err? && (!stateless || Last(results).error == GasPoolPanic))
    && (forall i, j | 0 <= i < j < |rejected| :: rejected[i] < rejected[j])
    && (forall j: nat :: j in rejected <==>
          stateless && j < |results| && results[j].Err? && results[j].error != GasPoolPanic)
    && (err == Some(Panicked) <==> results != [] && Last(results) == Err(GasPoolPanic))
    && (forall i: nat, e :: err == Some(CouldNotApply(i, e)) <==>
          !stateless && e != GasPoolPanic && |results| == i + 1 && results[i] == Err(e))
    && (err == Some(GasUsedMismatch) <==>
          && !stateless && |results| == |txs| && (forall k | 0 <= k < |results| :: results[k].Ok?)
          && GasOf(receipts) % WORD != headerGasUsed)
  }

  /** So a block is accepted exactly if every transaction can be applied and the gas is that of the header, and a
      stateless one unless the pool overflows. */
  lemma AcceptedBlock(txs: seq<Tx>, env: Env, headerGasUsed: nat, stateless: bool, receipts: seq<Receipt>,
                      rejected: seq<nat>, err: Option<BlockError>, worlds: seq<World>, results: seq<Result<Receipt>>)
    requires Executed(txs, env, headerGasUsed, stateless, receipts, rejected, err, worlds, results)
    ensures !stateless ==>
              (err == None <==> && |results| == |txs| && (forall k | 0 <= k < |results| :: results[k].Ok?)
                                && GasOf(receipts) % WORD == headerGasUsed)
    ensures stateless ==>
              (err == None <==> forall k | 0 <= k < |results| :: results[k].Ok? || results[k].error != GasPoolPanic)
    ensures err == None ==> |results| == |txs|
    ensures !stateless ==> rejected == []
  {
    hide Sequence, Included, Cumulative, GasOf;
    SequenceBounds(txs, env, worlds, results);
    FirstMember(rejected);
    if results != [] && Last(results).Err? {
      LastError(txs, env, headerGasUsed, stateless, receipts, rejected, err, worlds, results);
    }
    if err.Some? && err.value.CouldNotApply? {
      assert err == Some(CouldNotApply(err.value.index, err.value.error));
    }
  }

  /** A fatal result is the block's error. */
  lemma LastError(txs: seq<Tx>, env: Env, headerGasUsed: nat, stateless: bool, receipts: seq<Receipt>,
                  rejected: seq<nat>, err: Option<BlockError>, worlds: seq<World>, results: seq<Result<Receipt>>)
    requires Executed(txs, env, headerGasUsed, stateless, receipts, rejected, err, worlds, results)
    requires results != [] && Last(results).Err?
    ensures Last(results).error == GasPoolPanic ==> err == Some(Panicked)
    ensures Last(results).error != GasPoolPanic && !stateless ==>
              err == Some(CouldNotApply(|results| - 1, Last(results).error))
  {
    hide Sequence, Included, Cumulative, GasOf;
    var e := Last(results).error;
    assert Last(results) == Err(e);
    assert err == Some(CouldNotApply(|results| - 1, e)) <==> !stateless && e != GasPoolPanic;
  }

  /** The loop of `ExecuteBlockEphemerally` and its gas check. In stateless mode transactions that
      cannot be applied are skipped. A panic of the gas pool ends it all. */
  method ExecuteBlock(txs: seq<Tx>, env: Env, gasLimit: nat, headerGasUsed: nat, stateless: bool, ibs: IntraBlockState)
    returns (receipts: seq<Receipt>, rejected: seq<nat>, err: Option<BlockError>, ghost worlds: seq<World>,
             ghost results: seq<Result<Receipt>>)
    requires gasLimit < WORD && forall tx | tx in txs :: Proper(tx)
    modifies ibs
    ensures Executed(txs, env, headerGasUsed, stateless, receipts, rejected, err, worlds, results)
    ensures worlds[0] == World(gasLimit, old(ibs.balances), old(ibs.nonces))
    ensures ibs.balances == Last(worlds).balances && ibs.nonces == Last(worlds).nonces
  {
    hide Proper, Cumulative, GasOf, Drift, Sequence, Collected, Included, Applies, AfterPurchase;
    var gp := new GasPool();
    var panicked := gp.AddGas(gasLimit);
    var counter := new Counter();
    receipts, rejected, err, worlds, results := [], [], None, [World(gasLimit, ibs.balances, ibs.nonces)], [];
    NothingYet(stateless, txs, env, worlds[0]);
    var i := 0;
    while i < |txs|
      invariant err == None && i == |results| <= |txs| && |worlds| == i + 1 && gp.gas < WORD
      invariant Sequence(txs, env, worlds, results) && worlds[0] == old(World(gasLimit, ibs.balances, ibs.nonces))
      invariant Last(worlds) == World(gp.gas, ibs.balances, ibs.nonces)
      invariant forall k | 0 <= k < i :: !Fatal(results[k], stateless)
      invariant Collected(stateless, results, receipts, rejected, counter.usedGas)
    {
      ghost var used := counter.usedGas;
      var r := ApplyTransaction(txs[i], env, gp, ibs, counter);
      SequenceSnoc(txs, env, worlds, results, r, World(gp.gas, ibs.balances, ibs.nonces));
      CollectedSnoc(stateless, results, receipts, rejected, used, r, counter.usedGas);
      worlds, results := worlds + [World(gp.gas, ibs.balances, ibs.nonces)], results + [r];
      if r.Err? {
        if r.error == GasPoolPanic {
          err := Some(Panicked);
          break;
        }
        if !stateless {
          err := Some(CouldNotApply(i, r.error));
          break;
        }
        rejected := rejected + [i];
      } else {
        receipts := receipts + [r.value];
      }
      i := i + 1;
    }
    if err == None && !stateless && counter.usedGas != headerGasUsed { err := Some(GasUsedMismatch); }
    CollectedParts(stateless, results, receipts, rejected, counter.usedGas);
  }

  /** The gas of every block: after each transaction pool, gas of the receipts and gas lost make up the limit and
      the drift so far. Where limit and drift are a 64-bit number, nothing overflows and nothing panics, the
      receipts hold prefix sums, and the gas law holds exactly where nothing has drifted. */
  lemma BlockGas(txs: seq<Tx>, env: Env, gasLimit: nat, headerGasUsed: nat, stateless: bool, receipts: seq<Receipt>,
                 rejected: seq<nat>, err: Option<BlockError>, worlds: seq<World>, results: seq<Result<Receipt>>)
    returns (trace: seq<Tally>)
    requires Executed(txs, env, headerGasUsed, stateless, receipts, rejected, err, worlds, results)
    requires worlds[0].pool == gasLimit < WORD && forall tx | tx in txs :: Proper(tx)
    ensures Traced(trace, txs, gasLimit)
    ensures |trace| <= |results| && forall k | 0 <= k < |trace| :: trace[k].pool == worlds[k + 1].pool
    ensures |trace| == if err.Some? && !err.value.GasUsedMismatch? then |results| - 1 else |results|
    ensures rejected == [] ==> forall t | t in trace :: t.lost == 0
    ensures trace != [] ==> trace[|trace| - 1].spent == GasOf(receipts)
    ensures gasLimit + DriftOf(txs) < WORD ==>
              && GasOf(receipts) <= gasLimit + DriftOf(txs) && PrefixSums(receipts) && err != Some(Panicked)
              && forall k | 0 <= k < |trace| :: GasLaw(trace[k], gasLimit) <==> DriftOf(txs[..k + 1]) == 0
    ensures NoDeposits(txs) ==> DriftOf(txs) == 0 && forall t | t in trace :: GasLaw(t, gasLimit)
  {
    hide Proper, Cumulative, PrefixSums, GasOf, DriftOf, Drift, Standing, Traced, GasLaw, Sequence, Included;
    SequenceBounds(txs, env, worlds, results);
    var t;
    t, trace := Tallied(txs, env, stateless, gasLimit, worlds, results);
    Closing(txs, gasLimit, t, receipts, trace);
    StandingParts(txs, gasLimit, t, receipts, trace);
    if NoDeposits(txs) { LawOfPlainBlock(trace, txs, gasLimit); }
    AcceptedBlock(txs, env, headerGasUsed, stateless, receipts, rejected, err, worlds, results);
    NoneRejected(stateless, rejected, results);
    if results != [] && Last(results).Err? {
      LastError(txs, env, headerGasUsed, stateless, receipts, rejected, err, worlds, results);
    }
    if err.Some? && err.value.CouldNotApply? {
      assert err == Some(CouldNotApply(err.value.index, err.value.error));
    }
  }

  /** An accepted block of paying messages burns the header's gas at the base fee, or nothing if the fees are
      collected. */
  lemma BlockBurns(txs: seq<Tx>, env: Env, headerGasUsed: nat, receipts: seq<Receipt>, rejected: seq<nat>,
                   worlds: seq<World>, results: seq<Result<Receipt>>)
    requires Executed(txs, env, headerGasUsed, false, receipts, rejected, None, worlds, results)
    requires worlds[0].pool < WORD && Total(worlds[0].balances) < WEI_LIMIT
    requires forall tx | tx in txs :: Proper(tx) && Paying(tx.msg, env)
    ensures Total(Last(worlds).balances) == Total(worlds[0].balances) - Burned(headerGasUsed, env)
  {
    hide Proper, Cumulative, PrefixSums, GasOf, DriftOf, Traced, GasLaw, Sequence, Included, Total, Burned;
    SequenceBounds(txs, env, worlds, results);
    AcceptedBlock(txs, env, headerGasUsed, false, receipts, rejected, None, worlds, results);
    BurnedInAll(txs, env, worlds, results);
    var trace := BlockGas(txs, env, worlds[0].pool, headerGasUsed, false, receipts, rejected, None, worlds, results);
    assert NoDeposits(txs);
  }

  lemma NoneRejected(stateless: bool, rejected: seq<nat>, results: seq<Result<Receipt>>)
    requires forall j: nat :: j in rejected <==>
               stateless && j < |results| && results[j].Err? && results[j].error != GasPoolPanic
    ensures rejected == [] ==> forall j | 0 <= j < |results| :: results[j].Ok? || Fatal(results[j], stateless)
  {
    forall j | 0 <= j < |results| && rejected == [] ensures results[j].Ok? || Fatal(results[j], stateless) {
      assert j !in rejected;
    }
  }

  lemma StandingParts(txs: seq<Tx>, gasLimit: nat, t: Tally, receipts: seq<Receipt>, trace: seq<Tally>)
    requires Standing(txs, gasLimit, t, receipts, trace)
    ensures Traced(trace, txs, gasLimit) && Cumulative(receipts)
    ensures trace != [] ==> trace[|trace| - 1].spent == GasOf(receipts)
  {
  }

  /** One deposit: pool and counter end above the limit by all of its gas. */
  method OneDeposit(gasLimit: nat) returns (receipts: seq<Receipt>, ghost after: Tally)
    requires gasLimit + 21000 < WORD
    ensures |receipts| == 1 && after.pool + after.usedGas == gasLimit + 21000
  {
    hide Executed, Sequence, Happens, Applies, GasLaw, Cumulative, PrefixSums, GasOf, Conserving;
    var msg := Message(1, false, 0, 0, 0, 21000, 0, DEPOSITS_NONCE, false, false, false, 0);
    var tx := Tx(msg, Oracle(false, 21000, false, false, false), Idle());
    IdleConserves();
    var ibs := new IntraBlockState(map[], map[]);
    OneDrift(tx);
    var rejected, err;
    ghost var worlds, results;
    var env := Env(2, 1, NoCollector, true, false);
    receipts, rejected, err, worlds, results := ExecuteBlock([tx], env, gasLimit, 21000, true, ibs);
    ghost var trace := BlockGas([tx], env, gasLimit, 21000, true, receipts, rejected, err, worlds, results);
    DepositIncluded(tx, env, 21000, receipts, rejected, err, worlds, results);
    after := trace[0];
    assert after in trace && [tx][..1] == [tx];
  }

  lemma IdleConserves()
    ensures Conserving(Idle())
  {
  }

  /** A deposit is included unless the pool overflows. */
  lemma DepositIncluded(tx: Tx, env: Env, headerGasUsed: nat, receipts: seq<Receipt>, rejected: seq<nat>,
                        err: Option<BlockError>, worlds: seq<World>, results: seq<Result<Receipt>>)
    requires Executed([tx], env, headerGasUsed, true, receipts, rejected, err, worlds, results)
    requires tx.msg.IsDeposit() && Proper(tx) && worlds[0].pool < WORD && err != Some(Panicked)
    ensures |results| == 1 && |receipts| == 1 && rejected == [] && err == None
  {
    hide Sequence, Cumulative, GasOf, Proper, Applies;
    FirstMember(rejected);
    AcceptedBlock([tx], env, headerGasUsed, true, receipts, rejected, err, worlds, results);
    SequenceBounds([tx], env, worlds, results);
    if results != [] {
      SequenceFront([tx], env, worlds, results);
      AppliedGas(tx, env, worlds[0], results[0], worlds[1]);
      IncludedLast(results);
      if results[0].Err? { LastError([tx], env, headerGasUsed, true, receipts, rejected, err, worlds, results); }
    }
  }

  lemma FirstMember(s: seq<nat>)
    ensures s == [] || s[0] in s
  {
  }

  lemma OneDrift(tx: Tx)
    ensures DriftOf([tx]) == Drift(tx.msg, tx.oracle)
  {
    assert [tx][..0] == [];
  }
}
