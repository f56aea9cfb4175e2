/** Applying a block's transactions to the coin set: logic/ltx ApplyBlockTransactions and its helpers. */
module BlockApply {
  import opened Wrappers
  import opened Utxo

  const COINBASE_MATURITY: int := 100

  datatype BlockError =
    | Bip30Overwrite
    | MissingOrSpent
    | NonFinal
    | TooManyTxSigOps
    | TooManyBlockSigOps
    | PrematureCoinbaseSpend
    | InputValuesOutOfRange
    | InBelowOut
    | FeeOutOfRange
    | BadScripts
    | CoinbasePaysTooMuch

  /** The checks that look inside scripts or at the block index, as functions of a transaction and its input coins. */
  datatype Rules = Rules(
    sequenceLocksMet: (Tx, seq<Coin>) -> bool,
    coinbaseSigOps: Tx -> nat,
    txSigOps: (Tx, seq<Coin>) -> nat,
    maxTxSigOps: nat,
    maxBlockSigOps: nat,
    scriptsOk: (Tx, seq<Coin>) -> bool)

  /** The parameters a block is applied with; outputsFirst is the mode after the magnetic anomaly fork. */
  datatype Mode = Mode(bip30: bool, outputsFirst: bool, checkInputs: bool, subsidy: int, height: nat, spendHeight: nat)

  datatype Applied = Applied(view: View, fees: int, sigOps: nat, undo: seq<seq<Coin>>)

  /* The loops as functions of how far they have come */

  /** Looking up the first j inputs; fails when one is missing or spent. */
  function FetchTo(base: Coins, v: View, ins: seq<OutPoint>, j: nat): Option<View>
    requires j <= |ins|
  {
    if j == 0 then Some(v)
    else
      match FetchTo(base, v, ins, j - 1)
      case None => None
      case Some(w) =>
        var coin := Lookup(base, w, ins[j - 1]);
        if coin.None? || coin.value.IsSpent() then None else Some(Fetched(base, w, ins[j - 1]))
  }

  function SpendTo(v: View, ins: seq<OutPoint>, j: nat): View
    requires j <= |ins|
  {
    if j == 0 then v else Removed(SpendTo(v, ins, j - 1), ins[j - 1])
  }

  /** The coins recorded for undo while the first j inputs are spent. */
  function UndoTo(v: View, ins: seq<OutPoint>, j: nat): (u: seq<Coin>)
    requires j <= |ins|
    ensures |u| == j
  {
    if j == 0 then [] else UndoTo(v, ins, j - 1) + [Access(SpendTo(v, ins, j - 1), ins[j - 1])]
  }

  function AddOutsTo(v: View, tx: Tx, height: nat, k: nat): View
    requires k <= |tx.outs|
  {
    if k == 0 then v
    else Added(AddOutsTo(v, tx, height, k - 1), OutPoint(tx.id, k - 1), Coin(tx.outs[k - 1], height, tx.IsCoinBase()))
  }

  function AddOuts(v: View, tx: Tx, height: nat): View { AddOutsTo(v, tx, height, |tx.outs|) }

  function CoinsOf(v: View, ins: seq<OutPoint>): (coins: seq<Coin>)
    ensures |coins| == |ins|
  {
    seq(|ins|, j requires 0 <= j < |ins| => Access(v, ins[j]))
  }

  function SumValues(coins: seq<Coin>, k: nat): int
    requires k <= |coins|
  {
    if k == 0 then 0 else SumValues(coins, k - 1) + coins[k - 1].out.value
  }

  /** The first complaint of CheckInputsMoney about the first k input coins. */
  function MoneyErrorTo(coins: seq<Coin>, spendHeight: nat, k: nat): Option<BlockError>
    requires k <= |coins|
  {
    if k == 0 then None
    else
      var earlier := MoneyErrorTo(coins, spendHeight, k - 1);
      var coin := coins[k - 1];
      if earlier.Some? then earlier
      else if coin.isCoinBase && spendHeight - coin.height < COINBASE_MATURITY then Some(PrematureCoinbaseSpend)
      else if !MoneyRange(coin.out.value) || !MoneyRange(SumValues(coins, k)) then Some(InputValuesOutOfRange)
      else None
  }

  function MoneyError(tx: Tx, coins: seq<Coin>, spendHeight: nat): Option<BlockError> {
    var e, total := MoneyErrorTo(coins, spendHeight, |coins|), SumValues(coins, |coins|);
    if e.Some? then e
    else if total < tx.ValueOut() then Some(InBelowOut)
    else if !MoneyRange(total - tx.ValueOut()) then Some(FeeOutOfRange)
    else None
  }

  /** The first pass: coinbase outputs, or all outputs in the outputs-first mode. */
  function FirstPassTo(txs: seq<Tx>, m: Mode, rules: Rules, i: nat): Applied
    requires i <= |txs|
  {
    if i == 0 then Applied(map[], 0, 0, [])
    else
      var st, tx := FirstPassTo(txs, m, rules, i - 1), txs[i - 1];
      st.(sigOps := st.sigOps + (if tx.IsCoinBase() then rules.coinbaseSigOps(tx) else 0),
          view := if m.outputsFirst || tx.IsCoinBase() then AddOuts(st.view, tx, m.height) else st.view)
  }

  /** The checks of one transaction against its input coins, in the order they are made. */
  function TxError(tx: Tx, coins: seq<Coin>, sigOps: nat, m: Mode, rules: Rules): Option<BlockError> {
    var sigs := rules.txSigOps(tx, coins);
    if !rules.sequenceLocksMet(tx, coins) then Some(NonFinal)
    else if sigs > rules.maxTxSigOps then Some(TooManyTxSigOps)
    else if sigOps + sigs > rules.maxBlockSigOps then Some(TooManyBlockSigOps)
    else if m.checkInputs && MoneyError(tx, coins, m.spendHeight).Some? then MoneyError(tx, coins, m.spendHeight)
    else if m.checkInputs && !rules.scriptsOk(tx, coins) then Some(BadScripts)
    else None
  }

  function StepTx(base: Coins, st: Applied, tx: Tx, m: Mode, rules: Rules): Result<Applied, BlockError> {
    if tx.IsCoinBase() then Success(st)
    else
      var fetched := FetchTo(base, st.view, tx.ins, |tx.ins|);
      if fetched.None? then Failure(MissingOrSpent)
      else
        var v := fetched.value;
        var coins := CoinsOf(v, tx.ins);
        var e := TxError(tx, coins, st.sigOps, m, rules);
        if e.Some? then Failure(e.value)
        else
          var spent := SpendTo(v, tx.ins, |tx.ins|);
          Success(Applied(if m.outputsFirst then spent else AddOuts(spent, tx, m.height),
                          st.fees + SumValues(coins, |coins|) - tx.ValueOut(),
                          st.sigOps + rules.txSigOps(tx, coins),
                          st.undo + [UndoTo(v, tx.ins, |tx.ins|)]))
  }

  function ProcessTo(base: Coins, txs: seq<Tx>, m: Mode, rules: Rules, i: nat): Result<Applied, BlockError>
    requires i <= |txs|
  {
    if i == 0 then Success(FirstPassTo(txs, m, rules, |txs|))
    else
      match ProcessTo(base, txs, m, rules, i - 1)
      case Failure(e) => Failure(e)
      case Success(st) => StepTx(base, st, txs[i - 1], m, rules)
  }

  /** Output k of tx is in the coin set. */
  predicate Overwrites(base: Coins, tx: Tx, k: nat) {
    OutPoint(tx.id, k) in base
  }

  predicate AnyOverwrite(base: Coins, txs: seq<Tx>) {
    exists i, k :: 0 <= i < |txs| && 0 <= k < |txs[i].outs| && Overwrites(base, txs[i], k)
  }

  function Apply(base: Coins, txs: seq<Tx>, m: Mode, rules: Rules): Result<Applied, BlockError>
    requires txs != []
  {
    if m.bip30 && AnyOverwrite(base, txs) then Failure(Bip30Overwrite)
    else
      match ProcessTo(base, txs, m, rules, |txs|)
      case Failure(e) => Failure(e)
      case Success(st) =>
        if txs[0].ValueOut() > st.fees + m.subsidy then Failure(CoinbasePaysTooMuch) else Success(st)
  }

  /* The loops themselves */

  /** Values CheckBlock has let through: every output and every running total is a legal amount. */
  ghost predicate LegalOutputs(tx: Tx) {
    forall k :: 0 <= k < |tx.outs| ==> MoneyRange(tx.outs[k].value) && MoneyRange(tx.ValueOutTo(k + 1))
  }

  /** No entry is both new and changed, so spending one never trips over its tombstone. */
  ghost predicate Tidy(v: View) {
    forall o :: o in v ==> !(v[o].isFresh && v[o].isDirty)
  }

  method TxSpendCoins(tx: Tx, coinMap: CoinsMap) returns (undo: seq<Coin>)
    requires Tidy(coinMap.cache)
    modifies coinMap
    ensures Tidy(coinMap.cache)
    ensures tx.IsCoinBase() ==> coinMap.cache == old(coinMap.cache) && undo == []
    ensures !tx.IsCoinBase() ==>
              coinMap.cache == SpendTo(old(coinMap.cache), tx.ins, |tx.ins|) &&
              undo == UndoTo(old(coinMap.cache), tx.ins, |tx.ins|)
  {
    undo := [];
    if !tx.IsCoinBase() {
      for idx := 0 to |tx.ins|
        invariant Tidy(coinMap.cache)
        invariant coinMap.cache == SpendTo(old(coinMap.cache), tx.ins, idx)
        invariant undo == UndoTo(old(coinMap.cache), tx.ins, idx)
      {
        var coin := coinMap.AccessCoin(tx.ins[idx]);
        undo := undo + [coin];
        var found := coinMap.SpendCoin(tx.ins[idx]);
      }
    }
  }

  method TxAddCoins(tx: Tx, coinMap: CoinsMap, height: nat)
    requires Tidy(coinMap.cache) && LegalOutputs(tx)
    modifies coinMap
    ensures Tidy(coinMap.cache)
    ensures coinMap.cache == AddOuts(old(coinMap.cache), tx, height)
  {
    for idx := 0 to |tx.outs|
      invariant Tidy(coinMap.cache)
      invariant coinMap.cache == AddOutsTo(old(coinMap.cache), tx, height, idx)
    {
      coinMap.AddCoin(OutPoint(tx.id, idx), Coin(tx.outs[idx], height, tx.IsCoinBase()));
    }
  }

  method CheckInputsMoney(tx: Tx, coins: seq<Coin>, spendHeight: nat) returns (e: Option<BlockError>)
    ensures e == MoneyError(tx, coins, spendHeight)
  {
    var total := 0;
    for k := 0 to |coins|
      invariant total == SumValues(coins, k)
      invariant MoneyErrorTo(coins, spendHeight, k).None?
    {
      var coin := coins[k];
      total := total + coin.out.value;
      if coin.isCoinBase && spendHeight - coin.height < COINBASE_MATURITY {
        MoneyErrorSticks(coins, spendHeight, k + 1, |coins|);
        return Some(PrematureCoinbaseSpend);
      }
      if !MoneyRange(coin.out.value) || !MoneyRange(total) {
        MoneyErrorSticks(coins, spendHeight, k + 1, |coins|);
        return Some(InputValuesOutOfRange);
      }
    }
    if total < tx.ValueOut() {
      return Some(InBelowOut);
    }
    if !MoneyRange(total - tx.ValueOut()) {
      return Some(FeeOutOfRange);
    }
    e := None;
  }

  lemma {:induction false} MoneyErrorSticks(coins: seq<Coin>, spendHeight: nat, k: nat, n: nat)
    requires k <= n <= |coins| && MoneyErrorTo(coins, spendHeight, k).Some?
    ensures MoneyErrorTo(coins, spendHeight, n) == MoneyErrorTo(coins, spendHeight, k)
  {
    if k < n {
      MoneyErrorSticks(coins, spendHeight, k, n - 1);
    }
  }

  lemma {:induction false} FetchFailureSticks(base: Coins, v: View, ins: seq<OutPoint>, j: nat, n: nat)
    requires j <= n <= |ins| && FetchTo(base, v, ins, j).None?
    ensures FetchTo(base, v, ins, n).None?
  {
    if j < n {
      FetchFailureSticks(base, v, ins, j, n - 1);
    }
  }

  lemma {:induction false} ProcessFailureSticks(base: Coins, txs: seq<Tx>, m: Mode, rules: Rules, i: nat, n: nat)
    requires i <= n <= |txs| && ProcessTo(base, txs, m, rules, i).Failure?
    ensures ProcessTo(base, txs, m, rules, n) == ProcessTo(base, txs, m, rules, i)
  {
    if i < n {
      ProcessFailureSticks(base, txs, m, rules, i, n - 1);
    }
  }

  /** Looks up every input of a transaction before anything is spent. */
  method FetchInputs(base: Coins, ins: seq<OutPoint>, coinsMap: CoinsMap) returns (found: bool)
    requires Tidy(coinsMap.cache)
    modifies coinsMap
    ensures found == FetchTo(base, old(coinsMap.cache), ins, |ins|).Some?
    ensures found ==> Tidy(coinsMap.cache) && coinsMap.cache == FetchTo(base, old(coinsMap.cache), ins, |ins|).value
  {
    for j := 0 to |ins|
      invariant Tidy(coinsMap.cache)
      invariant FetchTo(base, old(coinsMap.cache), ins, j) == Some(coinsMap.cache)
    {
      var coin := coinsMap.FetchCoin(base, ins[j]);
      if coin.None? || coin.value.IsSpent() {
        FetchFailureSticks(base, old(coinsMap.cache), ins, j + 1, |ins|);
        return false;
      }
    }
    found := true;
  }

  /** One transaction of the main loop. */
  method ApplyTx(base: Coins, tx: Tx, m: Mode, rules: Rules, coinsMap: CoinsMap, fees: int, sigOps: nat, undo: seq<seq<Coin>>)
    returns (r: Result<Applied, BlockError>)
    requires Tidy(coinsMap.cache) && LegalOutputs(tx)
    modifies coinsMap
    ensures r == StepTx(base, Applied(old(coinsMap.cache), fees, sigOps, undo), tx, m, rules)
    ensures r.Success? ==> Tidy(coinsMap.cache) && coinsMap.cache == r.value.view
  {
    hide Tidy, LegalOutputs, FetchTo, SpendTo, UndoTo, AddOutsTo, SumValues, MoneyError, TxError;
    if tx.IsCoinBase() {
      return Success(Applied(coinsMap.cache, fees, sigOps, undo));
    }
    var found := FetchInputs(base, tx.ins, coinsMap);
    if !found {
      return Failure(MissingOrSpent);
    }
    var coins := CoinsOf(coinsMap.cache, tx.ins);
    var e := CheckTx(tx, coins, sigOps, m, rules);
    if e.Some? {
      return Failure(e.value);
    }
    var txUndo := TxSpendCoins(tx, coinsMap);
    if !m.outputsFirst {
      TxAddCoins(tx, coinsMap, m.height);
    }
    r := Success(Applied(coinsMap.cache, fees + SumValues(coins, |coins|) - tx.ValueOut(),
                         sigOps + rules.txSigOps(tx, coins), undo + [txUndo]));
  }

  method CheckTx(tx: Tx, coins: seq<Coin>, sigOps: nat, m: Mode, rules: Rules) returns (e: Option<BlockError>)
    ensures e == TxError(tx, coins, sigOps, m, rules)
  {
    if !rules.sequenceLocksMet(tx, coins) {
      return Some(NonFinal);
    }
    var sigs := rules.txSigOps(tx, coins);
    if sigs > rules.maxTxSigOps {
      return Some(TooManyTxSigOps);
    }
    if sigOps + sigs > rules.maxBlockSigOps {
      return Some(TooManyBlockSigOps);
    }
    e := None;
    if m.checkInputs {
      e := CheckInputsMoney(tx, coins, m.spendHeight);
      if e.None? && !rules.scriptsOk(tx, coins) {
        e := Some(BadScripts);
      }
    }
  }

  method FirstPass(txs: seq<Tx>, m: Mode, rules: Rules, coinsMap: CoinsMap) returns (sigOps: nat)
    requires coinsMap.cache == map[]
    requires forall i :: 0 <= i < |txs| ==> LegalOutputs(txs[i])
    modifies coinsMap
    ensures Tidy(coinsMap.cache)
    ensures FirstPassTo(txs, m, rules, |txs|) == Applied(coinsMap.cache, 0, sigOps, [])
  {
    sigOps := 0;
    for i := 0 to |txs|
      invariant Tidy(coinsMap.cache)
      invariant FirstPassTo(txs, m, rules, i) == Applied(coinsMap.cache, 0, sigOps, [])
    {
      if txs[i].IsCoinBase() {
        sigOps := sigOps + rules.coinbaseSigOps(txs[i]);
      }
      if m.outputsFirst || txs[i].IsCoinBase() {
        TxAddCoins(txs[i], coinsMap, m.height);
      }
    }
  }

  method CheckBip30(base: Coins, txs: seq<Tx>) returns (overwrite: bool)
    ensures overwrite == AnyOverwrite(base, txs)
  {
    for i := 0 to |txs|
      invariant forall a, b :: 0 <= a < i && 0 <= b < |txs[a].outs| ==> !Overwrites(base, txs[a], b)
    {
      for k := 0 to |txs[i].outs|
        invariant forall b :: 0 <= b < k ==> !Overwrites(base, txs[i], b)
      {
        if OutPoint(txs[i].id, k) in base {
          assert Overwrites(base, txs[i], k);
          return true;
        }
      }
    }
    overwrite := false;
  }

  /** ApplyBlockTransactions: the view of the changed coins, the undo record and the fees, or the first error. */
  method ApplyBlockTransactions(base: Coins, txs: seq<Tx>, m: Mode, rules: Rules) returns (r: Result<Applied, BlockError>)
    requires txs != []
    requires forall i :: 0 <= i < |txs| ==> LegalOutputs(txs[i])
    ensures r == Apply(base, txs, m, rules)
  {
    hide FirstPassTo, StepTx, Tidy, LegalOutputs, AnyOverwrite;
    var coinsMap := new CoinsMap();
    if m.bip30 {
      var overwrite := CheckBip30(base, txs);
      if overwrite {
        return Failure(Bip30Overwrite);
      }
    }
    var fees, undo := 0, [];
    var sigOps := FirstPass(txs, m, rules, coinsMap);
    for i := 0 to |txs|
      invariant Tidy(coinsMap.cache)
      invariant ProcessTo(base, txs, m, rules, i) == Success(Applied(coinsMap.cache, fees, sigOps, undo))
    {
      var step := ApplyTx(base, txs[i], m, rules, coinsMap, fees, sigOps, undo);
      if step.Failure? {
        ProcessFailureSticks(base, txs, m, rules, i + 1, |txs|);
        return Failure(step.error);
      }
      fees, sigOps, undo := step.value.fees, step.value.sigOps, step.value.undo;
    }
    if txs[0].ValueOut() > fees + m.subsidy {
      return Failure(CoinbasePaysTooMuch);
    }
    r := Success(Applied(coinsMap.cache, fees, sigOps, undo));
  }
}
