/** The context-free checks of a block's transactions: CheckBlockTransactions and the checks of model/tx behind it. */
module BlockCheck {
  import opened Wrappers
  import opened Utxo
  import opened BlockApply
  import opened BlockEffect

  datatype CheckError =
    | CoinbaseMissing | CoinbaseLength | UnexpectedCoinbase | EmptyIns | EmptyOuts | Oversize | BadValue
    | TooManyTxSigOps | TooManyBlockSigOps | NullPrevOut | DuplicateInputs

  /** Sizes and signature operation counts, which look inside scripts. */
  datatype Measures = Measures(oversize: Tx -> bool, coinbaseScriptSize: Tx -> nat, txSigOps: Tx -> nat,
                               blockSigOps: Tx -> nat, maxTxSigOps: nat, maxBlockSigOps: nat)

  ghost predicate CommonOk(tx: Tx, m: Measures) {
    tx.ins != [] && tx.outs != [] && !m.oversize(tx) && LegalOutputs(tx) && m.txSigOps(tx) <= m.maxTxSigOps
  }

  ghost predicate CoinbaseOk(tx: Tx, m: Measures) {
    tx.IsCoinBase() && CommonOk(tx, m) && 2 <= m.coinbaseScriptSize(tx) <= 100
  }

  ghost predicate RegularOk(tx: Tx, m: Measures) {
    !tx.IsCoinBase() && CommonOk(tx, m) && NULL_OUTPOINT !in tx.ins
  }

  function SigOpsTo(txs: seq<Tx>, m: Measures, i: nat): nat
    requires i <= |txs|
  {
    if i == 0 then 0 else SigOpsTo(txs, m, i - 1) + m.blockSigOps(txs[i - 1])
  }

  /** Transactions 1 .. i-1 are well formed on their own and spend nothing twice. */
  ghost predicate RegularsOk(txs: seq<Tx>, m: Measures, i: nat)
    requires i <= |txs|
  {
    forall j :: 1 <= j < i ==> RegularOk(txs[j], m) && FreshInputs(txs[j].ins, InputSet(txs, j))
  }

  /** What CheckBlockTransactions lets through; the block's signature operations only count once there is a second transaction. */
  ghost predicate Acceptable(txs: seq<Tx>, m: Measures) {
    txs != [] && CoinbaseOk(txs[0], m) && RegularsOk(txs, m, |txs|) &&
    (|txs| > 1 ==> SigOpsTo(txs, m, |txs|) <= m.maxBlockSigOps)
  }

  lemma {:induction false} SigOpsGrow(txs: seq<Tx>, m: Measures, i: nat, n: nat)
    requires i <= n <= |txs|
    ensures SigOpsTo(txs, m, i) <= SigOpsTo(txs, m, n)
  {
    if i < n {
      SigOpsGrow(txs, m, i, n - 1);
    }
  }

  ghost predicate LegalAt(tx: Tx, q: nat) {
    q < |tx.outs| && MoneyRange(tx.outs[q].value) && MoneyRange(tx.ValueOutTo(q + 1))
  }

  lemma {:induction false} AllLegal(tx: Tx)
    requires forall q :: 0 <= q < |tx.outs| ==> LegalAt(tx, q)
    ensures LegalOutputs(tx)
  {
    forall q | 0 <= q < |tx.outs|
      ensures MoneyRange(tx.outs[q].value) && MoneyRange(tx.ValueOutTo(q + 1))
    {
      assert LegalAt(tx, q);
    }
  }

  method CheckTransactionCommon(tx: Tx, m: Measures) returns (e: Option<CheckError>)
    ensures e.None? <==> CommonOk(tx, m)
  {
    if |tx.ins| == 0 {
      return Some(EmptyIns);
    }
    if |tx.outs| == 0 {
      return Some(EmptyOuts);
    }
    if m.oversize(tx) {
      return Some(Oversize);
    }
    var totalOut := 0;
    for k := 0 to |tx.outs|
      invariant totalOut == tx.ValueOutTo(k)
      invariant forall q :: 0 <= q < k ==> LegalAt(tx, q)
    {
      if !MoneyRange(tx.outs[k].value) {
        return Some(BadValue);
      }
      totalOut := totalOut + tx.outs[k].value;
      assert totalOut == tx.ValueOutTo(k + 1);
      if !MoneyRange(totalOut) {
        return Some(BadValue);
      }
    }
    AllLegal(tx);
    e := if m.txSigOps(tx) > m.maxTxSigOps then Some(CheckError.TooManyTxSigOps) else None;
  }

  method CheckCoinbaseTransaction(tx: Tx, m: Measures) returns (e: Option<CheckError>)
    ensures e.None? <==> CoinbaseOk(tx, m)
  {
    if !tx.IsCoinBase() {
      return Some(CoinbaseMissing);
    }
    e := CheckTransactionCommon(tx, m);
    if e.Some? {
      return;
    }
    if m.coinbaseScriptSize(tx) < 2 || m.coinbaseScriptSize(tx) > 100 {
      return Some(CoinbaseLength);
    }
  }

  /** The outpoints seen so far grow by this transaction's inputs. */
  method CheckRegularTransactionWhenNewBlock(tx: Tx, m: Measures, seen: set<OutPoint>)
    returns (e: Option<CheckError>, now: set<OutPoint>)
    ensures e.None? <==> RegularOk(tx, m) && FreshInputs(tx.ins, seen)
    ensures e.None? ==> now == seen + InputsOf(tx)
  {
    now := seen;
    if tx.IsCoinBase() {
      return Some(UnexpectedCoinbase), now;
    }
    e := CheckTransactionCommon(tx, m);
    if e.Some? {
      return;
    }
    hide CommonOk;
    for k := 0 to |tx.ins|
      invariant now == seen + set o | o in tx.ins[..k]
      invariant NULL_OUTPOINT !in tx.ins[..k]
      invariant forall q :: 0 <= q < k ==> tx.ins[q] !in seen
      invariant forall q, r :: 0 <= q < r < k ==> tx.ins[q] != tx.ins[r]
    {
      if tx.ins[k] == NULL_OUTPOINT {
        return Some(NullPrevOut), now;
      }
      if tx.ins[k] in now {
        return Some(DuplicateInputs), now;
      }
      now := now + {tx.ins[k]};
    }
    assert tx.ins[..|tx.ins|] == tx.ins;
  }

  method CheckBlockTransactions(txs: seq<Tx>, m: Measures) returns (e: Option<CheckError>)
    ensures e.None? <==> Acceptable(txs, m)
  {
    hide CoinbaseOk, RegularOk, FreshInputs;
    if |txs| == 0 {
      return Some(CoinbaseMissing);
    }
    e := CheckCoinbaseTransaction(txs[0], m);
    if e.Some? {
      return;
    }
    CoinbaseSpendsNothing(txs, m);
    var sigOps := m.blockSigOps(txs[0]);
    var outPoints: set<OutPoint> := {};
    for i := 1 to |txs|
      invariant outPoints == InputSet(txs, i) && sigOps == SigOpsTo(txs, m, i)
      invariant RegularsOk(txs, m, i) && e.None? && (i > 1 ==> sigOps <= m.maxBlockSigOps)
    {
      sigOps := sigOps + m.blockSigOps(txs[i]);
      if sigOps > m.maxBlockSigOps {
        SigOpsGrow(txs, m, i + 1, |txs|);
        return Some(CheckError.TooManyBlockSigOps);
      }
      e, outPoints := CheckRegularTransactionWhenNewBlock(txs[i], m, outPoints);
      if e.Some? {
        return;
      }
    }
  }

  lemma {:induction false} CoinbaseSpendsNothing(txs: seq<Tx>, m: Measures)
    requires txs != [] && CoinbaseOk(txs[0], m)
    ensures InputSet(txs, 1) == {} && SigOpsTo(txs, m, 1) == m.blockSigOps(txs[0])
  {
    assert InputSet(txs, 0) == {} && SigOpsTo(txs, m, 0) == 0;
  }

  lemma {:induction false} AcceptableIsLegal(txs: seq<Tx>, m: Measures)
    requires Acceptable(txs, m)
    ensures txs != [] && forall i :: 0 <= i < |txs| ==> LegalOutputs(txs[i])
  {
    hide LegalOutputs, FreshInputs;
    forall i | 1 <= i < |txs|
      ensures LegalOutputs(txs[i])
    {
      assert RegularOk(txs[i], m);
    }
  }

  /** Identifiers are collision free within the block. */
  ghost predicate IdsIdentify(txs: seq<Tx>) {
    forall i, j :: 0 <= i < |txs| && 0 <= j < |txs| && txs[i].id == txs[j].id ==> txs[i] == txs[j]
  }

  lemma {:induction false} AcceptedInputsDistinct(txs: seq<Tx>, m: Measures)
    requires Acceptable(txs, m)
    ensures DistinctInputs(txs)
  {
    forall i, a, j, b |
      (1 <= i < |txs| && 1 <= j < |txs| && 0 <= a < |txs[i].ins| && 0 <= b < |txs[j].ins| && txs[i].ins[a] == txs[j].ins[b])
      ensures i == j && a == b
    {
      assert FreshInputs(txs[i].ins, InputSet(txs, i)) && FreshInputs(txs[j].ins, InputSet(txs, j));
      assert RegularOk(txs[i], m) && RegularOk(txs[j], m);
      if i < j {
        InputSetMeaning(txs, j, txs[j].ins[b]);
      } else if j < i {
        InputSetMeaning(txs, i, txs[i].ins[a]);
      }
    }
  }

  lemma {:induction false} AcceptedIdsDistinct(txs: seq<Tx>, m: Measures)
    requires Acceptable(txs, m) && IdsIdentify(txs) && DistinctInputs(txs)
    ensures DistinctIds(txs)
  {
    hide LegalOutputs, FreshInputs;
    forall i, j | 0 <= i < j < |txs|
      ensures txs[i].id != txs[j].id
    {
      assert RegularOk(txs[j], m) && (i >= 1 ==> RegularOk(txs[i], m));
      assert i >= 1 ==> txs[i].ins[0] != txs[j].ins[0];
    }
  }

  /** What applying and undoing a block needs is what the check gives. */
  lemma {:induction false} AcceptableIsWellFormed(txs: seq<Tx>, m: Measures)
    requires Acceptable(txs, m) && IdsIdentify(txs)
    ensures WellFormed(txs)
  {
    hide LegalOutputs, FreshInputs, IdsIdentify, DistinctIds, DistinctInputs;
    AcceptedInputsDistinct(txs, m);
    AcceptedIdsDistinct(txs, m);
    forall i | 1 <= i < |txs|
      ensures LegalOutputs(txs[i]) && !txs[i].IsCoinBase()
    {
      assert RegularOk(txs[i], m);
    }
  }
}
