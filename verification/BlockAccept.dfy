/**
 Which blocks are accepted: ApplyBlockTransactions succeeds exactly when the rules hold of every transaction and the
 coins its inputs name, whatever the cache looks like on the way and even where an output overwrites an old coin.
 */
module BlockAccept {
  import opened Wrappers
  import opened Utxo
  import opened BlockApply
  import opened BlockEffect

  /* The rules */

  /** The coins the inputs of transaction i can name: the old ones, and of the block's own those created by then. */
  ghost function Offered(base: Coins, txs: seq<Tx>, m: Mode, i: nat): Coins
    requires i < |txs|
  {
    base + if m.outputsFirst then BlockOuts(txs, m.height) else OutMap(txs, m.height, i)
  }

  ghost predicate InputsExist(base: Coins, txs: seq<Tx>, m: Mode, i: nat)
    requires i < |txs|
  {
    forall q :: 0 <= q < |txs[i].ins| ==> txs[i].ins[q] in Offered(base, txs, m, i)
  }

  /** The coins transaction i spends. */
  ghost function Named(base: Coins, txs: seq<Tx>, m: Mode, i: nat): (coins: seq<Coin>)
    requires i < |txs|
    ensures |coins| == |txs[i].ins|
  {
    CoinsAt(Offered(base, txs, m, i), txs[i].ins)
  }

  ghost predicate Mature(coin: Coin, height: nat) {
    coin.isCoinBase ==> height - coin.height >= 100
  }

  /** The money rules: no coinbase coin before its time, legal amounts, and nothing paid that was not put in. */
  ghost predicate MoneyOk(tx: Tx, coins: seq<Coin>, height: nat) {
    (forall q :: 0 <= q < |coins| ==> Mature(coins[q], height) && MoneyRange(coins[q].out.value)) &&
    SumValues(coins, |coins|) <= MAX_MONEY && tx.ValueOut() <= SumValues(coins, |coins|)
  }

  /** The signature operations of the coinbase and of transactions 1 .. i. */
  ghost function BlockSigOps(base: Coins, txs: seq<Tx>, m: Mode, rules: Rules, i: nat): nat
    requires i < |txs|
  {
    if i == 0 then rules.coinbaseSigOps(txs[0])
    else BlockSigOps(base, txs, m, rules, i - 1) + rules.txSigOps(txs[i], Named(base, txs, m, i))
  }

  /** What transactions 1 .. i-1 put in beyond what they pay out. */
  ghost function BlockFees(base: Coins, txs: seq<Tx>, m: Mode, i: nat): int
    requires 1 <= i <= |txs|
  {
    if i == 1 then 0
    else
      var coins := Named(base, txs, m, i - 1);
      BlockFees(base, txs, m, i - 1) + SumValues(coins, |coins|) - txs[i - 1].ValueOut()
  }

  ghost predicate TxOk(base: Coins, txs: seq<Tx>, m: Mode, rules: Rules, i: nat)
    requires i < |txs|
  {
    var tx, coins := txs[i], Named(base, txs, m, i);
    InputsExist(base, txs, m, i) && rules.sequenceLocksMet(tx, coins) && rules.txSigOps(tx, coins) <= rules.maxTxSigOps &&
    BlockSigOps(base, txs, m, rules, i) <= rules.maxBlockSigOps &&
    (m.checkInputs ==> MoneyOk(tx, coins, m.spendHeight) && rules.scriptsOk(tx, coins))
  }

  /** No output of the block is there already. */
  ghost predicate NothingOverwritten(base: Coins, txs: seq<Tx>) {
    forall i, k :: 0 <= i < |txs| && 0 <= k < |txs[i].outs| ==> OutPoint(txs[i].id, k) !in base
  }

  ghost predicate BlockOk(base: Coins, txs: seq<Tx>, m: Mode, rules: Rules)
    requires txs != []
  {
    (m.bip30 ==> NothingOverwritten(base, txs)) && (forall i :: 1 <= i < |txs| ==> TxOk(base, txs, m, rules, i)) &&
    txs[0].ValueOut() <= BlockFees(base, txs, m, |txs|) + m.subsidy
  }

  ghost predicate NoneSpent(c: Coins) { forall o :: o in c ==> !c[o].IsSpent() }

  /* Money */

  /** The amount of coin q and the total up to it are legal. */
  ghost predicate LegalAmounts(coins: seq<Coin>, q: nat)
    requires q < |coins|
  {
    MoneyRange(coins[q].out.value) && MoneyRange(SumValues(coins, q + 1))
  }

  ghost predicate CoinPasses(coins: seq<Coin>, height: nat, q: nat)
    requires q < |coins|
  {
    Mature(coins[q], height) && LegalAmounts(coins, q)
  }

  /** Coin q is the first that does not pass. */
  ghost predicate FirstBad(coins: seq<Coin>, height: nat, q: nat)
    requires q < |coins|
  {
    CoinsPass(coins, height, q) && !CoinPasses(coins, height, q)
  }

  ghost predicate CoinsPass(coins: seq<Coin>, height: nat, k: nat)
    requires k <= |coins|
  {
    forall q {:trigger CoinPasses(coins, height, q)} :: 0 <= q < k ==> CoinPasses(coins, height, q)
  }

  /** The complaint is about the first coin that does not pass: that it is immature, or else its amounts. */
  lemma {:induction false} MoneyErrorToMeaning(coins: seq<Coin>, height: nat, k: nat)
    requires k <= |coins|
    ensures match MoneyErrorTo(coins, height, k)
            case None => CoinsPass(coins, height, k)
            case Some(e) =>
              exists q {:trigger FirstBad(coins, height, q)} :: 0 <= q < k && FirstBad(coins, height, q) &&
                e == if Mature(coins[q], height) then InputValuesOutOfRange else PrematureCoinbaseSpend
  {
    if k > 0 {
      MoneyErrorToMeaning(coins, height, k - 1);
      if MoneyErrorTo(coins, height, k - 1).None? {
        assert k - 1 + 1 == k;
        assert CoinPasses(coins, height, k - 1) || FirstBad(coins, height, k - 1);
      }
    }
  }

  /** Legal amounts have legal totals on the way when the last one is. */
  lemma {:induction false} TotalsGrow(coins: seq<Coin>, q: nat, k: nat)
    requires q <= k <= |coins| && forall j :: 0 <= j < |coins| ==> coins[j].out.value >= 0
    ensures 0 <= SumValues(coins, q) <= SumValues(coins, k)
  {
    if q < k {
      TotalsGrow(coins, q, k - 1);
    } else if q > 0 {
      TotalsGrow(coins, q - 1, q - 1);
    }
  }

  lemma {:induction false} LegalValueOut(tx: Tx, k: nat)
    requires LegalOutputs(tx) && k <= |tx.outs|
    ensures 0 <= tx.ValueOutTo(k) <= MAX_MONEY
  {
    if k > 0 {
      assert MoneyRange(tx.outs[k - 1].value) && MoneyRange(tx.ValueOutTo(k));
    }
  }

  lemma {:induction false} MoneyOkIffPasses(tx: Tx, coins: seq<Coin>, height: nat)
    ensures MoneyOk(tx, coins, height) <==> CoinsPass(coins, height, |coins|) && tx.ValueOut() <= SumValues(coins, |coins|)
    ensures CoinsPass(coins, height, |coins|) ==> 0 <= SumValues(coins, |coins|) <= MAX_MONEY
  {
    if MoneyOk(tx, coins, height) {
      forall q | 0 <= q < |coins|
        ensures CoinPasses(coins, height, q)
      {
        TotalsGrow(coins, q + 1, |coins|);
      }
    }
    if CoinsPass(coins, height, |coins|) {
      forall q | 0 <= q < |coins|
        ensures Mature(coins[q], height) && MoneyRange(coins[q].out.value)
      {
        assert CoinPasses(coins, height, q);
      }
      TotalsGrow(coins, 0, |coins|);
      if |coins| > 0 {
        assert CoinPasses(coins, height, |coins| - 1);
      }
    }
  }

  /**
   CheckInputsMoney complains about nothing exactly when the money rules hold, and says why otherwise. For a transaction
   that passed CheckBlock the fee is never out of range.
   */
  lemma {:induction false} MoneyErrorMeaning(tx: Tx, coins: seq<Coin>, height: nat)
    requires LegalOutputs(tx)
    ensures MoneyError(tx, coins, height).None? <==> MoneyOk(tx, coins, height)
    ensures match MoneyError(tx, coins, height)
            case None => true
            case Some(InBelowOut) => CoinsPass(coins, height, |coins|) && SumValues(coins, |coins|) < tx.ValueOut()
            case Some(e) =>
              exists q {:trigger FirstBad(coins, height, q)} :: 0 <= q < |coins| && FirstBad(coins, height, q) &&
                e == if Mature(coins[q], height) then InputValuesOutOfRange else PrematureCoinbaseSpend
  {
    hide MoneyErrorTo, SumValues, CoinsPass, FirstBad, MoneyOk;
    MoneyErrorToMeaning(coins, height, |coins|);
    LegalValueOut(tx, |tx.outs|);
    MoneyOkIffPasses(tx, coins, height);
    if MoneyErrorTo(coins, height, |coins|).Some? {
      var e := MoneyErrorTo(coins, height, |coins|).value;
      var q :| 0 <= q < |coins| && FirstBad(coins, height, q) &&
               e == if Mature(coins[q], height) then InputValuesOutOfRange else PrematureCoinbaseSpend;
      FirstBadFails(coins, height, q);
    }
  }

  lemma {:induction false} FirstBadFails(coins: seq<Coin>, height: nat, q: nat)
    requires q < |coins| && FirstBad(coins, height, q)
    ensures !CoinsPass(coins, height, |coins|)
  {
  }

  /* What the cache shows */

  function Find(c: Coins, o: OutPoint): Option<Coin> { if o in c then Some(c[o]) else None }

  /** Of what is not yet spent, the view over the old coins shows the coins of c. */
  ghost predicate Shows(base: Coins, v: View, c: Coins, spent: set<OutPoint>) {
    forall o :: o !in spent ==> Lookup(base, v, o) == Find(c, o)
  }

  lemma {:induction false} FetchShows(base: Coins, v: View, c: Coins, spent: set<OutPoint>, ins: seq<OutPoint>, j: nat)
    requires j <= |ins| && Shows(base, v, c, spent) && NoneSpent(c) && forall q :: 0 <= q < |ins| ==> ins[q] !in spent
    ensures FetchTo(base, v, ins, j).Some? <==> forall q :: 0 <= q < j ==> ins[q] in c
    ensures FetchTo(base, v, ins, j).Some? ==>
              var w := FetchTo(base, v, ins, j).value; Shows(base, w, c, spent) && forall q :: 0 <= q < j ==> ins[q] in w
  {
    if j > 0 {
      FetchShows(base, v, c, spent, ins, j - 1);
      if FetchTo(base, v, ins, j - 1).Some? {
        var w := FetchTo(base, v, ins, j - 1).value;
        assert Lookup(base, w, ins[j - 1]) == Find(c, ins[j - 1]);
      }
    }
  }

  lemma {:induction false} CoinsShown(base: Coins, v: View, c: Coins, spent: set<OutPoint>, ins: seq<OutPoint>)
    requires Shows(base, v, c, spent) && forall q :: 0 <= q < |ins| ==> ins[q] !in spent && ins[q] in v
    ensures CoinsOf(v, ins) == CoinsAt(c, ins)
  {
    forall q | 0 <= q < |ins|
      ensures ins[q] in c && Access(v, ins[q]) == c[ins[q]]
    {
      assert Lookup(base, v, ins[q]) == Find(c, ins[q]);
    }
  }

  lemma {:induction false} SpendShows(base: Coins, v: View, c: Coins, spent: set<OutPoint>, ins: seq<OutPoint>, j: nat)
    requires j <= |ins| && Shows(base, v, c, spent)
    ensures Shows(base, SpendTo(v, ins, j), c, spent + SetTo(ins, j))
  {
    if j > 0 {
      SpendShows(base, v, c, spent, ins, j - 1);
    }
  }

  lemma {:induction false} AddShows(base: Coins, v: View, c: Coins, spent: set<OutPoint>, tx: Tx, height: nat, k: nat)
    requires k <= |tx.outs| && Shows(base, v, c, spent)
    ensures Shows(base, AddOutsTo(v, tx, height, k), c + TxOutMapTo(tx, height, k), spent)
  {
    if k == 0 {
      assert c + map[] == c;
    } else {
      AddShows(base, v, c, spent, tx, height, k - 1);
      var before, out := c + TxOutMapTo(tx, height, k - 1), tx.outs[k - 1];
      if out.IsSpendable() {
        var o, coin := OutPoint(tx.id, k - 1), Coin(out, height, tx.IsCoinBase());
        assert c + TxOutMapTo(tx, height, k) == before[o := coin];
      }
    }
  }

  /* The first pass */

  lemma {:induction false} FirstPassShows(base: Coins, txs: seq<Tx>, m: Mode, rules: Rules, i: nat)
    requires i <= |txs| && WellFormed(txs)
    ensures var st := FirstPassTo(txs, m, rules, i);
            Shows(base, st.view, base + OutMap(txs, m.height, if m.outputsFirst || i == 0 then i else 1), {}) &&
            st.fees == 0 && st.sigOps == if i == 0 then 0 else rules.coinbaseSigOps(txs[0])
  {
    if i == 0 {
      assert base + map[] == base;
    } else {
      FirstPassShows(base, txs, m, rules, i - 1);
      var st, tx := FirstPassTo(txs, m, rules, i - 1), txs[i - 1];
      if m.outputsFirst || i == 1 {
        var before := OutMap(txs, m.height, i - 1);
        AddShows(base, st.view, base + before, {}, tx, m.height, |tx.outs|);
        var more := TxOutMapTo(tx, m.height, |tx.outs|);
        assert base + before + more == base + (before + more);
      }
    }
  }

  /* One transaction */

  /** The state before transaction i, as far as later transactions can see. */
  ghost predicate ReadyFor(base: Coins, txs: seq<Tx>, m: Mode, rules: Rules, i: nat, st: Applied)
    requires 1 <= i <= |txs|
  {
    Shows(base, st.view, base + (if m.outputsFirst then BlockOuts(txs, m.height) else OutMap(txs, m.height, i)),
          InputSet(txs, i)) &&
    st.sigOps == BlockSigOps(base, txs, m, rules, i - 1) && st.fees == BlockFees(base, txs, m, i)
  }

  lemma {:induction false} OfferedUnspent(base: Coins, txs: seq<Tx>, height: nat, i: nat)
    requires NoneSpent(base) && WellFormed(txs) && i <= |txs|
    ensures NoneSpent(base + OutMap(txs, height, i))
  {
    forall o | o in OutMap(txs, height, i)
      ensures !OutMap(txs, height, i)[o].IsSpent()
    {
      OutMapKeys(txs, height, i, o);
      var t :| t < i && IsOutput(txs, t, o);
      assert LegalOutputs(txs[t]) && MoneyRange(txs[t].outs[o.index].value);
    }
  }

  /** Transaction i is refused for its inputs exactly when one of them names no coin. */
  lemma {:induction false} FetchIffNamed(base: Coins, txs: seq<Tx>, m: Mode, rules: Rules, i: nat, st: Applied)
    requires WellFormed(txs) && NoneSpent(base) && 1 <= i < |txs| && ReadyFor(base, txs, m, rules, i, st)
    ensures var f := FetchTo(base, st.view, txs[i].ins, |txs[i].ins|);
            (f.Some? <==> InputsExist(base, txs, m, i)) &&
            (f.Some? ==> CoinsOf(f.value, txs[i].ins) == Named(base, txs, m, i) &&
                         Shows(base, f.value, Offered(base, txs, m, i), InputSet(txs, i)))
  {
    var ins, c := txs[i].ins, Offered(base, txs, m, i);
    InputsAreFresh(txs, i);
    OfferedUnspent(base, txs, m.height, if m.outputsFirst then |txs| else i);
    hide FetchTo, Shows, OutMap, InputSet, BlockSigOps, BlockFees, WellFormed, CoinsOf;
    FetchShows(base, st.view, c, InputSet(txs, i), ins, |ins|);
    var f := FetchTo(base, st.view, ins, |ins|);
    if f.Some? {
      CoinsShown(base, f.value, c, InputSet(txs, i), ins);
    }
  }

  /** The checks of one transaction pass exactly when the rules hold. */
  lemma {:induction false} TxErrorIff(tx: Tx, coins: seq<Coin>, sigOps: nat, m: Mode, rules: Rules)
    requires LegalOutputs(tx)
    ensures TxError(tx, coins, sigOps, m, rules).None? <==>
            rules.sequenceLocksMet(tx, coins) && rules.txSigOps(tx, coins) <= rules.maxTxSigOps &&
            sigOps + rules.txSigOps(tx, coins) <= rules.maxBlockSigOps &&
            (m.checkInputs ==> MoneyOk(tx, coins, m.spendHeight) && rules.scriptsOk(tx, coins))
  {
    hide MoneyError, MoneyOk;
    MoneyErrorMeaning(tx, coins, m.spendHeight);
  }

  lemma {:induction false} StepIff(base: Coins, txs: seq<Tx>, m: Mode, rules: Rules, i: nat, st: Applied)
    requires WellFormed(txs) && NoneSpent(base) && 1 <= i < |txs| && ReadyFor(base, txs, m, rules, i, st)
    ensures StepTx(base, st, txs[i], m, rules).Success? <==> TxOk(base, txs, m, rules, i)
  {
    hide FetchTo, Shows, OutMap, InputSet, BlockFees, WellFormed, CoinsOf, InputsExist, MoneyOk, TxError;
    RegularTx(txs, i);
    FetchIffNamed(base, txs, m, rules, i, st);
    TxErrorIff(txs[i], Named(base, txs, m, i), st.sigOps, m, rules);
  }

  lemma {:induction false} StepReady(base: Coins, txs: seq<Tx>, m: Mode, rules: Rules, i: nat, st: Applied)
    requires WellFormed(txs) && NoneSpent(base) && 1 <= i < |txs| && ReadyFor(base, txs, m, rules, i, st)
    requires StepTx(base, st, txs[i], m, rules).Success?
    ensures ReadyFor(base, txs, m, rules, i + 1, StepTx(base, st, txs[i], m, rules).value)
  {
    hide FetchTo, Shows, SpendTo, AddOutsTo, WellFormed, CoinsOf, TxError, SumValues, SetTo, TxOutMapTo, NoneSpent, InputsExist;
    RegularTx(txs, i);
    FetchIffNamed(base, txs, m, rules, i, st);
    var tx, c, spent := txs[i], Offered(base, txs, m, i), InputSet(txs, i);
    var f := FetchTo(base, st.view, tx.ins, |tx.ins|).value;
    SpendShows(base, f, c, spent, tx.ins, |tx.ins|);
    SetToAll(tx.ins);
    assert InputSet(txs, i + 1) == spent + SetTo(tx.ins, |tx.ins|);
    var v := SpendTo(f, tx.ins, |tx.ins|);
    if !m.outputsFirst {
      AddShows(base, v, c, InputSet(txs, i + 1), tx, m.height, |tx.outs|);
      var before, more := OutMap(txs, m.height, i), TxOutMapTo(tx, m.height, |tx.outs|);
      assert base + before + more == base + (before + more);
    }
  }

  /* The whole block */

  lemma {:induction false} ReadyAtStart(base: Coins, txs: seq<Tx>, m: Mode, rules: Rules)
    requires WellFormed(txs)
    ensures ProcessTo(base, txs, m, rules, 1).Success?
    ensures ReadyFor(base, txs, m, rules, 1, ProcessTo(base, txs, m, rules, 1).value)
  {
    FirstPassShows(base, txs, m, rules, |txs|);
    assert ProcessTo(base, txs, m, rules, 0) == Success(FirstPassTo(txs, m, rules, |txs|));
    assert InputSet(txs, 1) == InputSet(txs, 0) == {};
  }

  lemma {:induction false} ProcessIff(base: Coins, txs: seq<Tx>, m: Mode, rules: Rules, n: nat)
    requires WellFormed(txs) && NoneSpent(base) && 1 <= n <= |txs|
    ensures ProcessTo(base, txs, m, rules, n).Success? <==> forall i :: 1 <= i < n ==> TxOk(base, txs, m, rules, i)
    ensures ProcessTo(base, txs, m, rules, n).Success? ==>
              ReadyFor(base, txs, m, rules, n, ProcessTo(base, txs, m, rules, n).value)
  {
    hide StepTx, FirstPassTo, WellFormed, TxOk, ReadyFor, NoneSpent;
    if n == 1 {
      ReadyAtStart(base, txs, m, rules);
    } else {
      ProcessIff(base, txs, m, rules, n - 1);
      var r := ProcessTo(base, txs, m, rules, n - 1);
      if r.Success? {
        StepIff(base, txs, m, rules, n - 1, r.value);
        if StepTx(base, r.value, txs[n - 1], m, rules).Success? {
          StepReady(base, txs, m, rules, n - 1, r.value);
        }
      }
    }
  }

  lemma {:induction false} OverwriteMeaning(base: Coins, txs: seq<Tx>)
    ensures AnyOverwrite(base, txs) <==> !NothingOverwritten(base, txs)
  {
    if !NothingOverwritten(base, txs) {
      var i, k :| 0 <= i < |txs| && 0 <= k < |txs[i].outs| && OutPoint(txs[i].id, k) in base;
      assert Overwrites(base, txs[i], k);
    }
  }

  /** A block that passed CheckBlock is applied if and only if the rules hold. */
  lemma {:induction false} AppliedIff(base: Coins, txs: seq<Tx>, m: Mode, rules: Rules)
    requires WellFormed(txs) && NoneSpent(base)
    ensures Apply(base, txs, m, rules).Success? <==> BlockOk(base, txs, m, rules)
  {
    assert txs != [];
    hide ProcessTo, WellFormed, TxOk, NoneSpent, AnyOverwrite, NothingOverwritten;
    OverwriteMeaning(base, txs);
    ProcessIff(base, txs, m, rules, |txs|);
  }

  /** The error names a rule that is broken. */
  ghost predicate Justified(base: Coins, txs: seq<Tx>, m: Mode, rules: Rules, e: BlockError)
    requires txs != []
  {
    match e
    case Bip30Overwrite => m.bip30 && !NothingOverwritten(base, txs)
    case CoinbasePaysTooMuch => txs[0].ValueOut() > BlockFees(base, txs, m, |txs|) + m.subsidy
    case _ => exists i :: 1 <= i < |txs| && JustifiedAt(base, txs, m, rules, i, e)
  }

  ghost predicate JustifiedAt(base: Coins, txs: seq<Tx>, m: Mode, rules: Rules, i: nat, e: BlockError)
    requires i < |txs|
  {
    if e == MissingOrSpent then !InputsExist(base, txs, m, i)
    else Names(txs[i], Named(base, txs, m, i), BlockSigOps(base, txs, m, rules, i), m, rules, e)
  }

  /** The rule that the error is about does not hold of the transaction and its coins; sigOps counts it in. */
  ghost predicate Names(tx: Tx, coins: seq<Coin>, sigOps: nat, m: Mode, rules: Rules, e: BlockError) {
    match e
    case NonFinal => !rules.sequenceLocksMet(tx, coins)
    case TooManyTxSigOps => rules.txSigOps(tx, coins) > rules.maxTxSigOps
    case TooManyBlockSigOps => sigOps > rules.maxBlockSigOps
    case BadScripts => m.checkInputs && !rules.scriptsOk(tx, coins)
    case PrematureCoinbaseSpend => m.checkInputs && exists q :: 0 <= q < |coins| && !Mature(coins[q], m.spendHeight)
    case InBelowOut => m.checkInputs && SumValues(coins, |coins|) < tx.ValueOut()
    case InputValuesOutOfRange => m.checkInputs && exists q :: 0 <= q < |coins| && !LegalAmounts(coins, q)
    case _ => false
  }

  lemma {:induction false} MoneyErrorNames(tx: Tx, coins: seq<Coin>, sigOps: nat, m: Mode, rules: Rules)
    requires LegalOutputs(tx) && m.checkInputs && MoneyError(tx, coins, m.spendHeight).Some?
    ensures Names(tx, coins, sigOps, m, rules, MoneyError(tx, coins, m.spendHeight).value)
  {
    hide MoneyError, SumValues, Mature, LegalAmounts;
    MoneyErrorMeaning(tx, coins, m.spendHeight);
    var e := MoneyError(tx, coins, m.spendHeight).value;
    if e != InBelowOut {
      var q :| 0 <= q < |coins| && FirstBad(coins, m.spendHeight, q) &&
               e == if Mature(coins[q], m.spendHeight) then InputValuesOutOfRange else PrematureCoinbaseSpend;
      assert Mature(coins[q], m.spendHeight) ==> !LegalAmounts(coins, q);
    }
  }

  lemma {:induction false} TxErrorNames(tx: Tx, coins: seq<Coin>, sigOps: nat, m: Mode, rules: Rules)
    requires LegalOutputs(tx) && TxError(tx, coins, sigOps, m, rules).Some?
    ensures Names(tx, coins, sigOps + rules.txSigOps(tx, coins), m, rules, TxError(tx, coins, sigOps, m, rules).value)
  {
    if m.checkInputs && MoneyError(tx, coins, m.spendHeight).Some? {
      MoneyErrorNames(tx, coins, sigOps + rules.txSigOps(tx, coins), m, rules);
    }
    hide MoneyError;
  }

  lemma {:induction false} StepErrorNames(base: Coins, txs: seq<Tx>, m: Mode, rules: Rules, i: nat, st: Applied)
    requires WellFormed(txs) && NoneSpent(base) && 1 <= i < |txs| && ReadyFor(base, txs, m, rules, i, st)
    requires StepTx(base, st, txs[i], m, rules).Failure?
    ensures JustifiedAt(base, txs, m, rules, i, StepTx(base, st, txs[i], m, rules).error)
  {
    hide FetchTo, Shows, OutMap, InputSet, BlockFees, WellFormed, CoinsOf, InputsExist, TxError, Names, CoinsAt;
    RegularTx(txs, i);
    FetchIffNamed(base, txs, m, rules, i, st);
    if InputsExist(base, txs, m, i) {
      TxErrorNames(txs[i], Named(base, txs, m, i), st.sigOps, m, rules);
      NamesOther(txs[i], Named(base, txs, m, i), BlockSigOps(base, txs, m, rules, i), m, rules);
    }
  }

  lemma {:induction false} NamesOther(tx: Tx, coins: seq<Coin>, sigOps: nat, m: Mode, rules: Rules)
    ensures !Names(tx, coins, sigOps, m, rules, MissingOrSpent)
  {
  }

  lemma {:induction false} RegularTx(txs: seq<Tx>, i: nat)
    requires WellFormed(txs) && 1 <= i < |txs|
    ensures !txs[i].IsCoinBase() && LegalOutputs(txs[i])
  {
  }

  lemma {:induction false} ProcessErrorNames(base: Coins, txs: seq<Tx>, m: Mode, rules: Rules, n: nat)
    requires WellFormed(txs) && NoneSpent(base) && 1 <= n <= |txs| && ProcessTo(base, txs, m, rules, n).Failure?
    ensures exists i :: 1 <= i < n && JustifiedAt(base, txs, m, rules, i, ProcessTo(base, txs, m, rules, n).error)
  {
    hide StepTx, FirstPassTo, WellFormed, TxOk, ReadyFor, NoneSpent, JustifiedAt;
    if n == 1 {
      ReadyAtStart(base, txs, m, rules);
    } else {
      var r := ProcessTo(base, txs, m, rules, n - 1);
      if r.Success? {
        ProcessIff(base, txs, m, rules, n - 1);
        StepErrorNames(base, txs, m, rules, n - 1, r.value);
      } else {
        ProcessErrorNames(base, txs, m, rules, n - 1);
      }
    }
  }

  /** A block that is refused is refused for a rule that it breaks. */
  lemma {:induction false} RefusalIsJustified(base: Coins, txs: seq<Tx>, m: Mode, rules: Rules)
    requires WellFormed(txs) && NoneSpent(base)
    requires txs != [] && Apply(base, txs, m, rules).Failure?
    ensures Justified(base, txs, m, rules, Apply(base, txs, m, rules).error)
  {
    hide ProcessTo, WellFormed, NoneSpent, AnyOverwrite, NothingOverwritten, TxOk, BlockFees;
    OverwriteMeaning(base, txs);
    if ProcessTo(base, txs, m, rules, |txs|).Failure? {
      ProcessErrorNames(base, txs, m, rules, |txs|);
      var e := ProcessTo(base, txs, m, rules, |txs|).error;
      var i :| 1 <= i < |txs| && JustifiedAt(base, txs, m, rules, i, e);
      assert JustifiedAt(base, txs, m, rules, i, e);
    } else {
      ProcessIff(base, txs, m, rules, |txs|);
    }
  }

  /** A block fit with its scripts checked is fit without. */
  lemma {:induction false} UncheckedIsWeaker(base: Coins, txs: seq<Tx>, m: Mode, rules: Rules)
    requires txs != [] && BlockOk(base, txs, m.(checkInputs := true), rules)
    ensures BlockOk(base, txs, m.(checkInputs := false), rules)
  {
    var yes, no := m.(checkInputs := true), m.(checkInputs := false);
    SameFees(base, txs, m, |txs|);
    forall i | 1 <= i < |txs|
      ensures TxOk(base, txs, no, rules, i)
    {
      SameSigOps(base, txs, m, rules, i);
      assert TxOk(base, txs, yes, rules, i);
      assert Offered(base, txs, no, i) == Offered(base, txs, yes, i);
    }
  }

  lemma {:induction false} SameFees(base: Coins, txs: seq<Tx>, m: Mode, i: nat)
    requires 1 <= i <= |txs|
    ensures BlockFees(base, txs, m.(checkInputs := true), i) == BlockFees(base, txs, m.(checkInputs := false), i)
  {
    if i > 1 {
      SameFees(base, txs, m, i - 1);
      assert Offered(base, txs, m.(checkInputs := true), i - 1) == Offered(base, txs, m.(checkInputs := false), i - 1);
    }
  }

  lemma {:induction false} SameSigOps(base: Coins, txs: seq<Tx>, m: Mode, rules: Rules, i: nat)
    requires i < |txs|
    ensures BlockSigOps(base, txs, m.(checkInputs := true), rules, i) == BlockSigOps(base, txs, m.(checkInputs := false), rules, i)
  {
    if i > 0 {
      SameSigOps(base, txs, m, rules, i - 1);
      assert Offered(base, txs, m.(checkInputs := true), i) == Offered(base, txs, m.(checkInputs := false), i);
    }
  }
}
