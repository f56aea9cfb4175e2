/**
 What an accepted block does to the coin set, in closed form: all its spendable outputs are added and
 all its inputs are removed. Both processing modes reduce to this, with the same undo record and fees.
 */
module BlockEffect {
  import opened Wrappers
  import opened Utxo
  import opened BlockApply

  /* Blocks that CheckBlock lets through */

  ghost predicate DistinctIds(txs: seq<Tx>) {
    forall i, j :: 0 <= i < j < |txs| ==> txs[i].id != txs[j].id
  }

  /** No outpoint is spent twice, neither within a transaction nor across the block. */
  ghost predicate DistinctInputs(txs: seq<Tx>) {
    forall i, a, j, b ::
      (1 <= i < |txs| && 1 <= j < |txs| && 0 <= a < |txs[i].ins| && 0 <= b < |txs[j].ins| &&
       txs[i].ins[a] == txs[j].ins[b]) ==> i == j && a == b
  }

  ghost predicate WellFormed(txs: seq<Tx>) {
    txs != [] && txs[0].IsCoinBase() && (forall i :: 1 <= i < |txs| ==> !txs[i].IsCoinBase()) &&
    DistinctIds(txs) && DistinctInputs(txs) && forall i :: 0 <= i < |txs| ==> LegalOutputs(txs[i])
  }

  /* Outputs and inputs of a block */

  function TxOutMapTo(tx: Tx, height: nat, k: nat): Coins
    requires k <= |tx.outs|
  {
    if k == 0 then map[]
    else
      var m, out := TxOutMapTo(tx, height, k - 1), tx.outs[k - 1];
      if out.IsSpendable() then m[OutPoint(tx.id, k - 1) := Coin(out, height, tx.IsCoinBase())] else m
  }

  /** The spendable outputs of the first i transactions as coins. */
  function OutMap(txs: seq<Tx>, height: nat, i: nat): Coins
    requires i <= |txs|
  {
    if i == 0 then map[] else OutMap(txs, height, i - 1) + TxOutMapTo(txs[i - 1], height, |txs[i - 1].outs|)
  }

  function InputsOf(tx: Tx): set<OutPoint> {
    if tx.IsCoinBase() then {} else set o | o in tx.ins
  }

  function InputSet(txs: seq<Tx>, i: nat): set<OutPoint>
    requires i <= |txs|
  {
    if i == 0 then {} else InputSet(txs, i - 1) + InputsOf(txs[i - 1])
  }

  function BlockOuts(txs: seq<Tx>, height: nat): Coins { OutMap(txs, height, |txs|) }

  function BlockIns(txs: seq<Tx>): set<OutPoint> { InputSet(txs, |txs|) }

  /** The coin set after the block. */
  function Connected(base: Coins, txs: seq<Tx>, height: nat): Coins {
    (base + BlockOuts(txs, height)) - BlockIns(txs)
  }

  function CoinsAt(m: Coins, ins: seq<OutPoint>): (coins: seq<Coin>)
    ensures |coins| == |ins|
    ensures forall j :: 0 <= j < |ins| && ins[j] in m ==> coins[j] == m[ins[j]]
  {
    seq(|ins|, j requires 0 <= j < |ins| => if ins[j] in m then m[ins[j]] else EMPTY_COIN)
  }

  /** The undo record: for each transaction but the coinbase, the coins its inputs named. */
  function UndoOf(m: Coins, txs: seq<Tx>, i: nat): seq<seq<Coin>>
    requires i <= |txs|
  {
    if i == 0 then []
    else if txs[i - 1].IsCoinBase() then UndoOf(m, txs, i - 1)
    else UndoOf(m, txs, i - 1) + [CoinsAt(m, txs[i - 1].ins)]
  }

  function FeesOf(m: Coins, txs: seq<Tx>, i: nat): int
    requires i <= |txs|
  {
    if i == 0 then 0
    else if txs[i - 1].IsCoinBase() then FeesOf(m, txs, i - 1)
    else
      var coins := CoinsAt(m, txs[i - 1].ins);
      FeesOf(m, txs, i - 1) + SumValues(coins, |coins|) - txs[i - 1].ValueOut()
  }

  /* The cached view, described by what was added, spent and only looked up */

  function Mid(base: Coins, a: Coins, s: set<OutPoint>, p: set<OutPoint>): View {
    map o | o in a.Keys + s + p && (if o in a then o !in s else o in s || o in base)
      :: if o in a then Entry(a[o], false, true)
         else if o in s then Entry(SPENT_COIN, true, false)
         else Entry(base[o], false, false)
  }

  lemma {:induction false} FetchStep(base: Coins, a: Coins, s: set<OutPoint>, p: set<OutPoint>, o: OutPoint)
    requires o !in s
    ensures var v := Mid(base, a, s, p);
            Lookup(base, v, o) == (if o in a then Some(a[o]) else if o in base then Some(base[o]) else None) &&
            (o in a || o in base ==> Fetched(base, v, o) == Mid(base, a, s, p + {o}))
  {
  }

  lemma {:induction false} SpendStep(base: Coins, a: Coins, s: set<OutPoint>, p: set<OutPoint>, o: OutPoint)
    requires o !in s && (o in a || (o in p && o in base))
    ensures var v := Mid(base, a, s, p);
            Removed(v, o) == Mid(base, a, s + {o}, p) && Access(v, o) == (base + a)[o]
  {
  }

  lemma {:induction false} AddStep(base: Coins, a: Coins, s: set<OutPoint>, o: OutPoint, coin: Coin)
    requires o !in s && coin.out.IsSpendable()
    ensures Added(Mid(base, a, s, {}), o, coin) == Mid(base, a[o := coin], s, {})
  {
  }

  /** Coins looked up but then spent leave no trace of the lookup. */
  lemma {:induction false} PendingGone(base: Coins, a: Coins, s: set<OutPoint>, p: set<OutPoint>)
    requires p <= s
    ensures Mid(base, a, s, p) == Mid(base, a, s, {})
  {
  }

  /** Writing the view down removes the spent coins and adds the surviving outputs. */
  lemma {:induction false} FlushMid(base: Coins, a: Coins, s: set<OutPoint>)
    requires ValidCoins(base) && ValidCoins(a) && base.Keys !! a.Keys && s <= base.Keys + a.Keys
    ensures Flushed(base, Mid(base, a, s, {})) == (base + a) - s
  {
  }

  /* One transaction */

  function SetTo(ins: seq<OutPoint>, j: nat): set<OutPoint>
    requires j <= |ins|
  {
    if j == 0 then {} else SetTo(ins, j - 1) + {ins[j - 1]}
  }

  lemma {:induction false} SetToMeaning(ins: seq<OutPoint>, j: nat)
    requires j <= |ins|
    ensures forall o :: o in SetTo(ins, j) <==> exists q :: 0 <= q < j && ins[q] == o
  {
    if j > 0 {
      SetToMeaning(ins, j - 1);
    }
  }

  lemma {:induction false} SetToAll(ins: seq<OutPoint>)
    ensures SetTo(ins, |ins|) == set o | o in ins
  {
    SetToMeaning(ins, |ins|);
  }

  /** The inputs of a transaction that may be processed: distinct and not yet spent. */
  ghost predicate FreshInputs(ins: seq<OutPoint>, s: set<OutPoint>) {
    (forall q :: 0 <= q < |ins| ==> ins[q] !in s) && (forall q, r :: 0 <= q < r < |ins| ==> ins[q] != ins[r])
  }

  ghost predicate Available(base: Coins, a: Coins, ins: seq<OutPoint>, j: nat)
    requires j <= |ins|
  {
    forall q :: 0 <= q < j ==> ins[q] in a || ins[q] in base
  }

  /** The lookup loop succeeds exactly when every input is an unspent output of the block or of the coin set. */
  lemma {:induction false} FetchAll(base: Coins, a: Coins, s: set<OutPoint>, ins: seq<OutPoint>, j: nat)
    requires j <= |ins| && FreshInputs(ins, s) && ValidCoins(base) && ValidCoins(a)
    ensures FetchTo(base, Mid(base, a, s, {}), ins, j)
            == if Available(base, a, ins, j) then Some(Mid(base, a, s, SetTo(ins, j))) else None
  {
    if j > 0 {
      FetchAll(base, a, s, ins, j - 1);
      FetchStep(base, a, s, SetTo(ins, j - 1), ins[j - 1]);
      hide Mid;
    }
  }

  lemma {:induction false} SetToNext(ins: seq<OutPoint>, j: nat)
    requires 0 < j <= |ins|
    ensures SetTo(ins, j) == SetTo(ins, j - 1) + {ins[j - 1]}
  {
  }

  lemma {:induction false} NextIsPending(ins: seq<OutPoint>, s: set<OutPoint>, j: nat)
    requires j < |ins| && FreshInputs(ins, s)
    ensures ins[j] in SetTo(ins, |ins|) && ins[j] !in s + SetTo(ins, j)
  {
    SetToMeaning(ins, |ins|);
    SetToMeaning(ins, j);
  }

  lemma {:induction false} SpendAll(base: Coins, a: Coins, s: set<OutPoint>, ins: seq<OutPoint>, j: nat)
    requires j <= |ins| && FreshInputs(ins, s) && Available(base, a, ins, |ins|)
    ensures SpendTo(Mid(base, a, s, SetTo(ins, |ins|)), ins, j) == Mid(base, a, s + SetTo(ins, j), SetTo(ins, |ins|))
  {
    hide Mid, Removed;
    if j == 0 {
      assert s + {} == s;
    } else {
      SpendAll(base, a, s, ins, j - 1);
      NextIsPending(ins, s, j - 1);
      SpendStep(base, a, s + SetTo(ins, j - 1), SetTo(ins, |ins|), ins[j - 1]);
      SetToNext(ins, j);
      assert s + SetTo(ins, j) == s + SetTo(ins, j - 1) + {ins[j - 1]};
    }
  }

  lemma {:induction false} UndoAll(base: Coins, a: Coins, s: set<OutPoint>, ins: seq<OutPoint>, j: nat)
    requires j <= |ins| && FreshInputs(ins, s) && Available(base, a, ins, |ins|)
    ensures UndoTo(Mid(base, a, s, SetTo(ins, |ins|)), ins, j) == CoinsAt(base + a, ins)[..j]
  {
    hide Mid, Removed, Access, SpendTo, SetTo;
    if j > 0 {
      UndoAll(base, a, s, ins, j - 1);
      SpendAll(base, a, s, ins, j - 1);
      NextIsPending(ins, s, j - 1);
      SpendStep(base, a, s + SetTo(ins, j - 1), SetTo(ins, |ins|), ins[j - 1]);
    }
  }

  lemma {:induction false} CoinsOfMid(base: Coins, a: Coins, s: set<OutPoint>, ins: seq<OutPoint>)
    requires FreshInputs(ins, s) && Available(base, a, ins, |ins|)
    ensures CoinsOf(Mid(base, a, s, SetTo(ins, |ins|)), ins) == CoinsAt(base + a, ins)
  {
    SetToMeaning(ins, |ins|);
  }

  lemma {:induction false} AddAll(base: Coins, a: Coins, s: set<OutPoint>, tx: Tx, height: nat, k: nat)
    requires k <= |tx.outs|
    requires forall q :: 0 <= q < |tx.outs| && tx.outs[q].IsSpendable() ==> OutPoint(tx.id, q) !in s
    ensures AddOutsTo(Mid(base, a, s, {}), tx, height, k) == Mid(base, a + TxOutMapTo(tx, height, k), s, {})
  {
    hide Mid;
    if k == 0 {
      assert a + map[] == a;
    } else {
      AddAll(base, a, s, tx, height, k - 1);
      var m, out := TxOutMapTo(tx, height, k - 1), tx.outs[k - 1];
      if out.IsSpendable() {
        var o, c := OutPoint(tx.id, k - 1), Coin(out, height, tx.IsCoinBase());
        AddStep(base, a + m, s, o, c);
        assert (a + m)[o := c] == a + m[o := c];
      }
    }
  }

  /* The whole block */

  lemma {:induction false} TxOutMapKeys(tx: Tx, height: nat, k: nat)
    requires k <= |tx.outs|
    ensures forall o :: o in TxOutMapTo(tx, height, k) <==>
                        o.hash == tx.id && o.index < k && tx.outs[o.index].IsSpendable()
    ensures forall o :: o in TxOutMapTo(tx, height, k) ==>
                        TxOutMapTo(tx, height, k)[o] == Coin(tx.outs[o.index], height, tx.IsCoinBase())
  {
    if k > 0 {
      TxOutMapKeys(tx, height, k - 1);
    }
  }

  /** o is the spendable output number o.index of transaction t. */
  ghost predicate IsOutput(txs: seq<Tx>, t: int, o: OutPoint) {
    0 <= t < |txs| && o.hash == txs[t].id && o.index < |txs[t].outs| && txs[t].outs[o.index].IsSpendable()
  }

  lemma {:induction false} OutMapKeys(txs: seq<Tx>, height: nat, i: nat, o: OutPoint)
    requires i <= |txs| && DistinctIds(txs)
    ensures o in OutMap(txs, height, i) <==> exists t :: t < i && IsOutput(txs, t, o)
    ensures forall t :: t < i && IsOutput(txs, t, o) ==>
                        o in OutMap(txs, height, i) &&
                        OutMap(txs, height, i)[o] == Coin(txs[t].outs[o.index], height, txs[t].IsCoinBase())
  {
    if i > 0 {
      OutMapKeys(txs, height, i - 1, o);
      var last := txs[i - 1];
      TxOutMapKeys(last, height, |last.outs|);
      if o in TxOutMapTo(last, height, |last.outs|) {
        assert IsOutput(txs, i - 1, o);
      }
    }
  }

  /** Later transactions do not touch the outputs of earlier ones. */
  lemma {:induction false} OutMapExtends(txs: seq<Tx>, height: nat, i: nat, o: OutPoint)
    requires i <= |txs| && DistinctIds(txs) && o in OutMap(txs, height, i)
    ensures o in BlockOuts(txs, height) && BlockOuts(txs, height)[o] == OutMap(txs, height, i)[o]
  {
    OutMapKeys(txs, height, i, o);
    OutMapKeys(txs, height, |txs|, o);
    var t :| t < i && IsOutput(txs, t, o);
  }

  lemma {:induction false} OutMapValid(txs: seq<Tx>, height: nat, i: nat)
    requires i <= |txs| && DistinctIds(txs) && height > 0
    requires forall i :: 0 <= i < |txs| ==> LegalOutputs(txs[i])
    ensures ValidCoins(OutMap(txs, height, i))
  {
    forall o | o in OutMap(txs, height, i)
      ensures var c := OutMap(txs, height, i)[o]; !c.IsSpent() && c.out.IsSpendable() && c.height > 0
    {
      OutMapKeys(txs, height, i, o);
      var t :| t < i && IsOutput(txs, t, o);
      assert MoneyRange(txs[t].outs[o.index].value);
    }
  }

  lemma {:induction false} InputSetMeaning(txs: seq<Tx>, i: nat, o: OutPoint)
    requires i <= |txs|
    ensures o in InputSet(txs, i) <==> exists t, q :: 0 <= t < i && 0 <= q < |txs[t].ins| && !txs[t].IsCoinBase() && txs[t].ins[q] == o
  {
    if i > 0 {
      InputSetMeaning(txs, i - 1, o);
      if o in InputsOf(txs[i - 1]) {
        var q :| 0 <= q < |txs[i - 1].ins| && txs[i - 1].ins[q] == o;
      }
    }
  }

  /** The inputs of transaction i are distinct and not spent by an earlier transaction of the block. */
  lemma {:induction false} InputsAreFresh(txs: seq<Tx>, i: nat)
    requires WellFormed(txs) && 1 <= i < |txs|
    ensures FreshInputs(txs[i].ins, InputSet(txs, i))
  {
    forall q | 0 <= q < |txs[i].ins|
      ensures txs[i].ins[q] !in InputSet(txs, i)
    {
      InputSetMeaning(txs, i, txs[i].ins[q]);
    }
  }

  /** What the view holds as added once the first i transactions are processed. */
  function AddedBy(txs: seq<Tx>, m: Mode, i: nat): Coins
    requires i <= |txs| && txs != []
  {
    if m.outputsFirst then BlockOuts(txs, m.height) else OutMap(txs, m.height, if i == 0 then 1 else i)
  }

  /** The state after i transactions, in closed form. */
  ghost predicate ClosedAt(base: Coins, txs: seq<Tx>, m: Mode, i: nat, st: Applied)
    requires i <= |txs| && txs != []
  {
    var a, all := AddedBy(txs, m, i), base + BlockOuts(txs, m.height);
    st.view == Mid(base, a, InputSet(txs, i), {}) && InputSet(txs, i) <= base.Keys + a.Keys &&
    st.undo == UndoOf(all, txs, i) && st.fees == FeesOf(all, txs, i)
  }

  /** The block may be applied: it passed CheckBlock and none of its spendable outputs is in the coin set. */
  ghost predicate Applicable(base: Coins, txs: seq<Tx>, height: nat) {
    WellFormed(txs) && ValidCoins(base) && height > 0 && base.Keys !! BlockOuts(txs, height).Keys
  }

  lemma {:induction false} FirstPassOutputsFirst(base: Coins, txs: seq<Tx>, m: Mode, rules: Rules, i: nat)
    requires i <= |txs| && m.outputsFirst
    ensures var st := FirstPassTo(txs, m, rules, i);
            st.view == Mid(base, OutMap(txs, m.height, i), {}, {}) && st.undo == [] && st.fees == 0
  {
    hide Mid;
    if i == 0 {
      MidEmpty(base);
    } else {
      FirstPassOutputsFirst(base, txs, m, rules, i - 1);
      AddAll(base, OutMap(txs, m.height, i - 1), {}, txs[i - 1], m.height, |txs[i - 1].outs|);
    }
  }

  lemma {:induction false} MidEmpty(base: Coins)
    ensures Mid(base, map[], {}, {}) == map[]
  {
  }

  lemma {:induction false} FirstPassSequential(base: Coins, txs: seq<Tx>, m: Mode, rules: Rules, i: nat)
    requires i <= |txs| && !m.outputsFirst && WellFormed(txs)
    ensures var st := FirstPassTo(txs, m, rules, i);
            st.view == Mid(base, OutMap(txs, m.height, if i == 0 then 0 else 1), {}, {}) && st.undo == [] && st.fees == 0
  {
    hide Mid;
    if i == 0 {
      MidEmpty(base);
    } else {
      FirstPassSequential(base, txs, m, rules, i - 1);
      if i == 1 {
        AddAll(base, map[], {}, txs[0], m.height, |txs[0].outs|);
      }
    }
  }

  lemma {:induction false} FirstPassClosed(base: Coins, txs: seq<Tx>, m: Mode, rules: Rules)
    requires WellFormed(txs)
    ensures ClosedAt(base, txs, m, 0, FirstPassTo(txs, m, rules, |txs|))
  {
    hide Mid, OutMap;
    if m.outputsFirst {
      FirstPassOutputsFirst(base, txs, m, rules, |txs|);
    } else {
      FirstPassSequential(base, txs, m, rules, |txs|);
    }
  }

  /** One transaction without the cache: inputs must be available, then they move to the spent set. */
  ghost function PlainStep(base: Coins, a: Coins, s: set<OutPoint>, st: Applied, tx: Tx, m: Mode, rules: Rules)
    : Result<Applied, BlockError>
  {
    if !Available(base, a, tx.ins, |tx.ins|) then Failure(MissingOrSpent)
    else
      var coins := CoinsAt(base + a, tx.ins);
      var e := TxError(tx, coins, st.sigOps, m, rules);
      if e.Some? then Failure(e.value)
      else Success(Applied(Mid(base, if m.outputsFirst then a else a + TxOutMapTo(tx, m.height, |tx.outs|), s + InputsOf(tx), {}),
                           st.fees + SumValues(coins, |coins|) - tx.ValueOut(),
                           st.sigOps + rules.txSigOps(tx, coins), st.undo + [coins]))
  }

  /** The cached step and the plain step agree, failures included. */
  lemma {:induction false} StepIsPlain(base: Coins, a: Coins, s: set<OutPoint>, st: Applied, tx: Tx, m: Mode,
      rules: Rules)
    requires st.view == Mid(base, a, s, {}) && !tx.IsCoinBase()
    requires FreshInputs(tx.ins, s) && ValidCoins(base) && ValidCoins(a)
    requires !m.outputsFirst && Available(base, a, tx.ins, |tx.ins|) ==>
               forall q :: 0 <= q < |tx.outs| && tx.outs[q].IsSpendable() ==> OutPoint(tx.id, q) !in s + InputsOf(tx)
    ensures StepTx(base, st, tx, m, rules) == PlainStep(base, a, s, st, tx, m, rules)
  {
    hide Mid, FetchTo, SpendTo, UndoTo, AddOutsTo, TxError, SumValues, SetTo, TxOutMapTo, ValidCoins, FreshInputs, CoinsOf;
    var n := |tx.ins|;
    FetchAll(base, a, s, tx.ins, n);
    if Available(base, a, tx.ins, n) {
      var v := Mid(base, a, s, SetTo(tx.ins, n));
      CoinsOfMid(base, a, s, tx.ins);
      SpendAll(base, a, s, tx.ins, n);
      UndoAll(base, a, s, tx.ins, n);
      var coins := CoinsAt(base + a, tx.ins);
      assert coins[..n] == coins;
      SetToAll(tx.ins);
      PendingGone(base, a, s + InputsOf(tx), SetTo(tx.ins, n));
      if !m.outputsFirst {
        AddAll(base, a, s + InputsOf(tx), tx, m.height, |tx.outs|);
      }
    }
  }

  /** In the sequential mode an output is never spent before it is created. */
  lemma {:induction false} OutputsUnspent(base: Coins, txs: seq<Tx>, m: Mode, i: nat)
    requires Applicable(base, txs, m.height) && 1 <= i < |txs|
    requires InputSet(txs, i + 1) <= base.Keys + OutMap(txs, m.height, i).Keys
    ensures forall q :: 0 <= q < |txs[i].outs| && txs[i].outs[q].IsSpendable() ==>
              OutPoint(txs[i].id, q) !in InputSet(txs, i + 1)
  {
    forall q | 0 <= q < |txs[i].outs| && txs[i].outs[q].IsSpendable()
      ensures OutPoint(txs[i].id, q) !in InputSet(txs, i + 1)
    {
      var o := OutPoint(txs[i].id, q);
      assert IsOutput(txs, i, o);
      OutMapKeys(txs, m.height, |txs|, o);
      OutMapKeys(txs, m.height, i, o);
    }
  }

  lemma {:induction false} AddedByValid(base: Coins, txs: seq<Tx>, m: Mode, i: nat)
    requires Applicable(base, txs, m.height) && i <= |txs|
    ensures ValidCoins(AddedBy(txs, m, i))
  {
    OutMapValid(txs, m.height, |txs|);
    OutMapValid(txs, m.height, if i == 0 then 1 else i);
  }

  /** What is visible when transaction i is processed is what the whole block shows for its inputs. */
  lemma {:induction false} SameCoins(base: Coins, txs: seq<Tx>, m: Mode, i: nat, ins: seq<OutPoint>)
    requires Applicable(base, txs, m.height) && i <= |txs|
    requires Available(base, AddedBy(txs, m, i), ins, |ins|)
    ensures CoinsAt(base + AddedBy(txs, m, i), ins) == CoinsAt(base + BlockOuts(txs, m.height), ins)
  {
    assert txs != [];
    hide OutMap, ValidCoins, WellFormed;
    var a, all := AddedBy(txs, m, i), BlockOuts(txs, m.height);
    forall j | 0 <= j < |ins|
      ensures ins[j] in base + a && ins[j] in base + all && (base + a)[ins[j]] == (base + all)[ins[j]]
    {
      if ins[j] in a {
        AddedByExtends(txs, m, i, ins[j]);
      }
    }
  }

  lemma {:induction false} AddedByExtends(txs: seq<Tx>, m: Mode, i: nat, o: OutPoint)
    requires WellFormed(txs) && i <= |txs| && o in AddedBy(txs, m, i)
    ensures o in BlockOuts(txs, m.height) && BlockOuts(txs, m.height)[o] == AddedBy(txs, m, i)[o]
  {
    if !m.outputsFirst {
      OutMapExtends(txs, m.height, if i == 0 then 1 else i, o);
    }
  }

  lemma {:induction false} AvailableInputs(base: Coins, a: Coins, tx: Tx)
    requires !tx.IsCoinBase()
    ensures Available(base, a, tx.ins, |tx.ins|) <==> InputsOf(tx) <= base.Keys + a.Keys
  {
    if Available(base, a, tx.ins, |tx.ins|) {
      forall o | o in InputsOf(tx)
        ensures o in base.Keys + a.Keys
      {
        var q :| 0 <= q < |tx.ins| && tx.ins[q] == o;
      }
    } else {
      var q :| 0 <= q < |tx.ins| && !(tx.ins[q] in a || tx.ins[q] in base);
      assert tx.ins[q] in InputsOf(tx);
    }
  }

  /** From a closed-form state, transaction i takes the plain step. */
  lemma {:induction false} StepFromClosed(base: Coins, txs: seq<Tx>, m: Mode, rules: Rules, i: nat, st: Applied)
    requires Applicable(base, txs, m.height) && 1 <= i < |txs| && ClosedAt(base, txs, m, i, st)
    ensures StepTx(base, st, txs[i], m, rules)
            == PlainStep(base, AddedBy(txs, m, i), InputSet(txs, i), st, txs[i], m, rules)
  {
    hide Mid, OutMap, ValidCoins, BlockOuts, UndoOf, FeesOf, StepTx, PlainStep, FreshInputs;
    var a := AddedBy(txs, m, i);
    AddedByValid(base, txs, m, i);
    InputsAreFresh(txs, i);
    if !m.outputsFirst && Available(base, a, txs[i].ins, |txs[i].ins|) {
      AvailableInputs(base, a, txs[i]);
      OutputsUnspent(base, txs, m, i);
    }
    StepIsPlain(base, a, InputSet(txs, i), st, txs[i], m, rules);
  }

  lemma {:induction false} StepClosed(base: Coins, txs: seq<Tx>, m: Mode, rules: Rules, i: nat, st: Applied)
    requires Applicable(base, txs, m.height) && i < |txs| && ClosedAt(base, txs, m, i, st)
    requires StepTx(base, st, txs[i], m, rules).Success?
    ensures ClosedAt(base, txs, m, i + 1, StepTx(base, st, txs[i], m, rules).value)
  {
    hide Mid, OutMap, ValidCoins, BlockOuts, TxError, SumValues;
    if i == 0 {
      assert InputSet(txs, 1) == InputSet(txs, 0);
    } else {
      var a := AddedBy(txs, m, i);
      StepFromClosed(base, txs, m, rules, i, st);
      hide StepTx;
      AvailableInputs(base, a, txs[i]);
      SameCoins(base, txs, m, i, txs[i].ins);
      AddedByNext(txs, m, i);
    }
  }

  lemma {:induction false} AddedByNext(txs: seq<Tx>, m: Mode, i: nat)
    requires 1 <= i < |txs|
    ensures AddedBy(txs, m, i + 1) ==
            if m.outputsFirst then AddedBy(txs, m, i)
            else AddedBy(txs, m, i) + TxOutMapTo(txs[i], m.height, |txs[i].outs|)
  {
  }

  lemma {:induction false} ProcessClosed(base: Coins, txs: seq<Tx>, m: Mode, rules: Rules, i: nat)
    requires Applicable(base, txs, m.height) && i <= |txs|
    requires ProcessTo(base, txs, m, rules, i).Success?
    ensures ClosedAt(base, txs, m, i, ProcessTo(base, txs, m, rules, i).value)
  {
    hide ClosedAt, StepTx, FirstPassTo;
    if i == 0 {
      FirstPassClosed(base, txs, m, rules);
    } else {
      ProcessClosed(base, txs, m, rules, i - 1);
      StepClosed(base, txs, m, rules, i - 1, ProcessTo(base, txs, m, rules, i - 1).value);
    }
  }

  /**
   An accepted block, in either mode: the coin set afterwards, the undo record and the fees depend only
   on the coins before and the transactions.
   */
  lemma {:induction false} AppliedInClosedForm(base: Coins, txs: seq<Tx>, m: Mode, rules: Rules)
    requires Applicable(base, txs, m.height) && Apply(base, txs, m, rules).Success?
    ensures var st, all := Apply(base, txs, m, rules).value, base + BlockOuts(txs, m.height);
            Flushed(base, st.view) == Connected(base, txs, m.height) && BlockIns(txs) <= all.Keys &&
            st.undo == UndoOf(all, txs, |txs|) && st.fees == FeesOf(all, txs, |txs|) &&
            txs[0].ValueOut() <= st.fees + m.subsidy
  {
    hide Mid, Flushed, OutMap, ProcessTo, ValidCoins;
    ProcessClosed(base, txs, m, rules, |txs|);
    AddedByValid(base, txs, m, |txs|);
    FlushMid(base, BlockOuts(txs, m.height), BlockIns(txs));
  }

  /* The two modes */

  /** Every transaction comes after the transactions of the block it spends from. */
  ghost predicate Ordered(txs: seq<Tx>) {
    forall i, j, q :: 0 <= i < |txs| && 0 <= j < |txs| && 0 <= q < |txs[i].ins| && txs[i].ins[q].hash == txs[j].id ==> j < i
  }

  ghost predicate SameUpToView(a: Result<Applied, BlockError>, b: Result<Applied, BlockError>) {
    match (a, b)
    case (Failure(e), Failure(f)) => e == f
    case (Success(x), Success(y)) => x.fees == y.fees && x.sigOps == y.sigOps && x.undo == y.undo
    case _ => false
  }

  lemma {:induction false} SameAvailability(base: Coins, txs: seq<Tx>, m: Mode, i: nat)
    requires Applicable(base, txs, m.height) && Ordered(txs) && 1 <= i < |txs|
    ensures Available(base, BlockOuts(txs, m.height), txs[i].ins, |txs[i].ins|)
            <==> Available(base, OutMap(txs, m.height, i), txs[i].ins, |txs[i].ins|)
  {
    forall q | 0 <= q < |txs[i].ins|
      ensures txs[i].ins[q] in BlockOuts(txs, m.height) <==> txs[i].ins[q] in OutMap(txs, m.height, i)
    {
      var o := txs[i].ins[q];
      OutMapKeys(txs, m.height, |txs|, o);
      OutMapKeys(txs, m.height, i, o);
      if o in BlockOuts(txs, m.height) {
        var t :| t < |txs| && IsOutput(txs, t, o);
        assert t < i;
      }
    }
  }

  lemma {:induction false} SameStep(base: Coins, txs: seq<Tx>, m: Mode, rules: Rules, i: nat, x: Applied, y: Applied)
    requires Applicable(base, txs, m.height) && Ordered(txs) && 1 <= i < |txs|
    requires ClosedAt(base, txs, m.(outputsFirst := true), i, x) && ClosedAt(base, txs, m.(outputsFirst := false), i, y)
    requires SameUpToView(Success(x), Success(y))
    ensures SameUpToView(StepTx(base, x, txs[i], m.(outputsFirst := true), rules),
                         StepTx(base, y, txs[i], m.(outputsFirst := false), rules))
  {
    hide Mid, OutMap, StepTx, SumValues, ClosedAt, Applicable, MoneyError, Available;
    var first, sequential := m.(outputsFirst := true), m.(outputsFirst := false);
    SameAvailability(base, txs, m, i);
    StepFromClosed(base, txs, first, rules, i, x);
    StepFromClosed(base, txs, sequential, rules, i, y);
    if Available(base, BlockOuts(txs, m.height), txs[i].ins, |txs[i].ins|) {
      SameCoins(base, txs, first, i, txs[i].ins);
      SameCoins(base, txs, sequential, i, txs[i].ins);
    }
  }

  lemma {:induction false} SameProcess(base: Coins, txs: seq<Tx>, m: Mode, rules: Rules, i: nat)
    requires Applicable(base, txs, m.height) && Ordered(txs) && i <= |txs|
    ensures SameUpToView(ProcessTo(base, txs, m.(outputsFirst := true), rules, i),
                         ProcessTo(base, txs, m.(outputsFirst := false), rules, i))
  {
    hide ClosedAt, FirstPassTo;
    var first, sequential := m.(outputsFirst := true), m.(outputsFirst := false);
    if i == 0 {
      SameFirstPass(txs, m, rules, |txs|);
    } else {
      SameProcess(base, txs, m, rules, i - 1);
      if i > 1 {
        hide StepTx;
        var x, y := ProcessTo(base, txs, first, rules, i - 1), ProcessTo(base, txs, sequential, rules, i - 1);
        if x.Success? {
          ProcessClosed(base, txs, first, rules, i - 1);
          ProcessClosed(base, txs, sequential, rules, i - 1);
          SameStep(base, txs, m, rules, i - 1, x.value, y.value);
        }
      }
    }
  }

  lemma {:induction false} SameFirstPass(txs: seq<Tx>, m: Mode, rules: Rules, i: nat)
    requires i <= |txs|
    ensures SameUpToView(Success(FirstPassTo(txs, m.(outputsFirst := true), rules, i)),
                         Success(FirstPassTo(txs, m.(outputsFirst := false), rules, i)))
  {
    if i > 0 {
      SameFirstPass(txs, m, rules, i - 1);
    }
  }

  /** On an ordered block the two modes accept the same blocks, report the same errors and give the same results. */
  lemma {:induction false} ModesAgree(base: Coins, txs: seq<Tx>, m: Mode, rules: Rules)
    requires Applicable(base, txs, m.height) && Ordered(txs)
    ensures var a, b := Apply(base, txs, m.(outputsFirst := true), rules), Apply(base, txs, m.(outputsFirst := false), rules);
            SameUpToView(a, b) && (a.Success? ==> Flushed(base, a.value.view) == Flushed(base, b.value.view))
  {
    assert txs != [];
    hide Flushed, ProcessTo, Connected, AnyOverwrite, BlockOuts, Ordered, Applicable;
    SameProcess(base, txs, m, rules, |txs|);
    var first, sequential := m.(outputsFirst := true), m.(outputsFirst := false);
    if Apply(base, txs, first, rules).Success? {
      AppliedInClosedForm(base, txs, first, rules);
      AppliedInClosedForm(base, txs, sequential, rules);
    }
  }
}
