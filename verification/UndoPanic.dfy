/**
 When undo runs into the nil dereference. ApplyBlockUndo reads the coin of an output before it tests whether there is
 one, so a block whose output cannot be found makes it panic where it means to answer DisconnectUnclean.
 */
module UndoPanic {
  import opened Wrappers
  import opened Utxo
  import opened BlockApply
  import opened BlockEffect
  import opened BlockUndo
  import opened UndoExactness

  /** Some input of transactions 1 .. i-1 names o, and its record is a coin that can be put back. */
  ghost predicate RestoredBy(txs: seq<Tx>, undo: seq<seq<Coin>>, i: nat, o: OutPoint)
    requires 1 <= i <= |txs| == |undo| + 1
  {
    exists t, j :: 1 <= t < i && 0 <= j < |txs[t].ins| && j < |undo[t - 1]| && txs[t].ins[j] == o &&
                   undo[t - 1][j].out.IsSpendable()
  }

  /** A coin for o can be found. */
  ghost predicate Found(base: Coins, v: View, o: OutPoint) { o in base || o in v }

  lemma {:induction false} RestoreInsFinds(base: Coins, r: Rolled, ins: seq<OutPoint>, coins: seq<Coin>, j: nat,
      o: OutPoint)
    requires j <= |ins| == |coins| && RestoreInsTo(base, r, ins, coins, j).Some?
    ensures Found(base, RestoreInsTo(base, r, ins, coins, j).value.view, o) <==>
            Found(base, r.view, o) || exists k :: 0 <= k < j && ins[k] == o && coins[k].out.IsSpendable()
  {
    if j > 0 {
      RestoreInsFinds(base, r, ins, coins, j - 1, o);
    }
  }

  /** After restoring, what can be found is what was there and what the record puts back. */
  lemma {:induction false} RestoreFinds(base: Coins, txs: seq<Tx>, undo: seq<seq<Coin>>, i: nat, o: OutPoint)
    requires 1 <= i <= |txs| == |undo| + 1 && RestoreTo(base, txs, undo, i).Some?
    ensures Found(base, RestoreTo(base, txs, undo, i).value.view, o) <==> o in base || RestoredBy(txs, undo, i, o)
  {
    if i > 1 {
      hide RestoreInsTo;
      RestoreFinds(base, txs, undo, i - 1, o);
      var ins, coins := txs[i - 1].ins, undo[i - 2];
      RestoreInsFinds(base, RestoreTo(base, txs, undo, i - 1).value, ins, coins, |ins|, o);
    }
  }

  /** Reverting the first k outputs of one transaction needs each of them, and loses nothing else. */
  lemma {:induction false} RevertTxNeeds(base: Coins, r: Rolled, tx: Tx, height: nat, k: nat)
    requires k <= |tx.outs|
    ensures RevertTxTo(base, r, tx, height, k).Some? <==>
            forall q :: 0 <= q < k && tx.outs[q].IsSpendable() ==> Found(base, r.view, OutPoint(tx.id, q))
    ensures RevertTxTo(base, r, tx, height, k).Some? ==>
              forall o: OutPoint :: o.hash != tx.id || o.index >= k ==>
                (Found(base, RevertTxTo(base, r, tx, height, k).value.view, o) <==> Found(base, r.view, o))
  {
    if k > 0 {
      RevertTxNeeds(base, r, tx, height, k - 1);
    }
  }

  /** Every spendable output of the first i transactions can be found. */
  ghost predicate AllFound(base: Coins, v: View, txs: seq<Tx>, i: nat)
    requires i <= |txs|
  {
    forall t, o :: t < i && IsOutput(txs, t, o) ==> Found(base, v, o)
  }

  lemma {:induction false} RevertNeeds(base: Coins, r: Rolled, txs: seq<Tx>, height: nat, i: nat)
    requires i <= |txs| && DistinctIds(txs)
    ensures RevertTo(base, r, txs, height, i).Some? <==> AllFound(base, r.view, txs, i)
    ensures RevertTo(base, r, txs, height, i).Some? ==>
              forall o: OutPoint :: (forall t :: 0 <= t < i ==> o.hash != txs[t].id) ==>
                (Found(base, RevertTo(base, r, txs, height, i).value.view, o) <==> Found(base, r.view, o))
  {
    if i > 0 {
      hide RevertTxTo, Found;
      RevertNeeds(base, r, txs, height, i - 1);
      var before, tx := RevertTo(base, r, txs, height, i - 1), txs[i - 1];
      if before.Some? {
        RevertTxNeeds(base, before.value, tx, height, |tx.outs|);
        AllFoundStep(base, r.view, before.value.view, txs, i, tx);
      }
    }
  }

  lemma {:induction false} AllFoundStep(base: Coins, v: View, w: View, txs: seq<Tx>, i: nat, tx: Tx)
    requires 0 < i <= |txs| && tx == txs[i - 1] && DistinctIds(txs) && AllFound(base, v, txs, i - 1)
    requires forall o: OutPoint :: (forall t :: 0 <= t < i - 1 ==> o.hash != txs[t].id) ==>
                                     (Found(base, w, o) <==> Found(base, v, o))
    ensures AllFound(base, v, txs, i) <==>
            forall q :: 0 <= q < |tx.outs| && tx.outs[q].IsSpendable() ==> Found(base, w, OutPoint(tx.id, q))
  {
    hide Found;
    forall q | 0 <= q < |tx.outs| && tx.outs[q].IsSpendable()
      ensures IsOutput(txs, i - 1, OutPoint(tx.id, q))
      ensures Found(base, w, OutPoint(tx.id, q)) <==> Found(base, v, OutPoint(tx.id, q))
    {
    }
    forall o | IsOutput(txs, i - 1, o)
      ensures o == OutPoint(tx.id, o.index)
    {
    }
  }

  /**
   With distinct transaction ids and a record that can be restored, undo panics if and only if some spendable output of
   the block is neither in the coin set nor put back as an input.
   */
  lemma {:induction false} UndoPanicsIff(base: Coins, txs: seq<Tx>, undo: seq<seq<Coin>>, height: nat)
    requires |txs| == |undo| + 1 && DistinctIds(txs) && RestoreTo(base, txs, undo, |txs|).Some?
    ensures Undo(base, txs, undo, height).0 == DisconnectPanic <==>
            exists o :: o in BlockOuts(txs, height) && o !in base && !RestoredBy(txs, undo, |txs|, o)
  {
    hide RestoreTo, RevertTo, RestoredBy, OutMap, IsOutput;
    var restored := RestoreTo(base, txs, undo, |txs|).value;
    RevertNeeds(base, restored, txs, height, |txs|);
    forall o
      ensures o in BlockOuts(txs, height) <==> exists t :: t < |txs| && IsOutput(txs, t, o)
      ensures Found(base, restored.view, o) <==> o in base || RestoredBy(txs, undo, |txs|, o)
    {
      OutMapKeys(txs, height, |txs|, o);
      RestoreFinds(base, txs, undo, |txs|, o);
    }
    if AllFound(base, restored.view, txs, |txs|) {
      forall o | o in BlockOuts(txs, height)
        ensures o in base || RestoredBy(txs, undo, |txs|, o)
      {
        var t :| t < |txs| && IsOutput(txs, t, o);
        assert Found(base, restored.view, o);
      }
    }
  }

  /** Undoing a block with one output on an empty coin set. */
  lemma {:induction false} MissingOutputPanics()
    ensures Undo(map[], [Tx(7, [NULL_OUTPOINT], [TxOut(50, [])])], [], 2).0 == DisconnectPanic
  {
    var tx := Tx(7, [NULL_OUTPOINT], [TxOut(50, [])]);
    var r := Rolled(map[], true);
    assert RestoreTo(map[], [tx], [], 1) == Some(r);
    assert RevertTxTo(map[], r, tx, 2, 0) == Some(r);
    assert RevertTxTo(map[], r, tx, 2, 1) == RevertOut(map[], r, tx, 2, 0) == None;
    assert RevertTo(map[], r, [tx], 2, 0) == Some(r);
    assert RevertTo(map[], r, [tx], 2, 1) == None;
  }

  /* After a successful apply */

  ghost predicate SpendableView(v: View) { forall o :: o in v ==> v[o].coin.out.IsSpendable() }

  ghost predicate SpendableCoins(u: seq<Coin>) { forall j :: 0 <= j < |u| ==> u[j].out.IsSpendable() }

  ghost predicate SpendableRecords(undo: seq<seq<Coin>>) { forall i :: 0 <= i < |undo| ==> SpendableCoins(undo[i]) }

  lemma {:induction false} FetchSpendable(base: Coins, v: View, ins: seq<OutPoint>, j: nat)
    requires j <= |ins| && ValidCoins(base) && SpendableView(v) && FetchTo(base, v, ins, j).Some?
    ensures SpendableView(FetchTo(base, v, ins, j).value)
  {
    if j > 0 {
      FetchSpendable(base, v, ins, j - 1);
    }
  }

  lemma {:induction false} SpendSpendable(v: View, ins: seq<OutPoint>, j: nat)
    requires j <= |ins| && SpendableView(v)
    ensures SpendableView(SpendTo(v, ins, j)) && SpendableCoins(UndoTo(v, ins, j))
  {
    if j > 0 {
      SpendSpendable(v, ins, j - 1);
    }
  }

  lemma {:induction false} AddSpendable(v: View, tx: Tx, height: nat, k: nat)
    requires k <= |tx.outs| && SpendableView(v)
    ensures SpendableView(AddOutsTo(v, tx, height, k))
  {
    if k > 0 {
      AddSpendable(v, tx, height, k - 1);
    }
  }

  lemma {:induction false} FirstPassSpendable(txs: seq<Tx>, m: Mode, rules: Rules, i: nat)
    requires i <= |txs|
    ensures SpendableView(FirstPassTo(txs, m, rules, i).view) && FirstPassTo(txs, m, rules, i).undo == []
  {
    if i > 0 {
      FirstPassSpendable(txs, m, rules, i - 1);
      AddSpendable(FirstPassTo(txs, m, rules, i - 1).view, txs[i - 1], m.height, |txs[i - 1].outs|);
    }
  }

  /** Every coin that gets into a view or a record can be put back. */
  lemma {:induction false} ProcessSpendable(base: Coins, txs: seq<Tx>, m: Mode, rules: Rules, i: nat)
    requires i <= |txs| && ValidCoins(base) && ProcessTo(base, txs, m, rules, i).Success?
    ensures var st := ProcessTo(base, txs, m, rules, i).value; SpendableView(st.view) && SpendableRecords(st.undo)
  {
    hide FetchTo, SpendTo, UndoTo, AddOutsTo, SpendableView, SpendableCoins, ValidCoins, TxError, CoinsOf;
    FirstPassSpendable(txs, m, rules, |txs|);
    if i > 0 {
      ProcessSpendable(base, txs, m, rules, i - 1);
      var st, tx := ProcessTo(base, txs, m, rules, i - 1).value, txs[i - 1];
      if !tx.IsCoinBase() {
        FetchSpendable(base, st.view, tx.ins, |tx.ins|);
        var v := FetchTo(base, st.view, tx.ins, |tx.ins|).value;
        SpendSpendable(v, tx.ins, |tx.ins|);
        AddSpendable(SpendTo(v, tx.ins, |tx.ins|), tx, m.height, |tx.outs|);
      }
    }
  }

  lemma {:induction false} RestoreLengths(base: Coins, txs: seq<Tx>, undo: seq<seq<Coin>>, i: nat, t: nat)
    requires 1 <= t < i <= |txs| == |undo| + 1 && RestoreTo(base, txs, undo, i).Some?
    ensures |undo[t - 1]| == |txs[t].ins|
  {
    hide RestoreInsTo;
    if t < i - 1 {
      RestoreLengths(base, txs, undo, i - 1, t);
    }
  }

  /** An output of an accepted block is in the coin set, or its spender's record puts it back. */
  lemma {:induction false} AppliedOutputFound(c: Coins, txs: seq<Tx>, m: Mode, rules: Rules, o: OutPoint)
    requires WellFormed(txs) && ValidCoins(c) && Apply(c, txs, m, rules).Success? && o in BlockOuts(txs, m.height)
    requires var st := Apply(c, txs, m, rules).value;
             |txs| == |st.undo| + 1 && RestoreTo(Flushed(c, st.view), txs, st.undo, |txs|).Some?
    ensures var st := Apply(c, txs, m, rules).value;
            o in Flushed(c, st.view) || RestoredBy(txs, st.undo, |txs|, o)
  {
    hide WellFormed, ProcessTo, IsOutput, RestoreTo, InputSet, OutMap, ValidCoins, SpendableView;
    var st := Apply(c, txs, m, rules).value;
    OutputOf(txs, m.height, o);
    var t :| t < |txs| && IsOutput(txs, t, o);
    OutputIndex(txs, t, o);
    TrackProcess(c, txs, m, rules, t, o, |txs|);
    if o in InputSet(txs, |txs|) {
      ProcessSpendable(c, txs, m, rules, |txs|);
      InputSetMeaning(txs, |txs|, o);
      CoinbaseIsFirst(txs);
      var i, q :| 0 <= i < |txs| && 0 <= q < |txs[i].ins| && !txs[i].IsCoinBase() && txs[i].ins[q] == o;
      RestoreLengths(Flushed(c, st.view), txs, st.undo, |txs|, i);
      assert SpendableCoins(st.undo[i - 1]);
    }
  }

  lemma {:induction false} CoinbaseIsFirst(txs: seq<Tx>)
    requires WellFormed(txs)
    ensures txs != [] && txs[0].IsCoinBase() && DistinctIds(txs)
  {
  }

  /** On the coin set that an accepted block has left, undoing it with its record never panics, BIP 30 or not. */
  lemma {:induction false} AppliedNeverPanics(c: Coins, txs: seq<Tx>, m: Mode, rules: Rules)
    requires WellFormed(txs) && ValidCoins(c) && Apply(c, txs, m, rules).Success?
    ensures var st := Apply(c, txs, m, rules).value;
            Undo(Flushed(c, st.view), txs, st.undo, m.height).0 != DisconnectPanic
  {
    hide WellFormed, Apply, Flushed, RestoreTo, RevertTo, OutMap, RestoredBy, ValidCoins;
    CoinbaseIsFirst(txs);
    var st := Apply(c, txs, m, rules).value;
    var base := Flushed(c, st.view);
    if |txs| == |st.undo| + 1 && RestoreTo(base, txs, st.undo, |txs|).Some? {
      UndoPanicsIff(base, txs, st.undo, m.height);
      forall o | o in BlockOuts(txs, m.height)
        ensures o in base || RestoredBy(txs, st.undo, |txs|, o)
      {
        AppliedOutputFound(c, txs, m, rules, o);
      }
    }
  }
}
