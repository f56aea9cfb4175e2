/**
 When undo is exact. A block whose output is already in the coin set (possible where the BIP 30 check
 is switched off) overwrites that coin, and undoing the block does not bring it back.
 */
module UndoExactness {
  import opened Wrappers
  import opened Utxo
  import opened BlockApply
  import opened BlockEffect
  import opened BlockUndo

  /** The views agree about o. */
  ghost predicate SameAt(v: View, w: View, o: OutPoint) {
    (o in v <==> o in w) && (o in v ==> v[o] == w[o])
  }

  /** o is untouched or present as a new coin; in both cases writing the view down leaves a coin at o. */
  ghost predicate Alive(v: View, o: OutPoint) {
    o in v ==> v[o].isFresh && !v[o].isDirty && !v[o].coin.IsSpent()
  }

  lemma {:induction false} FetchKeeps(base: Coins, v: View, ins: seq<OutPoint>, j: nat, o: OutPoint)
    requires j <= |ins| && FetchTo(base, v, ins, j).Some? && (o in v || forall q :: 0 <= q < j ==> ins[q] != o)
    ensures SameAt(v, FetchTo(base, v, ins, j).value, o)
  {
    if j > 0 {
      FetchKeeps(base, v, ins, j - 1, o);
    }
  }

  lemma {:induction false} SpendKeeps(v: View, ins: seq<OutPoint>, j: nat, o: OutPoint)
    requires j <= |ins| && forall q :: 0 <= q < j ==> ins[q] != o
    ensures SameAt(v, SpendTo(v, ins, j), o)
  {
    if j > 0 {
      SpendKeeps(v, ins, j - 1, o);
    }
  }

  lemma {:induction false} SpendOnce(v: View, ins: seq<OutPoint>, j: nat, q: nat)
    requires q < j <= |ins| && forall r :: 0 <= r < j && r != q ==> ins[r] != ins[q]
    ensures SameAt(SpendTo(v, ins, j), Removed(v, ins[q]), ins[q])
  {
    if j - 1 == q {
      SpendKeeps(v, ins, j - 1, ins[q]);
    } else {
      SpendOnce(v, ins, j - 1, q);
    }
  }

  /** Adding outputs leaves o alone unless o is one of them, which then is a new coin. */
  lemma {:induction false} AddKeeps(v: View, tx: Tx, height: nat, k: nat, o: OutPoint)
    requires k <= |tx.outs| && LegalOutputs(tx)
    ensures var w := AddOutsTo(v, tx, height, k);
            if o.hash == tx.id && o.index < k && tx.outs[o.index].IsSpendable()
            then o in w && Alive(w, o) else SameAt(v, w, o)
  {
    if k > 0 {
      AddKeeps(v, tx, height, k - 1, o);
      assert MoneyRange(tx.outs[k - 1].value);
    }
  }

  /** Transaction t creates o and has done so by the time i transactions are processed. */
  predicate CreatedBy(m: Mode, t: nat, i: nat) {
    m.outputsFirst || t == 0 || t < i
  }

  /** Once created, o is alive; until it is spent it is in the view exactly when created. */
  ghost predicate TrackedAt(txs: seq<Tx>, m: Mode, t: nat, o: OutPoint, i: nat, v: View)
    requires i <= |txs|
  {
    (CreatedBy(m, t, i) ==> Alive(v, o)) && (o !in InputSet(txs, i) ==> (o in v <==> CreatedBy(m, t, i)))
  }

  lemma {:induction false} TrackFirstPass(txs: seq<Tx>, m: Mode, rules: Rules, t: nat, o: OutPoint, i: nat)
    requires WellFormed(txs) && IsOutput(txs, t, o) && i <= |txs|
    ensures var v := FirstPassTo(txs, m, rules, i).view;
            if t < i && (m.outputsFirst || t == 0) then o in v && Alive(v, o) else o !in v
  {
    if i > 0 {
      TrackFirstPass(txs, m, rules, t, o, i - 1);
      AddKeeps(FirstPassTo(txs, m, rules, i - 1).view, txs[i - 1], m.height, |txs[i - 1].outs|, o);
    }
  }

  /** One transaction's lookups and spends, as seen at o. */
  lemma {:induction false} TrackSpend(base: Coins, txs: seq<Tx>, m: Mode, t: nat, o: OutPoint, i: nat, v: View)
    requires WellFormed(txs) && 1 <= i < |txs| && TrackedAt(txs, m, t, o, i, v)
    requires FetchTo(base, v, txs[i].ins, |txs[i].ins|).Some?
    ensures var w := SpendTo(FetchTo(base, v, txs[i].ins, |txs[i].ins|).value, txs[i].ins, |txs[i].ins|);
            (CreatedBy(m, t, i) ==> Alive(w, o)) && (o !in InputSet(txs, i + 1) ==> (o in w <==> CreatedBy(m, t, i)))
  {
    var ins := txs[i].ins;
    var f := FetchTo(base, v, ins, |ins|).value;
    InputsAreFresh(txs, i);
    hide FetchTo, SpendTo, WellFormed;
    if o in ins {
      var q :| 0 <= q < |ins| && ins[q] == o;
      SpendOnce(f, ins, |ins|, q);
      if o in v {
        FetchKeeps(base, v, ins, |ins|, o);
      }
    } else {
      FetchKeeps(base, v, ins, |ins|, o);
      SpendKeeps(f, ins, |ins|, o);
    }
  }

  lemma {:induction false} TrackStep(base: Coins, txs: seq<Tx>, m: Mode, rules: Rules, t: nat, o: OutPoint, i: nat,
      st: Applied)
    requires WellFormed(txs) && IsOutput(txs, t, o) && i < |txs| && TrackedAt(txs, m, t, o, i, st.view)
    requires StepTx(base, st, txs[i], m, rules).Success?
    ensures TrackedAt(txs, m, t, o, i + 1, StepTx(base, st, txs[i], m, rules).value.view)
  {
    if i > 0 {
      var tx := txs[i];
      TrackSpend(base, txs, m, t, o, i, st.view);
      var w := SpendTo(FetchTo(base, st.view, tx.ins, |tx.ins|).value, tx.ins, |tx.ins|);
      AddKeeps(w, tx, m.height, |tx.outs|, o);
      hide FetchTo, SpendTo, AddOutsTo, TxError, InputSet;
      assert t == i <==> o.hash == tx.id;
    } else {
      assert InputSet(txs, 1) == InputSet(txs, 0) == {};
    }
  }

  lemma {:induction false} TrackProcess(base: Coins, txs: seq<Tx>, m: Mode, rules: Rules, t: nat, o: OutPoint, i: nat)
    requires WellFormed(txs) && IsOutput(txs, t, o) && i <= |txs| && ProcessTo(base, txs, m, rules, i).Success?
    ensures TrackedAt(txs, m, t, o, i, ProcessTo(base, txs, m, rules, i).value.view)
  {
    hide StepTx, FirstPassTo, WellFormed;
    if i == 0 {
      TrackFirstPass(txs, m, rules, t, o, |txs|);
    } else {
      TrackProcess(base, txs, m, rules, t, o, i - 1);
      TrackStep(base, txs, m, rules, t, o, i - 1, ProcessTo(base, txs, m, rules, i - 1).value);
    }
  }

  /** After connecting, an outpoint that was in the coin set and is created again is still occupied. */
  lemma {:induction false} OverwrittenSurvives(c: Coins, txs: seq<Tx>, m: Mode, rules: Rules, o: OutPoint)
    requires WellFormed(txs) && Apply(c, txs, m, rules).Success? && o in c && o in BlockOuts(txs, m.height)
    ensures o in Flushed(c, Apply(c, txs, m, rules).value.view)
  {
    hide WellFormed, ProcessTo, IsOutput;
    OutputOf(txs, m.height, o);
    var t :| t < |txs| && IsOutput(txs, t, o);
    OutputIndex(txs, t, o);
    TrackProcess(c, txs, m, rules, t, o, |txs|);
  }

  lemma {:induction false} OutputOf(txs: seq<Tx>, height: nat, o: OutPoint)
    requires WellFormed(txs) && o in BlockOuts(txs, height)
    ensures exists t :: t < |txs| && IsOutput(txs, t, o)
  {
    OutMapKeys(txs, height, |txs|, o);
  }

  lemma {:induction false} OutputIndex(txs: seq<Tx>, t: int, o: OutPoint)
    requires IsOutput(txs, t, o)
    ensures 0 <= t < |txs|
  {
  }

  /* Undoing */

  lemma {:induction false} RestoreInsClean(base: Coins, r: Rolled, ins: seq<OutPoint>, coins: seq<Coin>, j: nat)
    requires j <= |ins| == |coins| && RestoreInsTo(base, r, ins, coins, j).Some?
    ensures var q := RestoreInsTo(base, r, ins, coins, j).value;
            (q.clean ==> r.clean && forall k :: 0 <= k < j ==> ins[k] !in base) &&
            (forall o :: o in q.view ==> o in r.view || o in ins)
  {
    if j > 0 {
      RestoreInsClean(base, r, ins, coins, j - 1);
    }
  }

  /** A clean restore found none of the inputs in the coin set, and touches nothing but inputs. */
  lemma {:induction false} RestoreClean(base: Coins, txs: seq<Tx>, undo: seq<seq<Coin>>, i: nat)
    requires WellFormed(txs) && 1 <= i <= |txs| == |undo| + 1 && RestoreTo(base, txs, undo, i).Some?
    ensures var q := RestoreTo(base, txs, undo, i).value;
            (q.clean ==> InputSet(txs, i) !! base.Keys) && q.view.Keys <= InputSet(txs, i)
  {
    if i == 1 {
      assert InputSet(txs, 1) == InputSet(txs, 0) == {};
    } else {
      hide RestoreInsTo, DistinctInputs, DistinctIds;
      RestoreClean(base, txs, undo, i - 1);
      var ins, coins := txs[i - 1].ins, undo[i - 2];
      RestoreInsClean(base, RestoreTo(base, txs, undo, i - 1).value, ins, coins, |ins|);
      assert InputSet(txs, i) == InputSet(txs, i - 1) + set o | o in ins;
    }
  }

  /** Where reverting has come with respect to o: not yet reached, or a tombstone. */
  ghost predicate RevertedAt(v: View, o: OutPoint, done: bool) {
    if done then o in v && v[o] == Entry(SPENT_COIN, true, false) else o !in v
  }

  lemma {:induction false} RevertTxAt(base: Coins, r: Rolled, tx: Tx, height: nat, k: nat, o: OutPoint, done: bool)
    requires k <= |tx.outs| && o in base && RevertedAt(r.view, o, done)
    requires done ==> o.hash != tx.id
    requires RevertTxTo(base, r, tx, height, k).Some?
    ensures var q := RevertTxTo(base, r, tx, height, k).value;
            (q.clean ==> r.clean) &&
            RevertedAt(q.view, o, done || (o.hash == tx.id && o.index < k && tx.outs[o.index].IsSpendable()))
  {
    if k > 0 {
      RevertTxAt(base, r, tx, height, k - 1, o, done);
    }
  }

  lemma {:induction false} RevertAt(base: Coins, r: Rolled, txs: seq<Tx>, height: nat, i: nat, t: nat, o: OutPoint)
    requires DistinctIds(txs) && IsOutput(txs, t, o) && i <= |txs| && o in base && o !in r.view
    requires RevertTo(base, r, txs, height, i).Some?
    ensures var q := RevertTo(base, r, txs, height, i).value;
            (q.clean ==> r.clean) && RevertedAt(q.view, o, t < i)
  {
    if i > 0 {
      hide RevertTxTo;
      RevertAt(base, r, txs, height, i - 1, t, o);
      RevertTxAt(base, RevertTo(base, r, txs, height, i - 1).value, txs[i - 1], height, |txs[i - 1].outs|, o, t < i - 1);
    }
  }

  /** Undo either complains or deletes the coin at an occupied output. */
  lemma {:induction false} UndoDropsOutput(base: Coins, txs: seq<Tx>, undo: seq<seq<Coin>>, height: nat, o: OutPoint)
    requires WellFormed(txs) && o in base && o in BlockOuts(txs, height)
    requires Undo(base, txs, undo, height).0 == DisconnectOk
    ensures o !in Flushed(base, Undo(base, txs, undo, height).1)
  {
    hide WellFormed, RestoreTo, RevertTo, IsOutput, OutMap, InputSet;
    assert txs != [] && DistinctIds(txs) by { NotEmpty(txs); }
    OutputOf(txs, height, o);
    var t :| t < |txs| && IsOutput(txs, t, o);
    OutputIndex(txs, t, o);
    var restored := RestoreTo(base, txs, undo, |txs|).value;
    RestoreClean(base, txs, undo, |txs|);
    if o in BlockIns(txs) {
      UncleanStays(base, restored, txs, height, |txs|);
    } else {
      RevertAt(base, restored, txs, height, |txs|, t, o);
    }
  }

  lemma {:induction false} NotEmpty(txs: seq<Tx>)
    requires WellFormed(txs)
    ensures txs != [] && DistinctIds(txs)
  {
  }

  lemma {:induction false} UncleanTxStays(base: Coins, r: Rolled, tx: Tx, height: nat, k: nat)
    requires k <= |tx.outs| && RevertTxTo(base, r, tx, height, k).Some? && !r.clean
    ensures !RevertTxTo(base, r, tx, height, k).value.clean
  {
    if k > 0 {
      UncleanTxStays(base, r, tx, height, k - 1);
    }
  }

  lemma {:induction false} UncleanStays(base: Coins, r: Rolled, txs: seq<Tx>, height: nat, i: nat)
    requires i <= |txs| && RevertTo(base, r, txs, height, i).Some? && !r.clean
    ensures !RevertTo(base, r, txs, height, i).value.clean
  {
    if i > 0 {
      UncleanStays(base, r, txs, height, i - 1);
      UncleanTxStays(base, RevertTo(base, r, txs, height, i - 1).value, txs[i - 1], height, |txs[i - 1].outs|);
    }
  }

  /**
   For any accepted block: undo answers DisconnectOk and restores the coin set if and only if the coin
   set held none of the block's spendable outputs.
   */
  lemma {:induction false} UndoExactIff(c: Coins, txs: seq<Tx>, m: Mode, rules: Rules)
    requires WellFormed(txs) && ValidCoins(c) && m.height > 0 && Apply(c, txs, m, rules).Success?
    ensures var st := Apply(c, txs, m, rules).value;
            var after := Flushed(c, st.view);
            var r := Undo(after, txs, st.undo, m.height);
            (r.0 == DisconnectOk && Flushed(after, r.1) == c) <==> c.Keys !! BlockOuts(txs, m.height).Keys
  {
    assert txs != [];
    hide WellFormed, ValidCoins, Apply, Undo, Flushed, BlockOuts;
    if c.Keys !! BlockOuts(txs, m.height).Keys {
      ConnectThenUndo(c, txs, m, rules);
    } else {
      var st := Apply(c, txs, m, rules).value;
      var after := Flushed(c, st.view);
      var o :| o in c.Keys && o in BlockOuts(txs, m.height).Keys;
      OverwrittenSurvives(c, txs, m, rules, o);
      if Undo(after, txs, st.undo, m.height).0 == DisconnectOk {
        UndoDropsOutput(after, txs, st.undo, m.height, o);
      }
    }
  }

  /** The historical case: a coinbase repeated where BIP 30 is off. It connects, undoes cleanly, and the old coin is gone. */
  lemma {:induction false} RepeatedCoinbaseIsLost(rules: Rules)
    ensures var o := OutPoint(7, 0);
            var c := map[o := Coin(TxOut(50, []), 1, true)];
            var txs := [Tx(7, [NULL_OUTPOINT], [TxOut(50, [])])];
            var r := Apply(c, txs, Mode(false, false, true, 50, 2, 2), rules);
            r.Success? &&
            var after := Flushed(c, r.value.view);
            Undo(after, txs, r.value.undo, 2).0 == DisconnectOk &&
            o !in Flushed(after, Undo(after, txs, r.value.undo, 2).1)
  {
    var o := OutPoint(7, 0);
    var tx := Tx(7, [NULL_OUTPOINT], [TxOut(50, [])]);
    var v := map[o := Entry(Coin(TxOut(50, []), 2, true), false, true)];
    RepeatedCoinbaseConnects(rules);
    var after := Flushed(map[o := Coin(TxOut(50, []), 1, true)], v);
    assert after == map[o := Coin(TxOut(50, []), 2, true)];
    RepeatedCoinbaseUndoes();
  }

  lemma {:induction false} RepeatedCoinbaseConnects(rules: Rules)
    ensures var o := OutPoint(7, 0);
            var tx := Tx(7, [NULL_OUTPOINT], [TxOut(50, [])]);
            Apply(map[o := Coin(TxOut(50, []), 1, true)], [tx], Mode(false, false, true, 50, 2, 2), rules)
            == Success(Applied(map[o := Entry(Coin(TxOut(50, []), 2, true), false, true)], 0, rules.coinbaseSigOps(tx), []))
  {
    var o := OutPoint(7, 0);
    var base := map[o := Coin(TxOut(50, []), 1, true)];
    var tx := Tx(7, [NULL_OUTPOINT], [TxOut(50, [])]);
    var m := Mode(false, false, true, 50, 2, 2);
    assert AddOutsTo(map[], tx, 2, 1) == Added(AddOutsTo(map[], tx, 2, 0), OutPoint(7, 0), Coin(tx.outs[0], 2, true));
    assert FirstPassTo([tx], m, rules, 0) == Applied(map[], 0, 0, []);
    var first := FirstPassTo([tx], m, rules, 1);
    assert first.view == AddOuts(map[], tx, 2);
    assert ProcessTo(base, [tx], m, rules, 0) == Success(first);
    assert ProcessTo(base, [tx], m, rules, 1) == StepTx(base, first, tx, m, rules) == Success(first);
    assert tx.ValueOutTo(1) == tx.ValueOutTo(0) + 50;
  }

  lemma {:induction false} RepeatedCoinbaseUndoes()
    ensures var o := OutPoint(7, 0);
            Undo(map[o := Coin(TxOut(50, []), 2, true)], [Tx(7, [NULL_OUTPOINT], [TxOut(50, [])])], [], 2)
            == (DisconnectOk, map[o := Entry(SPENT_COIN, true, false)])
  {
    var o := OutPoint(7, 0);
    var tx := Tx(7, [NULL_OUTPOINT], [TxOut(50, [])]);
    var base := map[o := Coin(TxOut(50, []), 2, true)];
    var r := Rolled(map[], true);
    assert RevertTxTo(base, r, tx, 2, 0) == Some(r);
    assert RevertTxTo(base, r, tx, 2, 1) == RevertOut(base, r, tx, 2, 0);
    assert RevertTo(base, r, [tx], 2, 0) == Some(r);
    assert RevertTo(base, r, [tx], 2, 1) == RevertTxTo(base, r, tx, 2, 1);
    assert RestoreTo(base, [tx], [], 1) == Some(r);
    assert Removed(Fetched(base, map[], o), o) == map[o := Entry(SPENT_COIN, true, false)];
  }
}
