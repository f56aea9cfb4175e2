/** Taking a block back with its undo record: logic/lundo. */
module BlockUndo {
  import opened Wrappers
  import opened Utxo
  import opened BlockApply
  import opened BlockEffect

  /** The three results of the source, and the nil dereference it runs into when an output is missing. */
  datatype DisconnectResult = DisconnectOk | DisconnectUnclean | DisconnectFailed | DisconnectPanic

  datatype Rolled = Rolled(view: View, clean: bool)

  /* The loops as functions of how far they have come */

  /** undoCoinSpend; fails when a record without height has nothing to take its metadata from. */
  function RestoreCoin(base: Coins, r: Rolled, o: OutPoint, undoCoin: Coin): Option<Rolled> {
    var found := Lookup(base, r.view, o).Some?;
    var w := Fetched(base, r.view, o);
    var alternate := Access(w, o);
    if undoCoin.height == 0 && alternate.IsSpent() then None
    else
      var coin := if undoCoin.height == 0 then Coin(undoCoin.out, alternate.height, alternate.isCoinBase) else undoCoin;
      Some(Rolled(Added(w, o, coin), r.clean && !found))
  }

  function RestoreInsTo(base: Coins, r: Rolled, ins: seq<OutPoint>, coins: seq<Coin>, j: nat): Option<Rolled>
    requires j <= |ins| == |coins|
  {
    if j == 0 then Some(r)
    else
      match RestoreInsTo(base, r, ins, coins, j - 1)
      case None => None
      case Some(q) => RestoreCoin(base, q, ins[j - 1], coins[j - 1])
  }

  /** Restoring the inputs of transactions 1 .. i-1. */
  function RestoreTo(base: Coins, txs: seq<Tx>, undo: seq<seq<Coin>>, i: nat): Option<Rolled>
    requires 1 <= i <= |txs| == |undo| + 1
  {
    if i == 1 then Some(Rolled(map[], true))
    else
      match RestoreTo(base, txs, undo, i - 1)
      case None => None
      case Some(q) =>
        var ins, coins := txs[i - 1].ins, undo[i - 2];
        if |coins| != |ins| then None else RestoreInsTo(base, q, ins, coins, |ins|)
  }

  /** Spending output k; None is the nil dereference. */
  function RevertOut(base: Coins, r: Rolled, tx: Tx, height: nat, k: nat): Option<Rolled>
    requires k < |tx.outs|
  {
    if !tx.outs[k].IsSpendable() then Some(r)
    else
      var o := OutPoint(tx.id, k);
      match Lookup(base, r.view, o)
      case None => None
      case Some(coin) =>
        Some(Rolled(Removed(Fetched(base, r.view, o), o),
                    r.clean && coin.out == tx.outs[k] && coin.isCoinBase == tx.IsCoinBase() && coin.height == height))
  }

  function RevertTxTo(base: Coins, r: Rolled, tx: Tx, height: nat, k: nat): Option<Rolled>
    requires k <= |tx.outs|
  {
    if k == 0 then Some(r)
    else
      match RevertTxTo(base, r, tx, height, k - 1)
      case None => None
      case Some(q) => RevertOut(base, q, tx, height, k - 1)
  }

  function RevertTo(base: Coins, r: Rolled, txs: seq<Tx>, height: nat, i: nat): Option<Rolled>
    requires i <= |txs|
  {
    if i == 0 then Some(r)
    else
      match RevertTo(base, r, txs, height, i - 1)
      case None => None
      case Some(q) => RevertTxTo(base, q, txs[i - 1], height, |txs[i - 1].outs|)
  }

  /** The result of undoing a block on a coin set, and the view to be written down. */
  function Undo(base: Coins, txs: seq<Tx>, undo: seq<seq<Coin>>, height: nat): (DisconnectResult, View) {
    if |undo| + 1 != |txs| then (DisconnectFailed, map[])
    else
      match RestoreTo(base, txs, undo, |txs|)
      case None => (DisconnectFailed, map[])
      case Some(restored) =>
        match RevertTo(base, restored, txs, height, |txs|)
        case None => (DisconnectPanic, map[])
        case Some(r) => (if r.clean then DisconnectOk else DisconnectUnclean, r.view)
  }

  /* Undo after apply */

  /** The block's inputs as the coins they were. */
  function Restored(all: Coins, txs: seq<Tx>, i: nat): Coins
    requires i <= |txs|
  {
    map o | o in InputSet(txs, i) && o in all :: all[o]
  }

  lemma {:induction false} UndoOfAt(all: Coins, txs: seq<Tx>, n: nat, i: nat)
    requires WellFormed(txs) && 1 <= i < n <= |txs|
    ensures |UndoOf(all, txs, n)| == n - 1 && UndoOf(all, txs, n)[i - 1] == CoinsAt(all, txs[i].ins)
  {
    UndoOfLength(all, txs, n - 1);
    if i < n - 1 {
      UndoOfAt(all, txs, n - 1, i);
    }
  }

  lemma {:induction false} UndoOfLength(all: Coins, txs: seq<Tx>, n: nat)
    requires WellFormed(txs) && 1 <= n <= |txs|
    ensures |UndoOf(all, txs, n)| == n - 1
  {
    if n > 1 {
      UndoOfLength(all, txs, n - 1);
    }
  }

  /** Restoring one spent coin: it is absent below and in the view, so nothing is overwritten. */
  lemma {:induction false} RestoreStep(base: Coins, a: Coins, o: OutPoint, coin: Coin)
    requires o !in base && o !in a && coin.height > 0 && coin.out.IsSpendable()
    ensures RestoreCoin(base, Rolled(Mid(base, a, {}, {}), true), o, coin)
            == Some(Rolled(Mid(base, a[o := coin], {}, {}), true))
  {
    hide Mid;
    FetchStep(base, a, {}, {}, o);
    AddStep(base, a, {}, o, coin);
    MidNotIn(base, a, o);
  }

  lemma {:induction false} MidNotIn(base: Coins, a: Coins, o: OutPoint)
    requires o !in a
    ensures o !in Mid(base, a, {}, {})
  {
  }

  function CoinMapTo(all: Coins, ins: seq<OutPoint>, j: nat): Coins
    requires j <= |ins|
  {
    if j == 0 then map[]
    else
      var m, o := CoinMapTo(all, ins, j - 1), ins[j - 1];
      if o in all then m[o := all[o]] else m
  }

  lemma {:induction false} CoinMapKeys(all: Coins, ins: seq<OutPoint>, j: nat)
    requires j <= |ins|
    ensures CoinMapTo(all, ins, j) == map o | o in SetTo(ins, j) && o in all :: all[o]
  {
    if j > 0 {
      CoinMapKeys(all, ins, j - 1);
    }
  }

  lemma {:induction false} RestoreInsStep(base: Coins, a: Coins, all: Coins, ins: seq<OutPoint>, j: nat)
    requires j <= |ins| && ValidCoins(all) && FreshInputs(ins, a.Keys)
    requires forall q :: 0 <= q < |ins| ==> ins[q] in all && ins[q] !in base
    ensures RestoreInsTo(base, Rolled(Mid(base, a, {}, {}), true), ins, CoinsAt(all, ins), j)
            == Some(Rolled(Mid(base, a + CoinMapTo(all, ins, j), {}, {}), true))
  {
    hide Mid, RestoreCoin;
    if j == 0 {
      assert a + map[] == a;
    } else {
      RestoreInsStep(base, a, all, ins, j - 1);
      var o, m := ins[j - 1], CoinMapTo(all, ins, j - 1);
      assert o !in a + m by {
        CoinMapKeys(all, ins, j - 1);
        NextIsPending(ins, a.Keys, j - 1);
      }
      RestoreStep(base, a + m, o, all[o]);
      assert CoinMapTo(all, ins, j) == m[o := all[o]];
      hide CoinMapTo, FreshInputs, ValidCoins;
      assert a + m[o := all[o]] == (a + m)[o := all[o]];
    }
  }

  lemma {:induction false} RestoredNext(all: Coins, txs: seq<Tx>, i: nat)
    requires WellFormed(txs) && 1 <= i < |txs|
    ensures Restored(all, txs, i + 1) == Restored(all, txs, i) + CoinMapTo(all, txs[i].ins, |txs[i].ins|)
  {
    CoinMapKeys(all, txs[i].ins, |txs[i].ins|);
    SetToAll(txs[i].ins);
  }

  lemma {:induction false} RestoreTxStep(all: Coins, base: Coins, txs: seq<Tx>, i: nat)
    requires WellFormed(txs) && ValidCoins(all) && 1 <= i < |txs|
    requires BlockIns(txs) <= all.Keys && BlockIns(txs) !! base.Keys
    ensures RestoreInsTo(base, Rolled(Mid(base, Restored(all, txs, i), {}, {}), true), txs[i].ins,
                         CoinsAt(all, txs[i].ins), |txs[i].ins|)
            == Some(Rolled(Mid(base, Restored(all, txs, i + 1), {}, {}), true))
  {
    hide Mid, RestoreInsTo, CoinsAt, CoinMapTo, ValidCoins, WellFormed;
    var ins, done := txs[i].ins, Restored(all, txs, i);
    InputsAreFresh(txs, i);
    InputsInBlock(txs, i);
    assert done.Keys <= InputSet(txs, i);
    RestoreInsStep(base, done, all, ins, |ins|);
    RestoredNext(all, txs, i);
  }

  lemma {:induction false} RestoreStart(all: Coins, base: Coins, txs: seq<Tx>, undo: seq<seq<Coin>>)
    requires WellFormed(txs) && |undo| + 1 == |txs|
    ensures RestoreTo(base, txs, undo, 1) == Some(Rolled(Mid(base, Restored(all, txs, 1), {}, {}), true))
  {
    assert InputSet(txs, 1) == InputSet(txs, 0) == {};
    assert Restored(all, txs, 1) == map[];
    MidEmpty(base);
  }

  /** After connecting, restoring all inputs succeeds cleanly. */
  lemma {:induction false} RestoreAll(all: Coins, base: Coins, txs: seq<Tx>, undo: seq<seq<Coin>>, i: nat)
    requires WellFormed(txs) && ValidCoins(all) && 1 <= i <= |txs|
    requires BlockIns(txs) <= all.Keys && BlockIns(txs) !! base.Keys
    requires undo == UndoOf(all, txs, |txs|)
    ensures |undo| + 1 == |txs|
    ensures RestoreTo(base, txs, undo, i) == Some(Rolled(Mid(base, Restored(all, txs, i), {}, {}), true))
  {
    hide Mid, RestoreInsTo, UndoOf, CoinsAt, ValidCoins, WellFormed, Restored, BlockIns;
    UndoOfLength(all, txs, |txs|);
    if i == 1 {
      RestoreStart(all, base, txs, undo);
    } else {
      RestoreAll(all, base, txs, undo, i - 1);
      UndoOfAt(all, txs, |txs|, i - 1);
      RestoreTxStep(all, base, txs, i - 1);
    }
  }

  lemma {:induction false} InputsInBlock(txs: seq<Tx>, i: nat)
    requires WellFormed(txs) && 1 <= i < |txs|
    ensures forall q :: 0 <= q < |txs[i].ins| ==> txs[i].ins[q] in BlockIns(txs)
  {
    forall q | 0 <= q < |txs[i].ins|
      ensures txs[i].ins[q] in BlockIns(txs)
    {
      InputSetMeaning(txs, |txs|, txs[i].ins[q]);
    }
  }

  /** Reverting one output whose coin is the one the block created. */
  lemma {:induction false} RevertStep(base: Coins, a: Coins, q: set<OutPoint>, tx: Tx, height: nat, k: nat)
    requires k < |tx.outs| && tx.outs[k].IsSpendable()
    requires var o := OutPoint(tx.id, k);
             o !in q && o in base + a && (base + a)[o] == Coin(tx.outs[k], height, tx.IsCoinBase())
    ensures RevertOut(base, Rolled(Mid(base, a, q, {}), true), tx, height, k)
            == Some(Rolled(Mid(base, a, q + {OutPoint(tx.id, k)}, {}), true))
  {
    hide Mid;
    var o := OutPoint(tx.id, k);
    FetchStep(base, a, q, {}, o);
    SpendStep(base, a, q, {} + {o}, o);
    PendingGone(base, a, q + {o}, {} + {o});
  }

  lemma {:induction false} RevertTxStep(base: Coins, a: Coins, q: set<OutPoint>, tx: Tx, height: nat, k: nat)
    requires k <= |tx.outs|
    requires forall j :: 0 <= j < |tx.outs| && tx.outs[j].IsSpendable() ==>
               var o := OutPoint(tx.id, j);
               o !in q && o in base + a && (base + a)[o] == Coin(tx.outs[j], height, tx.IsCoinBase())
    ensures RevertTxTo(base, Rolled(Mid(base, a, q, {}), true), tx, height, k)
            == Some(Rolled(Mid(base, a, q + TxOutMapTo(tx, height, k).Keys, {}), true))
  {
    hide Mid;
    if k == 0 {
      assert q + TxOutMapTo(tx, height, 0).Keys == q;
    } else {
      RevertTxStep(base, a, q, tx, height, k - 1);
      var m := TxOutMapTo(tx, height, k - 1).Keys;
      if tx.outs[k - 1].IsSpendable() {
        TxOutMapKeys(tx, height, k - 1);
        RevertStep(base, a, q + m, tx, height, k - 1);
        assert q + TxOutMapTo(tx, height, k).Keys == q + m + {OutPoint(tx.id, k - 1)};
      }
    }
  }

  /** Every created coin is either still in the coin set or among the restored inputs, unchanged. */
  lemma {:induction false} CreatedCoinsVisible(c: Coins, txs: seq<Tx>, height: nat, t: nat, j: nat)
    requires Applicable(c, txs, height) && BlockIns(txs) <= (c + BlockOuts(txs, height)).Keys
    requires t < |txs| && j < |txs[t].outs| && txs[t].outs[j].IsSpendable()
    ensures var o, all := OutPoint(txs[t].id, j), c + BlockOuts(txs, height);
            var seen := Connected(c, txs, height) + Restored(all, txs, |txs|);
            o !in OutMap(txs, height, t) &&
            o in seen && seen[o] == Coin(txs[t].outs[j], height, txs[t].IsCoinBase())
  {
    var o := OutPoint(txs[t].id, j);
    assert IsOutput(txs, t, o);
    OutMapKeys(txs, height, |txs|, o);
    OutMapKeys(txs, height, t, o);
  }

  lemma {:induction false} RevertAll(c: Coins, txs: seq<Tx>, height: nat, i: nat)
    requires Applicable(c, txs, height) && BlockIns(txs) <= (c + BlockOuts(txs, height)).Keys && i <= |txs|
    ensures var all, base := c + BlockOuts(txs, height), Connected(c, txs, height);
            var r := Restored(all, txs, |txs|);
            RevertTo(base, Rolled(Mid(base, r, {}, {}), true), txs, height, i)
            == Some(Rolled(Mid(base, r, OutMap(txs, height, i).Keys, {}), true))
  {
    hide Mid, RevertTxTo, Restored, Connected, BlockOuts, Applicable, BlockIns, TxOutMapTo;
    if i == 0 {
      assert OutMap(txs, height, 0).Keys == {};
    } else {
      RevertAll(c, txs, height, i - 1);
      var all, base := c + BlockOuts(txs, height), Connected(c, txs, height);
      var r, tx := Restored(all, txs, |txs|), txs[i - 1];
      forall j | 0 <= j < |tx.outs| && tx.outs[j].IsSpendable()
        ensures var o := OutPoint(tx.id, j);
                o !in OutMap(txs, height, i - 1).Keys && o in base + r &&
                (base + r)[o] == Coin(tx.outs[j], height, tx.IsCoinBase())
      {
        CreatedCoinsVisible(c, txs, height, i - 1, j);
      }
      RevertTxStep(base, r, OutMap(txs, height, i - 1).Keys, tx, height, |tx.outs|);
      assert OutMap(txs, height, i).Keys == OutMap(txs, height, i - 1).Keys + TxOutMapTo(tx, height, |tx.outs|).Keys;
    }
  }

  lemma {:induction false} FlushedIsOld(c: Coins, txs: seq<Tx>, height: nat)
    requires Applicable(c, txs, height) && BlockIns(txs) <= (c + BlockOuts(txs, height)).Keys
    ensures var all, base := c + BlockOuts(txs, height), Connected(c, txs, height);
            Flushed(base, Mid(base, Restored(all, txs, |txs|), BlockOuts(txs, height).Keys, {})) == c
  {
    var outs := BlockOuts(txs, height);
    var all, base := c + outs, Connected(c, txs, height);
    var r := Restored(all, txs, |txs|);
    OutMapValid(txs, height, |txs|);
    hide OutMap, InputSet, Mid, Flushed, WellFormed, BlockOuts;
    assert ValidCoins(all) && ValidCoins(base) && ValidCoins(r);
    assert outs.Keys <= base.Keys + r.Keys;
    FlushMid(base, r, outs.Keys);
    assert (base + r) - outs.Keys == c;
  }

  /**
   Undoing a block on the coin set it produced answers DisconnectOk and gives back exactly the old
   coin set, whatever the block spent of its own outputs.
   */
  lemma {:induction false} UndoIsInverse(c: Coins, txs: seq<Tx>, height: nat)
    requires Applicable(c, txs, height) && BlockIns(txs) <= (c + BlockOuts(txs, height)).Keys
    ensures var base := Connected(c, txs, height);
            var r := Undo(base, txs, UndoOf(c + BlockOuts(txs, height), txs, |txs|), height);
            r.0 == DisconnectOk && Flushed(base, r.1) == c
  {
    var all, base := c + BlockOuts(txs, height), Connected(c, txs, height);
    var undo := UndoOf(all, txs, |txs|);
    OutMapValid(txs, height, |txs|);
    assert ValidCoins(all) && txs != [];
    assert BlockIns(txs) !! base.Keys;
    hide OutMap, InputSet, Mid, Flushed, WellFormed, RestoreTo, RevertTo, UndoOf, ValidCoins;
    RestoreAll(all, base, txs, undo, |txs|);
    RevertAll(c, txs, height, |txs|);
    FlushedIsOld(c, txs, height);
  }

  /** The same for any block the node accepts, in either mode. */
  lemma {:induction false} ConnectThenUndo(c: Coins, txs: seq<Tx>, m: Mode, rules: Rules)
    requires Applicable(c, txs, m.height) && Apply(c, txs, m, rules).Success?
    ensures var st := Apply(c, txs, m, rules).value;
            var after := Flushed(c, st.view);
            var r := Undo(after, txs, st.undo, m.height);
            r.0 == DisconnectOk && Flushed(after, r.1) == c
  {
    hide Apply, Undo, Flushed, Connected, UndoOf, FeesOf;
    AppliedInClosedForm(c, txs, m, rules);
    UndoIsInverse(c, txs, m.height);
  }

  /* The loops themselves */

  /** No entry is both new and changed, and what is not new came from the coin set. */
  ghost predicate TidyOver(base: Coins, v: View) {
    Tidy(v) && forall o :: o in v && !v[o].isFresh ==> o in base
  }

  ghost predicate UnspentRecords(undo: seq<seq<Coin>>) {
    forall i, j :: 0 <= i < |undo| && 0 <= j < |undo[i]| ==> !undo[i][j].IsSpent()
  }

  method UndoCoinSpend(base: Coins, o: OutPoint, undoCoin: Coin, cm: CoinsMap) returns (res: DisconnectResult)
    requires TidyOver(base, cm.cache) && !undoCoin.IsSpent()
    modifies cm
    ensures res == match RestoreCoin(base, Rolled(old(cm.cache), true), o, undoCoin)
                   case None => DisconnectFailed
                   case Some(r) => if r.clean then DisconnectOk else DisconnectUnclean
    ensures !res.DisconnectFailed? ==>
              TidyOver(base, cm.cache) && cm.cache == RestoreCoin(base, Rolled(old(cm.cache), true), o, undoCoin).value.view
  {
    var clean := true;
    var existing := cm.FetchCoin(base, o);
    if existing.Some? {
      clean := false;
    }
    var coin := undoCoin;
    if undoCoin.height == 0 {
      var alternate := cm.AccessCoin(o);
      if alternate.IsSpent() {
        return DisconnectFailed;
      }
      coin := Coin(undoCoin.out, alternate.height, alternate.isCoinBase);
    }
    cm.AddCoin(o, coin);
    res := if clean then DisconnectOk else DisconnectUnclean;
  }

  lemma {:induction false} RestoreInsSticks(base: Coins, r: Rolled, ins: seq<OutPoint>, coins: seq<Coin>, j: nat,
      n: nat)
    requires j <= n <= |ins| == |coins| && RestoreInsTo(base, r, ins, coins, j).None?
    ensures RestoreInsTo(base, r, ins, coins, n).None?
  {
    if j < n { RestoreInsSticks(base, r, ins, coins, j, n - 1); }
  }

  lemma {:induction false} RestoreSticks(base: Coins, txs: seq<Tx>, undo: seq<seq<Coin>>, i: nat, n: nat)
    requires 1 <= i <= n <= |txs| == |undo| + 1 && RestoreTo(base, txs, undo, i).None?
    ensures RestoreTo(base, txs, undo, n).None?
  {
    if i < n { RestoreSticks(base, txs, undo, i, n - 1); }
  }

  lemma {:induction false} RevertTxSticks(base: Coins, r: Rolled, tx: Tx, height: nat, k: nat, n: nat)
    requires k <= n <= |tx.outs| && RevertTxTo(base, r, tx, height, k).None?
    ensures RevertTxTo(base, r, tx, height, n).None?
  {
    if k < n { RevertTxSticks(base, r, tx, height, k, n - 1); }
  }

  lemma {:induction false} RevertSticks(base: Coins, r: Rolled, txs: seq<Tx>, height: nat, i: nat, n: nat)
    requires i <= n <= |txs| && RevertTo(base, r, txs, height, i).None?
    ensures RevertTo(base, r, txs, height, n).None?
  {
    if i < n { RevertSticks(base, r, txs, height, i, n - 1); }
  }

  /** The inner loop over one transaction's inputs. */
  method RestoreInputs(base: Coins, ins: seq<OutPoint>, coins: seq<Coin>, cm: CoinsMap, cleanIn: bool)
    returns (failed: bool, clean: bool)
    requires TidyOver(base, cm.cache) && |coins| == |ins| && forall j :: 0 <= j < |coins| ==> !coins[j].IsSpent()
    modifies cm
    ensures failed == RestoreInsTo(base, Rolled(old(cm.cache), cleanIn), ins, coins, |ins|).None?
    ensures !failed ==> RestoreInsTo(base, Rolled(old(cm.cache), cleanIn), ins, coins, |ins|) == Some(Rolled(cm.cache, clean))
    ensures !failed ==> TidyOver(base, cm.cache)
  {
    hide TidyOver;
    clean := cleanIn;
    for j := 0 to |ins|
      invariant TidyOver(base, cm.cache)
      invariant RestoreInsTo(base, Rolled(old(cm.cache), cleanIn), ins, coins, j) == Some(Rolled(cm.cache, clean))
    {
      var res := UndoCoinSpend(base, ins[j], coins[j], cm);
      if res == DisconnectFailed {
        RestoreInsSticks(base, Rolled(old(cm.cache), cleanIn), ins, coins, j + 1, |ins|);
        return true, clean;
      }
      clean := clean && res != DisconnectUnclean;
    }
    failed := false;
  }

  /** The inner loop over one transaction's outputs. */
  method RevertOutputs(base: Coins, tx: Tx, height: nat, cm: CoinsMap, cleanIn: bool) returns (panicked: bool, clean: bool)
    requires TidyOver(base, cm.cache)
    modifies cm
    ensures panicked == RevertTxTo(base, Rolled(old(cm.cache), cleanIn), tx, height, |tx.outs|).None?
    ensures !panicked ==> RevertTxTo(base, Rolled(old(cm.cache), cleanIn), tx, height, |tx.outs|) == Some(Rolled(cm.cache, clean))
    ensures !panicked ==> TidyOver(base, cm.cache)
  {
    clean := cleanIn;
    for k := 0 to |tx.outs|
      invariant TidyOver(base, cm.cache)
      invariant RevertTxTo(base, Rolled(old(cm.cache), cleanIn), tx, height, k) == Some(Rolled(cm.cache, clean))
    {
      if !tx.outs[k].IsSpendable() {
        continue;
      }
      var coin := cm.SpendGlobalCoin(base, OutPoint(tx.id, k));
      if coin.None? {
        RevertTxSticks(base, Rolled(old(cm.cache), cleanIn), tx, height, k + 1, |tx.outs|);
        return true, clean;
      }
      if coin.value.out != tx.outs[k] || tx.IsCoinBase() != coin.value.isCoinBase || height != coin.value.height {
        clean := false;
      }
    }
    panicked := false;
  }

  /** ApplyBlockUndo: on success the coin set is rolled back and stands at the parent block. */
  method ApplyBlockUndo(undo: seq<seq<Coin>>, txs: seq<Tx>, height: nat, prevHash: nat, utxo: UtxoCache)
    returns (res: DisconnectResult)
    requires UnspentRecords(undo)
    modifies utxo
    ensures res == Undo(old(utxo.coins), txs, undo, height).0
    ensures res.DisconnectOk? || res.DisconnectUnclean? ==>
              utxo.coins == Flushed(old(utxo.coins), Undo(old(utxo.coins), txs, undo, height).1) && utxo.best == prevHash
    ensures res.DisconnectFailed? || res.DisconnectPanic? ==> utxo.coins == old(utxo.coins) && utxo.best == old(utxo.best)
  {
    if |undo| + 1 != |txs| {
      return DisconnectFailed;
    }
    hide RestoreInsTo, RevertTxTo, TidyOver, Flushed;
    var base := utxo.coins;
    var cm := new CoinsMap();
    EmptyIsTidy(base);
    var clean := true;
    for i := 1 to |txs|
      modifies cm
      invariant TidyOver(base, cm.cache)
      invariant RestoreTo(base, txs, undo, i) == Some(Rolled(cm.cache, clean))
    {
      var coins := undo[i - 1];
      if |coins| != |txs[i].ins| {
        RestoreSticks(base, txs, undo, i + 1, |txs|);
        return DisconnectFailed;
      }
      var failed;
      failed, clean := RestoreInputs(base, txs[i].ins, coins, cm, clean);
      if failed {
        RestoreSticks(base, txs, undo, i + 1, |txs|);
        return DisconnectFailed;
      }
    }
    ghost var restored := Rolled(cm.cache, clean);
    for i := 0 to |txs|
      modifies cm
      invariant TidyOver(base, cm.cache)
      invariant RevertTo(base, restored, txs, height, i) == Some(Rolled(cm.cache, clean))
    {
      var panicked;
      panicked, clean := RevertOutputs(base, txs[i], height, cm, clean);
      if panicked {
        RevertSticks(base, restored, txs, height, i + 1, |txs|);
        return DisconnectPanic;
      }
    }
    TombstonesAreBelow(base, cm.cache);
    utxo.UpdateCoins(cm, prevHash);
    res := if clean then DisconnectOk else DisconnectUnclean;
  }

  lemma {:induction false} EmptyIsTidy(base: Coins)
    ensures TidyOver(base, map[])
  {
  }

  lemma {:induction false} TombstonesAreBelow(base: Coins, v: View)
    requires TidyOver(base, v)
    ensures forall o :: o in v && v[o].isDirty && !v[o].isFresh ==> o in base
  {
  }
}
