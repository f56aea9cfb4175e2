/**
 Coins, transactions and the cached coin view of model/utxo. A view is a layer of entries over the
 global coin set; an entry remembers whether it is new (fresh) and whether it was changed (dirty).
 */
module Utxo {
  import opened Wrappers
  import opened Basics

  /** Identifiers are hashes; only their equality matters here. */
  type TxId = nat

  const OP_RETURN: Byte := 0x6a
  const MAX_SCRIPT_SIZE: nat := 10000
  const COIN: int := 100_000_000
  const MAX_MONEY: int := 21_000_000 * COIN

  predicate MoneyRange(value: int) { 0 <= value <= MAX_MONEY }

  datatype OutPoint = OutPoint(hash: TxId, index: nat)

  const NULL_OUTPOINT: OutPoint := OutPoint(0, 0xffff_ffff)

  datatype TxOut = TxOut(value: int, script: seq<Byte>) {
    /** An output that starts with OP_RETURN or is too long can never be spent. */
    predicate IsSpendable() {
      !(|script| > 0 && script[0] == OP_RETURN) && |script| <= MAX_SCRIPT_SIZE
    }
  }

  datatype Tx = Tx(id: TxId, ins: seq<OutPoint>, outs: seq<TxOut>) {
    predicate IsCoinBase() { |ins| == 1 && ins[0] == NULL_OUTPOINT }

    function ValueOutTo(k: nat): int
      requires k <= |outs|
    {
      if k == 0 then 0 else ValueOutTo(k - 1) + outs[k - 1].value
    }

    function ValueOut(): int { ValueOutTo(|outs|) }
  }

  datatype Coin = Coin(out: TxOut, height: nat, isCoinBase: bool) {
    predicate IsSpent() { out.value == -1 }
  }

  /** What Clear leaves behind. */
  const SPENT_COIN: Coin := Coin(TxOut(-1, []), 0, false)
  /** What AccessCoin answers for an outpoint the view does not hold. */
  const EMPTY_COIN: Coin := Coin(TxOut(0, []), 0, false)

  type Coins = map<OutPoint, Coin>

  datatype Entry = Entry(coin: Coin, isDirty: bool, isFresh: bool)

  type View = map<OutPoint, Entry>

  /** Every stored coin is unspent, spendable and created above the genesis block. */
  ghost predicate ValidCoins(c: Coins) {
    forall o :: o in c ==> !c[o].IsSpent() && c[o].out.IsSpendable() && c[o].height > 0
  }

  /* The operations of a view as functions of its entries */

  /** The view after looking o up: a coin found only below is copied into the view. */
  function Fetched(base: Coins, v: View, o: OutPoint): View {
    if o in v || o !in base then v else v[o := Entry(base[o], false, false)]
  }

  function Lookup(base: Coins, v: View, o: OutPoint): Option<Coin> {
    if o in v then Some(v[o].coin) else if o in base then Some(base[o]) else None
  }

  /** The coin the view itself holds, or the empty coin. */
  function Access(v: View, o: OutPoint): Coin {
    if o in v then v[o].coin else EMPTY_COIN
  }

  function Added(v: View, o: OutPoint, coin: Coin): View {
    if coin.out.IsSpendable() then v[o := Entry(coin, false, true)] else v
  }

  /** A fresh entry disappears; an entry that shadows a coin below becomes a dirty tombstone. */
  function Removed(v: View, o: OutPoint): View {
    if o !in v then v
    else if v[o].isFresh then if v[o].isDirty then v[o := Entry(SPENT_COIN, true, true)] else v - {o}
    else v[o := Entry(SPENT_COIN, true, false)]
  }

  /** Writing a view down: changed entries replace what is below, tombstones delete it. */
  function Flushed(base: Coins, v: View): Coins {
    map o | o in base.Keys + v.Keys &&
            (if o in v && (v[o].isDirty || v[o].isFresh) then !v[o].coin.IsSpent() else o in base)
      :: if o in v && (v[o].isDirty || v[o].isFresh) then v[o].coin else base[o]
  }

  /** CoinsMap: the view as the object the block code updates. */
  class CoinsMap {
    var cache: View

    constructor ()
      ensures cache == map[]
    {
      cache := map[];
    }

    method AccessCoin(o: OutPoint) returns (coin: Coin)
      ensures coin == Access(cache, o)
    {
      if o in cache {
        coin := cache[o].coin;
      } else {
        coin := EMPTY_COIN;
      }
    }

    /** Adding a spent coin is a programming error; an unspendable output is silently dropped. */
    method AddCoin(o: OutPoint, coin: Coin)
      requires !coin.IsSpent()
      modifies this
      ensures cache == Added(old(cache), o, coin)
    {
      if !coin.out.IsSpendable() {
        return;
      }
      cache := cache[o := Entry(coin, false, true)];
    }

    method SpendCoin(o: OutPoint) returns (found: bool)
      requires o in cache && cache[o].isFresh && cache[o].isDirty ==> !cache[o].coin.IsSpent()
      modifies this
      ensures found == (o in old(cache)) && cache == Removed(old(cache), o)
    {
      found := o in cache;
      if !found {
        return;
      }
      var entry := cache[o];
      if entry.isFresh {
        if entry.isDirty {
          cache := cache[o := Entry(SPENT_COIN, true, true)];
        } else {
          cache := cache - {o};
        }
      } else {
        cache := cache[o := Entry(SPENT_COIN, true, false)];
      }
    }

    method FetchCoin(base: Coins, o: OutPoint) returns (coin: Option<Coin>)
      modifies this
      ensures coin == Lookup(base, old(cache), o) && cache == Fetched(base, old(cache), o)
    {
      if o in cache {
        return Some(cache[o].coin);
      }
      if o !in base {
        return None;
      }
      cache := cache[o := Entry(base[o], false, false)];
      coin := Some(base[o]);
    }

    method SpendGlobalCoin(base: Coins, o: OutPoint) returns (coin: Option<Coin>)
      requires o in cache && cache[o].isFresh && cache[o].isDirty ==> !cache[o].coin.IsSpent()
      modifies this
      ensures coin == Lookup(base, old(cache), o) && cache == Removed(Fetched(base, old(cache), o), o)
    {
      coin := FetchCoin(base, o);
      if coin.None? {
        return;
      }
      var found := SpendCoin(o);
    }
  }

  /** The global coin set with the hash of the block it corresponds to. */
  class UtxoCache {
    var coins: Coins
    var best: nat

    /** Writes a view down entry by entry and moves the best block. */
    method UpdateCoins(view: CoinsMap, hash: nat)
      requires forall o :: o in view.cache && view.cache[o].isDirty && !view.cache[o].isFresh ==> o in coins
      modifies this, view
      ensures coins == Flushed(old(coins), old(view.cache)) && best == hash
      ensures view.cache == map[]
    {
      hide Flushed;
      ghost var all := view.cache;
      FlushNone(coins, all);
      while view.cache != map[]
        invariant view.cache.Keys <= all.Keys && view.cache == all - (all.Keys - view.cache.Keys)
        invariant coins == Flushed(old(coins), all - view.cache.Keys)
        decreases view.cache.Keys
      {
        var o :| o in view.cache;
        var entry := view.cache[o];
        FlushOne(old(coins), all, view.cache.Keys, o);
        if entry.isDirty || entry.isFresh {
          if entry.coin.IsSpent() {
            coins := coins - {o};
          } else {
            coins := coins[o := entry.coin];
          }
        }
        view.cache := view.cache - {o};
      }
      assert view.cache.Keys == {} && all - view.cache.Keys == all;
      best := hash;
    }
  }

  lemma {:induction false} FlushNone(base: Coins, all: View)
    ensures Flushed(base, all - all.Keys) == base && all - (all.Keys - all.Keys) == all
  {
  }

  /** Flushing one more entry. */
  lemma {:induction false} FlushOne(base: Coins, all: View, left: set<OutPoint>, o: OutPoint)
    requires o in left && o in all
    ensures var now := Flushed(base, all - left);
            Flushed(base, all - (left - {o})) ==
            if all[o].isDirty || all[o].isFresh then if all[o].coin.IsSpent() then now - {o} else now[o := all[o].coin]
            else now
  {
    var more := all - (left - {o});
    assert more == (all - left)[o := all[o]];
  }
}
