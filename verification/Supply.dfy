/** The money supply: what a block adds to the total coin value, and the subsidy schedule. */
module Supply {
  import opened Wrappers
  import opened Bits
  import opened Utxo
  import opened BlockApply
  import opened BlockEffect

  /* The value of a coin set */

  ghost function Total(c: Coins): int
    decreases |c|
  {
    if c == map[] then 0
    else
      var o :| o in c;
      c[o].out.value + Total(c - {o})
  }

  lemma {:induction false} TotalWithout(c: Coins, o: OutPoint)
    requires o in c
    ensures Total(c) == c[o].out.value + Total(c - {o})
    decreases |c|
  {
    var p :| p in c && Total(c) == c[p].out.value + Total(c - {p});
    if p != o {
      TotalWithout(c - {p}, o);
      TotalWithout(c - {o}, p);
      assert c - {p} - {o} == c - {o} - {p};
    }
  }

  lemma {:induction false} TotalWith(c: Coins, o: OutPoint, coin: Coin)
    requires o !in c
    ensures Total(c[o := coin]) == Total(c) + coin.out.value
  {
    TotalWithout(c[o := coin], o);
    assert c[o := coin] - {o} == c;
  }

  lemma {:induction false} TotalOfUnion(a: Coins, b: Coins)
    requires a.Keys !! b.Keys
    ensures Total(a + b) == Total(a) + Total(b)
    decreases |b|
  {
    if b == map[] {
      assert a + b == a;
    } else {
      hide Total;
      var o :| o in b;
      var rest := b - {o};
      TotalOfUnion(a, rest);
      TotalWithout(b, o);
      UnionOneByOne(a, b, o);
      TotalWith(a + rest, o, b[o]);
    }
  }

  lemma {:induction false} UnionOneByOne(a: Coins, b: Coins, o: OutPoint)
    requires a.Keys !! b.Keys && o in b
    ensures o !in a + (b - {o}) && a + b == (a + (b - {o}))[o := b[o]]
  {
  }

  /* What the outputs add */

  /** The value of the outputs that can never be spent and so never become coins. */
  function BurnedTo(tx: Tx, k: nat): int
    requires k <= |tx.outs|
  {
    if k == 0 then 0 else BurnedTo(tx, k - 1) + if tx.outs[k - 1].IsSpendable() then 0 else tx.outs[k - 1].value
  }

  function Burned(txs: seq<Tx>, i: nat): int
    requires i <= |txs|
  {
    if i == 0 then 0 else Burned(txs, i - 1) + BurnedTo(txs[i - 1], |txs[i - 1].outs|)
  }

  function OutValue(txs: seq<Tx>, i: nat): int
    requires i <= |txs|
  {
    if i == 0 then 0 else OutValue(txs, i - 1) + txs[i - 1].ValueOut()
  }

  lemma {:induction false} BurnedNonNegative(txs: seq<Tx>, i: nat)
    requires i <= |txs| && forall t :: 0 <= t < |txs| ==> LegalOutputs(txs[t])
    ensures Burned(txs, i) >= 0
  {
    if i > 0 {
      BurnedNonNegative(txs, i - 1);
      BurnedToNonNegative(txs[i - 1], |txs[i - 1].outs|);
    }
  }

  lemma {:induction false} BurnedToNonNegative(tx: Tx, k: nat)
    requires LegalOutputs(tx) && k <= |tx.outs|
    ensures BurnedTo(tx, k) >= 0
  {
    if k > 0 {
      BurnedToNonNegative(tx, k - 1);
    }
  }

  lemma {:induction false} TxOutMapTotal(tx: Tx, height: nat, k: nat)
    requires k <= |tx.outs|
    ensures Total(TxOutMapTo(tx, height, k)) == tx.ValueOutTo(k) - BurnedTo(tx, k)
  {
    if k > 0 {
      TxOutMapTotal(tx, height, k - 1);
      TxOutMapKeys(tx, height, k - 1);
      if tx.outs[k - 1].IsSpendable() {
        TotalWith(TxOutMapTo(tx, height, k - 1), OutPoint(tx.id, k - 1), Coin(tx.outs[k - 1], height, tx.IsCoinBase()));
      }
    }
  }

  lemma {:induction false} OutMapDisjoint(txs: seq<Tx>, height: nat, i: nat)
    requires i < |txs| && DistinctIds(txs)
    ensures OutMap(txs, height, i).Keys !! TxOutMapTo(txs[i], height, |txs[i].outs|).Keys
  {
    TxOutMapKeys(txs[i], height, |txs[i].outs|);
    forall o | o in OutMap(txs, height, i)
      ensures o.hash != txs[i].id
    {
      OutMapKeys(txs, height, i, o);
    }
  }

  lemma {:induction false} OutMapTotal(txs: seq<Tx>, height: nat, i: nat)
    requires i <= |txs| && DistinctIds(txs)
    ensures Total(OutMap(txs, height, i)) == OutValue(txs, i) - Burned(txs, i)
  {
    if i > 0 {
      OutMapTotal(txs, height, i - 1);
      OutMapDisjoint(txs, height, i - 1);
      TotalOfUnion(OutMap(txs, height, i - 1), TxOutMapTo(txs[i - 1], height, |txs[i - 1].outs|));
      TxOutMapTotal(txs[i - 1], height, |txs[i - 1].outs|);
    }
  }

  /* What the inputs take away */

  function InValue(all: Coins, txs: seq<Tx>, i: nat): int
    requires i <= |txs|
  {
    if i == 0 then 0
    else if txs[i - 1].IsCoinBase() then InValue(all, txs, i - 1)
    else InValue(all, txs, i - 1) + SumValues(CoinsAt(all, txs[i - 1].ins), |txs[i - 1].ins|)
  }

  function Taken(c: Coins, ins: seq<OutPoint>, j: nat): Coins
    requires j <= |ins|
  {
    if j == 0 then c else Taken(c, ins, j - 1) - {ins[j - 1]}
  }

  lemma {:induction false} TakenKeys(c: Coins, ins: seq<OutPoint>, j: nat)
    requires j <= |ins|
    ensures forall o :: o in Taken(c, ins, j) <==> o in c && o !in ins[..j]
    ensures forall o :: o in Taken(c, ins, j) ==> Taken(c, ins, j)[o] == c[o]
  {
    if j > 0 {
      TakenKeys(c, ins, j - 1);
      assert ins[..j] == ins[..j - 1] + [ins[j - 1]];
    }
  }

  /** Spending distinct coins that are there takes exactly their values. */
  lemma {:induction false} TakenTotal(all: Coins, c: Coins, ins: seq<OutPoint>, j: nat)
    requires j <= |ins| && forall q :: 0 <= q < |ins| ==> ins[q] in c && ins[q] in all && c[ins[q]] == all[ins[q]]
    requires forall q, r :: 0 <= q < r < |ins| ==> ins[q] != ins[r]
    ensures Total(Taken(c, ins, j)) == Total(c) - SumValues(CoinsAt(all, ins), j)
  {
    if j > 0 {
      hide Total;
      TakenTotal(all, c, ins, j - 1);
      TakenKeys(c, ins, j - 1);
      TotalWithout(Taken(c, ins, j - 1), ins[j - 1]);
    }
  }

  lemma {:induction false} TakenAll(all: Coins, txs: seq<Tx>, i: nat)
    requires WellFormed(txs) && 1 <= i < |txs| && BlockIns(txs) <= all.Keys
    ensures Total(all - InputSet(txs, i + 1)) ==
            Total(all - InputSet(txs, i)) - SumValues(CoinsAt(all, txs[i].ins), |txs[i].ins|)
  {
    var ins, c := txs[i].ins, all - InputSet(txs, i);
    InputsAreFresh(txs, i);
    forall q | 0 <= q < |ins|
      ensures ins[q] in all
    {
      InputSetMeaning(txs, |txs|, ins[q]);
    }
    TakenTotal(all, c, ins, |ins|);
    TakenKeys(c, ins, |ins|);
    assert ins[..|ins|] == ins;
    assert Taken(c, ins, |ins|) == all - InputSet(txs, i + 1);
  }

  lemma {:induction false} InputsTotal(all: Coins, txs: seq<Tx>, i: nat)
    requires WellFormed(txs) && i <= |txs| && BlockIns(txs) <= all.Keys
    ensures Total(all - InputSet(txs, i)) == Total(all) - InValue(all, txs, i)
  {
    if i == 0 {
      assert all - {} == all;
    } else if i == 1 {
      assert InputSet(txs, 0) == {} && InputSet(txs, 1) == {};
      InputsTotal(all, txs, 0);
      assert InValue(all, txs, 1) == InValue(all, txs, 0);
    } else {
      InputsTotal(all, txs, i - 1);
      TakenAll(all, txs, i - 1);
    }
  }

  lemma {:induction false} FeesBalance(all: Coins, txs: seq<Tx>, i: nat)
    requires WellFormed(txs) && 1 <= i <= |txs|
    ensures FeesOf(all, txs, i) == InValue(all, txs, i) - OutValue(txs, i) + txs[0].ValueOut()
  {
    if i > 1 {
      FeesBalance(all, txs, i - 1);
    } else {
      assert InValue(all, txs, 0) == 0 && OutValue(txs, 0) == 0 && FeesOf(all, txs, 0) == 0;
    }
  }

  /* The conservation law */

  lemma {:induction false} ConnectedValue(base: Coins, txs: seq<Tx>, height: nat)
    requires Applicable(base, txs, height) && BlockIns(txs) <= (base + BlockOuts(txs, height)).Keys
    ensures var fees := FeesOf(base + BlockOuts(txs, height), txs, |txs|);
            Total(Connected(base, txs, height)) == Total(base) + txs[0].ValueOut() - fees - Burned(txs, |txs|) &&
            Burned(txs, |txs|) >= 0
  {
    assert WellFormed(txs);
    hide Total, OutMap, Burned, Applicable;
    var outs := BlockOuts(txs, height);
    var all := base + outs;
    assert base.Keys !! outs.Keys by { ApplicableIsDisjoint(base, txs, height); }
    TotalOfUnion(base, outs);
    OutMapTotal(txs, height, |txs|);
    InputsTotal(all, txs, |txs|);
    FeesBalance(all, txs, |txs|);
    BurnedNonNegative(txs, |txs|);
  }

  lemma {:induction false} ApplicableIsDisjoint(base: Coins, txs: seq<Tx>, height: nat)
    requires Applicable(base, txs, height)
    ensures base.Keys !! BlockOuts(txs, height).Keys
  {
  }

  /** A block changes the total by what its coinbase claims, less the fees, less what it burns; nothing else. */
  lemma {:induction false} BlockConservesValue(base: Coins, txs: seq<Tx>, m: Mode, rules: Rules)
    requires Applicable(base, txs, m.height) && Apply(base, txs, m, rules).Success?
    ensures var st := Apply(base, txs, m, rules).value;
            Total(Flushed(base, st.view)) == Total(base) + txs[0].ValueOut() - st.fees - Burned(txs, |txs|) &&
            Total(Flushed(base, st.view)) <= Total(base) + m.subsidy
  {
    assert txs != [];
    hide Total, Apply, Flushed, Connected, Burned, Applicable, FeesOf;
    AppliedInClosedForm(base, txs, m, rules);
    ConnectedValue(base, txs, m.height);
  }

  /* The schedule */

  const INITIAL_SUBSIDY: nat := 5_000_000_000

  /** GetBlockSubsidy */
  function Subsidy(height: nat, interval: nat): (r: nat)
    requires interval > 0
    ensures r <= INITIAL_SUBSIDY
  {
    var halvings := height / interval;
    if halvings >= 64 then 0 else Reward(halvings)
  }

  function Reward(halvings: nat): (r: nat)
    ensures r <= INITIAL_SUBSIDY
  {
    if halvings == 0 then INITIAL_SUBSIDY else Reward(halvings - 1) / 2
  }

  lemma {:induction false} RewardIsShift(halvings: nat)
    ensures Reward(halvings) == Shr(INITIAL_SUBSIDY, halvings) && INITIAL_SUBSIDY == 50 * COIN
  {
    if halvings > 0 { RewardIsShift(halvings - 1); }
  }

  /** All subsidies of heights 1 .. n. */
  function Issued(n: nat, interval: nat): nat
    requires interval > 0
  {
    if n == 0 then 0 else Issued(n - 1, interval) + Subsidy(n, interval)
  }

  /** The arithmetic of one more block: still inside the same period, or the first of the next one. */
  lemma {:induction false} NextPeriod(n: nat, interval: nat)
    requires interval > 0
    ensures ((n + 1) / interval == n / interval && (n + 1) % interval == n % interval + 1) ||
            ((n + 1) / interval == n / interval + 1 && (n + 1) % interval == 0 && n % interval == interval - 1)
  {
    var k, r := n / interval, n % interval;
    assert n == k * interval + r;
    if r + 1 < interval {
      Divides(n + 1, interval, k, r + 1);
    } else {
      assert n + 1 == (k + 1) * interval;
      Divides(n + 1, interval, k + 1, 0);
    }
  }

  lemma {:induction false} Divides(x: nat, d: nat, q: nat, r: nat)
    requires d > 0 && x == q * d + r && r < d
    ensures x / d == q && x % d == r
  {
    var e := x / d - q;
    assert (x / d) * d == e * d + q * d;
    if e != 0 {
      AtLeastOnce(e, d);
    }
  }

  lemma {:induction false} AtLeastOnce(e: int, d: int)
    requires e != 0 && d > 0
    ensures e * d >= d || e * d <= -d
  {
  }

  /** Every full period is paid for by halving twice what is left. */
  lemma {:induction false} PeriodStep(interval: nat, k: nat)
    requires interval > 0
    ensures interval * (2 * INITIAL_SUBSIDY - 2 * Reward(k)) + interval * Reward(k)
            <= interval * (2 * INITIAL_SUBSIDY - 2 * Reward(k + 1))
  {
    var a, b := 2 * INITIAL_SUBSIDY - Reward(k), 2 * INITIAL_SUBSIDY - 2 * Reward(k + 1);
    assert a <= b;
    Scaled(interval, a, b);
    Distribute(interval, 2 * INITIAL_SUBSIDY - 2 * Reward(k), Reward(k));
  }

  lemma {:induction false} Scaled(n: nat, a: int, b: int)
    requires a <= b
    ensures n * a <= n * b
  {
    assert n * b == n * a + n * (b - a);
  }

  lemma {:induction false} Distribute(n: int, a: int, b: int)
    ensures n * (a + b) == n * a + n * b
  {
  }

  lemma {:induction false} IssuedBound(n: nat, interval: nat)
    requires interval > 0
    ensures INITIAL_SUBSIDY + Issued(n, interval) <=
            interval * (2 * INITIAL_SUBSIDY - 2 * Reward(n / interval)) + (n % interval + 1) * Reward(n / interval)
  {
    if n == 0 {
      assert Reward(0) == INITIAL_SUBSIDY;
      Divides(0, interval, 0, 0);
    } else {
      IssuedBound(n - 1, interval);
      NextPeriod(n - 1, interval);
      IssuedStep(n - 1, interval);
    }
  }

  lemma {:induction false} IssuedStep(n: nat, interval: nat)
    requires interval > 0
    ensures var k, next := n / interval, (n + 1) / interval;
            interval * (2 * INITIAL_SUBSIDY - 2 * Reward(k)) + (n % interval + 1) * Reward(k) + Subsidy(n + 1, interval)
            <= interval * (2 * INITIAL_SUBSIDY - 2 * Reward(next)) + ((n + 1) % interval + 1) * Reward(next)
  {
    var k, next := n / interval, (n + 1) / interval;
    NextPeriod(n, interval);
    assert Subsidy(n + 1, interval) <= Reward(next);
    if next == k {
      Distribute(Reward(k), n % interval + 1, 1);
    } else {
      PeriodStep(interval, k);
    }
  }

  /** No number of blocks issues as much as twice one period's subsidies: with 210,000 blocks, 21 million coins. */
  lemma {:induction false} IssueIsCapped(n: nat, interval: nat)
    requires interval > 0
    ensures Issued(n, interval) < interval * (2 * INITIAL_SUBSIDY)
    ensures interval == 210_000 ==> Issued(n, interval) < MAX_MONEY
  {
    hide Issued, Reward;
    IssuedBound(n, interval);
    var r := Reward(n / interval);
    assert interval == 210_000 ==> interval * (2 * INITIAL_SUBSIDY) == MAX_MONEY;
    Scaled(r, n % interval + 1, interval);
    Distribute(interval, 2 * INITIAL_SUBSIDY - 2 * r, r);
    Scaled(interval, 2 * INITIAL_SUBSIDY - r, 2 * INITIAL_SUBSIDY);
  }
}
