/** The memory pool as the object its operations update (model/mempool/txmempool.go). */
module Mempool {
  import opened Wrappers
  import opened Utxo
  import opened Dag
  import opened MempoolWalk
  import opened MempoolSpec
  import opened MempoolRemoval
  import opened MempoolAdd
  import opened MempoolBlock
  import opened MempoolLimits

  /* The loops of RemoveStaged as functions of one removed entry */

  function LessAncestor(e: TxEntry, w: Weight): TxEntry { e.(anc := e.anc.Minus(w)) }

  function LessParent(e: TxEntry, x: TxId): TxEntry { e.(parents := e.parents - {x}) }

  function LessChild(e: TxEntry, x: TxId): TxEntry { e.(children := e.children - {x}) }

  function LessDescendant(e: TxEntry, gone: TxEntry): TxEntry {
    e.(descCount := e.descCount - 1, descSize := e.descSize - gone.size, descFee := e.descFee - gone.fee)
  }

  /** Lowers the ancestor totals of the given entries. */
  function LowerAncestors(m: Pool, ds: set<TxId>, w: Weight): (r: Pool)
    ensures r.Keys == m.Keys
  {
    map y | y in m :: if y in ds then LessAncestor(m[y], w) else m[y]
  }

  /** Takes x out of its children's parent links. */
  function CutFromChildren(m: Pool, x: TxId): (r: Pool)
    requires x in m
    ensures r.Keys == m.Keys
  {
    map y | y in m :: if y in m[x].children then LessParent(m[y], x) else m[y]
  }

  /** Takes x out of its parents' child links. */
  function CutFromParents(m: Pool, x: TxId): (r: Pool)
    requires x in m
    ensures r.Keys == m.Keys
  {
    map y | y in m :: if y in m[x].parents then LessChild(m[y], x) else m[y]
  }

  function LowerDescendants(m: Pool, ancestors: set<TxId>, gone: TxEntry): (r: Pool)
    ensures r.Keys == m.Keys
  {
    map y | y in m :: if y in ancestors then LessDescendant(m[y], gone) else m[y]
  }

  lemma {:induction false} MidStart(pool: Pool, rank: Rank, s: set<TxId>)
    requires Removable(pool, rank, s)
    ensures Mid(pool, rank, s, {}, {}, {}) == pool
  {
    hide Removable, LinksRight, Ranked;
    TotalOfNone(pool);
    forall y | y in pool
      ensures MidEntry(pool, rank, s, {}, {}, {}, y) == pool[y]
    {
      NothingYet(pool, rank, s, y);
    }
  }

  lemma {:induction false} NothingYet(pool: Pool, rank: Rank, s: set<TxId>, y: TxId)
    requires Removable(pool, rank, s) && y in pool
    ensures MidEntry(pool, rank, s, {}, {}, {}, y) == pool[y]
  {
    TotalOfNone(pool);
    assert AncIn(pool, rank, {}, y) == {} && Hits(pool, rank, s, {}, y) == {};
    hide AncIn, Hits, Total, Removable, LinksRight, Ranked;
    assert pool[y].anc.Minus(NOTHING) == pool[y].anc;
    assert pool[y].parents - {} == pool[y].parents && pool[y].children - {} == pool[y].children;
  }

  lemma {:induction false} MinusTwice(a: Weight, b: Weight, c: Weight)
    ensures a.Minus(b).Minus(c) == a.Minus(b.Plus(c))
  {
  }

  lemma {:induction false} AncInMore(pool: Pool, rank: Rank, d: set<TxId>, x: TxId, y: TxId)
    requires Ranked(ParentGraph(pool), rank) && y in pool && x !in d
    ensures AncIn(pool, rank, d + {x}, y) == AncIn(pool, rank, d, y) + (if x in Anc(pool, rank, y) then {x} else {})
  {
    hide Anc;
  }

  /** One round of the first loop. */
  lemma {:induction false} FirstLoopEntry(pool: Pool, rank: Rank, s: set<TxId>, d: set<TxId>, x: TxId, y: TxId)
    requires Removable(pool, rank, s) && d <= s && x in s && x !in d && y in pool
    ensures MidEntry(pool, rank, s, d + {x}, {}, {}, y) ==
            var e := MidEntry(pool, rank, s, d, {}, {}, y);
            if y in Desc(pool, rank, x) then LessAncestor(e, pool[x].Own()) else e
  {
    AncInMore(pool, rank, d, x, y);
    assert y in Desc(pool, rank, x) <==> x in Anc(pool, rank, y);
    hide Total, Hits, AncIn, Anc, Desc;
    var was := AncIn(pool, rank, d, y);
    if x in Anc(pool, rank, y) {
      TotalWith(pool, was, x);
      MinusTwice(pool[y].anc, Total(pool, was), pool[x].Own());
    } else {
      assert was + {} == was;
    }
  }

  lemma {:induction false} FirstLoopStep(pool: Pool, rank: Rank, s: set<TxId>, d: set<TxId>, x: TxId)
    requires Removable(pool, rank, s) && d <= s && x in s && x !in d
    ensures LowerAncestors(Mid(pool, rank, s, d, {}, {}), Desc(pool, rank, x), pool[x].Own()) == Mid(pool, rank, s, d + {x}, {}, {})
  {
    hide MidEntry, Desc, LessAncestor;
    forall y | y in pool
      ensures MidEntry(pool, rank, s, d + {x}, {}, {}, y) ==
              var e := MidEntry(pool, rank, s, d, {}, {}, y);
              if y in Desc(pool, rank, x) then LessAncestor(e, pool[x].Own()) else e
    {
      FirstLoopEntry(pool, rank, s, d, x, y);
    }
  }

  lemma {:induction false} MidFields(pool: Pool, rank: Rank, s: set<TxId>, d1: set<TxId>, d2: set<TxId>,
      d3: set<TxId>, y: TxId)
    requires Removable(pool, rank, s) && d1 <= s && d2 <= s && d3 <= s && y in pool
    ensures var e := Mid(pool, rank, s, d1, d2, d3)[y];
            e.tx == pool[y].tx && e.Own() == pool[y].Own() && e.size == pool[y].size && e.fee == pool[y].fee &&
            e.usage == pool[y].usage &&
            e.parents == pool[y].parents - d2 && (y in s || d3 == {} ==> e.children == pool[y].children)
  {
    hide Total, Hits, AncIn, Removable, LinksRight, Ranked;
    assert d3 == {} ==> pool[y].children - d3 == pool[y].children;
  }

  lemma {:induction false} SecondLoopEntry(pool: Pool, rank: Rank, s: set<TxId>, d1: set<TxId>, d: set<TxId>, x: TxId,
      y: TxId)
    requires Removable(pool, rank, s) && d1 <= s && d <= s && x in s && y in pool
    ensures MidEntry(pool, rank, s, d1, d + {x}, {}, y) ==
            var e := MidEntry(pool, rank, s, d1, d, {}, y);
            if y in pool[x].children then LessParent(e, x) else e
  {
    assert LinksAt(pool, x);
    hide Total, Hits, AncIn, Removable, LinksRight, Ranked;
    assert pool[y].parents - (d + {x}) == pool[y].parents - d - {x};
    assert y !in pool[x].children ==> pool[y].parents - d - {x} == pool[y].parents - d;
  }

  /** One round of the second loop. */
  lemma {:induction false} SecondLoopStep(pool: Pool, rank: Rank, s: set<TxId>, d1: set<TxId>, d: set<TxId>, x: TxId)
    requires Removable(pool, rank, s) && d1 <= s && d <= s && x in s
    ensures CutFromChildren(Mid(pool, rank, s, d1, d, {}), x) == Mid(pool, rank, s, d1, d + {x}, {})
  {
    MidFields(pool, rank, s, d1, d, {}, x);
    hide MidEntry, Removable, LessParent;
    forall y | y in pool
      ensures MidEntry(pool, rank, s, d1, d + {x}, {}, y) ==
              var e := MidEntry(pool, rank, s, d1, d, {}, y);
              if y in pool[x].children then LessParent(e, x) else e
    {
      SecondLoopEntry(pool, rank, s, d1, d, x, y);
    }
  }

  lemma {:induction false} HitsMore(pool: Pool, rank: Rank, s: set<TxId>, d: set<TxId>, x: TxId, y: TxId)
    requires Removable(pool, rank, s) && d <= s && x in s && x !in d && x in pool && pool[x].parents <= pool.Keys
    ensures Hits(pool, rank, s, d + {x}, y) ==
            Hits(pool, rank, s, d, y) + (if y in Touched(pool, rank, s, x) then {x} else {})
  {
    hide Touched, Removable, LinksRight, Ranked;
  }

  /** One round of the third loop. */
  lemma {:induction false} ThirdLoopEntry(pool: Pool, rank: Rank, s: set<TxId>, d1: set<TxId>, d: set<TxId>, x: TxId,
      y: TxId)
    requires Removable(pool, rank, s) && d1 <= s && d <= s && x in s && x !in d && y in pool && pool[x].parents <= pool.Keys
    ensures MidEntry(pool, rank, s, d1, s, d + {x}, y) ==
            var e := MidEntry(pool, rank, s, d1, s, d, y);
            var cut := if y in pool[x].parents - s then LessChild(e, x) else e;
            if y in Touched(pool, rank, s, x) then LessDescendant(cut, pool[x]) else cut
  {
    assert LinksAt(pool, y);
    HitsMore(pool, rank, s, d, x, y);
    hide Total, Hits, AncIn, Touched, Removable, LinksRight, Ranked;
    assert y !in s ==> pool[y].children - (d + {x}) == if x in pool[y].children then pool[y].children - d - {x} else pool[y].children - d;
    var was := Hits(pool, rank, s, d, y);
    if y in Touched(pool, rank, s, x) {
      TotalWith(pool, was, x);
      PlusOwn(Total(pool, was), pool[x]);
    } else {
      assert was + {} == was;
    }
  }

  lemma {:induction false} PlusOwn(t: Weight, e: TxEntry)
    ensures var r := t.Plus(e.Own()); r.count == t.count + 1 && r.size == t.size + e.size && r.fee == t.fee + e.fee
  {
  }

  lemma {:induction false} ThirdLoopAt(pool: Pool, rank: Rank, s: set<TxId>, d1: set<TxId>, d: set<TxId>, x: TxId,
      y: TxId)
    requires Removable(pool, rank, s) && d1 <= s && d <= s && x in s && x !in d && pool[x].parents <= pool.Keys && y in pool
    ensures LowerDescendants(CutFromParents(Mid(pool, rank, s, d1, s, d), x), Touched(pool, rank, s, x), pool[x])[y] ==
            Mid(pool, rank, s, d1, s, d + {x})[y]
  {
    MidFields(pool, rank, s, d1, s, d, x);
    ThirdLoopEntry(pool, rank, s, d1, d, x, y);
    hide MidEntry, Touched, Removable, LessChild, LessDescendant;
    var m := Mid(pool, rank, s, d1, s, d);
    assert CutFromParents(m, x)[y] == if y in pool[x].parents - s then LessChild(m[y], x) else m[y];
  }

  lemma {:induction false} ThirdLoopStep(pool: Pool, rank: Rank, s: set<TxId>, d1: set<TxId>, d: set<TxId>, x: TxId)
    requires Removable(pool, rank, s) && d1 <= s && d <= s && x in s && x !in d && pool[x].parents <= pool.Keys
    ensures LowerDescendants(CutFromParents(Mid(pool, rank, s, d1, s, d), x), Touched(pool, rank, s, x), pool[x]) ==
            Mid(pool, rank, s, d1, s, d + {x})
  {
    hide Mid, CutFromParents, LowerDescendants, Touched;
    var next := Mid(pool, rank, s, d1, s, d + {x});
    var lowered := LowerDescendants(CutFromParents(Mid(pool, rank, s, d1, s, d), x), Touched(pool, rank, s, x), pool[x]);
    forall y | y in pool
      ensures lowered[y] == next[y]
    {
      ThirdLoopAt(pool, rank, s, d1, d, x, y);
    }
    assert lowered.Keys == next.Keys;
  }

  /** In the third loop the ancestors found are the touched entries. */
  lemma {:induction false} ThirdLoopFinds(pool: Pool, rank: Rank, s: set<TxId>, d1: set<TxId>, d: set<TxId>, x: TxId)
    requires Removable(pool, rank, s) && d1 <= s && d <= s && x in s
    ensures var m := Mid(pool, rank, s, d1, s, d);
            ParentGraph(m) == CutGraph(pool, s) && Ranked(ParentGraph(m), rank) &&
            InputParents(m, m[x].tx) == pool[x].parents && pool[x].parents <= pool.Keys &&
            AllReached(ParentGraph(m), rank, InputParents(m, m[x].tx)) == Touched(pool, rank, s, x)
  {
    var m := Mid(pool, rank, s, d1, s, d);
    assert LinksAt(pool, x);
    CutIsRanked(pool, rank, s);
    hide Mid;
    forall y | y in pool
      ensures m[y].parents == pool[y].parents - s && m[y].tx == pool[y].tx
    {
      MidFields(pool, rank, s, d1, s, d, y);
    }
    assert ParentGraph(m) == CutGraph(pool, s);
    assert InputParents(m, m[x].tx) == InputParents(pool, pool[x].tx);
  }

  lemma {:induction false} FirstLoopFinds(pool: Pool, rank: Rank, top: nat, s: set<TxId>, d: set<TxId>, x: TxId)
    requires Removable(pool, rank, s) && RanksBelow(pool, rank, top) && d <= s && x in s
    ensures var m := Mid(pool, rank, s, d, {}, {});
            ChildGraph(m) == ChildGraph(pool) && Ranked(ChildGraph(m), Flipped(pool, rank, top)) &&
            AllReached(ChildGraph(m), Flipped(pool, rank, top), {x}) == {x} + Desc(pool, rank, x)
  {
    var m := Mid(pool, rank, s, d, {}, {});
    WalkFindsDescendants(pool, rank, top, x);
    hide Mid;
    forall y | y in pool
      ensures m[y].children == pool[y].children
    {
      MidFields(pool, rank, s, d, {}, {}, y);
    }
    assert ChildGraph(m) == ChildGraph(pool);
  }

  /* Deleting the entries */

  ghost function InsOf(pool: Pool, d: set<TxId>): set<OutPoint>
    requires d <= pool.Keys
  {
    set x, o | x in d && o in pool[x].tx.ins :: o
  }

  lemma {:induction false} UsageSplit(pool: Pool, s: set<TxId>, part: set<TxId>)
    requires s <= pool.Keys && part <= s
    ensures Usage(pool, s) == Usage(pool, part) + Usage(pool, s - part)
    decreases |part|
  {
    hide Usage;
    if part == {} {
      UsageOfNone(pool);
      assert s - part == s;
    } else {
      var x :| x in part;
      UsageWithout(pool, s, x);
      UsageWithout(pool, part, x);
      UsageSplit(pool, s - {x}, part - {x});
      assert s - {x} - (part - {x}) == s - part;
    }
  }

  lemma {:induction false} UsageOfNone(pool: Pool)
    ensures Usage(pool, {}) == 0
  {
  }

  lemma {:induction false} SurvivorIsSpender(pool: Pool, rank: Rank, s: set<TxId>, update: bool, next: Spent, y: TxId,
      o: OutPoint)
    requires Removable(pool, rank, s) && SpentRight(pool, next) && y in pool && y !in s
    requires o in AfterRemoval(pool, rank, s, update)[y].tx.ins
    ensures o in next - InsOf(pool, s) && next[o] == y
  {
    hide AfterRemoval, LinksRight, Ranked, Total;
    AfterAt(pool, rank, s, update, y);
    assert SpendsAt(pool, next, y) && forall x :: x in s ==> SpendsAt(pool, next, x);
    assert o !in InsOf(pool, s);
  }

  lemma {:induction false} SpenderIsSurvivor(pool: Pool, rank: Rank, s: set<TxId>, update: bool, next: Spent,
      o: OutPoint)
    requires Removable(pool, rank, s) && SpentRight(pool, next) && o in next && o !in InsOf(pool, s)
    ensures next[o] in AfterRemoval(pool, rank, s, update) && o in AfterRemoval(pool, rank, s, update)[next[o]].tx.ins
  {
    hide AfterRemoval, LinksRight, Ranked, Total;
    assert SpenderAt(pool, next, o);
    assert next[o] !in s;
    AfterAt(pool, rank, s, update, next[o]);
  }

  /** nextTx without the removed entries' inputs is nextTx of the survivors. */
  lemma {:induction false} SpentAfter(pool: Pool, rank: Rank, s: set<TxId>, update: bool, next: Spent)
    requires Removable(pool, rank, s) && SpentRight(pool, next)
    ensures SpentRight(AfterRemoval(pool, rank, s, update), next - InsOf(pool, s))
  {
    var after, left := AfterRemoval(pool, rank, s, update), next - InsOf(pool, s);
    hide AfterRemoval, InsOf;
    forall y | y in after
      ensures SpendsAt(after, left, y)
    {
      forall o | o in after[y].tx.ins
        ensures o in left && left[o] == y
      {
        SurvivorIsSpender(pool, rank, s, update, next, y, o);
      }
    }
    forall o | o in left
      ensures SpenderAt(after, left, o)
    {
      SpenderIsSurvivor(pool, rank, s, update, next, o);
    }
  }

  lemma {:induction false} SumsAfter(pool: Pool, rank: Rank, s: set<TxId>, update: bool, totalTxSize: int, usage: int)
    requires Removable(pool, rank, s) && SumsRight(pool, totalTxSize, usage)
    ensures SumsRight(AfterRemoval(pool, rank, s, update), totalTxSize - Total(pool, s).size, usage - Usage(pool, s))
  {
    hide AfterRemoval, Total, Usage;
    var rest := pool.Keys - s;
    TotalsAfter(pool, rank, s, update, rest);
    TotalSplit(pool, pool.Keys, s);
    PlusParts(Total(pool, s), Total(pool, rest));
    UsageSplit(pool, pool.Keys, s);
  }

  /** Any removal whatever keeps the invariant. */
  lemma {:induction false} InvariantAfterRemoval(pool: Pool, next: Spent, totalTxSize: int, usage: int, rank: Rank,
      top: nat, s: set<TxId>, update: bool)
    requires PoolInvariant(pool, next, totalTxSize, usage, rank, top) && s <= pool.Keys
    ensures PoolInvariant(AfterRemoval(pool, rank, s, update), next - InsOf(pool, s),
                          totalTxSize - Total(pool, s).size, usage - Usage(pool, s), rank, top)
  {
    hide AfterRemoval, LinksRight, SpentRight, AncestorsCovered, DescendantsCovered, SumsRight, Ranked, Total, Usage;
    LinksAfter(pool, rank, s, update);
    SpentAfter(pool, rank, s, update, next);
    AncestorsCoveredAfter(pool, rank, s, update);
    DescendantsAfter(pool, rank, s, update);
    SumsAfter(pool, rank, s, update, totalTxSize, usage);
  }

  /* Where recursive removal starts */

  predicate SpendsOutput(t: Tx, tx: Tx) {
    exists o :: o in t.ins && o.hash == tx.id && o.index < |tx.outs|
  }

  /** The transaction itself, or else the spenders of its outputs. */
  function RootsFor(pool: Pool, tx: Tx): (roots: set<TxId>)
    ensures roots <= pool.Keys
  {
    if tx.id in pool then {tx.id} else set y | y in pool && SpendsOutput(pool[y].tx, tx)
  }

  /** The entries other than tx that spend one of its first i inputs. */
  ghost function RivalsTo(pool: Pool, tx: Tx, i: nat): (r: set<TxId>)
    requires i <= |tx.ins|
    ensures r <= pool.Keys
  {
    set y | y in pool && y != tx.id && exists j :: 0 <= j < i && tx.ins[j] in pool[y].tx.ins
  }

  lemma {:induction false} AllRivals(pool: Pool, tx: Tx)
    ensures RivalsTo(pool, tx, |tx.ins|) == Rivals(pool, pool.Keys, tx) && RivalsTo(pool, tx, 0) == {}
  {
    forall y | y in Rivals(pool, pool.Keys, tx)
      ensures y in RivalsTo(pool, tx, |tx.ins|)
    {
      var o :| o in tx.ins && o in pool[y].tx.ins;
      var j :| 0 <= j < |tx.ins| && tx.ins[j] == o;
    }
  }

  /** An input has at most one spender, which is the next rival. */
  lemma {:induction false} NextRival(pool: Pool, next: Spent, tx: Tx, i: nat)
    requires SpentRight(pool, next) && i < |tx.ins|
    ensures var o := tx.ins[i];
            RivalsTo(pool, tx, i + 1) ==
            if o in next && next[o] != tx.id then RivalsTo(pool, tx, i) + {next[o]} else RivalsTo(pool, tx, i)
  {
    var o := tx.ins[i];
    forall y | y in pool && o in pool[y].tx.ins
      ensures o in next && next[o] == y
    {
      assert SpendsAt(pool, next, y);
    }
    if o in next {
      assert SpenderAt(pool, next, o);
    }
  }

  class TxMempool {
    var poolData: Pool
    var nextTx: Spent
    var totalTxSize: int
    var usageSize: int
    /** The order in which entries arrived: parents before children. */
    ghost var rank: Rank
    ghost var top: nat

    ghost predicate Valid()
      reads this
    {
      PoolInvariant(poolData, nextTx, totalTxSize, usageSize, rank, top)
    }

    /** The ancestor totals are exact. */
    ghost predicate Exact()
      reads this
    {
      Ranked(ParentGraph(poolData), rank) && AncestorsRight(poolData, rank)
    }

    constructor ()
      ensures Valid() && Exact() && poolData == map[] && nextTx == map[]
    {
      poolData, nextTx, totalTxSize, usageSize, rank, top := map[], map[], 0, 0, map[], 0;
      new;
      TotalOfNone(map[]);
      UsageOfNone(map[]);
    }

    /** The three loops over the entries to remove, each in any order. */
    method UpdateForRemoveFromMempool(s: set<TxId>, updateDescendants: bool)
      requires Removable(poolData, rank, s) && RanksBelow(poolData, rank, top)
      modifies this`poolData
      ensures poolData == Mid(old(poolData), rank, s, if updateDescendants then s else {}, s, s)
    {
      ghost var pool := poolData;
      MidStart(pool, rank, s);
      if updateDescendants {
        LowerDescendantsAncestors(pool, s);
      }
      ghost var d1 := if updateDescendants then s else {};
      CutLinksToParents(pool, s, d1);
      LowerAncestorsDescendants(pool, s, d1);
    }

    method LowerDescendantsAncestors(ghost pool: Pool, s: set<TxId>)
      requires Removable(pool, rank, s) && RanksBelow(pool, rank, top) && poolData == Mid(pool, rank, s, {}, {}, {})
      modifies this`poolData
      ensures poolData == Mid(pool, rank, s, s, {}, {})
    {
      hide Mid, Removable, RanksBelow;
      var left := s;
      assert s - left == {};
      while left != {}
        invariant left <= s && poolData == Mid(pool, rank, s, s - left, {}, {})
        decreases left
      {
        var x :| x in left;
        LowerOne(pool, s, s - left, x);
        assert s - (left - {x}) == s - left + {x};
        left := left - {x};
      }
      assert s - left == s;
    }

    method LowerOne(ghost pool: Pool, ghost s: set<TxId>, ghost d: set<TxId>, x: TxId)
      requires Removable(pool, rank, s) && RanksBelow(pool, rank, top) && d <= s && x in s && x !in d
      requires poolData == Mid(pool, rank, s, d, {}, {})
      modifies this`poolData
      ensures poolData == Mid(pool, rank, s, d + {x}, {}, {})
    {
      hide Mid, Desc, AllReached, LowerAncestors, LinksRight, Ranked, RanksBelow, Flipped, ChildGraph, ParentGraph;
      FirstLoopFinds(pool, rank, top, s, d, x);
      FirstLoopStep(pool, rank, s, d, x);
      MidFields(pool, rank, s, d, {}, {}, x);
      NotBelowItself(pool, rank, x);
      var descendants := CalculateDescendants(poolData, x, {}, Flipped(pool, rank, top));
      descendants := descendants - {x};
      assert descendants == Desc(pool, rank, x);
      poolData := LowerAncestors(poolData, descendants, poolData[x].Own());
    }

    method CutLinksToParents(ghost pool: Pool, s: set<TxId>, ghost d1: set<TxId>)
      requires Removable(pool, rank, s) && d1 <= s && poolData == Mid(pool, rank, s, d1, {}, {})
      modifies this`poolData
      ensures poolData == Mid(pool, rank, s, d1, s, {})
    {
      hide Mid, Removable, CutFromChildren;
      var left := s;
      assert s - left == {};
      assert s <= pool.Keys by { RemovableInside(pool, rank, s); }
      while left != {}
        invariant left <= s && poolData == Mid(pool, rank, s, d1, s - left, {})
        decreases left
      {
        var x :| x in left;
        SecondLoopStep(pool, rank, s, d1, s - left, x);
        poolData := CutFromChildren(poolData, x);
        assert s - (left - {x}) == s - left + {x};
        left := left - {x};
      }
      assert s - left == s;
    }

    method LowerAncestorsDescendants(ghost pool: Pool, s: set<TxId>, ghost d1: set<TxId>)
      requires Removable(pool, rank, s) && d1 <= s && poolData == Mid(pool, rank, s, d1, s, {})
      modifies this`poolData
      ensures poolData == Mid(pool, rank, s, d1, s, s)
    {
      hide Mid, Removable, CutFromParents, LowerDescendants, Touched, AllReached, InputParents, Overloaded;
      var left := s;
      assert s - left == {};
      assert s <= pool.Keys by { RemovableInside(pool, rank, s); }
      while left != {}
        invariant left <= s && poolData == Mid(pool, rank, s, d1, s, s - left)
        decreases left
      {
        var x :| x in left;
        ThirdLoopFinds(pool, rank, s, d1, s - left, x);
        ThirdLoopStep(pool, rank, s, d1, s - left, x);
        MidFields(pool, rank, s, d1, s, s - left, x);
        var entry := poolData[x];
        NeverOverloaded(poolData, rank, InputParents(poolData, entry.tx), entry.size);
        var found := CalculateMemPoolAncestors(poolData, entry.tx, entry.size, NO_LIMITS, true, rank);
        LessDescendantBy(poolData, found.value, entry, pool[x], x);
        poolData := LowerDescendants(CutFromParents(poolData, x), found.value, entry);
        assert s - (left - {x}) == s - left + {x};
        left := left - {x};
      }
      assert s - left == s;
    }

    method DelTxentry(x: TxId)
      requires x in poolData
      modifies this`poolData, this`nextTx, this`totalTxSize, this`usageSize
      ensures poolData == old(poolData) - {x} && nextTx == old(nextTx) - InsOf(old(poolData), {x})
      ensures totalTxSize == old(totalTxSize) - old(poolData)[x].size && usageSize == old(usageSize) - old(poolData)[x].usage
    {
      var entry := poolData[x];
      for i := 0 to |entry.tx.ins|
        invariant poolData == old(poolData) && nextTx == old(nextTx) - (set o | o in entry.tx.ins[..i])
        modifies this`nextTx
      {
        nextTx := nextTx - {entry.tx.ins[i]};
      }
      assert entry.tx.ins[..|entry.tx.ins|] == entry.tx.ins;
      assert InsOf(old(poolData), {x}) == set o | o in entry.tx.ins;
      usageSize := usageSize - entry.usage;
      totalTxSize := totalTxSize - entry.size;
      poolData := poolData - {x};
    }

    /** Deleting the staged entries one by one. */
    method DeleteAll(s: set<TxId>)
      requires s <= poolData.Keys
      modifies this`poolData, this`nextTx, this`totalTxSize, this`usageSize
      ensures poolData == old(poolData) - s && nextTx == old(nextTx) - InsOf(old(poolData), s)
      ensures totalTxSize == old(totalTxSize) - Total(old(poolData), s).size && usageSize == old(usageSize) - Usage(old(poolData), s)
    {
      ghost var pool := poolData;
      hide Total, Usage, InsOf;
      TotalOfNone(pool);
      UsageOfNone(pool);
      NoIns(pool);
      var left := s;
      assert s - left == {};
      while left != {}
        invariant left <= s && poolData == pool - (s - left) && nextTx == old(nextTx) - InsOf(pool, s - left)
        invariant totalTxSize == old(totalTxSize) - Total(pool, s - left).size
        invariant usageSize == old(usageSize) - Usage(pool, s - left)
        decreases left
      {
        var x :| x in left;
        DeleteStep(pool, s - left, x);
        SameIns(pool, poolData, x);
        DelTxentry(x);
        assert s - (left - {x}) == s - left + {x};
        left := left - {x};
      }
      assert s - left == s;
    }

    /** RemoveStaged: the pool after the removal, with nextTx and the sums to match. */
    method RemoveStaged(s: set<TxId>, updateDescendants: bool)
      requires Removable(poolData, rank, s) && RanksBelow(poolData, rank, top)
      modifies this`poolData, this`nextTx, this`totalTxSize, this`usageSize
      ensures poolData == AfterRemoval(old(poolData), rank, s, updateDescendants)
      ensures nextTx == old(nextTx) - InsOf(old(poolData), s)
      ensures totalTxSize == old(totalTxSize) - Total(old(poolData), s).size
      ensures usageSize == old(usageSize) - Usage(old(poolData), s)
    {
      ghost var pool := poolData;
      hide Total, Usage, InsOf, Mid;
      UpdateForRemoveFromMempool(s, updateDescendants);
      MidWeighsTheSame(pool, rank, s, if updateDescendants then s else {});
      DeleteAll(s);
    }

    /** The entries and their descendants, collected walk by walk. */
    method CollectFamilies(roots: set<TxId>) returns (all: set<TxId>)
      requires Ranked(ParentGraph(poolData), rank) && RanksBelow(poolData, rank, top) && LinksRight(poolData)
      requires roots <= poolData.Keys
      ensures all == Family(poolData, rank, roots)
    {
      hide Family, Desc, AllReached, Ranked, LinksRight, Flipped;
      NoFamily(poolData, rank);
      all := {};
      var left := roots;
      assert roots - left == {};
      while left != {}
        invariant left <= roots && all == Family(poolData, rank, roots - left)
        decreases left
      {
        var x :| x in left;
        WalkFindsDescendants(poolData, rank, top, x);
        FamilyIsClosed(poolData, rank, roots - left);
        FamilyGrows(poolData, rank, roots - left, x);
        all := CalculateDescendants(poolData, x, all, Flipped(poolData, rank, top));
        assert roots - (left - {x}) == roots - left + {x};
        left := left - {x};
      }
      assert roots - left == roots;
    }

    /** Removes entries with all their descendants; the others are left alone. */
    method RemoveFamilies(roots: set<TxId>)
      requires Valid() && roots <= poolData.Keys
      modifies this`poolData, this`nextTx, this`totalTxSize, this`usageSize
      ensures Valid() && poolData.Keys == old(poolData).Keys - Family(old(poolData), rank, roots)
      ensures LeftAlone(old(poolData), poolData) && (old(Exact()) ==> Exact())
    {
      hide PoolInvariant, RanksBelow, LinksRight, Ranked, Family, ClosedDown, LeftAlone, AncestorsRight;
      IsRemovable(poolData, nextTx, totalTxSize, usageSize, rank, top, roots);
      var all := CollectFamilies(roots);
      FamilyIsClosed(poolData, rank, roots);
      RemoveClosed(all);
    }

    method RemoveClosed(all: set<TxId>)
      requires Valid() && ClosedDown(poolData, all)
      modifies this`poolData, this`nextTx, this`totalTxSize, this`usageSize
      ensures Valid() && poolData.Keys == old(poolData).Keys - all
      ensures LeftAlone(old(poolData), poolData) && (old(Exact()) ==> Exact())
    {
      hide AfterRemoval, PoolInvariant, Removable, RanksBelow, Total, Usage, InsOf, LinksRight, Ranked, ClosedDown,
           LeftAlone, AncestorsRight;
      ClosedInside(poolData, all);
      IsRemovable(poolData, nextTx, totalTxSize, usageSize, rank, top, all);
      InvariantAfterRemoval(poolData, nextTx, totalTxSize, usageSize, rank, top, all, false);
      FamiliesLeaveAlone(poolData, rank, all);
      ghost var pool := poolData;
      RemoveStaged(all, false);
      if AncestorsRight(pool, rank) {
        AloneStaysExact(pool, rank, poolData);
      }
    }

    /** The entries removeTxRecursive starts from. */
    method RootsOf(tx: Tx) returns (roots: set<TxId>)
      requires SpentRight(poolData, nextTx)
      ensures roots == RootsFor(poolData, tx)
    {
      roots := {};
      if tx.id in poolData {
        roots := {tx.id};
      } else {
        for i := 0 to |tx.outs|
          invariant forall y :: y in roots <==>
                                exists j :: 0 <= j < i && OutPoint(tx.id, j) in nextTx && nextTx[OutPoint(tx.id, j)] == y
        {
          var o := OutPoint(tx.id, i);
          if o in nextTx {
            roots := roots + {nextTx[o]};
          }
        }
        SpendersFound(poolData, nextTx, tx, roots);
      }
    }

    /** removeTxRecursive: the transaction and its descendants go; of one not in the pool, the spenders of its outputs. */
    method RemoveTxRecursive(tx: Tx)
      requires Valid()
      modifies this`poolData, this`nextTx, this`totalTxSize, this`usageSize
      ensures Valid() && poolData.Keys == old(poolData).Keys - Family(old(poolData), rank, RootsFor(old(poolData), tx))
      ensures LeftAlone(old(poolData), poolData) && (old(Exact()) ==> Exact())
      ensures tx.id !in poolData && forall y :: y in poolData ==> !SpendsOutput(poolData[y].tx, tx)
    {
      hide PoolInvariant, Family, SpentRight, LinksRight, Ranked, LeftAlone, AncestorsRight, RootsFor, SpendsOutput;
      ghost var pool := poolData;
      SpentIsRight(poolData, nextTx, totalTxSize, usageSize, rank, top);
      var roots := RootsOf(tx);
      IsRemovable(pool, nextTx, totalTxSize, usageSize, rank, top, roots);
      RemoveFamilies(roots);
      forall y | y in poolData
        ensures !SpendsOutput(poolData[y].tx, tx) && y != tx.id
      {
        AloneIsSame(pool, poolData, y);
        SpendersAreGone(pool, rank, tx, y);
      }
    }

    /** removeConflicts: everything else that spends an input of tx goes, with its descendants. */
    method RemoveConflicts(tx: Tx)
      requires Valid()
      modifies this`poolData, this`nextTx, this`totalTxSize, this`usageSize
      ensures Valid()
      ensures poolData.Keys == old(poolData).Keys - Family(old(poolData), rank, Rivals(old(poolData), old(poolData).Keys, tx))
      ensures LeftAlone(old(poolData), poolData) && (old(Exact()) ==> Exact())
      ensures forall y, o :: y in poolData && o in poolData[y].tx.ins && o in tx.ins ==> y == tx.id
    {
      hide PoolInvariant, Family, SpentRight, LinksRight, Ranked, LeftAlone, AncestorsRight, Rivals, RivalsTo, RootsFor;
      ghost var pool, next := poolData, nextTx;
      SpentIsRight(pool, next, totalTxSize, usageSize, rank, top);
      IsRanked(pool, next, totalTxSize, usageSize, rank, top);
      AllRivals(pool, tx);
      NoFamily(pool, rank);
      AloneItself(pool, rank);
      for i := 0 to |tx.ins|
        invariant Valid() && LeftAlone(pool, poolData) && (old(Exact()) ==> Exact())
        invariant poolData.Keys == pool.Keys - Family(pool, rank, RivalsTo(pool, tx, i))
      {
        RemoveRival(tx, i, pool, next);
      }
      NoRivalsLeft(pool, rank, tx, poolData);
    }

    /** One round of removeConflicts. */
    method RemoveRival(tx: Tx, i: nat, ghost pool: Pool, ghost next: Spent)
      requires Valid() && i < |tx.ins| && Ranked(ParentGraph(pool), rank) && SpentRight(pool, next)
      requires LeftAlone(pool, poolData) && poolData.Keys == pool.Keys - Family(pool, rank, RivalsTo(pool, tx, i))
      modifies this`poolData, this`nextTx, this`totalTxSize, this`usageSize
      ensures Valid() && LeftAlone(pool, poolData) && (old(Exact()) ==> Exact())
      ensures poolData.Keys == pool.Keys - Family(pool, rank, RivalsTo(pool, tx, i + 1))
    {
      hide PoolInvariant, Family, SpentRight, LinksRight, Ranked, LeftAlone, AncestorsRight, RivalsTo, RootsFor;
      ghost var before := poolData;
      NextRival(pool, next, tx, i);
      if tx.ins[i] in nextTx {
        SpenderIsKnown(poolData, nextTx, totalTxSize, usageSize, rank, top, tx.ins[i]);
        var spender := nextTx[tx.ins[i]];
        SpenderWas(pool, next, poolData, tx.ins[i], spender);
        if spender != tx.id {
          FamilyAfterFamily(pool, rank, RivalsTo(pool, tx, i), poolData, spender);
          RootIsItself(poolData, poolData[spender].tx);
          RemoveTxRecursive(poolData[spender].tx);
          AloneAndAlone(pool, before, poolData);
        }
      } else {
        NobodySpends(poolData, nextTx, totalTxSize, usageSize, rank, top, tx.ins[i]);
        SpenderIsGone(pool, next, rank, poolData, tx, i);
      }
    }

    /**
     RemoveTxSelf for the transactions of a block, in whatever order: each goes itself, then its rivals with their
     descendants. The ancestor totals stay exact if and only if no entry that stays is cut off from an ancestor before
     that ancestor goes as a transaction of the block; that is so when parents come before their children.
     */
    method RemoveTxSelf(txs: seq<Tx>)
      requires Valid()
      modifies this`poolData, this`nextTx, this`totalTxSize, this`usageSize
      ensures Valid() && IsPart(old(poolData), poolData) && poolData.Keys == LeftAfter(old(poolData), rank, txs, |txs|)
      ensures old(Exact()) ==> (Exact() <==> TiesKept(old(poolData), rank, txs))
      ensures ParentsFirst(old(poolData), txs) ==> TiesKept(old(poolData), rank, txs)
      ensures forall i, y, o :: 0 <= i < |txs| && y in poolData && o in poolData[y].tx.ins ==> y != txs[i].id && o !in txs[i].ins
    {
      hide PoolInvariant, Taken, LeftAfter, TiesKept, ParentsFirst, CountsRight, Ranked, AncestorsRight, LinksRight;
      ghost var pool := poolData;
      IsRemovable(pool, nextTx, totalTxSize, usageSize, rank, top, {});
      NothingTaken(pool, rank, txs);
      if ParentsFirst(pool, txs) {
        ParentsFirstKeepsTies(pool, rank, txs);
      }
      TakenIsPart(pool, rank, txs, 0, poolData);
      for i := 0 to |txs|
        invariant Valid() && Taken(pool, rank, txs, i, poolData) && poolData.Keys <= pool.Keys
        invariant AncestorsRight(pool, rank) ==> CountsRight(pool, rank, txs, i, poolData)
        invariant forall j, y, o :: 0 <= j < i && y in poolData && o in poolData[y].tx.ins ==> o !in txs[j].ins
        invariant forall j :: 0 <= j < i ==> txs[j].id !in poolData
      {
        TakeOne(txs, i, pool);
      }
      TakenIsPart(pool, rank, txs, |txs|, poolData);
      if AncestorsRight(pool, rank) {
        BlockRemovalExactIff(pool, rank, txs, poolData);
      }
    }

    /** One transaction of the block: it goes itself, then its rivals. */
    method TakeOne(txs: seq<Tx>, i: nat, ghost pool: Pool)
      requires Valid() && i < |txs| && Ranked(ParentGraph(pool), rank) && Taken(pool, rank, txs, i, poolData)
      requires poolData.Keys <= pool.Keys && (AncestorsRight(pool, rank) ==> CountsRight(pool, rank, txs, i, poolData))
      modifies this`poolData, this`nextTx, this`totalTxSize, this`usageSize
      ensures Valid() && Taken(pool, rank, txs, i + 1, poolData) && poolData.Keys <= old(poolData).Keys
      ensures AncestorsRight(pool, rank) ==> CountsRight(pool, rank, txs, i + 1, poolData)
      ensures txs[i].id !in poolData
      ensures forall y :: y in poolData ==> poolData[y].tx == old(poolData)[y].tx && forall o :: o in poolData[y].tx.ins ==> o !in txs[i].ins
    {
      hide PoolInvariant, Taken, TakenSelf, LeftAfter, CountsRight, Ranked, AncestorsRight, LinksRight, LeftAlone, Family, Rivals;
      ghost var before := poolData;
      TakeSelf(txs, i, pool);
      ghost var self := poolData;
      IsRanked(self, nextTx, totalTxSize, usageSize, rank, top);
      RemoveConflicts(txs[i]);
      AloneInside(self, poolData);
      RivalsTaken(pool, rank, txs, i, self, poolData);
      if AncestorsRight(pool, rank) {
        AloneCounts(pool, rank, txs, i + 1, self, poolData);
      }
    }

    method TakeSelf(txs: seq<Tx>, i: nat, ghost pool: Pool)
      requires Valid() && i < |txs| && Ranked(ParentGraph(pool), rank) && Taken(pool, rank, txs, i, poolData)
      requires poolData.Keys <= pool.Keys && (AncestorsRight(pool, rank) ==> CountsRight(pool, rank, txs, i, poolData))
      modifies this`poolData, this`nextTx, this`totalTxSize, this`usageSize
      ensures Valid() && TakenSelf(pool, rank, txs, i, poolData) && poolData.Keys == old(poolData).Keys - {txs[i].id}
      ensures forall y :: y in poolData ==> poolData[y].tx == old(poolData)[y].tx
      ensures AncestorsRight(pool, rank) ==> CountsRight(pool, rank, txs, i + 1, poolData)
    {
      hide PoolInvariant, Taken, TakenSelf, LeftAfter, CountsRight, Ranked, AncestorsRight, LinksRight, AfterRemoval,
           Removable, RanksBelow, Total, Usage, InsOf, IsPart;
      ghost var before := poolData;
      var x := txs[i].id;
      if x in poolData {
        IsRemovable(before, nextTx, totalTxSize, usageSize, rank, top, {x});
        InvariantAfterRemoval(before, nextTx, totalTxSize, usageSize, rank, top, {x}, true);
        SurvivorsAreTheSame(before, rank, {x}, true);
        SelfLeavesPart(pool, rank, txs, i, before);
        if AncestorsRight(pool, rank) {
          CountsAfterSelf(pool, rank, txs, i, before);
        }
        RemoveStaged({x}, true);
      } else {
        SelfLeavesPart(pool, rank, txs, i, before);
        if AncestorsRight(pool, rank) {
          CountsWithoutSelf(pool, rank, txs, i, before);
        }
      }
    }

    /** expire: everything older than the time goes, with its descendants; the number of entries that went. */
    method Expire(time: int) returns (removed: nat)
      requires Valid()
      modifies this`poolData, this`nextTx, this`totalTxSize, this`usageSize
      ensures Valid() && poolData.Keys == old(poolData).Keys - Family(old(poolData), rank, OlderThan(old(poolData), time))
      ensures LeftAlone(old(poolData), poolData) && (old(Exact()) ==> Exact())
      ensures removed == |old(poolData)| - |poolData| && forall y :: y in poolData ==> poolData[y].time >= time
    {
      hide PoolInvariant, RanksBelow, LinksRight, Ranked, Family, ClosedDown, LeftAlone, AncestorsRight, OlderThan;
      ghost var pool := poolData;
      var roots := OlderThan(poolData, time);
      IsRemovable(pool, nextTx, totalTxSize, usageSize, rank, top, roots);
      var all := CollectFamilies(roots);
      FamilyIsClosed(pool, rank, roots);
      removed := |all|;
      RemoveClosed(all);
      RemovedCount(pool.Keys, all);
      YoungStay(pool, rank, poolData, time);
    }

    /** trimToSize: entries, chosen in whatever order, go with their descendants until the pool is small enough. */
    method TrimToSize(limit: int)
      requires Valid()
      modifies this`poolData, this`nextTx, this`totalTxSize, this`usageSize
      ensures Valid() && LeftAlone(old(poolData), poolData) && (old(Exact()) ==> Exact())
      ensures usageSize <= limit || poolData == map[]
      ensures poolData == old(poolData) ||
              exists before, x :: LeftAlone(old(poolData), before) && LastEviction(before, rank, limit, x, poolData)
    {
      hide PoolInvariant, Family, LeftAlone, AncestorsRight, Ranked, LastEviction;
      ghost var pool := poolData;
      IsRanked(pool, nextTx, totalTxSize, usageSize, rank, top);
      AloneItself(pool, rank);
      while poolData != map[] && usageSize > limit
        invariant Valid() && LeftAlone(pool, poolData) && (old(Exact()) ==> Exact())
        invariant poolData == pool ||
                  exists before, x :: LeftAlone(pool, before) && LastEviction(before, rank, limit, x, poolData)
        decreases poolData.Keys
      {
        ghost var before := poolData;
        var x :| x in poolData;
        IsRanked(poolData, nextTx, totalTxSize, usageSize, rank, top);
        Evicts(poolData, nextTx, totalTxSize, usageSize, rank, top, limit, x);
        RemoveFamilies({x});
        AloneAndAlone(pool, before, poolData);
      }
    }

    /**
     AddTx for a transaction that conflicts with nothing. The links come out right, and with them everything else, if
     and only if nothing in the pool spends the transaction already.
     */
    method AddTx(tx: Tx, size: nat, fee: int, sigOps: nat, usage: nat, time: int, ancestors: set<TxId>)
      requires Valid() && IsFresh(poolData, nextTx, tx)
      requires ancestors == AllReached(ParentGraph(poolData), rank, InputParents(poolData, tx))
      modifies this
      ensures LinksRight(poolData) <==> NoChild(old(poolData), tx)
      ensures NoChild(old(poolData), tx) ==> Valid() && (old(Exact()) ==> Exact())
      ensures poolData.Keys == old(poolData).Keys + {tx.id} && nextTx == SpentWith(old(nextTx), tx)
      ensures poolData[tx.id].tx == tx && poolData[tx.id].size == size && poolData[tx.id].parents == InputParents(old(poolData), tx)
      ensures poolData[tx.id].anc == poolData[tx.id].Own().Plus(Total(old(poolData), ancestors))
      ensures forall y :: y in old(poolData) ==> SameEntry(old(poolData)[y], poolData[y]) && poolData[y].anc == old(poolData)[y].anc
    {
      hide PoolInvariant, WithEntry, SpentWith, AllReached, Total, Adding, InputParents, AncestorsRight, Ranked, LinksRight, NoChild, IsFresh;
      IsRanked(poolData, nextTx, totalTxSize, usageSize, rank, top);
      ReachedInside(ParentGraph(poolData), rank, InputParents(poolData, tx));
      var above := SumUp(ancestors);
      var n := NewEntry(poolData, tx, size, fee, sigOps, usage, time, above);
      NewWeight(poolData, tx, size, fee, sigOps, usage, time, ancestors);
      IsLinking(poolData, nextTx, totalTxSize, usageSize, rank, top, n);
      LinksRightIff(poolData, nextTx, n, ancestors);
      if NoChild(poolData, tx) {
        ReadyToAdd(poolData, nextTx, totalTxSize, usageSize, rank, top, n, ancestors);
        InvariantAfterAdd(poolData, nextTx, totalTxSize, usageSize, rank, top, n, ancestors);
        if AncestorsRight(poolData, rank) {
          AncestorsWith(poolData, nextTx, rank, top, n, ancestors);
        }
      }
      assert tx.id !in poolData by { IsNew(poolData, nextTx, tx); }
      OldEntriesStay(poolData, n, ancestors);
      NewIsThere(poolData, n, ancestors);
      poolData := WithEntry(poolData, n, ancestors);
      nextTx := SpentWith(nextTx, tx);
      totalTxSize := totalTxSize + size;
      usageSize := usageSize + usage;
      rank, top := rank[tx.id := top], top + 1;
    }

    /** Accepting a transaction within limits: its ancestors are looked up, then it is added. */
    method Accept(tx: Tx, size: nat, fee: int, sigOps: nat, usage: nat, time: int, lim: Limits) returns (accepted: bool)
      requires Valid() && IsFresh(poolData, nextTx, tx)
      modifies this
      ensures NoChild(old(poolData), tx) ==> Valid() && (old(Exact()) ==> Exact())
      ensures if accepted then poolData.Keys == old(poolData).Keys + {tx.id} && poolData[tx.id].tx == tx
              else Now() == old(Now())
      ensures forall y :: y in old(poolData) ==> y in poolData && SameEntry(old(poolData)[y], poolData[y])
      ensures accepted && lim.ancestorCount.Some? && lim.ancestorCount.value >= 1 ==>
                poolData[tx.id].anc.count <= lim.ancestorCount.value
      ensures accepted ==> Fits(old(poolData), old(rank), InputParents(old(poolData), tx), size, lim)
      ensures !accepted ==> Overloaded(old(poolData), old(rank), InputParents(old(poolData), tx), size, lim)
      ensures SinglePaths(old(poolData), old(rank), InputParents(old(poolData), tx)) ==>
                (accepted <==> Fits(old(poolData), old(rank), InputParents(old(poolData), tx), size, lim))
    {
      hide PoolInvariant, AllReached, Total, AncestorsRight, LinksRight, Ranked, NoChild, IsFresh, SpentWith, Overloaded,
           SinglePaths;
      IsRanked(poolData, nextTx, totalTxSize, usageSize, rank, top);
      ghost var pool := poolData;
      var found := CalculateMemPoolAncestors(poolData, tx, size, lim, true, rank);
      if found.None? {
        StartIsReached(ParentGraph(pool), rank, InputParents(pool, tx));
        if SinglePaths(pool, rank, InputParents(pool, tx)) {
          SinglePathsDecide(pool, rank, InputParents(pool, tx), size, lim);
        }
        return false;
      }
      TotalFacts(pool, found.value);
      AddTx(tx, size, fee, sigOps, usage, time, found.value);
      PlusOwn(Total(pool, found.value), poolData[tx.id]);
      accepted := true;
    }

    ghost function Now(): Snapshot
      reads this
    {
      Snapshot(poolData, nextTx, totalTxSize, usageSize, rank, top)
    }

    method DoOp(op: PoolOp)
      requires Valid()
      modifies this
      ensures Valid() && StepOf(old(Now()), op, Now())
      ensures old(Exact()) && (op.Block? ==> TiesKept(old(poolData), old(rank), op.txs)) ==> Exact()
    {
      hide PoolInvariant, LinksRight, Ranked, LeftAlone, IsPart, AncestorsRight, Family, RootsFor, LeftAfter, TiesKept,
           OlderThan, SpentRight, NoChild, IsFresh, LastEviction, Overloaded, Fits, SinglePaths;
      match op
      case Add(tx, size, fee, sigOps, usage, time, lim) =>
        SpentIsRight(poolData, nextTx, totalTxSize, usageSize, rank, top);
        var can := CanAdd(tx);
        if can {
          IsNew(poolData, nextTx, tx);
          var accepted := Accept(tx, size, fee, sigOps, usage, time, lim);
        }
      case Recursive(tx) =>
        RemoveTxRecursive(tx);
      case Block(txs) =>
        RemoveTxSelf(txs);
      case ExpireBefore(time) =>
        var removed := Expire(time);
      case Trim(limit) =>
        TrimToSize(limit);
    }

    /** What the callers of AddTx see to, and that no child is in the pool. */
    method CanAdd(tx: Tx) returns (can: bool)
      requires SpentRight(poolData, nextTx)
      ensures can <==> Addable(poolData, nextTx, tx)
    {
      can := tx.id !in poolData && (forall o :: o in tx.ins ==> o !in nextTx && o.hash != tx.id) &&
             (forall o :: o in nextTx ==> o.hash != tx.id);
      if forall o :: o in nextTx ==> o.hash != tx.id {
        forall y, o | y in poolData && o in poolData[y].tx.ins
          ensures o.hash != tx.id
        {
          assert SpendsAt(poolData, nextTx, y);
        }
      } else {
        ghost var o :| o in nextTx && o.hash == tx.id;
        assert SpenderAt(poolData, nextTx, o);
      }
    }

    /**
     Any run of operations: every state on the way satisfies the invariant, every step does exactly what its operation
     says, and the ancestor totals are exact at the end if they were at the start and every block kept its ties.
     */
    method Run(ops: seq<PoolOp>) returns (ghost trace: seq<Snapshot>)
      requires Valid()
      modifies this
      ensures Valid() && |trace| == |ops| + 1 && trace[0] == old(Now()) && trace[|ops|] == Now()
      ensures forall k :: 0 <= k <= |ops| ==> Sound(trace[k])
      ensures forall k {:trigger trace[k]} :: 0 <= k < |ops| ==> StepOf(trace[k], ops[k], trace[k + 1])
      ensures old(Exact()) && (forall k {:trigger trace[k]} :: 0 <= k < |ops| ==> KeepsExact(trace[k], ops[k])) ==> Exact()
    {
      hide PoolInvariant, StepOf, TiesKept, Ranked, AncestorsRight;
      trace := [Now()];
      for i := 0 to |ops|
        invariant Valid() && |trace| == i + 1 && trace[0] == old(Now()) && trace[i] == Now()
        invariant forall k :: 0 <= k <= i ==> Sound(trace[k])
        invariant forall k {:trigger trace[k]} :: 0 <= k < i ==> StepOf(trace[k], ops[k], trace[k + 1])
        invariant old(Exact()) && (forall k {:trigger trace[k]} :: 0 <= k < i ==> KeepsExact(trace[k], ops[k])) ==> Exact()
      {
        ghost var before := trace;
        SoundIsRanked(Now());
        DoOp(ops[i]);
        trace := trace + [Now()];
        assert forall k :: 0 <= k <= i ==> trace[k] == before[k];
      }
    }

    /** AddTx with the ancestors looked up without limits. */
    method Offer(tx: Tx)
      requires Valid() && Addable(poolData, nextTx, tx)
      modifies this
      ensures Valid() && (old(Exact()) ==> Exact()) && poolData.Keys == old(poolData).Keys + {tx.id}
      ensures poolData[tx.id].tx == tx && nextTx == SpentWith(old(nextTx), tx)
      ensures forall y :: y in old(poolData) ==> poolData[y].tx == old(poolData)[y].tx
    {
      hide PoolInvariant, AllReached, Total, AncestorsRight, LinksRight, Ranked, NoChild, IsFresh, SpentWith, Overloaded;
      IsRanked(poolData, nextTx, totalTxSize, usageSize, rank, top);
      NeverOverloaded(poolData, rank, InputParents(poolData, tx), 1);
      var found := CalculateMemPoolAncestors(poolData, tx, 1, NO_LIMITS, true, rank);
      AddTx(tx, 1, 0, 0, 1, 0, found.value);
    }

    method SumUp(s: set<TxId>) returns (w: Weight)
      requires s <= poolData.Keys
      ensures w == Total(poolData, s)
    {
      hide Total;
      TotalOfNone(poolData);
      w := NOTHING;
      var left := s;
      assert s - left == {};
      while left != {}
        invariant left <= s && w == Total(poolData, s - left)
        decreases left
      {
        var x :| x in left;
        TotalWith(poolData, s - left, x);
        assert s - (left - {x}) == s - left + {x};
        w := w.Plus(poolData[x].Own());
        left := left - {x};
      }
      assert s - left == s;
    }
  }

  /* Runs */

  /** The pool with its bookkeeping at one moment. */
  datatype Snapshot = Snapshot(pool: Pool, next: Spent, totalTxSize: int, usage: int, rank: Rank, top: nat)

  ghost predicate Sound(s: Snapshot) {
    PoolInvariant(s.pool, s.next, s.totalTxSize, s.usage, s.rank, s.top)
  }

  lemma {:induction false} SoundIsRanked(s: Snapshot)
    requires Sound(s)
    ensures Ranked(ParentGraph(s.pool), s.rank)
  {
  }

  /** What can happen to the pool: a transaction offered, one taken out with its descendants, a block, age and size limits. */
  datatype PoolOp =
    | Add(tx: Tx, size: nat, fee: int, sigOps: nat, usage: nat, time: int, lim: Limits)
    | Recursive(tx: Tx)
    | Block(txs: seq<Tx>)
    | ExpireBefore(time: int)
    | Trim(limit: int)

  /** One operation leads from a to b. */
  ghost predicate StepOf(a: Snapshot, op: PoolOp, b: Snapshot)
    requires Sound(a)
  {
    match op
    case Add(tx, size, _, _, _, _, lim) =>
      if tx.id !in b.pool || tx.id in a.pool then
        b == a && (Addable(a.pool, a.next, tx) ==> Overloaded(a.pool, a.rank, InputParents(a.pool, tx), size, lim))
      else
        Addable(a.pool, a.next, tx) && Fits(a.pool, a.rank, InputParents(a.pool, tx), size, lim) &&
        b.pool.Keys == a.pool.Keys + {tx.id} && b.pool[tx.id].tx == tx &&
        forall y :: y in a.pool ==> SameEntry(a.pool[y], b.pool[y])
    case Recursive(tx) =>
      b.pool.Keys == a.pool.Keys - Family(a.pool, a.rank, RootsFor(a.pool, tx)) && LeftAlone(a.pool, b.pool)
    case Block(txs) => b.pool.Keys == LeftAfter(a.pool, a.rank, txs, |txs|) && IsPart(a.pool, b.pool)
    case ExpireBefore(time) =>
      b.pool.Keys == a.pool.Keys - Family(a.pool, a.rank, OlderThan(a.pool, time)) && LeftAlone(a.pool, b.pool)
    case Trim(limit) =>
      LeftAlone(a.pool, b.pool) && (b.usage <= limit || b.pool == map[]) &&
      (b.pool == a.pool ||
       exists before, x :: LeftAlone(a.pool, before) && LastEviction(before, a.rank, limit, x, b.pool))
  }

  /** The operation keeps exact ancestor totals exact. */
  ghost predicate KeepsExact(a: Snapshot, op: PoolOp) {
    op.Block? ==> Ranked(ParentGraph(a.pool), a.rank) && TiesKept(a.pool, a.rank, op.txs)
  }

  /** The pool before was too large and lost the family of x. */
  ghost predicate LastEviction(before: Pool, rank: Rank, limit: int, x: TxId, after: Pool) {
    x in before && Usage(before, before.Keys) > limit && Ranked(ParentGraph(before), rank) &&
    after.Keys == before.Keys - Family(before, rank, {x})
  }

  lemma {:induction false} Evicts(pool: Pool, next: Spent, totalTxSize: int, usage: int, rank: Rank, top: nat,
      limit: int, x: TxId)
    requires PoolInvariant(pool, next, totalTxSize, usage, rank, top) && usage > limit && x in pool
    ensures Ranked(ParentGraph(pool), rank)
    ensures forall after: Pool :: after.Keys == pool.Keys - Family(pool, rank, {x}) ==> LastEviction(pool, rank, limit, x, after)
  {
  }

  /** The entries last touched before a time. */
  function OlderThan(pool: Pool, time: int): (r: set<TxId>)
    ensures r <= pool.Keys
  {
    set x | x in pool && pool[x].time < time
  }

  lemma {:induction false} YoungStay(pool: Pool, rank: Rank, part: Pool, time: int)
    requires Ranked(ParentGraph(pool), rank) && LeftAlone(pool, part)
    requires part.Keys == pool.Keys - Family(pool, rank, OlderThan(pool, time))
    ensures forall y :: y in part ==> part[y].time >= time
  {
    forall y | y in part
      ensures part[y].time >= time
    {
      assert SameEntry(pool[y], part[y]);
    }
  }

  lemma {:induction false} RemovedCount(keys: set<TxId>, all: set<TxId>)
    requires all <= keys
    ensures |all| == |keys| - |keys - all|
  {
    assert all + (keys - all) == keys;
  }

  lemma {:induction false} SpentIsRight(pool: Pool, next: Spent, totalTxSize: int, usage: int, rank: Rank, top: nat)
    requires PoolInvariant(pool, next, totalTxSize, usage, rank, top)
    ensures SpentRight(pool, next)
  {
  }

  lemma {:induction false} SpendersFound(pool: Pool, next: Spent, tx: Tx, roots: set<TxId>)
    requires SpentRight(pool, next) && tx.id !in pool
    requires forall y :: y in roots <==>
                         exists j :: 0 <= j < |tx.outs| && OutPoint(tx.id, j) in next && next[OutPoint(tx.id, j)] == y
    ensures roots == RootsFor(pool, tx)
  {
    forall y | y in roots
      ensures y in pool && SpendsOutput(pool[y].tx, tx)
    {
      var j :| 0 <= j < |tx.outs| && OutPoint(tx.id, j) in next && next[OutPoint(tx.id, j)] == y;
      assert SpenderAt(pool, next, OutPoint(tx.id, j));
    }
    forall y | y in pool && SpendsOutput(pool[y].tx, tx)
      ensures y in roots
    {
      var o :| o in pool[y].tx.ins && o.hash == tx.id && o.index < |tx.outs|;
      assert SpendsAt(pool, next, y) && o == OutPoint(tx.id, o.index);
    }
  }

  /** No survivor of a recursive removal spends an output of the transaction. */
  lemma {:induction false} SpendersAreGone(pool: Pool, rank: Rank, tx: Tx, y: TxId)
    requires Ranked(ParentGraph(pool), rank) && LinksRight(pool) && y in pool
    requires y !in Family(pool, rank, RootsFor(pool, tx))
    ensures !SpendsOutput(pool[y].tx, tx) && y != tx.id
  {
    if SpendsOutput(pool[y].tx, tx) && tx.id in pool {
      assert LinksAt(pool, y) && tx.id in InputParents(pool, pool[y].tx);
      AboveLeavesClosed(ParentGraph(pool), rank, {tx.id}, y);
    }
  }

  lemma {:induction false} AloneIsSame(pool: Pool, part: Pool, y: TxId)
    requires LeftAlone(pool, part) && y in part
    ensures y in pool && part[y].tx == pool[y].tx
  {
    assert SameEntry(pool[y], part[y]);
  }

  lemma {:induction false} AloneInside(pool: Pool, part: Pool)
    requires LeftAlone(pool, part)
    ensures part.Keys <= pool.Keys && forall y :: y in part ==> part[y].tx == pool[y].tx
  {
    forall y | y in part
      ensures part[y].tx == pool[y].tx
    {
      AloneIsSame(pool, part, y);
    }
  }

  lemma {:induction false} AloneItself(pool: Pool, rank: Rank)
    requires Ranked(ParentGraph(pool), rank)
    ensures LeftAlone(pool, pool)
  {
    PartOfItself(pool, rank);
  }

  lemma {:induction false} RootIsItself(pool: Pool, tx: Tx)
    requires tx.id in pool
    ensures RootsFor(pool, tx) == {tx.id}
  {
  }

  /** The spender of an input is who it was before the first removal. */
  lemma {:induction false} SpenderWas(pool: Pool, next: Spent, part: Pool, o: OutPoint, y: TxId)
    requires SpentRight(pool, next) && LeftAlone(pool, part) && y in part && o in part[y].tx.ins
    ensures o in next && next[o] == y
  {
    AloneIsSame(pool, part, y);
    assert SpendsAt(pool, next, y);
  }

  /** When nobody spends the input any more, whoever did went with an earlier rival. */
  lemma {:induction false} SpenderIsGone(pool: Pool, next: Spent, rank: Rank, part: Pool, tx: Tx, i: nat)
    requires Ranked(ParentGraph(pool), rank) && SpentRight(pool, next) && LeftAlone(pool, part) && i < |tx.ins|
    requires part.Keys == pool.Keys - Family(pool, rank, RivalsTo(pool, tx, i))
    requires forall y :: y in part ==> tx.ins[i] !in part[y].tx.ins
    ensures Family(pool, rank, RivalsTo(pool, tx, i + 1)) == Family(pool, rank, RivalsTo(pool, tx, i))
  {
    hide Family, Ranked, RivalsTo;
    var o := tx.ins[i];
    NextRival(pool, next, tx, i);
    if o in next && next[o] != tx.id {
      assert SpenderAt(pool, next, o);
      if next[o] in part {
        AloneIsSame(pool, part, next[o]);
      }
      FamilyAbsorbs(pool, rank, RivalsTo(pool, tx, i), next[o]);
    }
  }

  lemma {:induction false} NoRivalsLeft(pool: Pool, rank: Rank, tx: Tx, part: Pool)
    requires Ranked(ParentGraph(pool), rank) && LeftAlone(pool, part)
    requires part.Keys == pool.Keys - Family(pool, rank, Rivals(pool, pool.Keys, tx))
    ensures forall y, o :: y in part && o in part[y].tx.ins && o in tx.ins ==> y == tx.id
  {
    forall y, o | y in part && o in part[y].tx.ins && o in tx.ins
      ensures y == tx.id
    {
      AloneIsSame(pool, part, y);
    }
  }

  lemma {:induction false} TakenIsPart(pool: Pool, rank: Rank, txs: seq<Tx>, i: nat, part: Pool)
    requires Ranked(ParentGraph(pool), rank) && i <= |txs| && Taken(pool, rank, txs, i, part)
    ensures IsPart(pool, part) && part.Keys == LeftAfter(pool, rank, txs, i) && part.Keys <= pool.Keys
  {
  }

  lemma {:induction false} AloneCounts(pool: Pool, rank: Rank, txs: seq<Tx>, i: nat, self: Pool, part: Pool)
    requires Ranked(ParentGraph(pool), rank) && i <= |txs| && self.Keys <= pool.Keys
    requires LeftAlone(self, part) && CountsRight(pool, rank, txs, i, self)
    ensures part.Keys <= pool.Keys && CountsRight(pool, rank, txs, i, part)
  {
    hide Counted, Total, Ranked;
    forall y | y in part
      ensures CountAt(pool, rank, txs, i, part, y)
    {
      assert CountAt(pool, rank, txs, i, self, y);
    }
  }

  lemma {:induction false} CountsAfterSelf(pool: Pool, rank: Rank, txs: seq<Tx>, i: nat, part: Pool)
    requires Ranked(ParentGraph(pool), rank) && i < |txs| && Taken(pool, rank, txs, i, part) && part.Keys <= pool.Keys
    requires txs[i].id in part && Removable(part, rank, {txs[i].id}) && CountsRight(pool, rank, txs, i, part)
    ensures CountsRight(pool, rank, txs, i + 1, AfterRemoval(part, rank, {txs[i].id}, true))
  {
    hide Counted, Total, Ranked, AfterRemoval, Taken, Removable;
    var after := AfterRemoval(part, rank, {txs[i].id}, true);
    forall y | y in after
      ensures CountAt(pool, rank, txs, i + 1, after, y)
    {
      assert CountAt(pool, rank, txs, i, part, y);
      SelfCounts(pool, rank, txs, i, part, y);
    }
  }

  lemma {:induction false} CountsWithoutSelf(pool: Pool, rank: Rank, txs: seq<Tx>, i: nat, part: Pool)
    requires Ranked(ParentGraph(pool), rank) && i < |txs| && Taken(pool, rank, txs, i, part) && part.Keys <= pool.Keys
    requires txs[i].id !in part && CountsRight(pool, rank, txs, i, part)
    ensures CountsRight(pool, rank, txs, i + 1, part)
  {
    hide Counted, Total, Ranked, LeftAfter;
    forall y | y in part
      ensures CountAt(pool, rank, txs, i + 1, part, y)
    {
      assert CountAt(pool, rank, txs, i, part, y);
      AbsentCounts(pool, rank, txs, i, y);
    }
  }

  lemma {:induction false} SurvivorsAreTheSame(pool: Pool, rank: Rank, s: set<TxId>, update: bool)
    requires Removable(pool, rank, s)
    ensures forall y :: y in AfterRemoval(pool, rank, s, update) ==> AfterRemoval(pool, rank, s, update)[y].tx == pool[y].tx
  {
    var after := AfterRemoval(pool, rank, s, update);
    hide AfterRemoval;
    forall y | y in after
      ensures after[y].tx == pool[y].tx
    {
      AfterAt(pool, rank, s, update, y);
    }
  }

  lemma {:induction false} OldEntriesStay(pool: Pool, n: TxEntry, ancestors: set<TxId>)
    requires n.tx.id !in pool
    ensures forall y :: y in pool ==> SameEntry(pool[y], WithEntry(pool, n, ancestors)[y]) &&
                                      WithEntry(pool, n, ancestors)[y].anc == pool[y].anc
  {
    var after := WithEntry(pool, n, ancestors);
    hide WithEntry;
    forall y | y in pool
      ensures SameEntry(pool[y], after[y]) && after[y].anc == pool[y].anc
    {
      JoinedAt(pool, n, ancestors, y);
    }
  }

  lemma {:induction false} IsLinking(pool: Pool, next: Spent, totalTxSize: int, usage: int, rank: Rank, top: nat,
      n: TxEntry)
    requires PoolInvariant(pool, next, totalTxSize, usage, rank, top) && IsFresh(pool, next, n.tx)
    requires n.parents == InputParents(pool, n.tx) && n.children == {}
    ensures Linking(pool, next, n)
  {
  }

  lemma {:induction false} SpenderIsKnown(pool: Pool, next: Spent, totalTxSize: int, usage: int, rank: Rank, top: nat,
      o: OutPoint)
    requires PoolInvariant(pool, next, totalTxSize, usage, rank, top) && o in next
    ensures next[o] in pool && pool[next[o]].tx.id == next[o] && o in pool[next[o]].tx.ins
    ensures forall y :: y in pool && o in pool[y].tx.ins ==> y == next[o]
  {
    assert SpenderAt(pool, next, o);
    assert LinksAt(pool, next[o]);
    forall y | y in pool && o in pool[y].tx.ins
      ensures y == next[o]
    {
      assert SpendsAt(pool, next, y);
    }
  }

  lemma {:induction false} NobodySpends(pool: Pool, next: Spent, totalTxSize: int, usage: int, rank: Rank, top: nat,
      o: OutPoint)
    requires PoolInvariant(pool, next, totalTxSize, usage, rank, top) && o !in next
    ensures forall y :: y in pool ==> o !in pool[y].tx.ins
  {
    forall y | y in pool
      ensures o !in pool[y].tx.ins
    {
      assert SpendsAt(pool, next, y);
    }
  }

  lemma {:induction false} IsRemovable(pool: Pool, next: Spent, totalTxSize: int, usage: int, rank: Rank, top: nat,
      s: set<TxId>)
    requires PoolInvariant(pool, next, totalTxSize, usage, rank, top) && s <= pool.Keys
    ensures Removable(pool, rank, s) && RanksBelow(pool, rank, top) && Ranked(ParentGraph(pool), rank) && LinksRight(pool)
  {
  }

  lemma {:induction false} ClosedInside(pool: Pool, s: set<TxId>)
    requires ClosedDown(pool, s)
    ensures s <= pool.Keys
  {
  }

  lemma {:induction false} ReadyToAdd(pool: Pool, next: Spent, totalTxSize: int, usage: int, rank: Rank, top: nat,
      n: TxEntry, ancestors: set<TxId>)
    requires PoolInvariant(pool, next, totalTxSize, usage, rank, top) && Addable(pool, next, n.tx)
    requires n.parents == InputParents(pool, n.tx) && n.children == {}
    requires ancestors == AllReached(ParentGraph(pool), rank, n.parents)
    ensures Adding(pool, next, rank, top, n, ancestors) && ancestors <= pool.Keys
  {
    hide LinksRight, SpentRight, AncestorsCovered, DescendantsCovered, SumsRight, Ranked, RanksBelow;
  }

  lemma {:induction false} ReachedInside(g: Graph, rank: Rank, start: set<Node>)
    requires Ranked(g, rank) && start <= g.Keys
    ensures AllReached(g, rank, start) <= g.Keys
  {
  }

  lemma {:induction false} IsNew(pool: Pool, next: Spent, tx: Tx)
    requires IsFresh(pool, next, tx)
    ensures tx.id !in pool
  {
  }

  lemma {:induction false} NewWeight(pool: Pool, tx: Tx, size: nat, fee: int, sigOps: nat, usage: nat, time: int,
      ancestors: set<TxId>)
    requires ancestors <= pool.Keys
    ensures var n := NewEntry(pool, tx, size, fee, sigOps, usage, time, Total(pool, ancestors));
            n.anc == n.Own().Plus(Total(pool, ancestors)) && n.anc.count == 1 + |ancestors|
  {
    TotalFacts(pool, ancestors);
    hide Total;
  }

  lemma {:induction false} IsRanked(pool: Pool, next: Spent, totalTxSize: int, usage: int, rank: Rank, top: nat)
    requires PoolInvariant(pool, next, totalTxSize, usage, rank, top)
    ensures Ranked(ParentGraph(pool), rank)
  {
  }

  lemma {:induction false} NoIns(pool: Pool)
    ensures InsOf(pool, {}) == {}
  {
  }

  lemma {:induction false} DeleteStep(pool: Pool, d: set<TxId>, x: TxId)
    requires d <= pool.Keys && x in pool && x !in d
    ensures Total(pool, d + {x}).size == Total(pool, d).size + pool[x].size
    ensures Usage(pool, d + {x}) == Usage(pool, d) + pool[x].usage
    ensures InsOf(pool, d + {x}) == InsOf(pool, d) + InsOf(pool, {x})
  {
    hide Total, Usage;
    TotalWith(pool, d, x);
    PlusOwn(Total(pool, d), pool[x]);
    UsageWithout(pool, d + {x}, x);
    assert d + {x} - {x} == d;
  }

  lemma {:induction false} SameIns(pool: Pool, other: Pool, x: TxId)
    requires x in pool && x in other && pool[x].tx == other[x].tx
    ensures InsOf(pool, {x}) == InsOf(other, {x})
  {
  }

  lemma {:induction false} MidWeighsTheSame(pool: Pool, rank: Rank, s: set<TxId>, d1: set<TxId>)
    requires Removable(pool, rank, s) && d1 <= s
    ensures var m := Mid(pool, rank, s, d1, s, s);
            Total(m, s) == Total(pool, s) && Usage(m, s) == Usage(pool, s) && InsOf(m, s) == InsOf(pool, s)
  {
    var m := Mid(pool, rank, s, d1, s, s);
    forall x | x in s
      ensures m[x].Own() == pool[x].Own() && m[x].usage == pool[x].usage && m[x].tx == pool[x].tx
    {
      MidFields(pool, rank, s, d1, s, s, x);
    }
    hide Mid, Total, Usage;
    TotalSame(m, pool, s);
    UsageSame(m, pool, s);
  }

  lemma {:induction false} RemovableInside(pool: Pool, rank: Rank, s: set<TxId>)
    requires Removable(pool, rank, s)
    ensures s <= pool.Keys
  {
  }

  lemma {:induction false} NotBelowItself(pool: Pool, rank: Rank, x: TxId)
    requires Ranked(ParentGraph(pool), rank) && x in pool
    ensures x !in Desc(pool, rank, x)
  {
    NotItsOwnAncestor(pool, rank, x);
  }

  /** Only the size and fee of the removed entry matter. */
  lemma {:induction false} LessDescendantBy(m: Pool, ancestors: set<TxId>, a: TxEntry, b: TxEntry, x: TxId)
    requires x in m && a.size == b.size && a.fee == b.fee
    ensures LowerDescendants(CutFromParents(m, x), ancestors, a) == LowerDescendants(CutFromParents(m, x), ancestors, b)
  {
    hide CutFromParents;
  }

  /* The order of a block matters */

  const GRANDPARENT: Tx := Tx(1, [OutPoint(9, 0)], [TxOut(3, [])])
  const PARENT: Tx := Tx(2, [OutPoint(1, 0)], [TxOut(2, [])])
  const CHILD: Tx := Tx(3, [OutPoint(2, 0)], [TxOut(1, [])])

  /** Three transactions in a chain. */
  ghost predicate IsChain(pool: Pool) {
    pool.Keys == {1, 2, 3} && pool[1].tx == GRANDPARENT && pool[2].tx == PARENT && pool[3].tx == CHILD
  }

  lemma {:induction false} ChainLinks(pool: Pool)
    requires IsChain(pool) && LinksRight(pool)
    ensures pool[3].parents == {2} && pool[2].parents == {1}
  {
    assert LinksAt(pool, 3) && LinksAt(pool, 2);
    assert CHILD.ins[0] in CHILD.ins && PARENT.ins[0] in PARENT.ins;
    assert InputParents(pool, CHILD) == {2};
    assert InputParents(pool, PARENT) == {1};
  }

  lemma {:induction false} ChainTakenChildFirst(pool: Pool, rank: Rank)
    requires Ranked(ParentGraph(pool), rank) && LinksRight(pool) && IsChain(pool)
    ensures var txs := [PARENT, GRANDPARENT];
            LeftAfter(pool, rank, txs, 2) == {3} && !TiesKept(pool, rank, txs)
  {
    hide Ranked, WithoutRivals, TiesKept, LinksRight;
    var txs := [PARENT, GRANDPARENT];
    ChainLinks(pool);
    assert LeftAfter(pool, rank, txs, 0) == {1, 2, 3};
    NoRivals(pool, rank, txs, 0);
    assert LeftAfter(pool, rank, txs, 1) == {1, 3};
    NoRivals(pool, rank, txs, 1);
    assert LeftAfter(pool, rank, txs, 2) == {3};
    ChildFirstBreaksTies(pool, rank, txs, 0, 1, 3);
  }

  lemma {:induction false} SpendsOne(next: Spent, tx: Tx, o: OutPoint)
    requires tx.ins == [o]
    ensures SpentWith(next, tx).Keys == next.Keys + {o}
  {
  }

  method BuildChain() returns (m: TxMempool)
    ensures fresh(m) && m.Valid() && m.Exact() && IsChain(m.poolData)
  {
    hide PoolInvariant, LinksRight, Ranked, AncestorsRight, AllReached, Total, SpentWith;
    m := new TxMempool();
    m.Offer(GRANDPARENT);
    SpendsOne(map[], GRANDPARENT, OutPoint(9, 0));
    m.Offer(PARENT);
    SpendsOne(SpentWith(map[], GRANDPARENT), PARENT, OutPoint(1, 0));
    m.Offer(CHILD);
  }

  /**
   A pool of three transactions in a chain, and a block that lists the second before the first: the third stays alone in
   the pool, with ancestor totals that are not its own.
   */
  method ChildFirstExample() returns (m: TxMempool)
    ensures fresh(m) && m.Valid() && !m.Exact() && m.poolData.Keys == {3}
  {
    hide PoolInvariant, LinksRight, Ranked, IsPart, IsChain, AncestorsRight, LeftAfter, TiesKept, ParentsFirst;
    m := BuildChain();
    IsRemovable(m.poolData, m.nextTx, m.totalTxSize, m.usageSize, m.rank, m.top, {});
    ChainTakenChildFirst(m.poolData, m.rank);
    m.RemoveTxSelf([PARENT, GRANDPARENT]);
  }
}
