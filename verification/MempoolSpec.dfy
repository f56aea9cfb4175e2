/** What holds of the pool between operations, and what removing a set of entries does to it. */
module MempoolSpec {
  import opened Wrappers
  import opened Utxo
  import opened Dag
  import opened MempoolWalk

  /* Ancestors and descendants */

  ghost function Anc(pool: Pool, rank: Rank, x: TxId): (s: set<TxId>)
    requires Ranked(ParentGraph(pool), rank) && x in pool
    ensures s <= pool.Keys
  {
    Below(ParentGraph(pool), rank, x)
  }

  ghost function Desc(pool: Pool, rank: Rank, x: TxId): (s: set<TxId>)
    requires Ranked(ParentGraph(pool), rank) && x in pool
    ensures s <= pool.Keys
  {
    set y | y in pool && x in Anc(pool, rank, y)
  }

  /** Ancestors are the parents and theirs. */
  lemma {:induction false} AncOfParents(pool: Pool, rank: Rank, x: TxId)
    requires Ranked(ParentGraph(pool), rank) && x in pool && pool[x].parents <= pool.Keys
    ensures Anc(pool, rank, x) == AllReached(ParentGraph(pool), rank, pool[x].parents)
  {
    var g := ParentGraph(pool);
    forall a | a in pool
      ensures a in Anc(pool, rank, x) <==> Reached(g, rank, pool[x].parents, a)
    {
      BelowStep(g, rank, x, a);
    }
  }

  lemma {:induction false} NotItsOwnAncestor(pool: Pool, rank: Rank, x: TxId)
    requires Ranked(ParentGraph(pool), rank) && x in pool
    ensures x !in Anc(pool, rank, x)
  {
    if Reaches(ParentGraph(pool), rank, x, x) {
      ReachesInside(ParentGraph(pool), rank, x, x);
    }
  }

  lemma {:induction false} AncOfAncestor(pool: Pool, rank: Rank, x: TxId, y: TxId, a: TxId)
    requires Ranked(ParentGraph(pool), rank) && x in pool && y in Anc(pool, rank, x) && a in Anc(pool, rank, y)
    ensures a in Anc(pool, rank, x)
  {
    ReachesOn(ParentGraph(pool), rank, x, y, a);
  }

  /* The invariant */

  ghost predicate LinksAt(pool: Pool, x: TxId)
    requires x in pool
  {
    pool[x].tx.id == x && pool[x].parents == InputParents(pool, pool[x].tx) &&
    forall y :: y in pool[x].children <==> y in pool && x in pool[y].parents
  }

  /** Links follow the inputs, and child links are parent links reversed. */
  ghost predicate LinksRight(pool: Pool) {
    forall x {:trigger LinksAt(pool, x)} :: x in pool ==> LinksAt(pool, x)
  }

  ghost predicate AncestorsAt(pool: Pool, rank: Rank, x: TxId)
    requires Ranked(ParentGraph(pool), rank) && x in pool
  {
    pool[x].anc == pool[x].Own().Plus(Total(pool, Anc(pool, rank, x)))
  }

  /** The cached ancestor totals are exact. */
  ghost predicate AncestorsRight(pool: Pool, rank: Rank)
    requires Ranked(ParentGraph(pool), rank)
  {
    forall x {:trigger AncestorsAt(pool, rank, x)} :: x in pool ==> AncestorsAt(pool, rank, x)
  }

  ghost predicate AncestorsCoveredAt(pool: Pool, rank: Rank, x: TxId)
    requires Ranked(ParentGraph(pool), rank) && x in pool
  {
    var t := Total(pool, Anc(pool, rank, x));
    pool[x].anc.count >= 1 + t.count && pool[x].anc.size >= pool[x].size + t.size
  }

  /** The cached ancestor totals are never too small. */
  ghost predicate AncestorsCovered(pool: Pool, rank: Rank)
    requires Ranked(ParentGraph(pool), rank)
  {
    forall x {:trigger AncestorsCoveredAt(pool, rank, x)} :: x in pool ==> AncestorsCoveredAt(pool, rank, x)
  }

  ghost predicate DescendantsAt(pool: Pool, rank: Rank, x: TxId)
    requires Ranked(ParentGraph(pool), rank) && x in pool
  {
    var t := Total(pool, Desc(pool, rank, x));
    pool[x].descCount >= 1 + t.count && pool[x].descSize >= pool[x].size + t.size
  }

  /** The cached descendant totals are never too small. */
  ghost predicate DescendantsCovered(pool: Pool, rank: Rank)
    requires Ranked(ParentGraph(pool), rank)
  {
    forall x {:trigger DescendantsAt(pool, rank, x)} :: x in pool ==> DescendantsAt(pool, rank, x)
  }

  type Spent = map<OutPoint, TxId>

  /** nextTx holds exactly the inputs of the pool's entries, each under its spender. */
  ghost predicate SpentRight(pool: Pool, next: Spent) {
    (forall x {:trigger SpendsAt(pool, next, x)} :: x in pool ==> SpendsAt(pool, next, x)) &&
    (forall o {:trigger SpenderAt(pool, next, o)} :: o in next ==> SpenderAt(pool, next, o))
  }

  ghost predicate SpendsAt(pool: Pool, next: Spent, x: TxId)
    requires x in pool
  {
    forall o :: o in pool[x].tx.ins ==> o in next && next[o] == x
  }

  ghost predicate SpenderAt(pool: Pool, next: Spent, o: OutPoint)
    requires o in next
  {
    next[o] in pool && o in pool[next[o]].tx.ins
  }

  ghost function Usage(pool: Pool, s: set<TxId>): int
    requires s <= pool.Keys
    decreases |s|
  {
    if s == {} then 0
    else
      var x :| x in s;
      pool[x].usage + Usage(pool, s - {x})
  }

  lemma {:induction false} UsageWithout(pool: Pool, s: set<TxId>, x: TxId)
    requires s <= pool.Keys && x in s
    ensures Usage(pool, s) == pool[x].usage + Usage(pool, s - {x})
    decreases |s|
  {
    var y :| y in s && Usage(pool, s) == pool[y].usage + Usage(pool, s - {y});
    if y != x {
      UsageWithout(pool, s - {y}, x);
      UsageWithout(pool, s - {x}, y);
      assert s - {y} - {x} == s - {x} - {y};
    }
  }

  ghost predicate SumsRight(pool: Pool, totalTxSize: int, usage: int) {
    totalTxSize == Total(pool, pool.Keys).size && usage == Usage(pool, pool.Keys)
  }

  ghost predicate RanksBelow(pool: Pool, rank: Rank, top: nat) {
    forall x :: x in pool ==> x in rank && rank[x] < top
  }

  /** What every operation keeps; that the ancestor totals are exact, AncestorsRight, comes on top where it is kept. */
  ghost predicate PoolInvariant(pool: Pool, next: Spent, totalTxSize: int, usage: int, rank: Rank, top: nat) {
    Ranked(ParentGraph(pool), rank) && RanksBelow(pool, rank, top) && LinksRight(pool) && SpentRight(pool, next) &&
    AncestorsCovered(pool, rank) && DescendantsCovered(pool, rank) && SumsRight(pool, totalTxSize, usage)
  }

  /* Descendants through child links */

  ghost function Flipped(pool: Pool, rank: Rank, top: nat): Rank
    requires RanksBelow(pool, rank, top)
  {
    map x | x in pool :: top - rank[x]
  }

  lemma {:induction false} ChildrenAreRanked(pool: Pool, rank: Rank, top: nat)
    requires Ranked(ParentGraph(pool), rank) && RanksBelow(pool, rank, top) && LinksRight(pool)
    ensures IsReverse(ParentGraph(pool), ChildGraph(pool)) && Ranked(ChildGraph(pool), Flipped(pool, rank, top))
    ensures IsReverse(ChildGraph(pool), ParentGraph(pool))
  {
    var g, c, other := ParentGraph(pool), ChildGraph(pool), Flipped(pool, rank, top);
    forall x | x in pool
      ensures c[x] <= g.Keys && forall y :: y in g ==> (y in c[x] <==> x in g[y])
    {
      assert LinksAt(pool, x);
    }
    ReverseRanked(g, c, rank, other);
  }

  /** Walking the child links finds the descendants. */
  lemma {:induction false} WalkFindsDescendants(pool: Pool, rank: Rank, top: nat, x: TxId)
    requires Ranked(ParentGraph(pool), rank) && RanksBelow(pool, rank, top) && LinksRight(pool) && x in pool
    ensures Ranked(ChildGraph(pool), Flipped(pool, rank, top))
    ensures AllReached(ChildGraph(pool), Flipped(pool, rank, top), {x}) == {x} + Desc(pool, rank, x)
  {
    ChildrenAreRanked(pool, rank, top);
    var g, c, other := ParentGraph(pool), ChildGraph(pool), Flipped(pool, rank, top);
    forall y | y in pool
      ensures Reached(c, other, {x}, y) <==> y == x || x in Anc(pool, rank, y)
    {
      if Reaches(c, other, x, y) {
        ReverseReaches(c, g, other, rank, x, y);
      }
      if Reaches(g, rank, y, x) {
        ReverseReaches(g, c, rank, other, y, x);
      }
    }
  }

  /* Totals of two pools */

  lemma {:induction false} TotalSame(pool: Pool, other: Pool, s: set<TxId>)
    requires s <= pool.Keys && s <= other.Keys && forall x :: x in s ==> pool[x].Own() == other[x].Own()
    ensures Total(pool, s) == Total(other, s)
    decreases |s|
  {
    if s != {} {
      var x :| x in s;
      TotalWithout(pool, s, x);
      TotalWithout(other, s, x);
      TotalSame(pool, other, s - {x});
    }
  }

  lemma {:induction false} UsageSame(pool: Pool, other: Pool, s: set<TxId>)
    requires s <= pool.Keys && s <= other.Keys && forall x :: x in s ==> pool[x].usage == other[x].usage
    ensures Usage(pool, s) == Usage(other, s)
    decreases |s|
  {
    if s != {} {
      var x :| x in s;
      UsageWithout(pool, s, x);
      UsageWithout(other, s, x);
      UsageSame(pool, other, s - {x});
    }
  }

  lemma {:induction false} TotalSplit(pool: Pool, s: set<TxId>, part: set<TxId>)
    requires s <= pool.Keys && part <= s
    ensures Total(pool, s) == Total(pool, part).Plus(Total(pool, s - part))
    decreases |part|
  {
    hide Total;
    if part == {} {
      TotalOfNone(pool);
      assert s - part == s;
      assert NOTHING.Plus(Total(pool, s)) == Total(pool, s);
    } else {
      var x :| x in part;
      TotalWithout(pool, s, x);
      TotalWithout(pool, part, x);
      TotalSplit(pool, s - {x}, part - {x});
      assert s - {x} - (part - {x}) == s - part;
      PlusAssociates(pool[x].Own(), Total(pool, part - {x}), Total(pool, s - part));
    }
  }

  lemma {:induction false} PlusAssociates(a: Weight, b: Weight, c: Weight)
    ensures a.Plus(b.Plus(c)) == a.Plus(b).Plus(c) && a.Plus(b).Minus(b) == a && a.Plus(b).Minus(a) == b
  {
  }

  /** A larger set weighs no less. */
  lemma {:induction false} TotalGrows(pool: Pool, part: set<TxId>, s: set<TxId>)
    requires part <= s <= pool.Keys
    ensures Total(pool, part).count <= Total(pool, s).count && Total(pool, part).size <= Total(pool, s).size
  {
    TotalSplit(pool, s, part);
    TotalFacts(pool, s - part);
    var a, b := Total(pool, part), Total(pool, s - part);
    assert a.Plus(b).count == a.count + b.count && a.Plus(b).size == a.size + b.size;
  }
}
