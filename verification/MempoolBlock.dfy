/**
 What a block takes out of the pool, transaction by transaction, and when the ancestor totals of the entries that stay
 are still exact afterwards. Everything is said in terms of the pool and the block before the call.
 */
module MempoolBlock {
  import opened Wrappers
  import opened Utxo
  import opened Dag
  import opened MempoolWalk
  import opened MempoolSpec
  import opened MempoolRemoval

  /* Parts of a pool */

  ghost predicate SameEntry(e: TxEntry, r: TxEntry) {
    r.tx == e.tx && r.Own() == e.Own() && r.size == e.size && r.usage == e.usage && r.time == e.time
  }

  /** part is pool without some entries: the others are the same and linked as far as both ends are left. */
  ghost predicate IsPart(pool: Pool, part: Pool) {
    part.Keys <= pool.Keys && ParentGraph(part) == Restrict(ParentGraph(pool), part.Keys) &&
    forall y :: y in part ==> SameEntry(pool[y], part[y])
  }

  lemma {:induction false} PartOfItself(pool: Pool, rank: Rank)
    requires Ranked(ParentGraph(pool), rank)
    ensures IsPart(pool, pool)
  {
    RestrictAll(ParentGraph(pool), rank);
  }

  lemma {:induction false} PartOfPart(a: Pool, b: Pool, c: Pool)
    requires IsPart(a, b) && IsPart(b, c)
    ensures IsPart(a, c)
  {
    RestrictTwice(ParentGraph(a), b.Keys, c.Keys);
    hide Restrict, ParentGraph;
  }

  lemma {:induction false} RemovalLeavesPart(pool: Pool, rank: Rank, s: set<TxId>, update: bool)
    requires Removable(pool, rank, s)
    ensures IsPart(pool, AfterRemoval(pool, rank, s, update))
  {
    hide AfterRemoval;
    var after := AfterRemoval(pool, rank, s, update);
    forall y | y in after
      ensures after[y].parents == pool[y].parents * after.Keys && SameEntry(pool[y], after[y])
    {
      AfterAt(pool, rank, s, update, y);
      ParentsInside(pool, y);
    }
  }

  /** Moreover the others keep their parents and their ancestor totals: whole families went. */
  ghost predicate LeftAlone(pool: Pool, part: Pool) {
    IsPart(pool, part) && forall y :: y in part ==> part[y].parents == pool[y].parents && part[y].anc == pool[y].anc
  }

  lemma {:induction false} FamiliesLeaveAlone(pool: Pool, rank: Rank, s: set<TxId>)
    requires Removable(pool, rank, s) && ClosedDown(pool, s)
    ensures LeftAlone(pool, AfterRemoval(pool, rank, s, false))
  {
    hide AfterRemoval;
    RemovalLeavesPart(pool, rank, s, false);
    var after := AfterRemoval(pool, rank, s, false);
    forall y | y in after
      ensures after[y].parents == pool[y].parents && after[y].anc == pool[y].anc
    {
      SurvivorEdges(pool, rank, s, false, y);
      AfterAt(pool, rank, s, false, y);
    }
  }

  lemma {:induction false} AloneAndAlone(a: Pool, b: Pool, c: Pool)
    requires LeftAlone(a, b) && LeftAlone(b, c)
    ensures LeftAlone(a, c)
  {
    PartOfPart(a, b, c);
  }

  /** Entries left alone have the ancestors they had, and all of them are left. */
  lemma {:induction false} AloneKeepsAncestors(pool: Pool, rank: Rank, part: Pool, y: TxId)
    requires Ranked(ParentGraph(pool), rank) && LeftAlone(pool, part) && y in part
    ensures Ranked(ParentGraph(part), rank)
    ensures Anc(part, rank, y) == Anc(pool, rank, y) && Anc(pool, rank, y) <= part.Keys
  {
    var g := ParentGraph(pool);
    forall z | z in part
      ensures g[z] <= part.Keys
    {
      assert ParentGraph(part)[z] == Restrict(g, part.Keys)[z];
    }
    RestrictAll(g, rank);
    RestrictClosed(g, rank, g.Keys, part.Keys, y);
  }

  lemma {:induction false} PartWeighsTheSame(pool: Pool, part: Pool, t: set<TxId>)
    requires IsPart(pool, part) && t <= part.Keys
    ensures Total(part, t) == Total(pool, t)
  {
    hide Total;
    TotalSame(part, pool, t);
  }

  lemma {:induction false} AloneStaysExact(pool: Pool, rank: Rank, part: Pool)
    requires Ranked(ParentGraph(pool), rank) && LeftAlone(pool, part) && AncestorsRight(pool, rank)
    ensures Ranked(ParentGraph(part), rank) && AncestorsRight(part, rank)
  {
    RestrictRanked(ParentGraph(pool), rank, part.Keys);
    hide Total, Anc, Ranked;
    forall y | y in part
      ensures AncestorsAt(part, rank, y)
    {
      assert AncestorsAt(pool, rank, y) && SameEntry(pool[y], part[y]);
      AloneKeepsAncestors(pool, rank, part, y);
      PartWeighsTheSame(pool, part, Anc(pool, rank, y));
    }
  }

  /* Families */

  /** The given entries with everything that descends from them. */
  ghost function Family(pool: Pool, rank: Rank, roots: set<TxId>): (s: set<TxId>)
    requires Ranked(ParentGraph(pool), rank) && roots <= pool.Keys
    ensures roots <= s <= pool.Keys
  {
    Above(ParentGraph(pool), rank, roots)
  }

  lemma {:induction false} FamilyIsClosed(pool: Pool, rank: Rank, roots: set<TxId>)
    requires Ranked(ParentGraph(pool), rank) && LinksRight(pool) && roots <= pool.Keys
    ensures ClosedDown(pool, Family(pool, rank, roots))
  {
    hide Ranked, Above;
    forall x, y | x in Family(pool, rank, roots) && y in pool[x].children
      ensures y in Family(pool, rank, roots)
    {
      assert LinksAt(pool, x);
      if y !in Family(pool, rank, roots) {
        AboveLeavesClosed(ParentGraph(pool), rank, roots, y);
      }
    }
  }

  lemma {:induction false} FamilyGrows(pool: Pool, rank: Rank, roots: set<TxId>, x: TxId)
    requires Ranked(ParentGraph(pool), rank) && roots <= pool.Keys && x in pool
    ensures Family(pool, rank, roots + {x}) == Family(pool, rank, roots) + ({x} + Desc(pool, rank, x))
  {
    AboveJoin(ParentGraph(pool), rank, roots, {x});
    hide Below, Ranked;
  }

  lemma {:induction false} NoFamily(pool: Pool, rank: Rank)
    requires Ranked(ParentGraph(pool), rank)
    ensures Family(pool, rank, {}) == {}
  {
  }

  /** Removing one family after another is removing them together. */
  lemma {:induction false} FamilyAfterFamily(pool: Pool, rank: Rank, roots: set<TxId>, part: Pool, x: TxId)
    requires Ranked(ParentGraph(pool), rank) && roots <= pool.Keys && x in part && LeftAlone(pool, part)
    requires part.Keys == pool.Keys - Family(pool, rank, roots)
    ensures Ranked(ParentGraph(part), rank)
    ensures part.Keys - Family(part, rank, {x}) == pool.Keys - Family(pool, rank, roots + {x})
  {
    RestrictRanked(ParentGraph(pool), rank, part.Keys);
    hide Anc, Ranked;
    FamilyGrows(pool, rank, roots, x);
    NoFamily(part, rank);
    FamilyGrows(part, rank, {}, x);
    assert {} + {x} == {x};
    forall y | y in part
      ensures y in Desc(part, rank, x) <==> y in Desc(pool, rank, x)
    {
      AloneKeepsAncestors(pool, rank, part, y);
    }
  }

  /** A root that is in the family already adds nothing. */
  lemma {:induction false} FamilyAbsorbs(pool: Pool, rank: Rank, roots: set<TxId>, x: TxId)
    requires Ranked(ParentGraph(pool), rank) && roots <= pool.Keys && x in Family(pool, rank, roots)
    ensures Family(pool, rank, roots + {x}) == Family(pool, rank, roots)
  {
    AboveAbsorbs(ParentGraph(pool), rank, roots, x);
  }

  /* What a block takes */

  /** The entries of s other than tx that spend one of its inputs. */
  ghost function Rivals(pool: Pool, s: set<TxId>, tx: Tx): (r: set<TxId>)
    requires s <= pool.Keys
    ensures r <= s
  {
    set y | y in s && y != tx.id && exists o :: o in tx.ins && o in pool[y].tx.ins
  }

  /** The ancestors of y over links inside s. */
  ghost function AncAmong(pool: Pool, rank: Rank, s: set<TxId>, y: TxId): (r: set<TxId>)
    requires Ranked(ParentGraph(pool), rank) && y in s && s <= pool.Keys
    ensures r <= s
  {
    RestrictRanked(ParentGraph(pool), rank, s);
    Below(Restrict(ParentGraph(pool), s), rank, y)
  }

  /** s without the rivals of tx and what descends from them over links inside s. */
  ghost function WithoutRivals(pool: Pool, rank: Rank, s: set<TxId>, tx: Tx): (r: set<TxId>)
    requires Ranked(ParentGraph(pool), rank) && s <= pool.Keys
    ensures r <= s
  {
    RestrictRanked(ParentGraph(pool), rank, s);
    s - Above(Restrict(ParentGraph(pool), s), rank, Rivals(pool, s, tx))
  }

  /** The entries left after i transactions: each goes itself, then its rivals with their descendants. */
  ghost function LeftAfter(pool: Pool, rank: Rank, txs: seq<Tx>, i: nat): (s: set<TxId>)
    requires Ranked(ParentGraph(pool), rank) && i <= |txs|
    ensures s <= pool.Keys
  {
    if i == 0 then pool.Keys
    else WithoutRivals(pool, rank, LeftAfter(pool, rank, txs, i - 1) - {txs[i - 1].id}, txs[i - 1])
  }

  lemma {:induction false} LeftShrinks(pool: Pool, rank: Rank, txs: seq<Tx>, i: nat, j: nat)
    requires Ranked(ParentGraph(pool), rank) && i <= j <= |txs|
    ensures LeftAfter(pool, rank, txs, j) <= LeftAfter(pool, rank, txs, i)
  {
    hide WithoutRivals, Ranked;
    if i < j {
      LeftShrinks(pool, rank, txs, i, j - 1);
    }
  }

  /** The block's own transactions are gone. */
  lemma {:induction false} IdsAreGone(pool: Pool, rank: Rank, txs: seq<Tx>, j: nat, i: nat)
    requires Ranked(ParentGraph(pool), rank) && j < i <= |txs|
    ensures txs[j].id !in LeftAfter(pool, rank, txs, i)
  {
    hide WithoutRivals, Ranked;
    LeftShrinks(pool, rank, txs, j + 1, i);
  }

  /* Which ancestors an entry's totals still count */

  ghost function Counted(pool: Pool, rank: Rank, txs: seq<Tx>, i: nat, y: TxId): (r: set<TxId>)
    requires Ranked(ParentGraph(pool), rank) && i <= |txs| && y in pool
    ensures r <= Anc(pool, rank, y)
  {
    if i == 0 then Anc(pool, rank, y)
    else
      var t, s, x := Counted(pool, rank, txs, i - 1, y), LeftAfter(pool, rank, txs, i - 1), txs[i - 1].id;
      if y in s && x in s && x in AncAmong(pool, rank, s, y) then t - {x} else t
  }

  /** Transaction k of the block takes a out of the totals of y. */
  ghost predicate Discounts(pool: Pool, rank: Rank, txs: seq<Tx>, k: nat, y: TxId, a: TxId)
    requires Ranked(ParentGraph(pool), rank) && k < |txs|
  {
    var s := LeftAfter(pool, rank, txs, k);
    txs[k].id == a && a in s && y in s && a in AncAmong(pool, rank, s, y)
  }

  lemma {:induction false} CountedMeaning(pool: Pool, rank: Rank, txs: seq<Tx>, i: nat, y: TxId, a: TxId)
    requires Ranked(ParentGraph(pool), rank) && i <= |txs| && y in pool
    ensures a in Counted(pool, rank, txs, i, y) <==>
            a in Anc(pool, rank, y) && forall k {:trigger Discounts(pool, rank, txs, k, y, a)} ::
              0 <= k < i ==> !Discounts(pool, rank, txs, k, y, a)
  {
    hide LeftAfter, AncAmong, Anc, Ranked;
    if i > 0 {
      CountedMeaning(pool, rank, txs, i - 1, y, a);
      assert Discounts(pool, rank, txs, i - 1, y, a) || !Discounts(pool, rank, txs, i - 1, y, a);
    }
  }

  lemma {:induction false} AmongAll(pool: Pool, rank: Rank, y: TxId)
    requires Ranked(ParentGraph(pool), rank) && y in pool
    ensures AncAmong(pool, rank, pool.Keys, y) == Anc(pool, rank, y)
  {
    RestrictAll(ParentGraph(pool), rank);
  }

  lemma {:induction false} AmongShrinks(pool: Pool, rank: Rank, s: set<TxId>, t: set<TxId>, y: TxId)
    requires Ranked(ParentGraph(pool), rank) && t <= s <= pool.Keys && y in t
    ensures AncAmong(pool, rank, t, y) <= AncAmong(pool, rank, s, y)
  {
    RestrictReaches(ParentGraph(pool), rank, s, t, y);
  }

  /** What is still reached is still counted. */
  lemma {:induction false} CountedCovers(pool: Pool, rank: Rank, txs: seq<Tx>, i: nat, y: TxId)
    requires Ranked(ParentGraph(pool), rank) && i <= |txs| && y in LeftAfter(pool, rank, txs, i)
    ensures AncAmong(pool, rank, LeftAfter(pool, rank, txs, i), y) <= Counted(pool, rank, txs, i, y)
  {
    hide AncAmong, Anc, WithoutRivals, Ranked;
    if i == 0 {
      AmongAll(pool, rank, y);
    } else {
      LeftShrinks(pool, rank, txs, i - 1, i);
      CountedCovers(pool, rank, txs, i - 1, y);
      AmongShrinks(pool, rank, LeftAfter(pool, rank, txs, i - 1), LeftAfter(pool, rank, txs, i), y);
      IdsAreGone(pool, rank, txs, i - 1, i);
    }
  }

  /* When that is exact */

  /** An ancestor of y stays tied to it: it stays or goes as a transaction of the block, and is reached until then. */
  ghost predicate Tied(pool: Pool, rank: Rank, txs: seq<Tx>, y: TxId, a: TxId)
    requires Ranked(ParentGraph(pool), rank)
  {
    (a in LeftAfter(pool, rank, txs, |txs|) || exists k :: 0 <= k < |txs| && IsTaken(pool, rank, txs, k, a)) &&
    forall i {:trigger LeftAfter(pool, rank, txs, i)} ::
      0 <= i <= |txs| && a in LeftAfter(pool, rank, txs, i) && y in LeftAfter(pool, rank, txs, i) ==>
        a in AncAmong(pool, rank, LeftAfter(pool, rank, txs, i), y)
  }

  /** Transaction k of the block is a, still in the pool. */
  ghost predicate IsTaken(pool: Pool, rank: Rank, txs: seq<Tx>, k: nat, a: TxId)
    requires Ranked(ParentGraph(pool), rank) && k < |txs|
  {
    txs[k].id == a && a in LeftAfter(pool, rank, txs, k)
  }

  /** No entry that stays is cut off from an ancestor before that ancestor goes as a transaction of the block. */
  ghost predicate TiesKept(pool: Pool, rank: Rank, txs: seq<Tx>)
    requires Ranked(ParentGraph(pool), rank)
  {
    forall y, a {:trigger Tied(pool, rank, txs, y, a)} ::
      y in LeftAfter(pool, rank, txs, |txs|) && a in Anc(pool, rank, y) ==> Tied(pool, rank, txs, y, a)
  }

  lemma {:induction false} ReachedLateIsTied(pool: Pool, rank: Rank, txs: seq<Tx>, y: TxId, a: TxId, k: nat)
    requires Ranked(ParentGraph(pool), rank) && y in LeftAfter(pool, rank, txs, |txs|) && k <= |txs|
    requires a in LeftAfter(pool, rank, txs, k) && y in LeftAfter(pool, rank, txs, k)
    requires a in AncAmong(pool, rank, LeftAfter(pool, rank, txs, k), y)
    requires k == |txs| || txs[k].id == a
    ensures Tied(pool, rank, txs, y, a)
  {
    hide LeftAfter, AncAmong, Ranked;
    forall i | 0 <= i <= |txs| && a in LeftAfter(pool, rank, txs, i) && y in LeftAfter(pool, rank, txs, i)
      ensures a in AncAmong(pool, rank, LeftAfter(pool, rank, txs, i), y)
    {
      if i <= k {
        LeftShrinks(pool, rank, txs, i, k);
        AmongShrinks(pool, rank, LeftAfter(pool, rank, txs, i), LeftAfter(pool, rank, txs, k), y);
      } else {
        IdsAreGone(pool, rank, txs, k, i);
      }
    }
    assert k < |txs| ==> IsTaken(pool, rank, txs, k, a);
  }

  lemma {:induction false} TiedAt(pool: Pool, rank: Rank, txs: seq<Tx>, y: TxId, a: TxId)
    requires Ranked(ParentGraph(pool), rank) && y in LeftAfter(pool, rank, txs, |txs|) && a in Anc(pool, rank, y)
    ensures Tied(pool, rank, txs, y, a) <==>
            (a in Counted(pool, rank, txs, |txs|, y) ==> a in AncAmong(pool, rank, LeftAfter(pool, rank, txs, |txs|), y))
  {
    hide LeftAfter, AncAmong, Anc, Ranked, Counted;
    var n := |txs|;
    CountedMeaning(pool, rank, txs, n, y, a);
    if a in AncAmong(pool, rank, LeftAfter(pool, rank, txs, n), y) {
      ReachedLateIsTied(pool, rank, txs, y, a, n);
    } else if a !in Counted(pool, rank, txs, n, y) {
      var k :| 0 <= k < n && Discounts(pool, rank, txs, k, y, a);
      ReachedLateIsTied(pool, rank, txs, y, a, k);
    } else if Tied(pool, rank, txs, y, a) {
      CountedIsNotTied(pool, rank, txs, y, a);
    }
  }

  /** An ancestor still counted but no longer reached is not tied. */
  lemma {:induction false} CountedIsNotTied(pool: Pool, rank: Rank, txs: seq<Tx>, y: TxId, a: TxId)
    requires Ranked(ParentGraph(pool), rank) && y in LeftAfter(pool, rank, txs, |txs|) && Tied(pool, rank, txs, y, a)
    requires forall k {:trigger Discounts(pool, rank, txs, k, y, a)} ::
               0 <= k < |txs| ==> !Discounts(pool, rank, txs, k, y, a)
    ensures a in AncAmong(pool, rank, LeftAfter(pool, rank, txs, |txs|), y)
  {
    hide LeftAfter, AncAmong, Ranked;
    forall k | 0 <= k < |txs| && IsTaken(pool, rank, txs, k, a)
      ensures Discounts(pool, rank, txs, k, y, a)
    {
      LeftShrinks(pool, rank, txs, k, |txs|);
    }
  }

  /** The state of the pool after i transactions. */
  ghost predicate Taken(pool: Pool, rank: Rank, txs: seq<Tx>, i: nat, part: Pool)
    requires Ranked(ParentGraph(pool), rank) && i <= |txs|
  {
    IsPart(pool, part) && part.Keys == LeftAfter(pool, rank, txs, i)
  }

  ghost predicate CountsRight(pool: Pool, rank: Rank, txs: seq<Tx>, i: nat, part: Pool)
    requires Ranked(ParentGraph(pool), rank) && i <= |txs| && part.Keys <= pool.Keys
  {
    forall y {:trigger CountAt(pool, rank, txs, i, part, y)} :: y in part ==> CountAt(pool, rank, txs, i, part, y)
  }

  ghost predicate CountAt(pool: Pool, rank: Rank, txs: seq<Tx>, i: nat, part: Pool, y: TxId)
    requires Ranked(ParentGraph(pool), rank) && i <= |txs| && part.Keys <= pool.Keys && y in part
  {
    part[y].anc == pool[y].Own().Plus(Total(pool, Counted(pool, rank, txs, i, y)))
  }

  lemma {:induction false} PartAncestors(pool: Pool, rank: Rank, part: Pool, y: TxId)
    requires Ranked(ParentGraph(pool), rank) && IsPart(pool, part) && y in part
    ensures Ranked(ParentGraph(part), rank) && Anc(part, rank, y) == AncAmong(pool, rank, part.Keys, y)
  {
    RestrictRanked(ParentGraph(pool), rank, part.Keys);
  }

  /** One entry's totals are exact if and only if what is counted is what is reached. */
  lemma {:induction false} ExactIffReached(pool: Pool, rank: Rank, txs: seq<Tx>, i: nat, part: Pool, y: TxId)
    requires Ranked(ParentGraph(pool), rank) && i <= |txs| && Taken(pool, rank, txs, i, part) && y in part
    requires CountAt(pool, rank, txs, i, part, y)
    ensures Ranked(ParentGraph(part), rank)
    ensures AncestorsAt(part, rank, y) <==>
            Counted(pool, rank, txs, i, y) == AncAmong(pool, rank, LeftAfter(pool, rank, txs, i), y)
  {
    hide Total, Anc, AncAmong, Counted, LeftAfter, Ranked;
    PartAncestors(pool, rank, part, y);
    CountedCovers(pool, rank, txs, i, y);
    var reached, counted := AncAmong(pool, rank, part.Keys, y), Counted(pool, rank, txs, i, y);
    PartWeighsTheSame(pool, part, reached);
    SubsetTotals(pool, pool[y].Own(), reached, counted);
    assert SameEntry(pool[y], part[y]);
  }

  lemma {:induction false} TiedIff(pool: Pool, rank: Rank, txs: seq<Tx>, y: TxId)
    requires Ranked(ParentGraph(pool), rank) && y in LeftAfter(pool, rank, txs, |txs|)
    ensures Counted(pool, rank, txs, |txs|, y) == AncAmong(pool, rank, LeftAfter(pool, rank, txs, |txs|), y) <==>
            forall a {:trigger Tied(pool, rank, txs, y, a)} :: a in Anc(pool, rank, y) ==> Tied(pool, rank, txs, y, a)
  {
    hide Anc, AncAmong, Counted, LeftAfter, Ranked, Tied;
    CountedCovers(pool, rank, txs, |txs|, y);
    forall a | a in Anc(pool, rank, y)
      ensures Tied(pool, rank, txs, y, a) <==>
              (a in Counted(pool, rank, txs, |txs|, y) ==> a in AncAmong(pool, rank, LeftAfter(pool, rank, txs, |txs|), y))
    {
      TiedAt(pool, rank, txs, y, a);
    }
  }

  /**
   Taking a block out of a pool with exact ancestor totals leaves them exact if and only if no entry that stays is cut
   off from one of its ancestors before that ancestor goes as a transaction of the block.
   */
  lemma {:induction false} BlockRemovalExactIff(pool: Pool, rank: Rank, txs: seq<Tx>, part: Pool)
    requires Ranked(ParentGraph(pool), rank)
    requires Taken(pool, rank, txs, |txs|, part) && CountsRight(pool, rank, txs, |txs|, part)
    ensures Ranked(ParentGraph(part), rank)
    ensures AncestorsRight(part, rank) <==> TiesKept(pool, rank, txs)
  {
    RestrictRanked(ParentGraph(pool), rank, part.Keys);
    hide Anc, AncAmong, Counted, LeftAfter, Ranked, Tied, AncestorsAt, CountAt;
    forall y | y in part
      ensures AncestorsAt(part, rank, y) <==>
              forall a {:trigger Tied(pool, rank, txs, y, a)} :: a in Anc(pool, rank, y) ==> Tied(pool, rank, txs, y, a)
    {
      assert CountAt(pool, rank, txs, |txs|, part, y);
      ExactIffReached(pool, rank, txs, |txs|, part, y);
      TiedIff(pool, rank, txs, y);
    }
    if TiesKept(pool, rank, txs) {
      forall y | y in part
        ensures AncestorsAt(part, rank, y)
      {
        assert forall a {:trigger Tied(pool, rank, txs, y, a)} :: a in Anc(pool, rank, y) ==> Tied(pool, rank, txs, y, a);
      }
    }
    if AncestorsRight(part, rank) {
      forall y, a | y in LeftAfter(pool, rank, txs, |txs|) && a in Anc(pool, rank, y)
        ensures Tied(pool, rank, txs, y, a)
      {
        assert AncestorsAt(part, rank, y);
      }
    }
  }

  /* The steps */

  /** The pool before transaction i has been dealt with, once it is out itself. */
  ghost predicate TakenSelf(pool: Pool, rank: Rank, txs: seq<Tx>, i: nat, part: Pool)
    requires Ranked(ParentGraph(pool), rank) && i < |txs|
  {
    IsPart(pool, part) && part.Keys == LeftAfter(pool, rank, txs, i) - {txs[i].id}
  }

  lemma {:induction false} NothingTaken(pool: Pool, rank: Rank, txs: seq<Tx>)
    requires Ranked(ParentGraph(pool), rank)
    ensures Taken(pool, rank, txs, 0, pool)
    ensures AncestorsRight(pool, rank) ==> CountsRight(pool, rank, txs, 0, pool)
  {
    PartOfItself(pool, rank);
    hide Total, Anc, Ranked, IsPart;
    if AncestorsRight(pool, rank) {
      forall y | y in pool
        ensures CountAt(pool, rank, txs, 0, pool, y)
      {
        assert AncestorsAt(pool, rank, y);
      }
    }
  }

  lemma {:induction false} SelfLeavesPart(pool: Pool, rank: Rank, txs: seq<Tx>, i: nat, part: Pool)
    requires Ranked(ParentGraph(pool), rank) && i < |txs| && Taken(pool, rank, txs, i, part)
    requires txs[i].id in part ==> Removable(part, rank, {txs[i].id})
    ensures txs[i].id in part ==> TakenSelf(pool, rank, txs, i, AfterRemoval(part, rank, {txs[i].id}, true))
    ensures txs[i].id !in part ==> TakenSelf(pool, rank, txs, i, part)
  {
    hide AfterRemoval, LeftAfter, IsPart, Ranked;
    if txs[i].id in part {
      RemovalLeavesPart(part, rank, {txs[i].id}, true);
      PartOfPart(pool, part, AfterRemoval(part, rank, {txs[i].id}, true));
    }
  }

  /** A transaction that is not in the pool is counted nowhere. */
  lemma {:induction false} AbsentCounts(pool: Pool, rank: Rank, txs: seq<Tx>, i: nat, y: TxId)
    requires Ranked(ParentGraph(pool), rank) && i < |txs| && y in pool && txs[i].id !in LeftAfter(pool, rank, txs, i)
    ensures Counted(pool, rank, txs, i + 1, y) == Counted(pool, rank, txs, i, y)
  {
    hide LeftAfter, AncAmong, Anc, Ranked;
  }

  /** Taking transaction i out lowers the totals of its descendants by its weight. */
  lemma {:induction false} SelfCounts(pool: Pool, rank: Rank, txs: seq<Tx>, i: nat, part: Pool, y: TxId)
    requires Ranked(ParentGraph(pool), rank) && i < |txs| && Taken(pool, rank, txs, i, part)
    requires txs[i].id in part && Removable(part, rank, {txs[i].id}) && y in part && y != txs[i].id
    requires CountAt(pool, rank, txs, i, part, y)
    ensures AfterRemoval(part, rank, {txs[i].id}, true)[y].anc
            == pool[y].Own().Plus(Total(pool, Counted(pool, rank, txs, i + 1, y)))
  {
    hide Total, AfterRemoval, Anc, AncIn, Hits, AncAmong, LeftAfter, Ranked, LinksRight;
    var x, counted := txs[i].id, Counted(pool, rank, txs, i, y);
    AfterAt(part, rank, {x}, true, y);
    AncInOne(part, rank, x, y);
    PartAncestors(pool, rank, part, y);
    CountedCovers(pool, rank, txs, i, y);
    assert SameEntry(pool[x], part[x]);
    if x in Anc(part, rank, y) {
      TotalWithout(pool, counted, x);
      OneLess(pool[y].Own(), pool[x].Own(), Total(pool, counted - {x}));
    } else {
      NothingLess(part[y].anc);
    }
  }

  lemma {:induction false} NothingLess(w: Weight)
    ensures w.Minus(NOTHING) == w
  {
  }

  /** Then its rivals go with their families, and no total changes. */
  lemma {:induction false} RivalsTaken(pool: Pool, rank: Rank, txs: seq<Tx>, i: nat, self: Pool, part: Pool)
    requires Ranked(ParentGraph(pool), rank) && i < |txs| && TakenSelf(pool, rank, txs, i, self)
    requires Ranked(ParentGraph(self), rank) && LeftAlone(self, part)
    requires part.Keys == self.Keys - Family(self, rank, Rivals(self, self.Keys, txs[i]))
    ensures Taken(pool, rank, txs, i + 1, part)
  {
    PartOfPart(pool, self, part);
    forall y | y in self
      ensures self[y].tx == pool[y].tx
    {
      assert SameEntry(pool[y], self[y]);
    }
    assert Rivals(self, self.Keys, txs[i]) == Rivals(pool, self.Keys, txs[i]);
    hide Rivals, Above, Ranked;
  }

  /* Parents first */

  /** A block lists the pool's transactions as the pool has them, and their pool parents before them. */
  ghost predicate ParentsFirst(pool: Pool, txs: seq<Tx>) {
    forall i :: 0 <= i < |txs| && txs[i].id in pool ==>
                  pool[txs[i].id].tx == txs[i] &&
                  forall p :: p in InputParents(pool, txs[i]) ==> exists j :: 0 <= j < i && txs[j].id == p
  }

  /** Of the ancestors of y exactly those left are reached, and the others went as transactions of the block. */
  ghost predicate KeepsTies(pool: Pool, rank: Rank, txs: seq<Tx>, i: nat, y: TxId)
    requires Ranked(ParentGraph(pool), rank) && i <= |txs| && y in LeftAfter(pool, rank, txs, i)
  {
    var s := LeftAfter(pool, rank, txs, i);
    AncAmong(pool, rank, s, y) == Anc(pool, rank, y) * s &&
    forall a :: a in Anc(pool, rank, y) && a !in s ==> exists k :: 0 <= k < i && IsTaken(pool, rank, txs, k, a)
  }

  /** When its turn comes, a transaction listed after its parents has none left. */
  lemma {:induction false} NoParentsLeft(pool: Pool, rank: Rank, txs: seq<Tx>, i: nat)
    requires Ranked(ParentGraph(pool), rank) && LinksRight(pool) && ParentsFirst(pool, txs) && i < |txs|
    requires txs[i].id in LeftAfter(pool, rank, txs, i)
    ensures pool[txs[i].id].parents !! LeftAfter(pool, rank, txs, i)
  {
    hide LeftAfter, Ranked;
    var x := txs[i].id;
    assert LinksAt(pool, x);
    forall p | p in pool[x].parents
      ensures p !in LeftAfter(pool, rank, txs, i)
    {
      var j :| 0 <= j < i && txs[j].id == p;
      IdsAreGone(pool, rank, txs, j, i);
    }
  }

  /** Without an entry that has no parents, everything else is reached as before. */
  lemma {:induction false} TopGone(pool: Pool, rank: Rank, s: set<TxId>, x: TxId, y: TxId)
    requires Ranked(ParentGraph(pool), rank) && s <= pool.Keys && y in s && y != x
    requires x in s ==> pool[x].parents !! s
    ensures AncAmong(pool, rank, s - {x}, y) == AncAmong(pool, rank, s, y) - {x}
  {
    var p := ParentGraph(pool);
    var g, h := Restrict(p, s), Restrict(p, s - {x});
    RestrictReaches(p, rank, s, s - {x}, y);
    assert forall z :: z in g && z != x ==> z in h && h[z] == g[z] - {x};
    hide Ranked, Restrict;
    forall a | a in Below(g, rank, y) && a != x
      ensures a in Below(h, rank, y)
    {
      AroundOrThrough(g, h, rank, x, y, a);
      ReachesInside(g, rank, y, a);
    }
  }

  /** The entries left by a family removal have all their parents. */
  lemma {:induction false} RivalsLeaveClosed(pool: Pool, rank: Rank, s: set<TxId>, tx: Tx, y: TxId)
    requires Ranked(ParentGraph(pool), rank) && s <= pool.Keys && y in WithoutRivals(pool, rank, s, tx)
    ensures var t := WithoutRivals(pool, rank, s, tx); AncAmong(pool, rank, t, y) == AncAmong(pool, rank, s, y)
  {
    var g, t := ParentGraph(pool), WithoutRivals(pool, rank, s, tx);
    RestrictRanked(g, rank, s);
    forall z | z in t && z in g
      ensures g[z] * s <= t
    {
      AboveLeavesClosed(Restrict(g, s), rank, Rivals(pool, s, tx), z);
    }
    hide Rivals, Above;
    RestrictClosed(g, rank, s, t, y);
  }

  lemma {:induction false} TiesStep(pool: Pool, rank: Rank, txs: seq<Tx>, i: nat, y: TxId)
    requires Ranked(ParentGraph(pool), rank) && LinksRight(pool) && ParentsFirst(pool, txs) && i < |txs|
    requires y in LeftAfter(pool, rank, txs, i + 1) && y in LeftAfter(pool, rank, txs, i)
    requires KeepsTies(pool, rank, txs, i, y)
    ensures KeepsTies(pool, rank, txs, i + 1, y)
  {
    hide AncAmong, Anc, Ranked, WithoutRivals, ParentsFirst, LinksRight, ParentGraph;
    var s, x := LeftAfter(pool, rank, txs, i), txs[i].id;
    if x in s {
      NoParentsLeft(pool, rank, txs, i);
    }
    TopGone(pool, rank, s, x, y);
    RivalsLeaveClosed(pool, rank, s - {x}, txs[i], y);
    var t := LeftAfter(pool, rank, txs, i + 1);
    forall a | a in Anc(pool, rank, y) && a !in t
      ensures exists k :: 0 <= k < i + 1 && IsTaken(pool, rank, txs, k, a)
    {
      if a !in s {
        var k :| 0 <= k < i && IsTaken(pool, rank, txs, k, a);
      } else {
        assert a == x;
        assert IsTaken(pool, rank, txs, i, a);
      }
    }
  }

  lemma {:induction false} TiesAtStart(pool: Pool, rank: Rank, txs: seq<Tx>, y: TxId)
    requires Ranked(ParentGraph(pool), rank) && y in LeftAfter(pool, rank, txs, 0)
    ensures KeepsTies(pool, rank, txs, 0, y)
  {
    hide Ranked, Anc, AncAmong;
    AmongAll(pool, rank, y);
  }

  lemma {:induction false} TiesAllAlong(pool: Pool, rank: Rank, txs: seq<Tx>, i: nat, y: TxId)
    requires Ranked(ParentGraph(pool), rank) && LinksRight(pool) && ParentsFirst(pool, txs) && i <= |txs|
    requires y in LeftAfter(pool, rank, txs, i)
    ensures KeepsTies(pool, rank, txs, i, y)
  {
    hide KeepsTies, Ranked, LinksRight, ParentsFirst, LeftAfter;
    if i == 0 {
      TiesAtStart(pool, rank, txs, y);
    } else {
      LeftShrinks(pool, rank, txs, i - 1, i);
      TiesAllAlong(pool, rank, txs, i - 1, y);
      TiesStep(pool, rank, txs, i - 1, y);
    }
  }

  /**
   A block that lists parents before their children keeps all ties. In particular no entry that stays descends from an
   entry that went as a rival or with one.
   */
  lemma {:induction false} ParentsFirstKeepsTies(pool: Pool, rank: Rank, txs: seq<Tx>)
    requires Ranked(ParentGraph(pool), rank) && LinksRight(pool) && ParentsFirst(pool, txs)
    ensures TiesKept(pool, rank, txs)
  {
    hide Anc, AncAmong, LeftAfter, Ranked, LinksRight, ParentsFirst;
    forall y, a | y in LeftAfter(pool, rank, txs, |txs|) && a in Anc(pool, rank, y)
      ensures Tied(pool, rank, txs, y, a)
    {
      TiesAllAlong(pool, rank, txs, |txs|, y);
      forall i | 0 <= i <= |txs| && a in LeftAfter(pool, rank, txs, i) && y in LeftAfter(pool, rank, txs, i)
        ensures a in AncAmong(pool, rank, LeftAfter(pool, rank, txs, i), y)
      {
        TiesAllAlong(pool, rank, txs, i, y);
      }
    }
  }

  /** A block that takes a child while its parent stays breaks the ties of any entry that depends on the child alone. */
  lemma {:induction false} ChildFirstBreaksTies(pool: Pool, rank: Rank, txs: seq<Tx>, k: nat, p: TxId, d: TxId)
    requires Ranked(ParentGraph(pool), rank) && k < |txs| && txs[k].id in pool && d in pool
    requires p in pool[txs[k].id].parents && pool[d].parents == {txs[k].id}
    requires p in LeftAfter(pool, rank, txs, k + 1) && d in LeftAfter(pool, rank, txs, |txs|)
    ensures !TiesKept(pool, rank, txs)
  {
    hide LeftAfter, Ranked, Below;
    var g, x, s := ParentGraph(pool), txs[k].id, LeftAfter(pool, rank, txs, k + 1);
    BelowStep(g, rank, x, p);
    BelowStep(g, rank, d, p);
    assert p in Anc(pool, rank, d);
    LeftShrinks(pool, rank, txs, k + 1, |txs|);
    IdsAreGone(pool, rank, txs, k, k + 1);
    RestrictRanked(g, rank, s);
    BelowStep(Restrict(g, s), rank, d, p);
    assert p !in AncAmong(pool, rank, s, d);
    assert !Tied(pool, rank, txs, d, p);
  }

  /** A transaction without rivals takes only itself. */
  lemma {:induction false} NoRivals(pool: Pool, rank: Rank, txs: seq<Tx>, i: nat)
    requires Ranked(ParentGraph(pool), rank) && i < |txs|
    requires forall y, o :: y in LeftAfter(pool, rank, txs, i) && y != txs[i].id && o in pool[y].tx.ins ==> o !in txs[i].ins
    ensures LeftAfter(pool, rank, txs, i + 1) == LeftAfter(pool, rank, txs, i) - {txs[i].id}
  {
    hide Ranked;
    var s := LeftAfter(pool, rank, txs, i) - {txs[i].id};
    assert Rivals(pool, s, txs[i]) == {};
  }
}
