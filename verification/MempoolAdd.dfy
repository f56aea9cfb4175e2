/** Adding an entry to the pool: what AddTx makes of it and why that keeps the pool's invariant. */
module MempoolAdd {
  import opened Wrappers
  import opened Utxo
  import opened Dag
  import opened MempoolWalk
  import opened MempoolSpec

  /** The new entry once its links and ancestor totals are set. */
  function NewEntry(pool: Pool, tx: Tx, size: nat, fee: int, sigOps: nat, usage: nat, time: int, above: Weight): TxEntry {
    TxEntry(tx, size, fee, sigOps, usage, time, InputParents(pool, tx), {},
            Weight(1, size, sigOps, fee).Plus(above), 1, size, fee)
  }

  function MoreChild(e: TxEntry, x: TxId): TxEntry { e.(children := e.children + {x}) }

  function MoreDescendant(e: TxEntry, n: TxEntry): TxEntry {
    e.(descCount := e.descCount + 1, descSize := e.descSize + n.size, descFee := e.descFee + n.fee)
  }

  /** An old entry after the new one n came in. */
  function Joined(e: TxEntry, y: TxId, n: TxEntry, ancestors: set<TxId>): TxEntry {
    var linked := if y in n.parents then MoreChild(e, n.tx.id) else e;
    if y in ancestors then MoreDescendant(linked, n) else linked
  }

  function WithEntry(pool: Pool, n: TxEntry, ancestors: set<TxId>): (r: Pool)
    ensures r.Keys == pool.Keys + {n.tx.id}
  {
    (map y | y in pool :: Joined(pool[y], y, n, ancestors))[n.tx.id := n]
  }

  /** The transaction is new and conflicts with nothing. */
  ghost predicate IsFresh(pool: Pool, next: Spent, tx: Tx) {
    tx.id !in pool && forall o :: o in tx.ins ==> o !in next && o.hash != tx.id
  }

  /** Nothing in the pool spends the transaction already. */
  ghost predicate NoChild(pool: Pool, tx: Tx) {
    forall y, o :: y in pool && o in pool[y].tx.ins ==> o.hash != tx.id
  }

  ghost predicate Addable(pool: Pool, next: Spent, tx: Tx) {
    IsFresh(pool, next, tx) && NoChild(pool, tx)
  }

  ghost predicate Adding(pool: Pool, next: Spent, rank: Rank, top: nat, n: TxEntry, ancestors: set<TxId>) {
    Ranked(ParentGraph(pool), rank) && RanksBelow(pool, rank, top) && LinksRight(pool) && Addable(pool, next, n.tx) &&
    n.parents == InputParents(pool, n.tx) && n.children == {} &&
    ancestors == AllReached(ParentGraph(pool), rank, n.parents)
  }

  lemma {:induction false} JoinedAt(pool: Pool, n: TxEntry, ancestors: set<TxId>, y: TxId)
    requires y in pool && n.tx.id !in pool
    ensures var e, r := pool[y], WithEntry(pool, n, ancestors)[y];
            r.tx == e.tx && r.Own() == e.Own() && r.usage == e.usage && r.size == e.size && r.time == e.time && r.parents == e.parents && r.anc == e.anc &&
            r.children == (if y in n.parents then e.children + {n.tx.id} else e.children) &&
            r.descCount == e.descCount + (if y in ancestors then 1 else 0) &&
            r.descSize == e.descSize + (if y in ancestors then n.size else 0)
  {
  }

  /* Links */

  lemma {:induction false} GraphWith(pool: Pool, next: Spent, rank: Rank, top: nat, n: TxEntry, ancestors: set<TxId>)
    requires Adding(pool, next, rank, top, n, ancestors)
    ensures var g, h := ParentGraph(pool), ParentGraph(WithEntry(pool, n, ancestors));
            h.Keys == g.Keys + {n.tx.id} && (forall y :: y in g ==> h[y] == g[y] && g[y] <= g.Keys) && h[n.tx.id] == n.parents
    ensures Ranked(ParentGraph(WithEntry(pool, n, ancestors)), rank[n.tx.id := top])
    ensures RanksBelow(WithEntry(pool, n, ancestors), rank[n.tx.id := top], top + 1)
  {
    var after := WithEntry(pool, n, ancestors);
    var g, h, ranks := ParentGraph(pool), ParentGraph(after), rank[n.tx.id := top];
    hide WithEntry;
    assert after[n.tx.id] == n by { NewIsThere(pool, n, ancestors); }
    forall y | y in g
      ensures h[y] == g[y] && g[y] <= g.Keys && RankedAt(h, ranks, y)
    {
      JoinedAt(pool, n, ancestors, y);
      assert LinksAt(pool, y) && RankedAt(g, rank, y);
    }
    assert RankedAt(h, ranks, n.tx.id);
  }

  lemma {:induction false} NewIsThere(pool: Pool, n: TxEntry, ancestors: set<TxId>)
    ensures WithEntry(pool, n, ancestors)[n.tx.id] == n
  {
  }

  /** The new entry's links follow its inputs, and nothing is linked to it yet. */
  ghost predicate Linking(pool: Pool, next: Spent, n: TxEntry) {
    LinksRight(pool) && IsFresh(pool, next, n.tx) && n.parents == InputParents(pool, n.tx) && n.children == {}
  }

  lemma {:induction false} LinksWith(pool: Pool, next: Spent, n: TxEntry, ancestors: set<TxId>)
    requires Linking(pool, next, n) && NoChild(pool, n.tx)
    ensures LinksRight(WithEntry(pool, n, ancestors))
  {
    var after := WithEntry(pool, n, ancestors);
    hide WithEntry;
    NewIsThere(pool, n, ancestors);
    forall y | y in after
      ensures LinksAt(after, y)
    {
      if y in pool {
        OldLinks(pool, next, n, ancestors, y);
      } else {
        NewLinks(pool, next, n, ancestors);
      }
    }
  }

  lemma {:induction false} OldLinks(pool: Pool, next: Spent, n: TxEntry, ancestors: set<TxId>, y: TxId)
    requires Linking(pool, next, n) && NoChild(pool, n.tx) && y in pool
    ensures LinksAt(WithEntry(pool, n, ancestors), y)
  {
    var after := WithEntry(pool, n, ancestors);
    NewIsThere(pool, n, ancestors);
    JoinedAt(pool, n, ancestors, y);
    assert LinksAt(pool, y);
    hide WithEntry;
    assert InputParents(after, pool[y].tx) == InputParents(pool, pool[y].tx);
    forall z
      ensures z in after[y].children <==> z in after && y in after[z].parents
    {
      if z in pool {
        JoinedAt(pool, n, ancestors, z);
      }
    }
  }

  lemma {:induction false} NewLinks(pool: Pool, next: Spent, n: TxEntry, ancestors: set<TxId>)
    requires Linking(pool, next, n) && NoChild(pool, n.tx)
    ensures LinksAt(WithEntry(pool, n, ancestors), n.tx.id)
  {
    var after := WithEntry(pool, n, ancestors);
    NewIsThere(pool, n, ancestors);
    hide WithEntry;
    assert InputParents(after, n.tx) == InputParents(pool, n.tx);
    forall z | z in after
      ensures n.tx.id !in after[z].parents
    {
      if z in pool {
        JoinedAt(pool, n, ancestors, z);
        assert LinksAt(pool, z);
      }
    }
  }

  /** AddTx leaves the links right if and only if nothing in the pool spends the new transaction already. */
  lemma {:induction false} LinksRightIff(pool: Pool, next: Spent, n: TxEntry, ancestors: set<TxId>)
    requires Linking(pool, next, n)
    ensures LinksRight(WithEntry(pool, n, ancestors)) <==> NoChild(pool, n.tx)
  {
    if NoChild(pool, n.tx) {
      LinksWith(pool, next, n, ancestors);
    } else {
      var y, o :| y in pool && o in pool[y].tx.ins && o.hash == n.tx.id;
      var after := WithEntry(pool, n, ancestors);
      JoinedAt(pool, n, ancestors, y);
      assert LinksAt(pool, y);
      hide WithEntry;
      assert o.hash in InputParents(after, pool[y].tx);
      assert !LinksAt(after, y);
    }
  }

  /* Ancestors and descendants */

  /** Old entries have the ancestors they had. */
  lemma {:induction false} OldAncestors(pool: Pool, next: Spent, rank: Rank, top: nat, n: TxEntry,
      ancestors: set<TxId>, y: TxId)
    requires Adding(pool, next, rank, top, n, ancestors) && y in pool
    requires Ranked(ParentGraph(WithEntry(pool, n, ancestors)), rank[n.tx.id := top])
    ensures Anc(WithEntry(pool, n, ancestors), rank[n.tx.id := top], y) == Anc(pool, rank, y)
  {
    GraphWith(pool, next, rank, top, n, ancestors);
    var g, h, ranks := ParentGraph(pool), ParentGraph(WithEntry(pool, n, ancestors)), rank[n.tx.id := top];
    hide WithEntry, Ranked, AllReached, Reaches;
    forall a
      ensures a in Below(h, ranks, y) <==> a in Below(g, rank, y)
    {
      if a in Below(g, rank, y) {
        SameEdges(g, rank, h, ranks, g.Keys, y, a);
      }
      if a in Below(h, ranks, y) {
        SameEdges(h, ranks, g, rank, g.Keys, y, a);
        ReachesInside(g, rank, y, a);
      }
    }
  }

  /** The new entry's ancestors are the ones collected. */
  lemma {:induction false} NewAncestors(pool: Pool, next: Spent, rank: Rank, top: nat, n: TxEntry, ancestors: set<TxId>)
    requires Adding(pool, next, rank, top, n, ancestors)
    requires Ranked(ParentGraph(WithEntry(pool, n, ancestors)), rank[n.tx.id := top])
    ensures Anc(WithEntry(pool, n, ancestors), rank[n.tx.id := top], n.tx.id) == ancestors
  {
    GraphWith(pool, next, rank, top, n, ancestors);
    var after, ranks := WithEntry(pool, n, ancestors), rank[n.tx.id := top];
    var g, h := ParentGraph(pool), ParentGraph(after);
    hide WithEntry, Ranked, Reaches;
    forall a
      ensures a in Below(h, ranks, n.tx.id) <==> a in ancestors
    {
      BelowStep(h, ranks, n.tx.id, a);
      forall p | p in n.parents
        ensures a in Below(h, ranks, p) <==> a in Below(g, rank, p)
      {
        OldAncestors(pool, next, rank, top, n, ancestors, p);
      }
    }
  }

  lemma {:induction false} NewDescendants(pool: Pool, next: Spent, rank: Rank, top: nat, n: TxEntry,
      ancestors: set<TxId>, y: TxId)
    requires Adding(pool, next, rank, top, n, ancestors) && y in WithEntry(pool, n, ancestors)
    requires Ranked(ParentGraph(WithEntry(pool, n, ancestors)), rank[n.tx.id := top])
    ensures Desc(WithEntry(pool, n, ancestors), rank[n.tx.id := top], y) ==
            if y == n.tx.id then {} else Desc(pool, rank, y) + if y in ancestors then {n.tx.id} else {}
  {
    var after, ranks := WithEntry(pool, n, ancestors), rank[n.tx.id := top];
    NewAncestors(pool, next, rank, top, n, ancestors);
    hide WithEntry, Ranked, Anc, AllReached;
    forall z | z in pool
      ensures Anc(after, ranks, z) == Anc(pool, rank, z)
    {
      OldAncestors(pool, next, rank, top, n, ancestors, z);
    }
  }

  lemma {:induction false} TotalsWith(pool: Pool, n: TxEntry, ancestors: set<TxId>, t: set<TxId>)
    requires n.tx.id !in pool && t <= pool.Keys
    ensures Total(WithEntry(pool, n, ancestors), t) == Total(pool, t) && Usage(WithEntry(pool, n, ancestors), t) == Usage(pool, t)
  {
    var after := WithEntry(pool, n, ancestors);
    hide WithEntry, Total, Usage;
    forall x | x in t
      ensures pool[x].Own() == after[x].Own() && pool[x].usage == after[x].usage
    {
      JoinedAt(pool, n, ancestors, x);
    }
    TotalSame(pool, after, t);
    UsageSame(pool, after, t);
  }

  lemma {:induction false} AncestorsWith(pool: Pool, next: Spent, rank: Rank, top: nat, n: TxEntry,
      ancestors: set<TxId>)
    requires Adding(pool, next, rank, top, n, ancestors) && AncestorsRight(pool, rank)
    requires n.anc == n.Own().Plus(Total(pool, ancestors))
    ensures Ranked(ParentGraph(WithEntry(pool, n, ancestors)), rank[n.tx.id := top])
    ensures AncestorsRight(WithEntry(pool, n, ancestors), rank[n.tx.id := top])
  {
    GraphWith(pool, next, rank, top, n, ancestors);
    NewAncestors(pool, next, rank, top, n, ancestors);
    NewIsThere(pool, n, ancestors);
    var after, ranks := WithEntry(pool, n, ancestors), rank[n.tx.id := top];
    hide WithEntry, Total, Anc, AllReached, Ranked;
    forall y | y in after
      ensures AncestorsAt(after, ranks, y)
    {
      if y in pool {
        assert AncestorsAt(pool, rank, y);
        OldAncestors(pool, next, rank, top, n, ancestors, y);
        JoinedAt(pool, n, ancestors, y);
        TotalsWith(pool, n, ancestors, Anc(pool, rank, y));
      } else {
        TotalsWith(pool, n, ancestors, ancestors);
      }
    }
  }

  lemma {:induction false} AncestorsCoveredWith(pool: Pool, next: Spent, rank: Rank, top: nat, n: TxEntry,
      ancestors: set<TxId>)
    requires Adding(pool, next, rank, top, n, ancestors) && AncestorsCovered(pool, rank)
    requires n.anc == n.Own().Plus(Total(pool, ancestors))
    ensures Ranked(ParentGraph(WithEntry(pool, n, ancestors)), rank[n.tx.id := top])
    ensures AncestorsCovered(WithEntry(pool, n, ancestors), rank[n.tx.id := top])
  {
    hide WithEntry, Total, Anc, AllReached, Ranked;
    GraphWith(pool, next, rank, top, n, ancestors);
    NewAncestors(pool, next, rank, top, n, ancestors);
    NewIsThere(pool, n, ancestors);
    var after, ranks := WithEntry(pool, n, ancestors), rank[n.tx.id := top];
    forall y | y in after
      ensures AncestorsCoveredAt(after, ranks, y)
    {
      if y in pool {
        assert AncestorsCoveredAt(pool, rank, y);
        OldAncestors(pool, next, rank, top, n, ancestors, y);
        JoinedAt(pool, n, ancestors, y);
        TotalsWith(pool, n, ancestors, Anc(pool, rank, y));
      } else {
        AncestorsInside(pool, next, rank, top, n, ancestors);
        TotalsWith(pool, n, ancestors, ancestors);
        PlusKnown(n, Total(pool, ancestors));
      }
    }
  }

  lemma {:induction false} AncestorsInside(pool: Pool, next: Spent, rank: Rank, top: nat, n: TxEntry,
      ancestors: set<TxId>)
    requires Adding(pool, next, rank, top, n, ancestors)
    ensures ancestors <= pool.Keys
  {
  }

  lemma {:induction false} PlusKnown(n: TxEntry, w: Weight)
    ensures n.Own().Plus(w).count == 1 + w.count && n.Own().Plus(w).size == n.size + w.size
  {
  }

  lemma {:induction false} CoveredWith(pool: Pool, next: Spent, rank: Rank, top: nat, n: TxEntry,
      ancestors: set<TxId>, y: TxId)
    requires Adding(pool, next, rank, top, n, ancestors) && y in pool && DescendantsAt(pool, rank, y)
    requires Ranked(ParentGraph(WithEntry(pool, n, ancestors)), rank[n.tx.id := top])
    ensures DescendantsAt(WithEntry(pool, n, ancestors), rank[n.tx.id := top], y)
  {
    var after := WithEntry(pool, n, ancestors);
    NewIsThere(pool, n, ancestors);
    hide WithEntry, Total, Desc, AllReached, Ranked, LinksRight;
    NewDescendants(pool, next, rank, top, n, ancestors, y);
    JoinedAt(pool, n, ancestors, y);
    var was := Desc(pool, rank, y);
    TotalsWith(pool, n, ancestors, was);
    if y in ancestors {
      TotalWith(after, was, n.tx.id);
      var t := Total(after, was);
      assert t.Plus(n.Own()).count == t.count + 1 && t.Plus(n.Own()).size == t.size + n.size;
    } else {
      assert was + {} == was;
    }
  }

  lemma {:induction false} DescendantsWith(pool: Pool, next: Spent, rank: Rank, top: nat, n: TxEntry,
      ancestors: set<TxId>)
    requires Adding(pool, next, rank, top, n, ancestors) && DescendantsCovered(pool, rank)
    requires n.descCount == 1 && n.descSize == n.size
    ensures Ranked(ParentGraph(WithEntry(pool, n, ancestors)), rank[n.tx.id := top])
    ensures DescendantsCovered(WithEntry(pool, n, ancestors), rank[n.tx.id := top])
  {
    GraphWith(pool, next, rank, top, n, ancestors);
    NewIsThere(pool, n, ancestors);
    var after, ranks := WithEntry(pool, n, ancestors), rank[n.tx.id := top];
    TotalOfNone(after);
    hide WithEntry, Total, Desc, AllReached, Ranked;
    forall y | y in after
      ensures DescendantsAt(after, ranks, y)
    {
      if y in pool {
        assert DescendantsAt(pool, rank, y);
        CoveredWith(pool, next, rank, top, n, ancestors, y);
      } else {
        NewDescendants(pool, next, rank, top, n, ancestors, y);
      }
    }
  }

  /* Spent outputs and sums */

  function SpentWith(next: Spent, tx: Tx): Spent {
    next + map o | o in tx.ins :: tx.id
  }

  lemma {:induction false} SpentRightWith(pool: Pool, next: Spent, n: TxEntry, ancestors: set<TxId>)
    requires SpentRight(pool, next) && Addable(pool, next, n.tx)
    ensures SpentRight(WithEntry(pool, n, ancestors), SpentWith(next, n.tx))
  {
    var after, now := WithEntry(pool, n, ancestors), SpentWith(next, n.tx);
    hide WithEntry;
    NewIsThere(pool, n, ancestors);
    forall y | y in after
      ensures SpendsAt(after, now, y)
    {
      if y in pool {
        JoinedAt(pool, n, ancestors, y);
        assert SpendsAt(pool, next, y);
      }
    }
    forall o | o in now
      ensures SpenderAt(after, now, o)
    {
      if o !in n.tx.ins {
        assert SpenderAt(pool, next, o);
        JoinedAt(pool, n, ancestors, next[o]);
      }
    }
  }

  lemma {:induction false} SumsRightWith(pool: Pool, n: TxEntry, ancestors: set<TxId>, totalTxSize: int, usage: int)
    requires SumsRight(pool, totalTxSize, usage) && n.tx.id !in pool
    ensures SumsRight(WithEntry(pool, n, ancestors), totalTxSize + n.size, usage + n.usage)
  {
    var after := WithEntry(pool, n, ancestors);
    NewIsThere(pool, n, ancestors);
    hide WithEntry, Total, Usage;
    TotalsWith(pool, n, ancestors, pool.Keys);
    TotalWith(after, pool.Keys, n.tx.id);
    UsageWithout(after, after.Keys, n.tx.id);
    assert after.Keys - {n.tx.id} == pool.Keys;
    var t := Total(after, pool.Keys);
    assert t.Plus(n.Own()).size == t.size + n.size;
  }

  lemma {:induction false} InvariantAfterAdd(pool: Pool, next: Spent, totalTxSize: int, usage: int, rank: Rank,
      top: nat, n: TxEntry, ancestors: set<TxId>)
    requires PoolInvariant(pool, next, totalTxSize, usage, rank, top) && Adding(pool, next, rank, top, n, ancestors)
    requires n.anc == n.Own().Plus(Total(pool, ancestors)) && n.descCount == 1 && n.descSize == n.size
    ensures PoolInvariant(WithEntry(pool, n, ancestors), SpentWith(next, n.tx), totalTxSize + n.size, usage + n.usage,
                          rank[n.tx.id := top], top + 1)
  {
    hide WithEntry, SpentWith, LinksRight, SpentRight, AncestorsCovered, DescendantsCovered, SumsRight, Ranked, RanksBelow,
         AllReached, Total;
    GraphWith(pool, next, rank, top, n, ancestors);
    LinksWith(pool, next, n, ancestors);
    AncestorsCoveredWith(pool, next, rank, top, n, ancestors);
    DescendantsWith(pool, next, rank, top, n, ancestors);
    SpentRightWith(pool, next, n, ancestors);
    SumsRightWith(pool, n, ancestors, totalTxSize, usage);
  }
}
